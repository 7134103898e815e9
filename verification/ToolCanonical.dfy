/**
 Canonical form of a request's tools: `_canonicalize_tools`, `_tool_sort_key` and
 `_sort_keys_recursive` of app/core/openai/requests.py.
 */
module ToolCanonical {
  import opened Options
  import opened Json
  import opened Ordering

  // ---------- Sorting object keys at every depth ----------

  /** Inserts a field into a list sorted by key. */
  function InsertField(f: Field, sorted: seq<Field>): (r: seq<Field>)
    ensures |r| == |sorted| + 1
  {
    if sorted == [] then [f]
    else if AtMost(f.key, sorted[0].key) then [f] + sorted
    else [sorted[0]] + InsertField(f, sorted[1..])
  }

  function SortKeys(j: Json): Json
    decreases j, 1
  {
    match j
    case Arr(items) => Arr(SortItems(items))
    case Obj(fields) => Obj(SortFields(fields))
    case _ => j
  }

  function SortItems(items: seq<Json>): (r: seq<Json>)
    ensures |r| == |items|
    decreases items, 0
  {
    if items == [] then [] else [SortKeys(items[0])] + SortItems(items[1..])
  }

  function SortFields(fields: seq<Field>): (r: seq<Field>)
    ensures |r| == |fields|
    decreases fields, 0
  {
    if fields == [] then []
    else InsertField(Field(fields[0].key, SortKeys(fields[0].value)), SortFields(fields[1..]))
  }

  predicate StrictlySorted(fields: seq<Field>) {
    forall i, j :: 0 <= i < j < |fields| ==> Less(fields[i].key, fields[j].key)
  }

  lemma {:induction false} SortItemsAt(items: seq<Json>, i: nat)
    requires i < |items|
    ensures SortItems(items)[i] == SortKeys(items[i])
    decreases |items|
  {
    if i > 0 {
      SortItemsAt(items[1..], i - 1);
    }
  }

  /** What insertion adds, as a set of fields. */
  lemma {:induction false} InsertHolds(f: Field, sorted: seq<Field>, g: Field)
    ensures g in InsertField(f, sorted) <==> g == f || g in sorted
    decreases |sorted|
  {
    if sorted != [] && !AtMost(f.key, sorted[0].key) {
      InsertHolds(f, sorted[1..], g);
      assert g in sorted <==> g == sorted[0] || g in sorted[1..];
    }
  }

  lemma {:induction false} InsertKeepsSorted(f: Field, sorted: seq<Field>)
    requires StrictlySorted(sorted) && forall g :: g in sorted ==> g.key != f.key
    ensures StrictlySorted(InsertField(f, sorted))
    decreases |sorted|
  {
    if sorted != [] {
      if AtMost(f.key, sorted[0].key) {
        assert sorted[0] in sorted;
        forall j | 0 <= j < |sorted| ensures Less(f.key, sorted[j].key) {
          if j > 0 {
            LessIsTransitive(f.key, sorted[0].key, sorted[j].key);
          }
        }
      } else {
        InsertKeepsSorted(f, sorted[1..]);
        var rest := InsertField(f, sorted[1..]);
        LessIsTotal(f.key, sorted[0].key);
        forall j | 0 <= j < |rest| ensures Less(sorted[0].key, rest[j].key) {
          InsertHolds(f, sorted[1..], rest[j]);
          assert rest[j] in rest;
        }
      }
    }
  }

  /** The sorted field `g` comes from an input field. */
  predicate SortedFrom(fields: seq<Field>, g: Field) {
    exists i :: 0 <= i < |fields| && g == Field(fields[i].key, SortKeys(fields[i].value))
  }

  lemma {:induction false} SortFieldsHolds(fields: seq<Field>, g: Field)
    ensures g in SortFields(fields) <==> SortedFrom(fields, g)
    decreases |fields|
  {
    if fields != [] {
      var f := Field(fields[0].key, SortKeys(fields[0].value));
      InsertHolds(f, SortFields(fields[1..]), g);
      SortFieldsHolds(fields[1..], g);
      if SortedFrom(fields, g) && g != f {
        var i :| 0 <= i < |fields| && g == Field(fields[i].key, SortKeys(fields[i].value));
        assert fields[1..][i - 1] == fields[i];
      }
    }
  }

  lemma {:induction false} SortFieldsSorted(fields: seq<Field>)
    requires UniqueKeys(fields)
    ensures StrictlySorted(SortFields(fields))
    decreases |fields|
  {
    if fields != [] {
      var rest := SortFields(fields[1..]);
      SortFieldsSorted(fields[1..]);
      forall g | g in rest ensures g.key != fields[0].key {
        SortFieldsHolds(fields[1..], g);
        var i :| 0 <= i < |fields[1..]| && g == Field(fields[1..][i].key, SortKeys(fields[1..][i].value));
        assert fields[1..][i] == fields[i + 1];
      }
      InsertKeepsSorted(Field(fields[0].key, SortKeys(fields[0].value)), rest);
    }
  }

  lemma {:induction false} SortedIsUnique(fields: seq<Field>)
    requires StrictlySorted(fields)
    ensures UniqueKeys(fields)
  {
    forall i, j | 0 <= i < j < |fields| ensures fields[i].key != fields[j].key {
      LessIsAsymmetric(fields[i].key, fields[j].key);
    }
  }

  /** A strictly sorted list is determined by its fields. */
  lemma {:induction false} SortedIsDetermined(xs: seq<Field>, ys: seq<Field>)
    requires StrictlySorted(xs) && StrictlySorted(ys)
    requires forall g :: g in xs <==> g in ys
    ensures xs == ys
    decreases |xs|
  {
    HoldsFirst(xs);
    HoldsFirst(ys);
    if xs != [] {
      if xs[0] != ys[0] {
        LessIsAsymmetric(xs[0].key, ys[0].key);
      }
      forall g ensures g in xs[1..] <==> g in ys[1..] {
        TailHolds(xs, g);
        TailHolds(ys, g);
      }
      SortedIsDetermined(xs[1..], ys[1..]);
      assert xs == [xs[0]] + xs[1..] && ys == [ys[0]] + ys[1..];
    }
  }

  lemma {:induction false} HoldsFirst(xs: seq<Field>)
    ensures xs == [] <==> forall g :: g !in xs
    ensures xs != [] ==> xs[0] in xs
  {
    if xs != [] {
      assert xs[0] in xs;
    }
  }

  lemma {:induction false} TailHolds(xs: seq<Field>, g: Field)
    requires StrictlySorted(xs) && xs != []
    ensures g in xs[1..] <==> g in xs && g != xs[0]
  {
    if g in xs[1..] {
      var i :| 0 <= i < |xs[1..]| && xs[1..][i] == g;
      assert xs[i + 1] == g;
      LessIsAsymmetric(xs[0].key, xs[i + 1].key);
    }
  }

  /** Sorting keeps well-formedness and the meaning. */
  lemma {:induction false} SortKeepsMeaning(j: Json)
    requires WellFormed(j)
    ensures WellFormed(SortKeys(j)) && Denote(SortKeys(j)) == Denote(j)
    decreases j
  {
    match j
    case Arr(items) =>
      var sorted := SortItems(items);
      forall i | 0 <= i < |items|
        ensures WellFormed(sorted[i]) && DenoteItems(sorted)[i] == DenoteItems(items)[i]
      {
        SortKeepsMeaning(items[i]);
        SortItemsAt(items, i);
        DenoteItemsAt(items, i);
        DenoteItemsAt(sorted, i);
      }
      assert DenoteItems(sorted) == DenoteItems(items);
    case Obj(fields) =>
      var sorted := SortFields(fields);
      SortFieldsSorted(fields);
      SortedIsUnique(sorted);
      forall i | 0 <= i < |fields|
        ensures WellFormed(SortKeys(fields[i].value)) && Denote(SortKeys(fields[i].value)) == Denote(fields[i].value)
      {
        SortKeepsMeaning(fields[i].value);
      }
      SortFieldsKeepMeaning(fields);
      forall k | 0 <= k < |sorted| ensures WellFormed(sorted[k].value) {
        SortFieldsHolds(fields, sorted[k]);
      }
    case _ =>
  }

  lemma {:induction false} SortFieldsKeepMeaning(fields: seq<Field>)
    requires UniqueKeys(fields)
    requires forall i :: 0 <= i < |fields| ==> Denote(SortKeys(fields[i].value)) == Denote(fields[i].value)
    ensures DenoteFields(SortFields(fields)) == DenoteFields(fields)
  {
    var sorted := SortFields(fields);
    SortFieldsSorted(fields);
    SortedIsUnique(sorted);
    forall k
      ensures k in DenoteFields(sorted) <==> k in DenoteFields(fields)
      ensures k in DenoteFields(fields) ==> k in DenoteFields(sorted) && DenoteFields(sorted)[k] == DenoteFields(fields)[k]
    {
      DenoteFieldsKeys(sorted, k);
      DenoteFieldsKeys(fields, k);
      if HasKey(fields, k) {
        var i :| 0 <= i < |fields| && fields[i].key == k;
        var g := Field(k, SortKeys(fields[i].value));
        SortFieldsHolds(fields, g);
        var n :| 0 <= n < |sorted| && sorted[n] == g;
        DenoteFieldsAt(fields, i);
        DenoteFieldsAt(sorted, n);
      }
      if HasKey(sorted, k) {
        var n :| 0 <= n < |sorted| && sorted[n].key == k;
        SortFieldsHolds(fields, sorted[n]);
      }
    }
  }

  /** Equal meanings are sorted into identical values. */
  lemma {:induction false} MeaningDeterminesSorted(a: Json, b: Json)
    requires WellFormed(a) && WellFormed(b) && Denote(a) == Denote(b)
    ensures SortKeys(a) == SortKeys(b)
    decreases a
  {
    match a
    case Arr(xs) =>
      var ys := b.items;
      forall i | 0 <= i < |xs| ensures SortItems(xs)[i] == SortItems(ys)[i] {
        DenoteItemsAt(xs, i);
        DenoteItemsAt(ys, i);
        SortItemsAt(xs, i);
        SortItemsAt(ys, i);
        MeaningDeterminesSorted(xs[i], ys[i]);
      }
      assert SortItems(xs) == SortItems(ys);
    case Obj(xs) =>
      var ys := b.fields;
      SortFieldsSorted(xs);
      SortFieldsSorted(ys);
      forall i, k | 0 <= i < |xs| && 0 <= k < |ys| && xs[i].key == ys[k].key
        ensures SortKeys(xs[i].value) == SortKeys(ys[k].value)
      {
        DenoteFieldsAt(xs, i);
        DenoteFieldsAt(ys, k);
        MeaningDeterminesSorted(xs[i].value, ys[k].value);
      }
      forall g ensures g in SortFields(xs) <==> g in SortFields(ys) {
        SameSortedFields(xs, ys, g);
      }
      SortedIsDetermined(SortFields(xs), SortFields(ys));
    case _ =>
  }

  lemma {:induction false} SameSortedFields(xs: seq<Field>, ys: seq<Field>, g: Field)
    requires DenoteFields(xs) == DenoteFields(ys)
    requires forall i, k :: 0 <= i < |xs| && 0 <= k < |ys| && xs[i].key == ys[k].key ==>
               SortKeys(xs[i].value) == SortKeys(ys[k].value)
    ensures g in SortFields(xs) <==> g in SortFields(ys)
  {
    SortFieldsHolds(xs, g);
    SortFieldsHolds(ys, g);
    DenoteFieldsKeys(xs, g.key);
    DenoteFieldsKeys(ys, g.key);
    if SortedFrom(xs, g) {
      var i :| 0 <= i < |xs| && g == Field(xs[i].key, SortKeys(xs[i].value));
      assert HasKey(xs, g.key);
      var k :| 0 <= k < |ys| && ys[k].key == g.key;
      assert SortedFrom(ys, g);
    }
    if SortedFrom(ys, g) {
      var k :| 0 <= k < |ys| && g == Field(ys[k].key, SortKeys(ys[k].value));
      assert HasKey(ys, g.key);
      var i :| 0 <= i < |xs| && xs[i].key == g.key;
      assert SortedFrom(xs, g);
    }
  }

  /** A true canonical form: the same ordered value exactly when the same JSON meaning. */
  lemma {:induction false} SortKeysIsCanonical(a: Json, b: Json)
    requires WellFormed(a) && WellFormed(b)
    ensures SortKeys(a) == SortKeys(b) <==> Denote(a) == Denote(b)
  {
    SortKeepsMeaning(a);
    SortKeepsMeaning(b);
    if Denote(a) == Denote(b) {
      MeaningDeterminesSorted(a, b);
    }
  }

  // ---------- The sort key of a tool ----------

  function ToolSortKey(tool: Json): string {
    if !tool.Obj? then ""
    else
      var name := Get(tool.fields, "name");
      if name.Str? then name.s
      else
        var func := Get(tool.fields, "function");
        if func.Obj? && Get(func.fields, "name").Str? then Get(func.fields, "name").s else ""
  }

  function MeaningAt(m: map<string, Meaning>, key: string): Meaning {
    if key in m then m[key] else MNull
  }

  function MeaningSortKey(m: Meaning): string {
    if !m.MObj? then ""
    else
      var name := MeaningAt(m.fields, "name");
      if name.MStr? then name.s
      else
        var func := MeaningAt(m.fields, "function");
        if func.MObj? && MeaningAt(func.fields, "name").MStr? then MeaningAt(func.fields, "name").s else ""
  }

  /** The sort key depends on the meaning only. */
  lemma {:induction false} SortKeyOfMeaning(tool: Json)
    ensures ToolSortKey(tool) == MeaningSortKey(Denote(tool))
  {
    if tool.Obj? {
      GetIsDenoted(tool.fields, "name");
      GetIsDenoted(tool.fields, "function");
      var func := Get(tool.fields, "function");
      if func.Obj? {
        GetIsDenoted(func.fields, "name");
      }
    }
  }

  // ---------- Stable sorting of the tools ----------

  /** `x` goes before the first tool whose key is not smaller. */
  function InsertTool(x: Json, sorted: seq<Json>): seq<Json> {
    if sorted == [] then [x]
    else if AtMost(ToolSortKey(x), ToolSortKey(sorted[0])) then [x] + sorted
    else [sorted[0]] + InsertTool(x, sorted[1..])
  }

  function SortTools(tools: seq<Json>): seq<Json> {
    if tools == [] then [] else InsertTool(tools[0], SortTools(tools[1..]))
  }

  function Canonicalize(tools: seq<Json>): seq<Json> {
    SortItems(SortTools(tools))
  }

  /** The tools with a given sort key, in order. */
  function WithKey(tools: seq<Json>, key: string): seq<Json> {
    if tools == [] then []
    else (if ToolSortKey(tools[0]) == key then [tools[0]] else []) + WithKey(tools[1..], key)
  }

  predicate SortedTools(tools: seq<Json>) {
    forall i, j :: 0 <= i < j < |tools| ==> AtMost(ToolSortKey(tools[i]), ToolSortKey(tools[j]))
  }

  predicate AllWellFormed(tools: seq<Json>) {
    forall i :: 0 <= i < |tools| ==> WellFormed(tools[i])
  }

  lemma {:induction false} AtMostIsTransitive(a: string, b: string, c: string)
    requires AtMost(a, b) && AtMost(b, c)
    ensures AtMost(a, c)
  {
    if a != b && b != c {
      LessIsTransitive(a, b, c);
    }
  }

  lemma {:induction false} InsertToolHolds(x: Json, sorted: seq<Json>, t: Json)
    ensures t in InsertTool(x, sorted) <==> t == x || t in sorted
    decreases |sorted|
  {
    if sorted != [] && !AtMost(ToolSortKey(x), ToolSortKey(sorted[0])) {
      InsertToolHolds(x, sorted[1..], t);
      assert t in sorted <==> t == sorted[0] || t in sorted[1..];
    }
  }

  lemma {:induction false} InsertToolSorted(x: Json, sorted: seq<Json>)
    requires SortedTools(sorted)
    ensures SortedTools(InsertTool(x, sorted))
    decreases |sorted|
  {
    if sorted != [] {
      var key, first := ToolSortKey(x), ToolSortKey(sorted[0]);
      if AtMost(key, first) {
        forall j | 0 <= j < |sorted| ensures AtMost(key, ToolSortKey(sorted[j])) {
          if j > 0 {
            AtMostIsTransitive(key, first, ToolSortKey(sorted[j]));
          }
        }
      } else {
        InsertToolSorted(x, sorted[1..]);
        var rest := InsertTool(x, sorted[1..]);
        LessIsTotal(key, first);
        forall j | 0 <= j < |rest| ensures AtMost(first, ToolSortKey(rest[j])) {
          InsertToolHolds(x, sorted[1..], rest[j]);
          assert rest[j] in rest;
        }
      }
    }
  }

  lemma {:induction false} WithKeyPush(x: Json, tools: seq<Json>, key: string)
    ensures WithKey([x] + tools, key) == (if ToolSortKey(x) == key then [x] else []) + WithKey(tools, key)
  {
    assert ([x] + tools)[1..] == tools;
  }

  /** Insertion is stable: for every key, `x` comes before the tools already there. */
  lemma {:induction false} InsertToolStable(x: Json, sorted: seq<Json>, key: string)
    requires SortedTools(sorted)
    ensures WithKey(InsertTool(x, sorted), key) == (if ToolSortKey(x) == key then [x] else []) + WithKey(sorted, key)
    decreases |sorted|
  {
    hide WithKey;
    hide ToolSortKey;
    hide Less;
    WithKeyPush(x, sorted, key);
    if sorted != [] && !AtMost(ToolSortKey(x), ToolSortKey(sorted[0])) {
      var first, rest := sorted[0], InsertTool(x, sorted[1..]);
      InsertToolStable(x, sorted[1..], key);
      WithKeyPush(first, rest, key);
      WithKeyPush(first, sorted[1..], key);
      assert sorted == [first] + sorted[1..];
      assert ToolSortKey(x) != ToolSortKey(first);
    } else {
      assert InsertTool(x, sorted) == [x] + sorted;
    }
  }

  lemma {:induction false} SortToolsFacts(tools: seq<Json>)
    ensures SortedTools(SortTools(tools))
    ensures forall key :: WithKey(SortTools(tools), key) == WithKey(tools, key)
    decreases |tools|
  {
    if tools != [] {
      SortToolsFacts(tools[1..]);
      InsertToolSorted(tools[0], SortTools(tools[1..]));
      forall key ensures WithKey(SortTools(tools), key) == WithKey(tools, key) {
        InsertToolStable(tools[0], SortTools(tools[1..]), key);
      }
    }
  }

  ghost predicate SameByKey(xs: seq<Json>, ys: seq<Json>) {
    forall key :: WithKey(xs, key) == WithKey(ys, key)
  }

  lemma {:induction false} WithKeyMember(tools: seq<Json>, key: string)
    ensures WithKey(tools, key) != [] <==> exists i :: 0 <= i < |tools| && ToolSortKey(tools[i]) == key
    decreases |tools|
  {
    if tools != [] {
      WithKeyMember(tools[1..], key);
      assert forall i :: 0 <= i < |tools[1..]| ==> tools[1..][i] == tools[i + 1];
      assert forall i :: 0 < i < |tools| ==> tools[i] == tools[1..][i - 1];
    }
  }

  lemma {:induction false} FirstKeyIsLeast(xs: seq<Json>, ys: seq<Json>)
    requires SortedTools(ys) && xs != [] && SameByKey(xs, ys)
    ensures ys != [] && AtMost(ToolSortKey(ys[0]), ToolSortKey(xs[0]))
  {
    var key := ToolSortKey(xs[0]);
    assert WithKey(xs, key) == WithKey(ys, key);
    WithKeyMember(xs, key);
    WithKeyMember(ys, key);
    var i :| 0 <= i < |ys| && ToolSortKey(ys[i]) == key;
  }

  lemma {:induction false} SameFirstTool(xs: seq<Json>, ys: seq<Json>)
    requires SortedTools(xs) && SortedTools(ys) && xs != [] && ys != [] && SameByKey(xs, ys)
    ensures xs[0] == ys[0] && SameByKey(xs[1..], ys[1..])
  {
    FirstKeyIsLeast(xs, ys);
    FirstKeyIsLeast(ys, xs);
    var key := ToolSortKey(xs[0]);
    if ToolSortKey(ys[0]) != key {
      LessIsAsymmetric(key, ToolSortKey(ys[0]));
    }
    assert xs == [xs[0]] + xs[1..] && ys == [ys[0]] + ys[1..];
    hide WithKey;
    hide ToolSortKey;
    hide Less;
    WithKeyPush(xs[0], xs[1..], key);
    WithKeyPush(ys[0], ys[1..], key);
    assert WithKey(xs, key)[0] == xs[0] && WithKey(ys, key)[0] == ys[0];
    forall k ensures WithKey(xs[1..], k) == WithKey(ys[1..], k) {
      WithKeyPush(xs[0], xs[1..], k);
      WithKeyPush(ys[0], ys[1..], k);
      assert WithKey(xs, k) == WithKey(ys, k);
      var head := if k == key then [xs[0]] else [];
      assert (head + WithKey(xs[1..], k))[|head|..] == WithKey(xs[1..], k);
      assert (head + WithKey(ys[1..], k))[|head|..] == WithKey(ys[1..], k);
    }
  }

  /** A sorted list is determined by its sublists of equal key. */
  lemma {:induction false} SortedToolsDetermined(xs: seq<Json>, ys: seq<Json>)
    requires SortedTools(xs) && SortedTools(ys) && SameByKey(xs, ys)
    ensures xs == ys
    decreases |xs|
  {
    if xs != [] {
      FirstKeyIsLeast(xs, ys);
      SameFirstTool(xs, ys);
      SortedToolsDetermined(xs[1..], ys[1..]);
      assert xs == [xs[0]] + xs[1..] && ys == [ys[0]] + ys[1..];
    } else {
      NoKeyNoTool(ys);
    }
  }

  lemma {:induction false} NoKeyNoTool(ys: seq<Json>)
    requires SameByKey([], ys)
    ensures ys == []
  {
    var key := if ys == [] then "" else ToolSortKey(ys[0]);
    assert WithKey([], key) == WithKey(ys, key);
    WithKeyMember(ys, key);
  }

  // ---------- The canonical form of a list of tools ----------

  lemma {:induction false} SortKeysKeepsToolKey(t: Json)
    requires WellFormed(t)
    ensures ToolSortKey(SortKeys(t)) == ToolSortKey(t)
  {
    SortKeepsMeaning(t);
    SortKeyOfMeaning(t);
    SortKeyOfMeaning(SortKeys(t));
  }

  lemma {:induction false} WithKeyOfSortItems(tools: seq<Json>, key: string)
    requires AllWellFormed(tools)
    ensures WithKey(SortItems(tools), key) == SortItems(WithKey(tools, key))
    decreases |tools|
  {
    if tools != [] {
      var sorted := SortItems(tools);
      assert sorted[1..] == SortItems(tools[1..]);
      SortKeysKeepsToolKey(tools[0]);
      WithKeyOfSortItems(tools[1..], key);
      var rest := WithKey(tools[1..], key);
      if ToolSortKey(tools[0]) == key {
        assert ([tools[0]] + rest)[1..] == rest;
      } else {
        assert [] + rest == rest;
      }
    }
  }

  lemma {:induction false} SortToolsHolds(tools: seq<Json>, t: Json)
    ensures t in SortTools(tools) <==> t in tools
    decreases |tools|
  {
    if tools != [] {
      SortToolsHolds(tools[1..], t);
      InsertToolHolds(tools[0], SortTools(tools[1..]), t);
      assert t in tools <==> t == tools[0] || t in tools[1..];
    }
  }

  lemma {:induction false} SortedStaysWellFormed(tools: seq<Json>)
    requires AllWellFormed(tools)
    ensures AllWellFormed(SortTools(tools)) && AllWellFormed(Canonicalize(tools))
  {
    var sorted := SortTools(tools);
    forall i | 0 <= i < |sorted| ensures WellFormed(sorted[i]) && WellFormed(Canonicalize(tools)[i]) {
      SortToolsHolds(tools, sorted[i]);
      SortItemsAt(sorted, i);
      SortKeepsMeaning(sorted[i]);
    }
  }

  lemma {:induction false} CanonicalFacts(tools: seq<Json>)
    requires AllWellFormed(tools)
    ensures SortedTools(Canonicalize(tools))
    ensures forall key :: WithKey(Canonicalize(tools), key) == SortItems(WithKey(tools, key))
  {
    var sorted := SortTools(tools);
    SortToolsFacts(tools);
    SortedStaysWellFormed(tools);
    forall key ensures WithKey(Canonicalize(tools), key) == SortItems(WithKey(tools, key)) {
      WithKeyOfSortItems(sorted, key);
    }
    forall i | 0 <= i < |sorted| ensures ToolSortKey(Canonicalize(tools)[i]) == ToolSortKey(sorted[i]) {
      SortItemsAt(sorted, i);
      SortKeysKeepsToolKey(sorted[i]);
    }
  }

  /** The tool's own name, or else the name of its function. */
  predicate IsNamed(tool: Json, name: string) {
    && tool.Obj?
    && (|| Get(tool.fields, "name") == Str(name)
        || (&& !Get(tool.fields, "name").Str? && Get(tool.fields, "function").Obj?
            && Get(Get(tool.fields, "function").fields, "name") == Str(name)))
  }

  ghost predicate HasNoName(tool: Json) {
    forall name :: !IsNamed(tool, name)
  }

  lemma {:induction false} KeyIsName(tool: Json, name: string)
    ensures IsNamed(tool, name) ==> ToolSortKey(tool) == name
    ensures HasNoName(tool) ==> ToolSortKey(tool) == ""
  {
    assert tool.Obj? && Get(tool.fields, "name").Str? ==> IsNamed(tool, Get(tool.fields, "name").s);
    if tool.Obj? && Get(tool.fields, "function").Obj? {
      var inner := Get(Get(tool.fields, "function").fields, "name");
      assert inner.Str? && !Get(tool.fields, "name").Str? ==> IsNamed(tool, inner.s);
    }
  }

  /** Named tools come out in ascending order of their names, after those without one. */
  lemma {:induction false} NamesAscend(tools: seq<Json>, i: nat, j: nat, a: string, b: string)
    requires AllWellFormed(tools) && i < j < |Canonicalize(tools)|
    ensures var x, y := Canonicalize(tools)[i], Canonicalize(tools)[j];
            && (IsNamed(x, a) && IsNamed(y, b) ==> AtMost(a, b))
            && (IsNamed(x, a) && HasNoName(y) ==> a == "")
  {
    CanonicalFacts(tools);
    var x, y := Canonicalize(tools)[i], Canonicalize(tools)[j];
    KeyIsName(x, a);
    KeyIsName(y, b);
    hide Canonicalize;
    hide IsNamed;
    hide ToolSortKey;
  }

  lemma {:induction false} WithKeyWellFormed(tools: seq<Json>, key: string)
    requires AllWellFormed(tools)
    ensures AllWellFormed(WithKey(tools, key))
    decreases |tools|
  {
    if tools != [] {
      WithKeyWellFormed(tools[1..], key);
    }
  }

  lemma {:induction false} ItemsCanonical(xs: seq<Json>, ys: seq<Json>)
    requires AllWellFormed(xs) && AllWellFormed(ys)
    ensures SortItems(xs) == SortItems(ys) <==> DenoteItems(xs) == DenoteItems(ys)
  {
    if |xs| == |ys| {
      forall i | 0 <= i < |xs|
        ensures SortItems(xs)[i] == SortItems(ys)[i] <==> DenoteItems(xs)[i] == DenoteItems(ys)[i]
      {
        SortItemsAt(xs, i);
        SortItemsAt(ys, i);
        DenoteItemsAt(xs, i);
        DenoteItemsAt(ys, i);
        SortKeysIsCanonical(xs[i], ys[i]);
      }
    }
  }

  ghost predicate SameMeaningByKey(xs: seq<Json>, ys: seq<Json>) {
    forall key :: DenoteItems(WithKey(xs, key)) == DenoteItems(WithKey(ys, key))
  }

  /**
   Two tool lists become the same ordered list exactly when, for every sort key, their tools
   with that key mean the same in the same order.
   */
  lemma {:induction false} CanonicalExactly(xs: seq<Json>, ys: seq<Json>)
    requires AllWellFormed(xs) && AllWellFormed(ys)
    ensures Canonicalize(xs) == Canonicalize(ys) <==> SameMeaningByKey(xs, ys)
  {
    CanonicalFacts(xs);
    CanonicalFacts(ys);
    forall key
      ensures WithKey(Canonicalize(xs), key) == WithKey(Canonicalize(ys), key)
         <==> DenoteItems(WithKey(xs, key)) == DenoteItems(WithKey(ys, key))
    {
      WithKeyWellFormed(xs, key);
      WithKeyWellFormed(ys, key);
      ItemsCanonical(WithKey(xs, key), WithKey(ys, key));
    }
    if SameMeaningByKey(xs, ys) {
      assert SameByKey(Canonicalize(xs), Canonicalize(ys));
      SortedToolsDetermined(Canonicalize(xs), Canonicalize(ys));
    }
    if Canonicalize(xs) == Canonicalize(ys) {
      assert SameMeaningByKey(xs, ys);
    }
  }

  /** Canonicalising twice changes nothing. */
  lemma {:induction false} CanonicalizeIsIdempotent(tools: seq<Json>)
    requires AllWellFormed(tools)
    ensures Canonicalize(Canonicalize(tools)) == Canonicalize(tools)
  {
    var c := Canonicalize(tools);
    CanonicalFacts(tools);
    SortedStaysWellFormed(tools);
    CanonicalExactly(c, tools);
    forall key ensures DenoteItems(WithKey(c, key)) == DenoteItems(WithKey(tools, key)) {
      WithKeyWellFormed(tools, key);
      DenoteSorted(WithKey(tools, key));
    }
  }

  lemma {:induction false} DenoteSorted(tools: seq<Json>)
    requires AllWellFormed(tools)
    ensures DenoteItems(SortItems(tools)) == DenoteItems(tools)
  {
    forall i | 0 <= i < |tools| ensures DenoteItems(SortItems(tools))[i] == DenoteItems(tools)[i] {
      SortItemsAt(tools, i);
      DenoteItemsAt(tools, i);
      DenoteItemsAt(SortItems(tools), i);
      SortKeepsMeaning(tools[i]);
    }
  }

  lemma {:induction false} InsertToolMultiset(x: Json, sorted: seq<Json>)
    ensures multiset(DenoteItems(InsertTool(x, sorted))) == multiset{Denote(x)} + multiset(DenoteItems(sorted))
    decreases |sorted|
  {
    if sorted == [] || AtMost(ToolSortKey(x), ToolSortKey(sorted[0])) {
      assert InsertTool(x, sorted) == [x] + sorted;
      assert ([x] + sorted)[1..] == sorted;
    } else {
      var rest := InsertTool(x, sorted[1..]);
      InsertToolMultiset(x, sorted[1..]);
      assert ([sorted[0]] + rest)[1..] == rest;
    }
  }

  lemma {:induction false} SortToolsMultiset(tools: seq<Json>)
    ensures multiset(DenoteItems(SortTools(tools))) == multiset(DenoteItems(tools))
    decreases |tools|
  {
    if tools != [] {
      SortToolsMultiset(tools[1..]);
      InsertToolMultiset(tools[0], SortTools(tools[1..]));
    }
  }

  /** No tool is lost, added or altered in meaning. */
  lemma {:induction false} CanonicalizeKeepsTools(tools: seq<Json>)
    requires AllWellFormed(tools)
    ensures multiset(DenoteItems(Canonicalize(tools))) == multiset(DenoteItems(tools))
  {
    SortToolsMultiset(tools);
    SortedStaysWellFormed(tools);
    DenoteSorted(SortTools(tools));
  }

  // ---------- Distinct sort keys ----------

  predicate DistinctToolKeys(tools: seq<Json>) {
    forall i, j :: 0 <= i < j < |tools| ==> ToolSortKey(tools[i]) != ToolSortKey(tools[j])
  }

  lemma {:induction false} DistinctKeysAreSingletons(tools: seq<Json>, key: string)
    requires DistinctToolKeys(tools)
    ensures |WithKey(tools, key)| <= 1
    decreases |tools|
  {
    if tools != [] {
      DistinctKeysAreSingletons(tools[1..], key);
      WithKeyMember(tools[1..], key);
      assert forall i :: 0 <= i < |tools[1..]| ==> tools[1..][i] == tools[i + 1];
    }
  }

  /** How often a meaning occurs among the tools of one key. */
  predicate CountsAgree(tools: seq<Json>, key: string, m: Meaning) {
    Count(DenoteItems(WithKey(tools, key)), m) ==
    if MeaningSortKey(m) == key then Count(DenoteItems(tools), m) else 0
  }

  lemma {:induction false} CountsAgreeStep(first: Json, tail: seq<Json>, key: string, m: Meaning)
    requires CountsAgree(tail, key, m)
    ensures CountsAgree([first] + tail, key, m)
  {
    SortKeyOfMeaning(first);
    WithKeyPush(first, tail, key);
    DenotePush(first, tail);
    CountPush(Denote(first), DenoteItems(tail), m);
    hide Count;
    hide WithKey;
    hide DenoteItems;
    hide Denote;
    hide ToolSortKey;
    hide MeaningSortKey;
    var kept := WithKey(tail, key);
    if ToolSortKey(first) == key {
      DenotePush(first, kept);
      CountPush(Denote(first), DenoteItems(kept), m);
    } else {
      assert [] + kept == kept;
    }
  }

  lemma {:induction false} WithKeyCounts(tools: seq<Json>, key: string, m: Meaning)
    ensures CountsAgree(tools, key, m)
    decreases |tools|
  {
    if tools != [] {
      WithKeyCounts(tools[1..], key, m);
      hide CountsAgree;
      CountsAgreeStep(tools[0], tools[1..], key, m);
      assert tools == [tools[0]] + tools[1..];
    }
  }

  lemma {:induction false} DenotePush(x: Json, tools: seq<Json>)
    ensures DenoteItems([x] + tools) == [Denote(x)] + DenoteItems(tools)
  {
    assert ([x] + tools)[1..] == tools;
  }

  function Count(ms: seq<Meaning>, m: Meaning): nat {
    multiset(ms)[m]
  }

  lemma {:induction false} CountPush(x: Meaning, ms: seq<Meaning>, m: Meaning)
    ensures Count([x] + ms, m) == Count(ms, m) + if x == m then 1 else 0
  {
  }

  lemma {:induction false} EqualSmallLists(xs: seq<Meaning>, ys: seq<Meaning>)
    requires multiset(xs) == multiset(ys) && |xs| <= 1
    ensures xs == ys
  {
    assert |multiset(xs)| == |xs| && |multiset(ys)| == |ys|;
    if |xs| == 1 {
      assert xs == [xs[0]] && ys == [ys[0]];
      assert xs[0] in multiset(ys);
    }
  }

  /** With distinct sort keys the order of the tools, and of keys inside them, is irrelevant. */
  lemma {:induction false} OrderOfToolsIsIrrelevant(xs: seq<Json>, ys: seq<Json>)
    requires AllWellFormed(xs) && AllWellFormed(ys) && DistinctToolKeys(xs)
    ensures Canonicalize(xs) == Canonicalize(ys) <==> multiset(DenoteItems(xs)) == multiset(DenoteItems(ys))
  {
    CanonicalizeKeepsTools(xs);
    CanonicalizeKeepsTools(ys);
    CanonicalExactly(xs, ys);
    if multiset(DenoteItems(xs)) == multiset(DenoteItems(ys)) {
      forall key ensures DenoteItems(WithKey(xs, key)) == DenoteItems(WithKey(ys, key)) {
        SameWithKey(xs, ys, key);
      }
    }
  }

  lemma {:induction false} SameWithKey(xs: seq<Json>, ys: seq<Json>, key: string)
    requires DistinctToolKeys(xs) && multiset(DenoteItems(xs)) == multiset(DenoteItems(ys))
    ensures DenoteItems(WithKey(xs, key)) == DenoteItems(WithKey(ys, key))
  {
    DistinctKeysAreSingletons(xs, key);
    var a, b := DenoteItems(WithKey(xs, key)), DenoteItems(WithKey(ys, key));
    forall m ensures multiset(a)[m] == multiset(b)[m] {
      WithKeyCounts(xs, key, m);
      WithKeyCounts(ys, key, m);
      assert Count(a, m) == multiset(a)[m] && Count(b, m) == multiset(b)[m];
    }
    assert multiset(a) == multiset(b);
    EqualSmallLists(a, b);
  }

  /** Different tools sharing a sort key keep the order in which they came. */
  lemma {:induction false} EqualKeysKeepInputOrder(a: Json, b: Json)
    requires WellFormed(a) && WellFormed(b) && ToolSortKey(a) == ToolSortKey(b) && Denote(a) != Denote(b)
    ensures Canonicalize([a, b]) != Canonicalize([b, a])
  {
    var key := ToolSortKey(a);
    CanonicalExactly([a, b], [b, a]);
    assert [a, b][1..] == [b] && [b, a][1..] == [a] && [a][1..] == [] && [b][1..] == [];
    assert WithKey([a], key) == [a] && WithKey([b], key) == [b];
    assert WithKey([a, b], key) == [a, b] && WithKey([b, a], key) == [b, a];
    DenoteItemsAt([a, b], 0);
    DenoteItemsAt([b, a], 0);
  }

  // ---------- The payload ----------

  class RequestPayload {
    var fields: map<string, Json>

    constructor (fields: map<string, Json>)
      ensures this.fields == fields
    {
      this.fields := fields;
    }

    method CanonicalizeTools()
      modifies this
      ensures if "tools" in old(fields) && old(fields)["tools"].Arr? && old(fields)["tools"].items != []
              then fields == old(fields)["tools" := Arr(Canonicalize(old(fields)["tools"].items))]
              else fields == old(fields)
    {
      if "tools" in fields && fields["tools"].Arr? {
        var tools := fields["tools"].items;
        if tools != [] {
          fields := fields["tools" := Arr(SortItems(SortTools(tools)))];
        }
      }
    }
  }
}
