/**
 Sanitising of a request's input items: `_sanitize_input_items` and its helpers in
 app/core/openai/requests.py. It runs when a request is validated and again when the
 upstream payload is built.

 `dumps` and `show` stand for `json.dumps` and `str`; null plays the part of Python's None.
 */
module InputSanitize {
  import opened Options
  import opened Json

  predicate IsInterleavedKey(key: string) {
    key == "reasoning_content" || key == "reasoning_details" || key == "tool_calls" || key == "function_call"
  }

  predicate IsInterleavedType(t: Json) {
    t == Str("reasoning") || t == Str("reasoning_content") || t == Str("reasoning_details")
  }

  predicate IsTextType(t: Json) {
    t == Str("text") || t == Str("input_text") || t == Str("output_text")
  }

  // ---------- Removing interleaved reasoning ----------

  function DropKeys(fields: seq<Field>): seq<Field> {
    if fields == [] then []
    else (if IsInterleavedKey(fields[0].key) then [] else [fields[0]]) + DropKeys(fields[1..])
  }

  function SanitizePart(part: Json): Option<Json> {
    match part
    case Null => None
    case Obj(fields) => if IsInterleavedType(Get(fields, "type")) then None else Some(Obj(DropKeys(fields)))
    case _ => Some(part)
  }

  function SanitizeParts(parts: seq<Json>): seq<Json> {
    if parts == [] then []
    else
      var rest := SanitizeParts(parts[1..]);
      match SanitizePart(parts[0])
      case None => rest
      case Some(p) => [p] + rest
  }

  function SanitizeContent(content: Json): Option<Json> {
    if content.Arr? then Some(Arr(SanitizeParts(content.items))) else SanitizePart(content)
  }

  /** One field of an item: kept, rewritten or dropped. */
  function SanitizeField(f: Field): seq<Field> {
    if IsInterleavedKey(f.key) then []
    else if f.key == "content" then
      match SanitizeContent(f.value)
      case None => []
      case Some(c) => [Field("content", c)]
    else [f]
  }

  function SanitizeFields(fields: seq<Field>): seq<Field> {
    if fields == [] then [] else SanitizeField(fields[0]) + SanitizeFields(fields[1..])
  }

  function SanitizeItem(item: Json): Option<Json> {
    match item
    case Null => None
    case Obj(fields) => Some(Obj(SanitizeFields(fields)))
    case _ => Some(item)
  }

  // ---------- Normalising assistant and tool items ----------

  /** `_extract_text_content_part`; `refusalIsText` tells the two sets of allowed types apart. */
  function ExtractText(part: Json, refusalIsText: bool): Option<string> {
    if !part.Obj? then None
    else
      var partType, text, refusal := Get(part.fields, "type"), Get(part.fields, "text"), Get(part.fields, "refusal");
      if (IsTextType(partType) || partType == Null || (refusalIsText && partType == Str("refusal"))) && text.Str? then
        Some(text.s)
      else if partType == Str("refusal") && refusal.Str? then Some(refusal.s)
      else None
  }

  function TextPart(text: string): Json {
    Obj([Field("type", Str("output_text")), Field("text", Str(text))])
  }

  function NormalizePart(part: Json): Json {
    if part.Str? then TextPart(part.s)
    else
      match ExtractText(part, false)
      case Some(t) => TextPart(t)
      case None => part
  }

  function NormalizeParts(parts: seq<Json>): (r: seq<Json>)
    ensures |r| == |parts|
  {
    if parts == [] then [] else [NormalizePart(parts[0])] + NormalizeParts(parts[1..])
  }

  function NormalizeAssistantContent(content: Json): Json {
    match content
    case Str(s) => Arr([TextPart(s)])
    case Arr(items) => Arr(NormalizeParts(items))
    case Obj(_) => Arr([NormalizePart(content)])
    case _ => content
  }

  /** Assignment to a dict key: an existing key keeps its position. */
  function SetField(fields: seq<Field>, key: string, value: Json): seq<Field> {
    if fields == [] then [Field(key, value)]
    else if fields[0].key == key then [Field(key, value)] + fields[1..]
    else [fields[0]] + SetField(fields[1..], key, value)
  }

  /** Python compares dicts without regard to key order. */
  function NormalizeAssistantItem(fields: seq<Field>): Json {
    var content := Get(fields, "content");
    var normalized := NormalizeAssistantContent(content);
    if Denote(normalized) == Denote(content) then Obj(fields) else Obj(SetField(fields, "content", normalized))
  }

  predicate UsableId(j: Json) {
    j.Str? && j.s != ""
  }

  function ResolvedCallId(fields: seq<Field>): Option<string> {
    var a, b, c := Get(fields, "tool_call_id"), Get(fields, "toolCallId"), Get(fields, "call_id");
    if UsableId(a) then Some(a.s) else if UsableId(b) then Some(b.s) else if UsableId(c) then Some(c.s) else None
  }

  function TextsOf(parts: seq<Json>): seq<string> {
    if parts == [] then []
    else
      var text := if parts[0].Str? then Some(parts[0].s) else ExtractText(parts[0], true);
      (if text.Some? then [text.value] else []) + TextsOf(parts[1..])
  }

  function Join(texts: seq<string>): string {
    if texts == [] then "" else texts[0] + Join(texts[1..])
  }

  function ToolOutput(content: Json, dumps: Json -> string, show: Json -> string): string {
    match content
    case Null => ""
    case Str(s) => s
    case Arr(items) => if TextsOf(items) == [] then dumps(content) else Join(TextsOf(items))
    case Obj(_) =>
      var text := ExtractText(content, true);
      if text.Some? then text.value else dumps(content)
    case _ => show(content)
  }

  function ToolItem(fields: seq<Field>, callId: string, dumps: Json -> string, show: Json -> string): Json {
    var output := Get(fields, "output");
    var value := if output != Null then output else Get(fields, "content");
    Obj([Field("type", Str("function_call_output")), Field("call_id", Str(callId)),
         Field("output", Str(ToolOutput(value, dumps, show)))])
  }

  /** None where the source raises: a tool item without a usable call id. */
  function NormalizeRole(item: Json, dumps: Json -> string, show: Json -> string): Option<Json> {
    if !item.Obj? then Some(item)
    else if Get(item.fields, "role") == Str("assistant") then Some(NormalizeAssistantItem(item.fields))
    else if Get(item.fields, "role") == Str("tool") then
      match ResolvedCallId(item.fields)
      case None => None
      case Some(id) => Some(ToolItem(item.fields, id, dumps, show))
    else Some(item)
  }

  /** One item: nothing, one item, or an error. */
  datatype ItemResult = Dropped | Kept(item: Json) | Failed

  function SanitizeOne(item: Json, dumps: Json -> string, show: Json -> string): ItemResult {
    match SanitizeItem(item)
    case None => Dropped
    case Some(clean) =>
      match NormalizeRole(clean, dumps, show)
      case None => Failed
      case Some(out) => Kept(out)
  }

  function Sanitize(items: seq<Json>, dumps: Json -> string, show: Json -> string): Option<seq<Json>> {
    if items == [] then Some([])
    else
      match SanitizeOne(items[0], dumps, show)
      case Failed => None
      case Dropped => Sanitize(items[1..], dumps, show)
      case Kept(out) =>
        var rest := Sanitize(items[1..], dumps, show);
        if rest == None then None else Some([out] + rest.value)
  }

  // ---------- What sanitised data looks like ----------

  predicate CleanKeys(fields: seq<Field>) {
    forall i :: 0 <= i < |fields| ==> !IsInterleavedKey(fields[i].key)
  }

  /** A content part without interleaved reasoning. */
  predicate CleanPart(part: Json) {
    part != Null && (part.Obj? ==> CleanKeys(part.fields) && !IsInterleavedType(Get(part.fields, "type")))
  }

  predicate CleanContent(content: Json) {
    if content.Arr? then forall i :: 0 <= i < |content.items| ==> CleanPart(content.items[i]) else CleanPart(content)
  }

  predicate CleanFields(fields: seq<Field>) {
    CleanKeys(fields) && forall i :: 0 <= i < |fields| && fields[i].key == "content" ==> CleanContent(fields[i].value)
  }

  predicate CleanItem(item: Json) {
    item != Null && (item.Obj? ==> CleanFields(item.fields) && Get(item.fields, "role") != Str("tool"))
  }

  // ---------- Removing: result is clean, and clean data is untouched ----------

  lemma {:induction false} DropKeysCleans(fields: seq<Field>)
    ensures CleanKeys(DropKeys(fields))
    ensures CleanKeys(fields) ==> DropKeys(fields) == fields
    decreases |fields|
  {
    if fields != [] {
      DropKeysCleans(fields[1..]);
      if CleanKeys(fields) {
        assert CleanKeys(fields[1..]);
      }
    }
  }

  lemma {:induction false} GetAfterDrop(fields: seq<Field>, key: string)
    requires !IsInterleavedKey(key)
    ensures Get(DropKeys(fields), key) == Get(fields, key)
    decreases |fields|
  {
    if fields != [] {
      GetAfterDrop(fields[1..], key);
      var kept := DropKeys(fields);
      if !IsInterleavedKey(fields[0].key) {
        assert kept[1..] == DropKeys(fields[1..]);
      } else {
        assert kept == DropKeys(fields[1..]);
      }
    }
  }

  lemma {:induction false} PartIsCleaned(part: Json)
    ensures SanitizePart(part).Some? ==> CleanPart(SanitizePart(part).value)
    ensures CleanPart(part) ==> SanitizePart(part) == Some(part)
  {
    if part.Obj? {
      DropKeysCleans(part.fields);
      GetAfterDrop(part.fields, "type");
    }
  }

  lemma {:induction false} PartsAreCleaned(parts: seq<Json>)
    ensures CleanContent(Arr(SanitizeParts(parts)))
    ensures CleanContent(Arr(parts)) ==> SanitizeParts(parts) == parts
    decreases |parts|
  {
    if parts != [] {
      PartIsCleaned(parts[0]);
      PartsAreCleaned(parts[1..]);
      if CleanContent(Arr(parts)) {
        assert CleanPart(Arr(parts).items[0]);
        assert forall i :: 0 <= i < |parts[1..]| ==> parts[1..][i] == parts[i + 1];
        assert CleanContent(Arr(parts[1..]));
        assert parts == [parts[0]] + parts[1..];
      }
    }
  }

  lemma {:induction false} ContentIsCleaned(content: Json)
    ensures SanitizeContent(content).Some? ==> CleanContent(SanitizeContent(content).value)
    ensures CleanContent(content) ==> SanitizeContent(content) == Some(content)
  {
    if content.Arr? {
      PartsAreCleaned(content.items);
    } else {
      PartIsCleaned(content);
    }
  }

  lemma {:induction false} FieldsAreCleaned(fields: seq<Field>)
    ensures CleanFields(SanitizeFields(fields))
    ensures CleanFields(fields) ==> SanitizeFields(fields) == fields
    decreases |fields|
  {
    if fields != [] {
      ContentIsCleaned(fields[0].value);
      FieldsAreCleaned(fields[1..]);
      if CleanFields(fields) {
        assert fields[0] == fields[0];
        assert forall i :: 0 <= i < |fields[1..]| ==> fields[1..][i] == fields[i + 1];
        assert CleanFields(fields[1..]);
        assert fields == [fields[0]] + fields[1..];
      }
    }
  }

  lemma {:induction false} GetAfterSanitize(fields: seq<Field>, key: string)
    requires !IsInterleavedKey(key) && key != "content"
    ensures Get(SanitizeFields(fields), key) == Get(fields, key)
    decreases |fields|
  {
    if fields != [] {
      GetAfterSanitize(fields[1..], key);
      var head, rest := SanitizeField(fields[0]), SanitizeFields(fields[1..]);
      if head == [] {
        assert head + rest == rest;
      } else {
        assert head == [head[0]] && (head + rest)[1..] == rest;
      }
    }
  }

  // ---------- Assistant items ----------

  lemma {:induction false} TextPartFacts(text: string)
    ensures CleanPart(TextPart(text)) && NormalizePart(TextPart(text)) == TextPart(text)
  {
    var fields := [Field("type", Str("output_text")), Field("text", Str(text))];
    assert fields[1..] == [Field("text", Str(text))];
    assert Get(fields, "type") == Str("output_text") && Get(fields, "text") == Str(text);
  }

  lemma {:induction false} NormalizePartFacts(part: Json)
    requires CleanPart(part)
    ensures CleanPart(NormalizePart(part)) && NormalizePart(NormalizePart(part)) == NormalizePart(part)
  {
    if part.Str? {
      TextPartFacts(part.s);
    } else if ExtractText(part, false).Some? {
      TextPartFacts(ExtractText(part, false).value);
    }
  }

  lemma {:induction false} NormalizePartsFacts(parts: seq<Json>)
    requires CleanContent(Arr(parts))
    ensures CleanContent(Arr(NormalizeParts(parts)))
    ensures NormalizeParts(NormalizeParts(parts)) == NormalizeParts(parts)
    decreases |parts|
  {
    if parts != [] {
      assert CleanPart(Arr(parts).items[0]);
      assert forall i :: 0 <= i < |parts[1..]| ==> parts[1..][i] == parts[i + 1];
      NormalizePartFacts(parts[0]);
      NormalizePartsFacts(parts[1..]);
      var out := NormalizeParts(parts);
      assert out[1..] == NormalizeParts(parts[1..]);
    }
  }

  lemma {:induction false} AssistantContentFacts(content: Json)
    requires CleanContent(content)
    ensures CleanContent(NormalizeAssistantContent(content))
    ensures NormalizeAssistantContent(NormalizeAssistantContent(content)) == NormalizeAssistantContent(content)
  {
    match content
    case Str(s) =>
      TextPartFacts(s);
    case Arr(items) => NormalizePartsFacts(items);
    case Obj(_) =>
      NormalizePartFacts(content);
    case _ =>
  }

  lemma {:induction false} SetFieldFacts(fields: seq<Field>, key: string, value: Json)
    ensures Get(SetField(fields, key, value), key) == value
    ensures forall other :: other != key ==> Get(SetField(fields, key, value), other) == Get(fields, other)
    decreases |fields|
  {
    if fields != [] {
      var out := SetField(fields, key, value);
      if fields[0].key == key {
        assert out[1..] == fields[1..];
      } else {
        SetFieldFacts(fields[1..], key, value);
        assert out[1..] == SetField(fields[1..], key, value);
      }
    } else {
      assert [Field(key, value)][1..] == [];
    }
  }

  lemma {:induction false} SetContentStaysClean(fields: seq<Field>, value: Json)
    requires CleanFields(fields) && CleanContent(value)
    ensures CleanFields(SetField(fields, "content", value))
    decreases |fields|
  {
    if fields != [] {
      assert forall i :: 0 <= i < |fields[1..]| ==> fields[1..][i] == fields[i + 1];
      SetContentStaysClean(fields[1..], value);
    }
  }

  lemma {:induction false} GetContentIsClean(fields: seq<Field>)
    requires CleanFields(fields)
    ensures Get(fields, "content") == Null || CleanContent(Get(fields, "content"))
    decreases |fields|
  {
    if fields != [] {
      assert forall i :: 0 <= i < |fields[1..]| ==> fields[1..][i] == fields[i + 1];
      GetContentIsClean(fields[1..]);
    }
  }

  /** A second normalisation of an assistant item finds nothing to do. */
  lemma {:induction false} AssistantItemFacts(fields: seq<Field>)
    requires CleanFields(fields) && Get(fields, "role") == Str("assistant")
    ensures var out := NormalizeAssistantItem(fields);
            && out.Obj? && CleanFields(out.fields) && Get(out.fields, "role") == Str("assistant")
            && NormalizeAssistantItem(out.fields) == out
  {
    var content := Get(fields, "content");
    var normalized := NormalizeAssistantContent(content);
    GetContentIsClean(fields);
    if content != Null {
      AssistantContentFacts(content);
      if Denote(normalized) != Denote(content) {
        SetFieldFacts(fields, "content", normalized);
        SetContentStaysClean(fields, normalized);
      }
    }
  }

  // ---------- One item ----------

  lemma {:induction false} ToolItemFacts(fields: seq<Field>, id: string, dumps: Json -> string, show: Json -> string)
    ensures CleanItem(ToolItem(fields, id, dumps, show))
    ensures Get(ToolItem(fields, id, dumps, show).fields, "role") == Null
  {
    var out := ToolItem(fields, id, dumps, show).fields;
    GetMisses(out, "role");
  }

  /** A kept item is clean, and sanitising it again gives it back. */
  lemma {:induction false} OneIsStable(item: Json, dumps: Json -> string, show: Json -> string)
    ensures var r := SanitizeOne(item, dumps, show);
            r.Kept? ==> CleanItem(r.item) && SanitizeOne(r.item, dumps, show) == r
  {
    var r := SanitizeOne(item, dumps, show);
    if r.Kept? && item.Obj? {
      var fields := SanitizeFields(item.fields);
      FieldsAreCleaned(item.fields);
      var role := Get(fields, "role");
      hide SanitizeFields;
      hide NormalizeAssistantItem;
      if role == Str("assistant") {
        AssistantItemFacts(fields);
        FieldsAreCleaned(r.item.fields);
      } else if role == Str("tool") {
        ToolItemFacts(fields, ResolvedCallId(fields).value, dumps, show);
        FieldsAreCleaned(r.item.fields);
      } else {
        FieldsAreCleaned(fields);
      }
    }
  }

  // ---------- The whole list ----------

  predicate AllClean(items: seq<Json>) {
    forall i :: 0 <= i < |items| ==> CleanItem(items[i])
  }

  /**
   Wherever sanitising succeeds, no item or content part carries interleaved reasoning, no item
   has role `tool`, and sanitising once more changes nothing.
   */
  lemma {:induction false} SanitizeIsIdempotent(items: seq<Json>, dumps: Json -> string, show: Json -> string)
    ensures var r := Sanitize(items, dumps, show);
            r.Some? ==> AllClean(r.value) && Sanitize(r.value, dumps, show) == r
    decreases |items|
  {
    if items != [] {
      OneIsStable(items[0], dumps, show);
      SanitizeIsIdempotent(items[1..], dumps, show);
      var r, rest := Sanitize(items, dumps, show), Sanitize(items[1..], dumps, show);
      var one := SanitizeOne(items[0], dumps, show);
      hide SanitizeOne;
      hide CleanItem;
      if r.Some? && one.Kept? {
        assert r.value == [one.item] + rest.value;
        assert r.value[1..] == rest.value;
      }
    }
  }

  predicate LacksCallId(item: Json) {
    item.Obj? && Get(item.fields, "role") == Str("tool") && ResolvedCallId(item.fields) == None
  }

  lemma {:induction false} OneFailsExactly(item: Json, dumps: Json -> string, show: Json -> string)
    ensures SanitizeOne(item, dumps, show) == Failed <==> LacksCallId(item)
  {
    if item.Obj? {
      GetAfterSanitize(item.fields, "role");
      GetAfterSanitize(item.fields, "tool_call_id");
      GetAfterSanitize(item.fields, "toolCallId");
      GetAfterSanitize(item.fields, "call_id");
    }
  }

  /** It fails exactly when some tool item names no call. */
  lemma {:induction false} SanitizeFailsExactly(items: seq<Json>, dumps: Json -> string, show: Json -> string)
    ensures Sanitize(items, dumps, show) == None <==> exists i :: 0 <= i < |items| && LacksCallId(items[i])
    decreases |items|
  {
    if items != [] {
      OneFailsExactly(items[0], dumps, show);
      SanitizeFailsExactly(items[1..], dumps, show);
      assert forall i :: 0 <= i < |items[1..]| ==> items[1..][i] == items[i + 1];
      assert forall i :: 0 < i < |items| ==> items[i] == items[1..][i - 1];
    }
  }

  // ---------- The loops ----------

  lemma {:induction false} SanitizeFieldsStep(fields: seq<Field>, i: nat)
    requires i <= |fields|
    ensures i < |fields| ==> SanitizeFields(fields[i..]) == SanitizeField(fields[i]) + SanitizeFields(fields[i + 1..])
    ensures SanitizeFields([]) == []
  {
    assert i < |fields| ==> fields[i..][1..] == fields[i + 1..];
  }

  method SanitizeItemFields(fields: seq<Field>) returns (out: seq<Field>)
    ensures out == SanitizeFields(fields)
  {
    hide SanitizeFields;
    hide SanitizeContent;
    out := [];
    assert fields[0..] == fields;
    for i := 0 to |fields|
      invariant SanitizeFields(fields) == out + SanitizeFields(fields[i..])
    {
      SanitizeFieldsStep(fields, i);
      ghost var rest := SanitizeFields(fields[i + 1..]);
      assert out + (SanitizeField(fields[i]) + rest) == (out + SanitizeField(fields[i])) + rest;
      if IsInterleavedKey(fields[i].key) {
        assert out + [] == out;
      } else if fields[i].key == "content" {
        var c := SanitizeContent(fields[i].value);
        if c != None {
          out := out + [Field("content", c.value)];
        } else {
          assert out + [] == out;
        }
      } else {
        out := out + [fields[i]];
      }
    }
    SanitizeFieldsStep(fields, |fields|);
    assert fields[|fields|..] == [];
    assert out + SanitizeFields(fields[|fields|..]) == out;
  }

  method SanitizeContentParts(parts: seq<Json>) returns (out: seq<Json>)
    ensures out == SanitizeParts(parts)
  {
    out := [];
    assert parts[0..] == parts;
    for i := 0 to |parts|
      invariant SanitizeParts(parts) == out + SanitizeParts(parts[i..])
    {
      hide SanitizeParts;
      hide SanitizePart;
      var p := SanitizePart(parts[i]);
      ghost var rest := SanitizeParts(parts[i + 1..]);
      assert p.Some? ==> out + ([p.value] + rest) == (out + [p.value]) + rest;
      if p != None {
        out := out + [p.value];
      }
    }
    assert parts[|parts|..] == [];
    assert out + SanitizeParts([]) == out;
  }

  method SanitizeInputItems(items: seq<Json>, dumps: Json -> string, show: Json -> string)
    returns (out: Option<seq<Json>>)
    ensures out == Sanitize(items, dumps, show)
    ensures out.Some? ==> AllClean(out.value) && Sanitize(out.value, dumps, show) == out
  {
    SanitizeIsIdempotent(items, dumps, show);
    var kept: seq<Json> := [];
    ghost var whole := Sanitize(items, dumps, show);
    assert items[0..] == items;
    assert whole.Some? ==> kept + whole.value == whole.value;
    hide SanitizeOne;
    for i := 0 to |items|
      invariant var rest := Sanitize(items[i..], dumps, show);
                whole == if rest.None? then None else Some(kept + rest.value)
    {
      assert items[i..][1..] == items[i + 1..];
      var one := SanitizeOne(items[i], dumps, show);
      if one.Failed? {
        return None;
      }
      if one.Kept? {
        ghost var rest := Sanitize(items[i + 1..], dumps, show);
        assert rest.Some? ==> kept + ([one.item] + rest.value) == (kept + [one.item]) + rest.value;
        kept := kept + [one.item];
      }
    }
    assert kept + [] == kept;
    return Some(kept);
  }
}
