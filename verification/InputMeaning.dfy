/**
 What sanitising makes of each input item, stated on the item alone: which items, keys, parts and
 texts come out, and where.
 */
module InputMeaning {
  import opened Options
  import opened Json
  import opened InputSanitize

  const INTERLEAVED: set<string> := {"reasoning_content", "reasoning_details", "tool_calls", "function_call"}

  const REASONING_TYPES: set<string> := {"reasoning", "reasoning_content", "reasoning_details"}

  const TEXT_TYPES: set<string> := {"text", "input_text", "output_text"}

  predicate TypeIn(fields: seq<Field>, types: set<string>) {
    Get(fields, "type").Str? && Get(fields, "type").s in types
  }

  // ---------- Content without reasoning ----------

  /** A part that carries content of its own. */
  predicate IsShown(part: Json) {
    part != Null && (part.Obj? ==> !TypeIn(part.fields, REASONING_TYPES))
  }

  function Shown(parts: seq<Json>): seq<Json> {
    if parts == [] then [] else (if IsShown(parts[0]) then [parts[0]] else []) + Shown(parts[1..])
  }

  /** The fields under other keys, in order. */
  function Others(fields: seq<Field>): seq<Field> {
    if fields == [] then [] else (if fields[0].key in INTERLEAVED then [] else [fields[0]]) + Others(fields[1..])
  }

  predicate PartKept(part: Json, out: Json) {
    out == if part.Obj? then Obj(Others(part.fields)) else part
  }

  /** `out` is the content without its reasoning; null when nothing is left. */
  predicate ContentKept(content: Json, out: Json) {
    if content.Arr? then
      && out.Arr? && |out.items| == |Shown(content.items)|
      && forall i :: 0 <= i < |out.items| ==> PartKept(Shown(content.items)[i], out.items[i])
    else if IsShown(content) then PartKept(content, out)
    else out == Null
  }

  lemma {:induction false} DropKeysIsOthers(fields: seq<Field>)
    ensures DropKeys(fields) == Others(fields)
    decreases |fields|
  {
    if fields != [] {
      DropKeysIsOthers(fields[1..]);
    }
  }

  lemma {:induction false} PartIsKept(part: Json)
    ensures SanitizePart(part).Some? <==> IsShown(part)
    ensures SanitizePart(part).Some? ==> PartKept(part, SanitizePart(part).value)
  {
    if part.Obj? {
      DropKeysIsOthers(part.fields);
    }
  }

  lemma {:induction false} PartsAreKept(parts: seq<Json>)
    ensures ContentKept(Arr(parts), Arr(SanitizeParts(parts)))
    decreases |parts|
  {
    if parts != [] {
      PartIsKept(parts[0]);
      PartsAreKept(parts[1..]);
      hide SanitizePart;
      hide PartKept;
      hide IsShown;
    }
  }

  lemma {:induction false} ContentIsKept(content: Json)
    ensures ContentKept(content, if SanitizeContent(content).Some? then SanitizeContent(content).value else Null)
  {
    if content.Arr? {
      PartsAreKept(content.items);
    } else {
      PartIsKept(content);
    }
  }

  lemma {:induction false} ContentOfFields(fields: seq<Field>)
    requires UniqueKeys(fields)
    ensures ContentKept(Get(fields, "content"), Get(SanitizeFields(fields), "content"))
    decreases |fields|
  {
    if fields == [] {
      ContentIsKept(Null);
    } else {
      assert forall i :: 0 <= i < |fields[1..]| ==> fields[1..][i] == fields[i + 1];
      var head, rest := SanitizeField(fields[0]), SanitizeFields(fields[1..]);
      ContentOfFields(fields[1..]);
      ContentIsKept(fields[0].value);
      hide ContentKept;
      hide SanitizeContent;
      if head == [] {
        assert head + rest == rest;
        if fields[0].key == "content" {
          GetMisses(fields[1..], "content");
          NoContentLeft(fields[1..]);
        }
      } else {
        assert (head + rest)[1..] == rest;
      }
    }
  }

  lemma {:induction false} NoContentLeft(fields: seq<Field>)
    requires !HasKey(fields, "content")
    ensures Get(SanitizeFields(fields), "content") == Null
    decreases |fields|
  {
    if fields != [] {
      assert fields[0].key != "content";
      assert forall i :: 0 <= i < |fields[1..]| ==> fields[1..][i] == fields[i + 1];
      NoContentLeft(fields[1..]);
      var head, rest := SanitizeField(fields[0]), SanitizeFields(fields[1..]);
      assert head == [] ==> head + rest == rest;
      assert head != [] ==> (head + rest)[1..] == rest;
    }
  }

  // ---------- Texts ----------

  /** The text of a part; a tool's refusal part may carry it under either key. */
  function TextOf(part: Json, ofTool: bool): Option<string> {
    match part
    case Str(s) => Some(s)
    case Obj(fields) =>
      var refuses := TypeIn(fields, {"refusal"});
      var text, refusal := Get(fields, "text"), Get(fields, "refusal");
      var plain := Get(fields, "type") == Null || TypeIn(fields, TEXT_TYPES);
      if text.Str? && (plain || (ofTool && refuses)) then Some(text.s)
      else if refuses && refusal.Str? then Some(refusal.s)
      else None
    case _ => None
  }

  /** An assistant's part: its text as an `output_text` part, or the part itself. */
  predicate AssistantPart(part: Json, out: Json) {
    match TextOf(part, false)
    case Some(t) => out == Obj([Field("type", Str("output_text")), Field("text", Str(t))])
    case None => out == part
  }

  /** An assistant's content: a list of parts, one for each part or for the single one. */
  predicate AssistantContent(content: Json, out: Json) {
    match content
    case Arr(parts) =>
      out.Arr? && |out.items| == |parts| && forall i :: 0 <= i < |parts| ==> AssistantPart(parts[i], out.items[i])
    case Str(_) => out.Arr? && |out.items| == 1 && AssistantPart(content, out.items[0])
    case Obj(_) => out.Arr? && |out.items| == 1 && AssistantPart(content, out.items[0])
    case _ => out == content
  }

  lemma {:induction false} PartIsNormalized(part: Json)
    ensures AssistantPart(part, NormalizePart(part))
  {
  }

  lemma {:induction false} PartsAreNormalized(parts: seq<Json>)
    ensures forall i :: 0 <= i < |parts| ==> AssistantPart(parts[i], NormalizeParts(parts)[i])
    decreases |parts|
  {
    if parts != [] {
      PartIsNormalized(parts[0]);
      PartsAreNormalized(parts[1..]);
      hide AssistantPart;
      hide NormalizePart;
    }
  }

  lemma {:induction false} ContentIsNormalized(content: Json)
    ensures AssistantContent(content, NormalizeAssistantContent(content))
  {
    PartIsNormalized(content);
    if content.Arr? {
      PartsAreNormalized(content.items);
    }
  }

  /** The texts of a tool's parts, in order. */
  function Joined(parts: seq<Json>): string {
    if parts == [] then ""
    else (if TextOf(parts[0], true).Some? then TextOf(parts[0], true).value else "") + Joined(parts[1..])
  }

  predicate NoTexts(parts: seq<Json>) {
    forall i :: 0 <= i < |parts| ==> TextOf(parts[i], true) == None
  }

  /** What a tool's output becomes. */
  predicate ToolText(value: Json, text: string, dumps: Json -> string, show: Json -> string) {
    match value
    case Null => text == ""
    case Arr(parts) => text == if NoTexts(parts) then dumps(value) else Joined(parts)
    case Obj(_) => text == if TextOf(value, true).Some? then TextOf(value, true).value else dumps(value)
    case Str(s) => text == s
    case _ => text == show(value)
  }

  lemma {:induction false} TextsJoined(parts: seq<Json>)
    ensures TextsOf(parts) == [] <==> NoTexts(parts)
    ensures Join(TextsOf(parts)) == Joined(parts)
    decreases |parts|
  {
    if parts != [] {
      TextsJoined(parts[1..]);
      var rest := TextsOf(parts[1..]);
      var text := TextOf(parts[0], true);
      assert text == if parts[0].Str? then Some(parts[0].s) else ExtractText(parts[0], true);
      hide TextOf;
      hide ExtractText;
      assert forall i :: 0 < i < |parts| ==> parts[1..][i - 1] == parts[i];
      if text.Some? {
        assert ([text.value] + rest)[1..] == rest;
      } else {
        assert [] + rest == rest && "" + Joined(parts[1..]) == Joined(parts[1..]);
      }
    }
  }

  lemma {:induction false} OutputIsText(value: Json, dumps: Json -> string, show: Json -> string)
    ensures ToolText(value, ToolOutput(value, dumps, show), dumps, show)
  {
    if value.Arr? {
      TextsJoined(value.items);
    }
  }

  // ---------- One item ----------

  /** The first of the three keys that holds a non-empty string names the call. */
  predicate NamesCall(fields: seq<Field>, id: string) {
    && id != ""
    && var a, b, c := Get(fields, "tool_call_id"), Get(fields, "toolCallId"), Get(fields, "call_id");
    || a == Str(id)
    || (!UsableId(a) && b == Str(id))
    || (!UsableId(a) && !UsableId(b) && c == Str(id))
  }

  /** A tool item's output, or else its content without reasoning. */
  predicate ToolValue(fields: seq<Field>, value: Json) {
    if Get(fields, "output") != Null then value == Get(fields, "output") else ContentKept(Get(fields, "content"), value)
  }

  ghost predicate ToolItemFrom(fields: seq<Field>, out: Json, dumps: Json -> string, show: Json -> string) {
    exists id, value, text ::
      && NamesCall(fields, id) && ToolValue(fields, value) && ToolText(value, text, dumps, show)
      && out == Obj([Field("type", Str("function_call_output")), Field("call_id", Str(id)), Field("output", Str(text))])
  }

  /** Every key but the content and the interleaved ones keeps its value, and the latter are gone. */
  ghost predicate KeysKept(fields: seq<Field>, out: seq<Field>) {
    && (forall key :: key !in INTERLEAVED && key != "content" ==>
          Get(out, key) == Get(fields, key) && (HasKey(out, key) <==> HasKey(fields, key)))
    && forall key :: key in INTERLEAVED ==> !HasKey(out, key)
  }

  /** The content of an assistant comes out as text parts, up to the order of keys. */
  ghost predicate AssistantContentFrom(content: Json, out: Json) {
    exists kept, parts :: ContentKept(content, kept) && AssistantContent(kept, parts) && Denote(out) == Denote(parts)
  }

  /** What an input item becomes. */
  ghost predicate ItemFrom(item: Json, out: Json, dumps: Json -> string, show: Json -> string) {
    if !item.Obj? then out == item
    else if Get(item.fields, "role") == Str("tool") then ToolItemFrom(item.fields, out, dumps, show)
    else
      && out.Obj? && KeysKept(item.fields, out.fields)
      && var before, after := Get(item.fields, "content"), Get(out.fields, "content");
      if Get(item.fields, "role") == Str("assistant") then AssistantContentFrom(before, after)
      else ContentKept(before, after)
  }

  lemma {:induction false} KeyPushed(f: Field, rest: seq<Field>, key: string)
    ensures HasKey([f] + rest, key) <==> f.key == key || HasKey(rest, key)
  {
    var all := [f] + rest;
    assert all[0] == f;
    if i :| 0 <= i < |rest| && rest[i].key == key {
      assert all[i + 1].key == key;
    }
    if i :| 0 < i < |all| && all[i].key == key {
      assert rest[i - 1].key == key;
    }
  }

  lemma {:induction false} KeyAfterSanitize(fields: seq<Field>, key: string)
    ensures key in INTERLEAVED ==> !HasKey(SanitizeFields(fields), key)
    ensures key !in INTERLEAVED && key != "content" ==> (HasKey(SanitizeFields(fields), key) <==> HasKey(fields, key))
    decreases |fields|
  {
    if fields != [] {
      KeyAfterSanitize(fields[1..], key);
      var head, rest := SanitizeField(fields[0]), SanitizeFields(fields[1..]);
      assert fields == [fields[0]] + fields[1..];
      KeyPushed(fields[0], fields[1..], key);
      hide SanitizeContent;
      if head == [] {
        assert head + rest == rest;
      } else {
        KeyPushed(head[0], rest, key);
      }
      hide HasKey;
    }
  }

  lemma {:induction false} KeyAfterSet(fields: seq<Field>, key: string, value: Json, other: string)
    requires other != key
    ensures HasKey(SetField(fields, key, value), other) <==> HasKey(fields, other)
    decreases |fields|
  {
    if fields == [] {
      assert [Field(key, value)] == [Field(key, value)] + [];
      KeyPushed(Field(key, value), [], other);
    } else {
      assert fields == [fields[0]] + fields[1..];
      KeyPushed(fields[0], fields[1..], other);
      if fields[0].key == key {
        KeyPushed(Field(key, value), fields[1..], other);
      } else {
        KeyAfterSet(fields[1..], key, value, other);
        KeyPushed(fields[0], SetField(fields[1..], key, value), other);
      }
    }
  }

  lemma {:induction false} FieldsAreKept(fields: seq<Field>)
    ensures KeysKept(fields, SanitizeFields(fields))
  {
    forall key
      ensures key in INTERLEAVED ==> !HasKey(SanitizeFields(fields), key)
      ensures key !in INTERLEAVED && key != "content" ==>
                && Get(SanitizeFields(fields), key) == Get(fields, key)
                && (HasKey(SanitizeFields(fields), key) <==> HasKey(fields, key))
    {
      KeyAfterSanitize(fields, key);
      if key !in INTERLEAVED && key != "content" {
        GetAfterSanitize(fields, key);
      }
    }
  }

  lemma {:induction false} SetContentKeeps(fields: seq<Field>, before: seq<Field>, value: Json)
    requires KeysKept(fields, before)
    ensures var after := SetField(before, "content", value);
            KeysKept(fields, after) && Get(after, "content") == value
  {
    var after := SetField(before, "content", value);
    SetFieldFacts(before, "content", value);
    forall key | key != "content" ensures HasKey(after, key) <==> HasKey(before, key) {
      KeyAfterSet(before, "content", value, key);
    }
    hide SetField;
  }

  lemma {:induction false} AssistantItemIsKept(fields: seq<Field>)
    requires UniqueKeys(fields)
    ensures var out := NormalizeAssistantItem(SanitizeFields(fields));
            && out.Obj? && KeysKept(fields, out.fields)
            && AssistantContentFrom(Get(fields, "content"), Get(out.fields, "content"))
  {
    var before := SanitizeFields(fields);
    var kept := Get(before, "content");
    var parts := NormalizeAssistantContent(kept);
    FieldsAreKept(fields);
    ContentOfFields(fields);
    ContentIsNormalized(kept);
    SetContentKeeps(fields, before, parts);
    assert ContentKept(Get(fields, "content"), kept) && AssistantContent(kept, parts);
    hide KeysKept;
    hide SanitizeFields;
  }

  lemma {:induction false} ToolItemIsMade(fields: seq<Field>, dumps: Json -> string, show: Json -> string)
    requires UniqueKeys(fields) && ResolvedCallId(SanitizeFields(fields)).Some?
    ensures var clean := SanitizeFields(fields);
            ToolItemFrom(fields, ToolItem(clean, ResolvedCallId(clean).value, dumps, show), dumps, show)
  {
    var clean := SanitizeFields(fields);
    GetAfterSanitize(fields, "tool_call_id");
    GetAfterSanitize(fields, "toolCallId");
    GetAfterSanitize(fields, "call_id");
    GetAfterSanitize(fields, "output");
    ContentOfFields(fields);
    hide SanitizeFields;
    hide ContentKept;
    var value := if Get(clean, "output") != Null then Get(clean, "output") else Get(clean, "content");
    OutputIsText(value, dumps, show);
    hide ToolOutput;
    hide ToolText;
    assert NamesCall(fields, ResolvedCallId(clean).value) && ToolValue(fields, value);
  }

  lemma {:induction false} ItemIsKept(item: Json, dumps: Json -> string, show: Json -> string)
    requires item.Obj? ==> UniqueKeys(item.fields)
    ensures SanitizeOne(item, dumps, show).Dropped? <==> item == Null
    ensures SanitizeOne(item, dumps, show).Kept? ==> ItemFrom(item, SanitizeOne(item, dumps, show).item, dumps, show)
  {
    if item.Obj? {
      var clean := SanitizeFields(item.fields);
      FieldsAreKept(item.fields);
      GetAfterSanitize(item.fields, "role");
      ContentOfFields(item.fields);
      if Get(clean, "role") == Str("assistant") {
        AssistantItemIsKept(item.fields);
      } else if Get(clean, "role") == Str("tool") && ResolvedCallId(clean).Some? {
        ToolItemIsMade(item.fields, dumps, show);
      }
      hide SanitizeFields;
      hide ContentKept;
      hide KeysKept;
      hide ToolItemFrom;
      hide ToolItem;
      hide NormalizeAssistantItem;
      hide AssistantContentFrom;
    }
  }

  // ---------- The whole list ----------

  function NonNull(items: seq<Json>): seq<Json> {
    if items == [] then [] else (if items[0] == Null then [] else [items[0]]) + NonNull(items[1..])
  }

  /** Python mappings hold a key once. */
  predicate AreMappings(items: seq<Json>) {
    forall i :: 0 <= i < |items| && items[i].Obj? ==> UniqueKeys(items[i].fields)
  }

  ghost predicate AllFrom(items: seq<Json>, out: seq<Json>, dumps: Json -> string, show: Json -> string) {
    |out| == |items| && forall i :: 0 <= i < |items| ==> ItemFrom(items[i], out[i], dumps, show)
  }

  lemma {:induction false} OneMoreFrom(item: Json, items: seq<Json>, out: Json, outs: seq<Json>,
                                       dumps: Json -> string, show: Json -> string)
    requires ItemFrom(item, out, dumps, show) && AllFrom(items, outs, dumps, show)
    ensures AllFrom([item] + items, [out] + outs, dumps, show)
  {
    hide ItemFrom;
  }

  /**
   Where sanitising succeeds it returns one item for each non-null input item, in order. Other
   values come back as they are; in a mapping that is not a tool item every key except the content
   and the four interleaved ones keeps its value, and the content keeps all but the reasoning, an
   assistant's as text parts; a tool item becomes the output of the call it names.
   */
  lemma {:induction false} SanitizeKeepsItems(items: seq<Json>, dumps: Json -> string, show: Json -> string)
    requires AreMappings(items)
    ensures var r := Sanitize(items, dumps, show);
            r.Some? ==> AllFrom(NonNull(items), r.value, dumps, show)
    decreases |items|
  {
    if items != [] {
      ItemIsKept(items[0], dumps, show);
      assert forall i :: 0 <= i < |items[1..]| ==> items[1..][i] == items[i + 1];
      SanitizeKeepsItems(items[1..], dumps, show);
      var one, rest := SanitizeOne(items[0], dumps, show), Sanitize(items[1..], dumps, show);
      hide SanitizeOne;
      hide ItemFrom;
      hide AllFrom;
      if one.Kept? && rest.Some? {
        OneMoreFrom(items[0], NonNull(items[1..]), one.item, rest.value, dumps, show);
      }
    } else {
      hide ItemFrom;
    }
  }

  /** No reasoning anywhere in the item. */
  predicate WithoutReasoning(item: Json) {
    item.Obj? ==>
      forall i :: 0 <= i < |item.fields| ==>
        && item.fields[i].key !in INTERLEAVED
        && (item.fields[i].key == "content" ==> ContentWithoutReasoning(item.fields[i].value))
  }

  predicate PartWithoutReasoning(part: Json) {
    IsShown(part) && (part.Obj? ==> forall i :: 0 <= i < |part.fields| ==> part.fields[i].key !in INTERLEAVED)
  }

  predicate ContentWithoutReasoning(content: Json) {
    if content.Arr? then forall i :: 0 <= i < |content.items| ==> PartWithoutReasoning(content.items[i])
    else PartWithoutReasoning(content)
  }

  /** An item that has no reasoning and whose role is neither `assistant` nor `tool` comes back unchanged. */
  lemma {:induction false} CleanItemIsUnchanged(item: Json, dumps: Json -> string, show: Json -> string)
    requires item != Null && WithoutReasoning(item)
    requires item.Obj? ==> Get(item.fields, "role") != Str("assistant") && Get(item.fields, "role") != Str("tool")
    ensures SanitizeOne(item, dumps, show) == Kept(item)
  {
    if item.Obj? {
      forall i | 0 <= i < |item.fields| && item.fields[i].key == "content" ensures CleanContent(item.fields[i].value) {
        var content := item.fields[i].value;
        assert ContentWithoutReasoning(content);
        assert content.Arr? ==> forall k :: 0 <= k < |content.items| ==> PartWithoutReasoning(content.items[k]);
      }
      assert CleanFields(item.fields);
      FieldsAreCleaned(item.fields);
    }
  }
}
