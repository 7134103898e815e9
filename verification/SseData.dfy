/**
 Formatting and parsing of single server-sent events (app/core/utils/sse.py), and the
 round trip through the incremental framer of app/core/clients/proxy.py.

 The JSON text of a payload is a parameter: `data` is the result of `json.dumps`.
 */
module SseData {
  import opened Options
  import opened SseFraming
  import opened Utf8

  // ---------- Formatting ----------

  /** `format_sse_event`; `eventType` is the payload's `type` when that is a string. */
  function FormatEvent(eventType: Option<string>, data: string): string {
    if eventType.Some? && eventType.value != "" then "event: " + eventType.value + "\n" + FormatData(data)
    else FormatData(data)
  }

  function FormatData(data: string): string {
    "data: " + data + "\n\n"
  }

  // ---------- Lines ----------

  /** The characters `str.splitlines` breaks at. */
  predicate IsLineBreak(c: char) {
    || 0x0A as char <= c <= 0x0D as char
    || 0x1C as char <= c <= 0x1E as char
    || c == 0x85 as char || c == 0x2028 as char || c == 0x2029 as char
  }

  predicate IsSingleLine(s: string) {
    forall i :: 0 <= i < |s| ==> !IsLineBreak(s[i])
  }

  /** Position of the first line break, or the length. */
  function LineEnd(s: string): (n: nat)
    ensures n <= |s| && IsSingleLine(s[..n])
    ensures n < |s| ==> IsLineBreak(s[n])
  {
    if s == "" then 0
    else if IsLineBreak(s[0]) then 0
    else 1 + LineEnd(s[1..])
  }

  /** Length of the break at `n`: CRLF counts as one. */
  function BreakLength(s: string, n: nat): (k: nat)
    requires n < |s|
    ensures 1 <= k <= 2 && n + k <= |s|
  {
    if s[n] == '\r' && n + 1 < |s| && s[n + 1] == '\n' then 2 else 1
  }

  /** What follows the break at `n`. */
  function AfterBreak(s: string, n: nat): (r: string)
    requires n < |s|
    ensures |r| < |s|
  {
    s[n + BreakLength(s, n)..]
  }

  function SplitLines(s: string): seq<string>
    decreases |s|
  {
    if s == "" then []
    else
      var n := LineEnd(s);
      if n == |s| then [s] else [s[..n]] + SplitLines(AfterBreak(s, n))
  }

  // ---------- Fields ----------

  function FindColon(line: string): (i: nat)
    ensures i <= |line| && ':' !in line[..i]
    ensures i < |line| ==> line[i] == ':'
  {
    if line == "" then 0 else if line[0] == ':' then 0 else 1 + FindColon(line[1..])
  }

  function ParseField(line: string): (string, string) {
    var i := FindColon(line);
    if i == |line| then (line, "")
    else
      var value := line[i + 1..];
      (line[..i], if value != "" && value[0] == ' ' then value[1..] else value)
  }

  /** The contribution of one line to the data of an event. */
  function DataOfLine(line: string): seq<string> {
    if line == "" || line[0] == ':' then []
    else
      var (field, value) := ParseField(line);
      if field == "data" then [value] else []
  }

  function DataOfLines(lines: seq<string>): seq<string> {
    if lines == [] then [] else DataOfLine(lines[0]) + DataOfLines(lines[1..])
  }

  function DataLines(block: string): seq<string> {
    DataOfLines(SplitLines(block))
  }

  function JoinLines(parts: seq<string>): string {
    if parts == [] then ""
    else if |parts| == 1 then parts[0]
    else parts[0] + "\n" + JoinLines(parts[1..])
  }

  /** What `str.strip` removes. */
  predicate IsSpace(c: char) {
    || 0x09 as char <= c <= 0x0D as char || 0x1C as char <= c <= 0x20 as char
    || c == 0x85 as char || c == 0xA0 as char || c == 0x1680 as char
    || 0x2000 as char <= c <= 0x200A as char || c == 0x2028 as char || c == 0x2029 as char
    || c == 0x202F as char || c == 0x205F as char || c == 0x3000 as char
  }

  function Strip(s: string): string {
    if s == "" then ""
    else if IsSpace(s[0]) then Strip(s[1..])
    else if IsSpace(s[|s| - 1]) then Strip(s[..|s| - 1])
    else s
  }

  function ExtractData(block: string): Option<string> {
    var lines := DataLines(block);
    if lines == [] then None
    else
      var data := JoinLines(lines);
      if Strip(data) == "" || Strip(data) == "[DONE]" then None else Some(data)
  }

  method ExtractSseDataLines(block: string) returns (dataLines: Option<seq<string>>)
    ensures dataLines == if DataLines(block) == [] then None else Some(DataLines(block))
  {
    hide SplitLines;
    hide ParseField;
    hide DataOfLines;
    var lines := SplitLines(block);
    var found: seq<string> := [];
    assert lines[0..] == lines;
    for i := 0 to |lines|
      invariant DataLines(block) == found + DataOfLines(lines[i..])
    {
      DataOfLinesPush(lines[i], lines[i + 1..]);
      assert lines[i..] == [lines[i]] + lines[i + 1..];
      ghost var rest := DataOfLines(lines[i + 1..]);
      assert found + (DataOfLine(lines[i]) + rest) == (found + DataOfLine(lines[i])) + rest;
      if lines[i] == "" || lines[i][0] == ':' {
        continue;
      }
      var (field, value) := ParseField(lines[i]);
      if field == "data" {
        found := found + [value];
      }
    }
    assert lines[|lines|..] == [];
    EmptyHasNoData();
    assert found + DataOfLines(lines[|lines|..]) == found;
    assert DataLines(block) == found;
    dataLines := if found == [] then None else Some(found);
  }

  // ---------- Which data counts ----------

  predicate AllSpace(s: string) {
    forall i :: 0 <= i < |s| ==> IsSpace(s[i])
  }

  /** The end marker, with nothing but white space around it. */
  ghost predicate IsDone(data: string) {
    exists x, y :: AllSpace(x) && AllSpace(y) && data == x + "[DONE]" + y
  }

  lemma {:induction false} StripCuts(s: string) returns (x: string, y: string)
    ensures AllSpace(x) && AllSpace(y) && s == x + Strip(s) + y
    decreases |s|
  {
    x, y := "", "";
    if s != "" {
      if IsSpace(s[0]) {
        x, y := StripCuts(s[1..]);
        x := [s[0]] + x;
        assert s == [s[0]] + s[1..];
      } else if IsSpace(s[|s| - 1]) {
        x, y := StripCuts(s[..|s| - 1]);
        y := y + [s[|s| - 1]];
        assert s == s[..|s| - 1] + [s[|s| - 1]];
      }
    }
  }

  lemma {:induction false} StripUndoesSpace(x: string, t: string, y: string)
    requires AllSpace(x) && AllSpace(y) && (t != "" ==> !IsSpace(t[0]) && !IsSpace(t[|t| - 1]))
    ensures Strip(x + t + y) == t
    decreases |x| + |y|
  {
    var s := x + t + y;
    hide IsSpace;
    if x != "" {
      assert s[0] == x[0] && s[1..] == x[1..] + t + y;
      StripUndoesSpace(x[1..], t, y);
    } else if t == "" && y != "" {
      assert s == y && s[0] == y[0] && s[1..] == "" + "" + y[1..];
      StripUndoesSpace("", "", y[1..]);
    } else if y != "" {
      var n := |y| - 1;
      assert s[0] == t[0] && s[|s| - 1] == y[n] && s[..|s| - 1] == "" + t + y[..n];
      StripUndoesSpace("", t, y[..n]);
    } else {
      assert s == t;
    }
  }

  /** Data lines are joined by newlines; white space alone and the end marker give nothing. */
  lemma {:induction false} ExtractedExactly(block: string)
    ensures var lines, data := DataLines(block), JoinLines(DataLines(block));
            ExtractData(block) == if lines == [] || AllSpace(data) || IsDone(data) then None else Some(data)
  {
    var data := JoinLines(DataLines(block));
    var x, y := StripCuts(data);
    assert !IsSpace('[') && !IsSpace(']');
    hide IsSpace;
    if AllSpace(data) {
      assert data == data + "" + "";
      StripUndoesSpace(data, "", "");
    }
    if Strip(data) == "" {
      assert data == x + y;
    }
    if IsDone(data) {
      var u, v :| AllSpace(u) && AllSpace(v) && data == u + "[DONE]" + v;
      StripUndoesSpace(u, "[DONE]", v);
    }
    hide Strip;
  }

  // ---------- Lines of a concatenation ----------

  lemma {:induction false} LineEndAppend(a: string, b: string)
    ensures LineEnd(a + "\n" + b) == LineEnd(a)
    decreases |a|
  {
    if a == "" {
      assert (a + "\n" + b)[0] == '\n';
    } else if !IsLineBreak(a[0]) {
      assert (a + "\n" + b)[1..] == a[1..] + "\n" + b;
      LineEndAppend(a[1..], b);
    }
  }

  lemma {:induction false} DataLinesCut(s: string, n: nat)
    requires s != "" && n == LineEnd(s) < |s|
    ensures DataLines(s) == DataOfLine(s[..n]) + DataLines(AfterBreak(s, n))
  {
    hide SplitLines;
    hide LineEnd;
    hide AfterBreak;
    hide DataOfLine;
    hide DataOfLines;
    hide IsSingleLine;
    hide IsLineBreak;
    SplitLinesCut(s, n);
    DataOfLinesPush(s[..n], SplitLines(AfterBreak(s, n)));
  }

  lemma {:induction false} SplitLinesCut(s: string, n: nat)
    requires s != "" && n == LineEnd(s) < |s|
    ensures SplitLines(s) == [s[..n]] + SplitLines(AfterBreak(s, n))
  {
    hide AfterBreak;
    hide IsSingleLine;
    hide IsLineBreak;
  }

  lemma {:induction false} DataOfLinesPush(line: string, rest: seq<string>)
    ensures DataOfLines([line] + rest) == DataOfLine(line) + DataOfLines(rest)
  {
    hide DataOfLine;
    assert ([line] + rest)[1..] == rest;
  }

  lemma {:induction false} EmptyHasNoData()
    ensures DataLines("") == [] && DataOfLine("") == [] && DataOfLines([]) == []
  {
  }

  lemma {:induction false} SingleLineData(line: string)
    requires IsSingleLine(line)
    ensures DataLines(line) == DataOfLine(line)
  {
    if line != "" {
      var none: seq<string> := [];
      assert SplitLines(line) == [line] && [line][1..] == none;
      assert DataOfLines([line]) == DataOfLine(line) + DataOfLines(none);
    }
  }

  /** A newline separates the data of what precedes it from the data of what follows. */
  lemma {:induction false} DataLinesAppend(a: string, b: string)
    ensures DataLines(a + "\n" + b) == DataLines(a) + DataLines(b)
    decreases |a|
  {
    hide LineEnd;
    hide DataLines;
    hide DataOfLine;
    EmptyHasNoData();
    var s := a + "\n" + b;
    var n := LineEnd(a);
    LineEndAppend(a, b);
    DataLinesCut(s, n);
    assert s[..n] == a[..n];
    if n == |a| {
      assert a[..n] == a;
      SingleLineData(a);
      assert s[n + 1..] == b && BreakLength(s, n) == 1;
    } else {
      DataLinesCut(a, n);
      if a[n] == '\r' && n + 1 == |a| {
        assert s[n + 2..] == b && BreakLength(s, n) == 2;
        assert a[n + 1..] == "";
        assert DataOfLine(a[..n]) + [] == DataOfLine(a[..n]);
      } else {
        var k := BreakLength(a, n);
        assert BreakLength(s, n) == k;
        assert s[n + k..] == a[n + k..] + "\n" + b;
        DataLinesAppend(a[n + k..], b);
        var (x, y, z) := (DataOfLine(a[..n]), DataLines(a[n + k..]), DataLines(b));
        assert x + (y + z) == (x + y) + z;
      }
    }
  }

  lemma {:induction false} FindColonAt(field: string, rest: string)
    requires ':' !in field
    ensures FindColon(field + ":" + rest) == |field|
    decreases |field|
  {
    var line := field + ":" + rest;
    if field == "" {
      assert line[0] == ':';
    } else {
      assert line[1..] == field[1..] + ":" + rest;
      FindColonAt(field[1..], rest);
    }
  }

  lemma {:induction false} FieldLine(field: string, value: string)
    requires ':' !in field
    ensures ParseField(field + ": " + value) == (field, value)
  {
    var line := field + ": " + value;
    assert line == field + ":" + (" " + value);
    FindColonAt(field, " " + value);
    assert line[..|field|] == field && line[|field| + 1..] == " " + value && (" " + value)[1..] == value;
  }

  lemma {:induction false} DataOfDataLine(data: string)
    requires IsSingleLine(data)
    ensures DataLines("data: " + data) == [data]
  {
    hide DataLines;
    FieldLine("data", data);
    assert "data" + ": " + data == "data: " + data;
    SingleLineData("data: " + data);
  }

  /** One `data` field, followed by the two closing newlines. */
  lemma {:induction false} DataOfFormattedData(data: string)
    requires IsSingleLine(data)
    ensures DataLines(FormatData(data)) == [data]
  {
    hide DataLines;
    var line := "data: " + data;
    assert FormatData(data) == line + "\n" + "\n";
    DataLinesAppend(line, "\n");
    assert "\n" == "" + "\n" + "";
    DataLinesAppend("", "");
    EmptyHasNoData();
    DataOfDataLine(data);
  }

  /** The event line and whatever further lines the event type contains. */
  lemma {:induction false} DataOfFormattedEvent(eventType: string, data: string)
    requires eventType != "" && IsSingleLine(data)
    ensures DataLines(FormatEvent(Some(eventType), data)) == DataLines("event: " + eventType) + [data]
  {
    var line := "event: " + eventType;
    assert FormatEvent(Some(eventType), data) == line + "\n" + FormatData(data);
    DataLinesAppend(line, FormatData(data));
    DataOfFormattedData(data);
  }

  predicate Significant(data: string) {
    Strip(data) != "" && Strip(data) != "[DONE]"
  }

  lemma {:induction false} JoinGrows(xs: seq<string>, last: string)
    requires xs != []
    ensures |JoinLines(xs + [last])| > |last|
    decreases |xs|
  {
    var all := xs + [last];
    assert all[1..] == xs[1..] + [last];
    if |xs| == 1 {
      assert all[1..] == [last];
    } else {
      JoinGrows(xs[1..], last);
    }
  }

  /**
   The exact condition for one event: its data comes back if and only if the event type
   contributes no data line of its own (`format_sse_event` does not escape the type).
   */
  lemma {:induction false} EventRoundTripExactly(eventType: string, data: string)
    requires eventType != "" && IsSingleLine(data) && Significant(data)
    ensures ExtractData(FormatEvent(Some(eventType), data)) == Some(data) <==> DataLines("event: " + eventType) == []
  {
    DataOfFormattedEvent(eventType, data);
    hide DataLines;
    var extra := DataLines("event: " + eventType);
    if extra == [] {
      assert extra + [data] == [data];
    } else {
      JoinGrows(extra, data);
    }
  }

  lemma {:induction false} SingleLineTypeAddsNoData(eventType: string)
    requires IsSingleLine(eventType)
    ensures DataLines("event: " + eventType) == []
  {
    hide DataLines;
    FieldLine("event", eventType);
    assert "event" + ": " + eventType == "event: " + eventType;
    SingleLineData("event: " + eventType);
  }

  /** A type with an embedded line can add a data line: then the extracted data is different. */
  lemma {:induction false} EmbeddedDataLineIsExtracted(prefix: string, embedded: string, data: string)
    requires IsSingleLine(prefix) && IsSingleLine(embedded) && IsSingleLine(data) && Significant(data)
    ensures ExtractData(FormatEvent(Some(prefix + "\n" + "data: " + embedded), data)) != Some(data)
  {
    hide DataLines;
    var eventType := prefix + "\n" + "data: " + embedded;
    assert "event: " + eventType == ("event: " + prefix) + "\n" + ("data: " + embedded);
    DataLinesAppend("event: " + prefix, "data: " + embedded);
    DataOfDataLine(embedded);
    EventRoundTripExactly(eventType, data);
  }

  // ---------- Through the framer ----------

  datatype Payload = Payload(eventType: Option<string>, data: string)

  predicate Formattable(p: Payload) {
    && IsSingleLine(p.data) && Significant(p.data)
    && (p.eventType.Some? ==> IsSingleLine(p.eventType.value))
  }

  function FormatPayload(p: Payload): string {
    FormatEvent(p.eventType, p.data)
  }

  function Frame(p: Payload): Bytes {
    Encode(FormatPayload(p))
  }

  // ---------- The shape of a frame ----------

  /** No byte that could be part of a separator. */
  predicate NoBreakByte(b: Bytes) {
    LF !in b && CR !in b
  }

  lemma {:induction false} SingleLineHasNoBreakByte(s: string)
    requires IsSingleLine(s)
    ensures NoBreakByte(Encode(s))
  {
    if LF in Encode(s) {
      AsciiByteIsItself(s, LF);
    }
    if CR in Encode(s) {
      AsciiByteIsItself(s, CR);
    }
  }

  /** The bytes of a data line start with the letter `d`. */
  predicate DataLineBytes(x: Bytes) {
    NoBreakByte(x) && |x| > 0 && x[0] == 'd' as int
  }

  lemma {:induction false} DataLineEncoded(data: string)
    requires IsSingleLine(data)
    ensures DataLineBytes(Encode("data: " + data))
  {
    SingleLineHasNoBreakByte("data: " + data);
    assert ("data: " + data)[0] == 'd';
  }

  lemma {:induction false} NewlinesEncoded()
    ensures Encode("\n") == [LF] && Encode("\n\n") == [LF, LF]
  {
    assert "\n"[1..] == "" && "\n\n"[1..] == "\n";
  }

  lemma {:induction false} FormattedDataEncoded(data: string)
    ensures Encode(FormatData(data)) == Encode("data: " + data) + [LF, LF]
  {
    NewlinesEncoded();
    EncodeAppend("data: " + data, "\n\n");
  }

  /** A frame is a data line, perhaps after one other line, and two line feeds. */
  lemma {:induction false} FrameShape(p: Payload) returns (head: Bytes, x: Bytes)
    requires Formattable(p)
    ensures DataLineBytes(x) && Frame(p) == head + x + [LF, LF]
    ensures head == [] || (exists y :: NoBreakByte(y) && head == y + [LF])
  {
    hide Encode;
    x := Encode("data: " + p.data);
    DataLineEncoded(p.data);
    FormattedDataEncoded(p.data);
    if p.eventType.Some? && p.eventType.value != "" {
      var line := "event: " + p.eventType.value;
      var y := Encode(line);
      SingleLineHasNoBreakByte(line);
      NewlinesEncoded();
      EncodeAppend(line, "\n");
      EncodeAppend(line + "\n", FormatData(p.data));
      head := y + [LF];
      assert head + x + [LF, LF] == head + (x + [LF, LF]);
    } else {
      head := [];
      assert [] + x + [LF, LF] == x + [LF, LF];
    }
  }

  /** Behind such bytes, the two closing line feeds are the first separator. */
  lemma {:induction false} ShapeIsFramed(head: Bytes, x: Bytes, rest: Bytes)
    requires DataLineBytes(x) && (head == [] || exists y :: NoBreakByte(y) && head == y + [LF])
    ensures FindSeparator(head + x + [LF, LF] + rest) == Some(Separator(|head + x|, 2))
  {
    hide FindSeparator;
    var all := head + x + [LF, LF] + rest;
    var n := |head + x|;
    assert all[n] == LF && all[n + 1] == LF;
    assert SeparatorAt(all, n, 2);
    if head == [] {
      assert forall i :: 0 <= i < n ==> all[i] == x[i];
    } else {
      var y :| NoBreakByte(y) && head == y + [LF];
      assert forall i :: 0 <= i < |y| ==> all[i] == y[i];
      assert all[|y|] == LF;
      assert forall i :: 0 <= i < |x| ==> all[|head| + i] == x[i];
      assert forall i :: |head| <= i < n ==> all[i] == x[i - |head|];
    }
    forall j, k | j < n ensures !SeparatorAt(all, j, k) {
      if 0 <= j && all[j] == LF {
        assert j + 1 == |head| && all[j + 1] == x[0];
      }
    }
  }

  /** In front of anything, a formatted event is the first frame, complete and not blank. */
  lemma {:induction false} FrameIsPopped(p: Payload, rest: Bytes)
    requires Formattable(p)
    ensures |Frame(p)| > 2 && FindSeparator(Frame(p) + rest) == Some(Separator(|Frame(p)| - 2, 2))
    ensures !BlankFrame(Frame(p))
  {
    hide Frame;
    hide Formattable;
    var head, x := FrameShape(p);
    ShapeIsFramed(head, x, rest);
    hide FindSeparator;
    assert Frame(p)[|head|] == x[0];
    assert !BlankByte(Frame(p)[|head|]);
  }

  predicate AllFormattable(ps: seq<Payload>, limit: int) {
    forall i :: 0 <= i < |ps| ==> Formattable(ps[i]) && |Frame(ps[i])| <= limit
  }

  function Frames(ps: seq<Payload>, limit: int): (fs: seq<Bytes>)
    requires AllFormattable(ps, limit)
    ensures |fs| == |ps|
    ensures forall i :: 0 <= i < |ps| ==> fs[i] == Frame(ps[i])
  {
    seq(|ps|, i requires 0 <= i < |ps| => Frame(ps[i]))
  }

  lemma {:induction false} FramesAreDrained(ps: seq<Payload>, limit: int)
    requires AllFormattable(ps, limit) && limit >= 0
    ensures Drain(Concat(Frames(ps, limit)), limit) == Drained(Frames(ps, limit), [], [], None)
    ensures Yielded(Frames(ps, limit)) == Frames(ps, limit)
    decreases |ps|
  {
    var fs := Frames(ps, limit);
    if ps == [] {
    } else {
      var rest := Frames(ps[1..], limit);
      assert fs == [Frame(ps[0])] + rest && fs[1..] == rest;
      FramesAreDrained(ps[1..], limit);
      FrameIsPopped(ps[0], Concat(rest));
      var all := Frame(ps[0]) + Concat(rest);
      assert Concat(fs) == all;
      DrainAfterPop(all, limit);
      var end := |Frame(ps[0])|;
      assert all[..end] == Frame(ps[0]) && all[end..] == Concat(rest);
    }
  }

  /** The data of a decoded event. */
  function ExtractedFrom(event: Bytes): Option<string> {
    match Decode(event)
    case None => None
    case Some(text) => ExtractData(text)
  }

  /**
   Formatting a list of payloads, cutting the bytes anywhere, framing them incrementally and
   extracting the data of each frame gives back exactly the list.
   */
  lemma {:induction false} StreamRoundTrip(ps: seq<Payload>, chunks: seq<Bytes>, limit: int)
    requires AllFormattable(ps, limit) && Concat(chunks) == Concat(Frames(ps, limit))
    ensures var out := IterEvents(chunks, [], limit);
            && out.tooLarge == None
            && |out.events| == |ps|
            && forall i :: 0 <= i < |ps| ==> ExtractedFrom(out.events[i]) == Some(ps[i].data)
  {
    var fs := Frames(ps, limit);
    IterIsWhole(chunks, [], limit);
    assert [] + Concat(chunks) == Concat(chunks);
    if ps == [] {
      assert fs == [] && Concat(fs) == [];
    } else {
      FramesAreDrained(ps, limit);
      assert Concat(fs) == fs[0] + Concat(fs[1..]);
      FrameIsPopped(ps[0], []);
      assert Yielded(fs) + [] == fs;
    }
    assert IterEvents(chunks, [], limit).events == fs;
    forall i | 0 <= i < |ps|
      ensures ExtractedFrom(fs[i]) == Some(ps[i].data)
    {
      FrameRoundTrip(ps[i]);
    }
  }

  lemma {:induction false} FrameRoundTrip(p: Payload)
    requires Formattable(p)
    ensures ExtractedFrom(Frame(p)) == Some(p.data)
  {
    DecodeEncode(FormatPayload(p));
    hide Encode;
    hide Decode;
    if p.eventType.Some? && p.eventType.value != "" {
      SingleLineTypeAddsNoData(p.eventType.value);
      EventRoundTripExactly(p.eventType.value, p.data);
    } else {
      DataOfFormattedData(p.data);
    }
  }
}
