/** Picking the JSON-RPC response for a request out of an HTTP body: one document, a batch, or server-sent events. */
module JsonRpcSelect {
  import opened Common
  import opened Text

  predicate ResponseIdMatches(value: Json, expectedId: Option<nat>) {
    expectedId.None? || (value.Get("id").Some? && value.Get("id").value.AsU64() == expectedId)
  }

  /** A response is the one expected exactly if it is an object whose `id` is that number. */
  lemma IdOfResponse(value: Json, id: nat)
    requires id < 0x1_0000_0000_0000_0000
    ensures ResponseIdMatches(value, Some(id)) <==>
              value.JObject? && "id" in value.fields && value.fields["id"] == JInt(id)
  {
  }

  predicate MatchesFirstAt(values: seq<Json>, i: nat, expectedId: Option<nat>)
    requires i < |values|
  {
    ResponseIdMatches(values[i], expectedId) && forall j | 0 <= j < i :: !ResponseIdMatches(values[j], expectedId)
  }

  /** The value matches, and none before it does. */
  predicate FirstAmong(values: seq<Json>, value: Json, expectedId: Option<nat>) {
    exists i | 0 <= i < |values| :: MatchesFirstAt(values, i, expectedId) && values[i] == value
  }

  lemma FirstAmongRest(values: seq<Json>, value: Json, expectedId: Option<nat>)
    requires values != [] && !ResponseIdMatches(values[0], expectedId) && FirstAmong(values[1..], value, expectedId)
    ensures FirstAmong(values, value, expectedId)
  {
    hide ResponseIdMatches;
    var i :| 0 <= i < |values| - 1 && MatchesFirstAt(values[1..], i, expectedId) && values[1..][i] == value;
    assert forall j | 0 < j <= i :: values[j] == values[1..][j - 1];
    assert MatchesFirstAt(values, i + 1, expectedId);
  }

  function FirstMatch(values: seq<Json>, expectedId: Option<nat>): (r: Option<Json>)
    ensures r.Some? ==> FirstAmong(values, r.value, expectedId)
    ensures r.None? ==> forall v | v in values :: !ResponseIdMatches(v, expectedId)
  {
    if values == [] then None
    else if ResponseIdMatches(values[0], expectedId) then
      assert MatchesFirstAt(values, 0, expectedId);
      Some(values[0])
    else
      var r := FirstMatch(values[1..], expectedId);
      assert r.Some? ==> FirstAmong(values, r.value, expectedId) by {
        if r.Some? { FirstAmongRest(values, r.value, expectedId); }
      }
      r
  }

  function SelectValueById(value: Json, expectedId: Option<nat>): Option<Json> {
    if value.JArray? then FirstMatch(value.items, expectedId)
    else if ResponseIdMatches(value, expectedId) then Some(value)
    else None
  }

  function DataLines(lines: seq<string>): seq<string> {
    if lines == [] then []
    else if "data:" <= lines[0] then [TrimStart(lines[0][5..])] + DataLines(lines[1..])
    else DataLines(lines[1..])
  }

  function EventData(event: string): string {
    Join(DataLines(Lines(event)), "\n")
  }

  function SelectEvent(parse: string -> Option<Json>, events: seq<string>, expectedId: Option<nat>): (r: Option<Json>)
    ensures r.Some? ==> ResponseIdMatches(r.value, expectedId)
  {
    if events == [] then None
    else
      var data := EventData(events[0]);
      if data == "" then SelectEvent(parse, events[1..], expectedId)
      else
        match parse(data)
        case None => None
        case Some(value) =>
          if ResponseIdMatches(value, expectedId) then Some(value)
          else SelectEvent(parse, events[1..], expectedId)
  }

  /** `None` stands for the error kind InvalidResponse, the only one this function raises. */
  function SelectJsonrpcResponse(
    parse: string -> Option<Json>, body: string, expectedId: Option<nat>): (r: Option<Json>)
    ensures r.Some? ==> ResponseIdMatches(r.value, expectedId)
  {
    var trimmed := Trim(body);
    if trimmed == "" then None
    else if trimmed[0] == '{' || trimmed[0] == '[' then
      match parse(trimmed)
      case None => None
      case Some(value) => SelectValueById(value, expectedId)
    else
      SelectEvent(parse, Split(Replace(body, "\r\n", "\n"), "\n\n"), expectedId)
  }

  // ---------- What is selected ----------

  /** The values of the events in order, as far as they can be parsed. */
  function EventValues(parse: string -> Option<Json>, events: seq<string>): seq<Json> {
    if events == [] then []
    else
      var data := EventData(events[0]);
      if data == "" then EventValues(parse, events[1..])
      else
        match parse(data)
        case None => []
        case Some(value) => [value] + EventValues(parse, events[1..])
  }

  /** The values a body holds: those of a batch, a single document, or those of the events up to one that does not
      parse. */
  function BodyValues(parse: string -> Option<Json>, body: string): seq<Json> {
    var trimmed := Trim(body);
    if trimmed == "" then []
    else if trimmed[0] == '{' || trimmed[0] == '[' then
      match parse(trimmed)
      case None => []
      case Some(value) => if value.JArray? then value.items else [value]
    else EventValues(parse, Split(Replace(body, "\r\n", "\n"), "\n\n"))
  }

  lemma {:induction false} SelectsFirstEvent(
    parse: string -> Option<Json>, events: seq<string>, expectedId: Option<nat>)
    ensures SelectEvent(parse, events, expectedId) == FirstMatch(EventValues(parse, events), expectedId)
  {
    hide EventData, ResponseIdMatches;
    if events != [] {
      SelectsFirstEvent(parse, events[1..], expectedId);
      var data := EventData(events[0]);
      if data != "" && parse(data).Some? {
        ConcatHead([parse(data).value], EventValues(parse, events[1..]));
      }
    }
  }

  lemma OnlyValue(value: Json, expectedId: Option<nat>)
    ensures FirstMatch([value], expectedId) == if ResponseIdMatches(value, expectedId) then Some(value) else None
  {
    hide ResponseIdMatches;
    assert FirstMatch([], expectedId) == None;
  }

  lemma FirstMatchFails(values: seq<Json>, expectedId: Option<nat>)
    ensures FirstMatch(values, expectedId).None? <==> forall v | v in values :: !ResponseIdMatches(v, expectedId)
  {
    hide ResponseIdMatches;
    var r := FirstMatch(values, expectedId);
    if r.Some? {
      var i :| 0 <= i < |values| && MatchesFirstAt(values, i, expectedId) && values[i] == r.value;
      assert values[i] in values;
    }
  }

  /** What is selected is the first of the body's values that has the expected id; selection fails exactly if none
      has. */
  lemma SelectsFirst(parse: string -> Option<Json>, body: string, expectedId: Option<nat>)
    ensures var selected, values := SelectJsonrpcResponse(parse, body, expectedId), BodyValues(parse, body);
            && (selected.Some? ==> FirstAmong(values, selected.value, expectedId))
            && (selected.None? <==> forall v | v in values :: !ResponseIdMatches(v, expectedId))
  {
    hide EventData, ResponseIdMatches, Trim, Split, Replace, FirstAmong, SelectEvent, EventValues;
    var trimmed := Trim(body);
    if trimmed != "" {
      if trimmed[0] == '{' || trimmed[0] == '[' {
        if parse(trimmed).Some? && !parse(trimmed).value.JArray? {
          OnlyValue(parse(trimmed).value, expectedId);
        }
      } else {
        SelectsFirstEvent(parse, Split(Replace(body, "\r\n", "\n"), "\n\n"), expectedId);
      }
    }
    FirstMatchFails(BodyValues(parse, body), expectedId);
  }

  // ---------- Framing as server-sent events ----------

  /** A serialized value or an event name as it can stand on one line. */
  predicate OneLine(s: string) {
    forall i | 0 <= i < |s| :: s[i] != '\r' && s[i] != '\n'
  }

  datatype Frame = Frame(name: Option<string>, text: string, value: Json)

  predicate WellFramed(parse: string -> Option<Json>, f: Frame) {
    && f.text != "" && OneLine(f.text) && !IsWhitespace(f.text[0])
    && parse(f.text) == Some(f.value)
    && (f.name.Some? ==> OneLine(f.name.value))
  }

  function Line(text: string, eol: string, rest: string): string {
    text + eol + rest
  }

  function Named(name: Option<string>, eol: string, rest: string): string {
    if name.Some? then Line("event: " + name.value, eol, rest) else rest
  }

  /** The frames in the format of section 9.2.6 of the WHATWG HTML standard. */
  function Stream(frames: seq<Frame>, eol: string): string {
    if frames == [] then ""
    else
      Named(frames[0].name, eol, Line("data: " + frames[0].text, eol, Line("", eol, Stream(frames[1..], eol))))
  }

  /** The text of one frame, without the blank line that ends it. */
  function Event(f: Frame): string {
    Named(f.name, "\n", "data: " + f.text)
  }

  function Values(frames: seq<Frame>): seq<Json> {
    if frames == [] then [] else [frames[0].value] + Values(frames[1..])
  }

  lemma OneLineConcat(a: string, b: string)
    requires OneLine(a) && OneLine(b)
    ensures OneLine(a + b)
  {
  }

  lemma PartsAreOneLine(parse: string -> Option<Json>, f: Frame)
    requires WellFramed(parse, f)
    ensures OneLine("data: " + f.text)
    ensures f.name.Some? ==> OneLine("event: " + f.name.value)
  {
    OneLineConcat("data: ", f.text);
    if f.name.Some? { OneLineConcat("event: ", f.name.value); }
  }

  // ---------- Line endings ----------

  lemma NoLineEndAt(s: string)
    requires s != "" && s[0] != '\r'
    ensures !OccursAt(s, "\r\n", 0)
  {
    if |s| >= 2 { assert s[0..2][0] == s[0]; }
  }

  lemma {:induction false} ReplaceSkips(a: string, b: string)
    requires OneLine(a)
    ensures Replace(a + b, "\r\n", "\n") == a + Replace(b, "\r\n", "\n")
  {
    hide OccursAt;
    if a == "" {
      assert a + b == b;
    } else {
      ConcatHead(a, b);
      NoLineEndAt(a + b);
      assert Replace(a + b, "\r\n", "\n") == [a[0]] + Replace(a[1..] + b, "\r\n", "\n");
      assert OneLine(a[1..]);
      hide *;
      ReplaceSkips(a[1..], b);
      ConcatAssociates([a[0]], a[1..], Replace(b, "\r\n", "\n"));
      TakeDrop(a, 1);
    }
  }

  lemma ReplaceLineEnd(eol: string, b: string)
    requires eol == "\n" || eol == "\r\n"
    ensures Replace(eol + b, "\r\n", "\n") == "\n" + Replace(b, "\r\n", "\n")
  {
    var tail := eol + b;
    if eol == "\n" {
      assert tail[1..] == b;
    } else {
      assert tail[..2] == "\r\n" && tail[2..] == b;
    }
  }

  /** A line ended either way comes out ended by LF, and what follows is treated on its own. */
  lemma ReplaceLine(a: string, eol: string, b: string)
    requires OneLine(a)
    requires eol == "\n" || eol == "\r\n"
    ensures Replace(Line(a, eol, b), "\r\n", "\n") == Line(a, "\n", Replace(b, "\r\n", "\n"))
  {
    ReplaceSkips(a, eol + b);
    ReplaceLineEnd(eol, b);
    hide Replace;
    ConcatAssociates(a, eol, b);
    ConcatAssociates(a, "\n", Replace(b, "\r\n", "\n"));
  }

  /** Normalizing line endings turns either framing into the LF one. */
  lemma {:induction false} NormalizedStream(parse: string -> Option<Json>, frames: seq<Frame>, eol: string)
    requires eol == "\n" || eol == "\r\n"
    requires forall f | f in frames :: WellFramed(parse, f)
    ensures Replace(Stream(frames, eol), "\r\n", "\n") == Stream(frames, "\n")
  {
    if frames != [] {
      NormalizedStream(parse, frames[1..], eol);
      PartsAreOneLine(parse, frames[0]);
      var rest := Stream(frames[1..], eol);
      ReplaceLine("", eol, rest);
      ReplaceLine("data: " + frames[0].text, eol, Line("", eol, rest));
      if frames[0].name.Some? {
        ReplaceLine("event: " + frames[0].name.value, eol, Line("data: " + frames[0].text, eol, Line("", eol, rest)));
      }
    }
  }

  // ---------- One event ----------

  lemma FindLine(a: string, b: string)
    requires OneLine(a)
    ensures Find(a + "\n" + b, "\n") == Some(|a|)
  {
    var s := a + "\n" + b;
    assert s[|a|] == '\n';
    assert forall j: nat | j < |a| :: s[j] == a[j] && s[j..j + 1] == [a[j]];
    FindAt(s, "\n", |a|);
  }

  lemma LinesOne(a: string)
    requires OneLine(a) && a != ""
    ensures Lines(a) == [a]
  {
    forall j: nat ensures !OccursAt(a, "\n", j) {
      if j < |a| { assert a[j..j + 1][0] == a[j]; }
    }
  }

  lemma FrameData(parse: string -> Option<Json>, f: Frame)
    requires WellFramed(parse, f)
    ensures EventData(Event(f)) == f.text
  {
    var data := "data: " + f.text;
    PartsAreOneLine(parse, f);
    LinesOne(data);
    var padded := data[5..];
    assert padded[0] == ' ' && padded[1..] == f.text;
    assert TrimStart(padded) == f.text;
    assert data[..5] == "data:";
    assert DataLines([data]) == [f.text];
    if f.name.Some? {
      var name := "event: " + f.name.value;
      FindLine(name, data);
      var event := Event(f);
      assert event[..|name|] == name && event[|name| + 1..] == data;
      assert event[|name| - 1] == name[|name| - 1];
      assert Lines(event) == [name] + [data];
      assert name[0] == 'e';
      assert DataLines([name] + [data]) == DataLines([data]);
    }
  }

  // ---------- Data over several lines ----------

  /** The lines as data fields, each after some white space. */
  function DataFields(lines: seq<string>, pad: string, eol: string): string {
    if lines == [] then "" else Line("data:" + (pad + lines[0]), eol, DataFields(lines[1..], pad, eol))
  }

  lemma LinesStep(a: string, eol: string, b: string)
    requires OneLine(a) && (eol == "\n" || eol == "\r\n")
    ensures Lines(Line(a, eol, b)) == [a] + Lines(b)
  {
    var s := Line(a, eol, b);
    if eol == "\n" {
      FindLine(a, b);
      assert s[..|a|] == a && s[|a| + 1..] == b;
      assert 0 < |a| ==> s[|a| - 1] == a[|a| - 1];
    } else {
      assert s == a + "\r" + "\n" + b;
      var n := |a| + 1;
      forall j: nat | j < n ensures !OccursAt(s, "\n", j) {
        assert s[j] != '\n' && s[j..j + 1][0] == s[j];
      }
      assert s[n..n + 1] == "\n";
      FindAt(s, "\n", n);
      assert s[..n - 1] == a && s[n + 1..] == b;
    }
  }

  lemma {:induction false} PadIsTrimmed(pad: string, text: string)
    requires (forall c | c in pad :: IsWhitespace(c)) && (text != "" ==> !IsWhitespace(text[0]))
    ensures TrimStart(pad + text) == text
  {
    if pad == "" {
      assert pad + text == text;
    } else {
      hide IsWhitespace;
      ConcatHead(pad, text);
      assert pad[0] in pad && forall c | c in pad[1..] :: c in pad;
      PadIsTrimmed(pad[1..], text);
    }
  }

  lemma NoDataLines()
    ensures DataLines(Lines("")) == []
  {
    assert Lines("") == [];
  }

  lemma DataIsOneLine()
    ensures OneLine("data:")
  {
  }

  lemma DataLine(text: string, rest: seq<string>)
    ensures DataLines(["data:" + text] + rest) == [TrimStart(text)] + DataLines(rest)
  {
    hide TrimStart;
    var field := "data:" + text;
    assert field[..5] == "data:" && field[5..] == text;
    ConcatHead([field], rest);
    assert [field][1..] + rest == rest;
  }

  lemma {:induction false} DataFieldsRead(lines: seq<string>, pad: string, eol: string)
    requires (eol == "\n" || eol == "\r\n") && OneLine(pad) && forall c | c in pad :: IsWhitespace(c)
    requires forall l | l in lines :: OneLine(l) && (l != "" ==> !IsWhitespace(l[0]))
    ensures DataLines(Lines(DataFields(lines, pad, eol))) == lines
  {
    hide IsWhitespace, TrimStart, DataLines, Lines, OneLine;
    if lines == [] {
      NoDataLines();
    } else {
      var field, rest := "data:" + (pad + lines[0]), DataFields(lines[1..], pad, eol);
      DataFieldsRead(lines[1..], pad, eol);
      OneLineConcat(pad, lines[0]);
      DataIsOneLine();
      OneLineConcat("data:", pad + lines[0]);
      LinesStep(field, eol, rest);
      PadIsTrimmed(pad, lines[0]);
      DataLine(pad + lines[0], Lines(rest));
    }
  }

  /** Data over several lines, ended either way and with any white space in front, comes out line by line. */
  lemma DataReadsBack(lines: seq<string>, pad: string, eol: string)
    requires (eol == "\n" || eol == "\r\n") && OneLine(pad) && forall c | c in pad :: IsWhitespace(c)
    requires lines != [] && forall l | l in lines :: OneLine(l) && (l != "" ==> !IsWhitespace(l[0]))
    ensures Split(EventData(DataFields(lines, pad, eol)), "\n") == lines
  {
    hide IsWhitespace, Split, Join, DataFields, DataLines;
    DataFieldsRead(lines, pad, eol);
    assert forall l | l in lines :: '\n' !in l by { assert forall l | l in lines :: OneLine(l); }
    JoinSplits(lines, '\n');
  }

  // ---------- One event after the other ----------

  lemma EventShape(f: Frame, rest: string)
    ensures Named(f.name, "\n", Line("data: " + f.text, "\n", Line("", "\n", rest))) == Event(f) + "\n\n" + rest
  {
    assert "\n\n" == "\n" + "\n";
  }

  /** No blank line starts inside an event, not even at its last character. */
  lemma FrameEnds(parse: string -> Option<Json>, f: Frame, rest: string)
    requires WellFramed(parse, f)
    ensures Find(Event(f) + "\n\n" + rest, "\n\n") == Some(|Event(f)|)
  {
    var data := "data: " + f.text;
    var event := Event(f);
    var s := event + "\n\n" + rest;
    PartsAreOneLine(parse, f);
    var n := |event| - |data|;
    assert event[n..] == data;
    assert s[|event|..|event| + 2] == "\n\n";
    forall j: nat | j < |event| ensures !OccursAt(s, "\n\n", j) {
      if j >= n {
        assert s[j] == data[j - n];
      } else if j == n - 1 {
        assert s[n] == data[0] == 'd';
        assert s[j..j + 2][1] == s[n];
      } else {
        assert s[j] == ("event: " + f.name.value)[j];
      }
      assert s[j..j + 2][0] == s[j];
    }
    FindAt(s, "\n\n", |event|);
  }

  // ---------- The two encodings agree ----------

  lemma {:induction false} StreamSelects(parse: string -> Option<Json>, frames: seq<Frame>, expectedId: Option<nat>)
    requires forall f | f in frames :: WellFramed(parse, f)
    ensures SelectEvent(parse, Split(Stream(frames, "\n"), "\n\n"), expectedId)
         == FirstMatch(Values(frames), expectedId)
  {
    if frames == [] {
      assert Split("", "\n\n") == [""];
      assert Lines("") == [];
    } else {
      var f := frames[0];
      var rest := Stream(frames[1..], "\n");
      var s := Event(f) + "\n\n" + rest;
      EventShape(f, rest);
      FrameEnds(parse, f, rest);
      assert s[..|Event(f)|] == Event(f) && s[|Event(f)| + 2..] == rest;
      var events := Split(s, "\n\n");
      assert events[0] == Event(f) && events[1..] == Split(rest, "\n\n");
      FrameData(parse, f);
      StreamSelects(parse, frames[1..], expectedId);
      assert Values(frames)[1..] == Values(frames[1..]);
    }
  }

  /** A stream starts with a field name, so it is not taken for a JSON document. */
  lemma StreamIsNotADocument(frames: seq<Frame>, eol: string)
    requires frames != []
    ensures var trimmed := Trim(Stream(frames, eol)); trimmed != "" && trimmed[0] != '{' && trimmed[0] != '['
  {
    var body := Stream(frames, eol);
    var rest := Line("data: " + frames[0].text, eol, Line("", eol, Stream(frames[1..], eol)));
    assert rest[0] == 'd';
    if frames[0].name.Some? {
      assert body == Line("event: " + frames[0].name.value, eol, rest);
      assert body[0] == 'e';
    }
    assert TrimStart(body) == body;
    TrimEndKeepsHead(body);
  }

  /** For any values, their framing as events (LF or CRLF, with or without event names) and their batch
      select the same response, the first whose id matches, and fail together when there is none. */
  lemma SseAndBatchAgree(
    parse: string -> Option<Json>, frames: seq<Frame>, eol: string, batch: string, expectedId: Option<nat>)
    requires eol == "\n" || eol == "\r\n"
    requires forall f | f in frames :: WellFramed(parse, f)
    requires Trim(batch) != "" && Trim(batch)[0] == '['
    requires parse(Trim(batch)) == Some(JArray(Values(frames)))
    ensures SelectJsonrpcResponse(parse, Stream(frames, eol), expectedId) == FirstMatch(Values(frames), expectedId)
    ensures SelectJsonrpcResponse(parse, batch, expectedId) == FirstMatch(Values(frames), expectedId)
  {
    if frames != [] {
      StreamIsNotADocument(frames, eol);
    }
    NormalizedStream(parse, frames, eol);
    StreamSelects(parse, frames, expectedId);
  }
}
