/** Masking secrets in log text: a cursor scan, and the segments of the text that it amounts to. */
module Masking {
  import opened Common
  import opened Text

  // ---------- Where values end ----------

  datatype Ending = BareEnd | BearerEnd | TokenEnd | QuoteEnd(quote: char)

  predicate Ends(e: Ending, c: char) {
    match e
    case BareEnd => c == '&' || c == '"' || c == '\'' || IsWhitespace(c)
    case BearerEnd => c == '&' || c == ',' || c == '"' || c == '\'' || c == '\r' || c == '\n'
    case TokenEnd => c == '&' || c == ',' || c == '"' || c == '\'' || IsWhitespace(c)
    case QuoteEnd(quote) => c == quote
  }

  predicate Free(s: string, e: Ending) {
    forall i | 0 <= i < |s| :: !Ends(e, s[i])
  }

  /** `find(stop).unwrap_or(len)`. */
  function Extent(s: string, e: Ending): (n: nat)
    ensures n <= |s| && Free(s[..n], e)
    ensures n < |s| ==> Ends(e, s[n])
  {
    if s == "" || Ends(e, s[0]) then 0
    else
      var n := Extent(s[1..], e);
      assert s[..n + 1] == [s[0]] + s[1..][..n];
      n + 1
  }

  function LowerChar(c: char): char {
    if 'A' <= c <= 'Z' then c - 'A' + 'a' else c
  }

  /** `to_ascii_lowercase`. */
  function Lower(s: string): (r: string)
    ensures |r| == |s| && forall i | 0 <= i < |s| :: r[i] == LowerChar(s[i])
  {
    seq(|s|, i requires 0 <= i < |s| => LowerChar(s[i]))
  }

  // ---------- Rules ----------

  /** `mask_assignment_values` with one needle, or `mask_bearer_values`. */
  datatype Rule = Assignment(name: string) | BearerToken {
    function Needle(): string {
      if Assignment? then name else "bearer "
    }

    predicate KnowsBearer() {
      Assignment? && (name == "authorization=" || name == "auth=")
    }
  }

  datatype Kind = Bearer | Quoted(quote: char) | Bare

  function EndOf(rule: Rule, kind: Kind): Ending {
    match kind
    case Bearer => BearerEnd
    case Quoted(quote) => QuoteEnd(quote)
    case Bare => if rule.BearerToken? then TokenEnd else BareEnd
  }

  predicate StartsBearer(s: string) {
    |s| >= 7 && Lower(s)[..7] == "bearer "
  }

  predicate StartsQuoted(s: string) {
    s != "" && (s[0] == '\'' || s[0] == '"')
  }

  /** How the value at the start of `s` is written. */
  function KindOf(rule: Rule, s: string): Kind {
    if rule.KnowsBearer() && StartsBearer(s) then Bearer
    else if rule.Assignment? && StartsQuoted(s) then Quoted(s[0])
    else Bare
  }

  function Opening(kind: Kind): string {
    if kind.Quoted? then [kind.quote] else ""
  }

  function Stars(kind: Kind, value: string): string {
    if kind.Bearer? || value != "" then "***" else ""
  }

  // ---------- Segments ----------

  /** Text up to and including the needle, and the value after it. */
  datatype Segment = Segment(lead: string, kind: Kind, value: string)

  datatype Parsed = Parsed(segments: seq<Segment>, tail: string)

  lemma OpeningIsThere(rule: Rule, after: string)
    ensures var n := |Opening(KindOf(rule, after))|; n <= |after| && after[..n] == Opening(KindOf(rule, after))
  {
  }

  /** The first value, where the needle ends at `at`, and what follows it. */
  function Cut(rule: Rule, text: string, at: nat): (r: (Segment, string))
    requires at <= |text|
    ensures |r.1| <= |text| - at
  {
    var after := text[at..];
    var kind := KindOf(rule, after);
    var body := after[|Opening(kind)|..];
    var n := Extent(body, EndOf(rule, kind));
    (Segment(text[..at], kind, body[..n]), body[n..])
  }

  lemma CutAssembles(rule: Rule, text: string, at: nat)
    requires at <= |text|
    ensures var (s, rest) := Cut(rule, text, at); s.lead + (Opening(s.kind) + (s.value + rest)) == text
  {
    hide EndOf, Extent, KindOf, Opening;
    var after := text[at..];
    var kind := KindOf(rule, after);
    OpeningIsThere(rule, after);
    var body := after[|Opening(kind)|..];
    var n := Extent(body, EndOf(rule, kind));
    TakeDrop(body, n);
    TakeDrop(after, |Opening(kind)|);
    TakeDrop(text, at);
  }

  function Parse(rule: Rule, text: string): Parsed
    requires rule.Needle() != ""
    decreases |text|
  {
    var found := Find(Lower(text), rule.Needle());
    if found.None? then Parsed([], text)
    else
      var cut := Cut(rule, text, found.value + |rule.Needle()|);
      var parsed := Parse(rule, cut.1);
      Parsed([cut.0] + parsed.segments, parsed.tail)
  }

  function Assemble(p: Parsed): string
    decreases |p.segments|
  {
    if p.segments == [] then p.tail
    else
      var s := p.segments[0];
      s.lead + (Opening(s.kind) + (s.value + Assemble(Parsed(p.segments[1..], p.tail))))
  }

  function Masked(p: Parsed): (r: Parsed)
    ensures |r.segments| == |p.segments|
  {
    Parsed(seq(|p.segments|, i requires 0 <= i < |p.segments| =>
             p.segments[i].(value := Stars(p.segments[i].kind, p.segments[i].value))),
           p.tail)
  }

  /** The segment-wise specification: every value is replaced, everything else is kept. */
  function Mask(rule: Rule, text: string): string
    requires rule.Needle() != ""
  {
    Assemble(Masked(Parse(rule, text)))
  }

  lemma MaskedCons(s: Segment, p: Parsed)
    ensures Assemble(Masked(Parsed([s] + p.segments, p.tail)))
         == s.lead + (Opening(s.kind) + (Stars(s.kind, s.value) + Assemble(Masked(p))))
  {
    hide Opening, Stars;
    var masked := Masked(Parsed([s] + p.segments, p.tail));
    assert masked.segments[1..] == Masked(p).segments;
  }

  function Rest(p: Parsed): Parsed
    requires p.segments != []
  {
    Parsed(p.segments[1..], p.tail)
  }

  lemma ParseSteps(rule: Rule, text: string, at: nat)
    requires rule.Needle() != "" && |rule.Needle()| <= at
         && Find(Lower(text), rule.Needle()) == Some(at - |rule.Needle()|)
    ensures at <= |text|
    ensures var (s, rest) := Cut(rule, text, at);
            && Parse(rule, text) == Parsed([s] + Parse(rule, rest).segments, Parse(rule, rest).tail)
            && Rest(Parse(rule, text)) == Parse(rule, rest)
  {
    hide Cut, Lower, OccursAt, Find, Rule.Needle;
    ConcatHead([Cut(rule, text, at).0], Parse(rule, Cut(rule, text, at).1).segments);
  }

  lemma MaskStep(rule: Rule, text: string, i: nat)
    requires rule.Needle() != "" && Find(Lower(text), rule.Needle()) == Some(i)
    ensures var (s, rest) := Cut(rule, text, i + |rule.Needle()|);
            Mask(rule, text) == s.lead + (Opening(s.kind) + (Stars(s.kind, s.value) + Mask(rule, rest)))
  {
    hide Cut, Opening, Stars, Parse, Masked, Assemble;
    var at := i + |rule.Needle()|;
    ParseSteps(rule, text, at);
    MaskedCons(Cut(rule, text, at).0, Parse(rule, Cut(rule, text, at).1));
  }

  lemma Concat5(a: string, b: string, c: string, d: string, e: string)
    ensures a + (b + (c + (d + e))) == (a + b + c + d) + e
  {
  }

  // ---------- The cursor scan ----------

  /** Where the scan stands after the value that starts at `start`. */
  function NextCursor(rule: Rule, text: string, start: nat): (next: nat)
    requires start <= |text|
    ensures start <= next <= |text|
  {
    var kind := KindOf(rule, text[start..]);
    start + |Opening(kind)| + Extent(text[start..][|Opening(kind)|..], EndOf(rule, kind))
  }

  /** The parts of a cut, over the text from the value on. */
  lemma CutParts(rule: Rule, text: string, at: nat)
    requires at <= |text|
    ensures var (s, rest) := Cut(rule, text, at);
            var kind := KindOf(rule, text[at..]);
            |Opening(kind)| <= |text[at..]|
            && var n := Extent(text[at..][|Opening(kind)|..], EndOf(rule, kind));
               && s.lead == text[..at] && s.kind == kind && |s.value| == n
               && Stars(kind, s.value) == (if kind.Bearer? || 0 < n then "***" else "")
               && |Opening(kind)| + n <= |text[at..]| && rest == text[at..][|Opening(kind)| + n..]
  {
    hide KindOf, EndOf, Extent, Opening, Free, Ends;
    var after := text[at..];
    var kind := KindOf(rule, after);
    OpeningIsThere(rule, after);
    DropDrop(after, |Opening(kind)|, Extent(after[|Opening(kind)|..], EndOf(rule, kind)));
  }

  lemma RestAtCursor(rule: Rule, text: string, start: nat)
    requires start <= |text|
    ensures var kind := KindOf(rule, text[start..]);
            |Opening(kind)| <= |text[start..]|
            && var k := |Opening(kind)| + Extent(text[start..][|Opening(kind)|..], EndOf(rule, kind));
               k <= |text[start..]| && text[start..][k..] == text[NextCursor(rule, text, start)..]
  {
    hide KindOf, EndOf, Extent, Opening, Free, Ends;
    OpeningIsThere(rule, text[start..]);
    DropDrop(text, start, NextCursor(rule, text, start) - start);
  }

  lemma CutAtCursor(rule: Rule, text: string, cursor: nat, start: nat)
    requires cursor <= start <= |text|
    ensures var (s, rest) := Cut(rule, text[cursor..], start - cursor);
            var kind := KindOf(rule, text[start..]);
            && s.lead == text[cursor..start] && s.kind == kind
            && Stars(kind, s.value)
                 == (if kind.Bearer? || 0 < Extent(text[start..][|Opening(kind)|..], EndOf(rule, kind)) then "***"
                     else "")
            && rest == text[NextCursor(rule, text, start)..]
  {
    hide KindOf, EndOf, Extent, Opening, Free, Ends, Cut, Stars, NextCursor;
    DropDrop(text, cursor, start - cursor);
    CutParts(rule, text[cursor..], start - cursor);
    RestAtCursor(rule, text, start);
  }

  /** One turn of the scan, from a cursor to the next. */
  lemma ScanStep(rule: Rule, text: string, cursor: nat, i: nat)
    requires rule.Needle() != "" && cursor <= |text|
    requires Find(Lower(text[cursor..]), rule.Needle()) == Some(i)
    ensures var start := cursor + i + |rule.Needle()|;
            start <= |text|
            && var kind := KindOf(rule, text[start..]);
               var n := Extent(text[start..][|Opening(kind)|..], EndOf(rule, kind));
               Mask(rule, text[cursor..])
                 == text[cursor..start] + (Opening(kind) + ((if kind.Bearer? || 0 < n then "***" else "")
                      + Mask(rule, text[NextCursor(rule, text, start)..])))
  {
    hide Mask, KindOf, EndOf, Extent, Opening, Stars, Cut, NextCursor;
    var start := cursor + i + |rule.Needle()|;
    MaskStep(rule, text[cursor..], i);
    CutAtCursor(rule, text, cursor, start);
  }

  lemma LowerSuffix(text: string, cursor: nat)
    requires cursor <= |text|
    ensures Lower(text)[cursor..] == Lower(text[cursor..])
  {
  }

  lemma MaskNothing(rule: Rule, text: string)
    requires rule.Needle() != "" && Find(Lower(text), rule.Needle()).None?
    ensures Mask(rule, text) == text
  {
  }

  method MaskValues(rule: Rule, text: string) returns (out: string)
    requires rule.Needle() != ""
    ensures out == Mask(rule, text)
  {
    hide Mask, KindOf, EndOf, Extent, Opening, Lower, Ends, Free, OccursAt, Find;
    var lower := Lower(text);
    out := "";
    var cursor := 0;
    assert text[0..] == text;
    while true
      invariant cursor <= |text|
      invariant out + Mask(rule, text[cursor..]) == Mask(rule, text)
      decreases |text| - cursor
    {
      LowerSuffix(text, cursor);
      var found := Find(lower[cursor..], rule.Needle());
      if found.None? {
        MaskNothing(rule, text[cursor..]);
        out := out + text[cursor..];
        return;
      }
      ScanStep(rule, text, cursor, found.value);
      var valueStart := cursor + found.value + |rule.Needle()|;
      var rest := text[valueStart..];
      var kind := KindOf(rule, rest);
      OpeningIsThere(rule, rest);
      var opening := Opening(kind);
      var length := Extent(rest[|opening|..], EndOf(rule, kind));
      var stars := if kind.Bearer? || 0 < length then "***" else "";
      Concat5(out, text[cursor..valueStart], opening, stars, Mask(rule, text[NextCursor(rule, text, valueStart)..]));
      out := out + text[cursor..valueStart] + opening + stars;
      cursor := valueStart + |opening| + length;
    }
  }

  // ---------- Segments determine the text and are determined by it ----------

  /** The segment can stand in front of `rest`: its needle comes last in its lead and first occurs there, its value
      ends where `rest` starts, and it is read as what it is. */
  ghost predicate Admissible(rule: Rule, s: Segment, rest: string) {
    && |rule.Needle()| <= |s.lead|
    && Find(Lower(s.lead), rule.Needle()) == Some(|s.lead| - |rule.Needle()|)
    && Free(s.value, EndOf(rule, s.kind))
    && (rest == "" || Ends(EndOf(rule, s.kind), rest[0]))
    && KindOf(rule, Opening(s.kind) + (s.value + rest)) == s.kind
  }

  ghost predicate WellFormed(rule: Rule, p: Parsed)
    decreases |p.segments|
  {
    if p.segments == [] then Find(Lower(p.tail), rule.Needle()).None?
    else Admissible(rule, p.segments[0], Assemble(Rest(p))) && WellFormed(rule, Rest(p))
  }

  lemma FreeExtent(value: string, rest: string, e: Ending)
    requires Free(value, e) && (rest == "" || Ends(e, rest[0]))
    ensures Extent(value + rest, e) == |value|
  {
    var t := value + rest;
    var n := Extent(t, e);
    assert forall i | 0 <= i < |value| :: t[i] == value[i];
    assert forall i | 0 <= i < n :: t[..n][i] == t[i];
    assert rest != "" ==> t[|value|] == rest[0];
  }

  /** An occurrence that ends a prefix is still the first one when text is appended. */
  lemma FindInPrefix(a: string, b: string, needle: string)
    requires |needle| <= |a| && Find(Lower(a), needle) == Some(|a| - |needle|)
    ensures Find(Lower(a + b), needle) == Some(|a| - |needle|)
  {
    var la, lab, i := Lower(a), Lower(a + b), |a| - |needle|;
    assert forall j | 0 <= j < |a| :: lab[j] == la[j];
    assert lab[i..i + |needle|] == la[i..i + |needle|];
    forall j: nat | j < i ensures !OccursAt(lab, needle, j) {
      assert !OccursAt(la, needle, j);
      assert lab[j..j + |needle|] == la[j..j + |needle|];
    }
    FindAt(lab, needle, i);
  }

  lemma FindInText(a: string, needle: string, i: nat)
    requires Find(Lower(a), needle) == Some(i)
    ensures i + |needle| <= |a| && Find(Lower(a[..i + |needle|]), needle) == Some(i)
  {
    var la, lp := Lower(a), Lower(a[..i + |needle|]);
    assert lp[i..i + |needle|] == la[i..i + |needle|];
    forall j: nat | j < i ensures !OccursAt(lp, needle, j) {
      assert !OccursAt(la, needle, j);
      assert lp[j..j + |needle|] == la[j..j + |needle|];
    }
    FindAt(lp, needle, i);
  }

  /** What is cut off can stand in front of what is left. */
  lemma CutAdmissible(rule: Rule, text: string, i: nat)
    requires rule.Needle() != "" && Find(Lower(text), rule.Needle()) == Some(i)
    ensures var (s, rest) := Cut(rule, text, i + |rule.Needle()|); Admissible(rule, s, rest)
  {
    hide KindOf, Opening, EndOf, OccursAt, Find, Rule.Needle, Ends, Free, Lower, Extent;
    var at := i + |rule.Needle()|;
    FindInText(text, rule.Needle(), i);
    var after := text[at..];
    var kind := KindOf(rule, after);
    OpeningIsThere(rule, after);
    var body := after[|Opening(kind)|..];
    var n := Extent(body, EndOf(rule, kind));
    TakeDrop(body, n);
    TakeDrop(after, |Opening(kind)|);
  }

  lemma ParseEnds(rule: Rule, text: string)
    requires rule.Needle() != "" && Find(Lower(text), rule.Needle()).None?
    ensures Parse(rule, text) == Parsed([], text)
  {
  }

  /** The segments of a text are well formed, and put together they are the text. */
  lemma {:induction false} ParseAssembles(rule: Rule, text: string)
    requires rule.Needle() != ""
    ensures Assemble(Parse(rule, text)) == text && WellFormed(rule, Parse(rule, text))
    decreases |text|
  {
    hide Cut, Admissible, Opening, Parse, Lower;
    var found := Find(Lower(text), rule.Needle());
    if found.Some? {
      var at := found.value + |rule.Needle()|;
      ParseSteps(rule, text, at);
      ParseAssembles(rule, Cut(rule, text, at).1);
      CutAssembles(rule, text, at);
      CutAdmissible(rule, text, found.value);
    } else {
      ParseEnds(rule, text);
    }
  }

  lemma TakeOfConcat(a: string, b: string)
    ensures (a + b)[..|a|] == a && (a + b)[|a|..] == b
  {
  }

  /** Cutting a segment off the text it was put in front of. */
  lemma CutInverts(rule: Rule, s: Segment, rest: string)
    requires rule.Needle() != "" && Admissible(rule, s, rest)
    ensures var text := s.lead + (Opening(s.kind) + (s.value + rest));
            && Find(Lower(text), rule.Needle()) == Some(|s.lead| - |rule.Needle()|)
            && Cut(rule, text, |s.lead|) == (s, rest)
  {
    hide KindOf, Opening, EndOf, Extent;
    var after := Opening(s.kind) + (s.value + rest);
    FindInPrefix(s.lead, after, rule.Needle());
    TakeOfConcat(s.lead, after);
    TakeOfConcat(Opening(s.kind), s.value + rest);
    FreeExtent(s.value, rest, EndOf(rule, s.kind));
    TakeOfConcat(s.value, rest);
  }

  /** Any well-formed segments are the segments of the text they make up. */
  lemma {:induction false} AssembleParses(rule: Rule, p: Parsed)
    requires rule.Needle() != "" && WellFormed(rule, p)
    ensures Parse(rule, Assemble(p)) == p
    decreases |p.segments|
  {
    hide Cut, Admissible, Opening, Parse, Lower;
    if p.segments != [] {
      var s := p.segments[0];
      AssembleParses(rule, Rest(p));
      CutInverts(rule, s, Assemble(Rest(p)));
      ParseSteps(rule, Assemble(p), |s.lead|);
      assert [s] + p.segments[1..] == p.segments;
    } else {
      ParseEnds(rule, p.tail);
    }
  }

  // ---------- The output says nothing about the values ----------

  /** The same text outside the values, and the same values empty. */
  predicate SameOutside(p: Parsed, q: Parsed) {
    && p.tail == q.tail && |p.segments| == |q.segments|
    && forall i | 0 <= i < |p.segments| ::
         && p.segments[i].lead == q.segments[i].lead && p.segments[i].kind == q.segments[i].kind
         && (p.segments[i].value == "" <==> q.segments[i].value == "")
  }

  /** Two texts that differ only in their non-empty values are masked alike. */
  lemma MaskHidesValues(rule: Rule, a: string, b: string)
    requires rule.Needle() != "" && SameOutside(Parse(rule, a), Parse(rule, b))
    ensures Mask(rule, a) == Mask(rule, b)
  {
    assert Masked(Parse(rule, a)) == Masked(Parse(rule, b));
  }

  /** Every way of exchanging the values of a text for others of their kind is masked alike. */
  lemma MaskIgnoresExchange(rule: Rule, text: string, q: Parsed)
    requires rule.Needle() != "" && WellFormed(rule, q) && SameOutside(Parse(rule, text), q)
    ensures Mask(rule, Assemble(q)) == Mask(rule, text)
  {
    AssembleParses(rule, q);
    MaskHidesValues(rule, text, Assemble(q));
  }

  // ---------- Masking twice ----------

  /** Masking does not change what a text starts with, when it starts outside a value. */
  lemma MaskedStart(rule: Rule, p: Parsed)
    requires rule.Needle() != "" && WellFormed(rule, p)
    ensures Assemble(p) == "" <==> Assemble(Masked(p)) == ""
    ensures Assemble(p) != "" ==> Assemble(Masked(p))[0] == Assemble(p)[0]
  {
    if p.segments != [] {
      assert Masked(p).segments[0].lead == p.segments[0].lead != "";
    }
  }

  lemma NotBearer(s: string)
    requires s != "" && s[0] != 'b' && s[0] != 'B'
    ensures !StartsBearer(s)
  {
    if |s| >= 7 { assert Lower(s)[..7][0] == LowerChar(s[0]); }
  }

  lemma MaskedAdmissible(rule: Rule, s: Segment, rest: string, rest': string)
    requires Admissible(rule, s, rest) && !s.kind.Bearer?
    requires (rest == "" <==> rest' == "") && (rest != "" ==> rest'[0] == rest[0])
    ensures Admissible(rule, s.(value := Stars(s.kind, s.value)), rest')
  {
    hide Lower, StartsBearer;
    var value := Stars(s.kind, s.value);
    var before, after := Opening(s.kind) + (s.value + rest), Opening(s.kind) + (value + rest');
    if s.kind.Quoted? {
      assert after[0] == before[0] == s.kind.quote;
      NotBearer(after);
    } else if s.value != "" {
      assert after[0] == '*';
      NotBearer(after);
    } else {
      assert after == rest' && before == rest;
      if rest' != "" && rule.Assignment? { NotBearer(after); }
    }
  }

  /** A masked `Bearer` value is read as a bare one. */
  function Retag(kind: Kind): Kind {
    if kind.Bearer? then Bare else kind
  }

  function Retagged(p: Parsed): (r: Parsed)
    ensures |r.segments| == |p.segments|
  {
    Parsed(seq(|p.segments|, i requires 0 <= i < |p.segments| =>
             Segment(p.segments[i].lead, Retag(p.segments[i].kind), Stars(p.segments[i].kind, p.segments[i].value))),
           p.tail)
  }

  lemma {:induction false} RetaggedAssembles(p: Parsed)
    ensures Assemble(Retagged(p)) == Assemble(Masked(p))
    decreases |p.segments|
  {
    hide Stars;
    if p.segments != [] {
      RetaggedAssembles(Rest(p));
      assert Rest(Retagged(p)) == Retagged(Rest(p)) && Rest(Masked(p)) == Masked(Rest(p));
    }
  }

  lemma RetaggedIsMasked(p: Parsed)
    ensures Masked(Retagged(p)) == Retagged(p)
  {
  }

  /** A comma ends a `Bearer` value but not a bare one. */
  predicate CommaNext(s: Segment, rest: string) {
    s.kind.Bearer? && rest != "" && rest[0] == ','
  }

  predicate CommaAfterBearer(p: Parsed)
    decreases |p.segments|
  {
    p.segments != [] && (CommaNext(p.segments[0], Assemble(Rest(p))) || CommaAfterBearer(Rest(p)))
  }

  lemma SameTag(s: Segment)
    requires !s.kind.Bearer?
    ensures s.(value := Stars(s.kind, s.value)) == Segment(s.lead, Retag(s.kind), Stars(s.kind, s.value))
  {
  }

  lemma BearerRetagged(rule: Rule, s: Segment, rest: string, rest': string)
    requires Admissible(rule, s, rest) && s.kind.Bearer? && !CommaNext(s, rest)
    requires (rest == "" <==> rest' == "") && (rest != "" ==> rest'[0] == rest[0])
    ensures Admissible(rule, Segment(s.lead, Retag(s.kind), Stars(s.kind, s.value)), rest')
  {
    hide Lower, StartsBearer, Find, Rule.Needle, OccursAt;
    assert Retag(s.kind) == Bare && Opening(Bare) == "" && Stars(s.kind, s.value) == "***";
    var after := Opening(Bare) + ("***" + rest');
    assert after[0] == '*';
    NotBearer(after);
    assert KindOf(rule, after) == Bare;
  }

  lemma RetaggedAdmissible(rule: Rule, s: Segment, rest: string, rest': string)
    requires Admissible(rule, s, rest) && !CommaNext(s, rest)
    requires (rest == "" <==> rest' == "") && (rest != "" ==> rest'[0] == rest[0])
    ensures Admissible(rule, Segment(s.lead, Retag(s.kind), Stars(s.kind, s.value)), rest')
  {
    hide *;
    if s.kind == Bearer {
      BearerRetagged(rule, s, rest, rest');
    } else {
      MaskedAdmissible(rule, s, rest, rest');
      SameTag(s);
    }
  }

  /** If no comma follows a `Bearer` value, the masked text has the masked segments. */
  lemma {:induction false} RetaggedWellFormed(rule: Rule, p: Parsed)
    requires rule.Needle() != "" && WellFormed(rule, p) && !CommaAfterBearer(p)
    ensures WellFormed(rule, Retagged(p))
    decreases |p.segments|
  {
    hide Admissible, Stars, CommaNext;
    if p.segments != [] {
      RetaggedWellFormed(rule, Rest(p));
      assert Rest(Retagged(p)) == Retagged(Rest(p));
      MaskedStart(rule, Rest(p));
      RetaggedAssembles(Rest(p));
      RetaggedAdmissible(rule, p.segments[0], Assemble(Rest(p)), Assemble(Retagged(Rest(p))));
    }
  }

  lemma StableWithoutComma(rule: Rule, text: string)
    requires rule.Needle() != "" && !CommaAfterBearer(Parse(rule, text))
    ensures Mask(rule, Mask(rule, text)) == Mask(rule, text)
  {
    var p := Parse(rule, text);
    ParseAssembles(rule, text);
    RetaggedWellFormed(rule, p);
    RetaggedAssembles(p);
    AssembleParses(rule, Retagged(p));
    RetaggedIsMasked(p);
  }

  lemma {:induction false} NoBearerNoComma(rule: Rule, p: Parsed)
    requires !rule.KnowsBearer() && WellFormed(rule, p)
    ensures !CommaAfterBearer(p)
    decreases |p.segments|
  {
    if p.segments != [] {
      NoBearerNoComma(rule, Rest(p));
    }
  }

  /** Masking is idempotent for every rule that does not treat `Bearer` values specially. */
  lemma MaskIsIdempotent(rule: Rule, text: string)
    requires rule.Needle() != "" && !rule.KnowsBearer()
    ensures Mask(rule, Mask(rule, text)) == Mask(rule, text)
  {
    ParseAssembles(rule, text);
    NoBearerNoComma(rule, Parse(rule, text));
    StableWithoutComma(rule, text);
  }

  // ---------- The rules that know Bearer ----------

  /** A needle without any character that can start what a masked text has after a needle. */
  ghost predicate PlainNeedle(needle: string) {
    needle != "" && forall i | 0 <= i < |needle| ::
      needle[i] != '*' && needle[i] != ',' && !Ends(BareEnd, needle[i]) && needle[i] == LowerChar(needle[i])
  }

  /** The value at the start of `after`. */
  function ValueAt(rule: Rule, after: string): string {
    var kind := KindOf(rule, after);
    OpeningIsThere(rule, after);
    var body := after[|Opening(kind)|..];
    body[..Extent(body, EndOf(rule, kind))]
  }

  predicate Starred(value: string) {
    value == "" || value == "***"
  }

  /** The stars of a masked `Bearer` value, with the comma that ended it, read as a bare value. */
  predicate Commaed(rule: Rule, kind: Kind, value: string) {
    rule.KnowsBearer() && kind == Bare && "***," <= value
  }

  /** The value at the start of `after` is empty or the stars, but for a comma the stars may have taken along. */
  predicate Covered(rule: Rule, after: string) {
    var kind, value := KindOf(rule, after), ValueAt(rule, after);
    !kind.Bearer? && (Starred(value) || Commaed(rule, kind, value))
  }

  /** Wherever the needle stands in the text, it has no value or a masked one behind it. */
  ghost predicate AllCovered(rule: Rule, text: string) {
    forall j: nat | OccursAt(Lower(text), rule.Needle(), j) :: Covered(rule, text[j + |rule.Needle()|..])
  }

  lemma OccursLater(text: string, needle: string, k: nat, j: nat)
    requires k <= |text| && OccursAt(Lower(text[k..]), needle, j)
    ensures OccursAt(Lower(text), needle, k + j) && k + j + |needle| <= |text|
  {
    assert Lower(text)[k + j..k + j + |needle|] == Lower(text[k..])[j..j + |needle|];
  }

  lemma CoveredSuffix(rule: Rule, text: string, k: nat)
    requires k <= |text| && AllCovered(rule, text)
    ensures AllCovered(rule, text[k..])
  {
    hide Covered, Lower;
    var n := |rule.Needle()|;
    forall j: nat | OccursAt(Lower(text[k..]), rule.Needle(), j) ensures Covered(rule, text[k..][j + n..]) {
      OccursLater(text, rule.Needle(), k, j);
      DropDrop(text, k, j + n);
    }
  }

  lemma CoveredLength(rule: Rule, after: string)
    requires Covered(rule, after)
    ensures |ValueAt(rule, after)| == 0 || 3 <= |ValueAt(rule, after)|
  {
    hide KindOf, ValueAt;
  }

  lemma CutCovered(rule: Rule, text: string, at: nat)
    requires at <= |text| && Covered(rule, text[at..])
    ensures var (s, rest) := Cut(rule, text, at);
            && |s.lead| + |Opening(s.kind)| + |Stars(s.kind, s.value)| + |rest| <= |text|
            && rest == text[|text| - |rest|..]
  {
    hide KindOf, EndOf, Extent, Opening, Cut, Free, Ends;
    CutParts(rule, text, at);
    DropDrop(text, at, |text| - |Cut(rule, text, at).1| - at);
    CoveredLength(rule, text[at..]);
  }

  /** Masking a text with no value left does not lengthen it. */
  lemma {:induction false} MaskShrinks(rule: Rule, text: string)
    requires rule.Needle() != "" && AllCovered(rule, text)
    ensures |Mask(rule, text)| <= |text|
    decreases |text|
  {
    hide Mask, Covered, Opening, Cut, Stars, Lower;
    var found := Find(Lower(text), rule.Needle());
    if found.None? {
      MaskNothing(rule, text);
    } else {
      var at := found.value + |rule.Needle()|;
      var rest := Cut(rule, text, at).1;
      MaskStep(rule, text, found.value);
      CutCovered(rule, text, at);
      CoveredSuffix(rule, text, |text| - |rest|);
      MaskShrinks(rule, rest);
    }
  }

  // ---------- A masked text has no value left ----------

  /** The needles in use: a plain one, or that of the scan for `Bearer`, whose first letter does not come again. */
  ghost predicate Fit(rule: Rule) {
    rule.BearerToken? || PlainNeedle(rule.Needle())
  }

  /** What stands between a needle and the rest of a masked text, and what follows. */
  ghost predicate Closes(rule: Rule, kind: Kind, stars: string, rest: string) {
    && (stars == "" || stars == "***") && (kind.Bearer? ==> stars == "***")
    && (rest == "" || Ends(EndOf(rule, kind), rest[0]))
    && (kind.Quoted? ==> StartsQuoted([kind.quote]))
  }

  lemma OccursWithin(text: string, needle: string, j: nat)
    requires OccursAt(Lower(text), needle, j)
    ensures j + |needle| <= |text|
  {
  }

  lemma LetterAt(text: string, needle: string, j: nat, i: nat)
    requires OccursAt(Lower(text), needle, j) && i < |needle|
    ensures j + i < |text| && LowerChar(text[j + i]) == needle[i]
  {
    assert Lower(text)[j..j + |needle|][i] == needle[i];
  }

  lemma NoBearerInside(rule: Rule, s: Segment, stars: string, rest: string, j: nat)
    requires rule.BearerToken? && s.kind == Bare && Closes(rule, s.kind, stars, rest)
    requires 7 <= |s.lead| && OccursAt(Lower(s.lead), "bearer ", |s.lead| - 7)
    requires OccursAt(Lower(s.lead + (Opening(s.kind) + (stars + rest))), "bearer ", j)
    ensures j <= |s.lead| - 7 || |s.lead| + |Opening(s.kind)| + |stars| <= j
  {
    hide Lower, OccursAt;
    var text := s.lead + (Opening(s.kind) + (stars + rest));
    if |s.lead| - 7 < j < |s.lead| + |stars| {
      LetterAt(text, "bearer ", j, 0);
      if j < |s.lead| {
        LetterAt(s.lead, "bearer ", |s.lead| - 7, j - (|s.lead| - 7));
      }
    }
  }

  lemma OccursInPrefix(a: string, b: string, needle: string, j: nat)
    requires j + |needle| <= |a| && OccursAt(Lower(a + b), needle, j)
    ensures OccursAt(Lower(a), needle, j)
  {
    assert forall i | 0 <= i < |a| :: Lower(a)[i] == Lower(a + b)[i];
    assert Lower(a)[j..j + |needle|] == Lower(a + b)[j..j + |needle|];
  }

  lemma OccurrenceIsPlain(text: string, needle: string, j: nat, i: nat)
    requires PlainNeedle(needle) && OccursAt(Lower(text), needle, j) && j <= i < j + |needle|
    ensures i < |text| && text[i] != '*' && text[i] != ',' && !Ends(BareEnd, text[i])
  {
    assert Lower(text)[j..j + |needle|][i - j] == needle[i - j];
  }

  lemma MaskedValueIsNotPlain(rule: Rule, lead: string, kind: Kind, stars: string, rest: string, i: nat)
    requires Closes(rule, kind, stars, rest)
    requires |lead| <= i < |lead + (Opening(kind) + (stars + rest))|
    requires i == |lead| || i < |lead| + |Opening(kind)| + |stars|
    ensures var c := (lead + (Opening(kind) + (stars + rest)))[i]; c == '*' || c == ',' || Ends(BareEnd, c)
  {
    var after := Opening(kind) + (stars + rest);
    assert (lead + after)[i] == after[i - |lead|];
  }

  /** No needle starts before the end of the masked value, other than the one in front of it. */
  lemma NoNeedleInside(rule: Rule, s: Segment, stars: string, rest: string, j: nat)
    requires Fit(rule) && Closes(rule, s.kind, stars, rest) && (rule.BearerToken? ==> s.kind == Bare)
    requires |rule.Needle()| <= |s.lead| && Find(Lower(s.lead), rule.Needle()) == Some(|s.lead| - |rule.Needle()|)
    requires OccursAt(Lower(s.lead + (Opening(s.kind) + (stars + rest))), rule.Needle(), j)
    ensures j == |s.lead| - |rule.Needle()| || |s.lead| + |Opening(s.kind)| + |stars| <= j
  {
    hide Find, Lower, Closes, Opening, OccursAt;
    var n := |rule.Needle()|;
    var after := Opening(s.kind) + (stars + rest);
    OccursWithin(s.lead + after, rule.Needle(), j);
    if j < |s.lead| - n {
      OccursInPrefix(s.lead, after, rule.Needle(), j);
    } else if |s.lead| - n < j < |s.lead| + |Opening(s.kind)| + |stars| {
      if rule.BearerToken? {
        NoBearerInside(rule, s, stars, rest, j);
      } else {
        var i := if j < |s.lead| then |s.lead| else j;
        OccurrenceIsPlain(s.lead + after, rule.Needle(), j, i);
        MaskedValueIsNotPlain(rule, s.lead, s.kind, stars, rest, i);
      }
    }
  }

  lemma QuoteNotStar(quote: char, stars: string)
    requires StartsQuoted([quote]) && (stars == "" || stars == "***")
    ensures Free(stars, QuoteEnd(quote))
  {
  }

  lemma StarsAreFree(e: Ending)
    requires e == BareEnd || e == TokenEnd
    ensures Free("***", e)
  {
  }

  lemma StarsExtent(rest: string, e: Ending)
    requires e == BareEnd || e == TokenEnd
    ensures var t := "***" + rest;
            var n := Extent(t, e);
            && 3 <= n && (rest == "" || Ends(e, rest[0]) ==> t[..n] == "***")
            && (e == BareEnd && rest != "" && rest[0] == ',' ==> 4 <= n && "***," <= t[..n])
  {
    hide Free;
    var t := "***" + rest;
    var n := Extent(t, e);
    StarsAreFree(e);
    assert n < |t| ==> Ends(e, t[n]);
    assert t[0] == '*' && t[1] == '*' && t[2] == '*' && (rest != "" ==> t[3] == rest[0]);
    if rest == "" || Ends(e, rest[0]) { FreeExtent("***", rest, e); }
  }

  lemma EmptyExtent(rest: string, e: Ending)
    requires rest == "" || Ends(e, rest[0])
    ensures Extent(rest, e) == 0
  {
  }

  /** Right after a needle, a masked text has a masked value, bare if it was a `Bearer` one. */
  lemma MaskedValueIs(rule: Rule, kind: Kind, stars: string, rest: string)
    requires Closes(rule, kind, stars, rest) && (rule.BearerToken? ==> kind == Bare)
    requires kind.Bearer? ==> rule.KnowsBearer()
    requires kind == Bare && stars == "" ==> KindOf(rule, rest) == Bare
    ensures var after := Opening(kind) + (stars + rest);
            && KindOf(rule, after) == Retag(kind)
            && (if kind.Bearer? && rest != "" && rest[0] == ',' then "***," <= ValueAt(rule, after)
                else ValueAt(rule, after) == stars)
  {
    hide StartsBearer, Free, Extent;
    var after := Opening(kind) + (stars + rest);
    if kind.Quoted? {
      assert after[0] == kind.quote;
      NotBearer(after);
      TakeOfConcat(Opening(kind), stars + rest);
      QuoteNotStar(kind.quote, stars);
      FreeExtent(stars, rest, QuoteEnd(kind.quote));
      TakeOfConcat(stars, rest);
    } else {
      assert after == stars + rest && after[0..] == after;
      if stars == "***" {
        assert after[0] == '*';
        NotBearer(after);
        StarsExtent(rest, EndOf(rule, Bare));
      } else {
        assert after == rest;
        EmptyExtent(rest, EndOf(rule, Bare));
      }
    }
  }

  lemma CoveredWhenMasked(rule: Rule, kind: Kind, stars: string, rest: string)
    requires Closes(rule, kind, stars, rest) && (rule.BearerToken? ==> kind == Bare)
    requires kind.Bearer? ==> rule.KnowsBearer()
    requires kind == Bare && stars == "" ==> KindOf(rule, rest) == Bare
    ensures Covered(rule, Opening(kind) + (stars + rest))
  {
    hide KindOf, ValueAt, Opening;
    MaskedValueIs(rule, kind, stars, rest);
  }

  lemma MaskedCloses(rule: Rule, s: Segment, rest: string, rest': string)
    requires Admissible(rule, s, rest)
    requires (rest == "" <==> rest' == "") && (rest != "" ==> rest'[0] == rest[0])
    ensures rule.BearerToken? ==> s.kind == Bare
    ensures s.kind.Bearer? ==> rule.KnowsBearer()
    ensures Closes(rule, s.kind, Stars(s.kind, s.value), rest')
    ensures s.kind == Bare && s.value == "" ==> KindOf(rule, rest') == Bare
  {
    hide StartsBearer, Lower, Find;
    if s.kind.Quoted? {
      assert s.kind == KindOf(rule, Opening(s.kind) + (s.value + rest));
    } else if s.kind == Bare && s.value == "" {
      assert Opening(s.kind) + (s.value + rest) == rest;
      if rest' != "" { NotBearer(rest'); }
    }
  }

  lemma OccursInSuffix(a: string, b: string, needle: string, j: nat)
    requires |a| <= j && OccursAt(Lower(a + b), needle, j)
    ensures OccursAt(Lower(b), needle, j - |a|)
  {
    assert Lower(a + b)[|a|..] == Lower(b);
    assert Lower(b)[j - |a|..j - |a| + |needle|] == Lower(a + b)[j..j + |needle|];
  }

  lemma CoveredAt(rule: Rule, s: Segment, rest: string, rest': string, j: nat)
    requires Fit(rule) && Admissible(rule, s, rest) && AllCovered(rule, rest') && (rule.BearerToken? ==> s.kind == Bare)
    requires s.kind.Bearer? ==> rule.KnowsBearer()
    requires var stars := Stars(s.kind, s.value);
             && Closes(rule, s.kind, stars, rest') && (s.kind == Bare && s.value == "" ==> KindOf(rule, rest') == Bare)
             && OccursAt(Lower(s.lead + (Opening(s.kind) + (stars + rest'))), rule.Needle(), j)
    ensures var text := s.lead + (Opening(s.kind) + (Stars(s.kind, s.value) + rest'));
            j + |rule.Needle()| <= |text| && Covered(rule, text[j + |rule.Needle()|..])
  {
    hide Covered, Opening, Closes, Fit, Lower, Find, KindOf, Rule.Needle;
    var stars, n := Stars(s.kind, s.value), |rule.Needle()|;
    var after := Opening(s.kind) + (stars + rest');
    NoNeedleInside(rule, s, stars, rest', j);
    if j == |s.lead| - n {
      TakeOfConcat(s.lead, after);
      CoveredWhenMasked(rule, s.kind, stars, rest');
    } else {
      var before := s.lead + Opening(s.kind) + stars;
      assert s.lead + after == before + rest';
      OccursInSuffix(before, rest', rule.Needle(), j);
      assert (before + rest')[j + n..] == rest'[j - |before| + n..];
    }
  }

  /** A masked segment in front of a text whose needles are covered. */
  lemma ConsCovered(rule: Rule, s: Segment, rest: string, rest': string)
    requires Fit(rule) && Admissible(rule, s, rest) && AllCovered(rule, rest')
    requires (rest == "" <==> rest' == "") && (rest != "" ==> rest'[0] == rest[0])
    ensures AllCovered(rule, s.lead + (Opening(s.kind) + (Stars(s.kind, s.value) + rest')))
  {
    hide Covered, Stars, Opening, Closes, Lower, Find, Admissible, KindOf, OccursAt, Fit, Rule.Needle;
    MaskedCloses(rule, s, rest, rest');
    var text := s.lead + (Opening(s.kind) + (Stars(s.kind, s.value) + rest'));
    forall j: nat | OccursAt(Lower(text), rule.Needle(), j)
      ensures j + |rule.Needle()| <= |text| && Covered(rule, text[j + |rule.Needle()|..])
    {
      CoveredAt(rule, s, rest, rest', j);
    }
  }

  lemma NoneCovered(rule: Rule, text: string)
    requires Find(Lower(text), rule.Needle()).None?
    ensures AllCovered(rule, text)
  {
    hide Covered, Lower, Rule.Needle;
  }

  /** Every needle in a masked text has its masked value behind it. */
  lemma {:induction false} MaskedIsCovered(rule: Rule, p: Parsed)
    requires Fit(rule) && rule.Needle() != "" && WellFormed(rule, p)
    ensures AllCovered(rule, Assemble(Masked(p)))
    decreases |p.segments|
  {
    hide AllCovered, Stars, Opening, Lower, Find, Admissible, Fit, Rule.Needle;
    if p.segments == [] {
      NoneCovered(rule, p.tail);
      return;
    }
    var s := p.segments[0];
    MaskedIsCovered(rule, Rest(p));
    MaskedCons(s, Rest(p));
    assert [s] + Rest(p).segments == p.segments;
    MaskedStart(rule, Rest(p));
    ConsCovered(rule, s, Assemble(Rest(p)), Assemble(Masked(Rest(p))));
  }

  /** After masking, no occurrence of the needle, wherever it is in the text, has a value behind it that is not stars:
      not one that was skipped over, nor one that masking brought about. */
  lemma MaskLeavesNoValue(rule: Rule, text: string)
    requires Fit(rule) && rule.Needle() != ""
    ensures AllCovered(rule, Mask(rule, text))
  {
    ParseAssembles(rule, text);
    MaskedIsCovered(rule, Parse(rule, text));
  }

  // ---------- When every value is exactly stars ----------

  ghost predicate StarsAt(rule: Rule, text: string, j: nat) {
    OccursAt(Lower(text), rule.Needle(), j) ==>
      var after := text[j + |rule.Needle()|..]; !KindOf(rule, after).Bearer? && Starred(ValueAt(rule, after))
  }

  /** Wherever the needle stands in the text, it has no value or the stars behind it. */
  ghost predicate AllStars(rule: Rule, text: string) {
    forall j: nat :: StarsAt(rule, text, j)
  }

  ghost predicate CommaAt(rule: Rule, text: string, j: nat) {
    && OccursAt(Lower(text), rule.Needle(), j)
    && var after := text[j + |rule.Needle()|..]; Commaed(rule, KindOf(rule, after), ValueAt(rule, after))
  }

  /** Somewhere in the text, the stars behind the needle have taken a comma along. */
  ghost predicate CommaLeft(rule: Rule, text: string) {
    exists j: nat :: CommaAt(rule, text, j)
  }

  lemma StarsWithoutComma(rule: Rule, text: string)
    requires AllCovered(rule, text)
    ensures AllStars(rule, text) <==> !CommaLeft(rule, text)
  {
    hide KindOf, ValueAt;
    if AllStars(rule, text) {
      forall j: nat ensures !CommaAt(rule, text, j) { assert StarsAt(rule, text, j); }
    } else {
      var j: nat :| !StarsAt(rule, text, j);
      assert Covered(rule, text[j + |rule.Needle()|..]);
      assert CommaAt(rule, text, j);
    }
  }

  lemma CommaShifted(rule: Rule, a: string, b: string, j: nat)
    requires CommaAt(rule, b, j)
    ensures CommaAt(rule, a + b, |a| + j)
  {
    hide KindOf, ValueAt, Lower;
    var n := |rule.Needle()|;
    TakeOfConcat(a, b);
    OccursLater(a + b, rule.Needle(), |a|, j);
    DropDrop(a + b, |a|, j + n);
  }

  lemma CommaHere(rule: Rule, s: Segment, rest: string, rest': string)
    requires Admissible(rule, s, rest) && CommaNext(s, rest) && rest' != "" && rest'[0] == rest[0]
    requires Closes(rule, s.kind, Stars(s.kind, s.value), rest') && rule.KnowsBearer()
    ensures |rule.Needle()| <= |s.lead|
         && CommaAt(rule, s.lead + (Opening(s.kind) + (Stars(s.kind, s.value) + rest')), |s.lead| - |rule.Needle()|)
  {
    hide KindOf, ValueAt, Lower, Find, Closes;
    var after := Opening(s.kind) + (Stars(s.kind, s.value) + rest');
    FindInPrefix(s.lead, after, rule.Needle());
    TakeOfConcat(s.lead, after);
    MaskedValueIs(rule, s.kind, Stars(s.kind, s.value), rest');
  }

  lemma CommaUnshifted(rule: Rule, a: string, b: string, j: nat)
    requires |a| <= j && CommaAt(rule, a + b, j)
    ensures CommaAt(rule, b, j - |a|)
  {
    hide KindOf, ValueAt, Lower;
    var n := |rule.Needle()|;
    OccursInSuffix(a, b, rule.Needle(), j);
    OccursWithin(b, rule.Needle(), j - |a|);
    assert (a + b)[j + n..] == b[j - |a| + n..];
  }

  lemma NoCommaHere(rule: Rule, s: Segment, rest: string, rest': string)
    requires Admissible(rule, s, rest) && !CommaNext(s, rest) && |rule.Needle()| <= |s.lead|
    requires (rest == "" <==> rest' == "") && (rest != "" ==> rest'[0] == rest[0])
    ensures !CommaAt(rule, s.lead + (Opening(s.kind) + (Stars(s.kind, s.value) + rest')), |s.lead| - |rule.Needle()|)
  {
    hide KindOf, ValueAt, Lower, Find, Closes, Opening, OccursAt, Rule.Needle, Admissible;
    MaskedCloses(rule, s, rest, rest');
    TakeOfConcat(s.lead, Opening(s.kind) + (Stars(s.kind, s.value) + rest'));
    MaskedValueIs(rule, s.kind, Stars(s.kind, s.value), rest');
  }

  /** A comma that is not behind the segment itself is behind something later. */
  lemma CommaElsewhere(rule: Rule, s: Segment, rest: string, rest': string, j: nat)
    requires Fit(rule) && Admissible(rule, s, rest) && !CommaNext(s, rest)
    requires (rest == "" <==> rest' == "") && (rest != "" ==> rest'[0] == rest[0])
    requires CommaAt(rule, s.lead + (Opening(s.kind) + (Stars(s.kind, s.value) + rest')), j)
    ensures var start := |s.lead| + |Opening(s.kind)| + |Stars(s.kind, s.value)|;
            start <= j && CommaAt(rule, rest', j - start)
  {
    hide KindOf, ValueAt, Lower, Find, Closes, Opening, Fit, Stars, OccursAt, Commaed, CommaNext, Rule.Needle;
    MaskedCloses(rule, s, rest, rest');
    var stars := Stars(s.kind, s.value);
    var before := s.lead + Opening(s.kind) + stars;
    NoNeedleInside(rule, s, stars, rest', j);
    if j == |s.lead| - |rule.Needle()| {
      NoCommaHere(rule, s, rest, rest');
    } else {
      assert s.lead + (Opening(s.kind) + (stars + rest')) == before + rest';
      CommaUnshifted(rule, before, rest', j);
    }
  }

  lemma CommaInSegment(rule: Rule, s: Segment, rest: string, rest': string)
    requires Fit(rule) && Admissible(rule, s, rest)
    requires (rest == "" <==> rest' == "") && (rest != "" ==> rest'[0] == rest[0])
    ensures CommaLeft(rule, s.lead + (Opening(s.kind) + (Stars(s.kind, s.value) + rest')))
       <==> CommaNext(s, rest) || CommaLeft(rule, rest')
  {
    hide Covered, Opening, Closes, Fit, Lower, Find, KindOf, ValueAt, Rule.Needle, Commaed, Admissible;
    MaskedCloses(rule, s, rest, rest');
    var stars, n := Stars(s.kind, s.value), |rule.Needle()|;
    var after, before := Opening(s.kind) + (stars + rest'), s.lead + Opening(s.kind) + stars;
    var text := s.lead + after;
    assert text == before + rest';
    if CommaLeft(rule, text) && !CommaNext(s, rest) {
      var j: nat :| CommaAt(rule, text, j);
      CommaElsewhere(rule, s, rest, rest', j);
      assert CommaAt(rule, rest', j - |before|);
    }
    if CommaNext(s, rest) {
      CommaHere(rule, s, rest, rest');
      assert CommaAt(rule, text, |s.lead| - n);
    } else if CommaLeft(rule, rest') {
      var j: nat :| CommaAt(rule, rest', j);
      CommaShifted(rule, before, rest', j);
    }
  }

  lemma NoCommaInTail(rule: Rule, tail: string)
    requires Find(Lower(tail), rule.Needle()).None?
    ensures !CommaLeft(rule, tail)
  {
    hide KindOf, ValueAt, Lower;
  }

  /** Masking leaves the stars with a comma exactly where a comma follows a `Bearer` value. */
  lemma {:induction false} CommaComesOf(rule: Rule, p: Parsed)
    requires Fit(rule) && rule.Needle() != "" && WellFormed(rule, p)
    ensures CommaLeft(rule, Assemble(Masked(p))) <==> CommaAfterBearer(p)
    decreases |p.segments|
  {
    hide CommaAt, CommaNext, Stars, Opening, Admissible, Fit, Lower;
    if p.segments == [] {
      NoCommaInTail(rule, p.tail);
    } else {
      var s, rest := p.segments[0], Assemble(Masked(Rest(p)));
      CommaComesOf(rule, Rest(p));
      MaskedCons(s, Rest(p));
      assert [s] + Rest(p).segments == p.segments;
      MaskedStart(rule, Rest(p));
      CommaInSegment(rule, s, Assemble(Rest(p)), rest);
    }
  }

  /** One pass leaves exactly stars, or nothing, behind every needle, unless a comma follows a `Bearer` value: exactly
      then some needle has the stars with that comma behind it. */
  lemma MaskLeavesStars(rule: Rule, text: string)
    requires Fit(rule) && rule.Needle() != ""
    ensures AllStars(rule, Mask(rule, text)) <==> !CommaAfterBearer(Parse(rule, text))
  {
    ParseAssembles(rule, text);
    MaskLeavesNoValue(rule, text);
    StarsWithoutComma(rule, Mask(rule, text));
    CommaComesOf(rule, Parse(rule, text));
  }

  lemma LettersArePlain(needle: string)
    requires needle != "" && forall i | 0 <= i < |needle| ::
              'a' <= needle[i] <= 'z' || needle[i] == '_' || needle[i] == '='
    ensures PlainNeedle(needle)
  {
  }

  // ---------- The comma after a masked Bearer value ----------

  lemma StarredIsBare(rule: Rule, rest: string)
    requires rule.Assignment?
    ensures KindOf(rule, "***" + rest) == Bare && EndOf(rule, Bare) == BareEnd && Opening(Bare) == ""
    ensures forall value | value != "" :: Stars(Bare, value) == "***"
  {
    hide StartsBearer;
    var after := "***" + rest;
    assert after[0] == '*';
    NotBearer(after);
  }

  lemma CommaCut(rule: Rule, lead: string, rest: string)
    requires rule.KnowsBearer() && rest != "" && rest[0] == ','
    ensures var text := lead + ("***" + rest);
            var (s, after) := Cut(rule, text, |lead|);
            && |s.lead| + |Opening(s.kind) + (Stars(s.kind, s.value))| + |after| < |text|
            && after == text[|text| - |after|..]
  {
    hide KindOf, EndOf, Opening, Stars, Extent, Cut, Ends, Free;
    var after := "***" + rest;
    var text, at := lead + after, |lead|;
    StarredIsBare(rule, rest);
    CutParts(rule, text, at);
    TakeOfConcat(lead, after);
    assert after[0..] == after;
    StarsExtent(rest, BareEnd);
    DropDrop(text, at, Extent(after, BareEnd));
  }

  /** With a comma after its masked value, masking again takes the comma for part of the value. */
  lemma CommaIsSwallowed(rule: Rule, s: Segment, rest: string)
    requires rule.KnowsBearer() && rule.Needle() != ""
    requires |rule.Needle()| <= |s.lead| && Find(Lower(s.lead), rule.Needle()) == Some(|s.lead| - |rule.Needle()|)
    requires rest != "" && rest[0] == ',' && AllCovered(rule, s.lead + ("***" + rest))
    ensures |Mask(rule, s.lead + ("***" + rest))| < |s.lead + ("***" + rest)|
  {
    hide *;
    var text, at := s.lead + ("***" + rest), |s.lead|;
    FindInPrefix(s.lead, "***" + rest, rule.Needle());
    MaskStep(rule, text, at - |rule.Needle()|);
    CommaCut(rule, s.lead, rest);
    var cut := Cut(rule, text, at);
    CoveredSuffix(rule, text, |text| - |cut.1|);
    MaskShrinks(rule, cut.1);
  }

  /** Masking a masked segment leaves its opening and its stars as they are. */
  lemma SameStars(s: Segment)
    ensures Opening(Retag(s.kind)) == Opening(s.kind)
    ensures Stars(Retag(s.kind), Stars(s.kind, s.value)) == Stars(s.kind, s.value)
  {
  }

  /** Masking a masked segment again changes what follows it, if anything. */
  lemma RemaskStep(rule: Rule, s: Segment, rest: string, rest': string)
    requires rule.Needle() != "" && Admissible(rule, s, rest) && !CommaNext(s, rest)
    requires (rest == "" <==> rest' == "") && (rest != "" ==> rest'[0] == rest[0])
    ensures var stars := Stars(s.kind, s.value);
            Mask(rule, s.lead + (Opening(s.kind) + (stars + rest')))
                == s.lead + (Opening(s.kind) + (stars + Mask(rule, rest')))
  {
    hide Mask, Admissible, CommaNext, Find, Lower, Cut, KindOf, Closes, OccursAt, Rule.Needle;
    var s' := Segment(s.lead, Retag(s.kind), Stars(s.kind, s.value));
    SameStars(s);
    RetaggedAdmissible(rule, s, rest, rest');
    CutInverts(rule, s', rest');
    hide *;
    var text := s.lead + (Opening(s'.kind) + (s'.value + rest'));
    var i := Find(Lower(text), rule.Needle()).value;
    assert i + |rule.Needle()| == |s.lead|;
    MaskStep(rule, text, i);
  }

  lemma BearerMasked(rule: Rule, s: Segment, rest: string, rest': string)
    requires Admissible(rule, s, rest) && CommaNext(s, rest)
    ensures |rule.Needle()| <= |s.lead| && Find(Lower(s.lead), rule.Needle()) == Some(|s.lead| - |rule.Needle()|)
    ensures rest != "" && rest[0] == ','
    ensures s.lead + (Opening(s.kind) + (Stars(s.kind, s.value) + rest')) == s.lead + ("***" + rest')
  {
    hide Lower, Find;
    assert Opening(s.kind) + ("***" + rest') == "***" + rest';
  }

  lemma {:induction false} CommaIsLost(rule: Rule, p: Parsed)
    requires rule.KnowsBearer() && rule.Needle() != "" && PlainNeedle(rule.Needle()) && WellFormed(rule, p)
         && CommaAfterBearer(p)
    ensures |Mask(rule, Assemble(Masked(p)))| < |Assemble(Masked(p))|
    decreases |p.segments|
  {
    hide Mask, Admissible, PlainNeedle, AllCovered, Stars, Opening, CommaNext, Find, Lower;
    var s, rest := p.segments[0], Assemble(Masked(Rest(p)));
    MaskedIsCovered(rule, p);
    MaskedCons(s, Rest(p));
    assert [s] + Rest(p).segments == p.segments;
    MaskedStart(rule, Rest(p));
    if CommaNext(s, Assemble(Rest(p))) {
      BearerMasked(rule, s, Assemble(Rest(p)), rest);
      CommaIsSwallowed(rule, s, rest);
    } else {
      CommaIsLost(rule, Rest(p));
      RemaskStep(rule, s, Assemble(Rest(p)), rest);
    }
  }

  /** The `Authorization=` and `auth=` rules are idempotent on exactly the texts in which no comma follows a `Bearer`
      value: such a comma is kept by the first pass and taken for part of a bare value by the second. */
  lemma BearerMaskIsIdempotentWithoutComma(rule: Rule, text: string)
    requires rule.KnowsBearer()
    ensures Mask(rule, Mask(rule, text)) == Mask(rule, text) <==> !CommaAfterBearer(Parse(rule, text))
  {
    LettersArePlain(rule.Needle());
    if CommaAfterBearer(Parse(rule, text)) {
      ParseAssembles(rule, text);
      CommaIsLost(rule, Parse(rule, text));
    } else {
      StableWithoutComma(rule, text);
    }
  }
}
