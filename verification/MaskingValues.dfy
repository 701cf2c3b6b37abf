/** Where values begin and end, with the characters written out, and what becomes of them. */
module MaskingValues {
  import opened Common
  import opened Text
  import opened Masking
  import opened MaskingPipeline
  import opened MaskingInput

  // ---------- The characters ----------

  /** The 25 white space characters of Unicode. */
  const WHITE: set<char> := {
    '\t', '\n', '\U{000B}', '\U{000C}', '\r', ' ', '\U{0085}', '\U{00A0}', '\U{1680}',
    '\U{2000}', '\U{2001}', '\U{2002}', '\U{2003}', '\U{2004}', '\U{2005}', '\U{2006}', '\U{2007}', '\U{2008}',
    '\U{2009}', '\U{200A}', '\U{2028}', '\U{2029}', '\U{202F}', '\U{205F}', '\U{3000}'}

  const QUOTES: set<char> := {'\'', '"'}

  const BARE_ENDS: set<char> := {'&'} + QUOTES + WHITE
  const BEARER_ENDS: set<char> := {'&', ',', '\r', '\n'} + QUOTES
  const TOKEN_ENDS: set<char> := {'&', ','} + QUOTES + WHITE

  /** Free of the characters, up to the end of the text or one of them. */
  predicate Upto(v: string, rest: string, ends: set<char>) {
    (forall c | c in v :: c !in ends) && (rest == "" || rest[0] in ends)
  }

  /** The needle, typed in any mixture of capitals and small letters. */
  predicate Typed(t: string, needle: string) {
    |t| == |needle| && forall i | 0 <= i < |t| ::
      t[i] == needle[i] || ('a' <= needle[i] <= 'z' && t[i] as int + 32 == needle[i] as int)
  }

  predicate TypedAt(text: string, needle: string, j: nat) {
    j + |needle| <= |text| && Typed(text[j..j + |needle|], needle)
  }

  /** The needle stands at the end of the text, and nowhere before. */
  predicate EndsInNeedle(text: string, needle: string) {
    |needle| <= |text| && forall j: nat | j + |needle| <= |text| ::
      TypedAt(text, needle, j) <==> j + |needle| == |text|
  }

  /** Small letters, digits and signs. */
  predicate Small(needle: string) {
    needle != "" && forall i | 0 <= i < |needle| :: !('A' <= needle[i] <= 'Z')
  }

  lemma WhiteSpace(c: char)
    ensures IsWhitespace(c) <==> c in WHITE
  {
    if '\t' <= c <= '\r' {
      var n := c as int;
      assert n == 9 || n == 10 || n == 11 || n == 12 || n == 13;
    } else if '\U{2000}' <= c <= '\U{200A}' {
      var n := c as int - 0x2000;
      assert n == 0 || n == 1 || n == 2 || n == 3 || n == 4 || n == 5
          || n == 6 || n == 7 || n == 8 || n == 9 || n == 10;
    }
  }

  /** Where each kind of value ends. */
  lemma EndingsWritten(c: char)
    ensures Ends(BareEnd, c) <==> c in BARE_ENDS
    ensures Ends(BearerEnd, c) <==> c in BEARER_ENDS
    ensures Ends(TokenEnd, c) <==> c in TOKEN_ENDS
  {
    hide IsWhitespace, WHITE;
    WhiteSpace(c);
  }

  lemma TypedIsLower(t: string, needle: string)
    requires Small(needle)
    ensures Typed(t, needle) <==> Lower(t) == needle
  {
    if Typed(t, needle) {
      forall i | 0 <= i < |t| ensures Lower(t)[i] == needle[i] {}
    }
  }

  lemma LowerSlice(text: string, i: nat, j: nat)
    requires i <= j <= |text|
    ensures Lower(text)[i..j] == Lower(text[i..j])
  {
  }

  lemma NeedleFound(text: string, needle: string)
    requires Small(needle) && EndsInNeedle(text, needle)
    ensures Find(Lower(text), needle) == Some(|text| - |needle|)
  {
    hide Typed, Lower, Small;
    var n := |needle|;
    forall j: nat ensures OccursAt(Lower(text), needle, j) <==> j == |text| - n {
      if j + n <= |text| {
        LowerSlice(text, j, j + n);
        TypedIsLower(text[j..j + n], needle);
        assert TypedAt(text, needle, j) <==> j + n == |text|;
      }
    }
    FindAt(Lower(text), needle, |text| - n);
  }

  // ---------- One value ----------

  lemma SegmentMasked(rule: Rule, s: Segment, rest: string)
    requires rule.Needle() != "" && Admissible(rule, s, rest)
    ensures Mask(rule, s.lead + (Opening(s.kind) + (s.value + rest)))
         == s.lead + (Opening(s.kind) + (Stars(s.kind, s.value) + Mask(rule, rest)))
  {
    CutInverts(rule, s, rest);
    hide *;
    var text := s.lead + (Opening(s.kind) + (s.value + rest));
    var i := Find(Lower(text), rule.Needle()).value;
    assert i + |rule.Needle()| == |s.lead|;
    MaskStep(rule, text, i);
  }

  lemma FreeBare(v: string, rest: string)
    requires Upto(v, rest, BARE_ENDS)
    ensures Free(v, BareEnd) && (rest == "" || Ends(BareEnd, rest[0]))
  {
    hide Ends, BARE_ENDS, BEARER_ENDS, TOKEN_ENDS;
    forall i | 0 <= i < |v| ensures !Ends(BareEnd, v[i]) { EndingsWritten(v[i]); }
    if rest != "" { EndingsWritten(rest[0]); }
  }

  lemma FreeBearer(v: string, rest: string)
    requires Upto(v, rest, BEARER_ENDS)
    ensures Free(v, BearerEnd) && (rest == "" || Ends(BearerEnd, rest[0]))
  {
    hide Ends, BARE_ENDS, BEARER_ENDS, TOKEN_ENDS;
    forall i | 0 <= i < |v| ensures !Ends(BearerEnd, v[i]) { EndingsWritten(v[i]); }
    if rest != "" { EndingsWritten(rest[0]); }
  }

  lemma FreeToken(v: string, rest: string)
    requires Upto(v, rest, TOKEN_ENDS)
    ensures Free(v, TokenEnd) && (rest == "" || Ends(TokenEnd, rest[0]))
  {
    hide Ends, BARE_ENDS, BEARER_ENDS, TOKEN_ENDS;
    forall i | 0 <= i < |v| ensures !Ends(TokenEnd, v[i]) { EndingsWritten(v[i]); }
    if rest != "" { EndingsWritten(rest[0]); }
  }

  /** The text starts with the word Bearer and a blank. */
  predicate StartsWithBearer(s: string) {
    |s| >= 7 && Typed(s[..7], "bearer ")
  }

  lemma BearerStart(s: string)
    ensures StartsBearer(s) <==> StartsWithBearer(s)
  {
    hide Lower, Typed;
    assert Small("bearer ") && |"bearer "| == 7;
    if |s| >= 7 {
      LowerSlice(s, 0, 7);
      assert Lower(s)[..7] == Lower(s)[0..7] && s[..7] == s[0..7];
      TypedIsLower(s[..7], "bearer ");
    }
  }

  lemma NotQuoteFirst(v: string, rest: string)
    requires v != "" && Upto(v, rest, BARE_ENDS)
    ensures v + rest != "" && (v + rest)[0] !in QUOTES
  {
    assert v[0] in v && (v + rest)[0] == v[0];
  }

  lemma NotQuoted(s: string)
    requires s != "" && s[0] !in QUOTES
    ensures !StartsQuoted(s)
  {
  }

  lemma ReadBare(name: string, after: string)
    requires after != "" && after[0] !in QUOTES
    requires name == "authorization=" || name == "auth=" ==> !StartsWithBearer(after)
    ensures KindOf(Assignment(name), after) == Bare
  {
    hide StartsBearer, StartsQuoted, StartsWithBearer;
    NotQuoted(after);
    BearerStart(after);
  }

  lemma EmptyInFront(s: string)
    ensures "" + s == s
  {
  }

  lemma BareSegment(name: string, before: string, v: string, rest: string)
    requires Small(name) && EndsInNeedle(before, name)
    requires v != "" && Upto(v, rest, BARE_ENDS)
    requires name == "authorization=" || name == "auth=" ==> !StartsWithBearer(v + rest)
    ensures Admissible(Assignment(name), Segment(before, Bare, v), rest)
    ensures Opening(Bare) == "" && Stars(Bare, v) == "***"
  {
    assert EndOf(Assignment(name), Bare) == BareEnd && Opening(Bare) == "";
    assert Assignment(name).Needle() == name;
    hide EndsInNeedle, Find, Lower, KindOf, Free, Ends, BARE_ENDS, Small, Upto, QUOTES, StartsWithBearer, Rule.Needle;
    FreeBare(v, rest);
    NeedleFound(before, name);
    NotQuoteFirst(v, rest);
    ReadBare(name, v + rest);
    EmptyInFront(v + rest);
  }

  lemma SmallIsThere(name: string)
    requires Small(name)
    ensures name != ""
  {
  }

  /** A bare value ends at an ampersand, a quote, white space or the end of the text, and nowhere else. */
  lemma BareValueMasked(name: string, before: string, v: string, rest: string)
    requires Small(name) && EndsInNeedle(before, name)
    requires v != "" && Upto(v, rest, BARE_ENDS)
    requires name == "authorization=" || name == "auth=" ==> !StartsWithBearer(v + rest)
    ensures Mask(Assignment(name), before + (v + rest)) == before + ("***" + Mask(Assignment(name), rest))
  {
    BareSegment(name, before, v, rest);
    SmallIsThere(name);
    hide Admissible, Mask, Opening, Stars, Small, EndsInNeedle, Upto, StartsWithBearer;
    SegmentMasked(Assignment(name), Segment(before, Bare, v), rest);
    EmptyInFront(v + rest);
    EmptyInFront("***" + Mask(Assignment(name), rest));
  }

  lemma ReadBearer(name: string, v: string, rest: string)
    requires (name == "authorization=" || name == "auth=") && StartsWithBearer(v)
    ensures KindOf(Assignment(name), v + rest) == Bearer
  {
    hide StartsBearer, StartsQuoted, Typed;
    assert (v + rest)[..7] == v[..7];
    BearerStart(v + rest);
  }

  lemma SmallNames(name: string)
    requires name == "authorization=" || name == "auth="
    ensures Small(name)
  {
  }

  lemma BearerSegmentOf(name: string, before: string, v: string, rest: string)
    requires (name == "authorization=" || name == "auth=") && EndsInNeedle(before, name)
    requires StartsWithBearer(v) && Upto(v, rest, BEARER_ENDS)
    ensures Admissible(Assignment(name), Segment(before, Bearer, v), rest)
    ensures Opening(Bearer) == "" && Stars(Bearer, v) == "***"
  {
    assert EndOf(Assignment(name), Bearer) == BearerEnd && Opening(Bearer) == "";
    assert Assignment(name).Needle() == name;
    hide EndsInNeedle, Find, Lower, KindOf, Free, Ends, BEARER_ENDS, Small, Upto, StartsWithBearer, Rule.Needle;
    FreeBearer(v, rest);
    SmallNames(name);
    NeedleFound(before, name);
    ReadBearer(name, v, rest);
    EmptyInFront(v + rest);
  }

  /** A `Bearer` value behind one of the two needles that know it ends at an ampersand, a comma, a quote, a line end or
      the end of the text, and nowhere else, blanks included. */
  lemma BearerValueMasked(name: string, before: string, v: string, rest: string)
    requires (name == "authorization=" || name == "auth=") && EndsInNeedle(before, name)
    requires StartsWithBearer(v) && Upto(v, rest, BEARER_ENDS)
    ensures Mask(Assignment(name), before + (v + rest)) == before + ("***" + Mask(Assignment(name), rest))
  {
    BearerSegmentOf(name, before, v, rest);
    hide Admissible, Mask, Opening, Stars, EndsInNeedle, Upto, StartsWithBearer;
    SegmentMasked(Assignment(name), Segment(before, Bearer, v), rest);
    EmptyInFront(v + rest);
    EmptyInFront("***" + Mask(Assignment(name), rest));
  }

  lemma QuotedSegment(name: string, before: string, quote: char, v: string, rest: string)
    requires Small(name) && EndsInNeedle(before, name) && quote in QUOTES && Upto(v, rest, {quote})
    ensures Admissible(Assignment(name), Segment(before, Quoted(quote), v), rest)
    ensures Opening(Quoted(quote)) == [quote]
    ensures Stars(Quoted(quote), v) == if v == "" then "" else "***"
  {
    NeedleFound(before, name);
    var after := [quote] + (v + rest);
    assert after[0] == quote;
    NotBearer(after);
    assert Free(v, QuoteEnd(quote));
    hide Find, Lower, StartsBearer, Mask, Typed, Small;
  }

  /** A value in quotes ends at the same quote or the end of the text, and nowhere else. */
  lemma QuotedValueMasked(name: string, before: string, quote: char, v: string, rest: string)
    requires Small(name) && EndsInNeedle(before, name) && quote in QUOTES && Upto(v, rest, {quote})
    ensures var stars := if v == "" then "" else "***";
            Mask(Assignment(name), before + ([quote] + (v + rest)))
              == before + ([quote] + (stars + Mask(Assignment(name), rest)))
  {
    QuotedSegment(name, before, quote, v, rest);
    SmallIsThere(name);
    hide Admissible, Mask, Opening, Stars, Small, EndsInNeedle, Upto;
    SegmentMasked(Assignment(name), Segment(before, Quoted(quote), v), rest);
  }

  lemma TokenSegment(before: string, v: string, rest: string)
    requires EndsInNeedle(before, "bearer ") && v != "" && Upto(v, rest, TOKEN_ENDS)
    ensures BearerToken.Needle() == "bearer " && Admissible(BearerToken, Segment(before, Bare, v), rest)
    ensures Opening(Bare) == "" && Stars(Bare, v) == "***"
  {
    FreeToken(v, rest);
    assert BearerToken.Needle() == "bearer " && Small("bearer ");
    NeedleFound(before, "bearer ");
    hide Find, Lower, Free, Ends, Mask, TOKEN_ENDS, Typed, Small;
  }

  /** What follows the word Bearer ends at an ampersand, a comma, a quote, white space or the end of the text, and
      nowhere else. */
  lemma TokenMasked(before: string, v: string, rest: string)
    requires EndsInNeedle(before, "bearer ") && v != "" && Upto(v, rest, TOKEN_ENDS)
    ensures Mask(BearerToken, before + (v + rest)) == before + ("***" + Mask(BearerToken, rest))
  {
    TokenSegment(before, v, rest);
    hide Admissible, Mask, Opening, Stars, EndsInNeedle, Upto;
    SegmentMasked(BearerToken, Segment(before, Bare, v), rest);
    EmptyInFront(v + rest);
    EmptyInFront("***" + Mask(BearerToken, rest));
  }

  lemma EmptyIsBare()
    ensures !StartsBearer("") && !StartsQuoted("")
  {
  }

  lemma EndIsNotB(c: char)
    requires c in BARE_ENDS
    ensures c != 'b' && c != 'B'
  {
  }

  lemma NoValueHere(name: string, before: string, rest: string)
    requires Small(name) && EndsInNeedle(before, name)
    requires rest == "" || (rest[0] in BARE_ENDS && rest[0] !in QUOTES)
    ensures Admissible(Assignment(name), Segment(before, Bare, ""), rest)
  {
    hide Small, EndsInNeedle, BARE_ENDS, Find, Lower, StartsBearer, StartsQuoted, Ends;
    FreeBare("", rest);
    NeedleFound(before, name);
    assert Opening(Bare) + ("" + rest) == rest;
    if rest == "" {
      assert !StartsBearer("") && !StartsQuoted("") by { EmptyIsBare(); }
    } else {
      NotQuoted(rest);
      EndIsNotB(rest[0]);
      NotBearer(rest);
    }
  }

  /** Where there is no value nothing is written. */
  lemma NoValueStays(name: string, before: string, rest: string)
    requires Small(name) && EndsInNeedle(before, name)
    requires rest == "" || (rest[0] in BARE_ENDS && rest[0] !in QUOTES)
    ensures name != "" && Mask(Assignment(name), before + rest) == before + Mask(Assignment(name), rest)
  {
    NoValueHere(name, before, rest);
    assert Small(name) ==> name != "";
    var s := Segment(before, Bare, "");
    assert Opening(Bare) + ("" + rest) == rest && Stars(Bare, "") == "";
    assert Opening(Bare) + ("" + Mask(Assignment(name), rest)) == Mask(Assignment(name), rest);
    hide Admissible, Mask, Small, EndsInNeedle, BARE_ENDS, Opening, Stars;
    SegmentMasked(Assignment(name), s, rest);
  }

  // ---------- One secret through all passes ----------

  /** The needles of an assignment. */
  const NAMES: set<string> := {"token=", "api_key=", "apikey=", "authorization=", "auth=", "header="}

  ghost predicate Lacking(text: string, needle: string) {
    forall j: nat :: !TypedAt(text, needle, j)
  }

  /** No other needle of an assignment stands in the text. */
  ghost predicate OnlyName(text: string, name: string) {
    forall other | other in NAMES && other != name :: Lacking(text, other)
  }

  lemma LackingNotHeld(text: string, needle: string)
    requires Small(needle) && Lacking(text, needle)
    ensures !Holds(text, needle)
  {
    hide Typed, Lower, Small;
    forall j: nat ensures !OccursAt(Lower(text), needle, j) {
      assert !TypedAt(text, needle, j);
      if j + |needle| <= |text| {
        LowerSlice(text, j, j + |needle|);
        TypedIsLower(text[j..j + |needle|], needle);
      }
    }
  }

  lemma SmallBearer()
    ensures Small("bearer ")
  {
  }

  lemma SmallName(name: string)
    requires name in NAMES
    ensures name != "" && Small(name) && Small("bearer ")
  {
  }

  lemma NameOf(i: nat)
    requires i < 6
    ensures RULES[i].Needle() in NAMES && RULES[i] == Assignment(RULES[i].Needle())
    ensures Small(RULES[i].Needle())
  {
    assert |RULES| == 7;
    assert RULES[i].Assignment? && RULES[i].name in NAMES;
    assert RULES[i].Needle() == RULES[i].name;
    hide RULES;
    SmallName(RULES[i].Needle());
  }

  lemma NamesDiffer(i: nat, n: nat)
    requires i < n < 6
    ensures |RULES| == 7 && RULES[n].Needle() != RULES[i].Needle()
  {
    RuleCount();
    RulesAreApart(i, n);
    hide RULES;
  }

  lemma RuleOf(name: string) returns (i: nat)
    requires name in NAMES
    ensures i < 6 && RULES[i] == Assignment(name)
  {
    i := if name == "token=" then 0 else if name == "api_key=" then 1 else if name == "apikey=" then 2
         else if name == "authorization=" then 3 else if name == "auth=" then 4 else 5;
  }

  lemma OthersNotHeld(text: string, i: nat)
    requires i < 6 && OnlyName(text, RULES[i].Needle())
    ensures forall n | 0 <= n < 6 && n != i :: !Holds(text, RULES[n].Needle())
  {
    RuleCount();
    hide Lacking, Holds, RULES, Small, NAMES, Rule.Needle;
    NameOf(i);
    forall n | 0 <= n < 6 && n != i ensures !Holds(text, RULES[n].Needle()) {
      NameOf(n);
      if i < n { NamesDiffer(i, n); } else { NamesDiffer(n, i); }
      LackingNotHeld(text, RULES[n].Needle());
    }
  }

  lemma OneSegmentParsed(rule: Rule, s: Segment, rest: string)
    requires rule.Needle() != "" && Admissible(rule, s, rest) && !Holds(rest, rule.Needle())
    ensures Parse(rule, s.lead + (Opening(s.kind) + (s.value + rest))) == Parsed([s], rest)
  {
    HoldsUnlessNone(rest, rule.Needle());
    assert WellFormed(rule, Parsed([], rest)) && Rest(Parsed([s], rest)) == Parsed([], rest);
    NoSegments(rest);
    OneSegment(s, rest);
    hide *;
    assert WellFormed(rule, Parsed([s], rest)) by { hide Admissible; }
    AssembleParses(rule, Parsed([s], rest));
  }

  /** The only secret of a text goes through all passes as through its own. */
  lemma OnlySecret(i: nat, s: Segment, rest: string)
    requires i < 6 && RULES[i].Needle() != "" && Admissible(RULES[i], s, rest)
    requires !Holds(s.lead, "bearer ") && !Holds(rest, "bearer ") && !Holds(rest, RULES[i].Needle())
    requires var text := s.lead + (Opening(s.kind) + (s.value + rest));
             forall n | 0 <= n < 6 && n != i :: !Holds(text, RULES[n].Needle())
    ensures |RULES| == 7
    ensures Passed(s.lead + (Opening(s.kind) + (s.value + rest)), 7)
         == s.lead + (Opening(s.kind) + (Stars(s.kind, s.value) + rest))
  {
    var text := s.lead + (Opening(s.kind) + (s.value + rest));
    var masked := s.lead + (Opening(s.kind) + (Stars(s.kind, s.value) + rest));
    RulesHarmonious();
    RuleCount();
    hide Holds, Admissible, Opening, Stars, Passed, Mask, Parse, RULES, Terminated, Apart, Fit, Closes;
    OneSegmentParsed(RULES[i], s, rest);
    assert NoBearerInLeads(Parsed([s], rest));
    assert Lone(text, i);
    AfterOwnPass(text, i, 6);
    SegmentMasked(RULES[i], s, rest);
    NeedleNotHeld(RULES[i], rest);
    assert BearerToken.Needle() == "bearer ";
    if Holds(masked, "bearer ") {
      MaskedCloses(RULES[i], s, rest, rest);
      HoldsAround("bearer ", RULES[i], s, rest, rest);
    }
    NeedleNotHeld(BearerToken, masked);
    PassedStep(text, 6);
  }

  /** The only needle of the text is the one at the end of `before`. */
  ghost predicate OnlyNeedle(name: string, before: string, value: string, rest: string) {
    && name in NAMES && EndsInNeedle(before, name) && OnlyName(before + (value + rest), name)
    && Lacking(before, "bearer ") && Lacking(rest, "bearer ") && Lacking(rest, name)
  }

  lemma SecretSegment(name: string, s: Segment, rest: string) returns (i: nat)
    requires OnlyNeedle(name, s.lead, Opening(s.kind) + s.value, rest) && Admissible(Assignment(name), s, rest)
    ensures |RULES| == 7
    ensures Passed(s.lead + (Opening(s.kind) + (s.value + rest)), 7)
         == s.lead + (Opening(s.kind) + (Stars(s.kind, s.value) + rest))
  {
    i := RuleOf(name);
    SmallName(name);
    RuleCount();
    ConcatAssociates(Opening(s.kind), s.value, rest);
    hide Admissible, EndsInNeedle, Lacking, Opening, Stars, Passed, Holds, OnlyName, RULES, Small, NAMES;
    OthersNotHeld(s.lead + (Opening(s.kind) + (s.value + rest)), i);
    LackingNotHeld(s.lead, "bearer ");
    LackingNotHeld(rest, "bearer ");
    LackingNotHeld(rest, name);
    OnlySecret(i, s, rest);
  }

  /** `mask_token_values` on a text with one bare value: the value, and nothing else, becomes stars. */
  lemma BareSecretHidden(name: string, before: string, v: string, rest: string)
    requires OnlyNeedle(name, before, v, rest) && v != "" && Upto(v, rest, BARE_ENDS)
    requires name == "authorization=" || name == "auth=" ==> !StartsWithBearer(v + rest)
    ensures |RULES| == 7 && Passed(before + (v + rest), 7) == before + ("***" + rest)
  {
    SmallName(name);
    BareSegment(name, before, v, rest);
    hide Admissible, Opening, Stars, Passed, EndsInNeedle, Upto, StartsWithBearer, Small, Lacking, OnlyName, NAMES;
    EmptyInFront(v);
    EmptyInFront(v + rest);
    EmptyInFront("***" + rest);
    var i := SecretSegment(name, Segment(before, Bare, v), rest);
  }

  /** On a text with one `Bearer` value behind an assignment. */
  lemma BearerSecretHidden(name: string, before: string, v: string, rest: string)
    requires OnlyNeedle(name, before, v, rest) && (name == "authorization=" || name == "auth=")
    requires StartsWithBearer(v) && Upto(v, rest, BEARER_ENDS)
    ensures |RULES| == 7 && Passed(before + (v + rest), 7) == before + ("***" + rest)
  {
    BearerSegmentOf(name, before, v, rest);
    hide Admissible, Opening, Stars, Passed, EndsInNeedle, Upto, StartsWithBearer, Small, Lacking, OnlyName, NAMES;
    EmptyInFront(v);
    EmptyInFront(v + rest);
    EmptyInFront("***" + rest);
    var i := SecretSegment(name, Segment(before, Bearer, v), rest);
  }

  /** On a text with one value in quotes. */
  lemma QuotedSecretHidden(name: string, before: string, quote: char, v: string, rest: string)
    requires OnlyNeedle(name, before, [quote] + v, rest) && quote in QUOTES && v != "" && Upto(v, rest, {quote})
    ensures |RULES| == 7 && Passed(before + ([quote] + (v + rest)), 7) == before + ([quote] + ("***" + rest))
  {
    SmallName(name);
    QuotedSegment(name, before, quote, v, rest);
    hide Admissible, Opening, Stars, Passed, EndsInNeedle, Upto, Small, Lacking, OnlyName, NAMES;
    var i := SecretSegment(name, Segment(before, Quoted(quote), v), rest);
  }

  lemma {:induction false} NoNamePasses(text: string, n: nat)
    requires n <= 6 && forall i | 0 <= i < 6 :: !Holds(text, RULES[i].Needle())
    ensures |RULES| == 7 && Passed(text, n) == text
  {
    RuleCount();
    hide Passed, Holds, Mask, RULES, Rule.Needle;
    if n == 0 {
      PassedNone(text);
    } else {
      NoNamePasses(text, n - 1);
      PassedStep(text, n - 1);
      NeedleNotHeld(RULES[n - 1], text);
    }
  }

  /** On a text without assignments and with one word Bearer. */
  lemma TokenHidden(before: string, v: string, rest: string)
    requires EndsInNeedle(before, "bearer ") && v != "" && Upto(v, rest, TOKEN_ENDS) && Lacking(rest, "bearer ")
    requires forall name | name in NAMES :: Lacking(before + (v + rest), name)
    ensures |RULES| == 7 && Passed(before + (v + rest), 7) == before + ("***" + rest)
  {
    var text := before + (v + rest);
    RuleCount();
    hide Passed, Holds, Mask, RULES, Lacking, EndsInNeedle, Upto, Small, NAMES, TOKEN_ENDS;
    forall i | 0 <= i < 6 ensures !Holds(text, RULES[i].Needle()) {
      NameOf(i);
      LackingNotHeld(text, RULES[i].Needle());
    }
    NoNamePasses(text, 6);
    PassedStep(text, 6);
    TokenMasked(before, v, rest);
    SmallBearer();
    LackingNotHeld(rest, "bearer ");
    NeedleNotHeld(BearerToken, rest);
  }
}
