/** All needles one after the other: what one pass has covered, the later ones leave covered. */
module MaskingPipeline {
  import opened Text
  import opened Masking

  const RULES: seq<Rule> := [
    Assignment("token="), Assignment("api_key="), Assignment("apikey="),
    Assignment("authorization="), Assignment("auth="), Assignment("header="), BearerToken]

  lemma NeedleOf(n: nat)
    requires n < |RULES|
    ensures RULES[n].Needle() != ""
  {
  }

  /** What the first `n` passes make of the text: what the next one reads. */
  function Passed(text: string, n: nat): string
    requires n <= |RULES|
  {
    if n == 0 then text
    else
      NeedleOf(n - 1);
      Mask(RULES[n - 1], Passed(text, n - 1))
  }

  /** The segments that pass `n` works on. */
  function Read(text: string, n: nat): Parsed
    requires n < |RULES|
  {
    NeedleOf(n);
    Parse(RULES[n], Passed(text, n))
  }

  lemma PassedStep(text: string, n: nat)
    requires n < |RULES|
    ensures RULES[n].Needle() != "" && Passed(text, n + 1) == Mask(RULES[n], Passed(text, n))
    ensures Read(text, n) == Parse(RULES[n], Passed(text, n))
  {
    hide Mask, Parse;
    NeedleOf(n);
  }

  // ---------- Needles that do not get in each other's way ----------

  /** Starts with a letter and ends with the only equals sign or blank in it. */
  ghost predicate Terminated(needle: string) {
    && |needle| >= 5 && 'a' <= needle[0] <= 'z'
    && (needle[|needle| - 1] == '=' || (needle[|needle| - 1] == ' ' && |needle| >= 7))
    && forall i | 0 <= i < |needle| - 1 :: needle[i] != '=' && needle[i] != ' '
  }

  /** Neither ends the other. */
  ghost predicate Apart(a: string, b: string) {
    && (|a| <= |b| ==> b[|b| - |a|..] != a)
    && (|b| <= |a| ==> a[|a| - |b|..] != b)
  }

  lemma ApartAt(a: string, b: string, k: nat)
    requires 0 < k <= |a| && k <= |b| && a[|a| - k] != b[|b| - k]
    ensures Apart(a, b) && Apart(b, a)
  {
    if |a| <= |b| { assert b[|b| - |a|..][|a| - k] == b[|b| - k]; }
    if |b| <= |a| { assert a[|a| - |b|..][|b| - k] == a[|a| - k]; }
  }

  lemma SameEnd(s: string, a: string, b: string)
    requires |a| <= |s| && |b| <= |s| && OccursAt(s, a, |s| - |a|) && OccursAt(s, b, |s| - |b|)
    ensures !Apart(a, b)
  {
    assert s[|s| - |a|..] == a && s[|s| - |b|..] == b;
    if |a| <= |b| {
      DropDrop(s, |s| - |b|, |b| - |a|);
    } else {
      DropDrop(s, |s| - |a|, |a| - |b|);
    }
  }

  lemma OccursLetter(s: string, needle: string, j: nat, i: nat)
    requires OccursAt(s, needle, j) && i < |needle|
    ensures j + i < |s| && s[j + i] == needle[i]
  {
    assert s[j..j + |needle|][i] == s[j + i];
  }

  /** In a text that ends with one needle, the other one ends before that begins. */
  lemma EndsBefore(a: string, b: string, text: string, j: nat)
    requires Terminated(a) && Terminated(b) && Apart(a, b)
    requires |b| <= |text| && OccursAt(Lower(text), b, |text| - |b|) && OccursAt(Lower(text), a, j)
    ensures j + |a| <= |text| - |b|
  {
    hide Lower, OccursAt, Apart;
    var lower, start, e := Lower(text), |text| - |b|, j + |a| - 1;
    OccursLetter(lower, a, j, |a| - 1);
    if start <= e {
      OccursLetter(lower, b, start, e - start);
      assert e - start == |b| - 1;
      SameEnd(lower, a, b);
    }
  }

  // ---------- One pass keeps what is covered ----------

  lemma DropAcross(k: string, u: string, o: nat)
    requires o <= |k|
    ensures (k + u)[o..] == k[o..] + u
  {
  }

  lemma LowerPrefix(k: string, u: string)
    requires |k| >= 7
    ensures Lower(k + u)[..7] == Lower(k)[..7]
  {
  }

  lemma NotBearerAt(s: string, i: nat)
    requires i < 7 && i < |s| && s[i] == '='
    ensures !StartsBearer(s)
  {
    if |s| >= 7 { assert Lower(s)[..7][i] == LowerChar(s[i]) == '='; }
  }

  lemma SameBearer(k: string, u: string, u': string)
    requires |k| >= 5 && (|k| >= 7 || k[|k| - 1] == '=')
    ensures StartsBearer(k + u) == StartsBearer(k + u')
  {
    hide Lower;
    if |k| >= 7 {
      assert Lower(k + u)[..7] == Lower(k)[..7] == Lower(k + u')[..7] by { LowerPrefix(k, u); LowerPrefix(k, u'); }
    } else {
      NotBearerAt(k + u, |k| - 1);
      NotBearerAt(k + u', |k| - 1);
    }
  }

  lemma SameKind(rule: Rule, k: string, u: string, u': string)
    requires |k| >= 5 && (|k| >= 7 || k[|k| - 1] == '=')
    ensures KindOf(rule, k + u) == KindOf(rule, k + u')
  {
    hide StartsBearer;
    SameBearer(k, u, u');
  }

  lemma NotStar(rule: Rule, after: string)
    ensures !Ends(EndOf(rule, KindOf(rule, after)), '*')
  {
  }

  lemma StarsWithComma(k: string)
    requires |k| >= 4
    ensures k[..4] == "***," <==> k[..3] == "***" && k[3] == ','
  {
    assert k[..4][..3] == k[..3];
    if k[..3] == "***" && k[3] == ',' { assert k[..4] == k[..3] + [k[3]]; }
  }

  lemma ExtentByStart(k: string, u: string, e: Ending)
    requires |k| >= 4 && !Ends(e, '*')
    ensures var v := (k + u)[..Extent(k + u, e)];
            && (v == "" <==> Ends(e, k[0]))
            && (v == "***" <==> k[..3] == "***" && Ends(e, k[3]))
            && ("***," <= v <==> k[..4] == "***," && !Ends(e, ','))
  {
    hide Ends;
    var t := k + u;
    var n := Extent(t, e);
    assert forall i | 0 <= i < 4 :: t[i] == k[i];
    assert forall i | 0 <= i < n :: t[..n][i] == t[i];
    if k[..3] == "***" {
      assert k[..3][0] == k[0] == '*' && k[..3][1] == k[1] == '*' && k[..3][2] == k[2] == '*';
    }
    if 3 <= n { assert t[..n][..3] == k[..3]; }
    if 4 <= n { assert t[..n][..4] == k[..4] && k[..4][3] == k[3]; }
    StarsWithComma(k);
  }

  /** What a value is shows in the first characters. */
  lemma SameValueByStart(rule: Rule, k: string, u: string, u': string)
    requires |k| >= 5 && (|k| >= 7 || k[|k| - 1] == '=')
    ensures var v, v' := ValueAt(rule, k + u), ValueAt(rule, k + u');
            && KindOf(rule, k + u) == KindOf(rule, k + u')
            && (v == "" <==> v' == "") && (v == "***" <==> v' == "***") && ("***," <= v <==> "***," <= v')
  {
    hide Extent, StartsBearer, Free, EndOf, KindOf;
    SameKind(rule, k, u, u');
    var kind := KindOf(rule, k + u);
    var o := |Opening(kind)|;
    OpeningIsThere(rule, k + u);
    DropAcross(k, u, o);
    DropAcross(k, u', o);
    NotStar(rule, k + u);
    ExtentByStart(k[o..], u, EndOf(rule, kind));
    ExtentByStart(k[o..], u', EndOf(rule, kind));
  }

  lemma CoveredByStart(rule: Rule, k: string, u: string, u': string)
    requires |k| >= 5 && (|k| >= 7 || k[|k| - 1] == '=')
    ensures Covered(rule, k + u) == Covered(rule, k + u')
    ensures var after, after' := k + u, k + u';
            Commaed(rule, KindOf(rule, after), ValueAt(rule, after))
                == Commaed(rule, KindOf(rule, after'), ValueAt(rule, after'))
  {
    hide KindOf, ValueAt;
    SameValueByStart(rule, k, u, u');
  }

  lemma OccursExtends(a: string, b: string, needle: string, j: nat)
    requires OccursAt(Lower(a), needle, j)
    ensures OccursAt(Lower(a + b), needle, j)
  {
    assert forall i | 0 <= i < |a| :: Lower(a)[i] == Lower(a + b)[i];
    assert Lower(a + b)[j..j + |needle|] == Lower(a)[j..j + |needle|];
  }

  lemma ValueLetter(rule: Rule, s: Segment, stars: string, rest: string, j: nat)
    requires Closes(rule, s.kind, stars, rest) && |s.lead| <= j < |s.lead| + |Opening(s.kind)| + |stars|
    ensures var c := (s.lead + (Opening(s.kind) + (stars + rest)))[j]; c == '*' || c == '"' || c == '\''
  {
    var after := Opening(s.kind) + (stars + rest);
    assert (s.lead + after)[j] == after[j - |s.lead|];
  }

  /** The other needle does not reach over the end of the text before a masked value, nor start in the value. */
  lemma OutsideValue(needle: string, rule: Rule, s: Segment, stars: string, rest: string, j: nat)
    requires Terminated(needle) && Terminated(rule.Needle()) && Closes(rule, s.kind, stars, rest)
    requires |rule.Needle()| <= |s.lead| && OccursAt(Lower(s.lead), rule.Needle(), |s.lead| - |rule.Needle()|)
    requires OccursAt(Lower(s.lead + (Opening(s.kind) + (stars + rest))), needle, j)
    ensures j + |needle| <= |s.lead| || |s.lead| + |Opening(s.kind)| + |stars| <= j
  {
    hide OccursAt, Lower, Rule.Needle;
    var after := Opening(s.kind) + (stars + rest);
    var text, n := s.lead + after, |rule.Needle()|;
    if j < |s.lead| < j + |needle| {
      LetterAt(s.lead, rule.Needle(), |s.lead| - n, n - 1);
      LetterAt(text, needle, j, |s.lead| - 1 - j);
    } else if |s.lead| <= j < |s.lead| + |Opening(s.kind)| + |stars| {
      ValueLetter(rule, s, stars, rest, j);
      LetterAt(text, needle, j, 0);
    }
  }

  lemma LeadEnds(rule: Rule, lead: string, e: nat)
    requires Terminated(rule.Needle()) && |rule.Needle()| <= |lead|
         && OccursAt(Lower(lead), rule.Needle(), |lead| - |rule.Needle()|)
    requires e <= |lead| - |rule.Needle()|
    ensures |lead[e..]| >= 5 && (|lead[e..]| >= 7 || lead[e..][|lead[e..]| - 1] == '=')
  {
    LetterAt(lead, rule.Needle(), |lead| - |rule.Needle()|, |rule.Needle()| - 1);
  }

  /** An occurrence of another needle in a text one of whose values was masked. */
  lemma KeepsAt(other: Rule, rule: Rule, s: Segment, rest: string, rest': string, j: nat)
    requires Terminated(other.Needle()) && Terminated(rule.Needle()) && Apart(other.Needle(), rule.Needle())
    requires Admissible(rule, s, rest) && AllCovered(other, s.lead + (Opening(s.kind) + (s.value + rest)))
    requires AllCovered(other, rest') && Closes(rule, s.kind, Stars(s.kind, s.value), rest')
    requires OccursAt(Lower(s.lead + (Opening(s.kind) + (Stars(s.kind, s.value) + rest'))), other.Needle(), j)
    ensures var text := s.lead + (Opening(s.kind) + (Stars(s.kind, s.value) + rest'));
            j + |other.Needle()| <= |text| && Covered(other, text[j + |other.Needle()|..])
  {
    hide Covered, Opening, Stars, Closes, Terminated, Apart, Lower, OccursAt, Rule.Needle, Find, Free, KindOf, EndOf;
    var stars, e := Stars(s.kind, s.value), j + |other.Needle()|;
    var was, now := Opening(s.kind) + (s.value + rest), Opening(s.kind) + (stars + rest');
    OccursWithin(s.lead + now, other.Needle(), j);
    OutsideValue(other.Needle(), rule, s, stars, rest', j);
    if e <= |s.lead| {
      OccursInPrefix(s.lead, now, other.Needle(), j);
      EndsBefore(other.Needle(), rule.Needle(), s.lead, j);
      OccursExtends(s.lead, was, other.Needle(), j);
      LeadEnds(rule, s.lead, e);
      DropAcross(s.lead, was, e);
      DropAcross(s.lead, now, e);
      CoveredByStart(other, s.lead[e..], was, now);
    } else {
      var before := s.lead + Opening(s.kind) + stars;
      assert s.lead + now == before + rest';
      OccursInSuffix(before, rest', other.Needle(), j);
      OccursWithin(rest', other.Needle(), j - |before|);
      assert (before + rest')[e..] == rest'[e - |before|..];
    }
  }

  lemma NeedleIsThere(rule: Rule)
    requires Terminated(rule.Needle())
    ensures rule.Needle() != ""
  {
  }

  lemma SuffixCovered(rule: Rule, a: string, b: string, c: string, d: string)
    requires AllCovered(rule, a + (b + (c + d)))
    ensures AllCovered(rule, d)
  {
    hide AllCovered;
    assert (a + (b + (c + d)))[|a| + |b| + |c|..] == d;
    CoveredSuffix(rule, a + (b + (c + d)), |a| + |b| + |c|);
  }

  lemma SegmentKeeps(other: Rule, rule: Rule, s: Segment, rest: string, rest': string)
    requires Terminated(other.Needle()) && Terminated(rule.Needle()) && Apart(other.Needle(), rule.Needle())
    requires Admissible(rule, s, rest) && AllCovered(other, s.lead + (Opening(s.kind) + (s.value + rest)))
    requires AllCovered(other, rest') && Closes(rule, s.kind, Stars(s.kind, s.value), rest')
    ensures AllCovered(other, s.lead + (Opening(s.kind) + (Stars(s.kind, s.value) + rest')))
  {
    hide Covered, Opening, Stars, Closes, Terminated, Apart, Lower, Rule.Needle, Admissible;
    var text := s.lead + (Opening(s.kind) + (Stars(s.kind, s.value) + rest'));
    forall j: nat | OccursAt(Lower(text), other.Needle(), j) ensures Covered(other, text[j + |other.Needle()|..]) {
      KeepsAt(other, rule, s, rest, rest', j);
    }
  }

  /** Masking one needle's values leaves the values of another covered. */
  lemma {:induction false} PassKeeps(other: Rule, rule: Rule, p: Parsed)
    requires Terminated(other.Needle()) && Terminated(rule.Needle()) && Apart(other.Needle(), rule.Needle())
    requires WellFormed(rule, p) && AllCovered(other, Assemble(p))
    ensures AllCovered(other, Assemble(Masked(p)))
    decreases |p.segments|
  {
    hide Covered, Stars, Opening, Closes, Lower, Find, Admissible, KindOf, Terminated, Apart, OccursAt, AllCovered,
        Rule.Needle;
    if p.segments == [] { return; }
    var s, was, rest := p.segments[0], Assemble(Rest(p)), Assemble(Masked(Rest(p)));
    SuffixCovered(other, s.lead, Opening(s.kind), s.value, was);
    PassKeeps(other, rule, Rest(p));
    MaskedCons(s, Rest(p));
    assert [s] + Rest(p).segments == p.segments;
    NeedleIsThere(rule);
    MaskedStart(rule, Rest(p));
    MaskedCloses(rule, s, was, rest);
    SegmentKeeps(other, rule, s, was, rest);
  }

  // ---------- The whole sequence ----------

  ghost predicate Harmonious(rules: seq<Rule>) {
    && (forall i | 0 <= i < |rules| :: Fit(rules[i]) && Terminated(rules[i].Needle()))
    && (forall i, j | 0 <= i < |rules| && 0 <= j < |rules| && i != j :: Apart(rules[i].Needle(), rules[j].Needle()))
  }

  lemma MaskKeeps(other: Rule, rule: Rule, text: string)
    requires Terminated(other.Needle()) && Terminated(rule.Needle()) && Apart(other.Needle(), rule.Needle())
    requires rule.Needle() != "" && AllCovered(other, text)
    ensures AllCovered(other, Mask(rule, text))
  {
    hide AllCovered, Terminated, Apart;
    ParseAssembles(rule, text);
    PassKeeps(other, rule, Parse(rule, text));
  }

  lemma RuleIsFit(i: nat)
    requires i < |RULES|
    ensures RULES[i].Needle() != "" && Fit(RULES[i])
  {
    hide PlainNeedle, Terminated;
    if i < 6 { LettersArePlain(RULES[i].Needle()); }
  }

  lemma RuleIsTerminated(i: nat)
    requires i < |RULES|
    ensures Terminated(RULES[i].Needle())
  {
  }

  lemma RulesAreFit(i: nat)
    requires i < |RULES|
    ensures RULES[i].Needle() != "" && Fit(RULES[i]) && Terminated(RULES[i].Needle())
  {
    hide *;
    RuleIsFit(i);
    RuleIsTerminated(i);
  }

  /** No two needles in use end alike: they differ at one of their last five characters. */
  lemma RulesAreApart(i: nat, j: nat)
    requires i < j < |RULES|
    ensures Apart(RULES[i].Needle(), RULES[j].Needle()) && Apart(RULES[j].Needle(), RULES[i].Needle())
  {
    var k := if j == 6 then 1 else if i == 0 && j == 3 then 3 else if i == 1 && j == 2 then 5 else 2;
    ApartAt(RULES[i].Needle(), RULES[j].Needle(), k);
  }

  lemma RulesHarmonious()
    ensures Harmonious(RULES)
  {
    hide Fit, Terminated, Apart, Rule.Needle;
    forall i | 0 <= i < |RULES| ensures RULES[i].Needle() != "" && Fit(RULES[i]) && Terminated(RULES[i].Needle()) {
      RulesAreFit(i);
    }
    forall i, j | 0 <= i < |RULES| && 0 <= j < |RULES| && i != j ensures Apart(RULES[i].Needle(), RULES[j].Needle()) {
      if i < j { RulesAreApart(i, j); } else { RulesAreApart(j, i); }
    }
  }

  lemma PassCovers(text: string, n: nat)
    requires Harmonious(RULES) && n < |RULES| && forall i | 0 <= i < n :: AllCovered(RULES[i], Passed(text, n))
    ensures forall i | 0 <= i <= n :: AllCovered(RULES[i], Passed(text, n + 1))
  {
    hide AllCovered, Passed, Terminated, Apart, Fit;
    PassedStep(text, n);
    MaskLeavesNoValue(RULES[n], Passed(text, n));
    forall i | 0 <= i < n ensures AllCovered(RULES[i], Passed(text, n + 1)) {
      MaskKeeps(RULES[i], RULES[n], Passed(text, n));
    }
  }

  lemma {:induction false} PassesCover(text: string, n: nat)
    requires Harmonious(RULES) && n <= |RULES|
    ensures forall i | 0 <= i < n :: AllCovered(RULES[i], Passed(text, n))
    decreases n
  {
    hide AllCovered, Passed, Harmonious;
    if n > 0 {
      PassesCover(text, n - 1);
      PassCovers(text, n - 1);
    }
  }

  // ---------- When every value is exactly stars ----------

  /** Outside its values, the text has the other rule's stars with a comma. */
  ghost predicate Exposed(other: Rule, p: Parsed)
    decreases |p.segments|
  {
    if p.segments == [] then CommaLeft(other, p.tail)
    else CommaLeft(other, p.segments[0].lead) || Exposed(other, Rest(p))
  }

  lemma CommaInLead(other: Rule, rule: Rule, lead: string, now: string, j: nat)
    requires Terminated(other.Needle()) && Terminated(rule.Needle()) && Apart(other.Needle(), rule.Needle())
    requires |rule.Needle()| <= |lead| && OccursAt(Lower(lead), rule.Needle(), |lead| - |rule.Needle()|)
    requires j + |other.Needle()| <= |lead|
    ensures CommaAt(other, lead, j) <==> CommaAt(other, lead + now, j)
  {
    hide Terminated, Apart, Lower, OccursAt, Rule.Needle, KindOf, ValueAt, Commaed;
    var e := j + |other.Needle()|;
    if OccursAt(Lower(lead + now), other.Needle(), j) {
      OccursInPrefix(lead, now, other.Needle(), j);
    }
    if OccursAt(Lower(lead), other.Needle(), j) {
      OccursExtends(lead, now, other.Needle(), j);
      EndsBefore(other.Needle(), rule.Needle(), lead, j);
      LeadEnds(rule, lead, e);
      DropAcross(lead, now, e);
      assert lead[e..] + "" == lead[e..];
      CoveredByStart(other, lead[e..], now, "");
    }
  }

  lemma NeedleInLead(rule: Rule, s: Segment, rest: string)
    requires Admissible(rule, s, rest)
    ensures |rule.Needle()| <= |s.lead| && OccursAt(Lower(s.lead), rule.Needle(), |s.lead| - |rule.Needle()|)
  {
    hide Lower, KindOf;
  }

  lemma OccursForComma(rule: Rule, text: string, j: nat)
    requires CommaAt(rule, text, j)
    ensures OccursAt(Lower(text), rule.Needle(), j) && j + |rule.Needle()| <= |text|
  {
    hide KindOf, ValueAt;
  }

  /** In a text one of whose values was masked, the comma stands before the value or after it. */
  lemma CommaAround(other: Rule, rule: Rule, s: Segment, rest: string, rest': string)
    requires Terminated(other.Needle()) && Terminated(rule.Needle()) && Apart(other.Needle(), rule.Needle())
    requires Admissible(rule, s, rest) && Closes(rule, s.kind, Stars(s.kind, s.value), rest')
    ensures CommaLeft(other, s.lead + (Opening(s.kind) + (Stars(s.kind, s.value) + rest')))
       <==> CommaLeft(other, s.lead) || CommaLeft(other, rest')
  {
    hide CommaAt, Terminated, Apart, Lower, OccursAt, Rule.Needle, Opening, Stars, Closes;
    NeedleInLead(rule, s, rest);
    var stars := Stars(s.kind, s.value);
    var now, before := Opening(s.kind) + (stars + rest'), s.lead + Opening(s.kind) + stars;
    assert s.lead + now == before + rest';
    if CommaLeft(other, s.lead + now) {
      var j: nat :| CommaAt(other, s.lead + now, j);
      OccursForComma(other, s.lead + now, j);
      OutsideValue(other.Needle(), rule, s, stars, rest', j);
      if j + |other.Needle()| <= |s.lead| {
        CommaInLead(other, rule, s.lead, now, j);
      } else {
        CommaUnshifted(other, before, rest', j);
      }
    }
    if CommaLeft(other, s.lead) {
      var j: nat :| CommaAt(other, s.lead, j);
      OccursForComma(other, s.lead, j);
      CommaInLead(other, rule, s.lead, now, j);
    } else if CommaLeft(other, rest') {
      var j: nat :| CommaAt(other, rest', j);
      CommaShifted(other, before, rest', j);
    }
  }

  /** A pass of another rule keeps the comma exactly where it stands outside that rule's values. */
  lemma {:induction false} CommaStaysExposed(other: Rule, rule: Rule, p: Parsed)
    requires Terminated(other.Needle()) && Terminated(rule.Needle()) && Apart(other.Needle(), rule.Needle())
    requires WellFormed(rule, p)
    ensures CommaLeft(other, Assemble(Masked(p))) <==> Exposed(other, p)
    decreases |p.segments|
  {
    hide CommaLeft, Stars, Opening, Closes, Lower, Find, Admissible, KindOf, Terminated, Apart, OccursAt, Rule.Needle;
    if p.segments != [] {
      var s, was, rest := p.segments[0], Assemble(Rest(p)), Assemble(Masked(Rest(p)));
      CommaStaysExposed(other, rule, Rest(p));
      MaskedCons(s, Rest(p));
      assert [s] + Rest(p).segments == p.segments;
      NeedleIsThere(rule);
      MaskedStart(rule, Rest(p));
      MaskedCloses(rule, s, was, rest);
      CommaAround(other, rule, s, was, rest);
    }
  }

  lemma CommaFromLead(other: Rule, rule: Rule, s: Segment, rest: string)
    requires Terminated(other.Needle()) && Terminated(rule.Needle()) && Apart(other.Needle(), rule.Needle())
    requires Admissible(rule, s, rest) && CommaLeft(other, s.lead)
    ensures CommaLeft(other, s.lead + (Opening(s.kind) + (s.value + rest)))
  {
    hide CommaAt, Terminated, Apart, Lower, OccursAt, Rule.Needle, Opening;
    NeedleInLead(rule, s, rest);
    var j: nat :| CommaAt(other, s.lead, j);
    OccursForComma(other, s.lead, j);
    CommaInLead(other, rule, s.lead, Opening(s.kind) + (s.value + rest), j);
  }

  lemma CommaFromRest(other: Rule, s: Segment, rest: string)
    requires CommaLeft(other, rest)
    ensures CommaLeft(other, s.lead + (Opening(s.kind) + (s.value + rest)))
  {
    hide CommaAt, Opening;
    var before := s.lead + Opening(s.kind) + s.value;
    assert s.lead + (Opening(s.kind) + (s.value + rest)) == before + rest;
    var j: nat :| CommaAt(other, rest, j);
    CommaShifted(other, before, rest, j);
  }

  /** A comma outside the values is a comma in the text. */
  lemma {:induction false} ExposedInText(other: Rule, rule: Rule, p: Parsed)
    requires Terminated(other.Needle()) && Terminated(rule.Needle()) && Apart(other.Needle(), rule.Needle())
    requires WellFormed(rule, p) && Exposed(other, p)
    ensures CommaLeft(other, Assemble(p))
    decreases |p.segments|
  {
    hide CommaLeft, Opening, Lower, Find, Admissible, Terminated, Apart, OccursAt, Rule.Needle;
    if p.segments != [] {
      var s, was := p.segments[0], Assemble(Rest(p));
      if CommaLeft(other, s.lead) {
        CommaFromLead(other, rule, s, was);
      } else {
        ExposedInText(other, rule, Rest(p));
        CommaFromRest(other, s, was);
      }
    }
  }

  /** In the text that pass `i` reads, a comma follows a `Bearer` value, and it stands outside the values of every later
      pass. */
  ghost predicate CommaStays(text: string, i: nat)
    requires i < |RULES|
  {
    CommaAfterBearer(Read(text, i)) && forall n | i < n < |RULES| :: Exposed(RULES[i], Read(text, n))
  }

  lemma OwnComma(rule: Rule, text: string)
    requires Fit(rule) && rule.Needle() != ""
    ensures CommaLeft(rule, Mask(rule, text)) <==> CommaAfterBearer(Parse(rule, text))
  {
    hide CommaLeft, Fit;
    ParseAssembles(rule, text);
    CommaComesOf(rule, Parse(rule, text));
  }

  lemma OwnPass(text: string, i: nat)
    requires i < |RULES| && Harmonious(RULES)
    ensures CommaLeft(RULES[i], Passed(text, i + 1)) <==> CommaAfterBearer(Read(text, i))
  {
    hide CommaLeft, Fit, Terminated, Apart, CommaAfterBearer, Passed, Read;
    PassedStep(text, i);
    OwnComma(RULES[i], Passed(text, i));
  }

  lemma OtherComma(other: Rule, rule: Rule, text: string)
    requires Terminated(other.Needle()) && Terminated(rule.Needle()) && Apart(other.Needle(), rule.Needle())
    requires rule.Needle() != ""
    ensures CommaLeft(other, Mask(rule, text)) <==> Exposed(other, Parse(rule, text))
    ensures Exposed(other, Parse(rule, text)) ==> CommaLeft(other, text)
  {
    hide CommaLeft, Terminated, Apart, Exposed;
    ParseAssembles(rule, text);
    if Exposed(other, Parse(rule, text)) { ExposedInText(other, rule, Parse(rule, text)); }
    CommaStaysExposed(other, rule, Parse(rule, text));
  }

  lemma OtherPass(text: string, i: nat, n: nat)
    requires i < |RULES| && n < |RULES| && i != n && Harmonious(RULES)
    ensures CommaLeft(RULES[i], Passed(text, n + 1)) <==> Exposed(RULES[i], Read(text, n))
    ensures Exposed(RULES[i], Read(text, n)) ==> CommaLeft(RULES[i], Passed(text, n))
  {
    hide CommaLeft, Fit, Terminated, Apart, Exposed, Passed, Read;
    PassedStep(text, n);
    OtherComma(RULES[i], RULES[n], Passed(text, n));
  }

  lemma {:induction false} CommaAfterPasses(text: string, i: nat, n: nat)
    requires i < n <= |RULES| && Harmonious(RULES)
    ensures CommaLeft(RULES[i], Passed(text, n))
       <==> CommaAfterBearer(Read(text, i)) && forall m | i < m < n :: Exposed(RULES[i], Read(text, m))
    decreases n
  {
    hide CommaLeft, Exposed, CommaAfterBearer, Passed, Read, Harmonious;
    if n == i + 1 {
      OwnPass(text, i);
    } else {
      CommaAfterPasses(text, i, n - 1);
      OtherPass(text, i, n - 1);
    }
  }

  ghost predicate AllRulesStars(text: string) {
    forall i | 0 <= i < |RULES| :: AllStars(RULES[i], text)
  }

  lemma CommaAtEnd(text: string, i: nat)
    requires i < |RULES| && Harmonious(RULES)
    ensures CommaLeft(RULES[i], Passed(text, |RULES|)) <==> CommaStays(text, i)
  {
    hide CommaLeft, Passed, Harmonious, Exposed, CommaAfterBearer, Read;
    CommaAfterPasses(text, i, |RULES|);
  }

  lemma KnowsBearerAt(i: nat)
    requires i < |RULES| && RULES[i].KnowsBearer()
    ensures i == 3 || i == 4
  {
    assert "token="[0] != "auth="[0] && "token="[0] != "authorization="[0];
    assert "header="[0] != "auth="[0] && "header="[0] != "authorization="[0];
    assert "api_key="[1] != "auth="[1] && "api_key="[1] != "authorization="[1];
    assert "apikey="[1] != "auth="[1] && "apikey="[1] != "authorization="[1];
  }

  lemma OnlyBearerRules(rule: Rule, text: string, i: nat)
    requires i < |RULES| && rule == RULES[i] && CommaLeft(rule, text)
    ensures i == 3 || i == 4
  {
    hide KindOf, ValueAt, Lower, OccursAt;
    assert rule.KnowsBearer();
    KnowsBearerAt(i);
  }

  /** Pass by pass: after all of them every value behind every needle is exactly stars, or empty, unless for one of
      the two rules that know `Bearer` a comma follows a `Bearer` value in what its pass reads and no later pass hides
      it. */
  lemma EveryValueIsStars(text: string)
    ensures AllRulesStars(Passed(text, |RULES|)) <==> forall i | 3 <= i <= 4 :: !CommaStays(text, i)
  {
    hide Passed, AllStars, CommaLeft, CommaStays, AllCovered;
    RulesHarmonious();
    PassesCover(text, |RULES|);
    var masked := Passed(text, |RULES|);
    forall i | 0 <= i < |RULES|
      ensures AllStars(RULES[i], masked) <==> !CommaLeft(RULES[i], masked)
      ensures CommaLeft(RULES[i], masked) <==> CommaStays(text, i)
      ensures CommaStays(text, i) ==> i == 3 || i == 4
    {
      StarsWithoutComma(RULES[i], masked);
      CommaAtEnd(text, i);
      if CommaLeft(RULES[i], masked) { OnlyBearerRules(RULES[i], masked, i); }
    }
  }

  // ---------- A comma that stays ----------

  predicate Lacks(text: string, c: char) {
    forall i | 0 <= i < |text| :: LowerChar(text[i]) != c
  }

  lemma NotThere(rule: Rule, text: string, i: nat)
    requires i < |rule.Needle()| && Lacks(text, rule.Needle()[i])
    ensures Mask(rule, text) == text
  {
    var needle := rule.Needle();
    forall j: nat ensures !OccursAt(Lower(text), needle, j) {
      if OccursAt(Lower(text), needle, j) { LetterAt(text, needle, j, i); }
    }
    MaskNothing(rule, text);
  }

  const AUTH := Assignment("auth=")
  const BEARER_TEXT := "auth=Bearer a,b"
  const BEARER_MASKED := "auth=***,b"
  const BEARER_SEGMENT := Segment("auth=", Bearer, "Bearer a")

  lemma NoNeedleIn(text: string, needle: string)
    requires |text| < |needle|
    ensures Find(Lower(text), needle).None?
  {
  }

  lemma BearerSegment(rule: Rule, s: Segment)
    requires rule == Assignment("auth=") && s == Segment("auth=", Bearer, "Bearer a")
    ensures Admissible(rule, s, ",b")
  {
    assert Lower("auth=") == "auth=";
    assert OccursAt(Lower("auth="), "auth=", 0);
    assert Opening(Bearer) + ("Bearer a" + ",b") == "Bearer a,b";
    assert Lower("Bearer a,b")[..7] == "bearer ";
  }

  lemma BearerWellFormed()
    ensures AUTH.Needle() == "auth=" && WellFormed(AUTH, Parsed([BEARER_SEGMENT], ",b"))
  {
    hide Admissible, Find;
    var p := Parsed([BEARER_SEGMENT], ",b");
    BearerSegment(AUTH, BEARER_SEGMENT);
    assert Rest(p) == Parsed([], ",b") && Assemble(Parsed([], ",b")) == ",b";
    NoNeedleIn(",b", "auth=");
  }

  lemma NoSegments(tail: string)
    ensures Assemble(Parsed([], tail)) == tail && Assemble(Masked(Parsed([], tail))) == tail
  {
  }

  lemma BearerAssembles()
    ensures Assemble(Parsed([BEARER_SEGMENT], ",b")) == BEARER_TEXT
    ensures Assemble(Masked(Parsed([BEARER_SEGMENT], ",b"))) == BEARER_MASKED
  {
    var rest := Parsed([], ",b");
    MaskedCons(BEARER_SEGMENT, rest);
    assert Parsed([BEARER_SEGMENT], ",b").segments[1..] == [];
    assert [BEARER_SEGMENT] + rest.segments == [BEARER_SEGMENT];
    NoSegments(",b");
    hide Masked, Assemble;
    assert "auth=" + ("" + ("Bearer a" + ",b")) == BEARER_TEXT;
    assert "auth=" + ("" + ("***" + ",b")) == BEARER_MASKED;
  }

  /** The text, cut where the `Bearer` value ends. */
  lemma BearerParsed()
    ensures Parse(AUTH, BEARER_TEXT) == Parsed([BEARER_SEGMENT], ",b")
  {
    hide Parse, Assemble, WellFormed;
    BearerWellFormed();
    BearerAssembles();
    AssembleParses(AUTH, Parsed([BEARER_SEGMENT], ",b"));
  }

  lemma LettersMissing()
    ensures Lacks(BEARER_TEXT, 'k') && Lacks(BEARER_TEXT, '_') && Lacks(BEARER_TEXT, 'z')
    ensures Lacks(BEARER_MASKED, 'd') && Lacks(BEARER_MASKED, 'e')
  {
  }

  lemma NeedleLetters()
    ensures RULES[0].Needle()[2] == 'k' && RULES[1].Needle()[3] == '_' && RULES[2].Needle()[3] == 'k'
    ensures RULES[3].Needle()[7] == 'z' && RULES[5].Needle()[3] == 'd' && RULES[6].Needle()[1] == 'e'
  {
  }

  lemma FirstPasses()
    ensures Passed(BEARER_TEXT, 4) == BEARER_TEXT
  {
    hide Mask, Lacks;
    LettersMissing();
    NeedleLetters();
    NotThere(RULES[0], BEARER_TEXT, 2);
    NotThere(RULES[1], BEARER_TEXT, 3);
    NotThere(RULES[2], BEARER_TEXT, 3);
    NotThere(RULES[3], BEARER_TEXT, 7);
    PassedStep(BEARER_TEXT, 0);
    PassedStep(BEARER_TEXT, 1);
    PassedStep(BEARER_TEXT, 2);
    PassedStep(BEARER_TEXT, 3);
  }

  lemma LastPasses()
    requires Passed(BEARER_TEXT, 5) == BEARER_MASKED
    ensures Passed(BEARER_TEXT, |RULES|) == BEARER_MASKED
  {
    hide Mask, Lacks;
    LettersMissing();
    NeedleLetters();
    NotThere(RULES[5], BEARER_MASKED, 3);
    NotThere(RULES[6], BEARER_MASKED, 1);
    PassedStep(BEARER_TEXT, 5);
    PassedStep(BEARER_TEXT, 6);
  }

  lemma CommaIsThere()
    ensures CommaAfterBearer(Parsed([BEARER_SEGMENT], ",b"))
  {
    assert Assemble(Rest(Parsed([BEARER_SEGMENT], ",b"))) == ",b";
  }

  lemma CommaIsNotStars(masked: string)
    requires CommaLeft(RULES[4], masked)
    ensures !AllRulesStars(masked)
  {
    hide KindOf, ValueAt, Lower;
    var j: nat :| CommaAt(RULES[4], masked, j);
    assert !StarsAt(RULES[4], masked, j);
  }

  /** A text that keeps the comma: its only value is masked, and reads as the stars with the comma and what follows. */
  lemma CommaCanStay()
    ensures Passed("auth=Bearer a,b", |RULES|) == "auth=***,b"
    ensures !AllRulesStars("auth=***,b")
  {
    hide Passed, Parse, Assemble, Masked, AllRulesStars, Harmonious;
    FirstPasses();
    BearerParsed();
    BearerAssembles();
    PassedStep(BEARER_TEXT, 4);
    LastPasses();
    CommaIsThere();
    RulesHarmonious();
    OwnPass(BEARER_TEXT, 4);
    CommaIsNotStars(BEARER_MASKED);
  }

  // ---------- The passes in order ----------

  lemma PassedNone(text: string)
    ensures Passed(text, 0) == text
  {
  }

  /** `mask_token_values`: afterwards every one of the seven needles, wherever it stands in the text, has an empty value
      or exactly the stars behind it, but for a comma that the stars of a `Bearer` value have taken along; and says when
      there is none. */
  method MaskTokenValues(text: string) returns (masked: string)
    ensures masked == Passed(text, |RULES|)
    ensures forall i | 0 <= i < |RULES| :: AllCovered(RULES[i], masked)
    ensures AllRulesStars(masked) <==> forall i | 3 <= i <= 4 :: !CommaStays(text, i)
  {
    hide Mask, AllCovered, Harmonious, Passed, AllRulesStars, CommaStays;
    RulesHarmonious();
    masked := text;
    PassedNone(text);
    for i := 0 to |RULES| - 1
      invariant masked == Passed(text, i)
    {
      PassedStep(text, i);
      masked := MaskValues(RULES[i], masked);
    }
    PassedStep(text, |RULES| - 1);
    masked := MaskValues(BearerToken, masked);
    PassesCover(text, |RULES|);
    EveryValueIsStars(text);
  }
}
