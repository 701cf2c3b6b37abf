/** When every value becomes stars, read off the text before it is masked. */
module MaskingInput {
  import opened Common
  import opened Text
  import opened Masking
  import opened MaskingPipeline

  // ---------- A Bearer value that a comma ends ----------

  /** The first character that could end a `Bearer` value is a comma. */
  predicate CommaEnds(s: string) {
    var n := Extent(s, BearerEnd);
    n < |s| && s[n] == ','
  }

  ghost predicate BearerCommaAt(rule: Rule, text: string, j: nat) {
    && OccursAt(Lower(text), rule.Needle(), j)
    && var after := text[j + |rule.Needle()|..]; StartsBearer(after) && CommaEnds(after)
  }

  /** Somewhere in the text the needle has a `Bearer` value behind it that a comma ends. */
  ghost predicate HasBearerComma(rule: Rule, text: string) {
    exists j: nat :: BearerCommaAt(rule, text, j)
  }

  lemma NotFree(a: string, e: Ending)
    requires !Free(a, e)
    ensures Extent(a, e) < |a|
  {
    assert a[..|a|] == a;
  }

  lemma FreeConcat(a: string, b: string, e: Ending)
    requires Free(a, e) && Free(b, e)
    ensures Free(a + b, e)
  {
  }

  /** The first such character of a concatenation is that of its first part, if there is one. */
  lemma CommaEndsConcat(a: string, b: string)
    ensures CommaEnds(a + b) == if Free(a, BearerEnd) then CommaEnds(b) else CommaEnds(a)
  {
    hide Extent, Ends;
    if Free(a, BearerEnd) {
      var m := Extent(b, BearerEnd);
      TakeDrop(b, m);
      ConcatAssociates(a, b[..m], b[m..]);
      FreeConcat(a, b[..m], BearerEnd);
      FreeExtent(a + b[..m], b[m..], BearerEnd);
    } else {
      NotFree(a, BearerEnd);
      var m := Extent(a, BearerEnd);
      TakeDrop(a, m);
      ConcatAssociates(a[..m], a[m..], b);
      FreeExtent(a[..m], a[m..] + b, BearerEnd);
    }
  }

  /** Of the characters that end a `Bearer` value, a value of any other kind that is not quoted can hold only the
      comma. */
  lemma ValueEndsInComma(rule: Rule, kind: Kind, value: string)
    requires !kind.Quoted? && Free(value, EndOf(rule, kind)) && !Free(value, BearerEnd)
    ensures CommaEnds(value)
  {
    hide Extent;
    NotFree(value, BearerEnd);
    var n := Extent(value, BearerEnd);
    assert !Ends(EndOf(rule, kind), value[n]) && Ends(BearerEnd, value[n]);
  }

  lemma StarsEndNothing(stars: string)
    requires stars == "" || stars == "***"
    ensures Free(stars, BearerEnd)
  {
  }

  lemma QuoteEndsFirst(quote: char, b: string)
    requires StartsQuoted([quote])
    ensures !CommaEnds([quote] + b)
  {
    assert ([quote] + b)[0] == quote;
  }

  /** Masking the value puts no comma first that was not. */
  lemma ValueKeepsEnd(rule: Rule, s: Segment, rest: string, rest': string)
    requires Free(s.value, EndOf(rule, s.kind)) && Closes(rule, s.kind, Stars(s.kind, s.value), rest')
    requires CommaEnds(rest') ==> CommaEnds(rest)
    requires CommaEnds(Opening(s.kind) + (Stars(s.kind, s.value) + rest'))
    ensures CommaEnds(Opening(s.kind) + (s.value + rest))
  {
    hide CommaEnds, Free, Ends, EndOf;
    if s.kind.Quoted? {
      QuoteEndsFirst(s.kind.quote, Stars(s.kind, s.value) + rest');
      assert false;
    } else {
      var stars := Stars(s.kind, s.value);
      assert "" + (stars + rest') == stars + rest' && "" + (s.value + rest) == s.value + rest;
      StarsEndNothing(stars);
      CommaEndsConcat(stars, rest');
      CommaEndsConcat(s.value, rest);
      if !Free(s.value, BearerEnd) { ValueEndsInComma(rule, s.kind, s.value); }
    }
  }

  lemma EndBehind(k: string, now: string, was: string)
    requires CommaEnds(now) ==> CommaEnds(was)
    ensures CommaEnds(k + now) ==> CommaEnds(k + was)
  {
    hide CommaEnds, Free;
    CommaEndsConcat(k, now);
    CommaEndsConcat(k, was);
  }

  lemma SegmentKeepsEnd(rule: Rule, s: Segment, k: string, rest: string, rest': string)
    requires Admissible(rule, s, rest) && Closes(rule, s.kind, Stars(s.kind, s.value), rest')
    requires CommaEnds(rest') ==> CommaEnds(rest)
    ensures CommaEnds(k + (Opening(s.kind) + (Stars(s.kind, s.value) + rest')))
        ==> CommaEnds(k + (Opening(s.kind) + (s.value + rest)))
  {
    hide CommaEnds, Closes, Stars, Opening, Free, KindOf, Find, Lower, Rule.Needle;
    var now, was := Opening(s.kind) + (Stars(s.kind, s.value) + rest'), Opening(s.kind) + (s.value + rest);
    if CommaEnds(now) { ValueKeepsEnd(rule, s, rest, rest'); }
    EndBehind(k, now, was);
  }

  lemma {:induction false} MaskedKeepsEnd(rule: Rule, p: Parsed)
    requires rule.Needle() != "" && WellFormed(rule, p)
    ensures CommaEnds(Assemble(Masked(p))) ==> CommaEnds(Assemble(p))
    decreases |p.segments|
  {
    hide CommaEnds, Closes, Stars, Opening, Admissible, Lower, Find, Rule.Needle;
    if p.segments != [] {
      var s, was, rest := p.segments[0], Assemble(Rest(p)), Assemble(Masked(Rest(p)));
      MaskedKeepsEnd(rule, Rest(p));
      MaskedCons(s, Rest(p));
      assert [s] + Rest(p).segments == p.segments;
      MaskedStart(rule, Rest(p));
      MaskedCloses(rule, s, was, rest);
      SegmentKeepsEnd(rule, s, s.lead, was, rest);
    }
  }

  // ---------- A pass brings none about ----------

  lemma BearerCommaLater(rule: Rule, a: string, b: string, j: nat)
    requires BearerCommaAt(rule, b, j)
    ensures BearerCommaAt(rule, a + b, |a| + j)
  {
    hide StartsBearer, CommaEnds, Lower, OccursAt, Rule.Needle;
    var n := |rule.Needle()|;
    TakeOfConcat(a, b);
    OccursLater(a + b, rule.Needle(), |a|, j);
    DropDrop(a + b, |a|, j + n);
  }

  lemma BearerCommaEarlier(rule: Rule, a: string, b: string, j: nat)
    requires |a| <= j && BearerCommaAt(rule, a + b, j)
    ensures BearerCommaAt(rule, b, j - |a|)
  {
    hide StartsBearer, CommaEnds, Lower, OccursAt, Rule.Needle;
    var n := |rule.Needle()|;
    OccursInSuffix(a, b, rule.Needle(), j);
    OccursWithin(b, rule.Needle(), j - |a|);
    assert (a + b)[j + n..] == b[j - |a| + n..];
  }

  /** An occurrence of another needle before a value that is masked. */
  lemma BearerCommaInLead(other: Rule, rule: Rule, s: Segment, rest: string, rest': string, j: nat)
    requires Terminated(other.Needle()) && Terminated(rule.Needle()) && Apart(other.Needle(), rule.Needle())
    requires Admissible(rule, s, rest) && Closes(rule, s.kind, Stars(s.kind, s.value), rest')
    requires CommaEnds(rest') ==> CommaEnds(rest)
    requires j + |other.Needle()| <= |s.lead|
    requires BearerCommaAt(other, s.lead + (Opening(s.kind) + (Stars(s.kind, s.value) + rest')), j)
    ensures BearerCommaAt(other, s.lead + (Opening(s.kind) + (s.value + rest)), j)
  {
    hide CommaEnds, StartsBearer, Opening, Stars, Closes, Terminated, Apart, Lower, OccursAt, Rule.Needle, Admissible;
    var e := j + |other.Needle()|;
    var was, now := Opening(s.kind) + (s.value + rest), Opening(s.kind) + (Stars(s.kind, s.value) + rest');
    NeedleInLead(rule, s, rest);
    OccursInPrefix(s.lead, now, other.Needle(), j);
    EndsBefore(other.Needle(), rule.Needle(), s.lead, j);
    OccursExtends(s.lead, was, other.Needle(), j);
    LeadEnds(rule, s.lead, e);
    DropAcross(s.lead, was, e);
    DropAcross(s.lead, now, e);
    SameBearer(s.lead[e..], was, now);
    SegmentKeepsEnd(rule, s, s.lead[e..], rest, rest');
  }

  lemma BearerCommaOccurs(rule: Rule, text: string, j: nat)
    requires BearerCommaAt(rule, text, j)
    ensures OccursAt(Lower(text), rule.Needle(), j)
  {
    hide Lower, OccursAt, Rule.Needle, StartsBearer, CommaEnds;
  }

  lemma SegmentBringsNone(other: Rule, rule: Rule, s: Segment, rest: string, rest': string)
    requires Terminated(other.Needle()) && Terminated(rule.Needle()) && Apart(other.Needle(), rule.Needle())
    requires Admissible(rule, s, rest) && Closes(rule, s.kind, Stars(s.kind, s.value), rest')
    requires CommaEnds(rest') ==> CommaEnds(rest)
    requires HasBearerComma(other, rest') ==> HasBearerComma(other, rest)
    requires HasBearerComma(other, s.lead + (Opening(s.kind) + (Stars(s.kind, s.value) + rest')))
    ensures HasBearerComma(other, s.lead + (Opening(s.kind) + (s.value + rest)))
  {
    hide BearerCommaAt, CommaEnds, Opening, Stars, Closes, Terminated, Apart, Lower, OccursAt, Rule.Needle, Admissible;
    var stars := Stars(s.kind, s.value);
    var now, before, ahead := Opening(s.kind) + (stars + rest'), s.lead + Opening(s.kind) + stars,
                              s.lead + Opening(s.kind) + s.value;
    assert s.lead + now == before + rest';
    assert s.lead + (Opening(s.kind) + (s.value + rest)) == ahead + rest;
    var j: nat :| BearerCommaAt(other, s.lead + now, j);
    NeedleInLead(rule, s, rest);
    BearerCommaOccurs(other, s.lead + now, j);
    OutsideValue(other.Needle(), rule, s, stars, rest', j);
    if j + |other.Needle()| <= |s.lead| {
      BearerCommaInLead(other, rule, s, rest, rest', j);
    } else {
      BearerCommaEarlier(other, before, rest', j);
      var i: nat :| BearerCommaAt(other, rest, i);
      BearerCommaLater(other, ahead, rest, i);
    }
  }

  lemma {:induction false} PassBringsNone(other: Rule, rule: Rule, p: Parsed)
    requires Terminated(other.Needle()) && Terminated(rule.Needle()) && Apart(other.Needle(), rule.Needle())
    requires WellFormed(rule, p) && HasBearerComma(other, Assemble(Masked(p)))
    ensures HasBearerComma(other, Assemble(p))
    decreases |p.segments|
  {
    hide HasBearerComma, CommaEnds, Stars, Opening, Closes, Lower, Find, Admissible, KindOf, Terminated, Apart;
    hide Rule.Needle;
    if p.segments != [] {
      var s, was, rest := p.segments[0], Assemble(Rest(p)), Assemble(Masked(Rest(p)));
      NeedleIsThere(rule);
      if HasBearerComma(other, rest) { PassBringsNone(other, rule, Rest(p)); }
      MaskedKeepsEnd(rule, Rest(p));
      MaskedCons(s, Rest(p));
      assert [s] + Rest(p).segments == p.segments;
      MaskedStart(rule, Rest(p));
      MaskedCloses(rule, s, was, rest);
      SegmentBringsNone(other, rule, s, was, rest);
    }
  }

  // ---------- Without one in the text, every value becomes stars ----------

  lemma SegmentHasComma(rule: Rule, s: Segment, rest: string)
    requires Admissible(rule, s, rest) && CommaNext(s, rest)
    ensures HasBearerComma(rule, s.lead + (Opening(s.kind) + (s.value + rest)))
  {
    hide Lower, Find, StartsBearer, Extent, Free;
    var after := Opening(s.kind) + (s.value + rest);
    assert after == s.value + rest;
    FindInPrefix(s.lead, after, rule.Needle());
    TakeOfConcat(s.lead, after);
    FreeExtent(s.value, rest, BearerEnd);
    assert StartsBearer(after) && CommaEnds(after);
    hide CommaEnds, KindOf;
    assert BearerCommaAt(rule, s.lead + after, |s.lead| - |rule.Needle()|);
  }

  lemma {:induction false} CommaIsInText(rule: Rule, p: Parsed)
    requires WellFormed(rule, p) && CommaAfterBearer(p)
    ensures HasBearerComma(rule, Assemble(p))
    decreases |p.segments|
  {
    hide BearerCommaAt, CommaNext, Opening, Lower, Find, Admissible, Rule.Needle;
    var s, rest := p.segments[0], Assemble(Rest(p));
    if CommaNext(s, rest) {
      SegmentHasComma(rule, s, rest);
    } else {
      CommaIsInText(rule, Rest(p));
      var j: nat :| BearerCommaAt(rule, rest, j);
      BearerCommaLater(rule, s.lead + Opening(s.kind) + s.value, rest, j);
      assert s.lead + Opening(s.kind) + s.value + rest == s.lead + (Opening(s.kind) + (s.value + rest));
    }
  }

  lemma PassMeetsNone(text: string, i: nat, n: nat)
    requires i < |RULES| && n < |RULES| && i != n && Harmonious(RULES)
    requires HasBearerComma(RULES[i], Passed(text, n + 1))
    ensures HasBearerComma(RULES[i], Passed(text, n))
  {
    hide HasBearerComma, Fit, Terminated, Apart, Passed, RULES;
    PassedStep(text, n);
    ParseAssembles(RULES[n], Passed(text, n));
    PassBringsNone(RULES[i], RULES[n], Parse(RULES[n], Passed(text, n)));
  }

  lemma {:induction false} EarlierPassesBringNone(text: string, i: nat, n: nat)
    requires n <= i < |RULES| && Harmonious(RULES) && HasBearerComma(RULES[i], Passed(text, n))
    ensures HasBearerComma(RULES[i], text)
    decreases n
  {
    hide *;
    if n == 0 {
      PassedNone(text);
    } else {
      PassMeetsNone(text, i, n - 1);
      EarlierPassesBringNone(text, i, n - 1);
    }
  }

  /** A comma that stays comes of one that ended a `Bearer` value in the text. */
  lemma StayingCommaIsInText(text: string, i: nat)
    requires i < |RULES| && Harmonious(RULES) && CommaStays(text, i)
    ensures HasBearerComma(RULES[i], text)
  {
    hide HasBearerComma, Harmonious, Passed, Exposed, CommaAfterBearer, RULES;
    PassedStep(text, i);
    ParseAssembles(RULES[i], Passed(text, i));
    CommaIsInText(RULES[i], Parse(RULES[i], Passed(text, i)));
    EarlierPassesBringNone(text, i, i);
  }

  /** If no `authorization=` and no `auth=` of the text has a `Bearer` value behind it that a comma ends, then after all
      passes every value behind every needle is empty or exactly stars. */
  lemma StarsByInput(text: string)
    requires forall i | 3 <= i <= 4 :: !HasBearerComma(RULES[i], text)
    ensures AllRulesStars(Passed(text, |RULES|))
  {
    hide HasBearerComma, Harmonious, Passed, AllRulesStars, CommaStays;
    RulesHarmonious();
    EveryValueIsStars(text);
    forall i | 3 <= i <= 4 ensures !CommaStays(text, i) {
      if CommaStays(text, i) { StayingCommaIsInText(text, i); }
    }
  }

  // ---------- Exactly then, where no other needle meddles ----------

  ghost predicate Holds(text: string, needle: string) {
    exists j: nat :: OccursAt(Lower(text), needle, j)
  }

  lemma HoldsUnlessNone(text: string, needle: string)
    ensures Holds(text, needle) <==> Find(Lower(text), needle).Some?
  {
    hide Lower, OccursAt;
  }

  lemma HoldsSuffix(a: string, b: string, needle: string)
    requires Holds(b, needle)
    ensures Holds(a + b, needle)
  {
    hide OccursAt, Lower;
    var j: nat :| OccursAt(Lower(b), needle, j);
    TakeOfConcat(a, b);
    OccursLater(a + b, needle, |a|, j);
  }

  lemma HoldsPrefix(a: string, b: string, needle: string)
    requires Holds(a, needle)
    ensures Holds(a + b, needle)
  {
    hide OccursAt, Lower;
    var j: nat :| OccursAt(Lower(a), needle, j);
    OccursExtends(a, b, needle, j);
  }

  /** A needle in a text one of whose values was masked stands before the value or after it. */
  lemma HoldsAround(needle: string, rule: Rule, s: Segment, rest: string, rest': string)
    requires Terminated(needle) && Terminated(rule.Needle())
    requires Admissible(rule, s, rest) && Closes(rule, s.kind, Stars(s.kind, s.value), rest')
    requires Holds(s.lead + (Opening(s.kind) + (Stars(s.kind, s.value) + rest')), needle)
    ensures Holds(s.lead, needle) || Holds(rest', needle)
  {
    hide OccursAt, Lower, Opening, Stars, Closes, Terminated, Rule.Needle, Admissible;
    var stars := Stars(s.kind, s.value);
    var now, before := Opening(s.kind) + (stars + rest'), s.lead + Opening(s.kind) + stars;
    assert s.lead + now == before + rest';
    var j: nat :| OccursAt(Lower(s.lead + now), needle, j);
    NeedleInLead(rule, s, rest);
    OutsideValue(needle, rule, s, stars, rest', j);
    if j + |needle| <= |s.lead| {
      OccursInPrefix(s.lead, now, needle, j);
    } else {
      OccursInSuffix(before, rest', needle, j);
    }
  }

  /** Masking brings no other needle about. */
  lemma {:induction false} NoNewNeedle(needle: string, rule: Rule, p: Parsed)
    requires Terminated(needle) && Terminated(rule.Needle())
    requires WellFormed(rule, p) && Holds(Assemble(Masked(p)), needle)
    ensures Holds(Assemble(p), needle)
    decreases |p.segments|
  {
    hide Holds, Stars, Opening, Closes, Lower, Find, Admissible, KindOf, Terminated, Rule.Needle;
    if p.segments != [] {
      var s, was, rest := p.segments[0], Assemble(Rest(p)), Assemble(Masked(Rest(p)));
      assert Admissible(rule, s, was) && WellFormed(rule, Rest(p));
      assert Assemble(p) == s.lead + (Opening(s.kind) + (s.value + was));
      assert [s] + Rest(p).segments == p.segments && p == Parsed(p.segments, Rest(p).tail);
      assert |Rest(p).segments| < |p.segments|;
      hide *;
      NeedleIsThere(rule);
      MaskedCons(s, Rest(p));
      MaskedStart(rule, Rest(p));
      MaskedCloses(rule, s, was, rest);
      HoldsAround(needle, rule, s, was, rest);
      if Holds(s.lead, needle) {
        HoldsPrefix(s.lead, Opening(s.kind) + (s.value + was), needle);
      } else {
        NoNewNeedle(needle, rule, Rest(p));
        HoldsSuffix(s.lead + Opening(s.kind) + s.value, was, needle);
        ConcatAssociates(Opening(s.kind), s.value, was);
        ConcatAssociates(s.lead, Opening(s.kind), s.value);
        ConcatAssociates(s.lead, Opening(s.kind) + s.value, was);
      }
    }
  }

  /** `Bearer` stands nowhere in front of a needle, unless in a value. */
  ghost predicate NoBearerInLeads(p: Parsed)
    decreases |p.segments|
  {
    p.segments != [] ==> !Holds(p.segments[0].lead, "bearer ") && NoBearerInLeads(Rest(p))
  }

  /** No `Bearer` stands in front of an occurrence of the needle. */
  ghost predicate BearerAfter(rule: Rule, text: string) {
    forall b: nat, j: nat | OccursAt(Lower(text), "bearer ", b) && OccursAt(Lower(text), rule.Needle(), j) :: j < b
  }

  /** The only needle of an assignment in the text is that of rule `i`, and no `Bearer` stands in front of it. */
  ghost predicate Lone(text: string, i: nat)
    requires i < |RULES| && RULES[i].Needle() != ""
  {
    && (forall n | 0 <= n < 6 && n != i :: !Holds(text, RULES[n].Needle()))
    && NoBearerInLeads(Parse(RULES[i], text))
  }

  lemma BearerAfterSegment(rule: Rule, s: Segment, rest: string, rest': string)
    requires Terminated("bearer ") && Terminated(rule.Needle())
    requires Admissible(rule, s, rest) && Closes(rule, s.kind, Stars(s.kind, s.value), rest')
    requires !Holds(s.lead, "bearer ") && BearerAfter(rule, rest')
    ensures BearerAfter(rule, s.lead + (Opening(s.kind) + (Stars(s.kind, s.value) + rest')))
  {
    hide OccursAt, Lower, Opening, Stars, Closes, Terminated, Rule.Needle, Admissible;
    var stars := Stars(s.kind, s.value);
    var now, before := Opening(s.kind) + (stars + rest'), s.lead + Opening(s.kind) + stars;
    var text := s.lead + now;
    assert text == before + rest';
    NeedleInLead(rule, s, rest);
    forall b: nat, j: nat | OccursAt(Lower(text), "bearer ", b) && OccursAt(Lower(text), rule.Needle(), j)
      ensures j < b
    {
      OutsideValue("bearer ", rule, s, stars, rest', b);
      if b + 7 <= |s.lead| {
        OccursInPrefix(s.lead, now, "bearer ", b);
        assert false;
      }
      OutsideValue(rule.Needle(), rule, s, stars, rest', j);
      if |before| <= j {
        OccursInSuffix(before, rest', "bearer ", b);
        OccursInSuffix(before, rest', rule.Needle(), j);
      }
    }
  }

  lemma NothingToFollow(rule: Rule, text: string)
    requires Find(Lower(text), rule.Needle()).None?
    ensures BearerAfter(rule, text)
  {
    hide Lower, Rule.Needle;
  }

  lemma {:induction false} BearerAfterMasking(rule: Rule, p: Parsed)
    requires Terminated("bearer ") && Terminated(rule.Needle())
    requires WellFormed(rule, p) && NoBearerInLeads(p)
    ensures BearerAfter(rule, Assemble(Masked(p)))
    decreases |p.segments|
  {
    hide BearerAfter, Holds, Stars, Opening, Closes, Lower, Find, Admissible, KindOf, Terminated, Rule.Needle;
    if p.segments == [] {
      NothingToFollow(rule, p.tail);
    } else {
      var s, was, rest := p.segments[0], Assemble(Rest(p)), Assemble(Masked(Rest(p)));
      NeedleIsThere(rule);
      BearerAfterMasking(rule, Rest(p));
      MaskedCons(s, Rest(p));
      assert [s] + Rest(p).segments == p.segments;
      MaskedStart(rule, Rest(p));
      MaskedCloses(rule, s, was, rest);
      BearerAfterSegment(rule, s, was, rest);
    }
  }

  /** A needle that starts in front of `Bearer` ends there. */
  lemma EndsInLead(rule: Rule, lead: string, after: string, j: nat)
    requires Terminated(rule.Needle()) && 7 <= |lead| && OccursAt(Lower(lead), "bearer ", |lead| - 7)
    requires OccursAt(Lower(lead + after), rule.Needle(), j) && j < |lead| - 7
    ensures j + |rule.Needle()| <= |lead|
  {
    hide Lower, OccursAt, Rule.Needle;
    if |lead| < j + |rule.Needle()| {
      LetterAt(lead, "bearer ", |lead| - 7, 6);
      LetterAt(lead + after, rule.Needle(), j, |lead| - 1 - j);
    }
  }

  lemma CommaBeforeBearer(rule: Rule, s: Segment, rest: string)
    requires Terminated(rule.Needle()) && Terminated("bearer ") && Apart(rule.Needle(), "bearer ")
    requires Admissible(BearerToken, s, rest)
    requires var text := s.lead + (Opening(s.kind) + (s.value + rest)); BearerAfter(rule, text) && CommaLeft(rule, text)
    ensures CommaLeft(rule, s.lead)
  {
    hide CommaAt, Terminated, Apart, Lower, OccursAt, Opening, Admissible;
    var after := Opening(s.kind) + (s.value + rest);
    NeedleInLead(BearerToken, s, rest);
    assert BearerToken.Needle() == "bearer " && |BearerToken.Needle()| == 7;
    hide Rule.Needle;
    var j: nat :| CommaAt(rule, s.lead + after, j);
    OccursExtends(s.lead, after, "bearer ", |s.lead| - 7);
    OccursForComma(rule, s.lead + after, j);
    EndsInLead(rule, s.lead, after, j);
    CommaInLead(rule, BearerToken, s.lead, after, j);
  }

  /** A comma in front of all `Bearer` is outside the values of the last pass. */
  lemma CommaIsExposed(rule: Rule, text: string)
    requires Terminated(rule.Needle()) && Terminated("bearer ") && Apart(rule.Needle(), "bearer ")
    requires BearerAfter(rule, text) && CommaLeft(rule, text)
    ensures Exposed(rule, Parse(BearerToken, text))
  {
    hide BearerAfter, CommaLeft, Terminated, Apart, Parse, Admissible, Opening, Find, Lower;
    var p := Parse(BearerToken, text);
    ParseAssembles(BearerToken, text);
    if p.segments != [] {
      CommaBeforeBearer(rule, p.segments[0], Assemble(Rest(p)));
    }
  }

  // ---------- The passes over a text with one needle ----------

  lemma RuleCount()
    ensures |RULES| == 7 && RULES[6] == BearerToken
  {
  }

  lemma NeedleNotHeld(rule: Rule, text: string)
    requires rule.Needle() != "" && !Holds(text, rule.Needle())
    ensures Mask(rule, text) == text
  {
    hide Mask, Holds;
    HoldsUnlessNone(text, rule.Needle());
    MaskNothing(rule, text);
  }

  lemma MaskUnfolds(rule: Rule, text: string)
    requires rule.Needle() != ""
    ensures Mask(rule, text) == Assemble(Masked(Parse(rule, text)))
  {
  }

  lemma AloneIn(text: string, i: nat, n: nat)
    requires i < 6 && n < 6 && n != i && Harmonious(RULES) && RULES[i].Needle() != "" && Lone(text, i)
    ensures RULES[n].Needle() != "" && Mask(RULES[n], text) == text
    ensures Mask(RULES[n], Mask(RULES[i], text)) == Mask(RULES[i], text)
  {
    RuleCount();
    hide Mask, Holds, Fit, Terminated, Apart, NoBearerInLeads, RULES;
    NeedleIsThere(RULES[n]);
    NeedleNotHeld(RULES[n], text);
    ParseAssembles(RULES[i], text);
    if Holds(Mask(RULES[i], text), RULES[n].Needle()) {
      MaskUnfolds(RULES[i], text);
      NoNewNeedle(RULES[n].Needle(), RULES[i], Parse(RULES[i], text));
    }
    NeedleNotHeld(RULES[n], Mask(RULES[i], text));
  }

  lemma {:induction false} BeforeOwnPass(text: string, i: nat, n: nat)
    requires n <= i < 6 && Harmonious(RULES) && RULES[i].Needle() != "" && Lone(text, i)
    ensures n <= |RULES| && Passed(text, n) == text
    decreases n
  {
    RuleCount();
    hide *;
    if n == 0 {
      PassedNone(text);
    } else {
      BeforeOwnPass(text, i, n - 1);
      PassedStep(text, n - 1);
      AloneIn(text, i, n - 1);
    }
  }

  lemma {:induction false} AfterOwnPass(text: string, i: nat, n: nat)
    requires i < n <= 6 && Harmonious(RULES) && RULES[i].Needle() != "" && Lone(text, i)
    ensures n <= |RULES| && Passed(text, n) == Mask(RULES[i], text)
    decreases n
  {
    RuleCount();
    hide *;
    PassedStep(text, n - 1);
    if n == i + 1 {
      BeforeOwnPass(text, i, i);
    } else {
      AfterOwnPass(text, i, n - 1);
      AloneIn(text, i, n - 1);
    }
  }

  lemma LoneBearer(text: string, i: nat)
    requires i < 6 && Harmonious(RULES) && RULES[i].Needle() != "" && Lone(text, i)
    requires CommaLeft(RULES[i], Mask(RULES[i], text))
    ensures Exposed(RULES[i], Parse(BearerToken, Mask(RULES[i], text)))
  {
    RuleCount();
    assert BearerToken.Needle() == "bearer ";
    hide Mask, CommaLeft, Exposed, RULES, Terminated, Apart, Fit, NoBearerInLeads, BearerAfter, Rule.Needle;
    ParseAssembles(RULES[i], text);
    MaskUnfolds(RULES[i], text);
    BearerAfterMasking(RULES[i], Parse(RULES[i], text));
    CommaIsExposed(RULES[i], Mask(RULES[i], text));
  }

  /** In a text with one needle, its pass reads the text itself, and the comma it leaves stays. */
  lemma LoneCommaStays(text: string, i: nat)
    requires i < 6 && Harmonious(RULES) && RULES[i].Needle() != "" && Lone(text, i)
    ensures i < |RULES| && (CommaStays(text, i) <==> CommaAfterBearer(Parse(RULES[i], text)))
  {
    RuleCount();
    hide Lone, Mask, Passed, CommaLeft, CommaAfterBearer, Exposed, RULES, Terminated, Apart, Fit, Read;
    BeforeOwnPass(text, i, i);
    PassedStep(text, i);
    if CommaAfterBearer(Parse(RULES[i], text)) {
      OwnComma(RULES[i], text);
      AfterOwnPass(text, i, 6);
      PassedStep(text, 6);
      LoneBearer(text, i);
      OtherPass(text, i, 6);
      CommaAtEnd(text, i);
    }
  }

  lemma OtherHasNone(rule: Rule, text: string)
    requires !Holds(text, rule.Needle())
    ensures !HasBearerComma(rule, text)
  {
    hide Lower, OccursAt, StartsBearer, CommaEnds, Rule.Needle;
  }

  /** In a text whose only needle is `authorization=` or `auth=`, with no `Bearer` in front of one, every value becomes
      stars exactly if no comma follows a `Bearer` value. */
  lemma StarsExactly(text: string, i: nat)
    requires 3 <= i <= 4 && RULES[i].Needle() != "" && Lone(text, i)
    ensures AllRulesStars(Passed(text, |RULES|)) <==> !CommaAfterBearer(Parse(RULES[i], text))
  {
    hide HasBearerComma, Harmonious, Passed, AllRulesStars, CommaStays, NoBearerInLeads, Holds, CommaAfterBearer;
    RulesHarmonious();
    EveryValueIsStars(text);
    LoneCommaStays(text, i);
    var n := 7 - i;
    OtherHasNone(RULES[n], text);
    if CommaStays(text, n) { StayingCommaIsInText(text, n); }
  }

  // ---------- A comma that goes ----------

  const TWICE := "auth=auth=Bearer a,b"
  const TWICE_SEGMENT := Segment("auth=", Bare, "auth=Bearer")

  lemma TwiceSpelled()
    ensures TWICE == "auth=" + ("" + ("auth=Bearer" + " a,b")) && TWICE == "auth=" + BEARER_TEXT
  {
  }

  lemma AuthFound()
    ensures Find(Lower("auth="), "auth=") == Some(0)
  {
    assert Lower("auth=") == "auth=";
    assert OccursAt(Lower("auth="), "auth=", 0);
  }

  lemma TwiceKind(rule: Rule)
    requires rule == Assignment("auth=")
    ensures KindOf(rule, "" + ("auth=Bearer" + " a,b")) == Bare
  {
    hide StartsBearer;
    var after := "" + ("auth=Bearer" + " a,b");
    assert after[0] == 'a';
    NotBearer(after);
  }

  lemma TwiceSegment(rule: Rule, s: Segment)
    requires rule == Assignment("auth=") && s == Segment("auth=", Bare, "auth=Bearer")
    ensures Admissible(rule, s, " a,b")
  {
    hide KindOf, Lower, Find;
    AuthFound();
    TwiceKind(rule);
    assert Opening(Bare) == "";
  }

  lemma TwiceWellFormed()
    ensures AUTH.Needle() == "auth=" && WellFormed(AUTH, Parsed([TWICE_SEGMENT], " a,b"))
  {
    hide Admissible, Find;
    var p := Parsed([TWICE_SEGMENT], " a,b");
    TwiceSegment(AUTH, TWICE_SEGMENT);
    assert Rest(p) == Parsed([], " a,b") && Assemble(Rest(p)) == " a,b";
    NoNeedleIn(" a,b", "auth=");
  }

  lemma TwiceAssembles()
    ensures Assemble(Parsed([TWICE_SEGMENT], " a,b")) == TWICE
  {
    var p := Parsed([TWICE_SEGMENT], " a,b");
    assert Parsed(p.segments[1..], p.tail) == Parsed([], " a,b");
    NoSegments(" a,b");
    TwiceSpelled();
  }

  /** The value of the first needle takes in the second one, up to the blank. */
  lemma TwiceParsed()
    ensures Parse(AUTH, TWICE) == Parsed([TWICE_SEGMENT], " a,b")
  {
    hide *;
    TwiceWellFormed();
    TwiceAssembles();
    assert "auth=" != "";
    AssembleParses(AUTH, Parsed([TWICE_SEGMENT], " a,b"));
  }

  lemma LettersMissingTwice()
    ensures Lacks(TWICE, 'k') && Lacks(TWICE, '_') && Lacks(TWICE, 'z') && Lacks(TWICE, 'd')
  {
  }

  lemma LackingLetter(text: string, needle: string, i: nat)
    requires i < |needle| && Lacks(text, needle[i])
    ensures !Holds(text, needle)
  {
    hide Lower, OccursAt;
    forall j: nat ensures !OccursAt(Lower(text), needle, j) {
      if OccursAt(Lower(text), needle, j) { LetterAt(text, needle, j, i); }
    }
  }

  lemma TwiceIsLone()
    ensures RULES[4] == AUTH && AUTH.Needle() != "" && Lone(TWICE, 4)
  {
    hide Lacks, Holds, Parse;
    LettersMissingTwice();
    NeedleLetters();
    LackingLetter(TWICE, RULES[0].Needle(), 2);
    LackingLetter(TWICE, RULES[1].Needle(), 3);
    LackingLetter(TWICE, RULES[2].Needle(), 3);
    LackingLetter(TWICE, RULES[3].Needle(), 7);
    LackingLetter(TWICE, RULES[5].Needle(), 3);
    TwiceParsed();
    NoNeedleIn("auth=", "bearer ");
    HoldsUnlessNone("auth=", "bearer ");
    assert NoBearerInLeads(Rest(Parsed([TWICE_SEGMENT], " a,b")));
    forall n | 0 <= n < 6 && n != 4 ensures !Holds(TWICE, RULES[n].Needle()) {
      if n == 0 {} else if n == 1 {} else if n == 2 {} else if n == 3 {} else {}
    }
  }

  lemma OneSegment(s: Segment, tail: string)
    ensures Assemble(Parsed([s], tail)) == s.lead + (Opening(s.kind) + (s.value + tail))
  {
    assert Parsed([s], tail).segments[1..] == [];
  }

  lemma BearerCommaInTwice()
    ensures HasBearerComma(AUTH, TWICE)
  {
    hide Admissible, BearerCommaAt, Assemble;
    BearerSegment(AUTH, BEARER_SEGMENT);
    SegmentHasComma(AUTH, BEARER_SEGMENT, ",b");
    OneSegment(BEARER_SEGMENT, ",b");
    BearerAssembles();
    TwiceSpelled();
    var j: nat :| BearerCommaAt(AUTH, BEARER_TEXT, j);
    BearerCommaLater(AUTH, "auth=", BEARER_TEXT, j);
  }

  /** Where needles meddle the condition on the text is not needed: here a comma ends a `Bearer` value, and every value
      becomes stars all the same. */
  lemma CommaCanGo()
    ensures HasBearerComma(RULES[4], TWICE) && AllRulesStars(Passed(TWICE, |RULES|))
  {
    hide Lone, Passed, AllRulesStars, Parse, HasBearerComma;
    BearerCommaInTwice();
    TwiceIsLone();
    StarsExactly(TWICE, 4);
    TwiceParsed();
    assert !CommaAfterBearer(Parsed([TWICE_SEGMENT], " a,b"));
  }
}
