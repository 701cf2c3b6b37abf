/** Ordering version directory names, and listing them newest first. */
module Versions {
  import opened Common
  import opened Text

  // ---------- Segments ----------

  const U64_MAX: nat := 0xFFFF_FFFF_FFFF_FFFF

  predicate IsDigits(s: string) {
    s != "" && forall i | 0 <= i < |s| :: '0' <= s[i] <= '9'
  }

  function DigitsValue(s: string): nat
    requires forall i | 0 <= i < |s| :: '0' <= s[i] <= '9'
  {
    if s == "" then 0
    else 10 * DigitsValue(s[..|s| - 1]) + (s[|s| - 1] as int - '0' as int)
  }

  /** `parse::<u64>`: digits with at most one plus sign in front. */
  function ParseU64(s: string): Option<nat> {
    var digits := if s != "" && s[0] == '+' then s[1..] else s;
    if IsDigits(digits) && DigitsValue(digits) <= U64_MAX then Some(DigitsValue(digits)) else None
  }

  predicate Numeric(s: string) {
    ParseU64(s).Some?
  }

  function CompareNat(x: nat, y: nat): Ordering {
    if x < y then Less else if x == y then Equal else Greater
  }

  function CompareSegments(x: string, y: string): Ordering {
    if Numeric(x) && Numeric(y) then CompareNat(ParseU64(x).value, ParseU64(y).value)
    else CompareText(x, y)
  }

  function TrimVersionMark(name: string): string {
    if name != "" && (name[0] == 'v' || name[0] == 'V') then TrimVersionMark(name[1..]) else name
  }

  function Segments(name: string): seq<string> {
    Split(TrimVersionMark(name), ".")
  }

  function At(segments: seq<string>, i: nat): string {
    if i < |segments| then segments[i] else "0"
  }

  function Max(x: nat, y: nat): nat {
    if x < y then y else x
  }

  // ---------- How names are read ----------

  /** The decimal numeral of a number. */
  function Numeral(n: nat): (s: string)
    ensures s != "" && forall c | c in s :: '0' <= c <= '9'
  {
    var digit := ['0' + (n % 10) as char];
    if n < 10 then digit else Numeral(n / 10) + digit
  }

  lemma NumeralUnfolds(n: nat)
    ensures var most := if n < 10 then "" else Numeral(n / 10);
            Numeral(n) == most + ['0' + (n % 10) as char]
  {
  }

  lemma DigitChar(d: nat)
    requires d < 10
    ensures var c := '0' + d as char; '0' <= c <= '9' && c as int - '0' as int == d
  {
  }

  lemma AllDigits(s: string)
    requires s != "" && forall c | c in s :: '0' <= c <= '9'
    ensures IsDigits(s)
  {
    assert forall i | 0 <= i < |s| :: s[i] in s;
  }

  lemma DigitAppended(s: string, c: char)
    requires '0' <= c <= '9' && forall i | 0 <= i < |s| :: '0' <= s[i] <= '9'
    ensures (forall i | 0 <= i < |s + [c]| :: '0' <= (s + [c])[i] <= '9')
         && DigitsValue(s + [c]) == 10 * DigitsValue(s) + (c as int - '0' as int)
  {
    assert (s + [c])[..|s|] == s;
  }

  lemma {:induction false} NumeralValue(n: nat)
    ensures IsDigits(Numeral(n)) && DigitsValue(Numeral(n)) == n
  {
    NumeralUnfolds(n);
    DigitChar(n % 10);
    AllDigits(Numeral(n));
    assert DigitsValue("") == 0;
    hide Numeral, DigitsValue;
    if n < 10 {
      DigitAppended("", '0' + (n % 10) as char);
    } else {
      NumeralValue(n / 10);
      DigitAppended(Numeral(n / 10), '0' + (n % 10) as char);
    }
  }

  /** A numeral reads as its number if that fits into 64 bits, also behind a plus sign; and nothing but digits behind at
      most one plus sign is a number. */
  lemma NumeralsRead(n: nat, s: string)
    ensures ParseU64(Numeral(n)) == if n < 0x1_0000_0000_0000_0000 then Some(n) else None
    ensures ParseU64("+" + Numeral(n)) == ParseU64(Numeral(n))
    ensures ParseU64(s).Some? ==>
              s != "" && s != "+" && forall i | 0 <= i < |s| :: '0' <= s[i] <= '9' || (i == 0 && s[i] == '+')
  {
    NumeralValue(n);
    assert Numeral(n)[0] in Numeral(n);
    assert ("+" + Numeral(n))[1..] == Numeral(n);
    hide DigitsValue, Numeral;
  }

  /** Leading `v` and `V` do not count, however many; the rest is read between its dots. */
  lemma NameReads(mark: char, name: string)
    ensures mark == 'v' || mark == 'V' ==> Segments([mark] + name) == Segments(name)
    ensures name == "" || (name[0] != 'v' && name[0] != 'V') ==>
              Join(Segments(name), ".") == name && forall segment | segment in Segments(name) :: '.' !in segment
  {
    assert ([mark] + name)[1..] == name;
    SplitJoins(name, '.');
  }

  // ---------- Comparing names ----------

  function CompareFrom(left: seq<string>, right: seq<string>, i: nat): Ordering
    requires i <= Max(|left|, |right|)
    decreases Max(|left|, |right|) - i
  {
    if i == Max(|left|, |right|) then Equal
    else
      var ordering := CompareSegments(At(left, i), At(right, i));
      if ordering != Equal then ordering else CompareFrom(left, right, i + 1)
  }

  function Compare(a: string, b: string): Ordering {
    CompareFrom(Segments(a), Segments(b), 0)
  }

  method CompareVersionDirNames(a: string, b: string) returns (ordering: Ordering)
    ensures ordering == Compare(a, b)
  {
    hide CompareSegments;
    var left, right := Segments(a), Segments(b);
    var length := Max(|left|, |right|);
    for index := 0 to length
      invariant CompareFrom(left, right, index) == Compare(a, b)
    {
      var l := if index < |left| then left[index] else "0";
      var r := if index < |right| then right[index] else "0";
      ordering := CompareSegments(l, r);
      if ordering != Equal {
        return;
      }
    }
    return Equal;
  }

  // ---------- What the comparison decides by ----------

  /** The two names agree before position `k`. */
  ghost predicate AgreeBefore(a: string, b: string, k: nat) {
    forall i: nat | i < k :: CompareSegments(At(Segments(a), i), At(Segments(b), i)) == Equal
  }

  /** `k` is the first position at which the names do not agree. */
  ghost predicate DifferAt(a: string, b: string, k: nat) {
    AgreeBefore(a, b, k) && CompareSegments(At(Segments(a), k), At(Segments(b), k)) != Equal
  }

  ghost predicate Agree(a: string, b: string) {
    forall i: nat :: CompareSegments(At(Segments(a), i), At(Segments(b), i)) == Equal
  }

  lemma {:induction false} SegmentsReflexive(x: string)
    ensures CompareSegments(x, x) == Equal && CompareText(x, x) == Equal
    decreases |x|
  {
    if x != "" { SegmentsReflexive(x[1..]); }
  }

  lemma {:induction false} CompareFromDecides(left: seq<string>, right: seq<string>, i: nat) returns (k: nat)
    requires i <= Max(|left|, |right|)
    ensures i <= k && forall j: nat | i <= j < k :: CompareSegments(At(left, j), At(right, j)) == Equal
    ensures CompareFrom(left, right, i) == CompareSegments(At(left, k), At(right, k))
    ensures CompareFrom(left, right, i) == Equal ==> k == Max(|left|, |right|)
    decreases Max(|left|, |right|) - i
  {
    hide CompareSegments;
    k := i;
    if i < Max(|left|, |right|) && CompareSegments(At(left, i), At(right, i)) == Equal {
      k := CompareFromDecides(left, right, i + 1);
    } else if i == Max(|left|, |right|) {
      SegmentsReflexive("0");
    }
  }

  /** The result is that of the first position at which the names do not agree, wherever the shorter one ends. */
  lemma ComparedAtFirstDifference(a: string, b: string)
    ensures Compare(a, b) == Equal <==> Agree(a, b)
    ensures forall k: nat | DifferAt(a, b, k) ::
              Compare(a, b) == CompareSegments(At(Segments(a), k), At(Segments(b), k))
    ensures Compare(a, b) != Equal ==> exists k: nat :: DifferAt(a, b, k)
  {
    hide CompareSegments, Segments;
    var left, right := Segments(a), Segments(b);
    var k := CompareFromDecides(left, right, 0);
    SegmentsReflexive("0");
    if Compare(a, b) == Equal {
      forall i: nat ensures CompareSegments(At(left, i), At(right, i)) == Equal {}
    } else {
      assert DifferAt(a, b, k);
    }
    forall j: nat | DifferAt(a, b, j) ensures Compare(a, b) == CompareSegments(At(left, j), At(right, j)) {
      assert j == k || j < k || k < j;
    }
  }

  // ---------- Order laws of one position ----------

  lemma SegmentsReverse(x: string, y: string)
    ensures CompareSegments(y, x) == CompareSegments(x, y).Reverse()
    ensures CompareSegments(x, y) == Equal && !(Numeric(x) && Numeric(y)) ==> x == y
  {
    TextReverses(x, y);
  }

  predicate AtMost(ordering: Ordering) {
    ordering != Greater
  }

  /** A segment that is not a number lies, as text, strictly between two that are. */
  predicate Between(p: string, u: string, s: string) {
    Numeric(p) && !Numeric(u) && Numeric(s) && CompareText(p, u) == Less && CompareText(u, s) == Less
  }

  /** At one position the order can only turn in a circle through one segment that is not a number, which then lies
      strictly between two that are. */
  lemma SegmentsCycle(x: string, y: string, z: string)
    requires AtMost(CompareSegments(x, y)) && AtMost(CompareSegments(y, z)) && AtMost(CompareSegments(z, x))
    ensures (CompareSegments(x, y) == CompareSegments(y, z) == CompareSegments(z, x) == Equal)
         || Between(x, y, z) || Between(y, z, x) || Between(z, x, y)
  {
    hide ParseU64, CompareText;
    TextReverses(x, y);
    TextReverses(y, z);
    TextReverses(z, x);
    if AtMost(CompareText(x, y)) && AtMost(CompareText(y, z)) {
      TextTransitive(x, y, z);
    }
  }

  lemma SegmentsAgree(x: string, y: string, z: string)
    requires CompareSegments(x, y) == Equal && CompareSegments(y, z) == Equal
    ensures CompareSegments(x, z) == Equal && CompareSegments(z, x) == Equal
  {
    hide ParseU64, CompareText;
    SegmentsReverse(x, y);
    SegmentsReverse(x, z);
    SegmentsReverse(y, z);
  }

  // ---------- Order laws of names ----------

  /** Swapping the names reverses the result. */
  lemma CompareReverses(a: string, b: string)
    ensures Compare(b, a) == Compare(a, b).Reverse() && Compare(a, a) == Equal
  {
    hide CompareSegments, Segments;
    forall i: nat
      ensures CompareSegments(At(Segments(b), i), At(Segments(a), i))
           == CompareSegments(At(Segments(a), i), At(Segments(b), i)).Reverse()
    {
      SegmentsReverse(At(Segments(a), i), At(Segments(b), i));
    }
    forall i: nat ensures CompareSegments(At(Segments(a), i), At(Segments(a), i)) == Equal {
      SegmentsReflexive(At(Segments(a), i));
    }
    ComparedAtFirstDifference(a, b);
    ComparedAtFirstDifference(b, a);
    ComparedAtFirstDifference(a, a);
    if Compare(a, b) != Equal {
      var k: nat :| DifferAt(a, b, k);
      assert DifferAt(b, a, k);
    }
  }

  ghost predicate StraddlesAt(p: string, u: string, s: string, k: nat) {
    AgreeBefore(p, u, k) && AgreeBefore(u, s, k) && Between(At(Segments(p), k), At(Segments(u), k), At(Segments(s), k))
  }

  /** `u` decides against `p` and `s` at one position as text, where the two are numbers in the other order. */
  ghost predicate Straddles(p: string, u: string, s: string) {
    AtMost(Compare(s, p)) && exists k: nat :: StraddlesAt(p, u, s, k)
  }

  /** The names among which sorting is meaningful. */
  ghost predicate Orderly(names: set<string>) {
    forall a, b, c | a in names && b in names && c in names && AtMost(Compare(a, b)) && AtMost(Compare(b, c)) ::
      AtMost(Compare(a, c))
  }

  lemma StraddlingBreaks(p: string, u: string, s: string)
    requires Straddles(p, u, s)
    ensures Compare(p, u) == Less && Compare(u, s) == Less && AtMost(Compare(s, p))
  {
    hide Segments, Numeric;
    var k: nat :| StraddlesAt(p, u, s, k);
    assert DifferAt(p, u, k) && DifferAt(u, s, k);
    ComparedAtFirstDifference(p, u);
    ComparedAtFirstDifference(u, s);
  }

  lemma AtMostAt(a: string, b: string, k: nat)
    requires AtMost(Compare(a, b)) && AgreeBefore(a, b, k)
    ensures AtMost(CompareSegments(At(Segments(a), k), At(Segments(b), k)))
  {
    hide Segments, CompareSegments, Compare;
    ComparedAtFirstDifference(a, b);
    if CompareSegments(At(Segments(a), k), At(Segments(b), k)) != Equal {
      assert DifferAt(a, b, k);
    }
  }

  lemma AgreeTransitive(a: string, b: string, c: string, k: nat)
    requires AgreeBefore(a, b, k) && AgreeBefore(b, c, k)
    ensures AgreeBefore(c, a, k)
  {
    hide Segments, CompareSegments;
    forall i: nat | i < k ensures CompareSegments(At(Segments(c), i), At(Segments(a), i)) == Equal {
      SegmentsAgree(At(Segments(a), i), At(Segments(b), i), At(Segments(c), i));
    }
  }

  /** Names in a circle that do not all agree have one that straddles the other two. */
  lemma {:induction false} CircleStraddles(a: string, b: string, c: string, k: nat)
    requires AtMost(Compare(a, b)) && AtMost(Compare(b, c)) && AtMost(Compare(c, a))
    requires AgreeBefore(a, b, k) && AgreeBefore(b, c, k)
    ensures Straddles(a, b, c) || Straddles(b, c, a) || Straddles(c, a, b)
         || (AgreeBefore(a, b, k + 1) && AgreeBefore(b, c, k + 1) && AgreeBefore(c, a, k + 1))
  {
    hide Segments, CompareSegments, Compare, Between;
    AgreeTransitive(a, b, c, k);
    AtMostAt(a, b, k);
    AtMostAt(b, c, k);
    AtMostAt(c, a, k);
    SegmentsCycle(At(Segments(a), k), At(Segments(b), k), At(Segments(c), k));
    if Between(At(Segments(a), k), At(Segments(b), k), At(Segments(c), k)) {
      assert StraddlesAt(a, b, c, k);
    } else if Between(At(Segments(b), k), At(Segments(c), k), At(Segments(a), k)) {
      assert StraddlesAt(b, c, a, k);
    } else if Between(At(Segments(c), k), At(Segments(a), k), At(Segments(b), k)) {
      assert StraddlesAt(c, a, b, k);
    }
  }

  lemma {:induction false} CircleAgrees(a: string, b: string, c: string, k: nat)
    requires AtMost(Compare(a, b)) && AtMost(Compare(b, c)) && AtMost(Compare(c, a))
    requires !Straddles(a, b, c) && !Straddles(b, c, a) && !Straddles(c, a, b)
    ensures AgreeBefore(a, b, k) && AgreeBefore(b, c, k)
  {
    hide Segments, CompareSegments, Compare, Straddles;
    if k > 0 {
      CircleAgrees(a, b, c, k - 1);
      CircleStraddles(a, b, c, k - 1);
    }
  }

  ghost predicate HasStraddler(names: set<string>) {
    exists p, u, s :: p in names && u in names && s in names && Straddles(p, u, s)
  }

  lemma AllAgree(a: string, b: string, c: string)
    requires AtMost(Compare(a, b)) && AtMost(Compare(b, c)) && AtMost(Compare(c, a))
    requires !Straddles(a, b, c) && !Straddles(b, c, a) && !Straddles(c, a, b)
    ensures Compare(a, c) == Equal
  {
    hide Segments, CompareSegments, Compare, Straddles;
    forall i: nat ensures CompareSegments(At(Segments(a), i), At(Segments(c), i)) == Equal {
      CircleAgrees(a, b, c, i + 1);
      AgreeTransitive(a, b, c, i + 1);
      SegmentsReverse(At(Segments(c), i), At(Segments(a), i));
    }
    ComparedAtFirstDifference(a, c);
  }

  /** The comparison is a total preorder on a set of names exactly when no name of the set straddles two others. */
  lemma OrderlyWithoutStraddlers(names: set<string>)
    ensures Orderly(names) <==> !HasStraddler(names)
  {
    hide Compare, Straddles;
    if HasStraddler(names) {
      var p, u, s :| p in names && u in names && s in names && Straddles(p, u, s);
      StraddlingBreaks(p, u, s);
      CompareReverses(u, s);
      CompareReverses(p, u);
      CompareReverses(s, p);
      assert !AtMost(Compare(u, p));
    } else {
      forall a, b, c | a in names && b in names && c in names && AtMost(Compare(a, b)) && AtMost(Compare(b, c))
        ensures AtMost(Compare(a, c))
      {
        CompareReverses(a, c);
        if Compare(a, c) == Greater {
          AllAgree(a, b, c);
        }
      }
    }
  }

  // ---------- Numbered names ----------

  predicate Numbered(name: string) {
    forall i | 0 <= i < |Segments(name)| :: Numeric(Segments(name)[i])
  }

  /** The number at a position, zero past the end. */
  function Number(name: string, i: nat): nat
    requires Numbered(name)
  {
    if i < |Segments(name)| then ParseU64(Segments(name)[i]).value else 0
  }

  ghost predicate SameNumbers(a: string, b: string, k: nat)
    requires Numbered(a) && Numbered(b)
  {
    forall i: nat | i < k :: Number(a, i) == Number(b, i)
  }

  /** `a` comes before `b` as a sequence of numbers continued with zeros. */
  ghost predicate NumbersLess(a: string, b: string)
    requires Numbered(a) && Numbered(b)
  {
    exists k: nat :: SameNumbers(a, b, k) && Number(a, k) < Number(b, k)
  }

  lemma ZeroIsNumeric()
    ensures ParseU64("0") == Some(0)
  {
    assert DigitsValue("0") == 10 * DigitsValue("") + 0;
  }

  lemma ComparedAsNumbers(a: string, b: string, i: nat)
    requires Numbered(a) && Numbered(b)
    ensures CompareSegments(At(Segments(a), i), At(Segments(b), i)) == CompareNat(Number(a, i), Number(b, i))
    ensures Numeric(At(Segments(a), i))
  {
    hide ParseU64, Segments;
    ZeroIsNumeric();
  }

  /** Between names made of numbers the comparison is the zero-padded lexicographic order of the numbers. */
  lemma NumberedOrder(a: string, b: string)
    requires Numbered(a) && Numbered(b)
    ensures Compare(a, b) == Less <==> NumbersLess(a, b)
    ensures Compare(a, b) == Equal <==> forall i: nat :: Number(a, i) == Number(b, i)
  {
    hide CompareSegments, Segments, Numbered, Number, Compare;
    forall i: nat ensures CompareSegments(At(Segments(a), i), At(Segments(b), i))
        == CompareNat(Number(a, i), Number(b, i)) {
      ComparedAsNumbers(a, b, i);
    }
    ComparedAtFirstDifference(a, b);
    if Compare(a, b) != Equal {
      var k: nat :| DifferAt(a, b, k);
      assert SameNumbers(a, b, k);
    }
    if NumbersLess(a, b) {
      var k: nat :| SameNumbers(a, b, k) && Number(a, k) < Number(b, k);
      assert DifferAt(a, b, k);
    }
  }

  /** Names made of numbers are always orderly. */
  lemma NumberedOrderly(names: set<string>)
    requires forall name | name in names :: Numbered(name)
    ensures Orderly(names)
  {
    hide Segments, Numeric, Compare, AgreeBefore;
    forall p, u, s | p in names && u in names && s in names ensures !Straddles(p, u, s) {
      forall k: nat ensures !StraddlesAt(p, u, s, k) {
        ComparedAsNumbers(u, p, k);
      }
    }
    OrderlyWithoutStraddlers(names);
  }

  lemma SingleSegment(name: string)
    requires name != "" && name[0] != 'v' && name[0] != 'V' && '.' !in name
    ensures Segments(name) == [name]
  {
    forall i: nat ensures !OccursAt(name, ".", i) {
      if i < |name| { assert name[i..i + 1][0] == name[i]; }
    }
  }

  lemma CompareSingles(a: string, b: string)
    requires Segments(a) == [a] && Segments(b) == [b]
    ensures Compare(a, b) == CompareSegments(a, b)
  {
    hide Segments, CompareSegments;
    assert CompareFrom([a], [b], 1) == Equal;
  }

  lemma SingleOrder()
    requires ParseU64("9") == Some(9) && ParseU64("10") == Some(10) && ParseU64("1a") == None
    ensures CompareSegments("9", "10") == Less && CompareSegments("10", "1a") == Less
         && CompareSegments("1a", "9") == Less
  {
    hide ParseU64;
    assert CompareText("10", "1a") == CompareText("0", "a") == Less;
  }

  lemma CycleIsDisorder(a: string, b: string, c: string)
    requires Compare(a, b) == Less && Compare(b, c) == Less && Compare(c, a) == Less
    ensures !Orderly({a, b, c})
  {
    hide Compare;
    CompareReverses(c, a);
  }

  lemma NineAndTen()
    ensures ParseU64("9") == Some(9) && ParseU64("10") == Some(10) && ParseU64("1a") == None
  {
    assert DigitsValue("9") == 10 * DigitsValue("") + 9;
    assert "10"[..1] == "1";
    assert DigitsValue("1") == 10 * DigitsValue("") + 1;
    assert DigitsValue("10") == 10 * DigitsValue("1") + 0;
    assert !IsDigits("1a") by { assert "1a"[1] == 'a'; }
  }

  /** A name that mixes digits and letters can make the order turn in a circle. */
  lemma MixedNamesCycle()
    ensures Compare("9", "10") == Less && Compare("10", "1a") == Less && Compare("1a", "9") == Less
    ensures !Orderly({"9", "10", "1a"})
  {
    hide *;
    SingleSegment("9");
    SingleSegment("10");
    SingleSegment("1a");
    CompareSingles("9", "10");
    CompareSingles("10", "1a");
    CompareSingles("1a", "9");
    NineAndTen();
    SingleOrder();
    CycleIsDisorder("9", "10", "1a");
  }

  // ---------- The listing ----------

  /** What `read_dir` reports: the name, whether it is a directory, and whether it holds a `bin` directory. */
  datatype Entry = Entry(name: string, isDir: bool, hasBin: bool)

  function Directories(entries: seq<Entry>): seq<Entry> {
    if entries == [] then []
    else (if entries[0].isDir then [entries[0]] else []) + Directories(entries[1..])
  }

  function WithBin(entries: seq<Entry>): seq<Entry> {
    if entries == [] then []
    else (if entries[0].hasBin then [entries[0]] else []) + WithBin(entries[1..])
  }

  function Insert(e: Entry, sorted: seq<Entry>): seq<Entry> {
    if sorted == [] || AtMost(Compare(sorted[0].name, e.name)) then [e] + sorted
    else [sorted[0]] + Insert(e, sorted[1..])
  }

  /** A stable sort, later versions first. */
  function NewestFirst(entries: seq<Entry>): seq<Entry> {
    if entries == [] then [] else Insert(entries[0], NewestFirst(entries[1..]))
  }

  function NvmNodeBinDirs(entries: seq<Entry>): seq<Entry> {
    WithBin(NewestFirst(Directories(entries)))
  }

  function Names(entries: seq<Entry>): set<string> {
    set e | e in entries :: e.name
  }

  /** No entry of `s` is later than `e`. */
  ghost predicate NoneLater(s: seq<Entry>, e: Entry) {
    forall x | x in s :: AtMost(Compare(x.name, e.name))
  }

  ghost predicate Descending(s: seq<Entry>)
    decreases |s|
  {
    s == [] || (NoneLater(s[1..], s[0]) && Descending(s[1..]))
  }

  lemma {:induction false} DescendingPairs(s: seq<Entry>, i: nat, j: nat)
    requires Descending(s) && i < j < |s|
    ensures AtMost(Compare(s[j].name, s[i].name))
  {
    hide Compare;
    assert s[1..][j - 1] == s[j];
    if i > 0 {
      assert s[1..][i - 1] == s[i];
      DescendingPairs(s[1..], i - 1, j - 1);
    }
  }

  /** The entries whose version agrees with `name`, in their order. */
  function Agreeing(entries: seq<Entry>, name: string): seq<Entry> {
    if entries == [] then []
    else (if Compare(entries[0].name, name) == Equal then [entries[0]] else []) + Agreeing(entries[1..], name)
  }

  lemma NoneLaterThrough(sorted: seq<Entry>, head: Entry, e: Entry, names: set<string>)
    requires Orderly(names) && e.name in names && Names(sorted) <= names && head in sorted
    requires NoneLater(sorted[1..], sorted[0]) && head == sorted[0] && AtMost(Compare(head.name, e.name))
    ensures NoneLater(sorted, e)
  {
    hide Compare;
    forall x | x in sorted ensures AtMost(Compare(x.name, e.name)) {
      assert x.name in Names(sorted) && head.name in Names(sorted);
      assert x == head || x in sorted[1..];
    }
  }

  lemma NoneLaterInserted(rest: seq<Entry>, inserted: seq<Entry>, e: Entry, head: Entry)
    requires NoneLater(rest, head) && AtMost(Compare(e.name, head.name))
    requires multiset(inserted) == multiset(rest) + multiset{e}
    ensures NoneLater(inserted, head)
  {
    hide Compare;
    forall x | x in inserted ensures AtMost(Compare(x.name, head.name)) {
      assert x in multiset(inserted);
    }
  }

  lemma {:induction false} InsertKeepsDescending(e: Entry, sorted: seq<Entry>, names: set<string>)
    requires Orderly(names) && e.name in names && Names(sorted) <= names && Descending(sorted)
    ensures Descending(Insert(e, sorted)) && multiset(Insert(e, sorted)) == multiset(sorted) + multiset{e}
    decreases |sorted|
  {
    hide Compare, Orderly;
    if sorted == [] { return; }
    var head, rest := sorted[0], sorted[1..];
    assert sorted == [head] + rest;
    CompareReverses(head.name, e.name);
    if AtMost(Compare(head.name, e.name)) {
      NoneLaterThrough(sorted, head, e, names);
      ConcatHead([e], sorted);
    } else {
      assert head in sorted && Names(rest) <= Names(sorted);
      InsertKeepsDescending(e, rest, names);
      var inserted := Insert(e, rest);
      NoneLaterInserted(rest, inserted, e, head);
      ConcatHead([head], inserted);
    }
  }

  lemma SameNames(s: seq<Entry>, t: seq<Entry>)
    requires multiset(s) == multiset(t)
    ensures Names(s) == Names(t)
  {
    assert forall e :: (e in s <==> e in multiset(s)) && (e in t <==> e in multiset(t));
  }

  lemma {:induction false} NewestFirstSorts(entries: seq<Entry>, names: set<string>)
    requires Orderly(names) && Names(entries) <= names
    ensures Descending(NewestFirst(entries)) && multiset(NewestFirst(entries)) == multiset(entries)
    decreases |entries|
  {
    hide Compare, Insert, Orderly;
    if entries != [] {
      var head, rest := entries[0], entries[1..];
      assert entries == [head] + rest;
      assert head.name in Names(entries) && Names(rest) <= Names(entries);
      NewestFirstSorts(rest, names);
      SameNames(NewestFirst(rest), rest);
      InsertKeepsDescending(head, NewestFirst(rest), names);
    }
  }

  lemma {:induction false} WithBinKeepsOrder(s: seq<Entry>)
    requires Descending(s)
    ensures Descending(WithBin(s))
    ensures forall e :: e in WithBin(s) <==> e in s && e.hasBin
    decreases |s|
  {
    hide Compare;
    if s != [] {
      var rest := s[1..];
      assert s == [s[0]] + rest;
      WithBinKeepsOrder(rest);
      ConcatHead([s[0]], WithBin(rest));
    }
  }

  lemma NotBothAgree(a: string, b: string, name: string, names: set<string>)
    requires Orderly(names) && a in names && b in names && name in names && Compare(b, a) == Greater
    ensures !(Compare(a, name) == Equal && Compare(b, name) == Equal)
  {
    hide Compare;
    CompareReverses(a, name);
    CompareReverses(b, name);
  }

  lemma AgreeingSplits(e: Entry, s: seq<Entry>, name: string)
    ensures Agreeing([e] + s, name) == (if Compare(e.name, name) == Equal then [e] else []) + Agreeing(s, name)
  {
    assert ([e] + s)[1..] == s;
  }

  lemma {:induction false} InsertIsStable(e: Entry, sorted: seq<Entry>, name: string, names: set<string>)
    requires Orderly(names) && e.name in names && name in names && Names(sorted) <= names
    ensures Agreeing(Insert(e, sorted), name) == Agreeing([e] + sorted, name)
    decreases |sorted|
  {
    hide Compare, Agreeing, Orderly;
    if sorted != [] && !AtMost(Compare(sorted[0].name, e.name)) {
      var head, rest := sorted[0], sorted[1..];
      assert sorted == [head] + rest;
      assert head in sorted && Names(rest) <= Names(sorted);
      InsertIsStable(e, rest, name, names);
      AgreeingSplits(head, Insert(e, rest), name);
      AgreeingSplits(e, rest, name);
      AgreeingSplits(e, sorted, name);
      AgreeingSplits(head, rest, name);
      NotBothAgree(e.name, head.name, name, names);
    }
  }

  /** Versions that agree stay in the order in which they were found. */
  lemma {:induction false} NewestFirstIsStable(entries: seq<Entry>, name: string, names: set<string>)
    requires Orderly(names) && Names(entries) <= names && name in names
    ensures Agreeing(NewestFirst(entries), name) == Agreeing(entries, name)
    decreases |entries|
  {
    hide Compare, Insert, Orderly;
    if entries != [] {
      var head, rest := entries[0], entries[1..];
      assert entries == [head] + rest;
      assert head.name in Names(entries) && Names(rest) <= Names(entries);
      NewestFirstIsStable(rest, name, names);
      NewestFirstSorts(rest, names);
      SameNames(NewestFirst(rest), rest);
      InsertIsStable(head, NewestFirst(rest), name, names);
      AgreeingSplits(head, NewestFirst(rest), name);
      AgreeingSplits(head, rest, name);
    }
  }

  lemma {:induction false} WithBinCount(s: seq<Entry>, e: Entry)
    ensures multiset(WithBin(s))[e] == if e.hasBin then multiset(s)[e] else 0
    decreases |s|
  {
    if s != [] {
      WithBinCount(s[1..], e);
      assert s == [s[0]] + s[1..];
    }
  }

  lemma {:induction false} DirectoriesCount(s: seq<Entry>, e: Entry)
    ensures multiset(Directories(s))[e] == if e.isDir then multiset(s)[e] else 0
    decreases |s|
  {
    if s != [] {
      DirectoriesCount(s[1..], e);
      assert s == [s[0]] + s[1..];
    }
  }

  /** For orderly names the listing holds each directory with a `bin` as often as it was found and nothing else, no
      version before a later one. */
  lemma ListingIsNewestFirst(entries: seq<Entry>)
    requires Orderly(Names(Directories(entries)))
    ensures var r := NvmNodeBinDirs(entries);
            forall i, j | 0 <= i < j < |r| :: AtMost(Compare(r[j].name, r[i].name))
    ensures forall e :: multiset(NvmNodeBinDirs(entries))[e] == if e.isDir && e.hasBin then multiset(entries)[e] else 0
  {
    hide Compare, Orderly, Descending, Directories, WithBin, NewestFirst;
    var dirs := Directories(entries);
    NewestFirstSorts(dirs, Names(dirs));
    WithBinKeepsOrder(NewestFirst(dirs));
    forall e ensures multiset(NvmNodeBinDirs(entries))[e] == if e.isDir && e.hasBin then multiset(entries)[e] else 0 {
      WithBinCount(NewestFirst(dirs), e);
      DirectoriesCount(entries, e);
    }
    var r := NvmNodeBinDirs(entries);
    forall i, j | 0 <= i < j < |r| ensures AtMost(Compare(r[j].name, r[i].name)) {
      DescendingPairs(r, i, j);
    }
  }
}
