/** The string operations of Rust's standard library that the modelled code relies on. */
module Text {
  import opened Common

  /** Unicode White_Space, the class used by `trim` and `is_whitespace`. */
  predicate IsWhitespace(c: char) {
    || '\t' <= c <= '\r'
    || c == ' '
    || c == '\U{0085}' || c == '\U{00A0}' || c == '\U{1680}'
    || '\U{2000}' <= c <= '\U{200A}'
    || c == '\U{2028}' || c == '\U{2029}' || c == '\U{202F}' || c == '\U{205F}' || c == '\U{3000}'
  }

  function TrimStart(s: string): string {
    if s != "" && IsWhitespace(s[0]) then TrimStart(s[1..]) else s
  }

  function TrimEnd(s: string): string {
    if s != "" && IsWhitespace(s[|s| - 1]) then TrimEnd(s[..|s| - 1]) else s
  }

  function Trim(s: string): string {
    TrimEnd(TrimStart(s))
  }

  lemma {:induction false} TrimmedStart(s: string)
    ensures TrimStart(s) == "" <==> forall i | 0 <= i < |s| :: IsWhitespace(s[i])
    ensures TrimStart(s) != "" ==> !IsWhitespace(TrimStart(s)[0])
  {
    if s != "" && IsWhitespace(s[0]) {
      TrimmedStart(s[1..]);
      assert forall i | 0 < i < |s| :: s[i] == s[1..][i - 1];
    }
  }

  lemma TrimEndKeepsHead(s: string)
    requires s != "" && !IsWhitespace(s[0])
    ensures TrimEnd(s) != "" && TrimEnd(s)[0] == s[0]
  {
  }

  /** Exactly white space is trimmed away altogether. */
  lemma BlankIsTrimmed(s: string)
    ensures Trim(s) == "" <==> forall c | c in s :: IsWhitespace(c)
  {
    hide IsWhitespace;
    TrimmedStart(s);
    if TrimStart(s) != "" { TrimEndKeepsHead(TrimStart(s)); }
    assert forall i | 0 <= i < |s| :: s[i] in s;
  }

  predicate OccursAt(s: string, p: string, i: nat) {
    i + |p| <= |s| && s[i..i + |p|] == p
  }

  /** Position of the first occurrence of `p` in `s` at or after `from`. */
  function FindFrom(s: string, p: string, from: nat): (r: Option<nat>)
    requires from <= |s|
    ensures r.Some? ==> from <= r.value && r.value + |p| <= |s| && OccursAt(s, p, r.value)
    ensures forall j: nat | from <= j && (r.Some? ==> j < r.value) :: !OccursAt(s, p, j)
    decreases |s| - from
  {
    if OccursAt(s, p, from) then Some(from)
    else if from == |s| then None
    else FindFrom(s, p, from + 1)
  }

  function Find(s: string, p: string): (r: Option<nat>)
    ensures r.Some? ==> r.value + |p| <= |s| && OccursAt(s, p, r.value)
    ensures forall j: nat | r.Some? ==> j < r.value :: !OccursAt(s, p, j)
  {
    FindFrom(s, p, 0)
  }

  predicate Contains(s: string, p: string)
    ensures Contains(s, p) <==> exists i: nat :: OccursAt(s, p, i)
  {
    Find(s, p).Some?
  }

  function Replace(s: string, from: string, to: string): string
    requires from != ""
  {
    if s == "" then ""
    else if OccursAt(s, from, 0) then to + Replace(s[|from|..], from, to)
    else [s[0]] + Replace(s[1..], from, to)
  }

  function Split(s: string, separator: string): (r: seq<string>)
    requires separator != ""
    ensures r != []
  {
    match Find(s, separator)
    case None => [s]
    case Some(i) => [s[..i]] + Split(s[i + |separator|..], separator)
  }

  function Join(parts: seq<string>, separator: string): string {
    if parts == [] then ""
    else if |parts| == 1 then parts[0]
    else parts[0] + separator + Join(parts[1..], separator)
  }

  /** `str::lines`: pieces ended by LF or CRLF, without a final empty piece. */
  function Lines(s: string): seq<string> {
    match Find(s, "\n")
    case None => if s == "" then [] else [s]
    case Some(i) =>
      var line := if 0 < i && s[i - 1] == '\r' then s[..i - 1] else s[..i];
      [line] + Lines(s[i + 1..])
  }

  /** The first occurrence of `p` in `a + p + b` is the one written there, when no earlier one can start inside `a`. */
  lemma FindAt(s: string, p: string, i: nat)
    requires OccursAt(s, p, i)
    requires forall j: nat | j < i :: !OccursAt(s, p, j)
    ensures Find(s, p) == Some(i)
  {
  }

  lemma NotAt(s: string, c: char, i: nat)
    requires i < |s| && s[i] != c
    ensures !OccursAt(s, [c], i)
  {
    assert s[i] in s[i..i + 1];
  }

  /** A text without the separator comes off whole. */
  lemma SplitStep(a: string, c: char, b: string)
    requires c !in a
    ensures Split(a + [c] + b, [c]) == [a] + Split(b, [c])
  {
    var s := a + [c] + b;
    forall j: nat | j < |a| ensures !OccursAt(s, [c], j) {
      assert s[j] in a;
      NotAt(s, c, j);
    }
    FindAt(s, [c], |a|);
    assert s[..|a|] == a && s[|a| + 1..] == b;
  }

  lemma SplitOne(a: string, c: char)
    requires c !in a
    ensures Split(a, [c]) == [a]
  {
    forall j: nat ensures !OccursAt(a, [c], j) {
      if j < |a| { NotAt(a, c, j); }
    }
  }

  lemma JoinUnfolds(parts: seq<string>, separator: string)
    requires parts != []
    ensures Join(parts, separator)
         == if |parts| == 1 then parts[0] else parts[0] + separator + Join(parts[1..], separator)
  {
  }

  /** Splitting a joined text gives the parts back. */
  lemma {:induction false} JoinSplits(parts: seq<string>, c: char)
    requires parts != [] && forall part | part in parts :: c !in part
    ensures Split(Join(parts, [c]), [c]) == parts
  {
    hide *;
    JoinUnfolds(parts, [c]);
    assert parts[0] in parts && forall part | part in parts[1..] :: part in parts;
    if |parts| == 1 {
      SplitOne(parts[0], c);
    } else {
      JoinSplits(parts[1..], c);
      SplitStep(parts[0], c, Join(parts[1..], [c]));
    }
  }

  lemma NoneBefore(s: string, c: char, n: nat)
    requires n <= |s| && forall j: nat | j < n :: !OccursAt(s, [c], j)
    ensures c !in s[..n]
  {
    forall k | 0 <= k < n ensures s[k] != c {
      assert !OccursAt(s, [c], k) && s[k..k + 1] == [s[k]];
    }
  }

  /** What a text is split into makes it up again, and holds no separator. */
  lemma {:induction false} SplitJoins(s: string, c: char)
    ensures Join(Split(s, [c]), [c]) == s && forall part | part in Split(s, [c]) :: c !in part
    decreases |s|
  {
    var found := Find(s, [c]);
    if found.Some? {
      var i := found.value;
      var first, rest := s[..i], s[i + 1..];
      SplitJoins(rest, c);
      NoneBefore(s, c, i);
      assert Split(s, [c]) == [first] + Split(rest, [c]);
      assert s[i..i + 1] == [c] && s == first + [c] + rest;
    } else {
      NoneBefore(s, c, |s|);
      assert s[..|s|] == s;
    }
  }

  lemma ConcatAssociates<T>(a: seq<T>, b: seq<T>, c: seq<T>)
    ensures a + (b + c) == (a + b) + c
  {
  }

  lemma ConcatHead<T>(a: seq<T>, b: seq<T>)
    requires a != []
    ensures (a + b)[0] == a[0] && (a + b)[1..] == a[1..] + b
  {
  }

  lemma DropDrop<T>(s: seq<T>, m: nat, n: nat)
    requires m + n <= |s|
    ensures s[m..][n..] == s[m + n..] && s[m..][..n] == s[m..m + n]
  {
  }

  lemma TakeDrop<T>(s: seq<T>, n: nat)
    requires n <= |s|
    ensures s[..n] + s[n..] == s
  {
  }

  // ---------- Order ----------

  datatype Ordering = Less | Equal | Greater {
    function Reverse(): Ordering {
      match this
      case Less => Greater
      case Equal => Equal
      case Greater => Less
    }
  }

  /** `str::cmp`: UTF-8 bytes compare as code points do. */
  function CompareText(x: string, y: string): Ordering
    decreases |x|
  {
    if x == "" then (if y == "" then Equal else Less)
    else if y == "" || y[0] < x[0] then Greater
    else if x[0] < y[0] then Less
    else CompareText(x[1..], y[1..])
  }

  lemma {:induction false} TextReverses(x: string, y: string)
    ensures CompareText(y, x) == CompareText(x, y).Reverse()
    ensures CompareText(x, y) == Equal <==> x == y
    decreases |x|
  {
    if x != "" && y != "" && x[0] == y[0] {
      TextReverses(x[1..], y[1..]);
      assert x == [x[0]] + x[1..] && y == [y[0]] + y[1..];
    }
  }

  lemma {:induction false} TextTransitive(x: string, y: string, z: string)
    requires CompareText(x, y) != Greater && CompareText(y, z) != Greater
    ensures CompareText(x, z) != Greater
    ensures CompareText(x, z) == Equal ==> x == y == z
    decreases |x|
  {
    TextReverses(x, y);
    TextReverses(y, z);
    TextReverses(x, z);
    if x != "" && y != "" && z != "" && x[0] == y[0] == z[0] {
      TextTransitive(x[1..], y[1..], z[1..]);
    }
  }
}
