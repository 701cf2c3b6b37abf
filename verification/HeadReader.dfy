/** Reading the head of a plan file in chunks, bounded in lines and in bytes. */
module HeadReader {
  import opened Common
  import opened Text
  import opened Utf8

  const TAG_SCAN_MAX_LINES: nat := 80
  const TAG_SCAN_MAX_BYTES: nat := 64 * 1024
  const BUFFER_SIZE: nat := 4096

  // ---------- The file ----------

  /** How the system answers one read: with at most so many bytes, or not at all. */
  datatype Turn = UpTo(n: nat) | Fails

  class File {
    const content: seq<byte>
    const schedule: nat -> Turn
    var position: nat
    var turn: nat

    ghost predicate Valid() reads this { position <= |content| }

    constructor (content: seq<byte>, schedule: nat -> Turn)
      ensures Valid() && this.content == content && this.schedule == schedule && position == 0 && turn == 0
    {
      this.content, this.schedule := content, schedule;
      position, turn := 0, 0;
    }

    /** One `read` into the first `length` bytes of the buffer.  Only at the end of the file does it read nothing. */
    method Read(buffer: array<byte>, length: nat) returns (r: Option<nat>)
      requires Valid() && 0 < length <= buffer.Length
      modifies this, buffer
      ensures Valid() && turn == old(turn) + 1
      ensures r.None? <==> schedule(old(turn)).Fails?
      ensures r.None? ==> position == old(position)
      ensures r.Some? ==> r.value <= length && position == old(position) + r.value
      ensures r.Some? ==> (r.value == 0 <==> old(position) == |content|)
      ensures r.Some? ==> buffer[..r.value] == content[old(position)..position]
    {
      var answer := schedule(turn);
      turn := turn + 1;
      if answer.Fails? {
        return None;
      }
      var available := |content| - position;
      var n := if answer.n == 0 then 1 else answer.n;
      n := if length < n then length else n;
      n := if available < n then available else n;
      var i := 0;
      while i < n
        invariant i <= n && buffer[..i] == content[position..position + i]
        modifies buffer
      {
        ghost var done := buffer[..i];
        buffer[i] := content[position + i];
        assert buffer[..i] == done && buffer[..i + 1] == done + [content[position + i]];
        assert content[position..position + i + 1] == content[position..position + i] + [content[position + i]];
        i := i + 1;
      }
      position := position + n;
      return Some(n);
    }
  }

  // ---------- What the head of a file is ----------

  /** How many elements of `s` stand before the end of its `lines`-th line. */
  function Limit<T(==)>(s: seq<T>, newline: T, lines: nat): (n: nat)
    ensures n <= |s|
  {
    if lines == 0 || s == [] then 0
    else 1 + Limit(s[1..], newline, if s[0] == newline then lines - 1 else lines)
  }

  function HeadLength(content: seq<byte>): (n: nat)
    ensures n <= |content|
  {
    Limit(content, '\n' as byte, TAG_SCAN_MAX_LINES)
  }

  function Head(content: seq<byte>): Option<string> {
    var n := HeadLength(content);
    if n > TAG_SCAN_MAX_BYTES then None else Decode(content[..n])
  }

  function Newlines<T(==)>(s: seq<T>, newline: T): nat {
    if s == [] then 0 else (if s[0] == newline then 1 else 0) + Newlines(s[1..], newline)
  }

  /** The limit is the shortest prefix with that many newlines, or everything if there are fewer. */
  lemma {:induction false} LimitIsShortest<T>(s: seq<T>, newline: T, lines: nat)
    ensures var n := Limit(s, newline, lines);
            && (Newlines(s[..n], newline) == lines || (n == |s| && Newlines(s, newline) < lines))
            && (forall k: nat | k < n :: Newlines(s[..k], newline) < lines)
    decreases |s|
  {
    var n := Limit(s, newline, lines);
    if lines > 0 && s != [] {
      var left := if s[0] == newline then lines - 1 else lines;
      LimitIsShortest(s[1..], newline, left);
      assert s[..n][1..] == s[1..][..n - 1];
      assert n == |s| ==> s[..n] == s;
      forall k: nat | k < n ensures Newlines(s[..k], newline) < lines {
        if k > 0 { assert s[..k][1..] == s[1..][..k - 1]; }
      }
    }
  }

  // ---------- The chunked read ----------

  /** How many lines may still be read. */
  function Left(lines: nat): nat {
    if lines < TAG_SCAN_MAX_LINES then TAG_SCAN_MAX_LINES - lines else 0
  }

  /** `head` is the start of the file and of its head, and `lines` lines are complete. */
  ghost predicate Collected(content: seq<byte>, head: seq<byte>, lines: nat) {
    && head <= content
    && HeadLength(content) == |head| + Limit(content[|head|..], '\n' as byte, Left(lines))
  }

  lemma StartCollecting(content: seq<byte>)
    ensures Collected(content, [], 0)
  {
    assert content[0..] == content;
  }

  lemma LimitStep<T>(s: seq<T>, i: nat, newline: T, lines: nat)
    requires i < |s| && lines > 0
    ensures Limit(s[i..], newline, lines)
         == 1 + Limit(s[i + 1..], newline, if s[i] == newline then lines - 1 else lines)
    ensures s[..i + 1] == s[..i] + [s[i]]
  {
    DropDrop(s, i, 1);
  }

  lemma CollectOne(content: seq<byte>, head: seq<byte>, lines: nat)
    requires Collected(content, head, lines) && |head| < |content| && lines < TAG_SCAN_MAX_LINES
    ensures |head| + 1 > TAG_SCAN_MAX_BYTES ==> Head(content) == None
    ensures var b := content[|head|]; Collected(content, head + [b], if b == '\n' as byte then lines + 1 else lines)
  {
    hide Decode;
    LimitStep(content, |head|, '\n' as byte, Left(lines));
  }

  lemma CollectedAll(content: seq<byte>, head: seq<byte>, lines: nat)
    requires Collected(content, head, lines) && |head| <= TAG_SCAN_MAX_BYTES
    requires |head| == |content| || lines >= TAG_SCAN_MAX_LINES
    ensures Head(content) == Decode(head)
  {
    hide Decode;
    assert content[..|head|] == head;
  }

  method ReadPlanHeadBounded(file: File?) returns (r: Option<string>)
    requires file != null ==> file.Valid() && file.position == 0 && file.turn == 0
    modifies file
    ensures file == null ==> r == None
    ensures file != null && (forall i: nat | i < file.turn :: file.schedule(i).UpTo?) ==> r == Head(file.content)
    ensures file != null && (exists i: nat :: i < file.turn && file.schedule(i).Fails?) ==> r == None
    ensures file != null ==> file.position <= TAG_SCAN_MAX_BYTES + 1
  {
    hide Decode, Collected, Head, HeadLength;
    if file == null {
      return None;
    }
    StartCollecting(file.content);
    var head: seq<byte>, lines, buffer := [], 0, new byte[BUFFER_SIZE];
    while lines < TAG_SCAN_MAX_LINES
      invariant file.Valid() && |head| <= |file.content| && |head| <= TAG_SCAN_MAX_BYTES
      invariant Collected(file.content, head, lines)
      invariant forall i: nat | i < file.turn :: file.schedule(i).UpTo?
      invariant if lines < TAG_SCAN_MAX_LINES then |head| == file.position else file.position <= TAG_SCAN_MAX_BYTES + 1
      decreases |file.content| - |head|, TAG_SCAN_MAX_LINES - lines
    {
      var remaining := TAG_SCAN_MAX_BYTES + 1 - |head|;
      var readLength := if remaining < buffer.Length then remaining else buffer.Length;
      var start := |head|;
      var n := file.Read(buffer, readLength);
      if n.None? {
        return None;
      }
      if n.value == 0 {
        break;
      }
      var i := 0;
      while i < n.value
        invariant i <= n.value && |head| == start + i <= TAG_SCAN_MAX_BYTES
        invariant Collected(file.content, head, lines)
        invariant lines < TAG_SCAN_MAX_LINES
        modifies {}
      {
        var b := buffer[i];
        assert b == buffer[..n.value][i] == file.content[|head|];
        CollectOne(file.content, head, lines);
        head := head + [b];
        if |head| > TAG_SCAN_MAX_BYTES {
          return None;
        }
        i := i + 1;
        if b == '\n' as byte {
          lines := lines + 1;
          if lines >= TAG_SCAN_MAX_LINES {
            break;
          }
        }
      }
    }
    CollectedAll(file.content, head, lines);
    return Decode(head);
  }

  // ---------- The head of an encoded text ----------

  lemma {:induction false} LimitSkips<T>(a: seq<T>, b: seq<T>, newline: T, lines: nat)
    requires newline !in a && lines > 0
    ensures Limit(a + b, newline, lines) == |a| + Limit(b, newline, lines)
    decreases |a|
  {
    if a == [] {
      assert a + b == b;
    } else {
      ConcatHead(a, b);
      LimitSkips(a[1..], b, newline, lines);
    }
  }

  lemma NewlineIsOneByte(c: char)
    ensures c == '\n' ==> EncodeChar(c) == ['\n' as byte]
    ensures c != '\n' ==> '\n' as byte !in EncodeChar(c)
  {
  }

  lemma TakeAcross<T>(a: seq<T>, b: seq<T>, m: nat)
    requires m <= |b|
    ensures (a + b)[..|a| + m] == a + b[..m]
  {
  }

  lemma EncodeTake(s: string, n: nat)
    requires n < |s|
    ensures Encode(s[..n + 1]) == EncodeChar(s[0]) + Encode(s[1..][..n])
  {
    hide EncodeChar;
    assert s[..n + 1][1..] == s[1..][..n];
  }

  /** A line limit never falls inside a character: it cuts the encoding of a text where it cuts the text. */
  lemma {:induction false} LimitOfEncoding(s: string, lines: nat)
    ensures Encode(s)[..Limit(Encode(s), '\n' as byte, lines)] == Encode(s[..Limit(s, '\n', lines)])
    decreases |s|
  {
    hide EncodeChar;
    if lines > 0 && s != "" {
      var left := if s[0] == '\n' then lines - 1 else lines;
      var first, rest := EncodeChar(s[0]), Encode(s[1..]);
      LimitOfEncoding(s[1..], left);
      NewlineIsOneByte(s[0]);
      if s[0] == '\n' {
        ConcatHead(first, rest);
      } else {
        LimitSkips(first, rest, '\n' as byte, lines);
      }
      var m, n := Limit(rest, '\n' as byte, left), Limit(s[1..], '\n', left);
      assert Limit(Encode(s), '\n' as byte, lines) == |first| + m && Limit(s, '\n', lines) == 1 + n;
      hide *;
      TakeAcross(first, rest, m);
      EncodeTake(s, n);
    }
  }

  /** For a file in UTF-8, the head is the text of its first lines, unless that takes too many bytes. */
  lemma HeadOfText(content: seq<byte>, text: string)
    requires Decode(content) == Some(text)
    ensures var lines := text[..Limit(text, '\n', 80)];
            Head(content) == if |Encode(lines)| > 65536 then None else Some(lines)
  {
    EncodeDecode(content);
    LimitOfEncoding(text, TAG_SCAN_MAX_LINES);
    DecodeEncode(text[..Limit(text, '\n', TAG_SCAN_MAX_LINES)]);
  }

  lemma SamePrefix(a: seq<byte>, b: seq<byte>, n: nat, m: nat)
    requires n <= |a| && n <= |b| && a[..n] == b[..n]
    ensures m < n ==> a[..m] == b[..m]
  {
    if m < n { assert a[..m] == a[..n][..m] && b[..m] == b[..n][..m]; }
  }

  /** Two files that agree up to the first byte too many have the same head. */
  lemma {:induction false} HeadIsLocal(a: seq<byte>, b: seq<byte>)
    requires HeadLength(a) <= |b| && a[..HeadLength(a)] == b[..HeadLength(a)]
    requires HeadLength(a) < |a|
    ensures Head(a) == Head(b)
  {
    LimitIsShortest(a, '\n' as byte, TAG_SCAN_MAX_LINES);
    LimitIsShortest(b, '\n' as byte, TAG_SCAN_MAX_LINES);
    var n := HeadLength(a);
    assert Newlines(a[..n], '\n' as byte) == TAG_SCAN_MAX_LINES;
    SamePrefix(a, b, n, HeadLength(b));
  }
}
