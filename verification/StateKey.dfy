/** Directory names for managed Pi sessions: a bounded hex prefix of the session id and a 64-bit FNV hash of all of
    it. */
module StateKey {

  type Byte = b: nat | b < 256

  const MODULUS: nat := 0x1_0000_0000_0000_0000
  const OFFSET_BASIS: nat := 0xcbf2_9ce4_8422_2325

  type Word = w: nat | w < MODULUS

  // ---------- Exclusive or ----------

  function Xor(x: nat, y: nat): nat {
    if x == 0 && y == 0 then 0 else 2 * Xor(x / 2, y / 2) + (x + y) % 2
  }

  lemma XorSteps(x: nat, y: nat)
    ensures Xor(x, y) / 2 == Xor(x / 2, y / 2) && Xor(x, y) % 2 == (x + y) % 2
  {
  }

  lemma Parity(z: nat, x: nat, y: nat)
    requires z % 2 == (x + y) % 2
    ensures (z + y) % 2 == x % 2
  {
  }

  lemma {:induction false} XorUndoes(x: nat, y: nat)
    ensures Xor(Xor(x, y), y) == x
    decreases x + y
  {
    if x != 0 || y != 0 {
      hide Xor;
      var z := Xor(x, y);
      XorUndoes(x / 2, y / 2);
      XorSteps(x, y);
      XorSteps(z, y);
      Parity(z, x, y);
      assert Xor(z, y) / 2 == x / 2;
    }
  }

  lemma {:induction false} XorCommutes(x: nat, y: nat)
    ensures Xor(x, y) == Xor(y, x)
    decreases x + y
  {
    if x != 0 || y != 0 {
      XorCommutes(x / 2, y / 2);
    }
  }

  function Pow2(k: nat): nat {
    if k == 0 then 1 else 2 * Pow2(k - 1)
  }

  lemma {:induction false} Pow2Doubles(k: nat)
    ensures Pow2(2 * k) == Pow2(k) * Pow2(k)
  {
    if k > 0 {
      Pow2Doubles(k - 1);
      var half := Pow2(k - 1);
      assert Pow2(2 * k) == 4 * Pow2(2 * (k - 1));
      assert (2 * half) * (2 * half) == 4 * (half * half);
    }
  }

  lemma WordSizes()
    ensures Pow2(8) == 256 && Pow2(64) == 0x1_0000_0000_0000_0000
  {
    assert Pow2(8) == 256;
    Pow2Doubles(8);
    Pow2Doubles(16);
    Pow2Doubles(32);
  }

  lemma {:induction false} XorFits(x: nat, y: nat, k: nat)
    requires x < Pow2(k) && y < Pow2(k)
    ensures Xor(x, y) < Pow2(k)
    decreases k
  {
    if k > 0 && (x != 0 || y != 0) {
      XorFits(x / 2, y / 2, k - 1);
    }
  }

  // ---------- The hash ----------

  /** `wrapping_mul` by the FNV prime. */
  function MulPrime(x: Word): Word {
    x * 0x100_0000_01b3 % 0x1_0000_0000_0000_0000
  }

  lemma ByteXorFits(hash: Word, byte: Byte)
    ensures Xor(hash, byte) < MODULUS
  {
    WordSizes();
    XorFits(hash, byte, 64);
  }

  /** One round: exclusive or with the byte, then a wrapping multiplication. */
  function Mix(hash: Word, byte: Byte): Word {
    ByteXorFits(hash, byte);
    MulPrime(Xor(hash, byte))
  }

  function HashFrom(hash: Word, bytes: seq<Byte>): Word {
    if bytes == [] then hash else Mix(HashFrom(hash, bytes[..|bytes| - 1]), bytes[|bytes| - 1])
  }

  function Hash(bytes: seq<Byte>): Word {
    HashFrom(OFFSET_BASIS, bytes)
  }

  /** Multiplying by the odd prime loses nothing modulo 2^64. */
  lemma MulInjective(x: Word, y: Word)
    requires MulPrime(x) == MulPrime(y)
    ensures x == y
  {
    var a := x * 0x100_0000_01b3 / 0x1_0000_0000_0000_0000;
    var b := y * 0x100_0000_01b3 / 0x1_0000_0000_0000_0000;
    var difference := x - y;
    assert difference * 0x100_0000_01b3 == 0x1_0000_0000_0000_0000 * (a - b);
    // 0xce96_5057_aff6_957b is the inverse of the prime: their product is 1 + 0xce_9650_590f * 2^64.
    assert difference == 0x1_0000_0000_0000_0000 * (0xce96_5057_aff6_957b * (a - b) - 0xce_9650_590f * difference);
  }

  /** A round is a bijection of the hash for each byte, and tells bytes apart for each hash. */
  lemma MixInjective(hash: Word, byte: Byte, hash': Word, byte': Byte)
    requires Mix(hash, byte) == Mix(hash', byte')
    ensures byte == byte' ==> hash == hash'
    ensures hash == hash' ==> byte == byte'
  {
    ByteXorFits(hash, byte);
    ByteXorFits(hash', byte');
    MulInjective(Xor(hash, byte), Xor(hash', byte'));
    XorUndoes(hash, byte);
    XorUndoes(hash', byte');
    XorCommutes(hash, byte);
    XorCommutes(hash', byte');
    XorUndoes(byte, hash);
    XorUndoes(byte', hash');
  }

  lemma {:induction false} HashSplits(hash: Word, a: seq<Byte>, b: seq<Byte>)
    ensures HashFrom(hash, a + b) == HashFrom(HashFrom(hash, a), b)
  {
    if b == [] {
      assert a + b == a;
    } else {
      var n := |b| - 1;
      HashSplits(hash, a, b[..n]);
      assert (a + b)[..|a + b| - 1] == a + b[..n];
    }
  }

  lemma {:induction false} SuffixKeepsApart(hash: Word, hash': Word, bytes: seq<Byte>)
    requires HashFrom(hash, bytes) == HashFrom(hash', bytes)
    ensures hash == hash'
  {
    if bytes != [] {
      var n := |bytes| - 1;
      MixInjective(HashFrom(hash, bytes[..n]), bytes[n], HashFrom(hash', bytes[..n]), bytes[n]);
      SuffixKeepsApart(hash, hash', bytes[..n]);
    }
  }

  lemma XorUnrolls(x: nat, y: nat)
    ensures Xor(x, y) == 2 * Xor(x / 2, y / 2) + (x + y) % 2
  {
  }

  lemma {:induction false} XorZero(x: nat)
    ensures Xor(x, 0) == x
  {
    if x != 0 { XorZero(x / 2); }
  }

  lemma BasisWithA()
    ensures Xor(0xcbf2_9ce4_8422_2325, 97) == 0xcbf2_9ce4_8422_2344
  {
    hide Xor;
    XorUnrolls(0xcbf2_9ce4_8422_2325, 97);
    XorUnrolls(0x65f9_4e72_4211_1192, 48);
    XorUnrolls(0x32fc_a739_2108_88c9, 24);
    XorUnrolls(0x197e_539c_9084_4464, 12);
    XorUnrolls(0xcbf_29ce_4842_2232, 6);
    XorUnrolls(0x65f_94e7_2421_1119, 3);
    XorUnrolls(0x32f_ca73_9210_888c, 1);
    XorZero(0x197_e539_c908_4446);
  }

  lemma HashOfOne(byte: Byte)
    ensures Hash([]) == OFFSET_BASIS && Hash([byte]) == Mix(OFFSET_BASIS, byte)
  {
    hide Mix;
    assert [byte][..0] == [];
  }

  /** Published test vectors of FNV-1a: the empty input, and the letter `a`. */
  lemma KnownHashes()
    ensures Hash([]) == 0xcbf2_9ce4_8422_2325 && Hash([97]) == 0xaf63_dc4c_8601_ec8c
  {
    hide HashFrom, Hash, Xor;
    HashOfOne(97);
    BasisWithA();
  }

  // ---------- Hexadecimal ----------

  function HexDigit(d: nat): char
    requires d < 16
  {
    "0123456789abcdef"[d]
  }

  lemma HexDigitInjective(d: nat, e: nat)
    requires d < 16 && e < 16 && HexDigit(d) == HexDigit(e)
    ensures d == e
  {
  }

  function Hex(n: nat, width: nat): (s: string)
    ensures |s| == width
    ensures forall c | c in s :: '0' <= c <= '9' || 'a' <= c <= 'f'
  {
    if width == 0 then "" else Hex(n / 16, width - 1) + [HexDigit(n % 16)]
  }

  lemma Pow2Steps(k: nat)
    ensures Pow2(k + 2) == 4 * Pow2(k)
  {
    assert Pow2(k + 1) == 2 * Pow2(k);
  }

  lemma Pow2Quadruples(width: nat)
    requires width > 0
    ensures Pow2(4 * width) == 16 * Pow2(4 * (width - 1))
  {
    hide Pow2;
    var k := 4 * (width - 1);
    Pow2Steps(k);
    Pow2Steps(k + 2);
    assert 4 * width == k + 4;
  }

  lemma HexSteps(n: nat, width: nat)
    requires width > 0
    ensures Hex(n, width)[..width - 1] == Hex(n / 16, width - 1) && Hex(n, width)[width - 1] == HexDigit(n % 16)
  {
  }

  lemma {:induction false} HexInjective(m: nat, n: nat, width: nat)
    requires m < Pow2(4 * width) && n < Pow2(4 * width)
    requires Hex(m, width) == Hex(n, width)
    ensures m == n
  {
    if width > 0 {
      hide Hex, Pow2, HexDigit;
      Pow2Quadruples(width);
      HexSteps(m, width);
      HexSteps(n, width);
      var h, g := Hex(m, width), Hex(n, width);
      assert h[..width - 1] == g[..width - 1] && h[width - 1] == g[width - 1];
      HexDigitInjective(m % 16, n % 16);
      HexInjective(m / 16, n / 16, width - 1);
    }
  }

  function HexBytes(bytes: seq<Byte>): (s: string)
    ensures |s| == 2 * |bytes|
    ensures forall c | c in s :: '0' <= c <= '9' || 'a' <= c <= 'f'
  {
    if bytes == [] then "" else HexBytes(bytes[..|bytes| - 1]) + Hex(bytes[|bytes| - 1], 2)
  }

  lemma HexByteInjective(x: Byte, y: Byte)
    requires Hex(x, 2) == Hex(y, 2)
    ensures x == y
  {
    hide Hex;
    WordSizes();
    HexInjective(x, y, 2);
  }

  lemma HexBytesEnd(a: seq<Byte>)
    requires a != []
    ensures var n, s := |a| - 1, HexBytes(a);
            |s| == 2 * n + 2 && s[..2 * n] == HexBytes(a[..n]) && s[2 * n..] == Hex(a[n], 2)
  {
    hide Hex;
  }

  lemma {:induction false} HexBytesInjective(a: seq<Byte>, b: seq<Byte>)
    requires HexBytes(a) == HexBytes(b)
    ensures a == b
  {
    if a != [] {
      hide *;
      var n := |a| - 1;
      assert |HexBytes(a)| == 2 * |a| && |HexBytes(b)| == 2 * |b| && |a| == |b|;
      HexBytesEnd(a);
      HexBytesEnd(b);
      HexByteInjective(a[n], b[n]);
      HexBytesInjective(a[..n], b[..n]);
      assert a == a[..n] + [a[n]] && b == b[..n] + [b[n]];
    }
  }

  // ---------- The key ----------

  function Head(id: seq<Byte>): seq<Byte> {
    if |id| <= 48 then id else id[..48]
  }

  function Key(id: seq<Byte>): string {
    "session-" + HexBytes(Head(id)) + "-" + Hex(Hash(id), 16)
  }

  method PiManagedStateKey(id: seq<Byte>) returns (key: string)
    ensures key == Key(id)
  {
    var hash: Word := OFFSET_BASIS;
    for i := 0 to |id|
      invariant hash == Hash(id[..i])
    {
      assert id[..i + 1][..i] == id[..i];
      hash := Mix(hash, id[i]);
    }
    assert id[..|id|] == id;
    key := "session-" + HexBytes(Head(id)) + "-" + Hex(hash, 16);
  }

  /** The value of hexadecimal digits, lower-case letters for those from ten on. */
  function ReadHex(s: string): int {
    if s == "" then 0
    else
      var c := s[|s| - 1];
      16 * ReadHex(s[..|s| - 1]) + (if '0' <= c <= '9' then c as int - '0' as int else c as int - 'a' as int + 10)
  }

  lemma DigitReads(d: nat)
    requires d < 16
    ensures var c := HexDigit(d);
            d == if '0' <= c <= '9' then c as int - '0' as int else c as int - 'a' as int + 10
  {
  }

  lemma {:induction false} HexReads(n: nat, width: nat)
    requires n < Pow2(4 * width)
    ensures ReadHex(Hex(n, width)) == n
  {
    if width > 0 {
      hide Hex, Pow2, HexDigit;
      Pow2Quadruples(width);
      HexSteps(n, width);
      HexReads(n / 16, width - 1);
      DigitReads(n % 16);
    }
  }

  /** The key starts with a fixed word, and its last sixteen characters spell the hash of the whole id. */
  lemma KeySpellsHash(id: seq<Byte>)
    ensures var k := Key(id);
            |k| >= 25 && k[..8] == "session-" && k[|k| - 17] == '-' && ReadHex(k[|k| - 16..]) == Hash(id)
  {
    hide Hex, HexBytes, Hash, Pow2, ReadHex;
    WordSizes();
    HexReads(Hash(id), 16);
    var k := Key(id);
    assert k[|k| - 16..] == Hex(Hash(id), 16);
  }

  /** Every key is a short path component of lower-case letters, digits and dashes. */
  lemma KeyIsPathSafe(id: seq<Byte>)
    ensures |Key(id)| <= 121
    ensures forall c | c in Key(id) :: '0' <= c <= '9' || 'a' <= c <= 'z' || c == '-'
  {
    assert forall c | c in "session-" :: 'a' <= c <= 'z' || c == '-';
  }

  /** A key determines the first 48 bytes, the hash, and the length when it is below 48. */
  lemma KeyDetermines(a: seq<Byte>, b: seq<Byte>)
    requires Key(a) == Key(b)
    ensures Head(a) == Head(b) && Hash(a) == Hash(b)
  {
    hide Hex, HexBytes, Hash, Pow2;
    var k, l := Key(a), Key(b);
    var n := 2 * |Head(a)|;
    assert |Head(a)| == |Head(b)|;
    assert k[8..8 + n] == HexBytes(Head(a)) && l[8..8 + n] == HexBytes(Head(b));
    HexBytesInjective(Head(a), Head(b));
    assert k[9 + n..] == Hex(Hash(a), 16) && l[9 + n..] == Hex(Hash(b), 16);
    WordSizes();
    HexInjective(Hash(a), Hash(b), 16);
  }

  /** Ids below 48 bytes never share a key with any other id. */
  lemma ShortIdsGetOwnKeys(a: seq<Byte>, b: seq<Byte>)
    requires Key(a) == Key(b) && |a| < 48
    ensures a == b
  {
    KeyDetermines(a, b);
  }

  /** Two ids of one length that differ in a single byte, anywhere, have different keys. */
  lemma OneByteMakesAnotherKey(a: seq<Byte>, b: seq<Byte>, i: nat)
    requires i < |a| == |b| && a[i] != b[i] && a[..i] == b[..i] && a[i + 1..] == b[i + 1..]
    ensures Hash(a) != Hash(b) && Key(a) != Key(b)
  {
    if Hash(a) == Hash(b) {
      var h := Hash(a[..i]);
      assert a == a[..i + 1] + a[i + 1..] && b == b[..i + 1] + b[i + 1..];
      HashSplits(OFFSET_BASIS, a[..i + 1], a[i + 1..]);
      HashSplits(OFFSET_BASIS, b[..i + 1], b[i + 1..]);
      SuffixKeepsApart(Hash(a[..i + 1]), Hash(b[..i + 1]), a[i + 1..]);
      assert a[..i + 1][..i] == a[..i] && b[..i + 1][..i] == b[..i];
      MixInjective(h, a[i], h, b[i]);
      assert false;
    }
    if Key(a) == Key(b) {
      KeyDetermines(a, b);
    }
  }
}
