/** UTF-8 as section 3 of RFC 3629 defines it. */
module Utf8 {
  import opened Common
  import opened Text

  type byte = x: int | 0 <= x < 256

  function EncodeChar(c: char): (b: seq<byte>)
    ensures 1 <= |b| <= 4
  {
    var cp := c as int;
    if cp < 0x80 then [cp]
    else if cp < 0x800 then [0xC0 + cp / 64, 0x80 + cp % 64]
    else if cp < 0x1_0000 then [0xE0 + cp / 4096, 0x80 + cp / 64 % 64, 0x80 + cp % 64]
    else [0xF0 + cp / 262144, 0x80 + cp / 4096 % 64, 0x80 + cp / 64 % 64, 0x80 + cp % 64]
  }

  function Encode(s: string): seq<byte> {
    if s == "" then [] else EncodeChar(s[0]) + Encode(s[1..])
  }

  predicate Tail(b: byte) {
    0x80 <= b <= 0xBF
  }

  /** The length of the character the bytes start with, 0 if they do not start with one. */
  function CharLength(b: seq<byte>): (n: nat)
    ensures n <= 4 && n <= |b|
  {
    if b == [] then 0
    else if b[0] < 0x80 then 1
    else if |b| >= 2 && 0xC2 <= b[0] <= 0xDF && Tail(b[1]) then 2
    else if |b| >= 3 && 0xE0 <= b[0] <= 0xEF && Tail(b[1]) && Tail(b[2])
         && (b[0] == 0xE0 ==> 0xA0 <= b[1]) && (b[0] == 0xED ==> b[1] <= 0x9F) then 3
    else if |b| >= 4 && 0xF0 <= b[0] <= 0xF4 && Tail(b[1]) && Tail(b[2]) && Tail(b[3])
         && (b[0] == 0xF0 ==> 0x90 <= b[1]) && (b[0] == 0xF4 ==> b[1] <= 0x8F) then 4
    else 0
  }

  /** The bits that a trailing byte adds to those read so far. */
  function Add(bits: int, b: byte): int {
    bits * 64 + b as int - 0x80
  }

  function DecodeChar(b: seq<byte>): char
    requires CharLength(b) != 0
  {
    var lead: int := b[0];
    match CharLength(b)
    case 1 => lead as char
    case 2 => Add(lead - 0xC0, b[1]) as char
    case 3 => Add(Add(lead - 0xE0, b[1]), b[2]) as char
    case _ => Add(Add(Add(lead - 0xF0, b[1]), b[2]), b[3]) as char
  }

  /** `String::from_utf8`. */
  function Decode(b: seq<byte>): Option<string>
    decreases |b|
  {
    if b == [] then Some("")
    else if CharLength(b) == 0 then None
    else
      match Decode(b[CharLength(b)..])
      case None => None
      case Some(rest) => Some([DecodeChar(b)] + rest)
  }

  lemma Digits64(cp: int)
    requires 0 <= cp < 0x11_0000
    ensures cp == cp / 64 * 64 + cp % 64 && cp / 64 == cp / 4096 * 64 + cp / 64 % 64
    ensures cp / 4096 == cp / 262144 * 64 + cp / 4096 % 64
    ensures cp / 262144 <= 4 && (cp / 262144 == 4 ==> cp / 4096 % 64 < 16)
  {
  }

  lemma DecodesEncodedChar(c: char, rest: seq<byte>)
    ensures var b := EncodeChar(c) + rest;
            CharLength(b) == |EncodeChar(c)| && DecodeChar(b) == c && b[CharLength(b)..] == rest
  {
    var cp, enc := c as int, EncodeChar(c);
    var b := enc + rest;
    assert forall i | 0 <= i < |enc| :: b[i] == enc[i];
    Digits64(cp);
  }

  lemma AddSplits(bits: int, b: byte)
    requires Tail(b)
    ensures Add(bits, b) / 64 == bits && Add(bits, b) % 64 == b - 0x80
  {
  }

  lemma ThreeSplit(lead: int, b1: byte, b2: byte, cp: int)
    requires Tail(b1) && Tail(b2) && cp == Add(Add(lead, b1), b2)
    ensures cp / 4096 == lead && cp / 64 % 64 == b1 - 0x80 && cp % 64 == b2 - 0x80
  {
    AddSplits(lead, b1);
    AddSplits(Add(lead, b1), b2);
    assert cp / 4096 == cp / 64 / 64;
  }

  lemma FourSplit(lead: int, b1: byte, b2: byte, b3: byte, cp: int)
    requires Tail(b1) && Tail(b2) && Tail(b3) && cp == Add(Add(Add(lead, b1), b2), b3)
    ensures cp / 262144 == lead && cp / 4096 % 64 == b1 - 0x80 && cp / 64 % 64 == b2 - 0x80 && cp % 64 == b3 - 0x80
  {
    ThreeSplit(lead, b1, b2, Add(Add(lead, b1), b2));
    AddSplits(Add(Add(lead, b1), b2), b3);
    assert cp / 4096 == cp / 64 / 64 && cp / 262144 == cp / 64 / 4096;
  }

  lemma EncodesDecodedChar(b: seq<byte>)
    requires CharLength(b) != 0
    ensures EncodeChar(DecodeChar(b)) == b[..CharLength(b)]
  {
    var lead: int := b[0];
    match CharLength(b)
    case 1 =>
    case 2 =>
      AddSplits(lead - 0xC0, b[1]);
    case 3 =>
      ThreeSplit(lead - 0xE0, b[1], b[2], DecodeChar(b) as int);
    case _ =>
      FourSplit(lead - 0xF0, b[1], b[2], b[3], DecodeChar(b) as int);
  }

  lemma {:induction false} DecodeEncode(s: string)
    ensures Decode(Encode(s)) == Some(s)
    decreases |s|
  {
    hide EncodeChar, CharLength, DecodeChar;
    if s != "" {
      DecodeEncode(s[1..]);
      DecodesEncodedChar(s[0], Encode(s[1..]));
      assert s == [s[0]] + s[1..];
    }
  }

  /** Valid bytes are the encoding of what they decode to, and of nothing else. */
  lemma {:induction false} EncodeDecode(b: seq<byte>)
    requires Decode(b).Some?
    ensures Encode(Decode(b).value) == b
    decreases |b|
  {
    hide EncodeChar, CharLength, DecodeChar;
    if b != [] {
      var n := CharLength(b);
      EncodeDecode(b[n..]);
      EncodesDecodedChar(b);
      TakeDrop(b, n);
      ConcatHead([DecodeChar(b)], Decode(b[n..]).value);
    }
  }
}
