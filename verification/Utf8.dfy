/** UTF-8 as Python's `str.encode()` writes it and `bytes.decode(errors="replace")` reads it. A Dafny
    `char` is a Unicode scalar value, so a `string` is a `str` that `encode()` accepts. */
module Utf8 {
  import opened Wire
  import Seqs

  function EncodeChar(c: char): (b: bytes)
    ensures 1 <= |b| <= 4
  {
    var n := c as int;
    if n < 0x80 then [n]
    else if n < 0x800 then [0xC0 + n / 64, 0x80 + n % 64]
    else if n < 0x1_0000 then [0xE0 + n / 4096, 0x80 + n / 64 % 64, 0x80 + n % 64]
    else [0xF0 + n / 0x4_0000, 0x80 + n / 4096 % 64, 0x80 + n / 64 % 64, 0x80 + n % 64]
  }

  function Encode(s: string): bytes {
    if s == [] then [] else EncodeChar(s[0]) + Encode(s[1..])
  }

  predicate Continuation(b: byte) {
    0x80 <= b < 0xC0
  }

  /** The second byte a three- or four-byte lead admits: no overlong form, no surrogate, nothing above U+10FFFF. */
  predicate SecondByte(lead: byte, b: byte) {
    && Continuation(b)
    && (lead == 0xE0 ==> 0xA0 <= b)
    && (lead == 0xED ==> b < 0xA0)
    && (lead == 0xF0 ==> 0x90 <= b)
    && (lead == 0xF4 ==> b < 0x90)
  }

  /** Six more bits after the bits read so far. */
  function Bits(high: int, low: int): int {
    high * 64 + (low - 0x80)
  }

  /** What stands at the front of a byte string: a character, or a maximal ill-formed run. */
  datatype Piece = Good(c: char, size: nat) | Junk(size: nat)

  function FirstPiece(b: bytes): (p: Piece)
    requires b != []
    ensures 1 <= p.size <= |b|
  {
    var b0 := b[0];
    if b0 < 0x80 then Good(b0 as char, 1)
    else if b0 < 0xC2 || 0xF4 < b0 then Junk(1)
    else if b0 < 0xE0 then
      if |b| < 2 || !Continuation(b[1]) then Junk(1)
      else Good(Bits(b0 - 0xC0, b[1]) as char, 2)
    else if |b| < 2 || !SecondByte(b0, b[1]) then Junk(1)
    else if |b| < 3 || !Continuation(b[2]) then Junk(2)
    else if b0 < 0xF0 then
      Good(Bits(Bits(b0 - 0xE0, b[1]), b[2]) as char, 3)
    else if |b| < 4 || !Continuation(b[3]) then Junk(3)
    else
      Good(Bits(Bits(Bits(b0 - 0xF0, b[1]), b[2]), b[3]) as char, 4)
  }

  const REPLACEMENT: char := '\U{FFFD}'

  /** `b.decode(errors="replace")` */
  function Decode(b: bytes): string {
    if b == [] then []
    else
      var p := FirstPiece(b);
      [if p.Good? then p.c else REPLACEMENT] + Decode(b[p.size..])
  }

  predicate WellFormed(b: bytes) {
    b == [] || (FirstPiece(b).Good? && WellFormed(b[FirstPiece(b).size..]))
  }

  lemma FirstPieceOfEncoded(c: char, rest: bytes)
    ensures FirstPiece(EncodeChar(c) + rest) == Good(c, |EncodeChar(c)|)
  {
    var n := c as int;
    assert n % 64 == n - n / 64 * 64;
    assert n / 64 % 64 == n / 64 - n / 4096 * 64;
    assert n / 4096 % 64 == n / 4096 - n / 0x4_0000 * 64;
  }

  /** Splitting off the six low bits undoes `Bits`. */
  lemma BitsSplit(high: int, low: int)
    requires 0 <= high && 0x80 <= low < 0xC0
    ensures Bits(high, low) / 64 == high && Bits(high, low) % 64 == low - 0x80
  {
  }

  lemma GoodPieceIsEncoded(b: bytes)
    requires b != [] && FirstPiece(b).Good?
    ensures b[..FirstPiece(b).size] == EncodeChar(FirstPiece(b).c)
  {
    var b0 := b[0];
    if b0 < 0x80 {
    } else if b0 < 0xE0 {
      BitsSplit(b0 - 0xC0, b[1]);
    } else if b0 < 0xF0 {
      BitsSplit(b0 - 0xE0, b[1]);
      BitsSplit(Bits(b0 - 0xE0, b[1]), b[2]);
      DivDiv(FirstPiece(b).c as int);
    } else {
      BitsSplit(b0 - 0xF0, b[1]);
      BitsSplit(Bits(b0 - 0xF0, b[1]), b[2]);
      BitsSplit(Bits(Bits(b0 - 0xF0, b[1]), b[2]), b[3]);
      DivDiv(FirstPiece(b).c as int);
    }
  }

  lemma DivDiv(n: nat)
    ensures n / 4096 == n / 64 / 64 && n / 0x4_0000 == n / 64 / 64 / 64
  {
  }

  lemma {:induction false} DecodeEncode(s: string)
    ensures Decode(Encode(s)) == s && WellFormed(Encode(s))
  {
    if s != [] {
      FirstPieceOfEncoded(s[0], Encode(s[1..]));
      assert Encode(s)[|EncodeChar(s[0])|..] == Encode(s[1..]);
      DecodeEncode(s[1..]);
    }
  }

  lemma DecodeStep(b: bytes)
    requires b != [] && WellFormed(b)
    ensures var p := FirstPiece(b);
            && p.Good? && 1 <= p.size <= |b| && WellFormed(b[p.size..])
            && Decode(b) == [p.c] + Decode(b[p.size..])
  {
    hide FirstPiece;
  }

  lemma {:induction false} EncodeDecodeWellFormed(b: bytes)
    requires WellFormed(b)
    ensures Encode(Decode(b)) == b
  {
    hide *;
    if b == [] {
      NothingCoded();
    } else {
      var p := FirstPiece(b);
      DecodeStep(b);
      GoodPieceIsEncoded(b);
      var rest := b[p.size..];
      EncodeDecodeWellFormed(rest);
      EncodeOneMore(p.c, Decode(rest));
      assert b == b[..p.size] + rest;
    }
  }

  lemma NothingCoded()
    ensures Decode([]) == [] && Encode([]) == []
  {
  }

  lemma EncodeOneMore(c: char, s: string)
    ensures Encode([c] + s) == EncodeChar(c) + Encode(s)
  {
    hide EncodeChar;
    assert ([c] + s)[1..] == s;
  }

  /** Decoding and encoding again gives the bytes back exactly when they were well-formed UTF-8. */
  lemma ReencodingIsIdentityIff(b: bytes)
    ensures Encode(Decode(b)) == b <==> WellFormed(b)
  {
    if WellFormed(b) {
      EncodeDecodeWellFormed(b);
    } else {
      DecodeEncode(Decode(b));
    }
  }

  /** A replaced byte grows to at most three. */
  lemma {:induction false} ReencodedLength(b: bytes)
    ensures |Encode(Decode(b))| <= 3 * |b|
  {
    if b != [] {
      var p := FirstPiece(b);
      ReencodedLength(b[p.size..]);
      var d := Decode(b);
      assert d[1..] == Decode(b[p.size..]);
      assert |EncodeChar(d[0])| <= 3 * p.size;
    }
  }

  // ---- what is replaced ----

  /** Bytes that start afresh are decoded as on their own: whatever is broken before them costs none of them. */
  lemma {:induction false} DecodeSplits(b: bytes, x: bytes)
    requires x != [] ==> !Continuation(x[0])
    ensures Decode(b + x) == Decode(b) + Decode(x)
  {
    if b == [] {
      assert b + x == x;
    } else {
      var p := FirstPiece(b);
      SamePiece(b, x);
      hide FirstPiece;
      var rest := b[p.size..];
      assert (b + x)[p.size..] == rest + x;
      DecodeSplits(rest, x);
      var c := [if p.Good? then p.c else REPLACEMENT];
      assert Decode(b + x) == c + Decode(rest + x) && Decode(b) == c + Decode(rest);
      hide Decode;
      Seqs.Associate(c, Decode(rest), Decode(x));
    }
  }

  lemma SamePiece(b: bytes, x: bytes)
    requires b != [] && (x != [] ==> !Continuation(x[0]))
    ensures FirstPiece(b + x) == FirstPiece(b)
  {
    hide Bits;
    var bx := b + x;
    assert forall i :: 0 <= i < |b| ==> bx[i] == b[i];
    assert |b| < |bx| ==> bx[|b|] == x[0];
  }

  /** A character cut short is replaced by a single U+FFFD. */
  lemma CutCharacter(c: char, k: nat)
    requires 0 < k < |EncodeChar(c)|
    ensures Decode(EncodeChar(c)[..k]) == [REPLACEMENT]
  {
    var b := EncodeChar(c)[..k];
    var n := c as int;
    assert b[0] == EncodeChar(c)[0];
    assert k >= 2 ==> b[1] == EncodeChar(c)[1];
    assert k >= 3 ==> b[2] == EncodeChar(c)[2];
    assert n / 64 % 64 == n / 64 - n / 4096 * 64;
    assert n / 4096 % 64 == n / 4096 - n / 0x4_0000 * 64;
    assert FirstPiece(b) == Junk(k);
    assert b[k..] == [];
  }

  /** A byte that starts no character is replaced alone. */
  lemma StrayByte(x: byte, rest: bytes)
    requires Continuation(x) || x == 0xC0 || x == 0xC1 || x > 0xF4
    ensures Decode([x] + rest) == [REPLACEMENT] + Decode(rest)
  {
    assert ([x] + rest)[1..] == rest;
  }

  /** A lead byte before a byte it does not admit is replaced alone, and that byte is decoded afresh. */
  lemma BrokenLead(lead: byte, x: byte, rest: bytes)
    requires 0xC2 <= lead <= 0xF4 && if lead < 0xE0 then !Continuation(x) else !SecondByte(lead, x)
    ensures Decode([lead, x] + rest) == [REPLACEMENT] + Decode([x] + rest)
  {
    var b := [lead, x] + rest;
    assert b[0] == lead && b[1] == x && b[1..] == [x] + rest;
  }
}
