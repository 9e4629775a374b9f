/** Pilot addresses: `network:NNNN.HHHH.LLLL` as text, six bytes on the wire. */
module Address {
  import opened Wire
  import opened Seqs
  import opened Json
  import JsonText

  datatype Addr = Addr(network: nat, node: nat)

  /** What `struct.pack(">HI", ...)` accepts. */
  predicate InRange(a: Addr) {
    a.network < 0x1_0000 && a.node < 0x1_0000_0000
  }

  function Pack(a: Addr): bytes
    requires InRange(a)
  {
    U16(a.network) + U32(a.node)
  }

  function Unpack(b: bytes, at: nat): Addr
    requires at + 6 <= |b|
  {
    Addr(GetU16(b, at), GetU32(b, at + 2))
  }

  // ---- text ----

  function HexUpper(n: nat): char
    requires n < 16
  {
    if n < 10 then '0' + n as char else 'A' + (n - 10) as char
  }

  /** `{n:04X}` */
  function Upper4(n: nat): (s: string)
    requires n < 0x1_0000
    ensures |s| == 4
  {
    [HexUpper(n / 4096), HexUpper(n / 256 % 16), HexUpper(n / 16 % 16), HexUpper(n % 16)]
  }

  function Decimal(n: nat): (s: string)
    ensures s != []
  {
    if n < 10 then ['0' + n as char] else Decimal(n / 10) + ['0' + (n % 10) as char]
  }

  function DigitValue(c: char): nat
    requires IsDigit(c)
  {
    c as int - '0' as int
  }

  function DecimalValue(s: string): nat
    requires forall c <- s :: IsDigit(c)
  {
    if s == [] then 0
    else
      var last := s[|s| - 1];
      assert last in s && IsDigit(last);
      DecimalValue(s[..|s| - 1]) * 10 + DigitValue(last)
  }

  /** `__str__` */
  function Text(a: Addr): string
    requires InRange(a)
  {
    Decimal(a.network) + (":" + Upper4(a.network) + "." + Upper4(a.node / 0x1_0000) + "." + Upper4(a.node % 0x1_0000))
  }

  /** The four-digit groups after the decimal field; `$` also matches before a final newline. */
  function Tail(t: string): Option<(nat, nat, nat)> {
    if (|t| != 15 && !(|t| == 16 && t[15] == '\n')) || t[0] != ':' || t[5] != '.' || t[10] != '.'
       || HexAt(t, 1) < 0 || HexAt(t, 6) < 0 || HexAt(t, 11) < 0 then None
    else Some((HexAt(t, 1), HexAt(t, 6), HexAt(t, 11)))
  }

  /** `parse`; `None` is its ValueError. */
  function Parse(s: string): Option<Addr> {
    var d := Digits(s);
    JsonText.DigitsAreDigits(s);
    var t := Tail(s[d..]);
    if d == 0 || t.None? || DecimalValue(s[..d]) != t.value.0 then None
    else Some(Addr(t.value.0, t.value.1 * 0x1_0000 + t.value.2))
  }

  // ---- round trips ----

  lemma PackUnpack(a: Addr, before: bytes, after: bytes)
    requires InRange(a)
    ensures Unpack(before + Pack(a) + after, |before|) == a
  {
    hide U16, U32, GetU16, GetU32;
    var b, n := before + Pack(a) + after, |before|;
    Lengths(a);
    assert b[n..n + 2] == U16(a.network);
    assert b[n + 2..n + 6] == U32(a.node);
    U16Get(b, n, a.network);
    U32Get(b, n + 2, a.node);
  }

  lemma Lengths(a: Addr)
    requires InRange(a)
    ensures |U16(a.network)| == 2 && |U32(a.node)| == 4
  {
  }

  lemma UnpackPack(b: bytes, at: nat)
    requires at + 6 <= |b|
    ensures InRange(Unpack(b, at)) && Pack(Unpack(b, at)) == b[at..at + 6]
  {
    hide U16, U32, GetU16, GetU32;
    U16Put(b, at);
    U32Put(b, at + 2);
    assert b[at..at + 6] == b[at..at + 2] + b[at + 2..at + 6];
  }

  lemma {:induction false} DecimalRoundTrip(n: nat)
    ensures forall c <- Decimal(n) :: IsDigit(c)
    ensures DecimalValue(Decimal(n)) == n
  {
    if n >= 10 {
      DecimalRoundTrip(n / 10);
      var s := Decimal(n);
      assert s[..|s| - 1] == Decimal(n / 10);
    }
  }

  lemma UpperValue(n: nat)
    requires n < 16
    ensures HexValue(HexUpper(n)) == n
  {
  }

  lemma UpperAt(t: string, at: nat, n: nat)
    requires n < 0x1_0000 && at + 4 <= |t| && t[at..at + 4] == Upper4(n)
    ensures HexAt(t, at) == n
  {
    var w := t[at..at + 4];
    assert w == [t[at], t[at + 1], t[at + 2], t[at + 3]];
    UpperValue(n / 4096);
    UpperValue(n / 256 % 16);
    UpperValue(n / 16 % 16);
    UpperValue(n % 16);
    JsonText.HexDigits(n);
  }

  lemma {:induction false} AllDigits(t: string)
    requires forall c <- t :: IsDigit(c)
    ensures Digits(t) == |t|
  {
    if t != [] {
      AllDigits(t[1..]);
    }
  }

  lemma TailOfText(x: nat, y: nat, z: nat)
    requires x < 0x1_0000 && y < 0x1_0000 && z < 0x1_0000
    ensures Tail(":" + Upper4(x) + "." + Upper4(y) + "." + Upper4(z)) == Some((x, y, z))
  {
    hide Upper4, HexAt;
    var t := ":" + Upper4(x) + "." + Upper4(y) + "." + Upper4(z);
    assert t[1..5] == Upper4(x) && t[6..10] == Upper4(y) && t[11..15] == Upper4(z);
    UpperAt(t, 1, x);
    UpperAt(t, 6, y);
    UpperAt(t, 11, z);
  }

  /** Every address reads back from its text. */
  lemma ParseText(a: Addr)
    requires InRange(a)
    ensures Parse(Text(a)) == Some(a)
  {
    hide Upper4, Tail, Decimal, DecimalValue, Digits;
    var d, t := Decimal(a.network),
        ":" + Upper4(a.network) + "." + Upper4(a.node / 0x1_0000) + "." + Upper4(a.node % 0x1_0000);
    DecimalRoundTrip(a.network);
    AllDigits(d);
    JsonText.DigitsClosed(d, t);
    TailOfText(a.network, a.node / 0x1_0000, a.node % 0x1_0000);
    assert (d + t)[..|d|] == d && (d + t)[|d|..] == t;
  }

  /** Every accepted spelling names an address that packs, and its canonical text is another spelling of it. */
  lemma ParseIsCanonical(s: string)
    requires Parse(s).Some?
    ensures InRange(Parse(s).value) && Parse(Text(Parse(s).value)) == Parse(s)
  {
    hide Text, DecimalValue, HexAt;
    ParseText(Parse(s).value);
  }

  /** A text whose decimal and hexadecimal network fields disagree is refused, and one where they agree is not. */
  lemma MismatchRefused(n: nat, x: nat, y: nat, z: nat)
    requires x < 0x1_0000 && y < 0x1_0000 && z < 0x1_0000
    ensures Parse(Decimal(n) + (":" + Upper4(x) + "." + Upper4(y) + "." + Upper4(z))).Some? <==> n == x
  {
    hide Upper4, Tail, Decimal, DecimalValue, Digits;
    var d, t := Decimal(n), ":" + Upper4(x) + "." + Upper4(y) + "." + Upper4(z);
    DecimalRoundTrip(n);
    AllDigits(d);
    JsonText.DigitsClosed(d, t);
    TailOfText(x, y, z);
    assert (d + t)[..|d|] == d && (d + t)[|d|..] == t;
  }

  /** The characters of a canonical text: upper-case hexadecimal digits and the separators. */
  predicate Canonical(c: char) {
    '0' <= c <= '9' || 'A' <= c <= 'F' || c == ':' || c == '.'
  }

  lemma TextIsUpper(a: Addr)
    requires InRange(a)
    ensures forall c <- Text(a) :: Canonical(c)
  {
    hide Decimal, Upper4;
    DecimalRoundTrip(a.network);
    UpperIsUpper(a.network);
    UpperIsUpper(a.node / 0x1_0000);
    UpperIsUpper(a.node % 0x1_0000);
  }

  lemma UpperIsUpper(n: nat)
    requires n < 0x1_0000
    ensures forall c <- Upper4(n) :: Canonical(c)
  {
  }

  predicate IsHex(c: char) {
    '0' <= c <= '9' || 'a' <= c <= 'f' || 'A' <= c <= 'F'
  }

  predicate FourHex(s: string) {
    |s| == 4 && forall c <- s :: IsHex(c)
  }

  lemma HexAtIff(t: string, at: nat)
    requires at + 4 <= |t|
    ensures HexAt(t, at) >= 0 <==> FourHex(t[at..at + 4])
  {
    var w := t[at..at + 4];
    assert w == [t[at], t[at + 1], t[at + 2], t[at + 3]];
    forall c ensures HexValue(c) >= 0 <==> IsHex(c) {
    }
    if FourHex(w) {
      assert IsHex(w[0]) && IsHex(w[1]) && IsHex(w[2]) && IsHex(w[3]);
    }
  }

  /** What follows the decimal field: three groups of four hexadecimal digits in either case, and perhaps a newline. */
  predicate Groups(t: string) {
    && (|t| == 15 || (|t| == 16 && t[15] == '\n'))
    && t[0] == ':' && t[5] == '.' && t[10] == '.'
    && FourHex(t[1..5]) && FourHex(t[6..10]) && FourHex(t[11..15])
  }

  lemma TailIff(t: string)
    ensures Tail(t).Some? <==> Groups(t)
    ensures Tail(t).Some? ==> |t| >= 15 && Tail(t).value.0 == HexAt(t, 1)
  {
    hide HexAt, FourHex;
    if |t| >= 15 {
      HexAtIff(t, 1);
      HexAtIff(t, 6);
      HexAtIff(t, 11);
    }
  }

  /** Exactly which texts are addresses: decimal digits, then such groups, with the two network fields equal. */
  lemma AcceptedIff(s: string)
    ensures Parse(s).Some? <==>
            var d := Digits(s);
            && d > 0 && Groups(s[d..])
            && (JsonText.DigitsAreDigits(s); DecimalValue(s[..d]) == HexAt(s[d..], 1))
  {
    JsonText.DigitsAreDigits(s);
    TailIff(s[Digits(s)..]);
    hide HexAt, FourHex, DecimalValue, Digits, Tail, Groups;
  }

  /** Its value: the network, and the two node groups joined. */
  lemma ParsedValue(s: string)
    requires Parse(s).Some?
    ensures var t := s[Digits(s)..];
            |t| >= 15 && Parse(s) == Some(Addr(HexAt(t, 1), HexAt(t, 6) * 65536 + HexAt(t, 11)))
  {
    hide HexAt, DecimalValue, Digits;
  }
}
