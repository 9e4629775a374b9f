/** Laws of compact JSON text: it reads back, and no proper prefix of an object text reads at all. */
module JsonText {
  import opened Json
  import Seqs

  // ---- characters ----

  lemma HexDigitValue(n: nat)
    requires n < 16
    ensures HexValue(HexDigit(n)) == n
  {
  }

  lemma Hex4At(t: string, at: nat, n: nat)
    requires n < 0x1_0000 && at + 4 <= |t| && t[at..at + 4] == Hex4(n)
    ensures HexAt(t, at) == n
  {
    var h := Hex4(n);
    assert t[at] == h[0] && t[at + 1] == h[1] && t[at + 2] == h[2] && t[at + 3] == h[3];
    HexDigitValue(n / 4096);
    HexDigitValue(n / 256 % 16);
    HexDigitValue(n / 16 % 16);
    HexDigitValue(n % 16);
    HexDigits(n);
  }

  lemma HexDigits(n: nat)
    ensures n / 4096 * 4096 + n / 256 % 16 * 256 + n / 16 % 16 * 16 + n % 16 == n
  {
    assert n / 256 == n / 4096 * 16 + n / 256 % 16;
    assert n / 16 == n / 256 * 16 + n / 16 % 16;
  }

  lemma EscapeShape(c: char)
    ensures Escape(c)[0] != '\"' && Escape(c)[0] >= ' '
    ensures Escape(c)[0] != '\\' ==> Escape(c) == [c]
    ensures |Escape(c)| == 1 || |Escape(c)| == 2 || |Escape(c)| == 6 || |Escape(c)| == 12
  {
  }

  lemma UnescapeWide(c: char, k: string)
    requires c as int >= 0x1_0000
    ensures Unescape(Escape(c) + k) == Done(c, k)
  {
    hide HexAt, Hex4;
    var v := c as int - 0x1_0000;
    var t := Escape(c) + k;
    var hi, lo := 0xD800 + v / 1024, 0xDC00 + v % 1024;
    PairShape(Hex4(hi), Hex4(lo), k);
    Hex4At(t, 2, hi);
    Hex4At(t, 8, lo);
    assert v == v / 1024 * 1024 + v % 1024;
  }

  lemma PairShape(hi: string, lo: string, k: string)
    requires |hi| == 4 && |lo| == 4
    ensures var t := "\\u" + hi + "\\u" + lo + k;
            && |t| == 12 + |k| && t[0] == '\\' && t[1] == 'u' && t[6] == '\\' && t[7] == 'u'
            && t[2..6] == hi && t[8..12] == lo && t[12..] == k
  {
  }

  lemma UnescapeBasic(c: char, k: string)
    requires c as int < 0x1_0000 && |Escape(c)| == 6
    ensures Unescape(Escape(c) + k) == Done(c, k)
  {
    var t := Escape(c) + k;
    assert t == "\\u" + Hex4(c as int) + k;
    assert t[2..6] == Hex4(c as int);
    Hex4At(t, 2, c as int);
    hide HexAt, Hex4;
    assert t[6..] == k && t[1] == 'u';
  }

  lemma UnescapeEscape(c: char, k: string)
    requires Escape(c)[0] == '\\'
    ensures Unescape(Escape(c) + k) == Done(c, k)
  {
    EscapeShape(c);
    if c as int >= 0x1_0000 {
      UnescapeWide(c, k);
    } else if |Escape(c)| == 6 {
      UnescapeBasic(c, k);
    } else {
      var t := Escape(c) + k;
      assert t[2..] == k;
      assert t[1] == Escape(c)[1];
    }
  }

  /** A cut escape is no escape. */
  lemma UnescapeCut(c: char, p: string)
    requires Escape(c)[0] == '\\' && p <= Escape(c) && p != Escape(c)
    ensures Unescape(p).Fail?
  {
    EscapeShape(c);
    if |p| >= 2 {
      assert |Escape(c)| >= 6 && p[1] == Escape(c)[1] == 'u';
      if c as int >= 0x1_0000 && |p| >= 6 {
        var hi := 0xD800 + (c as int - 0x1_0000) / 1024;
        assert Escape(c)[2..6] == Hex4(hi);
        assert p[2..6] == Escape(c)[2..6];
        Hex4At(p, 2, hi);
      }
    }
  }

  // ---- strings ----

  /** The characters after the first. */
  lemma AfterFirst(c: char, s: string, k: string)
    ensures var t := [c] + s + k; |t| == 1 + |s| + |k| && t[0] == c && t[1..] == s + k
  {
  }

  lemma AfterFront(x: string, y: string)
    ensures (x + y)[..|x|] == x && (x + y)[|x|..] == y
    ensures x != [] ==> (x + y)[0] == x[0]
  {
  }

  lemma StringStep(t: string)
    requires t != [] && t[0] != '\"'
    ensures var first := if t[0] == '\\' then Unescape(t) else if t[0] < ' ' then Fail else Done(t[0], t[1..]);
            first.Done? ==>
              var more := ParseString(first.rest);
              ParseString(t) == if more.Fail? then Fail else Done([first.value] + more.value, more.rest)
  {
    hide Unescape;
  }

  lemma StringEnd(k: string)
    ensures ParseString("\"" + k) == Done([], k)
  {
    AfterFront("\"", k);
  }

  lemma EscapeAllStep(s: string, k: string)
    requires s != []
    ensures EscapeAll(s) + "\"" + k == Escape(s[0]) + (EscapeAll(s[1..]) + "\"" + k)
  {
    hide Escape;
    var x, y := Escape(s[0]), EscapeAll(s[1..]);
    Seqs.Associate(x, y, "\"");
    Seqs.Associate(x, y + "\"", k);
  }

  lemma {:induction false} ParseQuoted(s: string, k: string)
    ensures ParseString(EscapeAll(s) + "\"" + k) == Done(s, k)
  {
    hide ParseString, Escape, Unescape, EscapeAll;
    if s == [] {
      StringEnd(k);
      NoEscapes();
      assert [] + "\"" == "\"";
    } else {
      var x, y := Escape(s[0]), EscapeAll(s[1..]) + "\"" + k;
      EscapeAllStep(s, k);
      EscapeShape(s[0]);
      ParseQuoted(s[1..], k);
      AfterFront(x, y);
      StringStep(x + y);
      if x[0] == '\\' {
        UnescapeEscape(s[0], y);
      }
      assert [s[0]] + s[1..] == s;
    }
  }

  lemma NoEscapes()
    ensures EscapeAll([]) == []
  {
  }

  lemma {:induction false} QuotedCut(s: string, p: string)
    requires p <= EscapeAll(s) + "\"" && p != EscapeAll(s) + "\""
    ensures ParseString(p).Fail?
  {
    hide Escape, Unescape;
    if p != [] && s != [] {
      var x, y := Escape(s[0]), EscapeAll(s[1..]) + "\"";
      assert EscapeAll(s) + "\"" == x + y;
      EscapeShape(s[0]);
      assert p[0] == x[0];
      if |p| < |x| {
        assert p <= x;
        UnescapeCut(s[0], p);
      } else {
        var q := p[|x|..];
        assert p == x + q && q <= y && q != y;
        QuotedCut(s[1..], q);
        if x[0] == '\\' {
          UnescapeEscape(s[0], q);
        } else {
          assert p[1..] == q;
        }
      }
    }
  }

  // ---- numbers and literals ----

  predicate NumberChar(c: char) {
    IsDigit(c) || c == '.' || c == 'e' || c == 'E' || c == '+' || c == '-'
  }

  /** What may follow a printed value. */
  predicate Closed(k: string) {
    k == [] || k[0] == ',' || k[0] == ']' || k[0] == '}' || IsSpace(k[0])
  }

  lemma {:induction false} DigitsClosed(t: string, k: string)
    requires k == [] || !IsDigit(k[0])
    ensures Digits(t + k) == Digits(t)
  {
    if t == [] {
      assert t + k == k;
    } else {
      DigitsClosed(t[1..], k);
      assert (t + k)[1..] == t[1..] + k;
    }
  }

  lemma {:induction false} DigitsAreDigits(t: string)
    ensures forall i :: 0 <= i < Digits(t) ==> IsDigit(t[i])
  {
    if t != [] && IsDigit(t[0]) {
      DigitsAreDigits(t[1..]);
    }
  }

  lemma IntClosed(t: string, k: string)
    requires Closed(k)
    ensures IntLen(t + k) == IntLen(t)
    ensures forall i :: 0 <= i < IntLen(t) ==> NumberChar(t[i])
  {
    if t != [] {
      assert (t + k)[0] == t[0];
      var i := if t[0] == '-' then 1 else 0;
      assert (t + k)[i..] == t[i..] + k;
      DigitsClosed(t[i..], k);
      DigitsAreDigits(t[i..]);
      if IntLen(t) > 0 {
        assert forall j :: i <= j < IntLen(t) ==> t[j] == t[i..][j - i];
      }
    }
  }

  lemma FracClosed(t: string, k: string)
    requires Closed(k)
    ensures FracLen(t + k) == FracLen(t)
    ensures forall i :: 0 <= i < FracLen(t) ==> NumberChar(t[i])
  {
    if t != [] {
      assert (t + k)[1..] == t[1..] + k;
      DigitsClosed(t[1..], k);
      DigitsAreDigits(t[1..]);
      if FracLen(t) > 0 {
        assert forall j :: 1 <= j < FracLen(t) ==> t[j] == t[1..][j - 1];
      }
    }
  }

  lemma ClosedChar(k: string)
    requires Closed(k)
    ensures k != [] ==> !NumberChar(k[0]) && !IsDigit(k[0])
  {
  }

  lemma ExpClosed(t: string, k: string)
    requires Closed(k)
    ensures ExpLen(t + k) == ExpLen(t)
    ensures forall i :: 0 <= i < ExpLen(t) ==> NumberChar(t[i])
  {
    ClosedChar(k);
    hide Closed, Digits;
    ExpChars(t);
    if t != [] {
      var j := if |t| >= 2 && (t[1] == '+' || t[1] == '-') then 2 else 1;
      assert (t + k)[j..] == t[j..] + k;
      DigitsClosed(t[j..], k);
    }
  }

  lemma ExpChars(t: string)
    ensures forall i :: 0 <= i < ExpLen(t) ==> NumberChar(t[i])
  {
    hide Digits;
    if ExpLen(t) > 0 {
      var j := if |t| >= 2 && (t[1] == '+' || t[1] == '-') then 2 else 1;
      DigitsAreDigits(t[j..]);
      assert forall i :: j <= i < ExpLen(t) ==> t[i] == t[j..][i - j];
    }
  }

  lemma NumberClosed(t: string, k: string)
    requires Closed(k)
    ensures NumberLen(t + k) == NumberLen(t)
    ensures forall i :: 0 <= i < NumberLen(t) ==> NumberChar(t[i])
  {
    hide IntLen, FracLen, ExpLen, NumberChar;
    var i := IntLen(t);
    IntClosed(t, k);
    if i > 0 {
      var f := FracLen(t[i..]);
      assert (t + k)[i..] == t[i..] + k;
      FracClosed(t[i..], k);
      assert (t + k)[i + f..] == t[i + f..] + k;
      ExpClosed(t[i + f..], k);
      forall j | 0 <= j < NumberLen(t) ensures NumberChar(t[j]) {
        if i <= j < i + f {
          assert t[j] == t[i..][j - i];
        } else if i + f <= j {
          assert t[j] == t[i + f..][j - i - f];
        }
      }
    }
  }

  lemma NoLiteralStart(t: string)
    requires t != [] ==> t[0] != 'n' && t[0] != 't' && t[0] != 'f' && t[0] != 'N' && t[0] != 'I'
    requires |t| >= 2 ==> t[0] != '-' || t[1] != 'I'
    ensures LiteralLen(t) == 0
  {
  }

  predicate NumberChars(t: string) {
    forall i :: 0 <= i < |t| ==> NumberChar(t[i])
  }

  lemma NumberCharsNoLiteral(t: string, k: string)
    requires NumberChars(t) && Closed(k)
    ensures LiteralLen(t + k) == 0
    ensures t != [] ==> t[0] != '\"' && t[0] != '[' && t[0] != '{'
  {
    hide LiteralLen;
    var tk := t + k;
    assert tk != [] ==> tk[0] == if t == [] then k[0] else t[0];
    assert |tk| >= 2 && t != [] ==> tk[1] == if |t| == 1 then k[0] else t[1];
    assert t != [] ==> NumberChar(t[0]);
    assert |t| >= 2 ==> NumberChar(t[1]);
    NoLiteralStart(tk);
  }

  lemma NumberIsNoLiteral(l: string, k: string)
    requires l != [] && NumberLen(l) == |l| && Closed(k)
    ensures LiteralLen(l + k) == 0 && l[0] != '\"' && l[0] != '[' && l[0] != '{'
  {
    hide LiteralLen, NumberLen, NumberChar;
    NumberClosed(l, []);
    NumberCharsNoLiteral(l, k);
  }

  /** A cut number is none, or a shorter one with some of its characters left over. */
  lemma NumberCut(l: string, p: string)
    requires l != [] && NumberLen(l) == |l| && p <= l
    ensures LiteralLen(p) == 0
    ensures p != [] ==> p[0] != '\"' && p[0] != '[' && p[0] != '{'
    ensures var r := p[NumberLen(p)..]; r != [] ==> NumberChar(r[0])
  {
    hide LiteralLen, NumberLen, NumberChar;
    NumberClosed(l, []);
    assert NumberChars(p);
    assert p + [] == p;
    NumberCharsNoLiteral(p, []);
  }

  lemma LiteralWhole(name: string, k: string)
    requires IsLiteral(name)
    ensures LiteralLen(name + k) == |name| && name[0] != '\"' && name[0] != '[' && name[0] != '{'
  {
    assert name <= name + k;
    assert (name + k)[0] == name[0];
    if name == "-Infinity" || name == "NaN" || name == "null" {
      assert (name + k)[1] == name[1];
    }
  }

  lemma LiteralCut(name: string, p: string)
    requires IsLiteral(name) && p <= name && p != name
    ensures LiteralLen(p) == 0 && NumberLen(p) == 0
    ensures p != [] ==> p[0] != '\"' && p[0] != '[' && p[0] != '{'
  {
  }

  // ---- reading back ----

  lemma FirstChar(v: Json)
    requires Printable(v)
    ensures Print(v) != [] && !IsSpace(Print(v)[0]) && Print(v)[0] != ']' && Print(v)[0] != '}'
  {
    hide PrintItems, PrintFields, EscapeAll, NumberLen, AllPrintable, FieldsPrintable;
    if v.Num? {
      NumberClosed(v.lexeme, []);
      assert NumberChar(v.lexeme[0]);
    }
  }

  lemma ItemsStart(items: seq<Json>)
    requires items != [] && AllPrintable(items)
    ensures PrintItems(items) != [] && !IsSpace(PrintItems(items)[0]) && PrintItems(items)[0] != ']'
  {
    FirstChar(items[0]);
  }

  lemma NoWs(t: string)
    requires t == [] || !IsSpace(t[0])
    ensures SkipWs(t) == t
  {
  }

  lemma ValueOfString(t: string)
    requires t != [] && t[0] == '\"'
    ensures ParseValue(t) == var p := ParseString(t[1..]); if p.Fail? then Fail else Done(Str(p.value), p.rest)
  {
    hide ParseString, ParseItems, ParseFields, SkipWs, LiteralLen, NumberLen;
  }

  lemma ValueOfArray(t: string)
    requires t != [] && t[0] == '[' && SkipWs(t[1..]) == t[1..]
    ensures ParseValue(t) ==
      if t[1..] != [] && t[1..][0] == ']' then Done(Arr([]), t[1..][1..])
      else var p := ParseItems(t[1..]); if p.Fail? then Fail else Done(Arr(p.value), p.rest)
  {
    hide ParseString, ParseItems, ParseFields, SkipWs, LiteralLen, NumberLen;
  }

  lemma ValueOfObject(t: string)
    requires t != [] && t[0] == '{' && SkipWs(t[1..]) == t[1..]
    ensures ParseValue(t) ==
      if t[1..] != [] && t[1..][0] == '}' then Done(Obj([]), t[1..][1..])
      else var p := ParseFields(t[1..]); if p.Fail? then Fail else Done(Obj(p.value), p.rest)
  {
    hide ParseString, ParseItems, ParseFields, SkipWs, LiteralLen, NumberLen;
  }

  lemma ValueOfOther(t: string)
    requires t != [] && t[0] != '\"' && t[0] != '[' && t[0] != '{'
    ensures ParseValue(t) ==
      if LiteralLen(t) > 0 then Done(Lit(t[..LiteralLen(t)]), t[LiteralLen(t)..])
      else if NumberLen(t) > 0 then Done(Num(t[..NumberLen(t)]), t[NumberLen(t)..])
      else Fail
  {
    hide ParseString, ParseItems, ParseFields, SkipWs, LiteralLen, NumberLen;
  }

  lemma {:induction false} ParsePrint(v: Json, k: string)
    requires Printable(v) && Closed(k)
    ensures ParseValue(Print(v) + k) == Done(v, k)
    decreases v, 0
  {
    hide ParseValue, ParseItems, ParseFields, PrintItems, PrintFields, ParseString, EscapeAll, NumberLen, LiteralLen,
        SkipWs, Closed;
    var t := Print(v) + k;
    match v
    case Lit(name) =>
      LiteralWhole(name, k);
      AfterFront(name, k);
      ValueOfOther(t);
    case Num(l) =>
      NumberIsNoLiteral(l, k);
      NumberClosed(l, k);
      AfterFront(l, k);
      ValueOfOther(t);
    case Str(s) =>
      ParseQuoted(s, k);
      QuoteTail(s, k);
      ValueOfString(t);
    case Arr(items) =>
      if items == [] {
        EmptyPair('[', ']', k);
        NoWs(t[1..]);
      } else {
        AfterFirst('[', PrintItems(items), k);
        ItemsStart(items);
        AfterFront(PrintItems(items), k);
        NoWs(t[1..]);
        ParsePrintItems(items, k);
      }
      ValueOfArray(t);
    case Obj(fields) =>
      if fields == [] {
        EmptyPair('{', '}', k);
        NoWs(t[1..]);
      } else {
        AfterFirst('{', PrintFields(fields), k);
        FieldsStart(fields);
        AfterFront(PrintFields(fields), k);
        NoWs(t[1..]);
        ParsePrintFields(fields, k);
      }
      ValueOfObject(t);
  }

  lemma QuoteTail(s: string, k: string)
    ensures var t := Quote(s) + k; t[0] == '\"' && t[1..] == EscapeAll(s) + "\"" + k
  {
    hide EscapeAll;
    AfterFirst('\"', EscapeAll(s) + "\"", k);
    Seqs.Associate("\"", EscapeAll(s), "\"");
  }

  lemma EmptyPair(open: char, close: char, k: string)
    ensures var t := [open, close] + k; t[0] == open && t[1..] == [close] + k && t[1..][0] == close && t[1..][1..] == k
  {
    assert [open, close] == [open] + [close];
    AfterFirst(open, [close], k);
    AfterFront([close], k);
  }

  lemma {:induction false} ParsePrintItems(items: seq<Json>, k: string)
    requires items != [] && AllPrintable(items)
    ensures ParseItems(PrintItems(items) + k) == Done(items, k)
    decreases items, 1
  {
    hide ParseValue, Print;
    var x := Print(items[0]);
    var y := (if |items| == 1 then "]" else "," + PrintItems(items[1..])) + k;
    assert PrintItems(items) + k == x + y;
    ParsePrint(items[0], y);
    NoWs(y);
    if |items| == 1 {
      assert y[1..] == k && items == [items[0]];
    } else {
      var z := PrintItems(items[1..]) + k;
      assert y[1..] == z;
      ItemsStart(items[1..]);
      NoWs(z);
      ParsePrintItems(items[1..], k);
      assert items == [items[0]] + items[1..];
    }
  }

  lemma FieldStep(t: string)
    requires t != [] && t[0] == '\"' && ParseString(t[1..]).Done?
    ensures var key := ParseString(t[1..]);
            && SkipWs(key.rest) == key.rest && key.rest != [] && key.rest[0] == ':'
            && SkipWs(key.rest[1..]) == key.rest[1..] ==>
              var v := ParseValue(key.rest[1..]);
              ParseField(t) == if v.Fail? then Fail else Done((key.value, v.value), v.rest)
  {
    hide ParseString, ParseValue, SkipWs;
  }

  lemma {:induction false} ParsePrintField(f: (string, Json), k: string)
    requires Printable(f.1) && Closed(k)
    ensures ParseField(PrintField(f) + k) == Done(f, k)
    decreases f, 1
  {
    hide ParseValue, Print, ParseString, ParseField, EscapeAll, Closed, SkipWs, Quote;
    var z := Print(f.1) + k;
    var y := ":" + z;
    Seqs.Associate(":", Print(f.1), k);
    Seqs.Associate(Quote(f.0), ":" + Print(f.1), k);
    QuoteTail(f.0, y);
    var t := Quote(f.0) + y;
    ParseQuoted(f.0, y);
    AfterFront(":", z);
    NoWs(y);
    FirstChar(f.1);
    AfterFront(Print(f.1), k);
    NoWs(z);
    ParsePrint(f.1, k);
    FieldStep(t);
  }

  lemma {:induction false} ParsePrintFields(fields: seq<(string, Json)>, k: string)
    requires fields != [] && FieldsPrintable(fields)
    ensures ParseFields(PrintFields(fields) + k) == Done(fields, k)
    decreases fields, 2
  {
    hide ParseField, PrintField;
    var x := PrintField(fields[0]);
    var y := (if |fields| == 1 then "}" else "," + PrintFields(fields[1..])) + k;
    assert PrintFields(fields) + k == x + y;
    ParsePrintField(fields[0], y);
    NoWs(y);
    if |fields| == 1 {
      assert y[1..] == k && fields == [fields[0]];
    } else {
      var z := PrintFields(fields[1..]) + k;
      assert y[1..] == z;
      FieldsStart(fields[1..]);
      NoWs(z);
      ParsePrintFields(fields[1..], k);
      assert fields == [fields[0]] + fields[1..];
    }
  }

  lemma FieldsStart(fields: seq<(string, Json)>)
    requires fields != []
    ensures PrintFields(fields) != [] && PrintFields(fields)[0] == '\"'
  {
  }

  /** What is printed reads back. */
  lemma LoadsPrint(v: Json)
    requires Printable(v)
    ensures Loads(Print(v)) == Loaded(v)
  {
    FirstChar(v);
    NoWs(Print(v));
    ParsePrint(v, []);
    assert Print(v) + [] == Print(v);
  }

  // ---- spacing ----

  /** The whitespace of section 2 of RFC 8259. */
  predicate AllSpace(w: string) {
    forall i :: 0 <= i < |w| ==> w[i] == ' ' || w[i] == '\t' || w[i] == '\n' || w[i] == '\r'
  }

  function SpacedField(f: (string, Json), w: string): string {
    Quote(f.0) + (w + (":" + (w + Print(f.1))))
  }

  /** The members of an object with `w` on both sides of every token. */
  function SpacedFields(fields: seq<(string, Json)>, w: string): string
    requires fields != []
  {
    SpacedField(fields[0], w) + (w + if |fields| == 1 then "}" else "," + (w + SpacedFields(fields[1..], w)))
  }

  function SpacedObject(fields: seq<(string, Json)>, w: string): string {
    w + ("{" + (w + ((if fields == [] then "}" else SpacedFields(fields, w)) + w)))
  }

  lemma {:induction false} SkipSpaces(w: string, t: string)
    requires AllSpace(w) && (t == [] || !IsSpace(t[0]))
    ensures SkipWs(w + t) == t
  {
    if w == [] {
      assert w + t == t;
    } else {
      assert (w + t)[0] == w[0] && (w + t)[1..] == w[1..] + t;
      SkipSpaces(w[1..], t);
    }
  }

  lemma SpacesClose(w: string, t: string)
    requires AllSpace(w) && Closed(t)
    ensures Closed(w + t)
  {
    if w != [] {
      assert (w + t)[0] == w[0];
    } else {
      assert w + t == t;
    }
  }

  lemma ParseSpacedField(f: (string, Json), w: string, k: string)
    requires Printable(f.1) && AllSpace(w) && Closed(k)
    ensures ParseField(SpacedField(f, w) + k) == Done(f, k)
  {
    hide ParseValue, Print, ParseString, EscapeAll, Closed, SkipWs, AllSpace, Quote, Printable;
    var v := Print(f.1) + k;
    var afterColon := w + v;
    var y := ":" + afterColon;
    SpacedFieldTail(f, w, k);
    QuoteTail(f.0, w + y);
    ParseQuoted(f.0, w + y);
    AfterFront(":", afterColon);
    NotSpace(':');
    SkipSpaces(w, y);
    FirstChar(f.1);
    AfterFront(Print(f.1), k);
    SkipSpaces(w, v);
    ParsePrint(f.1, k);
  }

  lemma NotSpace(c: char)
    ensures c == ':' || c == ',' || c == '}' || c == '{' || c == '\"' ==> !IsSpace(c)
  {
  }

  lemma SpacedFieldTail(f: (string, Json), w: string, k: string)
    ensures SpacedField(f, w) + k == Quote(f.0) + (w + (":" + (w + (Print(f.1) + k))))
  {
    hide Print, Quote;
    var p := Print(f.1);
    Seqs.Associate(w, p, k);
    Seqs.Associate(":", w + p, k);
    Seqs.Associate(w, ":" + (w + p), k);
    Seqs.Associate(Quote(f.0), w + (":" + (w + p)), k);
  }

  lemma SpacedStart(fields: seq<(string, Json)>, w: string)
    requires fields != []
    ensures SpacedFields(fields, w) != [] && SpacedFields(fields, w)[0] == '\"'
  {
    hide EscapeAll, Print;
  }

  lemma {:induction false} ParseSpacedFields(fields: seq<(string, Json)>, w: string, k: string)
    requires fields != [] && FieldsPrintable(fields) && AllSpace(w)
    ensures ParseFields(SpacedFields(fields, w) + k) == Done(fields, k)
    decreases |fields|
  {
    hide ParseField, SpacedField, SkipWs, AllSpace, Closed;
    var x := SpacedField(fields[0], w);
    var z := (if |fields| == 1 then "}" else "," + (w + SpacedFields(fields[1..], w))) + k;
    SpacedFieldsTail(fields, w, k);
    CommaOrBrace(z);
    SpacesClose(w, z);
    ParseSpacedField(fields[0], w, w + z);
    SkipSpaces(w, z);
    if |fields| == 1 {
      assert z[1..] == k && fields == [fields[0]];
    } else {
      var rest := SpacedFields(fields[1..], w) + k;
      Seqs.Associate(w, SpacedFields(fields[1..], w), k);
      Seqs.Associate(",", w + SpacedFields(fields[1..], w), k);
      AfterFront(",", w + rest);
      SpacedStart(fields[1..], w);
      AfterFront(SpacedFields(fields[1..], w), k);
      NotSpace('\"');
      SkipSpaces(w, rest);
      ParseSpacedFields(fields[1..], w, k);
      assert fields == [fields[0]] + fields[1..];
    }
  }

  lemma CommaOrBrace(z: string)
    requires z != [] && (z[0] == ',' || z[0] == '}')
    ensures Closed(z) && !IsSpace(z[0])
  {
  }

  lemma SpacedFieldsTail(fields: seq<(string, Json)>, w: string, k: string)
    requires fields != []
    ensures var y := if |fields| == 1 then "}" else "," + (w + SpacedFields(fields[1..], w));
            SpacedFields(fields, w) + k == SpacedField(fields[0], w) + (w + (y + k))
  {
    hide SpacedField;
    var x, y := SpacedField(fields[0], w), if |fields| == 1 then "}" else "," + (w + SpacedFields(fields[1..], w));
    Seqs.Associate(w, y, k);
    Seqs.Associate(x, w + y, k);
  }

  /** The elements of an array with `w` on both sides of every token. */
  function SpacedItems(items: seq<Json>, w: string): string
    requires items != []
  {
    Print(items[0]) + (w + if |items| == 1 then "]" else "," + (w + SpacedItems(items[1..], w)))
  }

  lemma SpacedItemsTail(items: seq<Json>, w: string, k: string)
    requires items != []
    ensures var y := if |items| == 1 then "]" else "," + (w + SpacedItems(items[1..], w));
            SpacedItems(items, w) + k == Print(items[0]) + (w + (y + k))
  {
    hide Print;
    var x, y := Print(items[0]), if |items| == 1 then "]" else "," + (w + SpacedItems(items[1..], w));
    Seqs.Associate(w, y, k);
    Seqs.Associate(x, w + y, k);
  }

  lemma CommaOrBracket(z: string)
    requires z != [] && (z[0] == ',' || z[0] == ']')
    ensures Closed(z) && !IsSpace(z[0])
  {
  }

  lemma {:induction false} ParseSpacedItems(items: seq<Json>, w: string, k: string)
    requires items != [] && AllPrintable(items) && AllSpace(w)
    ensures ParseItems(SpacedItems(items, w) + k) == Done(items, k)
    decreases |items|
  {
    hide ParseValue, Print, SkipWs, AllSpace, Closed, Printable;
    var z := (if |items| == 1 then "]" else "," + (w + SpacedItems(items[1..], w))) + k;
    SpacedItemsTail(items, w, k);
    CommaOrBracket(z);
    SpacesClose(w, z);
    ParsePrint(items[0], w + z);
    SkipSpaces(w, z);
    if |items| == 1 {
      assert z[1..] == k && items == [items[0]];
    } else {
      var rest := SpacedItems(items[1..], w) + k;
      Seqs.Associate(w, SpacedItems(items[1..], w), k);
      Seqs.Associate(",", w + SpacedItems(items[1..], w), k);
      AfterFront(",", w + rest);
      FirstChar(items[1]);
      SpacedItemsTail(items[1..], w, k);
      SkipSpaces(w, rest);
      ParseSpacedItems(items[1..], w, k);
      assert items == [items[0]] + items[1..];
    }
  }

  /** So does an array. */
  lemma ParsesSpacedArray(items: seq<Json>, w: string, k: string)
    requires AllPrintable(items) && AllSpace(w)
    ensures ParseValue("[" + (w + ((if items == [] then "]" else SpacedItems(items, w)) + k))) == Done(Arr(items), k)
  {
    hide ParseValue, ParseItems, SkipWs, AllSpace, SpacedItems, AllPrintable, Print;
    var body := if items == [] then "]" else SpacedItems(items, w);
    var inner := body + k;
    var t := "[" + (w + inner);
    AfterFront("[", w + inner);
    if items != [] {
      SpacedItemsStart(items, w, k);
      ParseSpacedItems(items, w, k);
    } else {
      CommaOrBracket(inner);
    }
    SkipSpaces(w, inner);
    ArrayValue(t, w, inner);
    AfterFront(body, k);
  }

  lemma SpacedItemsStart(items: seq<Json>, w: string, k: string)
    requires items != [] && AllPrintable(items)
    ensures var t := SpacedItems(items, w) + k; t != [] && !IsSpace(t[0]) && t[0] != ']'
  {
    hide Print, SpacedItems;
    FirstChar(items[0]);
    SpacedItemsTail(items, w, k);
  }

  lemma ArrayValue(t: string, w: string, inner: string)
    requires t != [] && t[0] == '[' && t[1..] == w + inner && SkipWs(w + inner) == inner
    ensures ParseValue(t) ==
      if inner != [] && inner[0] == ']' then Done(Arr([]), inner[1..])
      else var p := ParseItems(inner); if p.Fail? then Fail else Done(Arr(p.value), p.rest)
  {
    hide ParseString, ParseItems, ParseFields, SkipWs, LiteralLen, NumberLen;
  }

  /** Whitespace around the tokens changes nothing: an object spelled with any of it loads as the same object. */
  lemma LoadsSpaced(fields: seq<(string, Json)>, w: string)
    requires FieldsPrintable(fields) && AllSpace(w)
    ensures Loads(SpacedObject(fields, w)) == Loaded(Obj(fields))
  {
    hide ParseValue, ParseFields, SkipWs, AllSpace, SpacedFields, FieldsPrintable;
    var body := if fields == [] then "}" else SpacedFields(fields, w);
    var t := "{" + (w + (body + w));
    if fields != [] {
      SpacedStart(fields, w);
      ParseSpacedFields(fields, w, w);
    }
    NotSpace('{');
    NotSpace('}');
    NotSpace('\"');
    AfterFront("{", w + (body + w));
    AfterFront(body, w);
    SkipSpaces(w, t);
    SkipSpaces(w, body + w);
    SkipSpaces(w, []);
    assert w + [] == w;
    SpacedValue(t, w, body + w);
  }

  lemma SpacedValue(t: string, w: string, inner: string)
    requires t != [] && t[0] == '{' && t[1..] == w + inner && SkipWs(w + inner) == inner
    ensures ParseValue(t) ==
      if inner != [] && inner[0] == '}' then Done(Obj([]), inner[1..])
      else var p := ParseFields(inner); if p.Fail? then Fail else Done(Obj(p.value), p.rest)
  {
    hide ParseString, ParseItems, ParseFields, SkipWs, LiteralLen, NumberLen;
  }

  lemma {:induction false} OnlySpaces(k: string)
    ensures SkipWs(k) == [] <==> AllSpace(k)
  {
    if k != [] {
      assert forall i :: 0 < i < |k| ==> k[i] == k[1..][i - 1];
      OnlySpaces(k[1..]);
    }
  }

  /** A printed value followed by more text loads if and only if that text is whitespace. */
  lemma TrailingTextIff(v: Json, k: string)
    requires Printable(v) && Closed(k)
    ensures Loads(Print(v) + k) == if AllSpace(k) then Loaded(v) else DecodeError
  {
    hide ParseValue, Print, Printable, AllSpace, Closed, SkipWs;
    FirstChar(v);
    AfterFront(Print(v), k);
    NoWs(Print(v) + k);
    ParsePrint(v, k);
    OnlySpaces(k);
  }

  // ---- other spellings ----

  /** The simple escapes of section 7 of RFC 8259, those included that are never printed. */
  lemma SimpleEscapes(k: string)
    ensures Unescape("\\\"" + k) == Done('\"', k) && Unescape("\\\\" + k) == Done('\\', k)
    ensures Unescape("\\/" + k) == Done('/', k)
    ensures Unescape("\\b" + k) == Done('\U{08}', k) && Unescape("\\f" + k) == Done('\U{0C}', k)
    ensures Unescape("\\n" + k) == Done('\n', k) && Unescape("\\r" + k) == Done('\r', k)
    ensures Unescape("\\t" + k) == Done('\t', k)
  {
  }

  /** The number grammar of section 6: an optional minus, an integer without leading zeros, a fraction, an exponent. */
  lemma {:induction false} AllDigitsLen(d: string)
    requires forall i :: 0 <= i < |d| ==> IsDigit(d[i])
    ensures Digits(d) == |d|
  {
    if d != [] {
      AllDigitsLen(d[1..]);
    }
  }

  lemma ExponentLen(e: char, sign: string, d: string)
    requires (e == 'e' || e == 'E') && (sign == [] || sign == "+" || sign == "-")
    requires d != [] && forall i :: 0 <= i < |d| ==> IsDigit(d[i])
    ensures ExpLen([e] + sign + d) == 1 + |sign| + |d|
  {
    var t, j := [e] + sign + d, 1 + |sign|;
    AllDigitsLen(d);
    assert t[j..] == d && t[j] == d[0];
    assert sign != [] ==> t[1] == sign[0];
  }

  lemma FractionLen(d: string, k: string)
    requires d != [] && (forall i :: 0 <= i < |d| ==> IsDigit(d[i])) && (k == [] || !IsDigit(k[0]))
    ensures FracLen("." + d + k) == 1 + |d|
  {
    var t := "." + d + k;
    AllDigitsLen(d);
    DigitsClosed(d, k);
    assert t[1..] == d + k && t[1] == d[0];
  }

  lemma IntegerLen(minus: string, d: string, k: string)
    requires (minus == [] || minus == "-") && d != [] && (forall i :: 0 <= i < |d| ==> IsDigit(d[i]))
    requires (d[0] == '0' ==> |d| == 1) && (k == [] || !IsDigit(k[0]))
    ensures IntLen(minus + d + k) == |minus| + |d|
  {
    var t, i := minus + d + k, |minus|;
    AllDigitsLen(d);
    DigitsClosed(d, k);
    assert t[i..] == d + k && t[i] == d[0];
    assert minus != [] ==> t[0] == '-';
  }

  /** A leading zero stands alone. */
  lemma LeadingZeroAlone(minus: string, more: string)
    requires minus == [] || minus == "-"
    ensures IntLen(minus + "0" + more) == |minus| + 1
  {
    var t := minus + "0" + more;
    assert t[|minus|] == '0';
    assert minus != [] ==> t[0] == '-';
  }

  predicate HasShortEscape(c: char) {
    c == '\"' || c == '\\' || c == '\n' || c == '\r' || c == '\t' || c == '\U{0C}' || c == '\U{08}'
  }

  /** How characters are printed: seven by a short escape, the rest of printable ASCII as they are, all others as one
      UTF-16 unit or two. */
  lemma EscapeSize(c: char)
    ensures |Escape(c)| ==
      if HasShortEscape(c) then 2 else if ' ' <= c <= '~' then 1 else if c as int < 0x1_0000 then 6 else 12
    ensures !HasShortEscape(c) && ' ' <= c <= '~' ==> Escape(c) == [c]
  {
  }

  lemma HexIsLower(n: nat)
    requires n < 0x1_0000
    ensures forall c <- Hex4(n) :: '0' <= c <= '9' || 'a' <= c <= 'f'
  {
  }

  // ---- cut short ----

  /** The value at the front is incomplete, or a number cut inside that leaves nothing, or some of its own
      characters, behind. */
  predicate Stuck(p: Parse<Json>) {
    p.Done? ==> p.rest == [] || NumberChar(p.rest[0])
  }

  predicate Cut(p: string, whole: string) {
    p <= whole && p != whole
  }

  lemma NothingParses()
    ensures SkipWs([]) == [] && ParseItems([]).Fail? && ParseFields([]).Fail?
  {
  }

  lemma {:induction false} ParseCut(v: Json, p: string)
    requires Printable(v) && Cut(p, Print(v))
    ensures Stuck(ParseValue(p)) && (!v.Num? ==> ParseValue(p).Fail?)
    decreases v, 0
  {
    hide ParseString, ParseItems, ParseFields, LiteralLen, NumberLen, SkipWs, EscapeAll, PrintItems, PrintFields;
    if p != [] {
      assert p[0] == Print(v)[0];
      match v
      case Lit(name) =>
        LiteralCut(name, p);
      case Num(l) =>
        NumberCut(l, p);
      case Str(s) =>
        assert p[1..] <= Quote(s)[1..] == EscapeAll(s) + "\"";
        QuotedCut(s, p[1..]);
      case Arr(items) =>
        if items == [] {
          assert p == "[" && p[1..] == [];
          NothingParses();
        } else {
          assert Print(v)[1..] == PrintItems(items) && p[1..] <= Print(v)[1..];
          ItemsStart(items);
          NoWs(p[1..]);
          ItemsCut(items, p[1..]);
        }
      case Obj(fields) =>
        if fields == [] {
          assert p == "{" && p[1..] == [];
          NothingParses();
        } else {
          assert Print(v)[1..] == PrintFields(fields) && p[1..] <= Print(v)[1..];
          FieldsStart(fields);
          NoWs(p[1..]);
          FieldsCut(fields, p[1..]);
        }
    }
  }

  lemma {:induction false} ItemsCut(items: seq<Json>, p: string)
    requires items != [] && AllPrintable(items) && Cut(p, PrintItems(items))
    ensures ParseItems(p).Fail?
    decreases items, 1
  {
    hide ParseValue, Print;
    var x := Print(items[0]);
    var y := if |items| == 1 then "]" else "," + PrintItems(items[1..]);
    assert PrintItems(items) == x + y;
    if |p| < |x| {
      assert Cut(p, x);
      ParseCut(items[0], p);
      if ParseValue(p).Done? { StuckStays(ParseValue(p)); }
    } else {
      var q := p[|x|..];
      assert p == x + q && Cut(q, y);
      ParsePrint(items[0], q);
      NoWs(q);
      if q != [] {
        assert q[0] == y[0];
        assert q[1..] <= y[1..] == PrintItems(items[1..]) && q[1..] != y[1..];
        ItemsStart(items[1..]);
        NoWs(q[1..]);
        ItemsCut(items[1..], q[1..]);
      }
    }
  }

  lemma StuckStays(p: Parse<Json>)
    requires Stuck(p) && p.Done?
    ensures SkipWs(p.rest) == p.rest
    ensures p.rest != [] ==> p.rest[0] != ',' && p.rest[0] != ']' && p.rest[0] != '}'
  {
  }

  lemma {:induction false} FieldCut(f: (string, Json), p: string)
    requires Printable(f.1) && Cut(p, PrintField(f))
    ensures var r := ParseField(p); r.Done? ==> r.rest == [] || NumberChar(r.rest[0])
    decreases f, 1
  {
    hide ParseValue, Print, ParseString, EscapeAll, NumberChar;
    var x, y := Quote(f.0), ":" + Print(f.1);
    if p == [] {
    } else if |p| < |x| {
      assert Cut(p, x) && p[0] == x[0];
      assert p[1..] <= x[1..] == EscapeAll(f.0) + "\"";
      QuotedCut(f.0, p[1..]);
    } else {
      var q := p[|x|..];
      assert p == x + q && Cut(q, y);
      assert p[1..] == EscapeAll(f.0) + "\"" + q;
      ParseQuoted(f.0, q);
      if q != [] {
        assert q[0] == ':' && q[1..] <= y[1..] == Print(f.1) && q[1..] != y[1..];
        NoWs(q);
        FirstChar(f.1);
        NoWs(q[1..]);
        ParseCut(f.1, q[1..]);
      }
    }
  }

  lemma FieldsFail(t: string)
    requires var f := ParseField(t); f.Done? ==> SkipWs(f.rest) == f.rest
    requires var f := ParseField(t); f.Done? && f.rest != [] && f.rest[0] != ',' ==> f.rest[0] != '}'
    requires var f := ParseField(t);
             f.Done? && f.rest != [] && f.rest[0] == ',' ==> ParseFields(SkipWs(f.rest[1..])).Fail?
    ensures ParseFields(t).Fail?
  {
    hide ParseField, SkipWs;
  }

  /** Cut inside its first member, an object does not read. */
  lemma {:induction false} FirstFieldCut(f: (string, Json), p: string)
    requires Printable(f.1) && Cut(p, PrintField(f))
    ensures ParseFields(p).Fail?
    decreases f, 2
  {
    hide ParseField, PrintField, ParseFields, SkipWs;
    FieldCut(f, p);
    var r := ParseField(p);
    if r.Done? {
      NoWs(r.rest);
    }
    FieldsFail(p);
  }

  /** Cut after its first member, it reads no further than what is left does. */
  lemma LaterFieldCut(f: (string, Json), q: string)
    requires Printable(f.1) && Closed(q) && (q != [] ==> q[0] == ',')
    requires q != [] ==> SkipWs(q[1..]) == q[1..] && ParseFields(q[1..]).Fail?
    ensures ParseFields(PrintField(f) + q).Fail?
    decreases f, 2
  {
    hide ParseField, PrintField, ParseFields, SkipWs;
    ParsePrintField(f, q);
    NoWs(q);
    FieldsFail(PrintField(f) + q);
  }

  lemma {:induction false} FieldsCut(fields: seq<(string, Json)>, p: string)
    requires fields != [] && FieldsPrintable(fields) && Cut(p, PrintFields(fields))
    ensures ParseFields(p).Fail?
    decreases fields, 3
  {
    hide ParseField, PrintField, ParseFields, SkipWs;
    var f, x := fields[0], PrintField(fields[0]);
    var y := if |fields| == 1 then "}" else "," + PrintFields(fields[1..]);
    assert PrintFields(fields) == x + y;
    if |p| < |x| {
      assert Cut(p, x);
      FirstFieldCut(f, p);
    } else {
      var q := p[|x|..];
      assert p == x + q && Cut(q, y);
      if q != [] {
        assert q[0] == y[0];
        assert q[1..] <= y[1..] == PrintFields(fields[1..]) && q[1..] != y[1..];
        FieldsStart(fields[1..]);
        NoWs(q[1..]);
        FieldsCut(fields[1..], q[1..]);
      }
      LaterFieldCut(f, q);
    }
  }

  /** No proper prefix of a printed object -- or of anything printed but a number -- is itself a JSON text. */
  lemma NoPrefixLoads(v: Json, p: string)
    requires Printable(v) && !v.Num? && Cut(p, Print(v))
    ensures Loads(p) == DecodeError
  {
    FirstChar(v);
    NoWs(p);
    ParseCut(v, p);
  }
}
