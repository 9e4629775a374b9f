/** Compact JSON text as `json.dumps(..., separators=(",", ":"))` prints it and `json.loads` reads it. The text is
    ASCII, so it is modelled as characters; numbers stay the lexemes they are printed as. */
module Json {

  datatype Json =
    | Lit(name: string)
    | Num(lexeme: string)
    | Str(text: string)
    | Arr(items: seq<Json>)
    | Obj(fields: seq<(string, Json)>)

  predicate IsLiteral(s: string) {
    s == "null" || s == "true" || s == "false" || s == "NaN" || s == "Infinity" || s == "-Infinity"
  }

  // ---- printing ----

  function HexDigit(n: nat): (c: char)
    requires n < 16
  {
    if n < 10 then '0' + n as char else 'a' + (n - 10) as char
  }

  function Hex4(n: nat): (s: string)
    requires n < 0x1_0000
    ensures |s| == 4
  {
    [HexDigit(n / 4096), HexDigit(n / 256 % 16), HexDigit(n / 16 % 16), HexDigit(n % 16)]
  }

  /** One character inside a string, with `ensure_ascii`. */
  function Escape(c: char): (s: string)
    ensures s != []
  {
    if c == '\"' then "\\\"" else if c == '\\' then "\\\\"
    else if c == '\n' then "\\n" else if c == '\r' then "\\r" else if c == '\t' then "\\t"
    else if c == '\U{0C}' then "\\f" else if c == '\U{08}' then "\\b"
    else if ' ' <= c <= '~' then [c]
    else if c as int < 0x1_0000 then "\\u" + Hex4(c as int)
    else
      var v := c as int - 0x1_0000;
      "\\u" + Hex4(0xD800 + v / 1024) + "\\u" + Hex4(0xDC00 + v % 1024)
  }

  function EscapeAll(s: string): string {
    if s == [] then [] else Escape(s[0]) + EscapeAll(s[1..])
  }

  function Quote(s: string): string {
    "\"" + EscapeAll(s) + "\""
  }

  function Print(v: Json): string
    decreases v, 0
  {
    match v
    case Lit(name) => name
    case Num(lexeme) => lexeme
    case Str(text) => Quote(text)
    case Arr(items) => if items == [] then "[]" else "[" + PrintItems(items)
    case Obj(fields) => if fields == [] then "{}" else "{" + PrintFields(fields)
  }

  /** The elements of a non-empty array and its closing bracket. */
  function PrintItems(items: seq<Json>): string
    requires items != []
    decreases items, 1
  {
    Print(items[0]) + if |items| == 1 then "]" else "," + PrintItems(items[1..])
  }

  function PrintField(f: (string, Json)): string
    decreases f, 1
  {
    Quote(f.0) + (":" + Print(f.1))
  }

  /** The members of a non-empty object and its closing brace. */
  function PrintFields(fields: seq<(string, Json)>): string
    requires fields != []
    decreases fields, 1
  {
    PrintField(fields[0]) + if |fields| == 1 then "}" else "," + PrintFields(fields[1..])
  }

  // ---- parsing ----

  datatype Parse<+T> = Fail | Done(value: T, rest: string)

  predicate IsSpace(c: char) {
    c == ' ' || c == '\t' || c == '\n' || c == '\r'
  }

  function SkipWs(t: string): (r: string)
    ensures |r| <= |t|
  {
    if t != [] && IsSpace(t[0]) then SkipWs(t[1..]) else t
  }

  predicate IsDigit(c: char) {
    '0' <= c <= '9'
  }

  function Digits(t: string): (n: nat)
    ensures n <= |t|
  {
    if t != [] && IsDigit(t[0]) then 1 + Digits(t[1..]) else 0
  }

  function IntLen(t: string): (n: nat)
    ensures n <= |t|
  {
    var i := if t != [] && t[0] == '-' then 1 else 0;
    if i == |t| || !IsDigit(t[i]) then 0
    else if t[i] == '0' then i + 1
    else i + Digits(t[i..])
  }

  function FracLen(t: string): (n: nat)
    ensures n <= |t|
  {
    if |t| >= 2 && t[0] == '.' && IsDigit(t[1]) then 1 + Digits(t[1..]) else 0
  }

  function ExpLen(t: string): (n: nat)
    ensures n <= |t|
  {
    if t == [] || (t[0] != 'e' && t[0] != 'E') then 0
    else
      var j := if |t| >= 2 && (t[1] == '+' || t[1] == '-') then 2 else 1;
      if j < |t| && IsDigit(t[j]) then j + Digits(t[j..]) else 0
  }

  /** The length of the number at the front: `-?(0|[1-9]\d*)(\.\d+)?([eE][-+]?\d+)?`. */
  function NumberLen(t: string): (n: nat)
    ensures n <= |t|
  {
    var i := IntLen(t);
    if i == 0 then 0
    else
      var f := FracLen(t[i..]);
      i + f + ExpLen(t[i + f..])
  }

  /** The length of the literal at the front, or 0. */
  function LiteralLen(t: string): (n: nat)
    ensures n <= |t| && (n > 0 ==> IsLiteral(t[..n]))
  {
    if "null" <= t then 4
    else if "true" <= t then 4
    else if "false" <= t then 5
    else if "NaN" <= t then 3
    else if "Infinity" <= t then 8
    else if "-Infinity" <= t then 9
    else 0
  }

  function HexValue(c: char): int {
    if '0' <= c <= '9' then c as int - '0' as int
    else if 'a' <= c <= 'f' then c as int - 'a' as int + 10
    else if 'A' <= c <= 'F' then c as int - 'A' as int + 10
    else -1
  }

  /** Four hex digits at `at`, or -1. */
  function HexAt(t: string, at: nat): (n: int)
    ensures -1 <= n < 0x1_0000
    ensures n >= 0 ==> at + 4 <= |t|
  {
    if |t| < at + 4 then -1
    else
      var a, b, c, d := HexValue(t[at]), HexValue(t[at + 1]), HexValue(t[at + 2]), HexValue(t[at + 3]);
      if a < 0 || b < 0 || c < 0 || d < 0 then -1 else a * 4096 + b * 256 + c * 16 + d
  }

  /** A backslash escape at the front; surrogate escapes count only in pairs. */
  function Unescape(t: string): (p: Parse<char>)
    ensures p.Done? ==> |p.rest| < |t|
  {
    if |t| < 2 then Fail
    else match t[1]
      case '\"' => Done('\"', t[2..])
      case '\\' => Done('\\', t[2..])
      case '/' => Done('/', t[2..])
      case 'b' => Done('\U{08}', t[2..])
      case 'f' => Done('\U{0C}', t[2..])
      case 'n' => Done('\n', t[2..])
      case 'r' => Done('\r', t[2..])
      case 't' => Done('\t', t[2..])
      case 'u' =>
        var n := HexAt(t, 2);
        if n < 0 then Fail
        else if n < 0xD800 || 0xDFFF < n then Done(n as char, t[6..])
        else if 0xDBFF < n || |t| < 12 || t[6] != '\\' || t[7] != 'u' then Fail
        else
          var m := HexAt(t, 8);
          if m < 0xDC00 || 0xDFFF < m then Fail
          else Done((0x1_0000 + (n - 0xD800) * 1024 + (m - 0xDC00)) as char, t[12..])
      case _ => Fail
  }

  /** The rest of a string after its opening quote. */
  function ParseString(t: string): (p: Parse<string>)
    ensures p.Done? ==> |p.rest| < |t|
    decreases |t|
  {
    if t == [] then Fail
    else if t[0] == '\"' then Done([], t[1..])
    else
      var first := if t[0] == '\\' then Unescape(t) else if t[0] < ' ' then Fail else Done(t[0], t[1..]);
      if first.Fail? then Fail
      else
        var more := ParseString(first.rest);
        if more.Fail? then Fail else Done([first.value] + more.value, more.rest)
  }

  function ParseValue(t: string): (p: Parse<Json>)
    ensures p.Done? ==> |p.rest| < |t|
    decreases |t|, 1
  {
    if t == [] then Fail
    else if t[0] == '\"' then
      var s := ParseString(t[1..]);
      if s.Fail? then Fail else Done(Str(s.value), s.rest)
    else if t[0] == '[' then
      var r := SkipWs(t[1..]);
      if r != [] && r[0] == ']' then Done(Arr([]), r[1..])
      else
        var es := ParseItems(r);
        if es.Fail? then Fail else Done(Arr(es.value), es.rest)
    else if t[0] == '{' then
      var r := SkipWs(t[1..]);
      if r != [] && r[0] == '}' then Done(Obj([]), r[1..])
      else
        var fs := ParseFields(r);
        if fs.Fail? then Fail else Done(Obj(fs.value), fs.rest)
    else if LiteralLen(t) > 0 then Done(Lit(t[..LiteralLen(t)]), t[LiteralLen(t)..])
    else if NumberLen(t) > 0 then Done(Num(t[..NumberLen(t)]), t[NumberLen(t)..])
    else Fail
  }

  function ParseItems(t: string): (p: Parse<seq<Json>>)
    ensures p.Done? ==> |p.rest| < |t|
    decreases |t|, 2
  {
    var v := ParseValue(t);
    if v.Fail? then Fail
    else
      var r := SkipWs(v.rest);
      if r == [] then Fail
      else if r[0] == ']' then Done([v.value], r[1..])
      else if r[0] != ',' then Fail
      else
        var more := ParseItems(SkipWs(r[1..]));
        if more.Fail? then Fail else Done([v.value] + more.value, more.rest)
  }

  function ParseField(t: string): (p: Parse<(string, Json)>)
    ensures p.Done? ==> |p.rest| < |t|
    decreases |t|, 2
  {
    if t == [] || t[0] != '\"' then Fail
    else
      var k := ParseString(t[1..]);
      if k.Fail? then Fail
      else
        var r := SkipWs(k.rest);
        if r == [] || r[0] != ':' then Fail
        else
          var v := ParseValue(SkipWs(r[1..]));
          if v.Fail? then Fail else Done((k.value, v.value), v.rest)
  }

  function ParseFields(t: string): (p: Parse<seq<(string, Json)>>)
    ensures p.Done? ==> |p.rest| < |t|
    decreases |t|, 3
  {
    var f := ParseField(t);
    if f.Fail? then Fail
    else
      var r := SkipWs(f.rest);
      if r == [] then Fail
      else if r[0] == '}' then Done([f.value], r[1..])
      else if r[0] != ',' then Fail
      else
        var more := ParseFields(SkipWs(r[1..]));
        if more.Fail? then Fail else Done([f.value] + more.value, more.rest)
  }

  datatype Loaded = DecodeError | Loaded(value: Json)

  /** `json.loads` */
  function Loads(t: string): Loaded {
    var p := ParseValue(SkipWs(t));
    if p.Done? && SkipWs(p.rest) == [] then Loaded(p.value) else DecodeError
  }

  // ---- what can be printed ----

  predicate Printable(v: Json)
    decreases v, 0
  {
    match v
    case Lit(name) => IsLiteral(name)
    case Num(lexeme) => lexeme != [] && NumberLen(lexeme) == |lexeme|
    case Str(_) => true
    case Arr(items) => AllPrintable(items)
    case Obj(fields) => FieldsPrintable(fields)
  }

  predicate AllPrintable(items: seq<Json>)
    decreases items, 1
  {
    items != [] ==> Printable(items[0]) && AllPrintable(items[1..])
  }

  predicate FieldsPrintable(fields: seq<(string, Json)>)
    decreases fields, 1
  {
    fields != [] ==> FieldPrintable(fields[0]) && FieldsPrintable(fields[1..])
  }

  predicate FieldPrintable(f: (string, Json))
    decreases f, 1
  {
    Printable(f.1)
  }
}
