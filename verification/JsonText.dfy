/** Compact JSON text as Python prints it (RFC 8259, sections 4 to 7), and the reading back of its
    numbers. */
module JsonText {
  import opened Ports

  // ----- numbers

  predicate Digit(c: char) {
    '0' <= c <= '9'
  }

  predicate AllDigits(s: string) {
    forall i | 0 <= i < |s| :: Digit(s[i])
  }

  function DigitText(n: nat): (s: string)
    requires n < 10
    ensures |s| == 1 && Digit(s[0]) && s[0] as int - '0' as int == n
  {
    [('0' as int + n) as char]
  }

  function NatText(n: nat): (s: string)
    ensures s != "" && AllDigits(s)
  {
    if n < 10 then DigitText(n) else NatText(n / 10) + DigitText(n % 10)
  }

  function IntText(i: int): string {
    if i < 0 then "-" + NatText(-i) else NatText(i)
  }

  function NatOf(s: string): nat
    requires AllDigits(s)
  {
    if s == "" then 0
    else NatOf(s[..|s| - 1]) * 10 + (s[|s| - 1] as int - '0' as int)
  }

  lemma {:induction false} NatReadsBack(n: nat)
    ensures NatOf(NatText(n)) == n
  {
    if n >= 10 {
      NatReadsBack(n / 10);
      assert NatText(n)[..|NatText(n)| - 1] == NatText(n / 10);
    }
  }

  /** The longest run of digits at the front. */
  function DigitRun(s: string): (n: nat)
    ensures n <= |s| && AllDigits(s[..n]) && (n < |s| ==> !Digit(s[n]))
  {
    if s == "" || !Digit(s[0]) then 0 else 1 + DigitRun(s[1..])
  }

  /** The longest match of `-?[0-9]+` at the front. */
  function IntMatch(s: string): Option<nat> {
    var sign := if s != "" && s[0] == '-' then 1 else 0;
    var run := DigitRun(s[sign..]);
    if run == 0 then None else Some(sign + run)
  }

  /** The number a match denotes. */
  function IntOf(s: string): int
    requires IntMatch(s) == Some(|s|)
  {
    var magnitude: int := NatOf(if s[0] == '-' then s[1..] else s);
    if s[0] == '-' then -magnitude else magnitude
  }

  lemma {:induction false} DigitRunStops(digits: string, rest: string)
    requires AllDigits(digits) && (rest == "" || !Digit(rest[0]))
    ensures DigitRun(digits + rest) == |digits|
  {
    if digits == "" {
      assert digits + rest == rest;
    } else {
      DigitRunStops(digits[1..], rest);
      assert (digits + rest)[1..] == digits[1..] + rest;
    }
  }

  lemma SignedMatch(sign: string, digits: string, rest: string)
    requires sign == "" || sign == "-"
    requires digits != "" && AllDigits(digits) && (rest == "" || !Digit(rest[0]))
    ensures IntMatch(sign + digits + rest) == Some(|sign + digits|)
  {
    DigitRunStops(digits, rest);
    if sign == "" {
      assert sign + digits + rest == digits + rest;
      assert (digits + rest)[0..] == digits + rest;
    } else {
      assert (sign + digits + rest)[1..] == digits + rest;
    }
  }

  lemma SignedValue(sign: string, digits: string)
    requires sign == "" || sign == "-"
    requires digits != "" && AllDigits(digits)
    ensures IntMatch(sign + digits) == Some(|sign + digits|)
    ensures sign == "" ==> IntOf(sign + digits) == NatOf(digits)
    ensures sign == "-" ==> IntOf(sign + digits) + NatOf(digits) == 0
  {
    SignedMatch(sign, digits, "");
    assert sign + digits + "" == sign + digits;
    if sign == "" {
      assert sign + digits == digits;
    } else {
      assert (sign + digits)[1..] == digits;
    }
  }

  /** A printed number followed by anything but a digit is matched whole and reads back. */
  lemma IntReadsBack(i: int, rest: string)
    requires rest == "" || !Digit(rest[0])
    ensures IntMatch(IntText(i) + rest) == Some(|IntText(i)|)
    ensures IntMatch(IntText(i)) == Some(|IntText(i)|) && IntOf(IntText(i)) == i
  {
    var sign, n := if i < 0 then "-" else "", if i < 0 then -i else i;
    NatReadsBack(n);
    SignedText(i, sign, n);
    SignedMatch(sign, NatText(n), rest);
    SignedValue(sign, NatText(n));
  }

  lemma SignedText(i: int, sign: string, n: nat)
    requires if i < 0 then sign == "-" && n == -i else sign == "" && n == i
    ensures IntText(i) == sign + NatText(n)
  {
  }

  // ----- strings

  /** A character the printer leaves as it is. */
  predicate PlainChar(c: char) {
    ' ' <= c <= '~' && c != '"' && c != '\\'
  }

  predicate Plain(s: string) {
    forall i | 0 <= i < |s| :: PlainChar(s[i])
  }

  function HexDigit(n: nat): char
    requires n < 16
  {
    "0123456789abcdef"[n]
  }

  function Unicode(n: nat): string
    requires n < 0x10000
  {
    "\\u" + [HexDigit(n / 4096), HexDigit(n / 256 % 16), HexDigit(n / 16 % 16), HexDigit(n % 16)]
  }

  function EscapedChar(c: char): string {
    var n := c as int;
    if PlainChar(c) then [c]
    else if c == '"' || c == '\\' then ['\\', c]
    else if c == '\n' then "\\n"
    else if c == '\r' then "\\r"
    else if c == '\t' then "\\t"
    else if n == 8 then "\\b"
    else if n == 12 then "\\f"
    else if n < 0x10000 then Unicode(n)
    else Unicode(0xd800 + (n - 0x10000) / 1024 % 1024) + Unicode(0xdc00 + (n - 0x10000) % 1024)
  }

  function Escaped(s: string): string {
    if s == "" then "" else EscapedChar(s[0]) + Escaped(s[1..])
  }

  lemma {:induction false} PlainIsUnchanged(s: string)
    requires Plain(s)
    ensures Escaped(s) == s
  {
    if s != "" { PlainIsUnchanged(s[1..]); }
  }

  // ----- values and objects

  datatype Value =
    | Number(number: int)
    | Text(text: string)
    | Null
    | Flag(flag: bool)
    | Numbers(numbers: seq<int>)

  datatype Field = Field(name: string, value: Value)

  function Quoted(s: string): string {
    "\"" + Escaped(s) + "\""
  }

  function NumbersText(numbers: seq<int>): string {
    if numbers == [] then ""
    else IntText(numbers[0]) + (if |numbers| == 1 then "" else "," + NumbersText(numbers[1..]))
  }

  function ValueText(v: Value): string {
    match v
    case Number(i) => IntText(i)
    case Text(s) => Quoted(s)
    case Null => "null"
    case Flag(b) => if b then "true" else "false"
    case Numbers(ns) => "[" + NumbersText(ns) + "]"
  }

  function FieldText(f: Field): string {
    Quoted(f.name) + ":" + ValueText(f.value)
  }

  function FieldsText(fields: seq<Field>): string {
    if fields == [] then ""
    else FieldText(fields[0]) + (if |fields| == 1 then "" else "," + FieldsText(fields[1..]))
  }

  function ObjectText(fields: seq<Field>): string {
    "{" + FieldsText(fields) + "}"
  }

  function ObjectTexts(objects: seq<seq<Field>>): seq<string> {
    seq(|objects|, i requires 0 <= i < |objects| => ObjectText(objects[i]))
  }

  function CommaJoined(parts: seq<string>): string {
    if parts == [] then ""
    else parts[0] + (if |parts| == 1 then "" else "," + CommaJoined(parts[1..]))
  }
}
