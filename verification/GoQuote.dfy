/** Go's strconv.Quote, which fmt's %q verb prints through.  Which characters outside ASCII are
    printable is a table of the Unicode version Go was built with, so it is a parameter: every
    result holds for every table. */
module GoQuote {
  import opened Wrappers
  import opened Text

  type Table = char -> bool

  predicate IsPrint(printable: Table, c: char) {
    if c as int < 0x80 then 32 <= c as int < 127 else printable(c)
  }

  /** Characters that Quote copies unchanged. */
  predicate PlainChar(printable: Table, c: char) {
    IsPrint(printable, c) && c != '"' && c != '\\'
  }

  predicate Plain(printable: Table, s: string) {
    forall c | c in s :: PlainChar(printable, c)
  }

  const HEX: string := "0123456789abcdef"

  function Hex(n: nat, width: nat): (s: string)
    ensures |s| == width
    ensures forall c | c in s :: c in HEX
  {
    if width == 0 then "" else Hex(n / 16, width - 1) + [HEX[n % 16]]
  }

  function QuoteChar(printable: Table, c: char): string {
    var n := c as int;
    if c == '"' || c == '\\' then ['\\', c]
    else if IsPrint(printable, c) then [c]
    else if n == 7 then "\\a"
    else if n == 8 then "\\b"
    else if n == 12 then "\\f"
    else if n == 10 then "\\n"
    else if n == 13 then "\\r"
    else if n == 9 then "\\t"
    else if n == 11 then "\\v"
    else if n < 32 || n == 127 then "\\x" + Hex(n, 2)
    else if n < 0x10000 then "\\u" + Hex(n, 4)
    else "\\U" + Hex(n, 8)
  }

  /** The text Quote prints between its two quotation marks. */
  function Body(printable: Table, s: string): string {
    if s == "" then "" else QuoteChar(printable, s[0]) + Body(printable, s[1..])
  }

  function Quote(printable: Table, s: string): string {
    "\"" + Body(printable, s) + "\""
  }

  lemma QuoteCharShape(printable: Table, c: char)
    ensures '\n' !in QuoteChar(printable, c)
    ensures PlainChar(printable, c) ==> QuoteChar(printable, c) == [c]
    ensures !PlainChar(printable, c) ==> |QuoteChar(printable, c)| >= 2
  {
    assert '\n' !in HEX;
  }

  /** Quoting never produces a line break, whatever the input. */
  lemma {:induction false} BodyOneLine(printable: Table, s: string)
    ensures '\n' !in Body(printable, s)
  {
    if s != "" {
      QuoteCharShape(printable, s[0]);
      BodyOneLine(printable, s[1..]);
    }
  }

  /** Quote leaves exactly the plain strings alone and lengthens every other one. */
  lemma {:induction false} BodyGrows(printable: Table, s: string)
    ensures Plain(printable, s) ==> Body(printable, s) == s
    ensures !Plain(printable, s) ==> |Body(printable, s)| > |s|
    ensures |Body(printable, s)| >= |s|
  {
    if s != "" {
      QuoteCharShape(printable, s[0]);
      BodyGrows(printable, s[1..]);
      assert s == [s[0]] + s[1..];
    }
  }

  /** Go's unquote in the config store only takes the outer marks off. */
  lemma {:induction false} BodyNonempty(printable: Table, s: string)
    ensures Body(printable, s) == "" <==> s == ""
  {
    BodyGrows(printable, s);
  }

  // ----------------------------------------------------------------- reading

  /** The value of a hexadecimal digit. */
  function HexDigit(c: char): Option<nat> {
    if '0' <= c <= '9' then Some(c as int - '0' as int)
    else if 'a' <= c <= 'f' then Some(c as int - 'a' as int + 10)
    else None
  }

  function HexValue(s: string): Option<nat> {
    if s == "" then Some(0)
    else
      var init, d := HexValue(s[..|s| - 1]), HexDigit(s[|s| - 1]);
      if init.None? || d.None? then None else Some(init.value * 16 + d.value)
  }

  /** The character at the front of an interpreted string literal, and the length of its spelling: the
      escapes of the Go language, section "String literals" of its specification. */
  function Front(s: string): Option<(nat, nat)> {
    if s == "" then None
    else if s[0] != '\\' then Some((s[0] as int, 1))
    else if |s| < 2 then None
    else match s[1]
      case 'a' => Some((7, 2))
      case 'b' => Some((8, 2))
      case 't' => Some((9, 2))
      case 'n' => Some((10, 2))
      case 'v' => Some((11, 2))
      case 'f' => Some((12, 2))
      case 'r' => Some((13, 2))
      case '\\' => Some((92, 2))
      case '"' => Some((34, 2))
      case 'x' => Digits(s, 2)
      case 'u' => Digits(s, 4)
      case 'U' => Digits(s, 8)
      case _ => None
  }

  function Digits(s: string, width: nat): Option<(nat, nat)> {
    if |s| < 2 + width || HexValue(s[2..2 + width]).None? then None
    else Some((HexValue(s[2..2 + width]).value, 2 + width))
  }

  /** The characters an interpreted string literal stands for. */
  function Decode(s: string): Option<seq<nat>>
    decreases |s|
  {
    if s == "" then Some([])
    else
      var f := Front(s);
      if f.None? || f.value.1 == 0 || f.value.1 > |s| then None
      else
        var rest := Decode(s[f.value.1..]);
        if rest.None? then None else Some([f.value.0] + rest.value)
  }

  function Codes(s: string): seq<nat> {
    if s == "" then [] else [s[0] as int] + Codes(s[1..])
  }

  function Power(width: nat): nat {
    if width == 0 then 1 else 16 * Power(width - 1)
  }

  lemma HexDigitReads(n: nat)
    requires n < 16
    ensures HexDigit(HEX[n]) == Some(n)
  {
  }

  lemma {:induction false} HexReads(n: nat, width: nat)
    requires n < Power(width)
    ensures HexValue(Hex(n, width)) == Some(n)
    decreases width
  {
    if width > 0 {
      HexReads(n / 16, width - 1);
      HexDigitReads(n % 16);
      var h := Hex(n, width);
      assert h[..|h| - 1] == Hex(n / 16, width - 1);
    }
  }

  lemma Powers()
    ensures Power(2) == 0x100 && Power(4) == 0x10000 && Power(8) == 0x1_0000_0000
  {
    assert Power(3) == 0x1000 && Power(6) == 0x100_0000;
  }

  lemma EscapeReads(mark: char, n: nat, width: nat, rest: string)
    requires mark in {'x', 'u', 'U'} && n < Power(width)
    requires width == if mark == 'x' then 2 else if mark == 'u' then 4 else 8
    ensures Front(['\\', mark] + Hex(n, width) + rest) == Some((n, 2 + width))
  {
    var s := ['\\', mark] + Hex(n, width) + rest;
    HexReads(n, width);
    assert s[0] == '\\' && s[1] == mark && s[2..2 + width] == Hex(n, width);
  }

  /** Every quoted character reads as itself, whatever follows. */
  lemma CharReads(printable: Table, c: char, rest: string)
    ensures Front(QuoteChar(printable, c) + rest) == Some((c as int, |QuoteChar(printable, c)|))
  {
    var n, q := c as int, QuoteChar(printable, c);
    Powers();
    assert n < 0x110000;
    if c != '"' && c != '\\' && !IsPrint(printable, c) && !(7 <= n <= 13) {
      var mark := if n < 32 || n == 127 then 'x' else if n < 0x10000 then 'u' else 'U';
      var width := if n < 32 || n == 127 then 2 else if n < 0x10000 then 4 else 8;
      assert q == ['\\', mark] + Hex(n, width);
      EscapeReads(mark, n, width, rest);
    } else {
      assert (q + rest)[0] == q[0] && (|q| == 2 ==> (q + rest)[1] == q[1]);
    }
  }

  /** ROUND TRIP.  As a Go string literal the quoted text stands for exactly the original. */
  lemma {:induction false} QuoteReads(printable: Table, s: string)
    ensures Decode(Body(printable, s)) == Some(Codes(s))
  {
    if s != "" {
      var q, rest := QuoteChar(printable, s[0]), Body(printable, s[1..]);
      CharReads(printable, s[0], rest);
      QuoteCharShape(printable, s[0]);
      assert (q + rest)[|q|..] == rest;
      QuoteReads(printable, s[1..]);
    }
  }

  lemma {:induction false} CodesAt(s: string, i: nat)
    requires i < |s|
    ensures |Codes(s)| == |s| && Codes(s)[i] == s[i] as int
  {
    if i > 0 {
      CodesAt(s[1..], i - 1);
    } else if |s| > 1 {
      CodesAt(s[1..], 0);
    }
  }
}
