/** What strings.Fields and the number parsers give on text that was laid out from words and numbers. */
module WordLaws {
  import opened Wrappers
  import opened Text
  import opened Words

  // ------------------------------------------------------------------- words

  /** A nonempty run of characters without white space. */
  predicate Word(w: string) {
    w != "" && forall i | 0 <= i < |w| :: !IsSpace(w[i])
  }

  /** A run of white space. */
  predicate Blank(s: string) {
    forall i | 0 <= i < |s| :: IsSpace(s[i])
  }

  predicate Gap(s: string) {
    s != "" && Blank(s)
  }

  /** Words with a gap in front of each. */
  datatype Cell = Cell(gap: string, word: string)

  predicate Row(cells: seq<Cell>) {
    forall c | c in cells :: Gap(c.gap) && Word(c.word)
  }

  function Laid(cells: seq<Cell>): string {
    if cells == [] then "" else cells[0].gap + cells[0].word + Laid(cells[1..])
  }

  function WordsOf(cells: seq<Cell>): (r: seq<string>)
    ensures |r| == |cells|
    ensures forall i | 0 <= i < |r| :: r[i] == cells[i].word
  {
    if cells == [] then [] else [cells[0].word] + WordsOf(cells[1..])
  }

  lemma {:induction false} TrimLeftBlank(pad: string, s: string)
    requires Blank(pad) && (s == "" || !IsSpace(s[0]))
    ensures TrimLeft(pad + s) == s
  {
    if pad == "" {
      assert pad + s == s;
    } else {
      assert (pad + s)[1..] == pad[1..] + s;
      TrimLeftBlank(pad[1..], s);
    }
  }

  lemma FrontWord(w: string, rest: string)
    requires Word(w) && (rest == "" || IsSpace(rest[0]))
    ensures WordLen(w + rest) == |w|
  {
    if rest == "" {
      assert w + rest == w;
      WholeWord(w);
    } else {
      assert (w + rest)[..|w|] == w && (w + rest)[|w|] == rest[0];
      WordOf(w, w + rest);
    }
  }

  lemma {:induction false} WholeWord(w: string)
    requires forall i | 0 <= i < |w| :: !IsSpace(w[i])
    ensures WordLen(w) == |w|
  {
    if w != "" {
      WholeWord(w[1..]);
    }
  }

  /** White space, a word, and what follows it. */
  lemma FieldsFront(pad: string, w: string, rest: string)
    requires Blank(pad) && Word(w) && (rest == "" || IsSpace(rest[0]))
    ensures Fields(pad + (w + rest)) == [w] + Fields(rest)
  {
    TrimLeftBlank(pad, w + rest);
    FrontWord(w, rest);
    assert (w + rest)[..|w|] == w && (w + rest)[|w|..] == rest;
  }

  lemma {:induction false} FieldsBlank(pad: string)
    requires Blank(pad)
    ensures Fields(pad) == []
  {
    TrimLeftBlank(pad, "");
    assert pad + "" == pad;
  }

  /** Fields gives back the words of a row, whatever the gaps, and goes on with what stands behind it. */
  lemma {:induction false} FieldsRow(cells: seq<Cell>, rest: string)
    requires Row(cells) && (rest == "" || IsSpace(rest[0]))
    ensures Fields(Laid(cells) + rest) == WordsOf(cells) + Fields(rest)
    decreases |cells|
  {
    if cells == [] {
      assert Laid(cells) + rest == rest;
      assert [] + Fields(rest) == Fields(rest);
    } else {
      var c, more := cells[0], Laid(cells[1..]) + rest;
      assert c in cells;
      assert Laid(cells) + rest == c.gap + (c.word + more);
      assert more == "" || IsSpace(more[0]) by { RowFront(cells[1..], rest); }
      FieldsFront(c.gap, c.word, more);
      FieldsRow(cells[1..], rest);
      Assoc([c.word], WordsOf(cells[1..]), Fields(rest));
    }
  }

  lemma RowFront(cells: seq<Cell>, rest: string)
    requires Row(cells) && (rest == "" || IsSpace(rest[0]))
    ensures var s := Laid(cells) + rest; s == "" || IsSpace(s[0])
  {
    if cells != [] {
      assert cells[0] in cells;
      assert (Laid(cells) + rest)[0] == cells[0].gap[0];
    }
  }

  // ----------------------------------------------------------------- numbers

  /** A natural number in decimal, most significant digit first. */
  function Decimal(n: nat): string {
    if n < 10 then [Digit(n)] else Decimal(n / 10) + [Digit(n % 10)]
  }

  function Digit(n: nat): char
    requires n < 10
  {
    "0123456789"[n]
  }

  lemma DigitIs(n: nat)
    requires n < 10
    ensures IsDigit(Digit(n)) && Digit(n) as int - '0' as int == n && !IsSpace(Digit(n))
  {
  }

  lemma {:induction false} DecimalReads(n: nat)
    ensures AllDigits(Decimal(n)) && Word(Decimal(n)) && Value(Decimal(n)) == n
  {
    if n < 10 {
      DigitIs(n);
      assert [Digit(n)][..0] == "";
    } else {
      DecimalReads(n / 10);
      DigitIs(n % 10);
      assert Decimal(n)[..|Decimal(n)| - 1] == Decimal(n / 10);
    }
  }

  /** Upper-case ASCII letters become lower-case ones; nothing else changes. */
  lemma LowerIs(s: string, i: nat)
    requires i < |s|
    ensures var c := ToLower(s)[i];
      if 'A' <= s[i] <= 'Z' then 'a' <= c <= 'z' && c as int - 'a' as int == s[i] as int - 'A' as int else c == s[i]
  {
  }

  /** A colon with none in front of it is the first. */
  lemma {:induction false} FirstColon(front: string, rest: string)
    requires ':' !in front
    ensures IndexOf(front + ":" + rest, ':') == |front|
  {
    var s := front + ":" + rest;
    assert s[|front|] == ':' && forall i | 0 <= i < |front| :: s[i] == front[i];
  }

  // ------------------------------------------------------------------- trimming

  lemma {:induction false} TrimRightBehind(front: string, p: string)
    requires front != "" && !IsSpace(front[|front| - 1])
    ensures TrimRight(front + p) == front + TrimRight(p)
    decreases |p|
  {
    var s := front + p;
    if p == "" {
      assert s == front;
    } else if IsSpace(p[|p| - 1]) {
      assert s[..|s| - 1] == front + p[..|p| - 1];
      TrimRightBehind(front, p[..|p| - 1]);
    }
  }

  lemma {:induction false} FieldsDropsLast(s: string, c: char)
    requires IsSpace(c)
    ensures Fields(s + [c]) == Fields(s)
    decreases |s|
  {
    TrimLeftShorter(s);
    var t := TrimLeft(s);
    if t == "" {
      AllBlank(s);
      FieldsBlank(s + [c]);
    } else {
      TrimLeftAppend(s, c);
      var k := WordLen(t);
      WordLenAppend(t, c);
      assert (t + [c])[..k] == t[..k] && (t + [c])[k..] == t[k..] + [c];
      FieldsDropsLast(t[k..], c);
    }
  }

  lemma {:induction false} AllBlank(s: string)
    requires TrimLeft(s) == ""
    ensures Blank(s)
  {
    if s != "" {
      AllBlank(s[1..]);
    }
  }

  lemma {:induction false} TrimLeftAppend(s: string, c: char)
    requires TrimLeft(s) != ""
    ensures TrimLeft(s + [c]) == TrimLeft(s) + [c]
  {
    if IsSpace(s[0]) {
      assert (s + [c])[1..] == s[1..] + [c];
      TrimLeftAppend(s[1..], c);
    }
  }

  lemma {:induction false} WordLenAppend(t: string, c: char)
    requires IsSpace(c)
    ensures WordLen(t + [c]) == WordLen(t)
  {
    if t != "" && !IsSpace(t[0]) {
      assert (t + [c])[1..] == t[1..] + [c];
      WordLenAppend(t[1..], c);
    } else if t == "" {
      assert t + [c] == [c];
    }
  }

  lemma {:induction false} FieldsTrimRight(s: string)
    ensures Fields(TrimRight(s)) == Fields(s)
  {
    if s != "" && IsSpace(s[|s| - 1]) {
      FieldsTrimRight(s[..|s| - 1]);
      FieldsDropsLast(s[..|s| - 1], s[|s| - 1]);
      assert s[..|s| - 1] + [s[|s| - 1]] == s;
    }
  }

  lemma {:induction false} FieldsTrimLeft(s: string)
    ensures Fields(TrimLeft(s)) == Fields(s)
  {
    TrimLeftTwice(s);
  }

  lemma {:induction false} TrimLeftTwice(s: string)
    ensures TrimLeft(TrimLeft(s)) == TrimLeft(s)
  {
    if s != "" && IsSpace(s[0]) {
      TrimLeftTwice(s[1..]);
    }
  }

  /** White space around the text does not change its words. */
  lemma FieldsTrim(s: string)
    ensures Fields(TrimSpace(s)) == Fields(s)
  {
    FieldsTrimRight(TrimLeft(s));
    FieldsTrimLeft(s);
  }

  // ------------------------------------------------------------------- scanning

  /** Lines that all fit are delivered one by one. */
  lemma ScanUnlines(lines: seq<string>, limit: nat)
    requires forall l | l in lines :: '\n' !in l && ByteLen(l) < limit
    ensures Scan(Unlines(lines), limit) == Scanned(DropCRs(lines), false)
  {
    RawLinesUnlines(lines, "");
    assert Unlines(lines) + "" == Unlines(lines) && lines + [] == lines;
    ScanAppend(lines, [], limit);
    assert DropCRs(lines) + [] == DropCRs(lines);
  }

  /** A line that does not fit ends the scan, whatever follows it. */
  lemma ScanStops(lines: seq<string>, long: string, rest: string, limit: nat)
    requires forall l | l in lines :: '\n' !in l && ByteLen(l) < limit
    requires '\n' !in long && ByteLen(long) >= limit
    ensures Scan(Unlines(lines) + (long + "\n" + rest), limit) == Scanned(DropCRs(lines), true)
  {
    RawLinesUnlines(lines, long + "\n" + rest);
    RawLinesCons(long, rest);
    ScanAppend(lines, [long] + RawLines(rest), limit);
    assert DropCRs(lines) + [] == DropCRs(lines);
  }

  lemma DropCRsSnoc(lines: seq<string>, l: string)
    ensures DropCRs(lines + [l]) == DropCRs(lines) + [DropCR(l)]
  {
  }
}
