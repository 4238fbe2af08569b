/** Text as Go sees it: the parts of packages `strings` and `bufio` that the parsers rely on.
    A string is a sequence of Unicode scalar values, that is, the decoded form of valid UTF-8. */
module Text {

  /** unicode.IsSpace. */
  predicate IsSpace(c: char) {
    var n := c as int;
    9 <= n <= 13 || n == 32 || n == 0x85 || n == 0xA0 || n == 0x1680 || 0x2000 <= n <= 0x200a
    || n == 0x2028 || n == 0x2029 || n == 0x202f || n == 0x205f || n == 0x3000
  }

  /** Number of bytes of the UTF-8 encoding of one character. */
  function CharLen(c: char): nat {
    if c as int < 0x80 then 1 else if c as int < 0x800 then 2 else if c as int < 0x10000 then 3 else 4
  }

  /** Go's len(s). */
  function ByteLen(s: string): (n: nat)
    ensures |s| <= n
  {
    if s == "" then 0 else CharLen(s[0]) + ByteLen(s[1..])
  }

  lemma {:induction false} ByteLenAppend(a: string, b: string)
    ensures ByteLen(a + b) == ByteLen(a) + ByteLen(b)
  {
    if a == "" {
      assert a + b == b;
    } else {
      ByteLenAppend(a[1..], b);
      assert (a + b)[1..] == a[1..] + b;
    }
  }

  predicate HasPrefix(s: string, prefix: string) {
    prefix <= s
  }

  // ---------------------------------------------------------------- trimming

  function TrimLeft(s: string): string {
    if s != "" && IsSpace(s[0]) then TrimLeft(s[1..]) else s
  }

  function TrimRight(s: string): string {
    if s != "" && IsSpace(s[|s| - 1]) then TrimRight(s[..|s| - 1]) else s
  }

  function TrimSpace(s: string): string {
    TrimRight(TrimLeft(s))
  }

  /** s has no space to trim on either side. */
  predicate Tight(s: string) {
    s != "" ==> !IsSpace(s[0]) && !IsSpace(s[|s| - 1])
  }

  lemma {:induction false} TrimPadded(pad: string, s: string)
    requires forall c | c in pad :: IsSpace(c)
    requires Tight(s) && s != ""
    ensures TrimSpace(pad + s) == s
  {
    if pad == "" {
      assert pad + s == s;
    } else {
      assert (pad + s)[1..] == pad[1..] + s;
      TrimPadded(pad[1..], s);
    }
  }

  lemma {:induction false} TrimLeftSuffix(s: string)
    ensures TrimLeft(s) != "" ==> !IsSpace(TrimLeft(s)[0])
    ensures exists k :: 0 <= k <= |s| && TrimLeft(s) == s[k..]
  {
    if s != "" && IsSpace(s[0]) {
      TrimLeftSuffix(s[1..]);
      var k :| 0 <= k <= |s[1..]| && TrimLeft(s[1..]) == s[1..][k..];
      assert s[1..][k..] == s[k + 1..];
    } else {
      assert s == s[0..];
    }
  }

  lemma {:induction false} TrimRightPrefix(s: string)
    ensures TrimRight(s) != "" ==> !IsSpace(TrimRight(s)[|TrimRight(s)| - 1])
    ensures TrimRight(s) <= s
  {
    if s != "" && IsSpace(s[|s| - 1]) {
      TrimRightPrefix(s[..|s| - 1]);
    }
  }

  lemma TrimSpaceTight(s: string)
    ensures Tight(TrimSpace(s))
    ensures forall c | c in TrimSpace(s) :: c in s
  {
    TrimLeftSuffix(s);
    TrimRightPrefix(TrimLeft(s));
  }

  lemma {:induction false} TrimSpaceDropsLast(s: string, c: char)
    requires IsSpace(c)
    ensures TrimSpace(s + [c]) == TrimSpace(s)
  {
    if s != "" && IsSpace(s[0]) {
      assert (s + [c])[1..] == s[1..] + [c];
      TrimSpaceDropsLast(s[1..], c);
    } else if s == "" {
      assert s + [c] == [c];
      assert TrimLeft([c]) == TrimLeft([c][1..]);
    } else {
      assert (s + [c])[..|s|] == s;
    }
  }

  // ------------------------------------------------------------------- lines

  /** Index of the first c in s, or |s| when there is none. */
  function IndexOf(s: string, c: char): (i: nat)
    ensures i <= |s|
    ensures forall j | 0 <= j < i :: s[j] != c
    ensures i < |s| ==> s[i] == c
  {
    if s == "" || s[0] == c then 0 else 1 + IndexOf(s[1..], c)
  }

  /** The pieces of s between newlines; an empty piece after the last newline does not count. */
  function RawLines(s: string): (lines: seq<string>)
    decreases |s|
    ensures forall l | l in lines :: '\n' !in l
    ensures lines == [] <==> s == ""
  {
    if s == "" then []
    else
      var i := IndexOf(s, '\n');
      [s[..i]] + if i == |s| then [] else RawLines(s[i + 1..])
  }

  /** Every line followed by a newline. */
  function Unlines(lines: seq<string>): string {
    if lines == [] then "" else lines[0] + "\n" + Unlines(lines[1..])
  }

  /** strings.Join(lines, "\n"). */
  function Join(lines: seq<string>): string {
    if lines == [] then "" else if |lines| == 1 then lines[0] else lines[0] + "\n" + Join(lines[1..])
  }

  predicate EndsInNewline(s: string) {
    s != "" && s[|s| - 1] == '\n'
  }

  lemma Assoc<T>(a: seq<T>, b: seq<T>, c: seq<T>)
    ensures (a + b) + c == a + (b + c)
  {
  }

  lemma RawLinesCons(line: string, rest: string)
    requires '\n' !in line
    ensures RawLines(line + "\n" + rest) == [line] + RawLines(rest)
  {
    var s := line + "\n" + rest;
    var i := IndexOf(s, '\n');
    assert s[|line|] == '\n';
    assert forall j | 0 <= j < |line| :: s[j] == line[j] != '\n';
    assert i == |line|;
    assert s[..i] == line && s[i + 1..] == rest;
  }

  lemma {:induction false} RawLinesUnlines(lines: seq<string>, rest: string)
    requires forall l | l in lines :: '\n' !in l
    ensures RawLines(Unlines(lines) + rest) == lines + RawLines(rest)
  {
    if lines == [] {
      assert Unlines(lines) + rest == rest;
    } else {
      var more := Unlines(lines[1..]);
      RawLinesUnlines(lines[1..], rest);
      RawLinesCons(lines[0], more + rest);
      Assoc(lines[0] + "\n", more, rest);
      Assoc([lines[0]], lines[1..], RawLines(rest));
      assert lines == [lines[0]] + lines[1..];
    }
  }

  lemma UnlinesCons(line: string, lines: seq<string>)
    ensures Unlines([line] + lines) == line + "\n" + Unlines(lines)
  {
    assert ([line] + lines)[1..] == lines;
  }

  lemma {:induction false} UnlinesRawLines(s: string)
    requires s == "" || EndsInNewline(s)
    ensures Unlines(RawLines(s)) == s
    decreases |s|
  {
    if s != "" {
      var i := IndexOf(s, '\n');
      assert s[|s| - 1] == '\n';
      var line, rest := s[..i], s[i + 1..];
      assert s == line + "\n" + rest;
      assert rest != "" ==> rest[|rest| - 1] == s[|s| - 1];
      UnlinesRawLines(rest);
      RawLinesCons(line, rest);
      UnlinesCons(line, RawLines(rest));
    }
  }

  lemma {:induction false} UnlinesAppend(a: seq<string>, b: seq<string>)
    ensures Unlines(a + b) == Unlines(a) + Unlines(b)
  {
    if a == [] {
      assert a + b == b;
    } else {
      assert (a + b)[1..] == a[1..] + b;
      UnlinesAppend(a[1..], b);
    }
  }

  lemma UnlinesSnoc(init: seq<string>, last: string)
    ensures Unlines(init + [last]) == Unlines(init) + last + "\n"
  {
    UnlinesAppend(init, [last]);
    assert Unlines([last]) == last + "\n";
    Assoc(Unlines(init), last, "\n");
  }

  /** Joining puts a newline after every line but the last. */
  lemma {:induction false} JoinSnoc(lines: seq<string>, last: string)
    ensures Join(lines + [last]) == Unlines(lines) + last
  {
    if lines == [] {
      assert lines + [last] == [last];
    } else {
      assert (lines + [last])[1..] == lines[1..] + [last];
      JoinSnoc(lines[1..], last);
      assert Unlines(lines) + last == lines[0] + "\n" + (Unlines(lines[1..]) + last);
    }
  }

  // ----------------------------------------------------------- bufio.Scanner

  /** What a bufio.Scanner with ScanLines delivers: the tokens, and whether it stopped at a line
      that does not fit its buffer. */
  datatype Scanned = Scanned(lines: seq<string>, tooLong: bool)

  /** The one trailing carriage return bufio.ScanLines removes. */
  function DropCR(line: string): string {
    if line != "" && line[|line| - 1] == '\r' then line[..|line| - 1] else line
  }

  function ScanRaw(raw: seq<string>, limit: nat): Scanned {
    if raw == [] then Scanned([], false)
    else if ByteLen(raw[0]) >= limit then Scanned([], true)
    else
      var rest := ScanRaw(raw[1..], limit);
      Scanned([DropCR(raw[0])] + rest.lines, rest.tooLong)
  }

  function Scan(data: string, limit: nat): Scanned {
    ScanRaw(RawLines(data), limit)
  }

  function DropCRs(lines: seq<string>): (r: seq<string>)
    ensures |r| == |lines|
    ensures forall i | 0 <= i < |r| :: r[i] == DropCR(lines[i])
  {
    seq(|lines|, i requires 0 <= i < |lines| => DropCR(lines[i]))
  }

  /** Lines that fit are delivered one by one; scanning then goes on with what follows. */
  lemma {:induction false} ScanAppend(a: seq<string>, b: seq<string>, limit: nat)
    requires forall l | l in a :: ByteLen(l) < limit
    ensures ScanRaw(a + b, limit) == Scanned(DropCRs(a) + ScanRaw(b, limit).lines, ScanRaw(b, limit).tooLong)
  {
    if a == [] {
      assert a + b == b;
      assert DropCRs(a) == [];
    } else {
      assert (a + b)[1..] == a[1..] + b;
      ScanAppend(a[1..], b, limit);
      assert DropCRs(a) == [DropCR(a[0])] + DropCRs(a[1..]);
    }
  }

  lemma {:induction false} ScannedLines(raw: seq<string>, limit: nat)
    requires forall l | l in raw :: '\n' !in l
    ensures forall l | l in ScanRaw(raw, limit).lines :: '\n' !in l && ByteLen(l) < limit
  {
    if raw != [] && ByteLen(raw[0]) < limit {
      ScannedLines(raw[1..], limit);
      DropCRShorter(raw[0]);
      assert raw[0] in raw;
    }
  }

  lemma DropCRShorter(line: string)
    ensures ByteLen(DropCR(line)) <= ByteLen(line)
    ensures TrimSpace(DropCR(line)) == TrimSpace(line)
  {
    if DropCR(line) != line {
      assert line == DropCR(line) + ['\r'];
      ByteLenAppend(DropCR(line), ['\r']);
      TrimSpaceDropsLast(DropCR(line), '\r');
    }
  }

  lemma {:induction false} TrimEmpty(s: string)
    ensures TrimSpace(s) == "" <==> forall i | 0 <= i < |s| :: IsSpace(s[i])
  {
    if s != "" && IsSpace(s[0]) {
      TrimEmpty(s[1..]);
    } else if s != "" {
      TrimRightKeeps(s);
    }
  }

  lemma {:induction false} TrimRightKeeps(s: string)
    requires s != "" && !IsSpace(s[0])
    ensures TrimRight(s) != ""
  {
    if IsSpace(s[|s| - 1]) {
      TrimRightKeeps(s[..|s| - 1]);
    }
  }
}
