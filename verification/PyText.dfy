/** Text as Python sees it: str.strip, str.splitlines and str.partition. */
module PyText {

  /** str.isspace for one character, which is also what \s matches. */
  predicate IsSpace(c: char) {
    var n := c as int;
    9 <= n <= 13 || 0x1c <= n <= 0x20 || n == 0x85 || n == 0xA0 || n == 0x1680 || 0x2000 <= n <= 0x200a
    || n == 0x2028 || n == 0x2029 || n == 0x202f || n == 0x205f || n == 0x3000
  }

  /** The characters str.splitlines breaks at. */
  predicate IsBreak(c: char) {
    var n := c as int;
    10 <= n <= 13 || 0x1c <= n <= 0x1e || n == 0x85 || n == 0x2028 || n == 0x2029
  }

  function LStrip(s: string): string {
    if s != "" && IsSpace(s[0]) then LStrip(s[1..]) else s
  }

  function RStrip(s: string): string {
    if s != "" && IsSpace(s[|s| - 1]) then RStrip(s[..|s| - 1]) else s
  }

  function Strip(s: string): string {
    RStrip(LStrip(s))
  }

  predicate Stripped(s: string) {
    s != "" ==> !IsSpace(s[0]) && !IsSpace(s[|s| - 1])
  }

  lemma {:induction false} LStripKeeps(s: string)
    ensures var r := LStrip(s); (r == "" || !IsSpace(r[0])) && forall c | c in r :: c in s
  {
    if s != "" && IsSpace(s[0]) {
      LStripKeeps(s[1..]);
    }
  }

  lemma {:induction false} RStripKeeps(s: string)
    requires s == "" || !IsSpace(s[0])
    ensures var r := RStrip(s); Stripped(r) && forall c | c in r :: c in s
  {
    if s != "" && IsSpace(s[|s| - 1]) {
      assert |s| > 1;
      RStripKeeps(s[..|s| - 1]);
    }
  }

  lemma StripKeeps(s: string)
    ensures Stripped(Strip(s)) && forall c | c in Strip(s) :: c in s
  {
    LStripKeeps(s);
    RStripKeeps(LStrip(s));
  }

  function BreakAt(s: string): (i: nat)
    ensures i <= |s| && (forall j | 0 <= j < i :: !IsBreak(s[j])) && (i < |s| ==> IsBreak(s[i]))
  {
    if s == "" || IsBreak(s[0]) then 0 else 1 + BreakAt(s[1..])
  }

  function SplitLines(s: string): seq<string>
    decreases |s|
  {
    if s == "" then []
    else
      var i := BreakAt(s);
      if i == |s| then [s]
      else if s[i] == '\r' && i + 1 < |s| && s[i + 1] == '\n' then [s[..i]] + SplitLines(s[i + 2..])
      else [s[..i]] + SplitLines(s[i + 1..])
  }

  /** The two sides of str.partition around the first c. */
  function Partition(s: string, c: char): (string, string) {
    if s == "" then ("", "")
    else if s[0] == c then ("", s[1..])
    else
      var (l, r) := Partition(s[1..], c);
      ([s[0]] + l, r)
  }

  lemma {:induction false} PartitionAt(key: string, c: char, value: string)
    requires c !in key
    ensures Partition(key + [c] + value, c) == (key, value)
  {
    if key == "" {
      assert "" + [c] + value == [c] + value;
    } else {
      assert (key + [c] + value)[1..] == key[1..] + [c] + value;
      assert key[0] in key && key == [key[0]] + key[1..];
      PartitionAt(key[1..], c, value);
    }
  }

  lemma SplitLinesCons(line: string, rest: string)
    requires forall i | 0 <= i < |line| :: !IsBreak(line[i])
    ensures SplitLines(line + "\n" + rest) == [line] + SplitLines(rest)
  {
    var s := line + "\n" + rest;
    var i := BreakAt(s);
    assert s[|line|] == '\n';
    assert forall j | 0 <= j < |line| :: s[j] == line[j];
    assert i == |line|;
    assert s[..i] == line && s[i + 1..] == rest;
  }
}
