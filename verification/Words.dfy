/** Splitting text into words, and decimal numbers: strings.Fields, strings.ToLower and the digit
    tests of strconv and fmt. */
module Words {
  import opened Text

  // ------------------------------------------------------------------- words

  /** Length of the run of non-space characters at the front. */
  function WordLen(s: string): (k: nat)
    ensures k <= |s|
    ensures s != "" && !IsSpace(s[0]) ==> k > 0
  {
    if s == "" || IsSpace(s[0]) then 0 else 1 + WordLen(s[1..])
  }

  lemma {:induction false} TrimLeftShorter(s: string)
    ensures |TrimLeft(s)| <= |s|
    ensures TrimLeft(s) != "" ==> !IsSpace(TrimLeft(s)[0])
  {
    if s != "" && IsSpace(s[0]) { TrimLeftShorter(s[1..]); }
  }

  /** strings.Fields. */
  function Fields(s: string): seq<string>
    decreases |s|
  {
    TrimLeftShorter(s);
    var t := TrimLeft(s);
    if t == "" then [] else [t[..WordLen(t)]] + Fields(t[WordLen(t)..])
  }

  /** strings.ToLower on ASCII letters. */
  function ToLower(s: string): (r: string)
    ensures |r| == |s|
    ensures forall i | 0 <= i < |r| :: r[i] == LowerChar(s[i])
  {
    if s == "" then "" else [LowerChar(s[0])] + ToLower(s[1..])
  }

  function LowerChar(c: char): char {
    if 'A' <= c <= 'Z' then (c as int + 32) as char else c
  }

  // ----------------------------------------------------------------- digits

  predicate IsDigit(c: char) {
    '0' <= c <= '9'
  }

  predicate AllDigits(s: string) {
    s != "" && forall i | 0 <= i < |s| :: IsDigit(s[i])
  }

  function Value(s: string): nat
    requires forall i | 0 <= i < |s| :: IsDigit(s[i])
  {
    if s == "" then 0 else assert IsDigit(s[|s| - 1]); Value(s[..|s| - 1]) * 10 + (s[|s| - 1] as int - '0' as int)
  }

  const MAX_UINT64: nat := 0xFFFF_FFFF_FFFF_FFFF

  lemma {:induction false} WordOf(word: string, t: string)
    requires |word| < |t| && t[..|word|] == word && IsSpace(t[|word|])
    requires forall i | 0 <= i < |word| :: !IsSpace(word[i])
    ensures WordLen(t) == |word|
  {
    if word != "" {
      assert t[0] == word[0];
      assert t[1..][..|word| - 1] == word[1..];
      WordOf(word[1..], t[1..]);
    }
  }

  lemma {:induction false} SomeWord(s: string)
    requires s != "" && !IsSpace(s[|s| - 1])
    ensures TrimLeft(s) != "" && Fields(s) != []
  {
    if IsSpace(s[0]) {
      SomeWord(s[1..]);
    }
  }
}
