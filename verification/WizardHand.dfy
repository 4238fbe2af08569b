/** Group variables edited by hand: load_group_vars also reads values without quotation marks, and with
    white space around them (scripts/init.py). */
module WizardHand {
  import opened Wrappers
  import opened PyText
  import opened Regex
  import opened WizardFiles
  import opened WizardLaws
  import Text

  /** A value as someone may write it: white space, a quotation mark or none, the value, a quotation mark or
      none, and white space. */
  datatype Hand = Hand(gap: string, open: bool, v: string, close: bool, tail: string) {
    predicate WellFormed() {
      Pad(gap) && Clean(v) && Pad(tail)
    }

    function Text(): string {
      gap + (Mark(open) + (v + (Mark(close) + tail)))
    }

    /** What the group of the expression captures: without a closing mark, the white space too. */
    function Caught(): string {
      if close then v else v + tail
    }
  }

  predicate Pad(s: string) {
    forall i | 0 <= i < |s| :: IsSpace(s[i]) && s[i] != '\n'
  }

  function Mark(there: bool): string {
    if there then "\"" else ""
  }

  // --------------------------------------------------------------- one value

  /** An optional item that does not fit here is passed over. */
  lemma TakeNone(item: Item, rest: seq<Item>, text: string, pos: nat)
    requires item.Rep? && !item.group && item.min == 0 && pos <= |text|
    requires pos == |text| || !In(item.cls, text[pos])
    ensures Match([item] + rest, text, pos) == Match(rest, text, pos)
  {
    var items := [item] + rest;
    assert items[1..] == rest;
    RunIs(item.cls, text, pos, Most(item.max, text, pos), 0);
    var m := Match(rest, text, pos);
    if m.Some? {
      assert [] + m.value.groups == m.value.groups;
    }
  }

  lemma TakeMark(there: bool, rest: seq<Item>, text: string, pos: nat)
    requires Starts(text, pos, Mark(there)) && (there || pos == |text| || text[pos] != '"')
    requires Match(rest, text, pos + |Mark(there)|).Some?
    ensures Match([Opt('"')] + rest, text, pos) == Match(rest, text, pos + |Mark(there)|)
  {
    if there {
      assert text[pos + 0] == "\""[0];
      TakeOne(Opt('"'), rest, text, pos);
    } else {
      TakeNone(Opt('"'), rest, text, pos);
    }
  }

  /** The pieces of the value, by position. */
  lemma HandPlaces(h: Hand, text: string, pos: nat)
    requires Starts(text, pos, h.Text() + "\n")
    ensures var a := pos + |h.gap|; var b := a + |Mark(h.open)|; var c := b + |h.v|; var d := c + |Mark(h.close)|;
      && Starts(text, pos, h.gap) && Starts(text, a, Mark(h.open)) && Starts(text, b, h.v)
      && Starts(text, c, Mark(h.close)) && Starts(text, d, h.tail) && Starts(text, d + |h.tail|, "\n")
  {
    StartsSplit(text, pos, h.Text(), "\n");
    StartsSplit(text, pos, h.gap, Mark(h.open) + (h.v + (Mark(h.close) + h.tail)));
    StartsSplit(text, pos + |h.gap|, Mark(h.open), h.v + (Mark(h.close) + h.tail));
    StartsSplit(text, pos + |h.gap| + |Mark(h.open)|, h.v, Mark(h.close) + h.tail);
    StartsSplit(text, pos + |h.gap| + |Mark(h.open)| + |h.v|, Mark(h.close), h.tail);
  }

  /** Where the captured text ends. */
  function CaughtEnd(h: Hand, pos: nat): nat {
    pos + |h.gap| + |Mark(h.open)| + |h.Caught()|
  }

  /** From where on what follows the value is matched. */
  function After(h: Hand, pos: nat): nat {
    CaughtEnd(h, pos) + |Mark(h.close)|
  }

  lemma CaughtStarts(h: Hand, text: string, pos: nat)
    requires Starts(text, pos, h.Text() + "\n")
    ensures Starts(text, pos + |h.gap| + |Mark(h.open)|, h.Caught())
    ensures Starts(text, CaughtEnd(h, pos), Mark(h.close) + (if h.close then "" else "\n"))
    ensures After(h, pos) <= |text|
  {
    HandPlaces(h, text, pos);
    if !h.close {
      StartsSplit(text, pos + |h.gap| + |Mark(h.open)|, h.v, h.tail);
      assert Mark(h.close) + "\n" == "\n";
    } else {
      assert Mark(h.close) + "" == Mark(h.close);
    }
  }

  lemma CaughtClean(h: Hand)
    requires h.WellFormed()
    ensures h.Caught() != "" && forall c | c in h.Caught() :: In(InValue, c)
  {
    forall c | c in h.Caught() ensures In(InValue, c) {
      if c in h.v {
      } else {
        assert c in h.tail;
        SpaceNotQuote(c);
      }
    }
  }

  lemma Sliced(text: string, b: nat, s: string)
    requires Starts(text, b, s)
    ensures text[b..b + |s|] == s && forall i | b <= i < b + |s| :: text[i] in s
  {
    forall i | b <= i < b + |s| ensures text[i] in s {
      assert text[b + (i - b)] == s[i - b];
    }
  }

  lemma CaughtThere(h: Hand, text: string, pos: nat)
    requires h.WellFormed() && Starts(text, pos, h.Text() + "\n")
    ensures var b := pos + |h.gap| + |Mark(h.open)|;
      && CaughtEnd(h, pos) < |text| && text[b..CaughtEnd(h, pos)] == h.Caught()
      && (forall i | b <= i < CaughtEnd(h, pos) :: In(InValue, text[i]))
      && text[CaughtEnd(h, pos)] == (if h.close then '"' else '\n')
      && Starts(text, CaughtEnd(h, pos), Mark(h.close)) && After(h, pos) <= |text|
  {
    var b, e := pos + |h.gap| + |Mark(h.open)|, CaughtEnd(h, pos);
    CaughtStarts(h, text, pos);
    CaughtClean(h);
    Sliced(text, b, h.Caught());
    if h.close {
      StartsSplit(text, e, Mark(h.close), "");
      assert text[e + 0] == "\""[0];
    } else {
      StartsSplit(text, e, Mark(h.close), "\n");
      assert text[e + 0] == "\n"[0];
    }
  }

  lemma SpaceNotQuote(c: char)
    ensures IsSpace(c) ==> c != '"'
  {
  }

  /** What stands in front of the captured text is taken by \s and the optional mark. */
  lemma FrontThere(h: Hand, text: string, pos: nat)
    requires h.WellFormed() && Starts(text, pos, h.Text() + "\n")
    ensures var a := pos + |h.gap|;
      && a < |text| && (forall i | pos <= i < a :: IsSpace(text[i])) && !IsSpace(text[a])
      && Starts(text, a, Mark(h.open)) && (h.open || text[a] != '"')
  {
    HandPlaces(h, text, pos);
    var a := pos + |h.gap|;
    forall i | pos <= i < a ensures IsSpace(text[i]) {
      assert text[pos + (i - pos)] == h.gap[i - pos];
    }
    if h.open {
      assert text[a + 0] == "\""[0];
      SpaceNotQuote('"');
    } else {
      assert text[a + 0] == h.v[0];
    }
  }

  /** White space up to a, perhaps a mark, a value from b to e, perhaps a mark. */
  ghost predicate Spelled(value: Class, text: string, pos: nat, a: nat, b: nat, open: bool, e: nat, close: bool) {
    && pos <= a && b == a + |Mark(open)| && b < e < |text|
    && (forall i | pos <= i < a :: IsSpace(text[i])) && !IsSpace(text[a])
    && Starts(text, a, Mark(open)) && (open || text[a] != '"')
    && (forall i | b <= i < e :: In(value, text[i])) && text[e] == (if close then '"' else '\n')
    && Starts(text, e, Mark(close))
  }

  lemma HandSpelled(value: Class, h: Hand, text: string, pos: nat, a: nat, e: nat)
    requires ValueClass(value) && h.WellFormed() && Starts(text, pos, h.Text() + "\n")
    requires a == pos + |h.gap| && e == CaughtEnd(h, pos)
    ensures Spelled(value, text, pos, a, a + |Mark(h.open)|, h.open, e, h.close)
    ensures text[a + |Mark(h.open)|..e] == h.Caught()
  {
    FrontThere(h, text, pos);
    CaughtThere(h, text, pos);
  }

  /** The value part of the expressions, and whatever the rest matches behind it. */
  lemma HandMatches(value: Class, spaces: Item, rest: seq<Item>, h: Hand, text: string, pos: nat, to: nat, r: Found)
    requires ValueClass(value) && (spaces == Star(Space) || (spaces == Plus(Space) && h.gap != ""))
    requires h.WellFormed() && Starts(text, pos, h.Text() + "\n")
    requires to == After(h, pos) <= |text| && Match(rest, text, to) == Some(r)
    ensures Match(QuotedPattern(spaces, value) + rest, text, pos) == Some(Found(r.end, [h.Caught()] + r.groups))
  {
    var a, e := pos + |h.gap|, CaughtEnd(h, pos);
    HandSpelled(value, h, text, pos, a, e);
    HandTakes(value, spaces, rest, text, pos, a, h.open, e, h.close, to, r, h.Caught());
  }

  lemma HandTakes(value: Class, spaces: Item, rest: seq<Item>, text: string, pos: nat, a: nat, open: bool,
                  e: nat, close: bool, to: nat, r: Found, caught: string)
    requires ValueClass(value) && Spelled(value, text, pos, a, a + |Mark(open)|, open, e, close)
    requires spaces == Star(Space) || (spaces == Plus(Space) && pos < a)
    requires to == e + |Mark(close)| <= |text| && Match(rest, text, to) == Some(r)
    requires caught == text[a + |Mark(open)|..e]
    ensures Match(QuotedPattern(spaces, value) + rest, text, pos) == Some(Found(r.end, [caught] + r.groups))
  {
    var b := a + |Mark(open)|;
    var tail := [Group(value)] + ([Opt('"')] + rest);
    ValueTakes(value, rest, text, b, e, close, to, r, caught);
    FrontTakes(spaces, tail, text, pos, a, b, open);
    QuotedShape(value, spaces, rest);
  }

  lemma ValueTakes(value: Class, rest: seq<Item>, text: string, b: nat, e: nat, close: bool, to: nat, r: Found, caught: string)
    requires ValueClass(value) && b < e < |text| && text[e] == (if close then '"' else '\n')
    requires (forall i | b <= i < e :: In(value, text[i])) && Starts(text, e, Mark(close)) && caught == text[b..e]
    requires to == e + |Mark(close)| <= |text| && Match(rest, text, to) == Some(r)
    ensures Match([Group(value)] + ([Opt('"')] + rest), text, b) == Some(Found(r.end, [caught] + r.groups))
  {
    TakeMark(close, rest, text, e);
    TakeValue(value, [Opt('"')] + rest, text, b, e - b);
  }

  lemma FrontTakes(spaces: Item, tail: seq<Item>, text: string, pos: nat, a: nat, b: nat, open: bool)
    requires pos <= a < |text| && b == a + |Mark(open)| && b <= |text|
    requires (forall i | pos <= i < a :: IsSpace(text[i])) && !IsSpace(text[a])
    requires Starts(text, a, Mark(open)) && (open || text[a] != '"')
    requires spaces == Star(Space) || (spaces == Plus(Space) && pos < a)
    requires Match(tail, text, b).Some?
    ensures Match([spaces] + ([Opt('"')] + tail), text, pos) == Match(tail, text, b)
  {
    TakeMark(open, tail, text, a);
    TakeRun(spaces, [Opt('"')] + tail, text, pos, a - pos);
  }

  // ---------------------------------------------------------------- scalars

  /** \s*$ matches in front of white space that reaches the end of the line. */
  lemma {:induction false} TryToEnd(items: seq<Item>, text: string, pos: nat, k: nat, e: nat)
    requires items == [Star(Space), Eol] && pos <= e <= pos + k <= |text| && AtEol(text, e)
    ensures var r := Try(items, text, pos, k); r.Some? && r.value.groups == []
    decreases k
  {
    assert items[1..] == [Eol] && [Eol][1..] == [];
    if !AtEol(text, pos + k) {
      TryToEnd(items, text, pos, k - 1, e);
    }
  }

  lemma {:induction false} RunReaches(cls: Class, text: string, pos: nat, most: nat, n: nat)
    requires pos + most <= |text| && n <= most && forall i | pos <= i < pos + n :: In(cls, text[i])
    ensures RunLen(cls, text, pos, most) >= n
    decreases n
  {
    if n > 0 {
      RunReaches(cls, text, pos + 1, most - 1, n - 1);
    }
  }

  lemma EndMatches(items: seq<Item>, text: string, pos: nat, e: nat)
    requires items == [Star(Space), Eol] && pos <= e < |text| && text[e] == '\n'
    requires forall i | pos <= i < e :: IsSpace(text[i])
    ensures var m := Match(items, text, pos); m.Some? && m.value.groups == []
  {
    var k := Run(Star(Space), text, pos);
    RunReaches(Space, text, pos, |text| - pos, e - pos);
    TryToEnd(items, text, pos, k, e);
  }

  lemma TailThere(h: Hand, text: string, pos: nat)
    requires h.WellFormed() && Starts(text, pos, h.Text() + "\n")
    ensures var e := pos + |h.Text()|;
      After(h, pos) <= e < |text| && text[e] == '\n' && forall i | After(h, pos) <= i < e :: IsSpace(text[i])
  {
    HandPlaces(h, text, pos);
    var e := pos + |h.Text()|;
    assert text[e + 0] == "\n"[0];
    if h.close {
      forall i | After(h, pos) <= i < e ensures IsSpace(text[i]) {
        assert text[After(h, pos) + (i - After(h, pos))] == h.tail[i - After(h, pos)];
      }
    }
  }

  /** Stripping what was caught gives the value. */
  lemma CaughtStrips(h: Hand)
    requires h.WellFormed()
    ensures Strip(h.Caught()) == h.v
  {
    StripTail(h.v, if h.close then "" else h.tail);
    assert h.v + "" == h.v;
  }

  lemma {:induction false} StripTail(v: string, tail: string)
    requires v != "" && Stripped(v) && Pad(tail)
    ensures Strip(v + tail) == v
    decreases |tail|
  {
    if tail == "" {
      assert v + tail == v;
      StripNothing(v);
    } else {
      var s := v + tail;
      assert LStrip(s) == s && IsSpace(s[|s| - 1]) && s[..|s| - 1] == v + tail[..|tail| - 1];
      StripTail(v, tail[..|tail| - 1]);
    }
  }

  function HandLine(key: string, h: Hand): string {
    key + ":" + h.Text()
  }

  lemma ScalarShape(key: string)
    ensures ScalarPattern(key)
         == [Bol] + ([Str(key + ":")] + (QuotedPattern(Star(Space), InValue) + ([Star(Space)] + [Eol])))
  {
  }

  lemma HandValue(value: Class, h: Hand, text: string, at: nat)
    requires ValueClass(value) && h.WellFormed() && Starts(text, at, h.Text() + "\n")
    ensures at <= |text|
    ensures var m := Match(QuotedPattern(Star(Space), value) + ([Star(Space)] + [Eol]), text, at);
      m.Some? && m.value.groups == [h.Caught()]
  {
    var rest := [Star(Space)] + [Eol];
    TailThere(h, text, at);
    EndMatches(rest, text, After(h, at), at + |h.Text()|);
    HandMatches(value, Star(Space), rest, h, text, at, After(h, at), Match(rest, text, After(h, at)).value);
    assert [h.Caught()] + [] == [h.Caught()];
  }

  lemma HandScalar(key: string, h: Hand, text: string, pos: nat)
    requires h.WellFormed() && pos <= |text| && AtBol(text, pos) && Starts(text, pos, HandLine(key, h) + "\n")
    ensures var m := Match(ScalarPattern(key), text, pos); m.Some? && m.value.groups == [h.Caught()]
  {
    HandStarts(key, h, text, pos);
    HandValue(InValue, h, text, pos + |key| + 1);
    FrontMatches(key + ":", QuotedPattern(Star(Space), InValue) + ([Star(Space)] + [Eol]), text, pos);
    ScalarShape(key);
  }

  lemma HandStarts(key: string, h: Hand, text: string, pos: nat)
    requires Starts(text, pos, HandLine(key, h) + "\n")
    ensures Starts(text, pos, key + ":") && Starts(text, pos + |key| + 1, h.Text() + "\n")
  {
    Text.Assoc(key + ":", h.Text(), "\n");
    StartsSplit(text, pos, key + ":", h.Text() + "\n");
  }

  lemma FrontMatches(head: string, rest: seq<Item>, text: string, pos: nat)
    requires pos <= |text| && AtBol(text, pos) && Starts(text, pos, head)
    ensures Match([Bol] + ([Str(head)] + rest), text, pos) == Match(rest, text, pos + |head|)
  {
    TakeStr(head, rest, text, pos);
    TakeBol([Str(head)] + rest, text, pos);
  }

  /** The search for a key finds the value on the line that carries it, however it is written. */
  lemma {:induction false} FindHand(key: string, h: Hand, lines: seq<string>, done: string, text: string)
    requires '\n' !in key && h.WellFormed() && HandLine(key, h) in lines
    requires forall l | l in lines :: '\n' !in l && (l == HandLine(key, h) || !(key + ":" <= l))
    requires done == "" || done[|done| - 1] == '\n'
    requires text == done + Text.Unlines(lines)
    ensures var m := Search(ScalarPattern(key), text, |done|); m.Some? && m.value.groups == [h.Caught()]
    decreases |lines|
  {
    var line := lines[0];
    FirstLine(lines, done, text);
    if line == HandLine(key, h) {
      HandScalar(key, h, text, |done|);
    } else {
      assert line in lines;
      ScalarFails(key, text, |done|, line);
      SkipScalar(key, lines, done, text);
      FindHand(key, h, lines[1..], done + line + "\n", text);
    }
  }

  /** A FILE EDITED BY HAND.  Whatever the other lines are, the value of a key is read with or without
      quotation marks and without the white space around it. */
  lemma HandLaw(key: string, h: Hand, lines: seq<string>)
    requires '\n' !in key && h.WellFormed() && HandLine(key, h) in lines
    requires forall l | l in lines :: '\n' !in l && (l == HandLine(key, h) || !(key + ":" <= l))
    ensures LoadScalar(Text.Unlines(lines), key) == Some(h.v)
  {
    var text := Text.Unlines(lines);
    assert text == "" + text;
    FindHand(key, h, lines, "", text);
    CaughtStrips(h);
  }
}
