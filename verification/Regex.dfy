/** The part of Python's `re` that the setup wizard uses: sequences of literals, greedy repetitions of
    one character class, and the MULTILINE anchors, matched by backtracking, leftmost match first. */
module Regex {
  import opened Wrappers
  import PyText

  datatype Class = Space | NonSpace | InValue | Is(c: char)

  /** InValue is [^"\n]. */
  predicate In(cls: Class, c: char) {
    match cls
    case Space => PyText.IsSpace(c)
    case NonSpace => !PyText.IsSpace(c)
    case InValue => c != '"' && c != '\n'
    case Is(d) => c == d
  }

  /** An anchor, a literal, or at least min and at most max characters of a class; group says whether
      the match is captured. */
  datatype Item = Bol | Eol | Str(s: string) | Rep(cls: Class, min: nat, max: Option<nat>, group: bool)

  function Star(cls: Class): Item { Rep(cls, 0, None, false) }
  function Plus(cls: Class): Item { Rep(cls, 1, None, false) }
  function Opt(c: char): Item { Rep(Is(c), 0, Some(1), false) }
  function Exactly(cls: Class, n: nat): Item { Rep(cls, n, Some(n), false) }
  function Group(cls: Class): Item { Rep(cls, 1, None, true) }

  /** The most characters a repetition may take at pos. */
  function Most(max: Option<nat>, text: string, pos: nat): nat
    requires pos <= |text|
  {
    if max.Some? && max.value <= |text| - pos then max.value else |text| - pos
  }

  /** Length of the longest run of the class at pos, at most most. */
  function RunLen(cls: Class, text: string, pos: nat, most: nat): (k: nat)
    requires pos + most <= |text|
    ensures k <= most
    ensures forall i | pos <= i < pos + k :: In(cls, text[i])
    ensures k < most ==> !In(cls, text[pos + k])
    decreases most
  {
    if most == 0 || !In(cls, text[pos]) then 0 else 1 + RunLen(cls, text, pos + 1, most - 1)
  }

  function Run(item: Item, text: string, pos: nat): (k: nat)
    requires item.Rep? && pos <= |text|
    ensures pos + k <= |text|
  {
    RunLen(item.cls, text, pos, Most(item.max, text, pos))
  }

  datatype Found = Found(end: nat, groups: seq<string>)

  predicate AtBol(text: string, pos: nat)
    requires pos <= |text|
  {
    pos == 0 || text[pos - 1] == '\n'
  }

  predicate AtEol(text: string, pos: nat)
    requires pos <= |text|
  {
    pos == |text| || text[pos] == '\n'
  }

  predicate Here(s: string, text: string, pos: nat)
    requires pos <= |text|
  {
    s <= text[pos..]
  }

  /** Match the items at pos. */
  function Match(items: seq<Item>, text: string, pos: nat): (r: Option<Found>)
    requires pos <= |text|
    ensures r.Some? ==> pos <= r.value.end <= |text|
    decreases |items|, 0
  {
    if items == [] then Some(Found(pos, []))
    else match items[0]
      case Bol => if AtBol(text, pos) then Match(items[1..], text, pos) else None
      case Eol => if AtEol(text, pos) then Match(items[1..], text, pos) else None
      case Str(s) => if Here(s, text, pos) then Match(items[1..], text, pos + |s|) else None
      case Rep(_, _, _, _) => Try(items, text, pos, Run(items[0], text, pos))
  }

  /** Take k characters for the repetition in front, then fewer, down to its minimum. */
  function Try(items: seq<Item>, text: string, pos: nat, k: nat): (r: Option<Found>)
    requires items != [] && items[0].Rep? && pos + k <= |text|
    ensures r.Some? ==> pos <= r.value.end <= |text|
    decreases |items| - 1, k + 1
  {
    if k < items[0].min then None
    else
      var r := Match(items[1..], text, pos + k);
      if r.Some? then Some(Found(r.value.end, (if items[0].group then [text[pos..pos + k]] else []) + r.value.groups))
      else if k == 0 then None
      else Try(items, text, pos, k - 1)
  }

  /** re.search from a position on: the leftmost match. */
  function Search(items: seq<Item>, text: string, pos: nat): (r: Option<Found>)
    requires pos <= |text|
    ensures r.Some? ==> pos <= r.value.end <= |text|
    decreases |text| - pos
  {
    var m := Match(items, text, pos);
    if m.Some? then m else if pos == |text| then None else Search(items, text, pos + 1)
  }

  /** re.finditer, for a pattern that does not match the empty string. */
  function FindAll(items: seq<Item>, text: string, pos: nat): seq<seq<string>>
    requires pos <= |text|
    decreases |text| - pos
  {
    var m := Search(items, text, pos);
    if m.None? then []
    else if m.value.end <= pos then [m.value.groups]
    else [m.value.groups] + FindAll(items, text, m.value.end)
  }

  // ------------------------------------------------------------------ lemmas

  function Captured(item: Item, text: string, pos: nat, k: nat, r: Found): Found
    requires item.Rep? && pos + k <= |text|
  {
    Found(r.end, (if item.group then [text[pos..pos + k]] else []) + r.groups)
  }

  /** A greedy repetition that succeeds with its longest run takes it. */
  lemma Greedy(items: seq<Item>, text: string, pos: nat, k: nat)
    requires items != [] && items[0].Rep? && pos + k <= |text|
    requires k == Run(items[0], text, pos) && items[0].min <= k
    requires Match(items[1..], text, pos + k).Some?
    ensures Match(items, text, pos) == Some(Captured(items[0], text, pos, k, Match(items[1..], text, pos + k).value))
  {
  }

  /** The run is determined by its characters and the one that stops it. */
  lemma {:induction false} RunIs(cls: Class, text: string, pos: nat, most: nat, k: nat)
    requires pos + most <= |text| && k <= most
    requires forall i | pos <= i < pos + k :: In(cls, text[i])
    requires k == most || !In(cls, text[pos + k])
    ensures RunLen(cls, text, pos, most) == k
    decreases k
  {
    if k > 0 {
      assert In(cls, text[pos]);
      RunIs(cls, text, pos + 1, most - 1, k - 1);
    }
  }

  /** Lengths that fail are given up one by one. */
  lemma {:induction false} TryDown(items: seq<Item>, text: string, pos: nat, k: nat, k0: nat)
    requires items != [] && items[0].Rep? && pos + k <= |text| && items[0].min <= k0 <= k
    requires forall q | pos + k0 < q <= pos + k :: Match(items[1..], text, q).None?
    ensures Try(items, text, pos, k) == Try(items, text, pos, k0)
    decreases k
  {
    if k > k0 {
      assert Match(items[1..], text, pos + k).None?;
      TryDown(items, text, pos, k - 1, k0);
    }
  }

  /** A repetition fails when what follows it fails after every length it may take. */
  lemma {:induction false} TryFails(items: seq<Item>, text: string, pos: nat, k: nat)
    requires items != [] && items[0].Rep? && pos + k <= |text|
    requires forall q | pos + items[0].min <= q <= pos + k :: Match(items[1..], text, q).None?
    ensures Try(items, text, pos, k).None?
    decreases k
  {
    if k >= items[0].min {
      assert Match(items[1..], text, pos + k).None?;
      if k > 0 {
        TryFails(items, text, pos, k - 1);
      }
    }
  }

  lemma RepFails(item: Item, rest: seq<Item>, text: string, pos: nat)
    requires item.Rep? && pos <= |text|
    requires forall q | pos + item.min <= q <= pos + Run(item, text, pos) :: Match(rest, text, q).None?
    ensures Match([item] + rest, text, pos).None?
  {
    assert ([item] + rest)[1..] == rest;
    TryFails([item] + rest, text, pos, Run(item, text, pos));
  }

  /** A run stops in front of a character outside the class. */
  lemma RunStops(cls: Class, text: string, pos: nat, most: nat, stop: nat)
    requires pos + most <= |text| && pos <= stop < |text| && !In(cls, text[stop])
    ensures pos + RunLen(cls, text, pos, most) <= stop
  {
  }

  /** Positions without a match are passed over. */
  lemma {:induction false} SearchSkips(items: seq<Item>, text: string, from: nat, to: nat)
    requires from <= to <= |text|
    requires forall p | from <= p < to :: Match(items, text, p).None?
    ensures Search(items, text, from) == Search(items, text, to)
    decreases |text| - from
  {
    if from < to {
      assert Match(items, text, from).None?;
      SearchSkips(items, text, from + 1, to);
    }
  }

  /** A pattern anchored at the start of a line that does not match at one line is looked for from
      the next line on. */
  lemma SkipLine(items: seq<Item>, text: string, before: string, line: string, after: string)
    requires text == before + line + "\n" + after
    requires items != [] && items[0].Bol? && '\n' !in line
    requires Match(items, text, |before|).None?
    ensures Search(items, text, |before|) == Search(items, text, |before| + |line| + 1)
  {
    var to := |before| + |line| + 1;
    forall p | |before| <= p < to ensures Match(items, text, p).None? {
      if p > |before| {
        assert text[p - 1] == line[p - 1 - |before|];
        assert !AtBol(text, p);
      }
    }
    SearchSkips(items, text, |before|, to);
  }

  // ------------------------------------------------- what a text goes on with

  /** The text at pos goes on with s. */
  predicate Starts(text: string, pos: nat, s: string) {
    pos + |s| <= |text| && forall i | 0 <= i < |s| :: text[pos + i] == s[i]
  }

  lemma StartsSplit(text: string, pos: nat, a: string, b: string)
    ensures Starts(text, pos, a + b) <==> Starts(text, pos, a) && Starts(text, pos + |a|, b)
  {
    var s := a + b;
    assert forall i | 0 <= i < |a| :: s[i] == a[i];
    assert forall i | 0 <= i < |b| :: s[|a| + i] == b[i];
    if Starts(text, pos, a) && Starts(text, pos + |a|, b) {
      forall i | 0 <= i < |s| ensures text[pos + i] == s[i] {
        if i >= |a| { assert text[pos + |a| + (i - |a|)] == b[i - |a|]; }
      }
    }
    if Starts(text, pos, s) {
      forall i | 0 <= i < |b| ensures text[pos + |a| + i] == b[i] {
        assert text[pos + (|a| + i)] == s[|a| + i];
      }
    }
  }

  lemma HereStarts(text: string, pos: nat, s: string)
    requires pos <= |text|
    ensures Here(s, text, pos) <==> Starts(text, pos, s)
  {
    assert forall i | 0 <= i < |text| - pos :: text[pos..][i] == text[pos + i];
  }

  lemma StartsOf(before: string, s: string, after: string, text: string)
    requires text == before + s + after
    ensures Starts(text, |before|, s)
  {
  }

  // ------------------------------------------------------ finditer over lines

  /** From pos on, the pattern matches the given entries, each ended by one character where it does
      not match. */
  ghost predicate TakesAll(items: seq<Item>, entries: seq<(nat, seq<string>)>, text: string, pos: nat)
    decreases |entries|
  {
    entries == [] ||
      var (n, g) := entries[0];
      && n > 0 && pos + n < |text|
      && Match(items, text, pos) == Some(Found(pos + n, g))
      && Match(items, text, pos + n).None?
      && TakesAll(items, entries[1..], text, pos + n + 1)
  }

  function Length(entries: seq<(nat, seq<string>)>): nat {
    if entries == [] then 0 else entries[0].0 + 1 + Length(entries[1..])
  }

  function Groups(entries: seq<(nat, seq<string>)>): seq<seq<string>> {
    if entries == [] then [] else [entries[0].1] + Groups(entries[1..])
  }

  /** finditer takes a match and goes on after it, past one position where nothing matches. */
  lemma FindAllHit(items: seq<Item>, text: string, pos: nat, f: Found, next: seq<seq<string>>)
    requires pos <= |text| && Match(items, text, pos) == Some(f) && pos < f.end < |text|
    requires Match(items, text, f.end).None? && FindAll(items, text, f.end + 1) == next
    requires Search(items, text, f.end + 1).Some? ==> Search(items, text, f.end + 1).value.end > f.end + 1
    ensures Search(items, text, pos) == Some(f) && FindAll(items, text, pos) == [f.groups] + next
  {
    assert Search(items, text, f.end) == Search(items, text, f.end + 1);
    assert FindAll(items, text, f.end) == next;
  }

  lemma EntryInside(text: string, done: string, e: string, more: string)
    requires text == done + (e + "\n" + more) && (done == "" || done[|done| - 1] == '\n')
    requires e != "" && e[|e| - 1] != '\n'
    ensures |done| + |e| < |text| && Starts(text, |done|, e) && AtBol(text, |done|) && !AtBol(text, |done| + |e|)
  {
    var tail := e + "\n" + more;
    assert forall i | 0 <= i < |e| :: tail[i] == e[i];
    assert forall i | 0 <= i < |tail| :: text[|done| + i] == tail[i];
    forall i | 0 <= i < |e| ensures text[|done| + i] == e[i] {
      assert tail[i] == e[i];
    }
    assert text[|done| + (|e| - 1)] == tail[|e| - 1];
  }

  lemma OnlyAtBol(items: seq<Item>, text: string, pos: nat)
    requires items != [] && items[0].Bol? && pos <= |text| && !AtBol(text, pos)
    ensures Match(items, text, pos).None?
  {
  }

  /** finditer finds consecutive entries one by one, and nothing after the last. */
  lemma {:induction false} FindEntries(items: seq<Item>, entries: seq<(nat, seq<string>)>, text: string, pos: nat)
    requires TakesAll(items, entries, text, pos) && pos + Length(entries) <= |text|
    requires Search(items, text, pos + Length(entries)).None?
    ensures FindAll(items, text, pos) == Groups(entries)
    ensures entries != [] ==> Search(items, text, pos) == Some(Found(pos + entries[0].0, entries[0].1))
    decreases |entries|
  {
    if entries != [] {
      var (n, g) := entries[0];
      FindEntries(items, entries[1..], text, pos + n + 1);
      FindAllHit(items, text, pos, Found(pos + n, g), Groups(entries[1..]));
    }
  }

  /** Text without a match in front of the entries changes nothing. */
  lemma FindEntriesAfter(items: seq<Item>, entries: seq<(nat, seq<string>)>, text: string, from: nat, pos: nat)
    requires from <= pos && TakesAll(items, entries, text, pos) && pos + Length(entries) <= |text|
    requires Search(items, text, pos + Length(entries)).None?
    requires Search(items, text, from) == Search(items, text, pos)
    ensures FindAll(items, text, from) == Groups(entries)
  {
    FindEntries(items, entries, text, pos);
  }

  // ------------------------------------------------------ what groups contain

  /** Characters of the class, all of them occurring in the text. */
  predicate Drawn(cls: Class, text: string, s: string) {
    forall i | 0 <= i < |s| :: In(cls, s[i]) && s[i] in text
  }

  /** Every captured repetition is of this class. */
  predicate Captures(items: seq<Item>, cls: Class) {
    forall i | 0 <= i < |items| :: items[i].Rep? && items[i].group ==> items[i].cls == cls
  }

  lemma {:induction false} GroupsIn(items: seq<Item>, cls: Class, text: string, pos: nat)
    requires pos <= |text| && Captures(items, cls)
    ensures var m := Match(items, text, pos); m.Some? ==> forall g | g in m.value.groups :: Drawn(cls, text, g)
    decreases |items|, 0
  {
    if items != [] {
      assert Captures(items[1..], cls);
      match items[0]
      case Bol => GroupsIn(items[1..], cls, text, pos);
      case Eol => GroupsIn(items[1..], cls, text, pos);
      case Str(s) =>
        if Here(s, text, pos) {
          GroupsIn(items[1..], cls, text, pos + |s|);
        }
      case Rep(_, _, _, _) => TryIn(items, cls, text, pos, Run(items[0], text, pos));
    }
  }

  lemma {:induction false} TryIn(items: seq<Item>, cls: Class, text: string, pos: nat, k: nat)
    requires items != [] && items[0].Rep? && Captures(items, cls)
    requires pos <= |text| && k <= Run(items[0], text, pos)
    ensures var m := Try(items, text, pos, k); m.Some? ==> forall g | g in m.value.groups :: Drawn(cls, text, g)
    decreases |items| - 1, k + 1
  {
    if k >= items[0].min {
      assert Captures(items[1..], cls);
      GroupsIn(items[1..], cls, text, pos + k);
      if items[0].group {
        assert Drawn(cls, text, text[pos..pos + k]);
      }
      if k > 0 {
        TryIn(items, cls, text, pos, k - 1);
      }
    }
  }

  lemma {:induction false} SearchGroupsIn(items: seq<Item>, cls: Class, text: string, pos: nat)
    requires pos <= |text| && Captures(items, cls)
    ensures var m := Search(items, text, pos); m.Some? ==> forall g | g in m.value.groups :: Drawn(cls, text, g)
    decreases |text| - pos
  {
    GroupsIn(items, cls, text, pos);
    if pos < |text| {
      SearchGroupsIn(items, cls, text, pos + 1);
    }
  }

  lemma {:induction false} FindAllGroupsIn(items: seq<Item>, cls: Class, text: string, pos: nat)
    requires pos <= |text| && Captures(items, cls)
    ensures forall gs | gs in FindAll(items, text, pos) :: forall g | g in gs :: Drawn(cls, text, g)
    decreases |text| - pos
  {
    SearchGroupsIn(items, cls, text, pos);
    var m := Search(items, text, pos);
    if m.Some? && m.value.end > pos {
      FindAllGroupsIn(items, cls, text, m.value.end);
    }
  }
}
