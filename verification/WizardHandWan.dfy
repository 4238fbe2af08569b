/** The list of networks edited by hand (scripts/init.py). */
module WizardHandWan {
  import opened Wrappers
  import opened PyText
  import opened Regex
  import opened WizardFiles
  import opened WizardLaws
  import opened WizardHand
  import Text

  /** One network on two lines. Behind a closing quotation mark the second line ends. */
  datatype HandEntry = HandEntry(gap: string, ssid: Hand, password: Hand) {
    predicate WellFormed() {
      && Pad(gap) && gap != "" && ssid.WellFormed() && ssid.gap != "" && password.WellFormed() && password.gap != ""
      && (password.close ==> password.tail == "")
    }

    function First(): string {
      "  -" + (gap + ("ssid:" + ssid.Text()))
    }

    function Second(): string {
      PASSWORD_PART + password.Text()
    }

    function Text(): string {
      First() + ("\n" + Second())
    }
  }

  // ------------------------------------------------------------ one network

  lemma PasswordValue(value: Class, h: Hand, text: string, at: nat)
    requires ValueClass(value) && h.WellFormed() && h.gap != "" && (h.close ==> h.tail == "")
    requires Starts(text, at, h.Text() + "\n")
    ensures at + |h.Text()| <= |text|
    ensures Match(QuotedPattern(Plus(Space), value) + [], text, at) == Some(Found(at + |h.Text()|, [h.Caught()]))
  {
    TailThere(h, text, at);
    var end := After(h, at);
    assert end == at + |h.Text()|;
    assert Match([], text, end) == Some(Found(end, []));
    HandMatches(value, Plus(Space), [], h, text, at, end, Found(end, []));
    assert [h.Caught()] + [] == [h.Caught()];
  }

  lemma HandPassword(value: Class, h: Hand, text: string, pos: nat)
    requires ValueClass(value) && h.WellFormed() && h.gap != "" && (h.close ==> h.tail == "")
    requires Starts(text, pos, PASSWORD_PART + (h.Text() + "\n"))
    ensures Match(PasswordPattern(value), text, pos) == Some(Found(pos + 13 + |h.Text()|, [h.Caught()]))
  {
    StartsSplit(text, pos, PASSWORD_PART, h.Text() + "\n");
    PasswordChars(text, pos);
    PasswordValue(value, h, text, pos + 13);
    TakePassword(text, pos, QuotedPattern(Plus(Space), value) + []);
    PasswordShape(value);
  }

  /** \s* swallows white space, the line break and the indentation, then gives back all behind the break. */
  lemma HandBreak(value: Class, h: Hand, text: string, pos: nat, nl: nat)
    requires ValueClass(value) && h.WellFormed() && h.gap != "" && (h.close ==> h.tail == "")
    requires pos <= nl < |text| && (forall i | pos <= i < nl :: IsSpace(text[i])) && Starts(text, nl, "\n")
    requires Starts(text, nl + 1, PASSWORD_PART + (h.Text() + "\n"))
    ensures Match(BreakPattern(value), text, pos) == Some(Found(nl + 1 + 13 + |h.Text()|, [h.Caught()]))
  {
    HandPassword(value, h, text, nl + 1);
    StartsSplit(text, nl + 1, PASSWORD_PART, h.Text() + "\n");
    assert text[nl + 0] == "\n"[0];
    BreakAt(value, text, pos, nl);
  }

  lemma NoBreakBehind(rest: seq<Item>, text: string, pos: nat, nl: nat, k: nat)
    requires pos <= nl <= pos + k <= |text| && (forall i | pos <= i < pos + k :: IsSpace(text[i]))
    requires Starts(text, nl + 1, PASSWORD_PART)
    ensures forall q | nl < q <= pos + k :: Match([Str("\n")] + rest, text, q).None?
  {
    forall q | nl < q <= pos + k ensures Match([Str("\n")] + rest, text, q).None? {
      TakeStr("\n", rest, text, q);
      NoBreakSoon(text, nl, q, pos + k - nl);
    }
  }

  /** White space up to a break gives back everything from the break on. */
  lemma SpaceThenBreak(rest: seq<Item>, text: string, pos: nat, nl: nat)
    requires pos <= nl < |text| && (forall i | pos <= i < nl :: IsSpace(text[i])) && text[nl] == '\n'
    requires Starts(text, nl + 1, PASSWORD_PART) && Match(rest, text, nl + 1).Some?
    ensures Match([Star(Space)] + ([Str("\n")] + rest), text, pos) == Match(rest, text, nl + 1)
  {
    var tail := [Str("\n")] + rest;
    var items := [Star(Space)] + tail;
    assert items[1..] == tail;
    var k := Run(Star(Space), text, pos);
    RunReaches(Space, text, pos, |text| - pos, nl - pos);
    assert Starts(text, nl, "\n");
    TakeStr("\n", rest, text, nl);
    NoBreakBehind(rest, text, pos, nl, k);
    TryDown(items, text, pos, k, nl - pos);
    var m := Match(rest, text, nl + 1).value;
    assert [] + m.groups == m.groups;
  }

  lemma BreakAt(value: Class, text: string, pos: nat, nl: nat)
    requires pos <= nl < |text| && (forall i | pos <= i < nl :: IsSpace(text[i])) && text[nl] == '\n'
    requires Starts(text, nl + 1, PASSWORD_PART) && Match(PasswordPattern(value), text, nl + 1).Some?
    ensures Match(BreakPattern(value), text, pos) == Match(PasswordPattern(value), text, nl + 1)
  {
    assert BreakPattern(value) == [Star(Space)] + ([Str("\n")] + PasswordPattern(value));
    SpaceThenBreak(PasswordPattern(value), text, pos, nl);
  }

  /** The positions of the pieces of an entry that begins at pos. */
  predicate Placed(e: HandEntry, text: string, pos: nat) {
    var g := pos + 3 + |e.gap|;
    var s := g + 5;
    var nl := s + |e.ssid.Text()|;
    && Starts(text, pos, "  -") && Starts(text, pos + 3, e.gap) && Starts(text, g, "ssid:")
    && Starts(text, s, e.ssid.Text() + "\n") && Starts(text, nl + 1, PASSWORD_PART + (e.password.Text() + "\n"))
  }

  lemma TextPlaced(e: HandEntry, text: string, pos: nat)
    requires Starts(text, pos, e.Text() + "\n")
    ensures Placed(e, text, pos)
    ensures pos + |e.Text()| == pos + 3 + |e.gap| + 5 + |e.ssid.Text()| + 1 + 13 + |e.password.Text()| < |text|
  {
    var g := pos + 3 + |e.gap|;
    var nl := g + 5 + |e.ssid.Text()|;
    StartsSplit(text, pos, e.Text(), "\n");
    StartsSplit(text, pos, e.First(), "\n" + e.Second());
    StartsSplit(text, nl, "\n", e.Second());
    FirstPlaced(e, text, pos);
    StartsSplit(text, g + 5, e.ssid.Text(), "\n");
    StartsSplit(text, nl + 1, e.Second(), "\n");
    Text.Assoc(PASSWORD_PART, e.password.Text(), "\n");
  }

  lemma FirstPlaced(e: HandEntry, text: string, pos: nat)
    requires Starts(text, pos, e.First())
    ensures var g := pos + 3 + |e.gap|;
      Starts(text, pos, "  -") && Starts(text, pos + 3, e.gap) && Starts(text, g, "ssid:") && Starts(text, g + 5, e.ssid.Text())
  {
    StartsSplit(text, pos, "  -", e.gap + ("ssid:" + e.ssid.Text()));
    StartsSplit(text, pos + 3, e.gap, "ssid:" + e.ssid.Text());
    StartsSplit(text, pos + 3 + |e.gap|, "ssid:", e.ssid.Text());
  }

  lemma BreakFollows(value: Class, h: Hand, p: Hand, text: string, s: nat, nl: nat)
    requires ValueClass(value) && h.WellFormed() && p.WellFormed() && p.gap != "" && (p.close ==> p.tail == "")
    requires Starts(text, s, h.Text() + "\n") && nl == s + |h.Text()|
    requires Starts(text, nl + 1, PASSWORD_PART + (p.Text() + "\n"))
    ensures After(h, s) <= |text|
    ensures Match(BreakPattern(value), text, After(h, s)) == Some(Found(nl + 1 + 13 + |p.Text()|, [p.Caught()]))
  {
    var at := After(h, s);
    BreakPlaces(h, text, s, at, nl);
    HandBreak(value, p, text, at, nl);
  }

  lemma BreakPlaces(h: Hand, text: string, s: nat, at: nat, nl: nat)
    requires h.WellFormed() && Starts(text, s, h.Text() + "\n") && at == After(h, s) && nl == s + |h.Text()|
    ensures at <= nl < |text| && (forall i | at <= i < nl :: IsSpace(text[i])) && Starts(text, nl, "\n")
  {
    TailThere(h, text, s);
    StartsSplit(text, s, h.Text(), "\n");
  }

  /** A name, and behind it the break and the password. */
  lemma BothMatch(value: Class, h: Hand, p: Hand, text: string, s: nat, nl: nat)
    requires ValueClass(value) && h.WellFormed() && h.gap != ""
    requires p.WellFormed() && p.gap != "" && (p.close ==> p.tail == "")
    requires Starts(text, s, h.Text() + "\n") && nl == s + |h.Text()|
    requires Starts(text, nl + 1, PASSWORD_PART + (p.Text() + "\n"))
    ensures s <= |text|
    ensures Match(WanTail(value), text, s) == Some(Found(nl + 1 + 13 + |p.Text()|, [h.Caught(), p.Caught()]))
  {
    BreakFollows(value, h, p, text, s, nl);
    var r := Found(nl + 1 + 13 + |p.Text()|, [p.Caught()]);
    HandMatches(value, Plus(Space), BreakPattern(value), h, text, s, After(h, s), r);
    assert [h.Caught()] + [p.Caught()] == [h.Caught(), p.Caught()];
  }

  lemma TailMatches(value: Class, e: HandEntry, text: string, pos: nat)
    requires ValueClass(value) && e.WellFormed() && Placed(e, text, pos)
    requires pos + |e.Text()| == pos + 3 + |e.gap| + 5 + |e.ssid.Text()| + 1 + 13 + |e.password.Text()|
    ensures pos + 3 + |e.gap| + 5 <= |text|
    ensures Match(WanTail(value), text, pos + 3 + |e.gap| + 5)
         == Some(Found(pos + |e.Text()|, [e.ssid.Caught(), e.password.Caught()]))
  {
    var s := pos + 3 + |e.gap| + 5;
    BothMatch(value, e.ssid, e.password, text, s, s + |e.ssid.Text()|);
  }

  lemma OpeningMatches(e: HandEntry, tail: seq<Item>, text: string, pos: nat)
    requires e.WellFormed() && Placed(e, text, pos) && AtBol(text, pos)
    requires pos + 3 + |e.gap| + 5 <= |text| && Match(tail, text, pos + 3 + |e.gap| + 5).Some?
    ensures Match([Bol] + Opening(tail), text, pos) == Match(tail, text, pos + 3 + |e.gap| + 5)
  {
    var g := pos + 3 + |e.gap|;
    GapThere(e, text, pos);
    TakeStr("ssid:", tail, text, g);
    TakeRun(Plus(Space), [Str("ssid:")] + tail, text, pos + 3, |e.gap|);
    TakeDash(text, pos, [Plus(Space)] + ([Str("ssid:")] + tail));
    TakeBol(Opening(tail), text, pos);
  }

  lemma GapThere(e: HandEntry, text: string, pos: nat)
    requires e.WellFormed() && Placed(e, text, pos)
    ensures var g := pos + 3 + |e.gap|;
      && g < |text| && text[pos] == ' ' && text[pos + 1] == ' ' && Starts(text, pos + 2, "-")
      && (forall i | pos + 3 <= i < g :: IsSpace(text[i])) && !IsSpace(text[g])
  {
    var g := pos + 3 + |e.gap|;
    assert text[pos + 0] == "  -"[0] && text[pos + 1] == "  -"[1] && text[pos + 2] == "  -"[2];
    assert text[g + 0] == "ssid:"[0];
    forall i | pos + 3 <= i < g ensures IsSpace(text[i]) {
      assert text[pos + 3 + (i - pos - 3)] == e.gap[i - pos - 3];
    }
  }

  /** However the two values are written, the expression for a network catches both. */
  lemma HandEntryMatches(value: Class, e: HandEntry, text: string, pos: nat)
    requires ValueClass(value) && e.WellFormed() && pos <= |text| && AtBol(text, pos) && Starts(text, pos, e.Text() + "\n")
    ensures pos + |e.Text()| < |text|
    ensures Match(WanPattern(value), text, pos)
         == Some(Found(pos + |e.Text()|, [e.ssid.Caught(), e.password.Caught()]))
  {
    TextPlaced(e, text, pos);
    TailMatches(value, e, text, pos);
    OpeningMatches(e, WanTail(value), text, pos);
    WanShape(value);
  }

  // ------------------------------------------------------------- the list

  function Texts(es: seq<HandEntry>): seq<string> {
    if es == [] then [] else [es[0].Text()] + Texts(es[1..])
  }

  function CaughtAll(es: seq<HandEntry>): seq<(nat, seq<string>)> {
    if es == [] then [] else [(|es[0].Text()|, [es[0].ssid.Caught(), es[0].password.Caught()])] + CaughtAll(es[1..])
  }

  function Meant(es: seq<HandEntry>): seq<Wan> {
    if es == [] then [] else [Wan(es[0].ssid.v, es[0].password.v)] + Meant(es[1..])
  }

  predicate AllFormed(es: seq<HandEntry>) {
    forall e | e in es :: e.WellFormed()
  }

  /** The text does not end in a line break. */
  predicate Open(s: string) {
    s != "" && s[|s| - 1] != '\n'
  }

  /** A text stands here on lines of its own. */
  predicate Alone(text: string, pos: nat, e: string) {
    pos + |e| < |text| && Starts(text, pos, e + "\n") && AtBol(text, pos) && !AtBol(text, pos + |e|)
  }

  /** One text after the other. */
  predicate There(text: string, pos: nat, texts: seq<string>)
    decreases |texts|
  {
    if texts == [] then true
    else Alone(text, pos, texts[0]) && There(text, pos + |texts[0]| + 1, texts[1..])
  }

  lemma EntryEnd(e: HandEntry)
    requires e.WellFormed()
    ensures Open(e.Text())
  {
    var h := e.password;
    HandEnd(h);
    var front := e.First() + ("\n" + PASSWORD_PART);
    assert e.Text() == front + h.Text();
    assert e.Text()[|e.Text()| - 1] == h.Text()[|h.Text()| - 1];
  }

  lemma HandEnd(h: Hand)
    requires h.WellFormed()
    ensures Open(h.Text())
  {
    var t := h.Text();
    if h.tail != "" {
      assert t[|t| - 1] == h.tail[|h.tail| - 1];
    } else if h.close {
      assert Mark(h.close) + h.tail == "\"";
      assert t[|t| - 1] == '"';
    } else {
      assert h.v + (Mark(h.close) + h.tail) == h.v;
      assert t[|t| - 1] == h.v[|h.v| - 1];
    }
  }

  lemma {:induction false} TextsEnd(es: seq<HandEntry>)
    requires AllFormed(es)
    ensures forall e | e in Texts(es) :: Open(e)
    ensures Length(CaughtAll(es)) == |Text.Unlines(Texts(es))|
  {
    if es != [] {
      assert es[0] in es;
      EntryEnd(es[0]);
      TextsEnd(es[1..]);
    }
  }

  lemma FirstThere(e: string, done: string, more: string, text: string)
    requires Open(e) && (done == "" || done[|done| - 1] == '\n') && text == done + (e + "\n" + more)
    ensures Alone(text, |done|, e)
  {
    EntryInside(text, done, e, more);
    Text.Assoc(done, e + "\n", more);
    StartsOf(done, e + "\n", more, text);
  }

  lemma {:induction false} AllThere(texts: seq<string>, done: string, after: string, text: string)
    requires forall e | e in texts :: Open(e)
    requires (done == "" || done[|done| - 1] == '\n') && text == done + (Text.Unlines(texts) + after)
    ensures There(text, |done|, texts)
    decreases |texts|
  {
    if texts != [] {
      var e, u := texts[0], Text.Unlines(texts[1..]);
      assert e in texts;
      Regroup(done, e, u, after, text);
      FirstThere(e, done, u + after, text);
      AllThere(texts[1..], done + e + "\n", after, text);
    }
  }

  lemma {:induction false} AllTaken(value: Class, es: seq<HandEntry>, text: string, pos: nat)
    requires ValueClass(value) && AllFormed(es) && There(text, pos, Texts(es))
    ensures TakesAll(WanPattern(value), CaughtAll(es), text, pos)
    decreases |es|
  {
    if es != [] {
      assert es[0] in es;
      HandEntryMatches(value, es[0], text, pos);
      NoneHere(value, text, pos + |es[0].Text()|);
      EntryEnd(es[0]);
      AllTaken(value, es[1..], text, pos + |es[0].Text()| + 1);
    }
  }

  lemma {:induction false} MeantOf(es: seq<HandEntry>)
    requires AllFormed(es)
    ensures WanOf(Groups(CaughtAll(es))) == Meant(es)
  {
    if es != [] {
      var e := es[0];
      assert e in es;
      CaughtStrips(e.ssid);
      CaughtStrips(e.password);
      MeantOf(es[1..]);
      assert Groups(CaughtAll(es)) == [[e.ssid.Caught(), e.password.Caught()]] + Groups(CaughtAll(es[1..]));
    }
  }

  /** A LIST EDITED BY HAND.  Between lines that do not begin with white space, every network is read, with
      or without quotation marks, in order, and nothing else is. */
  lemma HandWanLaw(value: Class, head: seq<string>, es: seq<HandEntry>, tail: seq<string>, text: string)
    requires ValueClass(value) && AllFormed(es) && Quiet(head) && Quiet(tail)
    requires text == Text.Unlines(head) + (Text.Unlines(Texts(es)) + Text.Unlines(tail))
    ensures FindAll(WanPattern(value), text, 0) == Groups(CaughtAll(es))
  {
    var h, u, t := Text.Unlines(head), Text.Unlines(Texts(es)), Text.Unlines(tail);
    TextsEnd(es);
    NothingBefore(value, head, u + t, text);
    EndsInBreakToo(head, Texts(es), t, text);
    NothingAfter(value, h + u, tail, text);
    EndsInBreak(head);
    AllThere(Texts(es), h, t, text);
    FindThere(value, es, text, |h|);
  }

  lemma FindThere(value: Class, es: seq<HandEntry>, text: string, pos: nat)
    requires ValueClass(value) && AllFormed(es) && There(text, pos, Texts(es)) && pos + Length(CaughtAll(es)) <= |text|
    requires Search(WanPattern(value), text, 0) == Search(WanPattern(value), text, pos)
    requires Search(WanPattern(value), text, pos + Length(CaughtAll(es))).None?
    ensures FindAll(WanPattern(value), text, 0) == Groups(CaughtAll(es))
  {
    AllTaken(value, es, text, pos);
    FindEntriesAfter(WanPattern(value), CaughtAll(es), text, 0, pos);
  }

  /** load_group_vars gives back exactly the networks meant. */
  lemma HandNetworks(head: seq<string>, es: seq<HandEntry>, tail: seq<string>)
    requires AllFormed(es) && Quiet(head) && Quiet(tail)
    ensures LoadWan(Text.Unlines(head) + (Text.Unlines(Texts(es)) + Text.Unlines(tail))) == Meant(es)
  {
    MeantOf(es);
    HandWanLaw(InValue, head, es, tail, Text.Unlines(head) + (Text.Unlines(Texts(es)) + Text.Unlines(tail)));
  }
}
