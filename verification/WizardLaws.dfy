/** The wizard's readers recover what its printers wrote. */
module WizardLaws {
  import opened Wrappers
  import opened PyText
  import opened Regex
  import opened WizardFiles
  import Text

  /** What input() returns is one line; it ends at a newline and at nothing else. */
  predicate OneLine(l: string) {
    '\n' !in l && '\r' !in l
  }

  /** What a prompt can return when it does not return its default: stripped, not empty, on one line. */
  predicate Entered(v: string) {
    v != "" && Stripped(v) && OneLine(v)
  }

  predicate Optional(v: string) {
    v == "" || Entered(v)
  }

  predicate QuoteFree(v: string) {
    forall i | 0 <= i < |v| :: v[i] != '"'
  }

  /** A value that the quoted formats can carry. */
  predicate Clean(v: string) {
    v != "" && Stripped(v) && '\n' !in v && QuoteFree(v)
  }

  lemma {:induction false} StripNothing(v: string)
    requires Stripped(v)
    ensures Strip(v) == v
  {
  }

  lemma CleanLine(v: string)
    requires Clean(v)
    ensures '\n' !in v && '"' !in v && Strip(v) == v
    ensures forall i | 0 <= i < |v| :: In(InValue, v[i])
  {
  }

  // ------------------------------------------------------- one quoted value

  /** The characters of a value. The lemmas below leave the class a parameter. */
  ghost predicate ValueClass(value: Class) {
    forall c :: In(value, c) <==> c != '"' && c != '\n'
  }

  lemma QuotedChars(value: Class, text: string, pos: nat, v: string)
    requires ValueClass(value)
    requires Clean(v) && Starts(text, pos, " \"" + v + "\"")
    ensures pos + |v| + 3 <= |text| && text[pos] == ' ' && text[pos + 1] == '"' && text[pos + |v| + 2] == '"'
    ensures text[pos + 2..pos + 2 + |v|] == v
    ensures forall i | pos + 2 <= i < pos + 2 + |v| :: In(value, text[i])
  {
    StartsSplit(text, pos, " \"" + v, "\"");
    StartsSplit(text, pos, " \"", v);
    assert text[pos + 0] == " \""[0] && text[pos + 1] == " \""[1];
    assert text[pos + |v| + 2 + 0] == "\""[0];
    CleanLine(v);
    forall i | pos + 2 <= i < pos + 2 + |v| ensures In(value, text[i]) {
      assert text[pos + 2 + (i - pos - 2)] == v[i - pos - 2];
    }
  }

  /** An uncaptured repetition takes its longest run when the rest matches after it. */
  lemma TakeRun(item: Item, rest: seq<Item>, text: string, pos: nat, k: nat)
    requires item.Rep? && !item.group && item.min <= k && pos + k <= |text|
    requires forall i | pos <= i < pos + k :: In(item.cls, text[i])
    requires item.max == Some(k) || (item.max == None && (pos + k == |text| || !In(item.cls, text[pos + k])))
    requires Match(rest, text, pos + k).Some?
    ensures Match([item] + rest, text, pos) == Match(rest, text, pos + k)
  {
    var items := [item] + rest;
    assert items[1..] == rest;
    RunIs(item.cls, text, pos, Most(item.max, text, pos), k);
    Greedy(items, text, pos, k);
    var r := Match(rest, text, pos + k).value;
    assert [] + r.groups == r.groups;
  }

  lemma TakeOne(item: Item, rest: seq<Item>, text: string, pos: nat)
    requires item.Rep? && !item.group && item.min <= 1 && pos < |text| && In(item.cls, text[pos])
    requires item.max == Some(1) || (item.max == None && (pos + 1 == |text| || !In(item.cls, text[pos + 1])))
    requires Match(rest, text, pos + 1).Some?
    ensures Match([item] + rest, text, pos) == Match(rest, text, pos + 1)
  {
    TakeRun(item, rest, text, pos, 1);
  }

  lemma TakeStr(s: string, rest: seq<Item>, text: string, pos: nat)
    requires pos <= |text|
    ensures Match([Str(s)] + rest, text, pos) == if Starts(text, pos, s) then Match(rest, text, pos + |s|) else None
  {
    HereStarts(text, pos, s);
    assert ([Str(s)] + rest)[1..] == rest;
  }

  lemma TakeValue(value: Class, rest: seq<Item>, text: string, pos: nat, k: nat)
    requires ValueClass(value)
    requires k > 0 && pos + k < |text| && !In(value, text[pos + k])
    requires forall i | pos <= i < pos + k :: In(value, text[i])
    requires Match(rest, text, pos + k).Some?
    ensures var r := Match(rest, text, pos + k).value;
      Match([Group(value)] + rest, text, pos) == Some(Found(r.end, [text[pos..pos + k]] + r.groups))
  {
    var items := [Group(value)] + rest;
    assert items[1..] == rest;
    RunIs(value, text, pos, Most(None, text, pos), k);
    Greedy(items, text, pos, k);
  }

  /** A space, a quoted clean value, and whatever the rest of the pattern matches after it. */
  lemma QuotedMatches(value: Class, spaces: Item, rest: seq<Item>, text: string, pos: nat, v: string)
    requires ValueClass(value)
    requires spaces in {Star(Space), Plus(Space)} && Clean(v)
    requires Starts(text, pos, " \"" + v + "\"")
    requires Match(rest, text, pos + |v| + 3).Some?
    ensures var r := Match(rest, text, pos + |v| + 3).value;
      Match(QuotedPattern(spaces, value) + rest, text, pos) == Some(Found(r.end, [v] + r.groups))
  {
    QuotedChars(value, text, pos, v);
    QuotedShape(value, spaces, rest);
    TakeQuoted(value, spaces, rest, text, pos, v);
  }

  lemma QuotedShape(value: Class, spaces: Item, rest: seq<Item>)
    ensures QuotedPattern(spaces, value) + rest == [spaces] + ([Opt('"')] + ([Group(value)] + ([Opt('"')] + rest)))
  {
  }

  lemma TakeQuoted(value: Class, spaces: Item, rest: seq<Item>, text: string, pos: nat, v: string)
    requires ValueClass(value)
    requires spaces in {Star(Space), Plus(Space)} && v != ""
    requires pos + |v| + 3 <= |text| && text[pos] == ' ' && text[pos + 1] == '"' && text[pos + |v| + 2] == '"'
    requires text[pos + 2..pos + 2 + |v|] == v
    requires forall i | pos + 2 <= i < pos + 2 + |v| :: In(value, text[i])
    requires Match(rest, text, pos + |v| + 3).Some?
    ensures var r := Match(rest, text, pos + |v| + 3).value;
      Match([spaces] + ([Opt('"')] + ([Group(value)] + ([Opt('"')] + rest))), text, pos)
        == Some(Found(r.end, [v] + r.groups))
  {
    TakeOne(Opt('"'), rest, text, pos + |v| + 2);
    TakeValue(value, [Opt('"')] + rest, text, pos + 2, |v|);
    TakeOne(Opt('"'), [Group(value)] + ([Opt('"')] + rest), text, pos + 1);
    TakeOne(spaces, [Opt('"')] + ([Group(value)] + ([Opt('"')] + rest)), text, pos);
  }

  lemma {:induction false} TryEndOfLine(text: string, pos: nat, k: nat)
    requires pos + k <= |text| && AtEol(text, pos)
    ensures var r := Try([Star(Space), Eol], text, pos, k); r.Some? && r.value.groups == []
    decreases k
  {
    var items := [Star(Space), Eol];
    assert items[1..] == [Eol] && [Eol][1..] == [];
    var m := Match([Eol], text, pos + k);
    assert m.Some? <==> AtEol(text, pos + k);
    if m.None? {
      TryEndOfLine(text, pos, k - 1);
    }
  }

  // ---------------------------------------------------------------- scalars

  lemma ScalarMatches(key: string, v: string, text: string, pos: nat)
    requires Clean(v) && pos <= |text| && AtBol(text, pos) && Starts(text, pos, Scalar(key, v) + "\n")
    ensures var m := Match(ScalarPattern(key), text, pos); m.Some? && m.value.groups == [v]
  {
    var items := ScalarPattern(key);
    var head, quoted := key + ":", " \"" + v + "\"";
    assert Scalar(key, v) == head + quoted;
    StartsSplit(text, pos, head + quoted, "\n");
    StartsSplit(text, pos, head, quoted);
    var at := pos + |head|;
    var after := at + |quoted|;
    assert text[after + 0] == "\n"[0];
    TryEndOfLine(text, after, Run(Star(Space), text, after));
    QuotedMatches(InValue, Star(Space), [Star(Space), Eol], text, at, v);
    HereStarts(text, pos, head);
    assert items[1..][0] == Str(head);
    assert items[1..][1..] == QuotedPattern(Star(Space), InValue) + [Star(Space), Eol];
  }

  lemma ScalarFails(key: string, text: string, pos: nat, line: string)
    requires '\n' !in key && pos <= |text| && Starts(text, pos, line + "\n") && !(key + ":" <= line)
    ensures Match(ScalarPattern(key), text, pos).None?
  {
    var items := ScalarPattern(key);
    var head := key + ":";
    assert items[1..][0] == Str(head);
    HereStarts(text, pos, head);
    StartsSplit(text, pos, line, "\n");
    assert text[pos + |line| + 0] == "\n"[0];
    if |head| <= |line| {
      var i :| 0 <= i < |head| && line[i] != head[i];
      assert text[pos + i] == line[i];
    } else {
      assert head[|line|] != '\n';
      assert text[pos + |line|] != head[|line|];
    }
  }

  lemma Regroup3(d: string, line: string, more: string, text: string)
    requires text == d + (line + "\n" + more)
    ensures text == d + line + "\n" + more && text == d + (line + "\n") + more && text == (d + line + "\n") + more
  {
  }

  lemma FirstLine(lines: seq<string>, done: string, text: string)
    requires lines != [] && text == done + Text.Unlines(lines)
    ensures text == done + lines[0] + "\n" + Text.Unlines(lines[1..])
    ensures Starts(text, |done|, lines[0] + "\n")
  {
    Regroup3(done, lines[0], Text.Unlines(lines[1..]), text);
    StartsOf(done, lines[0] + "\n", Text.Unlines(lines[1..]), text);
  }

  lemma SkipScalar(key: string, lines: seq<string>, done: string, text: string)
    requires lines != [] && '\n' !in lines[0] && text == done + Text.Unlines(lines)
    requires Match(ScalarPattern(key), text, |done|).None?
    ensures var to := |done| + |lines[0]| + 1;
      && to <= |text| && text == (done + lines[0] + "\n") + Text.Unlines(lines[1..])
      && Search(ScalarPattern(key), text, |done|) == Search(ScalarPattern(key), text, to)
  {
    Regroup3(done, lines[0], Text.Unlines(lines[1..]), text);
    SkipScalarLine(key, done, lines[0], Text.Unlines(lines[1..]), text);
  }

  lemma SkipScalarLine(key: string, done: string, line: string, more: string, text: string)
    requires '\n' !in line && text == done + line + "\n" + more
    requires Match(ScalarPattern(key), text, |done|).None?
    ensures Search(ScalarPattern(key), text, |done|) == Search(ScalarPattern(key), text, |done| + |line| + 1)
  {
    SkipLine(ScalarPattern(key), text, done, line, more);
  }

  /** Looking for a key finds the value on the line that carries it. */
  lemma {:induction false} FindScalar(key: string, v: string, lines: seq<string>, done: string, text: string)
    requires '\n' !in key && Clean(v) && Scalar(key, v) in lines
    requires forall l | l in lines :: '\n' !in l && (l == Scalar(key, v) || !(key + ":" <= l))
    requires done == "" || done[|done| - 1] == '\n'
    requires text == done + Text.Unlines(lines)
    ensures var m := Search(ScalarPattern(key), text, |done|); m.Some? && m.value.groups == [v]
    decreases |lines|
  {
    var line := lines[0];
    FirstLine(lines, done, text);
    if line == Scalar(key, v) {
      ScalarMatches(key, v, text, |done|);
    } else {
      assert line in lines;
      ScalarFails(key, text, |done|, line);
      SkipScalar(key, lines, done, text);
      FindScalar(key, v, lines[1..], done + line + "\n", text);
    }
  }

  // ------------------------------------------- scalars with a quotation mark

  /** In front of a quotation mark on the same line, \s*$ does not match. */
  lemma EndFails(text: string, pos: nat, close: nat, items: seq<Item>)
    requires pos <= close < |text| && text[close] == '"' && items == [Eol]
    requires forall i | pos <= i < close :: text[i] != '\n'
    ensures Match([Star(Space)] + items, text, pos).None?
  {
    RunStops(Space, text, pos, |text| - pos, close);
    forall q | pos <= q <= pos + Run(Star(Space), text, pos) ensures Match(items, text, q).None? {
      assert !AtEol(text, q);
    }
    RepFails(Star(Space), items, text, pos);
  }

  /** A value that stops at an inner quotation mark does not reach the end of the line. */
  lemma GroupFails(value: Class, rest: seq<Item>, text: string, pos: nat, i: nat, close: nat)
    requires ValueClass(value) && pos <= i < close < |text| && text[i] == '"'
    requires forall q | pos <= q <= close :: Match(rest, text, q).None?
    ensures Match([Group(value)] + ([Opt('"')] + rest), text, pos).None?
  {
    RunStops(value, text, pos, |text| - pos, i);
    forall q | pos + 1 <= q <= pos + Run(Group(value), text, pos) ensures Match([Opt('"')] + rest, text, q).None? {
      RepFails(Opt('"'), rest, text, q);
    }
    RepFails(Group(value), [Opt('"')] + rest, text, pos);
  }

  lemma QuotedFails(value: Class, rest: seq<Item>, text: string, pos: nat, i: nat, close: nat)
    requires ValueClass(value) && pos + 2 <= i < close < |text|
    requires text[pos] == ' ' && text[pos + 1] == '"' && text[i] == '"'
    requires forall q | pos <= q <= close :: Match(rest, text, q).None?
    ensures Match([Star(Space)] + ([Opt('"')] + ([Group(value)] + ([Opt('"')] + rest))), text, pos).None?
  {
    var group := [Group(value)] + ([Opt('"')] + rest);
    forall q | pos <= q <= pos + 2 ensures Match(group, text, q).None? {
      GroupFails(value, rest, text, q, if q == pos + 2 then i else pos + 1, close);
    }
    RunStops(Space, text, pos, |text| - pos, pos + 1);
    forall q | pos <= q <= pos + 1 ensures Match([Opt('"')] + group, text, q).None? {
      RepFails(Opt('"'), group, text, q);
    }
    RepFails(Star(Space), [Opt('"')] + group, text, pos);
  }

  /** The printed value, by characters; i is a quotation mark inside it. */
  lemma QuotedInside(text: string, pos: nat, v: string) returns (i: nat)
    requires !QuoteFree(v) && '\n' !in v && Starts(text, pos, " \"" + v + "\"")
    ensures pos + 2 <= i < pos + |v| + 2 < |text| && text[i] == '"'
    ensures text[pos] == ' ' && text[pos + 1] == '"' && text[pos + |v| + 2] == '"'
    ensures forall j | pos <= j < pos + |v| + 2 :: text[j] != '\n'
  {
    StartsSplit(text, pos, " \"" + v, "\"");
    StartsSplit(text, pos, " \"", v);
    assert text[pos + 0] == " \""[0] && text[pos + 1] == " \""[1];
    assert text[pos + |v| + 2 + 0] == "\""[0];
    forall j | pos + 2 <= j < pos + 2 + |v| ensures text[j] == v[j - pos - 2] {
      assert text[pos + 2 + (j - pos - 2)] == v[j - pos - 2];
    }
    var k :| 0 <= k < |v| && v[k] == '"';
    i := pos + 2 + k;
  }

  lemma QuotedNoMatch(value: Class, text: string, pos: nat, v: string)
    requires ValueClass(value) && !QuoteFree(v) && '\n' !in v && Starts(text, pos, " \"" + v + "\"")
    ensures Match(QuotedPattern(Star(Space), value) + [Star(Space), Eol], text, pos).None?
  {
    var close := pos + |v| + 2;
    var i := QuotedInside(text, pos, v);
    var rest := [Star(Space)] + [Eol];
    forall q | pos <= q <= close ensures Match(rest, text, q).None? {
      EndFails(text, q, close, [Eol]);
    }
    QuotedFails(value, rest, text, pos, i, close);
    QuotedShape(value, Star(Space), rest);
    assert [Star(Space), Eol] == rest;
  }

  lemma QuotedScalarFails(key: string, v: string, text: string, pos: nat)
    requires !QuoteFree(v) && '\n' !in v && pos <= |text| && Starts(text, pos, Scalar(key, v) + "\n")
    ensures Match(ScalarPattern(key), text, pos).None?
  {
    var head, quoted := key + ":", " \"" + v + "\"";
    assert Scalar(key, v) == head + quoted;
    StartsSplit(text, pos, head + quoted, "\n");
    StartsSplit(text, pos, head, quoted);
    HereStarts(text, pos, head);
    QuotedNoMatch(InValue, text, pos + |head|, v);
    assert ScalarPattern(key)[1..] == [Str(head)] + (QuotedPattern(Star(Space), InValue) + [Star(Space), Eol]);
    TakeStr(head, QuotedPattern(Star(Space), InValue) + [Star(Space), Eol], text, pos);
  }

  /** A line that gives the key no value. */
  ghost predicate Barren(key: string, line: string) {
    '\n' !in line && (!(key + ":" <= line) || exists v :: line == Scalar(key, v) && '\n' !in v && !QuoteFree(v))
  }

  lemma BarrenFails(key: string, line: string, text: string, pos: nat)
    requires '\n' !in key && Barren(key, line) && pos <= |text| && Starts(text, pos, line + "\n")
    ensures Match(ScalarPattern(key), text, pos).None?
  {
    if key + ":" <= line {
      var v :| line == Scalar(key, v) && '\n' !in v && !QuoteFree(v);
      QuotedScalarFails(key, v, text, pos);
    } else {
      ScalarFails(key, text, pos, line);
    }
  }

  lemma {:induction false} FindNoScalar(key: string, lines: seq<string>, done: string, text: string)
    requires '\n' !in key && forall l | l in lines :: Barren(key, l)
    requires done == "" || done[|done| - 1] == '\n'
    requires text == done + Text.Unlines(lines)
    ensures Search(ScalarPattern(key), text, |done|).None?
    decreases |lines|
  {
    if lines == [] {
      NoRoom(key, text);
    } else {
      FirstLine(lines, done, text);
      BarrenFails(key, lines[0], text, |done|);
      SkipScalar(key, lines, done, text);
      FindNoScalar(key, lines[1..], done + lines[0] + "\n", text);
    }
  }

  lemma NoRoom(key: string, text: string)
    ensures Match(ScalarPattern(key), text, |text|).None?
  {
    HereStarts(text, |text|, key + ":");
    assert ScalarPattern(key)[1..][0] == Str(key + ":");
  }

  // ------------------------------------------------------------ WAN networks

  const SSID_PART: string := "  - ssid:"
  const PASSWORD_PART: string := "    password:"

  function Quoted(v: string): string {
    " \"" + v + "\""
  }

  function Entry(w: Wan): string {
    SSID_PART + Quoted(w.ssid) + ("\n" + (PASSWORD_PART + Quoted(w.password)))
  }

  predicate CleanWan(wan: seq<Wan>) {
    forall w | w in wan :: Clean(w.ssid) && Clean(w.password)
  }

  /** Four spaces and the key, by characters. */
  lemma PasswordChars(text: string, pos: nat)
    requires Starts(text, pos, PASSWORD_PART)
    ensures forall i | pos <= i < pos + 4 :: text[i] == ' '
    ensures Starts(text, pos + 4, "password:")
  {
    assert PASSWORD_PART == "    " + "password:";
    StartsSplit(text, pos, "    ", "password:");
    forall i | pos <= i < pos + 4 ensures text[i] == ' ' {
      assert text[pos + (i - pos)] == "    "[i - pos];
    }
  }

  lemma TakePassword(text: string, pos: nat, tail: seq<Item>)
    requires pos + 13 <= |text| && Starts(text, pos + 4, "password:")
    requires forall i | pos <= i < pos + 4 :: text[i] == ' '
    requires Match(tail, text, pos + 13).Some?
    ensures Match([Exactly(Space, 4)] + ([Str("password:")] + tail), text, pos) == Match(tail, text, pos + 13)
  {
    assert |"password:"| == 9;
    TakeStr("password:", tail, text, pos + 4);
    TakeRun(Exactly(Space, 4), [Str("password:")] + tail, text, pos, 4);
  }

  lemma PasswordShape(value: Class)
    ensures PasswordPattern(value) == [Exactly(Space, 4)] + ([Str("password:")] + (QuotedPattern(Plus(Space), value) + []))
  {
  }

  lemma PasswordMatches(value: Class, text: string, pos: nat, v: string)
    requires ValueClass(value)
    requires Clean(v) && Starts(text, pos, PASSWORD_PART + Quoted(v))
    ensures Match(PasswordPattern(value), text, pos) == Some(Found(pos + 13 + |v| + 3, [v]))
  {
    StartsSplit(text, pos, PASSWORD_PART, Quoted(v));
    PasswordChars(text, pos);
    var end := pos + 13 + |v| + 3;
    assert Match([], text, end) == Some(Found(end, []));
    QuotedMatches(value, Plus(Space), [], text, pos + 13, v);
    assert [v] + [] == [v];
    TakePassword(text, pos, QuotedPattern(Plus(Space), value) + []);
    PasswordShape(value);
  }

  /** \s* first swallows the line break and the indentation, then gives all of it back but the break. */
  lemma BreakMatches(value: Class, text: string, pos: nat, v: string)
    requires ValueClass(value)
    requires Clean(v) && Starts(text, pos, "\n" + (PASSWORD_PART + Quoted(v)))
    ensures Match(BreakPattern(value), text, pos) == Some(Found(pos + 1 + 13 + |v| + 3, [v]))
  {
    StartsSplit(text, pos, "\n", PASSWORD_PART + Quoted(v));
    StartsSplit(text, pos + 1, PASSWORD_PART, Quoted(v));
    PasswordMatches(value, text, pos + 1, v);
    var items := BreakPattern(value);
    var tail := [Str("\n")] + PasswordPattern(value);
    assert items[1..] == tail;
    assert text[pos + 0] == "\n"[0];
    var k := Run(Star(Space), text, pos);
    TakeStr("\n", PasswordPattern(value), text, pos);
    forall q | pos < q <= pos + k ensures Match(tail, text, q).None? {
      TakeStr("\n", PasswordPattern(value), text, q);
      NoBreakSoon(text, pos, q, k);
    }
    TryDown(items, text, pos, k, 0);
    assert [] + [v] == [v];
  }

  lemma NoBreakSoon(text: string, pos: nat, q: nat, k: nat)
    requires Starts(text, pos + 1, PASSWORD_PART) && pos < q <= pos + k && pos + k <= |text|
    requires forall i | pos <= i < pos + k :: IsSpace(text[i])
    ensures !Starts(text, q, "\n")
  {
    assert text[pos + 1 + 4] == PASSWORD_PART[4] == 'p';
    assert PASSWORD_PART[0] == PASSWORD_PART[1] == PASSWORD_PART[2] == PASSWORD_PART[3] == ' ';
    if q < |text| {
      assert text[pos + 1 + (q - pos - 1)] == PASSWORD_PART[q - pos - 1];
      assert text[q + 0] != "\n"[0];
    }
  }

  lemma SsidChars(text: string, pos: nat)
    requires Starts(text, pos, SSID_PART)
    ensures text[pos] == ' ' && text[pos + 1] == ' ' && Starts(text, pos + 2, "-")
    ensures text[pos + 3] == ' ' && Starts(text, pos + 4, "ssid:") && text[pos + 4] == 's'
  {
    assert SSID_PART == "  - " + "ssid:";
    StartsSplit(text, pos, "  - ", "ssid:");
    assert text[pos + 0] == "  - "[0] && text[pos + 1] == "  - "[1] && text[pos + 2] == "  - "[2];
    assert text[pos + 3] == "  - "[3] && text[pos + 4 + 0] == "ssid:"[0];
  }

  lemma TakeKey(text: string, pos: nat, tail: seq<Item>)
    requires pos + 6 <= |text| && text[pos] == ' ' && Starts(text, pos + 1, "ssid:") && text[pos + 1] == 's'
    requires Match(tail, text, pos + 6).Some?
    ensures Match([Plus(Space)] + ([Str("ssid:")] + tail), text, pos) == Match(tail, text, pos + 6)
  {
    assert |"ssid:"| == 5;
    TakeStr("ssid:", tail, text, pos + 1);
    TakeOne(Plus(Space), [Str("ssid:")] + tail, text, pos);
  }

  lemma TakeDash(text: string, pos: nat, rest: seq<Item>)
    requires pos + 3 <= |text| && text[pos] == ' ' && text[pos + 1] == ' ' && Starts(text, pos + 2, "-")
    requires Match(rest, text, pos + 3).Some?
    ensures Match([Exactly(Space, 2)] + ([Str("-")] + rest), text, pos) == Match(rest, text, pos + 3)
  {
    assert |"-"| == 1;
    TakeStr("-", rest, text, pos + 2);
    TakeRun(Exactly(Space, 2), [Str("-")] + rest, text, pos, 2);
  }

  lemma TakeSsid(text: string, pos: nat, tail: seq<Item>)
    requires pos + 9 <= |text| && AtBol(text, pos)
    requires text[pos] == ' ' && text[pos + 1] == ' ' && Starts(text, pos + 2, "-")
    requires text[pos + 3] == ' ' && Starts(text, pos + 4, "ssid:") && text[pos + 4] == 's'
    requires Match(tail, text, pos + 9).Some?
    ensures Match(Opening(tail), text, pos) == Match(tail, text, pos + 9)
  {
    TakeKey(text, pos + 3, tail);
    TakeDash(text, pos, [Plus(Space)] + ([Str("ssid:")] + tail));
  }

  function WanTail(value: Class): seq<Item> {
    QuotedPattern(Plus(Space), value) + BreakPattern(value)
  }

  lemma WanShape(value: Class)
    ensures WanPattern(value) == [Bol] + Opening(WanTail(value))
  {
  }

  lemma TakeBol(rest: seq<Item>, text: string, pos: nat)
    requires pos <= |text| && AtBol(text, pos)
    ensures Match([Bol] + rest, text, pos) == Match(rest, text, pos)
  {
    assert ([Bol] + rest)[1..] == rest;
  }

  lemma EntrySplit(text: string, pos: nat, w: Wan)
    requires Starts(text, pos, Entry(w))
    ensures Starts(text, pos, SSID_PART) && Starts(text, pos + 9, Quoted(w.ssid))
    ensures Starts(text, pos + 9 + |w.ssid| + 3, "\n" + (PASSWORD_PART + Quoted(w.password)))
    ensures |Entry(w)| == 9 + |w.ssid| + 3 + 1 + 13 + |w.password| + 3
  {
    var broken := "\n" + (PASSWORD_PART + Quoted(w.password));
    StartsSplit(text, pos, SSID_PART + Quoted(w.ssid), broken);
    StartsSplit(text, pos, SSID_PART, Quoted(w.ssid));
  }

  function Opening(tail: seq<Item>): seq<Item> {
    [Exactly(Space, 2)] + ([Str("-")] + ([Plus(Space)] + ([Str("ssid:")] + tail)))
  }

  lemma MatchOpening(text: string, pos: nat, tail: seq<Item>)
    requires pos + 9 <= |text| && AtBol(text, pos) && Starts(text, pos, SSID_PART)
    requires Match(tail, text, pos + 9).Some?
    ensures Match([Bol] + Opening(tail), text, pos) == Match(tail, text, pos + 9)
  {
    SsidChars(text, pos);
    TakeSsid(text, pos, tail);
    TakeBol(Opening(tail), text, pos);
  }

  lemma EntryMatches(value: Class, text: string, pos: nat, w: Wan)
    requires ValueClass(value)
    requires Clean(w.ssid) && Clean(w.password) && pos <= |text| && AtBol(text, pos) && Starts(text, pos, Entry(w))
    ensures Match(WanPattern(value), text, pos) == Some(Found(pos + |Entry(w)|, [w.ssid, w.password]))
  {
    EntrySplit(text, pos, w);
    SsidValueMatches(value, text, pos + 9, w);
    MatchOpening(text, pos, WanTail(value));
    WanShape(value);
  }

  lemma SsidValueMatches(value: Class, text: string, at: nat, w: Wan)
    requires ValueClass(value)
    requires Clean(w.ssid) && Clean(w.password) && Starts(text, at, Quoted(w.ssid))
    requires Starts(text, at + |w.ssid| + 3, "\n" + (PASSWORD_PART + Quoted(w.password)))
    ensures Match(WanTail(value), text, at)
         == Some(Found(at + |w.ssid| + 3 + 1 + 13 + |w.password| + 3, [w.ssid, w.password]))
  {
    BreakMatches(value, text, at + |w.ssid| + 3, w.password);
    QuotedMatches(value, Plus(Space), BreakPattern(value), text, at, w.ssid);
    assert [w.ssid] + [w.password] == [w.ssid, w.password];
  }

  /** Without two spaces in front there is no entry. */
  lemma NoEntry(value: Class, text: string, pos: nat)
    requires pos <= |text|
    requires pos + 1 >= |text| || !IsSpace(text[pos]) || !IsSpace(text[pos + 1])
    ensures Match(WanPattern(value), text, pos).None?
  {
    WanShape(value);
    var items := Opening(WanTail(value));
    assert ([Bol] + items)[1..] == items;
    var k := Run(Exactly(Space, 2), text, pos);
    var most := Most(Some(2), text, pos);
    if pos == |text| || !IsSpace(text[pos]) {
      RunIs(Space, text, pos, most, 0);
    } else if pos + 1 < |text| {
      RunIs(Space, text, pos, most, 1);
    }
    assert Try(items, text, pos, k).None?;
  }

  /** Lines that do not start with a space, where a blank line is followed by such a line. */
  predicate Quiet(lines: seq<string>) {
    && (forall l | l in lines :: '\n' !in l)
    && forall i | 0 <= i < |lines| :: QuietAt(lines, i)
  }

  predicate QuietAt(lines: seq<string>, i: nat)
    requires i < |lines|
  {
    if lines[i] != "" then !IsSpace(lines[i][0])
    else i + 1 < |lines| && lines[i + 1] != "" && !IsSpace(lines[i + 1][0])
  }

  lemma {:induction false} SkipQuiet(value: Class, lines: seq<string>, done: string, after: string, text: string)
    requires ValueClass(value)
    requires Quiet(lines) && (done == "" || done[|done| - 1] == '\n')
    requires text == done + (Text.Unlines(lines) + after)
    ensures |done| + |Text.Unlines(lines)| <= |text|
    ensures Search(WanPattern(value), text, |done|) == Search(WanPattern(value), text, |done| + |Text.Unlines(lines)|)
    decreases |lines|
  {
    if lines != [] {
      var line, u := lines[0], Text.Unlines(lines[1..]);
      Regroup(done, line, u, after, text);
      SkipQuietLine(value, lines, done, u + after, text);
      QuietTail(lines);
      SkipQuiet(value, lines[1..], done + line + "\n", after, text);
    }
  }

  lemma SkipQuietLine(value: Class, lines: seq<string>, done: string, more: string, text: string)
    requires lines != [] && Quiet(lines) && text == done + (lines[0] + "\n" + more)
    requires Text.Unlines(lines[1..]) <= more
    ensures Search(WanPattern(value), text, |done|) == Search(WanPattern(value), text, |done| + |lines[0]| + 1)
  {
    QuietStart(lines, done, more, text);
    NoEntry(value, text, |done|);
    assert lines[0] in lines;
    WanShape(value);
    assert text == done + lines[0] + "\n" + more;
    SkipLine(WanPattern(value), text, done, lines[0], more);
  }

  lemma QuietTail(lines: seq<string>)
    requires Quiet(lines) && lines != []
    ensures Quiet(lines[1..])
  {
    forall i | 0 <= i < |lines[1..]| ensures QuietAt(lines[1..], i) {
      assert QuietAt(lines, i + 1);
    }
  }

  lemma QuietStart(lines: seq<string>, done: string, more: string, text: string)
    requires Quiet(lines) && lines != [] && text == done + (lines[0] + "\n" + more)
    requires Text.Unlines(lines[1..]) <= more
    ensures !IsSpace(text[|done|]) || |done| + 1 >= |text| || !IsSpace(text[|done| + 1])
  {
    assert QuietAt(lines, 0);
    if lines[0] == "" {
      assert text[|done| + 1] == more[0];
      assert lines[1] != "" && Text.Unlines(lines[1..])[0] == lines[1][0];
    } else {
      assert text[|done|] == lines[0][0];
    }
  }

  lemma EntryText(w: Wan, rest: seq<Wan>)
    ensures Text.Unlines(WanLines([w] + rest)) == Entry(w) + "\n" + Text.Unlines(WanLines(rest))
  {
    var a, b := "  - ssid: \"" + w.ssid + "\"", "    password: \"" + w.password + "\"";
    assert ([w] + rest)[1..] == rest;
    assert WanLines([w] + rest) == [a, b] + WanLines(rest);
    Text.UnlinesAppend([a, b], WanLines(rest));
    assert [a, b] == [a] + [b];
    Text.UnlinesAppend([a], [b]);
    assert Text.Unlines([a]) == a + "\n" && Text.Unlines([b]) == b + "\n";
    assert a == SSID_PART + Quoted(w.ssid) && b == PASSWORD_PART + Quoted(w.password);
    assert a + "\n" + (b + "\n") == Entry(w) + "\n";
  }

  /** What finditer should give for the printed list: each entry's length and its two values. */
  function Printed(wan: seq<Wan>): seq<(nat, seq<string>)> {
    if wan == [] then [] else [(|Entry(wan[0])|, [wan[0].ssid, wan[0].password])] + Printed(wan[1..])
  }

  /** The entry of w stands on lines of its own at pos. */
  predicate Placed(text: string, pos: nat, w: Wan) {
    && pos + |Entry(w)| < |text| && Starts(text, pos, Entry(w))
    && AtBol(text, pos) && !AtBol(text, pos + |Entry(w)|)
  }

  predicate AllPlaced(text: string, pos: nat, wan: seq<Wan>)
    decreases |wan|
  {
    wan == [] || (Placed(text, pos, wan[0]) && AllPlaced(text, pos + |Entry(wan[0])| + 1, wan[1..]))
  }

  lemma {:induction false} PrintedPlaced(wan: seq<Wan>, done: string, after: string, text: string)
    requires done == "" || done[|done| - 1] == '\n'
    requires text == done + (Text.Unlines(WanLines(wan)) + after)
    ensures AllPlaced(text, |done|, wan)
    ensures Length(Printed(wan)) == |Text.Unlines(WanLines(wan))|
    decreases |wan|
  {
    if wan != [] {
      var w, rest := wan[0], wan[1..];
      var e, u := Entry(w), Text.Unlines(WanLines(rest));
      assert wan == [w] + rest;
      EntryText(w, rest);
      Regroup(done, e, u, after, text);
      EntryPlace(w, done, u + after, text);
      PrintedPlaced(rest, done + e + "\n", after, text);
    }
  }

  lemma {:induction false} PrintedTaken(value: Class, wan: seq<Wan>, text: string, pos: nat)
    requires ValueClass(value) && CleanWan(wan) && AllPlaced(text, pos, wan)
    ensures TakesAll(WanPattern(value), Printed(wan), text, pos)
    decreases |wan|
  {
    if wan != [] {
      assert wan[0] in wan;
      EntryTaken(value, text, pos, wan[0]);
      EntryEnds(wan[0]);
      PrintedTaken(value, wan[1..], text, pos + |Entry(wan[0])| + 1);
    }
  }

  lemma Regroup(d: string, e: string, u: string, a: string, text: string)
    requires text == d + (e + "\n" + u + a)
    ensures text == d + (e + "\n" + (u + a))
    ensures text == (d + e + "\n") + (u + a)
  {
  }

  lemma EntryTaken(value: Class, text: string, pos: nat, w: Wan)
    requires ValueClass(value) && Clean(w.ssid) && Clean(w.password)
    requires Placed(text, pos, w)
    ensures Match(WanPattern(value), text, pos) == Some(Found(pos + |Entry(w)|, [w.ssid, w.password]))
    ensures Match(WanPattern(value), text, pos + |Entry(w)|).None?
  {
    EntryMatches(value, text, pos, w);
    NoneHere(value, text, pos + |Entry(w)|);
  }

  lemma EntryPlace(w: Wan, done: string, more: string, text: string)
    requires done == "" || done[|done| - 1] == '\n'
    requires text == done + (Entry(w) + "\n" + more)
    ensures Placed(text, |done|, w)
  {
    EntryEnds(w);
    EntryInside(text, done, Entry(w), more);
  }

  lemma NoneHere(value: Class, text: string, pos: nat)
    requires pos <= |text| && !AtBol(text, pos)
    ensures Match(WanPattern(value), text, pos).None?
  {
    WanShape(value);
    OnlyAtBol(WanPattern(value), text, pos);
  }

  lemma EntryEnds(w: Wan)
    ensures Entry(w) != "" && Entry(w)[|Entry(w)| - 1] == '"'
  {
  }

  lemma FindPlaced(value: Class, wan: seq<Wan>, text: string, pos: nat)
    requires ValueClass(value) && CleanWan(wan) && AllPlaced(text, pos, wan)
    requires pos + Length(Printed(wan)) <= |text|
    requires Search(WanPattern(value), text, 0) == Search(WanPattern(value), text, pos)
    requires Search(WanPattern(value), text, pos + Length(Printed(wan))).None?
    ensures FindAll(WanPattern(value), text, 0) == Groups(Printed(wan))
  {
    PrintedTaken(value, wan, text, pos);
    FindEntriesAfter(WanPattern(value), Printed(wan), text, 0, pos);
  }

  lemma NothingBefore(value: Class, head: seq<string>, rest: string, text: string)
    requires ValueClass(value) && Quiet(head) && text == Text.Unlines(head) + rest
    ensures Search(WanPattern(value), text, 0) == Search(WanPattern(value), text, |Text.Unlines(head)|)
  {
    assert text == "" + (Text.Unlines(head) + rest);
    SkipQuiet(value, head, "", rest, text);
  }

  /** finditer over the printed list finds every network, in order, and nothing around it. */
  lemma FindWans(value: Class, head: seq<string>, wan: seq<Wan>, tail: seq<string>, text: string)
    requires ValueClass(value) && CleanWan(wan) && Quiet(head) && Quiet(tail)
    requires text == Text.Unlines(head) + (Text.Unlines(WanLines(wan)) + Text.Unlines(tail))
    ensures FindAll(WanPattern(value), text, 0) == Groups(Printed(wan))
  {
    var h, u, t := Text.Unlines(head), Text.Unlines(WanLines(wan)), Text.Unlines(tail);
    NothingBefore(value, head, u + t, text);
    EndsInBreakToo(head, WanLines(wan), t, text);
    NothingAfter(value, h + u, tail, text);
    EndsInBreak(head);
    PrintedPlaced(wan, h, t, text);
    FindPlaced(value, wan, text, |h|);
  }

  lemma {:induction false} EndsInBreak(lines: seq<string>)
    ensures var t := Text.Unlines(lines); t == "" || t[|t| - 1] == '\n'
  {
    if lines != [] {
      EndsInBreak(lines[1..]);
    }
  }

  lemma NothingAfter(value: Class, done: string, tail: seq<string>, text: string)
    requires ValueClass(value) && Quiet(tail) && (done == "" || done[|done| - 1] == '\n')
    requires text == done + Text.Unlines(tail)
    ensures Search(WanPattern(value), text, |done|).None?
  {
    assert text == done + (Text.Unlines(tail) + "");
    SkipQuiet(value, tail, done, "", text);
    NoEntry(value, text, |text|);
  }

  lemma EndsInBreakToo(head: seq<string>, lines: seq<string>, rest: string, text: string)
    requires text == Text.Unlines(head) + (Text.Unlines(lines) + rest)
    ensures var done := Text.Unlines(head) + Text.Unlines(lines);
      text == done + rest && (done == "" || done[|done| - 1] == '\n')
  {
    EndsInBreak(head);
    EndsInBreak(lines);
  }

  lemma {:induction false} WanOfPrinted(wan: seq<Wan>)
    requires CleanWan(wan)
    ensures WanOf(Groups(Printed(wan))) == wan
  {
    if wan != [] {
      var w := wan[0];
      assert w in wan;
      CleanLine(w.ssid);
      CleanLine(w.password);
      WanOfPrinted(wan[1..]);
      assert Groups(Printed(wan)) == [[w.ssid, w.password]] + Groups(Printed(wan[1..]));
      assert wan == [w] + wan[1..];
    }
  }
}
