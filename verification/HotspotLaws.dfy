/** What the hotspot's parsers read in laid-out text: which words of a lease line are the MAC, the address
    and the name, and which numbers of a station block are which. */
module HotspotLaws {
  import opened Wrappers
  import opened Text
  import opened Words
  import opened WordLaws
  import opened HotspotText

  // ------------------------------------------------------------------ leases

  /** The words of a lease line with the white space in front of each, and what follows the name. */
  datatype LeaseRow = LeaseRow(pad: string, expiry: string, mac: Cell, ip: Cell, name: Cell, rest: string) {
    predicate WellFormed() {
      && Blank(pad) && Word(expiry) && expiry[0] != '#' && Row([mac, ip, name])
      && (rest == "" || IsSpace(rest[0])) && '\n' !in Line()
    }

    function Line(): string {
      pad + (expiry + (Laid([mac, ip, name]) + rest))
    }
  }

  lemma RowFields(r: LeaseRow)
    requires r.WellFormed()
    ensures Fields(r.Line()) == [r.expiry, r.mac.word, r.ip.word, r.name.word] + Fields(r.rest)
  {
    var cells := [r.mac, r.ip, r.name];
    RowWords(r.pad, r.expiry, cells, r.rest);
    FourWords(r.expiry, WordsOf(cells), Fields(r.rest));
  }

  lemma RowWords(pad: string, first: string, cells: seq<Cell>, rest: string)
    requires Blank(pad) && Word(first) && Row(cells) && (rest == "" || IsSpace(rest[0]))
    ensures Fields(pad + (first + (Laid(cells) + rest))) == [first] + (WordsOf(cells) + Fields(rest))
  {
    RowFront(cells, rest);
    FieldsFront(pad, first, Laid(cells) + rest);
    FieldsRow(cells, rest);
  }

  lemma FourWords(first: string, words: seq<string>, more: seq<string>)
    requires |words| == 3
    ensures [first] + (words + more) == [first, words[0], words[1], words[2]] + more
  {
  }

  lemma RowStart(r: LeaseRow)
    requires r.WellFormed()
    ensures TrimSpace(r.Line()) != "" && !HasPrefix(TrimSpace(r.Line()), "#")
  {
    var tail := Laid([r.mac, r.ip, r.name]) + r.rest;
    TrimLeftBlank(r.pad, r.expiry + tail);
    var front := r.expiry;
    TrimRightBehind(front, tail);
    assert TrimSpace(r.Line())[0] == r.expiry[0];
  }

  /** The second word is the MAC, the third the address, the fourth the name, and * is no name. */
  lemma RowReads(r: LeaseRow)
    requires r.WellFormed()
    ensures LeaseLine(r.Line())
         == Some((ToLower(r.mac.word), Lease(r.ip.word, if r.name.word == "*" then "" else r.name.word)))
  {
    RowFields(r);
    RowStart(r);
    FieldsTrim(r.Line());
  }

  /** Comments and lines of fewer than four words say nothing. */
  lemma RowSkipped(line: string)
    requires |Fields(line)| < 4 || HasPrefix(TrimSpace(line), "#")
    ensures LeaseLine(line) == None
  {
    FieldsTrim(line);
  }

  lemma LeaseLineCR(line: string)
    ensures LeaseLine(DropCR(line)) == LeaseLine(line)
  {
    DropCRShorter(line);
  }

  predicate ShortLines(lines: seq<string>, limit: nat) {
    forall l | l in lines :: '\n' !in l && ByteLen(l) < limit
  }

  lemma LeaseSnoc(lines: seq<string>, l: string, mac: string)
    requires ShortLines(lines + [l], 65536)
    ensures LeaseFor(Unlines(lines + [l]), mac)
         == if LeaseLine(l).Some? && LeaseLine(l).value.0 == mac then Some(LeaseLine(l).value.1)
            else LeaseFor(Unlines(lines), mac)
  {
    ScanUnlines(lines + [l], LEASE_TOKEN);
    assert ShortLines(lines, 65536) by {
      forall x | x in lines ensures x in lines + [l] {
      }
    }
    ScanUnlines(lines, LEASE_TOKEN);
    DropCRsSnoc(lines, l);
    LeaseLineCR(l);
    var dropped := DropCRs(lines + [l]);
    assert dropped[..|dropped| - 1] == DropCRs(lines);
  }

  /** THE LEASE FILE.  A lease line at the end of the file gives its MAC, in lower case, exactly its address
      and its name, and changes nothing for any other. */
  lemma LeaseWritten(lines: seq<string>, r: LeaseRow, mac: string)
    requires r.WellFormed() && ShortLines(lines + [r.Line()], 65536)
    ensures LeaseFor(Unlines(lines + [r.Line()]), mac)
         == if mac == ToLower(r.mac.word)
            then Some(Lease(r.ip.word, if r.name.word == "*" then "" else r.name.word))
            else LeaseFor(Unlines(lines), mac)
  {
    RowReads(r);
    LeaseSnoc(lines, r.Line(), mac);
  }

  lemma LeaseSkipped(lines: seq<string>, line: string, mac: string)
    requires |Fields(line)| < 4 || HasPrefix(TrimSpace(line), "#")
    requires ShortLines(lines + [line], 65536)
    ensures LeaseFor(Unlines(lines + [line]), mac) == LeaseFor(Unlines(lines), mac)
  {
    RowSkipped(line);
    LeaseSnoc(lines, line, mac);
  }

  /** From a line of 64 KB on the file is not read. */
  lemma LeaseCut(lines: seq<string>, long: string, rest: string, mac: string)
    requires ShortLines(lines, 65536) && '\n' !in long && ByteLen(long) >= 65536
    ensures LeaseFor(Unlines(lines) + (long + "\n" + rest), mac) == LeaseFor(Unlines(lines), mac)
  {
    ScanStops(lines, long, rest, LEASE_TOKEN);
    ScanUnlines(lines, LEASE_TOKEN);
  }

  // ----------------------------------------------------------------- numbers

  /** The first word, when it is a decimal number of 64 bits, is the value. */
  lemma UintReads(pad: string, n: nat, rest: string)
    requires Blank(pad) && (rest == "" || IsSpace(rest[0]))
    ensures ParseUint(pad + (Decimal(n) + rest)) == if n <= 18446744073709551615 then n else 0
  {
    DecimalReads(n);
    FieldsFront(pad, Decimal(n), rest);
  }

  function Signed(x: int): string {
    if x < 0 then "-" + Decimal(-x) else Decimal(x)
  }

  lemma SignedWord(x: int)
    ensures Word(Signed(x))
  {
    DecimalReads(if x < 0 then -x else x);
  }

  lemma SignedShape(x: int)
    ensures var f := Signed(x);
      if x < 0 then f[0] == '-' && f[1..] == Decimal(-x) else f == Decimal(x) && IsDigit(f[0])
  {
    DecimalReads(if x < 0 then -x else x);
    if x < 0 {
      assert ("-" + Decimal(-x))[1..] == Decimal(-x);
    }
  }

  /** The first word, when it is a signed decimal number of 64 bits, is the value. */
  lemma IntReads(pad: string, x: int, rest: string)
    requires Blank(pad) && (rest == "" || IsSpace(rest[0]))
    ensures ParseFirstInt(pad + (Signed(x) + rest))
         == if -9223372036854775808 <= x <= 9223372036854775807 then x else 0
  {
    SignedWord(x);
    SignedShape(x);
    DecimalReads(if x < 0 then -x else x);
    FieldsFront(pad, Signed(x), rest);
  }

  // ---------------------------------------------------------------- stations

  predicate GoodKey(key: string) {
    key != "" && Tight(key) && ':' !in key && !HasPrefix(key + ":", "Station ")
  }

  /** A line inside a block: a key, a colon, and the value. */
  datatype KeyLine = KeyLine(pad: string, key: string, value: string) {
    predicate WellFormed() {
      Blank(pad) && GoodKey(key)
    }

    function Line(): string {
      pad + (key + ":" + value)
    }
  }

  /** A key that is not trimmed away and has no colon is found, with the value behind the first colon. */
  lemma KeyReads(k: KeyLine)
    requires k.WellFormed()
    ensures TrimSpace(k.Line()) == k.key + ":" + TrimRight(k.value)
    ensures SplitKeyValue(TrimSpace(k.Line())) == Some((k.key, TrimSpace(k.value)))
  {
    TrimLeftBlank(k.pad, k.key + ":" + k.value);
    TrimRightBehind(k.key + ":", k.value);
    var t := k.key + ":" + TrimRight(k.value);
    FirstColon(k.key, TrimRight(k.value));
    assert t[..|k.key|] == k.key && t[|k.key| + 1..] == TrimRight(k.value);
    TrimPadded("", k.key);
    assert "" + k.key == k.key;
    TrimRightFirst(k.value);
  }

  /** Trimming on the right first makes no difference. */
  lemma {:induction false} TrimRightFirst(v: string)
    ensures TrimSpace(TrimRight(v)) == TrimSpace(v)
  {
    if v != "" && IsSpace(v[|v| - 1]) {
      TrimRightFirst(v[..|v| - 1]);
      TrimSpaceDropsLast(v[..|v| - 1], v[|v| - 1]);
      assert v[..|v| - 1] + [v[|v| - 1]] == v;
    }
  }

  lemma NotStation(k: KeyLine)
    requires k.WellFormed()
    ensures !StationLine(k.Line())
  {
    KeyReads(k);
    var t, colon, s := TrimSpace(k.Line()), k.key + ":", "Station ";
    assert ':' !in s && t[|k.key|] == ':' && t[..|colon|] == colon;
  }

  function LinesOf(ks: seq<KeyLine>): (r: seq<string>)
    ensures |r| == |ks|
    ensures forall i | 0 <= i < |r| :: r[i] == ks[i].Line()
  {
    if ks == [] then [] else [ks[0].Line()] + LinesOf(ks[1..])
  }

  /** The value behind the last line with the key. */
  function LastOf(ks: seq<KeyLine>, key: string): Option<string> {
    if ks == [] then None
    else if ks[|ks| - 1].key == key then Some(ks[|ks| - 1].value)
    else LastOf(ks[..|ks| - 1], key)
  }

  lemma {:induction false} LastValueOf(ks: seq<KeyLine>, key: string)
    requires forall k | k in ks :: k.WellFormed()
    ensures var v := LastOf(ks, key); LastValue(LinesOf(ks), key) == if v.Some? then Some(TrimSpace(v.value)) else None
    decreases |ks|
  {
    if ks != [] {
      var init, last := ks[..|ks| - 1], ks[|ks| - 1];
      assert last in ks;
      KeyReads(last);
      LastValueOf(init, key);
      assert LinesOf(ks)[..|ks| - 1] == LinesOf(init);
    }
  }

  function UintOf(v: Option<string>): nat {
    if v.Some? then ParseUint(v.value) else 0
  }

  function IntOf(v: Option<string>): int {
    if v.Some? then ParseFirstInt(v.value) else 0
  }

  lemma NumbersTrim(v: string)
    ensures ParseUint(TrimSpace(v)) == ParseUint(v) && ParseFirstInt(TrimSpace(v)) == ParseFirstInt(v)
  {
    FieldsTrim(v);
  }

  lemma TrimmedUint(v: Option<string>)
    ensures UintOf(if v.Some? then Some(TrimSpace(v.value)) else None) == UintOf(v)
    ensures IntOf(if v.Some? then Some(TrimSpace(v.value)) else None) == IntOf(v)
  {
    if v.Some? {
      NumbersTrim(v.value);
    }
  }

  /** The line that opens a block. */
  lemma HeadReads(pad: string, gap: string, mac: string, rest: string)
    requires Blank(pad) && Gap(gap) && gap[0] == ' ' && Word(mac) && (rest == "" || IsSpace(rest[0]))
    ensures var head := pad + ("Station" + (gap + mac + rest));
      StationLine(head) && |Fields(TrimSpace(head))| >= 2 && Fields(TrimSpace(head))[1] == mac
  {
    var tail := gap + mac + rest;
    var head := pad + ("Station" + tail);
    var cells := [Cell(gap, mac)];
    assert Laid(cells) == gap + mac by { assert cells[1..] == []; }
    FieldsFront(pad, "Station", tail);
    FieldsRow(cells, rest);
    FieldsTrim(head);
    TrimLeftBlank(pad, "Station" + tail);
    TrimRightBehind("Station", tail);
    TailKeeps(gap, mac, rest);
    assert TrimSpace(head) == "Station" + TrimRight(tail);
    assert "Station " == "Station" + " ";
  }

  lemma TailKeeps(gap: string, mac: string, rest: string)
    requires gap != "" && Word(mac)
    ensures TrimRight(gap + mac + rest) != "" && TrimRight(gap + mac + rest)[0] == gap[0]
  {
    TrimRightBehind(gap + mac, rest);
  }

  /** A STATION BLOCK.  Whatever its lines are, in any order and with any other keys, the client has the MAC
      of the opening line in lower case and, for each of the four numbers, what the last line with that
      key says. */
  lemma BlockReads(pad: string, gap: string, mac: string, rest: string, ks: seq<KeyLine>)
    requires Blank(pad) && Gap(gap) && gap[0] == ' ' && Word(mac) && (rest == "" || IsSpace(rest[0]))
    requires forall k | k in ks :: k.WellFormed()
    ensures Stations([pad + ("Station" + (gap + mac + rest))] + LinesOf(ks))
         == [Client(ToLower(mac), "", "", IntOf(LastOf(ks, "signal")), UintOf(LastOf(ks, "connected time")),
                    UintOf(LastOf(ks, "rx bytes")), UintOf(LastOf(ks, "tx bytes")))]
  {
    var head := pad + ("Station" + (gap + mac + rest));
    HeadReads(pad, gap, mac, rest);
    forall l | l in LinesOf(ks) ensures !StationLine(l) {
      var i :| 0 <= i < |ks| && LinesOf(ks)[i] == l;
      NotStation(ks[i]);
    }
    StationBlock(head, LinesOf(ks));
    BlockNumbers(ToLower(mac), ks);
  }

  lemma BlockNumbers(mac: string, ks: seq<KeyLine>)
    requires forall k | k in ks :: k.WellFormed()
    ensures BlockClient(mac, LinesOf(ks))
         == Client(mac, "", "", IntOf(LastOf(ks, "signal")), UintOf(LastOf(ks, "connected time")),
                   UintOf(LastOf(ks, "rx bytes")), UintOf(LastOf(ks, "tx bytes")))
  {
    LastValueOf(ks, "signal");
    LastValueOf(ks, "connected time");
    LastValueOf(ks, "rx bytes");
    LastValueOf(ks, "tx bytes");
    TrimmedUint(LastOf(ks, "signal"));
    TrimmedUint(LastOf(ks, "connected time"));
    TrimmedUint(LastOf(ks, "rx bytes"));
    TrimmedUint(LastOf(ks, "tx bytes"));
  }

  /** A key, white space, a number, and perhaps a unit. */
  function NumberLine(key: string, number: string, unit: string): KeyLine {
    KeyLine("\t", key, "\t" + (number + unit))
  }

  predicate Unit(u: string) {
    u == "" || IsSpace(u[0])
  }

  /** The four lines of a block that the parser reads. */
  function NumberLines(rx: nat, tx: nat, signal: int, connected: nat, u: string, v: string): seq<KeyLine> {
    [NumberLine("rx bytes", Decimal(rx), ""), NumberLine("tx bytes", Decimal(tx), ""),
     NumberLine("signal", Signed(signal), u), NumberLine("connected time", Decimal(connected), v)]
  }

  lemma {:induction false} LastSkips(ks: seq<KeyLine>, k: KeyLine, key: string)
    ensures LastOf(ks + [k], key) == if k.key == key then Some(k.value) else LastOf(ks, key)
  {
    assert (ks + [k])[..|ks|] == ks;
  }

  lemma FourKeys(a: KeyLine, b: KeyLine, c: KeyLine, d: KeyLine)
    requires a.key != b.key && a.key != c.key && a.key != d.key && b.key != c.key && b.key != d.key && c.key != d.key
    ensures var ks := [a, b, c, d];
      && LastOf(ks, a.key) == Some(a.value) && LastOf(ks, b.key) == Some(b.value)
      && LastOf(ks, c.key) == Some(c.value) && LastOf(ks, d.key) == Some(d.value)
  {
    assert [a, b, c, d] == [a, b, c] + [d] && [a, b, c] == [a, b] + [c] && [a, b] == [a] + [b] && [a] == [] + [a];
    forall key | key in {a.key, b.key, c.key, d.key} ensures LastOf([a, b, c, d], key)
      == if d.key == key then Some(d.value) else if c.key == key then Some(c.value)
         else if b.key == key then Some(b.value) else Some(a.value)
    {
      LastSkips([a, b, c], d, key);
      LastSkips([a, b], c, key);
      LastSkips([a], b, key);
      LastSkips([], a, key);
    }
  }

  lemma KeyNames()
    ensures GoodKey("rx bytes") && GoodKey("tx bytes") && GoodKey("signal") && GoodKey("connected time")
    ensures "rx bytes"[0] == 'r' && "tx bytes"[0] == 't' && "signal"[0] == 's' && "connected time"[0] == 'c'
  {
    assert ("rx bytes" + ":")[0] == 'r' && ("tx bytes" + ":")[0] == 't' && ("signal" + ":")[0] == 's';
    assert ("connected time" + ":")[0] == 'c' && "Station "[0] == 'S';
  }

  lemma NumberKeys(rx: nat, tx: nat, signal: int, connected: nat, u: string, v: string)
    ensures var ks := NumberLines(rx, tx, signal, connected, u, v);
      && (forall k | k in ks :: k.WellFormed())
      && LastOf(ks, "rx bytes") == Some(ks[0].value) && LastOf(ks, "tx bytes") == Some(ks[1].value)
      && LastOf(ks, "signal") == Some(ks[2].value) && LastOf(ks, "connected time") == Some(ks[3].value)
  {
    var ks := NumberLines(rx, tx, signal, connected, u, v);
    KeyNames();
    FourKeys(ks[0], ks[1], ks[2], ks[3]);
  }

  /** A block with four numbers in decimal gives a client with exactly these numbers. */
  lemma NumbersRead(mac: string, rest: string, rx: nat, tx: nat, signal: int, connected: nat, u: string, v: string)
    requires Word(mac) && Unit(rest) && Unit(u) && Unit(v)
    requires rx <= 18446744073709551615 && tx <= 18446744073709551615 && connected <= 18446744073709551615
    requires -9223372036854775808 <= signal <= 9223372036854775807
    ensures Stations(["Station" + (" " + mac + rest)] + LinesOf(NumberLines(rx, tx, signal, connected, u, v)))
         == [Client(ToLower(mac), "", "", signal, connected, rx, tx)]
  {
    NumberKeys(rx, tx, signal, connected, u, v);
    BlockReads("", " ", mac, rest, NumberLines(rx, tx, signal, connected, u, v));
    assert "" + ("Station" + (" " + mac + rest)) == "Station" + (" " + mac + rest);
    UintReads("\t", rx, "");
    UintReads("\t", tx, "");
    IntReads("\t", signal, u);
    UintReads("\t", connected, v);
  }

  // ------------------------------------------------------------ the whole dump

  lemma DumpStepCR(d: Dump, line: string)
    ensures DumpStep(d, DropCR(line)) == DumpStep(d, line)
  {
    DropCRShorter(line);
  }

  lemma {:induction false} DumpStepsCR(d: Dump, lines: seq<string>)
    ensures DumpSteps(d, DropCRs(lines)) == DumpSteps(d, lines)
    decreases |lines|
  {
    if lines != [] {
      DumpStepCR(d, lines[0]);
      assert DropCRs(lines)[1..] == DropCRs(lines[1..]);
      DumpStepsCR(DumpStep(d, lines[0]), lines[1..]);
    }
  }

  /** The dump is read line by line, up to the first line of a megabyte. */
  lemma DumpReads(lines: seq<string>, long: string, rest: string)
    requires ShortLines(lines, 1048576) && '\n' !in long && ByteLen(long) >= 1048576
    ensures ParseDump(Unlines(lines)) == Stations(lines)
    ensures ParseDump(Unlines(lines) + (long + "\n" + rest)) == Stations(lines)
  {
    ScanUnlines(lines, DUMP_TOKEN);
    ScanStops(lines, long, rest, DUMP_TOKEN);
    DumpStepsCR(Dump([], None), lines);
  }
}
