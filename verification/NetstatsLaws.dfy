/** Which columns of /proc/net/dev the sampler reads, and what a tick publishes of them. */
module NetstatsLaws {
  import opened Wrappers
  import opened Text
  import opened Words
  import opened WordLaws
  import opened Netstats

  // ------------------------------------------------------------------ a line

  /** A name, a colon, and at least sixteen words, of which the first and the ninth are decimal numbers. */
  datatype DevRow = DevRow(pad: string, name: string, gap: string, lead: string, rx: nat, cells: seq<Cell>, tx: nat, rest: string) {
    predicate WellFormed() {
      && Blank(pad) && name != "" && Tight(name) && ':' !in name && Blank(gap)
      && Blank(lead) && Row(cells) && |cells| >= 15 && cells[7].word == Decimal(tx)
      && (rest == "" || IsSpace(rest[0])) && '\n' !in Line()
    }

    function Head(): string {
      pad + name + gap
    }

    function Numbers(): string {
      lead + (Decimal(rx) + (Laid(cells) + rest))
    }

    function Line(): string {
      Head() + ":" + Numbers()
    }
  }

  lemma {:induction false} RunOfDigits(s: string)
    requires forall i | 0 <= i < |s| :: IsDigit(s[i])
    ensures DigitRun(s) == |s|
  {
    if s != "" {
      RunOfDigits(s[1..]);
    }
  }

  lemma DecimalScans(n: nat)
    ensures ScanUint(Decimal(n)) == if n <= 18446744073709551615 then Some(n) else None
  {
    DecimalReads(n);
    RunOfDigits(Decimal(n));
    assert Decimal(n)[..|Decimal(n)|] == Decimal(n);
  }

  lemma {:induction false} TrimRightBlank(s: string, pad: string)
    requires Blank(pad) && (s == "" || !IsSpace(s[|s| - 1]))
    ensures TrimRight(s + pad) == s
    decreases |pad|
  {
    if pad == "" {
      assert s + pad == s;
    } else {
      assert (s + pad)[..|s + pad| - 1] == s + pad[..|pad| - 1];
      TrimRightBlank(s, pad[..|pad| - 1]);
    }
  }

  lemma NameReads(r: DevRow)
    requires r.WellFormed()
    ensures ':' !in r.Head() && TrimSpace(r.Head()) == r.name
  {
    assert r.Head() == r.pad + (r.name + r.gap);
    TrimLeftBlank(r.pad, r.name + r.gap);
    TrimRightBlank(r.name, r.gap);
  }

  lemma NumbersRead(r: DevRow)
    requires r.WellFormed()
    ensures Fields(r.Numbers()) == [Decimal(r.rx)] + (WordsOf(r.cells) + Fields(r.rest))
  {
    DecimalReads(r.rx);
    RowFront(r.cells, r.rest);
    FieldsFront(r.lead, Decimal(r.rx), Laid(r.cells) + r.rest);
    FieldsRow(r.cells, r.rest);
  }

  lemma ColumnsOf(r: DevRow)
    requires r.WellFormed()
    ensures var f := Fields(r.Numbers()); |f| >= 16 && f[0] == Decimal(r.rx) && f[8] == Decimal(r.tx)
  {
    NumbersRead(r);
    assert WordsOf(r.cells)[7] == r.cells[7].word;
  }

  lemma SplitAtColon(r: DevRow)
    requires r.WellFormed()
    ensures var l := r.Line(); var colon := IndexOf(l, ':');
      colon < |l| && l[..colon] == r.Head() && l[colon + 1..] == r.Numbers()
  {
    NameReads(r);
    FirstColon(r.Head(), r.Numbers());
    Slices(r.Head(), r.Numbers());
  }

  lemma Slices(a: string, b: string)
    ensures var l := a + ":" + b; |a| < |l| && l[..|a|] == a && l[|a| + 1..] == b
  {
  }

  /** The first column is the received bytes and the ninth the transmitted bytes. */
  lemma RowReads(r: DevRow)
    requires r.WellFormed()
    ensures DevLine(r.Line())
         == if r.rx <= 18446744073709551615 && r.tx <= 18446744073709551615
            then Some((r.name, Counters(r.rx, r.tx))) else None
  {
    SplitAtColon(r);
    NameReads(r);
    ColumnsOf(r);
    DecimalScans(r.rx);
    DecimalScans(r.tx);
  }

  // ---------------------------------------------------------------- the file

  lemma FieldsDropCR(s: string)
    ensures Fields(DropCR(s)) == Fields(s)
  {
    if s != "" && s[|s| - 1] == '\r' {
      FieldsDropsLast(s[..|s| - 1], '\r');
      assert s[..|s| - 1] + ['\r'] == s;
    }
  }

  lemma DevLineCR(l: string)
    ensures DevLine(DropCR(l)) == DevLine(l)
  {
    var d := DropCR(l);
    var colon := IndexOf(l, ':');
    if d != l {
      if colon < |l| {
        assert IndexOf(d, ':') == colon;
        assert d[..colon] == l[..colon] && d[colon + 1..] == DropCR(l[colon + 1..]);
        FieldsDropCR(l[colon + 1..]);
      } else {
        assert IndexOf(d, ':') == |d|;
      }
    }
  }

  predicate ShortLines(lines: seq<string>) {
    forall l | l in lines :: '\n' !in l && ByteLen(l) < 65536
  }

  lemma LineSnoc(lines: seq<string>, l: string, name: string)
    requires ShortLines(lines + [l])
    ensures CountersFor(Some(Unlines(lines + [l])), name)
         == if DevLine(l).Some? && DevLine(l).value.0 == name then Some(DevLine(l).value.1)
            else CountersFor(Some(Unlines(lines)), name)
  {
    ScanUnlines(lines + [l], DEV_TOKEN);
    assert ShortLines(lines) by {
      forall x | x in lines ensures x in lines + [l] {
      }
    }
    ScanUnlines(lines, DEV_TOKEN);
    DropCRsSnoc(lines, l);
    DevLineCR(l);
    var dropped := DropCRs(lines + [l]);
    assert dropped[..|dropped| - 1] == DropCRs(lines);
  }

  /** THE COUNTERS.  A line at the end of the file sets the counters of its interface to the numbers in its
      first and ninth columns, and changes nothing for any other. */
  lemma CountersWritten(lines: seq<string>, r: DevRow, name: string)
    requires r.WellFormed() && r.rx <= 18446744073709551615 && r.tx <= 18446744073709551615
    requires ShortLines(lines + [r.Line()])
    ensures CountersFor(Some(Unlines(lines + [r.Line()])), name)
         == if name == r.name then Some(Counters(r.rx, r.tx)) else CountersFor(Some(Unlines(lines)), name)
  {
    RowReads(r);
    LineSnoc(lines, r.Line(), name);
  }

  /** A line without a colon, or with fewer than sixteen words behind it, says nothing. */
  lemma LineSkipped(lines: seq<string>, l: string, name: string)
    requires ShortLines(lines + [l])
    requires var colon := IndexOf(l, ':'); colon == |l| || |Fields(l[colon + 1..])| < 16
    ensures CountersFor(Some(Unlines(lines + [l])), name) == CountersFor(Some(Unlines(lines)), name)
  {
    LineSnoc(lines, l, name);
  }

  /** From a line of 64 KB on the file is not read. */
  lemma FileCut(lines: seq<string>, long: string, rest: string, name: string)
    requires ShortLines(lines) && '\n' !in long && ByteLen(long) >= 65536
    ensures CountersFor(Some(Unlines(lines) + (long + "\n" + rest)), name) == CountersFor(Some(Unlines(lines)), name)
  {
    ScanStops(lines, long, rest, DEV_TOKEN);
    ScanUnlines(lines, DEV_TOKEN);
  }

  // ------------------------------------------------------------- publishing

  /** Megabits per second between two readings of a counter. */
  function Rate(before: nat, after: nat, elapsed: real): real {
    if elapsed > 0.0 && after >= before then (after - before) as real * 8.0 / 1000000.0 / elapsed else 0.0
  }

  lemma RateIs(before: nat, after: nat, from: real, to: real)
    ensures ComputeMbps(before, after, from, to) == Rate(before, after, to - from)
  {
  }

  /** The reading before the last one. */
  function ReadBefore(ticks: seq<Tick>, name: string): Option<Counters> {
    if |ticks| < 2 then None else CountersFor(ticks[|ticks| - 2].source, name)
  }

  function Elapsed(ticks: seq<Tick>): real
    requires ticks != []
  {
    if |ticks| < 2 then 0.0 else ticks[|ticks| - 1].now - ticks[|ticks| - 2].now
  }

  /** Totals are the reading itself, rates compare it with the one before; both are zero when a reading
      is missing. */
  predicate Shows(st: Stats, now: Option<Counters>, before: Option<Counters>, elapsed: real) {
    match now
    case None => st.rxTotal == 0 && st.txTotal == 0 && st.rxMbps == 0.0 && st.txMbps == 0.0
    case Some(c) =>
      && st.rxTotal == c.rx && st.txTotal == c.tx
      && match before
         case None => st.rxMbps == 0.0 && st.txMbps == 0.0
         case Some(b) => st.rxMbps == Rate(b.rx, c.rx, elapsed) && st.txMbps == Rate(b.tx, c.tx, elapsed)
  }

  lemma StatsShow(t: Tick, name: string, prev: Option<Tick>, st: Stats, read: Option<Counters>, elapsed: real)
    requires st == StatsOf(t, name, if prev.Some? then Some(SampleOf(prev.value, name)) else None)
    requires read == if prev.Some? then CountersFor(prev.value.source, name) else None
    requires elapsed == if prev.Some? then t.now - prev.value.now else 0.0
    ensures st.name == name && (st.up <==> name in t.operstate && t.operstate[name] == "up")
    ensures Shows(st, CountersFor(t.source, name), read, elapsed)
  {
    if prev.Some? && CountersFor(prev.value.source, name).Some? && CountersFor(t.source, name).Some? {
      BothRead(SampleOf(prev.value, name), SampleOf(t, name), elapsed);
    }
  }

  lemma BothRead(a: Sample, b: Sample, elapsed: real)
    requires elapsed == b.at - a.at
    ensures ComputeMbps(a.rx, b.rx, a.at, b.at) == Rate(a.rx, b.rx, elapsed)
    ensures ComputeMbps(a.tx, b.tx, a.at, b.at) == Rate(a.tx, b.tx, elapsed)
  {
    RateIs(a.rx, b.rx, a.at, b.at);
    RateIs(a.tx, b.tx, a.at, b.at);
  }

  lemma NextPublishes(ifaces: seq<string>, s: State, tick: Tick, name: string, before: Option<Tick>)
    requires name in ifaces && (before.Some? <==> name in s.prev)
    requires before.Some? ==> s.prev[name] == SampleOf(before.value, name)
    ensures var snap := Next(ifaces, s, tick).snap;
      && snap.at == tick.now && name in snap.interfaces
      && snap.interfaces[name] == StatsOf(tick, name, if before.Some? then Some(SampleOf(before.value, name)) else None)
  {
  }

  /** What the last tick of a run publishes about an interface. */
  lemma TickPublishes(ifaces: seq<string>, t: real, ticks: seq<Tick>, name: string)
    requires name in ifaces && ticks != []
    ensures name in After(ifaces, t, ticks).snap.interfaces
    ensures var last := ticks[|ticks| - 1];
      var snap := After(ifaces, t, ticks).snap;
      var st := snap.interfaces[name];
      && snap.at == last.now && st.name == name
      && (st.up <==> name in last.operstate && last.operstate[name] == "up")
      && Shows(st, CountersFor(last.source, name), ReadBefore(ticks, name), Elapsed(ticks))
  {
    var init, last := ticks[..|ticks| - 1], ticks[|ticks| - 1];
    var before := if init == [] then None else Some(init[|init| - 1]);
    AfterShape(ifaces, t, init, name);
    NextPublishes(ifaces, After(ifaces, t, init), last, name, before);
    StatsShow(last, name, before, After(ifaces, t, ticks).snap.interfaces[name], ReadBefore(ticks, name), Elapsed(ticks));
  }

  /** Before the first tick every interface is published down, with zeros. */
  lemma StartPublishes(ifaces: seq<string>, t: real, name: string)
    ensures name in After(ifaces, t, []).snap.interfaces <==> name in ifaces
    ensures name in ifaces ==> After(ifaces, t, []).snap.interfaces[name] == Stats(name, false, 0.0, 0.0, 0, 0)
  {
  }

  /** Two readings of an interface, laid out as in /proc/net/dev, and what the second tick publishes. */
  lemma TwoReadings(ifaces: seq<string>, t: real, ticks: seq<Tick>, r: DevRow, q: DevRow, above: seq<string>, over: seq<string>)
    requires r.WellFormed() && q.WellFormed() && q.name == r.name && r.name in ifaces && |ticks| >= 2
    requires r.rx <= 18446744073709551615 && r.tx <= 18446744073709551615
    requires q.rx <= 18446744073709551615 && q.tx <= 18446744073709551615
    requires ShortLines(above + [r.Line()]) && ShortLines(over + [q.Line()])
    requires ticks[|ticks| - 2].source == Some(Unlines(above + [r.Line()]))
    requires ticks[|ticks| - 1].source == Some(Unlines(over + [q.Line()]))
    ensures r.name in After(ifaces, t, ticks).snap.interfaces
    ensures Shows(After(ifaces, t, ticks).snap.interfaces[r.name], Some(Counters(q.rx, q.tx)),
                  Some(Counters(r.rx, r.tx)), ticks[|ticks| - 1].now - ticks[|ticks| - 2].now)
  {
    CountersWritten(above, r, r.name);
    CountersWritten(over, q, r.name);
    TickPublishes(ifaces, t, ticks, r.name);
  }
}
