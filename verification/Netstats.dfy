/** The interface throughput sampler (dashboard/internal/netstats/throughput.go).  Times are seconds and
    rates megabits per second, both as real numbers. */
module Netstats {
  import opened Wrappers
  import opened Text
  import opened Words

  // ------------------------------------------------------------ /proc/net/dev

  datatype Counters = Counters(rx: nat, tx: nat)

  function DigitRun(s: string): (k: nat)
    ensures k <= |s| && forall i | 0 <= i < k :: IsDigit(s[i])
  {
    if s == "" || !IsDigit(s[0]) then 0 else 1 + DigitRun(s[1..])
  }

  /** fmt.Sscanf(s, "%d", &n) into a uint64: the leading digits, if there are any and they fit. */
  function ScanUint(s: string): Option<nat> {
    var k := DigitRun(s);
    if k == 0 || Value(s[..k]) > MAX_UINT64 then None else Some(Value(s[..k]))
  }

  /** The interface and counters a line carries, if it is a valid one. */
  function DevLine(line: string): Option<(string, Counters)> {
    var colon := IndexOf(line, ':');
    if colon == |line| then None
    else
      var name := TrimSpace(line[..colon]);
      var fields := Fields(line[colon + 1..]);
      if name == "" || |fields| < 16 then None
      else
        var rx, tx := ScanUint(fields[0]), ScanUint(fields[8]);
        if rx.None? || tx.None? then None else Some((name, Counters(rx.value, tx.value)))
  }

  /** The counters of the last valid line about an interface. */
  function LastLine(lines: seq<string>, name: string): Option<Counters> {
    if lines == [] then None
    else
      var l := DevLine(lines[|lines| - 1]);
      if l.Some? && l.value.0 == name then Some(l.value.1) else LastLine(lines[..|lines| - 1], name)
  }

  const DEV_TOKEN: nat := 65536

  /** What a source reading says about an interface; a failed reading says nothing. */
  function CountersFor(source: Option<string>, name: string): Option<Counters> {
    if source.None? then None else LastLine(Scan(source.value, DEV_TOKEN).lines, name)
  }

  method ParseProcNetDev(raw: string) returns (out: map<string, Counters>)
    ensures forall name :: name in out <==> CountersFor(Some(raw), name).Some?
    ensures forall name | name in out :: CountersFor(Some(raw), name) == Some(out[name])
  {
    out := map[];
    var sc := Scan(raw, DEV_TOKEN);
    for i := 0 to |sc.lines|
      invariant forall name :: name in out <==> LastLine(sc.lines[..i], name).Some?
      invariant forall name | name in out :: LastLine(sc.lines[..i], name) == Some(out[name])
    {
      assert sc.lines[..i + 1][..i] == sc.lines[..i];
      var line := sc.lines[i];
      var colon := IndexOf(line, ':');
      if colon == |line| {
        continue;
      }
      var name := TrimSpace(line[..colon]);
      if name == "" {
        continue;
      }
      var fields := Fields(line[colon + 1..]);
      if |fields| < 16 {
        continue;
      }
      var rx := ScanUint(fields[0]);
      if rx.None? {
        continue;
      }
      var tx := ScanUint(fields[8]);
      if tx.None? {
        continue;
      }
      out := out[name := Counters(rx.value, tx.value)];
    }
    assert sc.lines[..|sc.lines|] == sc.lines;
  }

  // -------------------------------------------------------------------- a tick

  datatype Sample = Sample(rx: nat, tx: nat, at: real, present: bool)

  datatype Stats = Stats(name: string, up: bool, rxMbps: real, txMbps: real, rxTotal: nat, txTotal: nat)

  datatype Snapshot = Snapshot(at: real, interfaces: map<string, Stats>)

  /** The inputs of one tick: the clock, the source, and each interface's operstate. */
  datatype Tick = Tick(now: real, source: Option<string>, operstate: map<string, string>)

  function ComputeMbps(prevBytes: nat, curBytes: nat, prevAt: real, curAt: real): real {
    var elapsed := curAt - prevAt;
    if elapsed <= 0.0 then 0.0
    else if curBytes < prevBytes then 0.0
    else (curBytes - prevBytes) as real * 8.0 / 1000000.0 / elapsed
  }

  function SampleOf(t: Tick, name: string): Sample {
    match CountersFor(t.source, name)
    case Some(c) => Sample(c.rx, c.tx, t.now, true)
    case None => Sample(0, 0, t.now, false)
  }

  /** What a tick publishes about an interface whose previous sample was prev. */
  function StatsOf(t: Tick, name: string, prev: Option<Sample>): Stats {
    var cur := SampleOf(t, name);
    var rated := cur.present && prev.Some? && prev.value.present;
    Stats(name, name in t.operstate && t.operstate[name] == "up",
          if rated then ComputeMbps(prev.value.rx, cur.rx, prev.value.at, cur.at) else 0.0,
          if rated then ComputeMbps(prev.value.tx, cur.tx, prev.value.at, cur.at) else 0.0,
          cur.rx, cur.tx)
  }

  /** The collector's memory: the samples of the last tick and the published snapshot. */
  datatype State = State(prev: map<string, Sample>, snap: Snapshot)

  function Start(ifaces: seq<string>, t: real): State {
    State(map[], Snapshot(t, map name | name in ifaces :: Stats(name, false, 0.0, 0.0, 0, 0)))
  }

  function Next(ifaces: seq<string>, s: State, t: Tick): State {
    State(map name | name in ifaces :: SampleOf(t, name),
          Snapshot(t.now, map name | name in ifaces ::
            StatsOf(t, name, if name in s.prev then Some(s.prev[name]) else None)))
  }

  class Collector {
    const ifaces: seq<string>
    var prev: map<string, Sample>
    var snap: Snapshot

    constructor (ifaces: seq<string>, t: real)
      ensures this.ifaces == ifaces && State(prev, snap) == Start(ifaces, t)
    {
      this.ifaces := ifaces;
      prev := map[];
      snap := Start(ifaces, t).snap;
    }

    method DoTick(t: Tick)
      modifies this
      ensures State(prev, snap) == Next(ifaces, old(State(prev, snap)), t)
    {
      var current: map<string, Sample> := map[];
      if t.source.Some? {
        var parsed := ParseProcNetDev(t.source.value);
        for i := 0 to |ifaces|
          invariant forall name :: name in current <==> name in ifaces[..i]
          invariant forall name | name in current :: current[name] == SampleOf(t, name)
        {
          var name := ifaces[i];
          assert ifaces[..i + 1] == ifaces[..i] + [name];
          if name in parsed {
            current := current[name := Sample(parsed[name].rx, parsed[name].tx, t.now, true)];
          } else {
            current := current[name := Sample(0, 0, t.now, false)];
          }
        }
      } else {
        for i := 0 to |ifaces|
          invariant forall name :: name in current <==> name in ifaces[..i]
          invariant forall name | name in current :: current[name] == SampleOf(t, name)
        {
          assert ifaces[..i + 1] == ifaces[..i] + [ifaces[i]];
          current := current[ifaces[i] := Sample(0, 0, t.now, false)];
        }
      }
      assert ifaces[..|ifaces|] == ifaces;

      var published: map<string, Stats> := map[];
      for i := 0 to |ifaces|
        invariant prev == old(prev) && snap == old(snap)
        invariant forall name :: name in published <==> name in ifaces[..i]
        invariant forall name | name in published ::
          published[name] == StatsOf(t, name, if name in prev then Some(prev[name]) else None)
      {
        var name := ifaces[i];
        assert ifaces[..i + 1] == ifaces[..i] + [name];
        var cur := current[name];
        var stats := Stats(name, name in t.operstate && t.operstate[name] == "up", 0.0, 0.0, cur.rx, cur.tx);
        if cur.present && name in prev && prev[name].present {
          stats := stats.(rxMbps := ComputeMbps(prev[name].rx, cur.rx, prev[name].at, cur.at));
          stats := stats.(txMbps := ComputeMbps(prev[name].tx, cur.tx, prev[name].at, cur.at));
        }
        published := published[name := stats];
      }
      prev := current;
      snap := Snapshot(t.now, published);
    }
  }

  // ------------------------------------------------------------ conservation

  datatype Direction = Rx | Tx

  function Bytes(s: Sample, d: Direction): nat {
    if d.Rx? then s.rx else s.tx
  }

  function Mbps(s: Stats, d: Direction): real {
    if d.Rx? then s.rxMbps else s.txMbps
  }

  /** The state after a run of ticks. */
  function After(ifaces: seq<string>, t: real, ticks: seq<Tick>): State {
    if ticks == [] then Start(ifaces, t)
    else Next(ifaces, After(ifaces, t, ticks[..|ticks| - 1]), ticks[|ticks| - 1])
  }

  lemma AfterShape(ifaces: seq<string>, t: real, ticks: seq<Tick>, name: string)
    requires name in ifaces
    ensures name in After(ifaces, t, ticks).snap.interfaces
    ensures ticks == [] <==> name !in After(ifaces, t, ticks).prev
    ensures ticks != [] ==> After(ifaces, t, ticks).prev[name] == SampleOf(ticks[|ticks| - 1], name)
  {
  }

  /** The bytes that go by at a rate in megabits per second. */
  function Moved(mbps: real, elapsed: real): real {
    mbps * elapsed * 1000000.0 / 8.0
  }

  /** Bytes that the published rates account for: rate times elapsed time, summed over the run. */
  function Accounted(ifaces: seq<string>, t: real, ticks: seq<Tick>, name: string, d: Direction): real
    requires name in ifaces
  {
    if |ticks| < 2 then 0.0
    else
      AfterShape(ifaces, t, ticks, name);
      var init, last := ticks[..|ticks| - 1], ticks[|ticks| - 1];
      Accounted(ifaces, t, init, name, d)
      + Moved(Mbps(After(ifaces, t, ticks).snap.interfaces[name], d), last.now - init[|init| - 1].now)
  }

  /** The increase of a counter between two ticks that both saw it, when time moved on and it did not fall. */
  function Increase(before: Sample, after: Sample, d: Direction): nat {
    if before.present && after.present && after.at > before.at && Bytes(after, d) >= Bytes(before, d)
    then Bytes(after, d) - Bytes(before, d) else 0
  }

  function Counted(ticks: seq<Tick>, name: string, d: Direction): nat {
    if |ticks| < 2 then 0
    else
      var init, last := ticks[..|ticks| - 1], ticks[|ticks| - 1];
      Counted(init, name, d) + Increase(SampleOf(init[|init| - 1], name), SampleOf(last, name), d)
  }

  lemma RateTimesTime(delta: real, elapsed: real)
    requires elapsed > 0.0
    ensures (delta * 8.0 / 1000000.0 / elapsed) * elapsed * 1000000.0 / 8.0 == delta
  {
    var x := delta * 8.0 / 1000000.0;
    assert (x / elapsed) * elapsed == x;
  }

  function RateOf(before: Sample, after: Sample, d: Direction): real {
    if before.present && after.present
    then ComputeMbps(Bytes(before, d), Bytes(after, d), before.at, after.at) else 0.0
  }

  /** The rate the last of two or more ticks publishes depends on the last two samples only. */
  lemma LastRate(ifaces: seq<string>, t: real, ticks: seq<Tick>, name: string, d: Direction)
    requires name in ifaces && |ticks| >= 2
    ensures name in After(ifaces, t, ticks).snap.interfaces
    ensures Mbps(After(ifaces, t, ticks).snap.interfaces[name], d)
         == RateOf(SampleOf(ticks[|ticks| - 2], name), SampleOf(ticks[|ticks| - 1], name), d)
  {
    AfterShape(ifaces, t, ticks[..|ticks| - 1], name);
  }

  lemma OneRate(before: Sample, after: Sample, d: Direction)
    ensures Moved(RateOf(before, after, d), after.at - before.at) == Increase(before, after, d) as real
  {
    if before.present && after.present && after.at > before.at && Bytes(after, d) >= Bytes(before, d) {
      RateTimesTime((Bytes(after, d) - Bytes(before, d)) as real, after.at - before.at);
    }
  }

  lemma AccountedAdds(ifaces: seq<string>, t: real, ticks: seq<Tick>, name: string, d: Direction)
    requires name in ifaces && |ticks| >= 2
    ensures name in After(ifaces, t, ticks).snap.interfaces
    ensures Accounted(ifaces, t, ticks, name, d)
         == Accounted(ifaces, t, ticks[..|ticks| - 1], name, d)
          + Moved(Mbps(After(ifaces, t, ticks).snap.interfaces[name], d),
                  ticks[|ticks| - 1].now - ticks[|ticks| - 2].now)
  {
    AfterShape(ifaces, t, ticks, name);
  }

  lemma AccountedLast(ifaces: seq<string>, t: real, ticks: seq<Tick>, name: string, d: Direction)
    requires name in ifaces && |ticks| >= 2
    ensures Accounted(ifaces, t, ticks, name, d)
         == Accounted(ifaces, t, ticks[..|ticks| - 1], name, d)
          + Increase(SampleOf(ticks[|ticks| - 2], name), SampleOf(ticks[|ticks| - 1], name), d) as real
  {
    AccountedAdds(ifaces, t, ticks, name, d);
    LastRate(ifaces, t, ticks, name, d);
    OneRate(SampleOf(ticks[|ticks| - 2], name), SampleOf(ticks[|ticks| - 1], name), d);
  }

  lemma CountedLast(ticks: seq<Tick>, name: string, d: Direction)
    requires |ticks| >= 2
    ensures Counted(ticks, name, d)
         == Counted(ticks[..|ticks| - 1], name, d)
          + Increase(SampleOf(ticks[|ticks| - 2], name), SampleOf(ticks[|ticks| - 1], name), d)
  {
    var init := ticks[..|ticks| - 1];
    assert init[|init| - 1] == ticks[|ticks| - 2];
  }

  /** CONSERVATION.  Over any run of ticks, with any readings, absences, resets and clock, the bytes
      that the published rates account for are exactly the counted increases. */
  lemma {:induction false} RatesConserveBytes(ifaces: seq<string>, t: real, ticks: seq<Tick>, name: string, d: Direction)
    requires name in ifaces
    ensures Accounted(ifaces, t, ticks, name, d) == Counted(ticks, name, d) as real
  {
    if |ticks| >= 2 {
      var init := ticks[..|ticks| - 1];
      RatesConserveBytes(ifaces, t, init, name, d);
      AccountedLast(ifaces, t, ticks, name, d);
      CountedLast(ticks, name, d);
    }
  }

  /** TELESCOPING.  For an interface that stays present with counters that never fall, under a strictly
      increasing clock, the rates account for exactly the last counter minus the first. */
  lemma {:induction false} RatesTelescope(ifaces: seq<string>, t: real, ticks: seq<Tick>, name: string, d: Direction)
    requires name in ifaces && ticks != []
    requires forall k | 0 <= k < |ticks| :: SampleOf(ticks[k], name).present
    requires forall k | 0 <= k < |ticks| - 1 ::
      && ticks[k].now < ticks[k + 1].now
      && Bytes(SampleOf(ticks[k], name), d) <= Bytes(SampleOf(ticks[k + 1], name), d)
    ensures Accounted(ifaces, t, ticks, name, d)
         == (Bytes(SampleOf(ticks[|ticks| - 1], name), d) - Bytes(SampleOf(ticks[0], name), d)) as real
  {
    RatesConserveBytes(ifaces, t, ticks, name, d);
    CountedTelescopes(ticks, name, d);
  }

  lemma {:induction false} CountedTelescopes(ticks: seq<Tick>, name: string, d: Direction)
    requires ticks != []
    requires forall k | 0 <= k < |ticks| :: SampleOf(ticks[k], name).present
    requires forall k | 0 <= k < |ticks| - 1 ::
      && ticks[k].now < ticks[k + 1].now
      && Bytes(SampleOf(ticks[k], name), d) <= Bytes(SampleOf(ticks[k + 1], name), d)
    ensures Bytes(SampleOf(ticks[0], name), d) + Counted(ticks, name, d) == Bytes(SampleOf(ticks[|ticks| - 1], name), d)
  {
    if |ticks| >= 2 {
      var init := ticks[..|ticks| - 1];
      CountedTelescopes(init, name, d);
      assert ticks[|ticks| - 2].now < ticks[|ticks| - 2 + 1].now;
    }
  }
}
