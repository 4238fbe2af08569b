/** The two parsers behind the hotspot view: `iw ... station dump` (clients.go) and the dnsmasq lease
    file (leases.go) of dashboard/internal/hotspot. */
module HotspotText {
  import opened Wrappers
  import opened Text
  import opened Words

  // ----------------------------------------------------------------- numbers

  /** parseUint: the first word as a 64-bit unsigned decimal, 0 when it is not one. */
  function ParseUint(s: string): (n: nat)
    ensures n <= MAX_UINT64
  {
    var fields := Fields(s);
    if fields != [] && AllDigits(fields[0]) && Value(fields[0]) <= MAX_UINT64 then Value(fields[0]) else 0
  }

  /** parseFirstInt: the first word as a signed 64-bit decimal, 0 when it is not one. */
  function ParseFirstInt(s: string): (n: int)
    ensures -0x8000_0000_0000_0000 <= n <= 0x7FFF_FFFF_FFFF_FFFF
  {
    var fields := Fields(s);
    if fields == [] then 0
    else
      var f := fields[0];
      var signed := f != "" && (f[0] == '-' || f[0] == '+');
      var digits := if signed then f[1..] else f;
      if !AllDigits(digits) then 0
      else
        var v: int := Value(digits);
        var n := if signed && f[0] == '-' then -v else v;
        if -0x8000_0000_0000_0000 <= n <= 0x7FFF_FFFF_FFFF_FFFF then n else 0
  }

  // ---------------------------------------------------------------- stations

  datatype Client = Client(
    mac: string, ip: string, hostname: string,
    signalDBm: int, connectedSeconds: nat, rxBytes: nat, txBytes: nat)

  function NewClient(mac: string): Client {
    Client(mac, "", "", 0, 0, 0, 0)
  }

  function SplitKeyValue(line: string): Option<(string, string)> {
    var idx := IndexOf(line, ':');
    if idx == |line| then None else Some((TrimSpace(line[..idx]), TrimSpace(line[idx + 1..])))
  }

  predicate StationLine(line: string) {
    HasPrefix(TrimSpace(line), "Station ")
  }

  /** The effect of a line inside a station's block. */
  function Update(c: Client, trimmed: string): Client {
    match SplitKeyValue(trimmed)
    case None => c
    case Some((key, value)) =>
      if key == "rx bytes" then c.(rxBytes := ParseUint(value))
      else if key == "tx bytes" then c.(txBytes := ParseUint(value))
      else if key == "signal" then c.(signalDBm := ParseFirstInt(value))
      else if key == "connected time" then c.(connectedSeconds := ParseUint(value))
      else c
  }

  /** The finished clients and the pending one. */
  datatype Dump = Dump(clients: seq<Client>, cur: Option<Client>) {
    function Flush(): seq<Client> {
      clients + if cur.Some? then [cur.value] else []
    }
  }

  function DumpStep(d: Dump, line: string): Dump {
    var trimmed := TrimSpace(line);
    if trimmed == "" then d
    else if HasPrefix(trimmed, "Station ") then
      var fields := Fields(trimmed);
      Dump(d.Flush(), if |fields| < 2 then None else Some(NewClient(ToLower(fields[1]))))
    else if d.cur.None? then d
    else d.(cur := Some(Update(d.cur.value, trimmed)))
  }

  function DumpSteps(d: Dump, lines: seq<string>): Dump
    decreases |lines|
  {
    if lines == [] then d else DumpSteps(DumpStep(d, lines[0]), lines[1..])
  }

  function Stations(lines: seq<string>): seq<Client> {
    DumpSteps(Dump([], None), lines).Flush()
  }

  /** The buffer parseStationDump gives its scanner. */
  const DUMP_TOKEN: nat := 1024 * 1024

  function ParseDump(raw: string): seq<Client> {
    Stations(Scan(raw, DUMP_TOKEN).lines)
  }

  lemma {:induction false} DumpStepsAppend(d: Dump, a: seq<string>, b: seq<string>)
    ensures DumpSteps(d, a + b) == DumpSteps(DumpSteps(d, a), b)
    decreases |a|
  {
    if a == [] {
      assert a + b == b;
    } else {
      assert (a + b)[1..] == a[1..] + b;
      DumpStepsAppend(DumpStep(d, a[0]), a[1..], b);
    }
  }

  /** parseStationDump, with its pending record. */
  method ParseStationDump(raw: string) returns (clients: seq<Client>)
    ensures clients == ParseDump(raw)
  {
    var cur: Option<Client> := None;
    clients := [];
    var sc := Scan(raw, DUMP_TOKEN);
    for i := 0 to |sc.lines|
      invariant Dump(clients, cur) == DumpSteps(Dump([], None), sc.lines[..i])
    {
      DumpStepsAppend(Dump([], None), sc.lines[..i], [sc.lines[i]]);
      assert sc.lines[..i] + [sc.lines[i]] == sc.lines[..i + 1];
      var trimmed := TrimSpace(sc.lines[i]);
      if trimmed == "" {
        continue;
      }
      if HasPrefix(trimmed, "Station ") {
        if cur.Some? {
          clients := clients + [cur.value];
          cur := None;
        }
        var fields := Fields(trimmed);
        if |fields| < 2 {
          continue;
        }
        cur := Some(NewClient(ToLower(fields[1])));
        continue;
      }
      if cur.None? {
        continue;
      }
      cur := Some(Update(cur.value, trimmed));
    }
    assert sc.lines[..|sc.lines|] == sc.lines;
    if cur.Some? {
      clients := clients + [cur.value];
    }
  }

  /** A trimmed line that starts with "Station " always has a second word, so the short-line test of
      the source never fires. */
  lemma StationLineHasMac(line: string)
    requires StationLine(line)
    ensures |Fields(TrimSpace(line))| >= 2 && Fields(TrimSpace(line))[0] == "Station"
  {
    var t := TrimSpace(line);
    TrimSpaceTight(line);
    var rest := t[7..];
    WordOf("Station", t);
    assert t[..7] == "Station" && t[7] == ' ';
    assert rest[|rest| - 1] == t[|t| - 1];
    SomeWord(rest);
    assert TrimLeft(t) == t;
  }

  /** What was parsed before a Station line does not influence what follows it. */
  lemma {:induction false} DumpPrefix(done: seq<Client>, d: Dump, lines: seq<string>)
    ensures DumpSteps(Dump(done + d.clients, d.cur), lines)
         == Dump(done + DumpSteps(d, lines).clients, DumpSteps(d, lines).cur)
    decreases |lines|
  {
    if lines != [] {
      var d' := DumpStep(d, lines[0]);
      assert DumpStep(Dump(done + d.clients, d.cur), lines[0]) == Dump(done + d'.clients, d'.cur) by {
        Assoc(done, d.clients, if d.cur.Some? then [d.cur.value] else []);
      }
      DumpPrefix(done, d', lines[1..]);
    }
  }

  /** HOMOMORPHISM over station blocks. */
  lemma StationsAppend(a: seq<string>, b: seq<string>)
    requires b != [] && StationLine(b[0])
    ensures Stations(a + b) == Stations(a) + Stations(b)
  {
    var start := Dump([], None);
    var d := DumpSteps(start, a);
    DumpStepsAppend(start, a, b);
    var open := DumpStep(start, b[0]);
    assert open.clients == [];
    assert DumpStep(d, b[0]) == Dump(d.Flush() + open.clients, open.cur);
    DumpPrefix(d.Flush(), open, b[1..]);
    var e := DumpSteps(open, b[1..]);
    Assoc(d.Flush(), e.clients, if e.cur.Some? then [e.cur.value] else []);
  }

  function CountStations(lines: seq<string>): nat {
    if lines == [] then 0 else (if StationLine(lines[0]) then 1 else 0) + CountStations(lines[1..])
  }

  /** One client per Station line: none lost, none invented. */
  lemma {:induction false} OneClientPerStation(d: Dump, lines: seq<string>)
    ensures |DumpSteps(d, lines).Flush()| == |d.Flush()| + CountStations(lines)
    decreases |lines|
  {
    if lines != [] {
      if StationLine(lines[0]) { StationLineHasMac(lines[0]); }
      OneClientPerStation(DumpStep(d, lines[0]), lines[1..]);
    }
  }

  /** The value of the last line of a block that carries the key. */
  function LastValue(lines: seq<string>, key: string): Option<string> {
    if lines == [] then None
    else
      var kv := SplitKeyValue(TrimSpace(lines[|lines| - 1]));
      if kv.Some? && kv.value.0 == key then Some(kv.value.1) else LastValue(lines[..|lines| - 1], key)
  }

  function UintOr0(v: Option<string>): nat {
    if v.Some? then ParseUint(v.value) else 0
  }

  /** The client a block describes: for each field, the last line that carries its key. */
  function BlockClient(mac: string, body: seq<string>): Client {
    Client(mac, "", "",
           if LastValue(body, "signal").Some? then ParseFirstInt(LastValue(body, "signal").value) else 0,
           UintOr0(LastValue(body, "connected time")),
           UintOr0(LastValue(body, "rx bytes")),
           UintOr0(LastValue(body, "tx bytes")))
  }

  lemma UpdateIsLast(mac: string, init: seq<string>, last: string)
    ensures Update(BlockClient(mac, init), TrimSpace(last)) == BlockClient(mac, init + [last])
  {
    var body := init + [last];
    assert body[|body| - 1] == last && body[..|body| - 1] == init;
  }

  /** BLOCKS.  A block is read field by field, the last line of each key winning. */
  lemma {:induction false} StationBlock(head: string, body: seq<string>)
    requires StationLine(head) && forall l | l in body :: !StationLine(l)
    ensures |Fields(TrimSpace(head))| >= 2
    ensures var c := BlockClient(ToLower(Fields(TrimSpace(head))[1]), body);
            DumpSteps(Dump([], None), [head] + body) == Dump([], Some(c)) && Stations([head] + body) == [c]
    decreases |body|
  {
    StationLineHasMac(head);
    var start := Dump([], None);
    if body == [] {
      assert [head] + body == [head];
      assert DumpSteps(start, [head]) == DumpStep(start, head);
    } else {
      var init, last := body[..|body| - 1], body[|body| - 1];
      var mac := ToLower(Fields(TrimSpace(head))[1]);
      StationBlock(head, init);
      assert [head] + body == ([head] + init) + [last];
      assert body == init + [last] && last in body;
      DumpStepsAppend(start, [head] + init, [last]);
      UpdateIsLast(mac, init, last);
      assert TrimSpace(last) == "" ==> SplitKeyValue(TrimSpace(last)).None?;
      var pending := Dump([], Some(BlockClient(mac, init)));
      assert DumpSteps(pending, [last]) == DumpStep(pending, last);
    }
  }

  // ------------------------------------------------------------------ leases

  datatype Lease = Lease(ip: string, hostname: string)

  /** The MAC and entry a line of the lease file carries, if it is a valid one. */
  function LeaseLine(raw: string): Option<(string, Lease)> {
    var line := TrimSpace(raw);
    var fields := Fields(line);
    if line == "" || HasPrefix(line, "#") || |fields| < 4 then None
    else Some((ToLower(fields[1]), Lease(fields[2], if fields[3] == "*" then "" else fields[3])))
  }

  /** The entry of the last valid line for a MAC. */
  function LastLease(lines: seq<string>, mac: string): Option<Lease> {
    if lines == [] then None
    else
      var l := LeaseLine(lines[|lines| - 1]);
      if l.Some? && l.value.0 == mac then Some(l.value.1) else LastLease(lines[..|lines| - 1], mac)
  }

  const LEASE_TOKEN: nat := 65536

  function LeaseFor(raw: string, mac: string): Option<Lease> {
    LastLease(Scan(raw, LEASE_TOKEN).lines, mac)
  }

  /** parseLeases: the map holds, for every MAC, what the last valid line about it says. */
  method ParseLeases(raw: string) returns (out: map<string, Lease>)
    ensures forall mac :: mac in out <==> LeaseFor(raw, mac).Some?
    ensures forall mac | mac in out :: LeaseFor(raw, mac) == Some(out[mac])
  {
    out := map[];
    var sc := Scan(raw, LEASE_TOKEN);
    for i := 0 to |sc.lines|
      invariant forall mac :: mac in out <==> LastLease(sc.lines[..i], mac).Some?
      invariant forall mac | mac in out :: LastLease(sc.lines[..i], mac) == Some(out[mac])
    {
      assert sc.lines[..i + 1][..i] == sc.lines[..i];
      var line := TrimSpace(sc.lines[i]);
      if line == "" || HasPrefix(line, "#") {
        continue;
      }
      var fields := Fields(line);
      if |fields| < 4 {
        continue;
      }
      var mac := ToLower(fields[1]);
      var ip := fields[2];
      var hostname := fields[3];
      if hostname == "*" {
        hostname := "";
      }
      out := out[mac := Lease(ip, hostname)];
    }
    assert sc.lines[..|sc.lines|] == sc.lines;
  }
}
