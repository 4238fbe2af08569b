/** Runs of the network list on disk, against an insertion-ordered map. */
module WifiRuns {
  import opened Wrappers
  import opened Text
  import opened GoQuote
  import opened WifiConfig
  import opened WifiLaws
  import opened WifiStore

  datatype Call = Call(op: Op, io: Io)

  /** A serial run: the bytes it ends with and the replies it gave. */
  function Run(printable: Table, disk: Disk, calls: seq<Call>): (Disk, seq<Reply>)
    decreases |calls|
  {
    if calls == [] then (disk, [])
    else
      var (disk1, reply) := Exec(printable, disk, calls[0].op, calls[0].io);
      var (disk2, replies) := Run(printable, disk1, calls[1..]);
      (disk2, [reply] + replies)
  }

  // --------------------------------------------------- the map it implements

  /** Keys in insertion order, and the value of each. */
  datatype OrderedMap = OrderedMap(keys: seq<string>, vals: map<string, string>) {
    predicate WellFormed() {
      && (forall i, j | 0 <= i < j < |keys| :: keys[i] != keys[j])
      && (forall k | k in keys :: k in vals)
      && (forall k | k in vals :: k in keys)
    }

    function Entries(): (r: seq<Network>)
      requires WellFormed()
      ensures |r| == |keys|
    {
      EntriesOf(keys, vals)
    }

    function Insert(k: string, v: string): OrderedMap {
      OrderedMap(keys + [k], vals[k := v])
    }

    function Delete(k: string): OrderedMap {
      OrderedMap(Others(keys, k), vals - {k})
    }
  }

  function EntriesOf(keys: seq<string>, vals: map<string, string>): (r: seq<Network>)
    requires forall k | k in keys :: k in vals
    ensures |r| == |keys|
    ensures forall i | 0 <= i < |r| :: r[i] == Network(keys[i], vals[keys[i]])
  {
    seq(|keys|, i requires 0 <= i < |keys| => Network(keys[i], vals[keys[i]]))
  }

  function Others(keys: seq<string>, k: string): seq<string> {
    if keys == [] then [] else (if keys[0] == k then [] else [keys[0]]) + Others(keys[1..], k)
  }

  /** The specification of one call: no file, no text. */
  function MapExec(m: OrderedMap, op: Op, io: Io): (OrderedMap, Reply)
    requires m.WellFormed()
  {
    if op.Add? && AddProblem(op.ssid, op.psk).Some? then (m, Refused(AddProblem(op.ssid, op.psk).value))
    else if !io.readOk then (m, Refused(ReadFailed))
    else match op
      case List => (m, Listed(m.Entries()))
      case Add(ssid, psk) =>
        if ssid in m.vals then (m, Refused(AlreadyExists(ssid))) else Store(m, m.Insert(ssid, psk), io)
      case Remove(ssid) =>
        if ssid !in m.vals then (m, Refused(NotFound(ssid))) else Store(m, m.Delete(ssid), io)
  }

  function Store(before: OrderedMap, after: OrderedMap, io: Io): (OrderedMap, Reply) {
    if !io.writeOk then (before, Refused(WriteFailed))
    else if !io.renameOk then (before, Refused(RenameFailed))
    else (after, Done)
  }

  lemma {:induction false} OthersMeans(keys: seq<string>, k: string)
    requires forall i, j | 0 <= i < j < |keys| :: keys[i] != keys[j]
    ensures forall x :: x in Others(keys, k) <==> x in keys && x != k
    ensures forall i, j | 0 <= i < j < |Others(keys, k)| :: Others(keys, k)[i] != Others(keys, k)[j]
  {
    if keys != [] {
      OthersMeans(keys[1..], k);
      assert keys == [keys[0]] + keys[1..];
      assert keys[0] !in keys[1..];
    }
  }

  lemma InsertWellFormed(m: OrderedMap, k: string, v: string)
    requires m.WellFormed() && k !in m.vals
    ensures m.Insert(k, v).WellFormed()
    ensures m.Insert(k, v).Entries() == m.Entries() + [Network(k, v)]
  {
    var m' := m.Insert(k, v);
    forall x ensures x in m'.keys <==> x in m'.vals {
      assert x in m'.keys <==> x in m.keys || x == k;
    }
  }

  lemma DeleteWellFormed(m: OrderedMap, k: string)
    requires m.WellFormed()
    ensures m.Delete(k).WellFormed()
    ensures m.Delete(k).Entries() == Without(m.Entries(), k)
  {
    OthersMeans(m.keys, k);
    DeleteEntries(m.keys, m.vals, k);
    SameEntries(Others(m.keys, k), m.vals, m.vals - {k});
  }

  lemma SameEntries(keys: seq<string>, v: map<string, string>, w: map<string, string>)
    requires forall k | k in keys :: k in v && k in w && v[k] == w[k]
    ensures EntriesOf(keys, v) == EntriesOf(keys, w)
  {
    forall i | 0 <= i < |keys| ensures EntriesOf(keys, v)[i] == EntriesOf(keys, w)[i] {
      assert keys[i] in keys;
    }
  }

  lemma {:induction false} DeleteEntries(keys: seq<string>, vals: map<string, string>, k: string)
    requires forall x | x in keys :: x in vals
    ensures forall x | x in Others(keys, k) :: x in vals
    ensures EntriesOf(Others(keys, k), vals) == Without(EntriesOf(keys, vals), k)
  {
    if keys != [] {
      DeleteEntries(keys[1..], vals, k);
      assert EntriesOf(keys, vals) == [Network(keys[0], vals[keys[0]])] + EntriesOf(keys[1..], vals);
      if keys[0] == k {
        assert Others(keys, k) == Others(keys[1..], k);
      } else {
        assert EntriesOf(Others(keys, k), vals)
            == [Network(keys[0], vals[keys[0]])] + EntriesOf(Others(keys[1..], k), vals);
      }
    }
  }

  lemma EntriesContain(m: OrderedMap, k: string)
    requires m.WellFormed()
    ensures Contains(m.Entries(), k) <==> k in m.vals
  {
    if k in m.vals {
      var i :| 0 <= i < |m.keys| && m.keys[i] == k;
      assert m.Entries()[i] in m.Entries();
    }
    if Contains(m.Entries(), k) {
      var n :| n in m.Entries() && n.ssid == k;
      assert k in m.keys;
    }
  }

  // -------------------------------------------------------------- refinement

  /** The bytes on disk are a readable file showing exactly the entries of m, all of them plain. */
  ghost predicate Shows(printable: Table, disk: Disk, m: OrderedMap) {
    && disk.config.Some? && m.WellFormed()
    && var p := ParseText(disk.config.value);
       && !p.failed && p.networks == m.Entries()
       && AllPlain(printable, p.networks) && AllFit(printable, p.networks)
  }

  /** Arguments the file format can carry unchanged. */
  predicate PlainCall(printable: Table, call: Call) {
    call.op.Add? ==>
      var n := Network(call.op.ssid, call.op.psk);
      PlainNetwork(printable, n) && Fits(printable, n)
  }

  lemma CommitShows(printable: Table, disk: Disk, header: string, m: OrderedMap, m': OrderedMap, io: Io)
    requires Shows(printable, disk, m) && ValidHeader(header)
    requires m'.WellFormed() && Named(m'.Entries())
    requires AllPlain(printable, m'.Entries()) && AllFit(printable, m'.Entries())
    ensures var (disk', reply) := Commit(disk, Print(printable, header, m'.Entries()), io);
            var (m'', reply') := Store(m, m', io);
            reply == reply' && Shows(printable, disk', m'')
  {
    PrintParse(printable, header, m'.Entries());
    VolumeGrows(printable, m'.Entries());
  }

  /** One call on the bytes does what it does on the map. */
  lemma ExecRefines(printable: Table, disk: Disk, m: OrderedMap, call: Call)
    requires Shows(printable, disk, m) && PlainCall(printable, call)
    ensures var (disk', reply) := Exec(printable, disk, call.op, call.io);
            var (m', reply') := MapExec(m, call.op, call.io);
            reply == reply' && Shows(printable, disk', m')
  {
    var p := ParseText(disk.config.value);
    ParsedOk(disk.config.value);
    match call.op
    case List =>
    case Add(ssid, psk) =>
      EntriesContain(m, ssid);
      if AddProblem(ssid, psk).None? && call.io.readOk && ssid !in m.vals {
        InsertWellFormed(m, ssid, psk);
        CommitShows(printable, disk, p.header, m, m.Insert(ssid, psk), call.io);
      }
    case Remove(ssid) =>
      EntriesContain(m, ssid);
      if call.io.readOk && ssid in m.vals {
        DeleteWellFormed(m, ssid);
        WithoutMeans(m.Entries(), ssid);
        CommitShows(printable, disk, p.header, m, m.Delete(ssid), call.io);
      }
  }

  function MapRun(m: OrderedMap, calls: seq<Call>): (r: (OrderedMap, seq<Reply>))
    requires m.WellFormed()
    ensures r.0.WellFormed()
    decreases |calls|
  {
    if calls == [] then (m, [])
    else
      MapExecWellFormed(m, calls[0]);
      var (m1, reply) := MapExec(m, calls[0].op, calls[0].io);
      var (m2, replies) := MapRun(m1, calls[1..]);
      (m2, [reply] + replies)
  }

  lemma MapExecWellFormed(m: OrderedMap, call: Call)
    requires m.WellFormed()
    ensures MapExec(m, call.op, call.io).0.WellFormed()
  {
    match call.op
    case List =>
    case Add(ssid, psk) => if ssid !in m.vals { InsertWellFormed(m, ssid, psk); }
    case Remove(ssid) => DeleteWellFormed(m, ssid);
  }

  /** REFINEMENT.  Every serial run with plain arguments, under every pattern of I/O failures, gives
      the replies of the ordered map, and the bytes it leaves show exactly the final map. */
  lemma {:induction false} RunRefines(printable: Table, disk: Disk, m: OrderedMap, calls: seq<Call>)
    requires Shows(printable, disk, m) && forall c | c in calls :: PlainCall(printable, c)
    ensures Run(printable, disk, calls).1 == MapRun(m, calls).1
    ensures Shows(printable, Run(printable, disk, calls).0, MapRun(m, calls).0)
    decreases |calls|
  {
    if calls != [] {
      ExecRefines(printable, disk, m, calls[0]);
      RunRefines(printable, Exec(printable, disk, calls[0].op, calls[0].io).0,
                 MapExec(m, calls[0].op, calls[0].io).0, calls[1..]);
    }
  }

  /** One call adds no network but its own, and that one has a PSK of 8 to 63 bytes. */
  lemma MapAdds(m: OrderedMap, call: Call)
    requires m.WellFormed()
    ensures var m' := MapExec(m, call.op, call.io).0;
      m'.WellFormed() && forall n | n in m'.Entries() :: n in m.Entries() || 8 <= ByteLen(n.psk) <= 63
  {
    match call.op
    case List =>
    case Add(ssid, psk) => if ssid !in m.vals { InsertWellFormed(m, ssid, psk); }
    case Remove(ssid) =>
      DeleteWellFormed(m, ssid);
      WithoutMeans(m.Entries(), ssid);
  }

  /** WPA passwords: every network listed after a run was there before it or has a PSK of 8 to 63 bytes. */
  lemma {:induction false} AddedPasswordLength(printable: Table, disk: Disk, m: OrderedMap, calls: seq<Call>)
    requires Shows(printable, disk, m) && forall c | c in calls :: PlainCall(printable, c)
    ensures Run(printable, disk, calls).0.config.Some?
    ensures forall n | n in ParseText(Run(printable, disk, calls).0.config.value).networks ::
              n in m.Entries() || 8 <= ByteLen(n.psk) <= 63
    decreases |calls|
  {
    RunRefines(printable, disk, m, calls);
    if calls != [] {
      var call := calls[0];
      var disk1, m1 := Exec(printable, disk, call.op, call.io).0, MapExec(m, call.op, call.io).0;
      ExecRefines(printable, disk, m, call);
      MapAdds(m, call);
      AddedPasswordLength(printable, disk1, m1, calls[1..]);
    }
  }

  // -------------------------------------------------------------- the header

  /** No prefix of the run empties the list. */
  predicate NeverEmpty(m: OrderedMap, calls: seq<Call>)
    requires m.WellFormed()
    decreases |calls|
  {
    m.keys != [] &&
    if calls == [] then true
    else
      MapExecWellFormed(m, calls[0]);
      NeverEmpty(MapExec(m, calls[0].op, calls[0].io).0, calls[1..])
  }

  lemma ExecKeepsHeader(printable: Table, disk: Disk, m: OrderedMap, call: Call)
    requires Shows(printable, disk, m) && PlainCall(printable, call)
    requires MapExec(m, call.op, call.io).0.keys != []
    requires NoLineEndsInCR(ParseText(disk.config.value).header)
    ensures Exec(printable, disk, call.op, call.io).0.config.Some?
    ensures ParseText(Exec(printable, disk, call.op, call.io).0.config.value).header
         == ParseText(disk.config.value).header
  {
    ExecRefines(printable, disk, m, call);
    ParsedOk(disk.config.value);
    var p := ParseText(disk.config.value);
    var disk' := Exec(printable, disk, call.op, call.io).0;
    if disk'.config != disk.config {
      var nets := if call.op.Add? then p.networks + [Network(call.op.ssid, call.op.psk)]
                  else Without(p.networks, call.op.ssid);
      assert disk'.config == Some(Print(printable, p.header, nets));
      WithoutMeans(p.networks, if call.op.Remove? then call.op.ssid else "");
      PrintParse(printable, p.header, nets);
      var m' := MapExec(m, call.op, call.io).0;
      assert |ParseText(disk'.config.value).networks| == |m'.keys|;
      HeaderFixpoint(p.header, nets);
    }
  }

  /** A run that keeps the list nonempty preserves the header byte for byte. */
  lemma {:induction false} RunKeepsHeader(printable: Table, disk: Disk, m: OrderedMap, calls: seq<Call>)
    requires Shows(printable, disk, m) && forall c | c in calls :: PlainCall(printable, c)
    requires NeverEmpty(m, calls) && NoLineEndsInCR(ParseText(disk.config.value).header)
    ensures Run(printable, disk, calls).0.config.Some?
    ensures ParseText(Run(printable, disk, calls).0.config.value).header == ParseText(disk.config.value).header
    decreases |calls|
  {
    if calls != [] {
      ExecRefines(printable, disk, m, calls[0]);
      ExecKeepsHeader(printable, disk, m, calls[0]);
      RunKeepsHeader(printable, Exec(printable, disk, calls[0].op, calls[0].io).0,
                     MapExec(m, calls[0].op, calls[0].io).0, calls[1..]);
    }
  }

  // ------------------------------------------------------- undoing an addition

  /** A file that write would leave as it is. */
  ghost predicate Canonical(printable: Table, data: string) {
    var p := ParseText(data);
    !p.failed && Print(printable, p.header, p.networks) == data
  }

  /** A canonical file holds plain networks only, and its header survives printing. */
  lemma CanonicalMeans(printable: Table, data: string)
    requires Canonical(printable, data)
    ensures var p := ParseText(data);
            && AllFit(printable, p.networks) && AllPlain(printable, p.networks)
            && NoLineEndsInCR(p.header)
  {
    var p := ParseText(data);
    ParsedOk(data);
    PrintParse(printable, p.header, p.networks);
    VolumeGrows(printable, p.networks);
    if p.networks != [] {
      HeaderFixpoint(p.header, p.networks);
    } else {
      HeaderAloneFixpoint(p.header);
    }
  }

  lemma DropCRsPlain(lines: seq<string>)
    requires forall l | l in lines :: '\n' !in l
    ensures forall l | l in DropCRs(lines) :: '\n' !in l
  {
    forall l | l in DropCRs(lines) ensures '\n' !in l {
      var i :| 0 <= i < |lines| && DropCRs(lines)[i] == l;
      assert lines[i] in lines;
    }
  }

  lemma HeaderAloneFixpoint(header: string)
    requires ValidHeader(header) && Reheader(header, []) == header
    ensures NoLineEndsInCR(header)
  {
    var h := RawLines(header);
    UnlinesRawLines(header);
    UnlinesLength(h);
    DropCRsPlain(h);
    HeaderTextAlone(DropCRs(h));
    assert DropCRs(h) == h;
    forall l | l in h ensures DropCR(l) == l {
      var i :| 0 <= i < |h| && h[i] == l;
      assert DropCRs(h)[i] == DropCR(h[i]);
    }
  }

  lemma EscapedLast(printable: Table, networks: seq<Network>, n: Network)
    requires AllFit(printable, networks) && AllPlain(printable, networks) && n.ssid != ""
    ensures AllFit(printable, networks + [n]) <==> Fits(printable, n)
    ensures EscapedAll(printable, networks + [n]) == networks + [Escaped(printable, n)]
  {
    var nets := networks + [n];
    assert n in nets;
    VolumeGrows(printable, networks);
    assert EscapedAll(printable, nets) == EscapedAll(printable, networks) + [Escaped(printable, n)];
  }

  lemma ReadExtended(printable: Table, header: string, networks: seq<Network>, n: Network)
    requires ValidHeader(header) && NoLineEndsInCR(header) && Named(networks) && n.ssid != ""
    requires AllFit(printable, networks) && AllPlain(printable, networks)
    ensures var q := ParseText(Print(printable, header, networks + [n]));
            && q.header == header
            && q.failed == !Fits(printable, n)
            && (Fits(printable, n) ==> q.networks == networks + [Escaped(printable, n)])
  {
    var nets := networks + [n];
    PrintParse(printable, header, nets);
    HeaderFixpoint(header, nets);
    EscapedLast(printable, networks, n);
  }

  /** The text after a successful Add, and what the next call reads in it. */
  lemma AfterAdd(printable: Table, data: string, n: Network)
    requires Canonical(printable, data) && n.ssid != ""
    ensures var p := ParseText(data);
            var q := ParseText(Print(printable, p.header, p.networks + [n]));
            && q.header == p.header
            && q.failed == !Fits(printable, n)
            && (Fits(printable, n) ==> q.networks == p.networks + [Escaped(printable, n)])
  {
    var p := ParseText(data);
    ParsedOk(data);
    CanonicalMeans(printable, data);
    ReadExtended(printable, p.header, p.networks, n);
  }

  lemma LookUpAdded(networks: seq<Network>, e: Network, ssid: string)
    requires !Contains(networks, ssid)
    ensures Contains(networks + [e], ssid) <==> e.ssid == ssid
    ensures e.ssid == ssid ==> Without(networks + [e], ssid) == networks
  {
    assert e in networks + [e];
    WithoutMeans(networks, ssid);
    WithoutAppend(networks, [e], ssid);
    assert Without([e], ssid) == if e.ssid == ssid then [] else [e];
    assert networks + [] == networks;
  }

  /** The network passes the checks of Add on this file. */
  predicate Accepts(data: string, n: Network) {
    AddProblem(n.ssid, n.psk).None? && !Contains(ParseText(data).networks, n.ssid)
  }

  /** What a successful Add writes. */
  lemma AddWrites(printable: Table, data: string, n: Network)
    requires !ParseText(data).failed && Accepts(data, n)
    ensures var p := ParseText(data);
      Exec(printable, Disk(Some(data), None), Add(n.ssid, n.psk), ALL_OK)
      == (Disk(Some(Print(printable, p.header, p.networks + [n])), None), Done)
  {
  }

  /** What a call after a successful Add finds on the disk. */
  lemma Added(printable: Table, data: string, n: Network) returns (p: Parsed, q: Parsed, added: Disk)
    requires Canonical(printable, data) && Accepts(data, n)
    ensures Exec(printable, Disk(Some(data), None), Add(n.ssid, n.psk), ALL_OK).1 == Done
    ensures p == ParseText(data) && !Contains(p.networks, n.ssid) && data == Print(printable, p.header, p.networks)
    ensures added == Exec(printable, Disk(Some(data), None), Add(n.ssid, n.psk), ALL_OK).0
    ensures added.config.Some? && added.tmp == None && q == ParseText(added.config.value)
    ensures q.header == p.header && q.failed == !Fits(printable, n)
    ensures Fits(printable, n) ==> q.networks == p.networks + [Escaped(printable, n)]
  {
    p := ParseText(data);
    NameNotBlank(n.ssid);
    AddWrites(printable, data, n);
    AfterAdd(printable, data, n);
    added := Disk(Some(Print(printable, p.header, p.networks + [n])), None);
    q := ParseText(added.config.value);
  }

  /** Add then Remove.  On a canonical file, removing a network just added puts every byte back
      exactly when the name is plain and its lines fit; otherwise Remove cannot find it. */
  lemma AddThenRemove(printable: Table, data: string, n: Network)
    requires Canonical(printable, data) && Accepts(data, n)
    ensures var added := Exec(printable, Disk(Some(data), None), Add(n.ssid, n.psk), ALL_OK).0;
            var removed := Exec(printable, added, Remove(n.ssid), ALL_OK);
            removed == if !Fits(printable, n) then (added, Refused(ParseFailed))
                       else if !Plain(printable, n.ssid) then (added, Refused(NotFound(n.ssid)))
                       else (Disk(Some(data), None), Done)
  {
    var p, q, added := Added(printable, data, n);
    BodyGrows(printable, n.ssid);
    LookUpAdded(p.networks, Escaped(printable, n), n.ssid);
  }

  lemma AddReply(printable: Table, disk: Disk, ssid: string, psk: string)
    requires disk.config.Some? && !ParseText(disk.config.value).failed && AddProblem(ssid, psk).None?
    ensures Exec(printable, disk, Add(ssid, psk), ALL_OK).1
         == if Contains(ParseText(disk.config.value).networks, ssid) then Refused(AlreadyExists(ssid)) else Done
  {
  }

  /** Add's promise to refuse a name that is already there, on a canonical file: a second Add of the
      same name is refused as a duplicate exactly when the name is plain. */
  lemma SecondAdd(printable: Table, data: string, n: Network, psk: string)
    requires Canonical(printable, data) && AddProblem(n.ssid, psk).None? && Fits(printable, n)
    requires Accepts(data, n)
    ensures var added := Exec(printable, Disk(Some(data), None), Add(n.ssid, n.psk), ALL_OK).0;
            var again := Exec(printable, added, Add(n.ssid, psk), ALL_OK).1;
            again == if Plain(printable, n.ssid) then Refused(AlreadyExists(n.ssid)) else Done
  {
    var p, q, added := Added(printable, data, n);
    BodyGrows(printable, n.ssid);
    LookUpAdded(p.networks, Escaped(printable, n), n.ssid);
    AddReply(printable, added, n.ssid, psk);
  }

  /** Some name of the list reads back, escaped, as this one. */
  predicate ReadsBackAs(printable: Table, networks: seq<Network>, ssid: string) {
    exists i | 0 <= i < |networks| :: Body(printable, networks[i].ssid) == ssid
  }

  lemma EscapedContain(printable: Table, networks: seq<Network>, ssid: string)
    ensures Contains(EscapedAll(printable, networks), ssid) <==> ReadsBackAs(printable, networks, ssid)
  {
    var e := EscapedAll(printable, networks);
    if Contains(e, ssid) {
      var m :| m in e && m.ssid == ssid;
      var i :| 0 <= i < |e| && e[i] == m;
      assert Body(printable, networks[i].ssid) == ssid;
    }
    if ReadsBackAs(printable, networks, ssid) {
      var i :| 0 <= i < |networks| && Body(printable, networks[i].ssid) == ssid;
      assert e[i] in e && e[i].ssid == ssid;
    }
  }

  /** The same on every readable file, canonical or not, whose networks all fit: after an Add the
      listing is the old one and the new network with every value escaped, and a second Add of the
      name is refused as a duplicate exactly when some listed name reads as it. */
  lemma AddOnAnyFile(printable: Table, data: string, n: Network, psk: string)
    requires !ParseText(data).failed && Accepts(data, n) && AddProblem(n.ssid, psk).None?
    requires AllFit(printable, ParseText(data).networks + [n])
    ensures var nets := ParseText(data).networks + [n];
            var added := Exec(printable, Disk(Some(data), None), Add(n.ssid, n.psk), ALL_OK).0;
            && Exec(printable, added, List, ALL_OK).1 == Listed(EscapedAll(printable, nets))
            && Exec(printable, added, Add(n.ssid, psk), ALL_OK).1
               == if ReadsBackAs(printable, nets, n.ssid) then Refused(AlreadyExists(n.ssid)) else Done
  {
    var p := ParseText(data);
    var nets := p.networks + [n];
    ParsedOk(data);
    NameNotBlank(n.ssid);
    PrintParse(printable, p.header, nets);
    EscapedContain(printable, nets, n.ssid);
  }

  /** A name too long for the scanner makes any readable file unreadable for good: from then on every
      call with valid arguments fails in the parser, and the bytes no longer change. */
  lemma OversizeNameBlocksTheStore(printable: Table, data: string, n: Network, call: Call)
    requires !ParseText(data).failed && !Fits(printable, n) && Accepts(data, n)
    requires call.io.readOk && (call.op.Add? ==> AddProblem(call.op.ssid, call.op.psk).None?)
    ensures var nets := ParseText(data).networks + [n];
            var added := Exec(printable, Disk(Some(data), None), Add(n.ssid, n.psk), ALL_OK).0;
            Exec(printable, added, call.op, call.io)
            == (added, if call.op.List? then CutShort(EscapedAll(printable, Readable(printable, nets)))
                       else Refused(ParseFailed))
  {
    var p := ParseText(data);
    var nets := p.networks + [n];
    ParsedOk(data);
    NameNotBlank(n.ssid);
    PrintParse(printable, p.header, nets);
    assert n in nets;
  }

  lemma NameNotBlank(ssid: string)
    ensures TrimSpace(ssid) != "" ==> ssid != ""
  {
  }

  // ---------------------------------------------- runs with any arguments

  /** What the file shows: the networks, and whether the scanner gave up behind them. */
  datatype Shown = Shown(networks: seq<Network>, failed: bool)

  function View(disk: Disk): Option<Shown> {
    if disk.config.None? then None
    else Some(Shown(ParseText(disk.config.value).networks, ParseText(disk.config.value).failed))
  }

  /** The list after a write: every value escaped once more, cut at the first network that does not fit. */
  function Written(printable: Table, nets: seq<Network>): Shown {
    Shown(EscapedAll(printable, Readable(printable, nets)), !AllFit(printable, nets))
  }

  function ShownCommit(printable: Table, v: Shown, nets: seq<Network>, io: Io): (Option<Shown>, Reply) {
    if !io.writeOk then (Some(v), Refused(WriteFailed))
    else if !io.renameOk then (Some(v), Refused(RenameFailed))
    else (Some(Written(printable, nets)), Done)
  }

  /** One call on what the file shows: no text, no header. */
  function ShownExec(printable: Table, v: Option<Shown>, op: Op, io: Io): (Option<Shown>, Reply) {
    if op.Add? && AddProblem(op.ssid, op.psk).Some? then (v, Refused(AddProblem(op.ssid, op.psk).value))
    else if !io.readOk || v.None? then (v, Refused(ReadFailed))
    else if v.value.failed then (v, if op.List? then CutShort(v.value.networks) else Refused(ParseFailed))
    else
      var nets := v.value.networks;
      match op
      case List => (v, Listed(nets))
      case Add(ssid, psk) =>
        if Contains(nets, ssid) then (v, Refused(AlreadyExists(ssid)))
        else ShownCommit(printable, v.value, nets + [Network(ssid, psk)], io)
      case Remove(ssid) =>
        if !Contains(nets, ssid) then (v, Refused(NotFound(ssid)))
        else ShownCommit(printable, v.value, Without(nets, ssid), io)
  }

  function ShownRun(printable: Table, v: Option<Shown>, calls: seq<Call>): (Option<Shown>, seq<Reply>)
    decreases |calls|
  {
    if calls == [] then (v, [])
    else
      var (v1, reply) := ShownExec(printable, v, calls[0].op, calls[0].io);
      var (v2, replies) := ShownRun(printable, v1, calls[1..]);
      (v2, [reply] + replies)
  }

  lemma CommitShown(printable: Table, disk: Disk, nets: seq<Network>, io: Io)
    requires disk.config.Some? && Named(nets)
    ensures var p := ParseText(disk.config.value);
            var (disk', reply) := Commit(disk, Print(printable, p.header, nets), io);
            (View(disk'), reply) == ShownCommit(printable, Shown(p.networks, p.failed), nets, io)
  {
    ParsedOk(disk.config.value);
    PrintParse(printable, ParseText(disk.config.value).header, nets);
  }

  lemma ExecShown(printable: Table, disk: Disk, call: Call)
    ensures var (disk', reply) := Exec(printable, disk, call.op, call.io);
            (View(disk'), reply) == ShownExec(printable, View(disk), call.op, call.io)
  {
    if disk.config.Some? {
      var nets := ParseText(disk.config.value).networks;
      ParsedOk(disk.config.value);
      match call.op
      case List =>
      case Add(ssid, psk) =>
        NameNotBlank(ssid);
        if AddProblem(ssid, psk).None? { CommitShown(printable, disk, nets + [Network(ssid, psk)], call.io); }
      case Remove(ssid) =>
        WithoutMeans(nets, ssid);
        CommitShown(printable, disk, Without(nets, ssid), call.io);
    }
  }

  /** Every serial run on every file, with any arguments and any I/O failures: the replies and the list
      shown are those of the list specification, in which each write escapes all values once more. */
  lemma {:induction false} RunShown(printable: Table, disk: Disk, calls: seq<Call>)
    ensures var (disk', replies) := Run(printable, disk, calls);
            (View(disk'), replies) == ShownRun(printable, View(disk), calls)
    decreases |calls|
  {
    if calls != [] {
      ExecShown(printable, disk, calls[0]);
      RunShown(printable, Exec(printable, disk, calls[0].op, calls[0].io).0, calls[1..]);
    }
  }
}
