/** The hotspot collector (dashboard/internal/hotspot/collector.go): one refresh over the heap, and
    what its snapshots hold over whole concurrent runs. */
module HotspotCollector {
  import opened Wrappers
  import opened Text
  import opened HotspotText
  import opened TtlProtocol

  // ------------------------------------------------------------ order of MACs

  /** Go's string order. */
  predicate Less(a: string, b: string) {
    b != "" && (a == "" || a[0] < b[0] || (a[0] == b[0] && Less(a[1..], b[1..])))
  }

  lemma {:induction false} LessTotal(a: string, b: string)
    ensures a == b || Less(a, b) || Less(b, a)
    ensures !(Less(a, b) && Less(b, a)) && !Less(a, a)
  {
    if a != "" && b != "" && a[0] == b[0] {
      LessTotal(a[1..], b[1..]);
      assert a == [a[0]] + a[1..] && b == [b[0]] + b[1..];
    }
    if a != "" { LessTotal(a[1..], a[1..]); }
  }

  lemma {:induction false} LessTransitive(a: string, b: string, c: string)
    requires !Less(b, a) && !Less(c, b)
    ensures !Less(c, a)
  {
    if a != "" && b != "" && c != "" && a[0] == b[0] == c[0] {
      LessTransitive(a[1..], b[1..], c[1..]);
    }
  }

  ghost predicate SortedByMac(clients: seq<Client>) {
    forall i, j | 0 <= i < j < |clients| :: !Less(clients[j].mac, clients[i].mac)
  }

  // ------------------------------------------------------------ what is published

  datatype Problem = NoProblem | InterfaceAbsent | IwProblem | LeasesProblem

  datatype Body = Body(iface: string, clients: seq<Client>, err: Problem)

  /** What one refresh gets from the lease file and from the system. */
  datatype LeaseRead = LeaseText(raw: string) | LeaseMissing | LeaseUnreadable

  datatype Observation = Absent | IwFails | Dumped(raw: string, leases: LeaseRead)

  /** A station joined with the lease file: the last valid line about its MAC, or nothing. */
  function JoinOne(c: Client, leases: LeaseRead): Client {
    match leases
    case LeaseText(raw) =>
      var l := LeaseFor(raw, c.mac);
      if l.Some? then c.(ip := l.value.ip, hostname := l.value.hostname) else c
    case _ => c
  }

  function JoinAll(clients: seq<Client>, leases: LeaseRead): (r: seq<Client>)
    ensures |r| == |clients|
    ensures forall i | 0 <= i < |r| :: r[i] == JoinOne(clients[i], leases)
  {
    seq(|clients|, i requires 0 <= i < |clients| => JoinOne(clients[i], leases))
  }

  /** Which body may follow which.  sort.Slice fixes the order of the MACs but not of equal ones, so
      a successful refresh may publish any sorted arrangement of the joined stations. */
  ghost predicate MayPublish(iface: string, prev: Body, o: Observation, next: Body) {
    match o
    case Absent => next == Body(iface, [], InterfaceAbsent)
    case IwFails => next == Body(iface, prev.clients, IwProblem)
    case Dumped(raw, leases) =>
      && next.iface == iface
      && next.err == (if leases.LeaseUnreadable? then LeasesProblem else NoProblem)
      && SortedByMac(next.clients)
      && multiset(next.clients) == multiset(JoinAll(ParseDump(raw), leases))
  }

  ghost function Publishes(iface: string): (Body, Observation, Body) -> bool {
    (prev, o, next) => MayPublish(iface, prev, o, next)
  }

  // ------------------------------------------------------------- sort, in place

  method Swap(a: array<Client>, i: int, j: int)
    requires 0 <= i < a.Length && 0 <= j < a.Length
    modifies a
    ensures a[..] == old(a[..])[i := old(a[j])][j := old(a[i])]
    ensures multiset(a[..]) == multiset(old(a[..]))
  {
    a[i], a[j] := a[j], a[i];
  }

  /** The prefix up to n is sorted, except that entry j may be smaller than those before it. */
  ghost predicate SortedBut(s: seq<Client>, n: nat, j: int)
    requires n <= |s|
  {
    forall p, q | 0 <= p < q < n && q != j :: !Less(s[q].mac, s[p].mac)
  }

  lemma SwapDown(s: seq<Client>, t: seq<Client>, n: nat, j: int)
    requires n <= |s| && 0 < j < n && SortedBut(s, n, j) && Less(s[j].mac, s[j - 1].mac)
    requires Smallest(s, n, j) && t == s[j := s[j - 1]][j - 1 := s[j]]
    ensures SortedBut(t, n, j - 1) && Smallest(t, n, j - 1)
  {
    forall q | j <= q < n ensures !Less(t[q].mac, t[j - 1].mac) {
      LessTotal(t[q].mac, t[j - 1].mac);
    }
  }

  lemma InPlace(s: seq<Client>, n: nat, j: int)
    requires n <= |s| && 0 <= j < n && SortedBut(s, n, j)
    requires j == 0 || !Less(s[j].mac, s[j - 1].mac)
    ensures SortedByMac(s[..n])
  {
    forall p | 0 <= p < j ensures !Less(s[j].mac, s[p].mac) {
      if p < j - 1 { LessTransitive(s[p].mac, s[j - 1].mac, s[j].mac); }
    }
  }

  lemma OneMoreClient(s: seq<Client>, n: nat)
    requires n < |s| && SortedByMac(s[..n])
    ensures SortedBut(s, n + 1, n)
  {
    assert forall p | 0 <= p < n :: s[..n][p] == s[p];
  }

  /** Entry j is smaller than those after it, up to n. */
  ghost predicate Smallest(s: seq<Client>, n: nat, j: int)
    requires n <= |s| && 0 <= j < |s|
  {
    forall q | j < q < n :: Less(s[j].mac, s[q].mac)
  }

  /** Move client n down to its place among the sorted ones before it. */
  method Sink(a: array<Client>, n: nat)
    requires n < a.Length && SortedByMac(a[..n])
    modifies a
    ensures SortedByMac(a[..n + 1])
    ensures multiset(a[..]) == multiset(old(a[..]))
  {
    var j := n;
    ghost var s := a[..];
    OneMoreClient(s, n);
    while j > 0 && Less(a[j].mac, a[j - 1].mac)
      invariant 0 <= j <= n && s == a[..]
      invariant SortedBut(s, n + 1, j) && Smallest(s, n + 1, j)
      invariant multiset(s) == multiset(old(a[..]))
    {
      Swap(a, j, j - 1);
      SwapDown(s, a[..], n + 1, j);
      s := a[..];
      j := j - 1;
    }
    InPlace(s, n + 1, j);
    assert s[..n + 1] == a[..n + 1];
  }

  /** What the refresh asks of sort.Slice, here an insertion sort. */
  method SortByMac(a: array<Client>)
    modifies a
    ensures SortedByMac(a[..])
    ensures multiset(a[..]) == multiset(old(a[..]))
  {
    for i := 0 to a.Length
      invariant SortedByMac(a[..i])
      invariant multiset(a[..]) == multiset(old(a[..]))
    {
      Sink(a, i);
    }
    assert a[..a.Length] == a[..];
  }

  /** Enrich the clients from the lease map, in place. */
  method JoinInPlace(a: array<Client>, raw: string)
    modifies a
    ensures a[..] == JoinAll(old(a[..]), LeaseText(raw))
  {
    var leases := ParseLeases(raw);
    for i := 0 to a.Length
      invariant forall k | 0 <= k < i :: a[k] == JoinOne(old(a[k]), LeaseText(raw))
      invariant forall k | i <= k < a.Length :: a[k] == old(a[k])
    {
      if a[i].mac in leases {
        var entry := leases[a[i].mac];
        a[i] := a[i].(ip := entry.ip);
        a[i] := a[i].(hostname := entry.hostname);
      }
    }
  }

  /** Parse the dump into a new slice, join it with the leases and sort it, both in place. */
  method CollectClients(raw: string, leases: LeaseRead) returns (clients: array<Client>)
    ensures fresh(clients)
    ensures SortedByMac(clients[..])
    ensures multiset(clients[..]) == multiset(JoinAll(ParseDump(raw), leases))
  {
    var stations := ParseStationDump(raw);
    clients := new Client[|stations|](i requires 0 <= i < |stations| => stations[i]);
    assert clients[..] == stations;
    if leases.LeaseText? {
      JoinInPlace(clients, leases.raw);
    }
    assert clients[..] == JoinAll(stations, leases);
    SortByMac(clients);
  }

  // ---------------------------------------------------------- the collector

  /** One published snapshot.  Its client slice is a shared, mutable array. */
  class Snapshot {
    var at: int
    var iface: string
    var clients: array<Client>
    var err: Problem

    constructor (at: int, iface: string, clients: array<Client>, err: Problem)
      ensures this.at == at && this.iface == iface && this.clients == clients && this.err == err
    {
      this.at, this.iface, this.clients, this.err := at, iface, clients, err;
    }

    ghost function View(): Snap<Body>
      reads this, clients
    {
      Snap(at, Body(iface, clients[..], err))
    }
  }

  /** A snapshot that was published, and what it held at that moment. */
  datatype Entry = Entry(snap: Snapshot, view: Snap<Body>)

  class Collector {
    const iface: string
    const ttl: int
    var lastAt: int
    var snap: Snapshot
    var prevClientCount: nat
    var prevAbsent: bool
    ghost var history: seq<Entry>

    /** Every snapshot ever published still holds what it held then, and the last one is current. */
    ghost predicate Valid()
      reads this, set e | e in history :: e.snap, set e | e in history :: e.snap.clients
    {
      && history != [] && history[|history| - 1].snap == snap
      && forall e | e in history :: e.snap.View() == e.view
    }

    constructor (iface: string, ttl: int, t: int)
      ensures Valid() && this.iface == iface && this.ttl == ttl && lastAt == 0
      ensures |history| == 1 && history[0].view == Snap(t, Body(iface, [], NoProblem))
      ensures var s := Init<Body, Observation>(t, Body(iface, [], NoProblem)); lastAt == s.lastAt && snap.View() == s.snap
    {
      this.iface, this.ttl, lastAt := iface, ttl, 0;
      prevClientCount, prevAbsent := 0, false;
      var none := new Client[0];
      var first := new Snapshot(t, iface, none, NoProblem);
      snap := first;
      history := [Entry(first, Snap(t, Body(iface, [], NoProblem)))];
    }

    /** refresh, given its two clock readings and what the system answers.  It writes nothing but the
        collector's own fields: no snapshot published earlier changes, though a failed refresh shares
        the previous slice and a successful one fills and sorts a slice in place. */
    method Refresh(recheck: int, now: int, o: Observation)
      requires Valid()
      modifies this
      ensures Valid()
      ensures recheck - old(lastAt) < ttl ==> history == old(history) && lastAt == old(lastAt) && snap == old(snap)
      ensures recheck - old(lastAt) >= ttl ==>
        && lastAt == now && fresh(snap)
        && history == old(history) + [Entry(snap, snap.View())]
        && snap.at == now && MayPublish(iface, old(snap.View()).body, o, snap.View().body)
    {
      if recheck - lastAt < ttl {
        return;
      }
      var next := Sample(now, o);
      Publish(next, now);
    }

    /** The part of refresh between taking `now` and storing the pointer. */
    method Sample(now: int, o: Observation) returns (next: Snapshot)
      modifies this`prevAbsent, this`prevClientCount
      ensures fresh(next) && next.at == now
      ensures MayPublish(iface, snap.View().body, o, next.View().body)
    {
      if o.Absent? {
        prevAbsent := true;
        var none := new Client[0];
        next := new Snapshot(now, iface, none, InterfaceAbsent);
        return;
      }
      prevAbsent := false;
      if o.IwFails? {
        next := new Snapshot(now, iface, snap.clients, IwProblem);
        return;
      }
      var clients := CollectClients(o.raw, o.leases);
      next := new Snapshot(now, iface, clients, NoProblem);
      if o.leases.LeaseUnreadable? {
        next.err := LeasesProblem;
      }
      prevClientCount := clients.Length;
    }

    method Publish(next: Snapshot, now: int)
      requires Valid()
      modifies this
      ensures Valid()
      ensures snap == next && lastAt == now && history == old(history) + [Entry(next, next.View())]
    {
      snap := next;
      lastAt := now;
      history := history + [Entry(next, next.View())];
    }

    /** Snapshot, when no other caller interferes. */
    method Latest(first: int, recheck: int, now: int, o: Observation) returns (s: Snapshot)
      requires Valid() && first <= recheck <= now && ttl > 0
      modifies this
      ensures Valid() && s == snap
      ensures first - old(lastAt) < ttl ==> snap == old(snap) && history == old(history) && lastAt == old(lastAt)
      ensures first - old(lastAt) >= ttl ==>
        && lastAt == s.at == now && history == old(history) + [Entry(s, s.View())]
        && MayPublish(iface, old(snap.View()).body, o, s.View().body)
    {
      var needRefresh := first - lastAt >= ttl;
      if needRefresh {
        Refresh(recheck, now, o);
      }
      s := snap;
    }
  }

  // ------------------------------------------------------ over whole runs

  /** The most recent observation that was not a failed dump. */
  function LastGood(observed: seq<Observation>): Option<Observation> {
    if observed == [] then None
    else
      var last := observed[|observed| - 1];
      if last.IwFails? then LastGood(observed[..|observed| - 1]) else Some(last)
  }

  /** The client list an observation calls for. */
  ghost predicate ShowsClients(clients: seq<Client>, good: Option<Observation>) {
    match good
    case Some(Dumped(raw, leases)) =>
      SortedByMac(clients) && multiset(clients) == multiset(JoinAll(ParseDump(raw), leases))
    case _ => clients == []
  }

  function ProblemOf(o: Observation): Problem {
    match o
    case Absent => InterfaceAbsent
    case IwFails => IwProblem
    case Dumped(_, leases) => if leases.LeaseUnreadable? then LeasesProblem else NoProblem
  }

  lemma OneMoreObservation(observed: seq<Observation>, o: Observation)
    ensures LastGood(observed + [o]) == if o.IwFails? then LastGood(observed) else Some(o)
  {
    assert (observed + [o])[..|observed|] == observed;
  }

  lemma PublishShows(iface: string, prev: Body, o: Observation, next: Body, good: Option<Observation>)
    requires MayPublish(iface, prev, o, next) && ShowsClients(prev.clients, good)
    ensures ShowsClients(next.clients, if o.IwFails? then good else Some(o))
  {
  }

  lemma SequentialStep(iface: string, observed: seq<Observation>, bodies: seq<Body>, k: nat)
    requires Sequential(Publishes(iface), Body(iface, [], NoProblem), observed, bodies) && 0 < k < |bodies|
    ensures MayPublish(iface, bodies[k - 1], observed[k - 1], bodies[k])
  {
    assert Publishes(iface)(bodies[k - 1], observed[k - 1], bodies[k - 1 + 1]);
  }

  lemma {:induction false} BodiesShowLastGood(iface: string, observed: seq<Observation>, bodies: seq<Body>, k: nat)
    requires Sequential(Publishes(iface), Body(iface, [], NoProblem), observed, bodies) && k < |bodies|
    ensures ShowsClients(bodies[k].clients, LastGood(observed[..k]))
  {
    if k > 0 {
      BodiesShowLastGood(iface, observed, bodies, k - 1);
      assert observed[..k] == observed[..k - 1] + [observed[k - 1]];
      OneMoreObservation(observed[..k - 1], observed[k - 1]);
      SequentialStep(iface, observed, bodies, k);
      PublishShows(iface, bodies[k - 1], observed[k - 1], bodies[k], LastGood(observed[..k - 1]));
    }
  }

  lemma BodiesReport(iface: string, observed: seq<Observation>, bodies: seq<Body>, k: nat)
    requires Sequential(Publishes(iface), Body(iface, [], NoProblem), observed, bodies) && k < |bodies|
    ensures bodies[k].iface == iface
    ensures bodies[k].err == if k == 0 then NoProblem else ProblemOf(observed[k - 1])
  {
    if k > 0 {
      SequentialStep(iface, observed, bodies, k);
    }
  }

  /** LAST-GOOD.  In every interleaving of callers, the k-th published snapshot shows exactly the
      stations of the latest dump that worked among the samplings before it, sorted and joined with
      the leases of that sampling; a failed dump changes nothing but the error and the time. */
  lemma HotspotRuns(iface: string, ttl: int, t: int, events: seq<Event<Body, Observation>>, k: nat)
    requires ttl > 0 && t >= 0
    requires Legal(Publishes(iface), ttl, Init(t, Body(iface, [], NoProblem)), events)
    requires k < |Run(ttl, Init(t, Body(iface, [], NoProblem)), events).published|
    ensures var s := Run(ttl, Init(t, Body(iface, [], NoProblem)), events);
            && |s.published| == |s.observed| + 1
            && ShowsClients(s.published[k].body.clients, LastGood(s.observed[..k]))
            && s.published[k].body.err == if k == 0 then NoProblem else ProblemOf(s.observed[k - 1])
  {
    var first := Body(iface, [], NoProblem);
    var s := Run(ttl, Init<Body, Observation>(t, first), events);
    ConcurrentIsSequential(Publishes(iface), ttl, t, first, events);
    BodiesShowLastGood(iface, s.observed, Bodies(s.published), k);
    BodiesReport(iface, s.observed, Bodies(s.published), k);
  }

  /** Whatever a Snapshot call returns is one of those published snapshots. */
  lemma CallersGetPublished(iface: string, ttl: int, t: int, events: seq<Event<Body, Observation>>, i: nat)
    requires ttl > 0 && t >= 0
    requires Legal(Publishes(iface), ttl, Init(t, Body(iface, [], NoProblem)), events)
    requires Run(ttl, Init(t, Body(iface, [], NoProblem)), events).At(i).Returned?
    ensures var s := Run(ttl, Init(t, Body(iface, [], NoProblem)), events);
      exists k | 0 <= k < |s.published| && k <= |s.observed| ::
        && s.published[k].body == s.At(i).snap.body
        && ShowsClients(s.At(i).snap.body.clients, LastGood(s.observed[..k]))
  {
    var first := Body(iface, [], NoProblem);
    var s := Run(ttl, Init<Body, Observation>(t, first), events);
    ConcurrentIsSequential(Publishes(iface), ttl, t, first, events);
    var bodies := Bodies(s.published);
    var k :| 0 <= k < |bodies| && bodies[k] == s.At(i).snap.body;
    BodiesShowLastGood(iface, s.observed, bodies, k);
    assert s.published[k].body == s.At(i).snap.body;
  }

  // -------------------------------------------------- what a client list says

  lemma {:induction false} StationsUnjoined(d: Dump, lines: seq<string>)
    requires forall c | c in d.Flush() :: c.ip == "" && c.hostname == ""
    ensures forall c | c in DumpSteps(d, lines).Flush() :: c.ip == "" && c.hostname == ""
    decreases |lines|
  {
    if lines != [] {
      var d' := DumpStep(d, lines[0]);
      assert d.cur.Some? ==> d.cur.value in d.Flush();
      StationsUnjoined(d', lines[1..]);
    }
  }

  /** Every published client is a parsed station; its address and name are those of the last valid
      lease line about its MAC, and both are empty when there is none.  There is one client per
      Station line of the dump. */
  lemma ClientsJoined(clients: seq<Client>, raw: string, leases: string)
    requires ShowsClients(clients, Some(Dumped(raw, LeaseText(leases))))
    ensures |clients| == CountStations(Scan(raw, DUMP_TOKEN).lines)
    ensures forall c | c in clients ::
      && c.(ip := "", hostname := "") in ParseDump(raw)
      && match LeaseFor(leases, c.mac)
         case Some(l) => c.ip == l.ip && c.hostname == l.hostname
         case None => c.ip == "" && c.hostname == ""
  {
    var lines := Scan(raw, DUMP_TOKEN).lines;
    OneClientPerStation(Dump([], None), lines);
    StationsUnjoined(Dump([], None), lines);
    var stations := ParseDump(raw);
    var joined := JoinAll(stations, LeaseText(leases));
    assert |clients| == |multiset(clients)| == |multiset(joined)| == |stations|;
    forall c | c in clients
      ensures exists i | 0 <= i < |stations| :: c == JoinOne(stations[i], LeaseText(leases))
    {
      assert c in multiset(clients);
      assert c in joined;
    }
  }

  // ------------------------------------------------------------- the order

  /** The strings agree up to k, and there a is smaller or at its end. */
  predicate SmallerAt(a: string, b: string, k: nat) {
    k <= |a| && k < |b| && a[..k] == b[..k] && (k == |a| || a[k] < b[k])
  }

  /** Less is the order of the first difference, a prefix coming first. */
  lemma {:induction false} LessIs(a: string, b: string)
    ensures Less(a, b) <==> exists k: nat :: SmallerAt(a, b, k)
  {
    if a != "" && b != "" && a[0] == b[0] {
      LessIs(a[1..], b[1..]);
      if Less(a, b) {
        var k: nat :| SmallerAt(a[1..], b[1..], k);
        assert a[..k + 1] == [a[0]] + a[1..][..k] && b[..k + 1] == [b[0]] + b[1..][..k];
        assert SmallerAt(a, b, k + 1);
      }
      if k: nat :| SmallerAt(a, b, k) {
        assert k > 0 by { assert a[0] == b[0]; }
        assert a[1..][..k - 1] == a[..k][1..] && b[1..][..k - 1] == b[..k][1..];
        assert SmallerAt(a[1..], b[1..], k - 1);
      }
    } else if a == "" && b != "" {
      assert SmallerAt(a, b, 0);
    } else if a != "" && b != "" {
      if a[0] < b[0] { assert SmallerAt(a, b, 0); }
      assert forall k: nat | SmallerAt(a, b, k) :: k > 0 ==> a[..k][0] == b[..k][0];
    }
  }

  /** What a refresh may publish, case by case: nothing for an absent interface, the previous clients after a
      failed dump, otherwise the joined stations in order; and the error of this refresh alone. */
  lemma PublishCases(iface: string, prev: Body, raw: string, leases: LeaseRead, next: Body)
    ensures MayPublish(iface, prev, Absent, next) <==> next == Body(iface, [], InterfaceAbsent)
    ensures MayPublish(iface, prev, IwFails, next) <==> next == Body(iface, prev.clients, IwProblem)
    ensures MayPublish(iface, prev, Dumped(raw, leases), next) <==>
      && next.iface == iface && SortedByMac(next.clients)
      && multiset(next.clients) == multiset(JoinAll(ParseDump(raw), leases))
      && next.err == (match leases case LeaseUnreadable => LeasesProblem case _ => NoProblem)
  {
  }
}
