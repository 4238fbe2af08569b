/** The WAN collector (dashboard/internal/wan/collector.go): three-stage sampling with last-good Info. */
module WanCollector {
  import opened Wrappers
  import opened TtlProtocol

  /** What parseIwLink returns; nothing is assumed about it. */
  datatype Link = Link(connected: bool, ssid: string, bssid: string, signalDBm: int, freqMHz: int, txBitrateMbps: real)

  datatype Info = Info(
    iface: string, interfacePresent: bool, supplicantActive: bool, connected: bool,
    ssid: string, bssid: string, signalDBm: int, freqMHz: int, txBitrateMbps: real, ip: string, gateway: string)

  datatype Problem = NoProblem | InterfaceAbsent | IwProblem | AddrProblem | RouteProblem

  datatype Body = Body(info: Info, err: Problem)

  /** What the system answers to one refresh; None is a command that failed. */
  datatype Observation =
    | Absent
    | Present(link: Option<Link>, supplicant: bool, addr: Option<string>, route: Option<string>)

  function Blank(iface: string): Info {
    Info(iface, false, false, false, "", "", 0, 0, 0.0, "", "")
  }

  /** The Info a refresh stands for, when it succeeds or finds the interface absent. */
  function InfoOf(iface: string, o: Observation): Option<Info> {
    match o
    case Absent => Some(Blank(iface))
    case Present(None, _, _, _) => None
    case Present(Some(l), active, addr, route) =>
      if !l.connected then Some(Blank(iface).(interfacePresent := true, supplicantActive := active))
      else if addr.None? || route.None? then None
      else Some(Info(iface, true, active, true, l.ssid, l.bssid, l.signalDBm, l.freqMHz, l.txBitrateMbps,
                     addr.value, route.value))
  }

  /** The error of a refresh: the first stage that failed. */
  function ProblemOf(o: Observation): Problem {
    match o
    case Absent => InterfaceAbsent
    case Present(link, _, addr, route) =>
      if link.None? then IwProblem
      else if !link.value.connected then NoProblem
      else if addr.None? then AddrProblem
      else if route.None? then RouteProblem
      else NoProblem
  }

  /** A failed refresh keeps the previous Info; every other one replaces it. */
  function Next(iface: string, prev: Body, o: Observation): Body {
    Body(if InfoOf(iface, o).Some? then InfoOf(iface, o).value else prev.info, ProblemOf(o))
  }

  class Collector {
    const iface: string
    const ttl: int
    var lastAt: int
    var snap: Snap<Body>
    var prevConnected: bool
    var prevSSID: string
    var prevAbsent: bool

    constructor (iface: string, ttl: int, t: int)
      ensures this.iface == iface && this.ttl == ttl && lastAt == 0
      ensures snap == Snap(t, Body(Blank(iface), NoProblem))
      ensures var s := Init<Body, Observation>(t, Body(Blank(iface), NoProblem)); lastAt == s.lastAt && snap == s.snap
    {
      this.iface, this.ttl, lastAt := iface, ttl, 0;
      snap := Snap(t, Body(Blank(iface), NoProblem));
      prevConnected, prevSSID, prevAbsent := false, "", false;
    }

    /** refresh, given its two clock readings and what the system answers. */
    method Refresh(recheck: int, now: int, o: Observation)
      modifies this
      ensures if recheck - old(lastAt) < ttl then snap == old(snap) && lastAt == old(lastAt)
              else snap == Snap(now, Next(iface, old(snap).body, o)) && lastAt == now
    {
      if recheck - lastAt < ttl {
        return;
      }
      var prev := snap;
      if o.Absent? {
        prevAbsent := true;
        snap := Snap(now, Body(Blank(iface), InterfaceAbsent));
        lastAt := now;
        return;
      }
      prevAbsent := false;
      if o.link.None? {
        StoreFailure(now, prev, IwProblem);
        return;
      }
      var link := o.link.value;
      var info := Blank(iface).(interfacePresent := true, supplicantActive := o.supplicant, connected := link.connected);
      if !link.connected {
        prevConnected, prevSSID := false, "";
        StoreSuccess(now, info);
        return;
      }
      if !prevConnected || link.ssid != prevSSID {
        prevConnected, prevSSID := true, link.ssid;
      }
      info := info.(ssid := link.ssid);
      info := info.(bssid := link.bssid);
      info := info.(signalDBm := link.signalDBm);
      info := info.(freqMHz := link.freqMHz);
      info := info.(txBitrateMbps := link.txBitrateMbps);
      if o.addr.None? {
        StoreFailure(now, prev, AddrProblem);
        return;
      }
      info := info.(ip := o.addr.value);
      if o.route.None? {
        StoreFailure(now, prev, RouteProblem);
        return;
      }
      info := info.(gateway := o.route.value);
      StoreSuccess(now, info);
    }

    method StoreSuccess(now: int, info: Info)
      modifies this`snap, this`lastAt
      ensures snap == Snap(now, Body(info, NoProblem)) && lastAt == now
    {
      snap := Snap(now, Body(info, NoProblem));
      lastAt := now;
    }

    method StoreFailure(now: int, prev: Snap<Body>, err: Problem)
      modifies this`snap, this`lastAt
      ensures snap == Snap(now, Body(prev.body.info, err)) && lastAt == now
    {
      snap := Snap(now, Body(prev.body.info, err));
      lastAt := now;
    }
  }

  // ------------------------------------------------------ over whole runs

  ghost function Publishes(iface: string): (Body, Observation, Body) -> bool {
    (prev, o, next) => next == Next(iface, prev, o)
  }

  /** The Info of the most recent refresh that succeeded or found the interface absent. */
  function LastGood(iface: string, observed: seq<Observation>): Info {
    if observed == [] then Blank(iface)
    else
      var info := InfoOf(iface, observed[|observed| - 1]);
      if info.Some? then info.value else LastGood(iface, observed[..|observed| - 1])
  }

  /** Connected implies present; not connected implies no link or address data. */
  predicate Sound(info: Info) {
    && (info.connected ==> info.interfacePresent)
    && (!info.connected ==> info.ssid == "" && info.bssid == "" && info.ip == "" && info.gateway == "")
  }

  lemma {:induction false} LastGoodSound(iface: string, observed: seq<Observation>)
    ensures Sound(LastGood(iface, observed)) && LastGood(iface, observed).iface == iface
  {
    if observed != [] {
      LastGoodSound(iface, observed[..|observed| - 1]);
    }
  }

  lemma {:induction false} BodiesAreLastGood(iface: string, observed: seq<Observation>, bodies: seq<Body>, k: nat)
    requires Sequential(Publishes(iface), Body(Blank(iface), NoProblem), observed, bodies) && k < |bodies|
    ensures bodies[k].info == LastGood(iface, observed[..k])
    ensures bodies[k].err == if k == 0 then NoProblem else ProblemOf(observed[k - 1])
  {
    if k > 0 {
      BodiesAreLastGood(iface, observed, bodies, k - 1);
      assert observed[..k][..k - 1] == observed[..k - 1];
      assert Publishes(iface)(bodies[k - 1], observed[k - 1], bodies[k - 1 + 1]);
      assert bodies[k] == Next(iface, bodies[k - 1], observed[k - 1]);
    }
  }

  /** LAST-GOOD.  In every interleaving of callers and for every sequence of answers, the Info of the
      k-th published snapshot is that of the latest refresh that succeeded or found the interface
      absent, through any number of failures, and it is sound; the error is that of the refresh itself. */
  lemma WanRuns(iface: string, ttl: int, t: int, events: seq<Event<Body, Observation>>, k: nat)
    requires ttl > 0 && t >= 0
    requires Legal(Publishes(iface), ttl, Init(t, Body(Blank(iface), NoProblem)), events)
    requires k < |Run(ttl, Init(t, Body(Blank(iface), NoProblem)), events).published|
    ensures var s := Run(ttl, Init(t, Body(Blank(iface), NoProblem)), events);
            && |s.published| == |s.observed| + 1
            && s.published[k].body.info == LastGood(iface, s.observed[..k])
            && Sound(s.published[k].body.info)
            && s.published[k].body.err == if k == 0 then NoProblem else ProblemOf(s.observed[k - 1])
  {
    var s := Run(ttl, Init<Body, Observation>(t, Body(Blank(iface), NoProblem)), events);
    ConcurrentIsSequential(Publishes(iface), ttl, t, Body(Blank(iface), NoProblem), events);
    BodiesAreLastGood(iface, s.observed, Bodies(s.published), k);
    LastGoodSound(iface, s.observed[..k]);
  }

  // ------------------------------------------------- what each answer publishes

  /** An absent interface, and a link that is down, are reported as such. */
  lemma WanDown(iface: string, prev: Body, supplicant: bool, link: Link, addr: Option<string>, route: Option<string>)
    requires !link.connected
    ensures Next(iface, prev, Absent)
         == Body(Info(iface, false, false, false, "", "", 0, 0, 0.0, "", ""), InterfaceAbsent)
    ensures Next(iface, prev, Present(Some(link), supplicant, addr, route))
         == Body(Info(iface, true, supplicant, false, "", "", 0, 0, 0.0, "", ""), NoProblem)
  {
  }

  /** A link that is up is reported with its own data, the address of the interface, and the gateway of the
      route, each in its field. */
  lemma WanUp(iface: string, prev: Body, supplicant: bool, link: Link, addr: string, route: string)
    requires link.connected
    ensures var b := Next(iface, prev, Present(Some(link), supplicant, Some(addr), Some(route)));
      && b.err == NoProblem && b.info.iface == iface && b.info.interfacePresent && b.info.connected
      && b.info.supplicantActive == supplicant
      && b.info.ssid == link.ssid && b.info.bssid == link.bssid && b.info.signalDBm == link.signalDBm
      && b.info.freqMHz == link.freqMHz && b.info.txBitrateMbps == link.txBitrateMbps
      && b.info.ip == addr && b.info.gateway == route
  {
  }

  /** The three ways to fail keep the previous data and name the command that failed. */
  lemma WanFails(iface: string, prev: Body, supplicant: bool, link: Link, addr: Option<string>, route: Option<string>)
    requires link.connected
    ensures Next(iface, prev, Present(None, supplicant, addr, route)) == Body(prev.info, IwProblem)
    ensures Next(iface, prev, Present(Some(link), supplicant, None, route)) == Body(prev.info, AddrProblem)
    ensures addr.Some? ==> Next(iface, prev, Present(Some(link), supplicant, addr, None)) == Body(prev.info, RouteProblem)
  {
  }
}
