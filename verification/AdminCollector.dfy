/** The admin-interface collector (dashboard/internal/admin/eth.go): the same protocol with a partial
    last-good, where a failed address lookup keeps the addresses but not the link state. */
module AdminCollector {
  import opened Wrappers
  import opened TtlProtocol

  datatype Info = Info(iface: string, ip: string, gateway: string, link: bool)

  datatype Problem = NoProblem | InterfaceAbsent | OperstateProblem | AddrProblem(operstateToo: bool)

  datatype Body = Body(info: Info, err: Problem)

  /** What the system answers to one refresh; None is a read or a command that failed. */
  datatype Observation = Absent | Present(operstate: Option<string>, addr: Option<string>, route: Option<string>)

  function Blank(iface: string): Info {
    Info(iface, "", "", false)
  }

  class Collector {
    const iface: string
    const ttl: int
    var lastAt: int
    var snap: Snap<Body>
    var prevLink: bool
    var prevIP: string
    var prevAbsent: bool

    constructor (iface: string, ttl: int, t: int)
      ensures this.iface == iface && this.ttl == ttl && lastAt == 0
      ensures snap == Snap(t, Body(Blank(iface), NoProblem))
      ensures var s := Init<Body, Observation>(t, Body(Blank(iface), NoProblem)); lastAt == s.lastAt && snap == s.snap
    {
      this.iface, this.ttl, lastAt := iface, ttl, 0;
      snap := Snap(t, Body(Blank(iface), NoProblem));
      prevLink, prevIP, prevAbsent := false, "", false;
    }

    /** refresh, given its two clock readings and what the system answers. */
    method Refresh(recheck: int, now: int, o: Observation)
      modifies this
      ensures if recheck - old(lastAt) < ttl then snap == old(snap) && lastAt == old(lastAt)
              else snap == Snap(now, Next(iface, old(snap).body, o)) && lastAt == now
    {
      if recheck - lastAt < ttl {
        return;
      }
      var prev := snap;
      if o.Absent? {
        prevAbsent := true;
        snap := Snap(now, Body(Blank(iface), InterfaceAbsent));
        lastAt := now;
        return;
      }
      prevAbsent := false;
      var info := Blank(iface);
      info := info.(link := o.operstate == Some("up"));
      if o.addr.None? {
        var prior := prev.body.info;
        info := info.(ip := prior.ip);
        info := info.(gateway := prior.gateway);
        snap := Snap(now, Body(info, AddrProblem(o.operstate.None?)));
        lastAt := now;
        return;
      }
      info := info.(ip := o.addr.value);
      if o.route.Some? {
        info := info.(gateway := o.route.value);
      }
      if info.link != prevLink || info.ip != prevIP {
        prevLink, prevIP := info.link, info.ip;
      }
      var err := NoProblem;
      if o.operstate.None? {
        err := OperstateProblem;
      }
      snap := Snap(now, Body(info, err));
      lastAt := now;
    }
  }

  /** The addresses a refresh stands for, unless its address lookup failed. */
  function AddressesOf(o: Observation): Option<(string, string)> {
    match o
    case Absent => Some(("", ""))
    case Present(_, None, _) => None
    case Present(_, Some(ip), route) => Some((ip, if route.Some? then route.value else ""))
  }

  function LinkOf(o: Observation): bool {
    o.Present? && o.operstate == Some("up")
  }

  function ProblemOf(o: Observation): Problem {
    match o
    case Absent => InterfaceAbsent
    case Present(op, None, _) => AddrProblem(op.None?)
    case Present(op, Some(_), _) => if op.None? then OperstateProblem else NoProblem
  }

  function Next(iface: string, prev: Body, o: Observation): Body {
    var a := AddressesOf(o);
    var (ip, gateway) := if a.Some? then a.value else (prev.info.ip, prev.info.gateway);
    Body(Info(iface, ip, gateway, LinkOf(o)), ProblemOf(o))
  }

  // ------------------------------------------------------ over whole runs

  ghost function Publishes(iface: string): (Body, Observation, Body) -> bool {
    (prev, o, next) => next == Next(iface, prev, o)
  }

  /** The addresses of the most recent refresh whose address lookup did not fail. */
  function LastAddresses(observed: seq<Observation>): (string, string) {
    if observed == [] then ("", "")
    else
      var a := AddressesOf(observed[|observed| - 1]);
      if a.Some? then a.value else LastAddresses(observed[..|observed| - 1])
  }

  lemma {:induction false} BodiesArePartlyLastGood(iface: string, observed: seq<Observation>, bodies: seq<Body>, k: nat)
    requires Sequential(Publishes(iface), Body(Blank(iface), NoProblem), observed, bodies) && k < |bodies|
    ensures (bodies[k].info.ip, bodies[k].info.gateway) == LastAddresses(observed[..k])
    ensures bodies[k].info.link <==> k > 0 && LinkOf(observed[k - 1])
    ensures bodies[k].err == if k == 0 then NoProblem else ProblemOf(observed[k - 1])
  {
    if k > 0 {
      BodiesArePartlyLastGood(iface, observed, bodies, k - 1);
      assert observed[..k][..k - 1] == observed[..k - 1];
      assert Publishes(iface)(bodies[k - 1], observed[k - 1], bodies[k - 1 + 1]);
      assert bodies[k] == Next(iface, bodies[k - 1], observed[k - 1]);
    }
  }

  /** PARTIAL LAST-GOOD.  In every interleaving of callers, the k-th published snapshot has the
      addresses of the latest refresh that could look them up and the link state of its own refresh. */
  lemma AdminRuns(iface: string, ttl: int, t: int, events: seq<Event<Body, Observation>>, k: nat)
    requires ttl > 0 && t >= 0
    requires Legal(Publishes(iface), ttl, Init(t, Body(Blank(iface), NoProblem)), events)
    requires k < |Run(ttl, Init(t, Body(Blank(iface), NoProblem)), events).published|
    ensures var s := Run(ttl, Init(t, Body(Blank(iface), NoProblem)), events);
            var info := s.published[k].body.info;
            && |s.published| == |s.observed| + 1
            && (info.ip, info.gateway) == LastAddresses(s.observed[..k])
            && (info.link <==> k > 0 && LinkOf(s.observed[k - 1]))
            && s.published[k].body.err == if k == 0 then NoProblem else ProblemOf(s.observed[k - 1])
  {
    var s := Run(ttl, Init<Body, Observation>(t, Body(Blank(iface), NoProblem)), events);
    ConcurrentIsSequential(Publishes(iface), ttl, t, Body(Blank(iface), NoProblem), events);
    BodiesArePartlyLastGood(iface, s.observed, Bodies(s.published), k);
  }

  // ------------------------------------------------- what each answer publishes

  /** An absent interface, and one whose address was read, are reported with the data of this refresh. */
  lemma AdminReads(iface: string, prev: Body, operstate: Option<string>, addr: string, route: Option<string>)
    ensures Next(iface, prev, Absent) == Body(Info(iface, "", "", false), InterfaceAbsent)
    ensures var b := Next(iface, prev, Present(operstate, Some(addr), route));
      && b.info.iface == iface && b.info.ip == addr && b.info.link == (operstate == Some("up"))
      && b.info.gateway == (match route case Some(gw) => gw case None => "")
      && b.err == (if operstate.None? then OperstateProblem else NoProblem)
  {
  }

  /** A failed address lookup keeps the address and the gateway, each in its field, but not the link. */
  lemma AdminFails(iface: string, prev: Body, operstate: Option<string>, route: Option<string>)
    ensures var b := Next(iface, prev, Present(operstate, None, route));
      && b.info.iface == iface && b.info.ip == prev.info.ip && b.info.gateway == prev.info.gateway
      && b.info.link == (operstate == Some("up")) && b.err == AddrProblem(operstate.None?)
  {
  }
}
