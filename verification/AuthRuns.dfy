/** Any number of requests in flight through the middleware and the handlers, interleaved step by step:
    each forwarded role goes back to a verdict of the helper, and each operation sent to the helper
    goes back to membership of the admin group. */
module AuthRuns {
  import opened Wrappers
  import opened HelperAuth
  import opened AuthCache
  import opened ApiGates

  /** The fixed surroundings of a run. */
  datatype World = World(hash: Digest, cfg: Config, socket: bool)

  // ---------------------------------------------------------------- history

  /** A request and when it came in; its number is its place among the arrivals. */
  datatype Arrival = Arrival(r: Request, at: int)

  /** An answer of the helper to request `asker`, with what the host knew when it gave it. */
  datatype Answer = Answer(asker: nat, username: string, password: string, host: Host, at: int)

  /** Request `asker` put answer k into the cache. */
  datatype Stored = Stored(asker: nat, k: nat, at: int)

  /** What has happened so far.  It is only written, never read, by the steps of a request. */
  datatype History = History(arrivals: seq<Arrival>, answers: seq<Answer>, stores: seq<Stored>)

  function ResponseOf(w: World, a: Answer): Response {
    HandleAuth(a.username, a.password, a.host, w.cfg)
  }

  // ------------------------------------------------------------------ steps

  /** Where a role comes from: nowhere, answer k of the helper, or a cache lookup. */
  datatype Source = NoRole | FromHelper(k: nat) | FromCache(found: int)

  /** Where request n is. */
  datatype Pc =
    | Free
    | Looking(n: nat, r: Request, u: string, p: string)                          // before cache.get
    | Asking(n: nat, r: Request, u: string, p: string)                           // before callHelper
    | Storing(n: nat, r: Request, u: string, p: string, role: string, k: nat)    // before cache.set
    | Serving(n: nat, r: Request, role: string, src: Source)                     // before the handler reacts

  datatype Served = Served(n: nat, r: Request, role: string, src: Source)

  datatype Refusal = Refusal(n: nat, status: int)

  datatype Sent = Sent(op: HelperOp, via: nat)

  datatype State = State(
    clock: int,
    items: Items,
    pcs: map<nat, Pc>,
    h: History,
    forwards: seq<Served>,
    refusals: seq<Refusal>,
    sent: seq<Sent>)
  {
    function At(i: nat): Pc {
      if i in pcs then pcs[i] else Free
    }

    function Go(i: nat, pc: Pc): State {
      this.(pcs := pcs[i := pc])
    }

    /** Request n is over, without its handler being called. */
    function Refuse(i: nat, n: nat, status: int): State {
      this.(pcs := pcs[i := Free], refusals := refusals + [Refusal(n, status)])
    }
  }

  function Init(t: int): State {
    State(t, map[], map[], History([], [], []), [], [], [])
  }

  /** Time passes, a request arrives, or the request in slot i takes its next step; when that is a call
      to the helper, `host` is what the host knows then, or None when the socket is unavailable. */
  datatype Event = Tick(d: nat) | Arrive(i: nat, r: Request) | Act(i: nat, host: Option<Host>)

  function Arrived(w: World, s: State, i: nat, r: Request): State {
    var n := |s.h.arrivals|;
    var s' := s.(h := s.h.(arrivals := s.h.arrivals + [Arrival(r, s.clock)]));
    if !w.socket || r.path == "/healthz" then s'.Go(i, Serving(n, r, "", NoRole))
    else if r.auth.None? || r.auth.value.0 == "" then s'.Refuse(i, n, 401)
    else s'.Go(i, Looking(n, r, r.auth.value.0, r.auth.value.1))
  }

  function Answered(w: World, s: State, i: nat, pc: Pc, host: Host): State
    requires pc.Asking?
  {
    var a := Answer(pc.n, pc.u, pc.p, host, s.clock);
    var resp := HandleAuth(pc.u, pc.p, host, w.cfg);
    var s' := s.(h := s.h.(answers := s.h.answers + [a]));
    if resp.ok then s'.Go(i, Storing(pc.n, pc.r, pc.u, pc.p, resp.role, |s.h.answers|)) else s'.Refuse(i, pc.n, 401)
  }

  function Kept(w: World, s: State, i: nat, pc: Pc): State
    requires pc.Storing?
  {
    s.Go(i, Serving(pc.n, pc.r, pc.role, FromHelper(pc.k)))
    .(items := Set(w.hash, s.items, pc.u, pc.p, pc.role, s.clock),
      h := s.h.(stores := s.h.stores + [Stored(pc.n, pc.k, s.clock)]))
  }

  function Apply(w: World, s: State, e: Event): State {
    match e
    case Tick(d) => s.(clock := s.clock + d)
    case Arrive(i, r) => if s.At(i).Free? then Arrived(w, s, i, r) else s
    case Act(i, host) =>
      match s.At(i)
      case Free => s
      case Looking(n, r, u, p) =>
        var hit := Get(w.hash, s.items, u, p, s.clock);
        s.Go(i, if hit.Some? then Serving(n, r, hit.value, FromCache(s.clock)) else Asking(n, r, u, p))
      case Asking(n, _, _, _) => if host.None? then s.Refuse(i, n, 503) else Answered(w, s, i, s.At(i), host.value)
      case Storing(_, _, _, _, _, _) => Kept(w, s, i, s.At(i))
      case Serving(n, r, role, src) =>
        var s' := s.Go(i, Free).(forwards := s.forwards + [Served(n, r, role, src)]);
        match React(r, role, w.socket)
        case Send(op) => s'.(sent := s.sent + [Sent(op, |s.forwards|)])
        case _ => s'
  }

  function Run(w: World, s: State, events: seq<Event>): State
    decreases |events|
  {
    if events == [] then s else Run(w, Apply(w, s, events[0]), events[1..])
  }

  // ------------------------------------------------------------------ claims

  /** Answer k said Ok with this role, for this username and a password with the digest of p. */
  ghost predicate Granted(w: World, h: History, k: nat, u: string, p: string, role: string) {
    && k < |h.answers| && h.answers[k].username == u && w.hash(h.answers[k].password) == w.hash(p)
    && ResponseOf(w, h.answers[k]).ok && ResponseOf(w, h.answers[k]).role == role
  }

  /** Answer k was put into the cache by the request that obtained it, no later than `found` and at
      most five minutes before it. */
  ghost predicate CachedAt(h: History, k: nat, found: int) {
    k < |h.answers| &&
    exists x | 0 <= x < |h.stores| ::
      && h.stores[x].k == k && h.stores[x].asker == h.answers[k].asker
      && h.answers[k].at <= h.stores[x].at <= found <= h.stores[x].at + 300
  }

  /** Answer k is what request n got its role from: the request asked for it itself, after it came in,
      or found it in the cache, after it came in. */
  ghost predicate Obtained(h: History, n: nat, src: Source, k: nat) {
    && n < |h.arrivals| && k < |h.answers|
    && match src
       case NoRole => false
       case FromHelper(j) => j == k && h.answers[k].asker == n && h.arrivals[n].at <= h.answers[k].at
       case FromCache(found) => h.arrivals[n].at <= found && CachedAt(h, k, found)
  }

  /** What makes a role legitimate for a request. */
  ghost predicate Backed(w: World, h: History, n: nat, r: Request, role: string, src: Source) {
    && n < |h.arrivals| && h.arrivals[n].r == r
    && if src.NoRole? then role == "" && (!w.socket || r.path == "/healthz")
       else
         && w.socket && r.auth.Some?
         && exists k :: Obtained(h, n, src, k) && Granted(w, h, k, r.auth.value.0, r.auth.value.1, role)
  }

  // --------------------------------------------------------------- invariant

  ghost predicate AnswerOk(h: History, clock: int, k: nat)
    requires k < |h.answers|
  {
    var a := h.answers[k];
    && a.asker < |h.arrivals| && h.arrivals[a.asker].at <= a.at <= clock
    && h.arrivals[a.asker].r.auth == Some((a.username, a.password))
  }

  ghost predicate StoreOk(h: History, clock: int, x: nat)
    requires x < |h.stores|
  {
    var st := h.stores[x];
    && st.k < |h.answers| && st.asker == h.answers[st.k].asker && h.answers[st.k].at <= st.at <= clock
  }

  /** Each request asks at most once, and each answer is stored at most once. */
  ghost predicate Once(h: History) {
    && (forall k, l | 0 <= k < l < |h.answers| :: h.answers[k].asker != h.answers[l].asker)
    && (forall x, y | 0 <= x < y < |h.stores| :: h.stores[x].k != h.stores[y].k)
  }

  ghost predicate HistoryOk(h: History, clock: int) {
    && (forall n | 0 <= n < |h.arrivals| :: h.arrivals[n].at <= clock)
    && (forall k | 0 <= k < |h.answers| :: AnswerOk(h, clock, k))
    && (forall x | 0 <= x < |h.stores| :: StoreOk(h, clock, x))
    && Once(h)
  }

  /** The entry under a key is what store x put there. */
  ghost predicate EntryFrom(w: World, h: History, key: string, e: Entry, x: nat) {
    && x < |h.stores| && h.stores[x].k < |h.answers|
    && var a := h.answers[h.stores[x].k];
       && key == CacheKey(w.hash, a.username, a.password) && ResponseOf(w, a).ok
       && e == Entry(ResponseOf(w, a).role, h.stores[x].at + TTL)
  }

  ghost predicate CacheOk(w: World, h: History, items: Items) {
    forall key | key in items :: exists x :: EntryFrom(w, h, key, items[key], x)
  }

  ghost predicate PcOk(w: World, h: History, pc: Pc) {
    match pc
    case Free => true
    case Looking(n, r, u, p) => CanAsk(w, h, n, r, u, p)
    case Asking(n, r, u, p) => CanAsk(w, h, n, r, u, p)
    case Storing(n, r, u, p, role, k) =>
      && n < |h.arrivals| && h.arrivals[n].r == r && w.socket && r.auth == Some((u, p))
      && k < |h.answers| && h.answers[k].asker == n && h.answers[k].username == u && h.answers[k].password == p
      && ResponseOf(w, h.answers[k]).ok && ResponseOf(w, h.answers[k]).role == role
      && forall x | 0 <= x < |h.stores| :: h.stores[x].k != k
    case Serving(n, r, role, src) => Backed(w, h, n, r, role, src)
  }

  /** Request n has credentials and has not asked the helper yet. */
  ghost predicate CanAsk(w: World, h: History, n: nat, r: Request, u: string, p: string) {
    && n < |h.arrivals| && h.arrivals[n].r == r && w.socket && r.auth == Some((u, p))
    && forall k | 0 <= k < |h.answers| :: h.answers[k].asker != n
  }

  /** No two slots hold the same request. */
  ghost predicate Apart(s: State) {
    forall i: nat, j: nat | i != j && !s.At(i).Free? && !s.At(j).Free? :: s.At(i).n != s.At(j).n
  }

  ghost predicate ForwardsOk(w: World, s: State) {
    && (forall f | f in s.forwards :: Backed(w, s.h, f.n, f.r, f.role, f.src))
    && (forall x | x in s.sent ::
          x.via < |s.forwards| && React(s.forwards[x.via].r, s.forwards[x.via].role, w.socket) == Send(x.op))
  }

  ghost predicate Inv(w: World, s: State) {
    && HistoryOk(s.h, s.clock) && CacheOk(w, s.h, s.items) && Apart(s) && ForwardsOk(w, s)
    && forall i: nat :: PcOk(w, s.h, s.At(i))
  }

  /** History is only added to. */
  ghost predicate Grows(h: History, h': History) {
    h.arrivals <= h'.arrivals && h.answers <= h'.answers && h.stores <= h'.stores
  }

  // ------------------------------------------------------------ preservation

  lemma ObtainedGrows(h: History, h': History, n: nat, src: Source, k: nat)
    requires Grows(h, h') && Obtained(h, n, src, k)
    ensures Obtained(h', n, src, k)
  {
    if src.FromCache? {
      var x :| 0 <= x < |h.stores| && h.stores[x].k == k && h.stores[x].asker == h.answers[k].asker
        && h.answers[k].at <= h.stores[x].at <= src.found <= h.stores[x].at + 300;
      assert h'.stores[x] == h.stores[x] && h'.answers[k] == h.answers[k];
    }
  }

  /** What is backed stays backed. */
  lemma BackedGrows(w: World, h: History, h': History, n: nat, r: Request, role: string, src: Source)
    requires Grows(h, h') && Backed(w, h, n, r, role, src)
    ensures Backed(w, h', n, r, role, src)
  {
    if !src.NoRole? {
      var k :| Obtained(h, n, src, k) && Granted(w, h, k, r.auth.value.0, r.auth.value.1, role);
      ObtainedGrows(h, h', n, src, k);
      assert Granted(w, h', k, r.auth.value.0, r.auth.value.1, role);
    }
  }

  lemma CacheGrows(w: World, h: History, h': History, items: Items)
    requires Grows(h, h') && CacheOk(w, h, items)
    ensures CacheOk(w, h', items)
  {
    forall key | key in items ensures exists x :: EntryFrom(w, h', key, items[key], x) {
      var x :| EntryFrom(w, h, key, items[key], x);
      assert EntryFrom(w, h', key, items[key], x);
    }
  }

  lemma HistoryAges(h: History, clock: int, later: int)
    requires HistoryOk(h, clock) && clock <= later
    ensures HistoryOk(h, later)
  {
    forall k | 0 <= k < |h.answers| ensures AnswerOk(h, later, k) {
      assert AnswerOk(h, clock, k);
    }
    forall x | 0 <= x < |h.stores| ensures StoreOk(h, later, x) {
      assert StoreOk(h, clock, x);
    }
  }

  lemma HistoryArrives(h: History, clock: int, r: Request)
    requires HistoryOk(h, clock)
    ensures HistoryOk(h.(arrivals := h.arrivals + [Arrival(r, clock)]), clock)
  {
    var h' := h.(arrivals := h.arrivals + [Arrival(r, clock)]);
    forall k | 0 <= k < |h'.answers| ensures AnswerOk(h', clock, k) {
      assert AnswerOk(h, clock, k);
    }
    forall x | 0 <= x < |h'.stores| ensures StoreOk(h', clock, x) {
      assert StoreOk(h, clock, x);
    }
  }

  lemma HistoryAnswers(w: World, h: History, clock: int, n: nat, r: Request, u: string, p: string, host: Host)
    requires HistoryOk(h, clock) && CanAsk(w, h, n, r, u, p)
    ensures HistoryOk(h.(answers := h.answers + [Answer(n, u, p, host, clock)]), clock)
  {
    var h' := h.(answers := h.answers + [Answer(n, u, p, host, clock)]);
    forall k | 0 <= k < |h'.answers| ensures AnswerOk(h', clock, k) {
      if k < |h.answers| { assert AnswerOk(h, clock, k); }
    }
    forall x | 0 <= x < |h'.stores| ensures StoreOk(h', clock, x) {
      assert StoreOk(h, clock, x);
    }
  }

  lemma HistoryStores(w: World, h: History, clock: int, pc: Pc)
    requires HistoryOk(h, clock) && pc.Storing? && PcOk(w, h, pc)
    ensures HistoryOk(h.(stores := h.stores + [Stored(pc.n, pc.k, clock)]), clock)
  {
    var h' := h.(stores := h.stores + [Stored(pc.n, pc.k, clock)]);
    assert AnswerOk(h, clock, pc.k);
    forall k | 0 <= k < |h'.answers| ensures AnswerOk(h', clock, k) {
      assert AnswerOk(h, clock, k);
    }
    forall x | 0 <= x < |h'.stores| ensures StoreOk(h', clock, x) {
      if x < |h.stores| { assert StoreOk(h, clock, x); }
    }
  }

  /** What a step adds to the history, and what the moving slot held. */
  lemma StepFrame(w: World, s: State, e: Event)
    ensures var s' := Apply(w, s, e);
      && Grows(s.h, s'.h) && s.clock <= s'.clock
      && (!(e.Act? && s.At(e.i).Storing?) ==> s'.items == s.items)
      && (forall j: nat | e.Tick? || j != e.i :: s'.At(j) == s.At(j))
      && (!e.Tick? && !s'.At(e.i).Free? ==>
            s'.At(e.i).n == if s.At(e.i).Free? then |s.h.arrivals| else s.At(e.i).n)
  {
  }

  lemma StepKeepsHistory(w: World, s: State, e: Event)
    requires HistoryOk(s.h, s.clock) && (e.Act? ==> PcOk(w, s.h, s.At(e.i)))
    ensures HistoryOk(Apply(w, s, e).h, Apply(w, s, e).clock)
  {
    match e
    case Tick(d) => HistoryAges(s.h, s.clock, s.clock + d);
    case Arrive(i, r) => HistoryArrives(s.h, s.clock, r);
    case Act(i, host) =>
      var pc := s.At(i);
      if pc.Asking? && host.Some? {
        HistoryAnswers(w, s.h, s.clock, pc.n, pc.r, pc.u, pc.p, host.value);
      } else if pc.Storing? {
        HistoryStores(w, s.h, s.clock, pc);
      }
  }

  lemma KeptKeepsCache(w: World, s: State, i: nat, pc: Pc)
    requires CacheOk(w, s.h, s.items) && pc.Storing? && PcOk(w, s.h, pc)
    ensures CacheOk(w, Kept(w, s, i, pc).h, Kept(w, s, i, pc).items)
  {
    var s' := Kept(w, s, i, pc);
    CacheGrows(w, s.h, s'.h, s.items);
    var key := CacheKey(w.hash, pc.u, pc.p);
    assert EntryFrom(w, s'.h, key, s'.items[key], |s.h.stores|);
    forall l | l in s'.items ensures exists x :: EntryFrom(w, s'.h, l, s'.items[l], x) {
      if l != key {
        assert l in s.items && s'.items[l] == s.items[l];
      }
    }
  }

  lemma StepKeepsCache(w: World, s: State, e: Event)
    requires CacheOk(w, s.h, s.items) && (e.Act? ==> PcOk(w, s.h, s.At(e.i)))
    ensures CacheOk(w, Apply(w, s, e).h, Apply(w, s, e).items)
  {
    if e.Act? && s.At(e.i).Storing? {
      KeptKeepsCache(w, s, e.i, s.At(e.i));
    } else {
      var s' := Apply(w, s, e);
      StepFrame(w, s, e);
      CacheGrows(w, s.h, s'.h, s'.items);
    }
  }

  /** A slot that holds a request knows a number below the count of arrivals. */
  lemma Numbered(w: World, h: History, pc: Pc)
    requires PcOk(w, h, pc) && !pc.Free?
    ensures pc.n < |h.arrivals|
  {
  }

  lemma StepKeepsApart(w: World, s: State, e: Event)
    requires Apart(s) && forall i: nat :: PcOk(w, s.h, s.At(i))
    ensures Apart(Apply(w, s, e))
  {
    var s' := Apply(w, s, e);
    StepFrame(w, s, e);
    forall i: nat, j: nat | i != j && !s'.At(i).Free? && !s'.At(j).Free? ensures s'.At(i).n != s'.At(j).n {
      assert PcOk(w, s.h, s.At(i)) && PcOk(w, s.h, s.At(j));
    }
  }

  /** An unexpired entry was stored by the request that obtained its answer. */
  lemma EntryObtained(w: World, h: History, clock: int, n: nat, u: string, p: string, e: Entry, x: nat)
    requires FixedLength(w.hash) && HistoryOk(h, clock) && n < |h.arrivals|
    requires EntryFrom(w, h, CacheKey(w.hash, u, p), e, x) && clock <= e.expires
    ensures var k := h.stores[x].k; Obtained(h, n, FromCache(clock), k) && Granted(w, h, k, u, p, e.role)
  {
    var k := h.stores[x].k;
    var a := h.answers[k];
    KeyDetermines(w.hash, a.username, a.password, u, p);
    assert StoreOk(h, clock, x);
    assert CachedAt(h, k, clock);
  }

  /** A lookup that hits gets a role that is backed. */
  lemma HitBacked(w: World, s: State, pc: Pc)
    requires FixedLength(w.hash) && HistoryOk(s.h, s.clock) && CacheOk(w, s.h, s.items)
    requires pc.Looking? && PcOk(w, s.h, pc) && Get(w.hash, s.items, pc.u, pc.p, s.clock).Some?
    ensures Backed(w, s.h, pc.n, pc.r, Get(w.hash, s.items, pc.u, pc.p, s.clock).value, FromCache(s.clock))
  {
    var key := CacheKey(w.hash, pc.u, pc.p);
    var x :| EntryFrom(w, s.h, key, s.items[key], x);
    EntryObtained(w, s.h, s.clock, pc.n, pc.u, pc.p, s.items[key], x);
  }

  lemma OwnBacked(w: World, s: State, i: nat, pc: Pc)
    requires HistoryOk(s.h, s.clock) && pc.Storing? && PcOk(w, s.h, pc)
    ensures PcOk(w, Kept(w, s, i, pc).h, Kept(w, s, i, pc).At(i))
  {
    var h' := Kept(w, s, i, pc).h;
    assert AnswerOk(s.h, s.clock, pc.k);
    assert Obtained(h', pc.n, FromHelper(pc.k), pc.k);
    assert Granted(w, h', pc.k, pc.u, pc.p, pc.role);
  }

  lemma AnsweredOk(w: World, s: State, i: nat, pc: Pc, host: Host)
    requires HistoryOk(s.h, s.clock) && pc.Asking? && PcOk(w, s.h, pc)
    ensures PcOk(w, Answered(w, s, i, pc, host).h, Answered(w, s, i, pc, host).At(i))
  {
    forall x | 0 <= x < |s.h.stores| ensures s.h.stores[x].k != |s.h.answers| {
      assert StoreOk(s.h, s.clock, x);
    }
  }

  lemma ArrivedOk(w: World, s: State, i: nat, r: Request)
    requires HistoryOk(s.h, s.clock)
    ensures PcOk(w, Arrived(w, s, i, r).h, Arrived(w, s, i, r).At(i))
  {
    forall k | 0 <= k < |s.h.answers| ensures s.h.answers[k].asker != |s.h.arrivals| {
      assert AnswerOk(s.h, s.clock, k);
    }
  }

  /** The request that moves ends up where it may be. */
  lemma MoverOk(w: World, s: State, e: Event)
    requires FixedLength(w.hash) && HistoryOk(s.h, s.clock) && CacheOk(w, s.h, s.items)
    requires !e.Tick? && PcOk(w, s.h, s.At(e.i))
    ensures PcOk(w, Apply(w, s, e).h, Apply(w, s, e).At(e.i))
  {
    var pc := s.At(e.i);
    if e.Arrive? {
      if pc.Free? { ArrivedOk(w, s, e.i, e.r); }
    } else if pc.Looking? {
      if Get(w.hash, s.items, pc.u, pc.p, s.clock).Some? { HitBacked(w, s, pc); }
    } else if pc.Asking? {
      if e.host.Some? { AnsweredOk(w, s, e.i, pc, e.host.value); }
    } else if pc.Storing? {
      OwnBacked(w, s, e.i, pc);
    }
  }

  /** The others stay where they may be: what is added concerns another request. */
  lemma OthersOk(w: World, h: History, h': History, pc: Pc, mover: nat)
    requires PcOk(w, h, pc) && Grows(h, h') && (!pc.Free? ==> pc.n != mover)
    requires forall k | |h.answers| <= k < |h'.answers| :: h'.answers[k].asker == mover
    requires forall x | |h.stores| <= x < |h'.stores| ::
      h'.stores[x].k < |h.answers| && h.answers[h'.stores[x].k].asker == mover
    ensures PcOk(w, h', pc)
  {
    if pc.Serving? {
      BackedGrows(w, h, h', pc.n, pc.r, pc.role, pc.src);
    }
  }

  lemma StepKeepsOthers(w: World, s: State, e: Event, j: nat)
    requires Apart(s) && PcOk(w, s.h, s.At(j)) && (e.Tick? || (e.i != j && PcOk(w, s.h, s.At(e.i))))
    ensures PcOk(w, Apply(w, s, e).h, Apply(w, s, e).At(j))
  {
    var s' := Apply(w, s, e);
    StepFrame(w, s, e);
    var mover := if e.Act? && !s.At(e.i).Free? then s.At(e.i).n else |s.h.arrivals|;
    if !s.At(j).Free? {
      Numbered(w, s.h, s.At(j));
    }
    OthersOk(w, s.h, s'.h, s.At(j), mover);
  }

  lemma StepKeepsForwards(w: World, s: State, e: Event)
    requires ForwardsOk(w, s) && (e.Act? ==> PcOk(w, s.h, s.At(e.i)))
    ensures ForwardsOk(w, Apply(w, s, e))
  {
    var s' := Apply(w, s, e);
    StepFrame(w, s, e);
    forall f | f in s'.forwards ensures Backed(w, s'.h, f.n, f.r, f.role, f.src) {
      if f in s.forwards {
        BackedGrows(w, s.h, s'.h, f.n, f.r, f.role, f.src);
      }
    }
  }

  lemma StepKeepsInv(w: World, s: State, e: Event)
    requires FixedLength(w.hash) && Inv(w, s)
    ensures Inv(w, Apply(w, s, e))
  {
    var s' := Apply(w, s, e);
    if !e.Tick? {
      assert PcOk(w, s.h, s.At(e.i));
    }
    StepKeepsHistory(w, s, e);
    StepKeepsCache(w, s, e);
    StepKeepsApart(w, s, e);
    StepKeepsForwards(w, s, e);
    forall j: nat ensures PcOk(w, s'.h, s'.At(j)) {
      if !e.Tick? && j == e.i {
        MoverOk(w, s, e);
      } else {
        StepKeepsOthers(w, s, e, j);
      }
    }
  }

  lemma {:induction false} RunKeepsInv(w: World, s: State, events: seq<Event>)
    requires FixedLength(w.hash) && Inv(w, s)
    ensures Inv(w, Run(w, s, events))
    decreases |events|
  {
    if events != [] {
      StepKeepsInv(w, s, events[0]);
      RunKeepsInv(w, Apply(w, s, events[0]), events[1..]);
    }
  }

  // -------------------------------------------------------------- theorems

  /** PROVENANCE OF A ROLE.  In every interleaving, a request other than /healthz is only ever forwarded
      with a role that some answer of the helper granted to this very username and this password (up to
      the digest).  The request asked for that answer itself, after it arrived; or it found it in the
      cache, after it arrived, at most five minutes after the request that obtained it stored it. */
  lemma RoleProvenance(w: World, t: int, events: seq<Event>, j: nat) returns (k: nat)
    requires FixedLength(w.hash) && w.socket
    requires j < |Run(w, Init(t), events).forwards| && Run(w, Init(t), events).forwards[j].r.path != "/healthz"
    ensures var s := Run(w, Init(t), events);
            var f := s.forwards[j];
            && f.r.auth.Some? && f.n < |s.h.arrivals| && s.h.arrivals[f.n].r == f.r
            && Obtained(s.h, f.n, f.src, k)
            && Granted(w, s.h, k, f.r.auth.value.0, f.r.auth.value.1, f.role)
            && (f.src.FromHelper? ==> s.h.answers[k].password == f.r.auth.value.1)
  {
    RunKeepsInv(w, Init(t), events);
    var s := Run(w, Init(t), events);
    var f := s.forwards[j];
    assert f in s.forwards;
    k :| Obtained(s.h, f.n, f.src, k) && Granted(w, s.h, k, f.r.auth.value.0, f.r.auth.value.1, f.role);
    assert AnswerOk(s.h, s.clock, k);
  }

  /** Each request obtains at most one answer, and each answer is stored at most once, by the request
      that obtained it and not before. */
  lemma OneAnswerOneStore(w: World, t: int, events: seq<Event>)
    requires FixedLength(w.hash)
    ensures var h := Run(w, Init(t), events).h;
      && Once(h)
      && (forall k | 0 <= k < |h.answers| :: AnswerOk(h, Run(w, Init(t), events).clock, k))
      && (forall x | 0 <= x < |h.stores| :: StoreOk(h, Run(w, Init(t), events).clock, x))
  {
    RunKeepsInv(w, Init(t), events);
  }

  /** When the passwords in play do not collide, the password is the very same too. */
  lemma SamePassword(w: World, t: int, events: seq<Event>, j: nat, passwords: set<string>) returns (k: nat)
    requires FixedLength(w.hash) && w.socket && CollisionFree(w.hash, passwords)
    requires var s := Run(w, Init(t), events);
             && j < |s.forwards| && s.forwards[j].r.path != "/healthz"
             && (forall a | a in s.h.answers :: a.password in passwords)
             && (s.forwards[j].r.auth.Some? ==> s.forwards[j].r.auth.value.1 in passwords)
    ensures var s := Run(w, Init(t), events);
            var f := s.forwards[j];
            && f.r.auth.Some? && Obtained(s.h, f.n, f.src, k)
            && (s.h.answers[k].username, s.h.answers[k].password) == f.r.auth.value
            && ResponseOf(w, s.h.answers[k]).ok && ResponseOf(w, s.h.answers[k]).role == f.role
  {
    k := RoleProvenance(w, t, events, j);
    assert Run(w, Init(t), events).h.answers[k] in Run(w, Init(t), events).h.answers;
  }

  /** PROVENANCE OF AN OPERATION.  Every WAN or WiFi operation sent to the helper was asked for by a
      request whose role goes back, as above, to an answer for a member of the admin group: PAM accepted
      the password and some resolvable group id of that user was named the admin group. */
  lemma OperationProvenance(w: World, t: int, events: seq<Event>, j: nat) returns (k: nat)
    requires FixedLength(w.hash)
    requires j < |Run(w, Init(t), events).sent|
    ensures var s := Run(w, Init(t), events);
            var x := s.sent[j];
            && w.socket && x.via < |s.forwards|
            && var f := s.forwards[x.via];
               && f.role == "admin" && Asks(f.r) == Some(x.op) && f.r.auth.Some?
               && Obtained(s.h, f.n, f.src, k)
               && var a := s.h.answers[k];
                  && a.username == f.r.auth.value.0 && w.hash(a.password) == w.hash(f.r.auth.value.1)
                  && a.host.pamOk && MemberOf(a.host.lookup, w.cfg.adminGroup)
  {
    RunKeepsInv(w, Init(t), events);
    var s := Run(w, Init(t), events);
    var x := s.sent[j];
    assert x in s.sent;
    var f := s.forwards[x.via];
    assert f in s.forwards;
    GateExact(f.r, f.role, w.socket, x.op);
    assert "admin" != "";
    k :| Obtained(s.h, f.n, f.src, k) && Granted(w, s.h, k, f.r.auth.value.0, f.r.auth.value.1, f.role);
    var a := s.h.answers[k];
    HandleAuthGrants(a.username, a.password, a.host, w.cfg);
  }

  /** With no socket configured, nothing is ever sent. */
  lemma NoSocketNothingSent(w: World, t: int, events: seq<Event>)
    requires FixedLength(w.hash) && !w.socket
    ensures Run(w, Init(t), events).sent == []
  {
    if Run(w, Init(t), events).sent != [] {
      var k := OperationProvenance(w, t, events, 0);
    }
  }

  // --------------------------------------------- one request at a time

  /** The events of one request that nothing interferes with, up to the call of its handler; dl, da and
      ds pass before it looks, asks and stores. */
  function Alone(w: World, s: State, i: nat, r: Request, host: Option<Host>, dl: nat, da: nat, ds: nat): seq<Event> {
    var arrive := [Arrive(i, r), Tick(dl)];
    arrive + FromLook(w, Run(w, s, arrive), i, host, da, ds)
  }

  function FromLook(w: World, s: State, i: nat, host: Option<Host>, da: nat, ds: nat): seq<Event> {
    var look := [Act(i, host), Tick(da)];
    if s.At(i).Looking? then look + FromAsk(w, Run(w, s, look), i, host, ds) else []
  }

  function FromAsk(w: World, s: State, i: nat, host: Option<Host>, ds: nat): seq<Event> {
    var ask := [Act(i, host), Tick(ds)];
    if s.At(i).Asking? then ask + FromStore(Run(w, s, ask), i, host) else []
  }

  function FromStore(s: State, i: nat, host: Option<Host>): seq<Event> {
    if s.At(i).Storing? then [Act(i, host)] else []
  }

  /** What became of request n in slot i: it waits for its handler, or was the last one refused. */
  function OutcomeOf(s: State, i: nat, n: nat): Option<Outcome> {
    var pc, last := s.At(i), |s.refusals| - 1;
    if pc.Serving? && pc.n == n then Some(Forward(pc.role))
    else if pc.Free? && last >= 0 && s.refusals[last].n == n then Some(Status(s.refusals[last].status))
    else None
  }

  lemma {:induction false} RunAppend(w: World, s: State, a: seq<Event>, b: seq<Event>)
    ensures Run(w, s, a + b) == Run(w, Run(w, s, a), b)
    decreases |a|
  {
    if a == [] {
      assert a + b == b;
    } else {
      assert (a + b)[1..] == a[1..] + b;
      RunAppend(w, Apply(w, s, a[0]), a[1..], b);
    }
  }

  lemma RunTwo(w: World, s: State, a: Event, b: Event)
    ensures Run(w, s, [a, b]) == Apply(w, Apply(w, s, a), b)
  {
    assert [a, b][1..] == [b] && [b][1..] == [];
    assert Run(w, s, [a, b]) == Run(w, Apply(w, s, a), [b]);
  }

  lemma StoreAlone(w: World, s: State, i: nat, host: Option<Host>)
    requires s.At(i).Storing?
    ensures var pc := s.At(i);
      var s' := Run(w, s, FromStore(s, i, host));
      s'.items == Set(w.hash, s.items, pc.u, pc.p, pc.role, s.clock) && OutcomeOf(s', i, pc.n) == Some(Forward(pc.role))
  {
    assert Run(w, s, [Act(i, host)]) == Apply(w, s, Act(i, host));
  }

  /** What is left of Serve once the cache has missed. */
  function Missed(w: World, items: Items, u: string, p: string, host: Option<Host>, store: int): (Items, Outcome) {
    if host.None? then (items, Status(503))
    else
      var resp := HandleAuth(u, p, host.value, w.cfg);
      if !resp.ok then (items, Status(401)) else (Set(w.hash, items, u, p, resp.role, store), Forward(resp.role))
  }

  lemma AskAlone(w: World, s: State, i: nat, host: Option<Host>, ds: nat)
    requires s.At(i).Asking?
    ensures var pc := s.At(i);
      var s' := Run(w, s, FromAsk(w, s, i, host, ds));
      var (items, outcome) := Missed(w, s.items, pc.u, pc.p, host, s.clock + ds);
      s'.items == items && OutcomeOf(s', i, pc.n) == Some(outcome)
  {
    var ask := [Act(i, host), Tick(ds)];
    var s1 := Run(w, s, ask);
    RunTwo(w, s, Act(i, host), Tick(ds));
    RunAppend(w, s, ask, FromStore(s1, i, host));
    if s1.At(i).Storing? {
      StoreAlone(w, s1, i, host);
    }
  }

  lemma LookAlone(w: World, s: State, i: nat, host: Option<Host>, da: nat, ds: nat)
    requires s.At(i).Looking?
    ensures var pc := s.At(i);
      var s' := Run(w, s, FromLook(w, s, i, host, da, ds));
      var hit := Get(w.hash, s.items, pc.u, pc.p, s.clock);
      var (items, outcome) := if hit.Some? then (s.items, Forward(hit.value))
                              else Missed(w, s.items, pc.u, pc.p, host, s.clock + da + ds);
      s'.items == items && OutcomeOf(s', i, pc.n) == Some(outcome)
  {
    var look := [Act(i, host), Tick(da)];
    var s1 := Run(w, s, look);
    RunTwo(w, s, Act(i, host), Tick(da));
    RunAppend(w, s, look, FromAsk(w, s1, i, host, ds));
    if s1.At(i).Asking? {
      AskAlone(w, s1, i, host, ds);
    }
  }

  /** ONE REQUEST AT A TIME.  Without interference a request ends as the middleware says: the same cache
      and the same outcome, whatever the cache held before. */
  lemma AloneIsServe(w: World, s: State, i: nat, r: Request, host: Option<Host>, dl: nat, da: nat, ds: nat)
    requires w.socket && s.At(i).Free?
    ensures var s' := Run(w, s, Alone(w, s, i, r, host, dl, da, ds));
      var answer := if host.None? || r.auth.None? then None
                    else Some(HandleAuth(r.auth.value.0, r.auth.value.1, host.value, w.cfg));
      var (items, outcome) := Serve(w.hash, s.items, r.path, r.auth, s.clock + dl, answer, s.clock + dl + da + ds);
      s'.items == items && OutcomeOf(s', i, |s.h.arrivals|) == Some(outcome)
  {
    var arrive := [Arrive(i, r), Tick(dl)];
    var s1 := Run(w, s, arrive);
    RunTwo(w, s, Arrive(i, r), Tick(dl));
    RunAppend(w, s, arrive, FromLook(w, s1, i, host, da, ds));
    if s1.At(i).Looking? {
      LookAlone(w, s1, i, host, da, ds);
    }
  }
}
