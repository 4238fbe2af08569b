/** The refresh protocol that the hotspot, WAN and admin collectors share (Snapshot and refresh of
    dashboard/internal/{hotspot,wan,admin}): check staleness under mu, unlock, lock again, re-check,
    sample, publish through an atomic pointer, set lastAt, unlock, and load the pointer without the lock.

    Any number of callers interleave.  Times are integers counted from Go's zero time, which is where
    lastAt starts; the clock never goes back.  What a sampling observes (O) and the body it publishes (P)
    are parameters: `rel(previous, observed, next)` says which bodies a collector may publish. */
module TtlProtocol {
  import opened Wrappers

  datatype Snap<P> = Snap(at: int, body: P)

  /** Where a caller is.  `first` is its first reading of the clock, in Snapshot. */
  datatype Pc<P> =
    | Idle
    | Want                                          // Snapshot: waiting for mu
    | Checking                                      // holds mu, about to read the clock
    | Checked(first: int, stale: bool)              // holds mu, about to unlock
    | WantRefresh(first: int)                       // refresh: waiting for mu
    | Rechecking(first: int)                        // holds mu, about to read the clock again
    | Stamping(first: int)                          // still stale, about to take `now`
    | Stamped(first: int, now: int)                 // about to load the previous snapshot
    | Sampling(first: int, now: int, prev: Snap<P>) // commands running
    | Stored(first: int, now: int)                  // pointer stored, lastAt not yet set
    | Unlocking(first: int)                         // about to unlock
    | Loading(first: int)                           // outside the lock, about to load the pointer
    | Returned(first: int, snap: Snap<P>)
  {
    predicate Holds() {
      Checking? || Checked? || Rechecking? || Stamping? || Stamped? || Sampling? || Stored? || Unlocking?
    }
  }

  /** The shared variables, the callers, and the history of the run: the `now` of every refresh that
      went on to sample, what those samplings observed, every snapshot published, every time loaded. */
  datatype State<P, O> = State(
    clock: int,
    holder: Option<nat>,
    lastAt: int,
    snap: Snap<P>,
    pcs: map<nat, Pc<P>>,
    stamps: seq<int>,
    observed: seq<O>,
    published: seq<Snap<P>>,
    loads: seq<int>)
  {
    function At(i: nat): Pc<P> {
      if i in pcs then pcs[i] else Idle
    }

    function Go(i: nat, pc: Pc<P>): State<P, O> {
      this.(pcs := pcs[i := pc])
    }
  }

  /** The constructor of a collector, at clock reading t. */
  function Init<P, O>(t: int, body: P): State<P, O> {
    State(t, None, 0, Snap(t, body), map[], [], [], [Snap(t, body)], [])
  }

  /** Time passes, or caller i takes its next step; a sampling step observes o and publishes body. */
  datatype Event<P, O> = Tick(d: nat) | Act(i: nat, o: O, body: P)

  predicate Enabled<P, O>(rel: (P, O, P) -> bool, s: State<P, O>, e: Event<P, O>) {
    match e
    case Tick(_) => true
    case Act(i, o, body) =>
      match s.At(i)
      case Want => s.holder.None?
      case WantRefresh(_) => s.holder.None?
      case Sampling(_, _, prev) => rel(prev.body, o, body)
      case _ => true
  }

  function Apply<P, O>(ttl: int, s: State<P, O>, e: Event<P, O>): State<P, O> {
    match e
    case Tick(d) => s.(clock := s.clock + d)
    case Act(i, o, body) =>
      match s.At(i)
      case Idle => s.Go(i, Want)
      case Want => s.Go(i, Checking).(holder := Some(i))
      case Checking => s.Go(i, Checked(s.clock, s.clock - s.lastAt >= ttl))
      case Checked(first, stale) => s.Go(i, if stale then WantRefresh(first) else Loading(first)).(holder := None)
      case WantRefresh(first) => s.Go(i, Rechecking(first)).(holder := Some(i))
      case Rechecking(first) => s.Go(i, if s.clock - s.lastAt < ttl then Unlocking(first) else Stamping(first))
      case Stamping(first) => s.Go(i, Stamped(first, s.clock)).(stamps := s.stamps + [s.clock])
      case Stamped(first, now) => s.Go(i, Sampling(first, now, s.snap))
      case Sampling(first, now, _) =>
        var next := Snap(now, body);
        s.Go(i, Stored(first, now)).(snap := next, published := s.published + [next], observed := s.observed + [o])
      case Stored(first, now) => s.Go(i, Unlocking(first)).(lastAt := now)
      case Unlocking(first) => s.Go(i, Loading(first)).(holder := None)
      case Loading(first) => s.Go(i, Returned(first, s.snap)).(loads := s.loads + [s.snap.at])
      case Returned(_, _) => s.Go(i, Idle)
  }

  ghost predicate Legal<P, O>(rel: (P, O, P) -> bool, ttl: int, s: State<P, O>, events: seq<Event<P, O>>)
    decreases |events|
  {
    events == [] || (Enabled(rel, s, events[0]) && Legal(rel, ttl, Apply(ttl, s, events[0]), events[1..]))
  }

  function Run<P, O>(ttl: int, s: State<P, O>, events: seq<Event<P, O>>): State<P, O>
    decreases |events|
  {
    if events == [] then s else Run(ttl, Apply(ttl, s, events[0]), events[1..])
  }

  // --------------------------------------------------------------- invariant

  function LastOr(s: seq<int>, none: int): int {
    if s == [] then none else s[|s| - 1]
  }

  /** Two successive refreshes are at least ttl apart. */
  ghost predicate Spaced(ttl: int, stamps: seq<int>) {
    forall k | 0 <= k < |stamps| - 1 :: stamps[k + 1] - stamps[k] >= ttl
  }

  ghost predicate Nondecreasing(s: seq<int>) {
    forall j, k | 0 <= j <= k < |s| :: s[j] <= s[k]
  }

  ghost predicate LockOk<P, O>(s: State<P, O>) {
    forall i: nat :: s.At(i).Holds() <==> s.holder == Some(i)
  }

  /** What a caller may rely on; it only gets easier to satisfy as time and snapshots move on. */
  ghost predicate CallerOk<P>(ttl: int, clock: int, snapAt: int, pc: Pc<P>) {
    match pc
    case Idle => true
    case Want => true
    case Checking => true
    case Checked(first, stale) => first <= clock && (!stale ==> first < snapAt + ttl)
    case WantRefresh(first) => first <= clock
    case Rechecking(first) => first <= clock
    case Stamping(first) => first <= clock
    case Stamped(first, now) => first <= now <= clock
    case Sampling(first, now, _) => first <= now <= clock
    case Stored(first, now) => first < snapAt + ttl && now <= clock
    case Unlocking(first) => first < snapAt + ttl
    case Loading(first) => first < snapAt + ttl
    case Returned(first, snap) => first < snap.at + ttl
  }

  /** The refresh in flight, if there is one: its `now`, and whether it has published. */
  function Pending<P, O>(s: State<P, O>): Option<(int, bool)> {
    if s.holder.None? then None
    else match s.At(s.holder.value)
      case Stamped(_, now) => Some((now, false))
      case Sampling(_, now, _) => Some((now, false))
      case Stored(_, now) => Some((now, true))
      case _ => None
  }

  /** How the shared variables follow from the history. */
  ghost predicate HistoryOk<P, O>(ttl: int, s: State<P, O>) {
    var p := Pending(s);
    var n := |s.stamps|;
    && 0 <= s.lastAt <= s.snap.at <= s.clock
    && (p.None? ==> s.lastAt == LastOr(s.stamps, 0))
    && (p.Some? ==> n > 0 && p.value.0 == s.stamps[n - 1] && s.lastAt == LastOr(s.stamps[..n - 1], 0)
                    && s.lastAt + ttl <= p.value.0 <= s.clock
                    && (if p.value.1 then s.snap.at == p.value.0 else s.snap.at <= p.value.0))
    && (s.holder.Some? && s.At(s.holder.value).Stamping? ==> s.lastAt + ttl <= s.clock)
  }

  /** Every sampling publishes one snapshot, stamped with its `now`, whose body rel allows after
      the one published before it. */
  ghost predicate ChainOk<P, O>(rel: (P, O, P) -> bool, stamps: seq<int>, observed: seq<O>, published: seq<Snap<P>>) {
    && |published| == |observed| + 1 && |observed| <= |stamps|
    && (forall k | 0 <= k < |observed| :: published[k + 1].at == stamps[k])
    && (forall k | 0 <= k < |observed| :: rel(published[k].body, observed[k], published[k + 1].body))
    && (forall k | 0 <= k < |observed| :: published[k].at <= published[k + 1].at)
  }

  ghost predicate PublishedOk<P, O>(rel: (P, O, P) -> bool, s: State<P, O>) {
    && ChainOk(rel, s.stamps, s.observed, s.published)
    && s.published[|s.observed|] == s.snap
    && |s.stamps| == |s.observed| + (if Unpublished(s) then 1 else 0)
    && (s.holder.Some? && s.At(s.holder.value).Sampling? ==> s.At(s.holder.value).prev == s.snap)
  }

  /** A refresh is in flight and has not published yet. */
  predicate Unpublished<P, O>(s: State<P, O>) {
    Pending(s).Some? && !Pending(s).value.1
  }

  ghost predicate LoadsOk<P, O>(s: State<P, O>) {
    Nondecreasing(s.loads) && LastOr(s.loads, s.snap.at) <= s.snap.at
  }

  ghost predicate Inv<P, O>(rel: (P, O, P) -> bool, ttl: int, s: State<P, O>) {
    && LockOk(s)
    && (forall i: nat :: CallerOk(ttl, s.clock, s.snap.at, s.At(i)))
    && Spaced(ttl, s.stamps)
    && HistoryOk(ttl, s)
    && PublishedOk(rel, s)
    && LoadsOk(s)
  }

  lemma StepKeepsLock<P, O>(rel: (P, O, P) -> bool, ttl: int, s: State<P, O>, e: Event<P, O>)
    requires LockOk(s) && Enabled(rel, s, e)
    ensures LockOk(Apply(ttl, s, e))
  {
    var s' := Apply(ttl, s, e);
    forall i: nat ensures s'.At(i).Holds() <==> s'.holder == Some(i) {
      assert s.At(i).Holds() <==> s.holder == Some(i);
      if e.Act? {
        assert s.At(e.i).Holds() <==> s.holder == Some(e.i);
      }
    }
  }

  /** The part of the invariant that concerns the caller about to move. */
  ghost predicate ActorOk<P, O>(ttl: int, s: State<P, O>, e: Event<P, O>) {
    e.Act? ==>
      && (s.At(e.i).Holds() <==> s.holder == Some(e.i))
      && CallerOk(ttl, s.clock, s.snap.at, s.At(e.i))
  }

  lemma StepKeepsSpaced<P, O>(rel: (P, O, P) -> bool, ttl: int, s: State<P, O>, e: Event<P, O>)
    requires Spaced(ttl, s.stamps) && HistoryOk(ttl, s) && ActorOk(ttl, s, e) && Enabled(rel, s, e)
    ensures Spaced(ttl, Apply(ttl, s, e).stamps)
  {
    StepFrame(rel, ttl, s, e);
  }

  lemma StepKeepsHistory<P, O>(rel: (P, O, P) -> bool, ttl: int, s: State<P, O>, e: Event<P, O>)
    requires ttl > 0 && HistoryOk(ttl, s) && ActorOk(ttl, s, e) && Enabled(rel, s, e)
    ensures HistoryOk(ttl, Apply(ttl, s, e))
  {
    var s' := Apply(ttl, s, e);
    if e.Act? && s.At(e.i).Stamping? {
      assert s'.stamps[..|s.stamps|] == s.stamps;
    }
  }

  lemma ChainGrows<P, O>(rel: (P, O, P) -> bool, stamps: seq<int>, observed: seq<O>, published: seq<Snap<P>>,
                         o: O, next: Snap<P>)
    requires ChainOk(rel, stamps, observed, published)
    requires |stamps| == |observed| + 1 && next.at == stamps[|observed|]
    requires rel(published[|observed|].body, o, next.body) && published[|observed|].at <= next.at
    ensures ChainOk(rel, stamps, observed + [o], published + [next])
  {
  }

  /** Which of the published things a step leaves alone. */
  lemma StepFrame<P, O>(rel: (P, O, P) -> bool, ttl: int, s: State<P, O>, e: Event<P, O>)
    requires ActorOk(ttl, s, e) && Enabled(rel, s, e)
    ensures var s' := Apply(ttl, s, e);
            && (e.Act? && s.At(e.i).Sampling? ==> Unpublished(s) && !Unpublished(s') && s'.At(e.i).Stored?)
            && (e.Act? && s.At(e.i).Stamping? ==> !Unpublished(s) && Unpublished(s') && s'.At(e.i).Stamped?)
            && (e.Act? && (s.At(e.i).Sampling? || s.At(e.i).Stamping?) ==> s'.holder == Some(e.i))
            && (e.Act? && s.At(e.i).Stamping? ==>
                  s'.observed == s.observed && s'.published == s.published && s'.snap == s.snap)
            && (!(e.Act? && (s.At(e.i).Sampling? || s.At(e.i).Stamping?)) ==>
                  && Unpublished(s') == Unpublished(s) && s'.stamps == s.stamps
                  && s'.observed == s.observed && s'.published == s.published && s'.snap == s.snap
                  && (s'.holder.Some? && s'.At(s'.holder.value).Sampling? ==>
                        (s.holder == s'.holder && s.At(s.holder.value) == s'.At(s.holder.value))
                        || s'.At(s'.holder.value).prev == s.snap))
  {
  }

  lemma StepKeepsPublished<P, O>(rel: (P, O, P) -> bool, ttl: int, s: State<P, O>, e: Event<P, O>)
    requires ttl > 0 && HistoryOk(ttl, s) && PublishedOk(rel, s) && ActorOk(ttl, s, e) && Enabled(rel, s, e)
    ensures PublishedOk(rel, Apply(ttl, s, e))
  {
    StepFrame(rel, ttl, s, e);
    if e.Act? && s.At(e.i).Sampling? {
      ChainGrows(rel, s.stamps, s.observed, s.published, e.o, Snap(s.At(e.i).now, e.body));
    } else if e.Act? && s.At(e.i).Stamping? {
      var s' := Apply(ttl, s, e);
      assert s'.stamps == s.stamps + [s.clock];
      assert ChainOk(rel, s'.stamps, s'.observed, s'.published);
    }
  }

  lemma StepKeepsLoads<P, O>(rel: (P, O, P) -> bool, ttl: int, s: State<P, O>, e: Event<P, O>)
    requires HistoryOk(ttl, s) && LoadsOk(s) && ActorOk(ttl, s, e) && Enabled(rel, s, e)
    ensures LoadsOk(Apply(ttl, s, e))
    ensures s.clock <= Apply(ttl, s, e).clock && s.snap.at <= Apply(ttl, s, e).snap.at
  {
    var s' := Apply(ttl, s, e);
    if e.Act? && s.At(e.i).Loading? {
      assert s'.loads == s.loads + [s.snap.at];
    }
  }

  lemma ActorMoves<P, O>(rel: (P, O, P) -> bool, ttl: int, s: State<P, O>, e: Event<P, O>)
    requires ttl > 0 && HistoryOk(ttl, s) && ActorOk(ttl, s, e) && Enabled(rel, s, e) && e.Act?
    ensures var s' := Apply(ttl, s, e); CallerOk(ttl, s'.clock, s'.snap.at, s'.At(e.i))
  {
  }

  lemma StepKeepsCallers<P, O>(rel: (P, O, P) -> bool, ttl: int, s: State<P, O>, e: Event<P, O>)
    requires ttl > 0 && Inv(rel, ttl, s) && Enabled(rel, s, e) && ActorOk(ttl, s, e)
    ensures var s' := Apply(ttl, s, e); forall i: nat :: CallerOk(ttl, s'.clock, s'.snap.at, s'.At(i))
  {
    var s' := Apply(ttl, s, e);
    StepKeepsLoads(rel, ttl, s, e);
    forall i: nat ensures CallerOk(ttl, s'.clock, s'.snap.at, s'.At(i)) {
      if e.Act? && i == e.i {
        ActorMoves(rel, ttl, s, e);
      } else {
        assert s'.At(i) == s.At(i);
        assert CallerOk(ttl, s.clock, s.snap.at, s.At(i));
      }
    }
  }

  /** Every step of every caller keeps the invariant. */
  lemma StepKeepsInv<P, O>(rel: (P, O, P) -> bool, ttl: int, s: State<P, O>, e: Event<P, O>)
    requires ttl > 0 && Inv(rel, ttl, s) && Enabled(rel, s, e)
    ensures Inv(rel, ttl, Apply(ttl, s, e))
  {
    StepKeepsLock(rel, ttl, s, e);
    StepKeepsSpaced(rel, ttl, s, e);
    StepKeepsHistory(rel, ttl, s, e);
    StepKeepsPublished(rel, ttl, s, e);
    StepKeepsLoads(rel, ttl, s, e);
    StepKeepsCallers(rel, ttl, s, e);
  }

  lemma {:induction false} RunKeepsInv<P, O>(rel: (P, O, P) -> bool, ttl: int, s: State<P, O>, events: seq<Event<P, O>>)
    requires ttl > 0 && Inv(rel, ttl, s) && Legal(rel, ttl, s, events)
    ensures Inv(rel, ttl, Run(ttl, s, events))
    decreases |events|
  {
    if events != [] {
      StepKeepsInv(rel, ttl, s, events[0]);
      RunKeepsInv(rel, ttl, Apply(ttl, s, events[0]), events[1..]);
    }
  }

  lemma InitInv<P, O>(rel: (P, O, P) -> bool, ttl: int, t: int, body: P)
    requires ttl > 0 && t >= 0
    ensures Inv<P, O>(rel, ttl, Init(t, body))
  {
  }

  lemma ReachableInv<P, O>(rel: (P, O, P) -> bool, ttl: int, t: int, body: P, events: seq<Event<P, O>>)
    requires ttl > 0 && t >= 0 && Legal(rel, ttl, Init(t, body), events)
    ensures Inv(rel, ttl, Run(ttl, Init(t, body), events))
  {
    InitInv<P, O>(rel, ttl, t, body);
    RunKeepsInv(rel, ttl, Init(t, body), events);
  }

  // -------------------------------------------------------------- theorems

  /** How many of the stamps lie in the closed window from a to b. */
  function CountIn(stamps: seq<int>, a: int, b: int): nat {
    if stamps == [] then 0
    else
      var last := stamps[|stamps| - 1];
      CountIn(stamps[..|stamps| - 1], a, b) + if a <= last <= b then 1 else 0
  }

  lemma {:induction false} CountShrinks(stamps: seq<int>, a: int, b: int, c: int)
    requires c <= b && forall k | 0 <= k < |stamps| :: stamps[k] <= c
    ensures CountIn(stamps, a, b) == CountIn(stamps, a, c)
    ensures c < a ==> CountIn(stamps, a, b) == 0
  {
    if stamps != [] { CountShrinks(stamps[..|stamps| - 1], a, b, c); }
  }

  lemma {:induction false} SpacedBelow(ttl: int, stamps: seq<int>, k: nat)
    requires ttl > 0 && Spaced(ttl, stamps) && k < |stamps|
    ensures forall j | 0 <= j < k :: stamps[j] <= stamps[k] - ttl
  {
    if k > 0 {
      SpacedBelow(ttl, stamps, k - 1);
      assert stamps[k - 1 + 1] - stamps[k - 1] >= ttl;
    }
  }

  lemma OneMore(n: int, ttl: int)
    ensures (n + 1) * ttl == n * ttl + ttl
  {
  }

  lemma {:induction false} WindowBound(ttl: int, stamps: seq<int>, a: int, b: int)
    requires ttl > 0 && Spaced(ttl, stamps) && a <= b
    ensures CountIn(stamps, a, b) * ttl <= (b - a) + ttl
    decreases |stamps|
  {
    if stamps != [] {
      var init, last := stamps[..|stamps| - 1], stamps[|stamps| - 1];
      if a <= last <= b {
        SpacedBelow(ttl, stamps, |stamps| - 1);
        CountShrinks(init, a, b, last - ttl);
        if a <= last - ttl {
          WindowBound(ttl, init, a, last - ttl);
          OneMore(CountIn(init, a, b), ttl);
        }
      } else {
        WindowBound(ttl, init, a, b);
      }
    }
  }

  lemma MulLess(m: int, n: int, ttl: int)
    requires ttl > 0
    ensures m < n <==> m * ttl < n * ttl
  {
    assert n * ttl - m * ttl == (n - m) * ttl;
  }

  lemma AtMostQuotient(n: int, ttl: int, width: int)
    requires ttl > 0 && n * ttl <= width + ttl
    ensures n <= width / ttl + 1
  {
    var q := width / ttl;
    MulLess(n, q + 2, ttl);
    assert width < q * ttl + ttl;
    assert (q + 2) * ttl == q * ttl + 2 * ttl;
  }

  /** SPACING AND RATE.  However many callers poll and however their steps interleave, two successive
      refreshes are at least ttl apart, so a window of length w holds at most floor(w / ttl) + 1. */
  lemma RefreshRate<P, O>(rel: (P, O, P) -> bool, ttl: int, t: int, body: P, events: seq<Event<P, O>>, a: int, w: nat)
    requires ttl > 0 && t >= 0 && Legal(rel, ttl, Init(t, body), events)
    ensures Spaced(ttl, Run(ttl, Init(t, body), events).stamps)
    ensures CountIn(Run(ttl, Init(t, body), events).stamps, a, a + w) <= w / ttl + 1
  {
    var s := Run(ttl, Init(t, body), events);
    ReachableInv(rel, ttl, t, body, events);
    WindowBound(ttl, s.stamps, a, a + w);
    AtMostQuotient(CountIn(s.stamps, a, a + w), ttl, w);
  }

  /** FRESHNESS.  A Snapshot call whose first clock reading is `first` returns a snapshot taken after
      first - ttl, although it loads the pointer outside the lock. */
  lemma Freshness<P, O>(rel: (P, O, P) -> bool, ttl: int, t: int, body: P, events: seq<Event<P, O>>, i: nat)
    requires ttl > 0 && t >= 0 && Legal(rel, ttl, Init(t, body), events)
    ensures var pc := Run(ttl, Init(t, body), events).At(i);
            pc.Returned? ==> pc.snap.at > pc.first - ttl
  {
    ReachableInv(rel, ttl, t, body, events);
    assert CallerOk(ttl, Run(ttl, Init(t, body), events).clock, Run(ttl, Init(t, body), events).snap.at,
                    Run(ttl, Init(t, body), events).At(i));
  }

  /** MONOTONE TIME.  The published times never go back, and neither do the times that successive
      loads see, across all callers. */
  lemma NeverGoesBack<P, O>(rel: (P, O, P) -> bool, ttl: int, t: int, body: P, events: seq<Event<P, O>>)
    requires ttl > 0 && t >= 0 && Legal(rel, ttl, Init(t, body), events)
    ensures var s := Run(ttl, Init(t, body), events);
            && (forall k | 0 <= k < |s.published| - 1 :: s.published[k].at <= s.published[k + 1].at)
            && Nondecreasing(s.loads)
  {
    ReachableInv(rel, ttl, t, body, events);
  }

  /** At most one refresh is in flight. */
  lemma OneRefreshAtATime<P, O>(rel: (P, O, P) -> bool, ttl: int, t: int, body: P, events: seq<Event<P, O>>, i: nat, j: nat)
    requires ttl > 0 && t >= 0 && Legal(rel, ttl, Init(t, body), events)
    requires var s := Run(ttl, Init(t, body), events); s.At(i).Sampling? && s.At(j).Sampling?
    ensures i == j
  {
    ReachableInv(rel, ttl, t, body, events);
    var s := Run(ttl, Init(t, body), events);
    assert s.At(i).Holds() && s.At(j).Holds();
  }

  // -------------------------------------------------- concurrent = sequential

  /** bodies is what a single caller would publish one after the other, observing `observed`. */
  ghost predicate Sequential<P, O>(rel: (P, O, P) -> bool, body: P, observed: seq<O>, bodies: seq<P>) {
    && |bodies| == |observed| + 1 && bodies[0] == body
    && forall k | 0 <= k < |observed| :: rel(bodies[k], observed[k], bodies[k + 1])
  }

  function Bodies<P>(published: seq<Snap<P>>): (r: seq<P>)
    ensures |r| == |published|
    ensures forall k | 0 <= k < |r| :: r[k] == published[k].body
  {
    seq(|published|, k requires 0 <= k < |published| => published[k].body)
  }

  /** Every snapshot handed to a caller is one of those published. */
  ghost predicate DeliveredOk<P, O>(s: State<P, O>) {
    && s.snap in s.published
    && forall i: nat :: s.At(i).Returned? ==> s.At(i).snap in s.published
  }

  lemma StepKeepsDelivered<P, O>(rel: (P, O, P) -> bool, ttl: int, s: State<P, O>, e: Event<P, O>)
    requires DeliveredOk(s) && Enabled(rel, s, e)
    ensures DeliveredOk(Apply(ttl, s, e)) && s.published <= Apply(ttl, s, e).published
  {
    var s' := Apply(ttl, s, e);
    assert s.published <= s'.published;
    if e.Act? && s.At(e.i).Sampling? {
      assert s'.published[|s.published|] == s'.snap;
    }
    forall i: nat | s'.At(i).Returned? ensures s'.At(i).snap in s'.published {
      assert s.At(i).Returned? ==> s.At(i).snap in s.published;
      assert s'.At(i) == s.At(i) || s'.At(i).snap == s.snap;
    }
  }

  lemma {:induction false} RunDelivers<P, O>(rel: (P, O, P) -> bool, ttl: int, s: State<P, O>, events: seq<Event<P, O>>)
    requires DeliveredOk(s) && Legal(rel, ttl, s, events)
    ensures DeliveredOk(Run(ttl, s, events)) && s.published <= Run(ttl, s, events).published
    decreases |events|
  {
    if events != [] {
      StepKeepsDelivered(rel, ttl, s, events[0]);
      RunDelivers(rel, ttl, Apply(ttl, s, events[0]), events[1..]);
    }
  }

  /** LINEARIZATION.  The bodies published by any interleaving are those of a sequential run over the
      samplings in the order of their stamps, and whatever a caller gets is one of them. */
  lemma ConcurrentIsSequential<P, O>(rel: (P, O, P) -> bool, ttl: int, t: int, body: P, events: seq<Event<P, O>>)
    requires ttl > 0 && t >= 0 && Legal(rel, ttl, Init(t, body), events)
    ensures var s := Run(ttl, Init(t, body), events);
            && Sequential(rel, body, s.observed, Bodies(s.published))
            && forall i: nat :: s.At(i).Returned? ==> s.At(i).snap.body in Bodies(s.published)
  {
    var s := Run(ttl, Init(t, body), events);
    ReachableInv(rel, ttl, t, body, events);
    RunDelivers(rel, ttl, Init<P, O>(t, body), events);
    assert s.published[0] == Snap(t, body);
    forall i: nat | s.At(i).Returned? ensures s.At(i).snap.body in Bodies(s.published) {
      var k :| 0 <= k < |s.published| && s.published[k] == s.At(i).snap;
      assert Bodies(s.published)[k] == s.At(i).snap.body;
    }
  }

  // ------------------------------------------------------------ the first call

  /** Where a caller can only be once a refresh has published. */
  ghost predicate PcSeen<P, O>(s: State<P, O>, pc: Pc<P>) {
    match pc
    case Checked(_, stale) => !stale ==> s.observed != []
    case Stored(_, _) => s.observed != []
    case Unlocking(_) => s.observed != []
    case Loading(_) => s.observed != []
    case Returned(_, snap) => Refreshed(s, snap)
    case _ => true
  }

  /** Some refresh published this snapshot. */
  ghost predicate Refreshed<P, O>(s: State<P, O>, snap: Snap<P>) {
    s.observed != [] && exists k | 0 < k < |s.published| :: s.published[k] == snap
  }

  /** lastAt leaves Go's zero time only behind a published refresh. */
  ghost predicate Seen<P, O>(ttl: int, s: State<P, O>) {
    && s.clock >= ttl && (s.lastAt != 0 ==> s.observed != [])
    && forall i: nat :: PcSeen(s, s.At(i))
  }

  lemma SeenGrows<P, O>(s: State<P, O>, s': State<P, O>, pc: Pc<P>)
    requires PcSeen(s, pc) && s.observed <= s'.observed && s.published <= s'.published
    ensures PcSeen(s', pc)
  {
    if pc.Returned? {
      var k :| 0 < k < |s.published| && s.published[k] == pc.snap;
      assert s'.published[k] == pc.snap;
    }
  }

  lemma MoverSeen<P, O>(rel: (P, O, P) -> bool, ttl: int, s: State<P, O>, e: Event<P, O>)
    requires ttl > 0 && Inv(rel, ttl, s) && Seen(ttl, s) && e.Act? && Enabled(rel, s, e)
    ensures PcSeen(Apply(ttl, s, e), Apply(ttl, s, e).At(e.i))
  {
    assert PcSeen(s, s.At(e.i));
    if s.At(e.i).Loading? {
      assert s.published[|s.observed|] == s.snap;
      assert Refreshed(Apply(ttl, s, e), s.snap);
    }
  }

  lemma StepKeepsSeen<P, O>(rel: (P, O, P) -> bool, ttl: int, s: State<P, O>, e: Event<P, O>)
    requires ttl > 0 && Inv(rel, ttl, s) && Seen(ttl, s) && Enabled(rel, s, e)
    ensures Seen(ttl, Apply(ttl, s, e))
  {
    var s' := Apply(ttl, s, e);
    if e.Act? {
      assert PcSeen(s, s.At(e.i));
    }
    forall i: nat ensures PcSeen(s', s'.At(i)) {
      if e.Act? && i == e.i {
        MoverSeen(rel, ttl, s, e);
      } else {
        SeenGrows(s, s', s.At(i));
      }
    }
  }

  lemma {:induction false} RunKeepsSeen<P, O>(rel: (P, O, P) -> bool, ttl: int, s: State<P, O>, events: seq<Event<P, O>>)
    requires ttl > 0 && Inv(rel, ttl, s) && Seen(ttl, s) && Legal(rel, ttl, s, events)
    ensures Seen(ttl, Run(ttl, s, events))
    decreases |events|
  {
    if events != [] {
      StepKeepsInv(rel, ttl, s, events[0]);
      StepKeepsSeen(rel, ttl, s, events[0]);
      RunKeepsSeen(rel, ttl, Apply(ttl, s, events[0]), events[1..]);
    }
  }

  /** THE FIRST CALL SAMPLES.  A collector made at least ttl after Go's zero time never hands out the
      snapshot its constructor stored: whatever a caller gets was published by a refresh. */
  lemma NeverTheInitial<P, O>(rel: (P, O, P) -> bool, ttl: int, t: int, body: P, events: seq<Event<P, O>>, i: nat)
    requires ttl > 0 && t >= ttl && Legal(rel, ttl, Init(t, body), events)
    requires Run(ttl, Init(t, body), events).At(i).Returned?
    ensures var s := Run(ttl, Init(t, body), events);
      && s.stamps != [] && s.observed != []
      && exists k | 0 < k < |s.published| :: s.published[k] == s.At(i).snap
  {
    InitInv<P, O>(rel, ttl, t, body);
    RunKeepsSeen(rel, ttl, Init(t, body), events);
    ReachableInv(rel, ttl, t, body, events);
    var s := Run(ttl, Init(t, body), events);
    assert PcSeen(s, s.At(i));
  }

  // ---------------------------------------------------------- one caller alone

  lemma {:induction false} RunAppend<P, O>(ttl: int, s: State<P, O>, a: seq<Event<P, O>>, b: seq<Event<P, O>>)
    ensures Run(ttl, s, a + b) == Run(ttl, Run(ttl, s, a), b)
    decreases |a|
  {
    if a == [] {
      assert a + b == b;
    } else {
      assert (a + b)[1..] == a[1..] + b;
      RunAppend(ttl, Apply(ttl, s, a[0]), a[1..], b);
    }
  }

  lemma RunCons<P, O>(ttl: int, s: State<P, O>, e: Event<P, O>, more: seq<Event<P, O>>)
    ensures Run(ttl, s, [e] + more) == Run(ttl, Apply(ttl, s, e), more)
  {
    assert ([e] + more)[1..] == more;
  }

  /** Snapshot up to its decision; ta passes before it reads the clock. */
  function Look<P, O>(act: Event<P, O>, ta: nat): seq<Event<P, O>> {
    [act] + ([act] + ([Tick(ta)] + ([act] + ([act] + []))))
  }

  /** refresh up to its decision; tb passes before it reads the clock again. */
  function Recheck<P, O>(act: Event<P, O>, tb: nat): seq<Event<P, O>> {
    [act] + ([Tick(tb)] + ([act] + []))
  }

  /** The sampling; tc passes before it takes `now`. */
  function Sample<P, O>(act: Event<P, O>, tc: nat): seq<Event<P, O>> {
    [Tick(tc)] + ([act] + ([act] + ([act] + ([act] + []))))
  }

  lemma LookAlone<P, O>(ttl: int, s: State<P, O>, i: nat, act: Event<P, O>, ta: nat)
    requires act.Act? && act.i == i && s.At(i).Idle?
    ensures var s' := Run(ttl, s, Look(act, ta));
      var first := s.clock + ta;
      s' == s.(clock := first, holder := None, pcs := s'.pcs)
      && s'.At(i) == if first - s.lastAt >= ttl then WantRefresh(first) else Loading(first)
  {
    var e1, e2 := Apply(ttl, s, act), Apply(ttl, Apply(ttl, s, act), act);
    var e3 := Apply(ttl, e2, Tick(ta));
    var e4 := Apply(ttl, e3, act);
    var none: seq<Event<P, O>> := [];
    RunCons(ttl, s, act, [act] + ([Tick(ta)] + ([act] + ([act] + none))));
    RunCons(ttl, e1, act, [Tick(ta)] + ([act] + ([act] + none)));
    RunCons(ttl, e2, Tick(ta), [act] + ([act] + none));
    RunCons(ttl, e3, act, [act] + none);
    RunCons(ttl, e4, act, none);
  }

  lemma RecheckAlone<P, O>(ttl: int, s: State<P, O>, i: nat, act: Event<P, O>, tb: nat)
    requires act.Act? && act.i == i && s.At(i).WantRefresh?
    ensures var s' := Run(ttl, s, Recheck(act, tb));
      var first, recheck := s.At(i).first, s.clock + tb;
      s' == s.(clock := recheck, holder := Some(i), pcs := s'.pcs)
      && s'.At(i) == if recheck - s.lastAt < ttl then Unlocking(first) else Stamping(first)
  {
    var e1 := Apply(ttl, s, act);
    var e2 := Apply(ttl, e1, Tick(tb));
    var none: seq<Event<P, O>> := [];
    RunCons(ttl, s, act, [Tick(tb)] + ([act] + none));
    RunCons(ttl, e1, Tick(tb), [act] + none);
    RunCons(ttl, e2, act, none);
  }

  lemma SampleAlone<P, O>(ttl: int, s: State<P, O>, i: nat, act: Event<P, O>, tc: nat)
    requires act.Act? && act.i == i && s.At(i).Stamping?
    ensures var s' := Run(ttl, s, Sample(act, tc));
      var now := s.clock + tc;
      && s'.lastAt == now && s'.snap == Snap(now, act.body) && s'.clock == now
      && s'.At(i) == Unlocking(s.At(i).first)
      && s'.observed == s.observed + [act.o] && s'.published == s.published + [Snap(now, act.body)]
  {
    var e1 := Apply(ttl, s, Tick(tc));
    var e2 := Apply(ttl, e1, act);
    var e3 := Apply(ttl, e2, act);
    var e4 := Apply(ttl, e3, act);
    var none: seq<Event<P, O>> := [];
    RunCons(ttl, s, Tick(tc), [act] + ([act] + ([act] + ([act] + none))));
    RunCons(ttl, e1, act, [act] + ([act] + ([act] + none)));
    RunCons(ttl, e2, act, [act] + ([act] + none));
    RunCons(ttl, e3, act, [act] + none);
    RunCons(ttl, e4, act, none);
  }

  /** The events of one call that nothing interferes with. */
  function Alone<P, O>(ttl: int, s: State<P, O>, act: Event<P, O>, ta: nat, tb: nat, tc: nat): seq<Event<P, O>>
    requires act.Act?
  {
    var s1 := Run(ttl, s, Look(act, ta));
    Look(act, ta) + if s1.At(act.i).WantRefresh? then AloneRefresh(ttl, s1, act, tb, tc) else [act]
  }

  function AloneRefresh<P, O>(ttl: int, s: State<P, O>, act: Event<P, O>, tb: nat, tc: nat): seq<Event<P, O>>
    requires act.Act?
  {
    var s1 := Run(ttl, s, Recheck(act, tb));
    Recheck(act, tb) + if s1.At(act.i).Stamping? then Sample(act, tc) + [act, act] else [act, act]
  }

  /** What a call does to lastAt and the snapshot, given its three readings of the clock and the body it
      publishes if it samples. */
  function Sole<P>(ttl: int, lastAt: int, snap: Snap<P>, first: int, recheck: int, now: int, body: P): (int, Snap<P>) {
    if first - lastAt >= ttl && recheck - lastAt >= ttl then (now, Snap(now, body)) else (lastAt, snap)
  }

  lemma LeaveAlone<P, O>(ttl: int, s: State<P, O>, act: Event<P, O>)
    requires act.Act? && s.At(act.i).Unlocking?
    ensures var s' := Run(ttl, s, [act, act]);
      s'.lastAt == s.lastAt && s'.snap == s.snap && s'.At(act.i) == Returned(s.At(act.i).first, s.snap)
  {
    var none: seq<Event<P, O>> := [];
    assert [act, act] == [act] + ([act] + none);
    RunCons(ttl, s, act, [act] + none);
    RunCons(ttl, Apply(ttl, s, act), act, none);
  }

  lemma RefreshAlone<P, O>(ttl: int, s: State<P, O>, act: Event<P, O>, tb: nat, tc: nat)
    requires act.Act? && s.At(act.i).WantRefresh? && s.clock - s.lastAt >= ttl
    ensures var s' := Run(ttl, s, AloneRefresh(ttl, s, act, tb, tc));
      && (s'.lastAt, s'.snap) == Sole(ttl, s.lastAt, s.snap, s.clock, s.clock + tb, s.clock + tb + tc, act.body)
      && s'.At(act.i) == Returned(s.At(act.i).first, s'.snap)
  {
    var s1 := Run(ttl, s, Recheck(act, tb));
    RecheckAlone(ttl, s, act.i, act, tb);
    if s1.At(act.i).Stamping? {
      var s2 := Run(ttl, s1, Sample(act, tc));
      SampleAlone(ttl, s1, act.i, act, tc);
      RunAppend(ttl, s1, Sample(act, tc), [act, act]);
      RunAppend(ttl, s, Recheck(act, tb), Sample(act, tc) + [act, act]);
      LeaveAlone(ttl, s2, act);
    } else {
      RunAppend(ttl, s, Recheck(act, tb), [act, act]);
      LeaveAlone(ttl, s1, act);
    }
  }

  /** ONE CALL AT A TIME.  Without interference a call refreshes exactly when both its readings of the clock
      say so, and returns the snapshot that is current then. */
  lemma AloneIsSole<P, O>(ttl: int, s: State<P, O>, act: Event<P, O>, ta: nat, tb: nat, tc: nat)
    requires act.Act? && s.At(act.i).Idle?
    ensures var s' := Run(ttl, s, Alone(ttl, s, act, ta, tb, tc));
      var first := s.clock + ta;
      && (s'.lastAt, s'.snap) == Sole(ttl, s.lastAt, s.snap, first, first + tb, first + tb + tc, act.body)
      && s'.At(act.i) == Returned(first, s'.snap)
  {
    var s1 := Run(ttl, s, Look(act, ta));
    LookAlone(ttl, s, act.i, act, ta);
    if s1.At(act.i).WantRefresh? {
      RunAppend(ttl, s, Look(act, ta), AloneRefresh(ttl, s1, act, tb, tc));
      RefreshAlone(ttl, s1, act, tb, tc);
    } else {
      RunAppend(ttl, s, Look(act, ta), [act]);
      var none: seq<Event<P, O>> := [];
      assert [act] == [act] + none;
      RunCons(ttl, s1, act, none);
    }
  }
}
