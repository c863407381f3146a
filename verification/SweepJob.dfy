/** The sweep itself, step by step: one container's attempt at one site, and the two-pass job,
    run against the shared world while every other actor acts in between. */
module SweepJob {
  import opened Prelude
  import opened SweepProtocol

  datatype Outcome = Ran | Deferred | Skipped

  /** The part of a history that is sweeper `me`'s own. */
  function Own(es: seq<Event>, me: nat): seq<Event> {
    if es == [] then []
    else
      var rest := Own(es[..|es|-1], me);
      if es[|es|-1].BySweeper(me) then rest + [es[|es|-1]] else rest
  }

  lemma {:induction false} OwnAppend(es: seq<Event>, fs: seq<Event>, me: nat)
    ensures Own(es + fs, me) == Own(es, me) + Own(fs, me)
  {
    if fs == [] {
      assert es + fs == es;
    } else {
      var k := |fs| - 1;
      OwnAppend(es, fs[..k], me);
      assert (es + fs)[..|es|+k] == es + fs[..k];
    }
  }

  lemma OwnTail(es: seq<Event>, log: seq<Event>, me: nat, mine: seq<Event>)
    requires es <= log && Own(log, me) == Own(es, me) + mine
    ensures Own(log[|es|..|log|], me) == mine
  {
    var tail := log[|es|..|log|];
    assert log == es + tail;
    OwnAppend(es, tail, me);
    assert (Own(es, me) + mine)[|Own(es, me)|..] == mine;
    assert (Own(es, me) + Own(tail, me))[|Own(es, me)|..] == Own(tail, me);
  }

  lemma StepLeavesOthersAlone(cfg: Config, w: World, e: Event, me: nat)
    requires Step(cfg, w, e).Some? && !e.BySweeper(me)
    ensures Step(cfg, w, e).value.At(me) == w.At(me)
  {
  }

  /** Where an attempt leaves the sweeper. */
  function AfterAttempt(cfg: Config, reply: Reply, site: Site): Position {
    match reply
    case Yes => Cleared(site, Yes)
    case No => Contended(site)
    case Degraded => if cfg.incremental then Idle else Cleared(site, Degraded)
  }

  lemma OwnStep(cfg: Config, w: World, e: Event, me: nat)
    requires Step(cfg, w, e).Some? && e.BySweeper(me)
    ensures var v := Step(cfg, w, e).value;
            && v.now == w.now
            && v.At(me) == match e
                           case Attempt(_, site, reply, _) => AfterAttempt(cfg, reply, site)
                           case Recompute(_, site, _) => Recomputed(site)
                           case _ => Idle
  {
  }

  /** All of `es` are refused attempts of `me` at `site`. */
  predicate Refusals(es: seq<Event>, me: nat, site: Site) {
    forall k :: 0 <= k < |es| ==> es[k].Attempt? && es[k].s == me && es[k].site == site && es[k].reply == No
  }

  predicate IsClear(e: Event, me: nat, site: Site) {
    e.Clear? && e.s == me && e.site == site
  }

  /** Refusals, then a licensed attempt, then a full recompute, then the marker released. */
  predicate RecomputeShape(cfg: Config, mine: seq<Event>, me: nat, site: Site, result: Option<nat>) {
    var n := |mine|;
    && n >= 3
    && Refusals(mine[..n-3], me, site)
    && mine[n-3].Attempt? && mine[n-3].s == me && mine[n-3].site == site
    && (mine[n-3].reply == Yes || (mine[n-3].reply == Degraded && !cfg.incremental))
    && mine[n-2] == Recompute(me, site, result)
    && IsClear(mine[n-1], me, site)
  }

  predicate ContendedShape(mine: seq<Event>, me: nat, site: Site) {
    var n := |mine|;
    n >= 2 && Refusals(mine[..n-1], me, site) && IsClear(mine[n-1], me, site)
  }

  /** Skipped without touching the marker: Redis was degraded while incremental runs may race. */
  predicate DegradedShape(cfg: Config, mine: seq<Event>, me: nat, site: Site) {
    var n := |mine|;
    && n >= 1 && cfg.incremental
    && Refusals(mine[..n-1], me, site)
    && mine[n-1].Attempt? && mine[n-1].s == me && mine[n-1].site == site && mine[n-1].reply == Degraded
  }

  predicate DeferredShape(mine: seq<Event>, me: nat, site: Site) {
    var n := |mine|;
    && n >= 2
    && Refusals(mine[..n-1], me, site)
    && mine[n-1].Defer? && mine[n-1].s == me && mine[n-1].site == site
  }

  /** What one call did to the shared state, by its result. */
  predicate CallShape(cfg: Config, mine: seq<Event>, me: nat, site: Site, allowDefer: bool,
                      outcome: Outcome, visitors: nat) {
    match outcome
    case Ran => RecomputeShape(cfg, mine, me, site, Some(visitors))
    case Deferred => allowDefer && visitors == 0 && DeferredShape(mine, me, site)
    case Skipped =>
      && visitors == 0
      && (|| RecomputeShape(cfg, mine, me, site, None)
          || (!allowDefer && ContendedShape(mine, me, site))
          || DegradedShape(cfg, mine, me, site))
  }

  /** A call with its own actions, and where it stands in the shared history: it starts at `from`,
      its attempts are those from `first` to `last`, and it returns at `to`. */
  datatype Call = Call(site: Site, retry: bool, outcome: Outcome, visitors: nat, events: seq<Event>,
                       from: nat, first: nat, last: nat, to: nat)

  datatype Report = Report(sites: nat, aggregated: nat, deferred: nat, retried: nat, visitors: nat)

  /** All the sweeper's own actions, call after call. */
  function Events(calls: seq<Call>): seq<Event> {
    if calls == [] then [] else Events(calls[..|calls|-1]) + calls[|calls|-1].events
  }

  function RanCount(calls: seq<Call>): nat {
    if calls == [] then 0
    else RanCount(calls[..|calls|-1]) + if calls[|calls|-1].outcome == Ran then 1 else 0
  }

  function RanVisitors(calls: seq<Call>): nat {
    if calls == [] then 0
    else RanVisitors(calls[..|calls|-1]) + if calls[|calls|-1].outcome == Ran then calls[|calls|-1].visitors else 0
  }

  function DeferredSites(calls: seq<Call>): seq<Site> {
    if calls == [] then []
    else
      var c := calls[|calls|-1];
      DeferredSites(calls[..|calls|-1]) + if c.outcome == Deferred then [c.site] else []
  }

  /** The call's events have the shape that its result announces; only a retry polls, and a retry
      never defers. */
  ghost predicate GoodCall(cfg: Config, c: Call, me: nat) {
    && CallShape(cfg, c.events, me, c.site, !c.retry, c.outcome, c.visitors)
    && (!c.retry ==> forall k :: 1 <= k < |c.events| ==> !c.events[k].Attempt?)
  }

  /** One call per site, in order. */
  ghost predicate FirstPass(cfg: Config, calls: seq<Call>, me: nat, siteIds: seq<Site>) {
    && |calls| == |siteIds|
    && forall i :: 0 <= i < |calls| ==> calls[i].site == siteIds[i] && !calls[i].retry && GoodCall(cfg, calls[i], me)
  }

  /** One retry per site, in order. */
  ghost predicate SecondPass(cfg: Config, calls: seq<Call>, me: nat, siteIds: seq<Site>) {
    && |calls| == |siteIds|
    && forall i :: 0 <= i < |calls| ==> calls[i].site == siteIds[i] && calls[i].retry && GoodCall(cfg, calls[i], me)
  }

  ghost predicate TwoPasses(cfg: Config, calls: seq<Call>, me: nat, siteIds: seq<Site>) {
    && |siteIds| <= |calls|
    && FirstPass(cfg, calls[..|siteIds|], me, siteIds)
    && SecondPass(cfg, calls[|siteIds|..], me, DeferredSites(calls[..|siteIds|]))
  }

  /** How long a call polls. */
  function Patience(cfg: Config, c: Call): int {
    if c.retry && cfg.minIntervalSeconds + 5 > 0 then (cfg.minIntervalSeconds + 5) * SECOND else 0
  }

  predicate InSpan(log: seq<Event>, c: Call) {
    c.from <= c.first <= c.last < c.to <= |log|
  }

  /** The last attempt was refused, and the call ends with its `Defer`. */
  predicate DefersAt(log: seq<Event>, c: Call, me: nat) {
    && InSpan(log, c) && IsAttempt(log[c.last], me, c.site, No)
    && c.last < c.to - 1 && log[c.to-1].Defer? && log[c.to-1].s == me && log[c.to-1].site == c.site
  }

  /** The last attempt was refused, and the call ends by releasing the marker, after having waited
      long enough. */
  ghost predicate GivesUpAt(cfg: Config, origin: World, log: seq<Event>, c: Call, me: nat)
    requires Run(cfg, origin, log).Some?
  {
    && InSpan(log, c) && IsAttempt(log[c.last], me, c.site, No)
    && c.last < c.to - 1 && IsClear(log[c.to-1], me, c.site)
    && Before(cfg, origin, log, c.to - 1).now >= Before(cfg, origin, log, c.first).now + Patience(cfg, c)
  }

  /** The call's own actions are those that the history holds from `from` to `to`, and it ends there
      as its result says. */
  ghost predicate Placed(cfg: Config, origin: World, log: seq<Event>, c: Call, me: nat) {
    && Run(cfg, origin, log).Some? && InSpan(log, c)
    && Own(log[c.from..c.to], me) == c.events
    && (c.outcome == Deferred ==> DefersAt(log, c, me))
    && (ContendedShape(c.events, me, c.site) ==> GivesUpAt(cfg, origin, log, c, me))
  }

  /** Where call `i`, or what comes after the last one, starts. */
  function StartOf(calls: seq<Call>, start: nat, i: nat): nat
    requires i <= |calls|
  {
    if i == 0 then start else calls[i-1].to
  }

  /** The calls lie in the history one after the other, from `start` on. */
  ghost predicate AllPlaced(cfg: Config, origin: World, log: seq<Event>, calls: seq<Call>, me: nat, start: nat) {
    forall i {:trigger Placed(cfg, origin, log, calls[i], me)} {:trigger StartOf(calls, start, i)} ::
      0 <= i < |calls| ==> Placed(cfg, origin, log, calls[i], me) && calls[i].from == StartOf(calls, start, i)
  }

  lemma PlacedLater(cfg: Config, origin: World, log: seq<Event>, more: seq<Event>, c: Call, me: nat)
    requires Placed(cfg, origin, log, c, me) && log <= more && Run(cfg, origin, more).Some?
    ensures Placed(cfg, origin, more, c, me)
  {
    assert more[c.from..c.to] == log[c.from..c.to];
    assert more[..c.to-1] == log[..c.to-1] && more[..c.first] == log[..c.first];
  }

  lemma AllPlacedLater(cfg: Config, origin: World, log: seq<Event>, more: seq<Event>, calls: seq<Call>, me: nat,
                       start: nat)
    requires AllPlaced(cfg, origin, log, calls, me, start) && log <= more && Run(cfg, origin, more).Some?
    ensures AllPlaced(cfg, origin, more, calls, me, start)
  {
    forall i | 0 <= i < |calls| ensures Placed(cfg, origin, more, calls[i], me) {
      PlacedLater(cfg, origin, log, more, calls[i], me);
    }
  }

  lemma OnePlacedMore(cfg: Config, origin: World, log: seq<Event>, more: seq<Event>, calls: seq<Call>, c: Call, me: nat,
                      start: nat)
    requires AllPlaced(cfg, origin, log, calls, me, start) && log <= more
    requires Placed(cfg, origin, more, c, me) && c.from == StartOf(calls, start, |calls|)
    ensures AllPlaced(cfg, origin, more, calls + [c], me, start)
  {
    AllPlacedLater(cfg, origin, log, more, calls, me, start);
    forall i | 0 <= i < |calls + [c]|
      ensures Placed(cfg, origin, more, (calls + [c])[i], me)
      ensures (calls + [c])[i].from == StartOf(calls + [c], start, i)
    {
      if i < |calls| {
        assert Placed(cfg, origin, more, calls[i], me);
      }
    }
  }

  lemma AllPlacedAppend(cfg: Config, origin: World, log: seq<Event>, xs: seq<Call>, ys: seq<Call>, me: nat, start: nat)
    requires AllPlaced(cfg, origin, log, xs, me, start)
    requires AllPlaced(cfg, origin, log, ys, me, StartOf(xs, start, |xs|))
    ensures AllPlaced(cfg, origin, log, xs + ys, me, start)
  {
    forall i | 0 <= i < |xs + ys|
      ensures Placed(cfg, origin, log, (xs + ys)[i], me)
      ensures (xs + ys)[i].from == StartOf(xs + ys, start, i)
    {
      if i < |xs| {
        assert Placed(cfg, origin, log, xs[i], me);
      } else {
        assert Placed(cfg, origin, log, ys[i-|xs|], me);
      }
    }
  }

  lemma CallsGrow(calls: seq<Call>, c: Call)
    ensures Events(calls + [c]) == Events(calls) + c.events
    ensures RanCount(calls + [c]) == RanCount(calls) + if c.outcome == Ran then 1 else 0
    ensures RanVisitors(calls + [c]) == RanVisitors(calls) + if c.outcome == Ran then c.visitors else 0
    ensures DeferredSites(calls + [c]) == DeferredSites(calls) + if c.outcome == Deferred then [c.site] else []
  {
    assert (calls + [c])[..|calls|] == calls;
  }

  lemma {:induction false} CallsAppend(xs: seq<Call>, ys: seq<Call>)
    ensures Events(xs + ys) == Events(xs) + Events(ys)
    ensures RanCount(xs + ys) == RanCount(xs) + RanCount(ys)
    ensures RanVisitors(xs + ys) == RanVisitors(xs) + RanVisitors(ys)
  {
    if ys == [] {
      assert xs + ys == xs;
    } else {
      var k := |ys| - 1;
      CallsAppend(xs, ys[..k]);
      assert xs + ys == (xs + ys[..k]) + [ys[k]] && ys == ys[..k] + [ys[k]];
      CallsGrow(xs + ys[..k], ys[k]);
      CallsGrow(ys[..k], ys[k]);
    }
  }

  /** One more call of the first pass, with all that its loop keeps track of. */
  lemma FirstPassGrows(cfg: Config, calls: seq<Call>, c: Call, me: nat, siteIds: seq<Site>, i: nat, own: seq<Event>)
    requires i < |siteIds| && FirstPass(cfg, calls, me, siteIds[..i])
    requires GoodCall(cfg, c, me) && !c.retry && c.site == siteIds[i]
    ensures FirstPass(cfg, calls + [c], me, siteIds[..i+1])
    ensures own + Events(calls) + c.events == own + Events(calls + [c])
    ensures RanCount(calls + [c]) == RanCount(calls) + if c.outcome == Ran then 1 else 0
    ensures RanVisitors(calls + [c]) == RanVisitors(calls) + if c.outcome == Ran then c.visitors else 0
    ensures DeferredSites(calls + [c]) == DeferredSites(calls) + if c.outcome == Deferred then [c.site] else []
  {
    CallsGrow(calls, c);
    assert own + Events(calls) + c.events == own + (Events(calls) + c.events);
  }

  /** One more call of the second pass. */
  lemma SecondPassGrows(cfg: Config, calls: seq<Call>, c: Call, me: nat, siteIds: seq<Site>, i: nat, own: seq<Event>)
    requires i < |siteIds| && SecondPass(cfg, calls, me, siteIds[..i])
    requires GoodCall(cfg, c, me) && c.retry && c.site == siteIds[i]
    ensures SecondPass(cfg, calls + [c], me, siteIds[..i+1])
    ensures own + Events(calls) + c.events == own + Events(calls + [c])
    ensures RanCount(calls + [c]) == RanCount(calls) + if c.outcome == Ran then 1 else 0
    ensures RanVisitors(calls + [c]) == RanVisitors(calls) + if c.outcome == Ran then c.visitors else 0
  {
    CallsGrow(calls, c);
    assert own + Events(calls) + c.events == own + (Events(calls) + c.events);
  }

  /** The two passes as one job. */
  lemma JoinPasses(cfg: Config, xs: seq<Call>, ys: seq<Call>, me: nat, siteIds: seq<Site>, own: seq<Event>)
    requires FirstPass(cfg, xs, me, siteIds) && SecondPass(cfg, ys, me, DeferredSites(xs))
    ensures TwoPasses(cfg, xs + ys, me, siteIds)
    ensures own + Events(xs) + Events(ys) == own + Events(xs + ys)
    ensures RanCount(xs + ys) == RanCount(xs) + RanCount(ys)
    ensures RanVisitors(xs + ys) == RanVisitors(xs) + RanVisitors(ys)
    ensures (xs + ys)[|siteIds|..] == ys
  {
    assert (xs + ys)[..|siteIds|] == xs && (xs + ys)[|siteIds|..] == ys;
    CallsAppend(xs, ys);
    assert own + Events(xs) + Events(ys) == own + (Events(xs) + Events(ys));
  }

  /** The world outside, by the number of the event that asks it: whether Redis fails to answer the
      call, whether a call that fails, or a release, reaches it all the same, and what a full recompute
      gives, None when it raises. */
  datatype Redis = Redis(down: nat -> bool, lands: nat -> bool, aggregated: nat -> Option<nat>)
  {
    predicate Allows(n: nat, e: Event) {
      match e
      case Tick(_) => true
      case Attempt(_, _, reply, reached) => (reply == Degraded <==> down(n)) && reached == lands(n)
      case Defer(_, _, reply, reached) => (reply == Degraded <==> down(n)) && reached == lands(n)
      case Take(_, _, reply, reached) => (reply == Degraded <==> down(n)) && reached == lands(n)
      case Check(_, _, reply) => reply == Degraded <==> down(n)
      case Clear(_, _, reached) => reached == lands(n)
      case Recompute(_, _, visitors) => visitors == aggregated(n)
      case Done(_, _) => true
    }

    ghost predicate Explains(log: seq<Event>) {
      forall k :: 0 <= k < |log| ==> Allows(k, log[k])
    }
  }

  class Cluster {
    const cfg: Config
    const origin: World
    const redis: Redis
    var world: World
    var log: seq<Event>

    /** The world is what the history since `origin` makes it, and that history is as Redis and the
        aggregator had it. */
    ghost predicate Valid()
      reads this
    {
      Run(cfg, origin, log) == Some(world) && redis.Explains(log)
    }

    constructor (cfg: Config, origin: World, redis: Redis)
      ensures Valid() && this.cfg == cfg && this.origin == origin && this.redis == redis
      ensures world == origin && log == []
    {
      this.cfg, this.origin, this.redis, this.world, this.log := cfg, origin, redis, origin, [];
    }

    /** One atomic action of some actor. */
    method Do(e: Event)
      requires Valid() && Step(cfg, world, e).Some? && redis.Allows(|log|, e)
      modifies this
      ensures Valid() && log == old(log) + [e] && Some(world) == Step(cfg, old(world), e)
    {
      RunOneMore(cfg, origin, log, e);
      world, log := Step(cfg, world, e).value, log + [e];
    }

    /** While `me` awaits, everyone else does whatever the protocol lets them. */
    method Others(me: nat)
      requires Valid()
      modifies this
      ensures Valid() && old(log) <= log && world.At(me) == old(world.At(me))
      ensures Own(log, me) == Own(old(log), me) && old(world.now) <= world.now
    {
      var es: seq<Event> := *;
      for i := 0 to |es|
        invariant Valid() && old(log) <= log && world.At(me) == old(world.At(me))
        invariant Own(log, me) == Own(old(log), me) && old(world.now) <= world.now
      {
        if !es[i].BySweeper(me) && Step(cfg, world, es[i]).Some? && redis.Allows(|log|, es[i]) {
          StepLeavesOthersAlone(cfg, world, es[i], me);
          StepKeepsTime(cfg, world, es[i]);
          OwnAppend(log, [es[i]], me);
          Do(es[i]);
        }
      }
    }

    method Sleep(me: nat, ms: nat)
      requires Valid()
      modifies this
      ensures Valid() && old(log) <= log && world.At(me) == old(world.At(me))
      ensures Own(log, me) == Own(old(log), me) && old(world.now) + ms <= world.now
    {
      Others(me);
      OwnAppend(log, [Tick(ms)], me);
      Do(Tick(ms));
      Others(me);
    }

    /** An action of `me` itself. */
    method DoOwn(me: nat, e: Event)
      requires Valid() && e.BySweeper(me) && Step(cfg, world, e).Some? && redis.Allows(|log|, e)
      modifies this
      ensures Valid() && log == old(log) + [e] && Own(log, me) == Own(old(log), me) + [e]
      ensures world.now == old(world.now) && Some(world) == Step(cfg, old(world), e)
      ensures world.At(me) == match e
                              case Attempt(_, site, reply, _) => AfterAttempt(cfg, reply, site)
                              case Recompute(_, site, _) => Recomputed(site)
                              case _ => Idle
    {
      OwnAppend(log, [e], me);
      OwnStep(cfg, world, e, me);
      Do(e);
    }

    /** `SET NX EX` on the debounce key: True, False, or None when Redis fails to answer. */
    method TryAcquire(me: nat, site: Site) returns (reply: Reply, ghost e: Event)
      requires Valid() && (world.At(me) == Idle || world.At(me) == Contended(site))
      modifies this
      ensures Valid() && log == old(log) + [e] && Own(log, me) == Own(old(log), me) + [e]
      ensures IsAttempt(e, me, site, reply)
      ensures world.At(me) == AfterAttempt(cfg, reply, site) && world.now == old(world.now)
    {
      var reached := redis.lands(|log|);
      reply := if redis.down(|log|) then Degraded else if world.Live(Debounce(site)) then No else Yes;
      e := Attempt(me, site, reply, reached);
      DoOwn(me, Attempt(me, site, reply, reached));
    }

    /** `_sweep_one_site`. The history it adds is a run of the protocol; its own part of it has the
        shape its result announces, with a single attempt unless it may wait; when it released the
        marker and the release got through, the marker is gone; and when it gives up
        on a contended site it does so no earlier than `waitSeconds` after its first attempt, right
        after its last attempt was refused. */
    method SweepOneSite(me: nat, site: Site, allowDefer: bool, waitSeconds: int)
      returns (outcome: Outcome, visitors: nat, ghost mine: seq<Event>, ghost first: nat, ghost last: nat)
      requires Valid() && world.At(me) == Idle
      modifies this
      ensures Valid() && old(log) <= log && world.At(me) == Idle
      ensures Own(log, me) == Own(old(log), me) + mine
      ensures CallShape(cfg, mine, me, site, allowDefer, outcome, visitors)
      ensures |mine| <= 3 + (if waitSeconds > 0 then waitSeconds else 0)
      ensures waitSeconds <= 0 ==> forall k :: 1 <= k < |mine| ==> !mine[k].Attempt?
      ensures mine[|mine|-1].Clear? ==> Released(mine[|mine|-1], site)
      ensures |old(log)| <= first <= last < |log|
      ensures mine[0] == log[first] && log[last].Attempt? && log[last].s == me && log[last].site == site
      ensures outcome == Deferred ==>
                log[last].reply == No && last < |log| - 1 && log[|log|-1] == mine[|mine|-1]
      ensures ContendedShape(mine, me, site) ==>
                && log[last].reply == No && IsClear(log[|log|-1], me, site)
                && Before(cfg, origin, log, |log| - 1).now >=
                   Before(cfg, origin, log, first).now + (if waitSeconds > 0 then waitSeconds * SECOND else 0)
    {
      var acquired;
      ghost var tries, final;
      outcome, visitors, acquired, tries, final, first, last := TryAndConclude(me, site, allowDefer, waitSeconds);
      mine := tries + final;
      CallTakesShape(cfg, tries, final, me, site, allowDefer, acquired, outcome, visitors);
      CallEndsSo(cfg, tries, final, me, site, allowDefer, acquired, outcome, visitors);
      assert Own(old(log), me) + tries + final == Own(old(log), me) + mine;
    }

    /** The attempts, and what follows the last of them. */
    method TryAndConclude(me: nat, site: Site, allowDefer: bool, waitSeconds: int)
      returns (outcome: Outcome, visitors: nat, acquired: Reply,
               ghost tries: seq<Event>, ghost final: seq<Event>, ghost first: nat, ghost last: nat)
      requires Valid() && world.At(me) == Idle
      modifies this
      ensures Valid() && old(log) <= log && world.At(me) == Idle
      ensures Own(log, me) == Own(old(log), me) + tries + final
      ensures tries != [] && Polls(tries, me, site, acquired)
      ensures |tries| <= 1 + (if waitSeconds > 0 then waitSeconds else 0)
      ensures Ends(cfg, final, me, site, allowDefer, acquired, outcome, visitors)
      ensures final != [] && final[|final|-1].Clear? ==> Released(final[|final|-1], site)
      ensures |old(log)| <= first <= last < |log| && log[first] == tries[0] && IsAttempt(log[last], me, site, acquired)
      ensures acquired == No ==>
                && last < |log| - 1 && final == [log[|log|-1]]
                && Before(cfg, origin, log, |log| - 1).now >=
                   Before(cfg, origin, log, first).now + (if waitSeconds > 0 then waitSeconds * SECOND else 0)
    {
      acquired, tries, first, last := AttemptSite(me, site, waitSeconds);
      ghost var tried := log;
      outcome, visitors, final := Conclude(me, site, allowDefer, acquired);
      assert log[first] == tried[first] && log[last] == tried[last];
      assert log[..first] == tried[..first];
    }

    /** The first attempt and, for a retry, the polls after it. */
    method AttemptSite(me: nat, site: Site, waitSeconds: int)
      returns (acquired: Reply, ghost tries: seq<Event>, ghost first: nat, ghost last: nat)
      requires Valid() && world.At(me) == Idle
      modifies this
      ensures Valid() && old(log) <= log && Own(log, me) == Own(old(log), me) + tries
      ensures world.At(me) == AfterAttempt(cfg, acquired, site)
      ensures tries != [] && Polls(tries, me, site, acquired)
      ensures |tries| <= 1 + (if waitSeconds > 0 then waitSeconds else 0)
      ensures |old(log)| <= first <= last < |log| && log[first] == tries[0] && IsAttempt(log[last], me, site, acquired)
      ensures acquired == No ==>
                world.now >= Before(cfg, origin, log, first).now + (if waitSeconds > 0 then waitSeconds * SECOND else 0)
    {
      ghost var e;
      acquired, e := FirstAttempt(me, site);
      ghost var entry, start := log, world.now;
      tries, first, last := [e], |log| - 1, |log| - 1;
      if acquired == No && waitSeconds > 0 {
        ghost var more;
        acquired, more, last := PollForKey(me, site, waitSeconds);
        PollsExtend(e, more, me, site, acquired);
        tries := tries + more;
        PrefixTime(cfg, origin, log, entry, first, start);
      }
    }

    method FirstAttempt(me: nat, site: Site) returns (acquired: Reply, ghost e: Event)
      requires Valid() && world.At(me) == Idle
      modifies this
      ensures Valid() && old(log) <= log && |old(log)| < |log| && log[|log|-1] == e
      ensures Own(log, me) == Own(old(log), me) + [e] && IsAttempt(e, me, site, acquired)
      ensures world.At(me) == AfterAttempt(cfg, acquired, site)
      ensures Before(cfg, origin, log, |log| - 1).now == world.now
    {
      Others(me);
      ghost var entry := log;
      acquired, e := TryAcquire(me, site);
      assert log[..|log|-1] == entry;
    }

    /** The polling loop of the end-of-pass retry: no more polls than seconds to wait, and no giving up
        before they are over. */
    method PollForKey(me: nat, site: Site, waitSeconds: int)
      returns (acquired: Reply, ghost more: seq<Event>, ghost last: nat)
      requires Valid() && world.At(me) == Contended(site) && waitSeconds > 0
      requires log != [] && IsAttempt(log[|log|-1], me, site, No)
      modifies this
      ensures Valid() && old(log) <= log && Own(log, me) == Own(old(log), me) + more
      ensures world.At(me) == AfterAttempt(cfg, acquired, site) && old(world.now) <= world.now
      ensures Polls(more, me, site, acquired) && |more| <= waitSeconds
      ensures |old(log)| - 1 <= last < |log| && IsAttempt(log[last], me, site, acquired)
      ensures acquired == No ==> old(world.now) + waitSeconds * SECOND <= world.now
    {
      acquired, more, last := No, [], |log| - 1;
      Others(me);
      var start := world.now;
      var deadline := start + waitSeconds * SECOND;
      while acquired == No && world.now < deadline
        invariant Valid() && old(log) <= log && Own(log, me) == Own(old(log), me) + more
        invariant world.At(me) == AfterAttempt(cfg, acquired, site)
        invariant old(world.now) <= world.now && old(world.now) + waitSeconds * SECOND <= deadline
        invariant Polls(more, me, site, acquired)
        invariant |more| * SECOND <= world.now - start && deadline == start + waitSeconds * SECOND
        invariant |more| <= waitSeconds
        invariant |old(log)| - 1 <= last < |log| && IsAttempt(log[last], me, site, acquired)
        decreases deadline - world.now
      {
        ghost var e;
        ghost var polls := more;
        acquired, e, last := PollOnce(me, site);
        more := more + [e];
        OnePollMore(polls, e, me, site, acquired);
      }
    }

    method PollOnce(me: nat, site: Site) returns (acquired: Reply, ghost e: Event, ghost at: nat)
      requires Valid() && world.At(me) == Contended(site)
      modifies this
      ensures Valid() && old(log) <= log && Own(log, me) == Own(old(log), me) + [e]
      ensures |old(log)| <= at < |log| && log[at] == e && IsAttempt(e, me, site, acquired)
      ensures world.At(me) == AfterAttempt(cfg, acquired, site) && old(world.now) + SECOND <= world.now
    {
      Sleep(me, SECOND);
      at := |log|;
      acquired, e := TryAcquire(me, site);
      Others(me);
    }

    /** `_aggregation_sweep_job`: every site once, then every deferred site once more. */
    method SweepAll(me: nat, siteIds: seq<Site>) returns (report: Report, ghost calls: seq<Call>)
      requires Valid() && world.At(me) == Idle
      modifies this
      ensures Valid() && old(log) <= log && world.At(me) == Idle
      ensures Own(log, me) == Own(old(log), me) + Events(calls)
      ensures TwoPasses(cfg, calls, me, siteIds) && AllPlaced(cfg, origin, log, calls, me, |old(log)|)
      ensures report == Report(|siteIds|, RanCount(calls), |calls| - |siteIds|,
                               RanCount(calls[|siteIds|..]), RanVisitors(calls))
    {
      var ran, visitors, deferred;
      ran, visitors, deferred, calls := TryAll(me, siteIds);
      var retried;
      ghost var firstPass, retries, between := calls, [], log;
      ran, retried, visitors, retries := RetryAll(me, deferred, ran, visitors);
      calls := firstPass + retries;
      JoinPasses(cfg, firstPass, retries, me, siteIds, Own(old(log), me));
      AllPlacedLater(cfg, origin, between, log, firstPass, me, |old(log)|);
      AllPlacedAppend(cfg, origin, log, firstPass, retries, me, |old(log)|);
      report := Report(|siteIds|, ran, |deferred|, retried, visitors);
    }

    /** The first pass. */
    method TryAll(me: nat, siteIds: seq<Site>)
      returns (ran: nat, visitors: nat, deferred: seq<Site>, ghost calls: seq<Call>)
      requires Valid() && world.At(me) == Idle
      modifies this
      ensures Valid() && old(log) <= log && world.At(me) == Idle
      ensures Own(log, me) == Own(old(log), me) + Events(calls)
      ensures FirstPass(cfg, calls, me, siteIds)
      ensures AllPlaced(cfg, origin, log, calls, me, |old(log)|) && StartOf(calls, |old(log)|, |calls|) == |log|
      ensures ran == RanCount(calls) && visitors == RanVisitors(calls) && deferred == DeferredSites(calls)
    {
      ran, visitors, deferred, calls := 0, 0, [], [];
      for i := 0 to |siteIds|
        invariant Valid() && old(log) <= log && world.At(me) == Idle
        invariant Own(log, me) == Own(old(log), me) + Events(calls)
        invariant FirstPass(cfg, calls, me, siteIds[..i])
        invariant AllPlaced(cfg, origin, log, calls, me, |old(log)|) && StartOf(calls, |old(log)|, |calls|) == |log|
        invariant ran == RanCount(calls) && visitors == RanVisitors(calls) && deferred == DeferredSites(calls)
      {
        ghost var before := log;
        var outcome, count, c := Visit(me, siteIds[i], false);
        OnePlacedMore(cfg, origin, before, log, calls, c, me, |old(log)|);
        FirstPassGrows(cfg, calls, c, me, siteIds, i, Own(old(log), me));
        calls := calls + [c];
        if outcome == Ran {
          ran, visitors := ran + 1, visitors + count;
        } else if outcome == Deferred {
          deferred := deferred + [siteIds[i]];
        }
      }
      assert siteIds[..|siteIds|] == siteIds;
    }

    /** The second pass, continuing the counters of the first. */
    method RetryAll(me: nat, deferred: seq<Site>, ran0: nat, visitors0: nat)
      returns (ran: nat, retried: nat, visitors: nat, ghost calls: seq<Call>)
      requires Valid() && world.At(me) == Idle
      modifies this
      ensures Valid() && old(log) <= log && world.At(me) == Idle
      ensures Own(log, me) == Own(old(log), me) + Events(calls)
      ensures SecondPass(cfg, calls, me, deferred)
      ensures AllPlaced(cfg, origin, log, calls, me, |old(log)|)
      ensures retried == RanCount(calls) && ran == ran0 + retried && visitors == visitors0 + RanVisitors(calls)
    {
      ran, retried, visitors, calls := ran0, 0, visitors0, [];
      for i := 0 to |deferred|
        invariant Valid() && old(log) <= log && world.At(me) == Idle
        invariant Own(log, me) == Own(old(log), me) + Events(calls)
        invariant SecondPass(cfg, calls, me, deferred[..i])
        invariant AllPlaced(cfg, origin, log, calls, me, |old(log)|) && StartOf(calls, |old(log)|, |calls|) == |log|
        invariant retried == RanCount(calls) && ran == ran0 + retried && visitors == visitors0 + RanVisitors(calls)
      {
        ghost var before := log;
        var outcome, count, c := Visit(me, deferred[i], true);
        OnePlacedMore(cfg, origin, before, log, calls, c, me, |old(log)|);
        SecondPassGrows(cfg, calls, c, me, deferred, i, Own(old(log), me));
        calls := calls + [c];
        if outcome == Ran {
          ran, retried, visitors := ran + 1, retried + 1, visitors + count;
        }
      }
      assert deferred[..|deferred|] == deferred;
    }

    /** One call, with the arguments of its pass. */
    method Visit(me: nat, site: Site, retry: bool) returns (outcome: Outcome, visitors: nat, ghost c: Call)
      requires Valid() && world.At(me) == Idle
      modifies this
      ensures Valid() && old(log) <= log && world.At(me) == Idle
      ensures Own(log, me) == Own(old(log), me) + c.events
      ensures c.site == site && c.retry == retry && c.outcome == outcome && c.visitors == visitors
      ensures GoodCall(cfg, c, me)
      ensures Placed(cfg, origin, log, c, me) && c.from == |old(log)| && c.to == |log|
    {
      ghost var mine, first, last;
      outcome, visitors, mine, first, last :=
        SweepOneSite(me, site, !retry, if retry then cfg.minIntervalSeconds + 5 else 0);
      c := Call(site, retry, outcome, visitors, mine, |old(log)|, first, last, |log|);
      OwnTail(old(log), log, me, mine);
    }

    /** The history ends with this release of the marker, which is gone if the call got through. */
    ghost predicate Released(e: Event, site: Site)
      reads this
    {
      log != [] && log[|log|-1] == e && (redis.lands(|log|-1) ==> SweepPending(site) !in world.keys)
    }

    /** What follows the last attempt. */
    method Conclude(me: nat, site: Site, allowDefer: bool, acquired: Reply)
      returns (outcome: Outcome, visitors: nat, ghost final: seq<Event>)
      requires Valid() && world.At(me) == AfterAttempt(cfg, acquired, site)
      modifies this
      ensures Valid() && old(log) <= log && world.At(me) == Idle
      ensures Own(log, me) == Own(old(log), me) + final
      ensures Ends(cfg, final, me, site, allowDefer, acquired, outcome, visitors)
      ensures acquired == No ==>
                && |old(log)| < |log| && final == [log[|log|-1]]
                && Before(cfg, origin, log, |log| - 1).now >= old(world.now)
      ensures final != [] && final[|final|-1].Clear? ==> Released(final[|final|-1], site)
    {
      if acquired == Degraded && cfg.incremental {
        return Skipped, 0, [];
      }
      if acquired == No {
        if allowDefer {
          ghost var e := MarkPending(me, site);
          return Deferred, 0, [e];
        }
        Others(me);
        ghost var e := ReleaseMarker(me, site);
        return Skipped, 0, [e];
      }
      outcome, visitors, final := Aggregate(me, site);
    }

    /** The deferral: `SET NX EX` on the marker. */
    method MarkPending(me: nat, site: Site) returns (ghost e: Event)
      requires Valid() && world.At(me) == Contended(site)
      modifies this
      ensures Valid() && old(log) <= log && |old(log)| < |log| && log[|log|-1] == e && world.At(me) == Idle
      ensures Own(log, me) == Own(old(log), me) + [e] && e.Defer? && e.s == me && e.site == site
      ensures Before(cfg, origin, log, |log| - 1).now >= old(world.now)
    {
      Others(me);
      ghost var before := log;
      var reply :=
        if redis.down(|log|) then Degraded else if world.Live(SweepPending(site)) then No else Yes;
      var reached := redis.lands(|log|);
      e := Defer(me, site, reply, reached);
      DoOwn(me, Defer(me, site, reply, reached));
      assert log[..|log|-1] == before;
    }

    /** Best-effort deletion of the marker. */
    method ReleaseMarker(me: nat, site: Site) returns (ghost e: Event)
      requires Valid() && (world.At(me) == Contended(site) || world.At(me) == Recomputed(site))
      modifies this
      ensures Valid() && log == old(log) + [e] && world.At(me) == Idle
      ensures Own(log, me) == Own(old(log), me) + [e] && IsClear(e, me, site) && Released(e, site)
      ensures Before(cfg, origin, log, |log| - 1).now == old(world.now)
    {
      var reached := redis.lands(|log|);
      e := Clear(me, site, reached);
      DoOwn(me, Clear(me, site, reached));
      assert log[..|log|-1] == old(log);
    }

    /** The full recompute, with the marker released whatever comes of it. */
    method Aggregate(me: nat, site: Site) returns (outcome: Outcome, visitors: nat, ghost final: seq<Event>)
      requires Valid() && world.At(me).Cleared? && world.At(me).site == site
      modifies this
      ensures Valid() && old(log) <= log && world.At(me) == Idle
      ensures Own(log, me) == Own(old(log), me) + final
      ensures |final| == 2 && IsClear(final[1], me, site) && Released(final[1], site)
      ensures match outcome
              case Ran => final[0] == Recompute(me, site, Some(visitors))
              case Skipped => final[0] == Recompute(me, site, None) && visitors == 0
              case Deferred => false
    {
      Others(me);
      var result := redis.aggregated(|log|);
      DoOwn(me, Recompute(me, site, result));
      Others(me);
      ghost var e := ReleaseMarker(me, site);
      outcome := if result.Some? then Ran else Skipped;
      visitors := if result.Some? then result.value else 0;
      final := [Recompute(me, site, result), e];
    }
  }

  predicate IsAttempt(e: Event, me: nat, site: Site, reply: Reply) {
    e.Attempt? && e.s == me && e.site == site && e.reply == reply
  }

  /** The actions that follow the last attempt, by its answer. */
  predicate Ends(cfg: Config, final: seq<Event>, me: nat, site: Site, allowDefer: bool,
                 acquired: Reply, outcome: Outcome, visitors: nat) {
    if acquired == Degraded && cfg.incremental then
      final == [] && outcome == Skipped && visitors == 0
    else if acquired == No then
      && |final| == 1 && visitors == 0
      && if allowDefer then outcome == Deferred && final[0].Defer? && final[0].s == me && final[0].site == site
         else outcome == Skipped && IsClear(final[0], me, site)
    else
      && |final| == 2 && IsClear(final[1], me, site)
      && match outcome
         case Ran => final[0] == Recompute(me, site, Some(visitors))
         case Skipped => final[0] == Recompute(me, site, None) && visitors == 0
         case Deferred => false
  }

  /** Attempts of which all but the last were refused, and the last was answered `acquired`. */
  predicate Polls(tries: seq<Event>, me: nat, site: Site, acquired: Reply) {
    if tries == [] then acquired == No
    else Refusals(tries[..|tries|-1], me, site) && IsAttempt(tries[|tries|-1], me, site, acquired)
  }

  lemma OnePollMore(more: seq<Event>, e: Event, me: nat, site: Site, acquired: Reply)
    requires Polls(more, me, site, No) && IsAttempt(e, me, site, acquired)
    ensures Polls(more + [e], me, site, acquired)
  {
    assert (more + [e])[..|more|] == more;
  }

  lemma PollsExtend(e: Event, more: seq<Event>, me: nat, site: Site, acquired: Reply)
    requires IsAttempt(e, me, site, No) && Polls(more, me, site, acquired)
    ensures Polls([e] + more, me, site, acquired)
  {
    if more != [] {
      assert ([e] + more)[..|more|] == [e] + more[..|more|-1];
    }
  }

  lemma PrefixTime(cfg: Config, origin: World, log: seq<Event>, entry: seq<Event>, i: nat, time: int)
    requires entry <= log && Run(cfg, origin, log).Some? && Run(cfg, origin, entry).Some?
    requires i <= |entry| && Before(cfg, origin, entry, i).now == time
    ensures Before(cfg, origin, log, i).now == time
  {
    assert log[..i] == entry[..i];
  }

  lemma CallTakesShape(cfg: Config, tries: seq<Event>, final: seq<Event>, me: nat, site: Site, allowDefer: bool,
                       acquired: Reply, outcome: Outcome, visitors: nat)
    requires tries != [] && Polls(tries, me, site, acquired)
    requires Ends(cfg, final, me, site, allowDefer, acquired, outcome, visitors)
    ensures CallShape(cfg, tries + final, me, site, allowDefer, outcome, visitors)
    ensures ContendedShape(tries + final, me, site) ==> acquired == No && !allowDefer
  {
    var mine := tries + final;
    if final == [] {
      assert mine == tries;
    } else if |final| == 1 {
      assert mine[..|mine|-1] == tries && mine[|mine|-1] == final[0];
      AllRefused(tries, me, site);
    } else {
      assert mine[..|mine|-3] == tries[..|tries|-1] && mine[|mine|-3] == tries[|tries|-1];
      assert mine[|mine|-2] == final[0] && mine[|mine|-1] == final[1];
      assert mine[..|mine|-1][|mine|-2] == final[0];
    }
  }

  lemma CallEndsSo(cfg: Config, tries: seq<Event>, final: seq<Event>, me: nat, site: Site, allowDefer: bool,
                   acquired: Reply, outcome: Outcome, visitors: nat)
    requires tries != [] && Polls(tries, me, site, acquired)
    requires Ends(cfg, final, me, site, allowDefer, acquired, outcome, visitors)
    ensures var mine := tries + final;
            && mine[0] == tries[0]
            && (final != [] ==> mine[|mine|-1] == final[|final|-1])
            && (mine[|mine|-1].Clear? ==> final != [])
            && (|tries| == 1 ==> forall k :: 1 <= k < |mine| ==> !mine[k].Attempt?)
    ensures outcome == Deferred ==> acquired == No && |final| == 1 && final[0].Defer?
    ensures acquired == No && !allowDefer ==> |final| == 1 && IsClear(final[0], me, site)
  {
  }

  lemma AllRefused(tries: seq<Event>, me: nat, site: Site)
    requires Polls(tries, me, site, No)
    ensures Refusals(tries, me, site)
  {
    forall k | 0 <= k < |tries| - 1 ensures tries[k] == tries[..|tries|-1][k] {
    }
  }

  /* ---------- What the report says about the history ---------- */

  function Sum(es: seq<Event>, weight: Event -> nat): nat {
    if es == [] then 0 else Sum(es[..|es|-1], weight) + weight(es[|es|-1])
  }

  lemma {:induction false} SumAppend(es: seq<Event>, fs: seq<Event>, weight: Event -> nat)
    ensures Sum(es + fs, weight) == Sum(es, weight) + Sum(fs, weight)
  {
    if fs == [] {
      assert es + fs == es;
    } else {
      var k := |fs| - 1;
      SumAppend(es, fs[..k], weight);
      assert (es + fs)[..|es|+k] == es + fs[..k];
    }
  }

  lemma {:induction false} SumOfZeros(es: seq<Event>, weight: Event -> nat)
    requires forall k :: 0 <= k < |es| ==> weight(es[k]) == 0
    ensures Sum(es, weight) == 0
  {
    if es != [] {
      SumOfZeros(es[..|es|-1], weight);
    }
  }

  /** A weight that only full recomputes carry. */
  ghost predicate OnRecomputes(weight: Event -> nat) {
    forall e: Event :: !e.Recompute? ==> weight(e) == 0
  }

  /** A call weighs what its one recompute weighs, or nothing. */
  lemma CallWeight(cfg: Config, c: Call, me: nat, weight: Event -> nat)
    requires OnRecomputes(weight) && GoodCall(cfg, c, me)
    ensures Sum(c.events, weight) ==
            match c.outcome
            case Ran => weight(Recompute(me, c.site, Some(c.visitors)))
            case Deferred => 0
            case Skipped => if RecomputeShape(cfg, c.events, me, c.site, None)
                            then weight(Recompute(me, c.site, None)) else 0
  {
    if c.outcome == Ran {
      RecomputeWeight(cfg, c.events, me, c.site, Some(c.visitors), weight);
    } else if c.outcome == Skipped && RecomputeShape(cfg, c.events, me, c.site, None) {
      RecomputeWeight(cfg, c.events, me, c.site, None, weight);
    } else {
      SumOfZeros(c.events, weight);
    }
  }

  lemma RecomputeWeight(cfg: Config, es: seq<Event>, me: nat, site: Site, result: Option<nat>, weight: Event -> nat)
    requires OnRecomputes(weight) && RecomputeShape(cfg, es, me, site, result)
    ensures Sum(es, weight) == weight(Recompute(me, site, result))
  {
    var n := |es|;
    var tries := es[..n-2];
    forall k | 0 <= k < |tries| ensures weight(tries[k]) == 0 {
      assert k < n - 3 ==> tries[k] == es[..n-3][k];
      assert !tries[k].Recompute?;
    }
    SumOfZeros(tries, weight);
    assert es[..n-1][..n-2] == es[..n-2];
    assert Sum(es[..n-1], weight) == Sum(es[..n-2], weight) + weight(es[n-2]);
  }

  ghost predicate AllGood(cfg: Config, calls: seq<Call>, me: nat) {
    forall i :: 0 <= i < |calls| ==> GoodCall(cfg, calls[i], me)
  }

  lemma TwoPassesAreGood(cfg: Config, calls: seq<Call>, me: nat, siteIds: seq<Site>)
    requires TwoPasses(cfg, calls, me, siteIds)
    ensures AllGood(cfg, calls, me)
  {
    forall i | 0 <= i < |calls| ensures GoodCall(cfg, calls[i], me) {
      if i < |siteIds| {
        assert calls[i] == calls[..|siteIds|][i];
      } else {
        assert calls[i] == calls[|siteIds|..][i - |siteIds|];
      }
    }
  }

  function Succeeded(e: Event): nat { if e.Recompute? && e.visitors.Some? then 1 else 0 }

  function Aggregated(e: Event): nat { if e.Recompute? && e.visitors.Some? then e.visitors.value else 0 }

  function On(site: Site): Event -> nat { (e: Event) => if e.Recompute? && e.site == site then 1 else 0 }

  /** `aggregated` and `visitors` count and add up the sweeper's successful full recomputes. */
  lemma {:induction false} ReportMatchesHistory(cfg: Config, calls: seq<Call>, me: nat)
    requires AllGood(cfg, calls, me)
    ensures RanCount(calls) == Sum(Events(calls), Succeeded)
    ensures RanVisitors(calls) == Sum(Events(calls), Aggregated)
  {
    if calls != [] {
      var rest, c := calls[..|calls|-1], calls[|calls|-1];
      ReportMatchesHistory(cfg, rest, me);
      SumAppend(Events(rest), c.events, Succeeded);
      SumAppend(Events(rest), c.events, Aggregated);
      CallWeight(cfg, c, me, Succeeded);
      CallWeight(cfg, c, me, Aggregated);
    }
  }

  ghost predicate Distinct(sites: seq<Site>) {
    forall i, j :: 0 <= i < j < |sites| ==> sites[i] != sites[j]
  }

  /** How often a site with distinct calls is recomputed: at most once, and never when its call
      was deferred or it has none. */
  lemma {:induction false} RecomputesOf(cfg: Config, calls: seq<Call>, me: nat, site: Site)
    requires AllGood(cfg, calls, me)
    requires forall i, j :: 0 <= i < j < |calls| ==> calls[i].site != calls[j].site
    ensures Sum(Events(calls), On(site)) <= 1
    ensures (forall i :: 0 <= i < |calls| && calls[i].site == site ==> calls[i].outcome == Deferred) ==>
              Sum(Events(calls), On(site)) == 0
  {
    if calls != [] {
      var rest, c := calls[..|calls|-1], calls[|calls|-1];
      RecomputesOf(cfg, rest, me, site);
      SumAppend(Events(rest), c.events, On(site));
      CallWeight(cfg, c, me, On(site));
    }
  }

  lemma {:induction false} DeferredSitesAre(calls: seq<Call>, site: Site)
    requires forall i, j :: 0 <= i < j < |calls| ==> calls[i].site != calls[j].site
    ensures Distinct(DeferredSites(calls))
    ensures site in DeferredSites(calls) <==>
            exists i :: 0 <= i < |calls| && calls[i].site == site && calls[i].outcome == Deferred
  {
    if calls != [] {
      var rest, c := calls[..|calls|-1], calls[|calls|-1];
      DeferredSitesAre(rest, site);
      DeferredSitesAre(rest, c.site);
      if i :| 0 <= i < |calls| && calls[i].site == site && calls[i].outcome == Deferred {
        if i < |rest| {
          assert rest[i] == calls[i];
        }
      }
      assert calls[|rest|] == c;
    }
  }

  /** However the two passes go, no site is fully recomputed twice in one job. */
  lemma NoSiteRunsTwice(cfg: Config, calls: seq<Call>, me: nat, siteIds: seq<Site>, site: Site)
    requires TwoPasses(cfg, calls, me, siteIds) && Distinct(siteIds)
    ensures Sum(Events(calls), On(site)) <= 1
  {
    var xs, ys := calls[..|siteIds|], calls[|siteIds|..];
    TwoPassesAreGood(cfg, calls, me, siteIds);
    assert AllGood(cfg, xs, me) && AllGood(cfg, ys, me);
    forall i, j | 0 <= i < j < |xs| ensures xs[i].site != xs[j].site {
      assert siteIds[i] != siteIds[j];
    }
    DeferredSitesAre(xs, site);
    RecomputesOf(cfg, xs, me, site);
    RecomputesOf(cfg, ys, me, site);
    assert calls == xs + ys;
    CallsAppend(xs, ys);
    SumAppend(Events(xs), Events(ys), On(site));
    if j :| 0 <= j < |ys| && ys[j].site == site {
      assert site == DeferredSites(xs)[j];
      var i :| 0 <= i < |xs| && xs[i].site == site && xs[i].outcome == Deferred;
      forall k | 0 <= k < |xs| && xs[k].site == site ensures xs[k].outcome == Deferred {
        assert k == i;
      }
    }
  }

  /** The first poll since `d` that came after the old holder's expiry came after the marker's, too. */
  ghost predicate MarkerExpired(cfg: Config, origin: World, log: seq<Event>, d: nat, last: nat, site: Site, k: nat)
    requires Run(cfg, origin, log).Some? && d <= last < |log|
    requires Debounce(site) in Before(cfg, origin, log, d).keys
    requires SweepPending(site) in Before(cfg, origin, log, d).keys
  {
    var w := Before(cfg, origin, log, d);
    && d <= k <= last && log[k].Attempt? && log[k].site == site
    && w.keys[SweepPending(site)] <= Before(cfg, origin, log, k).now
    && forall i :: d <= i < k && log[i].Attempt? && log[i].site == site ==>
         Before(cfg, origin, log, i).now < w.keys[Debounce(site)]
  }

  /** A retry with the job's waiting time, as `SweepOneSite` reports it: the site was deferred at event
      `d`, the retry gives up at event `end`, and in between nothing disturbed it. Then it has one of
      the excuses below: a reply acted on late, or a marker already gone at the decisive poll. */
  lemma RetryGivesUpOnlyWithExcuse(cfg: Config, origin: World, log: seq<Event>, d: nat, end: nat, me: nat, site: Site,
                                   first: nat, last: nat)
    returns (k: nat)
    requires Run(cfg, origin, log).Some? && HoldsAreShort(cfg, origin)
    requires d <= first <= last < end <= |log|
    requires var w := Before(cfg, origin, log, d); Marked(w, me, site) && !w.InFlight(site)
    requires forall i :: d <= i < end ==> Undisturbed(log[i], me, site)
    requires IsAttempt(log[last], me, site, No)
    requires Before(cfg, origin, log, end).now >=
             Before(cfg, origin, log, first).now + (cfg.minIntervalSeconds + 5) * SECOND
    ensures || Before(cfg, origin, log, end).now - Before(cfg, origin, log, last).now >= Slack(cfg)
            || MarkerExpired(cfg, origin, log, d, last, site, k)
  {
    k := d;
    RunPrefix(cfg, origin, log, d);
    HoldsStayShort(cfg, origin, log[..d]);
    TimeIsMonotone(cfg, origin, log, d, first);
    if Before(cfg, origin, log, end).now - Before(cfg, origin, log, last).now < Slack(cfg) {
      k := RefusedAfterMarker(cfg, origin, log, d, end, me, site, last);
    }
  }

  /** The stretch from `d` to `end`, read as a run of its own. */
  lemma RefusedAfterMarker(cfg: Config, origin: World, log: seq<Event>, d: nat, end: nat, me: nat, site: Site,
                           last: nat)
    returns (k: nat)
    requires Run(cfg, origin, log).Some? && d <= last < end <= |log|
    requires var w := Before(cfg, origin, log, d);
             Marked(w, me, site) && !w.InFlight(site) && w.keys[Debounce(site)] <= Before(cfg, origin, log, last).now
    requires forall i :: d <= i < end ==> Undisturbed(log[i], me, site)
    requires IsAttempt(log[last], me, site, No)
    ensures MarkerExpired(cfg, origin, log, d, last, site, k)
  {
    var w, es := Before(cfg, origin, log, d), log[d..end];
    RunStretch(cfg, origin, log, d, end, last);
    assert es[last-d] == log[last];
    var j := RefusedAfterExpiry(cfg, w, es, me, site, last - d);
    k := d + j;
    ExpiredInLog(cfg, origin, log, d, end, last, site, j);
  }

  /** What the stretch says about its first poll, said about the whole history. */
  lemma ExpiredInLog(cfg: Config, origin: World, log: seq<Event>, d: nat, end: nat, last: nat, site: Site, j: nat)
    requires Run(cfg, origin, log).Some? && d <= last < end <= |log| && d + j <= last
    requires var w := Before(cfg, origin, log, d);
             && Debounce(site) in w.keys && SweepPending(site) in w.keys
             && Run(cfg, w, log[d..end]).Some?
             && FirstPollFrom(cfg, w, log[d..end], site, w.keys[Debounce(site)], j)
             && w.keys[SweepPending(site)] <= Before(cfg, w, log[d..end], j).now
    ensures MarkerExpired(cfg, origin, log, d, last, site, d + j)
  {
    var w := Before(cfg, origin, log, d);
    RunStretch(cfg, origin, log, d, end, d + j);
    forall i | d <= i < d + j && log[i].Attempt? && log[i].site == site
      ensures Before(cfg, origin, log, i).now < w.keys[Debounce(site)]
    {
      RunStretch(cfg, origin, log, d, end, i);
      assert log[d..end][i-d] == log[i];
    }
  }

  /* ---------- Every contended retry of the job ---------- */

  lemma {:induction false} InOwn(es: seq<Event>, m: nat, me: nat)
    requires m < |es| && es[m].BySweeper(me)
    ensures es[m] in Own(es, me)
  {
    if m < |es| - 1 {
      InOwn(es[..|es|-1], m, me);
    }
  }

  /** The calls follow one another. */
  lemma {:induction false} CallsInOrder(cfg: Config, origin: World, log: seq<Event>, calls: seq<Call>, me: nat,
                                        start: nat, i: nat, j: nat)
    requires AllPlaced(cfg, origin, log, calls, me, start) && i < j < |calls|
    ensures calls[i].to <= calls[j].from
  {
    assert calls[j].from == StartOf(calls, start, j);
    if i < j - 1 {
      CallsInOrder(cfg, origin, log, calls, me, start, i, j - 1);
      assert Placed(cfg, origin, log, calls[j-1], me);
    }
  }

  /** Between two calls every instant belongs to some call. */
  lemma {:induction false} WhichCall(cfg: Config, origin: World, log: seq<Event>, calls: seq<Call>, me: nat,
                                     start: nat, i: nat, j: nat, m: nat) returns (x: nat)
    requires AllPlaced(cfg, origin, log, calls, me, start) && i < j < |calls|
    requires calls[i].to <= m < calls[j].to
    ensures i < x <= j && calls[x].from <= m < calls[x].to
  {
    x := j;
    if m < calls[j].from {
      assert calls[j].from == StartOf(calls, start, j);
      x := WhichCall(cfg, origin, log, calls, me, start, i, j - 1, m);
    }
  }

  /** All that a call does, it does at its own site. */
  lemma CallStaysAtSite(cfg: Config, c: Call, me: nat, e: Event)
    requires GoodCall(cfg, c, me) && e in c.events
    ensures !e.Tick? && e.site == c.site
  {
    var m :| 0 <= m < |c.events| && c.events[m] == e;
    var n := |c.events|;
    if c.outcome == Ran || RecomputeShape(cfg, c.events, me, c.site, None) {
      assert m < n - 3 ==> e == c.events[..n-3][m];
    } else {
      assert m < n - 1 ==> e == c.events[..n-1][m];
    }
  }

  /** Between a deferral and the end of its retry the job visits other sites only. */
  lemma OtherSitesBetween(cfg: Config, calls: seq<Call>, me: nat, siteIds: seq<Site>, i: nat, x: nat, j: nat)
    requires TwoPasses(cfg, calls, me, siteIds) && Distinct(siteIds)
    requires i < |siteIds| <= j < |calls| && i < x < j && calls[j].site == calls[i].site
    ensures calls[x].site != calls[i].site
  {
    var xs, ys := calls[..|siteIds|], calls[|siteIds|..];
    forall a, b | 0 <= a < b < |xs| ensures xs[a].site != xs[b].site {
      assert siteIds[a] != siteIds[b];
    }
    DeferredSitesAre(xs, calls[i].site);
    if x < |siteIds| {
      assert xs[i].site != xs[x].site;
    } else {
      assert ys[x-|siteIds|].site == DeferredSites(xs)[x-|siteIds|];
      assert ys[j-|siteIds|].site == DeferredSites(xs)[j-|siteIds|];
    }
  }

  /** What the sweeper itself does at a deferred site until its contended retry gives up: it polls. */
  lemma OwnPollsOnly(cfg: Config, origin: World, log: seq<Event>, calls: seq<Call>, me: nat, siteIds: seq<Site>,
                     start: nat, i: nat, j: nat, m: nat)
    requires TwoPasses(cfg, calls, me, siteIds) && Distinct(siteIds)
    requires AllPlaced(cfg, origin, log, calls, me, start)
    requires i < |siteIds| <= j < |calls| && calls[j].site == calls[i].site
    requires ContendedShape(calls[j].events, me, calls[j].site)
    requires calls[i].to <= m < calls[j].to - 1 < |log| && log[m].BySweeper(me)
    ensures Undisturbed(log[m], me, calls[i].site)
  {
    var x := WhichCall(cfg, origin, log, calls, me, start, i, j, m);
    TwoPassesAreGood(cfg, calls, me, siteIds);
    if x < j {
      OwnStaysAtSite(cfg, origin, log, calls[x], me, m);
      OtherSitesBetween(cfg, calls, me, siteIds, i, x, j);
    } else {
      RetryOnlyPolls(cfg, origin, log, calls[j], me, m);
    }
  }

  lemma OwnNeverDisturbs(cfg: Config, origin: World, log: seq<Event>, calls: seq<Call>, me: nat, siteIds: seq<Site>,
                         start: nat, i: nat, j: nat)
    requires TwoPasses(cfg, calls, me, siteIds) && Distinct(siteIds)
    requires AllPlaced(cfg, origin, log, calls, me, start)
    requires i < |siteIds| <= j < |calls| && calls[j].site == calls[i].site
    requires ContendedShape(calls[j].events, me, calls[j].site) && calls[j].to <= |log|
    ensures forall m :: calls[i].to <= m < calls[j].to - 1 && log[m].BySweeper(me) ==>
              Undisturbed(log[m], me, calls[j].site)
  {
    forall m | calls[i].to <= m < calls[j].to - 1 && log[m].BySweeper(me)
      ensures Undisturbed(log[m], me, calls[j].site)
    {
      OwnPollsOnly(cfg, origin, log, calls, me, siteIds, start, i, j, m);
    }
  }

  lemma OwnStaysAtSite(cfg: Config, origin: World, log: seq<Event>, c: Call, me: nat, m: nat)
    requires Placed(cfg, origin, log, c, me) && GoodCall(cfg, c, me)
    requires c.from <= m < c.to && log[m].BySweeper(me)
    ensures !log[m].Tick? && log[m].site == c.site
  {
    InOwn(log[c.from..c.to], m - c.from, me);
    CallStaysAtSite(cfg, c, me, log[m]);
  }

  lemma RetryOnlyPolls(cfg: Config, origin: World, log: seq<Event>, c: Call, me: nat, m: nat)
    requires Placed(cfg, origin, log, c, me) && ContendedShape(c.events, me, c.site)
    requires c.from <= m < c.to - 1 && log[m].BySweeper(me)
    ensures IsAttempt(log[m], me, c.site, No)
  {
    var part := log[c.from..c.to];
    var polls := part[..|part|-1];
    InOwn(polls, m - c.from, me);
    assert polls[m-c.from] == log[m] && part[|part|-1] == log[c.to-1];
    assert Own(part, me) == Own(polls, me) + [log[c.to-1]];
    assert Own(polls, me) == c.events[..|c.events|-1];
  }

  /** What a deferral leaves: a record of the hold that refused the sweeper, and, unless Redis was
      degraded, a marker; one that was newly set outlives the hold. */
  lemma DeferralInLog(cfg: Config, origin: World, log: seq<Event>, c: Call, me: nat)
    requires HoldsAreShort(cfg, origin) && cfg.minIntervalSeconds >= 1 && Run(cfg, origin, log).Some?
    requires DefersAt(log, c, me)
    ensures var (w, reply) := (Before(cfg, origin, log, c.to), log[c.to-1].reply);
            && w.At(me) == Idle && Debounce(c.site) in w.keys
            && (reply != Degraded ==> SweepPending(c.site) in w.keys)
            && (reply == Yes ==> JustDeferred(w, me, c.site))
  {
    var d := c.to - 1;
    var held := Before(cfg, origin, log, c.last);
    Advance(cfg, origin, log, c.last);
    assert HeldUntil(held, c.site, held.keys[Debounce(c.site)]);
    HoldPersists(cfg, origin, log, c.last, d, c.site, held.keys[Debounce(c.site)]);
    RunPrefix(cfg, origin, log, d);
    HoldsStayShort(cfg, origin, log[..d]);
    Advance(cfg, origin, log, d);
    var e := log[d];
    assert e == Defer(me, c.site, e.reply, e.reached);
    if e.reply == Yes {
      DeferralOutlivesHolder(cfg, Before(cfg, origin, log, d), me, c.site, e.reached);
    }
  }

  /** Someone else, or a degraded Redis, interfered at the site from `d` on and before `end`. */
  ghost predicate DisturbedByOthers(log: seq<Event>, d: nat, end: nat, me: nat, site: Site)
    requires end <= |log|
  {
    exists m :: d <= m < end && !log[m].BySweeper(me) && !Undisturbed(log[m], me, site)
  }

  /** Why a retry `c` after a deferral may fail: the marker was never set because Redis was degraded,
      a trigger stood between its two calls at deferral, someone else interfered, the last refusal was
      acted on five seconds late, or the marker had expired. */
  ghost predicate HasReason(cfg: Config, origin: World, log: seq<Event>, deferral: Call, c: Call, me: nat, k: nat) {
    && Run(cfg, origin, log).Some? && DefersAt(log, deferral, me) && GivesUpAt(cfg, origin, log, c, me)
    && deferral.to <= c.last && Debounce(c.site) in Before(cfg, origin, log, deferral.to).keys
    && (|| NeverMarked(cfg, origin, log, deferral)
        || Before(cfg, origin, log, deferral.to).InFlight(c.site)
        || DisturbedByOthers(log, deferral.to, c.to - 1, me, c.site)
        || Before(cfg, origin, log, c.to - 1).now - Before(cfg, origin, log, c.last).now >= 5 * SECOND
        || (&& SweepPending(c.site) in Before(cfg, origin, log, deferral.to).keys
            && MarkerExpired(cfg, origin, log, deferral.to, c.last, c.site, k)))
  }

  /** The call to set the marker was degraded, and nobody had set it either. */
  ghost predicate NeverMarked(cfg: Config, origin: World, log: seq<Event>, deferral: Call)
    requires Run(cfg, origin, log).Some? && 1 <= deferral.to <= |log| && log[deferral.to-1].Defer?
  {
    && log[deferral.to-1].reply == Degraded
    && SweepPending(deferral.site) !in Before(cfg, origin, log, deferral.to).keys
  }

  /** The whole job: whenever a site was deferred in the first pass, however Redis answered to the
      marker, and the retry in the second pass finds it contended still, there is one of the reasons
      above. */
  lemma ContendedRetryHasReason(cfg: Config, origin: World, log: seq<Event>, calls: seq<Call>, me: nat,
                                siteIds: seq<Site>, start: nat, i: nat, j: nat)
    requires HoldsAreShort(cfg, origin) && cfg.minIntervalSeconds >= 1
    requires TwoPasses(cfg, calls, me, siteIds) && Distinct(siteIds)
    requires AllPlaced(cfg, origin, log, calls, me, start)
    requires i < |siteIds| <= j < |calls| && calls[j].site == calls[i].site
    requires calls[i].outcome == Deferred
    requires ContendedShape(calls[j].events, me, calls[j].site)
    ensures exists k: nat :: HasReason(cfg, origin, log, calls[i], calls[j], me, k)
  {
    DeferralAndRetry(cfg, origin, log, calls, me, siteIds, start, i, j);
    assert Placed(cfg, origin, log, calls[i], me);
    OwnNeverDisturbs(cfg, origin, log, calls, me, siteIds, start, i, j);
    var k := RetryReason(cfg, origin, log, calls[i], calls[j], me);
  }

  /** Where a deferral and its contended retry stand in the history. */
  lemma DeferralAndRetry(cfg: Config, origin: World, log: seq<Event>, calls: seq<Call>, me: nat, siteIds: seq<Site>,
                         start: nat, i: nat, j: nat)
    requires TwoPasses(cfg, calls, me, siteIds) && AllPlaced(cfg, origin, log, calls, me, start)
    requires i < |siteIds| <= j < |calls| && ContendedShape(calls[j].events, me, calls[j].site)
    ensures Run(cfg, origin, log).Some? && GivesUpAt(cfg, origin, log, calls[j], me)
    ensures calls[j].retry && calls[i].to <= calls[j].from
  {
    CallsInOrder(cfg, origin, log, calls, me, start, i, j);
    assert Placed(cfg, origin, log, calls[j], me);
    assert calls[j] == calls[|siteIds|..][j-|siteIds|];
  }

  /** The same for one deferral and one later retry, between which the sweeper itself only polls. */
  lemma RetryReason(cfg: Config, origin: World, log: seq<Event>, deferral: Call, c: Call, me: nat) returns (k: nat)
    requires HoldsAreShort(cfg, origin) && cfg.minIntervalSeconds >= 1 && Run(cfg, origin, log).Some?
    requires DefersAt(log, deferral, me)
    requires GivesUpAt(cfg, origin, log, c, me) && c.retry && c.site == deferral.site && deferral.to <= c.from
    requires forall m :: deferral.to <= m < c.to - 1 && log[m].BySweeper(me) ==> Undisturbed(log[m], me, c.site)
    ensures HasReason(cfg, origin, log, deferral, c, me, k)
  {
    k := 0;
    DeferralInLog(cfg, origin, log, deferral, me);
    var d := deferral.to;
    if !NeverMarked(cfg, origin, log, deferral)
       && !Before(cfg, origin, log, d).InFlight(c.site) && !DisturbedByOthers(log, d, c.to - 1, me, c.site) {
      k := RetryGivesUpOnlyWithExcuse(cfg, origin, log, d, c.to - 1, me, c.site, c.first, c.last);
    }
  }
}
