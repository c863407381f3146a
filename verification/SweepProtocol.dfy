/** The Redis protocol between the aggregation repair sweep and per-ingest aggregation.

    Any number of containers sweep, any number of ingest triggers fire, keys expire, and every
    Redis call may degrade. A world is the shared state together with each actor's program
    position; `Step` says which atomic actions an actor may take from there.

    Time is counted in milliseconds. */
module SweepProtocol {
  import opened Prelude

  type Site = string

  /** The two Redis keys of a site: the debounce key and the sweep's yield marker. */
  datatype Key = Debounce(site: Site) | SweepPending(site: Site)

  /** What a Redis call tells its caller: True, False, or None when Redis is degraded. */
  datatype Reply = Yes | No | Degraded

  datatype Config = Config(minIntervalSeconds: int, incremental: bool)

  const SECOND := 1000
  const SWEEP_PENDING_TTL_MULTIPLIER := 3

  /** `SET ... EX max(ttl, 1)`, in milliseconds. */
  function Ttl(seconds: int): (ms: int)
    ensures ms >= 1000 && (seconds >= 1 ==> ms == seconds * 1000) && (seconds < 1 ==> ms == 1000)
  {
    if seconds < 1 then SECOND else seconds * SECOND
  }

  /** Where a sweeping container stands in its attempt at one site. */
  datatype Position =
    | Idle
    | Contended(site: Site)            // the last try_acquire said False
    | Cleared(site: Site, answer: Reply)   // recomputing: acquired, or degraded with the flag off
    | Recomputed(site: Site)           // must still release the marker

  /** Where an ingest run stands: between its marker check and its take, or aggregating. */
  datatype Ingest = Checked(site: Site) | Aggregating(site: Site, answer: Reply)

  datatype World = World(
    now: int,
    keys: map<Key, int>,               // key -> the instant it expires
    sweepers: map<nat, Position>,      // absent means Idle
    triggers: map<nat, Ingest>)        // ingest runs under way
  {
    predicate Live(k: Key) {
      k in keys && now < keys[k]
    }

    function At(s: nat): Position {
      if s in sweepers then sweepers[s] else Idle
    }

    function Move(s: nat, p: Position): World {
      this.(sweepers := sweepers[s := p])
    }

    /** May `SET NX` answer this, for a key in this state? */
    predicate Answers(k: Key, r: Reply) {
      match r
      case Yes => !Live(k)
      case No => Live(k)
      case Degraded => true
    }

    /** The effect of `SET NX EX`. A degraded call may or may not have reached Redis. */
    function Set(k: Key, ttl: int, r: Reply, reached: bool): World {
      if r == Yes || (r == Degraded && reached && !Live(k))
      then this.(keys := keys[k := now + ttl])
      else this
    }

    predicate InFlight(site: Site) {
      exists t :: t in triggers && triggers[t] == Checked(site)
    }
  }

  datatype Event =
    | Tick(ms: nat)
    | Attempt(s: nat, site: Site, reply: Reply, reached: bool)  // sweeper: try_acquire(debounce)
    | Recompute(s: nat, site: Site, visitors: Option<nat>)      // full recompute over; None when it raised
    | Defer(s: nat, site: Site, reply: Reply, reached: bool)    // sweeper: try_acquire(marker)
    | Clear(s: nat, site: Site, reached: bool)                  // sweeper: release(marker)
    | Check(t: nat, site: Site, reply: Reply)                   // ingest: exists(marker)
    | Take(t: nat, site: Site, reply: Reply, reached: bool)     // ingest: try_acquire(debounce)
    | Done(t: nat, site: Site)                                  // ingest: aggregation over
  {
    predicate BySweeper(me: nat) {
      (Attempt? || Recompute? || Defer? || Clear?) && s == me
    }
  }

  function Step(cfg: Config, w: World, e: Event): Option<World> {
    var debounceTtl := Ttl(cfg.minIntervalSeconds);
    match e
    case Tick(ms) => Some(w.(now := w.now + ms))

    case Attempt(s, site, reply, reached) =>
      if !(w.At(s) == Idle || w.At(s) == Contended(site)) || !w.Answers(Debounce(site), reply) then None
      else
        var w' := w.Set(Debounce(site), debounceTtl, reply, reached);
        Some(match reply
             case Yes => w'.Move(s, Cleared(site, Yes))
             case No => w'.Move(s, Contended(site))
             case Degraded => w'.Move(s, if cfg.incremental then Idle else Cleared(site, Degraded)))

    case Recompute(s, site, visitors) =>
      if w.At(s).Cleared? && w.At(s).site == site then Some(w.Move(s, Recomputed(site))) else None

    case Defer(s, site, reply, reached) =>
      if w.At(s) == Contended(site) && w.Answers(SweepPending(site), reply) then
        var ttl := Ttl(cfg.minIntervalSeconds * SWEEP_PENDING_TTL_MULTIPLIER);
        Some(w.Set(SweepPending(site), ttl, reply, reached).Move(s, Idle))
      else None

    case Clear(s, site, reached) =>
      if w.At(s) == Contended(site) || w.At(s) == Recomputed(site) then
        Some((if reached then w.(keys := w.keys - {SweepPending(site)}) else w).Move(s, Idle))
      else None

    case Check(t, site, reply) =>
      if t in w.triggers || !(match reply
                              case Yes => w.Live(SweepPending(site))
                              case No => !w.Live(SweepPending(site))
                              case Degraded => true) then None
      else if reply == Yes then Some(w)   // yields to the sweep
      else Some(w.(triggers := w.triggers[t := Checked(site)]))

    case Take(t, site, reply, reached) =>
      if t in w.triggers && w.triggers[t] == Checked(site) && w.Answers(Debounce(site), reply) then
        Some(w.Set(Debounce(site), debounceTtl, reply, reached).(
               triggers := if reply == No then w.triggers - {t} else w.triggers[t := Aggregating(site, reply)]))
      else None

    case Done(t, site) =>
      if t in w.triggers && w.triggers[t].Aggregating? && w.triggers[t].site == site
      then Some(w.(triggers := w.triggers - {t})) else None
  }

  /** The world after a whole history, or None when some event was not possible. */
  function Run(cfg: Config, w: World, es: seq<Event>): Option<World> {
    if es == [] then Some(w)
    else
      var before := Run(cfg, w, es[..|es|-1]);
      if before.None? then None else Step(cfg, before.value, es[|es|-1])
  }

  lemma {:induction false} RunPrefix(cfg: Config, w: World, es: seq<Event>, i: nat)
    requires Run(cfg, w, es).Some? && i <= |es|
    ensures Run(cfg, w, es[..i]).Some?
  {
    if i < |es| {
      RunPrefix(cfg, w, es[..|es|-1], i);
      assert es[..|es|-1][..i] == es[..i];
    } else {
      assert es[..i] == es;
    }
  }

  lemma RunOneMore(cfg: Config, w: World, es: seq<Event>, e: Event)
    requires Run(cfg, w, es).Some?
    ensures Run(cfg, w, es + [e]) == Step(cfg, Run(cfg, w, es).value, e)
  {
    assert (es + [e])[..|es|] == es;
  }

  lemma {:induction false} RunAppend(cfg: Config, w: World, es: seq<Event>, fs: seq<Event>)
    requires Run(cfg, w, es).Some?
    ensures Run(cfg, w, es + fs) == Run(cfg, Run(cfg, w, es).value, fs)
  {
    if fs == [] {
      assert es + fs == es;
    } else {
      var k := |fs| - 1;
      RunAppend(cfg, w, es, fs[..k]);
      assert (es + fs)[..|es|+k] == es + fs[..k];
    }
  }

  /** The world in which event `i` of a run happens. */
  function Before(cfg: Config, w: World, es: seq<Event>, i: nat): World
    requires Run(cfg, w, es).Some? && i <= |es|
  {
    RunPrefix(cfg, w, es, i);
    Run(cfg, w, es[..i]).value
  }

  lemma Advance(cfg: Config, w: World, es: seq<Event>, i: nat)
    requires Run(cfg, w, es).Some? && i < |es|
    ensures Step(cfg, Before(cfg, w, es, i), es[i]) == Some(Before(cfg, w, es, i + 1))
  {
    RunPrefix(cfg, w, es, i + 1);
    assert es[..i+1][..i] == es[..i];
  }

  /** A stretch of a run is a run from the world in which it starts. */
  lemma RunStretch(cfg: Config, w: World, es: seq<Event>, d: nat, end: nat, i: nat)
    requires Run(cfg, w, es).Some? && d <= i <= end <= |es|
    ensures Run(cfg, Before(cfg, w, es, d), es[d..end]).Some?
    ensures Before(cfg, Before(cfg, w, es, d), es[d..end], i - d) == Before(cfg, w, es, i)
  {
    RunPrefix(cfg, w, es, d);
    RunPrefix(cfg, w, es, i);
    RunPrefix(cfg, w, es, end);
    assert es[..end] == es[..d] + es[d..end];
    RunAppend(cfg, w, es[..d], es[d..end]);
    assert es[..i] == es[..d] + es[d..end][..i-d];
    RunAppend(cfg, w, es[..d], es[d..end][..i-d]);
  }

  /** How an ingest run treats Redis' answers: it yields to a marker that it sees, gives up at a key that
      it finds held, and falls open on every call that fails. */
  lemma IngestFallsOpen(cfg: Config, w: World, t: nat, site: Site, reply: Reply, reached: bool)
    ensures Step(cfg, w, Check(t, site, reply)).Some? ==>
              var v := Step(cfg, w, Check(t, site, reply)).value;
              v == if reply == Yes then w else w.(triggers := w.triggers[t := Checked(site)])
    ensures Step(cfg, w, Take(t, site, reply, reached)).Some? ==>
              var v := Step(cfg, w, Take(t, site, reply, reached)).value;
              if reply == No then t !in v.triggers && v.keys == w.keys
              else t in v.triggers && v.triggers[t] == Aggregating(site, reply)
  {
  }

  /** A release of the marker that gets through removes it, and no other key. */
  lemma ClearRemovesMarker(cfg: Config, w: World, s: nat, site: Site, reached: bool)
    requires Step(cfg, w, Clear(s, site, reached)).Some?
    ensures var v := Step(cfg, w, Clear(s, site, reached)).value;
            && (reached ==> SweepPending(site) !in v.keys)
            && forall k :: (k != SweepPending(site) || !reached) && k in w.keys ==>
                 k in v.keys && v.keys[k] == w.keys[k]
  {
  }

  /* ---------- Safety in every interleaving ---------- */

  /** This event took the site's debounce key. */
  predicate Grants(e: Event, site: Site) {
    (e.Attempt? || e.Take?) && e.site == site && e.reply == Yes
  }

  ghost predicate HeldUntil(w: World, site: Site, end: int) {
    Debounce(site) in w.keys && end <= w.keys[Debounce(site)]
  }

  lemma StepKeepsHold(cfg: Config, w: World, e: Event, site: Site, end: int)
    requires Step(cfg, w, e).Some? && HeldUntil(w, site, end)
    ensures HeldUntil(Step(cfg, w, e).value, site, end)
  {
  }

  lemma {:induction false} HoldPersists(cfg: Config, w: World, es: seq<Event>, i: nat, j: nat, site: Site, end: int)
    requires Run(cfg, w, es).Some? && i <= j <= |es|
    requires HeldUntil(Before(cfg, w, es, i), site, end)
    ensures HeldUntil(Before(cfg, w, es, j), site, end)
  {
    if i < j {
      HoldPersists(cfg, w, es, i, j - 1, site, end);
      Advance(cfg, w, es, j - 1);
      StepKeepsHold(cfg, Before(cfg, w, es, j - 1), es[j-1], site, end);
    }
  }

  /** Whoever takes a site's debounce key, sweeper or ingest, the next one takes it at least one
      debounce TTL later: no action of any actor deletes that key. */
  lemma GrantsAreSpaced(cfg: Config, w: World, es: seq<Event>, i: nat, j: nat, site: Site)
    requires Run(cfg, w, es).Some? && i < j < |es|
    requires Grants(es[i], site) && Grants(es[j], site)
    ensures Before(cfg, w, es, j).now - Before(cfg, w, es, i).now >= Ttl(cfg.minIntervalSeconds)
  {
    var end := Before(cfg, w, es, i).now + Ttl(cfg.minIntervalSeconds);
    Advance(cfg, w, es, i);
    assert HeldUntil(Before(cfg, w, es, i + 1), site, end);
    HoldPersists(cfg, w, es, i + 1, j, site, end);
    Advance(cfg, w, es, j);
  }

  /** The licence under which sweeper `s` may recompute `site` just before event `i`: its own
      last action was the attempt at `g`, and that attempt was answered with `answer`. */
  ghost predicate LicensedBy(es: seq<Event>, i: nat, s: nat, site: Site, answer: Reply, g: nat) {
    && g < i <= |es|
    && es[g].Attempt? && es[g].s == s && es[g].site == site && es[g].reply == answer
    && forall k :: g < k < i ==> !es[k].BySweeper(s)
  }

  lemma StepClears(cfg: Config, w: World, e: Event, s: nat)
    requires Step(cfg, w, e).Some? && Step(cfg, w, e).value.At(s).Cleared?
    ensures var p := Step(cfg, w, e).value.At(s);
            if e.BySweeper(s)
            then && e.Attempt? && e.site == p.site && e.reply == p.answer
                 && (p.answer == Yes || (p.answer == Degraded && !cfg.incremental))
            else w.At(s) == p
  {
  }

  lemma {:induction false} ClearedHasLicence(cfg: Config, w: World, es: seq<Event>, i: nat, s: nat, p: Position)
    returns (g: nat)
    requires Run(cfg, w, es).Some? && i <= |es|
    requires !w.At(s).Cleared?
    requires p.Cleared? && Before(cfg, w, es, i).At(s) == p
    ensures LicensedBy(es, i, s, p.site, p.answer, g)
    ensures p.answer == Yes || (p.answer == Degraded && !cfg.incremental)
  {
    if i == 0 {
      assert false;
    } else {
      Advance(cfg, w, es, i - 1);
      StepClears(cfg, Before(cfg, w, es, i - 1), es[i-1], s);
      if es[i-1].BySweeper(s) {
        g := i - 1;
      } else {
        g := ClearedHasLicence(cfg, w, es, i - 1, s, p);
      }
    }
  }

  /** In every interleaving a full recompute is licensed by that sweeper's own last action: an
      attempt at that site's key which was granted, or, only with the incremental flag off, one
      on which Redis was degraded. One attempt licenses one recompute. */
  lemma RecomputeFollowsOwnAttempt(cfg: Config, w: World, es: seq<Event>, i: nat)
    returns (g: nat, answer: Reply)
    requires Run(cfg, w, es).Some? && i < |es| && es[i].Recompute?
    requires !w.At(es[i].s).Cleared?
    ensures LicensedBy(es, i, es[i].s, es[i].site, answer, g)
    ensures answer == Yes || (answer == Degraded && !cfg.incremental)
  {
    Advance(cfg, w, es, i);
    var p := Before(cfg, w, es, i).At(es[i].s);
    answer := p.answer;
    g := ClearedHasLicence(cfg, w, es, i, es[i].s, p);
  }

  /** With the incremental flag on, two full recomputes of one site, by whatever containers, were
      licensed by two grants of the debounce key that lie at least one TTL apart. */
  lemma RecomputesHaveSpacedGrants(cfg: Config, w: World, es: seq<Event>, i: nat, j: nat)
    returns (g: nat, h: nat)
    requires Run(cfg, w, es).Some? && cfg.incremental
    requires i < j < |es| && es[i].Recompute? && es[j].Recompute? && es[i].site == es[j].site
    requires !w.At(es[i].s).Cleared? && !w.At(es[j].s).Cleared?
    ensures g < i && h < j && g != h
    ensures LicensedBy(es, i, es[i].s, es[i].site, Yes, g) && LicensedBy(es, j, es[j].s, es[j].site, Yes, h)
    ensures var apart := Before(cfg, w, es, h).now - Before(cfg, w, es, g).now;
            apart >= Ttl(cfg.minIntervalSeconds) || -apart >= Ttl(cfg.minIntervalSeconds)
  {
    var a, b;
    g, a := RecomputeFollowsOwnAttempt(cfg, w, es, i);
    h, b := RecomputeFollowsOwnAttempt(cfg, w, es, j);
    if g == h {
      assert es[i].s == es[j].s;
      assert es[i].BySweeper(es[j].s);
      assert false;
    } else if g < h {
      GrantsAreSpaced(cfg, w, es, g, h, es[i].site);
    } else {
      GrantsAreSpaced(cfg, w, es, h, g, es[i].site);
    }
  }

  /* ---------- Deferral makes progress ---------- */

  /** Sweeper `s` has just deferred `site`: someone held the debounce key when it was refused, though
      that hold may have expired by now, and the marker will outlive it. */
  ghost predicate JustDeferred(w: World, s: nat, site: Site) {
    && w.At(s) == Idle
    && Debounce(site) in w.keys && w.Live(SweepPending(site))
    && w.keys[Debounce(site)] < w.keys[SweepPending(site)]
  }

  /** Redis answers about `site`, and `s` is the only container sweeping it; until its retry is
      decided `s` does nothing there but poll. */
  predicate Undisturbed(e: Event, s: nat, site: Site) {
    match e
    case Tick(_) => true
    case Attempt(s', site', reply, _) => site' == site ==> s' == s && reply != Degraded
    case Take(_, site', reply, _) => site' == site ==> reply != Degraded
    case Check(_, site', reply) => site' == site ==> reply != Degraded
    case Recompute(_, site', _) => site' != site
    case Defer(_, site', _, _) => site' != site
    case Clear(_, site', _) => site' != site
    case Done(_, _) => true
  }

  /** `es` is a continuation whose last event is the first poll at or after the expiry of the old
      holder, at an instant when the marker is still live. */
  ghost predicate DecisivePoll(cfg: Config, w: World, es: seq<Event>, s: nat, site: Site) {
    && Run(cfg, w, es).Some?
    && Debounce(site) in w.keys && SweepPending(site) in w.keys
    && |es| > 0
    && es[|es|-1].Attempt? && es[|es|-1].s == s && es[|es|-1].site == site
    && (forall k :: 0 <= k < |es| ==> Undisturbed(es[k], s, site))
    && w.keys[Debounce(site)] <= Before(cfg, w, es, |es| - 1).now < w.keys[SweepPending(site)]
    && (forall k :: 0 <= k < |es| - 1 && es[k].Attempt? && es[k].site == site ==>
          Before(cfg, w, es, k).now < w.keys[Debounce(site)])
  }

  /** However the retry is interleaved, its first poll after the old holder expired wins the key. */
  ghost predicate RetryAlwaysWins(cfg: Config, w: World, s: nat, site: Site) {
    forall es :: DecisivePoll(cfg, w, es, s, site) ==> Grants(es[|es|-1], site)
  }

  /** Nobody holds a debounce key for longer than one TTL from now. */
  ghost predicate HoldsAreShort(cfg: Config, w: World) {
    forall site :: Debounce(site) in w.keys ==> w.keys[Debounce(site)] <= w.now + Ttl(cfg.minIntervalSeconds)
  }

  lemma StepKeepsHoldsShort(cfg: Config, w: World, e: Event)
    requires HoldsAreShort(cfg, w) && Step(cfg, w, e).Some?
    ensures HoldsAreShort(cfg, Step(cfg, w, e).value)
  {
  }

  lemma {:induction false} HoldsStayShort(cfg: Config, w: World, es: seq<Event>)
    requires HoldsAreShort(cfg, w) && Run(cfg, w, es).Some?
    ensures HoldsAreShort(cfg, Run(cfg, w, es).value)
  {
    if es != [] {
      HoldsStayShort(cfg, w, es[..|es|-1]);
      StepKeepsHoldsShort(cfg, Run(cfg, w, es[..|es|-1]).value, es[|es|-1]);
    }
  }

  /** Setting the yield marker establishes the premise of the progress results below: the marker
      outlives whoever refused the sweeper by more than one TTL, even if that hold has just expired. */
  lemma DeferralOutlivesHolder(cfg: Config, w: World, s: nat, site: Site, reached: bool)
    requires HoldsAreShort(cfg, w) && cfg.minIntervalSeconds >= 1
    requires Debounce(site) in w.keys && Step(cfg, w, Defer(s, site, Yes, reached)).Some?
    ensures var u := Step(cfg, w, Defer(s, site, Yes, reached)).value;
            && JustDeferred(u, s, site)
            && u.keys[SweepPending(site)] - u.keys[Debounce(site)] > Ttl(cfg.minIntervalSeconds)
            && u.keys[SweepPending(site)] == u.now + 3 * cfg.minIntervalSeconds * 1000
  {
    assert Ttl(cfg.minIntervalSeconds * SWEEP_PENDING_TTL_MULTIPLIER) == 3 * Ttl(cfg.minIntervalSeconds);
  }

  /** What the marker preserves while it is live and no trigger slipped in before it. */
  ghost predicate Yielded(w: World, v: World, site: Site)
    requires Debounce(site) in w.keys && SweepPending(site) in w.keys
  {
    && Debounce(site) in v.keys && v.keys[Debounce(site)] == w.keys[Debounce(site)]
    && SweepPending(site) in v.keys && v.keys[SweepPending(site)] == w.keys[SweepPending(site)]
    && !v.InFlight(site)
  }

  lemma StepYields(cfg: Config, w: World, v: World, e: Event, s: nat, site: Site)
    requires Debounce(site) in w.keys && SweepPending(site) in w.keys
    requires Yielded(w, v, site) && v.now < w.keys[SweepPending(site)]
    requires Undisturbed(e, s, site)
    requires e.Attempt? && e.site == site ==> v.now < w.keys[Debounce(site)]
    requires Step(cfg, v, e).Some?
    ensures Yielded(w, Step(cfg, v, e).value, site)
  {
    var u := Step(cfg, v, e).value;
    forall t | t in u.triggers ensures u.triggers[t] != Checked(site) {
      if t in v.triggers {
        assert v.triggers[t] != Checked(site);
      }
    }
  }

  lemma StepKeepsTime(cfg: Config, w: World, e: Event)
    requires Step(cfg, w, e).Some?
    ensures w.now <= Step(cfg, w, e).value.now
  {
  }

  lemma {:induction false} TimeIsMonotone(cfg: Config, w: World, es: seq<Event>, i: nat, j: nat)
    requires Run(cfg, w, es).Some? && i <= j <= |es|
    ensures Before(cfg, w, es, i).now <= Before(cfg, w, es, j).now
  {
    if i < j {
      TimeIsMonotone(cfg, w, es, i, j - 1);
      Advance(cfg, w, es, j - 1);
      StepKeepsTime(cfg, Before(cfg, w, es, j - 1), es[j-1]);
    }
  }

  lemma {:induction false} YieldedUntilPoll(cfg: Config, w: World, es: seq<Event>, i: nat, s: nat, site: Site)
    requires DecisivePoll(cfg, w, es, s, site) && !w.InFlight(site) && i < |es|
    ensures Yielded(w, Before(cfg, w, es, i), site)
  {
    if i == 0 {
      assert es[..0] == [];
    } else {
      YieldedUntilPoll(cfg, w, es, i - 1, s, site);
      TimeIsMonotone(cfg, w, es, i - 1, |es| - 1);
      Advance(cfg, w, es, i - 1);
      StepYields(cfg, w, Before(cfg, w, es, i - 1), es[i-1], s, site);
    }
  }

  lemma RunOfThree(cfg: Config, w: World, es: seq<Event>, w1: World, w2: World)
    requires |es| == 3
    requires Step(cfg, w, es[0]) == Some(w1) && Step(cfg, w1, es[1]) == Some(w2) && Step(cfg, w2, es[2]).Some?
    ensures Run(cfg, w, es).Some?
    ensures Before(cfg, w, es, 0) == w && Before(cfg, w, es, 2) == w2
  {
    assert es[..0] == [];
    RunOneMore(cfg, w, [], es[0]);
    assert es[..1] == [] + [es[0]];
    RunOneMore(cfg, w, es[..1], es[1]);
    assert es[..2] == es[..1] + [es[1]];
    RunOneMore(cfg, w, es[..2], es[2]);
    assert es == es[..2] + [es[2]];
  }

  /** An ingest trigger that read the marker before it was set can still take the key. */
  lemma LateTriggerBeatsRetry(cfg: Config, w: World, s: nat, site: Site) returns (es: seq<Event>)
    requires JustDeferred(w, s, site) && w.InFlight(site)
    ensures DecisivePoll(cfg, w, es, s, site) && !Grants(es[|es|-1], site)
  {
    var t :| t in w.triggers && w.triggers[t] == Checked(site);
    var ms := if w.keys[Debounce(site)] > w.now then w.keys[Debounce(site)] - w.now else 0;
    es := [Tick(ms), Take(t, site, Yes, true), Attempt(s, site, No, true)];
    var w1 := w.(now := w.now + ms);
    var w2 := Step(cfg, w1, es[1]).value;
    RunOfThree(cfg, w, es, w1, w2);
  }

  /** The end-of-pass retry of a deferred site is certain to win the key exactly when, at the
      moment of deferral, no ingest run stood between its marker check and its take. */
  lemma RetryWinsIffNoTriggerInFlight(cfg: Config, w: World, s: nat, site: Site)
    requires JustDeferred(w, s, site)
    ensures RetryAlwaysWins(cfg, w, s, site) <==> !w.InFlight(site)
  {
    if w.InFlight(site) {
      var es := LateTriggerBeatsRetry(cfg, w, s, site);
      assert !RetryAlwaysWins(cfg, w, s, site);
    } else {
      forall es | DecisivePoll(cfg, w, es, s, site) ensures Grants(es[|es|-1], site) {
        var last := |es| - 1;
        YieldedUntilPoll(cfg, w, es, last, s, site);
        Advance(cfg, w, es, last);
        assert Undisturbed(es[last], s, site);
      }
    }
  }

  /** Event `k` is the first attempt at `site` made at or after `instant`. */
  ghost predicate FirstPollFrom(cfg: Config, w: World, es: seq<Event>, site: Site, instant: int, k: nat)
    requires Run(cfg, w, es).Some?
  {
    && k < |es| && es[k].Attempt? && es[k].site == site
    && instant <= Before(cfg, w, es, k).now
    && forall i :: 0 <= i < k && es[i].Attempt? && es[i].site == site ==> Before(cfg, w, es, i).now < instant
  }

  lemma {:induction false} FindFirstPoll(cfg: Config, w: World, es: seq<Event>, site: Site, instant: int, last: nat)
    returns (k: nat)
    requires Run(cfg, w, es).Some? && last < |es|
    requires es[last].Attempt? && es[last].site == site && instant <= Before(cfg, w, es, last).now
    ensures k <= last && FirstPollFrom(cfg, w, es, site, instant, k)
  {
    k := last;
    if i :| 0 <= i < last && es[i].Attempt? && es[i].site == site && instant <= Before(cfg, w, es, i).now {
      k := FindFirstPoll(cfg, w, es, site, instant, i);
    }
  }

  lemma DecisiveAt(cfg: Config, w: World, es: seq<Event>, s: nat, site: Site, k: nat)
    requires Run(cfg, w, es).Some? && k < |es|
    requires Debounce(site) in w.keys && SweepPending(site) in w.keys
    requires forall i :: 0 <= i < |es| ==> Undisturbed(es[i], s, site)
    requires FirstPollFrom(cfg, w, es, site, w.keys[Debounce(site)], k)
    requires Before(cfg, w, es, k).now < w.keys[SweepPending(site)]
    ensures DecisivePoll(cfg, w, es[..k+1], s, site)
  {
    var ps := es[..k+1];
    RunPrefix(cfg, w, es, k + 1);
    forall i | 0 <= i <= k ensures Before(cfg, w, ps, i) == Before(cfg, w, es, i) {
      assert ps[..i] == es[..i];
    }
    assert Undisturbed(es[k], s, site);
  }

  /** After its attempt is granted the sweeper recomputes next, so it polls the site no more. */
  lemma {:induction false} HoldAfterWin(cfg: Config, w: World, es: seq<Event>, s: nat, site: Site, k: nat, j: nat)
    requires Run(cfg, w, es).Some? && k <= j < |es|
    requires forall i :: 0 <= i < |es| ==> Undisturbed(es[i], s, site)
    requires es[k].Attempt? && es[k].s == s && Grants(es[k], site)
    ensures Before(cfg, w, es, j + 1).At(s) == Cleared(site, Yes)
    ensures j > k ==> !es[j].BySweeper(s)
  {
    Advance(cfg, w, es, j);
    if k < j {
      HoldAfterWin(cfg, w, es, s, site, k, j - 1);
      assert Undisturbed(es[j], s, site);
    }
  }

  /** Sweeper `s` is done with `site` for now: whoever held the debounce key, and whoever set the
      marker, left a record of when that expires. */
  ghost predicate Marked(w: World, s: nat, site: Site) {
    w.At(s) == Idle && Debounce(site) in w.keys && SweepPending(site) in w.keys
  }

  /** A refused poll at or after the expiry of the old holder means that the first such poll came
      too late for the marker. */
  lemma RefusedAfterExpiry(cfg: Config, w: World, es: seq<Event>, s: nat, site: Site, last: nat) returns (k: nat)
    requires Marked(w, s, site) && !w.InFlight(site)
    requires Run(cfg, w, es).Some? && forall i :: 0 <= i < |es| ==> Undisturbed(es[i], s, site)
    requires last < |es| && es[last].Attempt? && es[last].s == s && es[last].site == site && es[last].reply == No
    requires w.keys[Debounce(site)] <= Before(cfg, w, es, last).now
    ensures k <= last && FirstPollFrom(cfg, w, es, site, w.keys[Debounce(site)], k)
    ensures w.keys[SweepPending(site)] <= Before(cfg, w, es, k).now
  {
    k := FindFirstPoll(cfg, w, es, site, w.keys[Debounce(site)], last);
    if Before(cfg, w, es, k).now < w.keys[SweepPending(site)] {
      TimeIsMonotone(cfg, w, es, 0, k);
      assert es[..0] == [];
      assert JustDeferred(w, s, site);
      DecisiveAt(cfg, w, es, s, site, k);
      RetryWinsIffNoTriggerInFlight(cfg, w, s, site);
      var ps := es[..k+1];
      assert Grants(ps[|ps|-1], site);
      assert Undisturbed(es[k], s, site);
      HoldAfterWin(cfg, w, es, s, site, k, last);
      assert false;
    }
  }

  /** How much longer than one debounce TTL the end-of-pass retry keeps polling. */
  function Slack(cfg: Config): (ms: int)
    ensures cfg.minIntervalSeconds >= 1 ==> ms == 5 * SECOND
  {
    (cfg.minIntervalSeconds + 5) * SECOND - Ttl(cfg.minIntervalSeconds)
  }

  /** The end-of-pass retry as a whole: undisturbed, with no trigger in flight at deferral, its
      last attempt refused, and giving up no earlier than one interval plus five seconds after its
      first attempt. Whoever set the marker, and whenever: the reply to that last attempt was acted
      on only after the slack (five seconds, for any interval of at least one), or the first poll after
      the old holder expired found the marker expired too. */
  lemma GivingUpHasAnExcuse(cfg: Config, w: World, es: seq<Event>, s: nat, site: Site, first: nat, last: nat)
    returns (k: nat)
    requires Marked(w, s, site) && !w.InFlight(site)
    requires w.keys[Debounce(site)] <= w.now + Ttl(cfg.minIntervalSeconds)
    requires Run(cfg, w, es).Some? && forall i :: 0 <= i < |es| ==> Undisturbed(es[i], s, site)
    requires first <= last < |es|
    requires es[last].Attempt? && es[last].s == s && es[last].site == site && es[last].reply == No
    requires Before(cfg, w, es, |es|).now >=
             Before(cfg, w, es, first).now + (cfg.minIntervalSeconds + 5) * SECOND
    ensures || Before(cfg, w, es, |es|).now - Before(cfg, w, es, last).now >= Slack(cfg)
            || (&& k <= last && FirstPollFrom(cfg, w, es, site, w.keys[Debounce(site)], k)
                && w.keys[SweepPending(site)] <= Before(cfg, w, es, k).now)
  {
    k := 0;
    assert es[..0] == [];
    TimeIsMonotone(cfg, w, es, 0, first);
    if Before(cfg, w, es, |es|).now - Before(cfg, w, es, last).now < Slack(cfg) {
      k := RefusedAfterExpiry(cfg, w, es, s, site, last);
    }
  }

  /* ---------- Aggregations that overlap ---------- */

  /** Who may be aggregating a site: a sweeping container, or an ingest run. */
  datatype Runner = Sweeper(s: nat) | Trigger(t: nat)

  predicate Aggregates(w: World, r: Runner, site: Site) {
    match r
    case Sweeper(s) => w.At(s).Cleared? && w.At(s).site == site
    case Trigger(t) => t in w.triggers && w.triggers[t].Aggregating? && w.triggers[t].site == site
  }

  /** This event is the attempt at the debounce key that lets `r` aggregate the site. */
  predicate Starts(cfg: Config, e: Event, r: Runner, site: Site) {
    match r
    case Sweeper(s) =>
      e.Attempt? && e.s == s && e.site == site && (e.reply == Yes || (e.reply == Degraded && !cfg.incremental))
    case Trigger(t) => e.Take? && e.t == t && e.site == site && e.reply != No
  }

  lemma StepStarts(cfg: Config, w: World, e: Event, r: Runner, site: Site)
    requires Step(cfg, w, e).Some? && Aggregates(Step(cfg, w, e).value, r, site) && !Aggregates(w, r, site)
    ensures Starts(cfg, e, r, site)
  {
  }

  /** From event `g` to the end of the run `r` has been aggregating the site. */
  ghost predicate AggregatesSince(cfg: Config, w: World, es: seq<Event>, r: Runner, site: Site, g: nat)
    requires Run(cfg, w, es).Some?
  {
    && g < |es| && Starts(cfg, es[g], r, site)
    && forall k :: g < k <= |es| ==> Aggregates(Before(cfg, w, es, k), r, site)
  }

  /** Whoever aggregates has started with an attempt at the key, and aggregated ever since. */
  lemma {:induction false} AggregationHasStart(cfg: Config, w: World, es: seq<Event>, r: Runner, site: Site)
    returns (g: nat)
    requires Run(cfg, w, es).Some? && !Aggregates(w, r, site) && Aggregates(Run(cfg, w, es).value, r, site)
    ensures AggregatesSince(cfg, w, es, r, site, g)
  {
    assert es[..|es|] == es;
    if es == [] {
      assert false;
    } else {
      var last := |es| - 1;
      var rest := es[..last];
      Advance(cfg, w, es, last);
      if Aggregates(Before(cfg, w, es, last), r, site) {
        g := AggregationHasStart(cfg, w, rest, r, site);
        forall k | g < k <= |es| ensures Aggregates(Before(cfg, w, es, k), r, site) {
          if k < |es| {
            assert rest[..k] == es[..k];
            assert Aggregates(Before(cfg, w, rest, k), r, site);
          }
        }
      } else {
        g := last;
        StepStarts(cfg, Before(cfg, w, es, last), es[last], r, site);
      }
    }
  }

  /** When two aggregations of one site are under way at once, whoever they are, then one of them was
      let through by a degraded Redis, or the one that started first has outlasted the debounce TTL. */
  lemma OverlapHasReason(cfg: Config, w: World, es: seq<Event>, a: Runner, b: Runner, site: Site)
    returns (g: nat, h: nat)
    requires a != b && Run(cfg, w, es).Some? && !Aggregates(w, a, site) && !Aggregates(w, b, site)
    requires Aggregates(Run(cfg, w, es).value, a, site) && Aggregates(Run(cfg, w, es).value, b, site)
    ensures AggregatesSince(cfg, w, es, a, site, g) && AggregatesSince(cfg, w, es, b, site, h) && g != h
    ensures || es[g].reply == Degraded || es[h].reply == Degraded
            || Run(cfg, w, es).value.now - Before(cfg, w, es, if g < h then g else h).now
               >= Ttl(cfg.minIntervalSeconds)
  {
    g := AggregationHasStart(cfg, w, es, a, site);
    h := AggregationHasStart(cfg, w, es, b, site);
    var first, second := if g < h then g else h, if g < h then h else g;
    assert es[..|es|] == es;
    if es[g].reply == Yes && es[h].reply == Yes {
      GrantsAreSpaced(cfg, w, es, first, second, site);
      TimeIsMonotone(cfg, w, es, second, |es|);
    }
  }

  /** With the incremental flag on a full recompute overlaps an ingest run only if that run was let
      through by a degraded Redis, or the earlier of the two has outlasted the debounce TTL. */
  lemma FullRecomputeOverlapsOnlyIf(cfg: Config, w: World, es: seq<Event>, s: nat, t: nat, site: Site)
    returns (g: nat, h: nat)
    requires cfg.incremental && Run(cfg, w, es).Some?
    requires !Aggregates(w, Sweeper(s), site) && !Aggregates(w, Trigger(t), site)
    requires Aggregates(Run(cfg, w, es).value, Sweeper(s), site) && Aggregates(Run(cfg, w, es).value, Trigger(t), site)
    ensures AggregatesSince(cfg, w, es, Sweeper(s), site, g) && AggregatesSince(cfg, w, es, Trigger(t), site, h)
    ensures || es[h].reply == Degraded
            || Run(cfg, w, es).value.now - Before(cfg, w, es, if g < h then g else h).now
               >= Ttl(cfg.minIntervalSeconds)
  {
    g, h := OverlapHasReason(cfg, w, es, Sweeper(s), Trigger(t), site);
  }

  /** Neither reason can be dropped. A trigger whose take is degraded joins a running recompute at
      once, and one whose take is granted joins it as soon as it has lasted one TTL. */
  lemma OverlapsHappen(cfg: Config, w: World, s: nat, t: nat, site: Site, degraded: bool) returns (es: seq<Event>)
    requires w.At(s) == Idle && t !in w.triggers && !w.Live(Debounce(site)) && !w.Live(SweepPending(site))
    ensures Run(cfg, w, es).Some?
    ensures var v := Run(cfg, w, es).value;
            && Aggregates(v, Sweeper(s), site) && Aggregates(v, Trigger(t), site)
            && v.now - w.now == if degraded then 0 else Ttl(cfg.minIntervalSeconds)
    ensures forall i :: 0 <= i < |es| && (es[i].Attempt? || es[i].Check?) ==> es[i].reply != Degraded
    ensures forall i :: 0 <= i < |es| && es[i].Take? ==> es[i].reply == if degraded then Degraded else Yes
  {
    var wait: nat := if degraded then 0 else Ttl(cfg.minIntervalSeconds);
    es := [Attempt(s, site, Yes, true), Tick(wait), Check(t, site, No),
           Take(t, site, if degraded then Degraded else Yes, false)];
    var w1 := Step(cfg, w, es[0]).value;
    var w2 := w1.(now := w.now + wait);
    var w3 := w2.(triggers := w2.triggers[t := Checked(site)]);
    assert Step(cfg, w2, es[2]) == Some(w3);
    RunOfFour(cfg, w, es, w1, w2, w3);
  }

  lemma RunOfFour(cfg: Config, w: World, es: seq<Event>, w1: World, w2: World, w3: World)
    requires |es| == 4
    requires Step(cfg, w, es[0]) == Some(w1) && Step(cfg, w1, es[1]) == Some(w2) && Step(cfg, w2, es[2]) == Some(w3)
    ensures Run(cfg, w, es) == Step(cfg, w3, es[3])
  {
    RunOfThree(cfg, w, es[..3], w1, w2);
    assert es[..3][..3] == es[..3] && es[..3][2] == es[2];
    Advance(cfg, w, es[..3], 2);
    assert es == es[..3] + [es[3]];
    RunOneMore(cfg, w, es[..3], es[3]);
  }
}
