/** The identity co-op: contribution events, which earn at most one credit per site and identity, and
    the append-only ledger of credit lots, whose balance is never stored. */
module CoopLedger {
  import opened Prelude

  /* ---------- The ledger ---------- */

  datatype Kind = Accrue | Spend | Expire

  /** Rows are never changed or removed, so a row's position serves as its id. */
  datatype Entry = Entry(site: string, kind: Kind, amount: int, lot: nat,
                         spendableAt: Option<int>, expiresAt: Option<int>)

  /** The balance window: past the hold, not yet expired; a missing bound always passes. */
  predicate InWindow(e: Entry, t: int) {
    && (e.spendableAt.Some? ==> e.spendableAt.value <= t)
    && (e.expiresAt.Some? ==> t < e.expiresAt.value)
  }

  /** An ACCRUE row is its own lot. Any other row draws on an earlier lot of its site, with a negative
      amount, and copies that lot's window. */
  predicate Stamped(entries: seq<Entry>, i: nat)
    requires i < |entries|
  {
    var e := entries[i];
    if e.kind == Accrue then e.lot == i && e.amount >= 0 && e.spendableAt.Some? && e.expiresAt.Some?
    else
      && e.lot < i && entries[e.lot].kind == Accrue && e.amount < 0
      && e.site == entries[e.lot].site
      && e.spendableAt == entries[e.lot].spendableAt && e.expiresAt == entries[e.lot].expiresAt
  }

  ghost predicate AllStamped(entries: seq<Entry>) {
    forall i :: 0 <= i < |entries| ==> Stamped(entries, i)
  }

  /** What is left in a lot: every row that carries it, whatever the time. */
  function LotSum(entries: seq<Entry>, lot: nat): int {
    if entries == [] then 0
    else
      var e := entries[|entries|-1];
      LotSum(entries[..|entries|-1], lot) + if e.lot == lot then e.amount else 0
  }

  function SumWhere(entries: seq<Entry>, selects: Entry -> bool): int {
    if entries == [] then 0
    else
      var e := entries[|entries|-1];
      SumWhere(entries[..|entries|-1], selects) + if selects(e) then e.amount else 0
  }

  function SpendableNow(site: string, t: int): Entry -> bool {
    (e: Entry) => e.site == site && InWindow(e, t)
  }

  function OfSite(site: string): Entry -> bool {
    (e: Entry) => e.site == site
  }

  /** `spendable_balance` at time `t`. */
  function Balance(entries: seq<Entry>, site: string, t: int): int {
    SumWhere(entries, SpendableNow(site, t))
  }

  /** A new row moves its own site's balance, from the end of its hold up to but not at its expiry. */
  lemma RowCountsInItsWindow(entries: seq<Entry>, e: Entry, site: string, t: int)
    ensures Balance(entries + [e], site, t) - Balance(entries, site, t) ==
            if e.site == site
               && (e.spendableAt.None? || t >= e.spendableAt.value)
               && (e.expiresAt.None? || t < e.expiresAt.value)
            then e.amount else 0
  {
    assert (entries + [e])[..|entries|] == entries;
  }

  /** What is left in the selected lots among the first `n` rows. */
  function LeftIn(entries: seq<Entry>, n: nat, selects: Entry -> bool): int
    requires n <= |entries|
  {
    if n == 0 then 0
    else
      var e := entries[n-1];
      LeftIn(entries, n - 1, selects) + if e.kind == Accrue && selects(e) then LotSum(entries, n - 1) else 0
  }

  /** A selection that treats every row as it treats the row's lot. */
  ghost predicate LotWise(entries: seq<Entry>, selects: Entry -> bool) {
    forall i :: 0 <= i < |entries| && entries[i].lot < |entries| ==>
      selects(entries[i]) == selects(entries[entries[i].lot])
  }

  lemma {:induction false} NothingYet(entries: seq<Entry>, lot: nat)
    requires AllStamped(entries) && lot >= |entries|
    ensures LotSum(entries, lot) == 0
  {
    if entries != [] {
      var before := entries[..|entries|-1];
      assert Stamped(entries, |entries| - 1);
      PrefixStamped(entries, |entries| - 1);
      NothingYet(before, lot);
    }
  }

  lemma PrefixStamped(entries: seq<Entry>, n: nat)
    requires AllStamped(entries) && n <= |entries|
    ensures AllStamped(entries[..n])
  {
    forall i | 0 <= i < n ensures Stamped(entries[..n], i) {
      assert Stamped(entries, i);
    }
  }

  /** A further row changes what is left in the lots only through its own lot. */
  lemma {:induction false} LeftInGrows(entries: seq<Entry>, e: Entry, n: nat, selects: Entry -> bool)
    requires n <= |entries|
    ensures LeftIn(entries + [e], n, selects) ==
            LeftIn(entries, n, selects) +
            if e.lot < n && entries[e.lot].kind == Accrue && selects(entries[e.lot]) then e.amount else 0
  {
    if n > 0 {
      LeftInGrows(entries, e, n - 1, selects);
      assert (entries + [e])[..|entries|] == entries;
    }
  }

  /** Conservation: what the selected rows add up to is what is left in the selected lots. */
  lemma {:induction false} SumIsWhatIsLeft(entries: seq<Entry>, selects: Entry -> bool)
    requires AllStamped(entries) && LotWise(entries, selects)
    ensures SumWhere(entries, selects) == LeftIn(entries, |entries|, selects)
  {
    if entries != [] {
      var n := |entries| - 1;
      var before, e := entries[..n], entries[n];
      PrefixStamped(entries, n);
      forall i | 0 <= i < n && before[i].lot < n ensures selects(before[i]) == selects(before[before[i].lot]) {
        assert entries[i] == before[i];
      }
      SumIsWhatIsLeft(before, selects);
      assert entries == before + [e];
      LeftInGrows(before, e, n, selects);
      assert Stamped(entries, n);
      NothingYet(before, n);
    }
  }

  lemma WindowIsLotWise(entries: seq<Entry>, site: string, t: int)
    requires AllStamped(entries)
    ensures LotWise(entries, SpendableNow(site, t)) && LotWise(entries, OfSite(site))
  {
    forall i | 0 <= i < |entries| && entries[i].lot < |entries|
      ensures SpendableNow(site, t)(entries[i]) == SpendableNow(site, t)(entries[entries[i].lot])
      ensures OfSite(site)(entries[i]) == OfSite(site)(entries[entries[i].lot])
    {
      assert Stamped(entries, i);
    }
  }

  /** At every time the derived balance is what is left in the lots that are in their window. */
  lemma BalanceIsWhatIsLeft(entries: seq<Entry>, site: string, t: int)
    requires AllStamped(entries)
    ensures Balance(entries, site, t) == LeftIn(entries, |entries|, SpendableNow(site, t))
  {
    WindowIsLotWise(entries, site, t);
    SumIsWhatIsLeft(entries, SpendableNow(site, t));
  }

  /** `spendable_lots`, summed: what is left in each lot in its window, counted as at least 0. */
  function SpendableInLots(entries: seq<Entry>, n: nat, selects: Entry -> bool): int
    requires n <= |entries|
  {
    if n == 0 then 0
    else
      var e := entries[n-1];
      SpendableInLots(entries, n - 1, selects) +
      if e.kind == Accrue && selects(e) && LotSum(entries, n - 1) > 0 then LotSum(entries, n - 1) else 0
  }

  ghost predicate Overdrawn(entries: seq<Entry>, selects: Entry -> bool, lot: nat) {
    lot < |entries| && entries[lot].kind == Accrue && selects(entries[lot]) && LotSum(entries, lot) < 0
  }

  lemma {:induction false} LotsCoverBalance(entries: seq<Entry>, n: nat, selects: Entry -> bool)
    requires n <= |entries|
    ensures 0 <= SpendableInLots(entries, n, selects)
    ensures LeftIn(entries, n, selects) <= SpendableInLots(entries, n, selects)
    ensures LeftIn(entries, n, selects) == SpendableInLots(entries, n, selects) <==>
            forall lot :: 0 <= lot < n ==> !Overdrawn(entries, selects, lot)
  {
    if n > 0 {
      LotsCoverBalance(entries, n - 1, selects);
      if LeftIn(entries, n, selects) == SpendableInLots(entries, n, selects) {
        assert !Overdrawn(entries, selects, n - 1);
      } else if LeftIn(entries, n - 1, selects) != SpendableInLots(entries, n - 1, selects) {
        var lot :| 0 <= lot < n - 1 && Overdrawn(entries, selects, lot);
        assert Overdrawn(entries, selects, lot);
      } else {
        assert Overdrawn(entries, selects, n - 1);
      }
    }
  }

  /** The balance never exceeds what the lots offer, and equals it, so that it is not negative,
      exactly when no lot in its window is overdrawn. */
  lemma BalanceAgreesWithLotsIff(entries: seq<Entry>, site: string, t: int)
    requires AllStamped(entries)
    ensures var offered := SpendableInLots(entries, |entries|, SpendableNow(site, t));
            && 0 <= offered && Balance(entries, site, t) <= offered
            && (Balance(entries, site, t) == offered <==>
                forall lot :: 0 <= lot < |entries| ==> !Overdrawn(entries, SpendableNow(site, t), lot))
  {
    BalanceIsWhatIsLeft(entries, site, t);
    LotsCoverBalance(entries, |entries|, SpendableNow(site, t));
  }

  /* ---------- Expiry ---------- */

  predicate Lapsed(e: Entry, now: int) {
    e.kind == Accrue && e.expiresAt.Some? && e.expiresAt.value <= now
  }

  predicate ExpiresLot(e: Entry, lot: nat) {
    e.kind == Expire && e.lot == lot
  }

  ghost predicate HasExpire(entries: seq<Entry>, lot: nat) {
    exists i :: 0 <= i < |entries| && ExpiresLot(entries[i], lot)
  }

  /** At most one EXPIRE row per lot, and a lot that has one is drained. */
  ghost predicate ExpiredOnce(entries: seq<Entry>) {
    && (forall i, j :: 0 <= i < j < |entries| && entries[i].kind == Expire ==> !ExpiresLot(entries[j], entries[i].lot))
    && (forall i :: 0 <= i < |entries| && entries[i].kind == Expire ==> LotSum(entries, entries[i].lot) <= 0)
  }

  ghost predicate GoodLedger(entries: seq<Entry>) {
    AllStamped(entries) && ExpiredOnce(entries)
  }

  lemma LotSumGrows(entries: seq<Entry>, e: Entry, lot: nat)
    ensures LotSum(entries + [e], lot) == LotSum(entries, lot) + if e.lot == lot then e.amount else 0
  {
    assert (entries + [e])[..|entries|] == entries;
  }

  /** Any row stamped from a lot keeps the ledger good: a draw, or the one EXPIRE row of a lot that
      it drains. */
  lemma AppendKeepsGood(entries: seq<Entry>, e: Entry)
    requires GoodLedger(entries) && Stamped(entries + [e], |entries|)
    requires e.kind == Expire ==> !HasExpire(entries, e.lot) && LotSum(entries, e.lot) + e.amount <= 0
    ensures GoodLedger(entries + [e])
  {
    var after := entries + [e];
    forall i | 0 <= i < |after| ensures Stamped(after, i) {
      if i < |entries| {
        assert Stamped(entries, i);
      }
    }
    forall i | 0 <= i < |after| && after[i].kind == Expire ensures LotSum(after, after[i].lot) <= 0 {
      LotSumGrows(entries, e, after[i].lot);
      if i < |entries| {
        assert Stamped(entries, i);
        assert e.kind == Accrue ==> e.lot == |entries|;
      }
    }
    forall i, j | 0 <= i < j < |after| && after[i].kind == Expire ensures !ExpiresLot(after[j], after[i].lot) {
      if j == |entries| && ExpiresLot(e, after[i].lot) {
        assert ExpiresLot(entries[i], e.lot);
      }
    }
  }

  /** Rows that expired by `now`, such as the EXPIRE rows of lapsed lots, lie outside every window
      from then on: appending them changes no balance. */
  lemma {:induction false} LapsedRowsAreInvisible(before: seq<Entry>, after: seq<Entry>, now: int)
    requires before <= after
    requires forall i :: |before| <= i < |after| ==> after[i].expiresAt.Some? && after[i].expiresAt.value <= now
    ensures forall site, t :: t >= now ==> Balance(after, site, t) == Balance(before, site, t)
  {
    if after != before {
      var n := |after| - 1;
      LapsedRowsAreInvisible(before, after[..n], now);
      forall site, t | t >= now ensures Balance(after, site, t) == Balance(before, site, t) {
        assert Balance(after[..n], site, t) == Balance(before, site, t);
      }
    } else {
      assert after == before;
    }
  }

  function ExpireRow(entries: seq<Entry>, lot: nat): Entry
    requires lot < |entries|
  {
    Entry(entries[lot].site, Expire, -LotSum(entries, lot), lot, entries[lot].spendableAt, entries[lot].expiresAt)
  }

  /* ---------- Contributions ---------- */

  datatype Contribution =
    Contribution(site: string, identity: string, day: int, accrued: bool, excluded: Option<string>)

  predicate SameDay(a: Contribution, b: Contribution) {
    a.site == b.site && a.identity == b.identity && a.day == b.day
  }

  predicate SameCredit(a: Contribution, b: Contribution) {
    a.accrued && b.accrued && a.site == b.site && a.identity == b.identity
  }

  /** The two unique indexes on contribution events. */
  ghost predicate Unique(events: seq<Contribution>) {
    forall i, j :: 0 <= i < j < |events| ==> !SameDay(events[i], events[j]) && !SameCredit(events[i], events[j])
  }

  function Accruals(events: seq<Contribution>, site: string): nat {
    if events == [] then 0
    else
      var c := events[|events|-1];
      Accruals(events[..|events|-1], site) + if c.site == site && c.accrued then 1 else 0
  }

  function LotCount(entries: seq<Entry>, site: string): nat {
    if entries == [] then 0
    else
      var e := entries[|entries|-1];
      LotCount(entries[..|entries|-1], site) + if e.site == site && e.kind == Accrue then 1 else 0
  }

  ghost function Identities(events: seq<Contribution>, site: string): set<string> {
    set i | 0 <= i < |events| && events[i].site == site :: events[i].identity
  }

  ghost function Credited(events: seq<Contribution>, site: string): set<string> {
    set i | 0 <= i < |events| && events[i].site == site && events[i].accrued :: events[i].identity
  }

  lemma UniqueBefore(events: seq<Contribution>, n: nat)
    requires Unique(events) && n <= |events|
    ensures Unique(events[..n])
  {
    forall i, j | 0 <= i < j < n
      ensures !SameDay(events[..n][i], events[..n][j]) && !SameCredit(events[..n][i], events[..n][j])
    {
      assert !SameDay(events[i], events[j]) && !SameCredit(events[i], events[j]);
    }
  }

  lemma CreditedGrows(before: seq<Contribution>, c: Contribution, site: string)
    requires Unique(before + [c])
    ensures |Credited(before + [c], site)| == |Credited(before, site)| + if c.site == site && c.accrued then 1 else 0
  {
    var events := before + [c];
    forall i | 0 <= i < |before| ensures events[i] == before[i] && !SameCredit(before[i], c) {
      assert !SameCredit(events[i], events[|before|]);
    }
    assert events[|before|] == c;
    if c.site == site && c.accrued {
      assert Credited(events, site) == Credited(before, site) + {c.identity};
      assert c.identity !in Credited(before, site);
    } else {
      assert Credited(events, site) == Credited(before, site);
    }
  }

  lemma {:induction false} AccrualsAreCredited(events: seq<Contribution>, site: string)
    requires Unique(events)
    ensures Accruals(events, site) == |Credited(events, site)|
  {
    if events == [] {
      assert Credited(events, site) == {};
    } else {
      var n := |events| - 1;
      UniqueBefore(events, n);
      AccrualsAreCredited(events[..n], site);
      assert events == events[..n] + [events[n]];
      CreditedGrows(events[..n], events[n], site);
    }
  }

  lemma SubsetSize(a: set<string>, b: set<string>)
    requires a <= b
    ensures |a| <= |b|
  {
    var rest := b - a;
    assert b == a + rest;
  }

  /** A site earns at most one credit per identity that it ever contributed. */
  lemma AtMostOneCreditPerIdentity(events: seq<Contribution>, site: string)
    requires Unique(events)
    ensures Accruals(events, site) <= |Identities(events, site)|
  {
    AccrualsAreCredited(events, site);
    assert Credited(events, site) <= Identities(events, site);
    SubsetSize(Credited(events, site), Identities(events, site));
  }

  /* ---------- The tables as they are written ---------- */

  datatype Settings = Settings(credit: nat, holdSeconds: nat, expirySeconds: nat)

  datatype LotOutcome = Failed | Empty | Written

  datatype SweepResult = Swept(written: nat) | SystemicFailure

  class Coop {
    const settings: Settings
    var events: seq<Contribution>
    var entries: seq<Entry>

    /** Both tables obey their indexes and the stamping rule, and lots and credited events of every
        site correspond one to one. */
    ghost predicate Valid()
      reads this
    {
      && Unique(events) && GoodLedger(entries)
      && forall site :: LotCount(entries, site) == Accruals(events, site)
    }

    constructor (settings: Settings)
      ensures Valid() && this.settings == settings && events == [] && entries == []
    {
      this.settings, events, entries := settings, [], [];
    }

    /** `record_contribution`. One event per site, identity and day; one credit per site and identity
        for all time; a flagged contribution leaves its event but earns nothing. */
    method RecordContribution(site: string, identity: string, day: int, flagged: bool, now: int)
      requires Valid()
      modifies this
      ensures Valid()
      ensures (exists i :: 0 <= i < |old(events)| && old(events)[i].site == site && old(events)[i].identity == identity
                           && old(events)[i].day == day) ==>
                events == old(events) && entries == old(entries)
      ensures (forall i :: 0 <= i < |old(events)| && old(events)[i].site == site && old(events)[i].identity == identity
                           ==> old(events)[i].day != day) ==>
                Adds(old(events), old(entries), site, identity, day, flagged, now)
    {
      if Seen(events, site, identity, day) {
        return;
      }
      var earned := Earned(events, site, identity);
      var c := Contribution(site, identity, day, false, None);
      if flagged {
        c := c.(excluded := Some("fraud_flagged"));
      } else if earned {
        c := c.(excluded := Some("duplicate"));
      } else {
        c := c.(accrued := true);
        var lot := Entry(site, Accrue, settings.credit, |entries|,
                         Some(now + settings.holdSeconds), Some(now + settings.expirySeconds));
        EntryAppended(entries, lot);
        AppendKeepsGood(entries, lot);
        entries := entries + [lot];
      }
      EventAppended(events, c);
      events := events + [c];
    }

    /** The new rows of a contribution whose day is new for its identity. A flagged one earns nothing,
        and so does one whose identity has earned its credit: by an accrued event, a merely recorded one
        does not count. */
    ghost predicate Adds(before: seq<Contribution>, ledger: seq<Entry>, site: string, identity: string, day: int,
                         flagged: bool, now: int)
      reads this
    {
      && |events| == |before| + 1 && before <= events
      && var e := events[|before|];
         && e.site == site && e.identity == identity && e.day == day
         && (flagged ==> !e.accrued && e.excluded == Some("fraud_flagged"))
         && (!flagged ==>
               if exists i :: 0 <= i < |before| && before[i].site == site && before[i].identity == identity
                              && before[i].accrued
               then !e.accrued && e.excluded == Some("duplicate")
               else e.accrued && e.excluded == None)
         && entries == ledger + if !e.accrued then []
                                else [Entry(site, Accrue, settings.credit, |ledger|,
                                            Some(now + settings.holdSeconds), Some(now + settings.expirySeconds))]
    }

    /** A draw on a lot, stamped with the lot's window. */
    method Draw(lot: nat, amount: int)
      requires Valid() && lot < |entries| && entries[lot].kind == Accrue && amount > 0
      modifies this`entries
      ensures Valid()
      ensures entries == old(entries) + [Entry(old(entries)[lot].site, Spend, -amount, lot,
                                               old(entries)[lot].spendableAt, old(entries)[lot].expiresAt)]
    {
      var e := Entry(entries[lot].site, Spend, -amount, lot, entries[lot].spendableAt, entries[lot].expiresAt);
      EntryAppended(entries, e);
      AppendKeepsGood(entries, e);
      entries := entries + [e];
    }

    /** `expire_lapsed_lots`: every lapsed lot with credit left gets one EXPIRE row that drains it. A
        lot whose transaction fails, as that of every `broken` lot does, is passed over; when all of
        those processed fail, the sweep raises. Whatever happens, no balance asked for from now on
        changes. */
    method ExpireLapsedLots(now: int, broken: set<nat>) returns (result: SweepResult, failures: nat)
      requires Valid()
      modifies this`entries
      ensures Valid() && old(entries) <= entries
      ensures forall site, t :: t >= now ==> Balance(entries, site, t) == Balance(old(entries), site, t)
      ensures OnlyExpireRows(old(entries), entries, now)
      ensures failures == 0 ==> Drained(entries, now)
      ensures forall lot :: 0 <= lot < |old(entries)| && old(entries)[lot].kind == Accrue
                            && old(entries)[lot].expiresAt.Some? && old(entries)[lot].expiresAt.value <= now
                            && lot !in broken ==>
                LotSum(entries, lot) <= 0
      ensures forall i :: |old(entries)| <= i < |entries| ==> entries[i].lot !in broken
      ensures failures == 0 <==> NoneBroken(old(entries), now, |old(entries)|, broken)
      ensures Drained(old(entries), now) ==> entries == old(entries)
      ensures failures == 0 ==> result == Swept(|entries| - |old(entries)|)
      ensures result.Swept? ==> result.written == |entries| - |old(entries)|
      ensures result == SystemicFailure <==> entries == old(entries) && failures > 0
    {
      var written, processed;
      written, processed, failures := SweepLots(now, broken);
      SweptAll(old(entries), entries, now, broken);
      if processed >= 1 && failures == processed {
        return SystemicFailure, failures;
      }
      result := Swept(written);
    }

    /** The loop over the lapsed lots; lots with nothing left to expire are not counted as processed. */
    method SweepLots(now: int, broken: set<nat>) returns (written: nat, processed: nat, failures: nat)
      requires Valid()
      modifies this`entries
      ensures Valid() && SweptUpTo(old(entries), entries, now, |old(entries)|, broken)
      ensures failures == 0 <==> NoneBroken(old(entries), now, |old(entries)|, broken)
      ensures written == |entries| - |old(entries)| && processed == failures + written
    {
      failures := 0;
      var attempted, skipped := 0, 0;
      written := 0;
      var n := |entries|;
      for lot := 0 to n
        invariant Valid() && n == |old(entries)|
        invariant SweptUpTo(old(entries), entries, now, lot, broken)
        invariant failures == 0 <==> NoneBroken(old(entries), now, lot, broken)
        invariant written == |entries| - n && attempted == skipped + failures + written
      {
        if Lapsed(entries[lot], now) {
          attempted := attempted + 1;
          var outcome := VisitLot(old(entries), lot, now, broken);
          match outcome {
            case Failed => failures := failures + 1;
            case Empty => skipped := skipped + 1;
            case Written => written := written + 1;
          }
        }
      }
      processed := attempted - skipped;
    }

    /** One turn of the loop. */
    method VisitLot(ghost start: seq<Entry>, lot: nat, now: int, broken: set<nat>) returns (outcome: LotOutcome)
      requires Valid() && SweptUpTo(start, entries, now, lot, broken) && lot < |start| && Lapsed(start[lot], now)
      modifies this`entries
      ensures Valid() && SweptUpTo(start, entries, now, lot + 1, broken)
      ensures outcome == Failed <==> lot in broken
      ensures |entries| == |old(entries)| + if outcome == Written then 1 else 0
    {
      outcome := ExpireOne(lot, now, broken);
      SweptOneMore(start, old(entries), entries, now, lot, broken, outcome);
    }

    /** One lapsed lot in its own transaction, which fails if the lot is broken. */
    method ExpireOne(lot: nat, now: int, broken: set<nat>) returns (outcome: LotOutcome)
      requires Valid() && lot < |entries| && Lapsed(entries[lot], now)
      modifies this`entries
      ensures Valid()
      ensures Visited(old(entries), entries, lot, outcome) && (outcome == Failed <==> lot in broken)
    {
      if lot in broken {
        return Failed;
      }
      if LotSum(entries, lot) <= 0 {
        return Empty;
      }
      ExpireLot(lot, now);
      outcome := Written;
    }

    /** The guarded insert for one lot with credit left. */
    method ExpireLot(lot: nat, now: int)
      requires Valid() && lot < |entries| && Lapsed(entries[lot], now) && LotSum(entries, lot) > 0
      modifies this`entries
      ensures Valid() && entries == old(entries) + [ExpireRow(old(entries), lot)]
      ensures LotSum(entries, lot) == 0
    {
      var e := ExpireRow(entries, lot);
      assert Stamped(entries, lot);
      assert !HasExpire(entries, lot);
      AppendKeepsGood(entries, e);
      EntryAppended(entries, e);
      LotSumGrows(entries, e, lot);
      entries := entries + [e];
    }
  }

  predicate Seen(events: seq<Contribution>, site: string, identity: string, day: int) {
    exists i :: 0 <= i < |events| && events[i].site == site && events[i].identity == identity && events[i].day == day
  }

  predicate Earned(events: seq<Contribution>, site: string, identity: string) {
    exists i :: 0 <= i < |events| && events[i].site == site && events[i].identity == identity && events[i].accrued
  }

  /** Every row that was added is the EXPIRE row of a lapsed lot, for what was left in it. */
  ghost predicate OnlyExpireRows(before: seq<Entry>, after: seq<Entry>, now: int) {
    forall i :: |before| <= i < |after| ==>
      && after[i].lot < |before| && Lapsed(before[after[i].lot], now)
      && after[i] == ExpireRow(before, after[i].lot)
  }

  /** What one lot's transaction does. */
  ghost predicate Visited(before: seq<Entry>, after: seq<Entry>, lot: nat, outcome: LotOutcome)
    requires lot < |before|
  {
    match outcome
    case Failed => after == before
    case Empty => after == before && LotSum(before, lot) <= 0
    case Written => after == before + [ExpireRow(before, lot)] && LotSum(before, lot) > 0
  }

  /** None of the first `k` rows is a lapsed lot that fails. */
  ghost predicate NoneBroken(before: seq<Entry>, now: int, k: nat, broken: set<nat>) {
    forall lot :: 0 <= lot < k && lot < |before| && Lapsed(before[lot], now) ==> lot !in broken
  }

  /** The sweep so far, having visited the first `k` lots. */
  ghost predicate SweptUpTo(before: seq<Entry>, entries: seq<Entry>, now: int, k: nat, broken: set<nat>) {
    && before <= entries && OnlyExpireRows(before, entries, now)
    && (forall i :: k <= i < |before| ==> LotSum(entries, i) == LotSum(before, i))
    && (forall i :: 0 <= i < k && i < |before| && Lapsed(before[i], now) && i !in broken ==> LotSum(entries, i) <= 0)
    && (forall i :: |before| <= i < |entries| ==> entries[i].lot !in broken)
    && (Drained(before, now) ==> entries == before)
  }

  lemma SweptOneMore(before: seq<Entry>, entries: seq<Entry>, after: seq<Entry>, now: int, k: nat,
                     broken: set<nat>, outcome: LotOutcome)
    requires SweptUpTo(before, entries, now, k, broken) && k < |before| && Lapsed(before[k], now)
    requires Visited(entries, after, k, outcome) && (outcome == Failed <==> k in broken)
    ensures SweptUpTo(before, after, now, k + 1, broken)
  {
    if outcome == Written {
      var e := ExpireRow(entries, k);
      RowsGrow(before, entries, k, now);
      forall i | 0 <= i < |before| ensures LotSum(after, i) == LotSum(entries, i) + if i == k then e.amount else 0 {
        LotSumGrows(entries, e, i);
      }
      assert LotSum(before, k) > 0;
    }
  }

  lemma SweptAll(before: seq<Entry>, entries: seq<Entry>, now: int, broken: set<nat>)
    requires SweptUpTo(before, entries, now, |before|, broken)
    ensures forall site, t :: t >= now ==> Balance(entries, site, t) == Balance(before, site, t)
    ensures NoneBroken(before, now, |before|, broken) ==> Drained(entries, now)
  {
    LapsedRowsAreInvisible(before, entries, now);
  }

  lemma RowsGrow(before: seq<Entry>, entries: seq<Entry>, lot: nat, now: int)
    requires before <= entries && OnlyExpireRows(before, entries, now)
    requires lot < |before| && Lapsed(entries[lot], now) && LotSum(entries, lot) == LotSum(before, lot)
    ensures OnlyExpireRows(before, entries + [ExpireRow(entries, lot)], now)
  {
    assert entries[lot] == before[lot];
    assert ExpireRow(entries, lot) == ExpireRow(before, lot);
  }

  /** Every lapsed lot is used up. */
  ghost predicate Drained(entries: seq<Entry>, now: int) {
    forall i :: 0 <= i < |entries| && Lapsed(entries[i], now) ==> LotSum(entries, i) <= 0
  }

  /** After a clean sweep a second one at the same time would write nothing: that is, no lapsed lot
      has credit left to expire. Lots lapse but never revive, and draws only take. */
  lemma DrainedStaysDrained(entries: seq<Entry>, e: Entry, now: int)
    requires GoodLedger(entries) && Drained(entries, now) && Stamped(entries + [e], |entries|)
    requires e.kind == Accrue ==> !Lapsed(e, now)
    ensures Drained(entries + [e], now)
  {
    forall i | 0 <= i < |entries + [e]| && Lapsed((entries + [e])[i], now) ensures LotSum(entries + [e], i) <= 0 {
      LotSumGrows(entries, e, i);
    }
  }

  lemma {:induction false} LapsedAddNothing(entries: seq<Entry>, n: nat, site: string, now: int)
    requires n <= |entries| && AllStamped(entries) && Drained(entries, now)
    requires forall lot :: 0 <= lot < |entries| ==> !Overdrawn(entries, OfSite(site), lot)
    requires forall i :: 0 <= i < |entries| && entries[i].kind == Accrue && entries[i].site == site ==>
               entries[i].spendableAt.Some? && entries[i].spendableAt.value <= now
    ensures LeftIn(entries, n, OfSite(site)) == LeftIn(entries, n, SpendableNow(site, now))
  {
    if n > 0 {
      LapsedAddNothing(entries, n - 1, site, now);
      assert Stamped(entries, n - 1);
      assert !Overdrawn(entries, OfSite(site), n - 1);
    }
  }

  /** Reconciliation: after a clean sweep, with every hold past and no lot overdrawn, the spendable
      balance is the plain sum of all the site's rows. */
  lemma SweptBalanceReconciles(entries: seq<Entry>, site: string, now: int)
    requires GoodLedger(entries) && Drained(entries, now)
    requires forall lot :: 0 <= lot < |entries| ==> !Overdrawn(entries, OfSite(site), lot)
    requires forall i :: 0 <= i < |entries| && entries[i].kind == Accrue && entries[i].site == site ==>
               entries[i].spendableAt.Some? && entries[i].spendableAt.value <= now
    ensures Balance(entries, site, now) == SumWhere(entries, OfSite(site))
  {
    WindowIsLotWise(entries, site, now);
    SumIsWhatIsLeft(entries, OfSite(site));
    BalanceIsWhatIsLeft(entries, site, now);
    LapsedAddNothing(entries, |entries|, site, now);
  }

  lemma EventAppended(events: seq<Contribution>, c: Contribution)
    ensures forall site ::
              Accruals(events + [c], site) == Accruals(events, site) + if c.site == site && c.accrued then 1 else 0
  {
    assert (events + [c])[..|events|] == events;
  }

  lemma EntryAppended(entries: seq<Entry>, e: Entry)
    ensures forall site ::
              LotCount(entries + [e], site) == LotCount(entries, site)
               + if e.site == site && e.kind == Accrue then 1 else 0
  {
    assert (entries + [e])[..|entries|] == entries;
  }
}
