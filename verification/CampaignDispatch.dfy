/** Concurrent send loops over one touchpoint table. A loop claims a recipient by inserting the row for
    (campaign, visitor, channel) before it mails; the unique constraint admits one claim at a time. */
module CampaignDispatch {
  import opened Prelude

  datatype Triple = Triple(campaign: string, visitor: string, channel: string)

  /** A touchpoint row. `owner` is the loop still working on it; until `durable` only that loop's
      open transaction holds it; `mailed` records whether this row's message went out, `sent` whether
      its status says so. */
  datatype Touchpoint = Touchpoint(owner: Option<nat>, durable: bool, mailed: bool, sent: bool)

  type Table = map<Triple, Touchpoint>

  datatype Event =
    | Skip(loop: nat, to: Triple)      // fast path: a committed row with status "sent"
    | Claim(loop: nat, to: Triple)     // the flush took the index entry
    | Refused(loop: nat, to: Triple)   // the flush raised IntegrityError
    | Persist(loop: nat, to: Triple)   // a token refresh committed the session early
    | Mail(loop: nat, to: Triple)      // the message went out
    | Fail(loop: nat, to: Triple)      // every channel failed: roll back
    | Commit(loop: nat, to: Triple)    // status "sent", committed
    | Crash(loop: nat, to: Triple)     // the loop died on this recipient

  predicate Holds(t: Table, e: Event) {
    e.to in t && t[e.to].owner == Some(e.loop)
  }

  /** A loop's own program order, and what the constraint lets through. An insert against another loop's
      open claim just waits: no event. */
  predicate Possible(t: Table, e: Event) {
    match e
    case Skip(_, to) => to in t && t[to].durable && t[to].sent
    case Claim(_, to) => to !in t
    case Refused(_, to) => to in t && t[to].durable
    case Persist(_, _) => Holds(t, e)
    case Mail(_, to) => Holds(t, e) && !t[to].mailed
    case Fail(_, to) => Holds(t, e) && !t[to].mailed
    case Commit(_, to) => Holds(t, e) && t[to].mailed
    case Crash(_, _) => Holds(t, e)
  }

  function Step(t: Table, e: Event): Table
    requires Possible(t, e)
  {
    match e
    case Skip(_, _) => t
    case Refused(_, _) => t
    case Claim(loop, to) => t[to := Touchpoint(Some(loop), false, false, false)]
    case Persist(_, to) => t[to := t[to].(durable := true)]
    case Mail(_, to) => t[to := t[to].(mailed := true)]
    case Commit(_, to) => t[to := Touchpoint(None, true, true, true)]
    case Fail(_, to) => if t[to].durable then t[to := t[to].(owner := None)] else t - {to}
    case Crash(_, to) => if t[to].durable then t[to := t[to].(owner := None)] else t - {to}
  }

  function Run(t: Table, es: seq<Event>): Option<Table>
    decreases es
  {
    if es == [] then Some(t)
    else if Possible(t, es[0]) then Run(Step(t, es[0]), es[1..])
    else None
  }

  /** How often a recipient was mailed. */
  function Mailed(es: seq<Event>, to: Triple): nat {
    if es == [] then 0
    else (if es[0].Mail? && es[0].to == to then 1 else 0) + Mailed(es[1..], to)
  }

  /** How often a loop died after mailing the recipient with its claim still uncommitted, so that
      nothing is left to remember the message. */
  function Forgotten(t: Table, es: seq<Event>, to: Triple): nat
    requires Run(t, es).Some?
    decreases es
  {
    if es == [] then 0
    else
      (if es[0].Crash? && es[0].to == to && t[to].mailed && !t[to].durable then 1 else 0)
      + Forgotten(Step(t, es[0]), es[1..], to)
  }

  function Remembered(t: Table, to: Triple): nat {
    if to in t && t[to].mailed then 1 else 0
  }

  /** Accounting for every interleaving: messages sent are those remembered in the table plus those
      forgotten in crashes. */
  lemma {:induction false} MailIsAccountedFor(t: Table, es: seq<Event>, to: Triple)
    requires Run(t, es).Some?
    ensures Remembered(t, to) + Mailed(es, to) == Remembered(Run(t, es).value, to) + Forgotten(t, es, to)
    decreases es
  {
    if es != [] {
      MailIsAccountedFor(Step(t, es[0]), es[1..], to);
    }
  }

  /** From an empty table, a recipient is mailed at most once more than messages were forgotten. */
  lemma MailedAtMostOncePerCrash(es: seq<Event>, to: Triple)
    requires Run(map[], es).Some?
    ensures Mailed(es, to) <= 1 + Forgotten(map[], es, to)
  {
    MailIsAccountedFor(map[], es, to);
  }

  /** Without crashes, at most once, whatever the number of loops and their interleaving. */
  lemma {:induction false} NothingForgottenWithoutCrash(t: Table, es: seq<Event>, to: Triple)
    requires Run(t, es).Some? && forall i :: 0 <= i < |es| ==> !(es[i].Crash? && es[i].to == to)
    ensures Forgotten(t, es, to) == 0
    decreases es
  {
    if es != [] {
      forall i | 0 <= i < |es[1..]| ensures !(es[1..][i].Crash? && es[1..][i].to == to) {
        assert es[1..][i] == es[i+1];
      }
      NothingForgottenWithoutCrash(Step(t, es[0]), es[1..], to);
    }
  }

  lemma DispatchedAtMostOnce(es: seq<Event>, to: Triple)
    requires Run(map[], es).Some? && forall i :: 0 <= i < |es| ==> !(es[i].Crash? && es[i].to == to)
    ensures Mailed(es, to) <= 1
  {
    MailIsAccountedFor(map[], es, to);
    NothingForgottenWithoutCrash(map[], es, to);
  }

  /** The bound is tight: every forgotten message can be followed by another. */
  lemma CrashAllowsSecondMail(a: nat, b: nat, to: Triple) returns (es: seq<Event>)
    ensures Run(map[], es).Some? && Mailed(es, to) == 2 && Forgotten(map[], es, to) == 1
  {
    var rest := [Claim(b, to), Mail(b, to), Commit(b, to)];
    var t0: Table := map[];
    var t1 := Step(t0, Claim(a, to));
    var t2 := Step(t1, Mail(a, to));
    assert Step(t2, Crash(a, to)) == t0;
    SecondMail(t0, b, to, rest);
    var r2 := [Crash(a, to)] + rest;
    assert r2[1..] == rest;
    assert Run(t2, r2).Some? && Mailed(r2, to) == 1 && Forgotten(t2, r2, to) == 1;
    var r1 := [Mail(a, to)] + r2;
    assert r1[1..] == r2;
    es := [Claim(a, to)] + r1;
    assert es[1..] == r1;
  }

  lemma SecondMail(t: Table, b: nat, to: Triple, es: seq<Event>)
    requires to !in t && es == [Claim(b, to), Mail(b, to), Commit(b, to)]
    ensures Run(t, es).Some? && Mailed(es, to) == 1 && Forgotten(t, es, to) == 0
  {
    var e1, e2 := es[1..], es[1..][1..];
    assert e1 == [Mail(b, to), Commit(b, to)] && e2 == [Commit(b, to)] && e2[1..] == [];
    var t1 := Step(t, es[0]);
    var t2 := Step(t1, e1[0]);
    var t3 := Step(t2, e2[0]);
    assert Run(t3, e2[1..]).Some?;
    assert Run(t2, e2).Some? && Mailed(e2, to) == 0 && Forgotten(t2, e2, to) == 0;
    assert Run(t1, e1).Some? && Mailed(e1, to) == 1 && Forgotten(t1, e1, to) == 0;
  }

  /* ---------- Recipients that nobody can mail any more ---------- */

  /** Some loop may still mail this recipient: there is no row, or a row still worked on that either has
      not been mailed yet or will be lost with its loop. */
  predicate Mailable(t: Table, to: Triple) {
    to !in t || (t[to].owner.Some? && !(t[to].mailed && t[to].durable))
  }

  lemma {:induction false} UnmailableStaysSo(t: Table, es: seq<Event>, to: Triple)
    requires !Mailable(t, to) && Run(t, es).Some?
    ensures Mailed(es, to) == 0 && !Mailable(Run(t, es).value, to)
    decreases es
  {
    if es != [] {
      UnmailableStaysSo(Step(t, es[0]), es[1..], to);
    }
  }

  /** The run that mails a recipient who is still mailable. */
  lemma MailableIsMailed(t: Table, to: Triple) returns (es: seq<Event>)
    requires Mailable(t, to)
    ensures Run(t, es).Some? && Mailed(es, to) == 1
  {
    if to !in t {
      es := [Claim(0, to), Mail(0, to), Commit(0, to)];
      SecondMail(t, 0, to, es);
    } else {
      var loop := t[to].owner.value;
      if !t[to].mailed {
        es := [Mail(loop, to)];
        assert es[1..] == [];
        assert Run(Step(t, es[0]), es[1..]).Some? && Mailed(es[1..], to) == 0;
      } else {
        var rest := [Claim(0, to), Mail(0, to), Commit(0, to)];
        es := [Crash(loop, to)] + rest;
        assert es[1..] == rest;
        SecondMail(Step(t, es[0]), 0, to, rest);
      }
    }
  }

  /** From any table: some run mails the recipient exactly when it is mailable. */
  lemma CanBeMailedIff(t: Table, to: Triple)
    ensures (exists es :: Run(t, es).Some? && Mailed(es, to) > 0) <==> Mailable(t, to)
  {
    if Mailable(t, to) {
      var es := MailableIsMailed(t, to);
      assert Mailed(es, to) > 0;
    } else if es :| Run(t, es).Some? && Mailed(es, to) > 0 {
      UnmailableStaysSo(t, es, to);
    }
  }

  /** A committed row that nobody works on and whose message never went out. */
  predicate Stranded(t: Table, to: Triple) {
    to in t && t[to].durable && t[to].owner.None? && !t[to].mailed
  }

  /** A stranded recipient is never mailed, and stays stranded for good. */
  lemma {:induction false} StrandedForGood(t: Table, es: seq<Event>, to: Triple)
    requires Stranded(t, to) && Run(t, es).Some?
    ensures Mailed(es, to) == 0 && Stranded(Run(t, es).value, to)
    decreases es
  {
    if es != [] {
      StrandedForGood(Step(t, es[0]), es[1..], to);
    }
  }

  /** A step strands a recipient exactly when its loop gives up, or dies, before mailing a claim that a
      token refresh has already committed: then the rollback does not drop the row. */
  lemma StrandsIff(t: Table, e: Event, to: Triple)
    requires Possible(t, e) && !Stranded(t, to)
    ensures Stranded(Step(t, e), to) <==> (e.Fail? || e.Crash?) && e.to == to && t[to].durable && !t[to].mailed
  {
  }

  /** One refresh and one failed delivery are enough. */
  lemma RefreshThenFailureStrands(loop: nat, to: Triple)
    ensures var es := [Claim(loop, to), Persist(loop, to), Fail(loop, to)];
            Run(map[], es).Some? && Stranded(Run(map[], es).value, to)
  {
    var es := [Claim(loop, to), Persist(loop, to), Fail(loop, to)];
    var t0: Table := map[];
    var t1 := Step(t0, es[0]);
    var t2 := Step(t1, es[1]);
    var t3 := Step(t2, es[2]);
    assert es[1..][1..] == es[2..] && es[2..][1..] == [];
    assert Run(t3, es[2..][1..]) == Some(t3);
    assert Run(t2, es[2..]) == Some(t3);
    assert Run(t1, es[1..]) == Some(t3);
  }

  /* ---------- One send loop among the others ---------- */

  lemma {:induction false} RunOneMore(t: Table, es: seq<Event>, e: Event)
    requires Run(t, es).Some?
    ensures Run(t, es + [e]) ==
            if Possible(Run(t, es).value, e) then Some(Step(Run(t, es).value, e)) else None
    decreases es
  {
    if es == [] {
      assert es + [e] == [e] && [e][1..] == [];
    } else {
      RunOneMore(Step(t, es[0]), es[1..], e);
      assert (es + [e])[1..] == es[1..] + [e];
    }
  }

  /** How many recipients this loop finished with status "sent". */
  function CommitsBy(es: seq<Event>, loop: nat): nat {
    if es == [] then 0
    else
      var e := es[|es|-1];
      CommitsBy(es[..|es|-1], loop) + if e.Commit? && e.loop == loop then 1 else 0
  }

  /** The part of a history that is one loop's own. */
  function By(es: seq<Event>, loop: nat): seq<Event> {
    if es == [] then []
    else
      var e := es[|es|-1];
      By(es[..|es|-1], loop) + if e.loop == loop then [e] else []
  }

  /** The loop has no claim open. */
  ghost predicate Free(t: Table, loop: nat) {
    forall to :: to in t ==> t[to].owner != Some(loop)
  }

  /** The one claim that the loop has open. */
  ghost predicate Claimed(t: Table, loop: nat, to: Triple, mailed: bool) {
    && to in t && t[to].owner == Some(loop) && t[to].mailed == mailed
    && forall other :: other in t && t[other].owner == Some(loop) ==> other == to
  }

  /** Nothing that other loops did from event `from` on concerns this recipient. */
  ghost predicate OthersKeepOff(es: seq<Event>, from: nat, loop: nat, to: Triple) {
    forall k :: from <= k < |es| && es[k].loop != loop ==> es[k].to != to
  }

  lemma OthersLeaveClaim(t: Table, e: Event, loop: nat)
    requires Possible(t, e) && e.loop != loop
    ensures Free(t, loop) ==> Free(Step(t, e), loop)
    ensures forall to, mailed :: Claimed(t, loop, to, mailed) ==> Claimed(Step(t, e), loop, to, mailed)
    ensures forall to :: to != e.to ==> (to in Step(t, e) <==> to in t)
  {
  }

  /** What the world has in store for one member of the audience: whether the checks before the claim
      let it through, whether the hourly cap has a slot left, whether a token refresh commits the
      session early, and whether some channel delivers. */
  datatype Recipient = Recipient(to: Triple, eligible: bool, reserved: bool, refreshed: bool, delivered: bool)

  /** How the loop body ends; `Waiting` when the run ends with the insert held up by another loop's
      open claim. */
  datatype Outcome = AlreadySent | Throttled | DeliveryFailed | Sent | Waiting

  datatype Summary = Summary(sent: nat, alreadySent: nat, throttled: nat, failed: nat)
  {
    function Plus(o: Outcome): Summary {
      match o
      case AlreadySent => this.(alreadySent := alreadySent + 1)
      case Throttled => this.(throttled := throttled + 1)
      case DeliveryFailed => this.(failed := failed + 1)
      case Sent => this.(sent := sent + 1)
      case Waiting => this
    }
  }

  /** A whole attempt: claim, perhaps an early commit, then mail and commit, or roll back. */
  function ClaimAndDeliver(me: nat, r: Recipient): seq<Event> {
    [Claim(me, r.to)]
    + (if r.refreshed then [Persist(me, r.to)] else [])
    + (if r.delivered then [Mail(me, r.to), Commit(me, r.to)] else [Fail(me, r.to)])
  }

  /** What the loop itself did about one recipient, by the outcome. */
  predicate Treated(me: nat, r: Recipient, o: Outcome, mine: seq<Event>) {
    match o
    case AlreadySent => mine == [Skip(me, r.to)] || (r.reserved && mine == [Refused(me, r.to)])
    case Throttled => !r.reserved && mine == []
    case Waiting => r.reserved && mine == []
    case Sent => r.reserved && r.delivered && mine == ClaimAndDeliver(me, r)
    case DeliveryFailed => r.reserved && !r.delivered && mine == ClaimAndDeliver(me, r)
  }

  datatype Attempt = Attempt(recipient: Recipient, outcome: Outcome, mine: seq<Event>)

  /** The loop's own events over some attempts. */
  function Mine(attempts: seq<Attempt>): seq<Event> {
    if attempts == [] then [] else Mine(attempts[..|attempts|-1]) + attempts[|attempts|-1].mine
  }

  function CountOf(attempts: seq<Attempt>, o: Outcome): nat {
    if attempts == [] then 0
    else CountOf(attempts[..|attempts|-1], o) + if attempts[|attempts|-1].outcome == o then 1 else 0
  }

  /** How often the attempts ended in which way. */
  function Tally(attempts: seq<Attempt>): Summary {
    Summary(CountOf(attempts, Sent), CountOf(attempts, AlreadySent),
            CountOf(attempts, Throttled), CountOf(attempts, DeliveryFailed))
  }

  function Eligible(audience: seq<Recipient>): seq<Recipient> {
    if audience == [] then []
    else
      var r := audience[|audience|-1];
      Eligible(audience[..|audience|-1]) + if r.eligible then [r] else []
  }

  /** Every eligible recipient in order, each treated as its outcome says. */
  ghost predicate TreatsAll(me: nat, attempts: seq<Attempt>, recipients: seq<Recipient>) {
    && |attempts| == |recipients|
    && forall i :: 0 <= i < |attempts| ==>
         attempts[i].recipient == recipients[i]
         && Treated(me, attempts[i].recipient, attempts[i].outcome, attempts[i].mine)
  }

  lemma AttemptsGrow(me: nat, attempts: seq<Attempt>, a: Attempt, recipients: seq<Recipient>, own: seq<Event>)
    requires TreatsAll(me, attempts, recipients) && Treated(me, a.recipient, a.outcome, a.mine)
    ensures TreatsAll(me, attempts + [a], recipients + [a.recipient])
    ensures own + Mine(attempts) + a.mine == own + Mine(attempts + [a])
    ensures Tally(attempts + [a]) == Tally(attempts).Plus(a.outcome)
  {
    assert (attempts + [a])[..|attempts|] == attempts;
  }

  lemma EligibleGrows(audience: seq<Recipient>, i: nat)
    requires i < |audience|
    ensures Eligible(audience[..i+1]) == Eligible(audience[..i]) + if audience[i].eligible then [audience[i]] else []
  {
    assert audience[..i+1][..i] == audience[..i];
  }

  lemma EligiblePrefix(audience: seq<Recipient>, i: nat)
    requires i <= |audience|
    ensures Eligible(audience[..i]) <= Eligible(audience)
    decreases |audience| - i
  {
    if i < |audience| {
      EligibleGrows(audience, i);
      EligiblePrefix(audience, i + 1);
    } else {
      assert audience[..i] == audience;
    }
  }

  /** Having treated the eligible part of a prefix is having treated a prefix of the eligible part. */
  lemma TreatedSoFar(me: nat, attempts: seq<Attempt>, audience: seq<Recipient>, i: nat)
    requires i <= |audience| && TreatsAll(me, attempts, Eligible(audience[..i]))
    ensures |attempts| <= |Eligible(audience)| && TreatsAll(me, attempts, Eligible(audience)[..|attempts|])
    ensures i == |audience| ==> |attempts| == |Eligible(audience)|
  {
    EligiblePrefix(audience, i);
    assert Eligible(audience)[..|attempts|] == Eligible(audience[..i]);
    assert audience[..|audience|] == audience;
  }

  class Mailroom {
    var table: Table
    var log: seq<Event>

    /** The table is what the history makes of an empty one. */
    ghost predicate Valid()
      reads this
    {
      Run(map[], log) == Some(table)
    }

    constructor ()
      ensures Valid() && log == []
    {
      table, log := map[], [];
    }

    method Do(e: Event)
      requires Valid() && Possible(table, e)
      modifies this
      ensures Valid() && log == old(log) + [e] && table == Step(old(table), e)
      ensures forall loop ::
                CommitsBy(log, loop) == CommitsBy(old(log), loop) + if e.Commit? && e.loop == loop then 1 else 0
      ensures forall loop :: By(log, loop) == By(old(log), loop) + if e.loop == loop then [e] else []
    {
      RunOneMore(map[], log, e);
      table := Step(table, e);
      log := log + [e];
      assert log[..|log|-1] == old(log);
    }

    /** Other loops do what they may; none of it touches the claim that `me` holds. */
    method Others(me: nat)
      requires Valid()
      modifies this
      ensures Valid() && old(log) <= log
      ensures CommitsBy(log, me) == CommitsBy(old(log), me) && By(log, me) == By(old(log), me)
      ensures Free(old(table), me) ==> Free(table, me)
      ensures forall to, mailed :: Claimed(old(table), me, to, mailed) ==> Claimed(table, me, to, mailed)
      ensures forall to :: OthersKeepOff(log, |old(log)|, me, to) ==> (to in table <==> to in old(table))
    {
      var es: seq<Event> := *;
      for i := 0 to |es|
        invariant Valid() && old(log) <= log
        invariant CommitsBy(log, me) == CommitsBy(old(log), me) && By(log, me) == By(old(log), me)
        invariant Free(old(table), me) ==> Free(table, me)
        invariant forall to, mailed :: Claimed(old(table), me, to, mailed) ==> Claimed(table, me, to, mailed)
        invariant forall to :: OthersKeepOff(log, |old(log)|, me, to) ==> (to in table <==> to in old(table))
      {
        if es[i].loop != me && Possible(table, es[i]) {
          ghost var before := log;
          OthersLeaveClaim(table, es[i], me);
          Do(es[i]);
          KeptOffBefore(before, es[i], |old(log)|, me);
        }
      }
    }

    /** The body of the send loop for one eligible recipient: check, claim, then deliver. However it
        ends, the loop has done just what its outcome says; it skips exactly a recipient whose row was
        committed as sent; and one that has no row and that nobody else turns to it claims. */
    method SendTo(me: nat, r: Recipient) returns (outcome: Outcome, ghost mine: seq<Event>)
      requires Valid() && Free(table, me)
      modifies this
      ensures Valid() && old(log) <= log && Free(table, me)
      ensures By(log, me) == By(old(log), me) + mine && Treated(me, r, outcome, mine)
      ensures mine == [Skip(me, r.to)] <==>
                r.to in old(table) && old(table)[r.to].durable && old(table)[r.to].sent
      ensures r.reserved && r.to !in old(table) && OthersKeepOff(log, |old(log)|, me, r.to) ==>
                mine == ClaimAndDeliver(me, r)
      ensures CommitsBy(log, me) == CommitsBy(old(log), me) + if outcome == Sent then 1 else 0
      ensures outcome == Sent ==> r.to in table && table[r.to] == Touchpoint(None, true, true, true)
      ensures outcome == Waiting ==> r.to in table && !table[r.to].durable
    {
      var to := r.to;
      if to in table && table[to].durable && table[to].sent {
        Do(Skip(me, to));
        return AlreadySent, [Skip(me, to)];
      }
      if !r.reserved {
        return Throttled, [];
      }
      var claimed;
      claimed, mine := Insert(me, to);
      if !claimed {
        return if table[to].durable then AlreadySent else Waiting, mine;
      }
      ghost var rest;
      outcome, rest := Deliver(me, r);
      mine := mine + rest;
    }

    /** The flush. It waits, for as long as the run lasts, while another loop's claim is open; then it
        raises when that claim was committed, and takes the index entry when it was rolled back. */
    method Insert(me: nat, to: Triple) returns (claimed: bool, ghost mine: seq<Event>)
      requires Valid() && Free(table, me)
      modifies this
      ensures Valid() && old(log) <= log && CommitsBy(log, me) == CommitsBy(old(log), me)
      ensures By(log, me) == By(old(log), me) + mine
      ensures claimed ==> Claimed(table, me, to, false) && mine == [Claim(me, to)]
      ensures !claimed ==> Free(table, me) && to in table
      ensures !claimed ==> mine == if table[to].durable then [Refused(me, to)] else []
      ensures to !in old(table) && OthersKeepOff(log, |old(log)|, me, to) ==> claimed
    {
      Await(me, to);
      if to !in table {
        Do(Claim(me, to));
        return true, [Claim(me, to)];
      }
      if table[to].durable {
        Do(Refused(me, to));
        return false, [Refused(me, to)];
      }
      return false, [];
    }

    /** Other loops go on, and as long as one of them has this recipient claimed they may do so again. */
    method Await(me: nat, to: Triple)
      requires Valid() && Free(table, me)
      modifies this
      ensures Valid() && old(log) <= log && Free(table, me)
      ensures CommitsBy(log, me) == CommitsBy(old(log), me) && By(log, me) == By(old(log), me)
      ensures OthersKeepOff(log, |old(log)|, me, to) ==> (to in table <==> to in old(table))
    {
      Others(me);
      var turns: nat := *;
      while turns > 0 && to in table && !table[to].durable
        invariant Valid() && old(log) <= log && Free(table, me)
        invariant CommitsBy(log, me) == CommitsBy(old(log), me) && By(log, me) == By(old(log), me)
        invariant OthersKeepOff(log, |old(log)|, me, to) ==> (to in table <==> to in old(table))
        decreases turns
      {
        ghost var before := log;
        Others(me);
        KeptOffParts(before, log, |old(log)|, me, to);
        turns := turns - 1;
      }
    }

    /** Through whichever channel: the message goes out and the row is committed, or all is rolled back. */
    method Deliver(me: nat, r: Recipient) returns (outcome: Outcome, ghost mine: seq<Event>)
      requires Valid() && Claimed(table, me, r.to, false)
      modifies this
      ensures Valid() && old(log) <= log && Free(table, me)
      ensures By(log, me) == By(old(log), me) + mine && [Claim(me, r.to)] + mine == ClaimAndDeliver(me, r)
      ensures outcome == if r.delivered then Sent else DeliveryFailed
      ensures CommitsBy(log, me) == CommitsBy(old(log), me) + if outcome == Sent then 1 else 0
      ensures outcome == Sent ==> r.to in table && table[r.to] == Touchpoint(None, true, true, true)
    {
      ghost var before, rest := [], [];
      before := Refresh(me, r);
      if r.delivered {
        rest := MailAndCommit(me, r.to);
        outcome := Sent;
      } else {
        Do(Fail(me, r.to));
        rest := [Fail(me, r.to)];
        outcome := DeliveryFailed;
      }
      mine := before + rest;
    }

    /** The first channel may refresh its token, which commits the session and with it the claim. */
    method Refresh(me: nat, r: Recipient) returns (ghost mine: seq<Event>)
      requires Valid() && Claimed(table, me, r.to, false)
      modifies this
      ensures Valid() && old(log) <= log && Claimed(table, me, r.to, false)
      ensures By(log, me) == By(old(log), me) + mine && CommitsBy(log, me) == CommitsBy(old(log), me)
      ensures mine == if r.refreshed then [Persist(me, r.to)] else []
    {
      Others(me);
      mine := [];
      if r.refreshed {
        Do(Persist(me, r.to));
        mine := [Persist(me, r.to)];
        assert Claimed(table, me, r.to, false);
        Others(me);
      }
    }

    method MailAndCommit(me: nat, to: Triple) returns (ghost mine: seq<Event>)
      requires Valid() && Claimed(table, me, to, false)
      modifies this
      ensures Valid() && old(log) <= log && Free(table, me)
      ensures By(log, me) == By(old(log), me) + mine && mine == [Mail(me, to), Commit(me, to)]
      ensures CommitsBy(log, me) == CommitsBy(old(log), me) + 1
      ensures to in table && table[to] == Touchpoint(None, true, true, true)
    {
      Do(Mail(me, to));
      assert Claimed(table, me, to, true);
      Others(me);
      Do(Commit(me, to));
      mine := [Mail(me, to), Commit(me, to)];
    }

    /** `send_campaign_emails` from the audience on. The history it leaves, whatever the others did, is
        one of those that the results above speak of; in it the loop has treated every eligible
        recipient in order, up to one whose insert still waits when the run ends, and the summary
        counts their outcomes. */
    method SendAll(me: nat, audience: seq<Recipient>)
      returns (summary: Summary, waiting: bool, ghost attempts: seq<Attempt>)
      requires Valid() && Free(table, me)
      modifies this
      ensures Valid() && old(log) <= log && Free(table, me)
      ensures By(log, me) == By(old(log), me) + Mine(attempts)
      ensures |attempts| <= |Eligible(audience)| && TreatsAll(me, attempts, Eligible(audience)[..|attempts|])
      ensures !waiting ==> |attempts| == |Eligible(audience)|
      ensures waiting <==> attempts != [] && attempts[|attempts|-1].outcome == Waiting
      ensures summary == Tally(attempts)
      ensures CommitsBy(log, me) == CommitsBy(old(log), me) + summary.sent
    {
      summary, waiting, attempts := Summary(0, 0, 0, 0), false, [];
      ghost var own, commits := By(log, me), CommitsBy(log, me);
      for i := 0 to |audience|
        invariant Valid() && old(log) <= log && Free(table, me)
        invariant Progress(me, own, commits, attempts, Eligible(audience[..i]), summary)
        invariant attempts != [] ==> attempts[|attempts|-1].outcome != Waiting
      {
        EligibleGrows(audience, i);
        if audience[i].eligible {
          var outcome;
          summary, outcome, attempts := Turn(me, audience[i], own, commits, attempts, Eligible(audience[..i]), summary);
          if outcome == Waiting {
            TreatedSoFar(me, attempts, audience, i + 1);
            return summary, true, attempts;
          }
        }
      }
      TreatedSoFar(me, attempts, audience, |audience|);
    }

    /** What the loop has done so far, and what its summary counts. */
    ghost predicate Progress(me: nat, own: seq<Event>, commits: nat, attempts: seq<Attempt>,
                             recipients: seq<Recipient>, summary: Summary)
      reads this
    {
      && By(log, me) == own + Mine(attempts)
      && TreatsAll(me, attempts, recipients)
      && summary == Tally(attempts)
      && CommitsBy(log, me) == commits + summary.sent
    }

    /** One turn of the loop. */
    method Turn(me: nat, r: Recipient, ghost own: seq<Event>, ghost commits: nat, ghost attempts: seq<Attempt>,
                ghost recipients: seq<Recipient>, summary: Summary)
      returns (total: Summary, outcome: Outcome, ghost after: seq<Attempt>)
      requires Valid() && Free(table, me) && Progress(me, own, commits, attempts, recipients, summary)
      modifies this
      ensures Valid() && old(log) <= log && Free(table, me)
      ensures Progress(me, own, commits, after, recipients + [r], total)
      ensures after != [] && after[|after|-1].outcome == outcome
    {
      ghost var mine;
      outcome, mine := SendTo(me, r);
      AttemptsGrow(me, attempts, Attempt(r, outcome, mine), recipients, own);
      after := attempts + [Attempt(r, outcome, mine)];
      total := summary.Plus(outcome);
      Others(me);
    }
  }

  /** A history that others keep off has a beginning that they keep off, and what they did last does
      not concern the recipient. */
  lemma KeptOffBefore(before: seq<Event>, e: Event, from: nat, loop: nat)
    requires e.loop != loop && from <= |before|
    ensures forall to :: OthersKeepOff(before + [e], from, loop, to) ==>
              OthersKeepOff(before, from, loop, to) && e.to != to
  {
    forall to | OthersKeepOff(before + [e], from, loop, to)
      ensures OthersKeepOff(before, from, loop, to) && e.to != to
    {
      assert (before + [e])[|before|] == e;
      forall k | from <= k < |before| && before[k].loop != loop ensures before[k].to != to {
        assert (before + [e])[k] == before[k];
      }
    }
  }

  lemma KeptOffParts(before: seq<Event>, after: seq<Event>, from: nat, loop: nat, to: Triple)
    requires before <= after && from <= |before|
    ensures OthersKeepOff(after, from, loop, to) ==>
              OthersKeepOff(before, from, loop, to) && OthersKeepOff(after, |before|, loop, to)
  {
    if OthersKeepOff(after, from, loop, to) {
      forall k | from <= k < |before| && before[k].loop != loop ensures before[k].to != to {
        assert after[k] == before[k];
      }
    }
  }
}
