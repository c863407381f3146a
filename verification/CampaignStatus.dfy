/** A campaign's life cycle. Every endpoint reads the row, decides on what it read, and later writes
    the columns it assigned; other requests act at every await in between. */
module CampaignStatus {
  import opened Prelude

  datatype Row = Row(status: string, approvedAt: Option<int>, startedAt: Option<int>)

  predicate Allowed(current: string, target: string) {
    || (current == "draft" && target == "approved")
    || (current == "approved" && (target == "active" || target == "draft"))
    || (current == "active" && (target == "paused" || target == "completed"))
    || (current == "paused" && (target == "active" || target == "completed"))
  }

  /** What each status promises about the two timestamps. There is no approval promise for a completed
      campaign: a campaign started while archived completes without one. */
  predicate Sound(row: Row) {
    && (row.status == "approved" ==> row.approvedAt.Some?)
    && (row.status == "active" || row.status == "paused" ==> row.approvedAt.Some? && row.startedAt.Some?)
    && (row.status == "completed" ==> row.startedAt.Some?)
  }

  /** What every request guarantees to the others: once set, a timestamp is never cleared. */
  predicate Later(earlier: Row, later: Row) {
    && (earlier.approvedAt.Some? ==> later.approvedAt.Some?)
    && (earlier.startedAt.Some? ==> later.startedAt.Some?)
  }

  /* ---------- Requests, from what they read to what they write ---------- */

  datatype Request =
    | Patch(target: string, now: int)
    | Archive
    | Unarchive
    | Start(now: int, isEmail: bool, sendable: bool)
    | Send

  /** Is the request, having read `seen`, refused? */
  predicate Refused(req: Request, seen: Row) {
    match req
    case Patch(target, _) => !Allowed(seen.status, target)
    case Archive => false
    case Unarchive => seen.status != "archived"
    case Start(_, isEmail, sendable) => seen.status == "completed" || (isEmail && !sendable)
    case Send => seen.status != "active"
  }

  predicate Mails(req: Request) {
    req.Send? || (req.Start? && req.isEmail)
  }

  /** The object in the session once the endpoint has assigned its attributes. */
  function Assigned(req: Request, seen: Row): Row {
    match req
    case Patch(target, now) =>
      Row(target,
          if target == "approved" then Some(now) else seen.approvedAt,
          if target == "active" then Some(now) else seen.startedAt)
    case Archive => seen.(status := "archived")
    case Unarchive => seen.(status := "draft")
    case Start(now, _, _) =>
      Row(if seen.status in {"draft", "approved", "paused"} then "active" else seen.status,
          if seen.status == "draft" then Some(now) else seen.approvedAt,
          if seen.startedAt.None? then Some(now) else seen.startedAt)
    case Send => seen
  }

  /** A flush writes a column only when its value differs from the one that was loaded. */
  function Flushed<T(==)>(loaded: T, mine: T, met: T): T {
    if mine == loaded then met else mine
  }

  function Flush(loaded: Row, mine: Row, met: Row): Row {
    Row(Flushed(loaded.status, mine.status, met.status),
        Flushed(loaded.approvedAt, mine.approvedAt, met.approvedAt),
        Flushed(loaded.startedAt, mine.startedAt, met.startedAt))
  }

  /** The row after the request's commit, which meets `met`. */
  function Commit(req: Request, seen: Row, met: Row): Row {
    if Refused(req, seen) then met else Flush(seen, Assigned(req, seen), met)
  }

  /** A commit keeps the row sound, however stale the row it was decided on. */
  lemma CommitKeepsSound(req: Request, seen: Row, met: Row)
    requires Sound(seen) && Sound(met) && Later(seen, met)
    ensures Sound(Commit(req, seen, met)) && Later(met, Commit(req, seen, met))
    ensures Mails(req) && !Refused(req, seen) ==> Commit(req, seen, met).startedAt.Some?
  {
  }

  /** Mail goes out approved exactly when the campaign was not read as archived, or somebody had
      approved it before. */
  lemma MailIsApprovedIff(req: Request, seen: Row, met: Row)
    requires Sound(seen) && Known(seen.status) && Later(seen, met)
    requires Mails(req) && !Refused(req, seen)
    ensures Commit(req, seen, met).approvedAt.Some? <==> seen.status != "archived" || met.approvedAt.Some?
  {
  }

  predicate Known(status: string) {
    status in {"draft", "approved", "active", "paused", "completed", "archived"}
  }

  /* ---------- Every interleaving of requests ---------- */

  /** A request under way: deciding on the row it read, or sending, having read that row; `held` is
      what the session then holds as loaded. */
  datatype Phase = Deciding(req: Request, seen: Row) | Sending(seen: Row, held: Row)

  datatype World = World(row: Row, active: map<nat, Phase>)

  datatype Event =
    | Begin(r: nat, req: Request)
    | Write(r: nat)
    | Reload(r: nat)                      // a refresh, after the launch or after a rollback
    | Finish(r: nat, completed: bool)     // the send loop ended; did it reach everyone?

  function Step(w: World, e: Event): Option<World> {
    match e
    case Begin(r, req) =>
      if r in w.active then None else Some(w.(active := w.active[r := Deciding(req, w.row)]))
    case Write(r) =>
      if r !in w.active || !w.active[r].Deciding? then None
      else
        var (req, seen) := (w.active[r].req, w.active[r].seen);
        Some(World(Commit(req, seen, w.row),
                   if Mails(req) && !Refused(req, seen) then w.active[r := Sending(seen, Assigned(req, seen))]
                   else w.active - {r}))
    case Reload(r) =>
      if r !in w.active || !w.active[r].Sending? then None
      else Some(w.(active := w.active[r := w.active[r].(held := w.row)]))
    case Finish(r, completed) =>
      if r !in w.active || !w.active[r].Sending? then None
      else
        var held := w.active[r].held;
        Some(World(if completed then Flush(held, held.(status := "completed"), w.row) else w.row, w.active - {r}))
  }

  function Run(w: World, es: seq<Event>): Option<World>
    decreases es
  {
    if es == [] then Some(w)
    else match Step(w, es[0]) case None => None case Some(v) => Run(v, es[1..])
  }

  /** The row is sound and of a known status, whatever a request has read is a sound earlier row, and
      whoever is sending sends a started campaign: an approved one, unless it was read as archived. */
  ghost predicate Consistent(w: World) {
    && Sound(w.row) && Known(w.row.status)
    && forall r :: r in w.active ==>
         && Sound(w.active[r].seen) && Known(w.active[r].seen.status) && Later(w.active[r].seen, w.row)
         && (w.active[r].Sending? ==>
               w.row.startedAt.Some? && (w.active[r].seen.status != "archived" ==> w.row.approvedAt.Some?))
  }

  lemma StepKeepsConsistent(w: World, e: Event)
    requires Consistent(w) && Step(w, e).Some?
    ensures Consistent(Step(w, e).value)
  {
    if e.Write? {
      var p := w.active[e.r];
      if p.Deciding? {
        CommitKeepsSound(p.req, p.seen, w.row);
        if Mails(p.req) && !Refused(p.req, p.seen) {
          MailIsApprovedIff(p.req, p.seen, w.row);
        }
      }
    }
  }

  /** Over any interleaving of any number of requests, with arbitrarily stale reads, the campaign
      stays sound and mail goes out only as `Consistent` says. */
  lemma {:induction false} RunsStayConsistent(w: World, es: seq<Event>)
    requires Consistent(w) && Run(w, es).Some?
    ensures Consistent(Run(w, es).value)
    decreases es
  {
    if es != [] {
      StepKeepsConsistent(w, es[0]);
      RunsStayConsistent(Step(w, es[0]).value, es[1..]);
    }
  }

  /** At every point of every run: a request that starts to send does so with an approved campaign
      exactly when it did not read it as archived, or it was approved by then. */
  lemma SendingStartsApprovedIff(w: World, es: seq<Event>, r: nat)
    requires Consistent(w) && Run(w, es).Some?
    requires var v := Run(w, es).value;
             && r in v.active && v.active[r].Deciding?
             && Mails(v.active[r].req) && !Refused(v.active[r].req, v.active[r].seen)
    ensures var v := Run(w, es).value;
            var after := Step(v, Write(r)).value;
            && r in after.active && after.active[r].Sending?
            && (after.row.approvedAt.Some? <==> v.active[r].seen.status != "archived" || v.row.approvedAt.Some?)
  {
    RunsStayConsistent(w, es);
    var v := Run(w, es).value;
    MailIsApprovedIff(v.active[r].req, v.active[r].seen, v.row);
  }

  /** Who goes on to send: a send request that read an active campaign, and the start of a sendable email
      campaign that it did not read as completed. All others are over with their commit. */
  lemma WhoSends(w: World, r: nat)
    requires r in w.active && w.active[r].Deciding?
    ensures var (req, seen, after) := (w.active[r].req, w.active[r].seen, Step(w, Write(r)).value);
            if (req.Send? && seen.status == "active")
               || (req.Start? && req.isEmail && req.sendable && seen.status != "completed")
            then r in after.active && after.active[r].Sending? && after.active[r].seen == seen
            else r !in after.active
  {
  }

  /** The end of sending: completed, unless the session held the campaign as completed already, and
      nothing else of the row. */
  lemma EndOfSending(w: World, r: nat, completed: bool)
    requires r in w.active && w.active[r].Sending?
    ensures var after := Step(w, Finish(r, completed)).value;
            && r !in after.active
            && after.row == if completed && w.active[r].held.status != "completed"
                            then w.row.(status := "completed") else w.row
  {
  }

  /** Some request is sending a campaign that nobody has approved. */
  predicate MailsUnapproved(w: World) {
    w.row.approvedAt.None? && exists r :: r in w.active && w.active[r].Sending?
  }

  lemma {:induction false} ApprovalIsKept(w: World, es: seq<Event>)
    requires Consistent(w) && Run(w, es).Some? && w.row.approvedAt.Some?
    ensures Run(w, es).value.row.approvedAt.Some?
    decreases es
  {
    if es != [] {
      StepKeepsConsistent(w, es[0]);
      if es[0].Write? {
        var p := w.active[es[0].r];
        CommitKeepsSound(p.req, p.seen, w.row);
      }
      ApprovalIsKept(Step(w, es[0]).value, es[1..]);
    }
  }

  /** Archive, then start. */
  function ArchiveAndStart(now: int): seq<Event> {
    [Begin(0, Archive), Write(0), Begin(1, Start(now, true, true)), Write(1)]
  }

  lemma ArchivedStartIsMailed(row: Row, now: int)
    ensures Run(World(row, map[]), ArchiveAndStart(now)).Some?
    ensures var v := Run(World(row, map[]), ArchiveAndStart(now)).value;
            1 in v.active && v.active[1].Sending? && v.row.approvedAt == row.approvedAt
  {
    var w, es := World(row, map[]), ArchiveAndStart(now);
    var w1 := Step(w, es[0]).value;
    var w2 := Step(w1, es[1]).value;
    assert w2 == World(row.(status := "archived"), map[]);
    var w3 := Step(w2, es[2]).value;
    var w4 := Step(w3, es[3]).value;
    assert es[1..][1..] == es[2..] && es[2..][1..] == es[3..] && es[3..][1..] == [];
    assert Run(w4, es[3..][1..]) == Some(w4);
    assert Run(w3, es[3..]) == Some(w4);
    assert Run(w2, es[2..]) == Some(w4);
    assert Run(w1, es[1..]) == Some(w4);
  }

  /** Can a campaign be mailed without approval? From a row on which nothing is under way: exactly
      when that row carries no approval yet, whatever its status. */
  lemma UnapprovedMailIsPossibleIff(row: Row)
    requires Sound(row) && Known(row.status)
    ensures (exists es :: Run(World(row, map[]), es).Some? && MailsUnapproved(Run(World(row, map[]), es).value))
            <==> row.approvedAt.None?
  {
    var w := World(row, map[]);
    if row.approvedAt.None? {
      ArchivedStartIsMailed(row, 0);
      assert MailsUnapproved(Run(w, ArchiveAndStart(0)).value);
    } else if es :| Run(w, es).Some? && MailsUnapproved(Run(w, es).value) {
      ApprovalIsKept(w, es);
    }
  }

  /** In particular a new campaign, never approved, is mailed once it is archived and then started. */
  lemma ArchivedStartMailsUnapproved(now: int)
    ensures var w := World(Row("draft", None, None), map[]);
            var es := ArchiveAndStart(now);
            && Consistent(w) && Run(w, es).Some?
            && var v := Run(w, es).value; 1 in v.active && v.active[1].Sending? && v.row.approvedAt.None?
  {
    ArchivedStartIsMailed(Row("draft", None, None), now);
  }

  /* ---------- The endpoints ---------- */

  datatype Reply = Done | BadRequest | Conflict

  class Campaign {
    var row: Row

    constructor ()
      ensures Sound(row) && row == Row("draft", None, None)
    {
      row := Row("draft", None, None);
    }

    /** Other requests, each of which keeps rows sound and clears no timestamp. */
    method Others()
      requires Sound(row)
      modifies this
      ensures Sound(row) && Later(old(row), row)
    {
      var next: Row := *;
      if Sound(next) && Later(row, next) {
        row := next;
      }
    }

    /** `PATCH .../status`. `seen` is the row that was read, `met` the row that the write met. */
    method UpdateStatus(target: string, now: int) returns (reply: Reply, ghost seen: Row, ghost met: Row)
      requires Sound(row)
      modifies this
      ensures Sound(row) && Later(old(row), seen) && Later(seen, met) && Later(met, row)
      ensures reply == if Refused(Patch(target, now), seen) then BadRequest else Done
      ensures reply == Done <==>
                (seen.status, target) in {("draft", "approved"), ("approved", "active"), ("approved", "draft"),
                                          ("active", "paused"), ("active", "completed"),
                                          ("paused", "active"), ("paused", "completed")}
      ensures reply != Done ==> row == met
      ensures reply == Done ==> row.status == target
      ensures reply == Done && target == "approved" && seen.approvedAt != Some(now) ==> row.approvedAt == Some(now)
      ensures reply == Done && target == "active" && seen.startedAt != Some(now) ==> row.startedAt == Some(now)
      ensures target != "approved" ==> row.approvedAt == met.approvedAt
      ensures target != "active" ==> row.startedAt == met.startedAt
      ensures row == Commit(Patch(target, now), seen, met)
    {
      Others();
      var loaded := row;
      var campaign := loaded;
      seen := row;
      Others();
      met := row;
      if !Allowed(campaign.status, target) {
        return BadRequest, seen, met;
      }
      campaign := campaign.(status := target);
      if target == "approved" {
        campaign := campaign.(approvedAt := Some(now));
      } else if target == "active" {
        campaign := campaign.(startedAt := Some(now));
      }
      row := Flush(loaded, campaign, row);
      reply := Done;
    }

    /** `POST .../archive`, from any status. */
    method ArchiveCampaign() returns (ghost seen: Row, ghost met: Row)
      requires Sound(row)
      modifies this
      ensures Sound(row) && Later(old(row), seen) && Later(seen, met) && Later(met, row)
      ensures row == Commit(Archive, seen, met)
      ensures row == if seen.status == "archived" then met else met.(status := "archived")
    {
      Others();
      var loaded := row;
      seen := row;
      Others();
      met := row;
      row := Flush(loaded, loaded.(status := "archived"), row);
    }

    /** `POST .../unarchive`, back to draft. */
    method UnarchiveCampaign() returns (reply: Reply, ghost seen: Row, ghost met: Row)
      requires Sound(row)
      modifies this
      ensures Sound(row) && Later(old(row), seen) && Later(seen, met) && Later(met, row)
      ensures reply == if Refused(Unarchive, seen) then BadRequest else Done
      ensures reply == Done <==> seen.status == "archived"
      ensures row == if reply == Done then met.(status := "draft") else met
      ensures row == Commit(Unarchive, seen, met)
    {
      Others();
      var campaign := row;
      seen := row;
      Others();
      met := row;
      if campaign.status != "archived" {
        return BadRequest, seen, met;
      }
      row := Flush(campaign, campaign.(status := "draft"), row);
      reply := Done;
    }

    /** `POST .../start`: `launched` is the row as committed before any mail goes out. */
    method StartCampaign(isEmail: bool, sendable: bool, now: int, delivery: Delivery)
      returns (reply: Reply, ghost seen: Row, ghost met: Row, ghost launched: Row, ghost held: Row, ghost last: Row)
      requires Sound(row)
      modifies this
      ensures Sound(row) && Later(old(row), seen) && Later(seen, met) && Later(met, launched) && Later(launched, row)
      ensures reply == Conflict <==> seen.status == "completed"
      ensures launched == Commit(Start(now, isEmail, sendable), seen, met)
      ensures Refused(Start(now, isEmail, sendable), seen) || !isEmail ==> row == launched
      ensures Refused(Start(now, isEmail, sendable), seen) ==> launched == met
      ensures !Refused(Start(now, isEmail, sendable), seen) ==>
                && launched.status == (if seen.status in {"draft", "approved", "paused"} then "active" else met.status)
                && (seen.status != "draft" ==> launched.approvedAt == met.approvedAt)
                && (seen.status == "draft" && seen.approvedAt != Some(now) ==> launched.approvedAt == Some(now))
                && launched.startedAt == if seen.startedAt.None? then Some(now) else met.startedAt
      ensures !Refused(Start(now, isEmail, sendable), seen) && isEmail ==>
                Later(launched, last) && Finished(delivery, held, last, row, reply)
      ensures !isEmail && seen.status != "completed" ==> reply == Done
      ensures isEmail && !sendable && seen.status != "completed" ==> reply == BadRequest
      ensures !Refused(Start(now, isEmail, sendable), seen) && Known(seen.status) ==>
                (launched.approvedAt.Some? <==> seen.status != "archived" || met.approvedAt.Some?)
    {
      Others();
      var loaded := row;
      var campaign := loaded;
      seen := row;
      if campaign.status == "completed" {
        return Conflict, seen, row, row, row, row;
      }
      if isEmail && !sendable {
        return BadRequest, seen, row, row, row, row;
      }
      Others();
      met := row;
      if campaign.status == "draft" {
        campaign := campaign.(approvedAt := Some(now));
      }
      if campaign.status == "draft" || campaign.status == "approved" || campaign.status == "paused" {
        campaign := campaign.(status := "active");
      }
      if campaign.startedAt.None? {
        campaign := campaign.(startedAt := Some(now));
      }
      row := Flush(loaded, campaign, row);
      launched, held, last := row, row, row;
      reply := Done;
      if isEmail {
        Others();
        reply, held, last := SendAndComplete(row, delivery);
      }
    }

    /** `POST .../send`, for an active campaign only. */
    method SendCampaign(delivery: Delivery)
      returns (reply: Reply, ghost seen: Row, ghost met: Row, ghost held: Row, ghost last: Row)
      requires Sound(row)
      modifies this
      ensures Sound(row) && Later(old(row), seen) && Later(seen, met) && Later(met, row)
      ensures seen.status != "active" ==> reply == BadRequest && row == met
      ensures seen.status == "active" ==> met.approvedAt.Some? && met.startedAt.Some?
      ensures seen.status == "active" ==> Later(met, last) && Finished(delivery, held, last, row, reply)
    {
      Others();
      var campaign := row;
      seen := row;
      Others();
      met := row;
      if campaign.status != "active" {
        return BadRequest, seen, met, met, met;
      }
      held, last := seen, met;
      reply, held, last := SendAndComplete(campaign, delivery);
    }

    /** The send loop, with whatever happens meanwhile, and the completion rule after it: `last` is the
        row that the rule met, `held` the row that the session last loaded. */
    method SendAndComplete(loaded: Row, delivery: Delivery) returns (reply: Reply, ghost held: Row, ghost last: Row)
      requires Sound(row) && row.startedAt.Some?
      modifies this
      ensures Sound(row) && Later(old(row), last) && Later(last, row)
      ensures if delivery.Delivered? && delivery.reloads then Later(old(row), held) else held == loaded
      ensures Finished(delivery, held, last, row, reply)
    {
      var campaign := loaded;
      Others();
      if delivery.Delivered? && delivery.reloads {
        campaign := row;
        Others();
      }
      held, last := campaign, row;
      if delivery.Raised? {
        return BadRequest, held, last;
      }
      if delivery.throttled == 0 && delivery.sent > 0 {
        row := Flush(campaign, campaign.(status := "completed"), row);
      }
      reply := Done;
    }
  }

  /** What the send loop reports: it raised, or so many were sent and so many held back by the cap;
      `reloads` when it refreshed the campaign after a rollback. */
  datatype Delivery = Raised | Delivered(sent: nat, throttled: nat, reloads: bool)

  /** The completion rule: completed exactly when somebody was mailed and nobody held back. Only a
      session that already held the campaign as completed writes nothing then. */
  ghost predicate Finished(delivery: Delivery, held: Row, last: Row, after: Row, reply: Reply) {
    && (reply == if delivery.Raised? then BadRequest else Done)
    && after == if delivery.Delivered? && delivery.sent > 0 && delivery.throttled == 0 && held.status != "completed"
                then last.(status := "completed") else last
  }
}
