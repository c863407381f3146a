/** What holds of the users table however pings and logins are interleaved. */
module UserLaws {
  import opened Prelude
  import opened UserAccounts

  /* ---------- Unique keys ---------- */

  predicate SameSubscription(a: User, b: User) {
    a.subscription.Some? && a.subscription == b.subscription && a.subscription.value != ""
  }

  predicate SameClerkId(a: User, b: User) {
    a.clerkId.Some? && a.clerkId == b.clerkId
  }

  predicate Apart(a: User, b: User) {
    Lower(a.email) != Lower(b.email) && !SameClerkId(a, b) && !SameSubscription(a, b)
  }

  /** No two rows share an email (ignoring case), a Clerk id, or a non-empty subscription id. */
  ghost predicate Unique(rows: Rows) {
    forall i, j :: 0 <= i < |rows| && 0 <= j < |rows| && i != j ==> Apart(rows[i], rows[j])
  }

  lemma UniqueAfterUpdate(rows: Rows, k: nat, u: User)
    requires Unique(rows) && k < |rows|
    requires forall i :: 0 <= i < |rows| && i != k ==> Apart(rows[i], u)
    ensures Unique(rows[k := u])
  {
    var after := rows[k := u];
    forall i, j | 0 <= i < |after| && 0 <= j < |after| && i != j ensures Apart(after[i], after[j]) {
      if i != k && j != k {
        assert Apart(rows[i], rows[j]);
      } else if i != k {
        assert Apart(rows[i], u);
      } else {
        assert Apart(rows[j], u);
      }
    }
  }

  lemma UniqueAfterInsert(rows: Rows, u: User)
    requires Unique(rows)
    requires forall i :: 0 <= i < |rows| ==> Apart(rows[i], u)
    ensures Unique(rows + [u])
  {
    var after := rows + [u];
    forall i, j | 0 <= i < |after| && 0 <= j < |after| && i != j ensures Apart(after[i], after[j]) {
      if i < |rows| && j < |rows| {
        assert Apart(rows[i], rows[j]);
      } else if i < |rows| {
        assert Apart(rows[i], u);
      } else {
        assert Apart(rows[j], u);
      }
    }
  }

  /** In a table with unique keys every lookup that the handlers make matches at most one row. */
  lemma LookupsMatchAtMostOnce(rows: Rows, email: string, subscriptionId: string, clerkId: string)
    requires Unique(rows)
    ensures GumroadSelect(rows, email, subscriptionId) != Several
    ensures SelectOne(rows, HasClerkId(clerkId)) != Several
    ensures SelectOne(rows, HasEmail(email)) != Several
  {
    SelectOneFinds(rows, HasSubscription(subscriptionId));
    SelectOneFinds(rows, HasEmailIgnoringCase(email));
    SelectOneFinds(rows, HasClerkId(clerkId));
    SelectOneFinds(rows, HasEmail(email));
    forall i, j | 0 <= i < j < |rows|
      ensures !(HasEmailIgnoringCase(email)(rows[i]) && HasEmailIgnoringCase(email)(rows[j]))
      ensures !(HasClerkId(clerkId)(rows[i]) && HasClerkId(clerkId)(rows[j]))
      ensures !(HasEmail(email)(rows[i]) && HasEmail(email)(rows[j]))
      ensures subscriptionId != "" ==>
                !(HasSubscription(subscriptionId)(rows[i]) && HasSubscription(subscriptionId)(rows[j]))
    {
      assert Apart(rows[i], rows[j]);
    }
  }

  /** A ping never makes two rows share a key, and never fails on a table with unique keys. */
  lemma PingKeepsUnique(rows: Rows, p: Ping, now: int)
    requires Unique(rows)
    ensures PingStep(rows, p, now).Done? && Unique(PingStep(rows, p, now).rows)
  {
    LookupsMatchAtMostOnce(rows, p.email, p.subscriptionId, "");
    if p.action != Ignore {
      SelectOneFinds(rows, HasSubscription(p.subscriptionId));
      SelectOneFinds(rows, HasEmailIgnoringCase(p.email));
      match GumroadSelect(rows, p.email, p.subscriptionId)
      case One(k) =>
        forall i | 0 <= i < |rows| && i != k ensures Apart(rows[i], Touch(rows[k], p, now)) {
          assert Apart(rows[i], rows[k]);
          assert p.subscriptionId != "" ==> !HasSubscription(p.subscriptionId)(rows[i]);
        }
        UniqueAfterUpdate(rows, k, Touch(rows[k], p, now));
      case Nobody =>
        if p.action.Activate? {
          forall i | 0 <= i < |rows| ensures Apart(rows[i], NewBuyer(p, now)) {
            assert !HasEmailIgnoringCase(p.email)(rows[i]);
            assert p.subscriptionId != "" ==> !HasSubscription(p.subscriptionId)(rows[i]);
          }
          UniqueAfterInsert(rows, NewBuyer(p, now));
        }
    }
  }

  /** No row but `k` has this email in any mixture of cases. */
  ghost predicate NoTwin(rows: Rows, email: string, k: int) {
    forall i :: 0 <= i < |rows| && i != k ==> Lower(rows[i].email) != Lower(email)
  }

  /** Whether this login may write its email, decided before it writes: a new account, or a
      healed one, must find no other row with that email in another spelling. */
  ghost predicate SpellingIsSafe(rows: Rows, l: Login) {
    l.clerkId != "" ==>
      match SelectOne(rows, HasClerkId(l.clerkId))
      case One(k) => Healed(rows, k, l.profileEmail) != rows ==> NoTwin(rows, l.profileEmail, k)
      case Several => true
      case Nobody => SelectOne(rows, HasEmail(l.Email())) == Nobody && l.allowed ==> NoTwin(rows, l.Email(), -1)
  }

  lemma TwinBreaksUnique(rows: Rows, i: nat, j: nat)
    requires i < |rows| && j < |rows| && i != j && Lower(rows[i].email) == Lower(rows[j].email)
    ensures !Unique(rows)
  {
    assert !Apart(rows[i], rows[j]);
  }

  lemma HealKeepsUniqueIff(rows: Rows, k: nat, profileEmail: string)
    requires Unique(rows) && k < |rows|
    ensures Unique(Healed(rows, k, profileEmail)) <==>
            (Healed(rows, k, profileEmail) != rows ==> NoTwin(rows, profileEmail, k))
  {
    var after := Healed(rows, k, profileEmail);
    if after != rows {
      var u := rows[k].(email := profileEmail);
      if NoTwin(rows, profileEmail, k) {
        forall i | 0 <= i < |rows| && i != k ensures Apart(rows[i], u) {
          assert Apart(rows[i], rows[k]);
        }
        UniqueAfterUpdate(rows, k, u);
      } else {
        var i :| 0 <= i < |rows| && i != k && Lower(rows[i].email) == Lower(profileEmail);
        assert after[i] == rows[i];
        TwinBreaksUnique(after, i, k);
      }
    }
  }

  /** A login keeps the keys unique exactly when its spelling is safe: the login path compares
      emails case-sensitively while the ping path ignores case. */
  lemma LoginKeepsUniqueIff(rows: Rows, l: Login)
    requires Unique(rows)
    ensures Unique(LoginStep(rows, l).0) <==> SpellingIsSafe(rows, l)
    ensures LoginStep(rows, l).1 != Crashed
  {
    LookupsMatchAtMostOnce(rows, l.Email(), "", l.clerkId);
    SelectOneFinds(rows, HasClerkId(l.clerkId));
    SelectOneFinds(rows, HasEmail(l.Email()));
    match SelectOne(rows, HasClerkId(l.clerkId))
    case One(k) =>
      HealKeepsUniqueIff(rows, k, l.profileEmail);
    case Nobody =>
      match SelectOne(rows, HasEmail(l.Email()))
      case One(k) =>
        forall i | 0 <= i < |rows| && i != k ensures Apart(rows[i], Relinked(rows[k], l)) {
          assert Apart(rows[i], rows[k]) && !HasClerkId(l.clerkId)(rows[i]);
        }
        UniqueAfterUpdate(rows, k, Relinked(rows[k], l));
      case Nobody =>
        var after := rows + [NewAccount(l)];
        if NoTwin(rows, l.Email(), -1) {
          forall i | 0 <= i < |rows| ensures Apart(rows[i], NewAccount(l)) {
            assert !HasClerkId(l.clerkId)(rows[i]);
          }
          UniqueAfterInsert(rows, NewAccount(l));
        } else {
          var i :| 0 <= i < |rows| && i != -1 && Lower(rows[i].email) == Lower(l.Email());
          assert after[i] == rows[i];
          TwinBreaksUnique(after, i, |rows|);
        }
  }

  /** A successful login is always answered with a row that carries the token's subject. */
  lemma LoginReturnsSubject(rows: Rows, l: Login)
    requires LoginStep(rows, l).1.Entered?
    ensures var (after, r) := LoginStep(rows, l);
            r.row < |after| && after[r.row].clerkId == Some(l.clerkId) && l.clerkId != ""
  {
  }

  /* ---------- Whole runs ---------- */

  datatype Event = Pinged(ping: Ping, now: int) | LoggedIn(login: Login)

  function After(rows: Rows, e: Event): Rows {
    match e
    case Pinged(p, now) =>
      (match PingStep(rows, p, now)
       case Done(after) => after
       case Failed => rows)
    case LoggedIn(l) => LoginStep(rows, l).0
  }

  function AfterAll(rows: Rows, es: seq<Event>): Rows
    decreases es
  {
    if es == [] then rows else AfterAll(After(rows, es[0]), es[1..])
  }

  /** Every login of the run was safely spelled when it happened. */
  ghost predicate SpelledSafely(rows: Rows, es: seq<Event>)
    decreases es
  {
    || es == []
    || (&& (es[0].LoggedIn? ==> SpellingIsSafe(rows, es[0].login))
        && SpelledSafely(After(rows, es[0]), es[1..]))
  }

  predicate SameBut(before: Rows, after: Rows, k: nat) {
    |after| == |before| && forall i :: 0 <= i < |before| && i != k ==> after[i] == before[i]
  }

  /** At most one row differs, or one row is new. */
  ghost predicate OneRowTouched(before: Rows, after: Rows) {
    (exists k: nat :: SameBut(before, after, k)) || (|after| == |before| + 1 && before <= after)
  }

  lemma EachStepTouchesOneRow(rows: Rows, e: Event)
    ensures OneRowTouched(rows, After(rows, e))
  {
    var after := After(rows, e);
    match e
    case Pinged(p, now) =>
      var found := GumroadSelect(rows, p.email, p.subscriptionId);
      assert SameBut(rows, after, if found.One? then found.row else 0) || rows <= after;
    case LoggedIn(l) =>
      var byId, byEmail := SelectOne(rows, HasClerkId(l.clerkId)), SelectOne(rows, HasEmail(l.Email()));
      var k := if byId.One? then byId.row else if byEmail.One? then byEmail.row else 0;
      assert SameBut(rows, after, k) || rows <= after;
  }

  /** No step of the run raises. */
  ghost predicate NeverFails(rows: Rows, es: seq<Event>)
    decreases es
  {
    || es == []
    || (&& (match es[0]
            case Pinged(p, now) => PingStep(rows, p, now).Done?
            case LoggedIn(l) => LoginStep(rows, l).1 != Crashed)
        && NeverFails(After(rows, es[0]), es[1..]))
  }

  /** Over any interleaving of pings and safely spelled logins the keys stay unique, and hence no
      handler ever sees an ambiguous lookup. */
  lemma {:induction false} RunsKeepUnique(rows: Rows, es: seq<Event>)
    requires Unique(rows) && SpelledSafely(rows, es)
    ensures Unique(AfterAll(rows, es)) && NeverFails(rows, es)
    decreases es
  {
    if es != [] {
      match es[0] {
        case Pinged(p, now) => PingKeepsUnique(rows, p, now);
        case LoggedIn(l) => LoginKeepsUniqueIff(rows, l);
      }
      RunsKeepUnique(After(rows, es[0]), es[1..]);
    }
  }

  predicate IsLower(s: string) {
    Lower(s) == s
  }

  ghost predicate AllLower(rows: Rows) {
    forall i :: 0 <= i < |rows| ==> IsLower(rows[i].email)
  }

  /** The emails that this event can write are in lower case. */
  predicate LowerCaseEvent(e: Event) {
    e.LoggedIn? ==> IsLower(e.login.Email()) && IsLower(e.login.profileEmail)
  }

  /** A run whose login emails are in lower case is safely spelled, so it keeps the keys unique. */
  lemma {:induction false} LowerCaseRunsKeepUnique(rows: Rows, es: seq<Event>)
    requires Unique(rows) && AllLower(rows)
    requires forall i :: 0 <= i < |es| ==> LowerCaseEvent(es[i])
    ensures SpelledSafely(rows, es) && Unique(AfterAll(rows, es)) && NeverFails(rows, es)
    decreases es
  {
    if es != [] {
      assert LowerCaseEvent(es[0]);
      LowerCaseStep(rows, es[0]);
      match es[0] {
        case Pinged(p, now) => PingKeepsUnique(rows, p, now);
        case LoggedIn(l) => LoginKeepsUniqueIff(rows, l);
      }
      LowerCaseRunsKeepUnique(After(rows, es[0]), es[1..]);
      RunsKeepUnique(rows, es);
    }
  }

  lemma LowerCaseIsSafe(rows: Rows, email: string, k: int)
    requires AllLower(rows) && IsLower(email) && SelectOne(rows, HasEmail(email)) == Nobody
    ensures NoTwin(rows, email, k)
  {
    SelectOneFinds(rows, HasEmail(email));
    forall i | 0 <= i < |rows| ensures Lower(rows[i].email) != Lower(email) {
      assert !HasEmail(email)(rows[i]);
    }
  }

  lemma LowerCaseStep(rows: Rows, e: Event)
    requires AllLower(rows) && LowerCaseEvent(e)
    ensures e.LoggedIn? ==> SpellingIsSafe(rows, e.login)
    ensures AllLower(After(rows, e))
  {
    match e
    case Pinged(p, now) =>
    case LoggedIn(l) =>
      if SelectOne(rows, HasEmail(l.Email())) == Nobody {
        LowerCaseIsSafe(rows, l.Email(), -1);
      }
      if SelectOne(rows, HasEmail(l.profileEmail)) == Nobody {
        forall k: nat | k < |rows| ensures NoTwin(rows, l.profileEmail, k) {
          LowerCaseIsSafe(rows, l.profileEmail, k);
        }
      }
  }

  /** What an unsafely spelled sign-up costs: afterwards every ping for that email, unless its
      subscription id is already on a row, fails. */
  lemma UnsafeSignUpBreaksPings(rows: Rows, l: Login, p: Ping, now: int)
    requires Unique(rows) && !SpellingIsSafe(rows, l) && SelectOne(rows, HasClerkId(l.clerkId)) == Nobody
    requires p.action != Ignore && p.email == Lower(l.Email()) && p.email != ""
    requires p.subscriptionId == "" || SelectOne(rows, HasSubscription(p.subscriptionId)) == Nobody
    ensures PingStep(LoginStep(rows, l).0, p, now) == Failed
  {
    var after := LoginStep(rows, l).0;
    assert after == rows + [NewAccount(l)];
    var i :| 0 <= i < |rows| && i != -1 && Lower(rows[i].email) == Lower(l.Email());
    var m := HasEmailIgnoringCase(p.email);
    assert m(after[i]) && m(after[|rows|]);
    SelectOneFinds(after, m);
    assert SelectOne(after, m) == Several;
    SelectOneFinds(rows, HasSubscription(p.subscriptionId));
    if p.subscriptionId != "" {
      forall j | 0 <= j < |after| ensures !HasSubscription(p.subscriptionId)(after[j]) {
        if j < |rows| {
          assert !HasSubscription(p.subscriptionId)(rows[j]);
        }
      }
      SelectIsNobody(after, HasSubscription(p.subscriptionId));
    }
  }

  /* ---------- The buyer who signs in later ---------- */

  lemma {:induction false} EmailPersists(rows: Rows, es: seq<Event>, k: nat)
    requires k < |rows| && !Fabricated(rows[k].email)
    ensures k < |AfterAll(rows, es)| && AfterAll(rows, es)[k].email == rows[k].email
    decreases es
  {
    if es != [] {
      EmailPersists(After(rows, es[0]), es[1..], k);
    }
  }

  /** What billing wrote on a row. */
  predicate SameBilling(a: User, b: User) {
    a.plan == b.plan && a.subscription == b.subscription && a.status == b.status && a.periodEnd == b.periodEnd
  }

  /** A buyer provisioned by a ping, who after any safely spelled run signs in for the first time
      with the same email, gets that very row, and the login leaves its billing as it stands. */
  lemma BuyerGetsTheirRow(rows: Rows, p: Ping, now: int, es: seq<Event>, l: Login)
    requires Unique(rows) && p.action.Activate? && GumroadSelect(rows, p.email, p.subscriptionId) == Nobody
    requires var bought := After(rows, Pinged(p, now));
             && SpelledSafely(bought, es)
             && SelectOne(AfterAll(bought, es), HasClerkId(l.clerkId)) == Nobody
    requires l.clerkId != "" && l.Email() == p.email && !Fabricated(p.email)
    ensures var before := AfterAll(After(rows, Pinged(p, now)), es);
            && |rows| < |before| && LoginStep(before, l).1 == Entered(|rows|)
            && SameBilling(before[|rows|], LoginStep(before, l).0[|rows|])
            && (es == [] ==> LoginStep(before, l).0[|rows|].plan == p.action.plan)
  {
    var bought := After(rows, Pinged(p, now));
    PingKeepsUnique(rows, p, now);
    assert bought[|rows|] == NewBuyer(p, now);
    RunsKeepUnique(bought, es);
    EmailPersists(bought, es, |rows|);
    var before := AfterAll(bought, es);
    forall i | 0 <= i < |before| && i != |rows| ensures !HasEmail(l.Email())(before[i]) {
      assert Apart(before[i], before[|rows|]);
    }
    SelectIsOne(before, HasEmail(l.Email()), |rows|);
  }

  /* ---------- Redelivery ---------- */

  lemma {:induction false} SameMatches(a: Rows, b: Rows, matches: User -> bool)
    requires |a| == |b| && forall i :: 0 <= i < |a| ==> matches(a[i]) == matches(b[i])
    ensures SelectOne(a, matches) == SelectOne(b, matches)
  {
    if a != [] {
      SameMatches(a[..|a|-1], b[..|b|-1], matches);
    }
  }

  /** Handling an acting ping makes it resolve, from then on, to the row that it wrote. */
  lemma PingResolvesToItsRow(rows: Rows, p: Ping, now: int, k: nat)
    requires p.action != Ignore && GumroadSelect(rows, p.email, p.subscriptionId) == One(k)
    ensures GumroadSelect(rows[k := Touch(rows[k], p, now)], p.email, p.subscriptionId) == One(k)
  {
    var after := rows[k := Touch(rows[k], p, now)];
    SameMatches(rows, after, HasEmailIgnoringCase(p.email));
    if p.subscriptionId != "" {
      SelectOneFinds(rows, HasSubscription(p.subscriptionId));
      if HasSubscription(p.subscriptionId)(after[k]) {
        forall i | 0 <= i < |rows| && i != k ensures !HasSubscription(p.subscriptionId)(after[i]) {
          assert after[i] == rows[i];
          assert !HasSubscription(p.subscriptionId)(rows[i]);
        }
        SelectIsOne(after, HasSubscription(p.subscriptionId), k);
      } else {
        SameMatches(rows, after, HasSubscription(p.subscriptionId));
      }
    }
  }

  lemma NewBuyerResolves(rows: Rows, p: Ping, now: int)
    requires p.action.Activate? && GumroadSelect(rows, p.email, p.subscriptionId) == Nobody
    ensures GumroadSelect(rows + [NewBuyer(p, now)], p.email, p.subscriptionId) == One(|rows|)
  {
    var after := rows + [NewBuyer(p, now)];
    SelectOneFinds(rows, HasSubscription(p.subscriptionId));
    SelectOneFinds(rows, HasEmailIgnoringCase(p.email));
    if p.subscriptionId != "" {
      forall i | 0 <= i < |after| && i != |rows| ensures !HasSubscription(p.subscriptionId)(after[i]) {
        assert !HasSubscription(p.subscriptionId)(rows[i]);
      }
      SelectIsOne(after, HasSubscription(p.subscriptionId), |rows|);
    } else {
      forall i | 0 <= i < |after| && i != |rows| ensures !HasEmailIgnoringCase(p.email)(after[i]) {
        assert !HasEmailIgnoringCase(p.email)(rows[i]);
      }
      SelectIsOne(after, HasEmailIgnoringCase(p.email), |rows|);
    }
  }

  /** Immediate redelivery changes nothing, with the one exception of an activating ping without a
      parseable sale timestamp handled at another time: there the period end moves with the clock. */
  lemma RedeliveryIsHarmlessIff(rows: Rows, p: Ping, now: int, later: int)
    requires PingStep(rows, p, now).Done?
    ensures PingStep(PingStep(rows, p, now).rows, p, later) == PingStep(rows, p, now)
            <==> !p.action.Activate? || p.action.sale.Some? || later == now
  {
    if p.action != Ignore {
      var once := PingStep(rows, p, now).rows;
      match GumroadSelect(rows, p.email, p.subscriptionId)
      case One(k) =>
        PingResolvesToItsRow(rows, p, now, k);
        assert PingStep(once, p, later) == Done(once[k := Touch(once[k], p, later)]);
        assert once[k := Touch(once[k], p, later)][k] == Touch(Touch(rows[k], p, now), p, later);
        TouchTwice(rows[k], p, now, later);
      case Nobody =>
        if p.action.Activate? {
          NewBuyerResolves(rows, p, now);
          var u := NewBuyer(p, now);
          assert PingStep(once, p, later) == Done(once[|rows| := Touch(once[|rows|], p, later)]);
          assert once[|rows| := Touch(u, p, later)][|rows|] == Touch(u, p, later);
        }
    }
  }

  /* ---------- Redelivery after anything else has happened ---------- */

  /** The event is a ping that writes row `r`. */
  predicate Writes(rows: Rows, e: Event, r: nat) {
    && e.Pinged? && e.ping.action != Ignore
    && match GumroadSelect(rows, e.ping.email, e.ping.subscriptionId)
       case One(k) => k == r
       case Nobody => e.ping.action.Activate? && r == |rows|
       case Several => false
  }

  /** The run's last ping that wrote row `r`. */
  function LastWrite(rows: Rows, es: seq<Event>, r: nat): Option<Event>
    decreases es
  {
    if es == [] then None
    else
      var rest := LastWrite(After(rows, es[0]), es[1..], r);
      if rest.Some? then rest
      else if Writes(rows, es[0], r) then Some(es[0])
      else None
  }

  /** The row shows what this ping would write on it. */
  predicate Shows(u: User, e: Event) {
    e.Pinged? && Touch(u, e.ping, e.now) == u
  }

  /** The billing of a row that no ping has written. */
  predicate Unbilled(u: User) {
    u.plan == "free" && u.subscription.None? && u.status.None? && u.periodEnd.None?
  }

  /** One step: a ping shows on the row that it writes, and nothing else moves any row's billing. */
  lemma StepBills(rows: Rows, e: Event, r: nat)
    requires r < |After(rows, e)|
    ensures if Writes(rows, e, r) then Shows(After(rows, e)[r], e)
            else if r < |rows| then SameBilling(After(rows, e)[r], rows[r])
            else Unbilled(After(rows, e)[r])
    ensures |rows| <= |After(rows, e)| <= |rows| + 1
  {
  }

  /** Whatever happens, a row's billing shows the last ping that wrote it; without one it is what it
      was, or that of a fresh account. */
  lemma {:induction false} LastWriteShows(rows: Rows, es: seq<Event>, r: nat)
    requires r < |AfterAll(rows, es)|
    ensures var u := AfterAll(rows, es)[r];
            match LastWrite(rows, es, r)
            case Some(e) => e.Pinged? && e.ping.action != Ignore && Shows(u, e)
            case None => if r < |rows| then SameBilling(u, rows[r]) else Unbilled(u)
    decreases es
  {
    if es != [] {
      var next := After(rows, es[0]);
      LastWriteShows(next, es[1..], r);
      if r < |next| {
        StepBills(rows, es[0], r);
      } else {
        StepBillsNoFurther(rows, es[0], r);
      }
    }
  }

  lemma StepBillsNoFurther(rows: Rows, e: Event, r: nat)
    requires r >= |After(rows, e)|
    ensures r >= |rows| && !Writes(rows, e, r)
  {
  }

  /** Does a ping `p` at time `later` agree with the last ping that wrote the row `u`? */
  predicate Agrees(p: Ping, later: int, last: Event, u: User) {
    && last.Pinged?
    && match p.action
       case Ignore => true
       case Revoke(_) => last.ping.action == p.action
       case Cancel(until) => last.ping.action.Cancel? && (until.None? || u.periodEnd == until)
       case Activate(plan, _, _) =>
         && last.ping.action.Activate? && last.ping.action.plan == plan
         && PeriodEnd(last.ping.action, last.now) == PeriodEnd(p.action, later)
         && (p.subscriptionId == "" || u.subscription == Some(p.subscriptionId))
  }

  lemma AgreesIffUnchanged(p: Ping, later: int, last: Event, u: User)
    requires p.action != Ignore && last.Pinged? && last.ping.action != Ignore && Shows(u, last)
    ensures Touch(u, p, later) == u <==> Agrees(p, later, last, u)
  {
  }

  lemma SamePings(u: User, v: User, p: Ping, later: int)
    requires SameBilling(u, v)
    ensures Touch(u, p, later) == u <==> Touch(v, p, later) == v
  {
  }

  lemma WritesOne(rows: Rows, p: Ping, later: int)
    requires p.action != Ignore
    ensures PingStep(rows, p, later) == Done(rows) <==>
            match GumroadSelect(rows, p.email, p.subscriptionId)
            case One(r) => Touch(rows[r], p, later) == rows[r]
            case Nobody => !p.action.Activate?
            case Several => false
  {
    match GumroadSelect(rows, p.email, p.subscriptionId)
    case One(r) =>
      assert rows[r := Touch(rows[r], p, later)][r] == Touch(rows[r], p, later);
    case Nobody =>
      if p.action.Activate? {
        assert |rows + [NewBuyer(p, later)]| == |rows| + 1;
      }
    case Several =>
  }

  /** When is a redelivery harmless, after any run at all, on any table? Exactly when it resolves to
      nobody (and provisions nobody), or to a row whose last ping agrees with it; a row that no ping
      of the run has written must have shown it from the start. The first delivery is one of the
      events of the run. */
  lemma RedeliveryAfterRunIsHarmlessIff(rows: Rows, es: seq<Event>, p: Ping, later: int)
    requires p.action != Ignore
    ensures var now := AfterAll(rows, es);
            PingStep(now, p, later) == Done(now) <==>
            match GumroadSelect(now, p.email, p.subscriptionId)
            case Nobody => !p.action.Activate?
            case Several => false
            case One(r) =>
              match LastWrite(rows, es, r)
              case Some(last) => Agrees(p, later, last, now[r])
              case None => r < |rows| && Touch(rows[r], p, later) == rows[r]
  {
    var now := AfterAll(rows, es);
    WritesOne(now, p, later);
    match GumroadSelect(now, p.email, p.subscriptionId)
    case One(r) =>
      LastWriteShows(rows, es, r);
      match LastWrite(rows, es, r) {
        case Some(last) => AgreesIffUnchanged(p, later, last, now[r]);
        case None =>
          if r < |rows| {
            SamePings(now[r], rows[r], p, later);
          }
      }
    case _ =>
  }

  /** A sale delivered again when nobody carries its subscription id any more, because a later sale
      has overwritten it, always changes the table. */
  lemma OverwrittenSaleIsNotHarmless(rows: Rows, es: seq<Event>, p: Ping, later: int)
    requires p.action.Activate? && p.subscriptionId != ""
    requires SelectOne(AfterAll(rows, es), HasSubscription(p.subscriptionId)) == Nobody
    ensures PingStep(AfterAll(rows, es), p, later) != Done(AfterAll(rows, es))
  {
    var now := AfterAll(rows, es);
    SelectOneFinds(now, HasSubscription(p.subscriptionId));
    WritesOne(now, p, later);
    if GumroadSelect(now, p.email, p.subscriptionId).One? {
      var r := GumroadSelect(now, p.email, p.subscriptionId).row;
      assert !HasSubscription(p.subscriptionId)(now[r]);
    }
  }

  /** A sale delivered again after a run whose last ping on its row was a revocation: the row stands
      revoked, and the redelivery grants the plan again. */
  lemma RevokedSaleReactivates(rows: Rows, es: seq<Event>, p: Ping, later: int, r: nat)
    requires p.action.Activate? && GumroadSelect(AfterAll(rows, es), p.email, p.subscriptionId) == One(r)
    requires var last := LastWrite(rows, es, r); last.Some? && last.value.Pinged? && last.value.ping.action.Revoke?
    ensures var now := AfterAll(rows, es);
            && now[r].plan == "free" && PingStep(now, p, later) != Done(now)
            && After(now, Pinged(p, later))[r].plan == p.action.plan != "free"
  {
    LastWriteShows(rows, es, r);
    RedeliveryAfterRunIsHarmlessIff(rows, es, p, later);
  }

  /** The run of a sale and one more acting ping with the same keys. */
  lemma SaleAndOnePing(rows: Rows, p: Ping, now: int, q: Ping, nowQ: int) returns (k: nat)
    requires p.action.Activate? && q.action != Ignore
    requires q.email == p.email && q.subscriptionId == p.subscriptionId
    requires GumroadSelect(rows, p.email, p.subscriptionId) != Several
    ensures var es := [Pinged(p, now), Pinged(q, nowQ)];
            var after := AfterAll(rows, es);
            && after == After(After(rows, Pinged(p, now)), Pinged(q, nowQ))
            && k < |after| && GumroadSelect(after, p.email, p.subscriptionId) == One(k)
            && LastWrite(rows, es, k) == Some(Pinged(q, nowQ))
            && (p.subscriptionId != "" ==> after[k].subscription == Some(p.subscriptionId))
    ensures GumroadSelect(rows, p.email, p.subscriptionId) == (if k == |rows| then Nobody else One(k))
  {
    var es := [Pinged(p, now), Pinged(q, nowQ)];
    var sold := After(rows, es[0]);
    match GumroadSelect(rows, p.email, p.subscriptionId) {
      case One(row) =>
        k := row;
        PingResolvesToItsRow(rows, p, now, k);
      case Nobody =>
        k := |rows|;
        NewBuyerResolves(rows, p, now);
    }
    PingResolvesToItsRow(sold, q, nowQ, k);
    var after := After(sold, es[1]);
    assert es[1..] == [es[1]] && es[1..][1..] == [];
    assert AfterAll(after, []) == after && AfterAll(sold, [es[1]]) == after;
    assert LastWrite(after, [], k).None? && LastWrite(sold, [es[1]], k) == Some(es[1]);
  }

  /** A timestamped sale, one more acting ping with the same keys, and the sale again: harmless
      exactly when that ping was an activation with the same plan and the same period end. */
  lemma SaleAroundOnePingIsHarmlessIff(rows: Rows, p: Ping, now: int, q: Ping, nowQ: int, later: int)
    requires p.action.Activate? && p.action.sale.Some? && q.action != Ignore
    requires q.email == p.email && q.subscriptionId == p.subscriptionId
    requires GumroadSelect(rows, p.email, p.subscriptionId) != Several
    ensures var after := After(After(rows, Pinged(p, now)), Pinged(q, nowQ));
            PingStep(after, p, later) == Done(after) <==>
            && q.action.Activate? && q.action.plan == p.action.plan
            && PeriodEnd(q.action, nowQ) == PeriodEnd(p.action, now)
  {
    var k := SaleAndOnePing(rows, p, now, q, nowQ);
    RedeliveryAfterRunIsHarmlessIff(rows, [Pinged(p, now), Pinged(q, nowQ)], p, later);
  }

  /** A sale ping delivered again after a revocation grants the plan again: only immediate
      redelivery is harmless. */
  lemma LateRedeliveryReactivates(rows: Rows, p: Ping, q: Ping, k: nat, now: int)
    requires p.action.Activate? && q.action.Revoke?
    requires q.email == p.email && q.subscriptionId == p.subscriptionId
    requires GumroadSelect(rows, p.email, p.subscriptionId) == One(k)
    ensures var revoked := After(After(rows, Pinged(p, now)), Pinged(q, now));
            && k < |revoked| && revoked[k].plan == "free"
            && k < |After(revoked, Pinged(p, now))| && After(revoked, Pinged(p, now))[k].plan == p.action.plan != "free"
  {
    var r := SaleAndOnePing(rows, p, now, q, now);
    RevokedSaleReactivates(rows, [Pinged(p, now), Pinged(q, now)], p, now, k);
  }

  lemma TouchTwice(u: User, p: Ping, now: int, later: int)
    requires p.action != Ignore
    ensures Touch(Touch(u, p, now), p, later) == Touch(u, p, now)
            <==> !p.action.Activate? || p.action.sale.Some? || later == now
  {
  }

  /** Two pings for different rows commute, unless they carry one and the same subscription id. */
  lemma PingsForDifferentRowsCommute(rows: Rows, p: Ping, now: int, q: Ping, nowQ: int, a: nat, b: nat)
    requires p.action != Ignore && q.action != Ignore && a != b
    requires GumroadSelect(rows, p.email, p.subscriptionId) == One(a)
    requires GumroadSelect(rows, q.email, q.subscriptionId) == One(b)
    requires p.subscriptionId != q.subscriptionId || p.subscriptionId == ""
    ensures var pq := PingStep(PingStep(rows, p, now).rows, q, nowQ);
            pq.Done? && pq == PingStep(PingStep(rows, q, nowQ).rows, p, now)
  {
    OtherPingResolvesAlike(rows, p, now, q, a, b);
    OtherPingResolvesAlike(rows, q, nowQ, p, b, a);
  }

  lemma OtherPingResolvesAlike(rows: Rows, p: Ping, now: int, q: Ping, a: nat, b: nat)
    requires p.action != Ignore && a != b
    requires GumroadSelect(rows, p.email, p.subscriptionId) == One(a)
    requires GumroadSelect(rows, q.email, q.subscriptionId) == One(b)
    requires p.subscriptionId != q.subscriptionId || p.subscriptionId == ""
    ensures GumroadSelect(rows[a := Touch(rows[a], p, now)], q.email, q.subscriptionId) == One(b)
  {
    var after := rows[a := Touch(rows[a], p, now)];
    SameMatches(rows, after, HasEmailIgnoringCase(q.email));
    if q.subscriptionId != "" {
      SelectOneFinds(rows, HasSubscription(q.subscriptionId));
      assert !HasSubscription(q.subscriptionId)(rows[a]);
      SameMatches(rows, after, HasSubscription(q.subscriptionId));
    }
  }
}
