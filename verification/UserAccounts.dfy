/** The users table under its two writers: Gumroad pings, which look a row up by subscription id and
    then by email, and Clerk logins, which look it up by Clerk id and then by email. */
module UserAccounts {
  import opened Prelude
  import opened Text

  /* ---------- Strings, as the two handlers normalise them ---------- */

  function LowerChar(c: char): char {
    if 'A' <= c <= 'Z' then c + 32 as char else c
  }

  function Lower(s: string): (r: string)
    ensures |r| == |s|
  {
    if s == "" then "" else [LowerChar(s[0])] + Lower(s[1..])
  }

  lemma {:induction false} LowerTwice(s: string)
    ensures Lower(Lower(s)) == Lower(s)
  {
    if s != "" {
      LowerTwice(s[1..]);
      assert Lower(s)[1..] == Lower(s[1..]);
    }
  }

  predicate EndsWith(s: string, suffix: string) {
    |suffix| <= |s| && s[|s|-|suffix|..] == suffix
  }

  /** Python's `a or b` on text fields, where a missing field is the empty string. */
  function Or(a: string, b: string): string {
    if a != "" then a else b
  }

  /* ---------- The table ---------- */

  datatype User = User(
    email: string,
    clerkId: Option<string>,
    plan: string,
    subscription: Option<string>,
    status: Option<string>,
    periodEnd: Option<int>,
    avatar: Option<string>,
    fullName: Option<string>)

  /** Rows are never deleted here, so a row's position identifies it. */
  type Rows = seq<User>

  datatype Lookup = Nobody | One(row: nat) | Several

  /** `scalar_one_or_none`, where several matches raise. */
  function SelectOne(rows: Rows, matches: User -> bool): (r: Lookup)
    ensures r.One? ==> r.row < |rows| && matches(rows[r.row])
  {
    if rows == [] then Nobody
    else
      var last := |rows| - 1;
      var rest := SelectOne(rows[..last], matches);
      if !matches(rows[last]) then rest
      else if rest == Nobody then One(last)
      else Several
  }

  lemma {:induction false} SelectOneFinds(rows: Rows, matches: User -> bool)
    ensures match SelectOne(rows, matches)
            case Nobody => forall i :: 0 <= i < |rows| ==> !matches(rows[i])
            case One(k) => k < |rows| && matches(rows[k]) && forall i :: 0 <= i < |rows| && i != k ==> !matches(rows[i])
            case Several => exists i, j :: 0 <= i < j < |rows| && matches(rows[i]) && matches(rows[j])
  {
    if rows != [] {
      var last := |rows| - 1;
      SelectOneFinds(rows[..last], matches);
      if matches(rows[last]) {
        match SelectOne(rows[..last], matches)
        case Nobody =>
        case One(k) => assert matches(rows[k]);
        case Several =>
          var i, j :| 0 <= i < j < last && matches(rows[..last][i]) && matches(rows[..last][j]);
          assert matches(rows[i]) && matches(rows[j]);
      }
    }
  }

  /** A lookup with at most one match is decided by that match. */
  lemma SelectIsOne(rows: Rows, matches: User -> bool, k: nat)
    requires k < |rows| && matches(rows[k])
    requires forall i :: 0 <= i < |rows| && i != k ==> !matches(rows[i])
    ensures SelectOne(rows, matches) == One(k)
  {
    SelectOneFinds(rows, matches);
  }

  lemma SelectIsNobody(rows: Rows, matches: User -> bool)
    requires forall i :: 0 <= i < |rows| ==> !matches(rows[i])
    ensures SelectOne(rows, matches) == Nobody
  {
    SelectOneFinds(rows, matches);
  }

  function HasSubscription(id: string): User -> bool { (u: User) => u.subscription == Some(id) }
  function HasEmailIgnoringCase(email: string): User -> bool { (u: User) => Lower(u.email) == email }
  function HasEmail(email: string): User -> bool { (u: User) => u.email == email }
  function HasClerkId(id: string): User -> bool { (u: User) => u.clerkId == Some(id) }

  /* ---------- Gumroad pings ---------- */

  /** A ping's form fields; an absent field is "". Timestamps and the price are given as the
      handlers' parsers deliver them. */
  datatype Form = Form(
    email: string, userEmail: string, subscriptionId: string,
    test: string, refunded: string, disputed: string, disputeWon: string, cancelled: string,
    endedReason: string, endedAt: string,
    tier: string, priceCents: int, recurrence: string,
    saleTimestamp: Option<int>, cancelledAt: Option<int>)

  /** What a ping asks for. `sale` is the sale's own timestamp, where it has a parseable one. */
  datatype Action =
    | Ignore
    | Revoke(status: string)
    | Cancel(until: Option<int>)
    | Activate(plan: string, days: int, sale: Option<int>)

  datatype Request = Request(email: string, subscriptionId: string, action: Action)

  /** A form as the webhook understands it: the email in lower case, a plan that it maps, and one of
      its own three words for a revocation. */
  type Ping = p: Request | Lower(p.email) == p.email
                           && (p.action.Activate? ==> p.email != "" && p.action.plan != "free")
                           && (p.action.Revoke? ==> p.action.status in {"refunded", "disputed", "ended"})
    witness Request("", "", Ignore)

  function ReadForm(f: Form): Ping {
    LowerTwice(Strip(Or(f.email, f.userEmail)));
    Request(Lower(Strip(Or(f.email, f.userEmail))), f.subscriptionId, ReadAction(f))
  }

  /** The webhook's branches, in its order. */
  function ReadAction(f: Form): (r: Action)
    ensures r.Activate? ==> Lower(Strip(Or(f.email, f.userEmail))) != "" && r.plan != "free"
    ensures r.Revoke? ==> r.status in {"refunded", "disputed", "ended"}
  {
    var refunded, disputed := IsTrue(f.refunded), IsTrue(f.disputed);
    var hardRevoke :=
      refunded || (disputed && !IsTrue(f.disputeWon)) || f.endedReason != "" || f.endedAt != "";
    var plan := TierToPlan(f.tier, f.priceCents);
    if IsTrue(f.test) then Ignore
    else if hardRevoke then Revoke(if refunded then "refunded" else if disputed then "disputed" else "ended")
    else if IsTrue(f.cancelled) then Cancel(f.cancelledAt)
    else if Lower(Strip(Or(f.email, f.userEmail))) == "" || plan == "free" then Ignore
    else Activate(plan, PeriodDays(f.recurrence), f.saleTimestamp)
  }

  predicate IsTrue(field: string) { Lower(field) == "true" }

  function TierToPlan(tier: string, priceCents: int): string {
    var name := Lower(Strip(tier));
    if Contains(name, "max") then "max"
    else if Contains(name, "pro") then "pro"
    else if priceCents == 4900 || priceCents == 46800 then "max"
    else if priceCents == 1900 || priceCents == 18000 then "pro"
    else "free"
  }

  const DAY := 86400

  function PeriodDays(recurrence: string): int {
    var r := Lower(Strip(recurrence));
    if r == "quarterly" then 93
    else if r == "biannually" then 186
    else if r == "yearly" then 366
    else if r == "every_two_years" then 731
    else 31
  }

  function PeriodEnd(a: Action, now: int): int
    requires a.Activate?
  {
    (if a.sale.Some? then a.sale.value else now) + a.days * DAY
  }

  /** The subscription id first, then the email ignoring case. */
  function GumroadSelect(rows: Rows, email: string, subscriptionId: string): (r: Lookup)
    ensures r.One? ==> r.row < |rows|
  {
    var bySubscription := if subscriptionId == "" then Nobody else SelectOne(rows, HasSubscription(subscriptionId));
    if bySubscription != Nobody then bySubscription
    else if email == "" then Nobody
    else SelectOne(rows, HasEmailIgnoringCase(email))
  }

  /** How a step leaves the table: the rows, or an exception which leaves them as they were. */
  datatype Outcome = Done(rows: Rows) | Failed

  /** What a ping does to the row that it resolves to. */
  function Touch(u: User, p: Ping, now: int): User {
    match p.action
    case Ignore => u
    case Revoke(status) => u.(plan := "free", status := Some(status))
    case Cancel(until) =>
      u.(status := Some("cancelled"), periodEnd := if until.Some? then until else u.periodEnd)
    case Activate(plan, _, _) =>
      u.(plan := plan, status := Some("active"), periodEnd := Some(PeriodEnd(p.action, now)),
         subscription := if p.subscriptionId != "" then Some(p.subscriptionId) else u.subscription)
  }

  function NewBuyer(p: Ping, now: int): User
    requires p.action.Activate?
  {
    User(p.email, None, p.action.plan, if p.subscriptionId != "" then Some(p.subscriptionId) else None,
         Some("active"), Some(PeriodEnd(p.action, now)), None, None)
  }

  /** `gumroad_webhook` past its token and seller checks, as a function of the table. */
  function PingStep(rows: Rows, p: Ping, now: int): Outcome {
    if p.action == Ignore then Done(rows)
    else
      match GumroadSelect(rows, p.email, p.subscriptionId)
      case Several => Failed
      case One(k) => Done(rows[k := Touch(rows[k], p, now)])
      case Nobody => Done(if p.action.Activate? then rows + [NewBuyer(p, now)] else rows)
  }

  /* ---------- Clerk logins ---------- */

  /** A verified token's claims, the profile Clerk returned, and the two settings that matter. */
  datatype Login = Login(
    clerkId: string, claimEmail: string, profileEmail: string,
    avatar: Option<string>, fullName: Option<string>, allowed: bool)
  {
    function Email(): string {
      Or(Or(claimEmail, profileEmail), clerkId + "@clerk.user")
    }
  }

  datatype LoginResult = Entered(row: nat) | Unauthorized | Forbidden | Crashed

  function Relinked(u: User, l: Login): User {
    u.(clerkId := Some(l.clerkId),
       avatar := if u.avatar.None? then l.avatar else u.avatar,
       fullName := if u.fullName.None? then l.fullName else u.fullName)
  }

  function NewAccount(l: Login): User {
    User(l.Email(), Some(l.clerkId), "free", None, None, None, l.avatar, l.fullName)
  }

  predicate Fabricated(email: string) { EndsWith(email, "@clerk.user") }

  /** The self-heal of a fabricated email, which a unique-constraint clash leaves undone. */
  function Healed(rows: Rows, k: nat, profileEmail: string): Rows
    requires k < |rows|
  {
    if !Fabricated(rows[k].email) || profileEmail == "" || profileEmail == rows[k].email then rows
    else if SelectOne(rows, HasEmail(profileEmail)) != Nobody then rows
    else rows[k := rows[k].(email := profileEmail)]
  }

  /** The Clerk branch of `get_current_user`, as a function of the table. */
  function LoginStep(rows: Rows, l: Login): (Rows, LoginResult) {
    if l.clerkId == "" then (rows, Unauthorized)
    else
      match SelectOne(rows, HasClerkId(l.clerkId))
      case Several => (rows, Crashed)
      case One(k) => (Healed(rows, k, l.profileEmail), Entered(k))
      case Nobody =>
        match SelectOne(rows, HasEmail(l.Email()))
        case Several => (rows, Crashed)
        case One(k) => (rows[k := Relinked(rows[k], l)], Entered(k))
        case Nobody =>
          if l.allowed then (rows + [NewAccount(l)], Entered(|rows|)) else (rows, Forbidden)
  }

  /* ---------- The handlers, writing the table ---------- */

  class UserTable {
    var rows: Rows

    constructor (rows: Rows)
      ensures this.rows == rows
    {
      this.rows := rows;
    }

    /** The webhook; `ok` is false when a lookup raised, and then nothing was written. */
    method GumroadWebhook(form: Form, now: int) returns (ok: bool)
      modifies this
      ensures PingStep(old(rows), ReadForm(form), now) == if ok then Done(rows) else Failed
      ensures !ok ==> rows == old(rows)
    {
      ok := HandlePing(ReadForm(form), now);
    }

    method HandlePing(p: Ping, now: int) returns (ok: bool)
      modifies this
      ensures PingStep(old(rows), p, now) == if ok then Done(rows) else Failed
      ensures !ok ==> rows == old(rows)
    {
      if p.action == Ignore {
        return true;
      }
      var found := GumroadSelect(rows, p.email, p.subscriptionId);
      if found == Several {
        return false;
      }
      match p.action {
        case Ignore =>
        case Revoke(status) =>
          if found.One? {
            rows := rows[found.row := rows[found.row].(plan := "free", status := Some(status))];
          }
        case Cancel(until) =>
          if found.One? {
            var u := rows[found.row].(status := Some("cancelled"));
            if until.Some? {
              u := u.(periodEnd := until);
            }
            rows := rows[found.row := u];
          }
        case Activate(plan, days, sale) =>
          var start := if sale.Some? then sale.value else now;
          var end := start + days * DAY;
          if found == Nobody {
            rows := rows + [User(p.email, None, plan, if p.subscriptionId != "" then Some(p.subscriptionId) else None,
                                 Some("active"), Some(end), None, None)];
          } else {
            var u := rows[found.row].(plan := plan, status := Some("active"), periodEnd := Some(end));
            if p.subscriptionId != "" {
              u := u.(subscription := Some(p.subscriptionId));
            }
            rows := rows[found.row := u];
          }
      }
      return true;
    }

    /** The Clerk branch of the login dependency. */
    method CurrentUser(l: Login) returns (result: LoginResult)
      modifies this
      ensures (rows, result) == LoginStep(old(rows), l)
    {
      if l.clerkId == "" {
        return Unauthorized;
      }
      var found := SelectOne(rows, HasClerkId(l.clerkId));
      if found == Several {
        return Crashed;
      }
      if found.One? {
        var k := found.row;
        if Fabricated(rows[k].email) && l.profileEmail != "" && l.profileEmail != rows[k].email {
          var clash := SelectOne(rows, HasEmail(l.profileEmail));
          if clash == Nobody {
            rows := rows[k := rows[k].(email := l.profileEmail)];
          }
        }
        return Entered(k);
      }
      var email := l.Email();
      var sameEmail := SelectOne(rows, HasEmail(email));
      if sameEmail == Several {
        return Crashed;
      }
      if sameEmail.One? {
        var u := rows[sameEmail.row].(clerkId := Some(l.clerkId));
        if l.avatar.Some? && u.avatar.None? {
          u := u.(avatar := l.avatar);
        }
        if l.fullName.Some? && u.fullName.None? {
          u := u.(fullName := l.fullName);
        }
        rows := rows[sameEmail.row := u];
        return Entered(sameEmail.row);
      }
      if !l.allowed {
        return Forbidden;
      }
      rows := rows + [User(email, Some(l.clerkId), "free", None, None, None, l.avatar, l.fullName)];
      return Entered(|rows| - 1);
    }
  }
}
