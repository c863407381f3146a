/** What a ping's form fields and a login's profile do to the table, field by field: the rules that the
    two handlers implement, said without naming the functions that the handlers are made of. */
module UserRules {
  import opened Prelude
  import opened Text
  import opened UserAccounts

  /* ---------- Reading the fields ---------- */

  /** Lower-casing changes the twenty-six capital letters and nothing else. */
  lemma {:induction false} LowerAt(s: string, i: nat)
    requires i < |s|
    ensures var n := s[i] as int;
            Lower(s)[i] as int == if 65 <= n <= 90 then n + 32 else n
  {
    if i > 0 {
      LowerAt(s[1..], i - 1);
    }
  }

  /** The text mentions this word, in any mixture of cases. */
  ghost predicate Mentions(text: string, word: string) {
    exists i: nat :: MentionedAt(text, word, i)
  }

  predicate MentionedAt(text: string, word: string, i: nat) {
    i + |word| <= |text| && Lower(text[i..i+|word|]) == word
  }

  /** Neither space nor capital letter in it. */
  predicate IsWord(word: string) {
    word != "" && forall i :: 0 <= i < |word| ==> !IsSpace(word[i]) && !('A' <= word[i] <= 'Z')
  }

  lemma LowerCons(c: char, rest: string)
    ensures Lower([c] + rest) == [LowerChar(c)] + Lower(rest)
  {
    assert ([c] + rest)[1..] == rest;
  }

  lemma {:induction false} LowerAppend(a: string, b: string)
    ensures Lower(a + b) == Lower(a) + Lower(b)
  {
    if a == "" {
      assert a + b == b;
    } else {
      LowerAppend(a[1..], b);
      HeadThenRest(a, b);
      LowerCons(a[0], a[1..] + b);
      Associates([LowerChar(a[0])], Lower(a[1..]), Lower(b));
    }
  }

  lemma LowerOfThree(a: string, b: string, c: string)
    ensures Lower(a + b + c) == Lower(a) + Lower(b) + Lower(c)
  {
    LowerAppend(a + b, c);
    LowerAppend(a, b);
  }

  lemma Middle(a: string, b: string, c: string)
    ensures (a + b + c)[|a|..|a|+|b|] == b
  {
  }

  lemma Cut(s: string, i: nat, n: nat)
    requires i + n <= |s|
    ensures s == s[..i] + s[i..i+n] + s[i+n..]
  {
  }

  lemma LowerOfPart(s: string, i: nat, n: nat)
    requires i + n <= |s|
    ensures Lower(s)[i..i+n] == Lower(s[i..i+n])
  {
    Cut(s, i, n);
    LowerOfThree(s[..i], s[i..i+n], s[i+n..]);
    Middle(Lower(s[..i]), Lower(s[i..i+n]), Lower(s[i+n..]));
  }

  /** What is no space is not in the blank around a text. */
  lemma InkIsInside(lead: string, core: string, trail: string, j: nat)
    requires Blank(lead) && Blank(trail) && j < |lead + core + trail|
    ensures IsSpace((lead + core + trail)[j]) || |lead| <= j < |lead| + |core|
  {
  }

  lemma WordHasInk(text: string, word: string, i: nat, k: nat)
    requires IsWord(word) && MentionedAt(text, word, i) && k < |word|
    ensures !IsSpace(text[i+k])
  {
    LowerAt(text[i..i+|word|], k);
    assert !IsSpace(word[k]);
  }

  lemma WordIsInside(lead: string, core: string, trail: string, word: string, i: nat)
    requires Blank(lead) && Blank(trail) && IsWord(word) && MentionedAt(lead + core + trail, word, i)
    ensures |lead| <= i && MentionedAt(core, word, i - |lead|)
  {
    var s := lead + core + trail;
    WordHasInk(s, word, i, 0);
    WordHasInk(s, word, i, |word| - 1);
    InkIsInside(lead, core, trail, i);
    InkIsInside(lead, core, trail, i + |word| - 1);
    assert s[i..i+|word|] == core[i-|lead|..i-|lead|+|word|];
  }

  /** The webhook's test on the trimmed, lower-cased tier is whether the tier mentions the word. */
  lemma ContainsIffMentions(text: string, word: string)
    requires IsWord(word)
    ensures Contains(Lower(Strip(text)), word) <==> Mentions(text, word)
  {
    var lead := DropSpacesSplits(text);
    var trail := DropTrailingSplits(DropSpaces(text));
    assert text == lead + Strip(text) + trail;
    InsideMentions(lead, Strip(text), trail, word);
    LowerContains(Strip(text), word);
  }

  lemma LowerContains(core: string, word: string)
    ensures Contains(Lower(core), word) <==> Mentions(core, word)
  {
    if Mentions(core, word) {
      var i: nat :| MentionedAt(core, word, i);
      LowerOfPart(core, i, |word|);
      assert OccursAt(Lower(core), word, i);
    }
    if Contains(Lower(core), word) {
      var i :| 0 <= i <= |Lower(core)| && OccursAt(Lower(core), word, i);
      LowerOfPart(core, i, |word|);
      assert MentionedAt(core, word, i);
    }
  }

  lemma InsideMentions(lead: string, core: string, trail: string, word: string)
    requires Blank(lead) && Blank(trail) && IsWord(word)
    ensures Mentions(lead + core + trail, word) <==> Mentions(core, word)
  {
    var s := lead + core + trail;
    if Mentions(s, word) {
      var i: nat :| MentionedAt(s, word, i);
      WordIsInside(lead, core, trail, word, i);
    }
    if Mentions(core, word) {
      var i: nat :| MentionedAt(core, word, i);
      assert s[|lead|+i..|lead|+i+|word|] == core[i..i+|word|];
      assert MentionedAt(s, word, |lead| + i);
    }
  }

  /* ---------- The row that a ping finds ---------- */

  /** Exactly row `k` satisfies this. */
  ghost predicate Only(rows: Rows, k: nat, matches: User -> bool) {
    k < |rows| && matches(rows[k]) && forall i :: 0 <= i < |rows| && i != k ==> !matches(rows[i])
  }

  /** No row satisfies this. */
  ghost predicate Nowhere(rows: Rows, matches: User -> bool) {
    forall i :: 0 <= i < |rows| ==> !matches(rows[i])
  }

  /** The row found by a ping: the one with its subscription id; failing that, the one with its email,
      in whatever spelling. */
  ghost predicate Finds(rows: Rows, email: string, subscriptionId: string, k: nat) {
    || (subscriptionId != "" && Only(rows, k, (u: User) => u.subscription == Some(subscriptionId)))
    || (&& (subscriptionId != "" ==> Nowhere(rows, (u: User) => u.subscription == Some(subscriptionId)))
        && email != "" && Only(rows, k, (u: User) => Lower(u.email) == email))
  }

  ghost predicate FindsNobody(rows: Rows, email: string, subscriptionId: string) {
    && (subscriptionId != "" ==> Nowhere(rows, (u: User) => u.subscription == Some(subscriptionId)))
    && (email != "" ==> Nowhere(rows, (u: User) => Lower(u.email) == email))
  }

  lemma OnlyIsSelected(rows: Rows, k: nat, spec: User -> bool, matches: User -> bool)
    requires Only(rows, k, spec) && forall u: User :: spec(u) == matches(u)
    ensures SelectOne(rows, matches) == One(k)
  {
    SelectIsOne(rows, matches, k);
  }

  lemma NoneIsSelected(rows: Rows, spec: User -> bool, matches: User -> bool)
    requires Nowhere(rows, spec) && forall u: User :: spec(u) == matches(u)
    ensures SelectOne(rows, matches) == Nobody
  {
    SelectIsNobody(rows, matches);
  }

  /** The lookup finds what the rule above says; in every other case it is ambiguous, and fails. */
  lemma LookupRule(rows: Rows, email: string, subscriptionId: string)
    ensures match GumroadSelect(rows, email, subscriptionId)
            case One(k) => Finds(rows, email, subscriptionId, k)
            case Nobody => FindsNobody(rows, email, subscriptionId)
            case Several => !FindsNobody(rows, email, subscriptionId)
                            && forall k: nat :: !Finds(rows, email, subscriptionId, k)
  {
    var bySubscription, byEmail := HasSubscription(subscriptionId), HasEmailIgnoringCase(email);
    SelectOneFinds(rows, bySubscription);
    SelectOneFinds(rows, byEmail);
    match GumroadSelect(rows, email, subscriptionId)
    case One(k) =>
    case Nobody =>
    case Several =>
      if subscriptionId != "" && SelectOne(rows, bySubscription) == Several {
        var i, j :| 0 <= i < j < |rows| && bySubscription(rows[i]) && bySubscription(rows[j]);
      } else {
        var i, j :| 0 <= i < j < |rows| && byEmail(rows[i]) && byEmail(rows[j]);
      }
  }

  /* ---------- What a ping does, by its form ---------- */

  /** The webhook on this form: how it leaves the table. */
  function Webhook(rows: Rows, f: Form, now: int): Outcome {
    PingStep(rows, ReadForm(f), now)
  }

  /** Whose ping it is: the purchase field, or the lifecycle one when that is empty, trimmed and in
      lower case. */
  function EmailOf(f: Form): string {
    Lower(Strip(if f.email != "" then f.email else f.userEmail))
  }

  /** A form field that says true, in whatever case. */
  predicate Set(field: string) {
    Lower(field) == "true"
  }

  /** The money went back, a dispute is open, or the subscription has ended. */
  predicate Revokes(f: Form) {
    Set(f.refunded) || (Set(f.disputed) && !Set(f.disputeWon)) || f.endedReason != "" || f.endedAt != ""
  }

  /** A test ping never touches the table. */
  lemma TestPingIsIgnored(rows: Rows, f: Form, now: int)
    requires Set(f.test)
    ensures Webhook(rows, f, now) == Done(rows)
  {
  }

  /** An ambiguous lookup raises, whatever a live ping asks for. */
  lemma AmbiguousPingFails(rows: Rows, f: Form, now: int)
    requires !Set(f.test)
    requires Revokes(f) || Set(f.cancelled) || (EmailOf(f) != "" && exists plan :: Buys(f, plan))
    requires !FindsNobody(rows, EmailOf(f), f.subscriptionId)
    requires forall k: nat :: !Finds(rows, EmailOf(f), f.subscriptionId, k)
    ensures Webhook(rows, f, now) == Failed
  {
    ContainsIffMentions(f.tier, "max");
    ContainsIffMentions(f.tier, "pro");
    LookupRule(rows, EmailOf(f), f.subscriptionId);
  }

  lemma FoundRow(rows: Rows, f: Form, k: nat)
    requires Finds(rows, EmailOf(f), f.subscriptionId, k)
    ensures GumroadSelect(rows, EmailOf(f), f.subscriptionId) == One(k)
  {
    LookupRule(rows, EmailOf(f), f.subscriptionId);
  }

  lemma FoundNobody(rows: Rows, f: Form)
    requires FindsNobody(rows, EmailOf(f), f.subscriptionId)
    ensures GumroadSelect(rows, EmailOf(f), f.subscriptionId) == Nobody
  {
    LookupRule(rows, EmailOf(f), f.subscriptionId);
  }

  /** A hard revocation ends the plan of the row it finds, and says why: refunded before disputed
      before ended. Nothing else of the row changes, and nobody found means nothing done. */
  lemma RevocationRule(rows: Rows, f: Form, now: int)
    requires !Set(f.test) && Revokes(f)
    ensures FindsNobody(rows, EmailOf(f), f.subscriptionId) ==> Webhook(rows, f, now) == Done(rows)
    ensures forall k: nat | Finds(rows, EmailOf(f), f.subscriptionId, k) ::
              Webhook(rows, f, now) ==
              Done(rows[k := rows[k].(plan := "free",
                                      status := Some(if Set(f.refunded) then "refunded"
                                                     else if Set(f.disputed) then "disputed"
                                                     else "ended"))])
  {
    if FindsNobody(rows, EmailOf(f), f.subscriptionId) {
      FoundNobody(rows, f);
    }
    forall k: nat | Finds(rows, EmailOf(f), f.subscriptionId, k)
      ensures GumroadSelect(rows, EmailOf(f), f.subscriptionId) == One(k)
    {
      FoundRow(rows, f, k);
    }
  }

  /** A cancellation keeps the plan, and moves the period's end only when it says to when. */
  lemma CancellationRule(rows: Rows, f: Form, now: int)
    requires !Set(f.test) && !Revokes(f) && Set(f.cancelled)
    ensures FindsNobody(rows, EmailOf(f), f.subscriptionId) ==> Webhook(rows, f, now) == Done(rows)
    ensures forall k: nat | Finds(rows, EmailOf(f), f.subscriptionId, k) ::
              var u := rows[k].(status := Some("cancelled"));
              Webhook(rows, f, now) ==
              Done(rows[k := if f.cancelledAt.Some? then u.(periodEnd := f.cancelledAt) else u])
  {
    if FindsNobody(rows, EmailOf(f), f.subscriptionId) {
      FoundNobody(rows, f);
    }
    forall k: nat | Finds(rows, EmailOf(f), f.subscriptionId, k)
      ensures GumroadSelect(rows, EmailOf(f), f.subscriptionId) == One(k)
    {
      FoundRow(rows, f, k);
    }
  }

  /** A sale for nobody, or for neither a known tier nor a known price, is no sale. */
  lemma NoSaleRule(rows: Rows, f: Form, now: int)
    requires !Set(f.test) && !Revokes(f) && !Set(f.cancelled)
    requires EmailOf(f) == ""
             || (!Mentions(f.tier, "max") && !Mentions(f.tier, "pro") && f.priceCents !in {4900, 46800, 1900, 18000})
    ensures Webhook(rows, f, now) == Done(rows)
  {
    ContainsIffMentions(f.tier, "max");
    ContainsIffMentions(f.tier, "pro");
  }

  /** What a sale buys: the tier's name decides, Max before Pro, and the price where the name is silent. */
  ghost predicate Buys(f: Form, plan: string) {
    if Mentions(f.tier, "max") then plan == "max"
    else if Mentions(f.tier, "pro") then plan == "pro"
    else (plan == "max" && f.priceCents in {4900, 46800}) || (plan == "pro" && f.priceCents in {1900, 18000})
  }

  /** How many days a sale pays for. */
  ghost predicate Lasts(f: Form, days: int) {
    var recurrence := Lower(Strip(f.recurrence));
    && (recurrence == "quarterly" ==> days == 93)
    && (recurrence == "biannually" ==> days == 186)
    && (recurrence == "yearly" ==> days == 366)
    && (recurrence == "every_two_years" ==> days == 731)
    && (recurrence !in {"quarterly", "biannually", "yearly", "every_two_years"} ==> days == 31)
  }

  /** When what a sale pays for ends: counted from the sale on, or from now without a time of sale. */
  function PaidUntil(f: Form, now: int, days: int): int {
    (if f.saleTimestamp.Some? then f.saleTimestamp.value else now) + days * 24 * 60 * 60
  }

  /** A sale gives the row it finds the plan it buys, for the days it pays for, and records its
      subscription id where it has one. */
  lemma SaleRule(rows: Rows, f: Form, now: int, plan: string, days: int, k: nat)
    requires !Set(f.test) && !Revokes(f) && !Set(f.cancelled)
    requires EmailOf(f) != "" && Buys(f, plan) && Lasts(f, days)
    requires Finds(rows, EmailOf(f), f.subscriptionId, k)
    ensures var u := rows[k].(plan := plan, status := Some("active"), periodEnd := Some(PaidUntil(f, now, days)));
            Webhook(rows, f, now) ==
            Done(rows[k := if f.subscriptionId == "" then u else u.(subscription := Some(f.subscriptionId))])
  {
    SaleIsRead(f, plan, days);
    FoundRow(rows, f, k);
  }

  /** A sale that finds nobody adds a row with the ping's email and no Clerk id. */
  lemma NewBuyerRule(rows: Rows, f: Form, now: int, plan: string, days: int)
    requires !Set(f.test) && !Revokes(f) && !Set(f.cancelled)
    requires EmailOf(f) != "" && Buys(f, plan) && Lasts(f, days)
    requires FindsNobody(rows, EmailOf(f), f.subscriptionId)
    ensures var subscription := if f.subscriptionId == "" then None else Some(f.subscriptionId);
            Webhook(rows, f, now) ==
            Done(rows + [User(EmailOf(f), None, plan, subscription, Some("active"),
                              Some(PaidUntil(f, now, days)), None, None)])
  {
    SaleIsRead(f, plan, days);
    FoundNobody(rows, f);
  }

  lemma SaleIsRead(f: Form, plan: string, days: int)
    requires !Set(f.test) && !Revokes(f) && !Set(f.cancelled)
    requires EmailOf(f) != "" && Buys(f, plan) && Lasts(f, days)
    ensures ReadForm(f) == Request(EmailOf(f), f.subscriptionId, Activate(plan, days, f.saleTimestamp))
  {
    ContainsIffMentions(f.tier, "max");
    ContainsIffMentions(f.tier, "pro");
  }

  /* ---------- What a login does, by what Clerk says ---------- */

  /** A stand-in address, as sign-ups without a known email get it. */
  predicate StandIn(email: string) {
    |email| >= 11 && email[|email|-11..] == "@clerk.user"
  }

  /** A login for a known Clerk id enters that row. It writes the profile's email exactly over a
      stand-in address, when there is one and no row holds it yet; nothing else changes. */
  lemma KnownLoginRule(rows: Rows, l: Login, k: nat)
    requires l.clerkId != "" && Only(rows, k, (u: User) => u.clerkId == Some(l.clerkId))
    ensures LoginStep(rows, l).1 == Entered(k)
    ensures var heals := StandIn(rows[k].email) && l.profileEmail != ""
                         && forall i :: 0 <= i < |rows| ==> rows[i].email != l.profileEmail;
            LoginStep(rows, l).0 == if heals then rows[k := rows[k].(email := l.profileEmail)] else rows
  {
    OnlyIsSelected(rows, k, (u: User) => u.clerkId == Some(l.clerkId), HasClerkId(l.clerkId));
    var m := HasEmail(l.profileEmail);
    SelectOneFinds(rows, m);
    if forall i :: 0 <= i < |rows| ==> rows[i].email != l.profileEmail {
      SelectIsNobody(rows, m);
    } else {
      var i :| 0 <= i < |rows| && rows[i].email == l.profileEmail;
      assert m(rows[i]);
    }
  }

  /** The email that a first login goes by: the token's, else the profile's, else a stand-in. */
  function LoginEmail(l: Login): string {
    if l.claimEmail != "" then l.claimEmail
    else if l.profileEmail != "" then l.profileEmail
    else l.clerkId + "@clerk.user"
  }

  /** A first login with the email of one row links that row: it takes the Clerk id, and of avatar and
      name what it lacks. */
  lemma LinkingLoginRule(rows: Rows, l: Login, k: nat)
    requires l.clerkId != "" && Nowhere(rows, (u: User) => u.clerkId == Some(l.clerkId))
    requires Only(rows, k, (u: User) => u.email == LoginEmail(l))
    ensures var u := rows[k];
            LoginStep(rows, l) ==
            (rows[k := User(u.email, Some(l.clerkId), u.plan, u.subscription, u.status, u.periodEnd,
                            if u.avatar.Some? then u.avatar else l.avatar,
                            if u.fullName.Some? then u.fullName else l.fullName)],
             Entered(k))
  {
    NoneIsSelected(rows, (u: User) => u.clerkId == Some(l.clerkId), HasClerkId(l.clerkId));
    OnlyIsSelected(rows, k, (u: User) => u.email == LoginEmail(l), HasEmail(l.Email()));
  }

  /** A first login with an email of no row opens a free account, where sign-up is allowed. */
  lemma NewLoginRule(rows: Rows, l: Login)
    requires l.clerkId != "" && Nowhere(rows, (u: User) => u.clerkId == Some(l.clerkId))
    requires Nowhere(rows, (u: User) => u.email == LoginEmail(l))
    ensures LoginStep(rows, l) ==
            if l.allowed
            then (rows + [User(LoginEmail(l), Some(l.clerkId), "free", None, None, None, l.avatar, l.fullName)],
                  Entered(|rows|))
            else (rows, Forbidden)
  {
    NoneIsSelected(rows, (u: User) => u.clerkId == Some(l.clerkId), HasClerkId(l.clerkId));
    NoneIsSelected(rows, (u: User) => u.email == LoginEmail(l), HasEmail(l.Email()));
  }

  /** In every remaining case nothing is written: a token without a subject is refused, and two rows
      with the Clerk id, or none and two with the email, make the lookup raise. */
  lemma OtherLoginsChangeNothing(rows: Rows, l: Login, a: nat, b: nat)
    requires l.clerkId == "" || a < b < |rows|
    ensures l.clerkId == "" ==> LoginStep(rows, l) == (rows, Unauthorized)
    ensures l.clerkId != "" && rows[a].clerkId == rows[b].clerkId == Some(l.clerkId) ==>
              LoginStep(rows, l) == (rows, Crashed)
    ensures l.clerkId != "" && Nowhere(rows, (u: User) => u.clerkId == Some(l.clerkId))
            && rows[a].email == rows[b].email == LoginEmail(l) ==>
              LoginStep(rows, l) == (rows, Crashed)
  {
    if l.clerkId != "" {
      var byId, byEmail := HasClerkId(l.clerkId), HasEmail(l.Email());
      SelectOneFinds(rows, byId);
      SelectOneFinds(rows, byEmail);
      assert byId(rows[a]) <==> rows[a].clerkId == Some(l.clerkId);
      assert byId(rows[b]) <==> rows[b].clerkId == Some(l.clerkId);
      assert byEmail(rows[a]) <==> rows[a].email == l.Email();
      assert byEmail(rows[b]) <==> rows[b].email == l.Email();
    }
  }
}
