# Verified models of get-beam's stateful protocols

This project models the parts of the get-beam API whose correctness depends on more than one
function body: the Redis protocol of the aggregation repair sweep, the two ASGI middlewares that
touch request and response streams, the users table under its two writers, the engagement-fact and
credit-ledger tables, campaign status and dispatch, and the text functions around LLM prompts.
Everything is proved by the Dafny 4.11 verifier:

    dafny verify dfyconfig.toml

Code that the repository writes as updates in place is modelled by classes and loops
(`SweepJob.Cluster`, `BodyGuard.Guard`, `RequestLog.Connection`, `UserAccounts.UserTable`,
`EngageOutcomes.OutcomeTable`, `CoopLedger.Coop`, `CampaignStatus.Campaign`,
`CampaignDispatch.Mailroom`), each method proved against a specification function or a protocol;
the promises are then lemmas about those functions and protocols. Where other containers, loops or
requests run at the same time, `Others` stands for all of them and may do anything that the protocol
lets them. What the outside world decides (whether a Redis call fails, what a recompute counts, whether
a mail is delivered, which lots fail to expire) is a parameter, so that a contract can say what the
code makes of it.

| file | models |
|---|---|
| SweepProtocol.dfy, SweepJob.dfy | the debounce key and yield marker shared by sweeps and ingest triggers; the sweep of one site and the two-pass job |
| Asgi.dfy, BodyGuard.dfy, RequestLog.dfy | deterministic applications over ASGI, the ingest body guard, the request/response capture |
| UserAccounts.dfy, UserRules.dfy, UserLaws.dfy | Gumroad pings and Clerk logins on the users table: the handlers, what each form and login does, and what holds over whole runs |
| EngageOutcomes.dfy | `record_outcome` and its partial unique index |
| CoopLedger.dfy | contribution events, credit lots, the derived balance, the expiry sweep |
| CampaignStatus.dfy, CampaignDispatch.dfy | the campaign endpoints with stale reads; claim-before-dispatch |
| Text.dfy, Json.dfy, PromptSafety.dfy, ExtractJson.dfy | text functions, `json.dumps`/`json.loads`, fencing untrusted data, reading a model's answer |

## Where the code and its comments disagree

The models follow the code. Each of these is a lemma with the input or run that shows it, next to the
exact condition under which the promise does hold.

- The comment in `_sweep_one_site` says that no new ingest run may take the key while the yield marker
  is set. The trigger reads the marker and takes the key in two Redis calls, so one that read it just
  before it was set still takes the key and the retry can lose (`LateTriggerBeatsRetry`). The retry is
  certain to win exactly when no trigger stood between its two calls
  (`RetryWinsIffNoTriggerInFlight`).
- The sweep skips a site on a degraded Redis so that its full recompute never races an incremental
  ingest run; the ingest path falls open on a degraded Redis and joins a running recompute anyway
  (`OverlapsHappen`). That, or a run that outlasts the debounce TTL, is the only way to overlap
  (`FullRecomputeOverlapsOnlyIf`).
- The capture middleware reads ahead before the application starts. A client that stalls in mid-body
  gets no answer even from an application that never reads; the middleware is invisible exactly when
  the request arrives (`InvisibleIffRequestArrives`).
- Logins compare emails case-sensitively, pings ignore case. A login keeps emails unique exactly when
  no other row spells its email differently (`LoginKeepsUniqueIff`); otherwise pings for that email
  fail (`UnsafeSignUpBreaksPings`).
- Redelivery of a ping is harmless when immediate and, for a sale, timestamped
  (`RedeliveryIsHarmlessIff`). A sale delivered again after a refund grants the plan again
  (`LateRedeliveryReactivates`, an instance of `RevokedSaleReactivates`). After an arbitrary run a
  redelivery is harmless exactly when the last ping that wrote the row it resolves to agrees with it
  (`RedeliveryAfterRunIsHarmlessIff`).
- `extract_json` refuses an object that stands in a JSON array or string, although the surroundings
  are brace-free (`ArrayAroundObjectIsRefused`, `ExtractUndoesProseIff`).
- A send loop that dies after mailing and before its commit leaves nothing that prevents a second
  mail (`CrashAllowsSecondMail`); there is never more than one extra mail per such crash.
- A failed send's rollback is said to drop the touchpoint row. After a token refresh has committed the
  claim it does not, and that recipient is never mailed (`RefreshThenFailureStrands`,
  `StrandedForGood`). A step strands a recipient exactly when it abandons such a claim before mailing
  (`StrandsIff`), and a recipient can still be mailed exactly when it is `Mailable` (`CanBeMailedIff`).
- Starting an archived, never approved campaign mails it (`ArchivedStartMailsUnapproved`). Mail goes
  out approved exactly when the request did not read the campaign as archived, or it was approved by
  then (`SendingStartsApprovedIff`); a row can come to be mailed without approval exactly when it
  carries no approval yet (`UnapprovedMailIsPossibleIff`).

## Specification functions

The rows below speak about these functions. They only compute, so they have no row of their own.

- `SweepProtocol.Step` (apps/api/services/aggregation_debounce.py:35-68, apps/api/routers/events.py:994-1005):
  one atomic action of a sweeper or a trigger on expiring keys, each of which may degrade.
- `BodyGuard.Counted` and `BodyGuard.Outside` (apps/api/main.py:333-350), `RequestLog.PreRead`
  (apps/api/main.py:421-433): the guard's and the logger's effect on message streams.
- `UserAccounts.ReadForm`, `PingStep` (apps/api/routers/billing.py:570-687) and `LoginStep`
  (apps/api/dependencies.py:253-363): one ping and one login as functions of the table.
- `EngageOutcomes.Table` (apps/api/models/engage_outcome.py:161-230): the table that a history leaves.
- `CampaignStatus.Commit` (apps/api/routers/campaigns.py:338-354, 383, 401-404, 579-599): the columns
  that each request writes, decided on a possibly stale row; a column that keeps the value that was
  loaded is not written.
- `CampaignDispatch.Step` (apps/api/services/campaign_sender.py:438-531): claim, early commit, mail,
  roll back, commit and crash on the touchpoint table.
- `ExtractJson.Extract` (apps/api/agents/prompt_safety.py:102-122): fence pattern, parse, fallback to
  the outermost braces, objects only.

## Model

| member | source | states |
|---|---|---|
| SweepProtocol.GrantsAreSpaced | apps/api/jobs/scheduler.py:532-582 | in every interleaving of any sweepers and triggers, two grants of one site's debounce key lie at least one TTL apart |
| SweepProtocol.RecomputeFollowsOwnAttempt | apps/api/jobs/scheduler.py:548-574 | a full recompute directly follows that sweeper's own attempt at that site, which was granted or, only with the incremental flag off, degraded |
| SweepProtocol.RecomputesHaveSpacedGrants | apps/api/jobs/scheduler.py:509-574 | with the flag on, two full recomputes of a site, by any containers, rest on different grants at least one TTL apart |
| SweepProtocol.DeferralOutlivesHolder | apps/api/jobs/scheduler.py:552-563 | the marker set on deferral outlives any holder of the debounce key by more than one TTL, and expires three intervals after the deferral |
| SweepProtocol.IngestFallsOpen | apps/api/routers/events.py:994-1005 | an ingest run yields to a marker it sees, gives up at a held key, and goes on when a call fails |
| SweepProtocol.ClearRemovesMarker | apps/api/services/aggregation_debounce.py:54-62 | a release that gets through removes the marker and no other key |
| SweepProtocol.LateTriggerBeatsRetry | apps/api/routers/events.py:994-1004 | from every deferral with a trigger between check and take, a run in which the decisive poll is refused |
| SweepProtocol.RetryWinsIffNoTriggerInFlight | apps/api/jobs/scheduler.py:536-546 | the first poll after the old holder expired, with the marker live, wins in every undisturbed run iff no trigger was in flight at deferral |
| SweepProtocol.GivingUpHasAnExcuse | apps/api/jobs/scheduler.py:540-569 | an undisturbed retry that polls for one interval plus five seconds, whoever set the marker and whenever, can only fail through a reply handled five seconds late or an expired marker |
| SweepProtocol.OverlapHasReason | apps/api/jobs/scheduler.py:516-522 | when two aggregations of a site are under way at once, one was let through by a degraded Redis, or the earlier has outlasted the debounce TTL |
| SweepProtocol.FullRecomputeOverlapsOnlyIf | apps/api/jobs/scheduler.py:516-552 | with the flag on a full recompute overlaps an ingest run only if that run's take was degraded or the earlier of the two has outlasted the TTL |
| SweepProtocol.OverlapsHappen | apps/api/routers/events.py:999-1005 | from every quiet state, runs in which either of these reasons alone makes them overlap |
| SweepJob.Cluster.SweepOneSite | apps/api/jobs/scheduler.py:509-582 | amid arbitrary other actors the call is a run of the protocol with exactly the actions that its result announces, marker released, and gone if the release got through, after a run, a failure or a contended skip, and untouched after a degraded skip; it gives up no earlier than its waiting time |
| SweepJob.Cluster.PollForKey | apps/api/jobs/scheduler.py:540-546 | the poll loop terminates with at most one poll a second, adds only refused attempts before its last one, and stops refused only after its deadline |
| SweepJob.Cluster.SweepAll | apps/api/jobs/scheduler.py:605-642 | every site is visited once and every deferred one once more without deferring, the visits lie in the shared history one after the other, and the report's counters are theirs |
| SweepJob.ReportMatchesHistory | apps/api/jobs/scheduler.py:607-633 | `aggregated` and `visitors` count and sum the successful recomputes in the shared history |
| SweepJob.NoSiteRunsTwice | apps/api/jobs/scheduler.py:611-630 | over both passes no site of a distinct list is fully recomputed twice |
| SweepJob.RetryGivesUpOnlyWithExcuse | apps/api/jobs/scheduler.py:619-633 | the excuse of a failed retry, in terms of the history that `SweepOneSite` leaves |
| SweepJob.ContendedRetryHasReason | apps/api/jobs/scheduler.py:607-633 | for every deferral of the job, however Redis answered to its marker, and its retry: if that finds the site contended still, the marker was never set because Redis was degraded, a trigger was in flight at deferral, another actor interfered, a refusal was acted on five seconds late, or the marker had expired |
| BodyGuard.Guard.CountingReceive | apps/api/main.py:333-342 | the running counter's effect on one message |
| BodyGuard.Guard.GuardedSend | apps/api/main.py:344-350 | what reaches the client for a run of messages |
| BodyGuard.FastPath | apps/api/main.py:321-329 | rejects iff the first Content-Length is well-formed and too large |
| BodyGuard.Call | apps/api/main.py:312-352 | an honest Content-Length that is too large gets one complete 413 response without a byte read; otherwise the call is the run of the wrapped application |
| BodyGuard.DeclaredLengthDecides | apps/api/main.py:321-329 | the first Content-Length decides, at the limit still in favour of the request |
| BodyGuard.GuardIsTransducer | apps/api/main.py:331-352 | for every application, stream and number of steps, the application behind the guard runs as it would alone on the counted stream |
| BodyGuard.CountedAt | apps/api/main.py:333-342 | message by message: unchanged while the bytes fit, and afterwards every request message empty and final |
| BodyGuard.HandedAtMostLimit | apps/api/main.py:333-342 | under any chunking the application gets at most the limit in body bytes |
| BodyGuard.FittingBodyIsUntouched | apps/api/main.py:331-352 | with a body that fits neither side can tell that the guard is there |
| BodyGuard.ClientSees | apps/api/main.py:344-350 | what was sent before the overflow reaches the client unchanged, what is sent afterwards becomes one complete 413 response (status, declared length, text) per response start |
| BodyGuard.OneRejection | apps/api/main.py:300-310 | an application that starts its one response after the overflow yields exactly one 413 start and one body, whose length the start declares |
| RequestLog.Connection.PreBuffer | apps/api/main.py:421-433 | the pre-read terminates, takes exactly the messages that `PreRead` says, and leaves the application's stream as it was |
| RequestLog.Connection.CapturingReceive | apps/api/main.py:437-446 | the application reads the next message of the original stream, replayed or live, and the request buffer stays the exact prefix |
| RequestLog.Connection.CapturingSend | apps/api/main.py:448-459 | the message goes out and the response buffer and status stay exact |
| RequestLog.Call | apps/api/main.py:381-462 | the run behind the middleware is the run without it (or blocks in the pre-read), with both buffers holding the first cap + 1 bytes of what passed; for the four methods with a body everything up to the first message that is enough has been received, read by the application or not; the status is that of the last start, or 500 |
| RequestLog.PreReadStopsAtFirst | apps/api/main.py:422-433 | the pre-read stops at the first message that is final or crosses the cap, and blocks iff there is none |
| RequestLog.PreReadIsBounded | apps/api/main.py:417-433 | it buffers at most the cap plus the chunk that crossed it |
| RequestLog.CapturedIsBeginning | apps/api/main.py:400-407 | each buffer is a beginning of what passed, of length cap + 1 or all of it |
| RequestLog.LengthTellsTruncation | apps/api/main.py:400-407 | the buffer is longer than the cap iff more than the cap passed |
| RequestLog.InvisibleIffRequestArrives | apps/api/main.py:421-462 | invisible to every application over any state, and to its client, iff the method is not pre-read or enough of the request arrives |
| RequestLog.LoggerOutsideGuard | apps/api/main.py:359-371 | both middlewares stacked show what the guard alone would show |
| UserAccounts.UserTable.GumroadWebhook | apps/api/routers/billing.py:570-687 | the webhook's effect on the table equals `PingStep` of the form it read |
| UserAccounts.UserTable.CurrentUser | apps/api/dependencies.py:253-363 | the Clerk branch of a login equals `LoginStep` |
| UserAccounts.SelectOneFinds | apps/api/routers/billing.py:527-540 | what each outcome of a lookup says about all rows |
| UserRules.ContainsIffMentions | apps/api/routers/billing.py:491-495 | the test on the trimmed, lower-cased tier is whether the tier mentions the word in any case |
| UserRules.LookupRule | apps/api/routers/billing.py:524-541 | a ping finds the row with its subscription id, failing that the one with its email in any spelling; otherwise nobody, or it raises |
| UserRules.TestPingIsIgnored | apps/api/routers/billing.py:585-589 | a test form never touches the table |
| UserRules.RevocationRule | apps/api/routers/billing.py:591-627 | refunded, disputed and not won, or ended: the row found goes free, with the word for it, and nothing else changes |
| UserRules.CancellationRule | apps/api/routers/billing.py:629-646 | a cancellation keeps the plan and moves the period end only when it has a date |
| UserRules.NoSaleRule | apps/api/routers/billing.py:648-656 | without an email, or with neither a known tier nor a known price, nothing happens |
| UserRules.SaleRule | apps/api/routers/billing.py:652-687 | the row found gets the plan of the tier's name (Max before Pro) or price, active, for the days of its recurrence |
| UserRules.NewBuyerRule | apps/api/routers/billing.py:658-674 | a sale that finds nobody adds such a row |
| UserRules.AmbiguousPingFails | apps/api/routers/billing.py:527-540 | an ambiguous lookup raises |
| UserRules.KnownLoginRule | apps/api/dependencies.py:330-357 | a known Clerk id enters its row; the profile's email replaces a stand-in address iff no row holds it; nothing else changes |
| UserRules.LinkingLoginRule | apps/api/dependencies.py:280-298 | a first login with a row's email links it, and fills in avatar and name where missing |
| UserRules.NewLoginRule | apps/api/dependencies.py:299-329 | a first login with a new email opens a free account, or is forbidden |
| UserRules.OtherLoginsChangeNothing | apps/api/dependencies.py:255-283 | no subject or an ambiguous lookup: nothing is written |
| UserLaws.LookupsMatchAtMostOnce | apps/api/routers/billing.py:524-541 | on a table with unique keys no lookup is ambiguous |
| UserLaws.PingKeepsUnique | apps/api/routers/billing.py:612-687 | a ping never raises there and keeps emails, Clerk ids and subscription ids unique |
| UserLaws.LoginKeepsUniqueIff | apps/api/dependencies.py:261-357 | a login keeps them unique iff no other row spells the email it writes differently |
| UserLaws.UnsafeSignUpBreaksPings | apps/api/dependencies.py:280-283 | after a sign-up in another spelling, pings for that email fail |
| UserLaws.RunsKeepUnique | apps/api/dependencies.py:261-357 | over any interleaving of pings and safely spelled logins keys stay unique and nothing raises |
| UserLaws.LowerCaseRunsKeepUnique | apps/api/dependencies.py:270-283 | lower-case login emails are enough for that |
| UserLaws.EachStepTouchesOneRow | apps/api/routers/billing.py:613-687 | each ping and each login changes or adds at most one row |
| UserLaws.LoginReturnsSubject | apps/api/dependencies.py:261-363 | a successful login answers with a row that carries the token's subject |
| UserLaws.BuyerGetsTheirRow | apps/api/routers/billing.py:552-555 | a buyer provisioned by a ping who later first signs in with that email gets that row, billing untouched |
| UserLaws.RedeliveryIsHarmlessIff | apps/api/routers/billing.py:473-474 | handling a ping twice equals once iff it is no activation, carries a sale timestamp, or the clock stood still |
| UserLaws.LastWriteShows | apps/api/routers/billing.py:620-683 | after any run a row's billing shows the last ping that wrote it, whatever logins and other pings did |
| UserLaws.RedeliveryAfterRunIsHarmlessIff | apps/api/routers/billing.py:544-687 | after any run on any table a ping delivered again changes nothing iff it finds nobody to write, or the row that it resolves to was last written by a ping that agrees with it |
| UserLaws.OverwrittenSaleIsNotHarmless | apps/api/routers/billing.py:681-682 | a sale whose subscription id has been overwritten is never redelivered harmlessly |
| UserLaws.RevokedSaleReactivates | apps/api/routers/billing.py:473-474 | whenever a run left the sale's row revoked by its last ping, delivering the sale again grants the plan again |
| UserLaws.SaleAroundOnePingIsHarmlessIff | apps/api/routers/billing.py:473-474 | sale, another ping with its keys, sale again: harmless iff that ping was an activation with the same plan and period end |
| UserLaws.LateRedeliveryReactivates | apps/api/routers/billing.py:473-474 | a sale delivered again after a revocation grants the plan again |
| UserLaws.PingsForDifferentRowsCommute | apps/api/routers/billing.py:612-687 | pings that resolve to different rows commute unless they carry the same subscription id |
| EngageOutcomes.OutcomeTable.RecordOutcome | apps/api/models/engage_outcome.py:161-230 | the table stays `Table` of the calls made, any kind but the three raises, and the answer is True iff a row was inserted or, for a metrics snapshot, updated |
| EngageOutcomes.TableGrows | apps/api/models/engage_outcome.py:206-226 | what one more call changes: a new row, a refreshed row, or nothing |
| EngageOutcomes.RowOfKey | apps/api/models/engage_outcome.py:64-69 | per key exactly one row: the first call's, with the last call's counters and time for a metrics snapshot |
| EngageOutcomes.KeysKeepApart | apps/api/models/engage_outcome.py:141-148 | two referenced facts share a row iff draft, kind and reference are all equal |
| EngageOutcomes.UnreferencedFactsAreKept | apps/api/models/engage_outcome.py:98-102 | facts without a reference are all kept, in order and unmerged |
| CoopLedger.Coop.RecordContribution | apps/api/services/identity_coop.py:148-216 | the event and ledger rows written through the three gates (a new day always leaves an event; flagged, duplicate or credited; only an accrued event uses up the credit), and that both tables keep their indexes |
| CoopLedger.Coop.ExpireLapsedLots | apps/api/services/identity_coop.py:543-644 | one EXPIRE row per lapsed lot with credit left, for what was left; balances from now on unchanged; every lapsed lot whose transaction does not fail ends up drained and a repeat writes nothing; the systemic-failure rule |
| CoopLedger.RowCountsInItsWindow | apps/api/services/identity_coop.py:264-272 | a row counts for its site from the end of its hold up to but not at its expiry |
| CoopLedger.BalanceIsWhatIsLeft | apps/api/services/identity_coop.py:239-272 | at every time the derived balance is the sum of what is left in the lots in their window |
| CoopLedger.BalanceAgreesWithLotsIff | apps/api/services/identity_coop.py:438-487 | the balance equals the sum over `spendable_lots`, and so is not negative, iff no lot in its window is overdrawn |
| CoopLedger.AppendKeepsGood | apps/api/models/identity_coop.py:132-141 | any properly stamped row keeps the ledger's rules, among them at most one EXPIRE per lot |
| CoopLedger.LapsedRowsAreInvisible | apps/api/models/identity_coop.py:156-168 | rows stamped from lapsed lots change no balance from then on |
| CoopLedger.SweptBalanceReconciles | apps/api/services/identity_coop.py:249-254 | after a clean sweep, holds past and nothing overdrawn, the balance is the plain sum of the site's rows |
| CoopLedger.DrainedStaysDrained | apps/api/services/identity_coop.py:563-565 | what a sweep drained stays drained under every row that the rules let be appended |
| CoopLedger.AtMostOneCreditPerIdentity | apps/api/models/identity_coop.py:69-74 | a site's accrued events never exceed its distinct identities |
| CampaignStatus.CommitKeepsSound | apps/api/routers/campaigns.py:58-63 | approved implies approved_at; active and paused imply both timestamps; completed implies started_at; timestamps are never cleared; what is sent is started |
| CampaignStatus.MailIsApprovedIff | apps/api/routers/campaigns.py:579-599 | a request that mails leaves an approved row iff it did not read it as archived, or met it approved |
| CampaignStatus.RunsStayConsistent | apps/api/routers/campaigns.py:322-664 | over every interleaving of requests with stale reads that holds, and mail goes out only for a started campaign, approved unless it was read as archived |
| CampaignStatus.SendingStartsApprovedIff | apps/api/routers/campaigns.py:555-677 | the same at every point of every interleaving where a request starts to send |
| CampaignStatus.UnapprovedMailIsPossibleIff | apps/api/routers/campaigns.py:371-387 | some run from a row leads to mail without approval iff the row carries no approval |
| CampaignStatus.ArchivedStartMailsUnapproved | apps/api/routers/campaigns.py:593-599 | a new campaign, archived and then started, is mailed without approval |
| CampaignStatus.Campaign.UpdateStatus | apps/api/routers/campaigns.py:322-354 | the endpoint allows exactly the seven transitions, writes status and timestamp as `Commit` of what it read, and keeps its guarantee to the others |
| CampaignStatus.Campaign.StartCampaign | apps/api/routers/campaigns.py:555-629 | likewise for one-click launch: each refusal's reply, the row launched (draft, approved and paused become active) and the completion rule at the end |
| CampaignStatus.WhoSends | apps/api/routers/campaigns.py:585-612 | which requests go on to send after their commit |
| CampaignStatus.EndOfSending | apps/api/routers/campaigns.py:617-620 | the end of sending in the protocol |
| CampaignStatus.Campaign.SendCampaign | apps/api/routers/campaigns.py:634-677 | sends only a campaign read as active, hence approved and started; completes it iff somebody was mailed and nobody held back |
| CampaignDispatch.MailIsAccountedFor | apps/api/models/campaign.py:45-55 | in every interleaving mails sent are those the table remembers plus those forgotten in crashes |
| CampaignDispatch.DispatchedAtMostOnce | apps/api/models/campaign.py:45-55 | without crashes each (campaign, visitor, channel) is mailed at most once by any number of loops |
| CampaignDispatch.MailedAtMostOncePerCrash | apps/api/services/campaign_sender.py:438-447 | with crashes, at most once more than messages were forgotten |
| CampaignDispatch.CrashAllowsSecondMail | apps/api/services/campaign_sender.py:503-531 | that bound is reached |
| CampaignDispatch.CanBeMailedIff | apps/api/services/campaign_sender.py:438-468 | from any table some run mails a recipient iff it has no row, or one still worked on that is unmailed or not yet committed |
| CampaignDispatch.StrandedForGood | apps/api/services/campaign_sender.py:454-468 | a committed, abandoned and unmailed row stays, and its recipient is never mailed, in every run |
| CampaignDispatch.StrandsIff | apps/api/services/campaign_sender.py:512-525 | a step leaves such a row iff it fails or crashes on an unmailed claim that was already committed |
| CampaignDispatch.RefreshThenFailureStrands | apps/api/services/campaign_sender.py:512-525 | claim, token refresh, failed delivery reach it |
| CampaignDispatch.Mailroom.SendTo | apps/api/services/campaign_sender.py:389-531 | the loop body, with other loops acting between its check, its insert and its delivery: the loop's own actions are exactly those of its outcome, it skips iff the row was committed as sent, it claims a recipient without a row that nobody else turns to, and then mails and commits or rolls back |
| CampaignDispatch.Mailroom.SendAll | apps/api/services/campaign_sender.py:242-533 | every eligible recipient is so treated, in order, and the summary counts the outcomes |
| Json.DumpThen | apps/api/agents/segmenter.py:192-194 | what follows a serialized value is appended to its text |
| Json.ReadDumped | apps/api/agents/segmenter.py:192-194 | the text of any value reads back as that value, whatever delimited text follows |
| Json.LoadsOfDumps | apps/api/agents/prompt_safety.py:113 | `loads(dumps(v))` is `v`, with any indentation |
| PromptSafety.PayloadOfWrapped | apps/api/agents/prompt_safety.py:84-99 | for every payload the first "<" after the opening line is the closing fence, so the payload is cut back out |
| PromptSafety.ScrubOfDump | apps/api/agents/prompt_safety.py:94-98 | removing angle brackets from serialized JSON is serializing the tree with its brackets removed |
| PromptSafety.PromptCarriesTree | apps/api/agents/segmenter.py:184-195 | the payload cut from the prompt parses to the very tree that was serialized, brackets turned to spaces |
| PromptSafety.WrapOfScrubbed | apps/api/agents/prompt_safety.py:96-97 | stripping before wrapping makes no difference |
| PromptSafety.WrappedInFence | apps/api/agents/prompt_safety.py:84-99 | the payload stands between the opening and the closing tag, followed by the note |
| PromptSafety.CleanTextIsNeat | apps/api/agents/prompt_safety.py:44-52 | normal form within the cap for every string and cap |
| PromptSafety.CleanTextSettles | apps/api/agents/prompt_safety.py:44-52 | a second cleaning removes at most the space that the cap left, a third changes nothing |
| PromptSafety.CleanTextKeepsInk | apps/api/agents/prompt_safety.py:49-52 | visible characters are kept in order, but for brackets and what the cap cuts |
| PromptSafety.CleanTextKeepsWords | apps/api/agents/prompt_safety.py:49-52 | the words are those of the bracket-free value, in order, up to the cap, which may cut the last |
| ExtractJson.ExtractUndoesProseIff | apps/api/agents/prompt_safety.py:112-122 | brace-free, fence-free prose around a serialized object is undone iff the whole answer is not some other JSON value |
| ExtractJson.ExtractUndoesPlainProse | apps/api/agents/prompt_safety.py:112-119 | in particular when the prose in front does not open with a bracket or a quotation mark |
| ExtractJson.UnfencedDocument | apps/api/agents/prompt_safety.py:112-122 | an unfenced JSON document counts iff it is an object |
| ExtractJson.UnfencedProse | apps/api/agents/prompt_safety.py:114-121 | any other unfenced answer yields an object iff its outermost braces enclose one; with none in order it is refused |
| ExtractJson.ExtractUndoesFence | apps/api/agents/prompt_safety.py:109-111 | a serialized object in one code fence, tagged or not, is found again |
| ExtractJson.ArrayAroundObjectIsRefused | apps/api/agents/prompt_safety.py:120-121 | an array around the object is refused |

## Left out

- The in-process set of running aggregations and the incremental aggregation itself: only its Redis protocol is modelled.
- Process crashes and cancellation inside a sweep: the call ends by returning, as its `finally` does.
- Clock skew: the loop's clock and Redis' expiry run on one time line, in milliseconds; sleeping may take any longer.
- The guarded path list, non-HTTP scopes, the enabled flag and excluded paths of the two middlewares: they pass straight through.
- `int()` on the Content-Length bytes, header redaction, CORS headers and the detached log write: parameters or left out.
- Applications are deterministic and take one action at a time; a response is compared message by message, not by timing.
- Ping authentication (token and seller id), the invite list, JWT verification and the legacy token path: outcomes are parameters.
- `str.lower` beyond ASCII, timestamp parsing and price parsing: the parsed values are form fields of the model.
- Concurrent requests inside one ping or login: each handler is one step on the table; the subscription id has no unique constraint that would order two of them.
- The Lemon Squeezy webhook, which writes subscription ids without checking who holds them.
- Row deletion and erasure: a site or user delete is not part of the tables' models, so positions serve as ids.
- Races between two expiry sweeps or a draw inside one lot's transaction; the unique index makes the loser a no-op.
- Spending is not implemented in the repository yet; `Coop.Draw` appends what the ledger's stamping rule allows.
- A NULL window bound on an ACCRUE row, which the writers never produce.
- A mail whose delivery raised after it went out counts as not delivered; an insert that waits for another loop's claim goes on once that claim is committed or rolled back, and a run may also end while it still waits.
- Lone surrogates in JSON strings: this model's characters have none; an escape for one reads as U+FFFD, so that the text is accepted as it is by `json.loads`.
- ExtractJson.ExtractUndoesProseIff: Python's interpreter limits are not modelled. Prose that nests brackets beyond the recursion limit, or opens with an integer of more than 4300 digits, makes `json.loads` raise an error other than the one caught, so the object is then not found although the condition holds; ExtractUndoesPlainProse and ExtractUndoesFence have the same gap.
- Duplicate keys of a JSON object: objects are lists of pairs, as written.
- `sanitize_profiles` and `strip_url` beyond their call of `clean_text`, and `clean_text` on values that are not strings.
- Grouped dashboard counts, the segmenter's lookup maps and `_resolve_linkedin_targets`: one-pass loops that would only add easy members.
- LLM calls, mail providers, Redis and Postgres drivers, scheduler registration and plain CRUD routes: I/O or one-branch facts.
