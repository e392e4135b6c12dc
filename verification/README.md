# Verified models of the Watesly backend

Watesly is a multi-tenant WhatsApp messaging service. This project models the parts of its backend
that carry state or an algorithm worth an argument, and proves what they promise. The database is a
set of maps, each service function is one atomic step, clocks and outside answers are parameters, and
fresh ids and tokens come from a counter.

| component | modules | what is proved |
|---|---|---|
| automation publishing | AutomationGraph, AutomationCheck, AutomationBudgets, AutomationLifecycle | the publish check decides a definition stated with walks only; acyclicity makes the step and time budgets sufficient, with exact conditions |
| sign-in and refresh tokens | Auth, SessionFamilies, SessionAccess, LoginLockout | rotation keeps every family a linear chain, single use, replay kills a family for good (the scheme of section 4.14.2 of RFC 9700); a bound on password guesses over time; what suspension, signing out and a reset take away, over every run |
| billing periods | MonthLengths, BillingCalendar | periods tile the subscription; when day clamping drifts; keys are unique |
| request limiting | RateLimit | bounds on admissions in a lifetime and in any interval |
| site content migrations | SiteContent | the deep merge meets a path specification and is idempotent; migrations collapse |
| contacts | PhoneNormalize, Contacts, ContactImport | the phone scan refines a map; the importer keeps its in-memory index exact |
| conversation assignment | Assignment, AssignmentBalance | both strategies are balanced, over every run |
| campaigns | Audience, Campaigns, CampaignRuns, CampaignRules, CampaignService | the audience pipeline, approval, execution tokens and follow-up generations over every run |

Code that works in place is a class or a method with loops, proved equal to a specification function
of its inputs or of the old state; the lemmas are about those functions. Common holds the shared
vocabulary.

## Findings

Places where the code does not do what its names or its documentation suggest; each is stated exactly.

- An update that sets `status` to active without a graph can leave an unchecked graph active (AutomationLifecycle.AcceptedThroughout, reached in AutomationLifecycle.EmptyGraphActivates).
- Negative delays make the delay estimate too small (AutomationBudgets.DelayEstimateExact).
- Replaying an expired revoked token is refused before the reuse check, so its family survives (SessionFamilies.ReplayKillsFamily, reached in SessionFamilies.ExpiredReplaySpares).
- A subscription anchored on day 29 to 31 (monthly) or on 29 February (yearly) drifts to shorter days and stays there (BillingCalendar.NeverDriftsExactly).
- A soft-deleted contact keeps its number from being created or imported again: the scan skips it, the unique constraint does not (Contacts.CreateSavedExactly, Contacts.RecreationIsRefused, reached in Contacts.RecreationOccurs, ContactImport.ImportRefusedExactly).
- Such a refusal stops an import halfway, after earlier batches were committed (ContactImport.Importer.ImportRows).
- Phone normalisation is not idempotent for some inputs with codes other than 965 (PhoneNormalize.NormalizeTwiceOther, PhoneNormalize.FourZeros).
- A numeric country code, which the schema admits, and an imported row of another country break the uniqueness of numbers (Contacts.CodeKeepsIndexExactly, ContactImport.CountryKeepsNumbersExactly).
- `exclude_marketing_opt_out` has no effect on who is kept, because eligibility always requires the opt-in (Audience.OptOutFlagIsIdle).
- Pausing a campaign does not withdraw its task: a worker that has not begun yet ignores the pause and runs it (CampaignRules.PausedResumesExactly, reached in CampaignRules.PauseIsLost).
- The recipient-limit errors of approve and start, and the follow-up error of deleting a draft, cannot occur (CampaignRuns.LimitsAreUnreachable).

## Model

| member | source | states |
|---|---|---|
| AutomationCheck.BuildOutgoing | backend/app/services/automations.py:74-82 | succeeds exactly when every edge joins declared nodes, and then each adjacency list holds the targets of its node's edges, no more and no fewer |
| AutomationCheck.ReachableFrom | backend/app/services/automations.py:84-92 | the worklist's final `visited` set is the reachability closure of the start node, in both directions; terminates because each pop visits a new node or shortens the stack |
| AutomationCheck.CycleSearch.Dfs | backend/app/services/automations.py:97-110 | a raised cycle is a real one; otherwise the node turns black, grey nodes are as before, and black nodes are closed under edges and off every cycle |
| AutomationCheck.CycleSearch.GreyOnCycle | backend/app/services/automations.py:101-104 | meeting a grey node again proves that it lies on a directed cycle |
| AutomationCheck.CycleSearch.FinishedNodeIsOffCycles | backend/app/services/automations.py:107-110 | a node may turn black once its successors are: it can lie on no cycle |
| AutomationCheck.ValidatePublishableGraph | backend/app/services/automations.py:59-112 | for every graph, accepts or raises precisely the first violated requirement of the walk-only definition: nodes, one trigger, supported types, declared edge ends, all reachable, no directed cycle |
| AutomationGraph.ClosedSetKeepsWalks | backend/app/services/automations.py:84-95 | no walk leaves a set closed under edges (why the search is complete) |
| AutomationGraph.AcceptedExactly | backend/app/services/automations.py:59-112 | accepted means: exactly one trigger, no node of an unsupported type, edges between declared nodes only, every node reachable from the trigger, no cycle |
| AutomationGraph.RejectedExactly | backend/app/services/automations.py:62-112 | which error is raised says exactly how far a graph gets |
| AutomationBudgets.EstimateGraphDelaySeconds | backend/app/services/automations.py:44-51 | the accumulated total is the sum of the delay nodes' delays |
| AutomationBudgets.EstimateInSeconds | backend/app/services/automations.py:50 | the estimate is the raw seconds of the delay nodes plus sixty times their raw minutes |
| AutomationBudgets.DeadlineIsTight | backend/app/services/automations.py:54-56 | the deadline leaves more than 14 and at most 15 minutes beyond the delays, and 15 minutes in all when these come to nothing or less |
| AutomationBudgets.StepsAreThreefold | backend/app/services/automations.py:290 | max_steps has room for exactly three visits of every node, between 25 and 500 |
| AutomationBudgets.AcyclicWalksAreSimple | backend/app/services/automations.py:97-112 | in a graph without cycles no walk meets a node twice |
| AutomationBudgets.SimpleWalkDelay | backend/app/services/automations.py:44-51 | a walk without repeats waits at most as long as the whole node list says, and exactly that long when it covers every node |
| AutomationBudgets.AcceptedWalkIsSimple | backend/app/services/automations.py:59-112 | every walk from the trigger of an accepted graph has no repeats and at most as many nodes as the graph |
| AutomationBudgets.AcceptedWalkFitsBudgets | backend/app/services/automation_triggers.py:94-105 | without negative delays a walk's waiting time is within the estimate and at least 14 minutes below the deadline; its length is within max_steps up to 500 nodes |
| AutomationBudgets.DelayEstimateExact | backend/app/services/automations.py:54-56 | the estimate covers every walk under every accepted wiring of the nodes if and only if no delay node is negative |
| AutomationBudgets.NegativeDelayOverruns | backend/app/services/automations.py:44-51 | one negative delay is enough for some accepted wiring with a walk that outlasts the estimate |
| AutomationBudgets.StepBudgetExact | backend/app/services/automations.py:290 | max_steps covers every walk of every accepted n-node graph if and only if n is at most 500 (the schema allows 200) |
| AutomationBudgets.LineIsAccepted | backend/app/services/automations.py:59-112 | any well-formed node list wired as a line from its trigger is accepted |
| AutomationBudgets.LongLine | backend/app/services/automations.py:59-112 | for every n > 0 there is an accepted graph with a walk through all n nodes |
| AutomationLifecycle.AutomationRow.PublishAutomation | backend/app/services/automations.py:227-246 | activates and bumps the version exactly when the stored graph is accepted, and otherwise changes nothing |
| AutomationLifecycle.AutomationRow.UpdateAutomation | backend/app/services/automations.py:199-224 | a new graph takes an active automation back to draft; a bare status change is taken as given |
| AutomationLifecycle.AutomationRow.PauseAutomation | backend/app/services/automations.py:249-265 | only the status changes |
| AutomationLifecycle.AutomationRow.CreateTestRun | backend/app/services/automations.py:268-297 | a run is created exactly for accepted graphs, with the budgets of its graph |
| AutomationLifecycle.StepKeepsAccepted | backend/app/services/automations.py:199-265 | "active means accepted" is broken by a step if and only if it sets status to active, brings no graph, and the stored graph fails the check |
| AutomationLifecycle.ActivatedExactly | backend/app/services/automations.py:199-265 | an inactive automation is activated only by publishing an accepted graph or by a bare status update; pausing deactivates; a new graph is stored and never active |
| AutomationLifecycle.VersionCountsEdits | backend/app/services/automations.py:219-242 | the version grows by one for every update and every successful publish, over any history |
| AutomationLifecycle.AcceptedThroughout | backend/app/services/automations.py:199-265 | over a whole history: the automation is accepted whenever it is active if and only if no step meets an unaccepted graph and activates it without bringing another |
| AutomationLifecycle.EmptyGraphActivates | backend/app/services/automations.py:213-221 | the failing history: a draft with an empty graph and one bare update is active, though publishing it would raise AUTOMATION_GRAPH_EMPTY |
| AutomationLifecycle.ActiveRunsAreCovered | backend/app/services/automation_triggers.py:83-105 | in every history without such an update, the run queued for an active automation has budgets covering all walks of its graph |
| Auth.AuthService.IssuePair | backend/app/services/auth.py:34-38 | inserts exactly one live session under a fresh id and token |
| Auth.AuthService.Find | backend/app/services/auth.py:83 | finds the one session holding the token, if any |
| Auth.AuthService.Login | backend/app/services/auth.py:52-78 | while locked nothing is checked or changed; a wrong password counts, or locks and resets the counter at the limit; the right one clears both and issues one token pair for the account asked for or the only membership, if it is open; a suspended user gets nothing; no other user or session changes |
| Auth.AuthService.SwitchAccount | backend/app/api/routes/auth.py:214-230 | a new session in another account for a request with an accepted access token, and nothing otherwise |
| Auth.AuthService.Rotate | backend/app/services/auth.py:80-94 | rotation with its four refusals; replay of a revoked token revokes the family; only a live, unexpired token of an active user is replaced |
| Auth.AuthService.Logout | backend/app/services/auth.py:96-100 | revokes the presented session only, keeping an earlier revocation time, and reports whether it was known |
| Auth.AuthService.RevokeAll | backend/app/services/auth.py:101-104 | the loop leaves no live session of the user, touches no other row, and returns how many it revoked |
| Auth.AuthService.ResetPassword | backend/app/services/auth.py:134-154 | acts exactly for an active user whose password stamp matches, and then also clears the lock and revokes all the user's sessions |
| SessionFamilies.StepIsShaped | backend/app/services/auth.py:34-104 | every operation only revokes, or issues one new family, or replaces one live session |
| SessionFamilies.StepEvolves | backend/app/services/auth.py:34-104 | grants and revocations are permanent, and a new session opens a new family or succeeds a live one |
| SessionFamilies.RotationExtendsChain | backend/app/services/auth.py:91-92 | rotation appends the replacement to its family's chain |
| SessionFamilies.StepKeepsInv | backend/app/services/auth.py:34-104 | fresh ids, unique tokens and one chain per family survive every step |
| SessionFamilies.RunKeepsInv | backend/app/services/auth.py:34-154 | the same over every run |
| SessionFamilies.FamiliesAreLinear | backend/app/services/auth.py:34-154 | in every run each family is one linear chain through `replaced_by_session_id`, all but its last session revoked and replaced, with at most one live session |
| SessionFamilies.SpentForever | backend/app/services/auth.py:85-88 | a revoked token never rotates again, after any sequence of steps |
| SessionFamilies.RotatesAtMostOnce | backend/app/services/auth.py:80-94 | no token rotates successfully twice in a run |
| SessionFamilies.ReplayKillsFamily | backend/app/services/auth.py:84-88 | presenting a revoked token yields nothing, and leaves its family without a live session if and only if the token is unexpired (or there was none before) |
| SessionFamilies.ExpiredReplaySpares | backend/app/services/auth.py:84-88 | the sparing case is reachable: sign in at 0, rotate at 1, present the first token when it expires; nothing changes and the replacement still rotates |
| SessionFamilies.StepKeepsDead | backend/app/services/auth.py:34-104 | no step revives a family without live sessions |
| SessionFamilies.DeadForever | backend/app/services/auth.py:80-94 | after that no sequence of steps makes any token of the family rotate |
| SessionAccess.ChosenAccountExactly | backend/app/services/auth.py:69-77 | which account a sign-in enters: the one asked for if it is a membership, the only membership if none is asked for, and open in both cases |
| SessionAccess.SignInExactly | backend/app/services/auth.py:62-78 | a token is handed out if and only if the user is known, not locked out, right about the password, active and has an account to enter; it is for that user and account and for one session lifetime |
| SessionAccess.RotationExactly | backend/app/services/auth.py:83-94 | a token rotates if and only if its session is live and unexpired and its user active; the replacement is for the same user, account and family and is recorded in the old session |
| SessionAccess.SwitchExactly | backend/app/api/dependencies/auth.py:61-70 | an account switch succeeds if and only if the session is live and unexpired, the user active and the password unchanged since |
| SessionAccess.SuspendedGainsNothing | backend/app/services/auth.py:67-90 | over every run in which a suspended user is not reactivated: no new session of theirs, none revived, and the same password |
| SessionAccess.SignedOutStaysOut | backend/app/services/auth.py:52-104 | a user without live sessions has none after any run in which they do not sign in with the password in force, and none of their tokens rotates |
| SessionAccess.RevokeAllSignsOut | backend/app/services/auth.py:101-104 | revoking all leaves the user no live session and touches nobody else's, nor sessions already revoked |
| SessionAccess.ResetTakesOver | backend/app/services/auth.py:144-154 | after a reset every session of the user is revoked, the lock and counter are cleared, exactly the new password passes, and the link works again only within the second of the reset |
| SessionAccess.ResetRefused | backend/app/services/auth.py:140-146 | a link is accepted if and only if the user is active and it carries the second of their last password change; refused, it changes nothing |
| SessionAccess.LogoutIsLocal | backend/app/services/auth.py:96-100 | logging out revokes the presented session alone; a token already rotated takes its successors nowhere |
| LoginLockout.StepKeepsLockInv | backend/app/services/auth.py:62-68 | counter below the limit, running lock at most one lock period ahead, counter zero while locked: kept by every step |
| LoginLockout.CounterStaysBelowLimit | backend/app/services/auth.py:62-68 | the same in every reachable state of a run in clock order |
| LoginLockout.FailureSpendsAllowance | backend/app/services/auth.py:63-66 | a failed check uses up one of the failures still possible before the deadline |
| LoginLockout.ClearingAddsOneRound | backend/app/services/auth.py:68 | a cleared record gains at most one round of attempts |
| LoginLockout.StepPays | backend/app/services/auth.py:52-78 | amortised accounting of a single step |
| LoginLockout.RunPays | backend/app/services/auth.py:52-78 | failed checks of a run are within the initial allowance plus one round per clearing |
| LoginLockout.FailedChecksBounded | backend/app/services/auth.py:52-78 | in any span T from any reachable state: failed checks ≤ max × (⌊T / lock⌋ + 1 + clearings) |
| LoginLockout.EveryRoundIsPossible | backend/app/services/auth.py:62-66 | trying again the moment each lock ends gets every attempt of every round checked |
| LoginLockout.BoundIsReached | backend/app/core/config.py:34-35 | for every k there is a run over k lock periods, without clearings, that meets the bound: max × (k + 1) failed checks |
| MonthLengths.DaysInMonth | backend/app/services/billing_period.py:11-17 | the distance between two firsts of months is the Gregorian month length, leap years included |
| BillingCalendar.AddMonths | backend/app/services/billing_period.py:20-27 | lands exactly that many months later, same time of day, on the anchor day or the month's last day if it is shorter, and always on a real date |
| BillingCalendar.BillingPeriodForAnchor | backend/app/services/billing_period.py:39-67 | terminates; the whole subscription for trials and empty windows, otherwise the one tile that owns the reference, never the fallback; it spans one month when monthly and twelve when yearly, unless the subscription ends first |
| BillingCalendar.BoundaryIndex | backend/app/services/billing_period.py:55-65 | the k-th boundary lies k·step months after the anchor, at the same time of day |
| BillingCalendar.BoundaryDay | backend/app/services/billing_period.py:20-27 | its day is the minimum of the anchor day and the lengths of all months stepped through |
| BillingCalendar.BoundaryByJump | backend/app/services/billing_period.py:58-65 | a boundary equals one jump from the anchor exactly when no shorter month clamped it on the way |
| BillingCalendar.NeverDriftsExactly | backend/app/services/billing_period.py:55-65 | stepping never drifts from jumping if and only if the anchor day is at most 28, or the cycle is yearly and the anchor is not 29 February |
| BillingCalendar.MonthlyDrifts | backend/app/services/billing_period.py:58-65 | every monthly anchor on day 29 to 31 drifts |
| BillingCalendar.LeapDayDrifts | backend/app/services/billing_period.py:58-65 | a yearly anchor on 29 February drifts |
| BillingCalendar.TilesAbut | backend/app/services/billing_period.py:59-65 | tiles are non-empty, start at the subscription's start, meet end to start, and end at its end |
| BillingCalendar.TilesPartition | backend/app/services/billing_period.py:58-65 | each instant of the subscription lies in exactly one tile, and it is the one returned for it |
| BillingCalendar.OwnerIsUnique | backend/app/services/billing_period.py:58-65 | at most one tile answers for a reference |
| BillingCalendar.OwnersAreOrdered | backend/app/services/billing_period.py:63-65 | later references never get earlier tiles |
| BillingCalendar.OwnerExists | backend/app/services/billing_period.py:58-65 | some tile answers for every reference |
| BillingCalendar.OutsideReferences | backend/app/services/billing_period.py:63-64 | references before the subscription get the first tile, after it one that ends with it |
| BillingCalendar.PeriodsEqualOrDisjoint | backend/app/models/monthly_active_contact.py:27-35 | two references share a period exactly when its start agrees, and otherwise get disjoint periods in their own order: the uniqueness key counts a contact once per period |
| BillingCalendar.KeyDeterminesMonth | backend/app/services/billing_period.py:82-83 | the formatted key determines year and month |
| BillingCalendar.KeyReadsBack | backend/app/services/billing_period.py:82-83 | the key is the year in decimal, a hyphen, and the month in two digits |
| BillingCalendar.PeriodsHaveDistinctKeys | backend/app/services/billing_period.py:82-83 | distinct periods of one anchor have distinct cycle month keys |
| RateLimit.Limiter.Incr | backend/app/core/rate_limit.py:6 | the counter store: a live key counts on, a gone one starts at one |
| RateLimit.Limiter.Enforce | backend/app/core/rate_limit.py:3-8 | expiry set once, on the first hit; a request passes exactly when its count is within the limit |
| RateLimit.LifetimeAdmitsLimit | backend/app/core/rate_limit.py:6-8 | within one key lifetime exactly the first `limit` requests pass |
| RateLimit.LifetimeIsFixed | backend/app/core/rate_limit.py:6-8 | requests during a lifetime, admitted or not, do not prolong it; at its end the counter is gone and the next request passes |
| RateLimit.LifetimeBegins | backend/app/core/rate_limit.py:6-7 | the first request after a lifetime starts one of exactly the window, and touches no other key |
| RateLimit.TracePays | backend/app/core/rate_limit.py:3-8 | admissions are within what remains of a running lifetime plus a limit per lifetime that can still begin |
| RateLimit.AdmissionsBounded | backend/app/core/rate_limit.py:3-8 | in any closed interval, from any counters: admissions ≤ limit × (1 + ⌈span / window⌉) |
| RateLimit.AdmissionsPerWindow | backend/app/core/rate_limit.py:3-8 | at most twice the limit in any interval as long as the window |
| RateLimit.EveryLifetimeFills | backend/app/core/rate_limit.py:3-8 | spending the limit as soon as each lifetime begins gets every request through |
| RateLimit.BoundIsReached | backend/app/core/rate_limit.py:3-8 | for every k there is a trace over k windows that meets the bound: limit × (k + 1) admissions, so 2·limit in one window is reached |
| SiteContent.DeepMerge | backend/alembic/versions/0049_landing_clients_section.py:15-22 | the dictionary-filling loop computes the recursive merge whatever the key order |
| SiteContent.MergeAt | backend/alembic/versions/0049_landing_clients_section.py:15-22 | what stands at every path after a merge: the override's value, two objects merged, or the surviving base unless a leaf cut it off |
| SiteContent.MergeSelf | backend/alembic/versions/0047_refresh_public_site_copy.py:15-22 | merging a value into itself changes nothing |
| SiteContent.MergeTwice | backend/alembic/versions/0048_company_contact_details.py:15-22 | merging the same override again changes nothing |
| SiteContent.SiteConfigTable.RefreshContent | backend/alembic/versions/0047_refresh_public_site_copy.py:34-39 | both locales refreshed, non-object locales taken as empty, everything else kept |
| SiteContent.SiteConfigTable.UpgradeContent | backend/alembic/versions/0048_company_contact_details.py:25-48 | 0047 and 0048: an absent row stays absent, otherwise only the content changes |
| SiteContent.SiteConfigTable.Upgrade0049 | backend/alembic/versions/0049_landing_clients_section.py:25-56 | content and display both refreshed in one write |
| SiteContent.RefreshTwice | backend/alembic/versions/0048_company_contact_details.py:34-39 | a second refresh with the same defaults is the identity |
| SiteContent.RefreshedAt | backend/alembic/versions/0047_refresh_public_site_copy.py:34-39 | at every path of both locales a refresh leaves the defaults of that locale merged over what was stored, or the defaults alone |
| SiteContent.RefreshLeavesRest | backend/alembic/versions/0047_refresh_public_site_copy.py:34-39 | everything outside the two locales survives |
| SiteContent.DisplayAt | backend/alembic/versions/0049_landing_clients_section.py:41-56 | at every path 0049 leaves the default display flags merged over the stored ones; the other two leave them alone |
| SiteContent.MigrationsCollapse | backend/alembic/versions/0049_landing_clients_section.py:25-56 | any non-empty sequence of the three migrations, in any order, leaves the content of a single one, and the display of 0049 if it occurs |
| PhoneNormalize.NormalFormIsDigits | backend/app/services/phone_normalize.py:10-25 | results consist of digits, so normalising starts from them unchanged |
| PhoneNormalize.DigitsConcat | backend/app/services/phone_normalize.py:12 | signs and spaces drop out wherever they stand, and digits keep their order |
| PhoneNormalize.SpellingsAgree | backend/app/services/phone_normalize.py:10-25 | bare, with trunk zero, with the country code, and with exit prefix and country code: all spellings of one local number normalise to the country code and the number |
| PhoneNormalize.ForeignIsKept | backend/app/services/phone_normalize.py:16-25 | a number already international, or longer than eleven digits, is kept, without its exit prefix |
| PhoneNormalize.EmptyExactly | backend/app/services/phone_normalize.py:12-17 | nothing is left exactly of inputs without digits and of a bare 00 |
| PhoneNormalize.DialCodes | backend/app/services/contact_management.py:880-882 | the dial code of each country, and Kuwait's for any other |
| PhoneNormalize.NormalizeTwiceDefault | backend/app/services/phone_normalize.py:10-25 | idempotent on every input string when the code in force is 965 |
| PhoneNormalize.NormalizeTwiceOther | backend/app/services/phone_normalize.py:10-25 | for every other code: idempotent if and only if the number (after an exit prefix) is not in an explicit family: its result begins 00, because the code does or because nothing was put before it, and a code of zeros does not put them back |
| PhoneNormalize.ZerosLeftBehind | backend/app/services/phone_normalize.py:18-24 | the same about the localised number, for every non-empty code but 965 |
| PhoneNormalize.FourZeros | backend/app/services/phone_normalize.py:10-25 | every code other than 965 has a failing input: 0000 becomes 00, and then the empty string |
| PhoneNormalize.LocalisedIsStable | backend/app/services/phone_normalize.py:20-24 | under every code a localised number that does not begin with an exit prefix is a fixed point |
| Contacts.ContactBook.FindContactOnChannelByPhone | backend/app/services/contacts.py:21-42 | the scan returns a matching live contact of the channel, and none only if none matches |
| Contacts.ContactBook.CreateContact | backend/app/services/contacts.py:129-211 | the first failing check, the update of a match, or the insertion, or the unique constraint's refusal, over the whole table |
| Contacts.ContactBook.ReceiveMessage | backend/app/services/inbound_whatsapp.py:53-88 | the contact of an inbound WhatsApp message: found by the same scan and named, or else given its normal form, or inserted, or refused by the constraint |
| Contacts.ContactBook.SoftDelete | backend/app/services/contact_management.py:104-111 | marks that contact and nothing else |
| Contacts.MatchIsEntry | backend/app/services/phone_normalize.py:28-37 | phones_match against a request is equality of index entries (so an equivalence on non-empty numbers) |
| Contacts.BindingUpdatesIndex | backend/app/services/contacts.py:157-211 | writing a row with its own or a free key binds exactly that key in the index |
| Contacts.UnbindingUpdatesIndex | backend/app/services/contact_management.py:104-111 | writing a keyless row removes exactly what the row was found by |
| Contacts.CreateRefinesUpsert | backend/app/services/contacts.py:129-211 | a save binds the requested entry to the contact returned, the one already bound if any, and no other entry moves; a refusal changes nothing; no other row is touched |
| Contacts.CreateSavedExactly | backend/app/services/contacts.py:141-211 | a call saves if and only if its checks pass and no soft-deleted contact of the channel holds the number; in that case the unique constraint refuses it |
| Contacts.PrecheckExactly | backend/app/services/contacts.py:135-144 | when the checks pass and which error they raise, in terms of the channel and the digits of the address |
| Contacts.CreateStores | backend/app/services/contacts.py:164-211 | the saved contact is live, on the channel, under the normal form, with every given field and its former value in every other; no other contact changes |
| Contacts.ReceiveKeepsNames | backend/app/services/inbound_whatsapp.py:74-88 | a message names only a contact without a name, keeps the other fields, and otherwise stores the normal form |
| Contacts.RecreationIsRefused | backend/app/models/contact.py:12-18 | creating, deleting and creating the same number again: the second call is refused and changes nothing |
| Contacts.RecreationOccurs | backend/app/services/contact_management.py:104-111 | that history starts from an empty table with any request that passes its checks |
| Contacts.DeletedNumberIsBarred | backend/app/models/contact.py:12-18 | and so is every later one, after any run |
| Contacts.ReceiveRefinesUpsert | backend/app/services/inbound_whatsapp.py:64-88 | the contact part of an inbound message is a map upsert too |
| Contacts.ImportRefinesUpsert | backend/app/services/contact_management.py:894-927 | and so is the import of a normalised phone into a table of normal forms |
| Contacts.DeleteUnbinds | backend/app/services/contact_management.py:104-111 | a soft delete is a removal from the map |
| Contacts.StepKeepsIndex | backend/app/services/contacts.py:129-211 | creating, receiving, importing and deleting keep numbers distinct, and an entry with its contact |
| Contacts.RunKeepsInv | backend/app/services/contacts.py:129-211 | over every run of these steps live contacts of a channel keep pairwise distinct numbers |
| Contacts.RunKeepsIndex | backend/app/services/contacts.py:129-211 | and an entry stays bound to its contact until that is deleted |
| Contacts.RunKeepsNumber | backend/app/services/contacts.py:129-211 | a stored number stays with its live contact until that is deleted, and is held by a deleted one from then on |
| Contacts.SameNumberSameContact | backend/app/services/contacts.py:129-211 | of two calls with matching numbers that pass their checks, for a number no deleted contact holds, the first saves; the second returns the same contact if that was not deleted in between, and is refused if it was |
| Contacts.SpellingsShareContact | backend/app/services/contacts.py:129-211 | creating under any two spellings of one Kuwaiti number gives one contact, stored under 965 and the number |
| Contacts.CodeKeepsIndexExactly | backend/app/schemas/contact.py:18 | for every country code of the schema's length: no call under it, with an address of the schema's length, can duplicate a number if and only if the code amounts to 965 |
| Contacts.NumericCodeDuplicates | backend/app/services/contacts.py:141-157 | any other (numeric) code lets create_contact add, for the address 001, a second contact for a number already there |
| ContactImport.ImportPhoneBinds | backend/app/services/contact_management.py:894-927 | a usable row is refused exactly when a deleted contact holds its phone; otherwise it finds the phone bound or binds it |
| ContactImport.Importer.ImportUsable | backend/app/services/contact_management.py:894-927 | after the row `existing_by_phone` is again the address-to-id map of the live contacts |
| ContactImport.Importer.ImportNext | backend/app/services/contact_management.py:873-927 | each row moves table, index and outcomes to the next stage of the import, skipped and invalid rows leaving the table alone |
| ContactImport.Importer.Record | backend/app/services/contact_management.py:869-870 | counters and contact_ids follow the outcomes |
| ContactImport.Importer.CommitWhenDue | backend/app/services/contact_management.py:929-932 | after every row the last commit is at a multiple of a hundred imported rows and fewer than a hundred are uncommitted |
| ContactImport.Importer.RollBack | backend/app/services/contact_management.py:923-924 | a refused insert takes the table back to that commit |
| ContactImport.Importer.CommitsByHundreds | backend/app/services/contact_management.py:929-932 | the last commit before a refusal is at a whole number of hundreds of imported rows, the refused row in the hundred after |
| ContactImport.Importer.ImportRows | backend/app/services/contact_management.py:858-944 | counts, ids and final table of the whole loop; a refused insert leaves the table of the last commit, made after a whole number of hundreds of imported rows with fewer than a hundred since |
| ContactImport.Importer.ImportContactsFromRows | backend/app/services/contact_management.py:840-944 | the channel checks, then the import of all rows |
| ContactImport.ImportSummary | backend/app/services/contact_management.py:873-944 | every usable phone ends bound to the contact reported for its row, no other address is added or rebound, one contact is created per added address |
| ContactImport.SummaryBinds | backend/app/services/contact_management.py:894-927 | one more bound phone keeps that summary |
| ContactImport.CountsAddUp | backend/app/services/contact_management.py:937-944 | created + existing + skipped + invalid = rows, and total = created + existing |
| ContactImport.CountsMean | backend/app/services/contact_management.py:873-932 | skipped counts the rows without a phone, invalid those whose phone has nothing to dial, created and existing all others |
| ContactImport.RowStores | backend/app/services/contact_management.py:879-886 | a row spelling a local number of its country is imported under the dial code and the number |
| ContactImport.ImportTakesOver | backend/app/services/contact_management.py:896-927 | an existing contact takes over the fields given, a new one has them; no other contact changes |
| ContactImport.ImportRefusedExactly | backend/app/models/contact.py:12-18 | the import fails if and only if a soft-deleted contact of the channel holds the phone of some row |
| ContactImport.ImportKeepsDeleted | backend/app/services/contact_management.py:858-866 | no import changes which addresses deleted contacts hold |
| ContactImport.ImportPhoneIsStep | backend/app/services/contact_management.py:894-927 | an imported row does to the channel what the import step of the contacts runs does to the whole table |
| ContactImport.CountryKeepsNumbersExactly | backend/app/services/contact_management.py:879-883 | rows of a country can never duplicate a number among normal forms if and only if the country dials 965 |
| ContactImport.ForeignCountryDuplicates | backend/app/services/contact_management.py:880-883 | for each of the five other countries the phone 123 makes a second live contact for a number already there |
| ContactImport.KuwaitiImportKeepsNumbers | backend/app/services/contact_management.py:873-927 | an import of rows dialled with 965 leaves normal forms and distinct numbers after every row |
| Assignment.Inbox.FirstRule | backend/app/services/assignments.py:282-292 | an applicable rule that no applicable rule precedes, or none if none applies |
| Assignment.Inbox.CountOpen | backend/app/services/assignments.py:311-320 | the member's open and pending conversations in the organization |
| Assignment.Inbox.LeastOpenMember | backend/app/services/assignments.py:308-322 | the earliest of the least loaded members |
| Assignment.Inbox.NextMember | backend/app/services/assignments.py:323-329 | the member after the pointer, cyclically; the first when the pointer is not in the team |
| Assignment.Inbox.AutoAssign | backend/app/services/assignments.py:277-333 | assigns only this conversation, by the first rule's strategy; only round robin moves a pointer; nothing changes when no member is found |
| AssignmentBalance.FirstRuleExactly | backend/app/services/assignments.py:282-290 | the deciding rule is active, for the account, organization and channel, of lowest priority number and oldest among equals |
| AssignmentBalance.AssignmentMovesPointer | backend/app/services/assignments.py:308-330 | least open changes no rule, round robin only the pointer of its own |
| AssignmentBalance.RobinSpread | backend/app/services/assignments.py:323-330 | exact shares after m picks: q rounds, and one more for the members just passed |
| AssignmentBalance.RobinFollowsOrder | backend/app/services/assignments.py:323-330 | round robin goes through the team in its order, beginning after the member assigned last, or with the first if that one has left |
| AssignmentBalance.RoundRobinIsBalanced | backend/app/services/assignments.py:323-333 | any m consecutive round-robin assignments from any pointer give each member ⌊m/n⌋ or ⌈m/n⌉ |
| AssignmentBalance.RuleRunPicks | backend/app/services/assignments.py:282-333 | over a run of automatic assignments by whatever rules, the picks of a round-robin rule follow its stored pointer |
| AssignmentBalance.RoundRobinRunIsFair | backend/app/services/assignments.py:282-333 | so each member of its team gets ⌊m/n⌋ or ⌈m/n⌉ of the m conversations the rule decided |
| AssignmentBalance.ArrivalBumps | backend/app/services/assignments.py:311-332 | an assigned new open conversation adds one to that member's load and to no other |
| AssignmentBalance.ClosingFrees | backend/app/services/assignments.py:311-320 | open and pending weigh the same; closing or marking as spam takes one off the load |
| AssignmentBalance.OthersDoNotWeigh | backend/app/services/assignments.py:312-318 | conversations of other members, organizations or accounts never weigh |
| AssignmentBalance.LeastOpenServesInOrder | backend/app/services/assignments.py:321-322 | ties go to the oldest: an idle team is served in its order, round after round |
| AssignmentBalance.LeastOpenKeepsGap | backend/app/services/assignments.py:307-322 | the gap between two members never exceeds the larger of the initial gap and one |
| AssignmentBalance.PicksAddUp | backend/app/services/assignments.py:307-322 | m assignments add m to the total load |
| AssignmentBalance.SmallGapIsBalanced | backend/app/services/assignments.py:307-322 | a gap of at most one means floor or ceiling shares of the total |
| AssignmentBalance.LeastOpenIsBalanced | backend/app/services/assignments.py:307-322 | from an idle team every member holds ⌊m/n⌋ or ⌈m/n⌉ after m arrivals |
| AssignmentBalance.RunFollowsLoads | backend/app/services/assignments.py:307-332 | a run over the conversations table refines the run over load vectors |
| AssignmentBalance.LeastOpenRunIsFair | backend/app/services/assignments.py:307-332 | both fairness results for every run over the conversations table |
| Audience.SelectRecipients | backend/app/services/campaigns.py:75-130 | the duplicate and membership checks, then narrowing; the error is that of the first failing check |
| Audience.NarrowRecipients | backend/app/services/campaigns.py:90-130 | filtering step by step yields the recipients meeting all conditions at once, or the error of the first stage nobody passes |
| Audience.FilterTwice | backend/app/services/campaigns.py:93-114 | filtering twice is filtering by both conditions |
| Audience.KeptRecipients | backend/app/services/campaigns.py:90-130 | kept recipients are exactly the requested ones meeting every condition, with distinct contacts, and not none |
| Audience.KeptInOrder | backend/app/services/campaigns.py:93-128 | they stand in request order, at exactly the positions meeting every condition |
| Audience.KeptExactly | backend/app/services/campaigns.py:78-130 | who is sent to, in terms of the contacts table: listed, on the channel, opted in, dialable, reachable as demanded, and never sent before where demanded |
| Audience.EligibleExactly | backend/app/services/contact_reachability.py:59-77 | what eligibility asks of a contact's stored fields |
| Audience.ListErrorsExactly | backend/app/services/campaigns.py:75-88 | a duplicate, or a contact that is deleted or of another account or organization, and nothing else, spoils the list |
| Audience.EmptyErrorsExactly | backend/app/services/campaigns.py:98-130 | when each of the four errors for an empty selection is raised |
| Audience.CountAgreesWithSelection | backend/app/services/contact_reachability.py:226-253 | for known, distinct, on-channel recipients without the never-sent filter: creation succeeds if and only if the eligible count is positive, and keeps that many, whatever the opt-out flag |
| Audience.CountExactly | backend/app/services/contact_reachability.py:226-253 | the count is that of the given live contacts of the account who may be sent to |
| Audience.OptOutFlagIsIdle | backend/app/services/campaigns.py:101-116 | for every request, switching exclude_marketing_opt_out keeps the selection or merely exchanges the two errors for having nobody to send to |
| Audience.RepeatedFailureBars | backend/app/services/contact_reachability.py:80-107 | after a failure the contact is unreachable if and only if the error was final or it is the second since a success (inbound messages do not restart the count), and is then excluded |
| Audience.ReachableAgain | backend/app/services/contact_reachability.py:97-107 | after a delivery or an inbound message reachability bars no campaign; only a delivery restarts the failure count |
| Audience.FirstFailureIsRisky | backend/app/services/contact_reachability.py:86-94 | a first failure that is not final leaves the contact risky, any other unreachable |
| CampaignService.CampaignDesk.CreateCampaign | backend/app/services/campaigns.py:132-155 | one full draft row with the kept recipients, or an error and no change |
| CampaignRules.CreatedAsRequested | backend/app/services/campaigns.py:132-151 | a new campaign is an unapproved draft; its rows are the kept recipients in order, pending, unsent, with the parameters asked for |
| CampaignService.CampaignDesk.SelectRows | backend/app/services/campaign_follow_up.py:64-77 | the parent's recipients with a targeted status whose contacts are still there |
| CampaignService.CampaignDesk.CreateFollowUpCampaign | backend/app/services/campaign_follow_up.py:35-126 | the five refusals in order, then a draft child with renewed recipients; the parent is untouched |
| CampaignRules.FollowUpTypesNest | backend/app/services/campaign_follow_up.py:17-32 | failed is within not_delivered is within not_read; not_read adds exactly the delivered; nobody who read, is being sent to or was skipped is followed up |
| CampaignRules.FollowUpExactly | backend/app/services/campaign_follow_up.py:47-109 | when a follow-up is created, and that it reaches exactly the parent's present contacts whose outcome is outstanding, pending and with their parameters |
| CampaignRules.FollowUpRefusals | backend/app/services/campaign_follow_up.py:47-62 | which error is raised otherwise |
| CampaignService.CampaignDesk.ApproveCampaign | backend/app/services/campaigns.py:250-269 | only a draft or paused campaign within its bound gains an approval; its status, token and recipients stay |
| CampaignService.CampaignDesk.PrepareCampaignStart | backend/app/services/campaigns.py:272-300 | refusals in order; a start schedules under a fresh execution token |
| CampaignService.CampaignDesk.PauseCampaign | backend/app/services/campaigns.py:303-318 | only from scheduled or running |
| CampaignService.CampaignDesk.CancelCampaign | backend/app/services/campaigns.py:321-338 | from everything but completed and cancelled |
| CampaignService.CampaignDesk.ArchiveCampaign | backend/app/services/campaigns.py:341-365 | keeps the first archive time |
| CampaignService.CampaignDesk.UnarchiveCampaign | backend/app/services/campaigns.py:368-391 | only for an archived campaign |
| CampaignService.CampaignDesk.DeleteDraftCampaign | backend/app/services/campaigns.py:394-438 | only unsent drafts without follow-ups leave the table |
| CampaignRules.DeletedExactly | backend/app/services/campaigns.py:404-437 | a campaign leaves the table if and only if it is deleted as a draft without messages and follow-ups |
| CampaignRules.StartedNeverDisappears | backend/app/services/campaigns.py:404-428 | once past the draft it stays, in every run |
| CampaignRules.FollowsDiagram | backend/app/services/campaigns.py:250-338 | the status diagram: from each status, which operation leads where |
| CampaignRules.RefusalsExactly | backend/app/services/campaigns.py:261-379 | each error of each operation, and that a refused operation changes nothing |
| CampaignRules.WritersExactly | backend/app/services/campaigns.py:266-380 | which operation writes approval, archive mark, token, first start and heartbeat, and with what |
| CampaignRules.RowsChangeExactly | backend/app/services/campaign_recovery.py:87-100 | only a retry and single events touch recipient rows; a retry makes failed rows pending and forgets their message |
| CampaignRules.WorkerNeedsApproval | backend/app/workers/campaign_tasks.py:38-41 | a worker does nothing for an unapproved or cancelled campaign, whatever its token |
| CampaignRules.PausedResumesExactly | backend/app/workers/campaign_tasks.py:36-57 | a paused campaign runs again by a start, a retry, or a task that still holds its token |
| CampaignRules.PauseIsLost | backend/app/workers/campaign_tasks.py:40-58 | such a run: paused after the start, before the worker picks up its task, which then runs the campaign all the same |
| CampaignService.CampaignDesk.RecoverRows | backend/app/services/campaign_recovery.py:50-63 | the loop is a run of recovery steps of the machine; each row ends running under the next fresh token, and every other campaign is as before |
| CampaignService.CampaignDesk.MergeRows | backend/app/services/campaign_recovery.py:49 | running rows first, then scheduled ones not among them, no row twice |
| CampaignRules.StuckExactly | backend/app/services/campaign_recovery.py:15-46 | recovered are campaigns silent for more than fifteen minutes while running, or not begun within three minutes of creation while scheduled |
| CampaignService.CampaignDesk.RecoverStuckCampaigns | backend/app/services/campaign_recovery.py:19-64 | at most `limit` campaigns, running ones first, all of them if they fit; the new table is that of the run of their recovery steps |
| CampaignService.CampaignDesk.RecoverOneIsStep | backend/app/services/campaign_recovery.py:50-63 | an iteration of the loop is the machine's recovery step |
| CampaignService.CampaignDesk.RetryFailedCampaignRecipients | backend/app/services/campaign_recovery.py:67-121 | resets exactly the failed recipients and runs under a fresh token |
| CampaignService.CampaignDesk.WorkerBegins | backend/app/workers/campaign_tasks.py:27-58 | a task begins only under the current token, approved and not cancelled |
| CampaignService.CampaignDesk.WorkerFinishes | backend/app/workers/campaign_tasks.py:67-72 | a superseded, paused or cancelled task writes no final status |
| CampaignRuns.TouchEvolves | backend/app/services/campaigns.py:250-391 | no operation changes who the recipients are, their bound or the parent; approval is kept, cancelled is final, draft is never re-entered, a new token is the one just issued |
| CampaignRuns.CreatedIsFull | backend/app/services/campaigns.py:132-151 | a new campaign has distinct contacts and exactly max_recipients of them |
| CampaignRuns.CapIsExact | backend/app/schemas/campaign.py:20 | a campaign just created is refused approval for its recipient limit if and only if more than 10000 recipients were kept, which the schema rules out |
| CampaignRuns.RowsAreSubsequence | backend/app/services/campaign_follow_up.py:64-75 | the follow-up rows are exactly the targeted recipients, without repeats |
| CampaignRuns.FollowUpIsFull | backend/app/services/campaign_follow_up.py:94-109 | a follow-up of a full campaign is full and stays within the parent's contacts and bound |
| CampaignRuns.StepKeepsInv | backend/app/services/campaigns.py:75-438 | every step keeps full campaigns, approval, parentage and fresh tokens |
| CampaignRuns.RunKeepsInv | backend/app/services/campaigns.py:75-438 | the same over every run |
| CampaignRuns.StartedMeansApproved | backend/app/services/campaigns.py:287-295 | in every run every campaign requires approval, and one that is neither draft nor cancelled has been approved and has an execution token |
| CampaignRuns.LimitsAreUnreachable | backend/app/schemas/campaign.py:20 | over all generations of follow-ups the recipient-limit error of approve and start cannot occur, nor the follow-up error of deletion |
| CampaignRuns.LineageInherits | backend/app/services/campaign_follow_up.py:86-109 | every remote descendant keeps within its ancestor's contacts and bound |
| CampaignRuns.CancelledForever | backend/app/services/campaigns.py:321-338 | cancelled is never left, in any run |
| CampaignRuns.StepKeepsSuperseded | backend/app/services/campaigns.py:295 | a superseded token is not reissued by any step |
| CampaignRuns.SupersededForever | backend/app/workers/campaign_tasks.py:36-37 | once superseded a token never becomes current again, and tasks holding it change nothing when they begin or finish |
| CampaignRuns.NewTokenSupersedes | backend/app/services/campaign_recovery.py:51 | starting, recovering or retrying supersedes the previous token |
| CampaignRuns.RunKeepsUniqueTokens | backend/app/services/campaign_recovery.py:105-106 | no two campaigns ever carry one token |
| CampaignRuns.RetryMovesFailed | backend/app/services/campaign_recovery.py:87-140 | a retry adds exactly the failed recipients to the sendable ones and leaves no failure; it is refused exactly when there is none |

## Left out

Contracts stated below what a reader might expect:

- Auth.AuthService.Login: the user's memberships and the accounts that are open are parameters, and raising an account error, having no membership and leaving the choice to the user all count as issuing no token.
- Auth.AuthService.SwitchAccount: that the user may enter the target account, by membership or support grant, is assumed of the request.
- Contacts.CreateRefinesUpsert: covers country codes that amount to 965; Contacts.CodeKeepsIndexExactly shows that for other codes the refinement fails.
- Contacts.ContactBook.CreateContact: gender, lifecycle stage, tags and interests are not part of the profile.
- Contacts.RunKeepsIndex: imports are steps for rows whose phone is a normal form under 965, as for Kuwait; ContactImport.CountryKeepsNumbersExactly shows what rows of other countries do. Contacts of Instagram channels, whose addresses are no phone numbers, are not steps.
- CampaignService.CampaignDesk.CreateCampaign: the sending-account and template checks before the recipient checks are left out.
- CampaignService.CampaignDesk.PrepareCampaignStart: what the messaging-tier check answers is a parameter.
- CampaignService.CampaignDesk.RecoverStuckCampaigns: the rows the two queries return, with their order and limits, are parameters.
- CampaignService.CampaignDesk.WorkerFinishes: whether any send failed is a parameter, because sending is not modelled; reading the status and writing the final one are one step.

Not modelled:

- Interleavings inside a service function; recovery and retry commit between their writes and are one step here.
- Membership and role checks, account scoping of lookups, feature flags (one boolean), plan and messaging-tier limits (one boolean), template and sending-account checks of campaign creation, outbox events.
- Password hashing, token hashing and JWT encoding: a token stands for its own hash and ids are fresh; registration, requesting a reset mail, the administrator's reset and user deletion.
- Wall clock, time zones other than UTC, the year 9999 limit, negative month counts, unknown billing-cycle strings, and the calendar-month fallback without a subscription.
- A crash between Redis INCR and EXPIRE, after which a counter would never expire.
- Matching of automation triggers and which automations a run is queued for; the automation worker, which may run a node once per walk that reaches it, so the step bound is per walk; node data that is not an integer, and the adjacency of incoming edges, which is filled but never read.
- Campaign sending itself: recipient rows change by arbitrary events; names, template parameters and error texts, completion and pause times, and task ids carry no behaviour here.
- Editing contacts, which leaves numbers alone; messages and conversations of inbound handling, and the handlers in whatsapp.py, which do not refuse an empty sender; gender, tags, interests, lifecycle stage and custom fields; trimming of country codes, whose blanks are not digits anyway.
- Spreadsheet parsing and column aliases, the country cell's case (taken upper-cased), and contacts of other channels during an import.
- The text patterns of delivery-error classification (one boolean), the query behind "previously sent" (a set), and reachability summaries and backfills.
- JSON arrays and scalars inside site content are opaque leaves; downgrades and timestamps of the migrations.
- HTTP routes, clients of outside services, analytics, reports, catalog, rendering, encryption and the frontend.
