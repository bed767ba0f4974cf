# A verified model of the food-delivery backend

This project models the parts of the backend whose correctness spans more than one function: the weekly
schedule that opens and closes stores, refresh tokens on the server and across the admin console's browser
tabs, the notification sweep, the category directory, the variants of a menu item, the bill, and the three
at-most-once mechanisms (idempotency keys, one-time codes, the rate limiter).

Code that changes state is a class or a method proved equal to a function on values; runs are folds of those
functions over events, or step-by-step transition systems where several workers, tabs or transactions
interleave. What the code promises is then proved of the functions and of every run.

| file | what it holds |
|---|---|
| `Options`, `Text` | `Option`; ASCII `strip`, `lower` and string order |
| `Timeline` | answers over all time, their next flip, and why one period decides it |
| `BusinessHours`, `StoreSync` | the schedule; saving, sweeping and toggling a store |
| `TokenService`, `TokenChains`, `TokenPruning`, `TokenOverlap` | the refresh-token table, its rotation chains, its pruner, and redemptions that overlap |
| `SessionStore`, `AdminSession` | one browser tab's storage; all tabs, the Web Lock and the server together |
| `Notifications`, `NotificationSweep` | the fan-out; concurrent sweeps, send-nows, cancels and crashes |
| `CategoryNames`, `CategoryDirectory`, `CategoryCounts` | derived names; lookup, creation and merge; who sells under a chip |
| `MenuVariants`, `MenuFlush`, `MenuItem`, `MenuVariantRules` | the variant operations as functions; one flush row by row; the operations as flushes; what runs of them keep |
| `Money`, `Commission`, `Pricing` | rounding, rates, delivery fee and reach, the quote |
| `Idempotency`, `IdempotencyRuns` | one request under a key; requests that overlap, as transactions |
| `OtpService`, `OtpRuns`, `OtpSends`, `OtpBudget` | one request at a code; verifications that overlap; sends that overlap; guesses over a stretch of time |
| `RateLimit` | the fixed-window counter over whole runs |

Times are integers (microseconds in the schedule and the token table, seconds elsewhere) and the clock never
runs backwards over a run. Decimals and floats are exact reals. Local time is UTC plus a fixed six hours.
Randomness, the clock, the network and the database's own refusals are parameters or nondeterministic choices.

## Where the code and its words differ

The model follows the code. These are the places where a comment, a docstring or an expectation does not hold,
each with the exact condition or a witness.

- `sync_all` says a vendor saving hours is never overwritten with an answer computed from the old ones. Where a pass
  reads, the save commits, and the pass then writes, it is, exactly when the old hours called for a write and the
  save left `scheduled_open` at the value the pass had read (`RacedWriteLandsIff`, `RacedWriteCanLand`). Where the
  save loads the row, a pass commits, and the save then writes the columns it changed, the save takes effect at once
  exactly when the new hours say what the pass said, or it changed both columns against what it loaded
  (`SaveOverPassIff`, `SaveCanBeLost`; for any change in between, `SaveTakesEffectIff`). The next pass corrects
  the first (`NextPassCorrectsRace`), and the second for a store that stood as the schedule last said
  (`NextPassCorrectsSave`; for any store, `NextPassCorrectsSaveIff`).
- `rotate` checks the row's own expiry after the token's. The token never outlives the row, so that check never
  decides (`RowExpiryNeverDecides`).
- Pruning is invisible to everyone who redeems a token. It shows in one place: logging out of a session whose
  token expired a retention period ago (`PruningShowsOnlyOnExpiredLogout`, `PruningCanShow`).
- `admin_merge` can forget spellings when the survivor was renamed away from its slug
  (`MergeKeepsEverySpellingIff`), an old link opens nothing when the old slug reads the same as the survivor's
  name (`OldLinkStillOpensIff`), and a name goes to a third category exactly when one that matches it comes before
  the target (`MergeFindsSurvivorIff`, `TakeoverExists`).
- `sells_under` says it returns exactly what the chip's count promised. It does exactly when no other active
  category that the slug opens adds a seller (`CountIsWhatIsListedIff`); `FilterCanListMore` is a directory where one
  does.
- `_sync_variants` accepts one id twice; the item can then be left with variants and no default
  (`SyncHasOneDefaultIff`, `RepeatedIdCanLoseDefault`), and stays so until an operation brings one back
  (`LacksDefaultIff`).
- A legal replace-set can be refused by the unique name on the way: `FlushAcceptedIff` says exactly when. Swapping
  two names, or sending a removed size again by name, always is (`SwapIsRefused`, `ResentNameIsRefused`).
- `delivery_reach_km` is called the farthest distance whose fee fits. Every distance within it fits exactly when the
  reach rounded to a whole metre does (`AllWithinFitIff`, `WithinReachCanExceed`), and none beyond it fits exactly
  when the first whole metre beyond does not (`NoneBeyondFitsIff`, `ReachIsNotFarthest`). The margins in between are
  `WithinReachFits` and `FitsIsNearReach`.
- `begin` promises one attempt at the work. When a key's row has expired, two requests that both read it before
  either commits both do the work (`OverlapProceedsTwice`); `ProceedsWithinClaimIff` says that nothing else lets a
  request proceed within a committed claim's lifetime. The later one can leave its response under the earlier one's
  request (`TakeoverMixesIff`), and a request whose row is collected between its insert and its read proceeds
  without one (`LostClaimProceedsTwice`, `LostCompletionLandsOnOther`).
- It also promises a 409 while an identical request is in progress. Under the endpoint that uses it a retry waits
  instead, and that answer is never given (`NeverInProgress`).
- `rotate` and `verify_and_consume` read a row and write it later, with no lock between. A refresh token is redeemed
  twice, or after its user's sessions were ended, only by requests that overlap so (`RedeemedTwiceOnlyByOverlap`,
  `RedeemedAfterEndOnlyByOverlap`); a code is accepted twice exactly when two acceptances overlap
  (`AcceptedOnceIff`), and its counter is exact, so that MAX_ATTEMPTS holds, exactly when no wrong guess was lost to
  an overlap (`CounterIsExactIff`, `BudgetHoldsIff`). Two sends that both pass the cooldown check both send
  (`OverlapSendsTwice`, `SpacedIff`). Each does happen (`AnyTokenCanBeOverlapped`,
  `AnyCodeCanBeOverlapped`).
- Redeeming the newest one-time code brings back exactly the newest older one that is neither consumed, expired nor
  used up (`OlderCodeComesBackIff`, `OlderCodeComesBack`), and a caller whose transaction fails after a right guess
  leaves the code unspent (`RolledBackCodeStillWorks`).
- `hit` says the worst interleaving loses one window's TTL. A process that dies between INCR and EXPIRE on the hit
  that opens a window leaves a key that never expires, and only there (`KeyCountsWindow`): once the window is used
  up, every later hit is refused, whenever it comes, if and only if its opening hit crashed (`LockedOutIff`).
- The console's comment says refreshes are serialised so that a rotated token is not presented again. One still is,
  exactly when an answer that the server acted on is lost and a request re-reads storage before the failed one
  clears it (`ReuseIff`, `PresentedAgainWasReread`, `LostAnswerMeansReuse`).

## Model

| member | source | states |
|---|---|---|
| `BusinessHours.SpanRunsFromOpeningToClosing` | app/services/business_hours.py:52-66 | the period of a day that has one starts on that day when the clock shows the opening time and ends the next time it shows the closing time, past midnight included |
| `BusinessHours.OpenIffEntryCovers` | app/services/business_hours.py:52-81 | open at an instant if and only if some day's entry is open and the instant, six hours ahead of UTC, lies from its opening time to before its closing time, the next day's where that is not later |
| `BusinessHours.OpenIffSomeDayCovers` | app/services/business_hours.py:69-81 | checking yesterday and today gives the same answer as checking every day there is |
| `BusinessHours.OpenIsWeekly` | app/services/business_hours.py:69-81 | the open/closed answer repeats every seven days |
| `BusinessHours.FlipIsEndpoint` | app/services/business_hours.py:84-99 | the answer changes only where some day's period starts or ends |
| `BusinessHours.EndpointInWindow` | app/services/business_hours.py:89-95 | every start or end of the coming week belongs to a day from -1 to 7 |
| `BusinessHours.Candidates` | app/services/business_hours.py:89-95 | the moments collected are exactly the later endpoints of periods of days -1 to 7 |
| `BusinessHours.CandidatesSuffice` | app/services/business_hours.py:89-95 | those moments include every flip of the coming week, of a schedule that repeats weekly |
| `BusinessHours.NextChange` | app/services/business_hours.py:84-99 | the least instant after `at` whose answer differs, constant until then; None means it never changes, over all time |
| `Timeline.FirstFlipAmong` | app/services/business_hours.py:96-99 | scanning one period's flips in order finds the first flip over all time, or shows there is none |
| `Timeline.NextFlipIsUnique` | app/services/business_hours.py:84-99 | the specification of the next change has one answer |
| `StoreSync.Restaurant.Apply` | app/services/business_hours.py:102-114 | the store's new row, and whether `status` moved; nothing happens without hours |
| `StoreSync.Restaurant.WriteIfUnmoved` | app/services/business_hours.py:139-152 | the conditional write lands exactly where `scheduled_open` still holds what the pass read |
| `StoreSync.SyncAll` | app/services/business_hours.py:117-160 | every store becomes what one pass makes of it, and the count returned is the number of stores that the pass changed |
| `StoreSync.CountsTheChanged` | app/services/business_hours.py:132-160 | counting the rows whose answer moved counts the stores that change |
| `StoreSync.ScheduledOpenIsLastAnswer` | app/services/business_hours.py:9-17 | after any run of passes, toggles and saves, `scheduled_open` is the schedule's last answer as read off the history alone |
| `StoreSync.PassFollowsSchedule` | app/services/business_hours.py:9-17 | every pass, however many were missed, leaves `scheduled_open` at what the hours say and moves `status` exactly when that is not what the schedule last said |
| `StoreSync.SaveTakesEffect` | app/services/business_hours.py:102-114 | after any run, a save of hours with nothing between its load and its write opens or closes the store at once; with no hours, None or empty, neither the save nor any pass moves the store |
| `StoreSync.SaveTakesEffectIff` | app/services/business_hours.py:102-114 | over a row that moved in between in any way: it does so if and only if each of the two columns it sets was news to the row it loaded, or already holds that value |
| `StoreSync.SaveOverPassIff` | app/services/business_hours.py:102-152 | over a pass that wrote in between: if and only if the new hours say what the pass said, or neither column was what the save had loaded |
| `StoreSync.SaveOverPassInStepIff` | app/services/business_hours.py:102-152 | for a store that stood as the schedule last said: if and only if the new hours say what the pass said |
| `StoreSync.SaveCanBeLost` | app/services/business_hours.py:102-152 | a schedule and a save after which the store stays open against the hours just saved |
| `StoreSync.NextPassCorrectsSave` | app/services/business_hours.py:136-152 | for such a store the next pass always puts it right |
| `StoreSync.NextPassCorrectsSaveIff` | app/services/business_hours.py:136-152 | and for any store, whatever came in between, exactly when |
| `StoreSync.ToggleHoldsUntilNextChange` | app/services/business_hours.py:9-15 | from one pass to the next flip of the hours, no pass touches the vendor's toggle |
| `StoreSync.ToggleEndsAtFlip` | app/services/business_hours.py:9-15 | a pass between that flip and the following one sets the store to the new answer |
| `StoreSync.RacedWriteLandsIff` | app/services/business_hours.py:121-152 | exactly when a save that comes between a pass's read and its write is overwritten |
| `StoreSync.RacedWriteCanLand` | app/services/business_hours.py:121-152 | a concrete schedule where it is, leaving the store open against its hours |
| `StoreSync.NextPassCorrectsRace` | app/services/business_hours.py:139-152 | whatever landed, the next pass leaves the store as the new hours say |
| `TokenService.TokenStore.IssueTokenPair` | app/services/token_service.py:35-65 | the new row, the pair handed out, and the spent row's revocation and link |
| `TokenService.TokenStore.Rotate` | app/services/token_service.py:90-123 | the answer and the table in every branch: undecodable, expired, unknown, reused, inactive, granted |
| `TokenService.TokenStore.RevokeAllForUser` | app/services/token_service.py:126-139 | afterwards the user has no live session; exactly the rows that were live are stamped, each in that one field, every other row is as it was, and the number stamped is returned |
| `TokenService.TokenStore.RevokeOne` | app/services/token_service.py:142-165 | true if and only if the presented token's row is there, is that user's and was live; then that row is stamped in that one field, and every other row is as it was |
| `TokenService.TokenStore.PruneExpired` | app/workers/tasks.py:55-74 | a row stays if and only if it has not been expired for the retention period or was revoked within it; a row that stays keeps every field, but for a link to one that went; the rows that went are counted |
| `TokenService.PrunedRowByRow` | app/workers/tasks.py:62-69 | those conditions on each row determine the whole table |
| `TokenChains.RunKeepsValid` | app/services/token_service.py:35-139 | every run keeps the table's invariant: ids, owners, expiries and links |
| `TokenChains.ReachableChains` | app/services/token_service.py:57-59 | in every reachable table links go from older rows to newer ones and never come back round, chains are disjoint, every linked row is revoked, and a chain has at most one live token |
| `TokenChains.ChainsDisjoint` | app/services/token_service.py:57-59 | of two paths of links that meet, the longer passes through the start of the shorter |
| `TokenChains.AcceptedAtMostOnce` | app/services/token_service.py:90-123 | over any run of requests one after another, no token is redeemed twice |
| `TokenOverlap.RedeemedTwiceOnlyByOverlap` | app/services/token_service.py:98-122 | over any run of requests that overlap, a token is redeemed twice only if the later request read the row before the earlier one wrote it |
| `TokenOverlap.RedeemedAfterEndOnlyByOverlap` | app/services/token_service.py:68-139 | and after its user's sessions were ended only if the request had read the row before that |
| `TokenOverlap.OverlapRedeemsTwice` | app/services/token_service.py:98-122 | both happen from any state in which requests have read the token as live |
| `TokenOverlap.AnyTokenCanBeOverlapped` | app/services/token_service.py:98-122 | so any token that could be redeemed can be redeemed twice by two requests at once, and survive a logout everywhere |
| `TokenOverlap.AloneIsRotated` | app/services/token_service.py:90-123 | a redemption with nothing between its read and its write is the one-step redemption |
| `TokenChains.RotatedRowByRow` | app/services/token_service.py:68-123 | each reason for a refusal in terms of the token and its row; a grant revokes and links the row presented and adds the next, a reuse stamps the live rows of that user and of no one else, any other refusal changes nothing |
| `TokenChains.NothingSurvivesRevocation` | app/services/token_service.py:68-87 | after a reuse or a mass revocation, no token the user held before is ever accepted again |
| `TokenChains.LogoutEndsPresented` | app/services/token_service.py:142-165 | a logout answers true if and only if it presents a live token of that user, and then stamps that row alone |
| `TokenChains.LoggedOutForGood` | app/services/token_service.py:142-165 | over any run after a logout that answered true, the token is never accepted |
| `TokenChains.AcceptedUntilEndedIff` | app/services/token_service.py:90-165 | over any run, a token that was live is accepted at the end if and only if it has not expired, the account is active, and no event of the run logged its user out everywhere, logged it out, redeemed it, or presented a revoked token of its user |
| `TokenChains.NewPairWorks` | app/services/token_service.py:43-65 | a refresh token just issued is redeemed exactly until it expires 30 days on; the access token lasts 30 minutes and is never taken for a refresh token |
| `TokenChains.RowExpiryNeverDecides` | app/services/token_service.py:112-113 | in a valid table the row's own expiry check is never the reason for a refusal |
| `TokenChains.PruneKeepsSuccessors` | app/workers/tasks.py:55-74 | a surviving row's successor survives: pruning removes only prefixes of chains |
| `TokenChains.PruneOnlyDeletes` | app/workers/tasks.py:62-69 | so pruning changes no row it keeps, and SET NULL never fires |
| `TokenPruning.PruneDropsOnlyExpired` | app/workers/tasks.py:62-69 | a pruned row's token has already expired, so it is refused before the lookup |
| `TokenPruning.PruningIsInvisible` | app/workers/tasks.py:55-74 | taking every pruning job out of a run changes no answer to a sign-in or a redemption |
| `TokenPruning.RedeemAgrees` | app/services/token_service.py:98-123 | one redemption is answered the same with and without the rows a pruner may have dropped |
| `TokenPruning.PruningShowsOnlyOnExpiredLogout` | app/services/token_service.py:142-165 | exactly when pruning changes what a logout reports |
| `TokenPruning.PruningCanShow` | app/services/token_service.py:142-165 | a reachable table where it does: a sign-in, and a logout 61 days later |
| `SessionStore.SavedIn` | admin-web/src/lib/session.ts:73-89 | a save is read back, leaves one store holding a session; a refresh keeps the store the session lives in, a sign-in uses the one it names |
| `SessionStore.Tab.SaveSession` | admin-web/src/lib/session.ts:73-89 | what the two stores and the module variable hold afterwards |
| `SessionStore.Tab.ReloadSession` | admin-web/src/lib/session.ts:68-71 | the module variable becomes what storage holds, localStorage first |
| `SessionStore.Tab.ClearSession` | admin-web/src/lib/session.ts:96-100 | both stores and the module variable are emptied |
| `AdminSession.PlayKeepsInv` | admin-web/src/lib/api.ts:110-146 | any interleaving of tabs opening and closing, requests, 401s, lock, reload, refresh, lost answers, save, release and storage events keeps the protocol's invariant |
| `AdminSession.ServeKeepsInv` | admin-web/src/lib/api.ts:112-116 | the lock's holder presents the newest token, so the server rotates it and sees no reuse |
| `AdminSession.ReloadKeepsInv` | admin-web/src/lib/api.ts:112-114 | re-reading storage under the lock and comparing keeps that invariant in each of its three outcomes |
| `AdminSession.NoReuse` | admin-web/src/lib/api.ts:106-127 | in any run that loses no answer the server acted on, no refresh presents a rotated or revoked token, and the server never answers with the reuse response |
| `AdminSession.ReuseIff` | admin-web/src/lib/api.ts:106-141 | in any run, lost answers included, the server sees reuse if and only if after a lost answer some request presents again what that refresh presented, unexpired and not yet pruned |
| `AdminSession.PresentedAgainWasReread` | admin-web/src/lib/api.ts:112-138 | such a request had re-read storage under the lock after the loss and found that pair still there, not yet cleared |
| `AdminSession.OneRotationPerStaleToken` | admin-web/src/lib/api.ts:106-127 | losing no answer, all requests in all tabs that met a 401 with one access token cause at most one rotation, and exactly one once a refresh of theirs has returned |
| `AdminSession.RefreshSucceeds` | admin-web/src/lib/api.ts:110-145 | undisturbed, a request queued on the lock goes out again with the newest access token, and contacts the server only if no other tab had refreshed |
| `AdminSession.RequestRecovers` | admin-web/src/lib/api.ts:128-145 | so a call of a signed-in tab that meets a 401 is, undisturbed, sent again with the newest access token, which is not the one refused |
| `AdminSession.RefusedSignsOut` | admin-web/src/lib/api.ts:110-142 | a refresh that finds nothing stored, or is refused by the server, signs the tab out and ends the request |
| `AdminSession.FailedRefreshSignsOut` | admin-web/src/lib/api.ts:134-142 | a refresh that failed for any reason leaves both stores the tab sees and its variable empty and the lock free, and touches nothing of other tabs or the server |
| `AdminSession.LostAnswerMeansReuse` | admin-web/src/lib/api.ts:106-141 | it does happen: an answer is lost and a second tab takes the lock before storage is cleared |
| `AdminSession.SessionLivesInOnePlace` | admin-web/src/lib/session.ts:45-89 | losing no answer, at most one store holds the session, and it is the newest unless the lock's holder is about to save it |
| `AdminSession.LiveTokenIsNotReuse` | app/services/token_service.py:90-123 | a live or unknown token is granted a fresh pair or refused without any change, never taken for reuse |
| `Notifications.Session.Dispatch` | app/services/notifications.py:64-124 | one fan-out: rows for the whole audience, their count, the time and the pushes sent, or FAILED, the reason cut to 500 characters, and no rows |
| `Notifications.Session.SendDue` | app/services/notifications.py:213-216 | each due campaign is dispatched in order, and counted |
| `Notifications.SweepSettlesEach` | app/services/notifications.py:64-124 | whatever became of the other campaigns of the sweep, each one it took is SENT with its count, time and pushes and one new row per member its own statement saw, or FAILED with its reason and no rows; nothing else is written |
| `Notifications.ReasonFits` | app/services/notifications.py:87-88 | a failure reason is the whole text, or its first 500 characters |
| `Notifications.Session.Create` | app/services/notifications.py:127-154 | refuses a time without a zone, a past one or one too distant, without writing; schedules; or sends at once |
| `Notifications.Session.Cancel` | app/services/notifications.py:157-167 | cancels exactly a scheduled campaign |
| `NotificationSweep.PlayKeepsInv` | app/services/notifications.py:64-216 | every interleaving of sweeps, send-nows, cancels, failures, commits and rollbacks keeps the database's invariant |
| `NotificationSweep.FanoutExactlyOnce` | app/services/notifications.py:64-124 | SENT means one committed row per member of the audience its fan-out saw, a matching count and a time; every other status means no rows and no time, and a reason exactly on FAILED |
| `NotificationSweep.SentToAudienceOfItsFanout` | app/services/notifications.py:64-124 | over the run: a SENT campaign's rows are one for each active account of its audience at the very step that fanned it out, and no others, and its time is that step's |
| `NotificationSweep.SentByRole` | app/services/notifications.py:36-82 | over the run, account by account: a user has one row of a SENT campaign if the account was active at that step and was a customer, vendor or rider in a campaign to that role or to ALL, and none otherwise; administrators never have one |
| `NotificationSweep.NeverSentEarly` | app/services/notifications.py:197-216 | over every interleaving, no campaign is sent before the time it was scheduled for |
| `NotificationSweep.SweepTakesOldest` | app/services/notifications.py:200-211 | a sweep leaves a due campaign that nobody holds only when it took 20, none of which was to go out later |
| `NotificationSweep.ScheduledIsSent` | app/services/notifications.py:127-216 | a campaign scheduled within the next 90 days is sent by the first sweep after its time to whoever is in its audience then, however accounts changed meanwhile |
| `NotificationSweep.FanoutSeesCurrentAudience` | app/services/notifications.py:36-82 | what a fan-out sees is the accounts active at that moment whose role the campaign is to, administrators never |
| `NotificationSweep.FinalStaysFinal` | app/services/notifications.py:157-216 | SENT, FAILED and CANCELLED, and the inbox rows with them, never change again |
| `NotificationSweep.SweepSettlesDue` | app/services/notifications.py:197-216 | a due campaign left alone is sent to its whole audience by one sweep, or recorded FAILED with no rows; a crash before the commit changes nothing |
| `NotificationSweep.NeverHeldTwice` | app/services/notifications.py:202-209 | no two open transactions hold one campaign |
| `CategoryNames.SqueezeJoinsWords` | app/services/category_service.py:84-86 | single-spacing is splitting on whitespace and joining with one space |
| `CategoryNames.MatchKeyIdempotent` | app/services/category_service.py:84-86 | a match key is its own match key |
| `CategoryNames.SlugOfKeyIsSlug` | app/services/category_service.py:94-98 | whatever text is left of a name, in any script, and whatever its hash, the slug is non-empty, at most 100 characters, lower-case alphanumeric words joined by single dashes |
| `CategoryNames.SlugOfSlug` | app/services/category_service.py:94-98 | and it is the slug of itself |
| `CategoryNames.SlugForIdempotent` | app/services/category_service.py:89-98 | for an ASCII name, from the name itself: the slug of its slug is its slug |
| `CategoryNames.SlugIsFixed` | app/services/category_service.py:84-98 | a slug is its own match key and its own slug |
| `CategoryNames.BangedSpelling` | app/services/category_service.py:84-98 | infinitely many different keys share one slug |
| `CategoryNames.DisplayNotBlank` | app/services/category_service.py:101-104 | a name that is not blank is not displayed as blank |
| `CategoryNames.DisplayIsSpelling` | app/services/category_service.py:84-104 | a displayed name, lower-cased, is the key of the name it came from as far as 80 characters go, and so has the same key when that fits |
| `CategoryNames.DisplayCapitalises` | app/services/category_service.py:101-104 | of the words, exactly those typed all in lower case that begin with a letter change, and only that letter does |
| `CategoryDirectory.CategoryTables.AdminMerge` | app/services/category_service.py:570-606 | the three refusals, and the directory and sections after a merge |
| `CategoryDirectory.CategoryTables.Resolve` | app/services/category_service.py:254-294 | the found category, the row that took the slug meanwhile, or a new row: inactive, without aliases, with the displayed name and a slug no other category had |
| `CategoryDirectory.OnlyMatchIsFound` | app/services/category_service.py:227-251 | a lookup that only one category matches returns it |
| `CategoryDirectory.BestMatchIsFound` | app/services/category_service.py:227-251 | whatever else matches: a category with the name's slug is the one returned; failing that one with the name, and failing that one with an alias, the oldest first |
| `CategoryDirectory.ResolveIsStable` | app/services/category_service.py:254-294 | a name that created a category is found there, and only there, from then on |
| `CategoryDirectory.ResolveKeepsValid` | app/services/category_service.py:271-277 | creation keeps slugs unique and slug-shaped and names non-blank |
| `CategoryDirectory.MergeKeepsValid` | app/services/category_service.py:588-598 | so does a merge |
| `CategoryDirectory.MergeKeepsSpelling` | app/services/category_service.py:593-596 | merging into a survivor whose slug is that of its name loses no spelling, despite the subtraction |
| `CategoryDirectory.MergeKeepsEverySpellingIff` | app/services/category_service.py:593-596 | for any two categories, the condition, checkable before the merge, under which exactly a merge loses no spelling |
| `CategoryDirectory.LostBySlug` | app/services/category_service.py:593-596 | the first failing family, with a spelling that is lost |
| `CategoryDirectory.LostByKey` | app/services/category_service.py:593-596 | the second, likewise |
| `CategoryDirectory.RenamedSurvivorForgets` | app/services/category_service.py:593-596 | a survivor whose name reads as the slug it absorbs, while its own slug is another, forgets spellings |
| `CategoryDirectory.RenamedSurvivorExists` | app/services/category_service.py:593-596 | such a pair of categories |
| `CategoryDirectory.MergeKeepsResolution` | app/services/category_service.py:227-251 | after a merge that loses no spelling, a name that resolved to either category resolves to the survivor, when no third category matches it |
| `CategoryDirectory.MergeFindsSurvivorIff` | app/services/category_service.py:227-251 | after a merge that loses no spelling, a name that matched either category finds the survivor if and only if no third category that matches it comes before the target: checkable before the merge |
| `CategoryDirectory.TakeoverExists` | app/services/category_service.py:227-251 | a directory in which a name found the source before the merge and does not find the survivor after it |
| `CategoryDirectory.OldLinkStillOpensIff` | app/services/category_service.py:192-198 | a link to the merged slug still opens the survivor exactly when that slug is not the survivor's own match key |
| `CategoryDirectory.OldLinkOpensWellNamed` | app/services/category_service.py:192-198 | for a survivor whose slug is that of its name it always does |
| `CategoryCounts.CountIsWhatIsListedIff` | app/services/category_service.py:169-219 | the filter lists as many restaurants as the chip counts exactly when no other active category the slug opens adds one; then they are the same restaurants |
| `CategoryCounts.FilterCanListMore` | app/services/category_service.py:201-219 | a valid directory whose chip counts no restaurant and whose filter lists one |
| `CategoryCounts.UnaliasedSlugIsOwn` | app/services/category_service.py:201-219 | a slug that is no other category's alias meets that condition |
| `CategoryCounts.NewCategoryListsNobody` | app/services/category_service.py:254-294 | a category created for a vendor's name shows nowhere: whatever sections are linked to it, every slug lists what it would without them |
| `CategoryCounts.HiddenListsNobody` | app/services/category_service.py:201-219 | a hidden category adds no restaurant to any list |
| `CategoryCounts.DeadSectionCountsNowhere` | app/services/category_service.py:169-219 | a hidden section, one without a live item, or one of a restaurant that is not visible counts under no category and puts its restaurant on no list |
| `CategoryCounts.LiveSectionCounts` | app/services/category_service.py:169-219 | any other puts its restaurant in its category's count, and on the list of its slug and aliases if the category is active |
| `CategoryCounts.MergeUnitesSellers` | app/services/category_service.py:588-598 | a merge moves every section of the source and no other, and the survivor's sellers are the union of the two sets |
| `MenuItem.ApplyPositionalOrder` | app/services/menu_service.py:373-384 | an unordered payload gets its positions, an ordered one is left alone |
| `MenuItem.ResolveDefault` | app/services/menu_service.py:387-398 | two flagged entries are refused; the first entry is promoted when none is flagged |
| `MenuItem.Item.SyncVariants` | app/services/menu_service.py:401-457 | the replace-set, or the rows as they were: refused as the payload's first problem says, and otherwise, without database trouble, exactly when some size takes a name another still has when its turn to be written comes; at no point of a flush are two rows flagged |
| `MenuItem.Item.ReplaceRows` | app/services/menu_service.py:413-449 | the same, up to the flush that clears the old default |
| `MenuItem.Item.ApplyEntries` | app/services/menu_service.py:413-439 | the loop over the payload overwrites named rows and appends new ones, or stops at the first entry it refuses |
| `MenuItem.Item.DropUnmentioned` | app/services/menu_service.py:441-444 | exactly the old rows the payload does not name are dropped |
| `MenuItem.Item.AddVariant` | app/services/menu_service.py:516-564 | one more row, on any item with at most one default, and never two; refused only when full or when a name repeats |
| `MenuItem.Item.UpdateVariant` | app/services/menu_service.py:567-625 | the edited row, promotion in two flushes, and every refusal: unknown id, un-defaulting the default, a repeated name |
| `MenuItem.Item.DeleteVariant` | app/services/menu_service.py:664-695 | the row is gone and, if it was the default, another is promoted; refused only for an unknown id |
| `MenuVariantRules.DeletePromotesFirstShown` | app/services/menu_service.py:688-692 | the one promoted is the first of the rest in display order, and nothing else changes |
| `MenuVariantRules.DeletedRow` | app/services/menu_service.py:664-695 | a deletion takes out one row and keeps the rest in order, each as it was but for a flag |
| `MenuVariantRules.FirstShownIsFirst` | app/services/menu_service.py:689 | sorting by order and name and taking the first gives a row no other comes before, and the earliest of those that tie |
| `MenuItem.AddedHasOneDefault` | app/services/menu_service.py:537-559 | adding keeps at most one default; there is one afterwards exactly if there was, or the variant is the first or asked to be it, and then it is it |
| `MenuVariantRules.AddedRow` | app/services/menu_service.py:511-559 | the new row has the trimmed name, its price to the nearest paisa and the place asked for, or one after the last; the other rows change in nothing but a flag |
| `MenuItem.UpdatedHasOneDefault` | app/services/menu_service.py:604-616 | updating keeps at most one default; there is one afterwards exactly if there was or this variant is promoted, and then it is it |
| `MenuVariantRules.UpdatedRow` | app/services/menu_service.py:567-625 | an update writes the fields it names and no other, and promoting the row demotes whichever was the default |
| `MenuItem.DeletedHasOneDefault` | app/services/menu_service.py:682-692 | deleting keeps at most one default, leaves none in between when the default goes, and there is one afterwards exactly if there was and a row is left |
| `MenuFlush.FlushAcceptedIff` | app/models/menu.py:153-164 | updates in id order, then inserts, then deletes, each checked against the rows there at that moment, all pass if and only if no row takes a name another still has when its turn comes |
| `MenuFlush.ResentNameIsRefused` | app/services/menu_service.py:413-449 | sending a removed size again by name is refused, whatever the order of ids |
| `MenuFlush.SwapIsRefused` | app/services/menu_service.py:413-449 | so is swapping two names |
| `MenuVariantRules.SyncAcceptedIff` | app/services/menu_service.py:401-449 | the rows a replace-set flushes meet the conditions of that equivalence, so it decides every replace-set |
| `MenuVariantRules.NoProblemMeansKnown` | app/services/menu_service.py:413-419 | the loop refuses exactly when some entry's id is malformed or not this item's |
| `MenuVariantRules.RowHasEntry` | app/services/menu_service.py:413-444 | every row left was written by an entry: the last that names its id, or one without an id |
| `MenuVariantRules.EntryHasRow` | app/services/menu_service.py:413-444 | every such entry has its row |
| `MenuVariantRules.SyncedRowSays` | app/services/menu_service.py:373-457 | after a replace-set every row says in name, price, availability and place what its entry says: an old row the last entry with its id, a new row an entry without one |
| `MenuVariantRules.SyncedEntryHasRow` | app/services/menu_service.py:373-457 | and every entry has such a row, unless a later one has its id |
| `MenuVariantRules.SyncRefusedBy` | app/services/menu_service.py:387-432 | refused exactly for two flagged entries, or else by the first entry whose id is malformed or no row of this item, and for that reason |
| `MenuVariantRules.SyncKeepsExactlyTheNamedIds` | app/services/menu_service.py:401-444 | the old ids that survive are exactly those the payload names; all other rows are new |
| `MenuVariantRules.SyncHasOneDefaultIff` | app/services/menu_service.py:446-457 | after an accepted replace-set the item has exactly one default if and only if some deciding entry still bears the default entry's name |
| `MenuVariantRules.SyncDefaultIsFlagged` | app/services/menu_service.py:387-457 | and that default has the name of the flagged entry, or of the first when none is flagged |
| `MenuVariantRules.DistinctIdsKeepDefault` | app/services/menu_service.py:387-457 | a payload that names no id twice always meets that |
| `MenuVariantRules.RepeatedIdCanLoseDefault` | app/services/menu_service.py:413-457 | one that does can leave variants and no default |
| `MenuVariantRules.CallLacksIff` | app/services/menu_service.py:516-695 | one operation on any item: its default is missing afterwards if and only if a replace-set lost it, or it was missing and the operation does not bring it back |
| `MenuVariantRules.LacksDefaultIff` | app/services/menu_service.py:401-695 | over any sequence of operations on any item: ids stay distinct, no two variants are the default, and the default is missing at the end if and only if it was lost, or missing at first, and nothing since brought it back |
| `MenuVariantRules.UnorderedPayloadSetsOrder` | app/services/menu_service.py:373-384 | without explicit order each row's `sort_order` is the payload position of the entry it came from |
| `MenuVariantRules.UnorderedPayloadFillsOrder` | app/services/menu_service.py:373-384 | no two rows share a position and every position is taken: display order is payload order |
| `MenuVariantRules.AlwaysOneDefault` | app/services/menu_service.py:401-695 | so over any sequence whose replace-sets keep their default entry's name, an item with variants always has exactly one default |
| `Money.RoundHalfUpIsNearest` | app/core/money.py:18-39 | rounding moves a value by at most half, and upwards on a tie for non-negative values |
| `Money.MinorRoundTrip` | app/core/money.py:18-28 | paisa to taka and back is the identity |
| `Money.MajorRoundTrip` | app/core/money.py:18-28 | taka to paisa and back is within half a paisa |
| `Money.PercentageIsNearest` | app/core/money.py:31-39 | a percentage is exact to the nearest paisa |
| `Money.PercentageMonotoneInAmount` | app/core/money.py:31-39 | a larger amount is never charged less |
| `Money.PercentageMonotoneInRate` | app/core/money.py:31-39 | a higher rate never charges less |
| `Money.PercentageWithin` | app/core/money.py:31-39 | a rate of at most 100% takes between nothing and the amount |
| `Money.LineByLineVersusWhole` | app/services/pricing.py:253-256 | commission line by line differs from commission on the total by at most n/2 paisa for n lines |
| `Pricing.RoundIsNearest` | app/services/pricing.py:124-128 | `round` moves a value by at most half, and a half to the even integer |
| `Pricing.FeeNonNegative` | app/services/pricing.py:174-184 | a delivery fee is never negative |
| `Pricing.FeeGrowsWithDistance` | app/services/pricing.py:174-184 | going farther never costs less |
| `Pricing.WithinReachFits` | app/services/pricing.py:187-200 | a distance within the reach costs at most the budget below 1000 paisa per km, and in general at most the rounding of half a metre more |
| `Pricing.FitsIsNearReach` | app/services/pricing.py:187-200 | a distance that fits the budget is less than 500/per_km + 0.5 metres beyond the reach |
| `Pricing.ReachExtremes` | app/services/pricing.py:187-200 | a negative reach exactly when not even distance 0 fits, and then none does; None means all do |
| `Pricing.FitsIffMetresFit` | app/services/pricing.py:174-200 | where the base and the minimum fit, a distance fits the budget if and only if its whole metres cost less than the spare paisa and a half |
| `Pricing.AllWithinFitIff` | app/services/pricing.py:187-200 | every distance within the reach fits if and only if the reach rounded to a whole metre does |
| `Pricing.NoneBeyondFitsIff` | app/services/pricing.py:187-200 | no distance beyond the reach fits if and only if the first whole metre beyond it does not |
| `Pricing.WithinReachCanExceed` | app/services/pricing.py:187-200 | a tariff and budget for which the reach itself costs more than the budget |
| `Pricing.ReachIsNotFarthest` | app/services/pricing.py:187-200 | and one for which a distance beyond it still fits |
| `Pricing.QuoteSatisfiesChecks` | app/models/order.py:177-197 | every quote of non-negative inputs and fractional rates meets all the order table's checks |
| `Pricing.DiscountClamped` | app/services/pricing.py:238-242 | the discount is charged as asked unless negative or above the bill |
| `Pricing.PlatformTakesItemsOnly` | app/services/pricing.py:230-251 | the quote's platform fee is the percentage of its items alone, to the nearest paisa, and the tip passes through |
| `Pricing.ThresholdSparesPriority` | app/services/pricing.py:218-235 | free delivery waives the delivery fee and not the priority fee |
| `Pricing.CommissionWithinItems` | app/services/pricing.py:253-256 | commission over all lines is between nothing and the item total |
| `Pricing.StoredRateIsExact` | app/services/pricing.py:124-128 | a rate stored to four decimals becomes exactly its basis points |
| `Pricing.LineChargedAtResolvedRate` | app/services/pricing.py:75-128 | a quote of one line costs its dish and add-ons times its quantity, and is charged commission on that at the rate of the dish, else its category, else the restaurant: the rate to the nearest basis point, the commission to the nearest paisa |
| `Pricing.LinesAddUp` | app/services/pricing.py:229-256 | one more line adds to the quote's item total and commission exactly what it costs and is charged alone; an empty cart costs and is charged nothing |
| `Pricing.EarningsIgnoreDiscount` | app/services/pricing.py:213-256 | items, commission and platform fee are the same whatever the discount, tip, distance and delivery fees |
| `Pricing.DeliveryInFields` | app/services/pricing.py:174-235 | the quote's delivery fee is nothing from the threshold on; otherwise the surcharge and the larger of the minimum and the base plus whole metres to the nearest paisa; the priority fee exactly on priority |
| `Commission.LineRate` | app/services/commission.py:43-51 | the loop returns the product's rate, else the category's, else None |
| `Idempotency.KeyStore.Begin` | app/services/idempotency.py:49-111 | one session undisturbed: the answer and the row in every branch (no key, first claim, expired, other request, in progress, replay), and no other key's row changes |
| `Idempotency.KeyStore.Complete` | app/services/idempotency.py:114-136 | the response is stored on the key's row if there is one, and no other row changes |
| `Idempotency.KeyStore.Collect` | app/workers/tasks.py:77-87 | a row stays if and only if it has not expired, every row that stays is as it was, and the rows that went are counted |
| `Idempotency.CollectingIsInvisible` | app/workers/tasks.py:77-87 | taking the collector out of a run of requests one after another changes no answer |
| `Idempotency.ServedOnceADay` | app/services/idempotency.py:49-136 | requests one after another: one does its work exactly when nothing unexpired is kept under its key; once it has succeeded, every request of the next 24 hours gets its response, or a mismatch for another text; a failure leaves nothing |
| `IdempotencyRuns.PlayKeepsInv` | app/services/idempotency.py:49-136 | any interleaving of inserts, reads of committed rows, takeovers, completions, commits, rollbacks and the collector keeps the invariant tying the row to the claims committed |
| `IdempotencyRuns.ProceedsWithinClaimIff` | app/services/idempotency.py:7-14 | of a request that commits its work after some claim: it was told to proceed within the last such claim's lifetime if and only if it was told before that claim was committed, by reading the expired row first |
| `IdempotencyRuns.InsertedNeverOverlaps` | app/services/idempotency.py:68-82 | a claim that inserted its row overlaps no other, so a key's first claim is never doubled |
| `IdempotencyRuns.OverlapProceedsTwice` | app/services/idempotency.py:84-100 | from any state with an expired row: two requests that both read it before either commits both proceed and both commit, and the row can end with one's request and the other's response |
| `IdempotencyRuns.ReplayIsFaithful` | app/services/idempotency.py:101-111 | in a run whose commits each left their own request, an answer that is not to proceed is the body of the last claim committed before the read, unexpired and for an equal request, or a mismatch |
| `IdempotencyRuns.CommittedIsReplayed` | app/services/idempotency.py:101-136 | and every request decided within that claim's lifetime gets it |
| `IdempotencyRuns.CleanUnlessOverlapped` | app/services/idempotency.py:91-100 | every run in which no committed request overlapped a claim or lost its own is such a run |
| `IdempotencyRuns.TakeoverMixesIff` | app/services/idempotency.py:91-100 | a takeover leaves another's request on the row exactly when its own is the one it read and the row has since been given another |
| `IdempotencyRuns.NeverInProgress` | app/services/idempotency.py:106-110 | committed only with its response, a row never shows a request in progress: a retry waits instead |
| `IdempotencyRuns.LostClaimProceedsTwice` | app/services/idempotency.py:84-90 | a request whose row goes between its insert and its read proceeds without one, and the next proceeds too |
| `IdempotencyRuns.LostCompletionLandsOnOther` | app/services/idempotency.py:124-136 | completing later, it leaves its response on whatever row is there |
| `IdempotencyRuns.AloneIsServed` | app/services/idempotency.py:49-136 | a request with nothing between its steps is the one-session request |
| `OtpService.OtpStore.SendOtp` | app/services/otp_service.py:68-101 | one session undisturbed: refused with the wait while cooling down; otherwise one new code, and nothing else changes |
| `OtpService.OtpStore.VerifyAndConsume` | app/services/otp_service.py:104-142 | one session undisturbed: the outcome and the row in every branch: none pending, expired, burned, wrong, right |
| `OtpRuns.PlayKeepsAll` | app/services/otp_service.py:68-142 | any interleaving of cooldown checks, issues, reads, writes, commits and failures keeps the invariant tying each row to its history |
| `OtpRuns.CounterIsExactIff` | app/services/otp_service.py:134-137 | the stored counter is at most OTP_MAX_ATTEMPTS, and is the number of wrong guesses if and only if none was written over attempts other than those it had read |
| `OtpRuns.BudgetHoldsIff` | app/services/otp_service.py:128-137 | guessing on one at a time until the code is used up makes at most OTP_MAX_ATTEMPTS wrong guesses in all if and only if none was lost to an overlap; each lost one allows one more |
| `OtpRuns.EachCodeIsBounded` | app/services/otp_service.py:110-142 | a code whose row every write found as it was read is compared at most OTP_MAX_ATTEMPTS times and accepted at most once |
| `OtpRuns.AcceptedOnceIff` | app/services/otp_service.py:139-142 | over any run a code is accepted at most once if and only if no two acceptances of it overlapped, the later reading the row before the earlier was committed |
| `OtpRuns.AnyCodeCanBeOverlapped` | app/services/otp_service.py:110-142 | whenever a code can be guessed, two right guesses at once are both accepted, and two wrong ones use up one attempt |
| `OtpRuns.AloneIsVerified` | app/services/otp_service.py:104-142 | a verification with nothing between its steps leaves and answers what the one-session verification does |
| `OtpRuns.AloneIsSent` | app/services/otp_service.py:68-101 | and a send what the one-session send does |
| `OtpRuns.AcceptedWasSent` | app/services/otp_service.py:110-142 | every accepted guess of a run is the code its row was sent with, guessed within OTP_TTL of the send |
| `OtpService.SentCodeWorks` | app/services/otp_service.py:104-142 | a code just sent is accepted on a right guess after fewer than OTP_MAX_ATTEMPTS wrong ones, refused on a wrong guess, and burned after that many |
| `OtpService.WaitIsExact` | app/services/otp_service.py:76-101 | after a send, even one whose caller rolls back, another is refused for exactly OTP_RESEND_COOLDOWN_SECONDS, with what is left as the wait; only a send that is kept leaves a code |
| `OtpSends.SpacedIff` | app/services/otp_service.py:76-97 | two neighbouring codes are a cooldown apart if the second send checked after the first was issued, and, when a send issues within a cooldown of its check, only then |
| `OtpSends.OverlapSendsTwice` | app/services/otp_service.py:79-97 | two sends that both passed the check both issue, at one instant |
| `OtpSends.BudgetOverWindow` | app/core/config.py:82-94 | in a run where nothing overlapped, in any T seconds at most OTP_MAX_ATTEMPTS * (floor((T + OTP_TTL) / cooldown) + 1) comparisons happen per identifier and purpose |
| `OtpService.OlderCodeComesBackIff` | app/services/otp_service.py:110-137 | for any rows: after a redemption, a guess is accepted exactly when it is the newest older code that is neither consumed, expired nor used up |
| `OtpService.OlderCodeComesBack` | app/services/otp_service.py:110-119 | a run in which two codes sent a minute apart are both redeemed |
| `OtpService.RolledBackCodeStillWorks` | app/services/otp_service.py:139-142 | a right guess whose caller rolls back is accepted again exactly until expiry |
| `OtpService.NormalisedOnce` | app/services/otp_service.py:31-36 | normalising an identifier twice is normalising it once |
| `OtpService.PaddingIgnored` | app/services/otp_service.py:31-36 | whitespace around an identifier makes no difference |
| `OtpService.SpaceIgnored` | app/services/otp_service.py:31-36 | nor does a space anywhere in a phone number |
| `OtpService.CaseIgnored` | app/services/otp_service.py:31-36 | nor does the case of an email address |
| `OtpService.PlainIsKept` | app/services/otp_service.py:31-36 | and an identifier with none of these is kept as it is |
| `RateLimit.Limiter.Hit` | app/core/rate_limit.py:29-50 | the counter and the answer after one hit, built from INCR, EXPIRE and TTL |
| `RateLimit.KeyCountsWindow` | app/core/rate_limit.py:35-38 | over any run of hits, any of which may crash between INCR and EXPIRE: the stored counter is the hit's place in its window and expires a window after the opening hit, which no later hit moves, or never, if and only if that hit crashed |
| `RateLimit.AnswerIsPlaceInWindow` | app/core/rate_limit.py:35-50 | and every hit's answer follows from its place and the time left |
| `RateLimit.AdmittedIffEarlyInWindow` | app/core/rate_limit.py:43-50 | a hit that does not crash is admitted exactly when fewer than `limit` came before it in its window, windows read off the hits alone |
| `RateLimit.WindowBudget` | app/core/rate_limit.py:29-50 | at most `limit` hits are admitted per window, whichever hits crash |
| `RateLimit.StretchBudget` | app/core/rate_limit.py:7-9 | at most twice `limit` in any stretch of `window_seconds`, whichever hits crash |
| `RateLimit.RetryAfterIsExact` | app/core/rate_limit.py:40-48 | in a window that ends, every hit before the reported wait is over is refused, however many there are, and the first after it is admitted |
| `RateLimit.LockedOutIff` | app/core/rate_limit.py:32-38 | once a window is used up, every later hit is refused, at whatever time, if and only if the hit that opened it crashed |

## Left out

Weaker than the code:

- BusinessHours.NextChange: `_clock_time` is not modelled; a time of day arrives already read, or as None where the text cannot be read. Time zones other than a fixed offset are not modelled.
- AdminSession.NoReuse: is about runs that lose no answer the server acted on; `ReuseIff` is about all. Nobody signs in or out during a run, Web Locks exist, and a refresh whose tab closes before the server has it is never served; `updateSessionUser`, browsers with storage disabled, and a tab duplicated with its sessionStorage are not modelled.
- NotificationSweep.FanoutExactlyOnce: deleting an account, which removes its inbox rows, is not an action.
- TokenChains.AcceptedAtMostOnce: one request on the token table is one step; `TokenOverlap` is where it is two.
- Notifications.Session.Dispatch: push is not modelled, only the number it reports; a fan-out and its time are one instant.
- CategoryDirectory.MergeKeepsSpelling: names are ASCII; NFKD folding and non-Latin names reach the model only through the hash fallback.
- MenuItem.Item.SyncVariants: the order of the rows inside a flush is the ORM's (updates by id, inserts, deletes); `faults` stands for a database that fails for a reason of its own.
- StoreSync.RacedWriteLandsIff: this and the other results on saves are about saves of a week of hours, which is what every save writes (all seven days, app/services/vendor/storefront.py:455-478); clearing the hours belongs to account deletion. A save's write sets the columns that changed against what it loaded.
- IdempotencyRuns.ProceedsWithinClaimIff: assumes a request commits before the claim it took has expired, a day later. Locks and visibility are those of the database's default isolation; an UPDATE sets the columns that changed.
- OtpRuns.EachCodeIsBounded: counts the comparisons whose effect is kept; a right guess that the caller rolls back is `RolledBackCodeStillWorks`. Rows are ordered as they were issued.
- OtpService.OtpStore.VerifyAndConsume: Redis reports a remaining time in whole seconds; here times are whole seconds.
- RateLimit.StretchBudget: for runs without `reset`.

Not modelled:

- JWT signatures, SHA-1, SHA-256, HMAC and Argon2: injective or opaque functions.
- Decimal's precision limit and binary floating point: exact reals. `haversine_km` is an input.
- SQL, Redis, SQLAlchemy sessions and the HTTP layer, beyond the rows, keys, locks and rollbacks named above.
- The `ValueError` for an unknown delivery type: the type has two values.
- `admin_create`, `admin_update`, `admin_delete` and the listings of categories; add-ons, whose code repeats the variants' without the default.
- `prune_expired_otps`, delivery of a code by email or SMS, and which endpoint asked for it.
- Orders after checkout, carts, payouts, dispatch of riders, support, community, banners and account deletion.
