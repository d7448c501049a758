# Prepaid credits, signup mail, pricing: a verified model

This project models the parts of a Django API for prepaid credits and eSIM sales whose correctness does not show from
reading one function, and proves what they promise:

- **Credit ledger.** `Ledger` gives the effect of one call on account rows and the append-only ledger. `CreditServiceModel`
  is the service object, each method tied to that effect. `CreditProtocol` runs any number of calls at once, one database
  statement per step, with row locks, a unique index, commits, rollbacks and crashes, and proves the result serial.
  `BillingMetrics` adds up what was spent.
- **Signup.** `SignupMail` proves the slot-and-gap cache equal to a sliding log of sends; `SignupMailRace` interleaves
  claims at single cache calls, and says how the daily limit fails;
  `SignupCode` puts the attempt-counted code on top, with the time between a claim and its save. `JoinRate` is the join counter.
- **Pricing.** `Pricing` is the price engine with its snapshots; `PricingHash` the text behind the context hash;
  `PricingProfiles` the versioned profile, whose saves interleave between their read and their write.
- **Coverage.** `Coverage` proves the one-pass country merge equal to grouping first and normalising once.
- **Partner data.** `RenewalCycles` and `InviteLinks` are write guards, and say what passes
  them by; `PartnerPlans` is the plan order; `GrantAmount` checks the amount text of grants against the ledger's own rounding.

Conventions. Credits are counted in units of 0.000001 and prices in cents; a decimal argument before rounding is a `real`.
Instants are integers (seconds for the limiter, any fixed unit elsewhere). A run is a sequence of requests, events or
scheduler actions of any length; functions that fold a run recurse on its last element. A blocked worker's step leaves the
system as it is. Every imperative method is proved against a function on values, and the lemmas are about that function; for each
operation some of them state its inputs and results in the columns themselves, without the function's own parts.

Verify with `dafny verify dfyconfig.toml`.

## Model

| member | source | states |
|---|---|---|
| Ledger.NormalizeAmountIsNearestAndIdempotent | src/apps/billing/services/credit.py:211-227 | An accepted amount is positive, below 10^14 credits, within half a quantum of the input, and normalising it again returns it unchanged |
| Ledger.ServeKeepsConstraints | src/apps/billing/services/credit.py:92-148 | One call keeps balance >= 0, non-zero deltas, the foreign key and key uniqueness, only appends to the ledger, and either changes nothing or raises its account's version by one |
| Ledger.ServeAndDrift | src/apps/billing/services/credit.py:186-209 | New, replayed and refused postings leave every account's drift unchanged; a rebuild whose sum the column can hold removes it, adds no entry, and bumps the version exactly when there was drift |
| Ledger.PostingOutcome | src/apps/billing/services/credit.py:108-140 | A posting that passes the checks is replayed iff its key is used, refused for funds iff the balance would fall below zero, otherwise created; then the entry is the request's, for its amount to the nearest millionth, up for a credit and down for a debit, and only its own account moves |
| Ledger.PostingIsChecked | src/apps/billing/services/credit.py:102-107 | A posting is refused before any query iff its amount is not finite or rounds outside the column, its type is none of the eleven, or its key is empty, in that order; then iff its account is missing |
| Ledger.WholeQuantaArePostedExactly | src/apps/billing/services/credit.py:108 | An amount of whole millionths is posted as it is, with its sign |
| Ledger.RefusalLeavesNoTrace | src/apps/billing/services/credit.py:120-125 | A refused call changes nothing, and a debit refused for funds leaves its key unused |
| Ledger.RunKeepsConstraints | src/apps/billing/models.py:133-140 | The constraints hold after every run of calls, and the ledger only grows |
| Ledger.RunConservesCredits | src/apps/billing/services/credit.py:110-140 | From a drift-free store every run keeps balance = sum of deltas >= 0, and each `balance_after` is its account's prefix sum |
| Ledger.ReplayEqualsDeduplication | src/apps/billing/services/credit.py:114-118 | Accounts, versions and ledger end as if every request whose key had already succeeded had been left out |
| Ledger.RemovedRequestReturnsFirstSuccess | src/apps/billing/services/credit.py:114-118 | Each such request, whatever its account, amount or sign, gets the entry of the key's first success |
| CreditServiceModel.CreditService.Apply | src/apps/billing/services/credit.py:92-148 | The method's new state and outcome are those of the specified transaction, check by check |
| CreditServiceModel.CreditService.Credit | src/apps/billing/services/credit.py:31-59 | A created credit adds the amount, to the nearest millionth, to entry and balance |
| CreditServiceModel.CreditService.Debit | src/apps/billing/services/credit.py:61-90 | A created debit takes the amount, to the nearest millionth, off entry and balance, which stays non-negative |
| CreditServiceModel.CreditService.AdminAdjust | src/apps/billing/services/credit.py:150-184 | A blank reason is refused and changes nothing; an empty or missing key is replaced; otherwise an ordinary posting |
| CreditServiceModel.CreditService.SumLedger | src/apps/billing/services/credit.py:186-193 | The loop computes the account's sum of deltas |
| CreditServiceModel.CreditService.RebuildBalanceFromLedger | src/apps/billing/services/credit.py:195-209 | The method repairs the cached balance as specified |
| CreditProtocol.EveryScheduleIsSerial | src/apps/billing/services/credit.py:110-148 | After any interleaving the committed store is that of running the logged calls one after another, each finished call is logged once, and what it returned is what the serial run returns there |
| CreditProtocol.WorkerAloneServes | src/apps/billing/services/credit.py:110-140 | A call that nobody blocks runs to its end with the effect and outcome of the sequential service |
| CreditProtocol.EverySerialRunIsASchedule | src/apps/billing/services/credit.py:110-148 | Every sequential run of calls is the outcome of some schedule |
| CreditProtocol.SerialOrderRespectsRealTime | src/apps/billing/services/credit.py:110-148 | A call that returned before another began comes before it in the serial order |
| CreditProtocol.EveryScheduleConservesCredits | src/apps/billing/models.py:133-137 | In every reachable state keys are unique and every balance is non-negative and the sum of its deltas |
| CreditProtocol.RaceLoserReturnsWinner | src/apps/billing/services/credit.py:141-148 | The loser of a key race changes nothing and returns the committed entry with its key |
| CreditProtocol.NoCallEndsInAnUnresolvedRace | src/apps/billing/services/credit.py:146-148 | The final `raise` after the re-read is unreachable in a key race |
| CreditProtocol.SomeWorkerCanAlwaysMove | src/apps/billing/services/credit.py:111-140 | While a call is unfinished some worker can take a step: lock and key waits never form a deadlock |
| BillingMetrics.SpendByReferenceType | src/apps/billing/services/metrics.py:71-90 | The loops return, for every type spent on and the three listed ones, what was spent, in any row order |
| BillingMetrics.BreakdownLists | src/apps/billing/services/metrics.py:83-89 | A type is listed iff some entry spent on it or it is order, top-up or subscription |
| BillingMetrics.BreakdownAddsUpToTotal | src/apps/billing/services/metrics.py:51-56 | The breakdown's values add up to total spent credits |
| BillingMetrics.BalancesAreReceivedMinusSpent | src/apps/billing/services/metrics.py:51-56 | After any run from a drift-free store all balances together are positive deltas minus total spent |
| SignupMail.MailCache.Add | src/apps/accounts/services/signup.py:87 | `cache.add` stores the key exactly when it is absent or expired |
| SignupMail.MailCache.ClaimSignupMail | src/apps/accounts/services/signup.py:77-95 | The slot loop, the gap key and the give-back compute the specified claim |
| SignupMail.ClaimFollowsSlidingLog | src/apps/accounts/services/signup.py:77-95 | Over any run and any addresses, a claim is granted iff the address has fewer than 10 granted claims in the last 86400 s and none in the last 600 s |
| SignupMail.RefusalLeavesLiveCacheUnchanged | src/apps/accounts/services/signup.py:90-95 | A refused claim leaves every unexpired key as it was, now and later |
| SignupMail.RunIsRateLimited | src/apps/accounts/services/signup.py:78-82 | The granted claims of an address are 600 s apart, and each is a day after the tenth before it |
| SignupMailRace.AtMostTenWinnersInADay | src/apps/accounts/services/signup.py:85-95 | On every schedule in which no delete takes away an unexpired key that another worker stored, at most ten winners took their slots within any 24 hours |
| SignupMailRace.WinnersInADayAreTenAndKeysTaken | src/apps/accounts/services/signup.py:85-95 | On every schedule, winners in any 24 hours are at most ten plus the deletes that took another worker's unexpired key |
| SignupMailRace.WinnersAreTenMinutesApart | src/apps/accounts/services/signup.py:92-93 | On every schedule, any two winners added the gap key at least 600 s apart |
| SignupMailRace.WorkerAloneIsClaim | src/apps/accounts/services/signup.py:77-95 | A worker that nobody interrupts ends in the state the sequential claim gives |
| SignupMailRace.LateDeleteFreesAnothersSlot | src/apps/accounts/services/signup.py:94 | On any reachable cache that respects the slots, a delete takes away another worker's key iff it finds an unexpired key it did not store, and then it is a day late |
| SignupMailRace.DeletesInTimeAreOwn | src/apps/accounts/services/signup.py:85-95 | If every delete of a run comes within a day of its worker's claim, each finds its own key or none |
| SignupMailRace.EveryRunCanReachEleven | src/apps/accounts/services/signup.py:94 | Every run, whatever its schedule so far, can go on to eleven winners in one day |
| SignupCode.SignupService.StartSignup | src/apps/accounts/services/signup.py:114-157 | The method stores name, password and drawn code of a granted start, stamped at the save; nothing without a claim, no code for an active user |
| SignupCode.SignupService.ResendSignupCode | src/apps/accounts/services/signup.py:160-181 | The method saves a new code only for a pending user with a code and a granted claim, stamped at the save |
| SignupCode.SignupService.ConfirmSignup | src/apps/accounts/services/signup.py:184-207 | A guess the block does not refuse is counted, the error coming after the commit, or activates and deletes the code; an error inside the block takes its writes back |
| SignupCode.MailedCodeActivates | src/apps/accounts/services/signup.py:103-207 | Over any run, after a call's code is saved and before the next save, a confirm activates iff its guess is the code that call drew, fewer than five were compared since and it comes within 600 s |
| SignupCode.LastStartNamesTheUser | src/apps/accounts/services/signup.py:130-157 | Over any run, the stored name and password are those of the start that saved last |
| SignupCode.CallsAreOpenedIff | src/apps/accounts/services/signup.py:126-177 | Over any run, a mail is claimed by a start iff the limiter allows it, by a resend iff moreover the row is free and the user is active or has a code |
| SignupCode.GuessesAreComparedIff | src/apps/accounts/services/signup.py:187-200 | Over any run, a guess is compared iff the row is free, the user pending, and the code unexpired with fewer than five guesses |
| SignupCode.HalvesMakeTheCall | src/apps/accounts/services/signup.py:114-181 | A start or resend whose claim and save meet nobody in between does what the uninterrupted call does |
| SignupCode.GuessesCountBecauseErrorFollowsCommit | src/apps/accounts/services/signup.py:199-207 | Wrong guesses made in time add up to five and close the code; with the error raised inside the block none would be stored |
| SignupCode.LiveCodesInADay | src/apps/accounts/services/signup.py:103-111 | Over any run whose codes are saved at most `delay` after their claims, the codes live at some moment of 24 hours are at most 11 plus one for each ten minutes of delay begun |
| SignupCode.ChecksInADay | src/apps/accounts/services/signup.py:184-207 | Over any such run at most five times as many guesses are compared with a code in any 24 hours: 55 without delay, 60 within ten minutes |
| SignupCode.SixtyChecksInADay | src/apps/accounts/services/signup.py:103-128 | A run whose codes are saved within two seconds of their claims, with sixty checks in one day |
| SignupCode.ActivatesAtMostOnce | src/apps/accounts/services/signup.py:189-206 | At most one guess ever matches, the user is active iff one did, and it matched the latest saved code before expiry |
| SignupCode.ActiveUserIsNeverOverwritten | src/apps/accounts/services/signup.py:148-150 | Once active, an address's name and password survive every later start, resend and confirm |
| Coverage.NormalizeOperators | src/apps/orders/product_snapshot.py:70-90 | The loop and sort return the sorted earliest spellings of the network names that OperatorsAreFirstNetworkNames finds in the raw values |
| Coverage.MergeOperators | src/apps/orders/product_snapshot.py:93-103 | The loop and sort do the same for two lists joined |
| Coverage.MergeIsOneNormalisation | src/apps/orders/product_snapshot.py:70-103 | Merging two normalised lists equals normalising the joined raw lists |
| Coverage.OperatorsAreSortedFirsts | src/apps/orders/product_snapshot.py:73-90 | Operators are strictly ascending by fold and are exactly the earliest spelling of each fold |
| Coverage.OperatorsAreFirstNetworkNames | src/apps/orders/product_snapshot.py:70-90 | On the raw values: a country's operators are exactly the stripped strings, or names of records, among its entries' networks that no earlier network of the country spells otherwise |
| Coverage.NetworkNamesAreCovered | src/apps/orders/product_snapshot.py:73-88 | Every network name of a listed country has an operator with its fold |
| Coverage.NormalizeCoverageSnapshot | src/apps/orders/product_snapshot.py:18-67 | The one-pass dictionary merge equals grouping entries by code, normalising once and sorting |
| Coverage.SnapshotListsEachCountryOnce | src/apps/orders/product_snapshot.py:21-27 | Output codes are strictly ascending, two capital letters, and exactly those some entry is for |
| Coverage.CountriesAreThoseOfEntries | src/apps/orders/product_snapshot.py:30-40 | On the raw values: a country is listed iff some record's code, else country code, is it when stripped and upper-cased; anything but a list gives none |
| Coverage.FirstNonEmptyNameWins | src/apps/orders/product_snapshot.py:42-55 | A country's name is that of its earliest entry with a non-empty name, or null if there is none |
| Coverage.NameIsThatOfEarliestEntry | src/apps/orders/product_snapshot.py:42-60 | On the raw values: a listed country's name is the stripped name, else country name, of its earliest entry that has one |
| Decimals.HalfUpNearest | src/apps/pricing/money.py:13-16 | Rounding is to a nearest integer, ties away from zero |
| Pricing.MoneyRoundIsNearest | src/apps/pricing/money.py:13-16 | Money is rounded to the nearest cent, ties away from zero |
| Pricing.ResolveIsBounded | src/apps/pricing/service.py:118-235 | Between zero and the rounded list price; with a wholesale profile and a net price not below the lower of list and net |
| Pricing.ResolveIsMonotone | src/apps/pricing/service.py:118-235 | Raising list or net, or lowering the discount, never lowers the price, across all branches |
| Pricing.WholesaleAtLeastPercentOff | src/apps/pricing/service.py:118-235 | For every context, the price under a wholesale profile is never below that under the same profile without a floor |
| Pricing.ReasonsTellTheBranch | src/apps/pricing/service.py:143-235 | On the columns: the context's own profile, else the account's, prices the quote iff the flag is on, it is active, not archived and within its dates, and no retail fallback applies; then its discount comes off list or margin to the nearest cent, else the list price is quoted |
| Pricing.ChargeMatchesDisplay | src/apps/pricing/charge.py:29-72 | Charge and display agree iff, with profiles off, the price is a whole number of cents and, with profiles on, the profile neither starts nor ends in between, has no discount or margin to apply, or takes at most half a cent off; at one instant the stored quote is the displayed one |
| Pricing.FractionOfACentIsShownRounded | src/apps/pricing/charge.py:58-59 | A top-up at 4.505 with profiles off is charged 4.505 and shown as 4.51 |
| Pricing.SnapshotRoundTrip | src/apps/pricing/snapshot.py:16-113 | A resolved quote comes back from its columns unchanged iff no profile priced it or that profile has a slug and a name |
| Pricing.EmptySlugIsLost | src/apps/pricing/snapshot.py:78-79 | A profile named with punctuation only has an empty slug, and its quote comes back without one |
| PricingHash.PayloadIsInjective | src/apps/pricing/hashing.py:15-46 | Equal hash texts come from equal flag, account, profile id and version, list and net cents, order type and timestamp |
| PricingHash.FormatCentsReads | src/apps/pricing/hashing.py:15-18 | A price is written in plain digits with two places that read back as its cents |
| PricingProfiles.ProfileObject.Save | src/apps/pricing/models.py:111-131 | An uninterrupted full save stores the object, with the stored version plus one iff the policy changed |
| PricingProfiles.ProfileObject.Archive | src/apps/pricing/models.py:103-109 | Archiving writes the archive stamp and the inactive flag and nothing else, once |
| PricingProfiles.ProfileObject.SaveOptimistic | src/apps/pricing/models.py:133-155 | It succeeds iff the stored version is the expected one; a failure leaves the row but moves the version in memory |
| PricingProfiles.VersionNamesOnePolicy | src/apps/pricing/models.py:41-44 | Over saves, saves of some fields, archives and optimistic saves, whatever is interleaved between read and write, versions never fall and a version names one discount and floor policy iff every write is safe |
| PricingProfiles.CarefulCallersKeepVersions | src/apps/pricing/models.py:41-44 | So do versions in every run of uninterrupted saves of objects at the row's version, archives, saves of other fields and optimistic saves that do not name the version |
| PricingProfiles.VersionSlipsExactlyWhenUnsafe | src/apps/pricing/models.py:115-155 | A write lowers the stored version, or keeps it for another policy, iff what it read, holds and finds compare as listed |
| PricingProfiles.UninterruptedSaveIsSafeIff | src/apps/pricing/models.py:115-131 | An uninterrupted full save lowers the version, or reuses it for another policy, iff it leaves the policy alone and its object is behind the row |
| PricingProfiles.OneOptimisticWinnerPerVersion | src/apps/pricing/models.py:133-151 | Of two material optimistic saves with the same expected version at most one succeeds |
| PricingProfiles.StaleSaveReusesVersion | src/apps/pricing/models.py:115-131 | A concrete stale save brings an old version number back for another policy |
| PricingProfiles.PartialSaveReusesVersion | src/apps/pricing/models.py:114-115 | A concrete fresh object saved with `update_fields` keeps version 1 for another discount |
| PricingProfiles.ConcurrentFreshSavesShareAVersion | src/apps/pricing/models.py:115-131 | Two freshly loaded objects saved at once store version 2 for two policies |
| RenewalCycles.RenewalCycleTable.SaveCycle | src/apps/billing/partner_channel.py:858-888 | The method runs the guard and the constraints in order and stores the chosen columns, as SaveGoesThroughIff spells out |
| RenewalCycles.SaveGoesThroughIff | src/apps/billing/partner_channel.py:858-888 | After any run a save goes through iff the cycle is stored, not renewed, and keeps subscription, date and prices; its row then takes the chosen columns and no other row changes |
| RenewalCycles.RenewalCycleTable.UpdateRows | src/apps/billing/partner_channel.py:101-112 | The update guard refuses immutable fields, and a status for a set that holds a renewed row |
| RenewalCycles.UpdateGoesThroughIff | src/apps/billing/partner_channel.py:101-112 | After any run an update goes through iff it names only the status, and no renewed cycle with it; the chosen cycles then take it |
| RenewalCycles.RenewalCycleTable.BulkCreateRows | src/apps/billing/partner_channel.py:115-116 | A bulk create inherits no guard: it stores every object or, on a conflict, none |
| RenewalCycles.BulkCreateStores | src/apps/billing/partner_channel.py:115-116 | A bulk create inserts its new objects and gives rows it hits the upsert's columns, or stores nothing, iff a constraint breaks or a row is hit without upsert |
| RenewalCycles.RenewalCycleTable.DeleteRows | src/apps/billing/partner_channel.py:24-25 | A delete of a query set is always refused |
| RenewalCycles.CyclesAreWriteOnce | src/apps/billing/partner_channel.py:808-888 | Over every run without an overwriting write a renewed cycle never changes, and subscription, date and prices stay as inserted |
| RenewalCycles.OnlyUnguardedWritesOverwrite | src/apps/billing/partner_channel.py:101-112 | A write that goes through changes a renewed row, or any row's identity or prices, iff it is an upsert or an update past the cycle model's methods whose fields do so |
| RenewalCycles.UpsertReopensRenewedCycle | src/apps/billing/partner_channel.py:101-112 | A concrete upsert passes both guards by, reopens a renewed cycle and gives it another price |
| RenewalCycles.RelatedAddMovesRenewedCycle | src/apps/billing/partner_channel.py:818-822 | A related manager's `add` moves a renewed cycle to another subscription |
| RenewalCycles.InsertGoesThroughIff | src/apps/billing/partner_channel.py:843-853 | After any run a cycle can be inserted iff its id is new, no cycle of its subscription has its date, and none is unfinished unless it is renewed itself |
| RenewalCycles.OnlyInsertsCanViolate | src/apps/billing/partner_channel.py:843-853 | Only an insert, single or bulk, or a write past the cycle model's methods can meet a unique constraint; a guarded save or update never does |
| RenewalCycles.StatusStaysWritable | src/apps/billing/partner_channel.py:102-112 | A status update of cycles that are not renewed always goes through and changes nothing else |
| InviteLinks.InviteLinkTable.SaveLink | src/apps/billing/partner_channel.py:317-344 | The save guard refuses a blank token and a changed frozen field of a visited link |
| InviteLinks.SaveGoesThroughIff | src/apps/billing/partner_channel.py:317-344 | After any run, which answer a save of a stored link gets, on token, visits and columns; a save that goes through stores the chosen columns and changes no other link or visit |
| InviteLinks.InviteLinkTable.UpdateLinks | src/apps/billing/partner_channel.py:50-61 | The update guard refuses blank tokens, and frozen fields for a set that holds a visited link |
| InviteLinks.InviteLinkTable.UpdateLinksWith | src/apps/billing/partner_channel.py:50-61 | An update with database expressions: a token given as an expression is not checked, the visit guard stays |
| InviteLinks.UpdatesGoThroughIff | src/apps/billing/partner_channel.py:50-70 | Which answer each kind of update gets, on the token, the fields named and the visits; what goes through is written to the rows it hits only |
| InviteLinks.InviteLinkTable.BulkUpdateLinks | src/apps/billing/partner_channel.py:63-70 | A bulk update is refused whole if a token is blank or a visited link's frozen field would be written |
| InviteLinks.InviteLinkTable.BulkCreateLinks | tests/test_partner_integrity.py:60-68 | A bulk create inherits no guard, upsert or not |
| InviteLinks.BulkCreateStores | tests/test_partner_integrity.py:60-68 | A bulk create inserts its new objects and gives rows it hits the upsert's columns, or stores nothing, iff a constraint breaks or a row is hit without upsert |
| InviteLinks.InviteLinkTable.RecordVisit | src/apps/billing/services/partner_invite_visit.py:68 | A visit is stored under a new id for an existing link |
| InviteLinks.InviteLinkTable.UpdateVisits | src/apps/billing/partner_channel.py:21-30 | An update of visits is not refused, so it can move them to other links |
| InviteLinks.ClassificationFrozenWhileVisited | src/apps/billing/partner_channel.py:40-70 | Over every run without a reclassifying write, a link keeps its channel, source, campaign and content for as long as it has a visit |
| InviteLinks.ClassificationFrozenByFirstVisit | src/apps/billing/partner_channel.py:40-70 | So from its first visit on, unless some write moves all its visits to other links |
| InviteLinks.OnlyUnguardedWritesReclassify | src/apps/billing/partner_channel.py:40-70 | A write that goes through changes a visited link's frozen fields iff it is an upsert or an update past the link model's methods with a differing one |
| InviteLinks.UpsertMovesVisitedLink | src/apps/billing/partner_channel.py:40-70 | A concrete upsert moves a visited link to another source |
| InviteLinks.RelatedAddMovesVisitedLink | src/apps/billing/partner_channel.py:278-282 | A related manager's `add` moves a visited link to another channel |
| InviteLinks.OnlyMovesUnvisit | src/apps/billing/partner_channel.py:365 | A visited link loses its visits iff one write moves them all away |
| InviteLinks.MovedVisitsUnfreezeLink | src/apps/billing/partner_channel.py:55-60 | After its visits are moved, a guarded update of the link's source goes through |
| InviteLinks.NoBlankTokenIsStored | src/apps/billing/partner_channel.py:32-37 | Over every run without a bulk create, token expression or unguarded write that gives a blank token, no blank token is stored |
| InviteLinks.OnlyUnguardedWritesStoreBlank | src/apps/billing/partner_channel.py:50-70 | A write that goes through stores a blank token iff it is a bulk create, an update with a token expression or an unguarded one that gives one |
| InviteLinks.BlankTokensCanBeStored | src/apps/billing/partner_channel.py:50-54 | A concrete bulk create, and a concrete update with an expression, store a blank token |
| InviteLinks.InsertGoesThroughIff | src/apps/billing/partner_channel.py:317-328 | After any run a link can be inserted iff its token is usable and unused, its id new and its bonus not negative |
| InviteLinks.OtherFieldsStayWritable | src/apps/billing/partner_channel.py:271-274 | Name, bonus and activity of any links, visited or not, can always be updated |
| PartnerPlans.ListPlans | src/apps/billing/services/partner_customer_plans.py:45-82 | The splitting loop and the two sorts return the specified lists |
| PartnerPlans.ActiveOrder | src/apps/billing/services/partner_customer_plans.py:101-102 | Active plans are ordered newest first, larger key first among equals |
| PartnerPlans.ExpiredOrder | src/apps/billing/services/partner_customer_plans.py:105-112 | Expired plans are ordered latest expiry first, missing expiry last, then as active ones |
| Ordering.LessIsLexicographic | src/apps/billing/services/partner_customer_plans.py:105-112 | Sort keys compare at their first difference, and a shorter key comes first |
| PartnerPlans.ListsAreStrictlySorted | src/apps/billing/services/partner_customer_plans.py:76-77 | Both lists are strictly sorted by their keys |
| PartnerPlans.ListsPartitionTheAccount | src/apps/billing/services/partner_customer_plans.py:65-75 | Together they hold each unarchived eSIM of the account exactly once, split by status |
| PartnerPlans.RowOrderDoesNotMatter | src/apps/billing/services/partner_customer_plans.py:65-82 | The lists do not depend on the order of the database rows |
| GrantAmount.AcceptedAmountIsExact | src/apps/billing/serializers.py:141-147 | Whatever the script of its digits, a text the pattern accepts is a decimal, is parsed iff positive, and then to a value that the ledger's normaliser returns unchanged |
| GrantAmount.PatternIff | src/apps/billing/serializers.py:16 | The pattern accepts a text iff it is 0 or up to 14 digits without a leading zero, alone or with a point and up to six digits |
| GrantAmount.TrailingZeroIsNothing | src/apps/billing/serializers.py:144 | A further zero after the point changes no amount |
| GrantAmount.PrintThenParse | src/apps/billing/serializers.py:17 | Printing any ledger amount with six places and parsing it gives it back |
| JoinRate.JoinGate.AllowJoin | src/apps/billing/partner_internal_views.py:102-110 | The method reads and rewrites the counter as specified |
| JoinRate.AdmittedIffBurstIsShort | src/apps/billing/partner_internal_views.py:102-110 | A request is admitted iff fewer than `limit` admissions, each within an hour of the next, lead up to it |
| JoinRate.AtMostLimitPerWindow | src/apps/billing/partner_internal_views.py:102-110 | At most `limit` admissions of an address lie within any 3600 s |
| JoinRate.AdmittedAfterPause | src/apps/billing/partner_internal_views.py:105-109 | With limit >= 1 a request 3600 s or more after the last admission is let in |

## Left out

- HTTP views, routing, the admin site, settings, migrations, logging, counters and domain events: plumbing.
- Orders, top-ups, vouchers, grants, deposits, membership, wallets: only the core they rest on is modelled.
- Ledger: ids, timestamps and the length limits of key and reference columns; a sum or balance the Decimal(20, 6) column cannot hold is a refused call. A finite amount too long for the 28 digits of the decimal context makes `quantize` raise an error of its own (`credit.py:221`), which the model gives as an invalid amount.
- CreditProtocol: calls made inside a caller's own longer transaction, and accounts created or deleted meanwhile. Row locks and the unique index are those of PostgreSQL at its default isolation level.
- CreditServiceModel: the generated parts of an admin adjustment's key and reference are arguments.
- SignupMail: the digest of an address is taken to be collision-free, and the cache neither evicts keys early nor disagrees about the time.
- SignupMailRace.AtMostTenWinnersInADay: needs that no delete takes another worker's key, which the code does not check; WinnersInADayAreTenAndKeysTaken is the bound without that, DeletesInTimeAreOwn gives a sufficient timing, and EveryRunCanReachEleven shows the bound failing.
- SignupCode: a start or resend is two instants, its claim and its save, and a confirm is one; a call that waits for the row lock happens when it gets it. The creation race of two first signups and mail delivery are not modelled; hashes of passwords and codes are the texts themselves; the cache starts empty and no code is stored.
- SignupCode.ChecksInADay: the limit of 55 that ten mails a day and one gap give holds only for codes saved at the instant of their claims, and the code bounds no delay; SixtyChecksInADay is a run over it.
- `clear_signup_mail_gap` is not part of any run; its docstring says it is for tests.
- Password rules and display names.
- Coverage: trimming, upper-casing and case folding are arbitrary functions, so the results hold for any Unicode tables; non-string values are given by their `str()` text; sorting is a stable insertion sort standing for the built-in one.
- Pricing: SHA-256 is not modelled, a quote holds the hashed fields themselves; the 28-digit decimal context is unbounded.
- PricingHash.PayloadIsInjective: for prices that are not negative, as a rounded negative price may print as "-0.00".
- Pricing.ChargeMatchesDisplay: shown and charged for the same account and package; only the instants may differ.
- PricingProfiles: the unique-slug and percentage constraints, which can only refuse a write; the run lemmas are about one row that stays stored.
- RenewalCycles: `created_at` may be changed by a save of an unfinished cycle, as in the code, so it is not among the fields proved fixed.
- RenewalCycles, InviteLinks and JoinRate: a guarded save or update and the join counter read and then write without a lock; each is taken to run alone. In a bulk create each object names the row it hits, so conflicts that name no row (`ignore_conflicts`) are not modelled.
- InviteLinks.ClassificationFrozenByFirstVisit: not on every write path, as an upsert, a related manager and the base manager pass the guard by and visits can be moved; OnlyUnguardedWritesReclassify and OnlyMovesUnvisit are the exact conditions.
- InviteLinks.NoBlankTokenIsStored: not on every write path, as a bulk create, a token expression and the base manager pass the check by, against the docstring at `partner_channel.py:268-269`; OnlyUnguardedWritesStoreBlank is the exact condition.
- InviteLinks and RenewalCycles: every update that does not go through the model's own methods is one kind of write, with any rows and fields; rows removed that way (every delete the models offer is refused) are not modelled. Token regeneration is an ordinary save or update.
- RenewalCycles.CyclesAreWriteOnce: not for upserts and writes past the cycle model's methods; OnlyUnguardedWritesOverwrite is the exact condition.
- PartnerPlans: the display fields of a plan are one text, and the statuses other than expired are one.
- Deposit figures of the billing metrics, and `product_snapshot_kwargs`.
