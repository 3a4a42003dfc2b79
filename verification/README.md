# Verified model of the partnership service's core

This project models, in Dafny, the parts of the repository whose correctness rests on
protocols, whole runs, arithmetic or encodings, and proves what they promise. Each module
belongs to one component; pure code is written as functions with lemmas about them, and code
that changes things step by step as classes and loops proved against such functions.

* **Push delivery.** `DeliveryLedger` gives the two database functions of the retry-safe
  migration, `PushDeliveryProtocol` runs any number of delivery attempts against that ledger
  (an attempt may stop at every await, and a call that throws may have taken effect before, may
  take effect later, or never), and `WorkerPool` is the bounded pool, for every order in which
  its workers can move.
* **Campaigns.** `CampaignAudience`, `CampaignDelivery`, `MattermostDelivery`, `Campaign`,
  `ExclusionReasons` and `MattermostSenders` account for every member and every delivery of a
  campaign and connect the reported status to the deliveries of the protocol.
* **Calendar and coupons.** `CivilCalendar` has the day numbers of ECMA-262 section 21.4.1,
  `CouponPeriods` the KST keys, `CouponQuota` the gate and the remaining count, `KoreanDateTime`
  the local-time text and `PeriodInputs` the inputs of the period forms.
* **Backups.** `BackupPull` is the crash-safe puller: every change of the disk and every message
  is one effect, and the process may be killed before any of them.
* **Passwords.** `BrowserPassword` proves the index and the shuffle unbiased by counting;
  `PasswordGenerator` is the generator, down to the in-place swaps, and `PasswordRange` says what it
  can produce.
* **Administrators.** `AdminPermissions`, `AdminAccounts` and `AdminSession` follow privileges
  over whole runs of operations and signed sessions across them; `AdminOperations` tells each operation
  from its inputs; `ConsentTimeline` is the consent overview of a member.
* **Encodings and registries.** `SearchPattern`, `HtmlEntities`, `ColumnNames`,
  `HomeDirectoryState` and `AdminPrefetch`.

`Wrappers`, `Permutations`, `StableSort`, `DecimalText`, `JsNumber`, `JsText` and `Campuses` hold what
several modules share. `dafny verify dfyconfig.toml` checks everything.

## What is taken as given

* A database function runs as one transaction; reads of administrator accounts are not cached
  and operations run one after the other; login ids do not change; the template table holds the
  six known keys. `AdminAccounts.ValidSite` says what a lookup by user name returns.
* `AdminSession.Lawful`: a digest in hexadecimal is not empty and has no full stop, and a payload
  survives its text form. SHA-256 of a snapshot is a function of its bytes.
* Random words, clocks, answers of remote hosts, free disk space, the lower-casing of the host,
  the offset of Asia/Seoul at an instant and the host's rules for dates outside the standard format
  are parameters. So is the hour the date formatter shows at midnight, 00 or 24
  (`KoreanDateTime.HourCycle`): the code passes `hourCycle: "h23"` and `hour12: false`, ECMA-402 ignores
  the first where the second is given, and the host's locale data decides.
* The id of a push subscription is its primary key, and each row is read once
  (`CampaignAudience.DistinctSubscriptions`).
* Prefetch calls happen in non-decreasing time (`AdminPrefetch.NonDecreasing`). Coupon issues need
  less, and exactly this: inside a window of one coupon and member no record is later than the next
  one (`CouponQuota.GatedRun`, `RoomExactlyWhenNoneLater`).

## Where the code does not do what one would expect

* `AdminAccounts.SelfGrantLocksOut`: a grant does not look at who its target is, so the only
  super admin can replace its own template, with the form's default, and nobody can manage
  administrators afterwards (`LockoutIsFinal`). `StepKeepsPrivileged` has the exact condition.
* `AdminAccounts.ManagerWithoutCampus`: grants and template changes refuse a regional manager without
  a campus, activation does not ask. Over any run, a manager ends up active without one exactly when
  the last write of its profile was such an activation; deactivating and activating it again does it
  (`ReactivatedWithoutCampus`).
* `CampaignAudience.ConsentReasonNeverGiven`: the reason `marketing_not_consented` has a label and
  a branch but is never given; missing consent is reported as a disabled type.
* `CouponQuota.RemainingIsExact`: with a negative count of issues the remaining count can be too
  small, and the lemma says exactly when; `NegativeCountUnderreports` names one. Counts taken from
  records are never negative. `BackwardClockExceedsLimit`: with a clock that steps back a daily limit
  of one admits two.
* `PeriodInputs.ReopeningNeverDrifts`: for years before 0 or after 9999 the form shows the hour only,
  and saving it moves an instant within its hour; `YearOfFiveDigitsDrifts` has one of 1 January 10000.
  `FormattersAgree` and `FormShowsWhatWasTyped`: the two formatters differ outside the years 1000 to 9999
  (`YearOfThreeDigitsSplitsFormatters`), the two parsers below the year 100 (`YearOfTwoDigitsSplitsParsers`).
* `KoreanDateTime.FormatOfParse`: a text such as 30 February or 24:00 is not refused by
  `parseKoreanDateTimeLocalValue` but rolled over (`ThirtiethOfFebruaryRollsOver`).
* `KoreanDateTime.ParseOfFormat`: where midnight is shown as 24, the first hour of every KST day is read
  back one day late (`HalfPastMidnightIsLate`), and the two formatters differ in it.
* `HtmlEntities.DecodingThrowsExactly`: decoding a text throws exactly when some decimal or hexadecimal
  reference in it names a number from 0x110000 to 2^53 - 1; larger numbers are left as they are.
  `FirstBadReferenceThrows` decodes the first such reference.
* `ConsentTimeline.StateOfNewestEvent`: only marketing can ever be shown as revoked.

## Model

| member | source | states |
|---|---|---|
| DeliveryLedger.SettledExactlyWhenFrozen | supabase/migrations/20260831051425_make_notification_campaign_delivery_retry_safe.sql:302-566 | a row no claim or transition can ever change or be granted is exactly one that is sent or needs reconciliation |
| DeliveryLedger.ClaimDecides | supabase/migrations/20260831051425_make_notification_campaign_delivery_retry_safe.sql:302-450 | which claims are granted, refused as sent or refused as in progress, by state and lease, and the row each leaves |
| DeliveryLedger.MoveDecides | supabase/migrations/20260831051425_make_notification_campaign_delivery_retry_safe.sql:466-556 | each transition goes through exactly from the state before it, to the state it names |
| PushDeliveryProtocol.StepKeepsInv | src/lib/admin-notification-ops-delivery.ts:83-249 | every event of any attempt or of the database, in any order, keeps the invariant tying attempts, rows and deliveries together |
| PushDeliveryProtocol.AtMostOneDelivery | src/lib/admin-notification-ops-delivery.ts:83-249 | over every run, `send()` resolves at most once for a key and at most one attempt ever has an unrefused call |
| PushDeliveryProtocol.AttemptDiscipline | src/lib/admin-notification-ops-delivery.ts:136-249 | a call is made only after a granted claim and a successful `sending` transition; an attempt whose call resolved never asks for `failed` |
| PushDeliveryProtocol.OutcomesAreTruthful | src/lib/admin-notification-ops-delivery.ts:83-249 | what each outcome returned to the campaign means for the row, the call and the deliveries of its key |
| PushDeliveryProtocol.OutcomesAreExact | src/lib/admin-notification-ops-delivery.ts:83-249 | the other way round: the answers an attempt heard and the fate of its call decide its outcome and all it asked of the ledger; a true answer to `sent` means the outcome `sent` |
| PushDeliveryProtocol.DeliveryIsFinal | src/lib/admin-notification-ops-delivery.ts:83-249 | once delivered, a key stays delivered exactly once and its row is never freed again, whatever follows |
| PushDeliveryProtocol.World.FinalizeSuccessfulPushDelivery | src/lib/admin-notification-ops-delivery.ts:83-134 | the statements after a resolved call return what the protocol's attempt finishes with; a marked row whose `sent` transition is answered gives `sent` |
| PushDeliveryProtocol.World.RunPushDeliveryAttempt | src/lib/admin-notification-ops-delivery.ts:136-249 | whatever happens at its awaits, the code returns the outcome that the answers it heard amount to, none only when the process dies; `sent` means a sent row and one delivery; undisturbed, a claimable key is delivered and reported as sent |
| WorkerPool.NormalizeConcurrency | src/lib/async-concurrency.ts:3-8 | 1 to 32 workers, never more than asked for unless that is below one, and the largest such number |
| WorkerPool.MapWithConcurrency | src/lib/async-concurrency.ts:15-54 | for every order of moves: each index claimed once and in order; as many tasks together as there are workers, and never more; fulfilled exactly when every task resolves, results in input order; a rejection stops only its own worker, and an index stays unclaimed only when all workers have stopped; it terminates |
| WorkerPool.SettledRun | src/lib/async-concurrency.ts:27-36 | when nothing can move any more, all workers returned exactly when no task was rejected |
| CampaignAudience.BuildAudience | src/lib/admin-notification-ops.ts:553-623 | the loop's lists, counts and push targets are those of every member's one reason per channel |
| CampaignAudience.Exclusions | src/lib/admin-notification-ops.ts:567-614 | the branches for one member give the one reason of each channel |
| CampaignAudience.AudienceConserved | src/lib/admin-notification-ops.ts:625-641 | eligible members plus the sum of the reason counts are the audience, for every selected channel |
| CampaignAudience.EligibleMeansReachable | src/lib/admin-notification-ops.ts:566-614 | eligible exactly when the member wants this kind of notification and the channel reaches it |
| CampaignAudience.ReasonMeans | src/lib/admin-notification-ops.ts:566-614 | what each reason says about the member's stored preferences, subscriptions and account, with what is not stored taken as allowed |
| CampaignAudience.ConsentReasonNeverGiven | src/lib/admin-notification-ops.ts:568-589 | `marketing_not_consented` is counted for nobody |
| CampaignAudience.PushTargetsExactlyWhenEligible | src/lib/admin-notification-ops.ts:595-604 | there is a subscription to send to exactly when a member is eligible for push |
| CampaignAudience.TargetsAreDistinct | src/lib/admin-notification-ops.ts:546-604 | no subscription is targeted twice in one campaign |
| CampaignAudience.MattermostTargets | src/lib/admin-notification-ops.ts:881-886 | the lookup by id targets as many members as are eligible |
| ExclusionReasons.MergeExclusionReasons | src/lib/admin-notification-ops-utils.ts:273-289 | at most three codes, each once with its sum over all channels, largest first and ties in order of appearance; nothing left out comes before |
| MattermostSenders.SenderIsNewestActive | src/lib/admin-notification-ops-utils.ts:187-210 | the sender is the newest active generation among the member's own, none exactly when there is none |
| CampaignDelivery.CountPushDeliveries | src/lib/admin-notification-ops-delivery.ts:489-609 | in whatever order attempts end: sent plus failed are the subscriptions, sent counts the sent attempts, warnings the ones that need one |
| MattermostDelivery.GroupMembers | src/lib/admin-notification-ops-delivery.ts:363-374 | the groups partition the members by sender generation, in order, those without a sender apart |
| MattermostDelivery.SendGroup | src/lib/admin-notification-ops-delivery.ts:386-432 | for one generation, outcomes and records that the callbacks write, whatever order they run in, both say for every member whether the message arrived |
| MattermostDelivery.SendMattermostDeliveries | src/lib/admin-notification-ops-delivery.ts:333-444 | sent plus failed are the members even when sessions fail; sent counts the members reached; every member gets exactly one record, and it agrees with what was counted |
| Campaign.SendCampaign | src/lib/admin-notification-ops.ts:849-912 | every channel result is balanced and skips exactly the members counted under a reason; channels not selected stay empty |
| Campaign.StatusOfBalanced | src/lib/admin-notification-ops-utils.ts:130-148 | what each status says about the targeted deliveries of balanced results |
| Campaign.SentMeansEverything | src/lib/admin-notification-ops-utils.ts:130-148 | the status is `sent` exactly when something was targeted and every delivery of every selected channel was sent |
| Campaign.CountedMeansDelivered | src/lib/admin-notification-ops-delivery.ts:489-609 | over any interleaving of the protocol, what is counted as sent was delivered exactly once under its subscription's key, the count is at most the number of such keys, and what is counted as a plain failure was not delivered by its attempt |
| Campaign.KeyIsWritten | src/lib/admin-notification-ops-delivery.ts:497-498 | how the idempotency key of a subscription is written |
| Campaign.SentMeansDelivered | src/lib/admin-notification-ops.ts:849-912 | over any interleaving of the protocol, a campaign reported as sent with push selected has delivered to every targeted subscription exactly once, under that subscription's own key |
| CivilCalendar.CivilFromDay | src/lib/ad-coupon-domain.ts:93-98 | the civil date of a day number is valid and has that day number |
| CivilCalendar.CivilRoundTrip | src/lib/ad-coupon-domain.ts:93-98 | and the other way round for every valid date |
| CivilCalendar.ClosedForm | src/lib/ad-coupon-domain.ts:93-93 | day numbers of years counted one by one are those of the closed formula of ECMA-262 section 21.4.1.3 |
| CivilCalendar.DayInClosedForm | src/lib/ad-coupon-domain.ts:93-98 | the day number of every date in closed form |
| CivilCalendar.ValidDates | src/lib/ad-coupon-domain.ts:93-98 | the valid dates by the lengths of the twelve months and the leap rule |
| CouponPeriods.DailyKeysAgree | src/lib/ad-coupon-domain.ts:84-99 | two daily keys are equal exactly on the same KST day |
| CouponPeriods.DailyKeyShows | src/lib/ad-coupon-domain.ts:84-99 | a daily key is the text of a date exactly from 15:00 UTC of the day before for 24 hours |
| CouponPeriods.WeeklyKeyShows | src/lib/ad-coupon-domain.ts:84-99 | a weekly key is the text of a date exactly when this is a Monday, during the seven KST days from it |
| CouponPeriods.MonthlyKeyShows | src/lib/ad-coupon-domain.ts:84-99 | a monthly key is the text of a month exactly during that month in KST |
| CouponPeriods.KeysOfMayDay | src/lib/ad-coupon-domain.ts:84-99 | the three keys of noon on 1 May 2024 |
| CouponPeriods.WeeklyKeysAgree | src/lib/ad-coupon-domain.ts:84-99 | two weekly keys are equal exactly in the same Monday-to-Sunday block, across month and year ends |
| CouponPeriods.MonthlyKeysAgree | src/lib/ad-coupon-domain.ts:84-99 | two monthly keys are equal exactly in the same civil year and month |
| CouponPeriods.DayInsideWeekAndMonth | src/lib/ad-coupon-domain.ts:84-99 | equal daily keys force equal weekly and monthly keys |
| CouponPeriods.MondayIsTheBlock | src/lib/ad-coupon-domain.ts:94-97 | moving the UTC date back to Monday lands on the first day of the block |
| CouponPeriods.WeekDayIsAnchored | src/lib/ad-coupon-domain.ts:94-97 | 1 January 2024 is a Monday, and the days of the week follow one another |
| CouponQuota.DayWithinWeekAndMonth | src/lib/ad-coupon-domain.ts:101-126 | every snapshot counts no more for its day than for its week or its month |
| CouponQuota.GateFindsRoom | src/lib/ad-coupon-domain.ts:101-147 | a record that passes the gate finds its own window below the limit, if nothing later is in it |
| CouponQuota.RoomExactlyWhenNoneLater | src/lib/ad-coupon-domain.ts:101-147 | passing the gate leaves room in the record's window, for all limits, exactly when no earlier record of that coupon and member lies in the window at a later time |
| CouponQuota.EveryWindowIsBounded | src/lib/ad-coupon-domain.ts:101-147 | in every run through the gate whose time does not step back inside a window, no KST day, week or month holds more issues of a coupon to a member than the limit |
| CouponQuota.OrderedTimeIsEnough | src/lib/ad-coupon-domain.ts:101-147 | records in non-decreasing time, each through the gate, form such a run for every kind of window |
| CouponQuota.BackwardClockExceedsLimit | src/lib/ad-coupon-domain.ts:108-114 | with a clock that steps back a daily limit of one admits two |
| CouponQuota.UnlimitedExactlyWhenNull | src/lib/ad-coupon-domain.ts:181-199 | the remaining count is null exactly when nothing is limited |
| CouponQuota.RemainingIsExact | src/lib/ad-coupon-domain.ts:181-199 | the remaining count is the number of further issues that pass, exactly when a quota with a count to be believed, or the code pool, leaves no more than the limit of every open quota with a negative count |
| CouponQuota.EachIssueTakesOne | src/lib/ad-coupon-domain.ts:181-199 | with counts that are not negative, each issue lowers the remaining count by one down to zero |
| CouponQuota.NegativeCountUnderreports | src/lib/ad-coupon-domain.ts:181-186 | a stock with a negative count announces three and admits four |
| KoreanDateTime.ParseOfFormat | src/lib/datetime.ts:54-96 | for every instant, offset and hour of midnight: parsing the formatted text gives the instant floored to the minute exactly for the years 1000 to 9999 where the minute read is that of nine hours' offset; where midnight is shown as 24 the first hour of a day is read a day late; null exactly when the year shown has not four digits |
| KoreanDateTime.HalfPastMidnightIsLate | src/lib/datetime.ts:54-96 | with midnight shown as 24, 00:30 on 1 January 2024 is read back one day late |
| KoreanDateTime.FormatOfParse | src/lib/datetime.ts:54-96 | formatting any parsed text gives it back exactly when it names a minute the formatter shows, of a year from 1000 on, at nine hours' offset (a day less for hour 24) |
| KoreanDateTime.ThirtiethOfFebruaryRollsOver | src/lib/datetime.ts:79-96 | 30 February 2024 is read as, and shown as, 1 March |
| KoreanDateTime.YearsOfEras | src/lib/datetime.ts:54-77 | the years shown without an era count from 1 in both directions |
| PeriodInputs.FormattersAgree | src/lib/ad-coupon-period.ts:19-29 | for every date the two formatters agree exactly when the KST year is from 1000 to 9999, the zone shows the minute that nine hours give, and it is not the first hour of a day with midnight shown as 24 |
| PeriodInputs.YearOfThreeDigitsSplitsFormatters | src/lib/ad-coupon-period.ts:19-29 | they differ on noon of 1 June 999 |
| PeriodInputs.FormShowsWhatWasTyped | src/lib/ad-package-validation.ts:79-94 | any calendar minute is saved as itself, or its end, and shown again as typed; the two parsers agree on it exactly from the year 100 on, below that the other takes the twentieth century |
| PeriodInputs.YearOfTwoDigitsSplitsParsers | src/lib/ad-package-validation.ts:79-94 | they differ on a minute of the year 99 |
| PeriodInputs.ReopeningNeverDrifts | src/lib/ad-package-validation.ts:79-94 | reopening and saving keeps any date in its minute exactly when its year has four digits or it is in the minute the form makes up; a second time changes nothing |
| PeriodInputs.YearOfFiveDigitsDrifts | src/lib/ad-package-validation.ts:79-94 | a start at 12:30 on 1 January 10000 is moved to 12:00 |
| PeriodInputs.PartnerPeriodEndsWithTheDay | src/lib/ad-coupon-period.ts:8-17 | a period's end is what typing 23:59 of its day saves, and is shown again as that |
| PeriodInputs.PeriodEndsInItsLastSecond | src/lib/ad-coupon-period.ts:8-17 | and it is the last second of the KST day whose date the value begins with |
| PeriodInputs.AcceptedMinutes | src/lib/ad-package-validation.ts:79-94 | of the texts with the shape of a minute, the calendar minutes are accepted and, as a start, 24:00; the others are refused |
| PeriodInputs.AcceptedHours | src/lib/ad-package-validation.ts:79-94 | the same for the hours of years with a sign |
| PeriodInputs.NothingFilledIn | src/lib/ad-package-validation.ts:79-94 | an empty input shows as nothing and is refused as missing |
| PeriodInputs.SecondsAreShown | src/lib/ad-coupon-period.ts:19-29 | the text of a date has its second and millisecond behind the minute |
| BackupPull.Host.Download | scripts/self-host-operations/pve-backup-pull.py:62-84 | a finished download is stored only with the announced size and digest; nothing else changes |
| BackupPull.Host.SaveReceipt | scripts/self-host-operations/pve-backup-pull.py:30-36 | a receipt appears only whole, beside its matching snapshot; an exception only from a failing write |
| BackupPull.Host.PullOne | scripts/self-host-operations/pve-backup-pull.py:55-89 | afterwards the listed snapshot and receipt are stored and verified; it raises only if something stood in the way |
| BackupPull.Host.ReadListing | scripts/self-host-operations/pve-backup-pull.py:50-54 | accepts exactly 1 to 32 well-formed receipts of 1 KiB to 20 GiB with different ids and none more than five minutes ahead, and returns them sorted without loss |
| BackupPull.ValidatesExactlyAcceptable | scripts/self-host-operations/pve-backup-pull.py:9-18 | which receipts pass, with the numbers written out |
| BackupPull.Host.CountSaved | scripts/self-host-operations/pve-backup-pull.py:91-98 | counts the stored receipts, raising only at one that is no longer valid |
| BackupPull.Host.Conclude | scripts/self-host-operations/pve-backup-pull.py:100-111 | acknowledges only the newest listed receipt and only if it is less than eight hours old; the status file says so, or that it is not healthy |
| BackupPull.Host.Pull | scripts/self-host-operations/pve-backup-pull.py:38-111 | wherever it is killed: stored files stay, the disk stays good, an acknowledgement means every listed receipt is stored; unless killed it finishes exactly when source, disk and listing cooperate, and killing it takes fewer effects than the run has |
| BackupPull.Host.PullRuns | scripts/self-host-operations/pve-backup-pull.py:38-111 | the same over any number of runs, each killed anywhere, and acknowledgements stay honoured |
| BackupPull.PreservedKeepsAck | scripts/self-host-operations/pve-backup-pull.py:99-109 | an acknowledgement stays honoured as long as nothing stored changes |
| BrowserPassword.EveryIndexIsEquallyLikely | src/lib/browser-password.ts:88-101 | every index below max has exactly floor(2^32 / max) accepted words |
| BrowserPassword.GetUnbiasedRandomIndex | src/lib/browser-password.ts:88-101 | the first accepted word among 128 decides, and it throws exactly when none is accepted before the words run out or a call throws |
| BrowserPassword.ShuffleIsBijective | src/lib/browser-password.ts:138-141 | every permutation of distinct elements is produced by exactly one vector of swap indices |
| BrowserPassword.EveryPermutationIsEquallyLikely | src/lib/browser-password.ts:88-141 | every permutation is produced by equally many sequences of accepted words |
| PasswordRange.EveryCharacterIsEquallyLikely | src/lib/browser-password.ts:125-131 | of the 52 letters, 10 numbers, 13 symbols or all 75 characters, each is picked by equally many words |
| PasswordRange.RangeOfGenerator | src/lib/browser-password.ts:103-150 | the passwords that some random words produce are exactly the valid ones over the 75 characters |
| PasswordRange.ValidityMeans | src/lib/browser-password.ts:160-168 | validity, with lengths and kinds of characters written out |
| PasswordGenerator.ShuffleInPlace | src/lib/browser-password.ts:138-141 | the swap loop turns the array into the shuffle by the drawn indices |
| PasswordGenerator.PickAll | src/lib/browser-password.ts:131-136 | the picks are those of the random words from their sets, with a letter, a number and a symbol first |
| PasswordGenerator.TryGenerateBrowserPassword | src/lib/browser-password.ts:103-150 | the password is the one the words determine, has the asked length and is valid; the two errors occur exactly for what is no integer from 8 to 64 and for a random source that is missing, throws or is exhausted |
| PasswordGenerator.ValidityIsOrderless | src/lib/browser-password.ts:160-168 | validity does not depend on the order of the characters |
| AdminPermissions.Normalize | src/lib/admin-permissions.ts:124-148 | the nested loops give the complete matrix that grants what the input grants, apart from writing logs |
| AdminPermissions.NormalFormIsUnique | src/lib/admin-permissions.ts:124-148 | two matrices normalise alike exactly when they grant alike outside log writing |
| AdminPermissions.OnlySuperAdminManages | src/lib/admin-permissions.ts:150-249 | of the six templates only super admin can create, update or delete administrators |
| AdminPermissions.TemplatesPermit | src/lib/admin-permissions.ts:170-249 | for every resource and action, which of the six templates permit it |
| AdminAccounts.AdminStore.PersistProfile | src/lib/admin-accounts.ts:477-503 | exactly one profile changes, with the next version, or none when the write fails |
| AdminAccounts.AdminStore.GrantMember | src/lib/admin-accounts.ts:505-563 | reports and leaves behind what the outcome function says, checks in the code's order |
| AdminAccounts.AdminStore.UpdateStatus | src/lib/admin-accounts.ts:565-596 | the same for activation and deactivation |
| AdminAccounts.AdminStore.UpdatePermissions | src/lib/admin-accounts.ts:598-629 | the same for a matrix, which has to be that of a template |
| AdminAccounts.AdminStore.ApplyPermissionTemplate | src/lib/admin-accounts.ts:631-670 | the same for a template |
| AdminOperations.GrantMeans | src/lib/admin-accounts.ts:505-563 | which grants go through, why the others are refused, and the account a grant leaves, from its inputs alone |
| AdminOperations.StatusMeans | src/lib/admin-accounts.ts:565-596 | the same for activation and deactivation |
| AdminOperations.PermissionsMean | src/lib/admin-accounts.ts:598-629 | the same for a permission grid |
| AdminOperations.TemplateMeans | src/lib/admin-accounts.ts:631-670 | the same for a template: the account has it, is active, and has the campuses handed in or held before if it is a regional manager's |
| AdminOperations.TemplatesByKey | src/lib/admin-permissions.ts:251-253 | the six keys name the six templates and no other text names any |
| Campuses.SlugsMean | src/lib/campuses.ts:106-114 | the five known campuses survive, each if some value names it |
| Campuses.SlugsInOrder | src/lib/campuses.ts:106-114 | in the order in which they are first named |
| JsText.SpacesAre | src/lib/campuses.ts:106-114 | what trimming takes for white space, character by character |
| AdminAccounts.PrivilegedIsSuperAdmin | src/lib/admin-accounts.ts:467-475 | the accounts counted as active and privileged are exactly the active super admins |
| AdminAccounts.StepKeepsActor | src/lib/admin-accounts.ts:565-670 | after every status, permission or template update its actor is still active and privileged |
| AdminAccounts.StepKeepsPrivileged | src/lib/admin-permissions.ts:302-327 | an authorised operation leaves nobody active and privileged exactly when it grants a lesser template to the only such account |
| AdminAccounts.GrantToOthersIsSafe | src/lib/admin-accounts.ts:505-563 | a grant to any other member keeps its actor privileged |
| AdminAccounts.RunKeepsPrivileged | src/lib/admin-accounts.ts:477-670 | every authorised run keeps an active privileged account, except that its last call may be such a grant |
| AdminAccounts.LockoutIsFinal | src/app/admin/(protected)/_actions/admin-account-actions.ts:49-200 | without an active privileged account no operation is authorised any more |
| AdminAccounts.SuperAdminStaysReserved | src/lib/admin-accounts.ts:505-670 | no run of operations gives the super admin template to another login than the reserved one |
| AdminAccounts.SuperAdminNeverDeactivated | src/lib/admin-accounts.ts:565-596 | a status update never deactivates a super admin |
| AdminAccounts.VersionCountsWrites | src/lib/admin-accounts.ts:483-503 | over every run a version grows by the number of writes of its profile, and an unwritten profile is unchanged |
| AdminAccounts.SelfGrantLocksOut | src/lib/admin-accounts.ts:505-563 | the sole super admin granting itself the default template locks everybody out |
| AdminAccounts.OutcomeWithoutCampus | src/lib/admin-accounts.ts:505-670 | an operation that goes through leaves its target an active regional manager without a campus exactly when it activates one that has none stored |
| AdminAccounts.ManagerWithoutCampus | src/lib/admin-accounts.ts:505-670 | over every run, an account ends as an active regional manager without a campus exactly when the last write of its profile is such an activation, or it was one before and was not written |
| AdminAccounts.ReactivatedWithoutCampus | src/lib/admin-accounts.ts:590-595 | deactivation followed by activation leaves a profile active without campuses, hence a regional manager without one |
| AdminSession.SplitOfJoined | src/lib/hmac.js:47-56 | splitting undoes joining exactly when no part is empty and the signature holds no separator |
| AdminSession.MintedParses | src/lib/auth.ts:39-105 | a minted token gives its payload back exactly from its issue until its expiry |
| AdminSession.OnlySignedParses | src/lib/auth.ts:45-83 | a token is accepted exactly when it is a decodable live payload followed by that payload's own digest |
| AdminSession.TtlIsLifetime | src/lib/admin-security.ts:255-268 | a session lives for the configured hours, at least one and at most 24, twelve when none are configured |
| AdminSession.CookieStore.SetAdminSession | src/lib/auth.ts:85-105 | the cookie becomes the signed payload of the account, now and the lifetime |
| AdminSession.SessionDiesWithAnyChange | src/lib/auth.ts:125-152 | over every run a session is accepted, with the account and times it was minted for, exactly within its lifetime, for a usable account, and as long as that account's profile has not been written |
| ConsentTimeline.BuildActivityEvents | src/lib/admin-member-detail.ts:81-130 | there is an order-preserving one-to-one match between the events and the statements the rows make, row by row; nothing is added or lost, and only marketing is ever refused |
| ConsentTimeline.StatementsMean | src/lib/admin-member-detail.ts:81-130 | what one activity row states about each policy |
| ConsentTimeline.TimelineIsComplete | src/lib/admin-member-detail.ts:206-237 | the timeline holds every recorded event once and nothing else, newest first |
| ConsentTimeline.StateOfNewestEvent | src/lib/admin-member-detail.ts:132-259 | each policy's state is read from the newest event of its kind and, at one instant, from the first, consents before activity; when it is revoked, not agreed or current |
| ConsentTimeline.StateMeans | src/lib/admin-member-detail.ts:132-149 | what each of the five states says about the deciding event and the version in force |
| ConsentTimeline.BuildPolicyOverview | src/lib/admin-member-detail.ts:193-262 | the loops give that timeline and the state of each of the three policies read from it |
| SearchPattern.PatternMeansSubstring | src/lib/admin-search-query.ts:21-27 | under LIKE and ILIKE of PostgreSQL (section 9.7.1 of its manual) the pattern matches exactly the texts that contain the value literally, and never raises an error |
| SearchPattern.WildcardsMean | src/lib/admin-search-query.ts:21-27 | the two wildcards that the escaping guards against match any one character and any text |
| HtmlEntities.EscapeIsSimultaneous | src/lib/email-content.ts:98-105 | five global replaces one after the other are one substitution character by character |
| HtmlEntities.EscapedIsInert | src/lib/email-content.ts:98-105 | escaped text holds no angle bracket and no quote |
| HtmlEntities.DecodeOfEscape | src/lib/email-content.ts:156-179 | decoding undoes escaping for every text |
| HtmlEntities.NamedReference | src/lib/email-content.ts:157-172 | each of the seven names becomes its character |
| HtmlEntities.NameInCapitalsStays | src/lib/email-content.ts:167-172 | a name in capitals is matched but stays as it is |
| HtmlEntities.NumericReference | src/lib/email-content.ts:167-178 | what a decimal or hexadecimal reference becomes: its character, itself, or an exception; a surrogate's text is a parameter |
| HtmlEntities.DecimalReference | src/lib/email-content.ts:167-178 | the same for the numeral of any number, leading zeros included |
| HtmlEntities.HexReference | src/lib/email-content.ts:167-178 | the same for hexadecimal digits and either letter x |
| HtmlEntities.CodePointMeans | src/lib/email-content.ts:173-176 | which numbers become a character, stay, or throw |
| HtmlEntities.ValueOfHexNumeral | src/lib/email-content.ts:173-173 | reading a hexadecimal numeral of either case gives its number |
| HtmlEntities.HexDigits | src/lib/email-content.ts:167-173 | the 22 hexadecimal digits and their values |
| HtmlEntities.DecodingThrowsExactly | src/lib/email-content.ts:156-179 | for every text, decoding throws exactly when somewhere in it a reference names a number from 0x110000 to 2^53 - 1 |
| HtmlEntities.FirstBadReferenceThrows | src/lib/email-content.ts:156-179 | decoding `&#1114112;` throws |
| ColumnNames.ToColumnName | src/lib/admin-partner-file-import.server.ts:184-193 | the loop ends and gives the column's name, the empty one for an index that is not positive |
| ColumnNames.NamesAreBijective | src/lib/admin-partner-file-import.server.ts:184-193 | every non-empty name of capitals belongs to exactly one column, and names decode to their column |
| HomeDirectoryState.Serialize | src/lib/home-directory-state.ts:92-115 | the loop of deletes and sets gives the updated copy of the parameters |
| HomeDirectoryState.RoundTrip | src/lib/home-directory-state.ts:50-115 | parsing what was serialized over any parameters gives the state back exactly when the parser could have returned it |
| HomeDirectoryState.ParsedIsCanonical | src/lib/home-directory-state.ts:50-90 | what the parser can return |
| HomeDirectoryState.ParseMeans | src/lib/home-directory-state.ts:50-90 | each key of the state from its parameter: the known values, and the default for anything else |
| HomeDirectoryState.SerializedMeans | src/lib/home-directory-state.ts:92-115 | each parameter from the state: one value, or none for the default |
| HomeDirectoryState.DefaultsAreSilent | src/lib/home-directory-state.ts:30-115 | no parameters mean the defaults and the defaults are written as none |
| HomeDirectoryState.OtherParametersKept | src/lib/home-directory-state.ts:96-114 | parameters with other names keep their values and their order |
| HomeDirectoryState.SerializingIsIdempotent | src/lib/home-directory-state.ts:92-115 | serializing again changes nothing |
| AdminPrefetch.Registry.Prune | src/lib/admin-prefetch.ts:47-53 | exactly the records older than the TTL go, in whatever order they are visited |
| AdminPrefetch.Registry.MarkIntent | src/lib/admin-prefetch.ts:79-104 | the new registry and log; true exactly when a request was logged |
| AdminPrefetch.Registry.ConsumeUsage | src/lib/admin-prefetch.ts:110-132 | the new registry and log, and the usage returned exactly when a use was logged |
| AdminPrefetch.NothingStale | src/lib/admin-prefetch.ts:90-118 | right after a call that prunes no record is older than the TTL |
| AdminPrefetch.IntentIsLogged | src/lib/admin-prefetch.ts:79-104 | in any run an intent is logged exactly for a prefetched route whose address has no unused request of the last 30 seconds |
| AdminPrefetch.UseIsLogged | src/lib/admin-prefetch.ts:110-132 | in any run a use is logged, with the request's record and age, exactly when there is such a request |
| AdminPrefetch.UseConsumesRequest | src/lib/admin-prefetch.ts:79-132 | every use consumes an earlier request of its address, at most TTL old, with nothing of that address in between, and no request is consumed twice |
| AdminPrefetch.RequestsAreSpaced | src/lib/admin-prefetch.ts:79-132 | two requests for one address with no use in between are more than TTL apart |
| AdminPrefetch.UsedAtMostRequested | src/lib/admin-prefetch.ts:79-132 | no route is used more often than it was requested |

## Left out

- Bookkeeping of push deliveries beyond the counters: subscription health, message logs and the warnings of failed bookkeeping tasks.
- A Mattermost session that fails after messages went out: opening a session can fail, the callback catches every error and logging out is best effort, so the code has no such path.
- Campaign claims, leases and the final metadata update; the delivery ledger is modelled, the campaign row is not.
- The summer time of 1987 and 1988 and years before 1970 in coupon keys: their offset is +9 hours throughout.
- `getKstPeriodKey` of a date that is not finite: keys are those of instants.
- `new Date` on text of another shape than the forms show: it is a parameter of the form parsers.
- Losing a rename to a power failure after `os.replace`: a replace is one effect and effects are kept in order.
- Mount, permission, ownership and SSH checks of the backup script, which can only raise; its status file is written as one effect; receipts have their well-formedness as a flag.
- Surrogates: text is a sequence of Unicode scalar values, so what stands for a reference to a surrogate is a parameter, and two such references in a row are not joined to one character.
- Concurrent administrator operations and stale cached reads of up to five seconds.
- Non-finite time stamps in the consent timeline, and titles and effective dates, which follow the version.
- Normalisation of search queries, coupon code rows, form labels, read models, components, e-mail layout and workbook contents: filters, lookups and plumbing with little to prove.
