# Dothesplit: a model of the money ledger, the scheduler, the feed and the setup ceremony

Dothesplit keeps shared expenses: groups of people record expenses and settlements in integer
cents, recurring templates turn into expenses on their dates, a feed lists what happened, and a
one-time ceremony creates the first admin. This project models that logic in Dafny and proves what
the parts promise together.

## How it is laid out

- **Money.** `Splits` (the four-mode resolver) and `Rescale` rest on one apportionment rule in
  `Apportion`; both are stated over unbounded integers and again over Go's wrapping 64-bit integers
  (`Int64`), with the exact condition under which the two agree. `Expenses` is one expense: edits,
  revision rows, replay. `Tables`, `Ledger` and `Invariants` are the database state, the service
  calls as functions on it, on 64-bit integers, and what every run keeps. `Balances` has both
  balance queries, `Outcomes` what each call accepts and writes, `Effects` what it does to balances,
  `Simplify` the debt simplifier, `Minimal` how few transfers can settle a group, `SettleUp` the loop
  of suggesting and paying. `Store` is the imperative form: a class whose fields are the tables, each
  method proved against `Ledger`.
- **Scheduler.** `Calendar` has civil dates, Go's and JavaScript's calendar arithmetic and the
  cadence step of both; `Recurring` is the claim, create, stage, commit, abort protocol for any
  number of workers; `Ticks` is one worker catching up.
- **Feed.** `Text` and `Cursor` are the textual cursor; `Activity` is the page query, the page and
  the walk over pages while tables change.
- **First run.** `Setup` is the ceremony as steps of many processes, with the admin calls and account
  deletions that can run between them, and the same services run alone.
- **Editor.** `Editor` is the browser's split editor with its double-precision divisions.
- `Core` and `Sorting` hold sums and sorting.

Ids are UUIDs read as 128-bit numbers; times are nanoseconds since 1970 in UTC. Errors are values of
`Result` types. Where the doc comment at `api/internal/service/balance.go:47-49` promises the minimum
number of transfers, the model follows the code, which does not always reach it
(`Simplify.NotMinimal`, `Minimal.ShortestExactly`). Amounts and split values arrive as 64-bit
integers that the services do not bound, so sums and products can wrap. A sum that wraps can break the
ledger (`Invariants.OverflowRun`); a product that wraps only changes who gets which cent. "No sum
that wraps" in the table is `Ledger.CallSumsFit`, and "in range" is `Ledger.PatchInRange`.

## Model

| member | source | states |
|---|---|---|
| `Splits.ResolvedSum` | api/internal/service/expense.go:266-347 | Whenever a split is accepted, in any of the four modes, its shares add up to exactly the amount |
| `Splits.ResolvableExactly` | api/internal/service/expense.go:266-347 | Which inputs the resolver accepts in each mode, which of them repeat a user or are empty, and that exact mode gives each user the value given |
| `Splits.ResolvedProportions` | api/internal/service/expense.go:306-342 | Percent and shares modes: the leftover is below the number of participants, and each share is the floor of its exact proportion, or one cent more for the first rows only |
| `Splits.EqualSharesFair` | api/internal/service/expense.go:287-295 | Equal mode: shares never increase along the list and never differ by more than a cent |
| `Splits.ResolvedNonNegative` | api/internal/service/expense.go:266-347 | For a non-negative amount no share is negative |
| `Splits.Resolve64Exactly` | api/internal/service/expense.go:266-347 | On 64-bit integers the resolver gives the intended answer exactly when no sum wraps onto the wanted value and no product of amount and value reaches 2^63 (shares mode: weights up to 2^62 together) |
| `Splits.BeyondInt64` | api/internal/service/expense.go:315-342 | Inputs outside that range on which the 64-bit resolver goes wrong |
| `Splits.AcceptedSum` | api/internal/service/expense.go:266-347 | Shares the 64-bit resolver returns, none of them negative, add up to the amount whenever no sum of values wraps; an overflowing product never changes the sum |
| `Splits.AcceptedSumExactly` | api/internal/service/expense.go:266-347 | For every input: such shares add up to the amount if and only if, in exact mode, the values do not wrap onto it and, in percent and shares modes, the 64-bit quotients do not exceed it |
| `Splits.ResolveSplits` | api/internal/service/expense.go:266-347 | The resolver's loops over arrays compute the 64-bit specification, including the run-time panics |
| `Rescale.RescaledSum` | api/internal/repo/expense.go:471-487 | Rescaled shares add up to the new total and stay non-negative |
| `Rescale.RescaledProportions` | api/internal/repo/expense.go:471-487 | Each rescaled share is the floor of its exact proportion or one cent more, and the remainder is below the number of rows, so the modulo never wraps |
| `Rescale.RescaledThereAndBack` | api/internal/repo/expense.go:471-487 | Scaling from T to k*T and back restores every share |
| `Rescale.Rescaled64Fits` | api/internal/repo/expense.go:471-487 | 64-bit evaluation equals the mathematical one whenever each row's product of new total and share is below 2^63 |
| `Rescale.Rescaled64Exactly` | api/internal/repo/expense.go:471-487 | From an old total up to 2^62, with at least one row whose product fits, the 64-bit shares are the right ones if and only if every row's product fits |
| `Rescale.Rescaled64Sum` | api/internal/repo/expense.go:471-487 | Rescaled 64-bit shares of which none is negative add up to the new total, whichever products overflow |
| `Rescale.BeyondRescale64` | api/internal/repo/expense.go:471-487 | Totals beyond that bound for which the 64-bit result differs |
| `Rescale.RescaleSplits` | api/internal/repo/expense.go:471-487 | The in-place loops, with the modulo hand-out, compute the 64-bit specification |
| `Expenses.SplitsEqualExactly` | api/internal/repo/expense.go:420-434 | For lists that name no user twice, splitsEqual holds if and only if they hold the same rows, whatever the order |
| `Expenses.CompareSplits` | api/internal/repo/expense.go:420-434 | The index map and the loop decide that comparison |
| `Expenses.SuppliedSplitsWin` | api/internal/repo/expense.go:285-330 | Splits resolved for a changed amount never equal the stored ones, so rescaling never overrides splits the user supplied |
| `Expenses.RescaleWrites` | api/internal/repo/expense.go:309-322 | A rescale to a different amount always changes some share, and leaves a valid expense if and only if no share came out negative |
| `Expenses.EditKeepsValid` | api/internal/repo/expense.go:223-382 | A proper edit whose products of new amount and stored share stay below 2^63 is never stopped by the table's constraints, and leaves non-empty, duplicate-free, non-negative splits summing to the amount |
| `Expenses.AcceptedStaysValid` | api/internal/repo/expense.go:223-382 | Every proper edit that goes through leaves a valid expense, whichever products overflow |
| `Expenses.EditAgain` | api/internal/repo/expense.go:255-322 | Re-applying an edit that went through appends no revision and changes nothing |
| `Expenses.EditReplays` | api/internal/repo/expense.go:255-363 | Replaying the rows one edit that went through appends rebuilds the edited expense to the second, although a rescale writes no splits row |
| `Expenses.EditWritesFields` | api/internal/repo/expense.go:255-330 | An accepted edit sets description, category, payer and amount to the values given and leaves the others alone; each that changed has exactly one revision row with its old and new value, and no other has one |
| `Expenses.EditWritesDate` | api/internal/repo/expense.go:268-277 | The date becomes the given one, forward or back, exactly when its second differs, with one row that has both seconds; otherwise it stays and has none |
| `Expenses.EditWritesSplits` | api/internal/repo/expense.go:285-330 | Supplied splits that differ from the stored ones replace them, with one row that has both lists; otherwise a changed amount rescales the stored ones without a row |
| `Effects.ExpenseCounts` | api/internal/repo/balance.go:81-95 | In any ledger a live expense credits its payer with the amount and debits each split user with the cents of the row, in its own group only; a deleted one counts for nothing |
| `Effects.SettlementCounts` | api/internal/repo/balance.go:81-95 | In any ledger a live settlement credits its payer and debits its receiver with the amount, in its own group only |
| `Effects.CreateExpenseMoves` | api/internal/service/expense.go:60-122 | A created expense credits the payer the input names with the amount and debits everybody the resolver gave cents, in the input's group only |
| `Effects.MaterializeMoves` | api/internal/service/recurring.go:134-160 | The expense a tick inserts does the same with the template's payer, amount and splits |
| `Effects.UpdateExpenseMoves` | api/internal/service/expense.go:155-215 | An accepted update takes out of each balance what the row was worth to it, and puts in what the row is worth with the payer and the amount of the patch |
| `Effects.DeleteExpenseMoves` | api/internal/service/expense.go:235-250 | Deleting a live expense takes the payer's credit and each split user's debit out of the balances of its group, to the cent, and touches no other |
| `Effects.CreateThenDelete` | api/internal/service/expense.go:60-122 | Creating an expense and deleting it again gives every balance back |
| `Effects.DeleteSettlementMoves` | api/internal/service/settlement.go:153-172 | Deleting a live settlement takes exactly its amount back from payer and receiver, in its group only |
| `Effects.SettleThenDelete` | api/internal/service/settlement.go:77-111 | Recording a settlement and deleting it again gives every balance back |
| `Effects.DeleteGroupMoves` | api/internal/service/group.go:198-207 | Deleting a group leaves every balance of every other group as it was, and nothing in the group |
| `Balances.GroupedEqualsPerUser` | api/internal/repo/balance.go:24-95 | The grouped query with its four joined aggregates equals NetForUser for every member, on every ledger; `Effects.ExpenseCounts` and `Effects.SettlementCounts` say what that is |
| `Balances.BalancesCancel` | api/internal/repo/balance.go:81-95 | Over everybody a group's live rows involve, the balances add up to zero |
| `Balances.MembersCarryTheDeparted` | api/internal/repo/balance.go:24-95 | The members' balances add up to minus the balances of those who left |
| `Invariants.RunsKeepTables` | api/internal/service/expense.go:60-250 | After any run, whatever its values: positive amounts, no user twice in a split, no negative share, every expense has its history, owners are members, members exist, default splits and carried currencies fit |
| `Invariants.CallKeepsOk` | api/internal/service/expense.go:60-250 | Every service call whose split values have no sum that wraps, accepted or refused, keeps every stored expense summing to its amount and replaying from its history |
| `Invariants.RunsKeepOk` | api/internal/service/expense.go:60-250 | So does every sequence of such calls from the empty database |
| `Invariants.RunsConserve` | api/internal/repo/balance.go:24-95 | After any such run a group's balances cancel over everyone involved, and the members hold minus what the departed hold |
| `Invariants.RunsReplay` | api/internal/repo/expense.go:255-363 | After any such run, replaying an expense's whole history from the created row gives the present row, to the second |
| `Invariants.OverflowRun` | api/internal/service/expense.go:266-347 | A run with one call whose values wrap, after which an expense of 3 cents is stored with shares that add up to 2^64 and 3 cents |
| `Invariants.CreatedInOrder` | api/internal/service/expense.go:60-122 | Without any condition on the values: a created expense is in order if and only if its input passes the exact test of `Splits.AcceptedSumExactly` |
| `Invariants.RunsGroups` | api/internal/service/group.go:84-195 | After any run whatever: the owner is a member, a default split fits exactly two members and 10000 basis points, and a live expense created without a currency has its group's present currency |
| `Invariants.UpdateAgain` | api/internal/service/expense.go:155-215 | An accepted update whose split values have no sum that wraps, sent again, is accepted and changes neither row nor history |
| `Invariants.UpdateNeverViolates` | api/internal/service/expense.go:155-215 | On a ledger in order, an update in range, products included, succeeds if and only if the service's own checks and the resolver accept it |
| `Invariants.StaleRead` | api/internal/service/expense.go:193-214 | An update whose splits were resolved against the amount read before the row lock, when it goes through, leaves a valid expense if and only if the patch sets an amount itself or the amount read is still the locked one; in range it does go through |
| `Invariants.RemovalAndMemberSum` | api/internal/service/group.go:314-358 | A creator removing someone else leaves the members' sum alone; a member who leaves takes exactly their balance out of it |
| `Invariants.CurrencyHolds` | api/internal/service/group.go:84-166 | Over any run during which the group always has a live expense or settlement, its currency stays what it was |
| `Outcomes.ExpenseCreatable` | api/internal/service/expense.go:60-122 | An expense is created exactly when a member asks, for a positive amount with a description, with payer and split users among the members, and splits that resolve without a negative share |
| `Outcomes.ExpenseCreated` | api/internal/service/expense.go:60-122 | Then the row holds the input's group, payer, category, amount, description and date, the caller as creator, the input's currency or the group's, and the resolver's splits; its history is empty and nothing else changes |
| `Outcomes.ExpenseRefused` | api/internal/service/expense.go:60-122 | Otherwise the answer is the error of the first failing check |
| `Outcomes.ExpenseUpdatable` | api/internal/service/expense.go:155-215 | An update in range is accepted exactly when the caller is a member, the patch is well-formed, it names members only, and its splits resolve |
| `Outcomes.ExpenseUpdated` | api/internal/service/expense.go:155-215 | An accepted update writes the fields the patch names and nothing else, and logs exactly those that changed |
| `Outcomes.SplitsUpdated` | api/internal/repo/expense.go:285-330 | Its splits are the resolver's rows when the patch has splits that differ from the stored ones, otherwise the stored ones, rescaled when the amount changed |
| `Outcomes.ExpenseDeleted` | api/internal/service/expense.go:235-250 | A live expense is marked deleted exactly when a member of its group asks, and nothing else changes |
| `Outcomes.TemplateMaterialized` | api/internal/service/recurring.go:134-160 | What a tick inserts is dated by the due date, attributed to the template's payer, and holds the template's group, category, amount, currency, description and resolved splits |
| `Outcomes.SettlementCreated` | api/internal/service/settlement.go:41-111 | A settlement is recorded exactly when its payer asks, for a positive amount, between two different members, and holds what the input says |
| `Outcomes.SettlementRefused` | api/internal/service/settlement.go:41-75 | Otherwise the answer is the error of the first failing check |
| `Outcomes.SettlementDeleted` | api/internal/service/settlement.go:153-172 | A live settlement is marked deleted exactly when a member of its group asks |
| `Outcomes.GroupCreated` | api/internal/service/group.go:47-68 | A named group is created with its creator as owner and only member, in the given currency in upper case or in euros |
| `Outcomes.GroupUpdatable` | api/internal/service/group.go:84-195 | Which group updates are accepted: members only, a currency change only without live rows, a default split only for a pair, a new owner only by the owner and among the members |
| `Outcomes.GroupUpdated` | api/internal/service/group.go:84-166 | Each field the patch names is replaced, an empty default split clears it, the members stay |
| `Outcomes.GroupDeleted` | api/internal/service/group.go:198-207 | Exactly the owner may delete a group; its expenses, settlements and revisions go and nobody else's |
| `Outcomes.MemberAdded` | api/internal/service/group.go:258-299 | Any member may add a known user; the default split ends with the third member |
| `Outcomes.MemberRemoved` | api/internal/service/group.go:314-358 | Exactly who may remove whom: members themselves, and the owner others whose balance is zero, but nobody the owner; the default split ends below two members |
| `Outcomes.RemovalRefused` | api/internal/service/group.go:314-358 | Otherwise the answer is the error of the first failing check |
| `Store.Database.CreateWithSplits` | api/internal/repo/expense.go:44-69 | The expense row and its split rows are written together or not at all |
| `Store.Database.CreateExpense` | api/internal/service/expense.go:60-122 | The method with its checks in order makes the ledger call of `Outcomes.ExpenseCreated`, overflowing resolver included, and nothing when it fails |
| `Store.Database.UpdateRow` | api/internal/repo/expense.go:223-382 | The field-by-field comparison, revision rows and split writes make the edit of `Expenses.EditWritesFields`, on 64-bit integers |
| `Store.Database.UpdateExpense` | api/internal/service/expense.go:155-215 | The service update makes the ledger call of `Outcomes.ExpenseUpdated`, on 64-bit integers, and nothing when it fails |
| `Store.Database.DeleteExpense` | api/internal/service/expense.go:235-250 | The method makes the ledger call whose effect on balances `Effects.DeleteExpenseMoves` states |
| `Store.Database.CreateSettlement` | api/internal/service/settlement.go:41-111 | A settlement of a positive amount between two different members, recorded by its payer; otherwise the first failing check's error |
| `Store.Database.DeleteSettlement` | api/internal/service/settlement.go:153-172 | The method makes the ledger call whose effect on balances `Effects.DeleteSettlementMoves` states |
| `Store.Database.Materialize` | api/internal/service/recurring.go:134-160 | The insert of `Outcomes.TemplateMaterialized`, refused when a split names a user who does not exist |
| `Store.Database.CreateGroup` | api/internal/service/group.go:47-68 | A group with its creator as only member and owner, in the given or the default currency |
| `Store.Database.DeleteGroup` | api/internal/service/group.go:198-207 | The method makes the ledger call whose effect on balances `Effects.DeleteGroupMoves` states |
| `Store.Database.UpdateGroup` | api/internal/service/group.go:84-166 | The group update with its checks in order: membership, currency lock, default split, ownership |
| `Store.Database.AddMember` | api/internal/service/group.go:258-299 | A third member clears the default split |
| `Store.Database.RemoveMember` | api/internal/service/group.go:314-358 | Who may remove whom, the zero-balance rule, and the default split cleared below two members |
| `Store.ValidateDefaultSplit` | api/internal/service/group.go:168-195 | The loop accepts exactly two distinct members with basis points in range that sum to 10000 |
| `Store.MoneyChanges` | api/internal/repo/expense.go:285-330 | Which splits and amount revisions an update appends and which splits it writes, on 64-bit integers |
| `Simplify.SimplifiedOrderFree` | api/internal/service/balance.go:50-82 | The suggestion depends only on who has which balance, not on row order |
| `Simplify.SimplifiedSize` | api/internal/service/balance.go:83-101 | The total moved is the smaller of total credit and total debt, in at most one transfer less than there are non-zero balances |
| `Simplify.SimplifiedSettles` | api/internal/service/balance.go:50-102 | Nobody pays more than they owe or gets more than they are owed; the side that is not larger is settled to the cent; zero-sum balances are settled completely |
| `Simplify.SimplifiedResidue` | api/internal/service/balance.go:65-101 | When the sides differ, what stays unpaid is a suffix of the sorted larger side |
| `Simplify.SimplifiedParties` | api/internal/service/balance.go:83-95 | Each transfer is positive, from a debtor to a creditor |
| `Simplify.LargestFirst` | api/internal/service/balance.go:65-101 | The transfers go through the creditors from the largest claim down and through the debtors from the largest debt down, smaller ids first among equals |
| `Simplify.NotMinimal` | api/internal/service/balance.go:47-49 | Five balances for which the greedy suggestion has four transfers although three settle them; `Minimal.ShortestExactly` says when |
| `Minimal.SettlingNeeds` | api/internal/service/balance.go:47-49 | Any transfers that settle the balances divide the people with a balance into groups that settle among themselves, and number at least the people less the groups |
| `Minimal.DivisionSettles` | api/internal/service/balance.go:47-49 | Every division into groups that each sum to zero is settled by people less groups transfers, so the bound is reached |
| `Minimal.SuggestionLength` | api/internal/service/balance.go:82-101 | For zero-sum balances the suggestion has as many transfers as there are people with a balance, less the totals that both sorted sides come to |
| `Minimal.ShortestExactly` | api/internal/service/balance.go:47-102 | For zero-sum balances the suggestion settles them, and is as short as any list that does if and only if no division has more groups than the two sorted sides have totals in common |
| `Minimal.ShortestUnlessSplittable` | api/internal/service/balance.go:47-102 | It is shortest whenever no group of fewer than all the people with a balance is square among itself |
| `Simplify.Simplify` | api/internal/service/balance.go:50-102 | The loops compute the specified suggestion |
| `Simplify.PairOff` | api/internal/service/balance.go:82-101 | The two-index loop over the two arrays computes the recursive pairing |
| `SettleUp.AnyRowsSameSuggestion` | api/internal/repo/balance.go:24-61 | Whatever order the query returns equal balances in, the suggestion is the same |
| `SettleUp.AnswersExactly` | api/internal/repo/balance.go:24-73 | The balance query has an answer the simplifier can use if and only if every member's balance lies strictly between -2^63 and 2^63 |
| `SettleUp.PostMoves` | api/internal/service/settlement.go:41-111 | Posting a suggested transfer is accepted and moves exactly its amount between the two balances |
| `SettleUp.SettleUpClears` | api/internal/service/balance.go:50-102 | From zero-sum member balances within 64 bits, every suggested transfer is accepted in turn, and then every member's balance is zero and nothing is suggested |
| `SettleUp.FirstSuggestionZeroes` | api/internal/service/balance.go:83-95 | The first suggestion is the whole of what one of its parties owes or is owed |
| `SettleUp.PaymentProgress` | api/internal/service/settlement.go:41-75 | One payment settles at least one member, unsettles nobody and keeps the balances within 64 bits |
| `SettleUp.NeverOneUnsettled` | api/internal/service/balance.go:50-102 | With zero-sum balances within 64 bits there is never exactly one unsettled member, and nothing is suggested exactly when nobody is |
| `SettleUp.PayOneByOneClears` | api/internal/service/balance.go:50-102 | From zero-sum balances within 64 bits, paying the first suggestion and recomputing reaches all-zero in at most one payment less than there were unsettled members |
| `Calendar.AdvanceForward` | api/internal/service/recurring.go:194-208 | A step moves forward by exactly 1, 7, 14, the current month's days, or 365 or 366 days, and keeps the time of day |
| `Calendar.MonthlyLandsOn` | api/internal/service/recurring.go:194-208 | Where a monthly step lands, including days the next month lacks |
| `Calendar.MonthlySameDay` | api/internal/service/recurring.go:194-208 | From a day up to the 28th, n monthly steps land on the same day n months on |
| `Calendar.MonthlyDriftsOnce` | api/internal/service/recurring.go:194-208 | From the 29th, 30th or 31st the day number changes at most once ever, to 1, 2 or 3 |
| `Calendar.StepsIncrease` | api/internal/service/recurring.go:194-208 | No two steps of a cadence give the same instant |
| `Calendar.TwinCalendars` | api/internal/service/recurring.go:194-208 | Go's calendar formula and ECMA-262's number the years alike, for every year |
| `Calendar.GoDaysMatch` | api/internal/service/recurring.go:194-208 | For any date Go's closed day-count formula is the numbering built up from its January firsts |
| `Calendar.AdvanceOnPage` | web/src/pages/api/expenses.ts:75-95 | The page's setter-based step equals the service's step on every whole millisecond and cadence, and fails exactly when the result is past the last JavaScript time value |
| `Recurring.ServiceStepForward` | api/internal/service/recurring.go:194-208 | The service's cadence step is one of the forward steps the protocol results are stated for |
| `Recurring.StepKeepsOk` | api/internal/service/recurring.go:119-184 | Every new user and template, group deletion, claim, create, stage, commit and abort of any worker keeps the protocol's invariant |
| `Recurring.CrashSafety` | api/internal/service/recurring.go:119-184 | Over all interleavings and aborts, each date before the committed next date has at least one expense and at most one more than the aborted ticks that claimed it; exactly one if none aborted |
| `Recurring.BoundReached` | api/internal/service/recurring.go:119-184 | That upper bound is met: for every n there is a schedule with n aborted ticks and n + 1 expenses for one date |
| `Recurring.OnlyScheduledDates` | api/internal/repo/recurring.go:121-163 | Every expense made carries a date of its template's schedule, no later than the next run |
| `Recurring.TicksNeverStick` | api/internal/service/recurring.go:58-61 | If every template stored so far named existing users and split into non-negative shares when it was stored, a busy worker can always take its next step unless somebody is deleting the group of its next template |
| `Recurring.NextStep` | api/internal/service/recurring.go:134-160 | Inside a tick a worker can take its next step except when the template whose turn it is does not fit into the expense tables or its group is being deleted |
| `Recurring.StandoffLasts` | api/internal/repo/group.go:195-203 | A worker whose next template belongs to a group under deletion, and that deletion, wait for each other through every schedule until the tick aborts or the deletion gives up |
| `Recurring.StandoffReached` | api/internal/service/recurring.go:119-160 | A reachable schedule with such a standoff |
| `Recurring.UnknownUserStored` | api/internal/service/recurring.go:46-89 | The service stores a template whose split names a user who does not exist, and no tick can insert its expense |
| `Recurring.NeverInserted` | api/migrations/0001_init.up.sql:142-148 | While a template does not fit into the expense tables, it has no expense and keeps its first date |
| `Recurring.PoisonedTickAborts` | api/internal/service/recurring.go:119-184 | No tick that has claimed such a template can commit, whatever else it claimed |
| `Ticks.ClaimSize` | api/internal/repo/recurring.go:121-155 | An undisturbed claim takes the due templates, at most a hundred |
| `Ticks.TickLowers` | api/internal/service/recurring.go:119-184 | A tick lowers the number of overdue occurrences by the smaller of 100 and the due templates |
| `Ticks.OverdueDatesExactly` | api/internal/service/recurring.go:119-184 | The overdue dates of a template are the dates of its schedule from its next run up to now |
| `Ticks.CatchUpCount` | api/internal/service/recurring.go:119-184 | A run of committed ticks creates exactly as many expenses as overdue occurrences it removes |
| `Ticks.CatchUpDates` | api/internal/service/recurring.go:119-184 | They carry exactly the overdue dates, each once |
| `Ticks.QuietTick` | api/internal/service/recurring.go:119-133 | A tick claims nothing if and only if nothing is due |
| `Ticks.CatchUpEnds` | api/internal/service/recurring.go:119-184 | When every due template fits into the expense tables, ticking at a fixed time commits every tick and ends with nothing due |
| `Ticks.CatchUpExactly` | api/internal/service/recurring.go:119-184 | Ticking, failed ticks included, can end with nothing due if and only if every due template fits: its users exist, it resolves, no share is negative |
| `Ticks.Scheduler.CreateTemplate` | api/internal/service/recurring.go:46-89 | A template is stored exactly when a member asks, with a known cadence, a positive amount, splits that resolve and an existing payer; it is stored as given, in the group's currency if it names none, due first at the given date |
| `Ticks.Scheduler.DeleteTemplate` | api/internal/repo/recurring.go:83-95 | A live, unlocked template is marked deleted exactly when a member of its group asks, and no other row changes |
| `Ticks.Scheduler.Tick` | api/internal/service/recurring.go:119-184 | The tick loop succeeds if and only if every claimed template fits into the expense tables: then all rows advance; otherwise no row advances, but the expenses made before the first that does not fit stay. Every occurrence made stands for one new expense of its template with its date, and nothing else is new |
| `Text.Base64RoundTrip` | api/internal/service/activity.go:156-168 | Unpadded URL-safe base64 (RFC 4648, section 5) decodes to what was encoded |
| `Text.Base64Vectors` | api/internal/service/activity.go:156-168 | Test vectors of RFC 4648, section 10, and of the two characters of the URL-safe alphabet |
| `Cursor.TimeRoundTrip` | api/internal/service/activity.go:156-183 | An RFC 3339 UTC time with trimmed nanoseconds reads back exactly when its year is 0 to 9999, and is refused otherwise |
| `Cursor.IdRoundTrip` | api/internal/service/activity.go:156-190 | A UUID's text reads back as the same id |
| `Cursor.CursorRoundTrip` | api/internal/service/activity.go:156-192 | Decoding an encoded row gives the row if and only if both its times fall in the years 0 to 9999; otherwise the cursor is refused |
| `Cursor.LateRowRefused` | api/internal/service/activity.go:156-192 | A time at 23:59:59 on the last day of the year 9999, twelve hours west of UTC, falls in the year 10000, and its row's cursor is refused |
| `Cursor.TimeSample` | api/internal/service/activity.go:156-168 | How an instant is written: year, month, day, hours, minutes, seconds, in UTC |
| `Cursor.CursorLayout` | api/internal/service/activity.go:156-168 | The cursor holds occurrence, creation, kind and id, in this order, with bars between them |
| `Cursor.IdShape` | api/internal/service/activity.go:156-168 | An id is written in lower-case hexadecimal groups of 8, 4, 4, 4 and 12 |
| `Activity.IndexAnswerUnique` | api/internal/repo/activity.go:41-83 | Ordering and cursor predicate leave the index query one answer |
| `Activity.IndexAnswerExists` | api/internal/repo/activity.go:41-83 | There is such an answer for all tables with separate ids |
| `Activity.List` | api/internal/service/activity.go:54-150 | The page loop: limit clamped, ids collected, rows without payload skipped, expenses labelled with the cadence of the first template of the same content, a next cursor only when there is more |
| `Activity.PagedWalk` | api/internal/service/activity.go:54-192 | Walking page by page with real cursors over tables that change between any two queries: strictly newest first, no row twice, nothing invented or mislabelled, and a finished walk shows every row that stayed in place exactly once |
| `Activity.WalkReads` | api/internal/repo/activity.go:41-83 | In plain terms: times never go up along a walk, equal times go by creation and then id downward, and every item was an undeleted row of this group |
| `Activity.CursorRefused` | api/internal/service/activity.go:163-192 | The request after a page fails exactly when that page's last row has a time no cursor can carry |
| `Activity.WalkEnds` | api/internal/service/activity.go:54-150 | Pages with room for every row ever listed reach the end |
| `Activity.StillWalk` | api/internal/service/activity.go:54-150 | Over unchanging tables such a walk lists exactly the group's live rows, each once |
| `Setup.OneCompletion` | api/internal/service/setup.go:96-159 | Over all interleavings: no user before completion; at most one completion; from then on completed_by is an existing user |
| `Setup.CompletionNeedsToken` | api/internal/service/setup.go:96-159 | The completing transaction presented the stored token and creates the first and only user, an admin |
| `Setup.LastMintedStored` | api/internal/repo/setup.go:47-57 | Over all interleavings the stored hash is that of the token minted last before completion |
| `Setup.OnlyLastTokenOpens` | api/internal/service/setup.go:96-159 | While the ceremony is open, a token gets past the lock if and only if it is the one minted last |
| `Setup.LastTokenCompletes` | api/internal/service/setup.go:96-159 | The completing commit presented the token minted last |
| `Setup.BootThenComplete` | api/internal/service/setup.go:62-159 | After a boot, run alone, the ceremony completes exactly with the token of that boot, whatever was stored before |
| `Setup.FounderRole` | api/internal/service/admin.go:103-157 | From completion on, the recorded user has the role written to it last, and is an admin as long as nobody wrote one |
| `Setup.FounderDemoted` | api/internal/service/admin.go:103-157 | A reachable schedule in which a second admin demotes the user that completed the ceremony |
| `Setup.LastAdminKept` | api/internal/service/admin.go:103-133 | The check behind a demotion never passes on oneself, nor without another active admin |
| `Setup.SetupFrozen` | api/internal/repo/setup.go:47-71 | Once completed, the token hash and completed_by never change again |
| `Setup.RoleFromCount` | api/internal/service/auth.go:281-295 | Between its count and its commit a registration is to become admin if and only if nobody was active when it counted under the lock |
| `Setup.AdminAlone` | api/internal/service/auth.go:281-295 | When a registration commits as admin, the accounts active beside it are exactly those that admin calls inserted between its count and its commit and that are still active |
| `Setup.AdminNotAlone` | api/internal/service/admin.go:187-258 | A reachable schedule in which there is such an account |
| `Setup.LocksExclude` | api/internal/service/auth.go:281-295 | Never two transactions inside the ceremony, never two holding the user count |
| `Setup.StepKeepsOk` | api/internal/service/setup.go:62-159 | Every database statement of every process, admin calls included, keeps the ceremony's invariant |
| `Setup.Instance.EnsureToken` | api/internal/service/setup.go:62-80 | Run alone, a boot stores the hash of the token it returns, over whatever was there, or reports completion and changes nothing |
| `Setup.Instance.CompleteWithToken` | api/internal/service/setup.go:96-159 | Run alone, the ceremony succeeds exactly on an open setup with the right token, and then records the new user, an admin if nobody was active |
| `Setup.Instance.Register` | api/internal/service/auth.go:151-166 | Run alone, registration is refused until the ceremony is over, and otherwise adds one active user, an admin if and only if nobody was active |
| `Editor.FloorDivExact` | web/src/scripts/split-editor.ts:85-90 | Math.floor of a rounded double quotient of integers below 2^53 is the integer quotient |
| `Editor.EqualSharesApportion` | web/src/scripts/split-editor.ts:85-90 | The editor's equal shares are the server's equal split |
| `Editor.PreviewIsServer` | web/src/scripts/split-editor.ts:213-246 | For every buffer the Done button accepts, with products below 2^53, the previewed shares are those the server's 64-bit resolver returns for the committed payload |
| `Editor.ServedExactly` | web/src/scripts/split-editor.ts:296-365 | The server answers every buffer the Done button accepts with the intended split, except in percent mode when a product of amount and value reaches 2^63 |
| `Editor.SubmittableExactly` | web/src/scripts/split-editor.ts:296-330 | The Done button is enabled exactly for a positive amount and a payload the server's rules accept |
| `Editor.PrefillAccepted` | web/src/scripts/split-editor.ts:185-211 | With an amount from 1 to 2^53 - 1 cents and someone included, the Done button accepts the prefilled buffer; the 64-bit server answers with the intended split in equal and exact mode always, in percent mode if and only if the amount times the largest prefilled value is below 2^63; and with the previewed shares when that product is below 2^53 |
| `Editor.PrefillPanics` | api/internal/service/expense.go:306-327 | One included row and 2^52 cents in percent mode: the Done button is enabled and the server panics |
| `Editor.PrefillKeepsRows` | web/src/scripts/split-editor.ts:185-211 | Prefilling changes nobody's inclusion and gives no value to those left out, nor to anybody in equal mode |
| `Editor.SplitEditor.PrefillForMode` | web/src/scripts/split-editor.ts:185-211 | The loops over the buffer give each included row its next prefill value and zero to the others |
| `Editor.SplitEditor.ComputedShares` | web/src/scripts/split-editor.ts:213-246 | The map-filling loops, with the round-robin hand-out, compute the preview for every buffer whose sums stay below 2^53 |
| `Editor.SplitEditor.CanSubmit` | web/src/scripts/split-editor.ts:296-330 | The Done button is enabled exactly for the submittable buffers |
| `Editor.SplitEditor.Commit` | web/src/scripts/split-editor.ts:347-365 | The payload names the included rows in order, without values in equal mode |

## Left out

- Invariants.RunsKeepOk: for calls whose values have no sum that wraps; `Invariants.OverflowRun` is a run outside it that breaks the invariant. In percent and shares modes a wrapped sum can still come out right; `Invariants.CreatedInOrder` has the exact test for every input. For any run whatever, `Invariants.RunsKeepTables` and `Invariants.RunsGroups` hold.
- Store.Database.UpdateExpense: takes the amount the service read before the row lock to be the locked one (`api/internal/service/expense.go:204-208`); `Invariants.StaleRead` covers a change in between. It starts from tables in order (`Invariants.TablesOk`), which `Invariants.RunsKeepTables` shows of every run.
- Effects.DeleteExpenseMoves: one split row per user, as the primary key has it and `Invariants.RunsKeepTables` shows of every run; likewise for updates.
- Ticks.Scheduler.Tick: the new expenses' ids arrive as arguments, and every template's group is there, as the foreign key has it.
- Store.Database.RemoveMember: the target's balance is an argument, read by the balance query beforehand.
- Splits.Resolve64Exactly: in shares mode it stops at weights summing to 2^62; above that wrapped quotients and a longer hand-out can cancel, so the condition is no longer exact.
- Rescale.Rescaled64Exactly: needs one row whose product fits and an old total up to 2^62; with every product too large (a single row, for one) the wrapped shares and the hand-out can come out right by accident, and above 2^62 the remainder itself can wrap.
- Minimal.ShortestUnlessSplittable: one direction; a splittable set of balances can still get a shortest suggestion (5, 5, -5, -5). `Minimal.ShortestExactly` is the exact condition.
- Simplify.Simplify: sorts with the specification's sort instead of the library's, and its amounts are unbounded; on 64 bits nothing wraps for balances strictly between -2^63 and 2^63, which `SettleUp` asks for.
- Activity.List: the group-membership check arrives as an argument, and templates come in the order their query returned them.
- Activity.IndexAnswerExists: takes ids to be unique across the two tables, as the database's random ids are.
- Cursor.CursorRoundTrip: the decoder reads the forms the encoder writes; other spellings that Go's time and UUID parsers accept (offsets, braces, URN prefixes) are not modelled.
- Editor.PreviewIsServer: reading the amount and the values from text fields, and drawing the dialog, are not modelled; values are the integers those handlers store.
- Each ledger call is one atomic step; interleavings are modelled for the scheduler and the setup ceremony only.
- The advisory lock in `runOnce` of the worker: the scheduler results hold for every schedule of any number of workers, with or without it.
- Revision rows of one update are in insertion order; the listing query orders by timestamp only.
- Recurring templates check neither payer nor participant membership, so ticks may charge people who left; the model keeps that.
- Fresh ids, the current time, category lookup and white-space trimming are inputs; upper-casing a currency covers ASCII letters.
- Password hashing, e-mail, sessions, audit rows and notifications around registration and settlement.
- Ticks.Scheduler.CreateTemplate: runs while nobody deletes the group; `Recurring` has deletions of groups as steps, which mark the group's templates as deleted instead of removing the rows.
- Editor.SplitEditor.ComputedShares: numbers past 2^53 are rounded by JavaScript; the model rounds what is divided, but adds and counts exactly.
- The checks in the admin calls that only refuse (unknown roles, taken e-mail addresses, deleting oneself or the last admin); account deletion may happen at any time for any account.
- HTTP handlers, JSON binding, configuration, templates, administration and profile pages.
