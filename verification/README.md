# Group-expense ledger and record store, in Dafny

This project models the core of a personal budget tracker with shared group expenses.

**Group ledger.** The ledger lives in `src/utils/groupCalculations.ts` and has three operations:

- `calculateGroupBalances` keeps one running balance per group member. A member is credited for what they paid and for repayments they sent. They are debited for their shares of expenses and for repayments they received. Each member's line then suggests whom they might pay.
- `getDetailedBalances` builds a pairwise debt matrix, `owesMatrix[debtor][creditor]`, from the expense splits. It reduces the matrix by the recorded settlements. Each member's line then lists what they owe (`owes`), what they are owed (`owedBy`) and the difference (`netBalance`).
- `getSettlementSuggestions` turns every positive `owes` entry into one suggested payment, largest first.

**Record store.** The store lives in `src/utils/storage.ts`. It keeps five id-keyed record collections, one per storage key:

- transactions, budgets, groups and group expenses use save-by-id (replace the first record with that id, or append) and delete-by-id;
- settlements use an insert-only save;
- a first-load routine seeds sample transactions and budgets.

**Model conventions.**

- Money is held in integer cents, so every `Math.round(x * 100) / 100` of the source is the identity.
- Plain JavaScript objects used as dictionaries are modelled as `Dict.Dict`: the keys in insertion order beside a map. Assigning to a new key appends it; assigning to a present key keeps its place. This order matters, because the suggestion list inherits it for equal amounts.
- The store is a value with one optional list per storage key. Each save or delete is a function from store to store.

**Modules:**

- `Types`: the record shapes of `src/types/index.ts`.
- `Dict`: insertion-ordered objects, sums, and the positive part of a dictionary.
- `Records`: the findIndex / replace-or-push / filter idiom over id-keyed lists.
- `Storage`: the five collections and `initializeSampleData`.
- `GroupBalances`: `calculateGroupBalances`.
- `DebtMatrix`: building `owesMatrix` from expenses and settlements.
- `DetailedBalances`: the per-member lines of `getDetailedBalances`.
- `Suggestions`: `getSettlementSuggestions`, including its stable descending sort.

**Where the model departs from a plain reading.**

- **Non-members.** `getDetailedBalances` indexes `owesMatrix[split.userId]` and `owesMatrix[settlement.fromUserId]` with no guard. It throws a `TypeError` when a non-payer split or a settlement sender is not a group member. The model states this as a precondition, `DebtMatrix.Buildable` (characterised by `DebtMatrix.BuildableKnown`), rather than as an error result. The functions never return anything in that case; the caller must not ask.
- **Overpayment.** A settlement reduces `owesMatrix[from][to]` only when that entry is non-zero, and floors the result at zero. An overpayment is therefore dropped; it never becomes a debt in the other direction. The model reproduces this behaviour.

## Model

| member | source | states |
|---|---|---|
| Dict.Set | src/utils/groupCalculations.ts:132 | after `obj[k] = v` the key is present, and at most one key is added |
| Dict.SetKeepsOrder | src/utils/groupCalculations.ts:132 | assignment stores the value and keeps every key already listed at its position, so only a new key goes to the end |
| Dict.PositiveOver | src/utils/groupCalculations.ts:138-144 | the `amount > 0` filter over the listed ids keeps at most one key per id |
| Dict.Positive | src/utils/groupCalculations.ts:130-135 | the `amount > 0` filter over an object keeps no more keys than the object has |
| Records.FindIndex | src/utils/storage.ts:46 | returns the first position whose record has the id, and -1 exactly when no record has it |
| Records.Remove | src/utils/storage.ts:53 | no record with the id survives, every record with another id does, and nothing new appears |
| Records.Upsert | src/utils/storage.ts:44-50 | with the id present, the first record with it is replaced and every other position is kept; otherwise the record is appended to the unchanged list |
| Records.InsertNew | src/utils/storage.ts:116-121 | with the id present the list is unchanged; otherwise the record is appended |
| Records.UpsertThenFind | src/utils/storage.ts:44-50 | after a save, looking the id up finds exactly the saved record |
| Records.UpsertIdempotent | src/utils/storage.ts:44-50 | saving the same record twice equals saving it once |
| Records.UpsertOthersUnchanged | src/utils/storage.ts:44-55 | a save only affects records with the saved id: removing that id afterwards gives the list removing it before gives |
| Records.RemoveAppend | src/utils/storage.ts:53 | filtering distributes over concatenation, so survivors keep their order |
| Records.RemoveAbsent | src/utils/storage.ts:52-55 | deleting an id no record carries leaves the list as it was |
| Records.RemoveSingleton | src/utils/storage.ts:53 | a one-record list keeps its record exactly when the record does not carry the id |
| Records.RemoveIdempotent | src/utils/storage.ts:52-55 | deleting twice equals deleting once |
| Records.InsertNewIdempotent | src/utils/storage.ts:116-121 | an insert-only save repeated equals one save |
| Records.UpsertAll | src/utils/storage.ts:134 | saving records one by one never shrinks the list and grows it by at most one per record |
| Records.UpsertAllFresh | src/utils/storage.ts:134 | saving records with distinct, fresh ids one by one appends them in order |
| Storage.Read | src/utils/storage.ts:26-33 | a key with nothing readable under it reads as the empty list |
| Storage.SaveIn | src/utils/storage.ts:44-50 | a save always writes a list back, and the saved record is in it |
| Storage.DeleteIn | src/utils/storage.ts:52-55 | a delete always writes a list back, and no record in it has the id |
| Storage.InsertIn | src/utils/storage.ts:116-121 | an insert-only save always writes a list back, and some record in it has the id |
| Storage.SaveInLaws | src/utils/storage.ts:44-50 | after a save the first record with the id is the saved one, the list grows by at most one, and a second save changes nothing |
| Storage.DeleteInLaws | src/utils/storage.ts:52-55 | after a delete no record has the id and all others remain; deleting twice equals deleting once; deleting right after a save of that id equals deleting without the save |
| Storage.DeleteInAbsent | src/utils/storage.ts:52-55 | deleting an absent id rewrites the same list |
| Storage.InsertInLaws | src/utils/storage.ts:116-121 | a settlement with a known id never replaces the stored one; a new id is appended; inserting twice equals once |
| Storage.SaveTransaction | src/utils/storage.ts:44-50 | the transactions list read back is the stored list after save-by-id (Records.Upsert), and every other key is unchanged |
| Storage.DeleteTransaction | src/utils/storage.ts:52-55 | the transactions list read back is the stored list after delete-by-id (Records.Remove), and every other key is unchanged |
| Storage.SaveBudget | src/utils/storage.ts:62-68 | the budgets list read back is the stored list after save-by-id (Records.Upsert), and every other key is unchanged |
| Storage.DeleteBudget | src/utils/storage.ts:70-73 | the budgets list read back is the stored list after delete-by-id (Records.Remove), and every other key is unchanged |
| Storage.SaveGroup | src/utils/storage.ts:80-86 | the groups list read back is the stored list after save-by-id (Records.Upsert), and every other key is unchanged |
| Storage.DeleteGroup | src/utils/storage.ts:88-91 | the groups list read back is the stored list after delete-by-id (Records.Remove), and every other key is unchanged, so the group's expenses and settlements stay |
| Storage.SaveGroupExpense | src/utils/storage.ts:98-104 | the group-expenses list read back is the stored list after save-by-id (Records.Upsert), and every other key is unchanged |
| Storage.DeleteGroupExpense | src/utils/storage.ts:106-109 | the group-expenses list read back is the stored list after delete-by-id (Records.Remove), and every other key is unchanged |
| Storage.SaveSettlement | src/utils/storage.ts:116-121 | the settlements list read back is the stored list after the insert-only save (Records.InsertNew), and every other key is unchanged |
| Storage.InitializeSampleData | src/utils/storage.ts:126-154 | seeding leaves groups, group expenses and settlements as they were and a non-empty transaction or budget list as it was; InitializeSampleDataEffect and InitializeSampleDataIdempotent say what the empty lists become |
| Storage.SampleTransactions | src/utils/storage.ts:129-133 | three sample transactions of user-1 with distinct ids and positive amounts |
| Storage.SampleBudgets | src/utils/storage.ts:139-143 | three sample budgets of user-1 with distinct ids, each with 0 <= spent <= limit |
| Storage.SampleTransactionsSaved | src/utils/storage.ts:128-135 | saving the three sample transactions into an empty list stores them as listed |
| Storage.SampleBudgetsSaved | src/utils/storage.ts:138-145 | saving the three sample budgets into an empty list stores them as listed |
| Storage.InitializeSampleDataEffect | src/utils/storage.ts:126-154 | an empty transaction or budget list becomes the samples, a non-empty one is untouched, and groups, group expenses and settlements are untouched |
| Storage.InitializeSampleDataIdempotent | src/utils/storage.ts:126-154 | seeding a second time changes nothing |
| GroupBalances.Start | src/utils/groupCalculations.ts:23-25 | the ledger holds exactly the member ids |
| GroupBalances.Adjust | src/utils/groupCalculations.ts:30-32 | a guarded `+=` never adds or removes a ledger key; AdjustGet and AdjustTotal give its effect |
| GroupBalances.ApplySplits | src/utils/groupCalculations.ts:35-39 | debiting the shares keeps the ledger keys; ApplySplitsGet gives each balance |
| GroupBalances.ApplyExpense | src/utils/groupCalculations.ts:28-40 | an expense keeps the ledger keys |
| GroupBalances.ApplyExpenses | src/utils/groupCalculations.ts:28-40 | the expense loop keeps the ledger keys; ApplyExpensesGet gives each balance |
| GroupBalances.ApplySettlement | src/utils/groupCalculations.ts:43-50 | a settlement keeps the ledger keys; SettlementTotal gives its effect on the total |
| GroupBalances.ApplySettlements | src/utils/groupCalculations.ts:43-50 | the settlement loop keeps the ledger keys; ApplySettlementsGet gives each balance |
| GroupBalances.Balances | src/utils/groupCalculations.ts:20-50 | the finished ledger holds exactly the member ids; BalanceClosedForm gives each balance |
| GroupBalances.Offer | src/utils/groupCalculations.ts:59-68 | an offer is never negative, and is positive exactly when the two members differ, the member owes and the other is owed, so the `settlement > 0` guard never fails |
| GroupBalances.Breakdown | src/utils/groupCalculations.ts:55-70 | the breakdown has at most one key per listed member; BreakdownAmount and BreakdownExact say which keys and amounts |
| GroupBalances.Line | src/utils/groupCalculations.ts:72-77 | a line is headed by the member's id and name; LineBreakdown gives its settlements |
| GroupBalances.ApplySplitsGet | src/utils/groupCalculations.ts:35-39 | an expense's splits lower a member's balance by that member's shares and leave non-members absent |
| GroupBalances.ApplyExpensesGet | src/utils/groupCalculations.ts:28-40 | after the expenses, a member's balance has grown by what they paid less their shares |
| GroupBalances.ApplySettlementsGet | src/utils/groupCalculations.ts:43-50 | after the settlements, a member's balance has grown by what they repaid less what they were repaid |
| GroupBalances.BalanceClosedForm | src/utils/groupCalculations.ts:20-50 | the ledger holds exactly the members; each balance is paid − shares + repaid − received; payers, split users and settlement parties outside the group are ignored |
| GroupBalances.AdjustTotal | src/utils/groupCalculations.ts:30-32 | a guarded `+=` moves the total over distinct ids by its amount exactly when the id is in the ledger and among the ids |
| GroupBalances.SettlementTotal | src/utils/groupCalculations.ts:43-50 | a settlement changes the total by +amount if the sender is a member and −amount if the receiver is, so between members it preserves the total |
| GroupBalances.ApplySplitsTotal | src/utils/groupCalculations.ts:35-39 | splits among members lower the total by their sum |
| GroupBalances.ApplyExpensesTotal | src/utils/groupCalculations.ts:28-40 | expenses whose payer and split users are members and whose shares add up to the amount leave the total unchanged |
| GroupBalances.ApplySettlementsTotal | src/utils/groupCalculations.ts:43-50 | settlements between members leave the total unchanged |
| GroupBalances.LinesTotal | src/utils/groupCalculations.ts:53-78 | the output balances add up to the ledger's total over the member ids |
| GroupBalances.ZeroSum | src/utils/groupCalculations.ts:15-79 | with distinct member ids, closed expenses and settlements between members, the balances of `calculateGroupBalances` sum to zero |
| GroupBalances.LinesFor | src/utils/groupCalculations.ts:53-78 | one line per member, in member order, each built from that member |
| GroupBalances.CalculateGroupBalances | src/utils/groupCalculations.ts:15-79 | one line per member; LineHeader, BalanceClosedForm, LineBreakdown and ZeroSum give each line its meaning |
| GroupBalances.LineHeader | src/utils/groupCalculations.ts:72-75 | line `i` carries member `i`'s id and name and the ledger balance of that id |
| GroupBalances.BreakdownAmount | src/utils/groupCalculations.ts:58-70 | the breakdown holds an id exactly when it is among the members with a positive offer, and then holds the offer |
| GroupBalances.BreakdownValid | src/utils/groupCalculations.ts:55-70 | the breakdown lists each key once |
| GroupBalances.BreakdownExact | src/utils/groupCalculations.ts:58-70 | the breakdown of `u` lists member `o` exactly when `o` ≠ `u`, `u` owes and `o` is owed, for min(|balance of u|, balance of o) |
| GroupBalances.LineBreakdown | src/utils/groupCalculations.ts:53-78 | line `i`'s settlements are exactly the other members who are owed while member `i` owes, each for the smaller of the two amounts |
| DebtMatrix.Debt | src/utils/groupCalculations.ts:139 | `owesMatrix[a]?.[b] || 0`: a missing row or a missing entry reads as 0 |
| DebtMatrix.BuildableKnown | src/utils/groupCalculations.ts:100-117 | the precondition `Buildable` holds exactly when every row indexed without a guard, `owesMatrix[split.userId]` for a non-payer split and `owesMatrix[settlement.fromUserId]`, exists in the initialised matrix |
| DebtMatrix.Init | src/utils/groupCalculations.ts:90-93 | the matrix has one row per member id |
| DebtMatrix.InitFacts | src/utils/groupCalculations.ts:90-93 | initially nobody owes anybody, and the shape invariants hold |
| DebtMatrix.Credit | src/utils/groupCalculations.ts:103-106 | the entry grows by the amount, every other entry is unchanged, and a missing key is appended |
| DebtMatrix.AddSplit | src/utils/groupCalculations.ts:101-107 | one split keeps the set of rows; AddSplitDebt gives its effect |
| DebtMatrix.AddSplits | src/utils/groupCalculations.ts:100-108 | crediting the splits of an expense keeps the set of rows; AddSplitsDebt gives each entry |
| DebtMatrix.AddExpenses | src/utils/groupCalculations.ts:96-109 | the expense phase keeps the set of rows; AddExpensesDebt gives each entry |
| DebtMatrix.AddSplitDebt | src/utils/groupCalculations.ts:100-107 | a split raises exactly the entry debtor → payer by its share, and not at all when the debtor is the payer |
| DebtMatrix.AddSplitsDebt | src/utils/groupCalculations.ts:100-108 | the splits of an expense add up entry by entry |
| DebtMatrix.AddExpensesDebt | src/utils/groupCalculations.ts:96-109 | after all expenses, each entry has grown by everything charged on that pair |
| DebtMatrix.CreditShape | src/utils/groupCalculations.ts:103-106 | crediting keeps a row's keys listed once, adds only the creditor, and keeps non-negative rows non-negative |
| DebtMatrix.AddExpensesInvariant | src/utils/groupCalculations.ts:96-109 | expenses keep rows well formed, never record a self-debt, name only payers as creditors, and keep non-negative splits non-negative |
| DebtMatrix.Max0 | src/utils/groupCalculations.ts:118 | `Math.max(0, x)` is non-negative, at least `x`, and either `x` or 0 |
| DebtMatrix.Reduce | src/utils/groupCalculations.ts:117-119 | a zero or missing entry leaves the row as it was; a non-zero one drops by the amount, floored at zero; other entries and the key order are unchanged |
| DebtMatrix.Settle | src/utils/groupCalculations.ts:112-120 | a settlement from a known sender keeps the set of rows; SettleEffect gives its effect |
| DebtMatrix.SettleEffect | src/utils/groupCalculations.ts:112-120 | a settlement touches only `from → to`: a zero entry leaves the whole matrix unchanged (so an overpayment never becomes a reverse debt); a non-zero one drops, floored at zero |
| DebtMatrix.SettleInvariant | src/utils/groupCalculations.ts:117-119 | a settlement keeps the shape invariants, non-negativity included |
| DebtMatrix.ApplySettlements | src/utils/groupCalculations.ts:111-120 | the settlement phase keeps the set of rows; SettlementsClosedForm gives each entry |
| DebtMatrix.SettlementsClosedForm | src/utils/groupCalculations.ts:111-120 | with non-negative amounts, a non-negative entry ends at max(0, entry − everything settled on that pair) |
| DebtMatrix.BuildExpenses | src/utils/groupCalculations.ts:89-109 | after the expense phase the matrix has exactly one row per member id |
| DebtMatrix.BuildExpensesDebt | src/utils/groupCalculations.ts:89-109 | after the expense phase each entry is everything charged on that pair |
| DebtMatrix.Build | src/utils/groupCalculations.ts:89-120 | the built matrix has one row per member id |
| DebtMatrix.BuildInvariant | src/utils/groupCalculations.ts:89-120 | the built matrix has no self-debt (its diagonal is zero); only payers are creditors; with non-negative splits no entry is negative |
| DebtMatrix.BuildClosedForm | src/utils/groupCalculations.ts:89-120 | each entry of the built matrix is max(0, Σ splits charged − Σ settled) on that pair |
| DebtMatrix.SettledPermutation | src/utils/groupCalculations.ts:112-120 | the total settled on a pair does not depend on the order of the settlements |
| DebtMatrix.EntryAfterNegative | src/utils/groupCalculations.ts:117-118 | a negative entry ends at 0 when some non-negative settlement is on its pair, and stays as it was otherwise |
| DebtMatrix.AnySettledPermutation | src/utils/groupCalculations.ts:112-120 | whether some settlement is on a pair does not depend on the order of the settlements |
| DebtMatrix.SettlementOrderIrrelevant | src/utils/groupCalculations.ts:112-120 | non-negative settlements in any order give the same matrix, key order included, whatever the signs of its entries |
| DebtMatrix.BuildOrderIndependent | src/utils/groupCalculations.ts:89-120 | with non-negative settlement amounts, the order in which settlements were recorded does not change the built matrix, whatever the splits |
| DetailedBalances.RowOf | src/utils/groupCalculations.ts:130 | `owesMatrix[userId] || {}`: a missing row reads as `{}`, and every entry read from the row equals the matrix entry `Debt` |
| DetailedBalances.Column | src/utils/groupCalculations.ts:138-139 | the column read over the listed ids has at most one entry per id; ColumnEntry gives each value |
| DetailedBalances.ColumnEntry | src/utils/groupCalculations.ts:139 | the column read for a member holds, for each listed id, that id's debt to the member and 0 elsewhere |
| DetailedBalances.Owes | src/utils/groupCalculations.ts:129-135 | `owes` has no more keys than the member's matrix row; OwesExact and OwesShape say which |
| DetailedBalances.OwedBy | src/utils/groupCalculations.ts:137-144 | `owedBy` has at most one key per member; OwedByExact and OwedByShape say which |
| DetailedBalances.NetBalance | src/utils/groupCalculations.ts:127-151 | a net balance is never below minus what the member owes, nor above what the member is owed; NetBalanceIsDifference makes it exact |
| DetailedBalances.Describe | src/utils/groupCalculations.ts:146-152 | a line is headed by the member's id and name |
| DetailedBalances.OwesExact | src/utils/groupCalculations.ts:129-135 | `owes` holds a creditor exactly when the entry is positive, and then holds it |
| DetailedBalances.OwesShape | src/utils/groupCalculations.ts:129-135 | `owes` lists each creditor once, in the order the row first received them |
| DetailedBalances.OwedByExact | src/utils/groupCalculations.ts:137-144 | `owedBy` holds a member exactly when their entry towards this member is positive, and then holds it |
| DetailedBalances.OwedByShape | src/utils/groupCalculations.ts:137-144 | with distinct ids, `owedBy` lists each debtor once, in member order |
| DetailedBalances.NetBalanceIsDifference | src/utils/groupCalculations.ts:127-151 | with distinct ids, `netBalance` is Σ `owedBy` − Σ `owes` |
| DetailedBalances.DescribeEach | src/utils/groupCalculations.ts:123-153 | one line per member, in member order, carrying that member's id and name |
| DetailedBalances.GetDetailedBalances | src/utils/groupCalculations.ts:81-154 | one line per member; LineHeader, OwesClosedForm, OwedByClosedForm, NetBalanceIsDifference and ZeroSum give each line its meaning |
| DetailedBalances.LineHeader | src/utils/groupCalculations.ts:146-148 | line `i` carries member `i`'s id and name |
| DetailedBalances.BuildOwes | src/utils/groupCalculations.ts:89-135 | a member owes a creditor exactly when charged more than they repaid, and then owes the difference |
| DetailedBalances.BuildOwedBy | src/utils/groupCalculations.ts:89-144 | a member is owed by another exactly when the other was charged more than they repaid, and then by the difference |
| DetailedBalances.OwesClosedForm | src/utils/groupCalculations.ts:81-153 | line `i`'s `owes` is exactly the creditors with an unpaid positive charge, whatever the settlement order |
| DetailedBalances.OwedByClosedForm | src/utils/groupCalculations.ts:81-153 | line `i`'s `owedBy` is exactly the members with an unpaid positive charge towards member `i` |
| DetailedBalances.NetBalanceTotals | src/utils/groupCalculations.ts:127-151 | with well-formed rows, every creditor a member and distinct ids, a net balance is the member's debtor total minus their creditor total over the members |
| DetailedBalances.ZeroSum | src/utils/groupCalculations.ts:81-153 | with distinct ids and every payer a member, the net balances sum to zero |
| Suggestions.FindMember | src/utils/groupCalculations.ts:167 | the result is the first member with the id, or -1 when there is none |
| Suggestions.NameOf | src/utils/groupCalculations.ts:167-173 | a name is never empty, and an id outside the group reads as "Unknown" |
| Suggestions.NameOfMember | src/utils/groupCalculations.ts:167-173 | with distinct ids, a member's own name is found, "Unknown" if it is empty |
| Suggestions.FromLine | src/utils/groupCalculations.ts:165-176 | a line makes at most one suggestion per `owes` key; FromLineMember says which |
| Suggestions.Collect | src/utils/groupCalculations.ts:164-177 | there are at most as many suggestions as `owes` entries over all lines; CollectMember says which |
| Suggestions.FromLineMember | src/utils/groupCalculations.ts:165-176 | a line suggests one payment per positive `owes` key, for that amount, naming both parties |
| Suggestions.CollectMember | src/utils/groupCalculations.ts:164-177 | the collected suggestions are exactly those some line makes |
| Suggestions.LineSuggestsFor | src/utils/groupCalculations.ts:164-176 | a line for a member suggests paying `k` exactly when the member's entry towards `k` is positive |
| Suggestions.LineSuggests | src/utils/groupCalculations.ts:161-176 | line `i` suggests paying `k` exactly when member `i` still owes `k` something |
| Suggestions.GetSettlementSuggestions | src/utils/groupCalculations.ts:156-180 | the suggestions come largest amount first; SuggestionsComplete, SuggestionsTotal and SuggestionsOrdered say which suggestions there are |
| Suggestions.SuggestionsComplete | src/utils/groupCalculations.ts:156-179 | a suggestion is present exactly when its payer is a member whose built debt towards its creditor is positive, with that debt as the amount and both names |
| Suggestions.Insert | src/utils/groupCalculations.ts:179 | inserting adds exactly one element; InsertSorted, InsertPermutes and InsertStable say where |
| Suggestions.SortDesc | src/utils/groupCalculations.ts:179 | the sort keeps the length; SortDescSorted, SortDescPermutes and SortDescStable say how |
| Suggestions.SortedDescAll | src/utils/groupCalculations.ts:179 | in a sorted list every amount is at least every later one |
| Suggestions.InsertSorted | src/utils/groupCalculations.ts:179 | inserting into a sorted list keeps it sorted |
| Suggestions.InsertPermutes | src/utils/groupCalculations.ts:179 | inserting adds exactly one copy of the element |
| Suggestions.InsertStable | src/utils/groupCalculations.ts:179 | an inserted element goes after every element of the same amount |
| Suggestions.SortDescSorted | src/utils/groupCalculations.ts:179 | the sort orders by descending amount |
| Suggestions.SortDescPermutes | src/utils/groupCalculations.ts:179 | the sort is a permutation of its input |
| Suggestions.SortDescStable | src/utils/groupCalculations.ts:179 | the sort is stable: for every amount, the elements with that amount keep their input order |
| Suggestions.TotalInsert | src/utils/groupCalculations.ts:179 | inserting adds exactly the inserted amount to the total |
| Suggestions.TotalSortDesc | src/utils/groupCalculations.ts:179 | sorting keeps the total amount |
| Suggestions.FromLineTotals | src/utils/groupCalculations.ts:165-176 | over keys with positive amounts, a line makes one suggestion per key, and they total the amounts |
| Suggestions.CollectTotals | src/utils/groupCalculations.ts:164-177 | lines owing only positive amounts yield one suggestion per `owes` entry, totalling every line's `owes` |
| Suggestions.LinePositive | src/utils/groupCalculations.ts:129-135 | every entry of a line's `owes` is positive |
| Suggestions.SuggestionsTotal | src/utils/groupCalculations.ts:156-179 | the suggested amounts add up to the total of all `owes`; there is one suggestion per `owes` entry; the list is empty exactly when every `owes` is empty |
| Suggestions.SuggestionsOrdered | src/utils/groupCalculations.ts:164-179 | the suggestions come largest first, and equal amounts keep member order and then creditor insertion order |

## Left out

- **User interface.** The React components are not modelled. This covers the forms that compute equal splits in floating point, the analytics views and the budget views. The model starts from the records they produce.
- **Storage layer.** `localStorage` itself, JSON serialisation and the `catch` around `JSON.parse` are not modelled. The store is a value, and a missing, empty or unparseable key is `None`. Id generation is not modelled either. A key whose JSON parses to something other than an array is returned as it is by `getFromStorage` (src/utils/storage.ts:29). For `null`, an object or a number, save and delete throw at `.findIndex` or `.filter` (lines 46, 53). At line 128, `null` throws at `.length`, while for an object or a number `.length` is undefined, the comparison with 0 is false, and that key is silently not seeded. The model's slots hold only lists, so it cannot represent any of these cases.
- **`getCurrentUser` and the storage key constants.** `getCurrentUser` returns a constant. The storage key constants are distinct strings; each becomes a separate field of `Storage.Store`.
- **Amounts.** Every amount is an integer number of cents. IEEE-754 rounding and the `Math.round(x * 100) / 100` steps are not modelled, because on cents they change nothing. Non-finite numbers are not modelled either.
- **Key order.** Integer-like property names, which JavaScript lists before all other keys, are not modelled. Member ids are user ids such as `user-1`, so insertion order is the key order.
- **The unused `balances` object in `getDetailedBalances`.** It is initialised and never read, so it is left out.
- **The non-member crash.** `DebtMatrix.Buildable` states as a requirement that non-payer split users and settlement senders are members. The source throws when this fails; no error result is modelled.
- DetailedBalances.NetBalanceIsDifference: requires distinct member ids. With a duplicated member the source adds that member's `owedBy` amount twice to `netBalance`; the model computes that too, but the lemma does not describe it.
- DetailedBalances.ZeroSum: requires distinct member ids and every payer a member. A duplicated member, or a creditor outside the group, breaks the zero sum in the source as well.
- GroupBalances.ZeroSum: requires distinct member ids, closed expenses and settlements between members. Without these conditions the source's balances do not sum to zero either.
- DetailedBalances.BuildOwes: requires non-negative split and settlement amounts. The source accepts negative amounts, and the functions of the model do too.
- DetailedBalances.BuildOwedBy: requires non-negative amounts, as BuildOwes does.
- DetailedBalances.OwesClosedForm: requires non-negative amounts, as BuildOwes does.
- DetailedBalances.OwedByClosedForm: requires non-negative amounts, as BuildOwes does.
- DebtMatrix.SettlementsClosedForm: requires non-negative settlement amounts. A negative settlement would raise an entry, and the max(0, ·) closed form would then depend on the order.
- DebtMatrix.BuildClosedForm: requires non-negative settlement amounts and a non-negative charge, as SettlementsClosedForm does.
- DebtMatrix.SettlementOrderIrrelevant: requires non-negative settlement amounts. With a negative one the source's result depends on the order: an entry of 10 settled by 10 and then by -5 ends at 0, but settled by -5 and then by 10 it ends at 5.
- DebtMatrix.BuildOrderIndependent: requires non-negative settlement amounts, for the reason given for SettlementOrderIrrelevant.
- **Sort implementation.** The sort is modelled as a stable insertion sort. ES2019 and later require `Array.prototype.sort` to be stable; the engine's own algorithm is not modelled.
