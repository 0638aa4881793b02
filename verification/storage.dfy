/**
 * The record collections of src/utils/storage.ts. Each collection lives under its own
 * storage key as a serialized list; a key that is absent, empty or does not parse
 * reads as the empty list. Every save or delete reads the list, changes it and
 * writes the whole list back under the same key.
 */
module Storage {
  import opened Wrappers
  import opened Types
  import opened Records

  /**
   * What the five storage keys hold. `None` is a key with nothing readable under it;
   * the keys are distinct, so each collection is a separate slot.
   */
  datatype Store = Store(
    transactions: Option<seq<Transaction>>,
    budgets: Option<seq<Budget>>,
    groups: Option<seq<Group>>,
    groupExpenses: Option<seq<GroupExpense>>,
    settlements: Option<seq<Settlement>>)

  /** `getFromStorage(key)`: the stored list, or `[]` when there is none. */
  function Read<T>(slot: Option<seq<T>>): (r: seq<T>)
    ensures slot.None? ==> r == []
    ensures slot.Some? ==> r == slot.value
  {
    slot.GetOr([])
  }

  function TransactionId(t: Transaction): string { t.id }
  function BudgetId(b: Budget): string { b.id }
  function GroupId(g: Group): string { g.id }
  function ExpenseId(e: GroupExpense): string { e.id }
  function SettlementId(s: Settlement): string { s.id }

  // ------------------------------------------------------- one slot at a time

  /** Read, replace-or-append by id, write back. */
  function SaveIn<T>(slot: Option<seq<T>>, x: T, key: T -> string): (r: Option<seq<T>>)
    ensures r.Some? && x in r.value
  {
    Some(Upsert(Read(slot), x, key))
  }

  /** Read, drop every record with the id, write back. */
  function DeleteIn<T>(slot: Option<seq<T>>, id: string, key: T -> string): (r: Option<seq<T>>)
    ensures r.Some? && !HasId(r.value, id, key)
  {
    Some(Remove(Read(slot), id, key))
  }

  /** Read, append unless the id is present, write back. */
  function InsertIn<T>(slot: Option<seq<T>>, x: T, key: T -> string): (r: Option<seq<T>>)
    ensures r.Some? && HasId(r.value, key(x), key)
  {
    Some(InsertNew(Read(slot), x, key))
  }

  /**
   * After a save, the first record with the saved id is the saved record, the list
   * keeps every other position, and saving again changes nothing.
   */
  lemma SaveInLaws<T>(slot: Option<seq<T>>, x: T, key: T -> string)
    ensures var r := Read(SaveIn(slot, x, key));
      var i := FindIndex(r, key(x), key);
      0 <= i && r[i] == x && |Read(slot)| <= |r| <= |Read(slot)| + 1
    ensures SaveIn(SaveIn(slot, x, key), x, key) == SaveIn(slot, x, key)
  {
    UpsertThenFind(Read(slot), x, key);
    UpsertIdempotent(Read(slot), x, key);
  }

  /**
   * Deleting leaves no record with the id and keeps every other record; deleting
   * again changes nothing, and deleting right after a save of that id is the same
   * as deleting without the save.
   */
  lemma DeleteInLaws<T>(slot: Option<seq<T>>, id: string, x: T, key: T -> string)
    ensures !HasId(Read(DeleteIn(slot, id, key)), id, key)
    ensures forall y :: y in Read(slot) && key(y) != id ==> y in Read(DeleteIn(slot, id, key))
    ensures DeleteIn(DeleteIn(slot, id, key), id, key) == DeleteIn(slot, id, key)
    ensures key(x) == id ==> DeleteIn(SaveIn(slot, x, key), id, key) == DeleteIn(slot, id, key)
  {
    RemoveIdempotent(Read(slot), id, key);
    if key(x) == id {
      UpsertOthersUnchanged(Read(slot), x, key);
    }
  }

  /** Deleting an id no record carries rewrites the list unchanged. */
  lemma DeleteInAbsent<T>(slot: Option<seq<T>>, id: string, key: T -> string)
    requires !HasId(Read(slot), id, key)
    ensures Read(DeleteIn(slot, id, key)) == Read(slot)
  {
    RemoveAbsent(Read(slot), id, key);
  }

  /**
   * An insert-only save never replaces a stored record: it appends the record when
   * its id is new and otherwise keeps the list as it was; inserting twice is inserting once.
   */
  lemma InsertInLaws<T>(slot: Option<seq<T>>, x: T, key: T -> string)
    ensures HasId(Read(slot), key(x), key) ==> Read(InsertIn(slot, x, key)) == Read(slot)
    ensures !HasId(Read(slot), key(x), key) ==> Read(InsertIn(slot, x, key)) == Read(slot) + [x]
    ensures InsertIn(InsertIn(slot, x, key), x, key) == InsertIn(slot, x, key)
  {
    InsertNewIdempotent(Read(slot), x, key);
    var r := InsertNew(Read(slot), x, key);
    if !HasId(Read(slot), key(x), key) {
      assert r == r[..|Read(slot)|] + [r[|Read(slot)|]];
    }
  }

  // ------------------------------------------------------------- the store

  /** `saveTransaction`: rewrites only the transactions key. */
  function SaveTransaction(st: Store, t: Transaction): (r: Store)
    ensures r.budgets == st.budgets && r.groups == st.groups
    ensures r.groupExpenses == st.groupExpenses && r.settlements == st.settlements
    ensures Read(r.transactions) == Upsert(Read(st.transactions), t, TransactionId)
  {
    st.(transactions := SaveIn(st.transactions, t, TransactionId))
  }

  /** `deleteTransaction`: rewrites only the transactions key. */
  function DeleteTransaction(st: Store, id: string): (r: Store)
    ensures r.budgets == st.budgets && r.groups == st.groups
    ensures r.groupExpenses == st.groupExpenses && r.settlements == st.settlements
    ensures Read(r.transactions) == Remove(Read(st.transactions), id, TransactionId)
  {
    st.(transactions := DeleteIn(st.transactions, id, TransactionId))
  }

  /** `saveBudget`: rewrites only the budgets key. */
  function SaveBudget(st: Store, b: Budget): (r: Store)
    ensures r.transactions == st.transactions && r.groups == st.groups
    ensures r.groupExpenses == st.groupExpenses && r.settlements == st.settlements
    ensures Read(r.budgets) == Upsert(Read(st.budgets), b, BudgetId)
  {
    st.(budgets := SaveIn(st.budgets, b, BudgetId))
  }

  /** `deleteBudget`: rewrites only the budgets key. */
  function DeleteBudget(st: Store, id: string): (r: Store)
    ensures r.transactions == st.transactions && r.groups == st.groups
    ensures r.groupExpenses == st.groupExpenses && r.settlements == st.settlements
    ensures Read(r.budgets) == Remove(Read(st.budgets), id, BudgetId)
  {
    st.(budgets := DeleteIn(st.budgets, id, BudgetId))
  }

  /** `saveGroup`: rewrites only the groups key. */
  function SaveGroup(st: Store, g: Group): (r: Store)
    ensures r.transactions == st.transactions && r.budgets == st.budgets
    ensures r.groupExpenses == st.groupExpenses && r.settlements == st.settlements
    ensures Read(r.groups) == Upsert(Read(st.groups), g, GroupId)
  {
    st.(groups := SaveIn(st.groups, g, GroupId))
  }

  /** `deleteGroup`: rewrites only the groups key; the group's expenses and settlements stay. */
  function DeleteGroup(st: Store, id: string): (r: Store)
    ensures r.transactions == st.transactions && r.budgets == st.budgets
    ensures r.groupExpenses == st.groupExpenses && r.settlements == st.settlements
    ensures Read(r.groups) == Remove(Read(st.groups), id, GroupId)
  {
    st.(groups := DeleteIn(st.groups, id, GroupId))
  }

  /** `saveGroupExpense`: rewrites only the group-expenses key. */
  function SaveGroupExpense(st: Store, e: GroupExpense): (r: Store)
    ensures r.transactions == st.transactions && r.budgets == st.budgets
    ensures r.groups == st.groups && r.settlements == st.settlements
    ensures Read(r.groupExpenses) == Upsert(Read(st.groupExpenses), e, ExpenseId)
  {
    st.(groupExpenses := SaveIn(st.groupExpenses, e, ExpenseId))
  }

  /** `deleteGroupExpense`: rewrites only the group-expenses key. */
  function DeleteGroupExpense(st: Store, id: string): (r: Store)
    ensures r.transactions == st.transactions && r.budgets == st.budgets
    ensures r.groups == st.groups && r.settlements == st.settlements
    ensures Read(r.groupExpenses) == Remove(Read(st.groupExpenses), id, ExpenseId)
  {
    st.(groupExpenses := DeleteIn(st.groupExpenses, id, ExpenseId))
  }

  /** `saveSettlement`: rewrites only the settlements key, and never replaces a settlement. */
  function SaveSettlement(st: Store, s: Settlement): (r: Store)
    ensures r.transactions == st.transactions && r.budgets == st.budgets
    ensures r.groups == st.groups && r.groupExpenses == st.groupExpenses
    ensures Read(r.settlements) == InsertNew(Read(st.settlements), s, SettlementId)
  {
    st.(settlements := InsertIn(st.settlements, s, SettlementId))
  }

  // ------------------------------------------------------------ sample data

  /** The three sample transactions, amounts in cents. */
  function SampleTransactions(): (r: seq<Transaction>)
    ensures |r| == 3 && DistinctKeys(r, TransactionId)
    ensures forall i :: 0 <= i < |r| ==> r[i].userId == "user-1" && r[i].amount > 0
  {
    [ Transaction("t1", "user-1", 350000, Income, "Salary", "Monthly salary", "2025-01-15", None),
      Transaction("t2", "user-1", 5000, Expense, "Food", "Lunch at restaurant", "2025-01-16", None),
      Transaction("t3", "user-1", 12000, Expense, "Transport", "Gas for car", "2025-01-16", None) ]
  }

  /** The three sample budgets for January 2025, amounts in cents. */
  function SampleBudgets(): (r: seq<Budget>)
    ensures |r| == 3 && DistinctKeys(r, BudgetId)
    ensures forall i :: 0 <= i < |r| ==> r[i].userId == "user-1" && 0 <= r[i].spent <= r[i].limit
  {
    [ Budget("b1", "user-1", "Food", 50000, 5000, "2025-01"),
      Budget("b2", "user-1", "Transport", 30000, 12000, "2025-01"),
      Budget("b3", "user-1", "Entertainment", 20000, 0, "2025-01") ]
  }

  /**
   * `initializeSampleData`: seeds the transactions and the budgets, each only when
   * its list reads empty, by saving the samples one by one. The sample settlements
   * are an empty list, so that branch writes nothing; groups and group expenses are
   * not touched.
   */
  function InitializeSampleData(st: Store): (r: Store)
    ensures r.groups == st.groups && r.groupExpenses == st.groupExpenses && r.settlements == st.settlements
    ensures |Read(st.transactions)| > 0 ==> r.transactions == st.transactions
    ensures |Read(st.budgets)| > 0 ==> r.budgets == st.budgets
  {
    var withTransactions :=
      if |Read(st.transactions)| == 0 then st.(transactions := Some(UpsertAll([], SampleTransactions(), TransactionId)))
      else st;
    if |Read(withTransactions.budgets)| == 0 then withTransactions.(budgets := Some(UpsertAll([], SampleBudgets(), BudgetId)))
    else withTransactions
  }

  /**
   * After seeding, an empty transaction list reads as the three samples and an
   * empty budget list as the three sample budgets; lists that were not empty, and
   * the other collections, are as they were.
   */
  lemma InitializeSampleDataEffect(st: Store)
    ensures var r := InitializeSampleData(st);
      && Read(r.transactions) == (if Read(st.transactions) == [] then SampleTransactions() else Read(st.transactions))
      && Read(r.budgets) == (if Read(st.budgets) == [] then SampleBudgets() else Read(st.budgets))
      && r.groups == st.groups && r.groupExpenses == st.groupExpenses && r.settlements == st.settlements
      && (Read(st.transactions) != [] ==> r.transactions == st.transactions)
      && (Read(st.budgets) != [] ==> r.budgets == st.budgets)
  {
    SampleTransactionsSaved();
    SampleBudgetsSaved();
  }

  /** Saving the sample transactions one by one into an empty list stores them as listed. */
  lemma SampleTransactionsSaved()
    ensures UpsertAll([], SampleTransactions(), TransactionId) == SampleTransactions()
  {
    var ts := SampleTransactions();
    UpsertAllFresh([], ts, TransactionId);
  }

  /** Saving the sample budgets one by one into an empty list stores them as listed. */
  lemma SampleBudgetsSaved()
    ensures UpsertAll([], SampleBudgets(), BudgetId) == SampleBudgets()
  {
    var bs := SampleBudgets();
    UpsertAllFresh([], bs, BudgetId);
  }

  /** Seeding a second time changes nothing. */
  lemma InitializeSampleDataIdempotent(st: Store)
    ensures InitializeSampleData(InitializeSampleData(st)) == InitializeSampleData(st)
  {
    InitializeSampleDataEffect(st);
  }
}
