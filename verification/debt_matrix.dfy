/**
 * The pairwise debt matrix of `getDetailedBalances` (src/utils/groupCalculations.ts):
 * `owesMatrix[debtor][creditor]` is what `debtor` still owes `creditor`.
 * A row is an insertion-ordered dictionary from creditor id to cents.
 */
module DebtMatrix {
  import opened Types
  import opened Dict

  type Row = Dict<Cents>
  type Matrix = map<UserId, Row>

  /** Every row lists its keys once, and no member owes themselves. */
  predicate WellFormed(m: Matrix) {
    forall a :: a in m ==> Valid(m[a]) && !HasKey(m[a], a)
  }

  /** No entry is negative. */
  predicate NonNegative(m: Matrix) {
    forall a, b :: a in m && b in m[a].vals ==> m[a].vals[b] >= 0
  }

  /** Every creditor named in the matrix is in `ids`. */
  predicate CreditorsIn(m: Matrix, ids: set<UserId>) {
    forall a, b :: a in m && b in m[a].vals ==> b in ids
  }

  /** `owesMatrix[a]?.[b] || 0`: a missing row or entry reads as 0. */
  function Debt(m: Matrix, a: UserId, b: UserId): (r: int)
    ensures a !in m ==> r == 0
    ensures a in m && !HasKey(m[a], b) ==> r == 0
  {
    if a in m then Amount(m[a], b) else 0
  }

  /** The matrix right after initialisation: one empty row per member. */
  function Init(members: seq<GroupMember>): (m: Matrix)
    ensures m.Keys == MemberIds(members)
  {
    map u | u in MemberIds(members) :: Empty()
  }

  /** Nobody owes anybody anything yet, and the shape invariants hold. */
  lemma InitFacts(members: seq<GroupMember>, ids: set<UserId>, a: UserId, b: UserId)
    ensures Debt(Init(members), a, b) == 0
    ensures Invariant(Init(members), ids, true)
  {
  }

  // ---------------------------------------------------------------- expenses

  /** The share of `s` that `a` owes `b` under an expense paid by `payer`. */
  function ShareOf(s: ExpenseSplit, payer: UserId, a: UserId, b: UserId): int {
    if s.userId == a && payer == b && a != b then s.amount else 0
  }

  /** Total that `a` owes `b` through the splits `splits` of an expense paid by `payer`. */
  function SplitsDebt(splits: seq<ExpenseSplit>, payer: UserId, a: UserId, b: UserId): int {
    if splits == [] then 0
    else SplitsDebt(splits[..|splits| - 1], payer, a, b) + ShareOf(splits[|splits| - 1], payer, a, b)
  }

  /** Total that `a` owes `b` through all splits of all expenses, before any settlement. */
  function ExpensesDebt(es: seq<GroupExpense>, a: UserId, b: UserId): int {
    if es == [] then 0
    else
      var e := es[|es| - 1];
      ExpensesDebt(es[..|es| - 1], a, b) + SplitsDebt(e.splits, e.paidBy, a, b)
  }

  /** The source reads `owesMatrix[split.userId]` for every split not paid by the payer. */
  predicate DebtorsKnown(m: Matrix, e: GroupExpense) {
    forall i :: 0 <= i < |e.splits| && e.splits[i].userId != e.paidBy ==> e.splits[i].userId in m
  }

  predicate SplitsNonNegative(e: GroupExpense) {
    forall i :: 0 <= i < |e.splits| ==> e.splits[i].amount >= 0
  }

  /**
   * `if (!row[k]) row[k] = 0; row[k] += amount`: a missing or zero entry is first set
   * to 0 (which appends a missing key), then the amount is added in place.
   */
  function Credit(row: Row, k: UserId, amount: Cents): (r: Row)
    ensures Amount(r, k) == Amount(row, k) + amount
    ensures forall y {:trigger Amount(r, y)} :: y != k ==> Amount(r, y) == Amount(row, y)
    ensures r.keys == if HasKey(row, k) then row.keys else row.keys + [k]
  {
    var row0 := if Amount(row, k) == 0 then Set(row, k, 0) else row;
    Set(row0, k, Amount(row0, k) + amount)
  }

  /** One split: a member other than the payer now owes the payer their share more. */
  function AddSplit(m: Matrix, payer: UserId, s: ExpenseSplit): (r: Matrix)
    requires s.userId != payer ==> s.userId in m
    ensures r.Keys == m.Keys
  {
    if s.userId == payer then m
    else m[s.userId := Credit(m[s.userId], payer, s.amount)]
  }

  /** A split adds its share to exactly the entry debtor -> payer, and nothing elsewhere. */
  lemma AddSplitDebt(m: Matrix, payer: UserId, s: ExpenseSplit, a: UserId, b: UserId)
    requires s.userId != payer ==> s.userId in m
    ensures Debt(AddSplit(m, payer, s), a, b) == Debt(m, a, b) + ShareOf(s, payer, a, b)
  {
  }

  /** The splits of one expense, in order. */
  function AddSplits(m: Matrix, payer: UserId, splits: seq<ExpenseSplit>): (r: Matrix)
    requires forall i :: 0 <= i < |splits| && splits[i].userId != payer ==> splits[i].userId in m
    ensures r.Keys == m.Keys
  {
    if splits == [] then m
    else
      var init := splits[..|splits| - 1];
      assert forall i :: 0 <= i < |init| ==> init[i] == splits[i];
      AddSplit(AddSplits(m, payer, init), payer, splits[|splits| - 1])
  }

  /** The splits of an expense add up, entry by entry. */
  lemma {:induction false} AddSplitsDebt(m: Matrix, payer: UserId, splits: seq<ExpenseSplit>, a: UserId, b: UserId)
    requires forall i :: 0 <= i < |splits| && splits[i].userId != payer ==> splits[i].userId in m
    ensures Debt(AddSplits(m, payer, splits), a, b) == Debt(m, a, b) + SplitsDebt(splits, payer, a, b)
  {
    if splits != [] {
      var init := splits[..|splits| - 1];
      assert forall i :: 0 <= i < |init| ==> init[i] == splits[i];
      AddSplitsDebt(m, payer, init, a, b);
      AddSplitDebt(AddSplits(m, payer, init), payer, splits[|splits| - 1], a, b);
    }
  }

  /** All expenses, in order. */
  function AddExpenses(m: Matrix, es: seq<GroupExpense>): (r: Matrix)
    requires forall i :: 0 <= i < |es| ==> DebtorsKnown(m, es[i])
    ensures r.Keys == m.Keys
  {
    if es == [] then m
    else
      var init := es[..|es| - 1];
      assert forall i :: 0 <= i < |init| ==> init[i] == es[i];
      var e := es[|es| - 1];
      assert DebtorsKnown(m, e);
      AddSplits(AddExpenses(m, init), e.paidBy, e.splits)
  }

  /** After the expenses, each entry has grown by everything charged on that pair. */
  lemma {:induction false} AddExpensesDebt(m: Matrix, es: seq<GroupExpense>, a: UserId, b: UserId)
    requires forall i :: 0 <= i < |es| ==> DebtorsKnown(m, es[i])
    ensures Debt(AddExpenses(m, es), a, b) == Debt(m, a, b) + ExpensesDebt(es, a, b)
  {
    if es != [] {
      var init := es[..|es| - 1];
      assert forall i :: 0 <= i < |init| ==> init[i] == es[i];
      AddExpensesDebt(m, init, a, b);
      var e := es[|es| - 1];
      assert DebtorsKnown(m, e);
      AddSplitsDebt(AddExpenses(m, init), e.paidBy, e.splits, a, b);
    }
  }

  /** The shape invariants every step keeps. */
  predicate Invariant(m: Matrix, ids: set<UserId>, nonNeg: bool) {
    WellFormed(m) && CreditorsIn(m, ids) && (nonNeg ==> NonNegative(m))
  }

  /** Crediting keeps a row's keys listed once; with non-negative amounts, its values stay non-negative. */
  lemma CreditShape(row: Row, k: UserId, amount: Cents)
    requires Valid(row)
    ensures Valid(Credit(row, k, amount))
    ensures Credit(row, k, amount).vals.Keys == row.vals.Keys + {k}
    ensures amount >= 0 && (forall b :: b in row.vals ==> row.vals[b] >= 0) ==>
      forall b :: b in Credit(row, k, amount).vals ==> Credit(row, k, amount).vals[b] >= 0
  {
    var row0 := if Amount(row, k) == 0 then Set(row, k, 0) else row;
    SetValid(row, k, 0);
    SetValid(row0, k, Amount(row0, k) + amount);
  }

  lemma AddSplitInvariant(m: Matrix, payer: UserId, s: ExpenseSplit, ids: set<UserId>, nonNeg: bool)
    requires s.userId != payer ==> s.userId in m
    requires Invariant(m, ids, nonNeg)
    requires s.userId != payer ==> payer in ids
    requires nonNeg ==> s.amount >= 0
    ensures Invariant(AddSplit(m, payer, s), ids, nonNeg)
  {
    if s.userId != payer {
      CreditShape(m[s.userId], payer, s.amount);
    }
  }

  lemma {:induction false} AddSplitsInvariant(m: Matrix, payer: UserId, splits: seq<ExpenseSplit>, ids: set<UserId>, nonNeg: bool)
    requires forall i :: 0 <= i < |splits| && splits[i].userId != payer ==> splits[i].userId in m
    requires Invariant(m, ids, nonNeg)
    requires payer in ids
    requires nonNeg ==> forall i :: 0 <= i < |splits| ==> splits[i].amount >= 0
    ensures Invariant(AddSplits(m, payer, splits), ids, nonNeg)
  {
    if splits != [] {
      var init := splits[..|splits| - 1];
      assert forall i :: 0 <= i < |init| ==> init[i] == splits[i];
      AddSplitsInvariant(m, payer, init, ids, nonNeg);
      AddSplitInvariant(AddSplits(m, payer, init), payer, splits[|splits| - 1], ids, nonNeg);
    }
  }

  /**
   * Building from expenses keeps every row's keys listed once, never records a
   * self-debt, names only creditors that paid some expense, and with non-negative
   * splits holds no negative entry.
   */
  lemma {:induction false} AddExpensesInvariant(m: Matrix, es: seq<GroupExpense>, ids: set<UserId>, nonNeg: bool)
    requires forall i :: 0 <= i < |es| ==> DebtorsKnown(m, es[i])
    requires Invariant(m, ids, nonNeg)
    requires forall i :: 0 <= i < |es| ==> es[i].paidBy in ids
    requires nonNeg ==> forall i :: 0 <= i < |es| ==> SplitsNonNegative(es[i])
    ensures Invariant(AddExpenses(m, es), ids, nonNeg)
  {
    if es != [] {
      var init := es[..|es| - 1];
      assert forall i :: 0 <= i < |init| ==> init[i] == es[i];
      AddExpensesInvariant(m, init, ids, nonNeg);
      var e := es[|es| - 1];
      assert DebtorsKnown(m, e);
      AddSplitsInvariant(AddExpenses(m, init), e.paidBy, e.splits, ids, nonNeg);
    }
  }

  // ------------------------------------------------------------- settlements

  /** Total that `a` has repaid `b` through the settlements `ss`. */
  function Settled(ss: seq<Settlement>, a: UserId, b: UserId): int {
    if ss == [] then 0
    else
      var s := ss[|ss| - 1];
      Settled(ss[..|ss| - 1], a, b) + if s.fromUserId == a && s.toUserId == b then s.amount else 0
  }

  /** `Math.max(0, x)` */
  function Max0(x: int): (r: int)
    ensures r >= 0 && r >= x
    ensures r == x || r == 0
  {
    if x > 0 then x else 0
  }

  /**
   * `if (row[k]) row[k] = Math.max(0, row[k] - amount)`: a non-zero entry is reduced,
   * floored at zero; a missing or zero entry is left alone.
   */
  function Reduce(row: Row, k: UserId, amount: Cents): (r: Row)
    ensures r.keys == row.keys && r.vals.Keys == row.vals.Keys
    ensures Amount(row, k) == 0 ==> r == row
    ensures Amount(row, k) != 0 ==> Amount(r, k) == Max0(Amount(row, k) - amount)
    ensures forall y {:trigger Amount(r, y)} :: y != k ==> Amount(r, y) == Amount(row, y)
  {
    var owed := Amount(row, k);
    if owed != 0 then Set(row, k, Max0(owed - amount)) else row
  }

  /**
   * One settlement: a non-zero entry `from -> to` is reduced by the amount, floored at
   * zero; a missing or zero entry is left alone, so an overpayment is dropped rather
   * than becoming a debt the other way.
   */
  function Settle(m: Matrix, s: Settlement): (r: Matrix)
    requires s.fromUserId in m
    ensures r.Keys == m.Keys
  {
    m[s.fromUserId := Reduce(m[s.fromUserId], s.toUserId, s.amount)]
  }

  /**
   * A settlement touches only the entry `from -> to`: a non-zero entry drops by the
   * amount, floored at zero, and a zero or missing entry leaves the whole matrix as it was.
   */
  lemma SettleEffect(m: Matrix, s: Settlement, a: UserId, b: UserId)
    requires s.fromUserId in m
    ensures Debt(m, s.fromUserId, s.toUserId) == 0 ==> Settle(m, s) == m
    ensures a == s.fromUserId && b == s.toUserId && Debt(m, a, b) != 0 ==>
      Debt(Settle(m, s), a, b) == Max0(Debt(m, a, b) - s.amount)
    ensures a != s.fromUserId || b != s.toUserId ==> Debt(Settle(m, s), a, b) == Debt(m, a, b)
  {
  }

  /** Settling keeps the shape invariants. */
  lemma SettleInvariant(m: Matrix, s: Settlement, ids: set<UserId>, nonNeg: bool)
    requires s.fromUserId in m
    requires Invariant(m, ids, nonNeg)
    ensures Invariant(Settle(m, s), ids, nonNeg)
  {
    var row := m[s.fromUserId];
    var owed := Amount(row, s.toUserId);
    if owed != 0 {
      SetValid(row, s.toUserId, Max0(owed - s.amount));
    }
  }

  /** The source reads `owesMatrix[settlement.fromUserId]` for every settlement. */
  predicate SendersKnown(m: Matrix, ss: seq<Settlement>) {
    forall i :: 0 <= i < |ss| ==> ss[i].fromUserId in m
  }

  predicate AmountsNonNegative(ss: seq<Settlement>) {
    forall i :: 0 <= i < |ss| ==> ss[i].amount >= 0
  }

  /** All settlements, in order. */
  function ApplySettlements(m: Matrix, ss: seq<Settlement>): (r: Matrix)
    requires SendersKnown(m, ss)
    ensures r.Keys == m.Keys
  {
    if ss == [] then m
    else
      var init := ss[..|ss| - 1];
      assert forall i :: 0 <= i < |init| ==> init[i] == ss[i];
      Settle(ApplySettlements(m, init), ss[|ss| - 1])
  }

  lemma {:induction false} ApplySettlementsInvariant(m: Matrix, ss: seq<Settlement>, ids: set<UserId>, nonNeg: bool)
    requires SendersKnown(m, ss)
    requires Invariant(m, ids, nonNeg)
    ensures Invariant(ApplySettlements(m, ss), ids, nonNeg)
  {
    if ss != [] {
      var init := ss[..|ss| - 1];
      assert forall i :: 0 <= i < |init| ==> init[i] == ss[i];
      ApplySettlementsInvariant(m, init, ids, nonNeg);
      SettleInvariant(ApplySettlements(m, init), ss[|ss| - 1], ids, nonNeg);
    }
  }

  /** Row `a` under one settlement: only a settlement sent by `a` touches it. */
  function SettleOne(row: Row, a: UserId, s: Settlement): (r: Row)
    ensures r.keys == row.keys && r.vals.Keys == row.vals.Keys
    ensures forall b {:trigger Amount(r, b)} :: Amount(r, b) == (if s.fromUserId == a && s.toUserId == b && Amount(row, b) != 0
      then Max0(Amount(row, b) - s.amount) else Amount(row, b))
  {
    if s.fromUserId == a then Reduce(row, s.toUserId, s.amount) else row
  }

  /** Debtor `a`'s row after the settlements `ss`, in order: only those sent by `a` touch it. */
  function SettleRow(row: Row, a: UserId, ss: seq<Settlement>): (r: Row)
    ensures r.keys == row.keys && r.vals.Keys == row.vals.Keys
  {
    if ss == [] then row
    else SettleOne(SettleRow(row, a, ss[..|ss| - 1]), a, ss[|ss| - 1])
  }

  /** Each row of the settled matrix is its own row settled on its own. */
  lemma {:induction false} ApplySettlementsRow(m: Matrix, ss: seq<Settlement>, a: UserId)
    requires SendersKnown(m, ss)
    requires a in m
    ensures ApplySettlements(m, ss)[a] == SettleRow(m[a], a, ss)
  {
    if ss != [] {
      var init := ss[..|ss| - 1];
      assert SendersKnown(m, init);
      ApplySettlementsRow(m, init, a);
    }
  }

  /**
   * One entry followed on its own through the settlements: a matching settlement lowers
   * a non-zero value, floored at zero; everything else leaves it.
   */
  function EntryAfter(v: int, a: UserId, b: UserId, ss: seq<Settlement>): int {
    if ss == [] then v
    else
      var prev := EntryAfter(v, a, b, ss[..|ss| - 1]);
      var s := ss[|ss| - 1];
      if s.fromUserId == a && s.toUserId == b && prev != 0 then Max0(prev - s.amount) else prev
  }

  /** Flooring after each subtraction equals flooring once after all of them. */
  lemma FloorStep(d: int, before: int, amount: int, prev: int, next: int, matches: bool, total: int)
    requires d >= 0 && amount >= 0
    requires prev == Max0(d - before)
    requires next == if matches && prev != 0 then Max0(prev - amount) else prev
    requires total == before + if matches then amount else 0
    ensures next == Max0(d - total)
  {
  }

  /** A non-negative entry followed through non-negative settlements ends at its value minus their total, floored. */
  lemma {:induction false} EntryAfterClosedForm(v: int, a: UserId, b: UserId, ss: seq<Settlement>)
    requires v >= 0
    requires AmountsNonNegative(ss)
    ensures EntryAfter(v, a, b, ss) == Max0(v - Settled(ss, a, b))
  {
    if ss != [] {
      var init := ss[..|ss| - 1];
      var s := ss[|ss| - 1];
      assert AmountsNonNegative(init);
      EntryAfterClosedForm(v, a, b, init);
      FloorStep(v, Settled(init, a, b), s.amount, EntryAfter(v, a, b, init), EntryAfter(v, a, b, ss),
        s.fromUserId == a && s.toUserId == b, Settled(ss, a, b));
    }
  }

  /** Settling a's row moves each of its entries exactly as EntryAfter does. */
  lemma {:induction false} SettleRowEntry(row: Row, a: UserId, ss: seq<Settlement>, b: UserId)
    ensures Amount(SettleRow(row, a, ss), b) == EntryAfter(Amount(row, b), a, b, ss)
  {
    if ss != [] {
      SettleRowEntry(row, a, ss[..|ss| - 1], b);
    }
  }

  /**
   * With non-negative settlement amounts, a non-negative entry ends at its value minus
   * everything settled on that pair, floored at zero, in whatever order the
   * settlements came.
   */
  lemma SettlementsClosedForm(m: Matrix, ss: seq<Settlement>, a: UserId, b: UserId)
    requires SendersKnown(m, ss)
    requires AmountsNonNegative(ss)
    requires a in m && Amount(m[a], b) >= 0
    ensures Debt(ApplySettlements(m, ss), a, b) == Max0(Amount(m[a], b) - Settled(ss, a, b))
  {
    ApplySettlementsRow(m, ss, a);
    SettleRowEntry(m[a], a, ss, b);
    EntryAfterClosedForm(Amount(m[a], b), a, b, ss);
  }

  // ------------------------------------------------------------------ whole

  /** The caller-side conditions under which building the matrix does not throw. */
  predicate Buildable(members: seq<GroupMember>, es: seq<GroupExpense>, ss: seq<Settlement>) {
    && (forall i, j :: 0 <= i < |es| && 0 <= j < |es[i].splits| && es[i].splits[j].userId != es[i].paidBy ==>
          es[i].splits[j].userId in MemberIds(members))
    && (forall i :: 0 <= i < |ss| ==> ss[i].fromUserId in MemberIds(members))
  }

  /**
   * `Buildable` is exactly the condition that every row the source indexes without a
   * guard, `owesMatrix[split.userId]` for a split not paid by the payer and
   * `owesMatrix[settlement.fromUserId]`, exists in the initialised matrix. The rows
   * never change after initialisation, so under it no access throws.
   */
  lemma BuildableKnown(members: seq<GroupMember>, es: seq<GroupExpense>, ss: seq<Settlement>)
    ensures Buildable(members, es, ss) <==>
      (forall i :: 0 <= i < |es| ==> DebtorsKnown(Init(members), es[i])) && SendersKnown(Init(members), ss)
  {
  }

  /** The matrix after all expenses; the settlement phase starts from it. */
  function BuildExpenses(members: seq<GroupMember>, es: seq<GroupExpense>): (m: Matrix)
    requires Buildable(members, es, [])
    ensures m.Keys == MemberIds(members)
  {
    var m0 := Init(members);
    assert forall i :: 0 <= i < |es| ==> DebtorsKnown(m0, es[i]);
    AddExpenses(m0, es)
  }

  /** `owesMatrix` as `getDetailedBalances` leaves it: all expenses, then all settlements. */
  function Build(members: seq<GroupMember>, es: seq<GroupExpense>, ss: seq<Settlement>): (m: Matrix)
    requires Buildable(members, es, ss)
    ensures m.Keys == MemberIds(members)
  {
    assert Buildable(members, es, []);
    ApplySettlements(BuildExpenses(members, es), ss)
  }

  function Payers(es: seq<GroupExpense>): (ids: set<UserId>)
    ensures forall i :: 0 <= i < |es| ==> es[i].paidBy in ids
  {
    set e | e in es :: e.paidBy
  }

  predicate AllSplitsNonNegative(es: seq<GroupExpense>) {
    forall i :: 0 <= i < |es| ==> SplitsNonNegative(es[i])
  }

  /** After the expense phase, each entry holds everything charged on that pair. */
  lemma BuildExpensesDebt(members: seq<GroupMember>, es: seq<GroupExpense>, a: UserId, b: UserId)
    requires Buildable(members, es, [])
    ensures Debt(BuildExpenses(members, es), a, b) == ExpensesDebt(es, a, b)
  {
    var m0 := Init(members);
    assert forall i :: 0 <= i < |es| ==> DebtorsKnown(m0, es[i]);
    InitFacts(members, {}, a, b);
    AddExpensesDebt(m0, es, a, b);
  }

  /** The expense phase alone leaves a well-formed matrix; non-negative with non-negative splits. */
  lemma BuildExpensesInvariant(members: seq<GroupMember>, es: seq<GroupExpense>)
    requires Buildable(members, es, [])
    ensures Invariant(BuildExpenses(members, es), Payers(es), AllSplitsNonNegative(es))
  {
    var m0 := Init(members);
    assert forall i :: 0 <= i < |es| ==> DebtorsKnown(m0, es[i]);
    InitFacts(members, Payers(es), "", "");
    AddExpensesInvariant(m0, es, Payers(es), AllSplitsNonNegative(es));
  }

  /**
   * The built matrix lists each row's keys once, no member owes themselves (a payer's
   * own split creates no debt), only payers appear as creditors, and with non-negative
   * splits every entry is non-negative whatever the settlements.
   */
  lemma BuildInvariant(members: seq<GroupMember>, es: seq<GroupExpense>, ss: seq<Settlement>)
    requires Buildable(members, es, ss)
    ensures var m := Build(members, es, ss);
      && WellFormed(m)
      && (forall a :: Debt(m, a, a) == 0)
      && CreditorsIn(m, Payers(es))
      && (AllSplitsNonNegative(es) ==> NonNegative(m))
  {
    BuildExpensesInvariant(members, es);
    ApplySettlementsInvariant(BuildExpenses(members, es), ss, Payers(es), AllSplitsNonNegative(es));
  }

  // ------------------------------------------------------- closed form, order

  lemma {:induction false} SplitsDebtNonNegative(splits: seq<ExpenseSplit>, payer: UserId, a: UserId, b: UserId)
    requires forall i :: 0 <= i < |splits| ==> splits[i].amount >= 0
    ensures SplitsDebt(splits, payer, a, b) >= 0
  {
    if splits != [] {
      var init := splits[..|splits| - 1];
      assert forall i :: 0 <= i < |init| ==> init[i] == splits[i];
      SplitsDebtNonNegative(init, payer, a, b);
    }
  }

  lemma {:induction false} ExpensesDebtNonNegative(es: seq<GroupExpense>, a: UserId, b: UserId)
    requires AllSplitsNonNegative(es)
    ensures ExpensesDebt(es, a, b) >= 0
  {
    if es != [] {
      var init := es[..|es| - 1];
      assert forall i :: 0 <= i < |init| ==> init[i] == es[i];
      ExpensesDebtNonNegative(init, a, b);
      var e := es[|es| - 1];
      assert SplitsNonNegative(e);
      SplitsDebtNonNegative(e.splits, e.paidBy, a, b);
    }
  }

  /**
   * What `getDetailedBalances` leaves in `owesMatrix[a][b]`, for a member `a`: everything
   * `a` was charged on expenses `b` paid, minus everything `a` settled with `b`, floored
   * at zero. Holds whenever that charge is non-negative (always, with non-negative splits).
   */
  lemma BuildClosedForm(members: seq<GroupMember>, es: seq<GroupExpense>, ss: seq<Settlement>, a: UserId, b: UserId)
    requires Buildable(members, es, ss)
    requires AmountsNonNegative(ss)
    requires a in MemberIds(members) && ExpensesDebt(es, a, b) >= 0
    ensures Debt(Build(members, es, ss), a, b) == Max0(ExpensesDebt(es, a, b) - Settled(ss, a, b))
  {
    BuildUnfold(members, es, ss, a);
    BuildExpensesDebt(members, es, a, b);
    ClosedFormFrom(BuildExpenses(members, es), ss, a, b, ExpensesDebt(es, a, b));
  }

  lemma ClosedFormFrom(m: Matrix, ss: seq<Settlement>, a: UserId, b: UserId, d: int)
    requires SendersKnown(m, ss) && AmountsNonNegative(ss)
    requires a in m && Debt(m, a, b) == d && d >= 0
    ensures Debt(ApplySettlements(m, ss), a, b) == Max0(d - Settled(ss, a, b))
  {
    SettlementsClosedForm(m, ss, a, b);
  }

  /** The built matrix is the expense-phase matrix with the settlements applied. */
  lemma BuildUnfold(members: seq<GroupMember>, es: seq<GroupExpense>, ss: seq<Settlement>, a: UserId)
    requires Buildable(members, es, ss)
    ensures Buildable(members, es, [])
    ensures SendersKnown(BuildExpenses(members, es), ss)
    ensures a in MemberIds(members) ==> a in BuildExpenses(members, es)
    ensures Build(members, es, ss) == ApplySettlements(BuildExpenses(members, es), ss)
  {
  }

  lemma {:induction false} SettledAppend(s1: seq<Settlement>, s2: seq<Settlement>, a: UserId, b: UserId)
    ensures Settled(s1 + s2, a, b) == Settled(s1, a, b) + Settled(s2, a, b)
  {
    if s2 == [] {
      assert s1 + s2 == s1;
    } else {
      var init := s2[..|s2| - 1];
      assert (s1 + s2)[..|s1 + s2| - 1] == s1 + init;
      SettledAppend(s1, init, a, b);
    }
  }

  /** The total settled on a pair depends only on which settlements there are, not their order. */
  lemma {:induction false} SettledPermutation(s1: seq<Settlement>, s2: seq<Settlement>, a: UserId, b: UserId)
    requires multiset(s1) == multiset(s2)
    ensures Settled(s1, a, b) == Settled(s2, a, b)
    decreases |s1|
  {
    if s1 == [] {
      assert |s2| == |multiset(s2)| == 0;
    } else {
      var init := s1[..|s1| - 1];
      var x := s1[|s1| - 1];
      assert x in multiset(s2) by {
        assert s1 == init + [x];
      }
      var i :| 0 <= i < |s2| && s2[i] == x;
      var rest := s2[..i] + s2[i + 1..];
      RemoveMatching(s1, s2, i);
      SettledPermutation(init, rest, a, b);
      SettledWithout(s2, i, a, b);
      assert Settled(s1, a, b) == Settled(init, a, b) + Settled([x], a, b) by {
        assert [x][..0] == [];
      }
    }
  }

  /** Taking the last element off one sequence and a matching element off a permutation of it leaves permutations. */
  lemma RemoveMatching<T>(s1: seq<T>, s2: seq<T>, i: nat)
    requires multiset(s1) == multiset(s2) && s1 != []
    requires i < |s2| && s2[i] == s1[|s1| - 1]
    ensures multiset(s1[..|s1| - 1]) == multiset(s2[..i] + s2[i + 1..])
  {
    var x := s2[i];
    assert s1 == s1[..|s1| - 1] + [x];
    assert s2 == s2[..i] + [x] + s2[i + 1..];
    assert multiset(s2[..i] + s2[i + 1..]) == multiset(s2[..i]) + multiset(s2[i + 1..]);
    assert multiset(s1[..|s1| - 1]) == multiset(s1) - multiset{x};
  }

  /** Settled splits around any one position. */
  lemma SettledWithout(ss: seq<Settlement>, i: nat, a: UserId, b: UserId)
    requires i < |ss|
    ensures Settled(ss, a, b) == Settled(ss[..i] + ss[i + 1..], a, b) + Settled([ss[i]], a, b)
  {
    assert ss == ss[..i] + [ss[i]] + ss[i + 1..];
    SettledAppend(ss[..i] + [ss[i]], ss[i + 1..], a, b);
    SettledAppend(ss[..i], [ss[i]], a, b);
    SettledAppend(ss[..i], ss[i + 1..], a, b);
  }

  /** A permutation of non-negative settlements is non-negative. */
  lemma PermutedAmountsNonNegative(s1: seq<Settlement>, s2: seq<Settlement>)
    requires AmountsNonNegative(s1) && multiset(s1) == multiset(s2)
    ensures AmountsNonNegative(s2)
  {
    forall i | 0 <= i < |s2| ensures s2[i].amount >= 0 {
      assert s2[i] in multiset(s1);
    }
  }

  /** Some settlement of `ss` is sent by `a` to `b`. */
  predicate AnySettled(ss: seq<Settlement>, a: UserId, b: UserId) {
    exists i :: 0 <= i < |ss| && ss[i].fromUserId == a && ss[i].toUserId == b
  }

  /**
   * A negative entry is non-zero, so the first non-negative settlement on its pair
   * floors it to zero, and later ones find a zero entry and skip it: the entry ends
   * at zero when some settlement matches and stays as it was otherwise.
   */
  lemma {:induction false} EntryAfterNegative(v: int, a: UserId, b: UserId, ss: seq<Settlement>)
    requires v < 0
    requires AmountsNonNegative(ss)
    ensures EntryAfter(v, a, b, ss) == if AnySettled(ss, a, b) then 0 else v
  {
    if ss != [] {
      var init := ss[..|ss| - 1];
      var s := ss[|ss| - 1];
      assert AmountsNonNegative(init);
      EntryAfterNegative(v, a, b, init);
      if AnySettled(init, a, b) {
        var i :| 0 <= i < |init| && init[i].fromUserId == a && init[i].toUserId == b;
        assert ss[i] == init[i];
      } else if s.fromUserId == a && s.toUserId == b {
        assert ss[|ss| - 1] == s;
      } else {
        assert !AnySettled(ss, a, b) by {
          forall i | 0 <= i < |ss| ensures !(ss[i].fromUserId == a && ss[i].toUserId == b) {
            if i < |init| {
              assert ss[i] == init[i];
            }
          }
        }
      }
    }
  }

  /** Whether some settlement is on a pair does not depend on their order. */
  lemma AnySettledPermutation(s1: seq<Settlement>, s2: seq<Settlement>, a: UserId, b: UserId)
    requires multiset(s1) == multiset(s2)
    ensures AnySettled(s1, a, b) == AnySettled(s2, a, b)
  {
    if AnySettled(s1, a, b) {
      var i :| 0 <= i < |s1| && s1[i].fromUserId == a && s1[i].toUserId == b;
      assert s1[i] in multiset(s2);
    }
    if AnySettled(s2, a, b) {
      var i :| 0 <= i < |s2| && s2[i].fromUserId == a && s2[i].toUserId == b;
      assert s2[i] in multiset(s1);
    }
  }

  /** Two orders of the same non-negative settlements leave the same entry, whatever its sign. */
  lemma PermutedEntryAgrees(m: Matrix, s1: seq<Settlement>, s2: seq<Settlement>, u: UserId, k: UserId)
    requires SendersKnown(m, s1) && SendersKnown(m, s2)
    requires AmountsNonNegative(s1) && multiset(s1) == multiset(s2)
    requires u in m
    ensures Amount(SettleRow(m[u], u, s1), k) == Amount(SettleRow(m[u], u, s2), k)
  {
    var v := Amount(m[u], k);
    PermutedAmountsNonNegative(s1, s2);
    SettleRowEntry(m[u], u, s1, k);
    SettleRowEntry(m[u], u, s2, k);
    if v >= 0 {
      SettledPermutation(s1, s2, u, k);
      EntryAfterClosedForm(v, u, k, s1);
      EntryAfterClosedForm(v, u, k, s2);
    } else {
      AnySettledPermutation(s1, s2, u, k);
      EntryAfterNegative(v, u, k, s1);
      EntryAfterNegative(v, u, k, s2);
    }
  }

  /**
   * Applying the same non-negative settlements in any order gives the same matrix,
   * key order included, whatever the signs of its entries.
   */
  lemma SettlementOrderIrrelevant(m: Matrix, s1: seq<Settlement>, s2: seq<Settlement>)
    requires SendersKnown(m, s1) && SendersKnown(m, s2)
    requires AmountsNonNegative(s1) && multiset(s1) == multiset(s2)
    ensures ApplySettlements(m, s1) == ApplySettlements(m, s2)
  {
    var r1 := ApplySettlements(m, s1);
    var r2 := ApplySettlements(m, s2);
    forall u | u in m ensures r1[u] == r2[u] {
      ApplySettlementsRow(m, s1, u);
      ApplySettlementsRow(m, s2, u);
      var row1 := SettleRow(m[u], u, s1);
      var row2 := SettleRow(m[u], u, s2);
      forall k | k in row1.vals ensures row1.vals[k] == row2.vals[k] {
        PermutedEntryAgrees(m, s1, s2, u, k);
      }
      assert row1.vals == row2.vals;
    }
  }

  /**
   * With non-negative settlement amounts, the order in which settlements are recorded
   * does not change the matrix `getDetailedBalances` builds, whatever the splits.
   */
  lemma BuildOrderIndependent(members: seq<GroupMember>, es: seq<GroupExpense>, s1: seq<Settlement>, s2: seq<Settlement>)
    requires Buildable(members, es, s1) && Buildable(members, es, s2)
    requires AmountsNonNegative(s1)
    requires multiset(s1) == multiset(s2)
    ensures Build(members, es, s1) == Build(members, es, s2)
  {
    SettlementOrderIrrelevant(BuildExpenses(members, es), s1, s2);
  }
}
