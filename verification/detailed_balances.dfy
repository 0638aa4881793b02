/**
 * The per-member breakdown of `getDetailedBalances` (src/utils/groupCalculations.ts):
 * what each member owes, what each member is owed, and the net of the two, all read
 * off the debt matrix.
 */
module DetailedBalances {
  import opened Types
  import opened Dict
  import opened DebtMatrix

  datatype DetailedBalance = DetailedBalance(
    userId: UserId,
    name: string,
    owes: Dict<Cents>,
    owedBy: Dict<Cents>,
    netBalance: Cents)

  /** `owesMatrix[userId] || {}` */
  function RowOf(m: Matrix, u: UserId): (r: Row)
    ensures u !in m ==> r == Empty()
    ensures forall k {:trigger Amount(r, k)} :: Amount(r, k) == Debt(m, u, k)
  {
    if u in m then m[u] else Empty()
  }

  /** Column `u` read for the debtors `ids`: `owesMatrix[a]?.[u] || 0` for each `a` in `ids`. */
  function Column(m: Matrix, u: UserId, ids: seq<UserId>): (r: map<UserId, int>)
    ensures |r| <= |ids|
  {
    if ids == [] then map[]
    else Column(m, u, ids[..|ids| - 1])[ids[|ids| - 1] := Debt(m, ids[|ids| - 1], u)]
  }

  /** The column holds `Debt` for the debtors it was read for, and nothing for others. */
  lemma {:induction false} ColumnEntry(m: Matrix, u: UserId, ids: seq<UserId>, a: UserId)
    ensures Get(Column(m, u, ids), a) == if a in ids then Debt(m, a, u) else 0
  {
    if ids != [] {
      ColumnEntry(m, u, ids[..|ids| - 1], a);
      assert a in ids <==> a in ids[..|ids| - 1] || a == ids[|ids| - 1];
    }
  }

  /** The positive entries of `u`'s row, in the row's key order. */
  function Owes(m: Matrix, u: UserId): (r: Dict<Cents>)
    ensures |r.keys| <= |RowOf(m, u).keys|
  {
    Positive(RowOf(m, u))
  }

  /** The positive entries of `u`'s column, keyed by debtor, in member order. */
  function OwedBy(m: Matrix, members: seq<GroupMember>, u: UserId): (r: Dict<Cents>)
    ensures |r.keys| <= |members|
  {
    PositiveOver(Column(m, u, UserIds(members)), UserIds(members))
  }

  /**
   * `netBalance`: minus every positive entry of the row, plus the positive column
   * entry of every member, counted once per occurrence in `members`. It is never
   * below minus what `u` owes, nor above what `u` is owed.
   */
  function NetBalance(m: Matrix, members: seq<GroupMember>, u: UserId): (r: Cents)
    ensures 0 <= r + SumPos(RowOf(m, u)) && r <= PosOver(Column(m, u, UserIds(members)), UserIds(members))
  {
    PosOver(Column(m, u, UserIds(members)), UserIds(members)) - SumPos(RowOf(m, u))
  }

  /** One member's line, headed by that member's id and name. */
  function Describe(m: Matrix, members: seq<GroupMember>, member: GroupMember): (r: DetailedBalance)
    ensures r.userId == member.userId && r.name == member.name
  {
    var u := member.userId;
    DetailedBalance(u, member.name, Owes(m, u), OwedBy(m, members, u), NetBalance(m, members, u))
  }

  /** `us.map(...)` against the whole member list: one line per entry of `us`, in order. */
  function DescribeEach(m: Matrix, members: seq<GroupMember>, us: seq<GroupMember>): (r: seq<DetailedBalance>)
    ensures |r| == |us|
    ensures forall i :: 0 <= i < |us| ==> r[i].userId == us[i].userId && r[i].name == us[i].name
    ensures forall i :: 0 <= i < |us| ==> r[i] == Describe(m, members, us[i])
  {
    if us == [] then []
    else DescribeEach(m, members, us[..|us| - 1]) + [Describe(m, members, us[|us| - 1])]
  }

  /** `getDetailedBalances(members, expenses, settlements)` */
  function GetDetailedBalances(members: seq<GroupMember>, es: seq<GroupExpense>, ss: seq<Settlement>): (r: seq<DetailedBalance>)
    requires Buildable(members, es, ss)
    ensures |r| == |members|
  {
    DescribeEach(Build(members, es, ss), members, members)
  }

  // ------------------------------------------------------------- owes, owedBy

  /**
   * `owes` lists exactly the creditors `u` has a positive entry for, with that amount,
   * in the order the row first received them.
   */
  lemma OwesExact(m: Matrix, u: UserId, k: UserId)
    requires Valid(RowOf(m, u))
    ensures HasKey(Owes(m, u), k) <==> Debt(m, u, k) > 0
    ensures Amount(Owes(m, u), k) == Pos(Debt(m, u, k))
  {
    var row := RowOf(m, u);
    PositiveOverAmount(row.vals, row.keys, k);
  }

  /** `owes` lists each creditor once, in the order the row first received them. */
  lemma OwesShape(m: Matrix, u: UserId)
    requires Valid(RowOf(m, u))
    ensures Valid(Owes(m, u))
    ensures Owes(m, u).keys == PositiveKeys(RowOf(m, u).vals, RowOf(m, u).keys)
  {
    var row := RowOf(m, u);
    PositiveOverShape(row.vals, row.keys);
  }

  /**
   * `owedBy` lists exactly the members with a positive entry towards `u`, with that
   * amount; with distinct member ids, in member order.
   */
  lemma OwedByExact(m: Matrix, members: seq<GroupMember>, u: UserId, o: UserId)
    ensures HasKey(OwedBy(m, members, u), o) <==> o in MemberIds(members) && Debt(m, o, u) > 0
    ensures Amount(OwedBy(m, members, u), o) == if o in MemberIds(members) then Pos(Debt(m, o, u)) else 0
  {
    var ids := UserIds(members);
    PositiveOverAmount(Column(m, u, ids), ids, o);
    UserIdsMembers(members, o);
    ColumnEntry(m, u, ids, o);
  }

  /** With distinct member ids, `owedBy` lists each debtor once, in member order. */
  lemma OwedByShape(m: Matrix, members: seq<GroupMember>, u: UserId)
    requires DistinctIds(members)
    ensures Valid(OwedBy(m, members, u))
    ensures OwedBy(m, members, u).keys == PositiveKeys(Column(m, u, UserIds(members)), UserIds(members))
  {
    PositiveOverShape(Column(m, u, UserIds(members)), UserIds(members));
  }

  /** With distinct member ids, `netBalance` is what the member is owed minus what they owe. */
  lemma NetBalanceIsDifference(m: Matrix, members: seq<GroupMember>, u: UserId)
    requires WellFormed(m) && DistinctIds(members)
    ensures NetBalance(m, members, u) == Sum(OwedBy(m, members, u)) - Sum(Owes(m, u))
  {
    var row := RowOf(m, u);
    PositiveOverSum(Column(m, u, UserIds(members)), UserIds(members));
    PositiveOverSum(row.vals, row.keys);
  }

  /** Line `i` of the result is headed by member `i`'s id and name. */
  lemma LineHeader(members: seq<GroupMember>, es: seq<GroupExpense>, ss: seq<Settlement>, i: nat)
    requires Buildable(members, es, ss)
    requires i < |members|
    ensures GetDetailedBalances(members, es, ss)[i].userId == members[i].userId
    ensures GetDetailedBalances(members, es, ss)[i].name == members[i].name
  {
  }

  /** Line `i` of the result carries member `i`'s `owes` against the built matrix. */
  lemma LineOwes(members: seq<GroupMember>, es: seq<GroupExpense>, ss: seq<Settlement>, i: nat)
    requires Buildable(members, es, ss)
    requires i < |members|
    ensures GetDetailedBalances(members, es, ss)[i].owes == Owes(Build(members, es, ss), members[i].userId)
  {
  }

  /** Line `i` of the result carries member `i`'s `owedBy` against the built matrix. */
  lemma LineOwedBy(members: seq<GroupMember>, es: seq<GroupExpense>, ss: seq<Settlement>, i: nat)
    requires Buildable(members, es, ss)
    requires i < |members|
    ensures GetDetailedBalances(members, es, ss)[i].owedBy == OwedBy(Build(members, es, ss), members, members[i].userId)
  {
  }

  /** Of the built matrix, `owes` of `u` holds what `u` was charged by `k` and did not repay. */
  lemma BuildOwes(members: seq<GroupMember>, es: seq<GroupExpense>, ss: seq<Settlement>, u: UserId, k: UserId)
    requires Buildable(members, es, ss)
    requires AllSplitsNonNegative(es) && AmountsNonNegative(ss)
    requires u in MemberIds(members)
    ensures var d := Owes(Build(members, es, ss), u);
      && (HasKey(d, k) <==> ExpensesDebt(es, u, k) > Settled(ss, u, k))
      && Amount(d, k) == Max0(ExpensesDebt(es, u, k) - Settled(ss, u, k))
  {
    BuildRowValid(members, es, ss, u);
    ExpensesDebtNonNegative(es, u, k);
    BuildClosedForm(members, es, ss, u, k);
    OwesExact(Build(members, es, ss), u, k);
  }

  lemma BuildRowValid(members: seq<GroupMember>, es: seq<GroupExpense>, ss: seq<Settlement>, u: UserId)
    requires Buildable(members, es, ss)
    ensures Valid(RowOf(Build(members, es, ss), u))
  {
    BuildInvariant(members, es, ss);
  }

  /** Of the built matrix, `owedBy` of `u` holds what each member `o` was charged by `u` and did not repay. */
  lemma BuildOwedBy(members: seq<GroupMember>, es: seq<GroupExpense>, ss: seq<Settlement>, u: UserId, o: UserId)
    requires Buildable(members, es, ss)
    requires AllSplitsNonNegative(es) && AmountsNonNegative(ss)
    requires o in MemberIds(members)
    ensures var d := OwedBy(Build(members, es, ss), members, u);
      && (HasKey(d, o) <==> ExpensesDebt(es, o, u) > Settled(ss, o, u))
      && Amount(d, o) == Max0(ExpensesDebt(es, o, u) - Settled(ss, o, u))
  {
    ExpensesDebtNonNegative(es, o, u);
    BuildClosedForm(members, es, ss, o, u);
    OwedByAt(Build(members, es, ss), members, u, o, ExpensesDebt(es, o, u) - Settled(ss, o, u));
  }

  /** A member whose entry towards `u` is `Max0(x)` is in `owedBy` exactly when `x > 0`, for `Max0(x)`. */
  lemma OwedByAt(m: Matrix, members: seq<GroupMember>, u: UserId, o: UserId, x: int)
    requires o in MemberIds(members)
    requires Debt(m, o, u) == Max0(x)
    ensures HasKey(OwedBy(m, members, u), o) <==> x > 0
    ensures Amount(OwedBy(m, members, u), o) == Max0(x)
  {
    OwedByExact(m, members, u, o);
  }


  /**
   * Under non-negative splits and settlements, member `i`'s line lists creditor `k`
   * exactly when `k` was charged more than was repaid, with the difference, whatever
   * order the settlements came in.
   */
  lemma OwesClosedForm(members: seq<GroupMember>, es: seq<GroupExpense>, ss: seq<Settlement>, i: nat, k: UserId)
    requires Buildable(members, es, ss)
    requires AllSplitsNonNegative(es) && AmountsNonNegative(ss)
    requires i < |members|
    ensures var u := members[i].userId;
      var line := GetDetailedBalances(members, es, ss)[i];
      && (HasKey(line.owes, k) <==> ExpensesDebt(es, u, k) > Settled(ss, u, k))
      && Amount(line.owes, k) == Max0(ExpensesDebt(es, u, k) - Settled(ss, u, k))
  {
    LineOwes(members, es, ss, i);
    BuildOwes(members, es, ss, members[i].userId, k);
  }

  /** Symmetrically, member `i` is owed by each member `o` what `o` was charged and did not repay. */
  lemma OwedByClosedForm(members: seq<GroupMember>, es: seq<GroupExpense>, ss: seq<Settlement>, i: nat, o: UserId)
    requires Buildable(members, es, ss)
    requires AllSplitsNonNegative(es) && AmountsNonNegative(ss)
    requires i < |members| && o in MemberIds(members)
    ensures var u := members[i].userId;
      var line := GetDetailedBalances(members, es, ss)[i];
      && (HasKey(line.owedBy, o) <==> ExpensesDebt(es, o, u) > Settled(ss, o, u))
      && Amount(line.owedBy, o) == Max0(ExpensesDebt(es, o, u) - Settled(ss, o, u))
  {
    LineOwedBy(members, es, ss, i);
    BuildOwedBy(members, es, ss, members[i].userId, o);
  }

  // ------------------------------------------------------------------ zero sum

  /** Σ over the creditors `cols` of what `a` owes them, positive entries only. */
  function CreditorsTotal(m: Matrix, a: UserId, cols: seq<UserId>): nat {
    if cols == [] then 0 else CreditorsTotal(m, a, cols[..|cols| - 1]) + Pos(Debt(m, a, cols[|cols| - 1]))
  }

  /** Σ over the debtors `rows` of what they owe `b`, positive entries only. */
  function DebtorsTotal(m: Matrix, rows: seq<UserId>, b: UserId): nat {
    if rows == [] then 0 else DebtorsTotal(m, rows[..|rows| - 1], b) + Pos(Debt(m, rows[|rows| - 1], b))
  }

  /** Σ over `rows` of their creditor totals towards `cols`. */
  function RowTotal(m: Matrix, rows: seq<UserId>, cols: seq<UserId>): int {
    if rows == [] then 0 else RowTotal(m, rows[..|rows| - 1], cols) + CreditorsTotal(m, rows[|rows| - 1], cols)
  }

  /** Σ over `cols` of their debtor totals from `rows`. */
  function ColTotal(m: Matrix, rows: seq<UserId>, cols: seq<UserId>): int {
    if cols == [] then 0 else ColTotal(m, rows, cols[..|cols| - 1]) + DebtorsTotal(m, rows, cols[|cols| - 1])
  }

  lemma {:induction false} ColTotalEmpty(m: Matrix, cols: seq<UserId>)
    ensures ColTotal(m, [], cols) == 0
  {
    if cols != [] {
      ColTotalEmpty(m, cols[..|cols| - 1]);
    }
  }

  /** One more debtor adds their creditor total to the column totals. */
  lemma {:induction false} ColTotalSnoc(m: Matrix, rows: seq<UserId>, a: UserId, cols: seq<UserId>)
    ensures ColTotal(m, rows + [a], cols) == ColTotal(m, rows, cols) + CreditorsTotal(m, a, cols)
  {
    if cols != [] {
      ColTotalSnoc(m, rows, a, cols[..|cols| - 1]);
      assert (rows + [a])[..|rows|] == rows;
    }
  }

  /** Summing the positive entries by rows or by columns gives the same total. */
  lemma {:induction false} TotalsSwap(m: Matrix, rows: seq<UserId>, cols: seq<UserId>)
    ensures RowTotal(m, rows, cols) == ColTotal(m, rows, cols)
  {
    if rows == [] {
      ColTotalEmpty(m, cols);
    } else {
      var init := rows[..|rows| - 1];
      var a := rows[|rows| - 1];
      TotalsSwap(m, init, cols);
      assert rows == init + [a];
      ColTotalSnoc(m, init, a, cols);
    }
  }

  /** A column read for `ids` and summed over `ids` is the debtor total of `ids`. */
  lemma {:induction false} ColumnTotal(m: Matrix, u: UserId, ids: seq<UserId>)
    ensures PosOver(Column(m, u, ids), ids) == DebtorsTotal(m, ids, u)
  {
    if ids != [] {
      var init := ids[..|ids| - 1];
      ColumnTotal(m, u, init);
      forall i | 0 <= i < |init| ensures Get(Column(m, u, ids), init[i]) == Get(Column(m, u, init), init[i]) {
        ColumnEntry(m, u, ids, init[i]);
        ColumnEntry(m, u, init, init[i]);
      }
      SumsFrame(Column(m, u, ids), Column(m, u, init), init);
      ColumnEntry(m, u, ids, ids[|ids| - 1]);
    }
  }

  /** A row summed over any id list is the creditor total of that list. */
  lemma {:induction false} RowOfTotal(m: Matrix, u: UserId, ids: seq<UserId>)
    ensures PosOver(RowOf(m, u).vals, ids) == CreditorsTotal(m, u, ids)
  {
    if ids != [] {
      RowOfTotal(m, u, ids[..|ids| - 1]);
    }
  }

  /** When every payer is a member, only members appear as creditors. */
  lemma PayersAreMembers(m: Matrix, members: seq<GroupMember>, es: seq<GroupExpense>)
    requires CreditorsIn(m, Payers(es))
    requires forall i :: 0 <= i < |es| ==> es[i].paidBy in MemberIds(members)
    ensures CreditorsIn(m, MemberIds(members))
  {
    forall a, b | a in m && b in m[a].vals ensures b in MemberIds(members) {
      assert b in Payers(es);
      var e :| e in es && e.paidBy == b;
    }
  }

  /** Σ netBalance */
  function NetTotal(lines: seq<DetailedBalance>): int {
    if lines == [] then 0 else NetTotal(lines[..|lines| - 1]) + lines[|lines| - 1].netBalance
  }

  /** The net balances of the members `us` are their column totals minus their row totals. */
  lemma {:induction false} NetTotalEach(m: Matrix, members: seq<GroupMember>, us: seq<GroupMember>)
    requires WellFormed(m) && CreditorsIn(m, MemberIds(members)) && DistinctIds(members)
    ensures NetTotal(DescribeEach(m, members, us))
      == ColTotal(m, UserIds(members), UserIds(us)) - RowTotal(m, UserIds(us), UserIds(members))
  {
    if us != [] {
      var init := us[..|us| - 1];
      var u := us[|us| - 1].userId;
      var ids := UserIds(members);
      NetTotalEach(m, members, init);
      assert UserIds(us)[..|us| - 1] == UserIds(init);
      NetBalanceTotals(m, members, u);
      assert DescribeEach(m, members, us)[..|us| - 1] == DescribeEach(m, members, init);
    }
  }

  /** One member's net balance is their debtor total minus their creditor total, over the members. */
  lemma NetBalanceTotals(m: Matrix, members: seq<GroupMember>, u: UserId)
    requires WellFormed(m) && CreditorsIn(m, MemberIds(members)) && DistinctIds(members)
    ensures NetBalance(m, members, u) == DebtorsTotal(m, UserIds(members), u) - CreditorsTotal(m, u, UserIds(members))
  {
    var ids := UserIds(members);
    var row := RowOf(m, u);
    forall k | k in row.vals ensures k in ids {
      UserIdsMembers(members, k);
    }
    SumPosOver(row, ids);
    RowOfTotal(m, u, ids);
    ColumnTotal(m, u, ids);
  }

  /**
   * In a closed group — distinct member ids, every payer a member — the net balances
   * of `getDetailedBalances` add up to zero: every debt is owed by one member and owed
   * to another.
   */
  lemma ZeroSum(members: seq<GroupMember>, es: seq<GroupExpense>, ss: seq<Settlement>)
    requires Buildable(members, es, ss)
    requires DistinctIds(members)
    requires forall i :: 0 <= i < |es| ==> es[i].paidBy in MemberIds(members)
    ensures NetTotal(GetDetailedBalances(members, es, ss)) == 0
  {
    var m := Build(members, es, ss);
    BuildInvariant(members, es, ss);
    PayersAreMembers(m, members, es);
    NetTotalEach(m, members, members);
    TotalsSwap(m, UserIds(members), UserIds(members));
  }
}
