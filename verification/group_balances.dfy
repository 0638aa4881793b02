/**
 * `calculateGroupBalances` (src/utils/groupCalculations.ts): one running balance per
 * member, credited for what they paid or repaid and debited for their shares and for
 * repayments they received, and per member a breakdown of whom they might pay.
 */
module GroupBalances {
  import opened Types
  import opened Dict

  /** The `balances` object: one running balance per member id. */
  type Ledger = map<UserId, Cents>

  /** Every member starts at zero. */
  function Start(members: seq<GroupMember>): (b: Ledger)
    ensures b.Keys == MemberIds(members)
  {
    map u | u in MemberIds(members) :: 0
  }

  /** `if (balances[u] !== undefined) balances[u] += delta`: ids outside the group are skipped. */
  function Adjust(b: Ledger, u: UserId, delta: int): (r: Ledger)
    ensures r.Keys == b.Keys
  {
    if u in b then b[u := b[u] + delta] else b
  }

  /** Each split's share is debited from its member. */
  function ApplySplits(b: Ledger, splits: seq<ExpenseSplit>): (r: Ledger)
    ensures r.Keys == b.Keys
  {
    if splits == [] then b
    else
      var s := splits[|splits| - 1];
      Adjust(ApplySplits(b, splits[..|splits| - 1]), s.userId, -s.amount)
  }

  /** The payer is credited with the whole amount, then the shares are debited. */
  function ApplyExpense(b: Ledger, e: GroupExpense): (r: Ledger)
    ensures r.Keys == b.Keys
  {
    ApplySplits(Adjust(b, e.paidBy, e.amount), e.splits)
  }

  function ApplyExpenses(b: Ledger, es: seq<GroupExpense>): (r: Ledger)
    ensures r.Keys == b.Keys
  {
    if es == [] then b else ApplyExpense(ApplyExpenses(b, es[..|es| - 1]), es[|es| - 1])
  }

  /** A repayment credits the sender and debits the receiver. */
  function ApplySettlement(b: Ledger, s: Settlement): (r: Ledger)
    ensures r.Keys == b.Keys
  {
    Adjust(Adjust(b, s.fromUserId, s.amount), s.toUserId, -s.amount)
  }

  function ApplySettlements(b: Ledger, ss: seq<Settlement>): (r: Ledger)
    ensures r.Keys == b.Keys
  {
    if ss == [] then b else ApplySettlement(ApplySettlements(b, ss[..|ss| - 1]), ss[|ss| - 1])
  }

  /** The ledger after every expense and then every settlement. */
  function Balances(members: seq<GroupMember>, es: seq<GroupExpense>, ss: seq<Settlement>): (r: Ledger)
    ensures r.Keys == MemberIds(members)
  {
    ApplySettlements(ApplyExpenses(Start(members), es), ss)
  }

  // ---------------------------------------------------------------- breakdown

  function Min(a: int, b: int): int {
    if a <= b then a else b
  }

  /**
   * What a member with balance `Get(bal, u)` is offered to pay member `o`: the smaller
   * of their debt and the other's credit, when they owe and the other is owed.
   */
  function Offer(bal: Ledger, u: UserId, o: UserId): (r: int)
    ensures r >= 0
    ensures r > 0 <==> u != o && Get(bal, u) < 0 && Get(bal, o) > 0
  {
    if u != o && Get(bal, u) < 0 && Get(bal, o) > 0 then Min(-Get(bal, u), Get(bal, o)) else 0
  }

  /** The `settlements` object of member `u`, filled in the order of `ids`. */
  function Breakdown(bal: Ledger, u: UserId, ids: seq<UserId>): (r: Dict<Cents>)
    ensures |r.keys| <= |ids|
  {
    if ids == [] then Empty()
    else
      var p := Breakdown(bal, u, ids[..|ids| - 1]);
      var o := ids[|ids| - 1];
      var amount := Offer(bal, u, o);
      if amount > 0 then Set(p, o, amount) else p
  }

  /** One output line, headed by the member's id and name. */
  function Line(bal: Ledger, members: seq<GroupMember>, member: GroupMember): (r: GroupBalance)
    ensures r.userId == member.userId && r.name == member.name
  {
    GroupBalance(member.userId, member.name, Get(bal, member.userId), Breakdown(bal, member.userId, UserIds(members)))
  }

  /** `us.map(member => ...)` */
  function LinesFor(bal: Ledger, members: seq<GroupMember>, us: seq<GroupMember>): (r: seq<GroupBalance>)
    ensures |r| == |us|
    ensures forall i :: 0 <= i < |us| ==> r[i] == Line(bal, members, us[i])
  {
    if us == [] then [] else LinesFor(bal, members, us[..|us| - 1]) + [Line(bal, members, us[|us| - 1])]
  }

  /** `calculateGroupBalances(members, expenses, settlements)` */
  function CalculateGroupBalances(members: seq<GroupMember>, es: seq<GroupExpense>, ss: seq<Settlement>): (r: seq<GroupBalance>)
    ensures |r| == |members|
  {
    LinesFor(Balances(members, es, ss), members, members)
  }

  // -------------------------------------------------------------- closed form

  /** What `u` paid for the group. */
  function Paid(es: seq<GroupExpense>, u: UserId): int {
    if es == [] then 0
    else
      var e := es[|es| - 1];
      Paid(es[..|es| - 1], u) + if e.paidBy == u then e.amount else 0
  }

  /** `u`'s shares of one expense. */
  function ShareTotal(splits: seq<ExpenseSplit>, u: UserId): int {
    if splits == [] then 0
    else
      var s := splits[|splits| - 1];
      ShareTotal(splits[..|splits| - 1], u) + if s.userId == u then s.amount else 0
  }

  /** `u`'s shares of all expenses. */
  function Shares(es: seq<GroupExpense>, u: UserId): int {
    if es == [] then 0 else Shares(es[..|es| - 1], u) + ShareTotal(es[|es| - 1].splits, u)
  }

  /** What `u` repaid. */
  function Sent(ss: seq<Settlement>, u: UserId): int {
    if ss == [] then 0
    else
      var s := ss[|ss| - 1];
      Sent(ss[..|ss| - 1], u) + if s.fromUserId == u then s.amount else 0
  }

  /** What `u` was repaid. */
  function Received(ss: seq<Settlement>, u: UserId): int {
    if ss == [] then 0
    else
      var s := ss[|ss| - 1];
      Received(ss[..|ss| - 1], u) + if s.toUserId == u then s.amount else 0
  }

  lemma AdjustGet(b: Ledger, k: UserId, delta: int, u: UserId)
    ensures Get(Adjust(b, k, delta), u) == Get(b, u) + if k == u && u in b then delta else 0
  {
  }

  lemma {:induction false} ApplySplitsGet(b: Ledger, splits: seq<ExpenseSplit>, u: UserId)
    ensures Get(ApplySplits(b, splits), u) == Get(b, u) - if u in b then ShareTotal(splits, u) else 0
  {
    if splits != [] {
      var s := splits[|splits| - 1];
      ApplySplitsGet(b, splits[..|splits| - 1], u);
      AdjustGet(ApplySplits(b, splits[..|splits| - 1]), s.userId, -s.amount, u);
    }
  }

  lemma {:induction false} ApplyExpensesGet(b: Ledger, es: seq<GroupExpense>, u: UserId)
    ensures Get(ApplyExpenses(b, es), u) == Get(b, u) + if u in b then Paid(es, u) - Shares(es, u) else 0
  {
    if es != [] {
      var e := es[|es| - 1];
      var before := ApplyExpenses(b, es[..|es| - 1]);
      ApplyExpensesGet(b, es[..|es| - 1], u);
      AdjustGet(before, e.paidBy, e.amount, u);
      ApplySplitsGet(Adjust(before, e.paidBy, e.amount), e.splits, u);
    }
  }

  lemma {:induction false} ApplySettlementsGet(b: Ledger, ss: seq<Settlement>, u: UserId)
    ensures Get(ApplySettlements(b, ss), u) == Get(b, u) + if u in b then Sent(ss, u) - Received(ss, u) else 0
  {
    if ss != [] {
      var s := ss[|ss| - 1];
      var before := ApplySettlements(b, ss[..|ss| - 1]);
      ApplySettlementsGet(b, ss[..|ss| - 1], u);
      AdjustGet(before, s.fromUserId, s.amount, u);
      AdjustGet(Adjust(before, s.fromUserId, s.amount), s.toUserId, -s.amount, u);
    }
  }

  /**
   * A member's balance is what they paid, less their shares, plus what they repaid,
   * less what they were repaid; ids outside the group have no balance at all, and
   * whatever an expense or settlement names outside the group is ignored.
   */
  lemma BalanceClosedForm(members: seq<GroupMember>, es: seq<GroupExpense>, ss: seq<Settlement>, u: UserId)
    ensures u in Balances(members, es, ss) <==> u in MemberIds(members)
    ensures Get(Balances(members, es, ss), u) ==
      if u in MemberIds(members) then Paid(es, u) - Shares(es, u) + Sent(ss, u) - Received(ss, u) else 0
  {
    ApplyExpensesGet(Start(members), es, u);
    ApplySettlementsGet(ApplyExpenses(Start(members), es), ss, u);
  }

  // ------------------------------------------------------------------- totals

  /** Every id the ledger holds is among `ids`. */
  predicate Covers(ids: seq<UserId>, b: Ledger) {
    forall k :: k in b ==> k in ids
  }

  /** An adjustment moves the total over distinct ids covering the ledger by its amount, if it applies. */
  lemma {:induction false} AdjustTotal(b: Ledger, k: UserId, delta: int, ids: seq<UserId>)
    requires Distinct(ids)
    ensures SumOver(Adjust(b, k, delta), ids) == SumOver(b, ids) + if k in b && k in ids then delta else 0
  {
    if ids != [] {
      var init := ids[..|ids| - 1];
      assert Distinct(init) by {
        assert forall i :: 0 <= i < |init| ==> init[i] == ids[i];
      }
      AdjustTotal(b, k, delta, init);
      AdjustGet(b, k, delta, ids[|ids| - 1]);
      assert k in ids <==> k in init || k == ids[|ids| - 1];
      if k == ids[|ids| - 1] {
        assert k !in init by {
          assert forall i :: 0 <= i < |init| ==> init[i] == ids[i];
        }
      }
    }
  }

  /**
   * A settlement adds its amount to the total when the sender is in the group and
   * takes it off when the receiver is: between two members it leaves the total as it was.
   */
  lemma SettlementTotal(b: Ledger, s: Settlement, ids: seq<UserId>)
    requires Distinct(ids) && Covers(ids, b)
    ensures SumOver(ApplySettlement(b, s), ids) ==
      SumOver(b, ids) + (if s.fromUserId in b then s.amount else 0) - (if s.toUserId in b then s.amount else 0)
  {
    AdjustTotal(b, s.fromUserId, s.amount, ids);
    AdjustTotal(Adjust(b, s.fromUserId, s.amount), s.toUserId, -s.amount, ids);
  }

  /** The splits of one expense, in total. */
  function SplitsTotal(splits: seq<ExpenseSplit>): int {
    if splits == [] then 0 else SplitsTotal(splits[..|splits| - 1]) + splits[|splits| - 1].amount
  }

  lemma {:induction false} ApplySplitsTotal(b: Ledger, splits: seq<ExpenseSplit>, ids: seq<UserId>)
    requires Distinct(ids) && Covers(ids, b)
    requires forall i :: 0 <= i < |splits| ==> splits[i].userId in b
    ensures SumOver(ApplySplits(b, splits), ids) == SumOver(b, ids) - SplitsTotal(splits)
  {
    if splits != [] {
      var s := splits[|splits| - 1];
      ApplySplitsTotal(b, splits[..|splits| - 1], ids);
      AdjustTotal(ApplySplits(b, splits[..|splits| - 1]), s.userId, -s.amount, ids);
    }
  }

  /** An expense is closed when its payer and everyone sharing it are members and the shares add up to it. */
  predicate Closed(b: Ledger, e: GroupExpense) {
    && e.paidBy in b
    && (forall i :: 0 <= i < |e.splits| ==> e.splits[i].userId in b)
    && SplitsTotal(e.splits) == e.amount
  }

  /** Closed expenses leave the total of the ledger unchanged. */
  lemma {:induction false} ApplyExpensesTotal(b: Ledger, es: seq<GroupExpense>, ids: seq<UserId>)
    requires Distinct(ids) && Covers(ids, b)
    requires forall i :: 0 <= i < |es| ==> Closed(b, es[i])
    ensures SumOver(ApplyExpenses(b, es), ids) == SumOver(b, ids)
  {
    if es != [] {
      var e := es[|es| - 1];
      var before := ApplyExpenses(b, es[..|es| - 1]);
      ApplyExpensesTotal(b, es[..|es| - 1], ids);
      assert Closed(b, e);
      AdjustTotal(before, e.paidBy, e.amount, ids);
      ApplySplitsTotal(Adjust(before, e.paidBy, e.amount), e.splits, ids);
    }
  }

  /** Settlements between members leave the total of the ledger unchanged. */
  lemma {:induction false} ApplySettlementsTotal(b: Ledger, ss: seq<Settlement>, ids: seq<UserId>)
    requires Distinct(ids) && Covers(ids, b)
    requires forall i :: 0 <= i < |ss| ==> ss[i].fromUserId in b && ss[i].toUserId in b
    ensures SumOver(ApplySettlements(b, ss), ids) == SumOver(b, ids)
  {
    if ss != [] {
      ApplySettlementsTotal(b, ss[..|ss| - 1], ids);
      SettlementTotal(ApplySettlements(b, ss[..|ss| - 1]), ss[|ss| - 1], ids);
    }
  }

  lemma {:induction false} StartTotal(members: seq<GroupMember>, ids: seq<UserId>)
    ensures SumOver(Start(members), ids) == 0
  {
    if ids != [] {
      StartTotal(members, ids[..|ids| - 1]);
    }
  }

  /** Total of the output balances. */
  function BalanceTotal(lines: seq<GroupBalance>): int {
    if lines == [] then 0 else BalanceTotal(lines[..|lines| - 1]) + lines[|lines| - 1].balance
  }

  lemma {:induction false} LinesTotal(bal: Ledger, members: seq<GroupMember>, us: seq<GroupMember>)
    ensures BalanceTotal(LinesFor(bal, members, us)) == SumOver(bal, UserIds(us))
  {
    if us != [] {
      var init := us[..|us| - 1];
      LinesTotal(bal, members, init);
      assert LinesFor(bal, members, us)[..|us| - 1] == LinesFor(bal, members, init);
      assert UserIds(us)[..|us| - 1] == UserIds(init);
    }
  }

  /**
   * When members have distinct ids, every expense is closed and every settlement is
   * between members, the balances add up to zero.
   */
  lemma ZeroSum(members: seq<GroupMember>, es: seq<GroupExpense>, ss: seq<Settlement>)
    requires DistinctIds(members)
    requires forall i :: 0 <= i < |es| ==> Closed(Start(members), es[i])
    requires forall i :: 0 <= i < |ss| ==>
      ss[i].fromUserId in MemberIds(members) && ss[i].toUserId in MemberIds(members)
    ensures BalanceTotal(CalculateGroupBalances(members, es, ss)) == 0
  {
    var ids := UserIds(members);
    var b := Start(members);
    assert Covers(ids, b) by {
      forall k | k in b
        ensures k in ids
      {
        UserIdsMembers(members, k);
      }
    }
    ApplyExpensesTotal(b, es, ids);
    var e := ApplyExpenses(b, es);
    ApplySettlementsTotal(e, ss, ids);
    StartTotal(members, ids);
    LinesTotal(Balances(members, es, ss), members, members);
  }

  // --------------------------------------------------------- breakdown facts

  /**
   * The breakdown holds `o` exactly when `o` is among `ids` with a positive offer, and
   * then holds the offer; its key order lists each such id once.
   */
  lemma {:induction false} BreakdownAmount(bal: Ledger, u: UserId, ids: seq<UserId>, o: UserId)
    ensures HasKey(Breakdown(bal, u, ids), o) <==> o in ids && Offer(bal, u, o) > 0
    ensures Amount(Breakdown(bal, u, ids), o) == if o in ids then Offer(bal, u, o) else 0
  {
    if ids != [] {
      BreakdownAmount(bal, u, ids[..|ids| - 1], o);
      assert o in ids <==> o in ids[..|ids| - 1] || o == ids[|ids| - 1];
    }
  }

  lemma {:induction false} BreakdownValid(bal: Ledger, u: UserId, ids: seq<UserId>)
    ensures Valid(Breakdown(bal, u, ids))
  {
    if ids != [] {
      var p := Breakdown(bal, u, ids[..|ids| - 1]);
      BreakdownValid(bal, u, ids[..|ids| - 1]);
      SetValid(p, ids[|ids| - 1], Offer(bal, u, ids[|ids| - 1]));
    }
  }

  /** Line `i` is member `i`'s, with their balance; lines follow the member list. */
  lemma LineHeader(members: seq<GroupMember>, es: seq<GroupExpense>, ss: seq<Settlement>, i: nat)
    requires i < |members|
    ensures var r := CalculateGroupBalances(members, es, ss);
      && |r| == |members|
      && r[i].userId == members[i].userId && r[i].name == members[i].name
      && r[i].balance == Get(Balances(members, es, ss), members[i].userId)
  {
  }

  /**
   * A breakdown over the member ids lists each other member who is owed money when
   * `u` owes money, for the smaller of the two amounts, and nothing else.
   */
  lemma BreakdownExact(members: seq<GroupMember>, bal: Ledger, u: UserId, o: UserId)
    ensures var d := Breakdown(bal, u, UserIds(members));
      && Valid(d)
      && (HasKey(d, o) <==> o in MemberIds(members) && o != u && Get(bal, u) < 0 && Get(bal, o) > 0)
      && (HasKey(d, o) ==> Amount(d, o) == Min(-Get(bal, u), Get(bal, o)))
  {
    BreakdownAmount(bal, u, UserIds(members), o);
    BreakdownValid(bal, u, UserIds(members));
    UserIdsMembers(members, o);
  }

  /**
   * Line `i`'s breakdown lists each other member who is owed money when member `i`
   * owes money, for the smaller of the two amounts, and nothing else.
   */
  lemma LineBreakdown(members: seq<GroupMember>, es: seq<GroupExpense>, ss: seq<Settlement>, i: nat, o: UserId)
    requires i < |members|
    ensures var r := CalculateGroupBalances(members, es, ss);
      var bal := Balances(members, es, ss);
      var d := r[i].settlements;
      && Valid(d)
      && (HasKey(d, o) <==> o in MemberIds(members) && o != members[i].userId && r[i].balance < 0 && Get(bal, o) > 0)
      && (HasKey(d, o) ==> Amount(d, o) == Min(-r[i].balance, Get(bal, o)))
  {
    var bal := Balances(members, es, ss);
    assert CalculateGroupBalances(members, es, ss)[i] == Line(bal, members, members[i]);
    BreakdownExact(members, bal, members[i].userId, o);
  }
}
