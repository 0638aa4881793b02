/**
 * The record shapes of src/types/index.ts. Money is held in integer cents,
 * so every `number` amount of the source is an `int` here.
 */
module Types {
  import opened Wrappers
  import opened Dict

  type UserId = string
  type Cents = int

  datatype TransactionType = Income | Expense

  datatype Transaction = Transaction(
    id: string,
    userId: UserId,
    amount: Cents,
    kind: TransactionType,
    category: string,
    description: string,
    date: string,
    groupId: Option<string>)

  datatype Budget = Budget(
    id: string,
    userId: UserId,
    category: string,
    limit: Cents,
    spent: Cents,
    month: string)

  datatype GroupMember = GroupMember(userId: UserId, name: string, email: string, joinedAt: string)

  datatype Group = Group(
    id: string,
    name: string,
    description: string,
    members: seq<GroupMember>,
    createdBy: UserId,
    createdAt: string)

  /** One member's share of a group expense. */
  datatype ExpenseSplit = ExpenseSplit(userId: UserId, amount: Cents, settled: bool)

  datatype GroupExpense = GroupExpense(
    id: string,
    groupId: string,
    amount: Cents,
    description: string,
    category: string,
    paidBy: UserId,
    splits: seq<ExpenseSplit>,
    date: string,
    createdAt: string)

  /** A repayment already made by `fromUserId` to `toUserId`. */
  datatype Settlement = Settlement(
    id: string,
    groupId: string,
    fromUserId: UserId,
    toUserId: UserId,
    amount: Cents,
    description: string,
    date: string,
    createdAt: string)

  /** The set of ids of a member list. */
  function MemberIds(members: seq<GroupMember>): (ids: set<UserId>)
    ensures forall i :: 0 <= i < |members| ==> members[i].userId in ids
  {
    set m | m in members :: m.userId
  }

  /** Every id in `MemberIds(members)` belongs to some member. */
  lemma MemberIdsWitness(members: seq<GroupMember>, u: UserId)
    requires u in MemberIds(members)
    ensures exists i :: 0 <= i < |members| && members[i].userId == u
  {
    var m :| m in members && m.userId == u;
  }

  /** The ids of a member list, in member order. */
  function UserIds(members: seq<GroupMember>): (ids: seq<UserId>)
    ensures |ids| == |members|
    ensures forall i :: 0 <= i < |members| ==> ids[i] == members[i].userId
  {
    if members == [] then [] else UserIds(members[..|members| - 1]) + [members[|members| - 1].userId]
  }

  /** The id list and the id set name the same ids. */
  lemma UserIdsMembers(members: seq<GroupMember>, u: UserId)
    ensures u in UserIds(members) <==> u in MemberIds(members)
  {
    if u in MemberIds(members) {
      MemberIdsWitness(members, u);
    }
  }

  /** No two members share an id. */
  predicate DistinctIds(members: seq<GroupMember>) {
    Distinct(UserIds(members))
  }

  /**
   * One member's line of `calculateGroupBalances`: positive `balance` means the
   * member is owed money, negative that they owe it; `settlements` maps the ids of
   * members they should pay to the amount.
   */
  datatype GroupBalance = GroupBalance(userId: UserId, name: string, balance: Cents, settlements: Dict<Cents>)
}
