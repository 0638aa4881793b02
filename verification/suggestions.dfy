/**
 * `getSettlementSuggestions` (src/utils/groupCalculations.ts): one suggested payment
 * per positive `owes` entry of the detailed balances, largest first.
 */
module Suggestions {
  import opened Types
  import opened Dict
  import opened DebtMatrix
  import opened DetailedBalances

  datatype Suggestion = Suggestion(from: UserId, to: UserId, amount: Cents, fromName: string, toName: string)

  /** `members.find(m => m.userId === id)`, as the index of the first match or -1. */
  function FindMember(members: seq<GroupMember>, id: UserId): (i: int)
    ensures -1 <= i < |members|
    ensures 0 <= i ==> members[i].userId == id && forall j :: 0 <= j < i ==> members[j].userId != id
    ensures i < 0 ==> forall j :: 0 <= j < |members| ==> members[j].userId != id
  {
    if members == [] then -1
    else if members[0].userId == id then 0
    else
      var r := FindMember(members[1..], id);
      if r < 0 then -1 else r + 1
  }

  /** `toMember?.name || 'Unknown'`: no such member, or an empty name, reads as "Unknown". */
  function NameOf(members: seq<GroupMember>, id: UserId): (name: string)
    ensures name != ""
    ensures id !in MemberIds(members) ==> name == "Unknown"
  {
    var i := FindMember(members, id);
    if i < 0 || members[i].name == "" then "Unknown" else members[i].name
  }

  /** A member's name is found under their id when ids are distinct. */
  lemma NameOfMember(members: seq<GroupMember>, i: nat)
    requires i < |members| && DistinctIds(members)
    ensures NameOf(members, members[i].userId) == if members[i].name == "" then "Unknown" else members[i].name
  {
    var j := FindMember(members, members[i].userId);
    assert UserIds(members)[i] == members[i].userId;
    assert 0 <= j <= i;
    assert UserIds(members)[j] == members[j].userId;
  }

  // ----------------------------------------------------------------- collect

  /** The suggestions of one line, for the `owes` keys `keys`, in key order. */
  function FromLine(line: DetailedBalance, members: seq<GroupMember>, keys: seq<UserId>): (r: seq<Suggestion>)
    ensures |r| <= |keys|
  {
    if keys == [] then []
    else
      var k := keys[|keys| - 1];
      var amount := Amount(line.owes, k);
      FromLine(line, members, keys[..|keys| - 1])
        + if amount > 0 then [Suggestion(line.userId, k, amount, line.name, NameOf(members, k))] else []
  }

  /** All lines' suggestions, line after line. */
  function Collect(lines: seq<DetailedBalance>, members: seq<GroupMember>): (r: seq<Suggestion>)
    ensures |r| <= OwesCount(lines)
  {
    if lines == [] then []
    else
      var line := lines[|lines| - 1];
      Collect(lines[..|lines| - 1], members) + FromLine(line, members, line.owes.keys)
  }

  /** The suggestion a line makes for creditor `k`. */
  function SuggestionFor(line: DetailedBalance, members: seq<GroupMember>, k: UserId): Suggestion {
    Suggestion(line.userId, k, Amount(line.owes, k), line.name, NameOf(members, k))
  }

  /** A line suggests exactly one payment per key of `keys` with a positive amount. */
  lemma {:induction false} FromLineMember(line: DetailedBalance, members: seq<GroupMember>, keys: seq<UserId>, x: Suggestion)
    ensures x in FromLine(line, members, keys) <==>
      x.to in keys && Amount(line.owes, x.to) > 0 && x == SuggestionFor(line, members, x.to)
  {
    if keys != [] {
      var init := keys[..|keys| - 1];
      FromLineMember(line, members, init, x);
      assert x.to in keys <==> x.to in init || x.to == keys[|keys| - 1];
    }
  }

  /** `x` is among the suggestions of `line`. */
  predicate Makes(line: DetailedBalance, members: seq<GroupMember>, x: Suggestion) {
    x in FromLine(line, members, line.owes.keys)
  }

  /** The collected suggestions are exactly those some line makes. */
  lemma {:induction false} CollectMember(lines: seq<DetailedBalance>, members: seq<GroupMember>, x: Suggestion)
    ensures x in Collect(lines, members) <==> exists i :: 0 <= i < |lines| && Makes(lines[i], members, x)
  {
    if lines != [] {
      var init := lines[..|lines| - 1];
      var last := lines[|lines| - 1];
      CollectMember(init, members, x);
      assert Collect(lines, members) == Collect(init, members) + FromLine(last, members, last.owes.keys);
      if x in Collect(init, members) {
        var i :| 0 <= i < |init| && Makes(init[i], members, x);
        assert lines[i] == init[i];
      } else if Makes(last, members, x) {
        assert lines[|lines| - 1] == last;
      } else {
        forall i | 0 <= i < |lines|
          ensures !Makes(lines[i], members, x)
        {
          if i < |init| {
            assert lines[i] == init[i];
          }
        }
      }
    }
  }

  // ------------------------------------------------------------------- order

  /** Largest amount first: each amount is at least the next one. */
  predicate SortedDesc(s: seq<Suggestion>) {
    |s| <= 1 || (s[0].amount >= s[1].amount && SortedDesc(s[1..]))
  }

  /** In a sorted list every amount is at least every later one. */
  lemma {:induction false} SortedDescAll(s: seq<Suggestion>)
    requires SortedDesc(s)
    ensures forall i, j :: 0 <= i < j < |s| ==> s[i].amount >= s[j].amount
  {
    if |s| > 1 {
      SortedDescAll(s[1..]);
      assert forall j :: 1 <= j < |s| ==> s[j] == s[1..][j - 1];
    }
  }

  /** Places `x` after every element whose amount is at least its own. */
  function Insert(x: Suggestion, s: seq<Suggestion>): (r: seq<Suggestion>)
    ensures |r| == |s| + 1
  {
    if s == [] then [x]
    else if s[0].amount >= x.amount then [s[0]] + Insert(x, s[1..])
    else [x] + s
  }

  /**
   * `suggestions.sort((a, b) => b.amount - a.amount)`: a stable sort (as the
   * language's `Array.prototype.sort` has been required to be since ES2019) by
   * descending amount, as an insertion sort.
   */
  function SortDesc(s: seq<Suggestion>): (r: seq<Suggestion>)
    ensures |r| == |s|
  {
    if s == [] then [] else Insert(s[|s| - 1], SortDesc(s[..|s| - 1]))
  }

  /** The elements of `s` with amount `v`, in order. */
  function WithAmount(s: seq<Suggestion>, v: Cents): seq<Suggestion> {
    if s == [] then [] else (if s[0].amount == v then [s[0]] else []) + WithAmount(s[1..], v)
  }

  /** Inserting into a sorted list keeps it sorted. */
  lemma {:induction false} InsertSorted(x: Suggestion, s: seq<Suggestion>)
    requires SortedDesc(s)
    ensures SortedDesc(Insert(x, s))
    ensures Insert(x, s)[0] == x || Insert(x, s)[0] == s[0]
  {
    if s != [] && s[0].amount >= x.amount {
      InsertSorted(x, s[1..]);
    }
  }

  /** Inserting adds exactly one copy of `x`. */
  lemma {:induction false} InsertPermutes(x: Suggestion, s: seq<Suggestion>)
    ensures multiset(Insert(x, s)) == multiset(s) + multiset{x}
  {
    if s != [] && s[0].amount >= x.amount {
      InsertPermutes(x, s[1..]);
      assert s == [s[0]] + s[1..];
    }
  }

  lemma {:induction false} WithAmountAppend(a: seq<Suggestion>, b: seq<Suggestion>, v: Cents)
    ensures WithAmount(a + b, v) == WithAmount(a, v) + WithAmount(b, v)
  {
    if a == [] {
      assert a + b == b;
    } else {
      var head := if a[0].amount == v then [a[0]] else [];
      assert (a + b)[0] == a[0] && (a + b)[1..] == a[1..] + b;
      WithAmountAppend(a[1..], b, v);
      assert WithAmount(a + b, v) == head + (WithAmount(a[1..], v) + WithAmount(b, v));
    }
  }

  /** Nothing of amount `v` in a sorted list that starts below `v`. */
  lemma {:induction false} WithAmountNone(s: seq<Suggestion>, v: Cents)
    requires SortedDesc(s) && s != [] && s[0].amount < v
    ensures WithAmount(s, v) == []
  {
    if |s| > 1 {
      WithAmountNone(s[1..], v);
    }
  }

  /** Inserting behind a head of at least `x`'s amount: one step of the stability proof. */
  lemma InsertStableBehind(x: Suggestion, s: seq<Suggestion>, v: Cents)
    requires s != [] && s[0].amount >= x.amount
    requires WithAmount(Insert(x, s[1..]), v) == WithAmount(s[1..], v) + WithAmount([x], v)
    ensures WithAmount(Insert(x, s), v) == WithAmount(s, v) + WithAmount([x], v)
  {
    var t := Insert(x, s);
    var head := if s[0].amount == v then [s[0]] else [];
    assert t[0] == s[0] && t[1..] == Insert(x, s[1..]);
    assert WithAmount(t, v) == head + (WithAmount(s[1..], v) + WithAmount([x], v));
    assert WithAmount(s, v) == head + WithAmount(s[1..], v);
  }

  /** Inserting ahead of a smaller head: nothing of `x`'s amount follows. */
  lemma InsertStableAhead(x: Suggestion, s: seq<Suggestion>, v: Cents)
    requires SortedDesc(s) && s != [] && s[0].amount < x.amount
    ensures WithAmount(Insert(x, s), v) == WithAmount(s, v) + WithAmount([x], v)
  {
    var t := Insert(x, s);
    assert t[0] == x && t[1..] == s;
    if x.amount == v {
      WithAmountNone(s, v);
    }
  }

  /** Inserting `x` puts it after every element of equal amount. */
  lemma {:induction false} InsertStable(x: Suggestion, s: seq<Suggestion>, v: Cents)
    requires SortedDesc(s)
    ensures WithAmount(Insert(x, s), v) == WithAmount(s, v) + WithAmount([x], v)
  {
    if s == [] {
      assert WithAmount(s, v) == [];
    } else if s[0].amount >= x.amount {
      InsertStable(x, s[1..], v);
      InsertStableBehind(x, s, v);
    } else {
      InsertStableAhead(x, s, v);
    }
  }

  /** The sort orders by descending amount. */
  lemma {:induction false} SortDescSorted(s: seq<Suggestion>)
    ensures SortedDesc(SortDesc(s))
  {
    if s != [] {
      SortDescSorted(s[..|s| - 1]);
      InsertSorted(s[|s| - 1], SortDesc(s[..|s| - 1]));
    }
  }

  /** The sort keeps every suggestion, as often as it occurs. */
  lemma {:induction false} SortDescPermutes(s: seq<Suggestion>)
    ensures multiset(SortDesc(s)) == multiset(s)
  {
    if s != [] {
      var init := s[..|s| - 1];
      SortDescPermutes(init);
      InsertPermutes(s[|s| - 1], SortDesc(init));
      assert s == init + [s[|s| - 1]];
    }
  }

  /** The sort is stable: suggestions of equal amount keep their relative order. */
  lemma {:induction false} SortDescStable(s: seq<Suggestion>, v: Cents)
    ensures WithAmount(SortDesc(s), v) == WithAmount(s, v)
  {
    if s != [] {
      var init := s[..|s| - 1];
      var x := s[|s| - 1];
      SortDescStable(init, v);
      SortDescSorted(init);
      InsertStable(x, SortDesc(init), v);
      assert s == init + [x];
      WithAmountAppend(init, [x], v);
    }
  }

  // ------------------------------------------------------------------ totals

  /** Total amount of a list of suggestions. */
  function Total(s: seq<Suggestion>): int {
    if s == [] then 0 else Total(s[..|s| - 1]) + s[|s| - 1].amount
  }

  lemma {:induction false} TotalAppend(a: seq<Suggestion>, b: seq<Suggestion>)
    ensures Total(a + b) == Total(a) + Total(b)
  {
    if b == [] {
      assert a + b == a;
    } else {
      TotalAppend(a, b[..|b| - 1]);
      assert (a + b)[..|a + b| - 1] == a + b[..|b| - 1];
    }
  }

  /** Inserting adds the inserted amount to the total. */
  lemma {:induction false} TotalInsert(x: Suggestion, s: seq<Suggestion>)
    ensures Total(Insert(x, s)) == Total(s) + x.amount
  {
    assert [x][..0] == [];
    if s == [] {
    } else if s[0].amount >= x.amount {
      assert [s[0]][..0] == [];
      TotalInsert(x, s[1..]);
      TotalAppend([s[0]], Insert(x, s[1..]));
      TotalAppend([s[0]], s[1..]);
      assert [s[0]] + s[1..] == s;
    } else {
      TotalAppend([x], s);
    }
  }

  /** Sorting keeps the total. */
  lemma {:induction false} TotalSortDesc(s: seq<Suggestion>)
    ensures Total(SortDesc(s)) == Total(s)
  {
    if s != [] {
      var init := s[..|s| - 1];
      TotalSortDesc(init);
      TotalInsert(s[|s| - 1], SortDesc(init));
    }
  }

  /** Every key a line owes carries a positive amount. */
  predicate OwesPositive(line: DetailedBalance) {
    forall k :: k in line.owes.keys ==> Amount(line.owes, k) > 0
  }

  /** Over keys with positive amounts, a line suggests one payment per key, for their sum. */
  lemma {:induction false} FromLineTotals(line: DetailedBalance, members: seq<GroupMember>, keys: seq<UserId>)
    requires forall i :: 0 <= i < |keys| ==> Amount(line.owes, keys[i]) > 0
    ensures Total(FromLine(line, members, keys)) == SumOver(line.owes.vals, keys)
    ensures |FromLine(line, members, keys)| == |keys|
  {
    if keys != [] {
      var init := keys[..|keys| - 1];
      var k := keys[|keys| - 1];
      assert forall i :: 0 <= i < |init| ==> init[i] == keys[i];
      FromLineTotals(line, members, init);
      var one := [Suggestion(line.userId, k, Amount(line.owes, k), line.name, NameOf(members, k))];
      assert one[..0] == [];
      TotalAppend(FromLine(line, members, init), one);
    }
  }

  /** Everything the lines owe, in total. */
  function OwesTotal(lines: seq<DetailedBalance>): int {
    if lines == [] then 0 else OwesTotal(lines[..|lines| - 1]) + Sum(lines[|lines| - 1].owes)
  }

  /** How many `owes` entries the lines hold. */
  function OwesCount(lines: seq<DetailedBalance>): nat {
    if lines == [] then 0 else OwesCount(lines[..|lines| - 1]) + |lines[|lines| - 1].owes.keys|
  }

  /** Lines owing only positive amounts are collected into one suggestion per entry, for their total. */
  lemma {:induction false} CollectTotals(lines: seq<DetailedBalance>, members: seq<GroupMember>)
    requires forall i :: 0 <= i < |lines| ==> OwesPositive(lines[i])
    ensures Total(Collect(lines, members)) == OwesTotal(lines)
    ensures |Collect(lines, members)| == OwesCount(lines)
  {
    if lines != [] {
      var init := lines[..|lines| - 1];
      var last := lines[|lines| - 1];
      assert forall i :: 0 <= i < |init| ==> init[i] == lines[i];
      CollectTotals(init, members);
      assert OwesPositive(last);
      FromLineTotals(last, members, last.owes.keys);
      TotalAppend(Collect(init, members), FromLine(last, members, last.owes.keys));
    }
  }

  lemma {:induction false} OwesCountZero(lines: seq<DetailedBalance>)
    ensures OwesCount(lines) == 0 <==> forall i :: 0 <= i < |lines| ==> lines[i].owes.keys == []
  {
    if lines != [] {
      var init := lines[..|lines| - 1];
      OwesCountZero(init);
      assert forall i :: 0 <= i < |init| ==> init[i] == lines[i];
    }
  }

  // ------------------------------------------------------------------- whole

  /** `getSettlementSuggestions(members, expenses, settlements)` */
  function GetSettlementSuggestions(members: seq<GroupMember>, es: seq<GroupExpense>, ss: seq<Settlement>): (r: seq<Suggestion>)
    requires Buildable(members, es, ss)
    ensures SortedDesc(r)
  {
    var c := Collect(GetDetailedBalances(members, es, ss), members);
    SortDescSorted(c);
    SortDesc(c)
  }

  /** What a member with a positive debt is suggested to pay. */
  function Expected(m: Matrix, member: GroupMember, members: seq<GroupMember>, k: UserId): Suggestion {
    Suggestion(member.userId, k, Debt(m, member.userId, k), member.name, NameOf(members, k))
  }

  /** A line describing `member` suggests a payment to `k` exactly when the member has a positive debt to `k`. */
  lemma LineSuggestsFor(m: Matrix, line: DetailedBalance, member: GroupMember, members: seq<GroupMember>, x: Suggestion)
    requires Valid(RowOf(m, member.userId))
    requires line.owes == Owes(m, member.userId)
    requires line.userId == member.userId && line.name == member.name
    ensures x in FromLine(line, members, line.owes.keys) <==>
      Debt(m, member.userId, x.to) > 0 && x == Expected(m, member, members, x.to)
  {
    OwesShape(m, member.userId);
    OwesExact(m, member.userId, x.to);
    FromLineMember(line, members, line.owes.keys, x);
  }

  /** Line `i` suggests a payment to `k` exactly when member `i` has a positive debt to `k`. */
  lemma LineSuggests(members: seq<GroupMember>, es: seq<GroupExpense>, ss: seq<Settlement>, i: nat, x: Suggestion)
    requires Buildable(members, es, ss) && i < |members|
    ensures var line := GetDetailedBalances(members, es, ss)[i];
      var m := Build(members, es, ss);
      x in FromLine(line, members, line.owes.keys) <==>
        Debt(m, members[i].userId, x.to) > 0 && x == Expected(m, members[i], members, x.to)
  {
    LineOwes(members, es, ss, i);
    LineHeader(members, es, ss, i);
    BuildRowValid(members, es, ss, members[i].userId);
    LineSuggestsFor(Build(members, es, ss), GetDetailedBalances(members, es, ss)[i], members[i], members, x);
  }

  /**
   * A suggestion is present exactly when its payer is a member with a positive
   * remaining debt towards its creditor, for that amount, named after the member and
   * the creditor. A repeated member id repeats that member's suggestions.
   */
  lemma SuggestionsComplete(members: seq<GroupMember>, es: seq<GroupExpense>, ss: seq<Settlement>, x: Suggestion)
    requires Buildable(members, es, ss)
    ensures var m := Build(members, es, ss);
      x in GetSettlementSuggestions(members, es, ss) <==>
        exists i :: 0 <= i < |members| && Debt(m, members[i].userId, x.to) > 0 && x == Expected(m, members[i], members, x.to)
  {
    var m := Build(members, es, ss);
    var lines := GetDetailedBalances(members, es, ss);
    SortDescPermutes(Collect(lines, members));
    assert x in GetSettlementSuggestions(members, es, ss) <==> x in Collect(lines, members) by {
      assert x in GetSettlementSuggestions(members, es, ss) <==> x in multiset(GetSettlementSuggestions(members, es, ss));
    }
    CollectMember(lines, members, x);
    forall i | 0 <= i < |members|
      ensures Makes(lines[i], members, x) <==>
        Debt(m, members[i].userId, x.to) > 0 && x == Expected(m, members[i], members, x.to)
    {
      LineSuggests(members, es, ss, i, x);
    }
  }

  /** The suggestions come largest first, and equal amounts keep the order of members and their `owes` keys. */
  lemma SuggestionsOrdered(members: seq<GroupMember>, es: seq<GroupExpense>, ss: seq<Settlement>, v: Cents)
    requires Buildable(members, es, ss)
    ensures var r := GetSettlementSuggestions(members, es, ss);
      forall i, j :: 0 <= i < j < |r| ==> r[i].amount >= r[j].amount
    ensures var c := Collect(GetDetailedBalances(members, es, ss), members);
      WithAmount(GetSettlementSuggestions(members, es, ss), v) == WithAmount(c, v)
  {
    var c := Collect(GetDetailedBalances(members, es, ss), members);
    SortDescSorted(c);
    SortedDescAll(SortDesc(c));
    SortDescStable(c, v);
  }

  /** Every `owes` entry of a line of `getDetailedBalances` is positive. */
  lemma LinePositive(members: seq<GroupMember>, es: seq<GroupExpense>, ss: seq<Settlement>, i: nat)
    requires Buildable(members, es, ss) && i < |members|
    ensures OwesPositive(GetDetailedBalances(members, es, ss)[i])
  {
    var m := Build(members, es, ss);
    var u := members[i].userId;
    LineOwes(members, es, ss, i);
    BuildRowValid(members, es, ss, u);
    OwesShape(m, u);
    forall k | k in Owes(m, u).keys
      ensures Amount(Owes(m, u), k) > 0
    {
      OwesExact(m, u, k);
    }
  }

  /**
   * The suggestions add up to everything the members owe, one suggestion per `owes`
   * entry, so there are none exactly when every `owes` is empty.
   */
  lemma SuggestionsTotal(members: seq<GroupMember>, es: seq<GroupExpense>, ss: seq<Settlement>)
    requires Buildable(members, es, ss)
    ensures var lines := GetDetailedBalances(members, es, ss);
      var r := GetSettlementSuggestions(members, es, ss);
      && Total(r) == OwesTotal(lines)
      && |r| == OwesCount(lines)
      && (r == [] <==> forall i :: 0 <= i < |lines| ==> lines[i].owes.keys == [])
  {
    var lines := GetDetailedBalances(members, es, ss);
    forall i | 0 <= i < |lines|
      ensures OwesPositive(lines[i])
    {
      LinePositive(members, es, ss, i);
    }
    var c := Collect(lines, members);
    CollectTotals(lines, members);
    TotalSortDesc(c);
    SortDescPermutes(c);
    assert |SortDesc(c)| == |multiset(SortDesc(c))| == |multiset(c)| == |c|;
    OwesCountZero(lines);
  }
}
