/** The two balance queries, that they agree, and that balances cancel out. */
module Balances {
  import opened Core
  import opened Splits
  import opened Expenses
  import opened Tables

  // ------------------------------------------------------------------- one user's balance

  /** The cents a user owes in one expense. */
  function ShareOf(rows: seq<Split>, user: Id): int {
    if |rows| == 0 then 0
    else
      var last := rows[|rows| - 1];
      ShareOf(rows[..|rows| - 1], user) + if last.user == user then last.cents else 0
  }

  function Paid(group: Id, user: Id): Expense -> int {
    (e: Expense) => if LiveExpense(e, group) && e.payer == user then e.amount else 0
  }

  function Owed(group: Id, user: Id): Expense -> int {
    (e: Expense) => if LiveExpense(e, group) then ShareOf(e.splits, user) else 0
  }

  function SettledOut(group: Id, user: Id): Settlement -> int {
    (t: Settlement) => if LiveSettlement(t, group) && t.from == user then t.amount else 0
  }

  function SettledIn(group: Id, user: Id): Settlement -> int {
    (t: Settlement) => if LiveSettlement(t, group) && t.to == user then t.amount else 0
  }

  /** NetForUser: four scalar sums, whatever the user's membership. */
  ghost function NetForUser(s: State, group: Id, user: Id): int {
    SumRows(s.expenses, Paid(group, user)) - SumRows(s.expenses, Owed(group, user))
    + SumRows(s.settlements, SettledOut(group, user)) - SumRows(s.settlements, SettledIn(group, user))
  }

  // ------------------------------------------------------------------- the grouped query

  datatype Bucket = Bucket(key: Id, value: int)

  function Coalesce(m: map<Id, int>, key: Id): int {
    if key in m then m[key] else 0
  }

  function AddBuckets(m: map<Id, int>, bs: seq<Bucket>): map<Id, int> {
    if |bs| == 0 then m
    else
      var last, rest := bs[|bs| - 1], AddBuckets(m, bs[..|bs| - 1]);
      rest[last.key := Coalesce(rest, last.key) + last.value]
  }

  /** SELECT key, SUM(value) ... GROUP BY key, where each table row yields some buckets. */
  ghost function GroupBy<V(!new)>(t: map<Id, V>, f: V -> seq<Bucket>): map<Id, int> {
    if t == map[] then map[]
    else
      var k :| k in t;
      AddBuckets(GroupBy(t - {k}, f), f(t[k]))
  }

  function PaidBuckets(group: Id): Expense -> seq<Bucket> {
    (e: Expense) => if LiveExpense(e, group) then [Bucket(e.payer, e.amount)] else []
  }

  function SplitBuckets(rows: seq<Split>): (r: seq<Bucket>)
    ensures |r| == |rows|
  {
    seq(|rows|, i requires 0 <= i < |rows| => Bucket(rows[i].user, rows[i].cents))
  }

  function OwedBuckets(group: Id): Expense -> seq<Bucket> {
    (e: Expense) => if LiveExpense(e, group) then SplitBuckets(e.splits) else []
  }

  function OutBuckets(group: Id): Settlement -> seq<Bucket> {
    (t: Settlement) => if LiveSettlement(t, group) then [Bucket(t.from, t.amount)] else []
  }

  function InBuckets(group: Id): Settlement -> seq<Bucket> {
    (t: Settlement) => if LiveSettlement(t, group) then [Bucket(t.to, t.amount)] else []
  }

  /** NetBalances: four grouped aggregates, left-joined onto the membership rows. */
  ghost function NetBalances(s: State, group: Id): map<Id, int>
    requires group in s.groups
  {
    var paid := GroupBy(s.expenses, PaidBuckets(group));
    var owed := GroupBy(s.expenses, OwedBuckets(group));
    var out := GroupBy(s.settlements, OutBuckets(group));
    var received := GroupBy(s.settlements, InBuckets(group));
    map u | u in s.groups[group].members ::
      Coalesce(paid, u) - Coalesce(owed, u) + Coalesce(out, u) - Coalesce(received, u)
  }

  function BucketSum(bs: seq<Bucket>, key: Id): int {
    if |bs| == 0 then 0
    else
      var last := bs[|bs| - 1];
      BucketSum(bs[..|bs| - 1], key) + if last.key == key then last.value else 0
  }

  lemma {:induction false} AddBucketsSum(m: map<Id, int>, bs: seq<Bucket>, key: Id)
    ensures Coalesce(AddBuckets(m, bs), key) == Coalesce(m, key) + BucketSum(bs, key)
  {
    if |bs| > 0 {
      AddBucketsSum(m, bs[..|bs| - 1], key);
    }
  }

  /** A group's total is the filtered scalar sum, also for a key no row produced. */
  lemma {:induction false} GroupBySum<V(!new)>(t: map<Id, V>, f: V -> seq<Bucket>, g: V -> int, key: Id)
    requires forall k :: k in t ==> BucketSum(f(t[k]), key) == g(t[k])
    ensures Coalesce(GroupBy(t, f), key) == SumRows(t, g)
    decreases |t|
  {
    if t != map[] {
      var k :| k in t && GroupBy(t, f) == AddBuckets(GroupBy(t - {k}, f), f(t[k]));
      GroupBySum(t - {k}, f, g, key);
      AddBucketsSum(GroupBy(t - {k}, f), f(t[k]), key);
      SumRowsRemove(t, g, k);
    }
  }

  lemma {:induction false} SplitBucketsSum(rows: seq<Split>, key: Id)
    ensures BucketSum(SplitBuckets(rows), key) == ShareOf(rows, key)
  {
    if |rows| > 0 {
      SplitBucketsSum(rows[..|rows| - 1], key);
      assert SplitBuckets(rows)[..|rows| - 1] == SplitBuckets(rows[..|rows| - 1]);
    }
  }

  lemma BucketSumOfOne(b: Bucket, key: Id)
    ensures BucketSum([b], key) == if b.key == key then b.value else 0
  {
    assert [b][..0] == [];
  }

  /** The one-pass query gives every member exactly their own balance, on every ledger. */
  lemma GroupedEqualsPerUser(s: State, group: Id)
    requires group in s.groups
    ensures NetBalances(s, group).Keys == s.groups[group].members
    ensures forall u :: u in s.groups[group].members ==> NetBalances(s, group)[u] == NetForUser(s, group, u)
  {
    forall u | u in s.groups[group].members
      ensures NetBalances(s, group)[u] == NetForUser(s, group, u)
    {
      forall k | k in s.expenses
        ensures BucketSum(PaidBuckets(group)(s.expenses[k]), u) == Paid(group, u)(s.expenses[k])
        ensures BucketSum(OwedBuckets(group)(s.expenses[k]), u) == Owed(group, u)(s.expenses[k])
      {
        BucketSumOfOne(Bucket(s.expenses[k].payer, s.expenses[k].amount), u);
        SplitBucketsSum(s.expenses[k].splits, u);
      }
      forall k | k in s.settlements
        ensures BucketSum(OutBuckets(group)(s.settlements[k]), u) == SettledOut(group, u)(s.settlements[k])
        ensures BucketSum(InBuckets(group)(s.settlements[k]), u) == SettledIn(group, u)(s.settlements[k])
      {
        BucketSumOfOne(Bucket(s.settlements[k].from, s.settlements[k].amount), u);
        BucketSumOfOne(Bucket(s.settlements[k].to, s.settlements[k].amount), u);
      }
      GroupBySum(s.expenses, PaidBuckets(group), Paid(group, u), u);
      GroupBySum(s.expenses, OwedBuckets(group), Owed(group, u), u);
      GroupBySum(s.settlements, OutBuckets(group), SettledOut(group, u), u);
      GroupBySum(s.settlements, InBuckets(group), SettledIn(group, u), u);
    }
  }

  // --------------------------------------------------------------------------- conservation

  /** Everyone who ever appears in the group's live rows is in `people`. */
  ghost predicate Covers(people: set<Id>, s: State, group: Id) {
    && (forall id :: id in s.expenses && LiveExpense(s.expenses[id], group) ==>
          && s.expenses[id].payer in people
          && forall i :: 0 <= i < |s.expenses[id].splits| ==> s.expenses[id].splits[i].user in people)
    && (forall id :: id in s.settlements && LiveSettlement(s.settlements[id], group) ==>
          s.settlements[id].from in people && s.settlements[id].to in people)
  }

  /** Every live expense of the group splits its whole amount. */
  ghost predicate Balanced(s: State, group: Id) {
    forall id :: id in s.expenses && LiveExpense(s.expenses[id], group) ==>
      Sum(Cents(s.expenses[id].splits)) == s.expenses[id].amount
  }

  ghost function Nets(s: State, group: Id): Id -> int {
    (u: Id) => NetForUser(s, group, u)
  }

  function PaidOf(group: Id): Id -> Expense -> int {
    (u: Id) => Paid(group, u)
  }

  function OwedOf(group: Id): Id -> Expense -> int {
    (u: Id) => Owed(group, u)
  }

  function OutOf(group: Id): Id -> Settlement -> int {
    (u: Id) => SettledOut(group, u)
  }

  function InOf(group: Id): Id -> Settlement -> int {
    (u: Id) => SettledIn(group, u)
  }

  function ExpenseAmount(group: Id): Expense -> int {
    (e: Expense) => if LiveExpense(e, group) then e.amount else 0
  }

  function SettlementAmount(group: Id): Settlement -> int {
    (t: Settlement) => if LiveSettlement(t, group) then t.amount else 0
  }

  function Shares(rows: seq<Split>): Id -> int {
    (u: Id) => ShareOf(rows, u)
  }

  lemma {:induction false} SumShares(people: set<Id>, rows: seq<Split>)
    requires forall i :: 0 <= i < |rows| ==> rows[i].user in people
    ensures SumSet(people, Shares(rows)) == Sum(Cents(rows))
  {
    if |rows| == 0 {
      SumSetZero(people, Shares(rows));
    } else {
      var front, last := rows[..|rows| - 1], rows[|rows| - 1];
      SumShares(people, front);
      SumOnlyAt(people, last.user, last.cents);
      SumSetPlus(people, Shares(front), OnlyAt(last.user, last.cents), Shares(rows));
      assert Cents(rows)[..|rows| - 1] == Cents(front);
    }
  }

  /** One expense credits its amount to its payer and debits the same amount in shares. */
  lemma ExpenseAcross(people: set<Id>, e: Expense, group: Id)
    requires LiveExpense(e, group) ==>
      && e.payer in people
      && (forall i :: 0 <= i < |e.splits| ==> e.splits[i].user in people)
      && Sum(Cents(e.splits)) == e.amount
    ensures SumSet(people, AcrossKeys(PaidOf(group), e)) == ExpenseAmount(group)(e)
    ensures SumSet(people, AcrossKeys(OwedOf(group), e)) == ExpenseAmount(group)(e)
  {
    if LiveExpense(e, group) {
      SumOnlyAt(people, e.payer, e.amount);
      SumSetSame(people, AcrossKeys(PaidOf(group), e), OnlyAt(e.payer, e.amount));
      SumShares(people, e.splits);
      SumSetSame(people, AcrossKeys(OwedOf(group), e), Shares(e.splits));
    } else {
      SumSetZero(people, AcrossKeys(PaidOf(group), e));
      SumSetZero(people, AcrossKeys(OwedOf(group), e));
    }
  }

  lemma SettlementAcross(people: set<Id>, t: Settlement, group: Id)
    requires LiveSettlement(t, group) ==> t.from in people && t.to in people
    ensures SumSet(people, AcrossKeys(OutOf(group), t)) == SettlementAmount(group)(t)
    ensures SumSet(people, AcrossKeys(InOf(group), t)) == SettlementAmount(group)(t)
  {
    if LiveSettlement(t, group) {
      SumOnlyAt(people, t.from, t.amount);
      SumSetSame(people, AcrossKeys(OutOf(group), t), OnlyAt(t.from, t.amount));
      SumOnlyAt(people, t.to, t.amount);
      SumSetSame(people, AcrossKeys(InOf(group), t), OnlyAt(t.to, t.amount));
    } else {
      SumSetZero(people, AcrossKeys(OutOf(group), t));
      SumSetZero(people, AcrossKeys(InOf(group), t));
    }
  }

  /** Whatever is owed to someone is owed by someone: over everybody involved, balances cancel. */
  lemma BalancesCancel(people: set<Id>, s: State, group: Id)
    requires Covers(people, s, group) && Balanced(s, group)
    ensures SumSet(people, Nets(s, group)) == 0
  {
    forall id | id in s.expenses
      ensures SumSet(people, AcrossKeys(PaidOf(group), s.expenses[id])) == ExpenseAmount(group)(s.expenses[id])
      ensures SumSet(people, AcrossKeys(OwedOf(group), s.expenses[id])) == ExpenseAmount(group)(s.expenses[id])
    {
      ExpenseAcross(people, s.expenses[id], group);
    }
    forall id | id in s.settlements
      ensures SumSet(people, AcrossKeys(OutOf(group), s.settlements[id])) == SettlementAmount(group)(s.settlements[id])
      ensures SumSet(people, AcrossKeys(InOf(group), s.settlements[id])) == SettlementAmount(group)(s.settlements[id])
    {
      SettlementAcross(people, s.settlements[id], group);
    }
    ExchangeSums(people, s.expenses, PaidOf(group), ExpenseAmount(group));
    ExchangeSums(people, s.expenses, OwedOf(group), ExpenseAmount(group));
    ExchangeSums(people, s.settlements, OutOf(group), SettlementAmount(group));
    ExchangeSums(people, s.settlements, InOf(group), SettlementAmount(group));
    NetsSum(people, s, group);
  }

  lemma NetsSum(people: set<Id>, s: State, group: Id)
    ensures SumSet(people, Nets(s, group))
         == SumSet(people, RowTotals(s.expenses, PaidOf(group))) - SumSet(people, RowTotals(s.expenses, OwedOf(group)))
          + SumSet(people, RowTotals(s.settlements, OutOf(group))) - SumSet(people, RowTotals(s.settlements, InOf(group)))
  {
    var p, o := RowTotals(s.expenses, PaidOf(group)), RowTotals(s.expenses, OwedOf(group));
    var out, received := RowTotals(s.settlements, OutOf(group)), RowTotals(s.settlements, InOf(group));
    var spent := (u: Id) => p(u) + out(u);
    var got := (u: Id) => o(u) + received(u);
    SumSetPlus(people, p, out, spent);
    SumSetPlus(people, o, received, got);
    SumSetPlus(people, Nets(s, group), got, spent);
  }

  ghost function MemberSum(s: State, group: Id): int
    requires group in s.groups
  {
    SumSet(s.groups[group].members, Nets(s, group))
  }

  /** Everyone a group's rows or memberships mention. */
  ghost function Everyone(s: State, group: Id): (people: set<Id>)
    requires group in s.groups
    ensures Covers(people, s, group) && s.groups[group].members <= people
  {
    s.groups[group].members
    + (set id | id in s.expenses :: s.expenses[id].payer)
    + (set id, i | id in s.expenses && 0 <= i < |s.expenses[id].splits| :: s.expenses[id].splits[i].user)
    + (set id | id in s.settlements :: s.settlements[id].from)
    + (set id | id in s.settlements :: s.settlements[id].to)
  }

  /** The members' balances add up to what the departed left behind, with the sign turned. */
  lemma MembersCarryTheDeparted(s: State, group: Id)
    requires group in s.groups && Balanced(s, group)
    ensures MemberSum(s, group)
         == -SumSet(Everyone(s, group) - s.groups[group].members, Nets(s, group))
  {
    var people, members := Everyone(s, group), s.groups[group].members;
    BalancesCancel(people, s, group);
    SumSetUnion(members, people - members, Nets(s, group));
    assert members + (people - members) == people;
  }
}
