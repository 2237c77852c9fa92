/** Settling up: the simplifier's suggestions, posted as settlements, clear the group. */
module SettleUp {
  import opened Core
  import opened Int64
  import opened Sorting
  import opened Tables
  import opened Balances
  import opened Ledger
  import opened Simplify

  // ------------------------------------------------------------------- the balance result set

  ghost function Users(rows: seq<NetBalance>): set<Id> {
    set r | r in rows :: r.user
  }

  /** A balance that an int64 holds, and whose negation it holds too. */
  predicate Fits64(net: int) {
    -TWO_63 < net < TWO_63
  }

  /** Past that the balance query fails, or the simplifier's negation wraps. */
  ghost predicate BalancesFit(s: State, group: Id)
    requires group in s.groups
  {
    forall u :: u in s.groups[group].members ==> Fits64(NetForUser(s, group, u))
  }

  /** A possible answer of the balance query: one row per member, largest balance first; the
      order of equal balances is left open. */
  ghost predicate BalanceRows(s: State, group: Id, rows: seq<NetBalance>)
    requires group in s.groups
  {
    RowsFor(s, group, s.groups[group].members, rows) && forall r :: r in rows ==> Fits64(r.net)
  }

  /** One row per user, with the user's balance, largest first. */
  ghost predicate RowsFor(s: State, group: Id, users: set<Id>, rows: seq<NetBalance>) {
    && DistinctRows(rows)
    && Users(rows) == users
    && (forall r :: r in rows ==> r.net == NetForUser(s, group, r.user))
    && forall i, j :: 0 <= i < j < |rows| ==> rows[i].net >= rows[j].net
  }

  lemma {:induction false} NetOfRow(rows: seq<NetBalance>, r: NetBalance)
    requires DistinctRows(rows) && r in rows
    ensures NetOf(rows, r.user) == r.net
  {
    var front, last := rows[..|rows| - 1], rows[|rows| - 1];
    if r == last {
      NetOfAbsent(front, r.user);
    } else {
      assert r in front;
      NetOfRow(front, r);
    }
  }

  lemma RowsGiveNets(s: State, group: Id, rows: seq<NetBalance>, u: Id)
    requires group in s.groups && BalanceRows(s, group, rows)
    ensures NetOf(rows, u) == if u in s.groups[group].members then NetForUser(s, group, u) else 0
  {
    if u in Users(rows) {
      var r :| r in rows && r.user == u;
      NetOfRow(rows, r);
    } else {
      forall i | 0 <= i < |rows| ensures rows[i].user != u {
        assert rows[i] in rows;
      }
      NetOfAbsent(rows, u);
    }
  }

  lemma {:induction false} RowsSum(rows: seq<NetBalance>, users: set<Id>, f: Id -> int)
    requires DistinctRows(rows) && Users(rows) == users
    requires forall r :: r in rows ==> r.net == f(r.user)
    ensures NetSum(rows) == SumSet(users, f)
  {
    if |rows| > 0 {
      var front, last := rows[..|rows| - 1], rows[|rows| - 1];
      assert forall r :: r in front ==> r in rows;
      assert forall r :: r in rows ==> r in front || r == last;
      var rest := Users(front);
      assert last.user !in rest;
      assert users == rest + {last.user};
      RowsSum(front, rest, f);
      SumSetAdd(rest, f, last.user);
    }
  }

  /** Every answer of the query leads to the same suggestion. */
  lemma AnyRowsSameSuggestion(s: State, group: Id, a: seq<NetBalance>, b: seq<NetBalance>)
    requires group in s.groups && BalanceRows(s, group, a) && BalanceRows(s, group, b)
    ensures Simplified(a) == Simplified(b)
  {
    forall r ensures r in a <==> r in b {
      SameRow(s, group, a, b, r);
      SameRow(s, group, b, a, r);
    }
    DistinctSameElements(a, b);
    SimplifiedOrderFree(a, b);
  }

  lemma SameRow(s: State, group: Id, a: seq<NetBalance>, b: seq<NetBalance>, r: NetBalance)
    requires group in s.groups && BalanceRows(s, group, a) && BalanceRows(s, group, b)
    ensures r in a ==> r in b
  {
    if r in a {
      assert r.user in Users(a) && Users(a) == Users(b);
      var x :| x in b && x.user == r.user;
    }
  }

  lemma DistinctSameElements(a: seq<NetBalance>, b: seq<NetBalance>)
    requires DistinctRows(a) && DistinctRows(b) && forall r :: r in a <==> r in b
    ensures multiset(a) == multiset(b)
  {
    forall r: NetBalance ensures multiset(a)[r] == multiset(b)[r] {
      AtMostOnce(a, r);
      AtMostOnce(b, r);
      assert r in a <==> r in multiset(a);
      assert r in b <==> r in multiset(b);
    }
  }

  lemma {:induction false} AtMostOnce(a: seq<NetBalance>, r: NetBalance)
    requires DistinctRows(a)
    ensures multiset(a)[r] <= 1
  {
    if |a| > 0 {
      AtMostOnce(a[..|a| - 1], r);
      assert a == a[..|a| - 1] + [a[|a| - 1]];
      if a[|a| - 1] == r {
        assert r !in a[..|a| - 1];
        assert r !in multiset(a[..|a| - 1]);
      }
    }
  }

  // ------------------------------------------------------------------------ posting transfers

  function SettlementFor(group: Id, t: Transfer, at: int): SettlementInput {
    SettlementInput(group, t.from, t.to, t.amount, "", at)
  }

  /** Each transfer is recorded by the member who pays it. */
  function Post(s: State, group: Id, t: Transfer, id: Id, at: int): Next {
    CreateSettlement(s, t.from, id, SettlementFor(group, t, at))
  }

  function PostAll(s: State, group: Id, ts: seq<Transfer>, ids: seq<Id>, at: int): Next
    requires |ids| == |ts|
    decreases |ts|
  {
    if |ts| == 0 then Ok(s)
    else
      match Post(s, group, ts[0], ids[0], at)
      case Err(e) => Err(e)
      case Ok(next) => PostAll(next, group, ts[1..], ids[1..], at)
  }

  ghost predicate FreshIds(s: State, ids: seq<Id>) {
    && (forall i :: 0 <= i < |ids| ==> ids[i] !in s.settlements)
    && forall i, j :: 0 <= i < j < |ids| ==> ids[i] != ids[j]
  }

  ghost predicate Postable(s: State, group: Id, t: Transfer) {
    t.amount > 0 && t.from != t.to && IsMember(s, group, t.from) && IsMember(s, group, t.to)
  }

  /** What one transfer does to a balance. */
  function Effect(t: Transfer, u: Id): int {
    (if t.from == u then t.amount else 0) - if t.to == u then t.amount else 0
  }

  /** A settlement moves its amount from the payer's debt to the receiver's credit and leaves
      every other balance alone. */
  lemma PostMoves(s: State, group: Id, t: Transfer, id: Id, at: int, u: Id)
    requires Postable(s, group, t) && id !in s.settlements
    ensures Post(s, group, t, id, at).Ok?
    ensures var s' := Post(s, group, t, id, at).value;
      && s'.groups == s.groups && s'.settlements.Keys == s.settlements.Keys + {id}
      && NetForUser(s', group, u) == NetForUser(s, group, u) + Effect(t, u)
  {
    var row := Settlement(group, t.from, t.to, t.amount, "", at, false);
    SumRowsInsert(s.settlements, SettledOut(group, u), id, row);
    SumRowsInsert(s.settlements, SettledIn(group, u), id, row);
  }

  lemma {:induction false} PostAllMoves(s: State, group: Id, ts: seq<Transfer>, ids: seq<Id>, at: int)
    requires |ids| == |ts| && FreshIds(s, ids)
    requires forall t :: t in ts ==> Postable(s, group, t)
    ensures PostAll(s, group, ts, ids, at).Ok?
    ensures PostAll(s, group, ts, ids, at).value.groups == s.groups
    ensures forall u :: NetForUser(PostAll(s, group, ts, ids, at).value, group, u)
                     == NetForUser(s, group, u) + PaidBy(ts, u) - PaidTo(ts, u)
    decreases |ts|
  {
    if |ts| > 0 {
      var t, rest := ts[0], ts[1..];
      assert t in ts;
      PostMoves(s, group, t, ids[0], at, t.from);
      var next := Post(s, group, t, ids[0], at).value;
      forall x | x in rest ensures Postable(next, group, x) {
        assert x in ts;
      }
      PostAllMoves(next, group, rest, ids[1..], at);
      forall u ensures NetForUser(PostAll(s, group, ts, ids, at).value, group, u)
                    == NetForUser(s, group, u) + PaidBy(ts, u) - PaidTo(ts, u)
      {
        PostMoves(s, group, t, ids[0], at, u);
        SumOfFront(ts, (t: Transfer) => if t.from == u then t.amount else 0);
        SumOfFront(ts, (t: Transfer) => if t.to == u then t.amount else 0);
        PaidFront(ts, u);
      }
    }
  }

  lemma PaidFront(ts: seq<Transfer>, u: Id)
    requires |ts| > 0
    ensures PaidBy(ts, u) == (if ts[0].from == u then ts[0].amount else 0) + PaidBy(ts[1..], u)
    ensures PaidTo(ts, u) == (if ts[0].to == u then ts[0].amount else 0) + PaidTo(ts[1..], u)
  {
    SumOfFront(ts, (t: Transfer) => if t.from == u then t.amount else 0);
    SumOfFront(ts, (t: Transfer) => if t.to == u then t.amount else 0);
  }

  lemma SuggestionsPostable(s: State, group: Id, rows: seq<NetBalance>)
    requires group in s.groups && BalanceRows(s, group, rows)
    ensures forall t :: t in Simplified(rows) ==> Postable(s, group, t)
  {
    forall t | t in Simplified(rows) ensures Postable(s, group, t) {
      SimplifiedParties(rows, t);
      RowsGiveNets(s, group, rows, t.from);
      RowsGiveNets(s, group, rows, t.to);
    }
  }

  /** Settle-up, end to end: whatever answer the query gave, if the members' balances sum to
      zero then every suggested transfer is accepted, afterwards every member is at zero, and
      no answer of the query leads to a further suggestion. */
  lemma SettleUpClears(s: State, group: Id, rows: seq<NetBalance>, ids: seq<Id>, at: int)
    requires group in s.groups && BalanceRows(s, group, rows) && MemberSum(s, group) == 0
    requires |ids| == |Simplified(rows)| && FreshIds(s, ids)
    ensures PostAll(s, group, Simplified(rows), ids, at).Ok?
    ensures var s' := PostAll(s, group, Simplified(rows), ids, at).value;
      && s'.groups == s.groups
      && BalancesFit(s', group)
      && (forall u :: u in s.groups[group].members ==> NetForUser(s', group, u) == 0)
      && forall rows' :: BalanceRows(s', group, rows') ==> Simplified(rows') == []
  {
    var ts := Simplified(rows);
    SuggestionsPostable(s, group, rows);
    PostAllMoves(s, group, ts, ids, at);
    var s' := PostAll(s, group, ts, ids, at).value;
    RowsSum(rows, s.groups[group].members, Nets(s, group));
    forall u | u in s.groups[group].members ensures NetForUser(s', group, u) == 0 {
      SimplifiedSettles(rows, u);
      RowsGiveNets(s, group, rows, u);
    }
    forall rows' | BalanceRows(s', group, rows') ensures Simplified(rows') == [] {
      NothingToSuggest(s', group, rows');
    }
  }

  lemma NothingToSuggest(s: State, group: Id, rows: seq<NetBalance>)
    requires group in s.groups && BalanceRows(s, group, rows)
    requires forall u :: u in s.groups[group].members ==> NetForUser(s, group, u) == 0
    ensures Simplified(rows) == []
  {
    if |Simplified(rows)| > 0 {
      var t := Simplified(rows)[0];
      SimplifiedParties(rows, t);
      RowsGiveNets(s, group, rows, t.to);
      assert false;
    }
  }

  // ------------------------------------------------------------------ paying one at a time

  ghost function Unsettled(s: State, group: Id): set<Id>
    requires group in s.groups
  {
    set u | u in s.groups[group].members && NetForUser(s, group, u) != 0
  }

  /** An answer of the balance query exists for every group. */
  lemma {:induction false} RowsExist(s: State, group: Id, users: set<Id>) returns (rows: seq<NetBalance>)
    ensures RowsFor(s, group, users, rows)
    decreases |users|
  {
    if users == {} {
      rows := [];
    } else {
      var least := SmallestNet(users, Nets(s, group));
      var front := RowsExist(s, group, users - {least});
      ExtendRows(s, group, users, front, least);
      rows := front + [NetBalance(least, NetForUser(s, group, least))];
    }
  }

  lemma ExtendRows(s: State, group: Id, users: set<Id>, front: seq<NetBalance>, least: Id)
    requires least in users && RowsFor(s, group, users - {least}, front)
    requires forall u :: u in users ==> NetForUser(s, group, least) <= NetForUser(s, group, u)
    ensures RowsFor(s, group, users, front + [NetBalance(least, NetForUser(s, group, least))])
  {
    var last := NetBalance(least, NetForUser(s, group, least));
    forall i | 0 <= i < |front| ensures front[i].user in users - {least} && front[i].net >= last.net {
      assert front[i] in front && front[i].user in Users(front);
    }
    var rows := front + [last];
    assert forall r :: r in rows <==> r in front || r == last;
    forall u ensures u in Users(rows) <==> u in users {
      if u in users && u != least {
        assert u in Users(front);
        var r :| r in front && r.user == u;
        assert r in rows;
      }
      if u == least {
        assert last in rows;
      }
    }
  }

  lemma {:induction false} SmallestNet(users: set<Id>, f: Id -> int) returns (least: Id)
    requires users != {}
    ensures least in users && forall u :: u in users ==> f(least) <= f(u)
    decreases |users|
  {
    least :| least in users;
    if users != {least} {
      assert users - {least} != {};
      var other := SmallestNet(users - {least}, f);
      if f(other) < f(least) {
        least := other;
      }
    }
  }

  lemma RowsAnswer(s: State, group: Id) returns (rows: seq<NetBalance>)
    requires group in s.groups && BalancesFit(s, group)
    ensures BalanceRows(s, group, rows)
  {
    rows := RowsExist(s, group, s.groups[group].members);
    forall r | r in rows ensures Fits64(r.net) {
      assert r.user in Users(rows);
    }
  }

  /** The query answers if and only if every member's balance fits. */
  lemma AnswersExactly(s: State, group: Id)
    requires group in s.groups
    ensures (exists rows :: BalanceRows(s, group, rows)) <==> BalancesFit(s, group)
  {
    if BalancesFit(s, group) {
      var rows := RowsAnswer(s, group);
    }
    if exists rows :: BalanceRows(s, group, rows) {
      var rows :| BalanceRows(s, group, rows);
      RowsFit(s, group, rows);
    }
  }

  lemma RowsFit(s: State, group: Id, rows: seq<NetBalance>)
    requires group in s.groups && BalanceRows(s, group, rows)
    ensures BalancesFit(s, group)
  {
    forall u | u in s.groups[group].members ensures Fits64(NetForUser(s, group, u)) {
      assert u in Users(rows);
      var r :| r in rows && r.user == u;
    }
  }

  /** Some answer of the query; the suggestion does not depend on which. */
  ghost function Suggestion(s: State, group: Id): seq<Transfer>
    requires group in s.groups && BalancesFit(s, group)
  {
    var rows := RowsAnswerOf(s, group);
    Simplified(rows)
  }

  ghost function RowsAnswerOf(s: State, group: Id): (rows: seq<NetBalance>)
    requires group in s.groups && BalancesFit(s, group)
    ensures BalanceRows(s, group, rows)
  {
    assert exists rows :: BalanceRows(s, group, rows) by {
      var rows := RowsAnswer(s, group);
    }
    var rows :| BalanceRows(s, group, rows);
    rows
  }

  /** Post the first suggested transfer, look at the balances again, and so on. Returns the
      state where nothing is suggested any more and the number of payments it took. */
  ghost function PayOneByOne(s: State, group: Id, ids: seq<Id>, at: int): (State, nat)
    requires group in s.groups && BalancesFit(s, group)
    decreases |ids|
  {
    if |ids| == 0 || |Suggestion(s, group)| == 0 then (s, 0)
    else
      match Post(s, group, Suggestion(s, group)[0], ids[0], at)
      case Err(_) => (s, 0)
      case Ok(next) =>
        if group !in next.groups || !BalancesFit(next, group) then (s, 0)
        else
          var (end, n) := PayOneByOne(next, group, ids[1..], at);
          (end, n + 1)
  }

  /** The first suggestion is the whole of what one of its two parties owes or is owed. */
  lemma FirstSuggestionZeroes(rows: seq<NetBalance>)
    requires DistinctRows(rows) && |Simplified(rows)| > 0
    ensures var t := Simplified(rows)[0];
      && NetOf(rows, t.to) >= t.amount && -NetOf(rows, t.from) >= t.amount
      && (NetOf(rows, t.to) == t.amount || -NetOf(rows, t.from) == t.amount)
  {
    var cs, ds := SortedCreditors(rows), SortedDebtors(rows);
    SidesReady(rows);
    PairStep(cs, ds);
    AmountForAt(cs, 0);
    AmountForAt(ds, 0);
  }

  lemma PostedState(s: State, group: Id, t: Transfer, id: Id, at: int) returns (s': State)
    requires Postable(s, group, t) && id !in s.settlements
    ensures Post(s, group, t, id, at) == Ok(s')
    ensures s'.groups == s.groups && s'.settlements.Keys == s.settlements.Keys + {id}
    ensures forall u :: NetForUser(s', group, u) == NetForUser(s, group, u) + Effect(t, u)
  {
    PostMoves(s, group, t, id, at, t.from);
    s' := Post(s, group, t, id, at).value;
    forall u ensures NetForUser(s', group, u) == NetForUser(s, group, u) + Effect(t, u) {
      PostMoves(s, group, t, id, at, u);
    }
  }

  /** One payment settles somebody, unsettles nobody and keeps the balances in range. */
  lemma PaymentProgress(s: State, group: Id, id: Id, at: int)
    requires group in s.groups && BalancesFit(s, group) && |Suggestion(s, group)| > 0 && id !in s.settlements
    requires MemberSum(s, group) == 0
    ensures var t := Suggestion(s, group)[0];
      && Post(s, group, t, id, at).Ok?
      && var s' := Post(s, group, t, id, at).value;
         && s'.groups == s.groups && s'.settlements.Keys == s.settlements.Keys + {id}
         && MemberSum(s', group) == 0 && BalancesFit(s', group)
         && Unsettled(s', group) < Unsettled(s, group)
  {
    var rows := RowsAnswerOf(s, group);
    var t := Suggestion(s, group)[0];
    assert t in Simplified(rows);
    SuggestionsPostable(s, group, rows);
    FirstSuggestionZeroes(rows);
    RowsGiveNets(s, group, rows, t.from);
    RowsGiveNets(s, group, rows, t.to);
    var s' := PostedState(s, group, t, id, at);
    MemberSumAfterPost(s, s', group, t);
    FewerUnsettled(s, s', group, t);
    StillFit(s, s', group, t);
  }

  /** A payment within what both parties have moves both balances towards zero. */
  lemma StillFit(s: State, s': State, group: Id, t: Transfer)
    requires group in s.groups && s'.groups == s.groups && BalancesFit(s, group) && Postable(s, group, t)
    requires forall u :: NetForUser(s', group, u) == NetForUser(s, group, u) + Effect(t, u)
    requires NetForUser(s, group, t.to) >= t.amount && -NetForUser(s, group, t.from) >= t.amount
    ensures BalancesFit(s', group)
  {
    forall u | u in s.groups[group].members ensures Fits64(NetForUser(s', group, u)) {
      assert Fits64(NetForUser(s, group, u));
    }
  }

  lemma FewerUnsettled(s: State, s': State, group: Id, t: Transfer)
    requires group in s.groups && s'.groups == s.groups && Postable(s, group, t)
    requires forall u :: NetForUser(s', group, u) == NetForUser(s, group, u) + Effect(t, u)
    requires NetForUser(s, group, t.from) < 0 < NetForUser(s, group, t.to)
    requires NetForUser(s', group, t.from) == 0 || NetForUser(s', group, t.to) == 0
    ensures Unsettled(s', group) < Unsettled(s, group)
  {
    assert t.from in Unsettled(s, group) && t.to in Unsettled(s, group);
    assert t.from !in Unsettled(s', group) || t.to !in Unsettled(s', group);
  }

  lemma MemberSumAfterPost(s: State, s': State, group: Id, t: Transfer)
    requires group in s.groups && s'.groups == s.groups && Postable(s, group, t)
    requires forall u :: NetForUser(s', group, u) == NetForUser(s, group, u) + Effect(t, u)
    ensures MemberSum(s', group) == MemberSum(s, group)
  {
    var members := s.groups[group].members;
    var shift := (u: Id) => Effect(t, u);
    SumOnlyAt(members, t.from, t.amount);
    SumOnlyAt(members, t.to, t.amount);
    SumSetPlus(members, shift, OnlyAt(t.to, t.amount), OnlyAt(t.from, t.amount));
    SumSetPlus(members, Nets(s, group), shift, Nets(s', group));
  }

  /** With balances that sum to zero, one unsettled member means at least one more. */
  lemma NeverOneUnsettled(s: State, group: Id)
    requires group in s.groups && BalancesFit(s, group) && MemberSum(s, group) == 0
    ensures |Unsettled(s, group)| != 1
    ensures |Suggestion(s, group)| == 0 <==> Unsettled(s, group) == {}
  {
    var rows := RowsAnswerOf(s, group);
    assert forall u :: u in s.groups[group].members && u !in Unsettled(s, group) ==> NetForUser(s, group, u) == 0;
    NotExactlyOne(s, group);
    if Unsettled(s, group) == {} {
      NothingToSuggest(s, group, rows);
    } else if |Suggestion(s, group)| == 0 {
      var u :| u in Unsettled(s, group);
      RowsSum(rows, s.groups[group].members, Nets(s, group));
      SimplifiedSettles(rows, u);
      RowsGiveNets(s, group, rows, u);
      assert false;
    }
  }

  lemma NotExactlyOne(s: State, group: Id)
    requires group in s.groups && MemberSum(s, group) == 0
    ensures |Unsettled(s, group)| != 1
  {
    var members, nets := s.groups[group].members, Nets(s, group);
    if |Unsettled(s, group)| == 1 {
      var u :| u in Unsettled(s, group);
      OnlyOne(Unsettled(s, group), u);
      SumSetRemove(members, nets, u);
      SumSetZero(members - {u}, nets);
      assert false;
    }
  }

  lemma OnlyOne(us: set<Id>, u: Id)
    requires |us| == 1 && u in us
    ensures us == {u}
  {
    assert |us - {u}| == 0;
  }

  /** Paying only the first suggestion and looking again clears the group too, in fewer
      payments than there are unsettled members. */
  lemma {:induction false} PayOneByOneClears(s: State, group: Id, ids: seq<Id>, at: int)
    requires group in s.groups && BalancesFit(s, group) && MemberSum(s, group) == 0
    requires FreshIds(s, ids) && |ids| >= |Unsettled(s, group)|
    ensures var (end, n) := PayOneByOne(s, group, ids, at);
      && group in end.groups && BalancesFit(end, group) && Unsettled(end, group) == {}
      && n <= if Unsettled(s, group) == {} then 0 else |Unsettled(s, group)| - 1
    decreases |ids|
  {
    NeverOneUnsettled(s, group);
    if |Suggestion(s, group)| > 0 {
      PaymentProgress(s, group, ids[0], at);
      var next := Post(s, group, Suggestion(s, group)[0], ids[0], at).value;
      ProperSubsetSmaller(Unsettled(next, group), Unsettled(s, group));
      FreshRest(s, next, ids);
      PayOneByOneClears(next, group, ids[1..], at);
    }
  }

  lemma FreshRest(s: State, next: State, ids: seq<Id>)
    requires |ids| > 0 && FreshIds(s, ids) && next.settlements.Keys == s.settlements.Keys + {ids[0]}
    ensures FreshIds(next, ids[1..])
  {
  }

  lemma ProperSubsetSmaller(a: set<Id>, b: set<Id>)
    requires a < b
    ensures |a| < |b|
  {
    assert b == a + (b - a);
    assert |b| == |a| + |b - a|;
    assert b - a != {};
  }
}
