/** How few transfers can settle a set of balances, and when the greedy suggestion is that short. */
module Minimal {
  import opened Core
  import opened Sorting
  import opened Simplify

  /** After these transfers nobody is owed anything and nobody owes. */
  ghost predicate Settles(nets: seq<NetBalance>, ts: seq<Transfer>) {
    forall u :: NetOf(nets, u) + PaidBy(ts, u) - PaidTo(ts, u) == 0
  }

  function Unsettled(nets: seq<NetBalance>): set<Id> {
    set n | n in nets && n.net != 0 :: n.user
  }

  function NetFn(nets: seq<NetBalance>): Id -> int {
    (u: Id) => NetOf(nets, u)
  }

  function Image(mark: map<Id, Id>): set<Id> {
    set u | u in mark :: mark[u]
  }

  function Block(mark: map<Id, Id>, c: Id): set<Id> {
    set u | u in mark && mark[u] == c
  }

  /** A division of the people with a balance into groups that can settle among themselves. */
  ghost predicate Division(nets: seq<NetBalance>, mark: map<Id, Id>) {
    && mark.Keys == Unsettled(nets)
    && forall c :: c in Image(mark) ==> SumSet(Block(mark, c), NetFn(nets)) == 0
  }

  // -------------------------------------------------------------------- the lower bound

  function Parties(ts: seq<Transfer>): set<Id> {
    (set t | t in ts :: t.from) + (set t | t in ts :: t.to)
  }

  /** Joining the two ends of each transfer leaves at least people - transfers components. */
  lemma {:induction false} Components(ts: seq<Transfer>, people: set<Id>) returns (rep: map<Id, Id>)
    requires forall t :: t in ts ==> t.from in people && t.to in people
    ensures rep.Keys == people && forall t :: t in ts ==> rep[t.from] == rep[t.to]
    ensures |Image(rep)| + |ts| >= |people|
  {
    if |ts| == 0 {
      rep := map u | u in people :: u;
      forall u | u in people ensures u in Image(rep) {
        assert rep[u] == u;
      }
      assert Image(rep) == people;
    } else {
      var front, t := ts[..|ts| - 1], ts[|ts| - 1];
      var before := Components(front, people);
      var a, b := before[t.from], before[t.to];
      rep := map u | u in people :: if before[u] == a then b else before[u];
      forall c | c in Image(before) - {a} ensures c in Image(rep) {
        var u :| u in before && before[u] == c;
        assert rep[u] == c;
      }
      SubsetSize(Image(before) - {a}, Image(rep));
    }
  }

  function PaidToFn(ts: seq<Transfer>): Id -> int {
    (u: Id) => PaidTo(ts, u)
  }

  function PaidByFn(ts: seq<Transfer>): Id -> int {
    (u: Id) => PaidBy(ts, u)
  }

  lemma SumSetAt(people: set<Id>, user: Id, x: int)
    ensures SumSet(people, OnlyAt(user, x)) == if user in people then x else 0
  {
    if user in people {
      SumOnlyAt(people, user, x);
    } else {
      SumSetZero(people, OnlyAt(user, x));
    }
  }

  /** A set of people that no transfer leaves or enters receives what it pays. */
  lemma {:induction false} ClosedSet(ts: seq<Transfer>, people: set<Id>)
    requires forall t :: t in ts ==> (t.from in people <==> t.to in people)
    ensures SumSet(people, PaidToFn(ts)) == SumSet(people, PaidByFn(ts))
  {
    if |ts| == 0 {
      SumSetZero(people, PaidToFn(ts));
      SumSetZero(people, PaidByFn(ts));
    } else {
      var front, t := ts[..|ts| - 1], ts[|ts| - 1];
      ClosedSet(front, people);
      SumSetAt(people, t.to, t.amount);
      SumSetAt(people, t.from, t.amount);
      SumSetPlus(people, PaidToFn(front), OnlyAt(t.to, t.amount), PaidToFn(ts));
      SumSetPlus(people, PaidByFn(front), OnlyAt(t.from, t.amount), PaidByFn(ts));
      assert t in ts;
    }
  }

  lemma ComponentIsZero(nets: seq<NetBalance>, ts: seq<Transfer>, rep: map<Id, Id>, c: Id)
    requires Settles(nets, ts) && Parties(ts) <= rep.Keys && forall t :: t in ts ==> rep[t.from] == rep[t.to]
    ensures SumSet(Block(rep, c), NetFn(nets)) == 0
  {
    ClosedSet(ts, Block(rep, c));
    SumSetPlus(Block(rep, c), NetFn(nets), PaidByFn(ts), PaidToFn(ts));
  }

  lemma {:induction false} NetOfSettled(nets: seq<NetBalance>, u: Id)
    requires u !in Unsettled(nets)
    ensures NetOf(nets, u) == 0
  {
    if |nets| > 0 {
      var front, last := nets[..|nets| - 1], nets[|nets| - 1];
      assert forall n :: n in front ==> n in nets;
      assert last in nets;
      NetOfSettled(front, u);
    }
  }

  function Restricted(rep: map<Id, Id>, people: set<Id>): map<Id, Id> {
    map u | u in rep && u in people :: rep[u]
  }

  /** People without a balance can be left out of a component. */
  lemma RestrictedIsZero(nets: seq<NetBalance>, rep: map<Id, Id>, c: Id)
    requires SumSet(Block(rep, c), NetFn(nets)) == 0
    ensures SumSet(Block(Restricted(rep, Unsettled(nets)), c), NetFn(nets)) == 0
  {
    var kept, gone := Block(Restricted(rep, Unsettled(nets)), c), Block(rep, c) - Unsettled(nets);
    assert Block(rep, c) == kept + gone;
    SumSetUnion(kept, gone, NetFn(nets));
    forall u | u in gone ensures NetOf(nets, u) == 0 {
      NetOfSettled(nets, u);
    }
    SumSetZero(gone, NetFn(nets));
  }

  lemma {:induction false} ImageSize(rep: map<Id, Id>, people: set<Id>)
    requires people <= rep.Keys
    ensures |set u | u in people :: rep[u]| <= |people|
    decreases |people|
  {
    if people != {} {
      var p :| p in people;
      ImageSize(rep, people - {p});
      assert (set u | u in people :: rep[u]) == (set u | u in people - {p} :: rep[u]) + {rep[p]};
    }
  }

  lemma RestrictedSize(rep: map<Id, Id>, people: set<Id>)
    requires people <= rep.Keys
    ensures |Image(rep)| - |people| <= |Image(Restricted(rep, rep.Keys - people))|
  {
    ImageSize(rep, people);
    var kept, gone := Image(Restricted(rep, rep.Keys - people)), set u | u in people :: rep[u];
    forall c | c in Image(rep) ensures c in kept + gone {
      var u :| u in rep && rep[u] == c;
      if u !in people {
        assert Restricted(rep, rep.Keys - people)[u] == c;
      }
    }
    SubsetSize(Image(rep), kept + gone);
  }

  /** Whatever transfers settle the balances, they divide the people who had one into groups that
      settle among themselves, and there are at least as many transfers as people less groups. */
  lemma SettlingNeeds(nets: seq<NetBalance>, ts: seq<Transfer>) returns (mark: map<Id, Id>)
    requires Settles(nets, ts)
    ensures Division(nets, mark) && |ts| >= |Unsettled(nets)| - |Image(mark)|
  {
    var people := Unsettled(nets) + Parties(ts);
    var rep := Components(ts, people);
    mark := Restricted(rep, Unsettled(nets));
    forall c | c in Image(mark) ensures SumSet(Block(mark, c), NetFn(nets)) == 0 {
      ComponentIsZero(nets, ts, rep, c);
      RestrictedIsZero(nets, rep, c);
    }
    var others := people - Unsettled(nets);
    RestrictedSize(rep, others);
    assert Restricted(rep, rep.Keys - others) == mark;
    assert people == Unsettled(nets) + others;
  }

  // ---------------------------------------------------------------- the bound is reached

  /** The rows of one group. */
  function RowsOf(nets: seq<NetBalance>, people: set<Id>): seq<NetBalance> {
    if |nets| == 0 then []
    else
      var front, last := RowsOf(nets[..|nets| - 1], people), nets[|nets| - 1];
      if last.user in people then front + [last] else front
  }

  lemma {:induction false} RowsOfMembers(nets: seq<NetBalance>, people: set<Id>)
    ensures forall n :: n in RowsOf(nets, people) <==> n in nets && n.user in people
    ensures DistinctRows(nets) ==> DistinctRows(RowsOf(nets, people))
  {
    if |nets| > 0 {
      var front, last := nets[..|nets| - 1], nets[|nets| - 1];
      RowsOfMembers(front, people);
      assert nets == front + [last];
    }
  }

  lemma NetOfSnoc(front: seq<NetBalance>, last: NetBalance, u: Id)
    ensures NetOf(front + [last], u) == NetOf(front, u) + if last.user == u then last.net else 0
  {
    SumOfSnoc(front, last, (n: NetBalance) => if n.user == u then n.net else 0);
  }

  lemma {:induction false} RowsOfNet(nets: seq<NetBalance>, people: set<Id>, u: Id)
    ensures NetOf(RowsOf(nets, people), u) == if u in people then NetOf(nets, u) else 0
  {
    if |nets| > 0 {
      var front, last := nets[..|nets| - 1], nets[|nets| - 1];
      RowsOfNet(front, people, u);
      assert nets == front + [last];
      NetOfSnoc(front, last, u);
      NetOfSnoc(RowsOf(front, people), last, u);
    }
  }

  lemma {:induction false} NonZeroCount(nets: seq<NetBalance>)
    requires DistinctRows(nets)
    ensures NonZero(nets) == |Unsettled(nets)|
  {
    if |nets| > 0 {
      var front, last := nets[..|nets| - 1], nets[|nets| - 1];
      NonZeroCount(front);
      assert nets == front + [last];
      assert Unsettled(nets) == Unsettled(front) + if last.net != 0 then {last.user} else {};
      assert last.user !in Unsettled(front);
    }
  }

  lemma {:induction false} NetSumOver(nets: seq<NetBalance>, people: set<Id>)
    requires DistinctRows(nets) && Unsettled(nets) <= people
    ensures NetSum(nets) == SumSet(people, NetFn(nets))
  {
    if |nets| == 0 {
      SumSetZero(people, NetFn(nets));
    } else {
      var front, last := nets[..|nets| - 1], nets[|nets| - 1];
      assert nets == front + [last];
      NetSumOver(front, people);
      if last.net == 0 {
        SumSetSame(people, NetFn(front), NetFn(nets));
      } else {
        assert last in nets;
        SumOnlyAt(people, last.user, last.net);
        SumSetPlus(people, NetFn(front), OnlyAt(last.user, last.net), NetFn(nets));
      }
    }
  }

  /** These transfers settle these people and move nothing for anyone else. */
  ghost predicate SettlesFor(nets: seq<NetBalance>, ts: seq<Transfer>, people: set<Id>) {
    forall u :: PaidTo(ts, u) - PaidBy(ts, u) == if u in people then NetOf(nets, u) else 0
  }

  /** A group of k people that sums to zero settles with k - 1 transfers. */
  lemma SettleGroup(nets: seq<NetBalance>, people: set<Id>) returns (ts: seq<Transfer>)
    requires DistinctRows(nets) && people <= Unsettled(nets) && people != {}
    requires SumSet(people, NetFn(nets)) == 0
    ensures |ts| <= |people| - 1 && SettlesFor(nets, ts, people)
  {
    var rows := RowsOf(nets, people);
    RowsOfMembers(nets, people);
    forall u ensures NetOf(rows, u) == if u in people then NetOf(nets, u) else 0 {
      RowsOfNet(nets, people, u);
    }
    assert Unsettled(rows) == people;
    NonZeroCount(rows);
    NetSumOver(rows, people);
    SumSetSame(people, NetFn(nets), NetFn(rows));
    ts := Simplified(rows);
    SimplifiedSize(rows);
    forall u ensures PaidTo(ts, u) - PaidBy(ts, u) == NetOf(rows, u) {
      SimplifiedSettles(rows, u);
    }
  }

  lemma {:induction false} PaidConcat(a: seq<Transfer>, b: seq<Transfer>, u: Id)
    ensures PaidTo(a + b, u) == PaidTo(a, u) + PaidTo(b, u)
    ensures PaidBy(a + b, u) == PaidBy(a, u) + PaidBy(b, u)
  {
    if |b| == 0 {
      assert a + b == a;
    } else {
      PaidConcat(a, b[..|b| - 1], u);
      assert (a + b)[..|a + b| - 1] == a + b[..|b| - 1];
    }
  }

  function Within(mark: map<Id, Id>, groups: set<Id>): set<Id> {
    set u | u in mark && mark[u] in groups
  }

  lemma WithinSplit(mark: map<Id, Id>, groups: set<Id>, c: Id)
    requires c in groups && c in Image(mark)
    ensures Block(mark, c) != {} && Within(mark, groups) == Block(mark, c) + Within(mark, groups - {c})
    ensures Block(mark, c) !! Within(mark, groups - {c})
    ensures |Within(mark, groups)| == |Block(mark, c)| + |Within(mark, groups - {c})|
  {
    var u :| u in mark && mark[u] == c;
    assert u in Block(mark, c);
    assert Block(mark, c) !! Within(mark, groups - {c});
    assert Within(mark, groups) == Block(mark, c) + Within(mark, groups - {c});
  }

  lemma JoinGroups(nets: seq<NetBalance>, a: seq<Transfer>, b: seq<Transfer>, p: set<Id>, q: set<Id>)
    requires SettlesFor(nets, a, p) && SettlesFor(nets, b, q) && p !! q
    ensures SettlesFor(nets, a + b, p + q)
  {
    forall u ensures PaidTo(a + b, u) - PaidBy(a + b, u) == if u in p + q then NetOf(nets, u) else 0 {
      PaidConcat(a, b, u);
    }
  }

  lemma SettleBlock(nets: seq<NetBalance>, mark: map<Id, Id>, c: Id) returns (ts: seq<Transfer>)
    requires DistinctRows(nets) && Division(nets, mark) && c in Image(mark)
    ensures |ts| <= |Block(mark, c)| - 1 && SettlesFor(nets, ts, Block(mark, c))
  {
    WithinSplit(mark, {c}, c);
    ts := SettleGroup(nets, Block(mark, c));
  }

  /** These transfers settle these groups, with one transfer less than people in each. */
  ghost predicate Settled(nets: seq<NetBalance>, mark: map<Id, Id>, groups: set<Id>, ts: seq<Transfer>) {
    |ts| <= |Within(mark, groups)| - |groups| && SettlesFor(nets, ts, Within(mark, groups))
  }

  lemma OneMoreGroup(
      nets: seq<NetBalance>, mark: map<Id, Id>, groups: set<Id>, c: Id, first: seq<Transfer>, rest: seq<Transfer>)
    requires c in groups && c in Image(mark)
    requires |first| <= |Block(mark, c)| - 1 && SettlesFor(nets, first, Block(mark, c))
    requires Settled(nets, mark, groups - {c}, rest)
    ensures Settled(nets, mark, groups, first + rest)
  {
    WithinSplit(mark, groups, c);
    JoinGroups(nets, first, rest, Block(mark, c), Within(mark, groups - {c}));
    assert |groups| == |groups - {c}| + 1;
  }

  lemma {:induction false} SettleGroups(nets: seq<NetBalance>, mark: map<Id, Id>, groups: set<Id>) returns (ts: seq<Transfer>)
    requires DistinctRows(nets) && Division(nets, mark) && groups <= Image(mark)
    ensures Settled(nets, mark, groups, ts)
    decreases |groups|
  {
    if groups == {} {
      ts := [];
      assert Within(mark, groups) == {};
    } else {
      var c :| c in groups;
      var first := SettleBlock(nets, mark, c);
      var rest := SettleGroups(nets, mark, groups - {c});
      OneMoreGroup(nets, mark, groups, c, first, rest);
      ts := first + rest;
    }
  }

  /** Every division into groups that can settle among themselves gives a way to settle with as
      many transfers as there are people less groups. */
  lemma DivisionSettles(nets: seq<NetBalance>, mark: map<Id, Id>) returns (ts: seq<Transfer>)
    requires DistinctRows(nets) && Division(nets, mark)
    ensures Settles(nets, ts) && |ts| <= |Unsettled(nets)| - |Image(mark)|
  {
    ts := SettleGroups(nets, mark, Image(mark));
    assert Within(mark, Image(mark)) == mark.Keys;
    forall u ensures NetOf(nets, u) + PaidBy(ts, u) - PaidTo(ts, u) == 0 {
      if u !in Unsettled(nets) {
        NetOfSettled(nets, u);
      }
    }
  }

  // ----------------------------------------------------------------- how long the greedy list is

  /** The totals of the first one, first two, and so on, entries of a sorted side. */
  function PrefixTotals(es: seq<Entry>): set<int> {
    set i | 0 < i <= |es| :: Total(es[..i])
  }

  /** Where both sorted sides come to the same total: the walk over them finishes a creditor and
      a debtor with one transfer there. */
  function CommonTotals(nets: seq<NetBalance>): set<int> {
    PrefixTotals(SortedCreditors(nets)) * PrefixTotals(SortedDebtors(nets))
  }

  function Shifted(totals: set<int>, amt: int): set<int> {
    set x | x in totals :: x + amt
  }

  lemma SomeMember<T>(s: set<T>) returns (x: T)
    requires s != {}
    ensures x in s
  {
    x :| x in s;
  }

  lemma {:induction false} ShiftedSize(totals: set<int>, amt: int)
    ensures |Shifted(totals, amt)| == |totals|
    decreases |totals|
  {
    if totals != {} {
      var x := SomeMember(totals);
      ShiftedSize(totals - {x}, amt);
      forall y | y in Shifted(totals, amt) ensures y in Shifted(totals - {x}, amt) + {x + amt} {
        var z :| z in totals && z + amt == y;
        assert z != x ==> z in totals - {x};
      }
      assert Shifted(totals, amt) == Shifted(totals - {x}, amt) + {x + amt};
    }
  }

  lemma ShrunkTotal(es: seq<Entry>, amt: int, i: nat)
    requires 0 < i <= |es| && 0 < amt <= es[0].amt
    ensures Total(es[..i]) == amt + Total(Shrunk(es, amt)[..if es[0].amt == amt then i - 1 else i])
  {
    SumOfFront(es[..i], AmtOf());
    if es[0].amt == amt {
      assert es[..i][1..] == Shrunk(es, amt)[..i - 1];
    } else {
      SumOfFront(Shrunk(es, amt)[..i], AmtOf());
      assert es[..i][1..] == Shrunk(es, amt)[..i][1..];
    }
  }

  lemma PrefixShiftsDown(es: seq<Entry>, amt: int, x: int)
    requires |es| > 0 && 0 < amt <= es[0].amt && x in PrefixTotals(es)
    ensures x - amt in PrefixTotals(Shrunk(es, amt)) || (es[0].amt == amt && x == amt)
  {
    var i :| 0 < i <= |es| && Total(es[..i]) == x;
    ShrunkTotal(es, amt, i);
    var k := if es[0].amt == amt then i - 1 else i;
    if k == 0 {
      assert Shrunk(es, amt)[..0] == [];
    } else {
      assert Total(Shrunk(es, amt)[..k]) in PrefixTotals(Shrunk(es, amt));
    }
  }

  lemma PrefixShiftsUp(es: seq<Entry>, amt: int, x: int)
    requires |es| > 0 && 0 < amt <= es[0].amt
    requires x in PrefixTotals(Shrunk(es, amt)) || (es[0].amt == amt && x == 0)
    ensures x + amt in PrefixTotals(es)
  {
    if x in PrefixTotals(Shrunk(es, amt)) {
      var k :| 0 < k <= |Shrunk(es, amt)| && Total(Shrunk(es, amt)[..k]) == x;
      var i := if es[0].amt == amt then k + 1 else k;
      ShrunkTotal(es, amt, i);
      assert Total(es[..i]) in PrefixTotals(es);
    } else {
      ShrunkTotal(es, amt, 1);
      assert Shrunk(es, amt)[..0] == [];
      assert Total(es[..1]) in PrefixTotals(es);
    }
  }

  /** Taking amt from the head takes it from every prefix. */
  lemma PrefixShift(es: seq<Entry>, amt: int)
    requires |es| > 0 && 0 < amt <= es[0].amt
    ensures PrefixTotals(es)
         == Shifted(PrefixTotals(Shrunk(es, amt)), amt) + if es[0].amt == amt then {amt} else {}
  {
    var shifted := Shifted(PrefixTotals(Shrunk(es, amt)), amt) + if es[0].amt == amt then {amt} else {};
    forall x | x in PrefixTotals(es) ensures x in shifted {
      PrefixShiftsDown(es, amt, x);
      assert x == x - amt + amt;
    }
    forall x | x in shifted ensures x in PrefixTotals(es) {
      PrefixShiftsUp(es, amt, x - amt);
    }
  }

  lemma {:induction false} PrefixPositive(es: seq<Entry>, i: nat)
    requires Positive(es) && 0 < i <= |es|
    ensures Total(es[..i]) > 0
  {
    TotalNonNegative(es[..i]);
  }

  /** One round of the walk: the common totals shift, and one more was there if both heads end. */
  lemma CommonShift(cs: seq<Entry>, ds: seq<Entry>)
    requires Ready(cs, ds) && |cs| > 0 && |ds| > 0
    ensures var amt := Min(cs[0].amt, ds[0].amt);
      |PrefixTotals(cs) * PrefixTotals(ds)|
      == |PrefixTotals(Shrunk(cs, amt)) * PrefixTotals(Shrunk(ds, amt))| + if cs[0].amt == ds[0].amt then 1 else 0
  {
    var amt := Min(cs[0].amt, ds[0].amt);
    var a, b := PrefixTotals(Shrunk(cs, amt)), PrefixTotals(Shrunk(ds, amt));
    PairStep(cs, ds);
    PrefixShift(cs, amt);
    PrefixShift(ds, amt);
    PrefixTotalsPositive(Shrunk(cs, amt));
    PrefixTotalsPositive(Shrunk(ds, amt));
    ShiftedMeet(a, b, amt);
    ShiftedSize(a * b, amt);
    MeetSize(PrefixTotals(cs), PrefixTotals(ds), Shifted(a, amt), Shifted(b, amt), amt, cs[0].amt == amt, ds[0].amt == amt);
  }

  /** Two sets that meet where these meet, and at amt if both have it. */
  lemma MeetSize<T>(p: set<T>, q: set<T>, a: set<T>, b: set<T>, amt: T, inP: bool, inQ: bool)
    requires amt !in a && amt !in b
    requires p == (a + if inP then {amt} else {}) && q == (b + if inQ then {amt} else {})
    ensures |p * q| == |a * b| + if inP && inQ then 1 else 0
  {
    if inP && inQ {
      assert p * q == a * b + {amt};
    } else {
      assert p * q == a * b;
    }
  }

  lemma ShiftedMeet(a: set<int>, b: set<int>, amt: int)
    requires forall x :: x in a || x in b ==> x > 0
    ensures Shifted(a, amt) * Shifted(b, amt) == Shifted(a * b, amt)
    ensures amt !in Shifted(a, amt) && amt !in Shifted(b, amt)
  {
    forall y | y in Shifted(a, amt) * Shifted(b, amt) ensures y in Shifted(a * b, amt) {
      var x :| x in a && x + amt == y;
      var z :| z in b && z + amt == y;
      assert x == z && x in a * b;
    }
  }

  lemma PrefixTotalsPositive(es: seq<Entry>)
    requires Positive(es)
    ensures forall x :: x in PrefixTotals(es) ==> x > 0
  {
    forall i | 0 < i <= |es| ensures Total(es[..i]) > 0 {
      PrefixPositive(es, i);
    }
  }

  /** Every transfer finishes one entry, and two at a common total. */
  lemma {:induction false} PairLength(cs: seq<Entry>, ds: seq<Entry>)
    requires Ready(cs, ds) && Total(cs) == Total(ds)
    ensures |Pair(cs, ds)| == |cs| + |ds| - |PrefixTotals(cs) * PrefixTotals(ds)|
    decreases |cs| + |ds|
  {
    TotalNonNegative(cs);
    TotalNonNegative(ds);
    if |cs| == 0 || |ds| == 0 {
      assert |cs| == |ds| == 0 && PrefixTotals(cs) == {};
    } else {
      var amt := Min(cs[0].amt, ds[0].amt);
      PairStep(cs, ds);
      ShrunkFacts(cs, amt);
      ShrunkFacts(ds, amt);
      CommonShift(cs, ds);
      PairLength(Shrunk(cs, amt), Shrunk(ds, amt));
    }
  }

  /** For balances that sum to zero, the number of suggested transfers is the number of people
      with a balance less the totals that both sorted sides come to. */
  lemma SuggestionLength(nets: seq<NetBalance>)
    requires DistinctRows(nets) && NetSum(nets) == 0
    ensures |Simplified(nets)| == NonZero(nets) - |CommonTotals(nets)|
  {
    var cs, ds := SortedCreditors(nets), SortedDebtors(nets);
    SidesReady(nets);
    TotalsDiffer(nets);
    PairLength(cs, ds);
  }

  // ------------------------------------------------------------ when the greedy list is minimal

  ghost predicate Shortest(nets: seq<NetBalance>) {
    forall ts :: Settles(nets, ts) ==> |Simplified(nets)| <= |ts|
  }

  /** No division has more groups than the two sorted sides have totals in common. */
  ghost predicate NoFinerDivision(nets: seq<NetBalance>) {
    forall mark :: Division(nets, mark) ==> |Image(mark)| <= |CommonTotals(nets)|
  }

  /** For balances that sum to zero, the suggestion settles them, and no list of transfers that
      settles them is shorter exactly when the people cannot be divided into more groups that
      settle among themselves than the two sorted sides have totals in common. */
  lemma ShortestExactly(nets: seq<NetBalance>)
    requires DistinctRows(nets) && NetSum(nets) == 0
    ensures Settles(nets, Simplified(nets))
    ensures Shortest(nets) <==> NoFinerDivision(nets)
  {
    NonZeroCount(nets);
    SuggestionLength(nets);
    forall u ensures NetOf(nets, u) + PaidBy(Simplified(nets), u) - PaidTo(Simplified(nets), u) == 0 {
      SimplifiedSettles(nets, u);
    }
    if NoFinerDivision(nets) {
      forall ts | Settles(nets, ts) ensures |Simplified(nets)| <= |ts| {
        var mark := SettlingNeeds(nets, ts);
      }
    }
    if Shortest(nets) {
      forall mark | Division(nets, mark) ensures |Image(mark)| <= |CommonTotals(nets)| {
        var ts := DivisionSettles(nets, mark);
      }
    }
  }

  /** Some of the people with a balance, but not all, are square among themselves. */
  ghost predicate Splittable(nets: seq<NetBalance>) {
    exists people: set<Id> :: people != {} && people < Unsettled(nets) && SumSet(people, NetFn(nets)) == 0
  }

  /** When nobody is square among fewer than all, the suggestion is as short as can be. */
  lemma ShortestUnlessSplittable(nets: seq<NetBalance>)
    requires DistinctRows(nets) && NetSum(nets) == 0 && !Splittable(nets)
    ensures Shortest(nets)
  {
    ShortestExactly(nets);
    SuggestionLength(nets);
    SimplifiedSize(nets);
    NonZeroCount(nets);
    forall mark | Division(nets, mark) ensures |Image(mark)| <= |CommonTotals(nets)| {
      OneGroup(nets, mark);
    }
  }

  lemma OneGroup(nets: seq<NetBalance>, mark: map<Id, Id>)
    requires Division(nets, mark) && !Splittable(nets)
    ensures |Image(mark)| <= if Unsettled(nets) == {} then 0 else 1
  {
    if Unsettled(nets) == {} {
      assert Image(mark) == {};
    } else {
      var u :| u in Unsettled(nets);
      var c := mark[u];
      assert u in Block(mark, c);
      assert Block(mark, c) == Unsettled(nets);
      assert Image(mark) == {c};
    }
  }
}
