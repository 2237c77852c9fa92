/** The debt simplifier: sort creditors and debtors by size, then pair them off greedily. */
module Simplify {
  import opened Core
  import opened Sorting

  datatype NetBalance = NetBalance(user: Id, net: int)

  datatype Entry = Entry(id: Id, amt: int)

  datatype Transfer = Transfer(from: Id, to: Id, amount: int)

  // ------------------------------------------------------------------------- two sorted sides

  /** Larger first; on a tie, the smaller id first. */
  function Larger(): (Entry, Entry) -> bool {
    (a: Entry, b: Entry) => a.amt > b.amt || (a.amt == b.amt && a.id < b.id)
  }

  function Creditors(nets: seq<NetBalance>): seq<Entry> {
    if |nets| == 0 then []
    else
      var last, front := nets[|nets| - 1], Creditors(nets[..|nets| - 1]);
      if last.net > 0 then front + [Entry(last.user, last.net)] else front
  }

  function Debtors(nets: seq<NetBalance>): seq<Entry> {
    if |nets| == 0 then []
    else
      var last, front := nets[|nets| - 1], Debtors(nets[..|nets| - 1]);
      if last.net < 0 then front + [Entry(last.user, -last.net)] else front
  }

  /** The greedy pairing: the first creditor takes what the first debtor can pay. */
  function Pair(cs: seq<Entry>, ds: seq<Entry>): seq<Transfer>
    decreases |cs| + |ds|
  {
    if |cs| == 0 || |ds| == 0 then []
    else
      var amt := Min(cs[0].amt, ds[0].amt);
      var cs' := if cs[0].amt == amt then cs[1..] else cs[0 := cs[0].(amt := cs[0].amt - amt)];
      var ds' := if ds[0].amt == amt then ds[1..] else ds[0 := ds[0].(amt := ds[0].amt - amt)];
      (if amt > 0 then [Transfer(ds[0].id, cs[0].id, amt)] else []) + Pair(cs', ds')
  }

  function Simplified(nets: seq<NetBalance>): seq<Transfer> {
    Pair(Sort(Creditors(nets), Larger()), Sort(Debtors(nets), Larger()))
  }

  // ----------------------------------------------------------------------------- vocabulary

  ghost predicate DistinctRows(nets: seq<NetBalance>) {
    forall i, j :: 0 <= i < j < |nets| ==> nets[i].user != nets[j].user
  }

  ghost predicate DistinctIds(es: seq<Entry>) {
    forall i, j :: 0 <= i < j < |es| ==> es[i].id != es[j].id
  }

  ghost predicate Positive(es: seq<Entry>) {
    forall i :: 0 <= i < |es| ==> es[i].amt > 0
  }

  function AmtOf(): Entry -> int {
    (e: Entry) => e.amt
  }

  function Total(es: seq<Entry>): int {
    SumOf(es, AmtOf())
  }

  function Moved(ts: seq<Transfer>): int {
    SumOf(ts, (t: Transfer) => t.amount)
  }

  function PaidBy(ts: seq<Transfer>, user: Id): int {
    SumOf(ts, (t: Transfer) => if t.from == user then t.amount else 0)
  }

  function PaidTo(ts: seq<Transfer>, user: Id): int {
    SumOf(ts, (t: Transfer) => if t.to == user then t.amount else 0)
  }

  function AmountFor(es: seq<Entry>, user: Id): int {
    SumOf(es, (e: Entry) => if e.id == user then e.amt else 0)
  }

  /** A user's balance in a result set; users without a row have none. */
  function NetOf(nets: seq<NetBalance>, user: Id): int {
    SumOf(nets, (n: NetBalance) => if n.user == user then n.net else 0)
  }

  function NonZero(nets: seq<NetBalance>): nat {
    |Creditors(nets)| + |Debtors(nets)|
  }

  function NetSum(nets: seq<NetBalance>): int {
    SumOf(nets, (n: NetBalance) => n.net)
  }

  // -------------------------------------------------------------------- sums over the pairing

  lemma SumOfPrepend<T>(x: T, xs: seq<T>, f: T -> int)
    ensures SumOf([x] + xs, f) == f(x) + SumOf(xs, f)
  {
    SumOfFront([x] + xs, f);
    assert ([x] + xs)[1..] == xs;
  }

  lemma {:induction false} SumOfSnoc<T>(xs: seq<T>, x: T, f: T -> int)
    ensures SumOf(xs + [x], f) == SumOf(xs, f) + f(x)
  {
    assert (xs + [x])[..|xs|] == xs;
  }

  lemma {:induction false} AmountForAbsent(es: seq<Entry>, user: Id)
    requires forall i :: 0 <= i < |es| ==> es[i].id != user
    ensures AmountFor(es, user) == 0
  {
    if |es| > 0 {
      AmountForAbsent(es[..|es| - 1], user);
    }
  }

  lemma {:induction false} AmountForAt(es: seq<Entry>, i: nat)
    requires DistinctIds(es) && i < |es|
    ensures AmountFor(es, es[i].id) == es[i].amt
  {
    if i == |es| - 1 {
      AmountForAbsent(es[..|es| - 1], es[i].id);
    } else {
      AmountForAt(es[..|es| - 1], i);
    }
  }

  lemma {:induction false} TotalNonNegative(es: seq<Entry>)
    requires Positive(es)
    ensures Total(es) >= 0 && (Total(es) == 0 ==> |es| == 0)
  {
    if |es| > 0 {
      TotalNonNegative(es[..|es| - 1]);
    }
  }

  /** What is left of one side after its head has given or taken amt. */
  function Shrunk(es: seq<Entry>, amt: int): seq<Entry>
    requires |es| > 0
  {
    if es[0].amt == amt then es[1..] else es[0 := es[0].(amt := es[0].amt - amt)]
  }

  lemma ShrunkFacts(es: seq<Entry>, amt: int)
    requires |es| > 0 && 0 < amt <= es[0].amt && Positive(es) && DistinctIds(es)
    ensures Positive(Shrunk(es, amt)) && DistinctIds(Shrunk(es, amt))
    ensures Total(Shrunk(es, amt)) == Total(es) - amt
    ensures forall u :: AmountFor(Shrunk(es, amt), u) == AmountFor(es, u) - if es[0].id == u then amt else 0
  {
    SumOfFront(es, AmtOf());
    var r := Shrunk(es, amt);
    if es[0].amt != amt {
      SumOfFront(r, AmtOf());
      assert r[1..] == es[1..];
    }
    forall u ensures AmountFor(r, u) == AmountFor(es, u) - if es[0].id == u then amt else 0 {
      SumOfFront(es, (e: Entry) => if e.id == u then e.amt else 0);
      AmountForFront(es, u);
      if es[0].amt != amt {
        AmountForFront(r, u);
      }
    }
  }

  lemma AmountForFront(es: seq<Entry>, u: Id)
    requires |es| > 0
    ensures AmountFor(es, u) == (if es[0].id == u then es[0].amt else 0) + AmountFor(es[1..], u)
  {
    SumOfFront(es, (e: Entry) => if e.id == u then e.amt else 0);
  }

  lemma PaidToFront(t: Transfer, ts: seq<Transfer>, u: Id)
    ensures PaidTo([t] + ts, u) == (if t.to == u then t.amount else 0) + PaidTo(ts, u)
  {
    SumOfPrepend(t, ts, (t: Transfer) => if t.to == u then t.amount else 0);
  }

  ghost predicate Ready(cs: seq<Entry>, ds: seq<Entry>) {
    Positive(cs) && DistinctIds(cs) && Positive(ds) && DistinctIds(ds)
  }

  /** One round of the loop: one transfer, and both sides shrink by it. */
  lemma PairStep(cs: seq<Entry>, ds: seq<Entry>)
    requires Ready(cs, ds) && |cs| > 0 && |ds| > 0
    ensures var amt := Min(cs[0].amt, ds[0].amt);
      && amt > 0
      && Ready(Shrunk(cs, amt), Shrunk(ds, amt))
      && Pair(cs, ds) == [Transfer(ds[0].id, cs[0].id, amt)] + Pair(Shrunk(cs, amt), Shrunk(ds, amt))
      && |Shrunk(cs, amt)| + |Shrunk(ds, amt)| < |cs| + |ds|
  {
    var amt := Min(cs[0].amt, ds[0].amt);
    ShrunkFacts(cs, amt);
    ShrunkFacts(ds, amt);
  }

  /** Creditors never get more than they are owed, and get exactly that when the debtors can
      cover it. */
  lemma {:induction false} PairPaysCreditors(cs: seq<Entry>, ds: seq<Entry>, u: Id)
    requires Ready(cs, ds)
    ensures 0 <= PaidTo(Pair(cs, ds), u) <= AmountFor(cs, u)
    ensures Total(cs) <= Total(ds) ==> PaidTo(Pair(cs, ds), u) == AmountFor(cs, u)
    decreases |cs| + |ds|
  {
    if |cs| == 0 || |ds| == 0 {
      TotalNonNegative(cs);
      AmountForNonNegative(cs, u);
    } else {
      var amt := Min(cs[0].amt, ds[0].amt);
      PairStep(cs, ds);
      ShrunkFacts(cs, amt);
      ShrunkFacts(ds, amt);
      PairPaysCreditors(Shrunk(cs, amt), Shrunk(ds, amt), u);
      PaidToFront(Transfer(ds[0].id, cs[0].id, amt), Pair(Shrunk(cs, amt), Shrunk(ds, amt)), u);
    }
  }

  lemma {:induction false} AmountForNonNegative(es: seq<Entry>, u: Id)
    requires Positive(es)
    ensures AmountFor(es, u) >= 0
  {
    if |es| > 0 {
      AmountForNonNegative(es[..|es| - 1], u);
    }
  }

  lemma PaidToStep(cs: seq<Entry>, ds: seq<Entry>, u: Id)
    requires Ready(cs, ds) && |cs| > 0 && |ds| > 0
    ensures var amt := Min(cs[0].amt, ds[0].amt);
      PaidTo(Pair(cs, ds), u)
      == (if cs[0].id == u then amt else 0) + PaidTo(Pair(Shrunk(cs, amt), Shrunk(ds, amt)), u)
  {
    var amt := Min(cs[0].amt, ds[0].amt);
    PairStep(cs, ds);
    PaidToFront(Transfer(ds[0].id, cs[0].id, amt), Pair(Shrunk(cs, amt), Shrunk(ds, amt)), u);
  }

  lemma NothingPaidTo(cs: seq<Entry>, ds: seq<Entry>, u: Id)
    requires Ready(cs, ds) && forall i :: 0 <= i < |cs| ==> cs[i].id != u
    ensures PaidTo(Pair(cs, ds), u) == 0
  {
    PairPaysCreditors(cs, ds, u);
    AmountForAbsent(cs, u);
  }

  /** If a creditor got anything, every creditor before it got everything: what stays unpaid
      is a suffix of the sorted list. */
  lemma {:induction false} PairPaysInOrder(cs: seq<Entry>, ds: seq<Entry>, i: nat, j: nat)
    requires Ready(cs, ds) && i < j < |cs|
    requires PaidTo(Pair(cs, ds), cs[j].id) > 0
    ensures PaidTo(Pair(cs, ds), cs[i].id) == cs[i].amt
    decreases |cs| + |ds|
  {
    if |ds| > 0 {
      var amt := Min(cs[0].amt, ds[0].amt);
      PaidToStep(cs, ds, cs[i].id);
      PaidToStep(cs, ds, cs[j].id);
      PairStep(cs, ds);
      LaterInOrder(cs, Shrunk(cs, amt), Shrunk(ds, amt), amt, |cs| + |ds|, i, j);
    }
  }

  lemma LaterInOrder(cs: seq<Entry>, cs': seq<Entry>, ds': seq<Entry>, amt: int, size: nat, i: nat, j: nat)
    requires i < j < |cs| && 0 < amt <= cs[0].amt && DistinctIds(cs)
    requires cs' == Shrunk(cs, amt) && Ready(cs', ds') && |cs'| + |ds'| < size
    requires PaidTo(Pair(cs', ds'), cs[j].id) > 0
    ensures PaidTo(Pair(cs', ds'), cs[i].id) == cs[i].amt - if i == 0 then amt else 0
    decreases size, 0
  {
    if cs[0].amt != amt {
      PairPaysInOrder(cs', ds', i, j);
    } else if i > 0 {
      PairPaysInOrder(cs', ds', i - 1, j - 1);
    } else {
      NothingPaidTo(cs', ds', cs[0].id);
    }
  }

  function Flip(ts: seq<Transfer>): (r: seq<Transfer>)
    ensures |r| == |ts|
  {
    seq(|ts|, i requires 0 <= i < |ts| => Transfer(ts[i].to, ts[i].from, ts[i].amount))
  }

  /** Swapping the two sides swaps the two ends of every transfer. */
  lemma {:induction false} PairFlips(cs: seq<Entry>, ds: seq<Entry>)
    requires Ready(cs, ds)
    ensures Pair(ds, cs) == Flip(Pair(cs, ds))
    decreases |cs| + |ds|
  {
    if |cs| > 0 && |ds| > 0 {
      var amt := Min(cs[0].amt, ds[0].amt);
      var t := Transfer(ds[0].id, cs[0].id, amt);
      PairStep(cs, ds);
      PairStep(ds, cs);
      PairFlips(Shrunk(cs, amt), Shrunk(ds, amt));
      assert Flip([t] + Pair(Shrunk(cs, amt), Shrunk(ds, amt)))
          == [Transfer(t.to, t.from, amt)] + Flip(Pair(Shrunk(cs, amt), Shrunk(ds, amt)));
    }
  }

  lemma {:induction false} FlipSwaps(ts: seq<Transfer>, u: Id)
    ensures PaidBy(ts, u) == PaidTo(Flip(ts), u)
  {
    if |ts| > 0 {
      FlipSwaps(ts[..|ts| - 1], u);
      assert Flip(ts)[..|ts| - 1] == Flip(ts[..|ts| - 1]);
    }
  }

  lemma PairPaysDebtors(cs: seq<Entry>, ds: seq<Entry>, u: Id)
    requires Ready(cs, ds)
    ensures 0 <= PaidBy(Pair(cs, ds), u) <= AmountFor(ds, u)
    ensures Total(ds) <= Total(cs) ==> PaidBy(Pair(cs, ds), u) == AmountFor(ds, u)
  {
    PairFlips(cs, ds);
    FlipSwaps(Pair(cs, ds), u);
    PairPaysCreditors(ds, cs, u);
  }

  /** The money moved and the number of transfers. */
  lemma {:induction false} PairSize(cs: seq<Entry>, ds: seq<Entry>)
    requires Ready(cs, ds)
    ensures Moved(Pair(cs, ds)) == Min(Total(cs), Total(ds))
    ensures |Pair(cs, ds)| <= if |cs| == 0 || |ds| == 0 then 0 else |cs| + |ds| - 1
    decreases |cs| + |ds|
  {
    TotalNonNegative(cs);
    TotalNonNegative(ds);
    if |cs| > 0 && |ds| > 0 {
      var amt := Min(cs[0].amt, ds[0].amt);
      var cs', ds' := Shrunk(cs, amt), Shrunk(ds, amt);
      PairStep(cs, ds);
      ShrunkFacts(cs, amt);
      ShrunkFacts(ds, amt);
      PairSize(cs', ds');
      SumOfFront(Pair(cs, ds), (t: Transfer) => t.amount);
      assert Pair(cs, ds)[1..] == Pair(cs', ds');
    }
  }

  ghost function Ids(es: seq<Entry>): set<Id> {
    set e | e in es :: e.id
  }

  lemma ShrunkIds(es: seq<Entry>, amt: int)
    requires |es| > 0
    ensures Ids(Shrunk(es, amt)) <= Ids(es)
  {
    forall u | u in Ids(Shrunk(es, amt)) ensures u in Ids(es) {
      var e :| e in Shrunk(es, amt) && e.id == u;
      assert es[0] in es;
      assert e in es || e.id == es[0].id;
    }
  }

  /** Every transfer is positive and goes from a debtor to a creditor. */
  lemma {:induction false} PairParties(cs: seq<Entry>, ds: seq<Entry>)
    requires Ready(cs, ds)
    ensures forall t :: t in Pair(cs, ds) ==> t.amount > 0 && t.to in Ids(cs) && t.from in Ids(ds)
    decreases |cs| + |ds|
  {
    if |cs| > 0 && |ds| > 0 {
      var amt := Min(cs[0].amt, ds[0].amt);
      PairStep(cs, ds);
      ShrunkIds(cs, amt);
      ShrunkIds(ds, amt);
      PairParties(Shrunk(cs, amt), Shrunk(ds, amt));
      assert cs[0] in cs && ds[0] in ds;
    }
  }

  // ------------------------------------------------------------------------- from balances

  function Negated(nets: seq<NetBalance>): (r: seq<NetBalance>)
    ensures |r| == |nets|
  {
    seq(|nets|, i requires 0 <= i < |nets| => NetBalance(nets[i].user, -nets[i].net))
  }

  /** Debtors are the creditors of the mirrored balances. */
  lemma {:induction false} DebtorsMirror(nets: seq<NetBalance>)
    ensures Debtors(nets) == Creditors(Negated(nets))
    ensures NetSum(Negated(nets)) == -NetSum(nets)
  {
    if |nets| > 0 {
      DebtorsMirror(nets[..|nets| - 1]);
      assert Negated(nets)[..|nets| - 1] == Negated(nets[..|nets| - 1]);
    }
  }

  lemma {:induction false} NetOfMirror(nets: seq<NetBalance>, u: Id)
    ensures NetOf(Negated(nets), u) == -NetOf(nets, u)
  {
    if |nets| > 0 {
      NetOfMirror(nets[..|nets| - 1], u);
      assert Negated(nets)[..|nets| - 1] == Negated(nets[..|nets| - 1]);
    }
  }

  lemma {:induction false} CreditorsOfRows(nets: seq<NetBalance>)
    ensures Positive(Creditors(nets))
    ensures forall e :: e in Creditors(nets) ==> NetBalance(e.id, e.amt) in nets
    ensures DistinctRows(nets) ==> DistinctIds(Creditors(nets))
  {
    if |nets| > 0 {
      CreditorsOfRows(nets[..|nets| - 1]);
      var front := Creditors(nets[..|nets| - 1]);
      if DistinctRows(nets) {
        forall i | 0 <= i < |front| ensures front[i].id != nets[|nets| - 1].user {
          assert front[i] in front;
          assert NetBalance(front[i].id, front[i].amt) in nets[..|nets| - 1];
        }
      }
    }
  }

  lemma {:induction false} NetOfAbsent(nets: seq<NetBalance>, u: Id)
    requires forall i :: 0 <= i < |nets| ==> nets[i].user != u
    ensures NetOf(nets, u) == 0
    ensures forall e :: e in Creditors(nets) ==> e.id != u
  {
    if |nets| > 0 {
      NetOfAbsent(nets[..|nets| - 1], u);
    }
  }

  /** A user's claim is the positive part of their balance. */
  lemma {:induction false} CreditorAmount(nets: seq<NetBalance>, u: Id)
    requires DistinctRows(nets)
    ensures AmountFor(Creditors(nets), u) == if NetOf(nets, u) > 0 then NetOf(nets, u) else 0
  {
    if |nets| > 0 {
      var front, last := nets[..|nets| - 1], nets[|nets| - 1];
      CreditorAmount(front, u);
      if last.net > 0 {
        SumOfSnoc(Creditors(front), Entry(last.user, last.net), (e: Entry) => if e.id == u then e.amt else 0);
        AmountForSnoc(Creditors(front), Entry(last.user, last.net), u);
      }
      if last.user == u {
        NetOfAbsent(front, u);
      }
    }
  }

  lemma AmountForSnoc(es: seq<Entry>, e: Entry, u: Id)
    ensures AmountFor(es + [e], u) == AmountFor(es, u) + if e.id == u then e.amt else 0
  {
    assert (es + [e])[..|es|] == es;
  }

  /** Claims minus debts is the sum of the balances. */
  lemma {:induction false} TotalsDiffer(nets: seq<NetBalance>)
    ensures Total(Creditors(nets)) - Total(Debtors(nets)) == NetSum(nets)
  {
    if |nets| > 0 {
      var front, last := nets[..|nets| - 1], nets[|nets| - 1];
      TotalsDiffer(front);
      SumOfSnoc(Creditors(front), Entry(last.user, last.net), AmtOf());
      SumOfSnoc(Debtors(front), Entry(last.user, -last.net), AmtOf());
    }
  }

  lemma LargerIsStrict()
    ensures StrictOrder(Larger())
  {
  }

  lemma LargerTellsApart(es: seq<Entry>)
    requires DistinctIds(es)
    ensures ToldApart(es, Larger())
  {
  }

  /** Sorting keeps one side's entries, their amounts, and the ids distinct. */
  lemma SortedSide(es: seq<Entry>)
    requires Positive(es) && DistinctIds(es)
    ensures var r := Sort(es, Larger());
      && Positive(r) && DistinctIds(r) && Ordered(r, Larger())
      && |r| == |es| && Total(r) == Total(es) && Ids(r) == Ids(es)
    ensures forall u :: AmountFor(Sort(es, Larger()), u) == AmountFor(es, u)
  {
    var r := Sort(es, Larger());
    LargerIsStrict();
    LargerTellsApart(es);
    SortKeeps(es, Larger());
    SortOrdered(es, Larger());
    SortSum(es, Larger(), AmtOf());
    forall e ensures e in r <==> e in es {
      assert e in r <==> e in multiset(r);
      assert e in es <==> e in multiset(es);
    }
    assert forall i :: 0 <= i < |r| ==> r[i] in es;
    forall i, j | 0 <= i < j < |r| ensures r[i].id != r[j].id {
      assert Larger()(r[i], r[j]);
      assert r[i] in es && r[j] in es;
    }
    forall u ensures AmountFor(r, u) == AmountFor(es, u) {
      SortSum(es, Larger(), (e: Entry) => if e.id == u then e.amt else 0);
      SortedAmount(es, u);
    }
  }

  lemma SortedAmount(es: seq<Entry>, u: Id)
    ensures AmountFor(Sort(es, Larger()), u) == AmountFor(es, u)
  {
    SortSum(es, Larger(), (e: Entry) => if e.id == u then e.amt else 0);
  }

  function SortedCreditors(nets: seq<NetBalance>): seq<Entry> {
    Sort(Creditors(nets), Larger())
  }

  function SortedDebtors(nets: seq<NetBalance>): seq<Entry> {
    Sort(Debtors(nets), Larger())
  }

  /** Everything the pairing needs to know about its two sides. */
  lemma SidesReady(nets: seq<NetBalance>)
    requires DistinctRows(nets)
    ensures Ready(SortedCreditors(nets), SortedDebtors(nets))
    ensures |SortedCreditors(nets)| + |SortedDebtors(nets)| == NonZero(nets)
    ensures Total(SortedCreditors(nets)) - Total(SortedDebtors(nets)) == NetSum(nets)
    ensures forall u :: AmountFor(SortedCreditors(nets), u) == if NetOf(nets, u) > 0 then NetOf(nets, u) else 0
    ensures forall u :: AmountFor(SortedDebtors(nets), u) == if NetOf(nets, u) < 0 then -NetOf(nets, u) else 0
  {
    CreditorsOfRows(nets);
    SortedSide(Creditors(nets));
    DebtorsMirror(nets);
    CreditorsOfRows(Negated(nets));
    SortedSide(Debtors(nets));
    TotalsDiffer(nets);
    forall u
      ensures AmountFor(SortedCreditors(nets), u) == if NetOf(nets, u) > 0 then NetOf(nets, u) else 0
      ensures AmountFor(SortedDebtors(nets), u) == if NetOf(nets, u) < 0 then -NetOf(nets, u) else 0
    {
      CreditorAmount(nets, u);
      CreditorAmount(Negated(nets), u);
      NetOfMirror(nets, u);
    }
  }

  /** The suggestion depends on who has which balance, not on the order the rows arrive in. */
  lemma SimplifiedOrderFree(a: seq<NetBalance>, b: seq<NetBalance>)
    requires DistinctRows(a) && DistinctRows(b) && multiset(a) == multiset(b)
    ensures Simplified(a) == Simplified(b)
  {
    SameCreditors(a, b);
    DebtorsMirror(a);
    DebtorsMirror(b);
    NegatedMultiset(a, b);
    SameCreditors(Negated(a), Negated(b));
  }

  lemma SameCreditors(a: seq<NetBalance>, b: seq<NetBalance>)
    requires DistinctRows(a) && DistinctRows(b) && multiset(a) == multiset(b)
    ensures Sort(Creditors(a), Larger()) == Sort(Creditors(b), Larger())
  {
    CreditorsOfRows(a);
    CreditorsOfRows(b);
    forall e: Entry ensures multiset(Creditors(a))[e] == multiset(Creditors(b))[e] {
      CreditorsCount(a, e);
      CreditorsCount(b, e);
    }
    LargerIsStrict();
    LargerTellsApart(Creditors(a));
    LargerTellsApart(Creditors(b));
    SortIgnoresOrder(Creditors(a), Creditors(b), Larger());
  }

  lemma {:induction false} CreditorsCount(nets: seq<NetBalance>, e: Entry)
    ensures multiset(Creditors(nets))[e] == if e.amt > 0 then multiset(nets)[NetBalance(e.id, e.amt)] else 0
  {
    if |nets| > 0 {
      CreditorsCount(nets[..|nets| - 1], e);
      assert nets == nets[..|nets| - 1] + [nets[|nets| - 1]];
    }
  }

  lemma NegatedMultiset(a: seq<NetBalance>, b: seq<NetBalance>)
    requires multiset(a) == multiset(b)
    ensures multiset(Negated(a)) == multiset(Negated(b))
  {
    forall n: NetBalance ensures multiset(Negated(a))[n] == multiset(Negated(b))[n] {
      NegatedCount(a, n);
      NegatedCount(b, n);
    }
  }

  lemma {:induction false} NegatedCount(nets: seq<NetBalance>, n: NetBalance)
    ensures multiset(Negated(nets))[n] == multiset(nets)[NetBalance(n.user, -n.net)]
  {
    if |nets| > 0 {
      NegatedCount(nets[..|nets| - 1], n);
      assert nets == nets[..|nets| - 1] + [nets[|nets| - 1]];
      assert Negated(nets) == Negated(nets[..|nets| - 1]) + [NetBalance(nets[|nets| - 1].user, -nets[|nets| - 1].net)];
    }
  }

  /** The transfers move as much as the smaller side allows, and are fewer than the people
      with a balance. */
  lemma SimplifiedSize(nets: seq<NetBalance>)
    requires DistinctRows(nets)
    ensures Moved(Simplified(nets)) == Min(Total(Creditors(nets)), Total(Debtors(nets)))
    ensures |Simplified(nets)| <= if NonZero(nets) == 0 then 0 else NonZero(nets) - 1
  {
    SidesReady(nets);
    PairSize(SortedCreditors(nets), SortedDebtors(nets));
    SortSum(Creditors(nets), Larger(), AmtOf());
    SortSum(Debtors(nets), Larger(), AmtOf());
  }

  /** Nobody gets more than they are owed or gives more than they owe; and the side that is
      not larger is settled to the cent. */
  lemma SimplifiedSettles(nets: seq<NetBalance>, u: Id)
    requires DistinctRows(nets)
    ensures var net, ts := NetOf(nets, u), Simplified(nets);
      && 0 <= PaidTo(ts, u) <= (if net > 0 then net else 0)
      && 0 <= PaidBy(ts, u) <= (if net < 0 then -net else 0)
      && (NetSum(nets) <= 0 ==> PaidTo(ts, u) == if net > 0 then net else 0)
      && (NetSum(nets) >= 0 ==> PaidBy(ts, u) == if net < 0 then -net else 0)
      && (NetSum(nets) == 0 ==> net + PaidBy(ts, u) - PaidTo(ts, u) == 0)
  {
    SidesReady(nets);
    PairPaysCreditors(SortedCreditors(nets), SortedDebtors(nets), u);
    PairPaysDebtors(SortedCreditors(nets), SortedDebtors(nets), u);
  }

  /** The walk takes the creditors in their order: positions never go back. */
  lemma {:induction false} PairWalks(cs: seq<Entry>, ds: seq<Entry>, i: nat, j: nat, a: nat, b: nat)
    requires Ready(cs, ds) && i <= j < |Pair(cs, ds)| && a < |cs| && b < |cs|
    requires Pair(cs, ds)[i].to == cs[a].id && Pair(cs, ds)[j].to == cs[b].id
    ensures a <= b
    decreases |cs| + |ds|
  {
    if i == j {
      assert a == b;
    } else if |cs| > 0 && |ds| > 0 {
      var amt := Min(cs[0].amt, ds[0].amt);
      PairStep(cs, ds);
      if i > 0 && a > 0 {
        var drop := if cs[0].amt == amt then 1 else 0;
        if b > 0 || drop == 0 {
          PairWalks(Shrunk(cs, amt), Shrunk(ds, amt), i - 1, j - 1, a - drop, b - drop);
        } else {
          GoneFromWalk(Shrunk(cs, amt), Shrunk(ds, amt), j - 1, cs[0].id);
        }
      }
    }
  }

  /** Only entries still on the list are paid. */
  lemma GoneFromWalk(cs: seq<Entry>, ds: seq<Entry>, j: nat, id: Id)
    requires Ready(cs, ds) && j < |Pair(cs, ds)| && forall k :: 0 <= k < |cs| ==> cs[k].id != id
    ensures Pair(cs, ds)[j].to != id
  {
    PairParties(cs, ds);
    var t := Pair(cs, ds)[j];
    assert t in Pair(cs, ds) && t.to in Ids(cs);
  }

  /** Ahead in the simplifier's order: a larger amount, or the same and a smaller id. */
  predicate Ahead(amount: int, id: Id, than: int, other: Id) {
    amount > than || (amount == than && id < other)
  }

  lemma SortedAhead(es: seq<Entry>, a: nat, b: nat)
    requires Ordered(es, Larger()) && a < b < |es|
    ensures Ahead(es[a].amt, es[a].id, es[b].amt, es[b].id)
  {
  }

  /** The suggestion goes through the creditors from the largest claim down and through the debtors
      from the largest debt down, smaller ids first among equals. */
  lemma LargestFirst(nets: seq<NetBalance>, i: nat, j: nat)
    requires DistinctRows(nets) && i < j < |Simplified(nets)|
    ensures var t, u := Simplified(nets)[i], Simplified(nets)[j];
      && (t.to == u.to || Ahead(NetOf(nets, t.to), t.to, NetOf(nets, u.to), u.to))
      && (t.from == u.from || Ahead(-NetOf(nets, t.from), t.from, -NetOf(nets, u.from), u.from))
  {
    var cs, ds := SortedCreditors(nets), SortedDebtors(nets);
    SidesReady(nets);
    SidesOrdered(nets);
    assert Simplified(nets)[i] in Simplified(nets) && Simplified(nets)[j] in Simplified(nets);
    SimplifiedParties(nets, Simplified(nets)[i]);
    SimplifiedParties(nets, Simplified(nets)[j]);
    WalkAhead(cs, ds, i, j);
    FlippedWalk(cs, ds, i, j);
  }

  lemma FlippedWalk(cs: seq<Entry>, ds: seq<Entry>, i: nat, j: nat)
    requires Ready(cs, ds) && Ordered(ds, Larger()) && i < j < |Pair(cs, ds)|
    ensures var t, u := Pair(cs, ds)[i], Pair(cs, ds)[j];
      t.from == u.from || Ahead(AmountFor(ds, t.from), t.from, AmountFor(ds, u.from), u.from)
  {
    PairFlips(cs, ds);
    WalkAhead(ds, cs, i, j);
  }

  lemma SidesOrdered(nets: seq<NetBalance>)
    requires DistinctRows(nets)
    ensures Ordered(SortedCreditors(nets), Larger()) && Ordered(SortedDebtors(nets), Larger())
  {
    CreditorsOfRows(nets);
    SortedSide(Creditors(nets));
    DebtorsMirror(nets);
    CreditorsOfRows(Negated(nets));
    SortedSide(Debtors(nets));
  }

  lemma WalkAhead(cs: seq<Entry>, ds: seq<Entry>, i: nat, j: nat)
    requires Ready(cs, ds) && Ordered(cs, Larger()) && i < j < |Pair(cs, ds)|
    ensures var t, u := Pair(cs, ds)[i], Pair(cs, ds)[j];
      t.to == u.to || Ahead(AmountFor(cs, t.to), t.to, AmountFor(cs, u.to), u.to)
  {
    var t, u := Pair(cs, ds)[i], Pair(cs, ds)[j];
    PairParties(cs, ds);
    assert t in Pair(cs, ds) && u in Pair(cs, ds);
    var a :| 0 <= a < |cs| && cs[a].id == t.to;
    var b :| 0 <= b < |cs| && cs[b].id == u.to;
    PairWalks(cs, ds, i, j, a, b);
    AmountForAt(cs, a);
    AmountForAt(cs, b);
    if a < b {
      SortedAhead(cs, a, b);
    }
  }

  /** When one side cannot be settled in full, what remains is at its small end: whoever comes
      before a paid creditor (or a paying debtor) is done. */
  lemma SimplifiedResidue(nets: seq<NetBalance>, i: nat, j: nat)
    requires DistinctRows(nets) && i < j
    ensures var cs, ts := SortedCreditors(nets), Simplified(nets);
      j < |cs| && PaidTo(ts, cs[j].id) > 0 ==> PaidTo(ts, cs[i].id) == cs[i].amt
    ensures var ds, ts := SortedDebtors(nets), Simplified(nets);
      j < |ds| && PaidBy(ts, ds[j].id) > 0 ==> PaidBy(ts, ds[i].id) == ds[i].amt
  {
    var cs, ds := SortedCreditors(nets), SortedDebtors(nets);
    SidesReady(nets);
    if j < |cs| && PaidTo(Simplified(nets), cs[j].id) > 0 {
      PairPaysInOrder(cs, ds, i, j);
    }
    if j < |ds| && PaidBy(Simplified(nets), ds[j].id) > 0 {
      PairFlips(cs, ds);
      FlipSwaps(Pair(cs, ds), ds[i].id);
      FlipSwaps(Pair(cs, ds), ds[j].id);
      PairPaysInOrder(ds, cs, i, j);
    }
  }

  lemma OnSide(es: seq<Entry>, u: Id)
    requires Positive(es) && DistinctIds(es) && u in Ids(es)
    ensures AmountFor(es, u) > 0
  {
    var i :| 0 <= i < |es| && es[i].id == u;
    AmountForAt(es, i);
  }

  /** Each transfer is positive, from somebody who owes to somebody who is owed. */
  lemma SimplifiedParties(nets: seq<NetBalance>, t: Transfer)
    requires DistinctRows(nets) && t in Simplified(nets)
    ensures t.amount > 0 && t.from != t.to
    ensures NetOf(nets, t.to) > 0 > NetOf(nets, t.from)
  {
    SidesReady(nets);
    PairParties(SortedCreditors(nets), SortedDebtors(nets));
    OnSide(SortedCreditors(nets), t.to);
    OnSide(SortedDebtors(nets), t.from);
  }

  // -------------------------------------------------------------------- the program text

  /** Simplify: split by sign, sort both sides, then walk them with two indices, taking the
      smaller amount off both ends each time round. */
  method Simplify(nets: seq<NetBalance>) returns (out: seq<Transfer>)
    ensures out == Simplified(nets)
  {
    var creditors, debtors := [], [];
    for k := 0 to |nets|
      invariant creditors == Creditors(nets[..k]) && debtors == Debtors(nets[..k])
    {
      assert nets[..k + 1][..k] == nets[..k];
      if nets[k].net > 0 {
        creditors := creditors + [Entry(nets[k].user, nets[k].net)];
      } else if nets[k].net < 0 {
        debtors := debtors + [Entry(nets[k].user, -nets[k].net)];
      }
    }
    assert nets[..|nets|] == nets;
    creditors := Sort(creditors, Larger());
    debtors := Sort(debtors, Larger());
    out := PairOff(creditors, debtors);
  }

  /** The two-index walk. */
  method PairOff(creditors: seq<Entry>, debtors: seq<Entry>) returns (out: seq<Transfer>)
    ensures out == Pair(creditors, debtors)
  {
    var c := new Entry[|creditors|](k requires 0 <= k < |creditors| => creditors[k]);
    var d := new Entry[|debtors|](k requires 0 <= k < |debtors| => debtors[k]);
    assert c[0..] == creditors && d[0..] == debtors;
    var i, j := 0, 0;
    out := [];
    ghost var todo := Pair(creditors, debtors);
    while i < c.Length && j < d.Length
      invariant 0 <= i <= c.Length && 0 <= j <= d.Length
      invariant todo == Pair(c[i..], d[j..]) && out + todo == Pair(creditors, debtors)
      decreases c.Length - i + d.Length - j
    {
      ghost var cs, ds := c[i..], d[j..];
      var amt := c[i].amt;
      if d[j].amt < amt {
        amt := d[j].amt;
      }
      var round := if amt > 0 then [Transfer(d[j].id, c[i].id, amt)] else [];
      i := Take(c, i, amt);
      j := Take(d, j, amt);
      todo := Pair(Shrunk(cs, amt), Shrunk(ds, amt));
      PairRound(cs, ds, amt, out);
      out := out + round;
    }
    assert todo == [];
    assert out + todo == out;
  }

  lemma PairRound(cs: seq<Entry>, ds: seq<Entry>, amt: int, out: seq<Transfer>)
    requires |cs| > 0 && |ds| > 0 && amt == Min(cs[0].amt, ds[0].amt)
    ensures var round := if amt > 0 then [Transfer(ds[0].id, cs[0].id, amt)] else [];
      out + Pair(cs, ds) == out + round + Pair(Shrunk(cs, amt), Shrunk(ds, amt))
  {
  }

  /** Take amt off entry i in place, and step past it once it is used up. */
  method Take(a: array<Entry>, i: nat, amt: int) returns (next: nat)
    requires i < a.Length
    modifies a
    ensures next == if old(a[i].amt) == amt then i + 1 else i
    ensures a[next..] == Shrunk(old(a[i..]), amt)
  {
    a[i] := a[i].(amt := a[i].amt - amt);
    next := if a[i].amt == 0 then i + 1 else i;
    assert a[i..] == old(a[i..])[0 := a[i]];
    assert a[i + 1..] == old(a[i..])[1..];
  }

  // ---------------------------------------------------------- fewer transfers are possible

  const FIVE: seq<NetBalance> :=
    [NetBalance(1, 4), NetBalance(2, 3), NetBalance(3, 3), NetBalance(4, -6), NetBalance(5, -4)]

  const THREE: seq<Transfer> := [Transfer(5, 1, 4), Transfer(4, 2, 3), Transfer(4, 3, 3)]

  lemma FiveSides()
    ensures Creditors(FIVE) == [Entry(1, 4), Entry(2, 3), Entry(3, 3)]
    ensures Debtors(FIVE) == [Entry(4, 6), Entry(5, 4)]
  {
    assert FIVE[..4][..3] == FIVE[..3] && FIVE[..3][..2] == FIVE[..2] && FIVE[..2][..1] == FIVE[..1] && FIVE[..1][..0] == [];
    assert Creditors(FIVE[..1]) == [Entry(1, 4)] && Debtors(FIVE[..1]) == [];
    assert Creditors(FIVE[..2]) == [Entry(1, 4), Entry(2, 3)] && Debtors(FIVE[..2]) == [];
    assert Creditors(FIVE[..3]) == [Entry(1, 4), Entry(2, 3), Entry(3, 3)] && Debtors(FIVE[..3]) == [];
    assert Debtors(FIVE[..4]) == [Entry(4, 6)];
  }

  lemma GreedyFour()
    ensures |Simplified(FIVE)| == 4
  {
    FiveSides();
    var cs, ds := Creditors(FIVE), Debtors(FIVE);
    LargerIsStrict();
    SortIdentity(cs, Larger());
    SortIdentity(ds, Larger());
    assert |Pair([Entry(3, 3)], [Entry(5, 3)])| == 1;
    assert |Pair([Entry(2, 1), Entry(3, 3)], [Entry(5, 4)])| == 2;
    assert |Pair([Entry(2, 3), Entry(3, 3)], [Entry(4, 2), Entry(5, 4)])| == 3;
  }

  lemma {:induction false} SumOfThree<T>(xs: seq<T>, f: T -> int)
    requires |xs| == 3
    ensures SumOf(xs, f) == f(xs[0]) + f(xs[1]) + f(xs[2])
  {
    assert xs[..2][..1] == xs[..1] && xs[..1][..0] == [];
    assert SumOf(xs[..1], f) == f(xs[0]);
    assert SumOf(xs[..2], f) == f(xs[0]) + f(xs[1]);
  }

  lemma {:induction false} SumOfFive<T>(xs: seq<T>, f: T -> int)
    requires |xs| == 5
    ensures SumOf(xs, f) == f(xs[0]) + f(xs[1]) + f(xs[2]) + f(xs[3]) + f(xs[4])
  {
    SumOfThree(xs[..3], f);
    assert xs[..4][..3] == xs[..3];
    assert SumOf(xs[..4], f) == SumOf(xs[..3], f) + f(xs[3]);
  }

  /** Three transfers settle these five balances; the greedy pairing suggests four. */
  lemma NotMinimal()
    ensures |Simplified(FIVE)| == 4 && |THREE| == 3
    ensures forall u :: NetOf(FIVE, u) + PaidBy(THREE, u) - PaidTo(THREE, u) == 0
  {
    GreedyFour();
    forall u ensures NetOf(FIVE, u) + PaidBy(THREE, u) - PaidTo(THREE, u) == 0 {
      SumOfFive(FIVE, (n: NetBalance) => if n.user == u then n.net else 0);
      SumOfThree(THREE, (t: Transfer) => if t.from == u then t.amount else 0);
      SumOfThree(THREE, (t: Transfer) => if t.to == u then t.amount else 0);
    }
  }
}
