/** Rescaling stored splits to a new total. */
module Rescale {
  import opened Core
  import opened Apportion
  import opened Int64
  import opened Splits

  function WithCents(splits: seq<Split>, cents: seq<int>): (r: seq<Split>)
    requires |splits| == |cents|
    ensures |r| == |splits|
    ensures Cents(r) == cents
  {
    var r := seq(|splits|, i requires 0 <= i < |splits| => Split(splits[i].user, cents[i]));
    assert Cents(r) == cents;
    r
  }

  /** New shares in proportion to the old ones, over unbounded integers. Amounts are positive
      in the table; a total of zero leaves the shares alone. */
  function Rescaled(existing: seq<Split>, oldTotal: int, newTotal: int): (r: seq<Split>)
    ensures |r| == |existing|
    ensures forall i :: 0 <= i < |r| ==> r[i].user == existing[i].user
  {
    if oldTotal <= 0 || |existing| == 0 then existing
    else WithCents(existing, Apportioned(newTotal, Cents(existing), oldTotal))
  }

  /** Shares that fit their total before fit the new total after. */
  lemma RescaledSum(existing: seq<Split>, oldTotal: int, newTotal: int)
    requires oldTotal > 0 && |existing| > 0
    requires newTotal >= 0 && NonNegative(Cents(existing)) && Sum(Cents(existing)) == oldTotal
    ensures Sum(Cents(Rescaled(existing, oldTotal, newTotal))) == newTotal
    ensures NonNegative(Cents(Rescaled(existing, oldTotal, newTotal)))
  {
    ApportionedSum(newTotal, Cents(existing), oldTotal);
    ApportionedNonNegative(newTotal, Cents(existing), oldTotal);
  }

  /** Every share keeps its proportion to within one cent, and the remainder is too small for
      the hand-out to come round to a row twice. */
  lemma RescaledProportions(existing: seq<Split>, oldTotal: int, newTotal: int, i: nat)
    requires oldTotal > 0 && i < |existing| && Sum(Cents(existing)) == oldTotal
    ensures 0 <= Leftover(newTotal, Cents(existing), oldTotal) < |existing|
    ensures var exact := newTotal * existing[i].cents / oldTotal;
      Rescaled(existing, oldTotal, newTotal)[i].cents
      == exact + if i < Leftover(newTotal, Cents(existing), oldTotal) then 1 else 0
  {
    LeftoverBelowRows(newTotal, Cents(existing), oldTotal);
  }

  /** From T to k * T and back gives the original shares, cent for cent. */
  lemma RescaledThereAndBack(existing: seq<Split>, total: int, k: int)
    requires total > 0 && k > 0 && |existing| > 0 && Sum(Cents(existing)) == total
    ensures Rescaled(Rescaled(existing, total, k * total), k * total, total) == existing
  {
    ApportionedThereAndBack(Cents(existing), total, k);
    var back := Rescaled(Rescaled(existing, total, k * total), k * total, total);
    assert Cents(back) == Cents(existing);
    forall i | 0 <= i < |existing| ensures back[i] == existing[i] {
      assert Cents(back)[i] == Cents(existing)[i];
    }
  }

  // ----------------------------------------------------------------------------- on int64

  /** How many of `count` cents row k gets when they are dealt one by one round the n rows. */
  function Dealt(count: int, n: nat, k: nat): int
    requires n > 0
    decreases count
  {
    if count <= 0 then 0
    else Dealt(count - 1, n, k) + if (count - 1) % n == k then 1 else 0
  }

  lemma {:induction false} DealtBelowRows(count: int, n: nat, k: nat)
    requires n > 0 && count <= n && k < n
    ensures Dealt(count, n, k) == if k < count then 1 else 0
    decreases count
  {
    if count > 0 {
      DealtBelowRows(count - 1, n, k);
      assert (count - 1) % n == count - 1;
    }
  }

  function Rescaled64(existing: seq<Split>, oldTotal: int, newTotal: int): (r: seq<Split>)
    ensures |r| == |existing|
    ensures forall i :: 0 <= i < |r| ==> r[i].user == existing[i].user
  {
    if oldTotal == 0 || |existing| == 0 then existing
    else
      var quotients := Quotients64(newTotal, Cents(existing), oldTotal);
      var rem := Wrap(newTotal - Wrap(Sum(quotients)));
      WithCents(existing, DealtOut(quotients, rem))
  }

  /** The quotients after the remainder was dealt round them. */
  function DealtOut(quotients: seq<int>, rem: int): (r: seq<int>)
    requires |quotients| > 0
    ensures |r| == |quotients|
  {
    var n := |quotients|;
    seq(n, i requires 0 <= i < n => Wrap(quotients[i] + Dealt(rem, n, i)))
  }

  /** The program's arithmetic is the intended one as long as the new total times each stored
      share stays below 2^63. */
  lemma Rescaled64Fits(existing: seq<Split>, oldTotal: int, newTotal: int)
    requires 0 < oldTotal < TWO_63 && 0 < newTotal < TWO_63 && ProductsFit(newTotal, Cents(existing))
    requires |existing| > 0 && NonNegative(Cents(existing)) && Sum(Cents(existing)) == oldTotal
    ensures Rescaled64(existing, oldTotal, newTotal) == Rescaled(existing, oldTotal, newTotal)
  {
    DealtFits(newTotal, Cents(existing), oldTotal);
  }

  function AllDealtTo(n: nat, count: int): (r: seq<int>)
    requires n > 0
    ensures |r| == n
  {
    seq(n, i requires 0 <= i < n => Dealt(count, n, i))
  }

  /** Dealing count cents hands out count cents. */
  lemma {:induction false} AllDealtSum(n: nat, count: int)
    requires n > 0
    ensures Sum(AllDealtTo(n, count)) == if count > 0 then count else 0
    ensures forall i :: 0 <= i < n ==> 0 <= AllDealtTo(n, count)[i] <= if count > 0 then count else 0
    decreases count
  {
    var dealt := AllDealtTo(n, count);
    if count > 0 {
      AllDealtSum(n, count - 1);
      var at := (count - 1) % n;
      assert dealt == AllDealtTo(n, count - 1)[at := AllDealtTo(n, count - 1)[at] + 1];
      SumAtOneMore(AllDealtTo(n, count - 1), at);
    } else {
      SumZeros(dealt);
    }
  }

  lemma {:induction false} SumZeros(s: seq<int>)
    requires forall i :: 0 <= i < |s| ==> s[i] == 0
    ensures Sum(s) == 0
  {
    if |s| > 0 {
      SumZeros(s[..|s| - 1]);
    }
  }

  lemma {:induction false} SumAtOneMore(s: seq<int>, at: nat)
    requires at < |s|
    ensures Sum(s[at := s[at] + 1]) == Sum(s) + 1
  {
    var n, t := |s| - 1, s[at := s[at] + 1];
    if at < n {
      SumAtOneMore(s[..n], at);
      assert t[..n] == s[..n][at := s[at] + 1];
    } else {
      assert t[..n] == s[..n];
    }
  }

  /** Rescaled shares that the table accepts add up to the new total, whichever products
      overflowed. */
  lemma Rescaled64Sum(existing: seq<Split>, oldTotal: int, newTotal: int)
    requires 0 < oldTotal < TWO_63 && 0 < newTotal < TWO_63 && |existing| > 0
    requires NonNegative(Cents(existing)) && Sum(Cents(existing)) == oldTotal
    requires NonNegative(Cents(Rescaled64(existing, oldTotal, newTotal)))
    ensures Sum(Cents(Rescaled64(existing, oldTotal, newTotal))) == newTotal
  {
    QuotientsAtMost(newTotal, Cents(existing), oldTotal);
    DealtOutSum(Quotients64(newTotal, Cents(existing), oldTotal), newTotal);
  }

  lemma DealtOutSum(quotients: seq<int>, amount: int)
    requires 0 < amount < TWO_63 && |quotients| > 0 && Sum(quotients) <= amount
    requires forall i :: 0 <= i < |quotients| ==> IsInt64(quotients[i])
    requires NonNegative(DealtOut(quotients, Wrap(amount - Wrap(Sum(quotients)))))
    ensures Sum(DealtOut(quotients, Wrap(amount - Wrap(Sum(quotients))))) == amount
  {
    var rem := Wrap(amount - Wrap(Sum(quotients)));
    AllDealtSum(|quotients|, rem);
    HandedOutSum(quotients, AllDealtTo(|quotients|, rem), DealtOut(quotients, rem), amount);
  }

  /** The rows get count / n cents each and the first count % n one more. */
  lemma {:induction false} DealtRounds(count: nat, n: nat, k: nat)
    requires n > 0 && k < n
    ensures Dealt(count, n, k) == count / n + if k < count % n then 1 else 0
  {
    if count > 0 {
      DealtRounds(count - 1, n, k);
      NextRound(count - 1, n);
    }
  }

  /** Earlier rows are never dealt less, and never more than one cent more. */
  lemma DealtEvenly(count: int, n: nat, j: nat, k: nat)
    requires n > 0 && j < k < n
    ensures Dealt(count, n, k) <= Dealt(count, n, j) <= Dealt(count, n, k) + 1
    ensures 0 <= Dealt(count, n, j) && 0 <= Dealt(count, n, k)
  {
    if count > 0 {
      DealtRounds(count, n, j);
      DealtRounds(count, n, k);
    }
  }

  lemma {:induction false} DealtAtMost(count: int, n: nat, k: nat)
    requires n > 0
    ensures 0 <= Dealt(count, n, k) <= if count > 0 then count else 0
    decreases count
  {
    if count > 0 {
      DealtAtMost(count - 1, n, k);
    }
  }

  /** With old totals up to 2^62 and one share whose product fits, the program's arithmetic is
      the intended one exactly when every product fits. */
  lemma Rescaled64Exactly(existing: seq<Split>, oldTotal: int, newTotal: int, fitting: nat)
    requires 0 < oldTotal <= TWO_63 / 2 && 0 < newTotal < TWO_63
    requires NonNegative(Cents(existing)) && Sum(Cents(existing)) == oldTotal
    requires fitting < |existing| && newTotal * existing[fitting].cents < TWO_63
    ensures Rescaled64(existing, oldTotal, newTotal) == Rescaled(existing, oldTotal, newTotal)
       <==> ProductsFit(newTotal, Cents(existing))
  {
    var ws := Cents(existing);
    if ProductsFit(newTotal, ws) {
      Rescaled64Fits(existing, oldTotal, newTotal);
    } else {
      var j :| 0 <= j < |ws| && newTotal * ws[j] >= TWO_63;
      if Rescaled64(existing, oldTotal, newTotal) == Rescaled(existing, oldTotal, newTotal) {
        RowGotItsShare(existing, oldTotal, newTotal, fitting);
        RowGotItsShare(existing, oldTotal, newTotal, j);
        Uneven(newTotal, ws, oldTotal, fitting, j);
      }
    }
  }

  function Remainder64(amount: int, ws: seq<int>, total: int): int
    requires total != 0
  {
    Wrap(amount - Wrap(Sum(Quotients64(amount, ws, total))))
  }

  /** How far the wrapped quotient of row i is below the floor of its proportion. */
  function Lack(amount: int, ws: seq<int>, total: int, i: nat): int
    requires total > 0 && i < |ws|
  {
    Floors(amount, ws, total)[i] - Quotients64(amount, ws, total)[i]
  }

  function Extra(amount: int, ws: seq<int>, total: int, i: nat): int
    requires total > 0
  {
    if i < Leftover(amount, ws, total) then 1 else 0
  }

  lemma WrapOnto(q: int, dealt: int, share: int)
    requires IsInt64(q) && 0 <= dealt < TWO_63 && 0 <= share < TWO_63 && Wrap(q + dealt) == share
    ensures q + dealt == share
  {
  }

  /** A row that came out right was dealt exactly what it lacked. */
  lemma RowGotItsShare(existing: seq<Split>, oldTotal: int, newTotal: int, i: nat)
    requires 0 < oldTotal < TWO_63 && 0 < newTotal < TWO_63 && i < |existing|
    requires NonNegative(Cents(existing)) && Sum(Cents(existing)) == oldTotal
    requires Rescaled64(existing, oldTotal, newTotal) == Rescaled(existing, oldTotal, newTotal)
    ensures var ws := Cents(existing);
      Dealt(Remainder64(newTotal, ws, oldTotal), |ws|, i) == Lack(newTotal, ws, oldTotal, i) + Extra(newTotal, ws, oldTotal, i)
  {
    var ws := Cents(existing);
    var rem := Remainder64(newTotal, ws, oldTotal);
    assert Cents(Rescaled64(existing, oldTotal, newTotal))[i] == Cents(Rescaled(existing, oldTotal, newTotal))[i];
    ShareBounds(newTotal, ws, oldTotal, i);
    DealtAtMost(rem, |ws|, i);
    WrapOnto(Quotients64(newTotal, ws, oldTotal)[i], Dealt(rem, |ws|, i), Apportioned(newTotal, ws, oldTotal)[i]);
  }

  /** One row lacks nothing but its own extra cent, the other at least two cents more; the deal
      favours earlier rows by a cent at most, as the extra cents do. */
  lemma CannotEvenOut(lacksJ: int, dealtI: int, dealtJ: int, extraI: int, extraJ: int, iFirst: bool)
    requires lacksJ >= 2 && 0 <= extraI <= 1 && 0 <= extraJ <= 1
    requires iFirst ==> dealtJ <= dealtI <= dealtJ + 1 && extraJ <= extraI
    requires !iFirst ==> dealtI <= dealtJ <= dealtI + 1 && extraI <= extraJ
    ensures !(dealtI == extraI && dealtJ == lacksJ + extraJ)
  {
  }

  /** A row whose product overflowed lacks at least two cents and a row whose product fits none,
      which dealing cent by cent round the rows cannot even out. */
  lemma Uneven(amount: int, ws: seq<int>, total: int, i: nat, j: nat)
    requires 0 < total <= TWO_63 / 2 && 0 < amount < TWO_63 && NonNegative(ws)
    requires i < |ws| && j < |ws| && amount * ws[i] < TWO_63 <= amount * ws[j]
    ensures var dealt := Remainder64(amount, ws, total);
      !(Dealt(dealt, |ws|, i) == Lack(amount, ws, total, i) + Extra(amount, ws, total, i)
        && Dealt(dealt, |ws|, j) == Lack(amount, ws, total, j) + Extra(amount, ws, total, j))
  {
    LacksNone(amount, ws, total, i);
    LacksTwo(amount, ws, total, j);
    UnevenDeal(Remainder64(amount, ws, total), |ws|, i, j, Lack(amount, ws, total, j), Leftover(amount, ws, total));
  }

  lemma UnevenDeal(rem: int, n: nat, i: nat, j: nat, lacksJ: int, left: int)
    requires i < n && j < n && i != j && lacksJ >= 2
    ensures !(Dealt(rem, n, i) == (if i < left then 1 else 0) && Dealt(rem, n, j) == lacksJ + if j < left then 1 else 0)
  {
    DealtEvenly(rem, n, if i < j then i else j, if i < j then j else i);
    CannotEvenOut(lacksJ, Dealt(rem, n, i), Dealt(rem, n, j), if i < left then 1 else 0, if j < left then 1 else 0, i < j);
  }

  lemma LacksNone(amount: int, ws: seq<int>, total: int, i: nat)
    requires total > 0 && amount >= 0 && NonNegative(ws) && i < |ws| && amount * ws[i] < TWO_63
    ensures Lack(amount, ws, total, i) == 0
  {
    QuotientFits(amount, ws[i], total);
  }

  lemma LacksTwo(amount: int, ws: seq<int>, total: int, i: nat)
    requires 0 < total <= TWO_63 / 2 && i < |ws| && amount * ws[i] >= TWO_63
    ensures Lack(amount, ws, total, i) >= 2
  {
    OverflowedQuotient(amount * ws[i], total);
  }

  /** Shares of an amount below 2^63 are themselves below it. */
  lemma ShareBounds(amount: int, ws: seq<int>, total: int, i: nat)
    requires total > 0 && 0 < amount < TWO_63 && NonNegative(ws) && Sum(ws) == total && i < |ws|
    ensures 0 <= Apportioned(amount, ws, total)[i] < TWO_63
  {
    ApportionedSum(amount, ws, total);
    ApportionedNonNegative(amount, ws, total);
    SumNonNegative(Apportioned(amount, ws, total));
  }

  /** Dealing the wrapped remainder round the wrapped quotients is the apportionment. */
  lemma DealtFits(amount: int, ws: seq<int>, total: int)
    requires 0 <= amount < TWO_63 && 0 < total < TWO_63 && |ws| > 0
    requires NonNegative(ws) && Sum(ws) == total && ProductsFit(amount, ws)
    ensures var quotients := Quotients64(amount, ws, total);
      var rem := Wrap(amount - Wrap(Sum(quotients)));
      DealtOut(quotients, rem) == Apportioned(amount, ws, total)
  {
    QuotientsFit(amount, ws, total);
    WeightedFits(amount, ws, total);
    LeftoverBelowRows(amount, ws, total);
    DealtIsHandedOut(Floors(amount, ws, total), Leftover(amount, ws, total));
  }

  lemma DealtIsHandedOut(quotients: seq<int>, rem: int)
    requires rem < |quotients| && |quotients| > 0
    ensures DealtOut(quotients, rem)
         == seq(|quotients|, i requires 0 <= i < |quotients| => Wrap(quotients[i] + if i < rem then 1 else 0))
  {
    var n := |quotients|;
    forall i | 0 <= i < n ensures Dealt(rem, n, i) == if i < rem then 1 else 0 {
      DealtBelowRows(rem, n, i);
    }
  }

  lemma QuotientsFit(amount: int, ws: seq<int>, total: int)
    requires 0 <= amount < TWO_63 && 0 < total < TWO_63 && |ws| > 0
    requires NonNegative(ws) && Sum(ws) == total && ProductsFit(amount, ws)
    ensures Quotients64(amount, ws, total) == Floors(amount, ws, total)
    ensures Wrap(amount - Wrap(Sum(Quotients64(amount, ws, total)))) == Leftover(amount, ws, total)
  {
    var fl := Floors(amount, ws, total);
    forall i | 0 <= i < |ws| ensures Quotients64(amount, ws, total)[i] == fl[i] && fl[i] >= 0 {
      QuotientFits(amount, ws[i], total);
    }
    assert Quotients64(amount, ws, total) == fl;
    LeftoverBelowRows(amount, ws, total);
    SumNonNegative(fl);
  }

  lemma QuotientFits(amount: int, w: int, total: int)
    requires amount >= 0 && w >= 0 && total > 0 && amount * w < TWO_63
    ensures MulDiv(amount, w, total) == amount * w / total >= 0
  {
    assert amount * w >= 0;
    QuotientAtMost(amount * w, total);
  }

  /** Past the bound it can go wrong: four cents for rows of 2^62 - 1 and 1 come out two and two. */
  lemma BeyondRescale64()
    ensures var e := [Split(1, TWO_63 / 2 - 1), Split(2, 1)];
      && Rescaled64(e, TWO_63 / 2, 4) == [Split(1, 2), Split(2, 2)]
      && Rescaled(e, TWO_63 / 2, 4) == [Split(1, 4), Split(2, 0)]
  {
    var t := TWO_63 / 2;
    var e := [Split(1, t - 1), Split(2, 1)];
    var ws := [t - 1, 1];
    assert Cents(e) == ws;
    FourCents(t, ws);
    SumOfTwo(0, 0);
    DealFour();
  }

  lemma DealFour()
    ensures Dealt(4, 2, 0) == 2 && Dealt(4, 2, 1) == 2
  {
    assert Dealt(2, 2, 0) == 1 && Dealt(2, 2, 1) == 1;
  }

  lemma FourCents(t: int, ws: seq<int>)
    requires t == TWO_63 / 2 && ws == [t - 1, 1]
    ensures Apportioned(4, ws, t) == [4, 0] && Quotients64(4, ws, t) == [0, 0]
  {
    assert Floors(4, ws, t) == [3, 0];
    SumOfTwo(3, 0);
  }

  lemma SumOfTwo(x: int, y: int)
    ensures Sum([x, y]) == x + y
  {
    SumOfOne(x);
    assert [x, y][..1] == [x];
  }

  /** rescaleSplits: quotients in place, then the leftover cents dealt round the rows. */
  method RescaleSplits(existing: seq<Split>, oldTotal: int, newTotal: int) returns (r: seq<Split>)
    ensures r == Rescaled64(existing, oldTotal, newTotal)
  {
    var n := |existing|;
    var out := new Split[n](i requires 0 <= i < n => existing[i]);
    assert out[..] == existing;
    if oldTotal == 0 || n == 0 {
      return out[..];
    }
    var handed := ScaleRows(out, existing, oldTotal, newTotal);
    DealRound(out, existing, Quotients64(newTotal, Cents(existing), oldTotal), Wrap(newTotal - handed));
    r := out[..];
    AllDealt(existing, Quotients64(newTotal, Cents(existing), oldTotal), Wrap(newTotal - handed), r);
  }

  lemma AllDealt(existing: seq<Split>, quotients: seq<int>, rem: int, r: seq<Split>)
    requires |r| == |existing| == |quotients| > 0
    requires forall k :: 0 <= k < |r| ==> r[k] == Split(existing[k].user, Wrap(quotients[k] + Dealt(rem, |existing|, k)))
    ensures r == WithCents(existing, DealtOut(quotients, rem))
  {
  }

  /** The quotient loop: every share scaled in place, with the running sum. */
  method ScaleRows(out: array<Split>, existing: seq<Split>, oldTotal: int, newTotal: int) returns (handed: int)
    requires oldTotal != 0 && out[..] == existing
    modifies out
    ensures handed == Wrap(Sum(Quotients64(newTotal, Cents(existing), oldTotal)))
    ensures forall k :: 0 <= k < |existing| ==>
      out[k] == Split(existing[k].user, Quotients64(newTotal, Cents(existing), oldTotal)[k])
  {
    ghost var quotients := Quotients64(newTotal, Cents(existing), oldTotal);
    handed := 0;
    for i := 0 to out.Length
      invariant handed == Wrap(Sum(quotients[..i]))
      invariant forall k :: i <= k < out.Length ==> out[k] == existing[k]
      invariant forall k :: 0 <= k < i ==> out[k] == Split(existing[k].user, quotients[k])
    {
      var share := MulDiv(newTotal, out[i].cents, oldTotal);
      assert share == quotients[i];
      SumPrefix(quotients, i);
      WrapStep(Sum(quotients[..i]), quotients[i]);
      out[i] := out[i].(cents := share);
      handed := Wrap(handed + share);
    }
    assert quotients[..out.Length] == quotients;
  }

  /** The remainder loop: cent number i goes to row i mod n. */
  method DealRound(out: array<Split>, existing: seq<Split>, ghost shares: seq<int>, rem: int)
    requires out.Length == |existing| == |shares| > 0
    requires forall k :: 0 <= k < |existing| ==> out[k] == Split(existing[k].user, Wrap(shares[k]))
    modifies out
    ensures forall k :: 0 <= k < |existing| ==>
      out[k] == Split(existing[k].user, Wrap(shares[k] + Dealt(rem, |existing|, k)))
  {
    var i, n := 0, out.Length;
    while i < rem
      invariant 0 <= i && (i <= rem || rem <= 0 == i)
      invariant forall k :: 0 <= k < n ==>
        out[k] == Split(existing[k].user, Wrap(shares[k] + Dealt(i, n, k)))
    {
      var at := i % n;
      WrapStep(shares[at] + Dealt(i, n, at), 1);
      out[at] := out[at].(cents := Wrap(out[at].cents + 1));
      i := i + 1;
    }
  }
}
