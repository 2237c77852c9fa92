/** The split resolver: user input plus a mode become one share in cents per user. */
module Splits {
  import opened Core
  import opened Apportion
  import opened Int64

  datatype Mode = Equal | Exact | Percent | Shares | Other(name: string)

  /** value means cents in exact mode, basis points in percent mode, a weight in shares mode. */
  datatype SplitInput = SplitInput(user: Id, value: int)

  datatype Split = Split(user: Id, cents: int)

  datatype BadSplit =
    | NoSplits
    | DuplicateUser
    | NegativeExact
    | WrongExactSum
    | NegativePercent
    | WrongPercentSum
    | NonPositiveWeight
    | UnknownMode

  type Resolution = Result<seq<Split>, BadSplit>

  /** What a call does: it returns, or an index or a division makes the runtime panic. */
  datatype Outcome = Returned(resolution: Resolution) | Panicked

  const WHOLE: int := 10000

  function Values(input: seq<SplitInput>): (r: seq<int>)
    ensures |r| == |input|
  {
    seq(|input|, i requires 0 <= i < |input| => input[i].value)
  }

  function Cents(splits: seq<Split>): (r: seq<int>)
    ensures |r| == |splits|
  {
    seq(|splits|, i requires 0 <= i < |splits| => splits[i].cents)
  }

  function Ones(n: nat): (r: seq<int>)
    ensures |r| == n
  {
    seq(n, i => 1)
  }

  /** The users in input order, each with the share at the same position. */
  function Assign(input: seq<SplitInput>, cents: seq<int>): (r: seq<Split>)
    requires |input| == |cents|
    ensures |r| == |input|
  {
    seq(|input|, i requires 0 <= i < |input| => Split(input[i].user, cents[i]))
  }

  predicate DistinctInput(input: seq<SplitInput>) {
    forall i, j :: 0 <= i < j < |input| ==> input[i].user != input[j].user
  }

  predicate DistinctUsers(splits: seq<Split>) {
    forall i, j :: 0 <= i < j < |splits| ==> splits[i].user != splits[j].user
  }

  predicate AllAtLeast(vs: seq<int>, low: int) {
    forall i :: 0 <= i < |vs| ==> vs[i] >= low
  }

  // --------------------------------------------------------- the resolver on integers

  /** The resolver over unbounded integers. */
  function Resolve(mode: Mode, amount: int, input: seq<SplitInput>): Resolution {
    if |input| == 0 then Err(NoSplits)
    else if !DistinctInput(input) then Err(DuplicateUser)
    else
      var vs := Values(input);
      match mode
      case Equal => Ok(Assign(input, Apportioned(amount, Ones(|input|), |input|)))
      case Exact =>
        if !AllAtLeast(vs, 0) then Err(NegativeExact)
        else if Sum(vs) != amount then Err(WrongExactSum)
        else Ok(Assign(input, vs))
      case Percent =>
        if !AllAtLeast(vs, 0) then Err(NegativePercent)
        else if Sum(vs) != WHOLE then Err(WrongPercentSum)
        else Ok(Assign(input, Apportioned(amount, vs, WHOLE)))
      case Shares =>
        if !AllAtLeast(vs, 1) then Err(NonPositiveWeight)
        else
          SumAtLeastLength(vs);
          Ok(Assign(input, Apportioned(amount, vs, Sum(vs))))
      case Other(_) => Err(UnknownMode)
  }

  lemma {:induction false} SumAtLeastLength(vs: seq<int>)
    requires AllAtLeast(vs, 1)
    ensures Sum(vs) >= |vs|
  {
    if |vs| > 0 {
      SumAtLeastLength(vs[..|vs| - 1]);
    }
  }

  lemma {:induction false} SumOnes(n: nat)
    ensures Sum(Ones(n)) == n
  {
    if n > 0 {
      SumOnes(n - 1);
      assert Ones(n)[..n - 1] == Ones(n - 1);
    }
  }

  /** Which rows a resolved split has: the input's users in the input's order, and a weight
      and a total that the shares are proportional to. */
  lemma ResolvedShape(mode: Mode, amount: int, input: seq<SplitInput>)
    requires Resolve(mode, amount, input).Ok?
    ensures |Resolve(mode, amount, input).value| == |input| > 0
    ensures forall i :: 0 <= i < |input| ==> Resolve(mode, amount, input).value[i].user == input[i].user
    ensures DistinctUsers(Resolve(mode, amount, input).value)
  {
  }

  /** What the resolver accepts, mode by mode, and in exact mode what it answers: each user the
      value given. */
  lemma ResolvableExactly(mode: Mode, amount: int, input: seq<SplitInput>)
    ensures Resolve(mode, amount, input).Ok? <==>
      && |input| > 0
      && (forall i, j :: 0 <= i < j < |input| ==> input[i].user != input[j].user)
      && match mode
         case Equal => true
         case Exact => (forall i :: 0 <= i < |input| ==> input[i].value >= 0) && Sum(Values(input)) == amount
         case Percent => (forall i :: 0 <= i < |input| ==> input[i].value >= 0) && Sum(Values(input)) == 10000
         case Shares => forall i :: 0 <= i < |input| ==> input[i].value > 0
         case Other(_) => false
    ensures Resolve(mode, amount, input) == Err(NoSplits) <==> |input| == 0
    ensures Resolve(mode, amount, input) == Err(DuplicateUser) <==>
      exists i, j :: 0 <= i < j < |input| && input[i].user == input[j].user
    ensures mode == Exact && Resolve(mode, amount, input).Ok? ==>
      forall i :: 0 <= i < |input| ==> Resolve(mode, amount, input).value[i] == Split(input[i].user, input[i].value)
  {
    var vs := Values(input);
    assert forall i :: 0 <= i < |input| ==> vs[i] == input[i].value;
  }

  /** Conservation: the shares of an accepted split add up to the amount, in every mode. */
  lemma ResolvedSum(mode: Mode, amount: int, input: seq<SplitInput>)
    requires Resolve(mode, amount, input).Ok?
    ensures Sum(Cents(Resolve(mode, amount, input).value)) == amount
  {
    var vs, r := Values(input), Resolve(mode, amount, input).value;
    match mode
    case Equal =>
      SumOnes(|input|);
      ApportionedSum(amount, Ones(|input|), |input|);
      assert Cents(r) == Apportioned(amount, Ones(|input|), |input|);
    case Exact =>
      assert Cents(r) == vs;
    case Percent =>
      ApportionedSum(amount, vs, WHOLE);
      assert Cents(r) == Apportioned(amount, vs, WHOLE);
    case Shares =>
      SumAtLeastLength(vs);
      ApportionedSum(amount, vs, Sum(vs));
      assert Cents(r) == Apportioned(amount, vs, Sum(vs));
    case Other(_) =>
  }

  lemma ResolvedNonNegative(mode: Mode, amount: int, input: seq<SplitInput>)
    requires amount >= 0 && Resolve(mode, amount, input).Ok?
    ensures NonNegative(Cents(Resolve(mode, amount, input).value))
  {
    var vs := Values(input);
    match mode
    case Equal => ApportionedNonNegative(amount, Ones(|input|), |input|);
    case Exact =>
    case Percent => ApportionedNonNegative(amount, vs, WHOLE);
    case Shares =>
      SumAtLeastLength(vs);
      ApportionedNonNegative(amount, vs, Sum(vs));
    case Other(_) =>
  }

  /** Percent and shares modes: each share is the floor of the exact proportion or one cent
      more, the extra cents go to a prefix, and the prefix is shorter than the list. */
  lemma ResolvedProportions(mode: Mode, amount: int, input: seq<SplitInput>)
    requires mode.Percent? || mode.Shares?
    requires Resolve(mode, amount, input).Ok?
    ensures var vs := Values(input);
      var total := if mode.Percent? then WHOLE else Sum(vs);
      total > 0 && Sum(vs) == total &&
      0 <= Leftover(amount, vs, total) < |input| &&
      forall i :: 0 <= i < |input| ==>
        Resolve(mode, amount, input).value[i].cents
        == amount * vs[i] / total + if i < Leftover(amount, vs, total) then 1 else 0
  {
    var vs := Values(input);
    if mode.Shares? {
      SumAtLeastLength(vs);
    }
    LeftoverBelowRows(amount, vs, if mode.Percent? then WHOLE else Sum(vs));
  }

  /** Equal mode: earlier rows never get less, and no two rows differ by more than a cent. */
  lemma EqualSharesFair(amount: int, input: seq<SplitInput>, i: nat, j: nat)
    requires Resolve(Equal, amount, input).Ok? && i <= j < |input|
    ensures var r := Resolve(Equal, amount, input).value;
      r[j].cents <= r[i].cents <= r[j].cents + 1
  {
    var n := |input|;
    var fl := Floors(amount, Ones(n), n);
    assert fl[i] == amount * 1 / n && fl[j] == amount * 1 / n;
  }

  // ------------------------------------------------------------ the resolver on int64

  function Quotients64(amount: int, vs: seq<int>, total: int): (r: seq<int>)
    requires total != 0
    ensures |r| == |vs|
    ensures forall i :: 0 <= i < |vs| ==> IsInt64(r[i])
  {
    seq(|vs|, i requires 0 <= i < |vs| => MulDiv(amount, vs[i], total))
  }

  /** Percent and shares modes on int64; None is an index past the last row. */
  function Weighted64(amount: int, vs: seq<int>, total: int): (r: Option<seq<int>>)
    requires total != 0
    ensures r.Some? ==> |r.value| == |vs|
  {
    var quotients := Quotients64(amount, vs, total);
    var rem := Wrap(amount - Wrap(Sum(quotients)));
    if rem > |vs| then None
    else Some(seq(|vs|, i requires 0 <= i < |vs| => Wrap(quotients[i] + if i < rem then 1 else 0)))
  }

  function Finish64(input: seq<SplitInput>, cents: Option<seq<int>>): Outcome
    requires cents.Some? ==> |cents.value| == |input|
  {
    if cents.Some? then Returned(Ok(Assign(input, cents.value))) else Panicked
  }

  /** The resolver as the program runs it: sums, products and quotients wrap. */
  function Resolve64(mode: Mode, amount: int, input: seq<SplitInput>): Outcome {
    if |input| == 0 then Returned(Err(NoSplits))
    else if !DistinctInput(input) then Returned(Err(DuplicateUser))
    else
      var vs := Values(input);
      match mode
      case Equal =>
        var base := Truncated(amount, |input|);
        var rem := amount - base * |input|;
        Returned(Ok(Assign(input, seq(|input|, i => base + if i < rem then 1 else 0))))
      case Exact =>
        if !AllAtLeast(vs, 0) then Returned(Err(NegativeExact))
        else if Wrap(Sum(vs)) != amount then Returned(Err(WrongExactSum))
        else Returned(Ok(Assign(input, vs)))
      case Percent =>
        if !AllAtLeast(vs, 0) then Returned(Err(NegativePercent))
        else if Wrap(Sum(vs)) != WHOLE then Returned(Err(WrongPercentSum))
        else Finish64(input, Weighted64(amount, vs, WHOLE))
      case Shares =>
        if !AllAtLeast(vs, 1) then Returned(Err(NonPositiveWeight))
        else if Wrap(Sum(vs)) == 0 then Panicked
        else Finish64(input, Weighted64(amount, vs, Wrap(Sum(vs))))
      case Other(_) => Returned(Err(UnknownMode))
  }

  predicate ProductsFit(amount: int, vs: seq<int>) {
    forall i :: 0 <= i < |vs| ==> amount * vs[i] < TWO_63
  }

  lemma {:induction false} WeightedFits(amount: int, vs: seq<int>, total: int)
    requires 0 <= amount < TWO_63 && 0 < total < TWO_63 && |vs| > 0
    requires AllAtLeast(vs, 0) && Sum(vs) == total && ProductsFit(amount, vs)
    ensures Weighted64(amount, vs, total) == Some(Apportioned(amount, vs, total))
  {
    var quotients := Quotients64(amount, vs, total);
    var fl := Floors(amount, vs, total);
    forall i | 0 <= i < |vs| ensures quotients[i] == fl[i] && fl[i] >= 0 {
      assert amount * vs[i] >= 0;
      assert Wrap(amount * vs[i]) == amount * vs[i];
      FloorBounds(amount * vs[i], total);
      QuotientAtMost(amount * vs[i], total);
    }
    assert quotients == fl;
    LeftoverBelowRows(amount, vs, total);
    SumNonNegative(fl);
    assert Wrap(Sum(fl)) == Sum(fl);
    ApportionedSum(amount, vs, total);
    ApportionedNonNegative(amount, vs, total);
    SumNonNegative(Apportioned(amount, vs, total));
    assert Weighted64(amount, vs, total).value == Apportioned(amount, vs, total);
  }

  lemma QuotientAtMost(p: int, t: int)
    requires p >= 0 && t > 0
    ensures 0 <= p / t <= p
  {
    FloorBounds(p, t);
    if p / t > p {
      MulMono(p / t, 1, t);
      assert false;
    }
  }

  /** A product that does not fit changes the share of its own row. */
  lemma WeightedOverflows(amount: int, vs: seq<int>, total: int, i: nat)
    requires 0 < total <= TWO_63 / 2 && i < |vs| && amount * vs[i] >= TWO_63
    ensures Weighted64(amount, vs, total) != Some(Apportioned(amount, vs, total))
  {
    OverflowedQuotient(amount * vs[i], total);
    var w, q := Weighted64(amount, vs, total), MulDiv(amount, vs[i], total);
    var p := amount * vs[i] / total;
    assert q + 1 < p;
    assert Apportioned(amount, vs, total)[i] >= p;
    if w.Some? {
      assert w.value[i] == Wrap(q) || w.value[i] == Wrap(q + 1);
    }
  }

  lemma OverflowedQuotient(p: int, total: int)
    requires 0 < total <= TWO_63 / 2 && p >= TWO_63
    ensures Wrap(Truncated(Wrap(p), total)) + 1 < p / total
  {
    var w := Wrap(p);
    FloorBounds(p, total);
    if w >= 0 {
      FloorBounds(w, total);
      QuotientAtMost(w, total);
      var a, b := w / total, p / total;
      assert total * (a + 1) == total * a + total;
      if a + 1 >= b {
        MulMono(total, b, a + 1);
        assert false;
      }
    } else {
      QuotientAtMost(-w, total);
      assert Truncated(w, total) <= 0;
      if p / total < 2 {
        MulMono(total, p / total, 1);
        assert false;
      }
    }
  }

  /** The input passes the checks that come before any sum. */
  predicate Screened(mode: Mode, input: seq<SplitInput>) {
    && |input| > 0
    && DistinctInput(input)
    && AllAtLeast(Values(input), if mode.Shares? then 1 else 0)
  }

  predicate WrapsOnto(sum: int, target: int) {
    sum != target && Wrap(sum) == target
  }

  /** What a caller can check beforehand: no sum wraps onto the wanted value, and no product of
      the amount with a used value reaches 2^63. */
  predicate Fits(mode: Mode, amount: int, input: seq<SplitInput>) {
    var vs := Values(input);
    match mode
    case Equal => true
    case Exact => !WrapsOnto(Sum(vs), amount)
    case Percent => !WrapsOnto(Sum(vs), WHOLE) && (Sum(vs) == WHOLE ==> ProductsFit(amount, vs))
    case Shares => ProductsFit(amount, vs)
    case Other(_) => true
  }

  /** Inputs on which the program's resolver is the intended one. */
  predicate InRange(mode: Mode, amount: int, input: seq<SplitInput>) {
    && 0 < amount < TWO_63
    && (mode.Shares? ==> Sum(Values(input)) < TWO_63)
    && (Screened(mode, input) ==> Fits(mode, amount, input))
  }

  /** The program computes the intended split exactly when the input fits. In shares mode the
      weights are taken to sum to at most 2^62: above that, wrapped quotients and a longer
      hand-out can cancel. */
  lemma Resolve64Exactly(mode: Mode, amount: int, input: seq<SplitInput>)
    requires 0 < amount < TWO_63
    requires mode.Shares? ==> Sum(Values(input)) <= TWO_63 / 2
    ensures Resolve64(mode, amount, input) == Returned(Resolve(mode, amount, input))
       <==> (Screened(mode, input) ==> Fits(mode, amount, input))
  {
    var vs, n := Values(input), |input|;
    if n > 0 && DistinctInput(input) {
      match mode
      case Equal =>
        EqualShares64(amount, n);
        assert Resolve64(Equal, amount, input).resolution.value == Resolve(Equal, amount, input).value;
      case Exact =>
      case Percent =>
        if AllAtLeast(vs, 0) && Wrap(Sum(vs)) == WHOLE && Sum(vs) == WHOLE {
          Weighted64Exactly(amount, input, WHOLE);
        }
      case Shares =>
        if AllAtLeast(vs, 1) {
          SumAtLeastLength(vs);
          Weighted64Exactly(amount, input, Sum(vs));
        }
      case Other(_) =>
    }
  }

  lemma InRangeAgrees(mode: Mode, amount: int, input: seq<SplitInput>)
    requires InRange(mode, amount, input)
    ensures Resolve64(mode, amount, input) == Returned(Resolve(mode, amount, input))
  {
    var vs := Values(input);
    if mode.Shares? {
      if |input| > 0 && DistinctInput(input) && AllAtLeast(vs, 1) {
        SumAtLeastLength(vs);
        WeightedFits(amount, vs, Sum(vs));
      }
    } else {
      Resolve64Exactly(mode, amount, input);
    }
  }

  // ------------------------------------------------- sums, whatever the products do

  /** What a caller can check beforehand for the sum alone: no sum of values wraps. */
  predicate SumsFit(mode: Mode, amount: int, input: seq<SplitInput>) {
    && 0 < amount < TWO_63
    && (Screened(mode, input) ==>
          var sum := Sum(Values(input));
          match mode
          case Exact => !WrapsOnto(sum, amount)
          case Percent => !WrapsOnto(sum, WHOLE)
          case Shares => sum < TWO_63
          case _ => true)
  }

  /** A product that wraps only ever makes its quotient smaller. */
  lemma WrappedQuotient(p: int, total: int)
    requires p >= 0 && total > 0
    ensures Wrap(Truncated(Wrap(p), total)) <= p / total
  {
    var w := Wrap(p);
    if w >= 0 {
      QuotientAtMost(w, total);
      FloorBounds(w, total);
      FloorBounds(p, total);
      if p / total < w / total {
        MulMono(total, p / total + 1, w / total);
        assert false;
      }
    } else {
      QuotientAtMost(-w, total);
      QuotientAtMost(p, total);
    }
  }

  lemma {:induction false} SumAtMost(a: seq<int>, b: seq<int>)
    requires |a| == |b| && forall i :: 0 <= i < |a| ==> a[i] <= b[i]
    ensures Sum(a) <= Sum(b)
  {
    if |a| > 0 {
      SumAtMost(a[..|a| - 1], b[..|b| - 1]);
    }
  }

  /** So the quotients never hand out more than there is. */
  lemma QuotientsAtMost(amount: int, vs: seq<int>, total: int)
    requires 0 < amount < TWO_63 && total > 0 && |vs| > 0 && AllAtLeast(vs, 0) && Sum(vs) == total
    ensures forall i :: 0 <= i < |vs| ==> Quotients64(amount, vs, total)[i] <= Floors(amount, vs, total)[i] <= amount
    ensures Sum(Quotients64(amount, vs, total)) <= amount
  {
    var fl := Floors(amount, vs, total);
    forall i | 0 <= i < |vs| ensures Quotients64(amount, vs, total)[i] <= fl[i] && fl[i] >= 0 {
      assert amount * vs[i] >= 0;
      WrappedQuotient(amount * vs[i], total);
      QuotientAtMost(amount * vs[i], total);
    }
    LeftoverBelowRows(amount, vs, total);
    SumNonNegative(fl);
    SumAtMost(Quotients64(amount, vs, total), fl);
  }

  /** If what was handed out in all is not negative, the wrapped remainder was the right one as
      long as the quotients handed out no more than there is. */
  lemma RemainderExact(amount: int, handed: int, rem: int)
    requires 0 < amount < TWO_63 && rem == Wrap(amount - Wrap(handed))
    requires handed + (if rem > 0 then rem else 0) >= 0
    ensures handed <= amount ==> rem == amount - handed >= 0
  {
    if handed <= amount {
      assert 0 <= amount - handed < TWO_64;
    }
  }

  lemma NotWrapped(q: int, extra: int)
    requires IsInt64(q) && 0 <= extra < TWO_63 && Wrap(q + extra) >= 0
    ensures Wrap(q + extra) == q + extra
  {
  }

  lemma {:induction false} SumPlus(a: seq<int>, b: seq<int>, c: seq<int>)
    requires |a| == |b| == |c| && forall i :: 0 <= i < |a| ==> c[i] == a[i] + b[i]
    ensures Sum(c) == Sum(a) + Sum(b)
  {
    if |a| > 0 {
      var n := |a| - 1;
      SumPlus(a[..n], b[..n], c[..n]);
    }
  }

  /** The remainder is what the quotients leave, wrapped, and the extra cents are the remainder. */
  predicate HandsOut(quotients: seq<int>, extras: seq<int>, amount: int) {
    var rem := Wrap(amount - Wrap(Sum(quotients)));
    && |extras| == |quotients|
    && (forall i :: 0 <= i < |quotients| ==> IsInt64(quotients[i]) && 0 <= extras[i] < TWO_63)
    && Sum(extras) == if rem > 0 then rem else 0
  }

  /** Shares of which none is negative did not wrap, and add up to the amount exactly when the
      quotients alone do not exceed it. */
  lemma HandedOutSum(quotients: seq<int>, extras: seq<int>, shares: seq<int>, amount: int)
    requires 0 < amount < TWO_63 && HandsOut(quotients, extras, amount)
    requires |shares| == |quotients|
    requires forall i :: 0 <= i < |shares| ==> shares[i] == Wrap(quotients[i] + extras[i]) && shares[i] >= 0
    ensures Sum(shares) == amount <==> Sum(quotients) <= amount
  {
    forall i | 0 <= i < |shares| ensures shares[i] == quotients[i] + extras[i] {
      NotWrapped(quotients[i], extras[i]);
    }
    SumPlus(quotients, extras, shares);
    SumNonNegative(shares);
    RemainderExact(amount, Sum(quotients), Wrap(amount - Wrap(Sum(quotients))));
  }

  function FirstOnes(n: nat, count: int): (r: seq<int>)
    ensures |r| == n
  {
    seq(n, i => if i < count then 1 else 0)
  }

  lemma {:induction false} SumFirstOnes(n: nat, count: int)
    ensures Sum(FirstOnes(n, count)) == if count <= 0 then 0 else Min(count, n)
  {
    if n > 0 {
      SumFirstOnes(n - 1, count);
      assert FirstOnes(n, count)[..n - 1] == FirstOnes(n - 1, count);
    }
  }

  /** Weighted shares that the table accepts add up to the amount exactly when the quotients do
      not exceed it, whichever products and sums overflowed. */
  lemma Weighted64Sum(amount: int, vs: seq<int>, total: int)
    requires 0 < amount < TWO_63 && total != 0
    requires Weighted64(amount, vs, total).Some? && NonNegative(Weighted64(amount, vs, total).value)
    ensures Sum(Weighted64(amount, vs, total).value) == amount <==> Sum(Quotients64(amount, vs, total)) <= amount
  {
    var quotients := Quotients64(amount, vs, total);
    var rem := Wrap(amount - Wrap(Sum(quotients)));
    SumFirstOnes(|vs|, rem);
    HandedOutSum(quotients, FirstOnes(|vs|, rem), Weighted64(amount, vs, total).value, amount);
  }

  /** The test that decides, for every input, whether accepted shares add up to the amount: the
      values do not wrap onto it, or the quotients before the hand-out do not exceed it. */
  predicate AddsUp(mode: Mode, amount: int, input: seq<SplitInput>) {
    var vs := Values(input);
    match mode
    case Exact => !WrapsOnto(Sum(vs), amount)
    case Percent => Sum(Quotients64(amount, vs, WHOLE)) <= amount
    case Shares => Wrap(Sum(vs)) != 0 && Sum(Quotients64(amount, vs, Wrap(Sum(vs)))) <= amount
    case _ => true
  }

  /** The shares of a split that the program returns and the table accepts. */
  lemma AcceptedSumExactly(mode: Mode, amount: int, input: seq<SplitInput>, shares: seq<Split>)
    requires 0 < amount < TWO_63 && Resolve64(mode, amount, input) == Returned(Ok(shares))
    requires NonNegative(Cents(shares))
    ensures |shares| > 0 && DistinctUsers(shares)
    ensures Sum(Cents(shares)) == amount <==> AddsUp(mode, amount, input)
  {
    var vs := Values(input);
    match mode
    case Percent => WeightedSum(input, amount, WHOLE, shares);
    case Shares => WeightedSum(input, amount, Wrap(Sum(vs)), shares);
    case Exact => assert Cents(shares) == vs;
    case Equal =>
      Resolve64Exactly(mode, amount, input);
      ResolvedSum(mode, amount, input);
    case Other(_) =>
  }

  lemma WeightedSum(input: seq<SplitInput>, amount: int, total: int, shares: seq<Split>)
    requires 0 < amount < TWO_63 && total != 0
    requires Finish64(input, Weighted64(amount, Values(input), total)) == Returned(Ok(shares))
    requires NonNegative(Cents(shares))
    ensures Sum(Cents(shares)) == amount <==> Sum(Quotients64(amount, Values(input), total)) <= amount
  {
    assert Cents(shares) == Weighted64(amount, Values(input), total).value;
    Weighted64Sum(amount, Values(input), total);
  }

  /** It is met whenever no sum of values wraps: an overflowing product only changes who gets
      which cent. */
  lemma AcceptedSum(mode: Mode, amount: int, input: seq<SplitInput>, shares: seq<Split>)
    requires SumsFit(mode, amount, input) && Resolve64(mode, amount, input) == Returned(Ok(shares))
    requires NonNegative(Cents(shares))
    ensures |shares| > 0 && DistinctUsers(shares) && Sum(Cents(shares)) == amount
  {
    var vs := Values(input);
    AcceptedSumExactly(mode, amount, input, shares);
    match mode
    case Percent => QuotientsAtMost(amount, vs, WHOLE);
    case Shares =>
      SumAtLeastLength(vs);
      QuotientsAtMost(amount, vs, Sum(vs));
    case _ =>
  }

  // --------------------------------------------------------------- both directions, weighted

  lemma Weighted64Exactly(amount: int, input: seq<SplitInput>, total: int)
    requires 0 < amount < TWO_63 && 0 < total <= TWO_63 / 2 && |input| > 0
    requires AllAtLeast(Values(input), 0) && Sum(Values(input)) == total
    ensures Finish64(input, Weighted64(amount, Values(input), total))
         == Returned(Ok(Assign(input, Apportioned(amount, Values(input), total))))
       <==> ProductsFit(amount, Values(input))
  {
    var vs := Values(input);
    if ProductsFit(amount, vs) {
      WeightedFits(amount, vs, total);
    } else {
      var i :| 0 <= i < |vs| && amount * vs[i] >= TWO_63;
      WeightedOverflows(amount, vs, total, i);
      FinishInjective(input, Weighted64(amount, vs, total), Apportioned(amount, vs, total));
    }
  }

  lemma FinishInjective(input: seq<SplitInput>, a: Option<seq<int>>, b: seq<int>)
    requires |b| == |input| && (a.Some? ==> |a.value| == |input|)
    ensures Finish64(input, a) == Returned(Ok(Assign(input, b))) <==> a == Some(b)
  {
    if a.Some? && Assign(input, a.value) == Assign(input, b) {
      forall i | 0 <= i < |b| ensures a.value[i] == b[i] {
        assert Assign(input, a.value)[i].cents == Assign(input, b)[i].cents;
      }
      assert a.value == b;
    }
  }

  lemma EqualShares64(amount: int, n: nat)
    requires amount > 0 && n > 0
    ensures Apportioned(amount, Ones(n), n)
         == seq(n, i => amount / n + if i < amount - amount / n * n then 1 else 0)
  {
    var base := amount / n;
    assert Floors(amount, Ones(n), n) == seq(n, i requires 0 <= i < n => base * Ones(n)[i]) by {
      assert forall i :: 0 <= i < n ==> amount * Ones(n)[i] == amount;
    }
    SumScaled(Ones(n), base, n);
    assert Ones(n)[..n] == Ones(n);
    SumOnes(n);
  }

  /** Beyond the bound the program does fail: it panics, or it accepts shares that do not add up. */
  lemma BeyondInt64()
    ensures Resolve64(Percent, TWO_63 / 2, [SplitInput(1, WHOLE)]) == Panicked
    ensures var input := [SplitInput(1, TWO_63 - 1), SplitInput(2, TWO_63 - 1), SplitInput(3, 5)];
      && Resolve64(Exact, 3, input).Returned?
      && Resolve64(Exact, 3, input).resolution.Ok?
      && Sum(Cents(Resolve64(Exact, 3, input).resolution.value)) != 3
  {
    SumOfOne(MulDiv(TWO_63 / 2, WHOLE, WHOLE));
    SumOfOne(WHOLE);
    var vs := [TWO_63 - 1, TWO_63 - 1, 5];
    var input := [SplitInput(1, TWO_63 - 1), SplitInput(2, TWO_63 - 1), SplitInput(3, 5)];
    assert Values([SplitInput(1, WHOLE)]) == [WHOLE];
    assert Values(input) == vs;
    assert vs[..2] == [TWO_63 - 1, TWO_63 - 1] && vs[..2][..1] == [TWO_63 - 1];
    SumOfOne(TWO_63 - 1);
    assert Sum(vs) == TWO_64 + 3;
    assert Cents(Assign(input, vs)) == vs;
    var q := Quotients64(TWO_63 / 2, [WHOLE], WHOLE);
    assert q == [MulDiv(TWO_63 / 2, WHOLE, WHOLE)];
  }

  lemma SumOfOne(x: int)
    ensures Sum([x]) == x
  {
    assert [x][..0] == [];
  }

  // -------------------------------------------------------------------- the program text

  /** resolveSplits: checks, then fills the output row by row and hands the remainder out. */
  method ResolveSplits(mode: Mode, amount: int, input: seq<SplitInput>) returns (r: Outcome)
    requires IsInt64(amount)
    ensures r == Resolve64(mode, amount, input)
  {
    if |input| == 0 {
      return Returned(Err(NoSplits));
    }
    var seen: set<Id> := {};
    for i := 0 to |input|
      invariant seen == set k | 0 <= k < i :: input[k].user
      invariant forall j, k :: 0 <= j < k < i ==> input[j].user != input[k].user
    {
      if input[i].user in seen {
        return Returned(Err(DuplicateUser));
      }
      seen := seen + {input[i].user};
    }
    match mode {
      case Equal =>
        r := EqualOut(amount, input);
      case Exact =>
        var sum := CheckedSum(input, 0);
        if sum.None? {
          return Returned(Err(NegativeExact));
        }
        if sum.value != amount {
          return Returned(Err(WrongExactSum));
        }
        r := Returned(Ok(seq(|input|, i requires 0 <= i < |input| => Split(input[i].user, input[i].value))));
        assert r.resolution.value == Assign(input, Values(input));
      case Percent =>
        var bps := CheckedSum(input, 0);
        if bps.None? {
          return Returned(Err(NegativePercent));
        }
        if bps.value != WHOLE {
          return Returned(Err(WrongPercentSum));
        }
        r := ShareOut(input, amount, WHOLE);
      case Shares =>
        var total := CheckedSum(input, 1);
        if total.None? {
          return Returned(Err(NonPositiveWeight));
        }
        if total.value == 0 {
          return Panicked;
        }
        r := ShareOut(input, amount, total.value);
      case Other(_) =>
        r := Returned(Err(UnknownMode));
    }
  }

  /** The loop that exact, percent and shares modes begin with: None at the first value that is
      too small, otherwise the wrapped sum. */
  method CheckedSum(input: seq<SplitInput>, low: int) returns (sum: Option<int>)
    ensures sum == if AllAtLeast(Values(input), low) then Some(Wrap(Sum(Values(input)))) else None
  {
    var vs := Values(input);
    var s := 0;
    for i := 0 to |input|
      invariant AllAtLeast(vs[..i], low) && s == Wrap(Sum(vs[..i]))
    {
      if input[i].value < low {
        assert vs[i] < low;
        return None;
      }
      SumPrefix(vs, i);
      WrapStep(Sum(vs[..i]), vs[i]);
      s := Wrap(s + input[i].value);
    }
    assert vs[..|input|] == vs;
    sum := Some(s);
  }

  /** Equal mode: the base share for everyone, then one cent more for the first rows. */
  method EqualOut(amount: int, input: seq<SplitInput>) returns (r: Outcome)
    requires |input| > 0 && DistinctInput(input)
    ensures r == Resolve64(Equal, amount, input)
  {
    var n := |input|;
    var out := new Split[n](i requires 0 <= i < n => Split(input[i].user, 0));
    var base := Truncated(amount, n);
    var rem := amount - base * n;
    for i := 0 to n
      invariant forall k :: 0 <= k < n ==> out[k] == Split(input[k].user, if k < i then base else 0)
    {
      out[i] := out[i].(cents := base);
    }
    RemainderBelow(amount, n);
    var i := 0;
    while i < rem
      invariant 0 <= i <= n && (i <= rem || rem <= 0 == i)
      invariant forall k :: 0 <= k < n ==> out[k] == Split(input[k].user, base + if k < i then 1 else 0)
    {
      out[i] := out[i].(cents := out[i].cents + 1);
      i := i + 1;
    }
    assert out[..] == Assign(input, seq(n, i => base + if i < rem then 1 else 0));
    r := Returned(Ok(out[..]));
  }

  lemma RemainderBelow(amount: int, n: nat)
    requires n > 0
    ensures amount - Truncated(amount, n) * n < n
  {
    if amount >= 0 {
      FloorBounds(amount, n);
    } else {
      FloorBounds(-amount, n);
    }
  }

  /** What percent and shares modes have in common: a quotient per row, then the remainder. */
  method ShareOut(input: seq<SplitInput>, amount: int, total: int) returns (r: Outcome)
    requires total != 0
    ensures r == Finish64(input, Weighted64(amount, Values(input), total))
  {
    ghost var quotients := Quotients64(amount, Values(input), total);
    var n := |input|;
    var out := new Split[n](i requires 0 <= i < n => Split(input[i].user, 0));
    var handed := QuotientsOut(out, input, amount, total);
    var rem := Wrap(amount - handed);
    var ok := HandOut(out, input, quotients, rem);
    if !ok {
      return Panicked;
    }
    assert out[..] == Assign(input, Weighted64(amount, Values(input), total).value);
    r := Returned(Ok(out[..]));
  }

  lemma QuotientsGrow(quotients: seq<int>, i: nat)
    requires i < |quotients|
    ensures Wrap(Wrap(Sum(quotients[..i])) + quotients[i]) == Wrap(Sum(quotients[..i + 1]))
  {
    SumPrefix(quotients, i);
    WrapStep(Sum(quotients[..i]), quotients[i]);
  }

  /** The quotient loop, with the running sum of what it gave. */
  method QuotientsOut(out: array<Split>, input: seq<SplitInput>, amount: int, total: int) returns (handed: int)
    requires total != 0 && out.Length == |input|
    requires forall k :: 0 <= k < |input| ==> out[k].user == input[k].user
    modifies out
    ensures handed == Wrap(Sum(Quotients64(amount, Values(input), total)))
    ensures forall k :: 0 <= k < |input| ==>
      out[k] == Split(input[k].user, Quotients64(amount, Values(input), total)[k])
  {
    ghost var quotients := Quotients64(amount, Values(input), total);
    handed := 0;
    for i := 0 to |input|
      invariant handed == Wrap(Sum(quotients[..i]))
      invariant forall k :: 0 <= k < |input| ==> out[k].user == input[k].user
      invariant forall k :: 0 <= k < i ==> out[k].cents == quotients[k]
    {
      var share := MulDiv(amount, input[i].value, total);
      assert share == quotients[i];
      QuotientsGrow(quotients, i);
      out[i] := out[i].(cents := share);
      handed := Wrap(handed + share);
    }
    assert quotients[..|input|] == quotients;
  }

  /** The remainder loop: one cent to each of the first rows; false past the last row. */
  method HandOut(out: array<Split>, input: seq<SplitInput>, ghost shares: seq<int>, rem: int) returns (ok: bool)
    requires out.Length == |input| == |shares|
    requires forall k :: 0 <= k < |input| ==> out[k] == Split(input[k].user, Wrap(shares[k]))
    modifies out
    ensures ok <==> rem <= |input|
    ensures ok ==> forall k :: 0 <= k < |input| ==>
      out[k] == Split(input[k].user, Wrap(shares[k] + if k < rem then 1 else 0))
  {
    var i := 0;
    while i < rem
      invariant 0 <= i <= |input| && (i <= rem || rem <= 0 == i)
      invariant forall k :: 0 <= k < |input| ==>
        out[k] == Split(input[k].user, Wrap(shares[k] + if k < i then 1 else 0))
    {
      if i >= out.Length {
        return false;
      }
      WrapStep(shares[i], 1);
      out[i] := out[i].(cents := Wrap(out[i].cents + 1));
      i := i + 1;
    }
    ok := true;
  }
}
