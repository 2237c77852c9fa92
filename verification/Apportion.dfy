/** Largest-first-come apportionment: the rule behind percent, weighted and equal splits and
    behind rescaling. Everyone gets the floor of their exact proportion; the cents the floors
    leave over go one each to the first rows. */
module Apportion {
  import opened Core

  function Floors(amount: int, ws: seq<int>, total: int): (r: seq<int>)
    requires total > 0
    ensures |r| == |ws|
  {
    seq(|ws|, i requires 0 <= i < |ws| => amount * ws[i] / total)
  }

  function Leftover(amount: int, ws: seq<int>, total: int): int
    requires total > 0
  {
    amount - Sum(Floors(amount, ws, total))
  }

  function Apportioned(amount: int, ws: seq<int>, total: int): (r: seq<int>)
    requires total > 0
    ensures |r| == |ws|
  {
    var floors := Floors(amount, ws, total);
    var rem := Leftover(amount, ws, total);
    seq(|ws|, i requires 0 <= i < |ws| => floors[i] + if i < rem then 1 else 0)
  }

  ghost predicate NonNegative(ws: seq<int>) {
    forall i :: 0 <= i < |ws| ==> ws[i] >= 0
  }

  lemma FloorBounds(p: int, total: int)
    requires total > 0
    ensures total * (p / total) <= p <= total * (p / total) + total - 1
  {
  }

  /** The floors of a prefix stay within i * (total - 1) of the prefix's exact proportion. */
  lemma {:induction false} PrefixBounds(amount: int, ws: seq<int>, total: int, i: nat)
    requires total > 0 && i <= |ws|
    ensures total * Sum(Floors(amount, ws, total)[..i]) <= amount * Sum(ws[..i])
    ensures amount * Sum(ws[..i]) <= total * Sum(Floors(amount, ws, total)[..i]) + i * (total - 1)
  {
    var fl := Floors(amount, ws, total);
    if i > 0 {
      PrefixBounds(amount, ws, total, i - 1);
      SumPrefix(fl, i - 1);
      SumPrefix(ws, i - 1);
      FloorBounds(amount * ws[i - 1], total);
      PrefixStep(amount, total, Sum(fl[..i - 1]), Sum(ws[..i - 1]), fl[i - 1], ws[i - 1], i);
    }
  }

  lemma PrefixStep(amount: int, total: int, sf: int, sw: int, f: int, w: int, i: int)
    requires total * sf <= amount * sw <= total * sf + (i - 1) * (total - 1)
    requires total * f <= amount * w <= total * f + total - 1
    ensures total * (sf + f) <= amount * (sw + w) <= total * (sf + f) + i * (total - 1)
  {
    assert total * (sf + f) == total * sf + total * f;
    assert amount * (sw + w) == amount * sw + amount * w;
    assert i * (total - 1) == (i - 1) * (total - 1) + (total - 1);
  }

  /** When the weights sum to the total, fewer cents are left over than there are rows, so
      a loop handing them out never runs past the last row and never starts a second round. */
  lemma LeftoverBelowRows(amount: int, ws: seq<int>, total: int)
    requires total > 0 && |ws| > 0 && Sum(ws) == total
    ensures 0 <= Leftover(amount, ws, total) < |ws|
  {
    PrefixBounds(amount, ws, total, |ws|);
    var fl := Floors(amount, ws, total);
    assert fl[..|ws|] == fl && ws[..|ws|] == ws;
    LeftoverArithmetic(total, Sum(fl), amount, |ws|);
  }

  lemma LeftoverArithmetic(total: int, floors: int, amount: int, n: int)
    requires total > 0 && n > 0
    requires total * floors <= amount * total <= total * floors + n * (total - 1)
    ensures 0 <= amount - floors < n
  {
    if floors > amount {
      MulMono(total, amount + 1, floors);
      assert false;
    }
    assert total * (floors + n) == total * floors + n * (total - 1) + n;
    if amount >= floors + n {
      MulMono(total, floors + n, amount);
      assert false;
    }
  }

  lemma MulMono(t: int, a: int, b: int)
    requires t >= 0 && a <= b
    ensures t * a <= t * b
  {
    assert t * (b - a) >= 0;
  }

  /** The quotient is the only number whose multiple is within one divisor below. */
  lemma QuotientUnique(p: int, total: int, q: int)
    requires total > 0 && total * q <= p < total * q + total
    ensures p / total == q
  {
    FloorBounds(p, total);
    var d := p / total;
    if d < q {
      MulMono(total, d + 1, q);
      assert false;
    }
    if d > q {
      MulMono(total, q + 1, d);
      assert false;
    }
  }

  /** Adding one to the first rem rows adds rem. */
  lemma {:induction false} SumBumped(fl: seq<int>, rem: int, i: nat)
    requires i <= |fl| && rem >= 0
    ensures Sum(seq(i, k requires 0 <= k < i => fl[k] + if k < rem then 1 else 0)) == Sum(fl[..i]) + Min(rem, i)
  {
    if i > 0 {
      var here := seq(i, k requires 0 <= k < i => fl[k] + if k < rem then 1 else 0);
      SumBumped(fl, rem, i - 1);
      SumPrefix(fl, i - 1);
      assert here[..i - 1] == seq(i - 1, k requires 0 <= k < i - 1 => fl[k] + if k < rem then 1 else 0);
    }
  }

  /** Nothing is lost and nothing is invented. */
  lemma ApportionedSum(amount: int, ws: seq<int>, total: int)
    requires total > 0 && |ws| > 0 && Sum(ws) == total
    ensures Sum(Apportioned(amount, ws, total)) == amount
  {
    LeftoverBelowRows(amount, ws, total);
    var fl := Floors(amount, ws, total);
    SumBumped(fl, Leftover(amount, ws, total), |ws|);
    assert fl[..|ws|] == fl;
    assert Apportioned(amount, ws, total) ==
      seq(|ws|, k requires 0 <= k < |ws| => fl[k] + if k < Leftover(amount, ws, total) then 1 else 0);
  }

  lemma ApportionedNonNegative(amount: int, ws: seq<int>, total: int)
    requires total > 0 && amount >= 0 && NonNegative(ws)
    ensures NonNegative(Apportioned(amount, ws, total))
  {
    forall i | 0 <= i < |ws| ensures Apportioned(amount, ws, total)[i] >= 0 {
      assert amount * ws[i] >= 0;
    }
  }

  /** Splitting k times the total gives k times every weight, to the cent. */
  lemma ApportionedMultiple(ws: seq<int>, total: int, k: int)
    requires total > 0 && |ws| > 0 && Sum(ws) == total
    ensures Apportioned(k * total, ws, total) == seq(|ws|, i requires 0 <= i < |ws| => k * ws[i])
  {
    var scaled := seq(|ws|, i requires 0 <= i < |ws| => k * ws[i]);
    var fl := Floors(k * total, ws, total);
    forall i | 0 <= i < |ws| ensures fl[i] == scaled[i] {
      ExactQuotient(k * ws[i], total);
      assert k * total * ws[i] == (k * ws[i]) * total;
    }
    assert fl == scaled;
    SumScaled(ws, k, |ws|);
    assert ws[..|ws|] == ws;
    assert Leftover(k * total, ws, total) == 0;
  }

  lemma ExactQuotient(q: int, total: int)
    requires total > 0
    ensures q * total / total == q
  {
    QuotientUnique(q * total, total, q);
  }

  lemma {:induction false} SumScaled(ws: seq<int>, k: int, i: nat)
    requires i <= |ws|
    ensures Sum(seq(i, j requires 0 <= j < i => k * ws[j])) == k * Sum(ws[..i])
  {
    if i > 0 {
      var here := seq(i, j requires 0 <= j < i => k * ws[j]);
      SumScaled(ws, k, i - 1);
      SumPrefix(ws, i - 1);
      assert here[..i - 1] == seq(i - 1, j requires 0 <= j < i - 1 => k * ws[j]);
      assert k * (Sum(ws[..i - 1]) + ws[i - 1]) == k * Sum(ws[..i - 1]) + k * ws[i - 1];
    }
  }

  /** Scaling up by k and back down is the identity. */
  lemma ApportionedThereAndBack(ws: seq<int>, total: int, k: int)
    requires total > 0 && k > 0 && |ws| > 0 && Sum(ws) == total
    ensures k * total > 0
    ensures Apportioned(total, Apportioned(k * total, ws, total), k * total) == ws
  {
    ApportionedMultiple(ws, total, k);
    var up := Apportioned(k * total, ws, total);
    MulMono(k, 1, total);
    var fl := Floors(total, up, k * total);
    forall i | 0 <= i < |ws| ensures fl[i] == ws[i] {
      ExactQuotient(ws[i], k * total);
      Swap(total, k, ws[i]);
    }
    assert fl == ws;
  }

  lemma Swap(a: int, k: int, w: int)
    ensures a * (k * w) == w * (k * a)
  {
  }

  /** Counting on by one, round after round of n. */
  lemma NextRound(k: nat, n: nat)
    requires n > 0
    ensures if k % n < n - 1 then (k + 1) / n == k / n && (k + 1) % n == k % n + 1
            else (k + 1) / n == k / n + 1 && (k + 1) % n == 0
  {
    var q, r := k / n, k % n;
    assert k == n * q + r;
    if r < n - 1 {
      QuotientUnique(k + 1, n, q);
    } else {
      assert n * (q + 1) == n * q + n;
      QuotientUnique(k + 1, n, q + 1);
    }
  }
}
