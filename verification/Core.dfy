/** Identifiers, option and result types, and the sums every other module is stated with. */
module Core {

  /** A UUID, read as the 128-bit number its sixteen bytes spell. Byte order, the order of
      the lower-case hexadecimal text, and the numeric order are the same order. */
  const ID_LIMIT: int := 0x1_0000_0000_0000_0000_0000_0000_0000_0000

  type Id = n: int | 0 <= n < ID_LIMIT witness 0

  datatype Option<+T> = None | Some(value: T) {
    function GetOr(default: T): T {
      if Some? then value else default
    }
  }

  datatype Result<+T, +E> = Ok(value: T) | Err(error: E)

  function Min(a: int, b: int): int {
    if a < b then a else b
  }

  /** Instants are nanoseconds since 1970-01-01T00:00:00Z. */
  const SECOND: int := 1_000_000_000

  // ---------------------------------------------------------------- sums over sequences

  function Sum(s: seq<int>): int {
    if |s| == 0 then 0 else Sum(s[..|s| - 1]) + s[|s| - 1]
  }

  lemma SumSnoc(s: seq<int>, x: int)
    ensures Sum(s + [x]) == Sum(s) + x
  {
    assert (s + [x])[..|s|] == s;
  }

  lemma SumPrefix(s: seq<int>, i: nat)
    requires i < |s|
    ensures Sum(s[..i + 1]) == Sum(s[..i]) + s[i]
  {
    assert s[..i + 1][..i] == s[..i];
  }

  lemma {:induction false} SumNonNegative(s: seq<int>)
    requires forall i :: 0 <= i < |s| ==> s[i] >= 0
    ensures Sum(s) >= 0
    ensures forall i :: 0 <= i < |s| ==> s[i] <= Sum(s)
  {
    if |s| > 0 {
      SumNonNegative(s[..|s| - 1]);
      forall i | 0 <= i < |s| ensures s[i] <= Sum(s) {
        if i < |s| - 1 {
          assert s[..|s| - 1][i] == s[i];
        }
      }
    }
  }

  // -------------------------------------------------------------------- sums over sets

  lemma SubsetSize<K>(a: set<K>, b: set<K>)
    requires a <= b
    ensures |a| <= |b|
  {
    assert b == a + (b - a);
  }

  ghost function SumSet<K(!new)>(ks: set<K>, f: K -> int): int {
    if ks == {} then 0
    else
      var k :| k in ks;
      f(k) + SumSet(ks - {k}, f)
  }

  /** The element removed first does not matter. */
  lemma {:induction false} SumSetRemove<K(!new)>(ks: set<K>, f: K -> int, k: K)
    requires k in ks
    ensures SumSet(ks, f) == f(k) + SumSet(ks - {k}, f)
    decreases |ks|
  {
    var c :| c in ks && SumSet(ks, f) == f(c) + SumSet(ks - {c}, f);
    if c != k {
      SumSetRemove(ks - {c}, f, k);
      SumSetRemove(ks - {k}, f, c);
      assert ks - {c} - {k} == ks - {k} - {c};
    }
  }

  lemma SumSetAdd<K(!new)>(ks: set<K>, f: K -> int, k: K)
    requires k !in ks
    ensures SumSet(ks + {k}, f) == SumSet(ks, f) + f(k)
  {
    SumSetRemove(ks + {k}, f, k);
    assert ks + {k} - {k} == ks;
  }

  lemma {:induction false} SumSetUnion<K(!new)>(a: set<K>, b: set<K>, f: K -> int)
    requires a !! b
    ensures SumSet(a + b, f) == SumSet(a, f) + SumSet(b, f)
    decreases |b|
  {
    if b == {} {
      assert a + b == a;
    } else {
      var k :| k in b;
      SumSetUnion(a, b - {k}, f);
      SumSetRemove(b, f, k);
      SumSetRemove(a + b, f, k);
      assert a + b - {k} == a + (b - {k});
    }
  }

  lemma {:induction false} SumSetSame<K(!new)>(ks: set<K>, f: K -> int, g: K -> int)
    requires forall k :: k in ks ==> f(k) == g(k)
    ensures SumSet(ks, f) == SumSet(ks, g)
    decreases |ks|
  {
    if ks != {} {
      var k :| k in ks;
      SumSetRemove(ks, f, k);
      SumSetRemove(ks, g, k);
      SumSetSame(ks - {k}, f, g);
    }
  }

  lemma {:induction false} SumSetPlus<K(!new)>(ks: set<K>, f: K -> int, g: K -> int, h: K -> int)
    requires forall k :: k in ks ==> h(k) == f(k) + g(k)
    ensures SumSet(ks, h) == SumSet(ks, f) + SumSet(ks, g)
    decreases |ks|
  {
    if ks != {} {
      var k :| k in ks;
      SumSetRemove(ks, f, k);
      SumSetRemove(ks, g, k);
      SumSetRemove(ks, h, k);
      SumSetPlus(ks - {k}, f, g, h);
    }
  }

  lemma {:induction false} SumSetZero<K(!new)>(ks: set<K>, f: K -> int)
    requires forall k :: k in ks ==> f(k) == 0
    ensures SumSet(ks, f) == 0
    decreases |ks|
  {
    if ks != {} {
      var k :| k in ks;
      SumSetRemove(ks, f, k);
      SumSetZero(ks - {k}, f);
    }
  }

  function OnlyAt(user: Id, x: int): Id -> int {
    (u: Id) => if u == user then x else 0
  }

  lemma SumOnlyAt(people: set<Id>, user: Id, x: int)
    requires user in people
    ensures SumSet(people, OnlyAt(user, x)) == x
  {
    SumSetRemove(people, OnlyAt(user, x), user);
    SumSetZero(people - {user}, OnlyAt(user, x));
  }

  // ------------------------------------------------------- sums over the rows of a table

  /** SUM(f(row)) over a whole table. */
  ghost function SumRows<K(!new), V(!new)>(t: map<K, V>, f: V -> int): int {
    if t == map[] then 0
    else
      var k :| k in t;
      f(t[k]) + SumRows(t - {k}, f)
  }

  lemma {:induction false} SumRowsRemove<K(!new), V(!new)>(t: map<K, V>, f: V -> int, k: K)
    requires k in t
    ensures SumRows(t, f) == f(t[k]) + SumRows(t - {k}, f)
    decreases |t|
  {
    var c :| c in t && SumRows(t, f) == f(t[c]) + SumRows(t - {c}, f);
    if c != k {
      SumRowsRemove(t - {c}, f, k);
      SumRowsRemove(t - {k}, f, c);
      assert t - {c} - {k} == t - {k} - {c};
    }
  }

  /** INSERT adds the new row's contribution. */
  lemma SumRowsInsert<K(!new), V(!new)>(t: map<K, V>, f: V -> int, k: K, v: V)
    requires k !in t
    ensures SumRows(t[k := v], f) == SumRows(t, f) + f(v)
  {
    SumRowsRemove(t[k := v], f, k);
    assert t[k := v] - {k} == t;
  }

  /** UPDATE replaces the old row's contribution by the new one's. */
  lemma SumRowsUpdate<K(!new), V(!new)>(t: map<K, V>, f: V -> int, k: K, v: V)
    requires k in t
    ensures SumRows(t[k := v], f) == SumRows(t, f) - f(t[k]) + f(v)
  {
    SumRowsRemove(t[k := v], f, k);
    SumRowsRemove(t, f, k);
    assert t[k := v] - {k} == t - {k};
  }

  /** Rows that contribute nothing can go. */
  lemma {:induction false} SumRowsKeep<K(!new), V(!new)>(t: map<K, V>, kept: map<K, V>, f: V -> int)
    requires kept.Keys <= t.Keys && forall k :: k in kept ==> kept[k] == t[k]
    requires forall k :: k in t && k !in kept ==> f(t[k]) == 0
    ensures SumRows(kept, f) == SumRows(t, f)
    decreases |t|
  {
    if kept.Keys == t.Keys {
      assert kept == t;
    } else {
      var k :| k in t && k !in kept;
      SumRowsRemove(t, f, k);
      SumRowsKeep(t - {k}, kept, f);
    }
  }

  // ---------------------------------------------------------------- exchanging two sums

  ghost function RowTotals<K(!new), V(!new)>(t: map<K, V>, f: K -> V -> int): K -> int {
    (u: K) => SumRows(t, f(u))
  }

  ghost function AcrossKeys<K(!new), V(!new)>(f: K -> V -> int, v: V): K -> int {
    (u: K) => f(u)(v)
  }

  /** Summing per key over rows first, or per row over keys first, is the same. */
  lemma {:induction false} ExchangeSums<K(!new), V(!new)>(keys: set<K>, t: map<K, V>, f: K -> V -> int, whole: V -> int)
    requires AddUp(keys, t, f, whole)
    ensures SumSet(keys, RowTotals(t, f)) == SumRows(t, whole)
    decreases t.Keys
  {
    if t == map[] {
      SumSetZero(keys, RowTotals(t, f));
    } else {
      var k :| k in t;
      AddUpRest(keys, t, f, whole, k);
      ExchangeSums(keys, t - {k}, f, whole);
      ExchangeStep(keys, t, f, whole, k);
    }
  }

  ghost predicate AddUp<K(!new), V(!new)>(keys: set<K>, t: map<K, V>, f: K -> V -> int, whole: V -> int) {
    forall k :: k in t ==> SumSet(keys, AcrossKeys(f, t[k])) == whole(t[k])
  }

  lemma AddUpRest<K(!new), V(!new)>(keys: set<K>, t: map<K, V>, f: K -> V -> int, whole: V -> int, k: K)
    requires k in t && AddUp(keys, t, f, whole)
    ensures AddUp(keys, t - {k}, f, whole)
    ensures SumSet(keys, AcrossKeys(f, t[k])) == whole(t[k])
  {
  }

  lemma ExchangeStep<K(!new), V(!new)>(keys: set<K>, t: map<K, V>, f: K -> V -> int, whole: V -> int, k: K)
    requires k in t
    requires SumSet(keys, AcrossKeys(f, t[k])) == whole(t[k])
    requires SumSet(keys, RowTotals(t - {k}, f)) == SumRows(t - {k}, whole)
    ensures SumSet(keys, RowTotals(t, f)) == SumRows(t, whole)
  {
    var rest, v := t - {k}, t[k];
    forall u | u in keys ensures RowTotals(t, f)(u) == AcrossKeys(f, v)(u) + RowTotals(rest, f)(u) {
      SumRowsRemove(t, f(u), k);
    }
    SumSetPlus(keys, AcrossKeys(f, v), RowTotals(rest, f), RowTotals(t, f));
    SumRowsRemove(t, whole, k);
  }
}
