/** The browser's split editor: its buffer of rows, the preview it shows, and the payload it
    sends, set against the server's resolver. */
module Editor {
  import opened Core
  import opened Apportion
  import opened Int64
  import opened Splits

  datatype Choice = EqualChoice | ExactChoice | PercentChoice

  datatype RowState = RowState(userID: Id, included: bool, value: int)

  /** An entry of the JSON payload; equal mode leaves the value out. */
  datatype Entry = Entry(userID: Id, value: Option<int>)

  datatype Payload = Payload(mode: Choice, splits: seq<Entry>)

  // ------------------------------------------------------- division in double precision

  /** Integers up to here, and products below it, are exact in double precision. */
  const TWO_53: int := 0x20_0000_0000_0000

  /** A finite double, as the fraction it is. */
  datatype Double = Double(num: int, den: int)

  /** A division of doubles by integers. The first operand is the exact dividend; what is past
      2^53 is rounded before it is divided. */
  type Division = (int, int) -> Double

  /** Rounding to nearest: off by at most one part in 2^53, and not at all when the quotient is
      an integer. */
  predicate Rounded(x: Double, p: int, n: int)
    requires n > 0
  {
    var error := x.num * n - p * x.den;
    && x.den > 0
    && (if error < 0 then -error else error) * TWO_53 <= p * x.den
    && (p % n == 0 ==> x.num == p / n * x.den)
  }

  ghost predicate IeeeDivision(div: Division) {
    forall p, n :: 0 <= p < TWO_53 && n > 0 ==> Rounded(div(p, n), p, n)
  }

  /** Math.floor(p / n) */
  function FloorDiv(div: Division, p: int, n: int): int {
    if div(p, n).den == 0 then 0 else div(p, n).num / div(p, n).den
  }

  lemma SmallError(error: int, limit: int, p: int, den: int)
    requires den > 0 && 0 <= p < limit && 0 <= error && error * limit <= p * den
    ensures error < den
  {
    if error >= den {
      MulMono(limit, den, error);
      MulMono(den, p + 1, limit);
      assert false;
    }
  }

  lemma NearQuotient(num: int, den: int, n: int, q: int, r: int, error: int)
    requires den > 0 && 0 < r < n
    requires num * n == (q * n + r) * den + error && -den < error < den
    ensures den * q <= num < den * q + den
  {
    assert num * n == (den * q) * n + r * den + error;
    MulMono(den, 1, r);
    MulMono(den, r + 1, n);
    if num < den * q {
      MulMono(n, num, den * q);
      assert false;
    }
    if num >= den * q + den {
      MulMono(n, den * q + den, num);
      assert false;
    }
  }

  /** Rounding never carries a quotient of integers below 2^53 across an integer. */
  lemma FloorDivExact(div: Division, p: int, n: int)
    requires IeeeDivision(div) && 0 <= p < TWO_53 && n > 0
    ensures FloorDiv(div, p, n) == p / n
  {
    var x, q, r := div(p, n), p / n, p % n;
    assert Rounded(x, p, n);
    if r == 0 {
      ExactQuotient(q, x.den);
    } else {
      var error := x.num * n - p * x.den;
      SmallError(if error < 0 then -error else error, TWO_53, p, x.den);
      assert p == q * n + r;
      NearQuotient(x.num, x.den, n, q, r, error);
      QuotientUnique(x.num, x.den, q);
    }
  }

  // --------------------------------------------------------------------- equal shares

  function EqualShares(div: Division, totalCents: int, n: int): seq<int> {
    if n <= 0 || totalCents < 0 then []
    else
      var base := FloorDiv(div, totalCents, n);
      var rem := totalCents - base * n;
      seq(n, i => base + if i < rem then 1 else 0)
  }

  lemma {:induction false} SumConstant(n: nat, amount: int, total: int)
    requires total > 0
    ensures Sum(Floors(amount, Ones(n), total)) == n * (amount / total)
  {
    if n > 0 {
      SumConstant(n - 1, amount, total);
      var fl := Floors(amount, Ones(n), total);
      assert fl[..n - 1] == Floors(amount, Ones(n - 1), total);
      assert fl[n - 1] == amount / total;
    }
  }

  /** The editor's equal shares are the server's apportionment with equal weights. */
  lemma EqualSharesApportion(div: Division, total: int, n: nat)
    requires IeeeDivision(div) && 0 <= total < TWO_53 && n > 0
    ensures EqualShares(div, total, n) == Apportioned(total, Ones(n), n)
  {
    FloorDivExact(div, total, n);
    SumConstant(n, total, n);
    OnesApportioned(total, n, total / n);
  }

  lemma OnesApportioned(total: int, n: nat, base: int)
    requires n > 0 && base == total / n && Sum(Floors(total, Ones(n), n)) == n * base
    ensures Apportioned(total, Ones(n), n) == seq(n, i => base + if i < total - base * n then 1 else 0)
  {
    assert forall i :: 0 <= i < n ==> Floors(total, Ones(n), n)[i] == base;
  }

  // ------------------------------------------------------------------------ the buffer

  function Included(state: seq<RowState>): seq<RowState> {
    if |state| == 0 then []
    else
      var front, last := Included(state[..|state| - 1]), state[|state| - 1];
      if last.included then front + [last] else front
  }

  function RowValues(rows: seq<RowState>): (vs: seq<int>)
    ensures |vs| == |rows|
  {
    seq(|rows|, i requires 0 <= i < |rows| => rows[i].value)
  }

  predicate DistinctRows(rows: seq<RowState>) {
    forall i, j :: 0 <= i < j < |rows| ==> rows[i].userID != rows[j].userID
  }

  lemma {:induction false} IncludedRows(state: seq<RowState>)
    ensures |Included(state)| <= |state|
    ensures forall i :: 0 <= i < |Included(state)| ==> Included(state)[i] in state && Included(state)[i].included
    ensures forall s :: s in state && s.included ==> s in Included(state)
    ensures DistinctRows(state) ==> DistinctRows(Included(state))
  {
    if |state| > 0 {
      IncludedRows(state[..|state| - 1]);
    }
  }

  /** The included rows take these values in order, the others take zero. */
  function Spread(state: seq<RowState>, values: seq<int>): (r: seq<RowState>)
    requires |values| == |Included(state)|
    ensures |r| == |state|
    ensures forall i :: 0 <= i < |r| ==> r[i].userID == state[i].userID && r[i].included == state[i].included
  {
    if |state| == 0 then []
    else
      var front, last := state[..|state| - 1], state[|state| - 1];
      if last.included then Spread(front, values[..|values| - 1]) + [last.(value := values[|values| - 1])]
      else Spread(front, values) + [last.(value := 0)]
  }

  lemma {:induction false} SpreadIncluded(state: seq<RowState>, values: seq<int>)
    requires |values| == |Included(state)|
    ensures |Included(Spread(state, values))| == |values| && RowValues(Included(Spread(state, values))) == values
  {
    if |state| > 0 {
      var front, last := state[..|state| - 1], state[|state| - 1];
      var vs := if last.included then values[..|values| - 1] else values;
      SpreadIncluded(front, vs);
      var whole, part := Spread(state, values), Spread(front, vs);
      assert whole[..|state| - 1] == part;
      if last.included {
        assert Included(whole) == Included(part) + [whole[|state| - 1]];
        assert values == vs + [values[|values| - 1]];
      }
    }
  }

  /** One share per included user. */
  function ShareMap(rows: seq<RowState>, shares: seq<int>): map<Id, int>
    requires |rows| == |shares|
  {
    if |rows| == 0 then map[]
    else ShareMap(rows[..|rows| - 1], shares[..|rows| - 1])[rows[|rows| - 1].userID := shares[|rows| - 1]]
  }

  lemma {:induction false} ShareMapAt(rows: seq<RowState>, shares: seq<int>)
    requires |rows| == |shares| && DistinctRows(rows)
    ensures forall i :: 0 <= i < |rows| ==>
      rows[i].userID in ShareMap(rows, shares) && ShareMap(rows, shares)[rows[i].userID] == shares[i]
    ensures forall u :: u in ShareMap(rows, shares) ==> exists i :: 0 <= i < |rows| && rows[i].userID == u
  {
    if |rows| > 0 {
      ShareMapAt(rows[..|rows| - 1], shares[..|rows| - 1]);
    }
  }

  lemma {:induction false} ShareMapUpdate(rows: seq<RowState>, shares: seq<int>, i: nat, share: int)
    requires |rows| == |shares| && DistinctRows(rows) && i < |rows|
    ensures ShareMap(rows, shares)[rows[i].userID := share] == ShareMap(rows, shares[i := share])
  {
    var n := |rows| - 1;
    if i < n {
      ShareMapUpdate(rows[..n], shares[..n], i, share);
      assert shares[i := share][..n] == shares[..n][i := share];
    } else {
      assert shares[i := share][..n] == shares[..n];
    }
  }

  // ------------------------------------------------- what the editor computes, as functions

  function Cleared(state: seq<RowState>): seq<RowState> {
    seq(|state|, i requires 0 <= i < |state| => state[i].(value := 0))
  }

  /** The values a mode starts from; nothing is touched when no row is included. */
  function Prefilled(div: Division, mode: Choice, state: seq<RowState>, amount: nat): seq<RowState> {
    var n := |Included(state)|;
    if mode.EqualChoice? then Cleared(state)
    else if n == 0 then state
    else Spread(state, EqualShares(div, if mode.ExactChoice? then amount else WHOLE, n))
  }

  function PercentFloors(div: Division, amount: int, vs: seq<int>): (fs: seq<int>)
    ensures |fs| == |vs|
  {
    seq(|vs|, i requires 0 <= i < |vs| => FloorDiv(div, amount * vs[i], WHOLE))
  }

  /** k cents handed out one at a time, round after round. */
  function HandedOut(fs: seq<int>, k: nat): (r: seq<int>)
    requires |fs| > 0
    ensures |r| == |fs|
  {
    seq(|fs|, i requires 0 <= i < |fs| => fs[i] + k / |fs| + if i < k % |fs| then 1 else 0)
  }

  function Lacking(amount: int, fs: seq<int>): nat {
    if Sum(fs) < amount then amount - Sum(fs) else 0
  }

  function PreviewShares(div: Division, mode: Choice, state: seq<RowState>, amount: nat): (r: seq<int>)
    requires |Included(state)| > 0
    ensures |r| == |Included(state)|
  {
    var rows := Included(state);
    match mode
    case EqualChoice => EqualShares(div, amount, |rows|)
    case ExactChoice => RowValues(rows)
    case PercentChoice =>
      var fs := PercentFloors(div, amount, RowValues(rows));
      HandedOut(fs, Lacking(amount, fs))
  }

  function Preview(div: Division, mode: Choice, state: seq<RowState>, amount: nat): map<Id, int> {
    if |Included(state)| == 0 then map[]
    else ShareMap(Included(state), PreviewShares(div, mode, state, amount))
  }

  /** When the Done button is enabled. */
  predicate Submittable(mode: Choice, state: seq<RowState>, amount: nat) {
    var vs := RowValues(Included(state));
    && amount > 0 && |vs| > 0
    && (mode.ExactChoice? ==> Sum(vs) == amount)
    && (mode.PercentChoice? ==> Sum(vs) == WHOLE)
  }

  function PayloadOf(mode: Choice, state: seq<RowState>): Payload {
    var rows := Included(state);
    Payload(mode, seq(|rows|, i requires 0 <= i < |rows| =>
      Entry(rows[i].userID, if mode.EqualChoice? then None else Some(rows[i].value))))
  }

  // --------------------------------------------------------------- what the server makes of it

  function ServerMode(mode: Choice): Mode {
    match mode
    case EqualChoice => Equal
    case ExactChoice => Exact
    case PercentChoice => Percent
  }

  /** A missing value reads as zero. */
  function ServerInput(p: Payload): (r: seq<SplitInput>)
    ensures |r| == |p.splits|
  {
    seq(|p.splits|, i requires 0 <= i < |p.splits| => SplitInput(p.splits[i].userID, p.splits[i].value.GetOr(0)))
  }

  /** Buffers the editor can be in: one row per member, no negative value. */
  predicate BufferOk(state: seq<RowState>) {
    DistinctRows(state) && forall i :: 0 <= i < |state| ==> state[i].value >= 0
  }

  lemma PercentFloorsExact(div: Division, amount: int, vs: seq<int>)
    requires IeeeDivision(div) && amount >= 0 && AllAtLeast(vs, 0) && AllBelow(amount, vs, TWO_53)
    ensures PercentFloors(div, amount, vs) == Floors(amount, vs, WHOLE)
  {
    var fs := PercentFloors(div, amount, vs);
    forall i | 0 <= i < |vs| ensures fs[i] == Floors(amount, vs, WHOLE)[i] {
      assert amount * vs[i] >= 0;
      FloorDivExact(div, amount * vs[i], WHOLE);
    }
  }

  lemma PercentApportion(div: Division, amount: int, vs: seq<int>)
    requires IeeeDivision(div) && amount >= 0 && |vs| > 0
    requires AllAtLeast(vs, 0) && Sum(vs) == WHOLE && AllBelow(amount, vs, TWO_53)
    ensures var fs := PercentFloors(div, amount, vs);
      HandedOut(fs, Lacking(amount, fs)) == Apportioned(amount, vs, WHOLE)
  {
    PercentFloorsExact(div, amount, vs);
    LeftoverBelowRows(amount, vs, WHOLE);
    OneRound(Floors(amount, vs, WHOLE), Leftover(amount, vs, WHOLE));
  }

  lemma OneRound(fs: seq<int>, k: nat)
    requires k < |fs|
    ensures HandedOut(fs, k) == seq(|fs|, i requires 0 <= i < |fs| => fs[i] + if i < k then 1 else 0)
  {
    assert k / |fs| == 0 && k % |fs| == k;
  }

  /** The amounts on which every number the editor handles is exact. */
  predicate Exact53(mode: Choice, state: seq<RowState>, amount: nat) {
    && amount < TWO_53
    && (mode.PercentChoice? ==> AllBelow(amount, RowValues(Included(state)), TWO_53))
  }

  predicate AllBelow(amount: int, vs: seq<int>, limit: int) {
    forall i :: 0 <= i < |vs| ==> amount * vs[i] < limit
  }

  lemma ServerAccepts(mode: Choice, state: seq<RowState>, amount: nat)
    requires BufferOk(state) && Submittable(mode, state, amount)
    ensures var input := ServerInput(PayloadOf(mode, state));
      && DistinctInput(input) && AllAtLeast(Values(input), 0)
      && Values(input) == (if mode.EqualChoice? then seq(|Included(state)|, i => 0) else RowValues(Included(state)))
      && Resolve(ServerMode(mode), amount, input).Ok?
  {
    IncludedRows(state);
    var rows, input := Included(state), ServerInput(PayloadOf(mode, state));
    forall i | 0 <= i < |rows| ensures rows[i].value >= 0 {
      assert rows[i] in state;
    }
    assert Values(input) == if mode.EqualChoice? then seq(|rows|, i => 0) else RowValues(rows);
  }

  /** The Done button is enabled exactly for the buffers whose payload the server's rules accept:
      a positive amount, and splits that resolve. */
  lemma SubmittableExactly(mode: Choice, state: seq<RowState>, amount: nat)
    requires BufferOk(state)
    ensures Submittable(mode, state, amount) <==>
      amount > 0 && Resolve(ServerMode(mode), amount, ServerInput(PayloadOf(mode, state))).Ok?
  {
    var input := ServerInput(PayloadOf(mode, state));
    if Submittable(mode, state, amount) {
      ServerAccepts(mode, state, amount);
    } else if !mode.EqualChoice? {
      assert Values(input) == RowValues(Included(state));
    }
  }

  lemma PreviewIsApportioned(div: Division, mode: Choice, state: seq<RowState>, amount: nat)
    requires IeeeDivision(div) && BufferOk(state)
    requires Submittable(mode, state, amount) && Exact53(mode, state, amount)
    ensures var r := Resolve(ServerMode(mode), amount, ServerInput(PayloadOf(mode, state)));
      r.Ok? && Cents(r.value) == PreviewShares(div, mode, state, amount)
  {
    var rows := Included(state);
    ServerAccepts(mode, state, amount);
    match mode
    case EqualChoice => EqualSharesApportion(div, amount, |rows|);
    case ExactChoice =>
    case PercentChoice =>
      PercentValues(state);
      PercentApportion(div, amount, RowValues(rows));
  }

  lemma PercentValues(state: seq<RowState>)
    requires BufferOk(state)
    ensures AllAtLeast(RowValues(Included(state)), 0)
  {
    IncludedRows(state);
    var rows := Included(state);
    forall i | 0 <= i < |rows| ensures rows[i].value >= 0 {
      assert rows[i] in state;
    }
  }

  lemma PayloadFits(mode: Choice, state: seq<RowState>, amount: nat)
    requires BufferOk(state) && Submittable(mode, state, amount) && Exact53(mode, state, amount)
    ensures Fits(ServerMode(mode), amount, ServerInput(PayloadOf(mode, state)))
  {
    ServerAccepts(mode, state, amount);
  }

  /** The shares shown before saving are, row by row, the ones the server's resolver computes
      on its 64-bit integers from the payload, and the server accepts it. */
  lemma PreviewIsServer(div: Division, mode: Choice, state: seq<RowState>, amount: nat)
    requires IeeeDivision(div) && BufferOk(state)
    requires Submittable(mode, state, amount) && Exact53(mode, state, amount)
    ensures ServedAsShown(div, mode, state, amount)
  {
    var input, rows := ServerInput(PayloadOf(mode, state)), Included(state);
    PreviewIsApportioned(div, mode, state, amount);
    PayloadFits(mode, state, amount);
    Resolve64Exactly(ServerMode(mode), amount, input);
    IncludedRows(state);
    SameShares(rows, PreviewShares(div, mode, state, amount), Resolve(ServerMode(mode), amount, input).value);
  }

  lemma SameShares(rows: seq<RowState>, shares: seq<int>, splits: seq<Split>)
    requires DistinctRows(rows) && |rows| == |shares| == |splits| && Cents(splits) == shares
    requires forall i :: 0 <= i < |rows| ==> splits[i].user == rows[i].userID
    ensures PreviewShows(ShareMap(rows, shares), splits)
  {
    ShareMapAt(rows, shares);
    forall i | 0 <= i < |splits| ensures splits[i].cents == shares[i] {
      assert Cents(splits)[i] == splits[i].cents;
    }
    forall u | u in ShareMap(rows, shares) ensures exists i :: 0 <= i < |splits| && splits[i].user == u {
      var i :| 0 <= i < |rows| && rows[i].userID == u;
      assert splits[i].user == u;
    }
  }

  /** The same users, the same cents. */
  ghost predicate PreviewShows(preview: map<Id, int>, splits: seq<Split>) {
    && (forall i :: 0 <= i < |splits| ==> splits[i].user in preview && preview[splits[i].user] == splits[i].cents)
    && (forall u :: u in preview ==> exists i :: 0 <= i < |splits| && splits[i].user == u)
  }

  /** The intended resolver accepts the payload, and the server answers the same. */
  predicate ServedAsIntended(mode: Choice, state: seq<RowState>, amount: nat) {
    var input := ServerInput(PayloadOf(mode, state));
    && Resolve(ServerMode(mode), amount, input).Ok?
    && Resolve64(ServerMode(mode), amount, input) == Returned(Resolve(ServerMode(mode), amount, input))
  }

  /** The server accepts the payload with the previewed shares. */
  ghost predicate ServedAsShown(div: Division, mode: Choice, state: seq<RowState>, amount: nat) {
    var server := Resolve64(ServerMode(mode), amount, ServerInput(PayloadOf(mode, state)));
    && server.Returned? && server.resolution.Ok?
    && PreviewShows(Preview(div, mode, state, amount), server.resolution.value)
  }

  /** Every submittable buffer is served as intended, except in percent mode when a product of
      amount and value reaches 2^63. */
  lemma ServedExactly(mode: Choice, state: seq<RowState>, amount: nat)
    requires BufferOk(state) && Submittable(mode, state, amount) && amount < TWO_63
    ensures ServedAsIntended(mode, state, amount)
       <==> (mode.PercentChoice? ==> ProductsFit(amount, RowValues(Included(state))))
  {
    ServerAccepts(mode, state, amount);
    Resolve64Exactly(ServerMode(mode), amount, ServerInput(PayloadOf(mode, state)));
  }

  /** The largest of the basis points that percent mode prefills for n rows. */
  function LargestPrefill(n: nat): int
    requires n > 0
  {
    WHOLE / n + if WHOLE % n > 0 then 1 else 0
  }

  lemma PrefillValues(div: Division, state: seq<RowState>, total: nat)
    requires IeeeDivision(div) && total < TWO_53 && |Included(state)| > 0
    ensures |EqualShares(div, total, |Included(state)|)| == |Included(state)|
    ensures var n, next := |Included(state)|, Spread(state, EqualShares(div, total, |Included(state)|));
      && |Included(next)| == n && RowValues(Included(next)) == Apportioned(total, Ones(n), n)
      && Sum(RowValues(Included(next))) == total
      && forall i :: 0 <= i < |next| ==> next[i].value >= 0
  {
    var n := |Included(state)|;
    EqualSharesApportion(div, total, n);
    SumOnes(n);
    ApportionedSum(total, Ones(n), n);
    ApportionedNonNegative(total, Ones(n), n);
    SpreadIncluded(state, EqualShares(div, total, n));
    SpreadNonNegative(state, EqualShares(div, total, n));
  }

  /** Switching mode always leaves the buffer in a state the Done button accepts, and which the
      intended resolver accepts. */
  lemma PrefillSubmittable(div: Division, mode: Choice, state: seq<RowState>, amount: nat)
    requires IeeeDivision(div) && DistinctRows(state)
    requires 0 < amount < TWO_53 && |Included(state)| > 0
    ensures var next := Prefilled(div, mode, state, amount);
      && |Included(next)| == |Included(state)|
      && BufferOk(next) && Submittable(mode, next, amount)
      && Resolve(ServerMode(mode), amount, ServerInput(PayloadOf(mode, next))).Ok?
      && (!mode.EqualChoice? ==>
            var total := if mode.ExactChoice? then amount else WHOLE;
            RowValues(Included(next)) == Apportioned(total, Ones(|Included(state)|), |Included(state)|))
  {
    var next := Prefilled(div, mode, state, amount);
    if mode.EqualChoice? {
      ZeroedIncluded(state, next);
    } else {
      PrefillValues(div, state, if mode.ExactChoice? then amount else WHOLE);
    }
    ServerAccepts(mode, next, amount);
  }

  /** The first prefilled row has the largest value. */
  lemma FirstIsLargest(n: nat)
    requires n > 0
    ensures var vs := Apportioned(WHOLE, Ones(n), n);
      vs[0] == LargestPrefill(n) && forall i :: 0 <= i < n ==> 0 <= vs[i] <= vs[0]
  {
    SumConstant(n, WHOLE, n);
    OnesApportioned(WHOLE, n, WHOLE / n);
    FirstOfEqual(Apportioned(WHOLE, Ones(n), n), WHOLE / n, n);
  }

  lemma FirstOfEqual(vs: seq<int>, base: int, n: nat)
    requires n > 0 && base == WHOLE / n && vs == seq(n, i => base + if i < WHOLE - base * n then 1 else 0)
    ensures vs[0] == LargestPrefill(n) && forall i :: 0 <= i < n ==> 0 <= vs[i] <= vs[0]
  {
  }

  /** So its product alone decides whether all products stay below a limit. */
  lemma FirstProductDecides(amount: nat, n: nat, limit: int)
    requires n > 0
    ensures AllBelow(amount, Apportioned(WHOLE, Ones(n), n), limit) <==> amount * LargestPrefill(n) < limit
  {
    FirstIsLargest(n);
    var vs := Apportioned(WHOLE, Ones(n), n);
    forall i | 0 <= i < n ensures amount * vs[i] <= amount * vs[0] {
      MulMono(amount, vs[i], vs[0]);
    }
  }

  /** What the server makes of a prefilled buffer: in equal and exact mode always the intended
      split, which the preview shows; in percent mode the intended split exactly when the amount
      times the largest prefilled value stays below 2^63, and the preview below 2^53. */
  lemma PrefillAccepted(div: Division, mode: Choice, state: seq<RowState>, amount: nat)
    requires IeeeDivision(div) && DistinctRows(state)
    requires 0 < amount < TWO_53 && |Included(state)| > 0
    ensures var next, largest := Prefilled(div, mode, state, amount), LargestPrefill(|Included(state)|);
      && BufferOk(next) && Submittable(mode, next, amount)
      && (ServedAsIntended(mode, next, amount) <==> (mode.PercentChoice? ==> amount * largest < TWO_63))
      && ((mode.PercentChoice? ==> amount * largest < TWO_53) ==> ServedAsShown(div, mode, next, amount))
  {
    var next, n := Prefilled(div, mode, state, amount), |Included(state)|;
    PrefillSubmittable(div, mode, state, amount);
    ServedExactly(mode, next, amount);
    FirstProductDecides(amount, n, TWO_63);
    FirstProductDecides(amount, n, TWO_53);
    if mode.PercentChoice? ==> amount * LargestPrefill(n) < TWO_53 {
      PreviewIsServer(div, mode, next, amount);
    }
  }

  /** One row and 2^52 cents in percent mode: the Done button is enabled and the server panics. */
  lemma PrefillPanics(div: Division, user: Id)
    requires IeeeDivision(div)
    ensures var amount := TWO_53 / 2;
      var next := Prefilled(div, PercentChoice, [RowState(user, true, 0)], amount);
      && Submittable(PercentChoice, next, amount)
      && Resolve64(Percent, amount, ServerInput(PayloadOf(PercentChoice, next))) == Panicked
  {
    var amount, state := TWO_53 / 2, [RowState(user, true, 0)];
    assert state[..0] == [];
    assert Included(state) == state;
    PrefillSubmittable(div, PercentChoice, state, amount);
    FirstIsLargest(1);
    var next := Prefilled(div, PercentChoice, state, amount);
    var input := ServerInput(PayloadOf(PercentChoice, next));
    assert Values(input) == [WHOLE] by {
      assert RowValues(Included(next))[0] == WHOLE;
    }
    OneRowPanics(amount, [WHOLE]);
  }

  lemma OneRowPanics(amount: int, vs: seq<int>)
    requires amount == TWO_53 / 2 && vs == [WHOLE]
    ensures Sum(vs) == WHOLE && Weighted64(amount, vs, WHOLE).None?
  {
    var q := MulDiv(amount, WHOLE, WHOLE);
    assert Wrap(amount * WHOLE) == 1808 * amount;
    assert Quotients64(amount, vs, WHOLE) == [q] && vs[..0] == [] && [q][..0] == [];
  }

  lemma {:induction false} ZeroedIncluded(state: seq<RowState>, next: seq<RowState>)
    requires |next| == |state|
    requires forall i :: 0 <= i < |state| ==> next[i] == state[i].(value := 0)
    ensures |Included(next)| == |Included(state)|
  {
    if |state| > 0 {
      ZeroedIncluded(state[..|state| - 1], next[..|state| - 1]);
    }
  }

  lemma {:induction false} SpreadZeroes(state: seq<RowState>, values: seq<int>)
    requires |values| == |Included(state)|
    ensures forall i :: 0 <= i < |state| && !state[i].included ==> Spread(state, values)[i].value == 0
  {
    if |state| > 0 {
      var last := state[|state| - 1];
      SpreadZeroes(state[..|state| - 1], if last.included then values[..|values| - 1] else values);
    }
  }

  /** Prefilling never touches who is in or out, and gives no value to those out, nor to anybody
      in equal mode. */
  lemma PrefillKeepsRows(div: Division, mode: Choice, state: seq<RowState>, amount: nat, i: nat)
    requires IeeeDivision(div) && amount < TWO_53 && i < |state| && |Included(state)| > 0
    ensures var next := Prefilled(div, mode, state, amount);
      && |next| == |state| && next[i].userID == state[i].userID && next[i].included == state[i].included
      && (mode.EqualChoice? || !state[i].included ==> next[i].value == 0)
  {
    if !mode.EqualChoice? {
      var shares := EqualShares(div, if mode.ExactChoice? then amount else WHOLE, |Included(state)|);
      EqualSharesApportion(div, if mode.ExactChoice? then amount else WHOLE, |Included(state)|);
      SpreadZeroes(state, shares);
    }
  }

  lemma {:induction false} SpreadNonNegative(state: seq<RowState>, values: seq<int>)
    requires |values| == |Included(state)| && NonNegative(values)
    ensures forall i :: 0 <= i < |state| ==> Spread(state, values)[i].value >= 0
  {
    if |state| > 0 {
      var last := state[|state| - 1];
      SpreadNonNegative(state[..|state| - 1], if last.included then values[..|values| - 1] else values);
    }
  }

  lemma {:induction false} IncludedGrows(state: seq<RowState>, k: nat)
    requires k < |state|
    ensures Included(state[..k + 1])
      == if state[k].included then Included(state[..k]) + [state[k]] else Included(state[..k])
    ensures Included(state[..k + 1]) <= Included(state)
    decreases |state| - k
  {
    assert state[..k + 1][..k] == state[..k];
    if k + 1 < |state| {
      IncludedGrows(state, k + 1);
    } else {
      assert state[..k + 1] == state;
    }
  }

  /** One more cent goes to the row whose turn it is. */
  lemma OneMoreCent(fs: seq<int>, k: nat)
    requires |fs| > 0
    ensures var r := HandedOut(fs, k); HandedOut(fs, k + 1) == r[k % |fs| := r[k % |fs|] + 1]
  {
    var n := |fs|;
    NextRound(k, n);
    assert HandedOut(fs, k + 1) == HandedOut(fs, k)[k % n := HandedOut(fs, k)[k % n] + 1];
  }

  lemma NoCents(fs: seq<int>)
    requires |fs| > 0
    ensures HandedOut(fs, 0) == fs
  {
    assert 0 / |fs| == 0 && 0 % |fs| == 0;
  }

  lemma HandStep(rows: seq<RowState>, fs: seq<int>, k: nat)
    requires |rows| == |fs| > 0 && DistinctRows(rows)
    ensures var out, u := ShareMap(rows, HandedOut(fs, k)), rows[k % |rows|].userID;
      u in out && out[u := out[u] + 1] == ShareMap(rows, HandedOut(fs, k + 1))
  {
    OneMoreCent(fs, k);
    GiveCent(rows, HandedOut(fs, k), k % |rows|);
  }

  lemma GiveCent(rows: seq<RowState>, shares: seq<int>, t: nat)
    requires |rows| == |shares| && DistinctRows(rows) && t < |rows|
    ensures var out, u := ShareMap(rows, shares), rows[t].userID;
      u in out && out[u := out[u] + 1] == ShareMap(rows, shares[t := shares[t] + 1])
  {
    ShareMapAt(rows, shares);
    ShareMapUpdate(rows, shares, t, shares[t] + 1);
  }

  lemma ShareMapGrows(state: seq<RowState>, shares: seq<int>, k: nat)
    requires |shares| == |Included(state)| && k < |state|
    requires |Included(state[..k + 1])| <= |shares|
    requires Included(state[..k + 1])
      == if state[k].included then Included(state[..k]) + [state[k]] else Included(state[..k])
    ensures state[k].included ==>
      var i := |Included(state[..k])|;
      ShareMap(Included(state[..k + 1]), shares[..i + 1])
      == ShareMap(Included(state[..k]), shares[..i])[state[k].userID := shares[i]]
  {
    if state[k].included {
      var i, rows := |Included(state[..k])|, Included(state[..k + 1]);
      assert rows[..i] == Included(state[..k]) && shares[..i + 1][..i] == shares[..i];
    }
  }

  lemma SpreadGrows(state: seq<RowState>, values: seq<int>, k: nat)
    requires |values| == |Included(state)| && k < |state|
    requires |Included(state[..k + 1])| <= |values|
    requires Included(state[..k + 1])
      == if state[k].included then Included(state[..k]) + [state[k]] else Included(state[..k])
    ensures var i, j := |Included(state[..k])|, |Included(state[..k + 1])|;
      Spread(state[..k + 1], values[..j])
      == Spread(state[..k], values[..i]) + [state[k].(value := if state[k].included then values[i] else 0)]
  {
    var i, j := |Included(state[..k])|, |Included(state[..k + 1])|;
    assert state[..k + 1][..k] == state[..k];
    if state[k].included {
      assert values[..j][..i] == values[..i];
    }
  }

  lemma FloorAt(div: Division, amount: int, state: seq<RowState>, k: nat)
    requires k < |state| && state[k].included
    ensures var i, fs := |Included(state[..k])|, PercentFloors(div, amount, RowValues(Included(state)));
      i < |fs| && fs[i] == FloorDiv(div, amount * state[k].value, WHOLE)
  {
    IncludedGrows(state, k);
    var i := |Included(state[..k])|;
    assert Included(state[..k + 1])[i] == Included(state)[i];
  }

  /** What one included row adds to the map of floors and to their sum. */
  lemma FloorsGrow(div: Division, amount: int, state: seq<RowState>, fs: seq<int>, k: nat)
    requires k < |state| && state[k].included && fs == PercentFloors(div, amount, RowValues(Included(state)))
    ensures var i := |Included(state[..k])|;
      && i < |fs| && fs[i] == FloorDiv(div, amount * state[k].value, WHOLE)
      && |Included(state[..k + 1])| == i + 1
      && ShareMap(Included(state[..k + 1]), fs[..i + 1])
         == ShareMap(Included(state[..k]), fs[..i])[state[k].userID := fs[i]]
      && Sum(fs[..i + 1]) == Sum(fs[..i]) + fs[i]
  {
    FloorAt(div, amount, state, k);
    IncludedGrows(state, k);
    ShareMapGrows(state, fs, k);
    SumPrefix(fs, |Included(state[..k])|);
  }

  lemma PayloadGrows(mode: Choice, state: seq<RowState>, k: nat)
    requires k < |state|
    ensures var before, s := PayloadOf(mode, state[..k]).splits, state[k];
      PayloadOf(mode, state[..k + 1]).splits
      == if s.included then before + [Entry(s.userID, if mode.EqualChoice? then None else Some(s.value))] else before
  {
    IncludedGrows(state, k);
  }

  // ---------------------------------------------------------------------------- the editor

  class SplitEditor {
    const div: Division
    var mode: Choice
    var state: seq<RowState>
    var dirty: bool

    ghost predicate Valid()
      reads this
    {
      IeeeDivision(div) && BufferOk(state)
    }

    constructor (div: Division, members: seq<Id>)
      requires IeeeDivision(div) && forall i, j :: 0 <= i < j < |members| ==> members[i] != members[j]
      ensures Valid() && mode == EqualChoice && !dirty
      ensures state == seq(|members|, i requires 0 <= i < |members| => RowState(members[i], true, 0))
    {
      this.div := div;
      mode := EqualChoice;
      dirty := false;
      state := seq(|members|, i requires 0 <= i < |members| => RowState(members[i], true, 0));
    }

    method PrefillForMode(amount: nat)
      requires Valid() && amount < TWO_53
      modifies this`state
      ensures state == Prefilled(div, mode, old(state), amount)
      ensures Valid()
    {
      var n := CountIncluded();
      if mode.EqualChoice? {
        ClearValues();
      } else if n > 0 {
        var total := if mode.ExactChoice? then amount else WHOLE;
        var shares := EqualShares(div, total, n);
        EqualSharesApportion(div, total, n);
        ApportionedNonNegative(total, Ones(n), n);
        SpreadNonNegative(state, shares);
        Fill(shares);
      }
    }

    method ClearValues()
      modifies this`state
      ensures state == Cleared(old(state))
    {
      ghost var was := state;
      for k := 0 to |state|
        invariant |state| == |was|
        invariant forall j :: 0 <= j < |was| ==> state[j] == if j < k then was[j].(value := 0) else was[j]
      {
        state := state[k := state[k].(value := 0)];
      }
    }

    /** The included rows take the shares one after the other, the rest go to zero. */
    method Fill(shares: seq<int>)
      requires |shares| == |Included(state)|
      modifies this`state
      ensures state == Spread(old(state), shares)
    {
      ghost var was := state;
      var i := 0;
      for k := 0 to |state|
        invariant |state| == |was| && state[k..] == was[k..]
        invariant i == |Included(was[..k])| <= |shares|
        invariant state[..k] == Spread(was[..k], shares[..i])
      {
        IncludedGrows(was, k);
        SpreadGrows(was, shares, k);
        assert state[k] == state[k..][0] == was[k];
        ghost var before := state;
        var value := 0;
        if state[k].included {
          value := shares[i];
          i := i + 1;
        }
        state := state[k := state[k].(value := value)];
        assert state[..k + 1] == before[..k] + [was[k].(value := value)];
        assert state[k + 1..] == before[k..][1..] == was[k..][1..];
      }
      assert was[..|was|] == was && shares[..i] == shares && state[..|was|] == state;
    }

    method CountIncluded() returns (n: nat)
      ensures n == |Included(state)|
    {
      n := 0;
      for k := 0 to |state|
        invariant n == |Included(state[..k])|
      {
        assert state[..k + 1][..k] == state[..k];
        if state[k].included {
          n := n + 1;
        }
      }
      assert state[..|state|] == state;
    }

    /** The shares to show, without changing the buffer. */
    method ComputedShares(amount: nat) returns (out: map<Id, int>)
      requires Valid() && amount < TWO_53
      ensures out == Preview(div, mode, state, amount)
    {
      out := map[];
      var n := CountIncluded();
      if n == 0 {
        return;
      }
      match mode {
        case EqualChoice =>
          EqualSharesApportion(div, amount, n);
          out := Place(EqualShares(div, amount, n));
        case ExactChoice =>
          out := Place(RowValues(Included(state)));
        case PercentChoice =>
          out := PercentPreview(amount);
      }
    }

    /** The loop that gives each included row the next share. */
    method Place(shares: seq<int>) returns (out: map<Id, int>)
      requires |shares| == |Included(state)|
      ensures out == ShareMap(Included(state), shares)
    {
      out := map[];
      var i := 0;
      for k := 0 to |state|
        invariant i == |Included(state[..k])| <= |shares|
        invariant out == ShareMap(Included(state[..k]), shares[..i])
      {
        IncludedGrows(state, k);
        ShareMapGrows(state, shares, k);
        if state[k].included {
          out := out[state[k].userID := shares[i]];
          i := i + 1;
        }
      }
      assert state[..|state|] == state && shares[..i] == shares;
    }

    method PercentPreview(amount: nat) returns (out: map<Id, int>)
      requires DistinctRows(state) && |Included(state)| > 0
      ensures out == Preview(div, PercentChoice, state, amount)
    {
      var rows := Included(state);
      ghost var fs := PercentFloors(div, amount, RowValues(rows));
      var handed: int;
      out, handed := FloorsOut(amount);
      IncludedRows(state);
      NoCents(fs);
      var i := 0;
      while handed < amount
        invariant 0 <= i <= Lacking(amount, fs) && handed == Sum(fs) + i
        invariant out == ShareMap(rows, HandedOut(fs, i))
        decreases amount - handed
      {
        var target := rows[i % |rows|].userID;
        HandStep(rows, fs, i);
        out := out[target := out[target] + 1];
        handed := handed + 1;
        i := i + 1;
      }
    }

    method FloorsOut(amount: nat) returns (out: map<Id, int>, handed: int)
      ensures var fs := PercentFloors(div, amount, RowValues(Included(state)));
        out == ShareMap(Included(state), fs) && handed == Sum(fs)
    {
      out, handed := map[], 0;
      ghost var fs := PercentFloors(div, amount, RowValues(Included(state)));
      ghost var i := 0;
      for k := 0 to |state|
        invariant i == |Included(state[..k])| <= |fs|
        invariant out == ShareMap(Included(state[..k]), fs[..i]) && handed == Sum(fs[..i])
      {
        IncludedGrows(state, k);
        if state[k].included {
          FloorsGrow(div, amount, state, fs, k);
          var share := FloorDiv(div, amount * state[k].value, WHOLE);
          out := out[state[k].userID := share];
          handed := handed + share;
          i := i + 1;
        }
      }
      assert state[..|state|] == state && fs[..i] == fs;
    }

    /** Whether the Done button is enabled. */
    method CanSubmit(amount: nat) returns (valid: bool)
      ensures valid == Submittable(mode, state, amount)
    {
      var n, sum := 0, 0;
      for k := 0 to |state|
        invariant n == |Included(state[..k])| && sum == Sum(RowValues(Included(state[..k])))
      {
        assert state[..k + 1][..k] == state[..k];
        if state[k].included {
          assert RowValues(Included(state[..k + 1])) == RowValues(Included(state[..k])) + [state[k].value];
          SumSnoc(RowValues(Included(state[..k])), state[k].value);
          n, sum := n + 1, sum + state[k].value;
        }
      }
      assert state[..|state|] == state;
      match mode {
        case EqualChoice => valid := true;
        case ExactChoice => valid := sum == amount;
        case PercentChoice => valid := sum == WHOLE;
      }
      valid := valid && amount > 0 && n > 0;
    }

    /** The payload keeps the included rows, in order, and leaves the value out in equal mode. */
    method Commit() returns (payload: Payload)
      modifies this`dirty
      ensures payload == PayloadOf(mode, state) && dirty
    {
      var splits := [];
      for k := 0 to |state|
        invariant splits == PayloadOf(mode, state[..k]).splits
      {
        PayloadGrows(mode, state, k);
        var s := state[k];
        if s.included {
          splits := splits + [if mode.EqualChoice? then Entry(s.userID, None) else Entry(s.userID, Some(s.value))];
        }
      }
      assert state[..|state|] == state;
      payload := Payload(mode, splits);
      dirty := true;
    }

    method ChooseMode(choice: Choice, amount: nat)
      requires Valid() && amount < TWO_53
      modifies this`mode, this`state
      ensures Valid() && mode == choice && state == Prefilled(div, choice, old(state), amount)
    {
      mode := choice;
      PrefillForMode(amount);
    }

    method Toggle(k: nat, included: bool, amount: nat)
      requires Valid() && k < |state| && amount < TWO_53
      modifies this`state
      ensures Valid()
      ensures state == Prefilled(div, mode, old(state[k := state[k].(included := included)]), amount)
    {
      state := state[k := state[k].(included := included)];
      PrefillForMode(amount);
    }

    /** None stands for text that is not a number. */
    method EnterValue(k: nat, n: Option<int>)
      requires Valid() && k < |state|
      modifies this`state
      ensures Valid()
      ensures state == old(state)[k := old(state)[k].(value := if n.Some? && n.value >= 0 then n.value else 0)]
    {
      var value := if n.Some? && n.value >= 0 then n.value else 0;
      state := state[k := state[k].(value := value)];
    }
  }
}
