/** One worker ticking with nobody in its way: what a tick does, and how ticking catches up. */
module Ticks {
  import opened Core
  import opened Int64
  import opened Splits
  import opened Ledger
  import opened Calendar
  import opened Recurring
  import opened Tables
  import opened Outcomes
  import Store

  function AdvanceRow(next: Stepping, r: Row): Row {
    r.(nextRun := next(r.nextRun, r.cadence), done := r.done + 1)
  }

  /** The rows after a committed tick. */
  function TickRows(next: Stepping, rows: map<Id, Row>, claim: seq<Occurrence>): map<Id, Row> {
    map id | id in rows :: if Claimed(claim, id) then AdvanceRow(next, rows[id]) else rows[id]
  }

  /** An answer of ClaimDue when no row is locked. */
  ghost predicate QuietClaim(rows: map<Id, Row>, now: int, claim: seq<Occurrence>) {
    ClaimAnswer(System(now, {}, {}, {}, rows, map[], multiset{}, multiset{}), claim)
  }

  lemma QuietClaimFacts(rows: map<Id, Row>, now: int, claim: seq<Occurrence>)
    requires QuietClaim(rows, now, claim)
    ensures DistinctClaim(claim) && |claim| <= CLAIM_LIMIT
    ensures forall i :: 0 <= i < |claim| ==>
      claim[i].id in rows && DueRow(rows[claim[i].id], now) && claim[i].at == rows[claim[i].id].nextRun
    ensures forall id :: id in rows && DueRow(rows[id], now) && !Claimed(claim, id) ==> |claim| == CLAIM_LIMIT
  {
    var s := System(now, {}, {}, {}, rows, map[], multiset{}, multiset{});
    forall id ensures !Locked(s, id) {
    }
  }

  ghost function DueIds(rows: map<Id, Row>, now: int): set<Id> {
    set id | id in rows && DueRow(rows[id], now)
  }

  ghost function ClaimIds(claim: seq<Occurrence>): set<Id> {
    set o | o in claim :: o.id
  }

  lemma {:induction false} ClaimIdsCount(claim: seq<Occurrence>)
    requires DistinctClaim(claim)
    ensures |ClaimIds(claim)| == |claim|
  {
    if |claim| > 0 {
      var front, last := claim[..|claim| - 1], claim[|claim| - 1];
      ClaimIdsCount(front);
      assert claim == front + [last];
      assert ClaimIds(claim) == ClaimIds(front) + {last.id};
      assert last.id !in ClaimIds(front);
    }
  }

  /** A tick takes a hundred of the due rows, or all of them. */
  lemma ClaimSize(rows: map<Id, Row>, now: int, claim: seq<Occurrence>)
    requires QuietClaim(rows, now, claim)
    ensures |claim| == Min(CLAIM_LIMIT, |DueIds(rows, now)|)
  {
    QuietClaimFacts(rows, now, claim);
    ClaimIdsCount(claim);
    assert ClaimIds(claim) <= DueIds(rows, now);
    SubsetSize(ClaimIds(claim), DueIds(rows, now));
    if ClaimIds(claim) != DueIds(rows, now) {
      var id :| id in DueIds(rows, now) && id !in ClaimIds(claim);
      ClaimedIds(claim, id);
    }
  }

  lemma ClaimedIds(claim: seq<Occurrence>, id: Id)
    ensures Claimed(claim, id) <==> id in ClaimIds(claim)
  {
    if Claimed(claim, id) {
      var i :| 0 <= i < |claim| && claim[i].id == id;
      assert claim[i] in claim;
    }
  }

  // ------------------------------------------------------------------- overdue occurrences

  /** How many dates of a row are due by now. */
  ghost function Overdue(next: Stepping, r: Row, now: int): nat
    requires Forward(next) && ValidCadence(r.cadence)
    decreases now - r.nextRun
  {
    if DueRow(r, now) then 1 + Overdue(next, AdvanceRow(next, r), now) else 0
  }

  ghost function OverdueOf(next: Stepping, now: int): Row -> int
    requires Forward(next)
  {
    (r: Row) => if ValidCadence(r.cadence) then Overdue(next, r, now) else 0
  }

  ghost function TotalOverdue(next: Stepping, rows: map<Id, Row>, now: int): int
    requires Forward(next)
  {
    SumRows(rows, OverdueOf(next, now))
  }

  ghost predicate CadencesOk(rows: map<Id, Row>) {
    forall id :: id in rows ==> ValidCadence(rows[id].cadence)
  }

  lemma TickRowsSnoc(next: Stepping, rows: map<Id, Row>, claim: seq<Occurrence>, i: nat)
    requires DistinctClaim(claim) && i < |claim| && claim[i].id in rows
    ensures TickRows(next, rows, claim[..i])[claim[i].id] == rows[claim[i].id]
    ensures TickRows(next, rows, claim[..i + 1])
         == TickRows(next, rows, claim[..i])[claim[i].id := AdvanceRow(next, rows[claim[i].id])]
  {
    var id := claim[i].id;
    forall k | k in rows ensures Claimed(claim[..i + 1], k) <==> Claimed(claim[..i], k) || k == id {
      if k == id {
        assert claim[..i + 1][i].id == id;
      }
      if Claimed(claim[..i], k) {
        var j :| 0 <= j < i && claim[..i][j].id == k;
        assert claim[..i + 1][j].id == k;
      }
    }
    assert !Claimed(claim[..i], id);
  }

  lemma OneLess(next: Stepping, r: Row, now: int)
    requires Forward(next) && ValidCadence(r.cadence) && DueRow(r, now)
    ensures OverdueOf(next, now)(AdvanceRow(next, r)) == OverdueOf(next, now)(r) - 1
  {
  }

  lemma {:induction false} PrefixLowers(next: Stepping, rows: map<Id, Row>, now: int, claim: seq<Occurrence>, i: nat)
    requires Forward(next) && CadencesOk(rows) && DistinctClaim(claim) && i <= |claim|
    requires forall k :: 0 <= k < |claim| ==> claim[k].id in rows && DueRow(rows[claim[k].id], now)
    ensures TotalOverdue(next, TickRows(next, rows, claim[..i]), now) == TotalOverdue(next, rows, now) - i
  {
    if i == 0 {
      assert TickRows(next, rows, claim[..0]) == rows;
    } else {
      PrefixLowers(next, rows, now, claim, i - 1);
      TickRowsSnoc(next, rows, claim, i - 1);
      var id := claim[i - 1].id;
      OneRowLower(next, TickRows(next, rows, claim[..i - 1]), id, now);
    }
  }

  lemma OneRowLower(next: Stepping, rows: map<Id, Row>, id: Id, now: int)
    requires Forward(next) && id in rows && ValidCadence(rows[id].cadence) && DueRow(rows[id], now)
    ensures TotalOverdue(next, rows[id := AdvanceRow(next, rows[id])], now) == TotalOverdue(next, rows, now) - 1
  {
    SumRowsUpdate(rows, OverdueOf(next, now), id, AdvanceRow(next, rows[id]));
    OneLess(next, rows[id], now);
  }

  /** A tick lowers the number of overdue occurrences by as many rows as it takes. */
  lemma TickLowers(next: Stepping, rows: map<Id, Row>, now: int, claim: seq<Occurrence>)
    requires Forward(next) && CadencesOk(rows) && QuietClaim(rows, now, claim)
    ensures TotalOverdue(next, TickRows(next, rows, claim), now)
         == TotalOverdue(next, rows, now) - Min(CLAIM_LIMIT, |DueIds(rows, now)|)
  {
    QuietClaimFacts(rows, now, claim);
    PrefixLowers(next, rows, now, claim, |claim|);
    assert claim[..|claim|] == claim;
    ClaimSize(rows, now, claim);
  }

  /** at is one of the dates by which the row is behind. */
  ghost predicate OverdueDate(next: Stepping, r: Row, now: int, at: int)
    requires Forward(next) && ValidCadence(r.cadence)
    decreases now - r.nextRun
  {
    DueRow(r, now) && (at == r.nextRun || OverdueDate(next, AdvanceRow(next, r), now, at))
  }

  lemma {:induction false} OverdueDatesLater(next: Stepping, r: Row, now: int, at: int)
    requires Forward(next) && ValidCadence(r.cadence) && OverdueDate(next, r, now, at)
    ensures r.nextRun <= at <= now
    decreases now - r.nextRun
  {
    if at != r.nextRun {
      OverdueDatesLater(next, AdvanceRow(next, r), now, at);
    }
  }

  /** at is the row's next run or a later date of its schedule. */
  ghost predicate OwnDate(next: Stepping, r: Row, at: int) {
    exists k: nat :: at == Nth(next, r.nextRun, r.cadence, k)
  }

  lemma OwnDateStep(next: Stepping, r: Row, at: int)
    ensures OwnDate(next, r, at) <==> at == r.nextRun || OwnDate(next, AdvanceRow(next, r), at)
  {
    var r' := AdvanceRow(next, r);
    assert Nth(next, r.nextRun, r.cadence, 0) == r.nextRun;
    if OwnDate(next, r', at) {
      var k: nat :| at == Nth(next, r'.nextRun, r.cadence, k);
      NthShift(next, r.nextRun, r.cadence, k);
    }
    if OwnDate(next, r, at) {
      var k: nat :| at == Nth(next, r.nextRun, r.cadence, k);
      if k > 0 {
        NthShift(next, r.nextRun, r.cadence, k - 1);
      }
    }
  }

  /** The overdue dates are the dates of the row's own schedule from its next run up to now. */
  lemma {:induction false} OverdueDatesExactly(next: Stepping, r: Row, now: int, at: int)
    requires Forward(next) && ValidCadence(r.cadence) && !r.deleted
    ensures OverdueDate(next, r, now, at) <==> at <= now && OwnDate(next, r, at)
    decreases now - r.nextRun
  {
    if DueRow(r, now) {
      OverdueDatesExactly(next, AdvanceRow(next, r), now, at);
      OwnDateStep(next, r, at);
    } else if OwnDate(next, r, at) {
      var k: nat :| at == Nth(next, r.nextRun, r.cadence, k);
      if k > 0 {
        NthIncreases(next, r.nextRun, r.cadence, 0, k);
      }
    }
  }

  lemma {:induction false} NthShift(next: Stepping, start: int, c: Cadence, k: nat)
    ensures Nth(next, next(start, c), c, k) == Nth(next, start, c, k + 1)
  {
    if k > 0 {
      NthShift(next, start, c, k - 1);
    }
  }

  // ------------------------------------------------------------------------- a run of ticks

  /** Which templates the expense tables take; see AcceptedBy. */
  type Acceptance = Template -> bool

  function AcceptedBy(users: set<Id>): Acceptance {
    (t: Template) => Insertable(users, t)
  }

  predicate AcceptedAt(accepts: Acceptance, rows: map<Id, Row>, claim: seq<Occurrence>, k: nat) {
    k < |claim| && claim[k].id in rows && accepts(rows[claim[k].id].template)
  }

  /** The first n claimed templates are all accepted. */
  ghost predicate AcceptedUpTo(accepts: Acceptance, rows: map<Id, Row>, claim: seq<Occurrence>, n: nat) {
    n <= |claim| && forall k: nat :: k < n ==> AcceptedAt(accepts, rows, claim, k)
  }

  /** A tick commits exactly when every template it claimed is accepted. */
  ghost predicate Commits(accepts: Acceptance, rows: map<Id, Row>, claim: seq<Occurrence>) {
    AcceptedUpTo(accepts, rows, claim, |claim|)
  }

  /** Committed ticks one after the other at a fixed time, from rows to rows'. */
  ghost predicate TickRun(accepts: Acceptance, next: Stepping, rows: map<Id, Row>, now: int,
                          claims: seq<seq<Occurrence>>, rows': map<Id, Row>)
    decreases |claims|
  {
    if |claims| == 0 then rows' == rows
    else
      && QuietClaim(rows, now, claims[0]) && Commits(accepts, rows, claims[0])
      && TickRun(accepts, next, TickRows(next, rows, claims[0]), now, claims[1..], rows')
  }

  /** Ticks that may fail: a tick that does not commit leaves every row where it was. */
  ghost predicate AttemptRun(accepts: Acceptance, next: Stepping, rows: map<Id, Row>, now: int,
                             claims: seq<seq<Occurrence>>, rows': map<Id, Row>)
    decreases |claims|
  {
    if |claims| == 0 then rows' == rows
    else
      && QuietClaim(rows, now, claims[0])
      && AttemptRun(accepts, next,
                    if Commits(accepts, rows, claims[0]) then TickRows(next, rows, claims[0]) else rows,
                    now, claims[1..], rows')
  }

  /** The occurrences a run of ticks turned into expenses. */
  function Made(claims: seq<seq<Occurrence>>): multiset<Occurrence> {
    if |claims| == 0 then multiset{} else multiset(claims[0]) + Made(claims[1..])
  }

  /** With the clock fixed, a run of committed ticks makes exactly as many expenses as the number of
      overdue occurrences it removes; so at most the initial number of ticks take anything. */
  lemma {:induction false} CatchUpCount(accepts: Acceptance, next: Stepping, rows: map<Id, Row>, now: int,
                                        claims: seq<seq<Occurrence>>, rows': map<Id, Row>)
    requires Forward(next) && CadencesOk(rows) && TickRun(accepts, next, rows, now, claims, rows')
    ensures CadencesOk(rows')
    ensures |Made(claims)| == TotalOverdue(next, rows, now) - TotalOverdue(next, rows', now)
    ensures (forall i :: 0 <= i < |claims| ==> |claims[i]| > 0) ==> |claims| <= |Made(claims)|
    decreases |claims|
  {
    if |claims| > 0 {
      var mid := TickRows(next, rows, claims[0]);
      TickLowers(next, rows, now, claims[0]);
      ClaimSize(rows, now, claims[0]);
      CadencesKept(next, rows, claims[0]);
      CatchUpCount(accepts, next, mid, now, claims[1..], rows');
      assert forall i :: 0 <= i < |claims[1..]| ==> claims[1..][i] == claims[i + 1];
    }
  }

  lemma CadencesKept(next: Stepping, rows: map<Id, Row>, claim: seq<Occurrence>)
    requires CadencesOk(rows)
    ensures CadencesOk(TickRows(next, rows, claim))
  {
  }

  /** A tick that takes nothing found nothing due, and leaves it so. */
  lemma QuietTick(next: Stepping, rows: map<Id, Row>, now: int, claim: seq<Occurrence>)
    requires QuietClaim(rows, now, claim)
    ensures claim == [] <==> DueIds(rows, now) == {}
    ensures claim == [] ==> TickRows(next, rows, claim) == rows
  {
    ClaimSize(rows, now, claim);
  }

  /** The expenses carry exactly the dates that were overdue, each one once. */
  lemma {:induction false} CatchUpDates(accepts: Acceptance, next: Stepping, rows: map<Id, Row>, now: int,
                                        claims: seq<seq<Occurrence>>, rows': map<Id, Row>, o: Occurrence)
    requires Forward(next) && CadencesOk(rows) && TickRun(accepts, next, rows, now, claims, rows')
    ensures CadencesOk(rows') && rows'.Keys == rows.Keys
    ensures Made(claims)[o] == if o.id in rows then
        One(OverdueDate(next, rows[o.id], now, o.at)) - One(OverdueDate(next, rows'[o.id], now, o.at))
      else 0
    ensures DueIds(rows', now) == {} ==>
      Made(claims)[o] == One(o.id in rows && OverdueDate(next, rows[o.id], now, o.at))
    decreases |claims|
  {
    if |claims| > 0 {
      var claim, mid := claims[0], TickRows(next, rows, claims[0]);
      CadencesKept(next, rows, claim);
      CatchUpDates(accepts, next, mid, now, claims[1..], rows', o);
      OneTickDates(next, rows, now, claim, o);
    }
    if o.id in rows' && DueIds(rows', now) == {} {
      assert o.id !in DueIds(rows', now);
    }
  }

  lemma OneTickDates(next: Stepping, rows: map<Id, Row>, now: int, claim: seq<Occurrence>, o: Occurrence)
    requires Forward(next) && CadencesOk(rows) && QuietClaim(rows, now, claim)
    ensures multiset(claim)[o] == if o.id in rows then
        One(OverdueDate(next, rows[o.id], now, o.at)) - One(OverdueDate(next, TickRows(next, rows, claim)[o.id], now, o.at))
      else 0
  {
    QuietClaimFacts(rows, now, claim);
    ClaimCount(claim, o);
    if o.id in rows && Claimed(claim, o.id) {
      var r := rows[o.id];
      var i :| 0 <= i < |claim| && claim[i].id == o.id;
      assert claim[i].at == r.nextRun;
      if OverdueDate(next, AdvanceRow(next, r), now, o.at) {
        OverdueDatesLater(next, AdvanceRow(next, r), now, o.at);
      }
      assert o in claim <==> o.at == r.nextRun;
    }
  }

  lemma {:induction false} ClaimCount(claim: seq<Occurrence>, o: Occurrence)
    requires DistinctClaim(claim)
    ensures multiset(claim)[o] == One(o in claim)
  {
    if |claim| > 0 {
      var front, last := claim[..|claim| - 1], claim[|claim| - 1];
      ClaimCount(front, o);
      assert claim == front + [last];
      if last == o {
        assert o !in front;
      }
    }
  }

  // --------------------------------------------------------------- there is always a next tick

  lemma {:induction false} LatestRow(rows: map<Id, Row>, ids: set<Id>) returns (id: Id)
    requires ids != {} && ids <= rows.Keys
    ensures id in ids && forall k :: k in ids ==> rows[k].nextRun <= rows[id].nextRun
    decreases ids
  {
    var one :| one in ids;
    id := one;
    if ids != {one} {
      assert ids - {one} != {};
      var other := LatestRow(rows, ids - {one});
      if rows[other].nextRun > rows[one].nextRun {
        id := other;
      }
    }
  }

  /** The rows in the order of their next dates. */
  ghost predicate Queued(rows: map<Id, Row>, ids: set<Id>, queue: seq<Occurrence>) {
    && DistinctClaim(queue)
    && (forall i :: 0 <= i < |queue| ==>
          queue[i].id in ids && queue[i].id in rows && queue[i].at == rows[queue[i].id].nextRun)
    && (forall i, j :: 0 <= i < j < |queue| ==> queue[i].at <= queue[j].at)
    && (forall id :: id in ids ==> Claimed(queue, id))
  }

  lemma {:induction false} QueueOf(rows: map<Id, Row>, ids: set<Id>) returns (queue: seq<Occurrence>)
    requires ids <= rows.Keys
    ensures Queued(rows, ids, queue)
    decreases ids
  {
    if ids == {} {
      queue := [];
    } else {
      var last := LatestRow(rows, ids);
      var front := QueueOf(rows, ids - {last});
      queue := front + [Occurrence(last, rows[last].nextRun)];
      forall id | id in ids ensures Claimed(queue, id) {
        if id == last {
          assert queue[|front|].id == id;
        } else {
          assert Claimed(front, id);
          var i :| 0 <= i < |front| && front[i].id == id;
          assert queue[i].id == id;
        }
      }
    }
  }

  /** The claim query always has an answer. */
  lemma ClaimExists(rows: map<Id, Row>, now: int) returns (claim: seq<Occurrence>)
    ensures QuietClaim(rows, now, claim)
  {
    var queue := QueueOf(rows, DueIds(rows, now));
    claim := if |queue| <= CLAIM_LIMIT then queue else queue[..CLAIM_LIMIT];
    forall id | id in DueIds(rows, now) && !Claimed(claim, id)
      ensures |claim| == CLAIM_LIMIT && forall i :: 0 <= i < |claim| ==> claim[i].at <= rows[id].nextRun
    {
      var j :| 0 <= j < |queue| && queue[j].id == id;
      forall m | 0 <= m < |claim| ensures queue[m].id != id {
        assert claim[m] == queue[m];
      }
    }
  }

  lemma {:induction false} OverdueNonNegative(rows: map<Id, Row>, f: Row -> int)
    requires forall r :: f(r) >= 0
    ensures SumRows(rows, f) >= 0
    decreases |rows|
  {
    if rows != map[] {
      var k :| k in rows;
      SumRowsRemove(rows, f, k);
      OverdueNonNegative(rows - {k}, f);
    }
  }

  ghost predicate DueAccepted(accepts: Acceptance, rows: map<Id, Row>, now: int) {
    forall id :: id in DueIds(rows, now) ==> accepts(rows[id].template)
  }

  /** When every due template is accepted, ticking at a fixed time comes to an end with nothing
      due, and every tick on the way commits. */
  lemma {:induction false} CatchUpEnds(accepts: Acceptance, next: Stepping, rows: map<Id, Row>, now: int)
    returns (claims: seq<seq<Occurrence>>, rows': map<Id, Row>)
    requires Forward(next) && CadencesOk(rows) && DueAccepted(accepts, rows, now)
    ensures TickRun(accepts, next, rows, now, claims, rows') && DueIds(rows', now) == {}
    decreases TotalOverdue(next, rows, now)
  {
    if DueIds(rows, now) == {} {
      claims, rows' := [], rows;
    } else {
      var claim := ClaimExists(rows, now);
      var mid := TickRows(next, rows, claim);
      TickLowers(next, rows, now, claim);
      CadencesKept(next, rows, claim);
      OverdueNonNegative(mid, OverdueOf(next, now));
      AcceptedClaim(accepts, next, rows, now, claim);
      var later;
      later, rows' := CatchUpEnds(accepts, next, mid, now);
      claims := [claim] + later;
      assert claims[1..] == later;
    }
  }

  lemma AcceptedClaim(accepts: Acceptance, next: Stepping, rows: map<Id, Row>, now: int, claim: seq<Occurrence>)
    requires Forward(next) && CadencesOk(rows) && DueAccepted(accepts, rows, now) && QuietClaim(rows, now, claim)
    ensures Commits(accepts, rows, claim) && DueAccepted(accepts, TickRows(next, rows, claim), now)
  {
    QuietClaimFacts(rows, now, claim);
    forall k: nat | k < |claim| ensures AcceptedAt(accepts, rows, claim, k) {
      assert claim[k].id in DueIds(rows, now);
    }
    forall id | id in DueIds(TickRows(next, rows, claim), now) ensures accepts(rows[id].template) {
      assert next(rows[id].nextRun, rows[id].cadence) > rows[id].nextRun;
      assert id in DueIds(rows, now);
    }
  }

  lemma RefusedNotClaimed(accepts: Acceptance, rows: map<Id, Row>, claim: seq<Occurrence>, id: Id)
    requires Commits(accepts, rows, claim) && id in rows && !accepts(rows[id].template)
    ensures !Claimed(claim, id)
  {
    forall k: nat | k < |claim| ensures claim[k].id != id {
      assert AcceptedAt(accepts, rows, claim, k);
    }
  }

  /** A due template that is not accepted stays due through every tick, failed or not. */
  lemma {:induction false} RefusedStaysDue(accepts: Acceptance, next: Stepping, rows: map<Id, Row>, now: int,
                                           claims: seq<seq<Occurrence>>, rows': map<Id, Row>, id: Id)
    requires AttemptRun(accepts, next, rows, now, claims, rows')
    requires id in DueIds(rows, now) && !accepts(rows[id].template)
    ensures id in DueIds(rows', now) && rows'[id] == rows[id]
    decreases |claims|
  {
    if |claims| > 0 {
      var claim := claims[0];
      if Commits(accepts, rows, claim) {
        RefusedNotClaimed(accepts, rows, claim, id);
      }
      RefusedStaysDue(accepts, next, if Commits(accepts, rows, claim) then TickRows(next, rows, claim) else rows,
                      now, claims[1..], rows', id);
    }
  }

  lemma {:induction false} CommittedIsAttempt(accepts: Acceptance, next: Stepping, rows: map<Id, Row>, now: int,
                                              claims: seq<seq<Occurrence>>, rows': map<Id, Row>)
    requires TickRun(accepts, next, rows, now, claims, rows')
    ensures AttemptRun(accepts, next, rows, now, claims, rows')
    decreases |claims|
  {
    if |claims| > 0 {
      CommittedIsAttempt(accepts, next, TickRows(next, rows, claims[0]), now, claims[1..], rows');
    }
  }

  /** Some ticks at a fixed time end with nothing due. */
  ghost predicate CanCatchUp(accepts: Acceptance, next: Stepping, rows: map<Id, Row>, now: int) {
    exists claims, rows' :: AttemptRun(accepts, next, rows, now, claims, rows') && DueIds(rows', now) == {}
  }

  /** Ticking catches up exactly when every due template names users that exist and otherwise
      fits into the expense tables; one that does not holds its date up for good. */
  lemma CatchUpExactly(users: set<Id>, next: Stepping, rows: map<Id, Row>, now: int)
    requires Forward(next) && CadencesOk(rows)
    ensures CanCatchUp(AcceptedBy(users), next, rows, now)
       <==> forall id :: id in DueIds(rows, now) ==> Insertable(users, rows[id].template)
  {
    var accepts := AcceptedBy(users);
    if DueAccepted(accepts, rows, now) {
      var claims, rows' := CatchUpEnds(accepts, next, rows, now);
      CommittedIsAttempt(accepts, next, rows, now, claims, rows');
    }
    if CanCatchUp(accepts, next, rows, now) {
      var claims, rows' :| AttemptRun(accepts, next, rows, now, claims, rows') && DueIds(rows', now) == {};
      forall id | id in DueIds(rows, now) ensures accepts(rows[id].template) {
        if !accepts(rows[id].template) {
          RefusedStaysDue(accepts, next, rows, now, claims, rows', id);
        }
      }
    }
    assert DueAccepted(accepts, rows, now)
      <==> forall id :: id in DueIds(rows, now) ==> Insertable(users, rows[id].template);
  }

  // ---------------------------------------------------------------------- the program text

  datatype Refusal =
    | NotAllowed
    | NoTemplate
    | UnknownCadence
    | AmountNotPositive
    | Unresolved(why: BadSplit)
    | Panic
    | UnknownUser

  /** The recurring_expenses table beside the other tables; made is history, the occurrences that
      got an expense. */
  class Scheduler {
    const db: Store.Database
    var rows: map<Id, Row>
    ghost var made: multiset<Occurrence>

    constructor (db: Store.Database)
      ensures this.db == db && rows == map[] && made == multiset{}
    {
      this.db := db;
      rows, made := map[], multiset{};
    }

    /** RecurringService.Create: a template is stored only if its cadence is known, it would
        resolve now and its payer exists, which is what the protocol's AddTemplate step asks;
        whether the users of its splits exist is not looked at. It is stored as given, in the
        group's currency if it names none, and due first at the first date. */
    method CreateTemplate(actor: Id, id: Id, t: Template, cadence: Cadence, first: int,
                          ghost s: System, ghost next: Stepping) returns (r: Result<(), Refusal>)
      requires IsInt64(t.amount) && id !in rows && s.rows == rows && s.users == db.users && Open(s, t.group)
      modifies this`rows
      ensures r == Err(NotAllowed) <==> !(t.group in db.groups && actor in db.groups[t.group].members)
      ensures r.Ok? <==> t.group in db.groups && actor in db.groups[t.group].members && !cadence.OtherCadence?
                         && t.amount > 0 && Resolves(t) && t.payer in db.users
      ensures r.Ok? ==>
        && rows.Keys == old(rows.Keys) + {id} && (forall k :: k in old(rows) ==> rows[k] == old(rows[k]))
        && rows[id].template.(currency := t.currency) == t
        && rows[id].template.currency == (if t.currency == "" then db.groups[t.group].currency else t.currency)
        && rows[id].cadence == cadence && rows[id].start == rows[id].nextRun == first && rows[id].done == 0
        && !rows[id].deleted
        && Enabled(s, AddTemplate(id, rows[id].template, cadence, first))
        && rows == Recurring.After(next, s, AddTemplate(id, rows[id].template, cadence, first)).rows
      ensures r.Err? ==> rows == old(rows)
    {
      if !db.Member(t.group, actor) {
        return Err(NotAllowed);
      }
      if cadence.OtherCadence? {
        return Err(UnknownCadence);
      }
      if t.amount <= 0 {
        return Err(AmountNotPositive);
      }
      var shares := TemplateShares(t);
      if shares.Err? {
        return Err(shares.error);
      }
      if t.payer !in db.users {
        return Err(UnknownUser);
      }
      var stored := t;
      if stored.currency == "" {
        stored := stored.(currency := db.groups[t.group].currency);
      }
      rows := rows[id := Row(stored, cadence, first, 0, first, false)];
      r := Ok(());
    }

    /** RecurringService.Delete, when nobody holds the row: any member of the group may. */
    method DeleteTemplate(actor: Id, id: Id, ghost s: System, ghost next: Stepping) returns (r: Result<(), Refusal>)
      requires s.rows == rows && !Locked(s, id)
      modifies this`rows
      ensures r == Err(NoTemplate) <==> id !in old(rows) || old(rows)[id].deleted
      ensures r.Ok? <==> id in old(rows) && !old(rows)[id].deleted && old(rows)[id].template.group in db.groups
                         && actor in db.groups[old(rows)[id].template.group].members
      ensures r.Ok? ==>
        && rows.Keys == old(rows.Keys) && (forall k :: k in rows && k != id ==> rows[k] == old(rows)[k])
        && rows[id].deleted && rows[id].(deleted := false) == old(rows)[id]
        && Enabled(s, DropTemplate(id)) && rows == Recurring.After(next, s, DropTemplate(id)).rows
      ensures r.Err? ==> rows == old(rows)
    {
      if id !in rows || rows[id].deleted {
        return Err(NoTemplate);
      }
      if !db.Member(rows[id].template.group, actor) {
        return Err(NotAllowed);
      }
      rows := rows[id := rows[id].(deleted := true)];
      r := Ok(());
    }

    /** RecurringService.Tick on the rows ClaimDue returned: each expense commits at once, the
        new dates only at the end. A template that does not resolve, or whose expense the tables
        refuse, ends the tick early: the dates stay as they were although the expenses before it
        remain. Every occurrence made stands for one expense of its template with its date. The
        cadence step is a parameter; the service passes its advanceCadence. */
    method Tick(next: Stepping, now: int, due: seq<Occurrence>, ids: seq<Id>) returns (r: Result<nat, ServiceError>)
      requires QuietClaim(rows, now, due) && FreshIds(db.View(), ids, |due|)
      requires forall id :: id in rows ==> IsInt64(rows[id].template.amount) && rows[id].template.group in db.groups
      modifies this`rows, this`made, db
      ensures r.Ok? <==> Commits(AcceptedBy(old(db.users)), old(rows), due)
      ensures r.Ok? ==>
        && r.value == |due|
        && rows == TickRows(next, old(rows), due)
        && made == old(made) + multiset(due)
        && Inserted(old(db.View()), db.View(), old(rows), due, ids, |due|)
      ensures r.Err? ==> rows == old(rows)
      ensures r.Err? ==> exists k: nat :: (
        && k < |due|
        && AcceptedUpTo(AcceptedBy(old(db.users)), rows, due, k) && !AcceptedAt(AcceptedBy(old(db.users)), rows, due, k)
        && made == old(made) + multiset(due[..k])
        && Inserted(old(db.View()), db.View(), rows, due, ids, k))
    {
      QuietClaimFacts(rows, now, due);
      var staged: map<Id, int>, created: nat, problem: Option<ServiceError>;
      staged, created, problem := CreateAll(AcceptedBy(db.users), next, rows, due, ids);
      if problem.Some? {
        return Err(problem.value);
      }
      assert due[..|due|] == due;
      StagedRows(next, rows, due, staged);
      rows := Advanced(rows, staged);
      r := Ok(created);
    }

    /** The loop over the claimed templates, and how many of them got their expense. */
    method CreateAll(ghost accepts: Acceptance, next: Stepping, table: map<Id, Row>, due: seq<Occurrence>, ids: seq<Id>)
      returns (staged: map<Id, int>, created: nat, problem: Option<ServiceError>)
      requires ClaimedFrom(table, due) && GroupsThere(db.View(), table, due) && FreshIds(db.View(), ids, |due|)
      requires accepts == AcceptedBy(db.users)
      modifies this`made, db
      ensures created <= |due| && made == old(made) + multiset(due[..created])
      ensures AcceptedUpTo(accepts, table, due, created) && Inserted(old(db.View()), db.View(), table, due, ids, created)
      ensures problem.None? ==> created == |due| && StagedUpTo(next, table, due, |due|, staged)
      ensures problem.Some? ==> created < |due| && !AcceptedAt(accepts, table, due, created)
    {
      staged, created, problem := map[], 0, None;
      assert due[..0] == [];
      while created < |due|
        invariant problem.None? && created <= |due| && made == old(made) + multiset(due[..created])
        invariant StagedUpTo(next, table, due, created, staged) && AcceptedUpTo(accepts, table, due, created)
        invariant Inserted(old(db.View()), db.View(), table, due, ids, created)
      {
        staged, problem := CreateOne(accepts, next, table, due, ids, created, staged, old(db.View()));
        if problem.Some? {
          return;
        }
        OneMoreMade(due, created);
        AcceptedNext(accepts, table, due, created);
        created := created + 1;
      }
    }

    /** One template: its expense is committed, its next date is noted. */
    method CreateOne(ghost accepts: Acceptance, next: Stepping, table: map<Id, Row>, due: seq<Occurrence>, ids: seq<Id>,
                     i: nat, staged: map<Id, int>, ghost start: State)
      returns (staged': map<Id, int>, problem: Option<ServiceError>)
      requires i < |due| && ClaimedFrom(table, due) && GroupsThere(start, table, due) && FreshIds(start, ids, |due|)
      requires accepts == AcceptedBy(start.users) && Inserted(start, db.View(), table, due, ids, i)
      requires StagedUpTo(next, table, due, i, staged)
      modifies this`made, db
      ensures problem.None? <==> AcceptedAt(accepts, table, due, i)
      ensures problem.None? ==>
        && made == old(made) + multiset{due[i]} && StagedUpTo(next, table, due, i + 1, staged')
        && Inserted(start, db.View(), table, due, ids, i + 1)
      ensures problem.Some? ==> made == old(made) && db.View() == old(db.View())
    {
      ghost var before := db.View();
      var row := table[due[i].id];
      NextInsert(start, before, table, due, ids, i);
      var answer := db.Materialize(ids[i], row.template, due[i].at);
      if answer.Err? {
        return staged, Some(answer.error);
      }
      OneMoreInserted(start, before, db.View(), table, due, ids, i);
      made := made + multiset{due[i]};
      StageNext(next, table, due, i, staged);
      staged', problem := staged[due[i].id := next(due[i].at, row.cadence)], None;
    }
  }

  /** The ids the database gives the new expenses: new ones, all different. */
  ghost predicate FreshIds(s: State, ids: seq<Id>, n: nat) {
    && |ids| == n
    && (forall i :: 0 <= i < |ids| ==> ids[i] !in s.expenses)
    && forall i, j :: 0 <= i < j < |ids| ==> ids[i] != ids[j]
  }

  /** The foreign key from a template to its group. */
  ghost predicate GroupsThere(s: State, rows: map<Id, Row>, due: seq<Occurrence>) {
    forall k :: 0 <= k < |due| && due[k].id in rows ==> rows[due[k].id].template.group in s.groups
  }

  /** The first n occurrences are in the tables, each as an expense of its template with its date
      under an id of its own, and nothing else is new. */
  ghost predicate Inserted(before: State, after: State, rows: map<Id, Row>, due: seq<Occurrence>, ids: seq<Id>, n: nat) {
    && n <= |due| && n <= |ids|
    && after.users == before.users && after.groups == before.groups && after.settlements == before.settlements
    && (forall id :: id in after.expenses <==> id in before.expenses || id in ids[..n])
    && (forall id :: id in before.expenses ==> after.expenses[id] == before.expenses[id])
    && forall k :: 0 <= k < n ==>
         && due[k].id in rows && ids[k] in after.expenses
         && ExpenseOf(after.expenses[ids[k]], rows[due[k].id].template, due[k].at)
  }

  /** The tables take the next expense exactly when its template fits. */
  lemma NextInsert(start: State, s: State, rows: map<Id, Row>, due: seq<Occurrence>, ids: seq<Id>, i: nat)
    requires i < |due| && ClaimedFrom(rows, due) && GroupsThere(start, rows, due) && FreshIds(start, ids, |due|)
    requires Inserted(start, s, rows, due, ids, i)
    ensures ids[i] !in s.expenses
    ensures Materialize(s, ids[i], rows[due[i].id].template, due[i].at).Ok?
       <==> AcceptedAt(AcceptedBy(start.users), rows, due, i)
  {
    forall k | 0 <= k < i ensures ids[..i][k] != ids[i] {
    }
  }

  lemma OneMoreInserted(start: State, s: State, s': State, rows: map<Id, Row>, due: seq<Occurrence>, ids: seq<Id>, i: nat)
    requires i < |due| && ClaimedFrom(rows, due) && FreshIds(start, ids, |due|)
    requires Inserted(start, s, rows, due, ids, i)
    requires Materialize(s, ids[i], rows[due[i].id].template, due[i].at) == Ok(s')
    ensures Inserted(start, s', rows, due, ids, i + 1)
  {
    TemplateMaterialized(s, ids[i], rows[due[i].id].template, due[i].at);
    OneFreshRow(start, s, s', rows, due, ids, i);
  }

  lemma OneFreshRow(start: State, s: State, s': State, rows: map<Id, Row>, due: seq<Occurrence>, ids: seq<Id>, i: nat)
    requires i < |due| && due[i].id in rows && i < |ids| && Inserted(start, s, rows, due, ids, i)
    requires FreshExpense(s, s', ids[i]) && ExpenseOf(s'.expenses[ids[i]], rows[due[i].id].template, due[i].at)
    ensures Inserted(start, s', rows, due, ids, i + 1)
  {
    assert ids[..i + 1] == ids[..i] + [ids[i]];
    forall k | 0 <= k < i + 1
      ensures due[k].id in rows && ids[k] in s'.expenses
              && ExpenseOf(s'.expenses[ids[k]], rows[due[k].id].template, due[k].at)
    {
      if k < i {
        assert ids[k] in s.expenses;
      }
    }
  }

  /** The claim names different rows of the table, each with its next date. */
  ghost predicate ClaimedFrom(rows: map<Id, Row>, due: seq<Occurrence>) {
    && DistinctClaim(due)
    && forall k :: 0 <= k < |due| ==>
         due[k].id in rows && due[k].at == rows[due[k].id].nextRun && IsInt64(rows[due[k].id].template.amount)
  }

  lemma OneMoreMade(due: seq<Occurrence>, i: nat)
    requires i < |due|
    ensures multiset(due[..i + 1]) == multiset(due[..i]) + multiset{due[i]}
  {
    assert due[..i + 1] == due[..i] + [due[i]];
  }

  ghost predicate StagedUpTo(next: Stepping, rows: map<Id, Row>, due: seq<Occurrence>, i: nat, staged: map<Id, int>) {
    && i <= |due|
    && staged.Keys == FirstIds(due, i)
    && forall k :: 0 <= k < i ==>
      && due[k].id in rows && due[k].id in staged
      && staged[due[k].id] == next(due[k].at, rows[due[k].id].cadence)
  }

  lemma AcceptedNext(accepts: Acceptance, rows: map<Id, Row>, due: seq<Occurrence>, i: nat)
    requires AcceptedUpTo(accepts, rows, due, i) && AcceptedAt(accepts, rows, due, i)
    ensures AcceptedUpTo(accepts, rows, due, i + 1)
  {
  }

  lemma StageNext(next: Stepping, rows: map<Id, Row>, due: seq<Occurrence>, i: nat, staged: map<Id, int>)
    requires i < |due| && due[i].id in rows && DistinctClaim(due) && StagedUpTo(next, rows, due, i, staged)
    ensures StagedUpTo(next, rows, due, i + 1, staged[due[i].id := next(due[i].at, rows[due[i].id].cadence)])
  {
    OneMoreId(due, i);
  }

  /** Resolving a template's splits; a panic ends the tick like an error. */
  method TemplateShares(t: Template) returns (r: Result<seq<Split>, Refusal>)
    requires IsInt64(t.amount)
    ensures r.Ok? <==> Resolves(t)
    ensures r.Ok? ==> r.value == Resolve64(t.mode, t.amount, t.splits).resolution.value
    ensures r.Err? ==> r.error.Unresolved? || r.error.Panic?
  {
    var shares := ResolveSplits(t.mode, t.amount, t.splits);
    match shares
    case Panicked => r := Err(Panic);
    case Returned(Err(why)) => r := Err(Unresolved(why));
    case Returned(Ok(splits)) => r := Ok(splits);
  }

  lemma StagedRows(next: Stepping, rows: map<Id, Row>, due: seq<Occurrence>, staged: map<Id, int>)
    requires StagedUpTo(next, rows, due, |due|, staged)
    requires forall k :: 0 <= k < |due| ==> due[k].id in rows && due[k].at == rows[due[k].id].nextRun
    ensures Advanced(rows, staged) == TickRows(next, rows, due)
  {
    assert FirstIds(due, |due|) == ClaimIds(due);
    forall id | id in rows ensures id in staged <==> Claimed(due, id) {
      ClaimedIds(due, id);
    }
  }
}
