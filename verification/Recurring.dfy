/** Recurring templates and the workers that turn them into expenses: a tick claims due rows in
    one transaction but commits every expense in a transaction of its own. */
module Recurring {
  import opened Core
  import opened Splits
  import opened Ledger
  import opened Calendar

  const CLAIM_LIMIT: nat := 100

  /** The date after a date, for a cadence. */
  type Stepping = (int, Cadence) -> int

  ghost predicate Forward(next: Stepping) {
    forall t, c :: ValidCadence(c) ==> next(t, c) > t
  }

  /** The n-th date of a schedule. */
  function Nth(next: Stepping, start: int, c: Cadence, n: nat): int {
    if n == 0 then start else next(Nth(next, start, c, n - 1), c)
  }

  lemma {:induction false} NthIncreases(next: Stepping, start: int, c: Cadence, i: nat, j: nat)
    requires Forward(next) && ValidCadence(c) && i < j
    ensures Nth(next, start, c, i) < Nth(next, start, c, j)
    decreases j
  {
    if i < j - 1 {
      NthIncreases(next, start, c, i, j - 1);
    }
  }

  /** The service's own step. */
  function ServiceStep(): Stepping
    requires Lawful(Go())
  {
    (t: int, c: Cadence) => Advance(Go(), t, c)
  }

  lemma ServiceStepForward()
    ensures Lawful(Go()) && Forward(ServiceStep())
  {
    GoLawful();
    forall t, c | ValidCadence(c) ensures ServiceStep()(t, c) > t {
      AdvanceForward(Go(), t, c);
    }
  }

  /** A recurring_expenses row. `start` and `done` are history: the first date, and how many
      advances have been committed. */
  datatype Row = Row(
    template: Template,
    cadence: Cadence,
    start: int,
    done: nat,
    nextRun: int,
    deleted: bool)

  datatype Occurrence = Occurrence(id: Id, at: int)

  /** A worker between ticks, or inside one: the rows it claimed, how many it has finished,
      whether the expense of the next one is already committed, and its uncommitted updates. */
  datatype Worker = Idle | Ticking(claim: seq<Occurrence>, pos: nat, created: bool, staged: map<Id, int>)

  /** Group rows are locked while a deletion of the group is under way. made and abandoned are
      history: the expenses committed, and the claims of aborted ticks. */
  datatype System = System(
    now: int,
    users: set<Id>,
    locked: set<Id>,
    gone: set<Id>,
    rows: map<Id, Row>,
    workers: map<int, Worker>,
    made: multiset<Occurrence>,
    abandoned: multiset<Occurrence>)

  const START: System := System(0, {}, {}, {}, map[], map[], multiset{}, multiset{})

  // ---------------------------------------------------------------------------------- steps

  datatype Step =
    | Pass(now: int)
    | AddUser(user: Id)
    | LockGroup(group: Id)
    | KeepGroup(group: Id)
    | RemoveGroup(group: Id)
    | AddTemplate(id: Id, template: Template, cadence: Cadence, first: int)
    | DropTemplate(id: Id)
    | Claim(worker: int, claim: seq<Occurrence>)
    | Create(worker: int)
    | Stage(worker: int)
    | Commit(worker: int)
    | Abort(worker: int)

  /** What Create asks of a template's splits. */
  predicate Resolves(t: Template) {
    var r := Resolve64(t.mode, t.amount, t.splits);
    r.Returned? && r.resolution.Ok?
  }

  predicate Busy(s: System, w: int) {
    w in s.workers && s.workers[w].Ticking?
  }

  ghost predicate Locked(s: System, id: Id) {
    exists w :: Busy(s, w) && Holds(s.workers[w], id)
  }

  predicate Holds(w: Worker, id: Id)
    requires w.Ticking?
  {
    Claimed(w.claim, id)
  }

  /** The group is there and nobody is deleting it, so that rows can refer to it. */
  predicate Open(s: System, group: Id) {
    group !in s.locked && group !in s.gone
  }

  /** A worker holds a template of the group. */
  ghost predicate GroupHeld(s: System, group: Id) {
    exists id :: id in s.rows && s.rows[id].template.group == group && Locked(s, id)
  }

  predicate DueRow(r: Row, now: int) {
    !r.deleted && r.nextRun <= now
  }

  predicate DistinctClaim(claim: seq<Occurrence>) {
    forall i, j :: 0 <= i < j < |claim| ==> claim[i].id != claim[j].id
  }

  /** ClaimDue: live due rows that nobody holds, earliest first, at most a hundred, and none
      left out while there is room or while a later one is taken; a deletion of a group may
      hold its rows. */
  ghost predicate ClaimAnswer(s: System, claim: seq<Occurrence>) {
    && |claim| <= CLAIM_LIMIT
    && DistinctClaim(claim)
    && (forall i :: 0 <= i < |claim| ==>
          && claim[i].id in s.rows
          && DueRow(s.rows[claim[i].id], s.now)
          && claim[i].at == s.rows[claim[i].id].nextRun
          && !Locked(s, claim[i].id))
    && (forall i, j :: 0 <= i < j < |claim| ==> claim[i].at <= claim[j].at)
    && (forall id :: id in s.rows && DueRow(s.rows[id], s.now) && !Locked(s, id) && !Claimed(claim, id)
                     && s.rows[id].template.group !in s.locked ==>
          |claim| == CLAIM_LIMIT && forall i :: 0 <= i < |claim| ==> claim[i].at <= s.rows[id].nextRun)
  }

  predicate Claimed(claim: seq<Occurrence>, id: Id) {
    exists i :: 0 <= i < |claim| && claim[i].id == id
  }

  ghost predicate Enabled(s: System, st: Step) {
    match st
    case Pass(now) => now >= s.now
    case AddUser(user) => true
    case LockGroup(group) => Open(s, group)
    case KeepGroup(group) => group in s.locked
    case RemoveGroup(group) => group in s.locked && !GroupHeld(s, group)
    case AddTemplate(id, t, c, first) =>
      && id !in s.rows && ValidCadence(c) && t.amount > 0 && Resolves(t)
      && t.payer in s.users && Open(s, t.group)
    case DropTemplate(id) => id in s.rows && !s.rows[id].deleted && !Locked(s, id)
    case Claim(w, claim) => !Busy(s, w) && ClaimAnswer(s, claim)
    case Create(w) =>
      && Busy(s, w) && s.workers[w].pos < |s.workers[w].claim| && !s.workers[w].created
      && s.workers[w].claim[s.workers[w].pos].id in s.rows
      && Insertable(s.users, s.rows[s.workers[w].claim[s.workers[w].pos].id].template)
      && Open(s, s.rows[s.workers[w].claim[s.workers[w].pos].id].template.group)
    case Stage(w) =>
      && Busy(s, w) && s.workers[w].pos < |s.workers[w].claim| && s.workers[w].created
      && s.workers[w].claim[s.workers[w].pos].id in s.rows
    case Commit(w) => Busy(s, w) && s.workers[w].pos == |s.workers[w].claim|
    case Abort(w) => Busy(s, w)
  }

  /** UPDATE ... SET next_run_at: the staged rows, one committed advance further. */
  function Advanced(rows: map<Id, Row>, staged: map<Id, int>): map<Id, Row> {
    map id | id in rows ::
      if id in staged then rows[id].(nextRun := staged[id], done := rows[id].done + 1) else rows[id]
  }

  /** The deletion takes the group's templates with it. */
  function WithoutGroup(rows: map<Id, Row>, group: Id): map<Id, Row> {
    map id | id in rows :: if rows[id].template.group == group then rows[id].(deleted := true) else rows[id]
  }

  ghost function After(next: Stepping, s: System, st: Step): System
    requires Enabled(s, st)
  {
    match st
    case Pass(now) => s.(now := now)
    case AddUser(user) => s.(users := s.users + {user})
    case LockGroup(group) => s.(locked := s.locked + {group})
    case KeepGroup(group) => s.(locked := s.locked - {group})
    case RemoveGroup(group) =>
      s.(locked := s.locked - {group}, gone := s.gone + {group}, rows := WithoutGroup(s.rows, group))
    case AddTemplate(id, t, c, first) => s.(rows := s.rows[id := Row(t, c, first, 0, first, false)])
    case DropTemplate(id) => s.(rows := s.rows[id := s.rows[id].(deleted := true)])
    case Claim(w, claim) => s.(workers := s.workers[w := Ticking(claim, 0, false, map[])])
    case Create(w) =>
      var k := s.workers[w];
      s.(workers := s.workers[w := k.(created := true)], made := s.made + multiset{k.claim[k.pos]})
    case Stage(w) =>
      var k := s.workers[w];
      var o := k.claim[k.pos];
      s.(workers := s.workers[w := k.(pos := k.pos + 1, created := false,
                                     staged := k.staged[o.id := next(o.at, s.rows[o.id].cadence)])])
    case Commit(w) => s.(workers := s.workers[w := Idle], rows := Advanced(s.rows, s.workers[w].staged))
    case Abort(w) =>
      s.(workers := s.workers[w := Idle], abandoned := s.abandoned + multiset(s.workers[w].claim))
  }

  /** The states a schedule of steps goes through, each step enabled where it happens. */
  ghost predicate Trace(next: Stepping, steps: seq<Step>, states: seq<System>) {
    && |states| == |steps| + 1
    && states[0] == START
    && forall i :: 0 <= i < |steps| ==> Enabled(states[i], steps[i]) && states[i + 1] == After(next, states[i], steps[i])
  }

  // ------------------------------------------------------------------------------ invariants

  /** How many of the claimed rows have their expense committed. */
  function Progress(w: Worker): nat
    requires w.Ticking?
  {
    w.pos + if w.created then 1 else 0
  }

  ghost predicate RowOk(next: Stepping, r: Row) {
    && ValidCadence(r.cadence)
    && Resolves(r.template)
    && r.nextRun == Nth(next, r.start, r.cadence, r.done)
  }

  ghost predicate WorkerOk(next: Stepping, rows: map<Id, Row>, w: Worker) {
    w.Ticking? ==>
      && DistinctClaim(w.claim)
      && Progress(w) <= |w.claim|
      && (forall i :: 0 <= i < |w.claim| ==>
            w.claim[i].id in rows && !rows[w.claim[i].id].deleted && w.claim[i].at == rows[w.claim[i].id].nextRun)
      && w.staged.Keys == FirstIds(w.claim, w.pos)
      && (forall i :: 0 <= i < w.pos ==>
            w.claim[i].id in w.staged && w.staged[w.claim[i].id] == next(w.claim[i].at, rows[w.claim[i].id].cadence))
  }

  ghost function FirstIds(claim: seq<Occurrence>, n: nat): set<Id> {
    set i | 0 <= i < |claim| && i < n :: claim[i].id
  }

  /** No row is held by two workers. */
  ghost predicate Exclusive(s: System) {
    forall v, w, i, j ::
      Busy(s, v) && Busy(s, w) && v != w && 0 <= i < |s.workers[v].claim| && 0 <= j < |s.workers[w].claim| ==>
        s.workers[v].claim[i].id != s.workers[w].claim[j].id
  }

  /** The expense is committed but the advance is not. */
  ghost predicate InFlight(s: System, o: Occurrence) {
    exists w, i :: Busy(s, w) && 0 <= i < |s.workers[w].claim| && i < Progress(s.workers[w]) && s.workers[w].claim[i] == o
  }

  ghost predicate Past(s: System, o: Occurrence) {
    o.id in s.rows && o.at < s.rows[o.id].nextRun
  }

  function One(b: bool): int {
    if b then 1 else 0
  }

  ghost predicate Scheduled(next: Stepping, s: System, o: Occurrence) {
    o.id in s.rows && exists k: nat :: k <= s.rows[o.id].done && OnSchedule(next, s.rows[o.id], k, o.at)
  }

  ghost predicate OnSchedule(next: Stepping, r: Row, k: nat, at: int) {
    at == Nth(next, r.start, r.cadence, k)
  }

  /** How often an occurrence was made. */
  ghost predicate CountOk(next: Stepping, s: System, o: Occurrence) {
    && s.made[o] <= s.abandoned[o] + One(Past(s, o)) + One(InFlight(s, o))
    && (InFlight(s, o) ==> s.made[o] >= 1)
    && (Past(s, o) && Scheduled(next, s, o) ==> s.made[o] >= 1)
    && (s.made[o] >= 1 ==> Scheduled(next, s, o))
  }

  ghost predicate RowsOk(next: Stepping, s: System) {
    forall id :: id in s.rows ==> RowOk(next, s.rows[id])
  }

  ghost predicate WorkersOk(next: Stepping, s: System) {
    (forall w :: w in s.workers ==> WorkerOk(next, s.rows, s.workers[w])) && Exclusive(s)
  }

  ghost predicate CountsOk(next: Stepping, s: System) {
    forall o :: CountOk(next, s, o)
  }

  ghost predicate SystemOk(next: Stepping, s: System) {
    RowsOk(next, s) && WorkersOk(next, s) && CountsOk(next, s)
  }

  /** A row in flight is at its own next date, so it is not past. */
  lemma InFlightIsNext(next: Stepping, s: System, o: Occurrence)
    requires WorkersOk(next, s) && InFlight(s, o)
    ensures o.id in s.rows && o.at == s.rows[o.id].nextRun && !Past(s, o)
  {
    var w, i :| Busy(s, w) && 0 <= i < |s.workers[w].claim| && i < Progress(s.workers[w]) && s.workers[w].claim[i] == o;
    assert WorkerOk(next, s.rows, s.workers[w]);
  }

  lemma AddTemplateCount(next: Stepping, s: System, st: Step, o: Occurrence)
    requires SystemOk(next, s) && st.AddTemplate? && Enabled(s, st)
    ensures CountOk(next, After(next, s, st), o)
  {
    var s' := After(next, s, st);
    assert CountOk(next, s, o);
    assert InFlight(s', o) <==> InFlight(s, o);
    if o.id == st.id {
      if InFlight(s, o) {
        InFlightIsNext(next, s, o);
      }
    } else {
      ScheduleKept(next, s, s', o);
    }
  }

  lemma AddTemplateOk(next: Stepping, s: System, st: Step)
    requires SystemOk(next, s) && st.AddTemplate? && Enabled(s, st)
    ensures SystemOk(next, After(next, s, st))
  {
    var s' := After(next, s, st);
    forall w | w in s'.workers ensures WorkerOk(next, s'.rows, s'.workers[w]) {
      assert WorkerOk(next, s.rows, s.workers[w]);
      WorkerKept(next, s.rows, s'.rows, s.workers[w]);
    }
    forall o ensures CountOk(next, s', o) {
      AddTemplateCount(next, s, st, o);
    }
  }

  lemma HeldIsLocked(s: System, w: int, i: nat)
    requires Busy(s, w) && i < |s.workers[w].claim|
    ensures Locked(s, s.workers[w].claim[i].id)
  {
    assert Holds(s.workers[w], s.workers[w].claim[i].id);
  }

  lemma DropTemplateOk(next: Stepping, s: System, st: Step)
    requires SystemOk(next, s) && st.DropTemplate? && Enabled(s, st)
    ensures SystemOk(next, After(next, s, st))
  {
    var s' := After(next, s, st);
    forall w | w in s'.workers ensures WorkerOk(next, s'.rows, s'.workers[w]) {
      assert WorkerOk(next, s.rows, s.workers[w]);
      if s.workers[w].Ticking? {
        assert Busy(s, w);
        forall i | 0 <= i < |s.workers[w].claim| ensures s.workers[w].claim[i].id != st.id {
          HeldIsLocked(s, w, i);
        }
      }
    }
    forall o ensures CountOk(next, s', o) {
      assert CountOk(next, s, o);
      assert InFlight(s', o) <==> InFlight(s, o);
      ScheduleKept(next, s, s', o);
    }
  }

  lemma RemoveGroupOk(next: Stepping, s: System, group: Id)
    requires SystemOk(next, s) && Enabled(s, RemoveGroup(group))
    ensures SystemOk(next, After(next, s, RemoveGroup(group)))
  {
    var s' := After(next, s, RemoveGroup(group));
    forall id | id in s'.rows ensures RowOk(next, s'.rows[id]) {
      assert RowOk(next, s.rows[id]);
    }
    forall w | w in s'.workers ensures WorkerOk(next, s'.rows, s'.workers[w]) {
      assert WorkerOk(next, s.rows, s.workers[w]);
      forall i | s.workers[w].Ticking? && 0 <= i < |s.workers[w].claim|
        ensures s'.rows[s.workers[w].claim[i].id] == s.rows[s.workers[w].claim[i].id]
      {
        assert Busy(s, w);
        HeldIsLocked(s, w, i);
      }
      WorkerKept(next, s.rows, s'.rows, s.workers[w]);
    }
    forall o ensures CountOk(next, s', o) {
      assert CountOk(next, s, o);
      assert InFlight(s', o) <==> InFlight(s, o);
      ScheduleKept(next, s, s', o);
    }
  }

  lemma ScheduleKept(next: Stepping, s: System, s': System, o: Occurrence)
    requires o.id in s.rows ==> o.id in s'.rows
    requires o.id in s.rows ==>
      && s'.rows[o.id].start == s.rows[o.id].start && s'.rows[o.id].cadence == s.rows[o.id].cadence
      && s'.rows[o.id].done >= s.rows[o.id].done
    ensures Scheduled(next, s, o) ==> Scheduled(next, s', o)
    ensures o.id in s.rows && s'.rows[o.id].done == s.rows[o.id].done ==>
      (Scheduled(next, s', o) ==> Scheduled(next, s, o))
  {
    if Scheduled(next, s, o) {
      var k: nat :| k <= s.rows[o.id].done && OnSchedule(next, s.rows[o.id], k, o.at);
      assert OnSchedule(next, s'.rows[o.id], k, o.at);
    }
    if o.id in s.rows && s'.rows[o.id].done == s.rows[o.id].done && Scheduled(next, s', o) {
      var k: nat :| k <= s'.rows[o.id].done && OnSchedule(next, s'.rows[o.id], k, o.at);
      assert OnSchedule(next, s.rows[o.id], k, o.at);
    }
  }

  lemma ClaimOk(next: Stepping, s: System, st: Step)
    requires SystemOk(next, s) && st.Claim? && Enabled(s, st)
    ensures SystemOk(next, After(next, s, st))
  {
    var s', w0 := After(next, s, st), st.worker;
    forall w | w in s'.workers ensures WorkerOk(next, s'.rows, s'.workers[w]) {
      if w != w0 {
        assert WorkerOk(next, s.rows, s.workers[w]);
      }
    }
    forall v, i, j | Busy(s, v) && v != w0 && 0 <= i < |s.workers[v].claim| && 0 <= j < |st.claim|
      ensures s.workers[v].claim[i].id != st.claim[j].id
    {
      HeldIsLocked(s, v, i);
    }
    forall o ensures CountOk(next, s', o) {
      assert CountOk(next, s, o);
      FlightsOfOthers(s, s', w0, o);
    }
  }

  /** A worker with nothing in flight before and after does not matter to what is in flight. */
  lemma FlightsOfOthers(s: System, s': System, w0: int, o: Occurrence)
    requires forall w :: w != w0 ==> (w in s'.workers <==> w in s.workers) && (w in s.workers ==> s'.workers[w] == s.workers[w])
    requires Busy(s, w0) ==> Progress(s.workers[w0]) == 0
    requires Busy(s', w0) ==> Progress(s'.workers[w0]) == 0
    ensures InFlight(s', o) <==> InFlight(s, o)
  {
    if InFlight(s, o) {
      var w, i :| Busy(s, w) && 0 <= i < |s.workers[w].claim| && i < Progress(s.workers[w]) && s.workers[w].claim[i] == o;
      assert Busy(s', w) && s'.workers[w].claim[i] == o;
    }
    if InFlight(s', o) {
      var w, i :| Busy(s', w) && 0 <= i < |s'.workers[w].claim| && i < Progress(s'.workers[w]) && s'.workers[w].claim[i] == o;
      assert Busy(s, w) && s.workers[w].claim[i] == o;
    }
  }

  /** What worker w has in flight. */
  ghost predicate FlightOf(s: System, w: int, o: Occurrence) {
    Busy(s, w) && exists i :: 0 <= i < |s.workers[w].claim| && i < Progress(s.workers[w]) && s.workers[w].claim[i] == o
  }

  /** In flight means in flight with somebody, and claims do not overlap. */
  lemma FlightByWorker(next: Stepping, s: System, s': System, w0: int, o: Occurrence)
    requires WorkersOk(next, s)
    requires forall w :: w != w0 ==> (w in s'.workers <==> w in s.workers) && (w in s.workers ==> s'.workers[w] == s.workers[w])
    ensures FlightOf(s, w0, o) ==> InFlight(s, o)
    ensures FlightOf(s', w0, o) ==> InFlight(s', o)
    ensures !FlightOf(s, w0, o) && !FlightOf(s', w0, o) ==> (InFlight(s', o) <==> InFlight(s, o))
    ensures Busy(s, w0) && o in s.workers[w0].claim && InFlight(s, o) ==> FlightOf(s, w0, o)
    ensures Busy(s, w0) && o in s.workers[w0].claim && InFlight(s', o) ==> FlightOf(s', w0, o)
  {
    if InFlight(s, o) {
      var w, i :| Busy(s, w) && 0 <= i < |s.workers[w].claim| && i < Progress(s.workers[w]) && s.workers[w].claim[i] == o;
      assert w != w0 ==> Busy(s', w) && s'.workers[w].claim[i] == o;
    }
    if InFlight(s', o) {
      var w, i :| Busy(s', w) && 0 <= i < |s'.workers[w].claim| && i < Progress(s'.workers[w]) && s'.workers[w].claim[i] == o;
      assert w != w0 ==> Busy(s, w) && s.workers[w].claim[i] == o;
    }
  }

  /** Only worker w0 changed, and what it became is in order and claims no more than before. */
  lemma OneWorkerChanged(next: Stepping, s: System, s': System, w0: int)
    requires WorkersOk(next, s) && Busy(s, w0) && s'.rows == s.rows
    requires w0 in s'.workers && s'.workers == s.workers[w0 := s'.workers[w0]]
    requires WorkerOk(next, s'.rows, s'.workers[w0])
    requires Busy(s', w0) ==> s'.workers[w0].claim == s.workers[w0].claim
    ensures WorkersOk(next, s')
  {
    forall w | w in s'.workers ensures WorkerOk(next, s'.rows, s'.workers[w]) {
      assert w != w0 ==> WorkerOk(next, s.rows, s.workers[w]);
    }
  }

  lemma CreateCount(next: Stepping, s: System, st: Step, o: Occurrence)
    requires SystemOk(next, s) && st.Create? && Enabled(s, st)
    ensures CountOk(next, After(next, s, st), o)
  {
    var k := s.workers[st.worker];
    assert WorkerOk(next, s.rows, k) && CountOk(next, s, o);
    ScheduleKept(next, s, After(next, s, st), o);
    if o == k.claim[k.pos] {
      CreateCountMade(next, s, st, o);
    } else {
      CreateCountOther(next, s, st, o);
    }
  }

  lemma CreateCountMade(next: Stepping, s: System, st: Step, o: Occurrence)
    requires SystemOk(next, s) && st.Create? && Enabled(s, st) && CountOk(next, s, o)
    requires o == s.workers[st.worker].claim[s.workers[st.worker].pos]
    ensures CountOk(next, After(next, s, st), o)
  {
    var s', w0 := After(next, s, st), st.worker;
    assert WorkerOk(next, s.rows, s.workers[w0]);
    FlightByWorker(next, s, s', w0, o);
    ScheduleKept(next, s, s', o);
    CreatedFlight(next, s, s', w0);
    OneMade(next, s, s', o);
  }

  lemma CreateCountOther(next: Stepping, s: System, st: Step, o: Occurrence)
    requires SystemOk(next, s) && st.Create? && Enabled(s, st) && CountOk(next, s, o)
    requires o != s.workers[st.worker].claim[s.workers[st.worker].pos]
    ensures CountOk(next, After(next, s, st), o)
  {
    var s', w0 := After(next, s, st), st.worker;
    assert WorkerOk(next, s.rows, s.workers[w0]);
    OtherFlights(next, s, s', w0, o);
    CountCarries(next, s, s', o);
  }

  /** Marking the next one as created puts nothing else in flight. */
  lemma OtherFlights(next: Stepping, s: System, s': System, w0: int, o: Occurrence)
    requires WorkersOk(next, s) && Busy(s, w0) && s.workers[w0].pos < |s.workers[w0].claim|
    requires s'.workers == s.workers[w0 := s.workers[w0].(created := true)]
    requires o != s.workers[w0].claim[s.workers[w0].pos]
    ensures InFlight(s', o) <==> InFlight(s, o)
  {
    FlightByWorker(next, s, s', w0, o);
    SameFlights(s, s', w0, o);
  }

  lemma CountCarries(next: Stepping, s: System, s': System, o: Occurrence)
    requires CountOk(next, s, o) && s'.rows == s.rows && (InFlight(s', o) <==> InFlight(s, o))
    requires s'.made[o] == s.made[o] && s'.abandoned[o] == s.abandoned[o]
    ensures CountOk(next, s', o)
  {
    ScheduleKept(next, s, s', o);
  }

  lemma OneMade(next: Stepping, s: System, s': System, o: Occurrence)
    requires CountOk(next, s, o) && !InFlight(s, o) && InFlight(s', o) && !Past(s, o) && Scheduled(next, s', o)
    requires s'.rows == s.rows && s'.made == s.made + multiset{o} && s'.abandoned == s.abandoned
    ensures CountOk(next, s', o)
  {
  }

  /** The occurrence just created was not in flight, is now, and is on the row's schedule. */
  lemma CreatedFlight(next: Stepping, s: System, s': System, w0: int)
    requires Busy(s, w0) && Busy(s', w0) && WorkerOk(next, s.rows, s.workers[w0]) && RowsOk(next, s)
    requires var k := s.workers[w0]; k.pos < |k.claim| && !k.created && s'.workers[w0] == k.(created := true)
    ensures var k := s.workers[w0]; var o := k.claim[k.pos];
      && !FlightOf(s, w0, o) && FlightOf(s', w0, o) && Scheduled(next, s, o) && !Past(s, o)
  {
    var k := s.workers[w0];
    var o := k.claim[k.pos];
    assert s'.workers[w0].claim[k.pos] == o;
    assert RowOk(next, s.rows[o.id]);
    assert OnSchedule(next, s.rows[o.id], s.rows[o.id].done, o.at);
  }

  lemma SameFlights(s: System, s': System, w0: int, o: Occurrence)
    requires Busy(s, w0) && Busy(s', w0) && s'.workers[w0].claim == s.workers[w0].claim
    requires var k, k' := s.workers[w0], s'.workers[w0];
      forall i :: 0 <= i < |k.claim| && k.claim[i] == o ==> (i < Progress(k) <==> i < Progress(k'))
    ensures FlightOf(s', w0, o) <==> FlightOf(s, w0, o)
  {
  }

  lemma CreateOk(next: Stepping, s: System, st: Step)
    requires SystemOk(next, s) && st.Create? && Enabled(s, st)
    ensures SystemOk(next, After(next, s, st))
  {
    assert WorkerOk(next, s.rows, s.workers[st.worker]);
    OneWorkerChanged(next, s, After(next, s, st), st.worker);
    forall o ensures CountOk(next, After(next, s, st), o) {
      CreateCount(next, s, st, o);
    }
  }

  lemma StageWorker(next: Stepping, s: System, st: Step)
    requires SystemOk(next, s) && st.Stage? && Enabled(s, st)
    ensures WorkerOk(next, s.rows, After(next, s, st).workers[st.worker])
  {
    var k, k' := s.workers[st.worker], After(next, s, st).workers[st.worker];
    assert WorkerOk(next, s.rows, k);
    OneMoreId(k.claim, k.pos);
  }

  lemma OneMoreId(claim: seq<Occurrence>, n: nat)
    requires n < |claim|
    ensures FirstIds(claim, n + 1) == FirstIds(claim, n) + {claim[n].id}
  {
  }

  lemma StageCount(next: Stepping, s: System, st: Step, o: Occurrence)
    requires SystemOk(next, s) && st.Stage? && Enabled(s, st)
    ensures CountOk(next, After(next, s, st), o)
  {
    var s' := After(next, s, st);
    assert CountOk(next, s, o);
    FlightByWorker(next, s, s', st.worker, o);
    ScheduleKept(next, s, s', o);
    SameFlights(s, s', st.worker, o);
  }

  lemma StageOk(next: Stepping, s: System, st: Step)
    requires SystemOk(next, s) && st.Stage? && Enabled(s, st)
    ensures SystemOk(next, After(next, s, st))
  {
    StageWorker(next, s, st);
    OneWorkerChanged(next, s, After(next, s, st), st.worker);
    forall o ensures CountOk(next, After(next, s, st), o) {
      StageCount(next, s, st, o);
    }
  }

  lemma AbortCount(next: Stepping, s: System, st: Step, o: Occurrence)
    requires SystemOk(next, s) && st.Abort? && Enabled(s, st)
    ensures CountOk(next, After(next, s, st), o)
  {
    var s', k := After(next, s, st), s.workers[st.worker];
    assert CountOk(next, s, o);
    FlightByWorker(next, s, s', st.worker, o);
    ScheduleKept(next, s, s', o);
    assert o in multiset(k.claim) <==> o in k.claim;
  }

  lemma AbortOk(next: Stepping, s: System, st: Step)
    requires SystemOk(next, s) && st.Abort? && Enabled(s, st)
    ensures SystemOk(next, After(next, s, st))
  {
    OneWorkerChanged(next, s, After(next, s, st), st.worker);
    forall o ensures CountOk(next, After(next, s, st), o) {
      AbortCount(next, s, st, o);
    }
  }

  lemma StagedIsClaimed(next: Stepping, rows: map<Id, Row>, k: Worker, id: Id)
    requires k.Ticking? && WorkerOk(next, rows, k) && k.pos == |k.claim|
    ensures id in k.staged <==> Claimed(k.claim, id)
    ensures id in k.staged ==> id in rows && k.staged[id] == next(rows[id].nextRun, rows[id].cadence)
  {
  }

  /** What a commit does to a row its worker holds, and to one it does not. */
  lemma CommitRow(next: Stepping, s: System, st: Step, id: Id)
    requires SystemOk(next, s) && st.Commit? && Enabled(s, st) && id in s.rows
    ensures var r, r', k := s.rows[id], After(next, s, st).rows[id], s.workers[st.worker];
      && r' == (if Claimed(k.claim, id)
                then r.(nextRun := next(r.nextRun, r.cadence), done := r.done + 1) else r)
      && RowOk(next, r')
  {
    var k := s.workers[st.worker];
    assert WorkerOk(next, s.rows, k);
    assert RowOk(next, s.rows[id]);
    StagedIsClaimed(next, s.rows, k, id);
    assert After(next, s, st).rows == Advanced(s.rows, k.staged);
  }

  lemma WorkerKept(next: Stepping, rows: map<Id, Row>, rows': map<Id, Row>, w: Worker)
    requires WorkerOk(next, rows, w)
    requires w.Ticking? ==> forall i :: 0 <= i < |w.claim| ==> w.claim[i].id in rows' && rows'[w.claim[i].id] == rows[w.claim[i].id]
    ensures WorkerOk(next, rows', w)
  {
  }

  /** What another worker holds, a commit leaves alone. */
  lemma CommitKeepsHeld(next: Stepping, s: System, st: Step, v: int, i: nat)
    requires SystemOk(next, s) && st.Commit? && Enabled(s, st)
    requires v != st.worker && Busy(s, v) && i < |s.workers[v].claim|
    ensures var id := s.workers[v].claim[i].id;
      id in s.rows && id in After(next, s, st).rows && After(next, s, st).rows[id] == s.rows[id]
  {
    var id := s.workers[v].claim[i].id;
    assert WorkerOk(next, s.rows, s.workers[v]);
    assert !Claimed(s.workers[st.worker].claim, id);
    CommitRow(next, s, st, id);
  }

  lemma CommitWorkersOk(next: Stepping, s: System, st: Step)
    requires SystemOk(next, s) && st.Commit? && Enabled(s, st)
    ensures WorkersOk(next, After(next, s, st))
  {
    var s' := After(next, s, st);
    forall v | v in s'.workers ensures WorkerOk(next, s'.rows, s'.workers[v]) {
      if v != st.worker && Busy(s, v) {
        forall i | 0 <= i < |s.workers[v].claim|
          ensures s.workers[v].claim[i].id in s'.rows
          ensures s.workers[v].claim[i].id in s.rows && s'.rows[s.workers[v].claim[i].id] == s.rows[s.workers[v].claim[i].id]
        {
          CommitKeepsHeld(next, s, st, v, i);
        }
        WorkerKept(next, s.rows, s'.rows, s.workers[v]);
      }
    }
    assert forall v :: Busy(s', v) ==> Busy(s, v) && s'.workers[v] == s.workers[v];
  }

  lemma CommitCount(next: Stepping, s: System, st: Step, o: Occurrence)
    requires Forward(next) && SystemOk(next, s) && st.Commit? && Enabled(s, st)
    ensures CountOk(next, After(next, s, st), o)
  {
    var s', w0 := After(next, s, st), st.worker;
    var k := s.workers[w0];
    assert CountOk(next, s, o) && WorkerOk(next, s.rows, k);
    FlightByWorker(next, s, s', w0, o);
    if o.id in s.rows {
      CommitRow(next, s, st, o.id);
      ScheduleKept(next, s, s', o);
      if Claimed(k.claim, o.id) {
        CommittedCount(next, s, s', w0, o);
      } else {
        assert o !in k.claim;
      }
    } else if InFlight(s, o) {
      InFlightIsNext(next, s, o);
    }
  }

  lemma CommittedCount(next: Stepping, s: System, s': System, w0: int, o: Occurrence)
    requires Forward(next) && SystemOk(next, s) && Busy(s, w0) && o.id in s.rows && o.id in s'.rows
    requires Claimed(s.workers[w0].claim, o.id) && s.workers[w0].pos == |s.workers[w0].claim|
    requires s'.made == s.made && s'.abandoned == s.abandoned && !FlightOf(s', w0, o)
    requires s'.rows[o.id] == s.rows[o.id].(nextRun := next(s.rows[o.id].nextRun, s.rows[o.id].cadence), done := s.rows[o.id].done + 1)
    requires InFlight(s', o) ==> InFlight(s, o)
    requires o in s.workers[w0].claim && InFlight(s', o) ==> FlightOf(s', w0, o)
    requires Scheduled(next, s, o) ==> Scheduled(next, s', o)
    requires FlightOf(s, w0, o) ==> InFlight(s, o)
    ensures CountOk(next, s', o)
  {
    var k, r := s.workers[w0], s.rows[o.id];
    assert WorkerOk(next, s.rows, k);
    assert RowOk(next, r);
    assert CountOk(next, s, o);
    var i :| 0 <= i < |k.claim| && k.claim[i].id == o.id;
    assert k.claim[i] == Occurrence(o.id, r.nextRun);
    if InFlight(s, o) {
      InFlightIsNext(next, s, o);
    }
    if o.at == r.nextRun {
      assert k.claim[i] == o && FlightOf(s, w0, o);
    } else if Past(s', o) && Scheduled(next, s', o) {
      EarlierDate(next, r, s'.rows[o.id], o.at);
      assert Past(s, o) && Scheduled(next, s, o);
    }
  }

  /** A date of the schedule before the new next date is the old next date or before it. */
  lemma EarlierDate(next: Stepping, r: Row, r': Row, at: int)
    requires Forward(next) && RowOk(next, r) && r' == r.(nextRun := next(r.nextRun, r.cadence), done := r.done + 1)
    requires at < r'.nextRun && at != r.nextRun
    requires exists k: nat :: k <= r'.done && OnSchedule(next, r', k, at)
    ensures at < r.nextRun && exists k: nat :: k <= r.done && OnSchedule(next, r, k, at)
  {
    var n: nat :| n <= r'.done && OnSchedule(next, r', n, at);
    assert r'.nextRun == Nth(next, r.start, r.cadence, r'.done);
    assert n < r.done;
    NthIncreases(next, r.start, r.cadence, n, r.done);
    assert OnSchedule(next, r, n, at);
  }

  lemma CommitOk(next: Stepping, s: System, st: Step)
    requires Forward(next) && SystemOk(next, s) && st.Commit? && Enabled(s, st)
    ensures SystemOk(next, After(next, s, st))
  {
    var s' := After(next, s, st);
    forall id | id in s'.rows ensures RowOk(next, s'.rows[id]) {
      CommitRow(next, s, st, id);
    }
    CommitWorkersOk(next, s, st);
    forall o ensures CountOk(next, s', o) {
      CommitCount(next, s, st, o);
    }
  }

  lemma PassOk(next: Stepping, s: System, s': System)
    requires SystemOk(next, s) && s' == s.(now := s'.now, users := s'.users, locked := s'.locked)
    ensures SystemOk(next, s')
  {
    forall w | w in s'.workers ensures WorkerOk(next, s'.rows, s'.workers[w]) {
      assert WorkerOk(next, s.rows, s.workers[w]);
    }
    forall o ensures CountOk(next, s', o) {
      assert CountOk(next, s, o);
      assert InFlight(s', o) <==> InFlight(s, o);
      ScheduleKept(next, s, s', o);
    }
  }

  /** Whatever happens next, in whatever order workers take turns, the system stays in order. */
  lemma StepKeepsOk(next: Stepping, s: System, st: Step)
    requires Forward(next) && SystemOk(next, s) && Enabled(s, st)
    ensures SystemOk(next, After(next, s, st))
  {
    match st
    case Pass(now) => PassOk(next, s, After(next, s, st));
    case AddUser(user) => PassOk(next, s, After(next, s, st));
    case LockGroup(group) => PassOk(next, s, After(next, s, st));
    case KeepGroup(group) => PassOk(next, s, After(next, s, st));
    case RemoveGroup(group) => RemoveGroupOk(next, s, group);
    case AddTemplate(_, _, _, _) => AddTemplateOk(next, s, st);
    case DropTemplate(_) => DropTemplateOk(next, s, st);
    case Claim(_, _) => ClaimOk(next, s, st);
    case Create(_) => CreateOk(next, s, st);
    case Stage(_) => StageOk(next, s, st);
    case Commit(_) => CommitOk(next, s, st);
    case Abort(_) => AbortOk(next, s, st);
  }

  lemma {:induction false} TraceKeepsOk(next: Stepping, steps: seq<Step>, states: seq<System>, i: nat)
    requires Forward(next) && Trace(next, steps, states) && i < |states|
    ensures SystemOk(next, states[i])
  {
    if i > 0 {
      TraceKeepsOk(next, steps, states, i - 1);
      StepKeepsOk(next, states[i - 1], steps[i - 1]);
    }
  }

  // --------------------------------------------------------------------------- consequences

  /** Crash safety: over every schedule of workers, commits and aborts, each date of a template
      before its committed next date has an expense, and at most one more than the number of
      aborted ticks that had claimed it; exactly one if there was none. */
  lemma CrashSafety(next: Stepping, steps: seq<Step>, states: seq<System>, i: nat, id: Id, k: nat)
    requires Forward(next) && Trace(next, steps, states) && i < |states| && id in states[i].rows
    requires var r := states[i].rows[id]; Nth(next, r.start, r.cadence, k) < r.nextRun
    ensures var s, o := states[i], Occurrence(id, Nth(next, states[i].rows[id].start, states[i].rows[id].cadence, k));
      && 1 <= s.made[o] <= 1 + s.abandoned[o]
      && (s.abandoned[o] == 0 ==> s.made[o] == 1)
  {
    TraceKeepsOk(next, steps, states, i);
    var s, r := states[i], states[i].rows[id];
    var o := Occurrence(id, Nth(next, r.start, r.cadence, k));
    assert RowOk(next, r) && CountOk(next, s, o);
    if k >= r.done {
      if k > r.done {
        NthIncreases(next, r.start, r.cadence, r.done, k);
      }
      assert false;
    }
    assert OnSchedule(next, r, k, o.at);
    if InFlight(s, o) {
      InFlightIsNext(next, s, o);
    }
  }

  /** Nothing else is ever made: an expense's date is a date of its template's schedule, no
      later than the committed next date. */
  lemma OnlyScheduledDates(next: Stepping, steps: seq<Step>, states: seq<System>, i: nat, o: Occurrence)
    requires Forward(next) && Trace(next, steps, states) && i < |states|
    requires states[i].made[o] >= 1
    ensures Scheduled(next, states[i], o)
    ensures o.at <= states[i].rows[o.id].nextRun
  {
    TraceKeepsOk(next, steps, states, i);
    var s := states[i];
    assert CountOk(next, s, o);
    var r := s.rows[o.id];
    assert RowOk(next, r);
    var k: nat :| k <= r.done && OnSchedule(next, r, k, o.at);
    if k < r.done {
      NthIncreases(next, r.start, r.cadence, k, r.done);
    }
  }

  /** A group that is gone has no live template. */
  predicate GoneOk(s: System) {
    forall id :: id in s.rows && s.rows[id].template.group in s.gone ==> s.rows[id].deleted
  }

  lemma StepKeepsGone(next: Stepping, s: System, st: Step)
    requires GoneOk(s) && Enabled(s, st)
    ensures GoneOk(After(next, s, st))
  {
  }

  lemma {:induction false} TraceKeepsGone(next: Stepping, steps: seq<Step>, states: seq<System>, i: nat)
    requires Trace(next, steps, states) && i < |states|
    ensures GoneOk(states[i])
  {
    if i > 0 {
      TraceKeepsGone(next, steps, states, i - 1);
      StepKeepsGone(next, states[i - 1], steps[i - 1]);
    }
  }

  /** Inside a tick, a worker can always go on except before an insert: when the template whose
      turn it is does not fit into the expense tables, or somebody is deleting its group. */
  lemma NextStep(next: Stepping, steps: seq<Step>, states: seq<System>, i: nat, w: int)
    requires Forward(next) && Trace(next, steps, states) && i < |states| && Busy(states[i], w)
    ensures var s, k := states[i], states[i].workers[w];
      if k.pos >= |k.claim| then Enabled(s, Commit(w))
      else if k.created then Enabled(s, Stage(w))
      else k.claim[k.pos].id in s.rows
           && (Enabled(s, Create(w)) <==>
                 && Insertable(s.users, s.rows[k.claim[k.pos].id].template)
                 && s.rows[k.claim[k.pos].id].template.group !in s.locked)
  {
    TraceKeepsOk(next, steps, states, i);
    TraceKeepsGone(next, steps, states, i);
    NextStepAt(next, states[i], w);
  }

  lemma NextStepAt(next: Stepping, s: System, w: int)
    requires WorkersOk(next, s) && GoneOk(s) && Busy(s, w)
    ensures var k := s.workers[w];
      if k.pos >= |k.claim| then Enabled(s, Commit(w))
      else if k.created then Enabled(s, Stage(w))
      else k.claim[k.pos].id in s.rows
           && (Enabled(s, Create(w)) <==>
                 && Insertable(s.users, s.rows[k.claim[k.pos].id].template)
                 && s.rows[k.claim[k.pos].id].template.group !in s.locked)
  {
    assert WorkerOk(next, s.rows, s.workers[w]);
  }

  /** Every template was stored at a time when the expense tables would have taken it. */
  ghost predicate OnlyInsertable(steps: seq<Step>, states: seq<System>) {
    |states| == |steps| + 1
    && forall i :: 0 <= i < |steps| && steps[i].AddTemplate? ==> Insertable(states[i].users, steps[i].template)
  }

  lemma InsertableLater(users: set<Id>, later: set<Id>, t: Template)
    requires users <= later && Insertable(users, t)
    ensures Insertable(later, t)
  {
  }

  /** A stored template never changes, and no user goes. */
  lemma TemplateKept(next: Stepping, s: System, st: Step, id: Id)
    requires Enabled(s, st) && id in After(next, s, st).rows
    ensures s.users <= After(next, s, st).users
    ensures id in s.rows ==> After(next, s, st).rows[id].template == s.rows[id].template
    ensures id !in s.rows ==> st.AddTemplate? && After(next, s, st).rows[id].template == st.template
  {
  }

  lemma {:induction false} StaysInsertable(next: Stepping, steps: seq<Step>, states: seq<System>, i: nat, id: Id)
    requires Forward(next) && Trace(next, steps, states) && OnlyInsertable(steps, states)
    requires i < |states| && id in states[i].rows
    ensures Insertable(states[i].users, states[i].rows[id].template)
  {
    if i > 0 {
      var s, st := states[i - 1], steps[i - 1];
      TemplateKept(next, s, st, id);
      if id in s.rows {
        StaysInsertable(next, steps, states, i - 1, id);
      }
      InsertableLater(s.users, states[i].users, states[i].rows[id].template);
    }
  }

  /** The worker's next template belongs to a group that somebody is deleting. */
  predicate Standoff(s: System, w: int, group: Id) {
    && Busy(s, w) && s.workers[w].pos < |s.workers[w].claim| && !s.workers[w].created
    && s.workers[w].claim[s.workers[w].pos].id in s.rows
    && s.rows[s.workers[w].claim[s.workers[w].pos].id].template.group == group
    && group in s.locked
  }

  /** If every template was insertable when it was stored, every one stays so, and a worker in
      the middle of a tick can always take its next step unless it stands off with a deletion of
      the group whose template is next. */
  lemma TicksNeverStick(next: Stepping, steps: seq<Step>, states: seq<System>, i: nat, w: int)
    requires Forward(next) && Trace(next, steps, states) && i < |states| && Busy(states[i], w)
    requires OnlyInsertable(steps, states) && forall group :: !Standoff(states[i], w, group)
    ensures var k := states[i].workers[w];
      Enabled(states[i], if k.pos == |k.claim| then Commit(w) else if k.created then Stage(w) else Create(w))
  {
    NextStep(next, steps, states, i, w);
    var k := states[i].workers[w];
    if k.pos < |k.claim| && !k.created {
      StaysInsertable(next, steps, states, i, k.claim[k.pos].id);
      assert !Standoff(states[i], w, states[i].rows[k.claim[k.pos].id].template.group);
    }
  }

  /** In a standoff the worker waits for the group row and the deletion for the template's row:
      neither the insert nor the removal of the group can happen. */
  lemma StandoffBlocks(s: System, w: int, group: Id)
    requires Standoff(s, w, group)
    ensures !Enabled(s, Create(w)) && !Enabled(s, Stage(w)) && !Enabled(s, Commit(w))
    ensures !Enabled(s, RemoveGroup(group))
  {
    HeldIsLocked(s, w, s.workers[w].pos);
  }

  lemma StandoffStep(next: Stepping, s: System, st: Step, w: int, group: Id)
    requires Standoff(s, w, group) && Enabled(s, st) && st != Abort(w) && st != KeepGroup(group)
    ensures Standoff(After(next, s, st), w, group)
  {
    StandoffBlocks(s, w, group);
  }

  /** It lasts, whatever anybody else does, until the tick or the deletion gives up. */
  lemma {:induction false} StandoffLasts(
      next: Stepping, steps: seq<Step>, states: seq<System>, i: nat, j: nat, w: int, group: Id)
    requires Trace(next, steps, states) && i <= j < |states| && Standoff(states[i], w, group)
    requires forall k :: i <= k < j ==> steps[k] != Abort(w) && steps[k] != KeepGroup(group)
    ensures Standoff(states[j], w, group) && !Enabled(states[j], Create(w)) && !Enabled(states[j], RemoveGroup(group))
  {
    if i < j {
      StandoffLasts(next, steps, states, i, j - 1, w, group);
      StandoffStep(next, states[j - 1], steps[j - 1], w, group);
    }
    StandoffBlocks(states[j], w, group);
  }

  /** The service stores a template that names somebody who does not exist. */
  lemma UnknownUserStored(s: System, id: Id, t: Template, c: Cadence, first: int, u: Id)
    requires id !in s.rows && ValidCadence(c) && t.payer in s.users && Open(s, t.group)
    requires t.mode == Equal && t.amount > 0 && t.splits == [SplitInput(u, 0)] && u !in s.users
    ensures Enabled(s, AddTemplate(id, t, c, first)) && !Insertable(s.users, t)
  {
    assert Resolve64(Equal, t.amount, t.splits).resolution.value[0].user == u;
  }

  /** A test of a template against the users there are. */
  type Test = (set<Id>, Template) -> bool

  ghost predicate Grows(fits: Test) {
    forall users, later, t :: users <= later && fits(users, t) ==> fits(later, t)
  }

  function Fits(): Test {
    (users: set<Id>, t: Template) => Insertable(users, t)
  }

  /** A template got an expense, or is getting one, only if it fits by then. */
  ghost predicate InsertedOk(fits: Test, s: System) {
    && (forall o :: s.made[o] >= 1 ==> o.id in s.rows && fits(s.users, s.rows[o.id].template))
    && (forall id :: id in s.rows && s.rows[id].done >= 1 ==> fits(s.users, s.rows[id].template))
    && (forall w, i :: Busy(s, w) && 0 <= i < |s.workers[w].claim| && i < Progress(s.workers[w]) ==>
          s.workers[w].claim[i].id in s.rows && fits(s.users, s.rows[s.workers[w].claim[i].id].template))
  }

  lemma InsertedCarries(fits: Test, s: System, s': System)
    requires Grows(fits) && s.users <= s'.users
    requires forall id :: id in s.rows ==> id in s'.rows && s'.rows[id].template == s.rows[id].template
    requires forall o :: s'.made[o] >= 1 ==> o.id in s.rows && fits(s.users, s.rows[o.id].template)
    requires forall id :: id in s'.rows && s'.rows[id].done >= 1 ==> id in s.rows && fits(s.users, s.rows[id].template)
    requires forall w, i :: Busy(s', w) && 0 <= i < |s'.workers[w].claim| && i < Progress(s'.workers[w]) ==>
      s'.workers[w].claim[i].id in s.rows && fits(s.users, s.rows[s'.workers[w].claim[i].id].template)
    ensures InsertedOk(fits, s')
  {
  }

  lemma CommitAdvancesInserted(fits: Test, next: Stepping, s: System, w: int)
    requires SystemOk(next, s) && InsertedOk(fits, s) && Enabled(s, Commit(w))
    ensures forall id :: id in s.rows && id in s.workers[w].staged ==> fits(s.users, s.rows[id].template)
    ensures forall i :: 0 <= i < |s.workers[w].claim| ==>
      s.workers[w].claim[i].id in s.rows && fits(s.users, s.rows[s.workers[w].claim[i].id].template)
  {
    var k := s.workers[w];
    assert WorkerOk(next, s.rows, k);
    forall id | id in s.rows && id in k.staged ensures fits(s.users, s.rows[id].template) {
      assert id in FirstIds(k.claim, k.pos);
    }
  }

  lemma CommitKeepsInserted(fits: Test, next: Stepping, s: System, w0: int)
    requires Grows(fits) && SystemOk(next, s) && InsertedOk(fits, s) && Enabled(s, Commit(w0))
    ensures InsertedOk(fits, After(next, s, Commit(w0)))
  {
    var s' := After(next, s, Commit(w0));
    CommitAdvancesInserted(fits, next, s, w0);
    forall w, i | Busy(s', w) && 0 <= i < |s'.workers[w].claim| && i < Progress(s'.workers[w])
      ensures s'.workers[w].claim[i].id in s.rows && fits(s.users, s.rows[s'.workers[w].claim[i].id].template)
    {
      assert Busy(s, w) && s'.workers[w] == s.workers[w];
    }
    InsertedCarries(fits, s, s');
  }

  lemma CreateKeepsInserted(fits: Test, next: Stepping, s: System, w0: int)
    requires Grows(fits) && InsertedOk(fits, s) && Enabled(s, Create(w0))
    requires fits(s.users, s.rows[s.workers[w0].claim[s.workers[w0].pos].id].template)
    ensures InsertedOk(fits, After(next, s, Create(w0)))
  {
    var s' := After(next, s, Create(w0));
    forall w, i | Busy(s', w) && 0 <= i < |s'.workers[w].claim| && i < Progress(s'.workers[w])
      ensures s'.workers[w].claim[i].id in s.rows && fits(s.users, s.rows[s'.workers[w].claim[i].id].template)
    {
      assert Busy(s, w) && s'.workers[w].claim == s.workers[w].claim;
    }
    InsertedCarries(fits, s, s');
  }

  lemma WorkerStepKeepsInserted(fits: Test, next: Stepping, s: System, st: Step)
    requires Grows(fits) && InsertedOk(fits, s) && Enabled(s, st) && (st.Claim? || st.Stage? || st.Abort?)
    ensures InsertedOk(fits, After(next, s, st))
  {
    var s' := After(next, s, st);
    forall w, i | Busy(s', w) && 0 <= i < |s'.workers[w].claim| && i < Progress(s'.workers[w])
      ensures s'.workers[w].claim[i].id in s.rows && fits(s.users, s.rows[s'.workers[w].claim[i].id].template)
    {
      if w != st.worker || st.Stage? {
        assert Busy(s, w) && s'.workers[w].claim == s.workers[w].claim;
      }
    }
    InsertedCarries(fits, s, s');
  }

  lemma OtherStepKeepsInserted(fits: Test, next: Stepping, s: System, st: Step)
    requires Grows(fits) && InsertedOk(fits, s) && Enabled(s, st)
    requires st.Pass? || st.AddUser? || st.AddTemplate? || st.DropTemplate?
             || st.LockGroup? || st.KeepGroup? || st.RemoveGroup?
    ensures InsertedOk(fits, After(next, s, st))
  {
    var s' := After(next, s, st);
    forall w, i | Busy(s', w) && 0 <= i < |s'.workers[w].claim| && i < Progress(s'.workers[w])
      ensures s'.workers[w].claim[i].id in s.rows && fits(s.users, s.rows[s'.workers[w].claim[i].id].template)
    {
      assert Busy(s, w);
    }
    InsertedCarries(fits, s, s');
  }

  lemma StepKeepsInserted(fits: Test, next: Stepping, s: System, st: Step)
    requires Grows(fits) && SystemOk(next, s) && InsertedOk(fits, s) && Enabled(s, st)
    requires st.Create? ==> fits(s.users, s.rows[s.workers[st.worker].claim[s.workers[st.worker].pos].id].template)
    ensures InsertedOk(fits, After(next, s, st))
  {
    match st
    case Commit(w) => CommitKeepsInserted(fits, next, s, w);
    case Create(w) => CreateKeepsInserted(fits, next, s, w);
    case Claim(_, _) => WorkerStepKeepsInserted(fits, next, s, st);
    case Stage(_) => WorkerStepKeepsInserted(fits, next, s, st);
    case Abort(_) => WorkerStepKeepsInserted(fits, next, s, st);
    case _ => OtherStepKeepsInserted(fits, next, s, st);
  }

  lemma {:induction false} TraceKeepsInserted(next: Stepping, steps: seq<Step>, states: seq<System>, i: nat)
    requires Forward(next) && Trace(next, steps, states) && i < |states|
    ensures InsertedOk(Fits(), states[i])
  {
    if i > 0 {
      TraceKeepsInserted(next, steps, states, i - 1);
      TraceKeepsOk(next, steps, states, i - 1);
      FitsGrows();
      StepKeepsInserted(Fits(), next, states[i - 1], steps[i - 1]);
    }
  }

  lemma FitsGrows()
    ensures Grows(Fits())
  {
    forall users, later, t | users <= later && Fits()(users, t) ensures Fits()(later, t) {
      InsertableLater(users, later, t);
    }
  }

  /** As long as one of its users does not exist, a template has no expense and keeps its first
      date, however often it is claimed. */
  lemma NeverInserted(next: Stepping, steps: seq<Step>, states: seq<System>, i: nat, id: Id)
    requires Forward(next) && Trace(next, steps, states) && i < |states|
    requires id in states[i].rows && !Insertable(states[i].users, states[i].rows[id].template)
    ensures states[i].rows[id].done == 0 && states[i].rows[id].nextRun == states[i].rows[id].start
    ensures forall at :: states[i].made[Occurrence(id, at)] == 0
  {
    TraceKeepsOk(next, steps, states, i);
    TraceKeepsInserted(next, steps, states, i);
    assert RowOk(next, states[i].rows[id]);
  }

  /** And no tick that claimed it commits. */
  lemma PoisonedTickAborts(next: Stepping, steps: seq<Step>, states: seq<System>, i: nat, w: int, j: nat)
    requires Forward(next) && Trace(next, steps, states) && i < |states| && Busy(states[i], w)
    requires j < |states[i].workers[w].claim| && states[i].workers[w].claim[j].id in states[i].rows
    requires !Insertable(states[i].users, states[i].rows[states[i].workers[w].claim[j].id].template)
    ensures !Enabled(states[i], Commit(w))
  {
    TraceKeepsOk(next, steps, states, i);
    TraceKeepsInserted(next, steps, states, i);
    if Enabled(states[i], Commit(w)) {
      CommitAdvancesInserted(Fits(), next, states[i], w);
    }
  }

  // ------------------------------------------------------------------- the bound is reached

  const DINNER: Template := Template(7, 1, 0, 1, "EUR", "dinner", Equal, [SplitInput(1, 0)])

  const FIRST_DINNER: Occurrence := Occurrence(9, 0)

  /** One due template, after n ticks that created its expense and aborted. */
  ghost function Aborted(n: nat): System {
    System(0, {1}, {}, {}, map[9 := Row(DINNER, Daily, 0, 0, 0, false)], if n == 0 then map[] else map[0 := Idle],
           multiset{}[FIRST_DINNER := n], multiset{}[FIRST_DINNER := n])
  }

  ghost function Halfway(n: nat, created: bool): System {
    Aborted(n).(workers := map[0 := Ticking([FIRST_DINNER], 0, created, map[])],
                made := multiset{}[FIRST_DINNER := n + if created then 1 else 0])
  }

  ghost predicate Reaches(next: Stepping, s: System) {
    exists steps, states :: Trace(next, steps, states) && states[|states| - 1] == s
  }

  lemma OneStepOn(next: Stepping, s: System, st: Step)
    requires Reaches(next, s) && Enabled(s, st)
    ensures Reaches(next, After(next, s, st))
  {
    var steps, states :| Trace(next, steps, states) && states[|states| - 1] == s;
    assert Trace(next, steps + [st], states + [After(next, s, st)]);
  }

  lemma DinnerFits()
    ensures Resolves(DINNER) && Insertable({1}, DINNER)
  {
    assert Resolve64(Equal, 1, DINNER.splits).resolution.value == [Split(1, 1)];
  }

  lemma DinnerClaim(n: nat)
    ensures ClaimAnswer(Aborted(n), [FIRST_DINNER])
  {
    var s := Aborted(n);
    assert [FIRST_DINNER][0].id == 9;
    forall id ensures !Locked(s, id) {
    }
  }

  lemma DinnerStored(next: Stepping)
    ensures Reaches(next, Aborted(0))
  {
    DinnerFits();
    assert Trace(next, [], [START]);
    OneStepOn(next, START, AddUser(1));
    var s := After(next, START, AddUser(1));
    OneStepOn(next, s, AddTemplate(9, DINNER, Daily, 0));
    assert After(next, s, AddTemplate(9, DINNER, Daily, 0)) == Aborted(0);
  }

  lemma DinnerClaimed(next: Stepping, n: nat)
    requires Reaches(next, Aborted(n))
    ensures Reaches(next, Halfway(n, false))
  {
    DinnerClaim(n);
    OneStepOn(next, Aborted(n), Claim(0, [FIRST_DINNER]));
    assert After(next, Aborted(n), Claim(0, [FIRST_DINNER])) == Halfway(n, false);
  }

  lemma DinnerMade(next: Stepping, n: nat)
    requires Reaches(next, Aborted(n))
    ensures Reaches(next, Halfway(n, true))
  {
    DinnerClaimed(next, n);
    DinnerFits();
    OneStepOn(next, Halfway(n, false), Create(0));
    assert After(next, Halfway(n, false), Create(0)) == Halfway(n, true);
  }

  lemma {:induction false} DinnerAborted(next: Stepping, n: nat)
    ensures Reaches(next, Aborted(n))
  {
    if n == 0 {
      DinnerStored(next);
    } else {
      DinnerAborted(next, n - 1);
      DinnerMade(next, n - 1);
      DinnerGivenUp(next, n - 1);
    }
  }

  lemma DinnerGivenUp(next: Stepping, n: nat)
    requires Reaches(next, Halfway(n, true))
    ensures Reaches(next, Aborted(n + 1))
  {
    OneStepOn(next, Halfway(n, true), Abort(0));
    assert After(next, Halfway(n, true), Abort(0)) == Aborted(n + 1);
  }

  /** A standoff can be reached: the deletion begins between the claim and the insert. */
  lemma StandoffReached(next: Stepping) returns (s: System)
    ensures Reaches(next, s) && Standoff(s, 0, DINNER.group)
  {
    DinnerStored(next);
    DinnerClaimed(next, 0);
    OneStepOn(next, Halfway(0, false), LockGroup(DINNER.group));
    s := After(next, Halfway(0, false), LockGroup(DINNER.group));
  }

  /** For every n there is a schedule with n aborted ticks and n + 1 expenses for one date, which
      is past by then: the upper bound of CrashSafety cannot be lowered. */
  lemma BoundReached(next: Stepping, n: nat) returns (steps: seq<Step>, states: seq<System>)
    requires Forward(next)
    ensures Trace(next, steps, states)
    ensures var s := states[|states| - 1];
      && s.abandoned[FIRST_DINNER] == n && s.made[FIRST_DINNER] == n + 1
      && 9 in s.rows && s.rows[9].start == FIRST_DINNER.at < s.rows[9].nextRun
  {
    DinnerAborted(next, n);
    DinnerMade(next, n);
    var s := Halfway(n, true);
    OneStepOn(next, s, Stage(0));
    var staged := After(next, s, Stage(0));
    OneStepOn(next, staged, Commit(0));
    assert 9 in staged.workers[0].staged;
    steps, states :| Trace(next, steps, states) && states[|states| - 1] == After(next, staged, Commit(0));
  }
}
