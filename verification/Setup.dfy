/** The first-run ceremony: boots that rotate the install token, completions that present it,
    registrations, what administrators do to accounts, and the two locks that order some of it.
    Every database statement is one step, so the calls of different processes interleave freely. */
module Setup {
  import opened Core

  type Token = nat

  /** The digest of a token; different tokens have different digests. */
  datatype Digest = Digest(token: Token)

  /** The single app_setup row; completedBy is set together with completed_at. */
  datatype SetupRow = SetupRow(hash: Digest, completedBy: Option<Id>)

  datatype Role = Admin | Member

  datatype User = User(role: Role, active: bool)

  /** How far a process is inside its current call. */
  datatype Process =
    | Idle
    | Booting
    | Completing(token: Token)
    | Minting(token: Token, user: Id, role: Role)
    | Registering
    | Joining(user: Id, role: Role)
    | Gated(admin: Id)
    | RoleChecked(target: Id, role: Role)

  /** completions is history: how many CompleteWithToken transactions have committed. */
  datatype Install = Install(
    setup: Option<SetupRow>,
    users: map<Id, User>,
    processes: map<int, Process>,
    rowLock: Option<int>,
    bootstrapLock: Option<int>,
    completions: nat)

  const EMPTY_INSTALL: Install := Install(None, map[], map[], None, None, 0)

  datatype Action =
    | ReadForBoot(p: int)
    | RotateToken(p: int, minted: Token)
    | LockRow(p: int, supplied: Token)
    | CountForSetup(p: int, user: Id)
    | CommitSetup(p: int)
    | PassGate(p: int)
    | CountForRegister(p: int, user: Id)
    | CommitRegister(p: int)
    | GiveUp(p: int)
    | Deactivate(user: Id)
    | AdminGate(p: int, admin: Id)
    | InsertByAdmin(p: int, user: Id, role: Role)
    | CheckRole(p: int, target: Id, role: Role)
    | WriteRole(p: int)

  function StageOf(s: Install, p: int): Process {
    if p in s.processes then s.processes[p] else Idle
  }

  /** SetupRepo.Locked: the ceremony is finished. */
  predicate Completed(s: Install) {
    s.setup.Some? && s.setup.value.completedBy.Some?
  }

  predicate SomeActive(users: map<Id, User>) {
    exists u :: u in users && users[u].active
  }

  /** The role RegisterTx gives, from the users it counts under the advisory lock. */
  function BootstrapRole(s: Install): Role {
    if SomeActive(s.users) then Member else Admin
  }

  /** CountActiveAdmins. */
  function ActiveAdmins(users: map<Id, User>): set<Id> {
    set u | u in users && users[u] == User(Admin, true)
  }

  predicate TokenMatches(s: Install, supplied: Token) {
    s.setup.Some? && s.setup.value.hash == Digest(supplied)
  }

  predicate Enabled(s: Install, a: Action) {
    match a
    case ReadForBoot(p) => StageOf(s, p) == Idle
    // An upsert waits for a row lock another transaction holds.
    case RotateToken(p, _) => StageOf(s, p) == Booting && s.rowLock.None?
    // SELECT ... FOR UPDATE waits for the lock too, then reads the committed row.
    case LockRow(p, _) => StageOf(s, p) == Idle && s.rowLock.None?
    case CountForSetup(p, user) => StageOf(s, p).Completing? && s.bootstrapLock.None? && user !in s.users
    case CommitSetup(p) => StageOf(s, p).Minting? && StageOf(s, p).user !in s.users
    case PassGate(p) => StageOf(s, p) == Idle
    case CountForRegister(p, user) => StageOf(s, p) == Registering && s.bootstrapLock.None? && user !in s.users
    case CommitRegister(p) => StageOf(s, p).Joining? && StageOf(s, p).user !in s.users
    case GiveUp(p) => StageOf(s, p) != Idle
    // Own account or an administrator's delete; the guards of the latter only narrow it.
    case Deactivate(user) => user in s.users
    // The RequireAdmin middleware reads the user once; the call behind it comes later.
    case AdminGate(p, admin) => StageOf(s, p) == Idle && admin in s.users && s.users[admin] == User(Admin, true)
    case InsertByAdmin(p, user, _) => StageOf(s, p).Gated? && user !in s.users
    // SetUserRole: not on oneself, only on an active user, and not on the last active admin.
    case CheckRole(p, target, role) =>
      && StageOf(s, p).Gated? && StageOf(s, p).admin != target
      && target in s.users && s.users[target].active && s.users[target].role != role
      && (role == Member ==> |ActiveAdmins(s.users)| > 1)
    case WriteRole(p) => StageOf(s, p).RoleChecked? && StageOf(s, p).target in s.users
  }

  function At(s: Install, p: int, stage: Process): Install {
    s.(processes := s.processes[p := stage])
  }

  /** Ending a transaction releases whatever it holds. */
  function Release(s: Install, p: int): Install {
    s.(processes := s.processes[p := Idle],
       rowLock := if s.rowLock == Some(p) then None else s.rowLock,
       bootstrapLock := if s.bootstrapLock == Some(p) then None else s.bootstrapLock)
  }

  function After(s: Install, a: Action): Install
    requires Enabled(s, a)
  {
    match a
    case ReadForBoot(p) => if Completed(s) then s else At(s, p, Booting)
    case RotateToken(p, minted) =>
      At(if s.setup.None? then s.(setup := Some(SetupRow(Digest(minted), None)))
         else if Completed(s) then s
         else s.(setup := Some(s.setup.value.(hash := Digest(minted)))), p, Idle)
    case LockRow(p, supplied) =>
      if s.setup.None? || Completed(s) || !TokenMatches(s, supplied) then s
      else At(s, p, Completing(supplied)).(rowLock := Some(p))
    case CountForSetup(p, user) =>
      At(s, p, Minting(StageOf(s, p).token, user, BootstrapRole(s))).(bootstrapLock := Some(p))
    case CommitSetup(p) =>
      var k := StageOf(s, p);
      Release(s, p).(users := s.users[k.user := User(k.role, true)],
                     setup := if s.setup.Some? && s.setup.value.completedBy.None?
                              then Some(s.setup.value.(completedBy := Some(k.user))) else s.setup,
                     completions := s.completions + 1)
    case PassGate(p) => if Completed(s) then At(s, p, Registering) else s
    case CountForRegister(p, user) => At(s, p, Joining(user, BootstrapRole(s))).(bootstrapLock := Some(p))
    case CommitRegister(p) =>
      var k := StageOf(s, p);
      Release(s, p).(users := s.users[k.user := User(k.role, true)])
    case GiveUp(p) => Release(s, p)
    case Deactivate(user) => s.(users := s.users[user := s.users[user].(active := false)])
    case AdminGate(p, admin) => At(s, p, Gated(admin))
    case InsertByAdmin(p, user, role) => At(s, p, Idle).(users := s.users[user := User(role, true)])
    case CheckRole(p, target, role) => At(s, p, RoleChecked(target, role))
    case WriteRole(p) =>
      var k := StageOf(s, p);
      // UPDATE ... WHERE deleted_at IS NULL
      if s.users[k.target].active then
        At(s, p, Idle).(users := s.users[k.target := s.users[k.target].(role := k.role)])
      else At(s, p, Idle)
  }

  ghost predicate Trace(actions: seq<Action>, states: seq<Install>) {
    && |states| == |actions| + 1
    && states[0] == EMPTY_INSTALL
    && forall i :: 0 <= i < |actions| ==> Enabled(states[i], actions[i]) && states[i + 1] == After(states[i], actions[i])
  }

  // ------------------------------------------------------------------------------ invariants

  ghost predicate StageOk(s: Install, p: int) {
    match StageOf(s, p)
    case Idle => s.rowLock != Some(p) && s.bootstrapLock != Some(p)
    case Booting => s.rowLock != Some(p) && s.bootstrapLock != Some(p)
    case Completing(token) =>
      s.rowLock == Some(p) && s.bootstrapLock != Some(p) && !Completed(s) && TokenMatches(s, token)
    case Minting(token, user, role) =>
      s.rowLock == Some(p) && s.bootstrapLock == Some(p) && !Completed(s) && TokenMatches(s, token) && role == Admin
    case Registering => Completed(s) && s.rowLock != Some(p) && s.bootstrapLock != Some(p)
    case Joining(user, role) =>
      Completed(s) && s.rowLock != Some(p) && s.bootstrapLock == Some(p)
    case Gated(_) => Completed(s) && s.rowLock != Some(p) && s.bootstrapLock != Some(p)
    case RoleChecked(target, _) =>
      Completed(s) && target in s.users && s.rowLock != Some(p) && s.bootstrapLock != Some(p)
  }

  ghost predicate InstallOk(s: Install) {
    && (forall p :: StageOk(s, p))
    && (!Completed(s) ==> s.users == map[] && s.completions == 0)
    && (Completed(s) ==>
          && s.completions == 1
          && s.setup.value.completedBy.value in s.users)
  }

  /** The process a step belongs to, if any. */
  function ProcessOf(a: Action): int {
    match a
    case ReadForBoot(p) => p
    case RotateToken(p, _) => p
    case LockRow(p, _) => p
    case CountForSetup(p, _) => p
    case CommitSetup(p) => p
    case PassGate(p) => p
    case CountForRegister(p, _) => p
    case CommitRegister(p) => p
    case GiveUp(p) => p
    case Deactivate(_) => 0
    case AdminGate(p, _) => p
    case InsertByAdmin(p, _, _) => p
    case CheckRole(p, _, _) => p
    case WriteRole(p) => p
  }

  lemma StepKeepsOk(s: Install, a: Action)
    requires InstallOk(s) && Enabled(s, a)
    ensures InstallOk(After(s, a))
  {
    assert StageOk(s, ProcessOf(a));
    forall p ensures StageOk(After(s, a), p) {
      OneStageOk(s, a, p);
    }
  }

  lemma OneStageOk(s: Install, a: Action, p: int)
    requires InstallOk(s) && Enabled(s, a)
    ensures StageOk(After(s, a), p)
  {
    assert StageOk(s, p) && StageOk(s, ProcessOf(a));
  }

  lemma {:induction false} TraceKeepsOk(actions: seq<Action>, states: seq<Install>, i: nat)
    requires Trace(actions, states) && i < |states|
    ensures InstallOk(states[i])
  {
    if i > 0 {
      TraceKeepsOk(actions, states, i - 1);
      StepKeepsOk(states[i - 1], actions[i - 1]);
    }
  }

  // ---------------------------------------------------------------------------- consequences

  /** Until the ceremony completes there is no user at all; it completes at most once, and
      from then on the user it recorded exists. */
  lemma OneCompletion(actions: seq<Action>, states: seq<Install>, i: nat)
    requires Trace(actions, states) && i < |states|
    ensures var s := states[i];
      && (!Completed(s) ==> s.users == map[] && s.completions == 0)
      && (Completed(s) ==>
            && s.completions == 1
            && s.setup.value.completedBy.value in s.users)
  {
    TraceKeepsOk(actions, states, i);
  }

  /** The commit that completes the ceremony had presented the token whose digest is stored,
      and creates the admin it records. */
  lemma CompletionNeedsToken(actions: seq<Action>, states: seq<Install>, i: nat)
    requires Trace(actions, states) && i < |actions|
    requires !Completed(states[i]) && Completed(states[i + 1])
    ensures actions[i].CommitSetup?
    ensures var k := StageOf(states[i], actions[i].p);
      && k.Minting? && states[i].setup.Some? && states[i].setup.value.hash == Digest(k.token)
      && states[i + 1].setup.value.completedBy == Some(k.user)
      && states[i + 1].users == map[k.user := User(Admin, true)]
  {
    TraceKeepsOk(actions, states, i);
    if actions[i].CommitSetup? {
      assert StageOk(states[i], actions[i].p);
    }
  }

  lemma StepKeepsSetup(s: Install, a: Action)
    requires InstallOk(s) && Enabled(s, a) && Completed(s)
    ensures After(s, a).setup == s.setup
  {
    assert StageOk(s, ProcessOf(a));
  }

  /** Once completed, the row is frozen: nobody rotates the token or completes again. */
  lemma {:induction false} SetupFrozen(actions: seq<Action>, states: seq<Install>, i: nat, j: nat)
    requires Trace(actions, states) && i <= j < |states| && Completed(states[i])
    ensures states[j].setup == states[i].setup
  {
    if i < j {
      SetupFrozen(actions, states, i, j - 1);
      TraceKeepsOk(actions, states, j - 1);
      StepKeepsSetup(states[j - 1], actions[j - 1]);
    }
  }

  // -------------------------------------------------------------------- the last token counts

  /** The token of the last rotation before state i that found the ceremony open, if any. */
  function LastMinted(actions: seq<Action>, states: seq<Install>, i: nat): Option<Token>
    requires i <= |actions| < |states|
  {
    if i == 0 then None
    else if actions[i - 1].RotateToken? && !(states[i - 1].setup.Some? && states[i - 1].setup.value.completedBy.Some?)
      then Some(actions[i - 1].minted)
    else LastMinted(actions, states, i - 1)
  }

  lemma StepKeepsHash(s: Install, a: Action)
    requires InstallOk(s) && Enabled(s, a)
    ensures if a.RotateToken? && !Completed(s) then After(s, a).setup == Some(SetupRow(Digest(a.minted), None))
            else if s.setup.None? then After(s, a).setup.None?
            else After(s, a).setup.Some? && After(s, a).setup.value.hash == s.setup.value.hash
  {
    assert StageOk(s, ProcessOf(a));
  }

  /** What is stored is always the digest of the token minted last: a later boot overwrites it. */
  lemma {:induction false} LastMintedStored(actions: seq<Action>, states: seq<Install>, i: nat)
    requires Trace(actions, states) && i < |states|
    ensures if LastMinted(actions, states, i).None? then states[i].setup.None?
            else states[i].setup.Some? && states[i].setup.value.hash == Digest(LastMinted(actions, states, i).value)
  {
    if i > 0 {
      LastMintedStored(actions, states, i - 1);
      TraceKeepsOk(actions, states, i - 1);
      StepKeepsHash(states[i - 1], actions[i - 1]);
    }
  }

  /** So only the last token gets past the lock while the ceremony is open, and it does. */
  lemma OnlyLastTokenOpens(actions: seq<Action>, states: seq<Install>, i: nat, p: int, supplied: Token)
    requires Trace(actions, states) && i < |states| && !Completed(states[i]) && Enabled(states[i], LockRow(p, supplied))
    ensures StageOf(After(states[i], LockRow(p, supplied)), p) == Completing(supplied)
       <==> LastMinted(actions, states, i) == Some(supplied)
  {
    LastMintedStored(actions, states, i);
  }

  /** And the completing commit presented it. */
  lemma LastTokenCompletes(actions: seq<Action>, states: seq<Install>, i: nat)
    requires Trace(actions, states) && i < |actions|
    requires !Completed(states[i]) && Completed(states[i + 1])
    ensures actions[i].CommitSetup? && StageOf(states[i], actions[i].p).Minting?
    ensures LastMinted(actions, states, i) == Some(StageOf(states[i], actions[i].p).token)
  {
    CompletionNeedsToken(actions, states, i);
    LastMintedStored(actions, states, i);
  }

  /** A boot and then the ceremony, nobody else about: it completes exactly with the token that
      boot minted, whatever was stored before, and makes the user an active admin. */
  lemma BootThenComplete(s: Install, minted: Token, supplied: Token, user: Id)
    requires s.processes == map[] && s.rowLock.None? && s.bootstrapLock.None? && !Completed(s) && s.users == map[]
    ensures var booted := Attempt(Attempt(s, ReadForBoot(0)), RotateToken(0, minted));
      var done := Attempt(Attempt(Attempt(booted, LockRow(0, supplied)), CountForSetup(0, user)), CommitSetup(0));
      && booted.setup == Some(SetupRow(Digest(minted), None))
      && (Completed(done) <==> supplied == minted)
      && (if supplied == minted then
            done.users == map[user := User(Admin, true)] && done.setup == Some(SetupRow(Digest(minted), Some(user)))
          else done.users == map[] && done.setup == booted.setup)
  {
    var booted := Attempt(Attempt(s, ReadForBoot(0)), RotateToken(0, minted));
    var locked := Attempt(booted, LockRow(0, supplied));
    if supplied == minted {
      assert !SomeActive(locked.users);
    } else {
      assert locked == booted;
    }
  }

  // ----------------------------------------------------------------- the founder's role

  /** The role written to a user last between two states, if any. */
  function LastWritten(actions: seq<Action>, states: seq<Install>, user: Id, i: nat, j: nat): Option<Role>
    requires i <= j <= |actions| < |states|
    decreases j
  {
    if i == j then None
    else if actions[j - 1].WriteRole? && WritesRole(states[j - 1], actions[j - 1].p, user)
      then Some(StageOf(states[j - 1], actions[j - 1].p).role)
    else LastWritten(actions, states, user, i, j - 1)
  }

  predicate WritesRole(s: Install, p: int, user: Id) {
    && StageOf(s, p).RoleChecked? && StageOf(s, p).target == user
    && user in s.users && s.users[user].active
  }

  lemma StepSetsRole(s: Install, a: Action, user: Id)
    requires InstallOk(s) && Enabled(s, a) && user in s.users
    ensures user in After(s, a).users
    ensures After(s, a).users[user].role
         == if a.WriteRole? && WritesRole(s, a.p, user) then StageOf(s, a.p).role else s.users[user].role
  {
  }

  lemma RoleNext(actions: seq<Action>, states: seq<Install>, user: Id, j: nat)
    requires Trace(actions, states) && j < |actions| && user in states[j].users
    ensures user in states[j + 1].users
    ensures states[j + 1].users[user].role
         == if actions[j].WriteRole? && WritesRole(states[j], actions[j].p, user)
            then StageOf(states[j], actions[j].p).role else states[j].users[user].role
  {
    TraceKeepsOk(actions, states, j);
    StepSetsRole(states[j], actions[j], user);
  }

  lemma WrittenNext(actions: seq<Action>, states: seq<Install>, user: Id, i: nat, j: nat, role: Role, before: Role)
    requires i <= j < |actions| < |states| && before == LastWritten(actions, states, user, i, j).GetOr(role)
    ensures LastWritten(actions, states, user, i, j + 1).GetOr(role)
         == if actions[j].WriteRole? && WritesRole(states[j], actions[j].p, user)
            then StageOf(states[j], actions[j].p).role else before
  {
  }

  lemma {:induction false} RoleSince(actions: seq<Action>, states: seq<Install>, user: Id, i: nat, j: nat)
    requires Trace(actions, states) && i <= j <= |actions| && user in states[i].users
    ensures user in states[j].users
    ensures states[j].users[user].role == LastWritten(actions, states, user, i, j).GetOr(states[i].users[user].role)
  {
    if i < j {
      RoleSince(actions, states, user, i, j - 1);
      RoleNext(actions, states, user, j - 1);
      WrittenNext(actions, states, user, i, j - 1, states[i].users[user].role, states[j - 1].users[user].role);
    }
  }

  /** From the commit that completed the ceremony on, the recorded user has the role that was
      written to it last, and is an admin as long as none was. */
  lemma FounderRole(actions: seq<Action>, states: seq<Install>, i: nat, j: nat)
    requires Trace(actions, states) && i < j <= |actions|
    requires !Completed(states[i]) && Completed(states[i + 1])
    ensures states[j].setup == states[i + 1].setup
    ensures var founder := states[i + 1].setup.value.completedBy.value;
      && founder in states[j].users
      && states[j].users[founder].role == LastWritten(actions, states, founder, i + 1, j).GetOr(Admin)
  {
    CompletionNeedsToken(actions, states, i);
    SetupFrozen(actions, states, i + 1, j);
    RoleSince(actions, states, states[i + 1].setup.value.completedBy.value, i + 1, j);
  }

  /** The check behind a demotion never passes on oneself, nor while nobody else is an active
      admin beside the one to be demoted. */
  lemma LastAdminKept(s: Install, p: int, target: Id) returns (other: Id)
    requires Enabled(s, CheckRole(p, target, Member))
    ensures StageOf(s, p).Gated? && StageOf(s, p).admin != target
    ensures other != target && other in s.users && s.users[other].role == Admin && s.users[other].active
  {
    assert exists u :: u in ActiveAdmins(s.users) && u != target by {
      if forall u :: u in ActiveAdmins(s.users) ==> u == target {
        assert ActiveAdmins(s.users) <= {target};
        SubsetSize(ActiveAdmins(s.users), {target});
      }
    }
    other :| other in ActiveAdmins(s.users) && other != target;
  }

  // ------------------------------------------------------------------ what registrations see

  /** The process has held the bootstrap lock, between count and commit, since step c. */
  ghost predicate JoiningSince(actions: seq<Action>, states: seq<Install>, c: nat, i: nat, p: int) {
    && c < i < |states| && |actions| + 1 == |states|
    && StageOf(states[i], p).Joining?
    && actions[c] == CountForRegister(p, StageOf(states[i], p).user)
    && forall k :: c < k <= i ==> StageOf(states[k], p) == StageOf(states[i], p)
  }

  /** A registration between count and commit has the role its count gave it: admin exactly when
      nobody was active then. */
  lemma {:induction false} RoleFromCount(actions: seq<Action>, states: seq<Install>, i: nat, p: int) returns (c: nat)
    requires Trace(actions, states) && i < |states| && StageOf(states[i], p).Joining?
    ensures JoiningSince(actions, states, c, i, p)
    ensures StageOf(states[i], p).role == Admin
       <==> forall u :: u in states[c].users ==> !states[c].users[u].active
  {
    var before, a := states[i - 1], actions[i - 1];
    if StageOf(before, p) == StageOf(states[i], p) {
      c := RoleFromCount(actions, states, i - 1, p);
    } else {
      c := i - 1;
    }
  }

  /** The account was inserted by an administrator's call that got through after step c. */
  ghost predicate SlippedIn(actions: seq<Action>, c: nat, i: nat, user: Id) {
    exists k :: c < k < i && k < |actions| && actions[k].InsertByAdmin? && actions[k].user == user
  }

  lemma NewlyActive(s: Install, a: Action, p: int, user: Id)
    requires InstallOk(s) && Enabled(s, a) && StageOf(s, p).Joining? && StageOf(After(s, a), p).Joining?
    requires user in After(s, a).users && After(s, a).users[user].active
    requires !(user in s.users && s.users[user].active)
    ensures a.InsertByAdmin? && a.user == user
  {
    assert StageOk(s, p) && StageOk(s, ProcessOf(a));
  }

  lemma {:induction false} OnlySlippedIn(actions: seq<Action>, states: seq<Install>, c: nat, i: nat, p: int, user: Id)
    requires Trace(actions, states) && JoiningSince(actions, states, c, i, p) && !SomeActive(states[c].users)
    requires user in states[i].users && states[i].users[user].active
    ensures SlippedIn(actions, c, i, user)
    decreases i
  {
    var before, a := states[i - 1], actions[i - 1];
    TraceKeepsOk(actions, states, i - 1);
    if i - 1 == c {
    } else if user in before.users && before.users[user].active {
      OnlySlippedIn(actions, states, c, i - 1, p, user);
      var k :| c < k < i - 1 && k < |actions| && actions[k].InsertByAdmin? && actions[k].user == user;
    } else {
      NewlyActive(before, a, p, user);
    }
  }

  /** When a registration commits as admin, those active beside it are exactly the accounts that
      administrators' calls, past their check by then, inserted between its count and its commit
      and that are still active; so it is alone if and only if there is none. */
  lemma AdminAlone(actions: seq<Action>, states: seq<Install>, i: nat) returns (c: nat)
    requires Trace(actions, states) && i < |actions| && actions[i].CommitRegister?
    requires StageOf(states[i], actions[i].p).role == Admin
    ensures JoiningSince(actions, states, c, i, actions[i].p) && !SomeActive(states[c].users)
    ensures Active(states[i + 1].users) == {StageOf(states[i], actions[i].p).user} + Active(states[i].users)
    ensures forall u :: u in Active(states[i].users) <==> StillActive(states[i], u) && SlippedIn(actions, c, i, u)
  {
    c := RoleFromCount(actions, states, i, actions[i].p);
    forall u | u in Active(states[i].users) ensures SlippedIn(actions, c, i, u) {
      OnlySlippedIn(actions, states, c, i, actions[i].p, u);
    }
  }

  predicate StillActive(s: Install, user: Id) {
    user in s.users && s.users[user].active
  }

  ghost function Active(users: map<Id, User>): set<Id> {
    set u | u in users && users[u].active
  }

  // ------------------------------------------------------------------------ two such schedules

  ghost predicate Reaches(s: Install) {
    exists actions, states :: Trace(actions, states) && states[|states| - 1] == s
  }

  lemma Onward(s: Install, a: Action, next: Install)
    requires Reaches(s) && Enabled(s, a) && next == After(s, a)
    ensures Reaches(next)
  {
    var actions, states :| Trace(actions, states) && states[|states| - 1] == s;
    assert Trace(actions + [a], states + [next]);
  }

  /** User 1 has installed with token 5; the rest is up to the caller. */
  function Installed(users: map<Id, User>, processes: map<int, Process>, lock: Option<int>): Install {
    Install(Some(SetupRow(Digest(5), Some(1))), users, processes, None, lock, 1)
  }

  const FOUNDER: User := User(Admin, true)

  function Opened(stage: Process, row: Option<int>, lock: Option<int>): Install {
    Install(Some(SetupRow(Digest(5), None)), map[], map[0 := stage], row, lock, 0)
  }

  lemma OpenedReached()
    ensures Reaches(Opened(Idle, None, None))
  {
    assert Trace([], [EMPTY_INSTALL]);
    Onward(EMPTY_INSTALL, ReadForBoot(0), EMPTY_INSTALL.(processes := map[0 := Booting]));
    Onward(EMPTY_INSTALL.(processes := map[0 := Booting]), RotateToken(0, 5), Opened(Idle, None, None));
  }

  lemma InstalledReached()
    ensures Reaches(Installed(map[1 := FOUNDER], map[0 := Idle], None))
  {
    OpenedReached();
    Onward(Opened(Idle, None, None), LockRow(0, 5), Opened(Completing(5), Some(0), None));
    Onward(Opened(Completing(5), Some(0), None), CountForSetup(0, 1), Opened(Minting(5, 1, Admin), Some(0), Some(0)));
    Onward(Opened(Minting(5, 1, Admin), Some(0), Some(0)), CommitSetup(0),
           Installed(map[1 := FOUNDER], map[0 := Idle], None));
  }

  lemma SecondAdmin()
    ensures Reaches(Installed(map[1 := FOUNDER, 2 := FOUNDER], map[0 := Idle], None))
  {
    InstalledReached();
    Onward(Installed(map[1 := FOUNDER], map[0 := Idle], None), AdminGate(0, 1),
           Installed(map[1 := FOUNDER], map[0 := Gated(1)], None));
    Onward(Installed(map[1 := FOUNDER], map[0 := Gated(1)], None), InsertByAdmin(0, 2, Admin),
           Installed(map[1 := FOUNDER, 2 := FOUNDER], map[0 := Idle], None));
  }

  lemma DemotionChecked(both: map<Id, User>)
    requires both == map[1 := FOUNDER, 2 := FOUNDER]
    ensures Reaches(Installed(both, map[0 := RoleChecked(1, Member)], None))
  {
    SecondAdmin();
    Onward(Installed(both, map[0 := Idle], None), AdminGate(0, 2), Installed(both, map[0 := Gated(2)], None));
    assert ActiveAdmins(both) == {1, 2};
    Onward(Installed(both, map[0 := Gated(2)], None), CheckRole(0, 1, Member),
           Installed(both, map[0 := RoleChecked(1, Member)], None));
  }

  /** A second admin can demote the one that completed the ceremony. */
  lemma FounderDemoted() returns (s: Install)
    ensures Reaches(s) && Completed(s) && s.setup.value.completedBy == Some(1)
    ensures 1 in s.users && s.users[1].role == Member
  {
    var both := map[1 := FOUNDER, 2 := FOUNDER];
    DemotionChecked(both);
    s := Installed(map[1 := User(Member, true), 2 := FOUNDER], map[0 := Idle], None);
    Onward(Installed(both, map[0 := RoleChecked(1, Member)], None), WriteRole(0), s);
  }

  lemma GoneAfterGate()
    ensures Reaches(Installed(map[1 := User(Admin, false)], map[0 := Gated(1)], None))
  {
    InstalledReached();
    Onward(Installed(map[1 := FOUNDER], map[0 := Idle], None), AdminGate(0, 1),
           Installed(map[1 := FOUNDER], map[0 := Gated(1)], None));
    Onward(Installed(map[1 := FOUNDER], map[0 := Gated(1)], None), Deactivate(1),
           Installed(map[1 := User(Admin, false)], map[0 := Gated(1)], None));
  }

  lemma NobodyCounted()
    ensures Reaches(Installed(map[1 := User(Admin, false)], map[0 := Gated(1), 1 := Joining(3, Admin)], Some(1)))
  {
    var gone := map[1 := User(Admin, false)];
    GoneAfterGate();
    Onward(Installed(gone, map[0 := Gated(1)], None), PassGate(1),
           Installed(gone, map[0 := Gated(1), 1 := Registering], None));
    Onward(Installed(gone, map[0 := Gated(1), 1 := Registering], None), CountForRegister(1, 3),
           Installed(gone, map[0 := Gated(1), 1 := Joining(3, Admin)], Some(1)));
  }

  /** An admin passes the check, deletes the own account, somebody registers and counts nobody,
      the admin's call inserts an account, and the registration is about to commit as admin. */
  lemma AdminNotAlone() returns (s: Install)
    ensures Reaches(s) && Enabled(s, CommitRegister(1))
    ensures StageOf(s, 1) == Joining(3, Admin) && Active(s.users) == {2}
  {
    NobodyCounted();
    s := Installed(map[1 := User(Admin, false), 2 := User(Member, true)], map[0 := Idle, 1 := Joining(3, Admin)], Some(1));
    Onward(Installed(map[1 := User(Admin, false)], map[0 := Gated(1), 1 := Joining(3, Admin)], Some(1)),
           InsertByAdmin(0, 2, Member), s);
  }

  // -------------------------------------------------------------------------- the two locks

  /** At any time at most one process is inside the ceremony's transaction, and at most one
      holds the count of users. */
  lemma LocksExclude(actions: seq<Action>, states: seq<Install>, i: nat, p: int, q: int)
    requires Trace(actions, states) && i < |states| && p != q
    ensures var s := states[i];
      && !((StageOf(s, p).Completing? || StageOf(s, p).Minting?) && (StageOf(s, q).Completing? || StageOf(s, q).Minting?))
      && !((StageOf(s, p).Joining? || StageOf(s, p).Minting?) && (StageOf(s, q).Joining? || StageOf(s, q).Minting?))
  {
    TraceKeepsOk(actions, states, i);
    assert StageOk(states[i], p) && StageOk(states[i], q);
  }

  // -------------------------------------------------------------- the services, run alone

  datatype SetupError = InvalidToken | SetupCompleted | SetupRequired

  /** A step that cannot be taken is not taken. */
  function Attempt(s: Install, a: Action): Install {
    if Enabled(s, a) then After(s, a) else s
  }

  class Instance {
    var setup: Option<SetupRow>
    var users: map<Id, User>

    /** These tables with no call under way. */
    ghost function Quiet(): Install
      reads this
    {
      Install(setup, users, map[], None, None, if setup.Some? && setup.value.completedBy.Some? then 1 else 0)
    }

    ghost predicate Shows(s: Install)
      reads this
    {
      setup == s.setup && users == s.users
    }

    constructor ()
      ensures Quiet() == EMPTY_INSTALL
    {
      setup, users := None, map[];
    }

    predicate IsLocked()
      reads this
      ensures IsLocked() == Completed(Quiet())
    {
      setup.Some? && setup.value.completedBy.Some?
    }

    /** SetupRepo.Upsert: the update half only touches an unfinished row. */
    method Upsert(hash: Digest)
      modifies this`setup
      ensures setup == if old(IsLocked()) then old(setup) else Some(SetupRow(hash, None))
    {
      if setup.None? {
        setup := Some(SetupRow(hash, None));
      } else if setup.value.completedBy.None? {
        setup := Some(setup.value.(hash := hash));
      }
    }

    /** SetupRepo.Complete. */
    method Complete(user: Id)
      modifies this`setup
      ensures setup == if old(setup).Some? && old(setup).value.completedBy.None?
                       then Some(old(setup).value.(completedBy := Some(user))) else old(setup)
    {
      if setup.Some? && setup.value.completedBy.None? {
        setup := Some(setup.value.(completedBy := Some(user)));
      }
    }

    /** A boot: the minted token, or nothing once the ceremony is over. */
    method EnsureToken(minted: Token) returns (token: Option<Token>)
      modifies this`setup
      ensures Shows(Attempt(Attempt(old(Quiet()), ReadForBoot(0)), RotateToken(0, minted)))
      ensures token == if old(setup).Some? && old(setup).value.completedBy.Some? then None else Some(minted)
      ensures setup == if token.Some? then Some(SetupRow(Digest(token.value), None)) else old(setup)
    {
      if IsLocked() {
        return None;
      }
      Upsert(Digest(minted));
      token := Some(minted);
    }

    method RegisterTx(user: Id) returns (role: Role)
      requires user !in users
      modifies this`users
      ensures role == (if SomeActive(old(users)) then Member else Admin)
      ensures users == old(users)[user := User(role, true)]
    {
      role := if SomeActive(users) then Member else Admin;
      users := users[user := User(role, true)];
    }

    /** Register: closed until the ceremony is over. */
    method Register(user: Id) returns (r: Result<Role, SetupError>)
      requires user !in users
      modifies this
      ensures Shows(Attempt(Attempt(Attempt(old(Quiet()), PassGate(0)), CountForRegister(0, user)), CommitRegister(0)))
      ensures r.Ok? <==> old(setup).Some? && old(setup).value.completedBy.Some?
      ensures r.Ok? ==> users == old(users)[user := User(r.value, true)]
      ensures r.Ok? ==> (r.value == Admin <==> forall u :: u in old(users) ==> !old(users)[u].active)
      ensures setup == old(setup) && (r.Err? ==> users == old(users))
    {
      if !IsLocked() {
        return Err(SetupRequired);
      }
      var role := RegisterTx(user);
      r := Ok(role);
    }

    /** The ceremony in one transaction. */
    method CompleteWithToken(supplied: Token, user: Id) returns (r: Result<Role, SetupError>)
      requires user !in users
      modifies this
      ensures Shows(Attempt(Attempt(Attempt(old(Quiet()), LockRow(0, supplied)), CountForSetup(0, user)), CommitSetup(0)))
      ensures r.Err? ==>
        r.error == if old(setup).Some? && old(setup).value.completedBy.Some? then SetupCompleted else InvalidToken
      ensures r.Ok? <==> old(setup) == Some(SetupRow(Digest(supplied), None))
      ensures r.Ok? ==> setup == Some(SetupRow(Digest(supplied), Some(user)))
      ensures r.Ok? ==> users == old(users)[user := User(r.value, true)]
      ensures r.Ok? ==> (r.value == Admin <==> forall u :: u in old(users) ==> !old(users)[u].active)
      ensures r.Err? ==> setup == old(setup) && users == old(users)
    {
      if setup.None? {
        return Err(InvalidToken);
      }
      if setup.value.completedBy.Some? {
        return Err(SetupCompleted);
      }
      if setup.value.hash != Digest(supplied) {
        return Err(InvalidToken);
      }
      var role := RegisterTx(user);
      Complete(user);
      r := Ok(role);
    }
  }
}
