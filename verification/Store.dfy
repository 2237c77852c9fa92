/** The services and repositories as the program runs them, over mutable tables. */
module Store {
  import opened Core
  import opened Sorting
  import opened Int64
  import opened Splits
  import opened Rescale
  import opened Expenses
  import opened Tables
  import opened Balances
  import opened Ledger
  import opened Invariants

  /** The answer and the tables are what the call's specification says. */
  ghost predicate Follows(before: State, after: State, r: Result<(), ServiceError>, spec: Next) {
    match spec
    case Ok(next) => r == Ok(()) && after == next
    case Err(e) => r == Err(e) && after == before
  }

  class Database {
    var users: set<Id>
    var groups: map<Id, Group>
    var expenses: map<Id, Expense>
    var settlements: map<Id, Settlement>
    var revisions: map<Id, seq<Revision>>
    ghost var created: map<Id, Expense>
    ghost var defaulted: set<Id>

    ghost function View(): State
      reads this
    {
      State(users, groups, expenses, settlements, revisions, created, defaulted)
    }

    constructor ()
      ensures View() == EMPTY
    {
      users, groups, expenses, settlements, revisions := {}, map[], map[], map[], map[];
      created, defaulted := map[], {};
    }

    /** The INSERT of a user row. */
    method Register(user: Id)
      modifies this`users
      ensures View() == old(View()).(users := old(users) + {user})
    {
      users := users + {user};
    }

    predicate Member(group: Id, user: Id)
      reads this
      ensures Member(group, user) == IsMember(View(), group, user)
    {
      group in groups && user in groups[group].members
    }

    /** The loop that checks every split user's membership. */
    method MembersOnly(group: Id, splits: seq<SplitInput>) returns (ok: bool)
      ensures ok == AllMembers(View(), group, splits)
    {
      for i := 0 to |splits|
        invariant forall k :: 0 <= k < i ==> IsMember(View(), group, splits[k].user)
      {
        if !Member(group, splits[i].user) {
          return false;
        }
      }
      ok := true;
    }

    // ------------------------------------------------------------------------- expenses

    /** The foreign key of the splits table, row by row. */
    method UsersExist(rows: seq<Split>) returns (ok: bool)
      ensures ok <==> forall i :: 0 <= i < |rows| ==> rows[i].user in users
    {
      for i := 0 to |rows|
        invariant forall k :: 0 <= k < i ==> rows[k].user in users
      {
        if rows[i].user !in users {
          return false;
        }
      }
      ok := true;
    }

    /** The INSERTs of CreateWithSplits: one transaction, all rows or none. */
    method CreateWithSplits(id: Id, e: Expense) returns (r: Result<(), ServiceError>)
      modifies this
      ensures Follows(old(View()), View(), r, InsertExpense(old(View()), id, e))
    {
      if id in expenses || e.group !in groups || e.createdBy !in users || e.payer !in users || e.amount <= 0 {
        return Err(Violation);
      }
      var known := UsersExist(e.splits);
      var rows := InsertRows(e.splits);
      if !known || rows.None? {
        return Err(Violation);
      }
      var stored := e.(splits := rows.value);
      expenses := expenses[id := stored];
      revisions := revisions[id := []];
      created := created[id := stored];
      r := Ok(());
    }

    /** ExpenseService.Create. */
    method CreateExpense(actor: Id, id: Id, input: ExpenseInput) returns (r: Result<(), ServiceError>)
      requires IsInt64(input.amount)
      modifies this
      ensures Follows(old(View()), View(), r, Ledger.CreateExpense(old(View()), actor, id, input))
    {
      if !Member(input.group, actor) {
        return Err(NotMember);
      }
      if input.amount <= 0 {
        return Err(BadAmount);
      }
      if input.description == "" {
        return Err(DescriptionRequired);
      }
      var currency := input.currency;
      if currency == "" {
        currency := groups[input.group].currency;
      }
      if !Member(input.group, input.payer) {
        return Err(PayerNotMember);
      }
      var ok := MembersOnly(input.group, input.splits);
      if !ok {
        return Err(SplitNotMember);
      }
      var shares := ResolveSplits(input.mode, input.amount, input.splits);
      match shares
      case Panicked => return Err(Crashed);
      case Returned(Err(why)) => return Err(Invalid(why));
      case Returned(Ok(splits)) =>
        r := CreateWithSplits(id, NewExpense(input, actor, currency, splits));
        if r.Ok? && input.currency == "" {
          defaulted := defaulted + {id};
        }
    }

    /** ExpenseRepo.Update: compare field by field, collect revision rows, write. */
    method UpdateRow(id: Id, edit: Edit) returns (r: Result<(), RepoError>)
      requires id in expenses ==> Constrained(expenses[id])
      modifies this`expenses, this`revisions
      ensures id !in old(expenses) ==> r == Err(NotFound)
      ensures id in old(expenses) ==>
        match EditExpense(old(expenses[id]), edit)
        case Ok((e, rows)) =>
          && r == Ok(())
          && expenses == old(expenses)[id := e]
          && revisions == (if rows == [] then old(revisions) else old(revisions)[id := Log(old(revisions), id) + rows])
        case Err(e) => r == Err(e)
      ensures r.Err? ==> expenses == old(expenses) && revisions == old(revisions)
    {
      if id !in expenses || expenses[id].deleted {
        return Err(NotFound);
      }
      ghost var e0 := expenses[id];
      var e, rows := PlainChanges(expenses[id], edit);
      var moneyRows, write, replace := MoneyChanges(e, edit, e0);
      rows := rows + moneyRows;
      e := e.(amount := edit.amount.GetOr(e.amount));
      RowsInOrder(e0, edit);
      assert rows == RevisionsOf(e0, edit);
      if |rows| == 0 {
        return Ok(());
      }
      var stored := WriteSplits(e.splits, write, replace);
      StoredSplits(e0, edit, write, replace, stored);
      if e.amount <= 0 || stored.None? {
        return Err(ConstraintViolation);
      }
      expenses := expenses[id := e.(splits := stored.value)];
      revisions := revisions[id := Log(revisions, id) + rows];
      r := Ok(());
    }

    /** The part of an update that turns mode and splits into shares for the amount to be. */
    method ResolvedFor(e: Expense, p: ExpensePatch) returns (r: Result<Option<seq<Split>>, ServiceError>)
      requires p.mode.Some? == p.splits.Some?
      requires IsInt64(e.amount) && (p.amount.Some? ==> IsInt64(p.amount.value))
      ensures p.splits.Some? && !AllMembers(View(), e.group, p.splits.value) ==> r == Err(SplitNotMember)
      ensures p.splits.Some? && AllMembers(View(), e.group, p.splits.value) ==> r == ResolvePatch(e, p)
      ensures p.splits.None? ==> r == Ok(None)
    {
      if p.mode.None? {
        return Ok(None);
      }
      var ok := MembersOnly(e.group, p.splits.value);
      if !ok {
        return Err(SplitNotMember);
      }
      var amount := p.amount.GetOr(e.amount);
      var shares := ResolveSplits(p.mode.value, amount, p.splits.value);
      match shares
      case Panicked => r := Err(Crashed);
      case Returned(Err(why)) => r := Err(Invalid(why));
      case Returned(Ok(splits)) => r := Ok(Some(splits));
    }

    /** ExpenseService.Update. */
    method UpdateExpense(actor: Id, id: Id, p: ExpensePatch) returns (r: Result<(), ServiceError>)
      requires TablesOk(View())
      requires p.amount.Some? ==> IsInt64(p.amount.value)
      requires id in expenses ==> IsInt64(expenses[id].amount)
      modifies this`expenses, this`revisions
      ensures Follows(old(View()), View(), r, Ledger.UpdateExpense(old(View()), actor, id, p))
    {
      if p == NO_PATCH {
        return Err(NothingToUpdate);
      }
      if p.amount.Some? && p.amount.value <= 0 {
        return Err(BadAmount);
      }
      if p.description.Some? && p.description.value == "" {
        return Err(DescriptionRequired);
      }
      if p.mode.Some? != p.splits.Some? {
        return Err(ModeWithoutSplits);
      }
      if id !in expenses || expenses[id].deleted {
        return Err(Missing);
      }
      assert RowOk(View(), id);
      var existing := expenses[id];
      if !Member(existing.group, actor) {
        return Err(NotMember);
      }
      if p.payer.Some? && !Member(existing.group, p.payer.value) {
        return Err(PayerNotMember);
      }
      var resolved := ResolvedFor(existing, p);
      if resolved.Err? {
        return Err(resolved.error);
      }
      var answer := UpdateRow(id, EditOf(p, resolved.value));
      match answer {
        case Err(NotFound) => r := Err(Missing);
        case Err(ConstraintViolation) => r := Err(Violation);
        case Ok(_) =>
          r := Ok(());
          NoRowsNoChange(old(revisions), id);
      }
    }

    /** ExpenseService.Delete and ExpenseRepo.SoftDelete. */
    method DeleteExpense(actor: Id, id: Id) returns (r: Result<(), ServiceError>)
      modifies this`expenses
      ensures Follows(old(View()), View(), r, Ledger.DeleteExpense(old(View()), actor, id))
    {
      if id !in expenses || expenses[id].deleted {
        return Err(Missing);
      }
      if !Member(expenses[id].group, actor) {
        return Err(NotMember);
      }
      expenses := expenses[id := expenses[id].(deleted := true)];
      r := Ok(());
    }

    // ---------------------------------------------------------------------- settlements

    /** SettlementService.Create. */
    method CreateSettlement(actor: Id, id: Id, input: SettlementInput) returns (r: Result<(), ServiceError>)
      modifies this`settlements
      ensures Follows(old(View()), View(), r, Ledger.CreateSettlement(old(View()), actor, id, input))
    {
      if input.amount <= 0 {
        return Err(BadAmount);
      }
      if input.from == input.to {
        return Err(SameParties);
      }
      if actor != input.from {
        return Err(Forbidden);
      }
      var parties := [input.from, input.to];
      for i := 0 to |parties|
        invariant forall k :: 0 <= k < i ==> IsMember(View(), input.group, parties[k])
      {
        if !Member(input.group, parties[i]) {
          return Err(NotMember);
        }
      }
      assert IsMember(View(), input.group, parties[0]) && IsMember(View(), input.group, parties[1]);
      if id in settlements {
        return Err(Violation);
      }
      settlements := settlements[id := Settlement(input.group, input.from, input.to, input.amount,
                                                  input.note, input.settledAt, false)];
      r := Ok(());
    }

    /** SettlementService.Delete. */
    method DeleteSettlement(actor: Id, id: Id) returns (r: Result<(), ServiceError>)
      modifies this`settlements
      ensures Follows(old(View()), View(), r, Ledger.DeleteSettlement(old(View()), actor, id))
    {
      if id !in settlements || settlements[id].deleted {
        return Err(Missing);
      }
      if !Member(settlements[id].group, actor) {
        return Err(NotMember);
      }
      settlements := settlements[id := settlements[id].(deleted := true)];
      r := Ok(());
    }

    // --------------------------------------------------------------------------- groups

    /** What Tick does for one due template, in a transaction of its own. */
    method Materialize(id: Id, t: Template, at: int) returns (r: Result<(), ServiceError>)
      requires IsInt64(t.amount)
      modifies this
      ensures Follows(old(View()), View(), r, Ledger.Materialize(old(View()), id, t, at))
    {
      var shares := ResolveSplits(t.mode, t.amount, t.splits);
      match shares
      case Panicked => return Err(Crashed);
      case Returned(Err(why)) => return Err(Invalid(why));
      case Returned(Ok(splits)) =>
        r := CreateWithSplits(id, Expense(t.group, t.payer, t.payer, t.category, t.amount, t.currency,
                                          t.description, at, splits, false));
    }

    /** GroupService.Create: the group row, then its creator's membership row. */
    method CreateGroup(id: Id, name: string, currency: string, creator: Id) returns (r: Result<(), ServiceError>)
      modifies this`groups
      ensures Follows(old(View()), View(), r, Ledger.CreateGroup(old(View()), id, name, currency, creator))
    {
      if name == "" {
        return Err(NameRequired);
      }
      var normal := NormalizeCurrency(currency);
      if normal.Err? {
        return Err(normal.error);
      }
      var cur := normal.value;
      if cur == "" {
        cur := DEFAULT_CURRENCY;
      }
      if id in groups || creator !in users {
        return Err(Violation);
      }
      ghost var before := groups;
      var g := Group(name, cur, creator, {}, None);
      groups := groups[id := g];
      g := g.(members := g.members + {creator});
      assert g.members == {creator};
      groups := groups[id := g];
      assert groups == before[id := g];
      r := Ok(());
    }

    /** GroupService.Delete: one DELETE, which cascades to every row of the group. */
    method DeleteGroup(group: Id, actor: Id) returns (r: Result<(), ServiceError>)
      modifies this
      ensures Follows(old(View()), View(), r, Ledger.DeleteGroup(old(View()), group, actor))
    {
      if group !in groups {
        return Err(Missing);
      }
      if groups[group].owner != actor {
        return Err(NotCreator);
      }
      groups := groups - {group};
      expenses := map id | id in expenses && expenses[id].group != group :: expenses[id];
      settlements := map id | id in settlements && settlements[id].group != group :: settlements[id];
      revisions := map id | id in revisions && id in expenses :: revisions[id];
      created := map id | id in created && id in expenses :: created[id];
      defaulted := set id | id in defaulted && id in expenses;
      r := Ok(());
    }

    /** GroupService.Update. */
    method UpdateGroup(group: Id, actor: Id, p: GroupPatch) returns (r: Result<(), ServiceError>)
      modifies this`groups
      ensures Follows(old(View()), View(), r, Ledger.UpdateGroup(old(View()), group, actor, p))
    {
      if !Member(group, actor) {
        return Err(NotMember);
      }
      if p == NO_GROUP_PATCH {
        return Err(NothingToUpdate);
      }
      if p.name == Some("") {
        return Err(NameRequired);
      }
      var g := groups[group];
      if p.currency.Some? {
        var cur := NormalizeCurrency(p.currency.value);
        if cur.Err? {
          return Err(cur.error);
        }
        if cur.value == "" {
          return Err(BadCurrency);
        }
        if cur.value != g.currency && HasActivity(State(users, groups, expenses, settlements, map[], map[], {}), group) {
          return Err(CurrencyLocked);
        }
        g := g.(currency := cur.value);
      }
      if p.defaultSplit.Some? {
        if |p.defaultSplit.value| > 0 {
          var ok := ValidateDefaultSplit(p.defaultSplit.value, g.members);
          if |g.members| != 2 || !ok {
            return Err(BadDefaultSplit);
          }
          g := g.(defaultSplit := p.defaultSplit);
        } else {
          g := g.(defaultSplit := None);
        }
      }
      if p.owner.Some? {
        if actor != g.owner {
          return Err(NotCreator);
        }
        if p.owner.value !in g.members {
          return Err(NewOwnerNotMember);
        }
        g := g.(owner := p.owner.value);
      }
      groups := groups[group := g.(name := p.name.GetOr(g.name))];
      r := Ok(());
    }

    /** GroupService.AddMember, for an invitee already looked up. */
    method AddMember(group: Id, actor: Id, invitee: Option<Id>) returns (r: Result<(), ServiceError>)
      modifies this`groups
      ensures Follows(old(View()), View(), r, Ledger.AddMember(old(View()), group, actor, invitee))
    {
      if !Member(group, actor) {
        return Err(NotMember);
      }
      if invitee.None? || invitee.value !in users {
        return Err(InviteeNotFound);
      }
      groups := groups[group := groups[group].(members := groups[group].members + {invitee.value})];
      if |groups[group].members| > 2 {
        groups := groups[group := groups[group].(defaultSplit := None)];
      }
      r := Ok(());
    }

    /** GroupService.RemoveMember; net is the balance query's answer for the target. */
    method RemoveMember(group: Id, actor: Id, target: Id, net: int) returns (r: Result<(), ServiceError>)
      requires net == NetForUser(View(), group, target)
      modifies this`groups
      ensures Follows(old(View()), View(), r, Ledger.RemoveMember(old(View()), group, actor, target))
    {
      if group !in groups {
        return Err(Missing);
      }
      if !Member(group, actor) {
        return Err(NotMember);
      }
      if !Member(group, target) {
        return Err(Missing);
      }
      if actor != groups[group].owner && actor != target {
        return Err(NotCreator);
      }
      if target == groups[group].owner {
        return Err(CannotRemoveCreator);
      }
      if actor != target && net != 0 {
        return Err(BalanceNotZero);
      }
      groups := groups[group := groups[group].(members := groups[group].members - {target})];
      if |groups[group].members| < 2 {
        groups := groups[group := groups[group].(defaultSplit := None)];
      }
      r := Ok(());
    }
  }

  lemma NoRowsNoChange(revisions: map<Id, seq<Revision>>, id: Id)
    ensures Log(revisions, id) + [] == Log(revisions, id)
    ensures id in revisions ==> revisions[id := Log(revisions, id)] == revisions
  {
  }

  /** validateDefaultSplit: walk the two entries, remembering who was seen and the sum. */
  method ValidateDefaultSplit(split: seq<SplitEntry>, members: set<Id>) returns (ok: bool)
    ensures ok == DefaultSplitOk(split, members)
  {
    if |split| != 2 {
      return false;
    }
    var seen: set<Id>, sum := {}, 0;
    ghost var bps := BasisPoints(split);
    for i := 0 to |split|
      invariant seen == set k | 0 <= k < i :: split[k].user
      invariant sum == Sum(bps[..i])
      invariant forall k :: 0 <= k < i ==> split[k].user in members && 0 <= split[k].basisPoints <= WHOLE
      invariant i == 2 ==> split[0].user != split[1].user
    {
      if split[i].user !in members || split[i].user in seen {
        assert i == 1 && split[1].user in seen ==> split[1].user == split[0].user;
        return false;
      }
      if split[i].basisPoints < 0 || split[i].basisPoints > WHOLE {
        return false;
      }
      SumPrefix(bps, i);
      seen := seen + {split[i].user};
      sum := sum + split[i].basisPoints;
    }
    assert bps[..2] == bps;
    ok := sum == WHOLE;
  }

  lemma RowsInOrder(e: Expense, edit: Edit)
    ensures RevisionsOf(e, edit) ==
      (DescriptionRows(e, edit) + CategoryRows(e, edit) + PayerRows(e, edit) + IncurredAtRows(e, edit))
      + (SplitsRows(e, edit) + AmountRows(e, edit))
  {
  }

  /** The fields compared as they are, with a revision row for each real change. */
  method FieldChanges(before: Expense, edit: Edit) returns (e: Expense, rows: seq<Revision>)
    ensures rows == DescriptionRows(before, edit) + CategoryRows(before, edit) + PayerRows(before, edit)
    ensures e == before.(description := edit.description.GetOr(before.description),
                         category := edit.category.GetOr(before.category),
                         payer := edit.payer.GetOr(before.payer))
  {
    e, rows := before, [];
    if edit.description.Some? && edit.description.value != e.description {
      rows := rows + [DescriptionRow(e.description, edit.description.value)];
      e := e.(description := edit.description.value);
    }
    if edit.category.Some? && edit.category.value != e.category {
      rows := rows + [CategoryRow(e.category, edit.category.value)];
      e := e.(category := edit.category.value);
    }
    if edit.payer.Some? && edit.payer.value != e.payer {
      rows := rows + [PayerRow(e.payer, edit.payer.value)];
      e := e.(payer := edit.payer.value);
    }
  }

  /** The four fields that are simply replaced; the date only when its second changes. */
  method PlainChanges(before: Expense, edit: Edit) returns (e: Expense, rows: seq<Revision>)
    ensures rows == DescriptionRows(before, edit) + CategoryRows(before, edit) + PayerRows(before, edit)
                    + IncurredAtRows(before, edit)
    ensures e == Edited(before, edit).(amount := before.amount, splits := before.splits)
  {
    e, rows := FieldChanges(before, edit);
    if edit.incurredAt.Some? && edit.incurredAt.value != e.incurredAt {
      var oldSecond, newSecond := Second(e.incurredAt), Second(edit.incurredAt.value);
      if oldSecond != newSecond {
        rows := rows + [IncurredAtRow(oldSecond, newSecond)];
        e := e.(incurredAt := edit.incurredAt.value);
      }
    }
  }

  function Log(revisions: map<Id, seq<Revision>>, id: Id): seq<Revision> {
    if id in revisions then revisions[id] else []
  }

  /** INSERT INTO splits, row by row; None on a repeated user or a negative share. */
  method InsertRows(rows: seq<Split>) returns (stored: Option<seq<Split>>)
    ensures stored == if DistinctUsers(rows) && NonNegativeRows(rows) then Some(InUserOrder(rows)) else None
  {
    var users: set<Id>, table := {}, [];
    for i := 0 to |rows|
      invariant users == set k | 0 <= k < i :: rows[k].user
      invariant DistinctUsers(rows[..i]) && NonNegativeRows(rows[..i])
      invariant table == InUserOrder(rows[..i])
    {
      if rows[i].user in users || rows[i].cents < 0 {
        return None;
      }
      assert rows[..i + 1][..i] == rows[..i];
      users := users + {rows[i].user};
      table := Insert(table, rows[i], ByUser());
    }
    assert rows[..|rows|] == rows;
    stored := Some(table);
  }

  /** The splits and amount part of an update: the revision rows, the splits to write if any,
      and whether they replace the stored rows or update them in place. */
  method MoneyChanges(e: Expense, edit: Edit, ghost e0: Expense)
    returns (rows: seq<Revision>, write: Option<seq<Split>>, replace: bool)
    requires e.splits == e0.splits && e.amount == e0.amount
    ensures rows == SplitsRows(e0, edit) + AmountRows(e0, edit)
    ensures replace == SplitsChange(e0, edit) && (replace ==> write.Some?)
    ensures write.Some? && !replace ==>
      |write.value| == |e0.splits| && forall i :: 0 <= i < |e0.splits| ==> write.value[i].user == e0.splits[i].user
    ensures write.GetOr(e0.splits) == NewSplits(e0, edit)
  {
    rows, write, replace := [], None, false;
    if edit.splits.Some? {
      var same := CompareSplits(e.splits, edit.splits.value);
      replace := !same;
      if replace {
        rows := [SplitsRow(InUserOrder(e.splits), InUserOrder(edit.splits.value))];
        write := edit.splits;
      }
    }
    if edit.amount.Some? && edit.amount.value != e.amount {
      rows := rows + [AmountRow(e.amount, edit.amount.value)];
      if write.None? {
        var rescaled := RescaleSplits(e.splits, e.amount, edit.amount.value);
        var same := CompareSplits(e.splits, rescaled);
        if !same {
          write := Some(rescaled);
        }
      }
    }
  }

  function SetShare(table: seq<Split>, row: Split): (r: seq<Split>)
    ensures |r| == |table|
  {
    seq(|table|, i requires 0 <= i < |table| => if table[i].user == row.user then row else table[i])
  }

  /** Either DELETE and INSERT, or UPDATE row by row, or nothing. */
  method WriteSplits(existing: seq<Split>, write: Option<seq<Split>>, replace: bool) returns (stored: Option<seq<Split>>)
    requires InKeyOrder(existing) && (replace ==> write.Some?)
    requires write.Some? && !replace ==>
      |write.value| == |existing| && forall i :: 0 <= i < |existing| ==> write.value[i].user == existing[i].user
    ensures replace ==>
      stored == if DistinctUsers(write.value) && NonNegativeRows(write.value) then Some(InUserOrder(write.value)) else None
    ensures !replace && write.Some? ==> stored == if NonNegativeRows(write.value) then write else None
    ensures !replace && write.None? ==> stored == Some(existing)
  {
    if replace {
      stored := InsertRows(write.value);
      return;
    }
    var table := existing;
    if write.Some? {
      var rows := write.value;
      for i := 0 to |rows|
        invariant |table| == |existing| && NonNegativeRows(rows[..i])
        invariant forall k :: 0 <= k < |table| ==> table[k] == if k < i then rows[k] else existing[k]
      {
        if rows[i].cents < 0 {
          return None;
        }
        table := SetShare(table, rows[i]);
      }
      assert table == rows && rows[..|rows|] == rows;
    }
    stored := Some(table);
  }

  predicate NonNegativeRows(rows: seq<Split>) {
    forall i :: 0 <= i < |rows| ==> rows[i].cents >= 0
  }

  /** What was written is what the edit's specification stores. */
  lemma StoredSplits(e: Expense, edit: Edit, write: Option<seq<Split>>, replace: bool, stored: Option<seq<Split>>)
    requires Constrained(e) && replace == SplitsChange(e, edit) && (replace ==> write.Some?)
    requires write.GetOr(e.splits) == NewSplits(e, edit)
    requires replace ==>
      stored == if DistinctUsers(write.value) && NonNegativeRows(write.value) then Some(InUserOrder(write.value)) else None
    requires !replace && write.Some? ==> stored == if NonNegativeRows(write.value) then write else None
    requires !replace && write.None? ==> stored == Some(e.splits)
    ensures edit.amount.GetOr(e.amount) > 0 ==> (stored.Some? <==> Storable(edit.amount.GetOr(e.amount), NewSplits(e, edit)))
    ensures stored.Some? ==> stored.value == InUserOrder(NewSplits(e, edit))
  {
    KeyOrderDistinct(e.splits);
    InUserOrderIdentity(e.splits);
    forall i | 0 <= i < |e.splits| ensures e.splits[i].cents >= 0 {
      assert Cents(e.splits)[i] >= 0;
    }
    if !replace && write.Some? {
      var rows := write.value;
      assert rows == e.splits || rows == Rescaled64(e.splits, e.amount, edit.amount.value);
      assert InKeyOrder(rows);
      KeyOrderDistinct(rows);
      InUserOrderIdentity(rows);
    }
  }
}
