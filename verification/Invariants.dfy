/** What every reachable ledger satisfies, and what single calls leave alone. */
module Invariants {
  import opened Core
  import opened Apportion
  import opened Int64
  import opened Splits
  import opened Expenses
  import opened Tables
  import opened Balances
  import opened Ledger

  // ----------------------------------------------------- what holds whatever the numbers are

  ghost predicate RowOk(s: State, id: Id)
    requires id in s.expenses
  {
    Constrained(s.expenses[id]) && s.expenses[id].group in s.groups && id in s.revisions && id in s.created
  }

  ghost predicate SettlementOk(s: State, id: Id)
    requires id in s.settlements
  {
    var t := s.settlements[id];
    t.amount > 0 && t.from != t.to && t.group in s.groups
  }

  ghost predicate DefaultSplitFits(g: Group) {
    g.defaultSplit.Some? ==>
      && DefaultSplitOk(g.defaultSplit.value, g.members)
      && g.members == {g.defaultSplit.value[0].user, g.defaultSplit.value[1].user}
  }

  ghost predicate GroupOk(g: Group, users: set<Id>) {
    g.owner in g.members && g.members <= users && DefaultSplitFits(g)
  }

  /** An expense whose currency was left out carries its group's present currency. */
  ghost predicate CurrencyOk(s: State, id: Id)
    requires id in s.expenses
  {
    var e := s.expenses[id];
    id in s.defaulted && !e.deleted ==> e.group in s.groups && e.currency == s.groups[e.group].currency
  }

  ghost predicate TablesOk(s: State) {
    && (forall id :: id in s.expenses ==> RowOk(s, id) && CurrencyOk(s, id))
    && (forall id :: id in s.settlements ==> SettlementOk(s, id))
    && (forall g :: g in s.groups ==> GroupOk(s.groups[g], s.users))
    && s.defaulted <= s.expenses.Keys
  }

  lemma TwoMembers(members: set<Id>, a: Id, b: Id)
    requires |members| == 2 && a in members && b in members && a != b
    ensures members == {a, b}
  {
    assert |members - {a, b}| == 0 by {
      assert |members - {a}| == 1;
      assert members - {a} - {b} == members - {a, b};
    }
  }

  /** An expense call touches one expense, which it leaves in order. */
  lemma OneRow(s: State, s': State, id: Id)
    requires TablesOk(s) && s'.users == s.users && s'.groups == s.groups && s'.settlements == s.settlements
    requires s'.expenses.Keys == s.expenses.Keys + {id} && s'.defaulted <= s'.expenses.Keys
    requires forall k :: k in s.expenses && k != id ==> s'.expenses[k] == s.expenses[k]
    requires forall k :: k in s.expenses && k != id ==> (k in s'.defaulted <==> k in s.defaulted)
    requires s.revisions.Keys <= s'.revisions.Keys && s.created.Keys <= s'.created.Keys
    requires RowOk(s', id) && CurrencyOk(s', id)
    ensures TablesOk(s')
  {
    forall k | k in s'.expenses ensures RowOk(s', k) && CurrencyOk(s', k) {
      if k != id {
        assert RowOk(s, k) && CurrencyOk(s, k);
      }
    }
    forall k | k in s'.settlements ensures SettlementOk(s', k) {
      assert SettlementOk(s, k);
    }
  }

  lemma InsertedRow(s: State, id: Id, e: Expense)
    requires TablesOk(s) && InsertExpense(s, id, e).Ok?
    ensures var s' := InsertExpense(s, id, e).value;
      Constrained(s'.expenses[id]) && s'.expenses[id] == e.(splits := InUserOrder(e.splits))
  {
    InUserOrderFacts(e.splits);
    NonNegativeInUserOrder(e.splits);
  }

  /** An accepted call inserts one expense, and perhaps marks it as created without a currency. */
  lemma InsertKeepsTables(s: State, s': State, id: Id, e: Expense)
    requires TablesOk(s) && InsertExpense(s, id, e).Ok? && !e.deleted
    requires s' == InsertExpense(s, id, e).value.(defaulted := s'.defaulted)
    requires s'.defaulted == s.defaulted
             || (s'.defaulted == s.defaulted + {id} && e.currency == s.groups[e.group].currency)
    ensures TablesOk(s')
  {
    InsertedRow(s, id, e);
    OneRow(s, s', id);
  }

  /** The expense an accepted create inserts. */
  lemma CreatedExpense(s: State, actor: Id, id: Id, input: ExpenseInput) returns (e: Expense)
    requires CreateExpense(s, actor, id, input).Ok?
    ensures InsertExpense(s, id, e).Ok? && !e.deleted && e.amount == input.amount
    ensures var s' := CreateExpense(s, actor, id, input).value;
      && s' == InsertExpense(s, id, e).value.(defaulted := s'.defaulted)
      && (s'.defaulted == s.defaulted
          || (s'.defaulted == s.defaulted + {id} && e.currency == s.groups[e.group].currency))
    ensures Resolve64(input.mode, input.amount, input.splits) == Returned(Ok(e.splits))
  {
    var currency := if input.currency == "" then s.groups[input.group].currency else input.currency;
    e := NewExpense(input, actor, currency, Resolve64(input.mode, input.amount, input.splits).resolution.value);
  }

  lemma CreateKeepsTables(s: State, actor: Id, id: Id, input: ExpenseInput)
    requires TablesOk(s) && CreateExpense(s, actor, id, input).Ok?
    ensures TablesOk(CreateExpense(s, actor, id, input).value)
  {
    var e := CreatedExpense(s, actor, id, input);
    InsertKeepsTables(s, CreateExpense(s, actor, id, input).value, id, e);
  }

  lemma MaterializedExpense(s: State, id: Id, t: Template, at: int) returns (e: Expense)
    requires Materialize(s, id, t, at).Ok?
    ensures InsertExpense(s, id, e) == Materialize(s, id, t, at) && !e.deleted && e.amount == t.amount
    ensures Resolve64(t.mode, t.amount, t.splits) == Returned(Ok(e.splits))
  {
    var shares := Resolve64(t.mode, t.amount, t.splits).resolution.value;
    e := Expense(t.group, t.payer, t.payer, t.category, t.amount, t.currency, t.description, at, shares, false);
  }

  lemma MaterializeKeepsTables(s: State, id: Id, t: Template, at: int)
    requires TablesOk(s) && Materialize(s, id, t, at).Ok?
    ensures TablesOk(Materialize(s, id, t, at).value)
  {
    var e := MaterializedExpense(s, id, t, at);
    InsertKeepsTables(s, Materialize(s, id, t, at).value, id, e);
  }

  lemma EditKeepsConstraints(e: Expense, edit: Edit)
    requires Constrained(e) && EditExpense(e, edit).Ok?
    ensures var e' := EditExpense(e, edit).value.0;
      Constrained(e') && e'.group == e.group && e'.currency == e.currency && e'.deleted == e.deleted
  {
    var splits := NewSplits(e, edit);
    if |RevisionsOf(e, edit)| > 0 {
      InUserOrderFacts(splits);
      NonNegativeInUserOrder(splits);
    }
  }

  lemma UpdateKeepsTables(s: State, actor: Id, id: Id, p: ExpensePatch)
    requires TablesOk(s) && UpdateExpense(s, actor, id, p).Ok?
    ensures TablesOk(UpdateExpense(s, actor, id, p).value)
  {
    assert RowOk(s, id) && CurrencyOk(s, id);
    var resolved := ResolvePatch(s.expenses[id], p).value;
    EditKeepsConstraints(s.expenses[id], EditOf(p, resolved));
    OneRow(s, UpdateExpense(s, actor, id, p).value, id);
  }

  /** Group, settlement and registration calls leave the expense tables as they were. */
  lemma ExpensesCarryOver(s: State, s': State)
    requires TablesOk(s)
    requires s'.expenses == s.expenses && s'.revisions == s.revisions && s'.created == s.created
    requires s'.defaulted == s.defaulted && s.groups.Keys <= s'.groups.Keys
    requires forall g :: g in s'.groups ==> GroupOk(s'.groups[g], s'.users)
    requires forall id :: id in s'.settlements ==> SettlementOk(s', id)
    requires forall g :: g in s.groups && s'.groups[g].currency != s.groups[g].currency ==> !HasActivity(s, g)
    ensures TablesOk(s')
  {
    forall id | id in s'.expenses ensures RowOk(s', id) && CurrencyOk(s', id) {
      assert RowOk(s, id) && CurrencyOk(s, id);
      var e := s.expenses[id];
      if !e.deleted {
        assert LiveExpense(e, e.group);
      }
    }
  }

  lemma SettlementCallsKeepTables(s: State, c: Call)
    requires TablesOk(s) && Answer(s, c).Ok? && (c.CreateSettlementCall? || c.DeleteSettlementCall?)
    ensures TablesOk(Answer(s, c).value)
  {
    var s' := Answer(s, c).value;
    forall id | id in s'.settlements ensures SettlementOk(s', id) {
      if id in s.settlements {
        assert SettlementOk(s, id);
      }
    }
    ExpensesCarryOver(s, s');
  }

  lemma GroupCallKeepsTables(s: State, group: Id, g: Group)
    requires TablesOk(s) && GroupOk(g, s.users)
    requires group in s.groups && g.currency != s.groups[group].currency ==> !HasActivity(s, group)
    ensures TablesOk(s.(groups := s.groups[group := g]))
  {
    var s' := s.(groups := s.groups[group := g]);
    forall id | id in s'.settlements ensures SettlementOk(s', id) {
      assert SettlementOk(s, id);
    }
    ExpensesCarryOver(s, s');
  }

  lemma RegisterKeepsTables(s: State, user: Id)
    requires TablesOk(s)
    ensures TablesOk(s.(users := s.users + {user}))
  {
    var s' := s.(users := s.users + {user});
    forall id | id in s'.settlements ensures SettlementOk(s', id) {
      assert SettlementOk(s, id);
    }
    forall g | g in s'.groups ensures GroupOk(s'.groups[g], s'.users) {
      assert GroupOk(s.groups[g], s.users);
    }
    ExpensesCarryOver(s, s');
  }

  lemma UpdateGroupKeepsTables(s: State, group: Id, actor: Id, p: GroupPatch)
    requires TablesOk(s) && UpdateGroup(s, group, actor, p).Ok?
    ensures TablesOk(UpdateGroup(s, group, actor, p).value)
  {
    var g, g' := s.groups[group], PatchedGroup(s.groups[group], p);
    assert GroupOk(g, s.users);
    if p.defaultSplit.Some? && |p.defaultSplit.value| > 0 {
      TwoMembers(g.members, p.defaultSplit.value[0].user, p.defaultSplit.value[1].user);
    }
    GroupCallKeepsTables(s, group, g');
  }

  lemma MembershipKeepsTables(s: State, group: Id, c: Call)
    requires TablesOk(s) && Answer(s, c).Ok?
    requires c.AddMemberCall? || c.RemoveMemberCall?
    requires c.group == group
    ensures TablesOk(Answer(s, c).value)
  {
    var g := s.groups[group];
    assert GroupOk(g, s.users);
    var g' := Answer(s, c).value.groups[group];
    if g.defaultSplit.Some? {
      var a, b := g.defaultSplit.value[0].user, g.defaultSplit.value[1].user;
      assert g.members == {a, b};
      if c.AddMemberCall? && c.invitee.value !in g.members {
        assert |g.members + {c.invitee.value}| == |g.members| + 1;
      }
      if c.RemoveMemberCall? {
        assert |g.members - {c.target}| == |g.members| - 1;
      }
    }
    GroupCallKeepsTables(s, group, g');
  }

  lemma DeleteGroupKeepsTables(s: State, group: Id, actor: Id)
    requires TablesOk(s) && DeleteGroup(s, group, actor).Ok?
    ensures TablesOk(DeleteGroup(s, group, actor).value)
  {
    var s' := DeleteGroup(s, group, actor).value;
    forall id | id in s'.expenses ensures RowOk(s', id) && CurrencyOk(s', id) {
      assert RowOk(s, id) && CurrencyOk(s, id);
    }
    forall id | id in s'.settlements ensures SettlementOk(s', id) {
      assert SettlementOk(s, id);
    }
  }

  lemma DeleteKeepsTables(s: State, actor: Id, id: Id)
    requires TablesOk(s) && DeleteExpense(s, actor, id).Ok?
    ensures TablesOk(DeleteExpense(s, actor, id).value)
  {
    assert RowOk(s, id);
    OneRow(s, DeleteExpense(s, actor, id).value, id);
  }

  /** Every call, in range or not, keeps the tables consistent. */
  lemma CallKeepsTables(s: State, c: Call)
    requires TablesOk(s)
    ensures TablesOk(After(s, c))
  {
    if Answer(s, c).Ok? {
      var s' := After(s, c);
      match c
      case RegisterCall(user) => RegisterKeepsTables(s, user);
      case CreateExpenseCall(actor, id, input) => CreateKeepsTables(s, actor, id, input);
      case UpdateExpenseCall(actor, id, patch) => UpdateKeepsTables(s, actor, id, patch);
      case DeleteExpenseCall(actor, id) => DeleteKeepsTables(s, actor, id);
      case MaterializeCall(id, template, at) => MaterializeKeepsTables(s, id, template, at);
      case CreateSettlementCall(_, id, _) => SettlementCallsKeepTables(s, c);
      case DeleteSettlementCall(_, id) => SettlementCallsKeepTables(s, c);
      case CreateGroupCall(id, _, _, creator) => GroupCallKeepsTables(s, id, s'.groups[id]);
      case UpdateGroupCall(group, actor, patch) => UpdateGroupKeepsTables(s, group, actor, patch);
      case DeleteGroupCall(group, actor) => DeleteGroupKeepsTables(s, group, actor);
      case AddMemberCall(group, _, _) => MembershipKeepsTables(s, group, c);
      case RemoveMemberCall(group, _, _) => MembershipKeepsTables(s, group, c);
    }
  }

  lemma {:induction false} RunsKeepTables(calls: seq<Call>)
    ensures TablesOk(Run(EMPTY, calls))
  {
    if |calls| > 0 {
      RunsKeepTables(calls[..|calls| - 1]);
      CallKeepsTables(Run(EMPTY, calls[..|calls| - 1]), calls[|calls| - 1]);
    }
  }

  // --------------------------------------------------- what holds as long as the numbers fit

  /** Non-empty, duplicate-free, non-negative splits that add up to a positive amount; and the
      edit history replayed on the created row gives the present row. */
  ghost predicate ExpenseOk(s: State, id: Id)
    requires id in s.expenses
  {
    && ValidExpense(s.expenses[id])
    && id in s.revisions && id in s.created
    && SameRecord(Replay(s.created[id], s.revisions[id]), s.expenses[id])
  }

  ghost predicate LedgerOk(s: State) {
    TablesOk(s) && forall id :: id in s.expenses ==> ExpenseOk(s, id)
  }

  /** Every other expense keeps its row, its revisions and its first values. */
  ghost predicate SameElsewhere(s: State, s': State, id: Id) {
    forall k :: k in s.expenses && k != id ==>
      && k in s'.expenses && s'.expenses[k] == s.expenses[k]
      && k in s.revisions && k in s'.revisions && s'.revisions[k] == s.revisions[k]
      && k in s.created && k in s'.created && s'.created[k] == s.created[k]
  }

  lemma OthersOk(s: State, s': State, id: Id)
    requires LedgerOk(s) && TablesOk(s') && s'.expenses.Keys == s.expenses.Keys + {id}
    requires SameElsewhere(s, s', id) && ExpenseOk(s', id)
    ensures LedgerOk(s')
  {
    forall k | k in s'.expenses ensures ExpenseOk(s', k) {
      if k != id {
        assert ExpenseOk(s, k);
      }
    }
  }

  /** An inserted expense starts with the row it was created as. */
  lemma InsertKeepsOk(s: State, s': State, id: Id, e: Expense)
    requires LedgerOk(s) && TablesOk(s') && InsertExpense(s, id, e).Ok?
    requires s' == InsertExpense(s, id, e).value.(defaulted := s'.defaulted)
    requires e.amount < TWO_63 && |e.splits| > 0 && Sum(Cents(e.splits)) == e.amount
    ensures LedgerOk(s')
  {
    InsertedRow(s, id, e);
    InUserOrderFacts(e.splits);
    InsertElsewhere(s, s', id, e);
    OthersOk(s, s', id);
  }

  lemma InsertElsewhere(s: State, s': State, id: Id, e: Expense)
    requires TablesOk(s) && InsertExpense(s, id, e).Ok?
    requires s' == InsertExpense(s, id, e).value.(defaulted := s'.defaulted)
    ensures SameElsewhere(s, s', id) && s'.expenses.Keys == s.expenses.Keys + {id}
  {
    forall k | k in s.expenses ensures k in s.revisions && k in s.created {
      assert RowOk(s, k);
    }
  }

  lemma CreateExpenseKeepsOk(s: State, actor: Id, id: Id, input: ExpenseInput)
    requires LedgerOk(s) && CreateExpense(s, actor, id, input).Ok?
    requires SumsFit(input.mode, input.amount, input.splits)
    ensures LedgerOk(CreateExpense(s, actor, id, input).value)
  {
    var e := CreatedExpense(s, actor, id, input);
    AcceptedSum(input.mode, input.amount, input.splits, e.splits);
    CreateKeepsTables(s, actor, id, input);
    InsertKeepsOk(s, CreateExpense(s, actor, id, input).value, id, e);
  }

  lemma MaterializeKeepsOk(s: State, id: Id, t: Template, at: int)
    requires LedgerOk(s) && Materialize(s, id, t, at).Ok? && SumsFit(t.mode, t.amount, t.splits)
    ensures LedgerOk(Materialize(s, id, t, at).value)
  {
    var e := MaterializedExpense(s, id, t, at);
    AcceptedSum(t.mode, t.amount, t.splits, e.splits);
    MaterializeKeepsTables(s, id, t, at);
    InsertKeepsOk(s, Materialize(s, id, t, at).value, id, e);
  }

  /** Splits resolved for the amount the row will have, of which none is negative, are proper. */
  lemma PatchIsProper(e: Expense, p: ExpensePatch, resolved: Option<seq<Split>>)
    requires ValidExpense(e) && ResolvePatch(e, p) == Ok(resolved) && PatchSumsFit(e.amount, p)
    requires (p.amount.Some? ==> p.amount.value > 0) && p.mode.Some? == p.splits.Some?
    requires resolved.Some? ==> NonNegative(Cents(resolved.value))
    ensures ProperEdit(e, EditOf(p, resolved))
  {
    if resolved.Some? {
      AcceptedSum(p.mode.value, p.amount.GetOr(e.amount), p.splits.value, resolved.value);
    }
  }

  /** Whatever the program resolves, it names nobody twice. */
  lemma ResolvedDistinct(mode: Mode, amount: int, input: seq<SplitInput>)
    requires Resolve64(mode, amount, input).Returned? && Resolve64(mode, amount, input).resolution.Ok?
    ensures DistinctUsers(Resolve64(mode, amount, input).resolution.value)
  {
  }

  /** What an accepted update edits with. */
  lemma AcceptedIsProper(s: State, actor: Id, id: Id, p: ExpensePatch) returns (edit: Edit)
    requires LedgerOk(s) && UpdateExpense(s, actor, id, p).Ok? && PatchSumsFit(s.expenses[id].amount, p)
    ensures ResolvePatch(s.expenses[id], p).Ok? && edit == EditOf(p, ResolvePatch(s.expenses[id], p).value)
    ensures ProperEdit(s.expenses[id], edit) && EditExpense(s.expenses[id], edit).Ok?
  {
    assert ExpenseOk(s, id);
    var resolved := ResolvePatch(s.expenses[id], p).value;
    edit := EditOf(p, resolved);
    if resolved.Some? {
      ResolvedDistinct(p.mode.value, p.amount.GetOr(s.expenses[id].amount), p.splits.value);
    }
    AcceptedNonNegative(s.expenses[id], edit);
    PatchIsProper(s.expenses[id], p, resolved);
  }

  /** On a ledger in order the table constraints never stop an update in range that passed the
      checks: the only errors left are the ones the service itself reports. */
  lemma UpdateNeverViolates(s: State, actor: Id, id: Id, p: ExpensePatch)
    requires LedgerOk(s) && (id in s.expenses ==> PatchInRange(s.expenses[id], p))
    ensures UpdateExpense(s, actor, id, p).Ok? <==>
      PatchError(s, actor, id, p).None? && ResolvePatch(s.expenses[id], p).Ok?
  {
    if PatchError(s, actor, id, p).None? && ResolvePatch(s.expenses[id], p).Ok? {
      assert ExpenseOk(s, id);
      var e, resolved := s.expenses[id], ResolvePatch(s.expenses[id], p).value;
      if resolved.Some? {
        ResolvedInRange(p.mode.value, p.amount.GetOr(e.amount), p.splits.value);
      }
      PatchIsProper(e, p, resolved);
      EditKeepsValid(e, EditOf(p, resolved));
    }
  }

  lemma ResolvedInRange(mode: Mode, amount: int, input: seq<SplitInput>)
    requires InRange(mode, amount, input) && Resolve64(mode, amount, input).Returned?
    requires Resolve64(mode, amount, input).resolution.Ok?
    ensures SumsFit(mode, amount, input) && NonNegative(Cents(Resolve64(mode, amount, input).resolution.value))
  {
    InRangeAgrees(mode, amount, input);
    ResolvedNonNegative(mode, amount, input);
  }

  lemma UpdatedRowOk(s: State, actor: Id, id: Id, p: ExpensePatch)
    requires LedgerOk(s) && UpdateExpense(s, actor, id, p).Ok? && PatchSumsFit(s.expenses[id].amount, p)
    ensures ExpenseOk(UpdateExpense(s, actor, id, p).value, id)
  {
    assert ExpenseOk(s, id);
    var edit := AcceptedIsProper(s, actor, id, p);
    AcceptedStaysValid(s.expenses[id], edit);
    UpdateByEdit(s, actor, id, p, ResolvePatch(s.expenses[id], p).value);
    EditReplays(Replay(s.created[id], s.revisions[id]), s.expenses[id], edit);
    ReplayConcat(s.created[id], s.revisions[id], EditExpense(s.expenses[id], edit).value.1);
  }

  lemma UpdateElsewhere(s: State, actor: Id, id: Id, p: ExpensePatch)
    requires TablesOk(s) && UpdateExpense(s, actor, id, p).Ok?
    ensures SameElsewhere(s, UpdateExpense(s, actor, id, p).value, id)
    ensures id in s.expenses && UpdateExpense(s, actor, id, p).value.expenses.Keys == s.expenses.Keys
  {
    forall k | k in s.expenses ensures k in s.revisions && k in s.created {
      assert RowOk(s, k);
    }
  }

  lemma UpdateExpenseKeepsOk(s: State, actor: Id, id: Id, p: ExpensePatch)
    requires LedgerOk(s) && UpdateExpense(s, actor, id, p).Ok? && PatchSumsFit(s.expenses[id].amount, p)
    ensures LedgerOk(UpdateExpense(s, actor, id, p).value)
  {
    UpdatedRowOk(s, actor, id, p);
    UpdateKeepsTables(s, actor, id, p);
    UpdateElsewhere(s, actor, id, p);
    OthersOk(s, UpdateExpense(s, actor, id, p).value, id);
  }

  lemma FewerExpensesOk(s: State, s': State)
    requires LedgerOk(s) && TablesOk(s')
    requires forall k :: k in s'.expenses ==> k in s.expenses && s'.expenses[k] == s.expenses[k]
    requires forall k :: k in s'.expenses && k in s.revisions ==> k in s'.revisions && s'.revisions[k] == s.revisions[k]
    requires forall k :: k in s'.expenses && k in s.created ==> k in s'.created && s'.created[k] == s.created[k]
    ensures LedgerOk(s')
  {
    forall k | k in s'.expenses ensures ExpenseOk(s', k) {
      assert ExpenseOk(s, k);
    }
  }

  lemma DeleteExpenseKeepsOk(s: State, actor: Id, id: Id)
    requires LedgerOk(s) && DeleteExpense(s, actor, id).Ok?
    ensures LedgerOk(DeleteExpense(s, actor, id).value)
  {
    DeleteKeepsTables(s, actor, id);
    DeletedRowOk(s, actor, id);
    OthersOk(s, DeleteExpense(s, actor, id).value, id);
  }

  lemma DeletedRowOk(s: State, actor: Id, id: Id)
    requires LedgerOk(s) && DeleteExpense(s, actor, id).Ok?
    ensures var s' := DeleteExpense(s, actor, id).value;
      s'.expenses.Keys == s.expenses.Keys + {id} && SameElsewhere(s, s', id) && ExpenseOk(s', id)
  {
    assert ExpenseOk(s, id);
    forall k | k in s.expenses ensures k in s.revisions && k in s.created {
      assert ExpenseOk(s, k);
    }
  }

  lemma ExpensesUntouched(s: State, c: Call)
    requires Answer(s, c).Ok? && !c.DeleteGroupCall?
    requires !c.CreateExpenseCall? && !c.UpdateExpenseCall? && !c.DeleteExpenseCall? && !c.MaterializeCall?
    ensures var s' := Answer(s, c).value;
      s'.expenses == s.expenses && s'.revisions == s.revisions && s'.created == s.created
  {
  }

  lemma OtherCallsKeepOk(s: State, c: Call)
    requires LedgerOk(s) && Answer(s, c).Ok?
    requires !c.CreateExpenseCall? && !c.UpdateExpenseCall? && !c.DeleteExpenseCall? && !c.MaterializeCall?
    ensures LedgerOk(Answer(s, c).value)
  {
    CallKeepsTables(s, c);
    if !c.DeleteGroupCall? {
      ExpensesUntouched(s, c);
    }
    FewerExpensesOk(s, Answer(s, c).value);
  }

  /** Every call whose sums fit, accepted or refused, keeps the ledger in order. */
  lemma CallKeepsOk(s: State, c: Call)
    requires LedgerOk(s) && CallSumsFit(s, c)
    ensures LedgerOk(After(s, c))
  {
    if Answer(s, c).Ok? {
      match c
      case CreateExpenseCall(actor, id, input) => CreateExpenseKeepsOk(s, actor, id, input);
      case UpdateExpenseCall(actor, id, patch) => UpdateExpenseKeepsOk(s, actor, id, patch);
      case DeleteExpenseCall(actor, id) => DeleteExpenseKeepsOk(s, actor, id);
      case MaterializeCall(id, template, at) => MaterializeKeepsOk(s, id, template, at);
      case _ => OtherCallsKeepOk(s, c);
    }
  }

  /** Every state that a run of such calls reaches from the empty database is in order. */
  lemma {:induction false} RunsKeepOk(calls: seq<Call>)
    requires RunSumsFit(EMPTY, calls)
    ensures LedgerOk(Run(EMPTY, calls))
  {
    if |calls| > 0 {
      RunsKeepOk(calls[..|calls| - 1]);
      CallKeepsOk(Run(EMPTY, calls[..|calls| - 1]), calls[|calls| - 1]);
    }
  }

  // ------------------------------------------------------------------- consequences for runs

  /** After any such run a group's balances cancel over everybody it ever involved, and the
      members together hold the opposite of what the departed left. */
  lemma RunsConserve(calls: seq<Call>, group: Id, people: set<Id>)
    requires RunSumsFit(EMPTY, calls)
    requires var s := Run(EMPTY, calls); group in s.groups && Covers(people, s, group)
    ensures var s := Run(EMPTY, calls);
      && SumSet(people, Nets(s, group)) == 0
      && MemberSum(s, group) == -SumSet(Everyone(s, group) - s.groups[group].members, Nets(s, group))
  {
    var s := Run(EMPTY, calls);
    RunsKeepOk(calls);
    forall id | id in s.expenses && LiveExpense(s.expenses[id], group)
      ensures Sum(Cents(s.expenses[id].splits)) == s.expenses[id].amount
    {
      assert ExpenseOk(s, id);
    }
    BalancesCancel(people, s, group);
    MembersCarryTheDeparted(s, group);
  }

  /** After any run: the owner is a member; a default split means exactly two members, who are
      its two entries, with shares from 0 to 10000 basis points and 10000 together; and a live
      expense created without a currency carries the group's present one. */
  lemma RunsGroups(calls: seq<Call>, group: Id, id: Id)
    requires group in Run(EMPTY, calls).groups
    ensures var g := Run(EMPTY, calls).groups[group];
      && g.owner in g.members
      && (g.defaultSplit.Some? ==>
            var split := g.defaultSplit.value;
            && |split| == 2 && split[0].user != split[1].user && g.members == {split[0].user, split[1].user}
            && 0 <= split[0].basisPoints <= WHOLE && split[0].basisPoints + split[1].basisPoints == WHOLE)
    ensures var s := Run(EMPTY, calls);
      id in s.expenses && id in s.defaulted && LiveExpense(s.expenses[id], group) ==>
        s.expenses[id].currency == s.groups[group].currency
  {
    var s := Run(EMPTY, calls);
    RunsKeepTables(calls);
    var g := s.groups[group];
    assert GroupOk(g, s.users);
    if g.defaultSplit.Some? {
      var bps := BasisPoints(g.defaultSplit.value);
      assert bps[..1] == [bps[0]] && bps[..1][..0] == [];
      assert Sum(bps) == Sum(bps[..1]) + bps[1];
    }
    assert id in s.expenses ==> CurrencyOk(s, id);
  }

  /** After any such run, replaying an expense's history on the row it was created as gives the
      present row, to the second. */
  lemma RunsReplay(calls: seq<Call>, id: Id)
    requires RunSumsFit(EMPTY, calls) && id in Run(EMPTY, calls).expenses
    ensures var s := Run(EMPTY, calls);
      && id in s.created && id in s.revisions
      && SameRecord(Replay(s.created[id], s.revisions[id]), s.expenses[id])
      && ValidExpense(s.expenses[id])
  {
    RunsKeepOk(calls);
    assert ExpenseOk(Run(EMPTY, calls), id);
  }

  /** Sending the same update again is accepted, and neither the row nor the history moves. */
  lemma UpdateAgain(s: State, actor: Id, id: Id, p: ExpensePatch)
    requires LedgerOk(s) && UpdateExpense(s, actor, id, p).Ok? && PatchSumsFit(s.expenses[id].amount, p)
    ensures UpdateExpense(UpdateExpense(s, actor, id, p).value, actor, id, p)
         == UpdateExpense(s, actor, id, p)
  {
    assert ExpenseOk(s, id);
    var resolved := ResolvePatch(s.expenses[id], p).value;
    var edit := AcceptedIsProper(s, actor, id, p);
    EditAgain(s.expenses[id], edit);
    UpdateByEdit(s, actor, id, p, resolved);
    var (e, rows) := EditExpense(s.expenses[id], edit).value;
    var s' := s.(expenses := s.expenses[id := e], revisions := s.revisions[id := s.revisions[id] + rows]);
    AcceptedAgain(s, s', actor, id, p, resolved);
    EmptyUpdate(s', actor, id, p, resolved);
  }

  /** The checks and the resolver answer for the edited expense as they did for the old one. */
  lemma AcceptedAgain(s: State, s': State, actor: Id, id: Id, p: ExpensePatch, resolved: Option<seq<Split>>)
    requires PatchError(s, actor, id, p).None? && ResolvePatch(s.expenses[id], p) == Ok(resolved)
    requires EditExpense(s.expenses[id], EditOf(p, resolved)).Ok?
    requires s'.groups == s.groups && id in s'.expenses
    requires s'.expenses[id] == EditExpense(s.expenses[id], EditOf(p, resolved)).value.0
    ensures PatchError(s', actor, id, p).None? && ResolvePatch(s'.expenses[id], p) == Ok(resolved)
  {
    EditKeepsPlace(s.expenses[id], EditOf(p, resolved));
  }

  lemma EditKeepsPlace(e: Expense, edit: Edit)
    requires EditExpense(e, edit).Ok?
    ensures var e' := EditExpense(e, edit).value.0;
      e'.group == e.group && e'.deleted == e.deleted && e'.amount == edit.amount.GetOr(e.amount)
  {
  }

  lemma EmptyUpdate(s: State, actor: Id, id: Id, p: ExpensePatch, resolved: Option<seq<Split>>)
    requires PatchError(s, actor, id, p).None? && ResolvePatch(s.expenses[id], p) == Ok(resolved)
    requires id in s.revisions && EditExpense(s.expenses[id], EditOf(p, resolved)) == Ok((s.expenses[id], []))
    ensures UpdateExpense(s, actor, id, p) == Ok(s)
  {
    UpdateByEdit(s, actor, id, p, resolved);
    assert s.revisions[id] + [] == s.revisions[id];
    assert s.expenses[id := s.expenses[id]] == s.expenses && s.revisions[id := s.revisions[id]] == s.revisions;
  }

  /** What an accepted update writes. */
  lemma UpdateByEdit(s: State, actor: Id, id: Id, p: ExpensePatch, resolved: Option<seq<Split>>)
    requires PatchError(s, actor, id, p).None? && ResolvePatch(s.expenses[id], p) == Ok(resolved)
    requires id in s.revisions && EditExpense(s.expenses[id], EditOf(p, resolved)).Ok?
    ensures var (e, rows) := EditExpense(s.expenses[id], EditOf(p, resolved)).value;
      UpdateExpense(s, actor, id, p)
      == Ok(s.(expenses := s.expenses[id := e], revisions := s.revisions[id := s.revisions[id] + rows]))
  {
  }

  /** A creator who removes somebody else never moves the members' total; a member who leaves
      takes exactly their own balance out of it. */
  lemma RemovalAndMemberSum(s: State, group: Id, actor: Id, target: Id)
    requires RemoveMember(s, group, actor, target).Ok?
    ensures var s' := RemoveMember(s, group, actor, target).value;
      && MemberSum(s', group) == MemberSum(s, group) - NetForUser(s, group, target)
      && (actor != target ==> MemberSum(s', group) == MemberSum(s, group))
  {
    var s' := RemoveMember(s, group, actor, target).value;
    var before, after := s.groups[group].members, s'.groups[group].members;
    assert after == before - {target};
    SumSetRemove(before, Nets(s, group), target);
    SumSetSame(after, Nets(s, group), Nets(s', group));
  }

  /** While the group has a live expense or settlement, a call leaves its currency alone. */
  lemma UpdateKeepsCurrency(s: State, c: Call, group: Id)
    requires c.UpdateGroupCall? && group in s.groups && HasActivity(s, group)
    ensures group in After(s, c).groups && After(s, c).groups[group].currency == s.groups[group].currency
  {
  }

  lemma OthersKeepCurrency(s: State, c: Call, group: Id)
    requires !c.UpdateGroupCall? && group in s.groups && group in After(s, c).groups
    ensures c.CreateGroupCall? || After(s, c).groups[group].currency == s.groups[group].currency
  {
  }

  lemma CallKeepsCurrency(s: State, c: Call, group: Id)
    requires group in s.groups && HasActivity(s, group) && group in After(s, c).groups
    ensures After(s, c).groups[group].currency == s.groups[group].currency
  {
    if c.UpdateGroupCall? {
      UpdateKeepsCurrency(s, c, group);
    } else if c.CreateGroupCall? {
    } else {
      OthersKeepCurrency(s, c, group);
    }
  }

  /** The group exists and has a live expense or settlement throughout the calls from s. */
  ghost predicate ActiveThroughout(s: State, calls: seq<Call>, group: Id)
    decreases |calls|
  {
    group in s.groups && HasActivity(s, group)
    && (|calls| > 0 ==> ActiveThroughout(After(s, calls[0]), calls[1..], group))
  }

  /** Over any stretch of calls during which the group is never without a live expense or
      settlement, its default currency is the same at the end as at the start. */
  lemma {:induction false} CurrencyHolds(s: State, calls: seq<Call>, group: Id)
    requires ActiveThroughout(s, calls, group)
    ensures group in Run(s, calls).groups && Run(s, calls).groups[group].currency == s.groups[group].currency
    decreases |calls|
  {
    if |calls| > 0 {
      CallKeepsCurrency(s, calls[0], group);
      CurrencyHolds(After(s, calls[0]), calls[1..], group);
      RunFront(s, calls);
    }
  }

  lemma {:induction false} RunFront(s: State, calls: seq<Call>)
    requires |calls| > 0
    ensures Run(s, calls) == Run(After(s, calls[0]), calls[1..])
    decreases |calls|
  {
    var front, last := calls[..|calls| - 1], calls[|calls| - 1];
    if |calls| == 1 {
      assert front == [] && calls[1..] == [];
    } else {
      RunFront(s, front);
      assert front[1..] == calls[1..][..|calls| - 2];
    }
  }

  // ------------------------------------------------------------------- where it goes wrong

  const HUGE: seq<SplitInput> := [SplitInput(1, TWO_63 - 1), SplitInput(2, TWO_63 - 1), SplitInput(3, 5)]

  const HUGE_EXPENSE: ExpenseInput := ExpenseInput(7, 1, 0, 3, "", "wraps", 0, Exact, HUGE)

  const OVERFLOW_CALLS: seq<Call> :=
    [RegisterCall(1), RegisterCall(2), RegisterCall(3), CreateGroupCall(7, "g", "", 1),
     AddMemberCall(7, 1, Some(2)), AddMemberCall(7, 1, Some(3)), CreateExpenseCall(1, 9, HUGE_EXPENSE)]

  /** With sums that wrap the program accepts, from the empty database, an expense of three cents
      whose shares add up to 2^64 + 3. */
  lemma OverflowRun()
    ensures !CallSumsFit(Run(EMPTY, OVERFLOW_CALLS[..6]), OVERFLOW_CALLS[6])
    ensures var s := Run(EMPTY, OVERFLOW_CALLS);
      9 in s.expenses && s.expenses[9].amount == 3 && Sum(Cents(s.expenses[9].splits)) == TWO_64 + 3
  {
    var s := OverflowGroup();
    RunNext(OVERFLOW_CALLS, 6);
    assert OVERFLOW_CALLS[..7] == OVERFLOW_CALLS;
    OverflowExpense(s);
  }

  lemma RunNext(calls: seq<Call>, i: nat)
    requires i < |calls|
    ensures Run(EMPTY, calls[..i + 1]) == After(Run(EMPTY, calls[..i]), calls[i])
  {
    assert calls[..i + 1][..i] == calls[..i];
  }

  function Three(members: set<Id>): State {
    EMPTY.(users := {1, 2, 3}, groups := map[7 := Group("g", DEFAULT_CURRENCY, 1, members, None)])
  }

  lemma OverflowGroup() returns (s: State)
    ensures s == Run(EMPTY, OVERFLOW_CALLS[..6]) == Three({1, 2, 3})
  {
    RunNext(OVERFLOW_CALLS, 3);
    RunNext(OVERFLOW_CALLS, 4);
    RunNext(OVERFLOW_CALLS, 5);
    ThreeUsers();
    ThreeMembers();
    s := Three({1, 2, 3});
  }

  lemma ThreeUsers()
    ensures Run(EMPTY, OVERFLOW_CALLS[..3]) == EMPTY.(users := {1, 2, 3})
  {
    RunNext(OVERFLOW_CALLS, 0);
    RunNext(OVERFLOW_CALLS, 1);
    RunNext(OVERFLOW_CALLS, 2);
    assert OVERFLOW_CALLS[..0] == [];
    Registered(EMPTY, 1);
    Registered(EMPTY.(users := {} + {1}), 2);
    Registered(EMPTY.(users := {} + {1} + {2}), 3);
    assert {} + {1} + {2} + {3} == {1, 2, 3};
  }

  lemma Registered(s: State, user: Id)
    ensures After(s, RegisterCall(user)) == s.(users := s.users + {user})
  {
  }

  lemma ThreeMembers()
    ensures After(EMPTY.(users := {1, 2, 3}), CreateGroupCall(7, "g", "", 1)) == Three({1})
    ensures After(Three({1}), AddMemberCall(7, 1, Some(2))) == Three({1, 2})
    ensures After(Three({1, 2}), AddMemberCall(7, 1, Some(3))) == Three({1, 2, 3})
  {
    FirstMember();
    Joined({1}, 2);
    Joined({1, 2}, 3);
    assert {1} + {2} == {1, 2} && {1, 2} + {3} == {1, 2, 3};
  }

  lemma FirstMember()
    ensures After(EMPTY.(users := {1, 2, 3}), CreateGroupCall(7, "g", "", 1)) == Three({1})
  {
  }

  lemma Joined(members: set<Id>, user: Id)
    requires 1 in members && user in {1, 2, 3}
    ensures After(Three(members), AddMemberCall(7, 1, Some(user))) == Three(members + {user})
  {
    var g := Three(members).groups[7].(members := members + {user});
    assert Three(members).groups[7 := g] == Three(members + {user}).groups;
  }

  lemma OverflowExpense(s: State)
    requires s == Three({1, 2, 3})
    ensures var s' := After(s, CreateExpenseCall(1, 9, HUGE_EXPENSE));
      9 in s'.expenses && s'.expenses[9].amount == 3 && Sum(Cents(s'.expenses[9].splits)) == TWO_64 + 3
    ensures !SumsFit(Exact, 3, HUGE)
  {
    var vs := Values(HUGE);
    assert vs == [TWO_63 - 1, TWO_63 - 1, 5];
    assert vs[..2] == [TWO_63 - 1, TWO_63 - 1] && vs[..2][..1] == [TWO_63 - 1] && vs[..1][..0] == [];
    SumPrefix(vs, 0);
    SumPrefix(vs, 1);
    SumPrefix(vs, 2);
    assert vs[..3] == vs;
    assert WrapsOnto(Sum(vs), 3);
    var shares := Assign(HUGE, vs);
    assert Resolve64(Exact, 3, HUGE) == Returned(Ok(shares));
    assert Cents(shares) == vs;
    InUserOrderFacts(shares);
  }

  /** Without any such condition: an accepted expense is in order if and only if its shares pass
      the exact test. */
  lemma CreatedInOrder(s: State, actor: Id, id: Id, input: ExpenseInput)
    requires TablesOk(s) && input.amount < TWO_63 && CreateExpense(s, actor, id, input).Ok?
    ensures ValidExpense(CreateExpense(s, actor, id, input).value.expenses[id])
       <==> AddsUp(input.mode, input.amount, input.splits)
  {
    var e := CreatedExpense(s, actor, id, input);
    InsertedRow(s, id, e);
    InUserOrderFacts(e.splits);
    AcceptedSumExactly(input.mode, input.amount, input.splits, e.splits);
  }

  /** An update that resolved splits against the amount it read before the row lock leaves a
      valid expense, when it goes through, exactly if the locked amount is still that one or the
      patch sets an amount of its own. In range it does go through. */
  lemma StaleRead(s: State, read: Expense, id: Id, p: ExpensePatch)
    requires id in s.expenses && ValidExpense(s.expenses[id]) && !s.expenses[id].deleted
    requires p.mode.Some? && p.splits.Some? && ResolvePatch(read, p).Ok?
    requires SumsFit(p.mode.value, p.amount.GetOr(read.amount), p.splits.value)
    ensures InRange(p.mode.value, p.amount.GetOr(read.amount), p.splits.value) ==> FinishUpdate(s, read, id, p).Ok?
    ensures FinishUpdate(s, read, id, p).Ok? ==>
      (ValidExpense(FinishUpdate(s, read, id, p).value.expenses[id])
       <==> p.amount.Some? || read.amount == s.expenses[id].amount)
  {
    var e, resolved := s.expenses[id], ResolvePatch(read, p).value;
    var edit, amount := EditOf(p, resolved), p.amount.GetOr(read.amount);
    ResolvedDistinct(p.mode.value, amount, p.splits.value);
    if InRange(p.mode.value, amount, p.splits.value) {
      ResolvedInRange(p.mode.value, amount, p.splits.value);
      AcceptedSum(p.mode.value, amount, p.splits.value, resolved.value);
      StaleGoesThrough(e, edit);
    }
    if EditExpense(e, edit).Ok? {
      AcceptedNonNegative(e, edit);
      AcceptedSum(p.mode.value, amount, p.splits.value, resolved.value);
      if p.amount.Some? || read.amount == e.amount {
        AcceptedStaysValid(e, edit);
      } else {
        StaleEdit(e, edit);
      }
    }
  }

  /** Splits without negative shares that fit the new amount, if there is one, are stored. */
  lemma StaleGoesThrough(e: Expense, edit: Edit)
    requires ValidExpense(e) && !e.deleted && edit.splits.Some?
    requires DistinctUsers(edit.splits.value) && NonNegative(Cents(edit.splits.value)) && |edit.splits.value| > 0
    requires edit.amount.Some? ==> 0 < edit.amount.value < TWO_63 && Sum(Cents(edit.splits.value)) == edit.amount.value
    ensures EditExpense(e, edit).Ok?
  {
    KeyOrderDistinct(e.splits);
    if AmountChange(e, edit) {
      SuppliedSplitsWin(e, edit);
    }
    forall i | 0 <= i < |NewSplits(e, edit)| ensures NewSplits(e, edit)[i].cents >= 0 {
      assert Cents(NewSplits(e, edit))[i] >= 0;
    }
  }

  lemma StaleEdit(e: Expense, edit: Edit)
    requires ValidExpense(e) && EditExpense(e, edit).Ok? && edit.amount.None? && edit.splits.Some?
    requires DistinctUsers(edit.splits.value) && Sum(Cents(edit.splits.value)) != e.amount
    ensures !ValidExpense(EditExpense(e, edit).value.0)
  {
    var given := edit.splits.value;
    KeyOrderDistinct(e.splits);
    SplitsEqualExactly(e.splits, given);
    InUserOrderFacts(e.splits);
    InUserOrderFacts(given);
    assert |SplitsRows(e, edit)| == 1;
  }
}
