/** What each call on the ledger does to balances. */
module Effects {
  import opened Core
  import opened Splits
  import opened Expenses
  import opened Tables
  import opened Balances
  import opened Ledger

  /** What one live expense is worth to a balance, in so many words: in its own group the payer is
      credited the amount, whoever has a split row owes the cents of it, and nobody else and no
      other group is concerned. */
  ghost predicate Worth(change: int, group: Id, user: Id, of: Id, payer: Id, amount: int, rows: seq<Split>) {
    if group != of then change == 0
    else
      && (forall i :: 0 <= i < |rows| && rows[i].user == user ==>
            change == (if user == payer then amount else 0) - rows[i].cents)
      && ((forall i :: 0 <= i < |rows| ==> rows[i].user != user) ==> change == if user == payer then amount else 0)
  }

  /** With one row per user, that is one number. */
  lemma WorthIsOne(a: int, b: int, group: Id, user: Id, of: Id, payer: Id, amount: int, rows: seq<Split>)
    requires Worth(a, group, user, of, payer, amount, rows) && Worth(b, group, user, of, payer, amount, rows)
    ensures a == b
  {
    if exists i :: 0 <= i < |rows| && rows[i].user == user {
      var i :| 0 <= i < |rows| && rows[i].user == user;
    }
  }

  /** The same in the four sums of the query. */
  function ExpenseEffect(e: Expense, group: Id, user: Id): int {
    Paid(group, user)(e) - Owed(group, user)(e)
  }

  lemma {:induction false} ShareOfAbsent(rows: seq<Split>, user: Id)
    requires forall i :: 0 <= i < |rows| ==> rows[i].user != user
    ensures ShareOf(rows, user) == 0
  {
    if |rows| > 0 {
      ShareOfAbsent(rows[..|rows| - 1], user);
    }
  }

  lemma {:induction false} ShareOfRow(rows: seq<Split>, i: nat)
    requires DistinctUsers(rows) && i < |rows|
    ensures ShareOf(rows, rows[i].user) == rows[i].cents
  {
    if i == |rows| - 1 {
      ShareOfAbsent(rows[..i], rows[i].user);
    } else {
      ShareOfRow(rows[..|rows| - 1], i);
    }
  }

  lemma EffectIsWorth(e: Expense, group: Id, user: Id)
    requires !e.deleted && DistinctUsers(e.splits)
    ensures Worth(ExpenseEffect(e, group, user), group, user, e.group, e.payer, e.amount, e.splits)
  {
    forall i | 0 <= i < |e.splits| && e.splits[i].user == user ensures ShareOf(e.splits, user) == e.splits[i].cents {
      ShareOfRow(e.splits, i);
    }
    if forall i :: 0 <= i < |e.splits| ==> e.splits[i].user != user {
      ShareOfAbsent(e.splits, user);
    }
  }

  /** Without any rows every balance is zero; this and what follows fix the balance of every
      ledger, one row at a time. */
  lemma NoRowsNoBalance(s: State, group: Id, user: Id)
    requires s.expenses == map[] && s.settlements == map[]
    ensures NetForUser(s, group, user) == 0
  {
  }

  /** Any one expense of a ledger counts for what it is worth, or for nothing once deleted. */
  lemma ExpenseCounts(s: State, id: Id, group: Id, user: Id)
    requires id in s.expenses && DistinctUsers(s.expenses[id].splits)
    ensures var e, change := s.expenses[id],
          NetForUser(s, group, user) - NetForUser(s.(expenses := s.expenses - {id}), group, user);
      if e.deleted then change == 0 else Worth(change, group, user, e.group, e.payer, e.amount, e.splits)
  {
    SumRowsRemove(s.expenses, Paid(group, user), id);
    SumRowsRemove(s.expenses, Owed(group, user), id);
    if !s.expenses[id].deleted {
      EffectIsWorth(s.expenses[id], group, user);
    }
  }

  /** Any one settlement gives its payer credit for the amount and takes it from the receiver. */
  lemma SettlementCounts(s: State, id: Id, group: Id, user: Id)
    requires id in s.settlements
    ensures var t := s.settlements[id];
      NetForUser(s, group, user) - NetForUser(s.(settlements := s.settlements - {id}), group, user)
      == if t.deleted || t.group != group then 0
         else (if user == t.from then t.amount else 0) - if user == t.to then t.amount else 0
  {
    SumRowsRemove(s.settlements, SettledOut(group, user), id);
    SumRowsRemove(s.settlements, SettledIn(group, user), id);
  }

  lemma InsertedMoves(s: State, s': State, id: Id, group: Id, user: Id)
    requires id !in s.expenses && id in s'.expenses && s'.settlements == s.settlements
    requires s'.expenses == s.expenses[id := s'.expenses[id]]
    ensures NetForUser(s', group, user) == NetForUser(s, group, user) + ExpenseEffect(s'.expenses[id], group, user)
  {
    SumRowsInsert(s.expenses, Paid(group, user), id, s'.expenses[id]);
    SumRowsInsert(s.expenses, Owed(group, user), id, s'.expenses[id]);
  }

  lemma ReplacedMoves(s: State, s': State, id: Id, group: Id, user: Id)
    requires id in s.expenses && id in s'.expenses && s'.settlements == s.settlements
    requires s'.expenses == s.expenses[id := s'.expenses[id]]
    ensures NetForUser(s', group, user)
         == NetForUser(s, group, user) - ExpenseEffect(s.expenses[id], group, user) + ExpenseEffect(s'.expenses[id], group, user)
  {
    SumRowsUpdate(s.expenses, Paid(group, user), id, s'.expenses[id]);
    SumRowsUpdate(s.expenses, Owed(group, user), id, s'.expenses[id]);
  }

  /** Rows in another order are worth the same. */
  lemma WorthOfSorted(change: int, group: Id, user: Id, of: Id, payer: Id, amount: int, rows: seq<Split>)
    requires DistinctUsers(rows) && Worth(change, group, user, of, payer, amount, InUserOrder(rows))
    ensures Worth(change, group, user, of, payer, amount, rows)
  {
    InUserOrderFacts(rows);
    WorthOfSameRows(change, group, user, of, payer, amount, InUserOrder(rows), rows);
  }

  lemma WorthOfSameRows(change: int, group: Id, user: Id, of: Id, payer: Id, amount: int, a: seq<Split>, b: seq<Split>)
    requires multiset(a) == multiset(b) && Worth(change, group, user, of, payer, amount, a)
    ensures Worth(change, group, user, of, payer, amount, b)
  {
    forall row ensures row in a <==> row in b {
      assert row in multiset(a) <==> row in multiset(b);
    }
    forall i | 0 <= i < |b| && b[i].user == user && group == of
      ensures change == (if user == payer then amount else 0) - b[i].cents
    {
      assert b[i] in b;
      var k :| 0 <= k < |a| && a[k] == b[i];
    }
    if forall i :: 0 <= i < |b| ==> b[i].user != user {
      forall k | 0 <= k < |a| ensures a[k].user != user {
        assert a[k] in a;
      }
    }
  }

  lemma StoredMoves(s: State, s': State, id: Id, shares: seq<Split>, group: Id, user: Id)
    requires id !in s.expenses && id in s'.expenses && s'.settlements == s.settlements
    requires s'.expenses == s.expenses[id := s'.expenses[id]]
    requires DistinctUsers(shares) && s'.expenses[id].splits == InUserOrder(shares) && !s'.expenses[id].deleted
    ensures var e := s'.expenses[id];
      Worth(NetForUser(s', group, user) - NetForUser(s, group, user), group, user, e.group, e.payer, e.amount, shares)
  {
    var e := s'.expenses[id];
    InUserOrderFacts(shares);
    InsertedMoves(s, s', id, group, user);
    EffectIsWorth(e, group, user);
    WorthOfSorted(ExpenseEffect(e, group, user), group, user, e.group, e.payer, e.amount, shares);
  }

  /** A created expense moves each balance by what the input and the resolver's rows say: the
      payer named in the input gains the amount, everybody the resolver gave cents owes them. */
  lemma CreateExpenseMoves(s: State, actor: Id, id: Id, input: ExpenseInput, group: Id, user: Id)
    requires CreateExpense(s, actor, id, input).Ok?
    ensures var r := Resolve64(input.mode, input.amount, input.splits);
      && r.Returned? && r.resolution.Ok?
      && Worth(NetForUser(CreateExpense(s, actor, id, input).value, group, user) - NetForUser(s, group, user),
               group, user, input.group, input.payer, input.amount, r.resolution.value)
  {
    StoredMoves(s, CreateExpense(s, actor, id, input).value, id,
                Resolve64(input.mode, input.amount, input.splits).resolution.value, group, user);
  }

  /** So does the expense a tick inserts. */
  lemma MaterializeMoves(s: State, id: Id, t: Template, at: int, group: Id, user: Id)
    requires Materialize(s, id, t, at).Ok?
    ensures var r := Resolve64(t.mode, t.amount, t.splits);
      && r.Returned? && r.resolution.Ok?
      && Worth(NetForUser(Materialize(s, id, t, at).value, group, user) - NetForUser(s, group, user),
               group, user, t.group, t.payer, t.amount, r.resolution.value)
  {
    StoredMoves(s, Materialize(s, id, t, at).value, id,
                Resolve64(t.mode, t.amount, t.splits).resolution.value, group, user);
  }

  /** An update takes out of each balance what the row was worth and puts in what it is worth now,
      with the payer and the amount of the patch where it has them. */
  lemma UpdateExpenseMoves(s: State, actor: Id, id: Id, p: ExpensePatch, group: Id, user: Id)
    returns (removed: int, added: int)
    requires UpdateExpense(s, actor, id, p).Ok? && InKeyOrder(s.expenses[id].splits)
    ensures var e, s' := s.expenses[id], UpdateExpense(s, actor, id, p).value;
      && id in s'.expenses
      && Worth(removed, group, user, e.group, e.payer, e.amount, e.splits)
      && Worth(added, group, user, e.group, p.payer.GetOr(e.payer), p.amount.GetOr(e.amount), s'.expenses[id].splits)
      && NetForUser(s', group, user) == NetForUser(s, group, user) - removed + added
  {
    var e, s' := s.expenses[id], UpdateExpense(s, actor, id, p).value;
    KeyOrderDistinct(e.splits);
    UpdatedRow(s, actor, id, p);
    KeyOrderDistinct(s'.expenses[id].splits);
    removed, added := ExpenseEffect(e, group, user), ExpenseEffect(s'.expenses[id], group, user);
    EffectIsWorth(e, group, user);
    EffectIsWorth(s'.expenses[id], group, user);
    ReplacedMoves(s, s', id, group, user);
  }

  lemma UpdatedRow(s: State, actor: Id, id: Id, p: ExpensePatch)
    requires UpdateExpense(s, actor, id, p).Ok? && InKeyOrder(s.expenses[id].splits)
    ensures var e, s' := s.expenses[id], UpdateExpense(s, actor, id, p).value;
      && id in s'.expenses && s'.settlements == s.settlements && s'.expenses == s.expenses[id := s'.expenses[id]]
      && var e' := s'.expenses[id];
         && !e.deleted && !e'.deleted && e'.group == e.group && InKeyOrder(e'.splits)
         && e'.payer == p.payer.GetOr(e.payer) && e'.amount == p.amount.GetOr(e.amount)
  {
    var e := s.expenses[id];
    var edit := EditOf(p, ResolvePatch(e, p).value);
    if |RevisionsOf(e, edit)| > 0 {
      InUserOrderFacts(NewSplits(e, edit));
    }
  }

  /** Deleting an expense takes exactly what it was worth out of every balance. */
  lemma DeleteExpenseMoves(s: State, actor: Id, id: Id, group: Id, user: Id)
    requires DeleteExpense(s, actor, id).Ok? && DistinctUsers(s.expenses[id].splits)
    ensures var e := s.expenses[id];
      Worth(NetForUser(s, group, user) - NetForUser(DeleteExpense(s, actor, id).value, group, user),
            group, user, e.group, e.payer, e.amount, e.splits)
  {
    ReplacedMoves(s, DeleteExpense(s, actor, id).value, id, group, user);
    EffectIsWorth(s.expenses[id], group, user);
  }

  /** Creating an expense and deleting it again restores every balance of every group. */
  lemma CreateThenDelete(s: State, actor: Id, id: Id, input: ExpenseInput, deleter: Id, group: Id, user: Id)
    requires CreateExpense(s, actor, id, input).Ok?
    requires DeleteExpense(CreateExpense(s, actor, id, input).value, deleter, id).Ok?
    ensures NetForUser(DeleteExpense(CreateExpense(s, actor, id, input).value, deleter, id).value, group, user)
         == NetForUser(s, group, user)
  {
    var created := CreateExpense(s, actor, id, input).value;
    InsertedMoves(s, created, id, group, user);
    ReplacedMoves(created, DeleteExpense(created, deleter, id).value, id, group, user);
  }

  /** A settlement gives its payer credit for the amount and takes it from the receiver. */
  lemma SettlementMoves(s: State, actor: Id, id: Id, input: SettlementInput, group: Id, user: Id)
    requires CreateSettlement(s, actor, id, input).Ok?
    ensures NetForUser(CreateSettlement(s, actor, id, input).value, group, user)
         == NetForUser(s, group, user)
            + (if group == input.group && user == input.from then input.amount else 0)
            - if group == input.group && user == input.to then input.amount else 0
  {
    var row := CreateSettlement(s, actor, id, input).value.settlements[id];
    SumRowsInsert(s.settlements, SettledOut(group, user), id, row);
    SumRowsInsert(s.settlements, SettledIn(group, user), id, row);
  }

  /** Deleting it takes exactly that out again. */
  lemma DeleteSettlementMoves(s: State, actor: Id, id: Id, group: Id, user: Id)
    requires DeleteSettlement(s, actor, id).Ok?
    ensures var t := s.settlements[id];
      NetForUser(DeleteSettlement(s, actor, id).value, group, user)
      == NetForUser(s, group, user)
         - (if group == t.group && user == t.from then t.amount else 0)
         + if group == t.group && user == t.to then t.amount else 0
  {
    var row := DeleteSettlement(s, actor, id).value.settlements[id];
    SumRowsUpdate(s.settlements, SettledOut(group, user), id, row);
    SumRowsUpdate(s.settlements, SettledIn(group, user), id, row);
  }

  /** Settling and deleting the settlement restores every balance. */
  lemma SettleThenDelete(s: State, actor: Id, id: Id, input: SettlementInput, deleter: Id, group: Id, user: Id)
    requires CreateSettlement(s, actor, id, input).Ok?
    requires DeleteSettlement(CreateSettlement(s, actor, id, input).value, deleter, id).Ok?
    ensures NetForUser(DeleteSettlement(CreateSettlement(s, actor, id, input).value, deleter, id).value, group, user)
         == NetForUser(s, group, user)
  {
    SettlementMoves(s, actor, id, input, group, user);
    DeleteSettlementMoves(CreateSettlement(s, actor, id, input).value, deleter, id, group, user);
  }

  /** Deleting a group leaves nobody a balance in it and every balance elsewhere as it was. */
  lemma DeleteGroupMoves(s: State, group: Id, actor: Id, other: Id, user: Id)
    requires DeleteGroup(s, group, actor).Ok?
    ensures NetForUser(DeleteGroup(s, group, actor).value, other, user)
         == if other == group then 0 else NetForUser(s, other, user)
  {
    var s' := DeleteGroup(s, group, actor).value;
    if other == group {
      NoRowsLeft(s', group, user);
    } else {
      SumRowsKeep(s.expenses, s'.expenses, Paid(other, user));
      SumRowsKeep(s.expenses, s'.expenses, Owed(other, user));
      SumRowsKeep(s.settlements, s'.settlements, SettledOut(other, user));
      SumRowsKeep(s.settlements, s'.settlements, SettledIn(other, user));
    }
  }

  lemma NoRowsLeft(s: State, group: Id, user: Id)
    requires forall id :: id in s.expenses ==> s.expenses[id].group != group
    requires forall id :: id in s.settlements ==> s.settlements[id].group != group
    ensures NetForUser(s, group, user) == 0
  {
    SumRowsKeep(s.expenses, map[], Paid(group, user));
    SumRowsKeep(s.expenses, map[], Owed(group, user));
    SumRowsKeep(s.settlements, map[], SettledOut(group, user));
    SumRowsKeep(s.settlements, map[], SettledIn(group, user));
  }
}
