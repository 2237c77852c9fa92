/** One expense row with its splits: the edit, the revision rows the edit appends, and the
    replay of those rows. */
module Expenses {
  import opened Core
  import opened Apportion
  import opened Int64
  import opened Splits
  import opened Rescale
  import opened Sorting

  function Second(at: int): int {
    at / SECOND
  }

  /** `splits` are the rows of the splits table for this expense in primary-key order. */
  datatype Expense = Expense(
    group: Id,
    payer: Id,
    createdBy: Id,
    category: Id,
    amount: int,
    currency: string,
    description: string,
    incurredAt: int,
    splits: seq<Split>,
    deleted: bool)

  /** A repository edit: an absent field is left alone. */
  datatype Edit = Edit(
    description: Option<string>,
    amount: Option<int>,
    category: Option<Id>,
    payer: Option<Id>,
    incurredAt: Option<int>,
    splits: Option<seq<Split>>)

  /** expense_revisions rows. Incurred-at values are written to the second. */
  datatype Revision =
    | DescriptionRow(oldText: string, newText: string)
    | CategoryRow(oldId: Id, newId: Id)
    | PayerRow(oldId: Id, newId: Id)
    | IncurredAtRow(oldSecond: int, newSecond: int)
    | SplitsRow(oldSplits: seq<Split>, newSplits: seq<Split>)
    | AmountRow(oldAmount: int, newAmount: int)

  datatype RepoError = NotFound | ConstraintViolation

  // ---------------------------------------------------------------- rows in user order

  predicate InKeyOrder(rows: seq<Split>) {
    forall i, j :: 0 <= i < j < |rows| ==> rows[i].user < rows[j].user
  }

  function ByUser(): (Split, Split) -> bool {
    (a: Split, b: Split) => a.user < b.user
  }

  function CentsOf(): Split -> int {
    (a: Split) => a.cents
  }

  /** ORDER BY user_id. */
  function InUserOrder(splits: seq<Split>): seq<Split> {
    Sort(splits, ByUser())
  }

  lemma {:induction false} SumCents(splits: seq<Split>)
    ensures Sum(Cents(splits)) == SumOf(splits, CentsOf())
  {
    if |splits| > 0 {
      SumCents(splits[..|splits| - 1]);
      assert Cents(splits)[..|splits| - 1] == Cents(splits[..|splits| - 1]);
    }
  }

  /** Sorting by user keeps the rows and their sum, and with distinct users the order is strict. */
  lemma InUserOrderFacts(splits: seq<Split>)
    ensures multiset(InUserOrder(splits)) == multiset(splits)
    ensures |InUserOrder(splits)| == |splits|
    ensures Sum(Cents(InUserOrder(splits))) == Sum(Cents(splits))
    ensures DistinctUsers(splits) ==> InKeyOrder(InUserOrder(splits))
  {
    SortKeeps(splits, ByUser());
    SortSum(splits, ByUser(), CentsOf());
    SumCents(splits);
    SumCents(InUserOrder(splits));
    if DistinctUsers(splits) {
      SortOrdered(splits, ByUser());
      OrderedByUser(InUserOrder(splits));
    }
  }

  lemma OrderedByUser(rows: seq<Split>)
    ensures InKeyOrder(rows) <==> Ordered(rows, ByUser())
  {
    if Ordered(rows, ByUser()) {
      forall i, j | 0 <= i < j < |rows| ensures rows[i].user < rows[j].user {
        assert ByUser()(rows[i], rows[j]);
      }
    }
  }

  lemma NonNegativeInUserOrder(splits: seq<Split>)
    requires NonNegative(Cents(splits))
    ensures NonNegative(Cents(InUserOrder(splits)))
  {
    InUserOrderFacts(splits);
    forall i | 0 <= i < |InUserOrder(splits)| ensures InUserOrder(splits)[i].cents >= 0 {
      assert InUserOrder(splits)[i] in multiset(InUserOrder(splits));
      assert InUserOrder(splits)[i] in splits;
      var k :| 0 <= k < |splits| && splits[k] == InUserOrder(splits)[i];
      assert Cents(splits)[k] >= 0;
    }
  }

  lemma InUserOrderIdentity(rows: seq<Split>)
    requires InKeyOrder(rows)
    ensures InUserOrder(rows) == rows
  {
    OrderedByUser(rows);
    SortIdentity(rows, ByUser());
  }

  // -------------------------------------------------------------------- comparing splits

  /** The share each user has in a list; a later entry for the same user wins. */
  function ShareIndex(splits: seq<Split>): map<Id, int> {
    if |splits| == 0 then map[]
    else
      var last := splits[|splits| - 1];
      ShareIndex(splits[..|splits| - 1])[last.user := last.cents]
  }

  predicate SplitsEqual(a: seq<Split>, b: seq<Split>) {
    && |a| == |b|
    && var index := ShareIndex(a);
       forall k :: 0 <= k < |b| ==> b[k].user in index && index[b[k].user] == b[k].cents
  }

  lemma {:induction false} ShareIndexFacts(a: seq<Split>)
    ensures forall u :: u in ShareIndex(a) ==> Split(u, ShareIndex(a)[u]) in a
    ensures DistinctUsers(a) ==> forall i :: 0 <= i < |a| ==> a[i].user in ShareIndex(a) && ShareIndex(a)[a[i].user] == a[i].cents
  {
    if |a| > 0 {
      ShareIndexFacts(a[..|a| - 1]);
      assert a == a[..|a| - 1] + [a[|a| - 1]];
    }
  }

  /** splitsEqual decides whether two lists hold the same rows, as long as neither names a
      user twice; so it compares what the table would store. */
  lemma SplitsEqualExactly(a: seq<Split>, b: seq<Split>)
    requires DistinctUsers(a) && DistinctUsers(b)
    ensures SplitsEqual(a, b) <==> multiset(a) == multiset(b)
    ensures SplitsEqual(a, b) <==> InUserOrder(a) == InUserOrder(b)
  {
    ShareIndexFacts(a);
    if SplitsEqual(a, b) {
      forall k | 0 <= k < |b| ensures b[k] in a {
        assert b[k] == Split(b[k].user, ShareIndex(a)[b[k].user]);
      }
      SubsetOfSameSize(b, a);
    }
    if multiset(a) == multiset(b) {
      SameRowsEqual(a, b);
    }
    SameRowsSameOrder(a, b);
  }

  lemma SameRowsEqual(a: seq<Split>, b: seq<Split>)
    requires DistinctUsers(a) && multiset(a) == multiset(b)
    ensures SplitsEqual(a, b)
  {
    ShareIndexFacts(a);
    assert |multiset(a)| == |a| && |multiset(b)| == |b|;
    forall k | 0 <= k < |b| ensures b[k].user in ShareIndex(a) && ShareIndex(a)[b[k].user] == b[k].cents {
      assert b[k] in multiset(b);
      assert b[k] in a;
    }
  }

  lemma SameRowsSameOrder(a: seq<Split>, b: seq<Split>)
    requires DistinctUsers(a) && DistinctUsers(b)
    ensures multiset(a) == multiset(b) <==> InUserOrder(a) == InUserOrder(b)
  {
    InUserOrderFacts(a);
    InUserOrderFacts(b);
    if multiset(a) == multiset(b) {
      SortIgnoresOrder(a, b, ByUser());
    }
  }

  lemma {:induction false} SubsetOfSameSize(b: seq<Split>, a: seq<Split>)
    requires DistinctUsers(b) && |a| == |b|
    requires forall k :: 0 <= k < |b| ==> b[k] in a
    ensures multiset(a) == multiset(b)
  {
    if |b| > 0 {
      var last := b[|b| - 1];
      var at :| 0 <= at < |a| && a[at] == last;
      var rest := a[..at] + a[at + 1..];
      assert a == a[..at] + [last] + a[at + 1..];
      var front := b[..|b| - 1];
      forall k | 0 <= k < |front| ensures front[k] in rest {
        assert b[k] in a && b[k] != last;
      }
      SubsetOfSameSize(front, rest);
      assert b == front + [last];
      assert multiset(a) == multiset(rest) + multiset{last};
    }
  }

  /** splitsEqual: index the first list, then look every entry of the second one up. */
  method CompareSplits(a: seq<Split>, b: seq<Split>) returns (r: bool)
    ensures r == SplitsEqual(a, b)
  {
    if |a| != |b| {
      return false;
    }
    var index: map<Id, int> := map[];
    for i := 0 to |a|
      invariant index == ShareIndex(a[..i])
    {
      assert a[..i + 1][..i] == a[..i];
      index := index[a[i].user := a[i].cents];
    }
    assert a[..|a|] == a;
    for i := 0 to |b|
      invariant forall k :: 0 <= k < i ==> b[k].user in index && index[b[k].user] == b[k].cents
    {
      if b[i].user !in index || index[b[i].user] != b[i].cents {
        return false;
      }
    }
    r := true;
  }

  // ----------------------------------------------------------------------------- the edit

  /** What every stored expense is meant to be. */
  ghost predicate ValidExpense(e: Expense) {
    && 0 < e.amount < TWO_63
    && |e.splits| > 0
    && InKeyOrder(e.splits)
    && NonNegative(Cents(e.splits))
    && Sum(Cents(e.splits)) == e.amount
  }

  /** What the tables themselves enforce of a stored expense, whatever the program computed. */
  ghost predicate Constrained(e: Expense) {
    e.amount > 0 && InKeyOrder(e.splits) && NonNegative(Cents(e.splits))
  }

  /** The CHECK and primary-key constraints of the two tables. */
  predicate Storable(amount: int, splits: seq<Split>) {
    && amount > 0
    && DistinctUsers(splits)
    && forall i :: 0 <= i < |splits| ==> splits[i].cents >= 0
  }

  function SplitsChange(e: Expense, edit: Edit): bool {
    edit.splits.Some? && !SplitsEqual(e.splits, edit.splits.value)
  }

  function AmountChange(e: Expense, edit: Edit): bool {
    edit.amount.Some? && edit.amount.value != e.amount
  }

  /** The split rows after the edit, before they are put in key order. */
  function NewSplits(e: Expense, edit: Edit): seq<Split> {
    if SplitsChange(e, edit) then edit.splits.value
    else if AmountChange(e, edit) then
      var rescaled := Rescaled64(e.splits, e.amount, edit.amount.value);
      if SplitsEqual(e.splits, rescaled) then e.splits else rescaled
    else e.splits
  }

  function IncurredAtChange(e: Expense, edit: Edit): bool {
    edit.incurredAt.Some? && Second(edit.incurredAt.value) != Second(e.incurredAt)
  }

  function RowIf<T>(b: bool, row: T): seq<T> {
    if b then [row] else []
  }

  function DescriptionRows(e: Expense, edit: Edit): seq<Revision> {
    RowIf(edit.description.Some? && edit.description.value != e.description,
          DescriptionRow(e.description, edit.description.GetOr(e.description)))
  }

  function CategoryRows(e: Expense, edit: Edit): seq<Revision> {
    RowIf(edit.category.Some? && edit.category.value != e.category,
          CategoryRow(e.category, edit.category.GetOr(e.category)))
  }

  function PayerRows(e: Expense, edit: Edit): seq<Revision> {
    RowIf(edit.payer.Some? && edit.payer.value != e.payer,
          PayerRow(e.payer, edit.payer.GetOr(e.payer)))
  }

  function IncurredAtRows(e: Expense, edit: Edit): seq<Revision> {
    RowIf(IncurredAtChange(e, edit),
          IncurredAtRow(Second(e.incurredAt), Second(edit.incurredAt.GetOr(e.incurredAt))))
  }

  function SplitsRows(e: Expense, edit: Edit): seq<Revision> {
    RowIf(SplitsChange(e, edit), SplitsRow(InUserOrder(e.splits), InUserOrder(edit.splits.GetOr(e.splits))))
  }

  function AmountRows(e: Expense, edit: Edit): seq<Revision> {
    RowIf(AmountChange(e, edit), AmountRow(e.amount, edit.amount.GetOr(e.amount)))
  }

  /** The revision rows of an edit, in the order they are inserted. */
  function RevisionsOf(e: Expense, edit: Edit): seq<Revision> {
    DescriptionRows(e, edit) + CategoryRows(e, edit) + PayerRows(e, edit)
    + IncurredAtRows(e, edit) + SplitsRows(e, edit) + AmountRows(e, edit)
  }

  function Edited(e: Expense, edit: Edit): Expense {
    e.(description := edit.description.GetOr(e.description),
       category := edit.category.GetOr(e.category),
       payer := edit.payer.GetOr(e.payer),
       incurredAt := if IncurredAtChange(e, edit) then edit.incurredAt.value else e.incurredAt,
       amount := edit.amount.GetOr(e.amount),
       splits := InUserOrder(NewSplits(e, edit)))
  }

  /** ExpenseRepo.Update on a locked row: the new row and the revision rows it appends. */
  function EditExpense(e: Expense, edit: Edit): Result<(Expense, seq<Revision>), RepoError> {
    if e.deleted then Err(NotFound)
    else if |RevisionsOf(e, edit)| == 0 then Ok((e, []))
    else if !Storable(edit.amount.GetOr(e.amount), NewSplits(e, edit)) then Err(ConstraintViolation)
    else Ok((Edited(e, edit), RevisionsOf(e, edit)))
  }

  /** What the service layer promises about an edit: splits resolved for the amount the row
      will have, and a positive amount. */
  ghost predicate ProperEdit(e: Expense, edit: Edit) {
    && (edit.amount.Some? ==> 0 < edit.amount.value < TWO_63)
    && (edit.splits.Some? ==>
          && |edit.splits.value| > 0
          && DistinctUsers(edit.splits.value)
          && NonNegative(Cents(edit.splits.value))
          && Sum(Cents(edit.splits.value)) == edit.amount.GetOr(e.amount))
  }

  /** The shares the program computes are the intended ones: without supplied splits, the new
      amount times each stored share stays below 2^63. */
  ghost predicate EditFits(e: Expense, edit: Edit) {
    AmountChange(e, edit) && edit.splits.None? ==> ProductsFit(edit.amount.value, Cents(e.splits))
  }

  /** Splits resolved for a different amount never look equal to the stored ones, so the
      branch that rescales never overrides splits a user supplied. */
  lemma SuppliedSplitsWin(e: Expense, edit: Edit)
    requires ValidExpense(e) && ProperEdit(e, edit)
    requires edit.splits.Some? && AmountChange(e, edit)
    ensures SplitsChange(e, edit) && NewSplits(e, edit) == edit.splits.value
  {
    KeyOrderDistinct(e.splits);
    SplitsEqualExactly(e.splits, edit.splits.value);
    InUserOrderFacts(e.splits);
    InUserOrderFacts(edit.splits.value);
  }

  lemma KeyOrderDistinct(rows: seq<Split>)
    requires InKeyOrder(rows)
    ensures DistinctUsers(rows)
  {
  }

  /** A rescale to a different amount always writes, and what it writes is valid exactly when no
      share came out negative. */
  lemma RescaleWrites(e: Expense, amount: int)
    requires ValidExpense(e) && 0 < amount < TWO_63 && amount != e.amount
    ensures var r := Rescaled64(e.splits, e.amount, amount);
      && InKeyOrder(r) && !SplitsEqual(e.splits, r)
      && (ValidExpense(e.(amount := amount, splits := r)) <==> NonNegative(Cents(r)))
  {
    var r := Rescaled64(e.splits, e.amount, amount);
    KeyOrderDistinct(e.splits);
    KeyOrderDistinct(r);
    if NonNegative(Cents(r)) {
      Rescaled64Sum(e.splits, e.amount, amount);
    }
    if SplitsEqual(e.splits, r) {
      SplitsEqualExactly(e.splits, r);
      SameRowsSame(e.splits, r);
    }
  }

  /** The same rows have the same signs and the same sum. */
  lemma SameRowsSame(a: seq<Split>, b: seq<Split>)
    requires DistinctUsers(a) && DistinctUsers(b) && multiset(a) == multiset(b) && NonNegative(Cents(a))
    ensures NonNegative(Cents(b)) && Sum(Cents(b)) == Sum(Cents(a))
  {
    SplitsEqualExactly(a, b);
    InUserOrderFacts(a);
    InUserOrderFacts(b);
    forall i | 0 <= i < |b| ensures b[i].cents >= 0 {
      assert b[i] in multiset(b);
      var k :| 0 <= k < |a| && a[k] == b[i];
      assert Cents(a)[k] >= 0;
    }
  }

  /** An edit that goes through leaves no negative share, so supplied splits have none. */
  lemma AcceptedNonNegative(e: Expense, edit: Edit)
    requires ValidExpense(e) && EditExpense(e, edit).Ok?
    ensures NonNegative(Cents(NewSplits(e, edit)))
    ensures edit.splits.Some? && DistinctUsers(edit.splits.value) ==> NonNegative(Cents(edit.splits.value))
  {
    KeyOrderDistinct(e.splits);
    if edit.splits.Some? && DistinctUsers(edit.splits.value) && !SplitsChange(e, edit) {
      SplitsEqualExactly(e.splits, edit.splits.value);
      SameRowsSame(e.splits, edit.splits.value);
    }
  }

  /** Splits without negative shares stay in step with the amount. */
  lemma NewSplitsFit(e: Expense, edit: Edit)
    requires ValidExpense(e) && ProperEdit(e, edit) && NonNegative(Cents(NewSplits(e, edit)))
    ensures |NewSplits(e, edit)| > 0 && DistinctUsers(NewSplits(e, edit))
    ensures Sum(Cents(NewSplits(e, edit))) == edit.amount.GetOr(e.amount)
  {
    KeyOrderDistinct(e.splits);
    if SplitsChange(e, edit) {
    } else if AmountChange(e, edit) {
      if edit.splits.Some? {
        SuppliedSplitsWin(e, edit);
      }
      RescaleWrites(e, edit.amount.value);
      KeyOrderDistinct(Rescaled64(e.splits, e.amount, edit.amount.value));
      Rescaled64Sum(e.splits, e.amount, edit.amount.value);
    }
  }

  /** A proper edit that goes through leaves a valid expense, whichever products overflowed. */
  lemma AcceptedStaysValid(e: Expense, edit: Edit)
    requires ValidExpense(e) && ProperEdit(e, edit) && EditExpense(e, edit).Ok?
    ensures ValidExpense(EditExpense(e, edit).value.0)
  {
    AcceptedNonNegative(e, edit);
    NewSplitsFit(e, edit);
    InUserOrderFacts(NewSplits(e, edit));
    NonNegativeInUserOrder(NewSplits(e, edit));
  }

  /** When the products fit, no share comes out negative. */
  lemma FitsNonNegative(e: Expense, edit: Edit)
    requires ValidExpense(e) && ProperEdit(e, edit) && EditFits(e, edit)
    ensures NonNegative(Cents(NewSplits(e, edit)))
  {
    if !SplitsChange(e, edit) && AmountChange(e, edit) {
      if edit.splits.Some? {
        SuppliedSplitsWin(e, edit);
      }
      Rescaled64Fits(e.splits, e.amount, edit.amount.value);
      RescaledSum(e.splits, e.amount, edit.amount.value);
    }
  }

  /** A proper edit of a live expense goes through when the products fit, and leaves a valid
      expense. */
  lemma EditKeepsValid(e: Expense, edit: Edit)
    requires ValidExpense(e) && ProperEdit(e, edit) && EditFits(e, edit) && !e.deleted
    ensures EditExpense(e, edit).Ok?
    ensures ValidExpense(EditExpense(e, edit).value.0)
  {
    FitsNonNegative(e, edit);
    NewSplitsFit(e, edit);
    forall i | 0 <= i < |NewSplits(e, edit)| ensures NewSplits(e, edit)[i].cents >= 0 {
      assert Cents(NewSplits(e, edit))[i] >= 0;
    }
    AcceptedStaysValid(e, edit);
  }

  /** Saving the same edit a second time appends nothing and changes nothing. */
  lemma EditAgain(e: Expense, edit: Edit)
    requires ValidExpense(e) && ProperEdit(e, edit) && EditExpense(e, edit).Ok?
    ensures EditExpense(EditExpense(e, edit).value.0, edit) == Ok((EditExpense(e, edit).value.0, []))
  {
    AcceptedStaysValid(e, edit);
    var e' := EditExpense(e, edit).value.0;
    if |RevisionsOf(e, edit)| > 0 && edit.splits.Some? {
      var given := edit.splits.value;
      KeyOrderDistinct(e'.splits);
      KeyOrderDistinct(e.splits);
      if SplitsChange(e, edit) {
        InUserOrderFacts(given);
        InUserOrderIdentity(InUserOrder(given));
      } else {
        if AmountChange(e, edit) {
          SuppliedSplitsWin(e, edit);
        }
        InUserOrderIdentity(e.splits);
        assert e'.splits == e.splits;
      }
      SplitsEqualExactly(e'.splits, given);
      SplitsEqualExactly(e.splits, given);
    }
  }

  // --------------------------------------------------------------------------- the replay

  /** Reading one revision row forward. An amount row rescales exactly when the shares do not
      already add up to the new amount. */
  function ReplayRow(e: Expense, row: Revision): Expense {
    match row
    case DescriptionRow(_, text) => e.(description := text)
    case CategoryRow(_, id) => e.(category := id)
    case PayerRow(_, id) => e.(payer := id)
    case IncurredAtRow(_, second) => e.(incurredAt := second * SECOND)
    case SplitsRow(_, splits) => e.(splits := splits)
    case AmountRow(from, amount) =>
      if Sum(Cents(e.splits)) == amount then e.(amount := amount)
      else e.(amount := amount, splits := Rescaled64(e.splits, from, amount))
  }

  function Replay(e: Expense, rows: seq<Revision>): Expense {
    if |rows| == 0 then e
    else ReplayRow(Replay(e, rows[..|rows| - 1]), rows[|rows| - 1])
  }

  lemma {:induction false} ReplayConcat(e: Expense, a: seq<Revision>, b: seq<Revision>)
    ensures Replay(e, a + b) == Replay(Replay(e, a), b)
  {
    if |b| == 0 {
      assert a + b == a;
    } else {
      ReplayConcat(e, a, b[..|b| - 1]);
      assert (a + b)[..|a + b| - 1] == a + b[..|b| - 1];
    }
  }

  lemma ReplayRowIf(x: Expense, b: bool, row: Revision)
    ensures Replay(x, RowIf(b, row)) == if b then ReplayRow(x, row) else x
  {
    assert [row][..0] == [];
  }

  /** The same expense, up to fractions of a second and the deletion mark. */
  predicate SameRecord(a: Expense, b: Expense) {
    a.(incurredAt := Second(a.incurredAt), deleted := false)
    == b.(incurredAt := Second(b.incurredAt), deleted := false)
  }

  /** Replaying an edit's rows on any record of the expense before gives a record of the
      expense after, although a rescale leaves no splits row behind. */
  lemma EditReplays(before: Expense, e: Expense, edit: Edit)
    requires ValidExpense(e) && ProperEdit(e, edit) && EditExpense(e, edit).Ok?
    requires SameRecord(before, e)
    ensures SameRecord(Replay(before, EditExpense(e, edit).value.1), EditExpense(e, edit).value.0)
  {
    var x1 := Replay(before, DescriptionRows(e, edit));
    var e1 := e.(description := edit.description.GetOr(e.description));
    DescriptionReplays(before, e, edit);
    var x2 := Replay(x1, CategoryRows(e, edit));
    var e2 := e1.(category := edit.category.GetOr(e.category));
    CategoryReplays(x1, e, e1, edit);
    var x3 := Replay(x2, PayerRows(e, edit));
    var e3 := e2.(payer := edit.payer.GetOr(e.payer));
    PayerReplays(x2, e, e2, edit);
    var x4 := Replay(x3, IncurredAtRows(e, edit));
    var e4 := e3.(incurredAt := Edited(e, edit).incurredAt);
    IncurredAtReplays(x3, e, e3, edit);
    var x5 := Replay(x4, SplitsRows(e, edit));
    MoneyReplays(x4, e, e4, edit);
    ReplayConcats(before, e, edit);
    assert SameRecord(Replay(x5, AmountRows(e, edit)), Edited(e, edit));
    if |RevisionsOf(e, edit)| == 0 {
      NothingToRecord(e, edit);
    }
  }

  lemma ReplayConcats(before: Expense, e: Expense, edit: Edit)
    ensures Replay(before, RevisionsOf(e, edit)) ==
      Replay(Replay(Replay(Replay(Replay(Replay(before, DescriptionRows(e, edit)), CategoryRows(e, edit)),
        PayerRows(e, edit)), IncurredAtRows(e, edit)), SplitsRows(e, edit)), AmountRows(e, edit))
  {
    var d, c, p := DescriptionRows(e, edit), CategoryRows(e, edit), PayerRows(e, edit);
    var i, s, a := IncurredAtRows(e, edit), SplitsRows(e, edit), AmountRows(e, edit);
    ReplayConcat(before, d, c);
    ReplayConcat(before, d + c, p);
    ReplayConcat(before, d + c + p, i);
    ReplayConcat(before, d + c + p + i, s);
    ReplayConcat(before, d + c + p + i + s, a);
  }

  lemma DescriptionReplays(x: Expense, e: Expense, edit: Edit)
    requires SameRecord(x, e)
    ensures SameRecord(Replay(x, DescriptionRows(e, edit)), e.(description := edit.description.GetOr(e.description)))
  {
    ReplayRowIf(x, edit.description.Some? && edit.description.value != e.description,
                DescriptionRow(e.description, edit.description.GetOr(e.description)));
  }

  lemma CategoryReplays(x: Expense, e: Expense, now: Expense, edit: Edit)
    requires SameRecord(x, now) && now.category == e.category
    ensures SameRecord(Replay(x, CategoryRows(e, edit)), now.(category := edit.category.GetOr(e.category)))
  {
    ReplayRowIf(x, edit.category.Some? && edit.category.value != e.category,
                CategoryRow(e.category, edit.category.GetOr(e.category)));
  }

  lemma PayerReplays(x: Expense, e: Expense, now: Expense, edit: Edit)
    requires SameRecord(x, now) && now.payer == e.payer
    ensures SameRecord(Replay(x, PayerRows(e, edit)), now.(payer := edit.payer.GetOr(e.payer)))
  {
    ReplayRowIf(x, edit.payer.Some? && edit.payer.value != e.payer,
                PayerRow(e.payer, edit.payer.GetOr(e.payer)));
  }

  lemma IncurredAtReplays(x: Expense, e: Expense, now: Expense, edit: Edit)
    requires SameRecord(x, now) && now.incurredAt == e.incurredAt
    ensures SameRecord(Replay(x, IncurredAtRows(e, edit)), now.(incurredAt := Edited(e, edit).incurredAt))
  {
    ReplayRowIf(x, IncurredAtChange(e, edit),
                IncurredAtRow(Second(e.incurredAt), Second(edit.incurredAt.GetOr(e.incurredAt))));
    var second := Second(edit.incurredAt.GetOr(e.incurredAt));
    assert Second(second * SECOND) == second;
  }

  lemma MoneyReplays(x: Expense, e: Expense, now: Expense, edit: Edit)
    requires ValidExpense(e) && ProperEdit(e, edit)
    requires SameRecord(x, now) && now.amount == e.amount && now.splits == e.splits
    ensures SameRecord(Replay(Replay(x, SplitsRows(e, edit)), AmountRows(e, edit)),
                       now.(amount := edit.amount.GetOr(e.amount), splits := InUserOrder(NewSplits(e, edit))))
  {
    ReplayRowIf(x, SplitsChange(e, edit),
                SplitsRow(InUserOrder(e.splits), InUserOrder(edit.splits.GetOr(e.splits))));
    ReplayRowIf(Replay(x, SplitsRows(e, edit)), AmountChange(e, edit),
                AmountRow(e.amount, edit.amount.GetOr(e.amount)));
    var splits := if SplitsChange(e, edit) then InUserOrder(edit.splits.value) else e.splits;
    assert Replay(x, SplitsRows(e, edit)) == x.(splits := splits);
    AmountReplays(e, edit);
  }

  /** Which splits reading the amount row leaves, after the splits row if there was one. */
  lemma AmountReplays(e: Expense, edit: Edit)
    requires ValidExpense(e) && ProperEdit(e, edit)
    ensures var splits := if SplitsChange(e, edit) then InUserOrder(edit.splits.value) else e.splits;
      InUserOrder(NewSplits(e, edit))
      == if AmountChange(e, edit) && Sum(Cents(splits)) != edit.amount.value
         then Rescaled64(splits, e.amount, edit.amount.value) else splits
  {
    InUserOrderIdentity(e.splits);
    if SplitsChange(e, edit) {
      InUserOrderFacts(edit.splits.value);
    } else if AmountChange(e, edit) {
      if edit.splits.Some? {
        SuppliedSplitsWin(e, edit);
      }
      RescaleWrites(e, edit.amount.value);
      InUserOrderIdentity(Rescaled64(e.splits, e.amount, edit.amount.value));
    }
  }

  lemma NothingToRecord(e: Expense, edit: Edit)
    requires ValidExpense(e) && |RevisionsOf(e, edit)| == 0
    ensures Edited(e, edit) == e
  {
    InUserOrderIdentity(e.splits);
  }

  // ------------------------------------------------------------- what an edit does, field by field

  /** What a revision row is about. */
  datatype Kind = OfDescription | OfCategory | OfPayer | OfDate | OfSplits | OfAmount

  predicate Is(row: Revision, kind: Kind) {
    match kind
    case OfDescription => row.DescriptionRow?
    case OfCategory => row.CategoryRow?
    case OfPayer => row.PayerRow?
    case OfDate => row.IncurredAtRow?
    case OfSplits => row.SplitsRow?
    case OfAmount => row.AmountRow?
  }

  /** The rows of one kind, in order. */
  function Those(rows: seq<Revision>, kind: Kind): seq<Revision> {
    if |rows| == 0 then []
    else
      var front, last := Those(rows[..|rows| - 1], kind), rows[|rows| - 1];
      if Is(last, kind) then front + [last] else front
  }

  lemma {:induction false} ThoseConcat(a: seq<Revision>, b: seq<Revision>, kind: Kind)
    ensures Those(a + b, kind) == Those(a, kind) + Those(b, kind)
  {
    if |b| == 0 {
      assert a + b == a;
    } else {
      ThoseConcat(a, b[..|b| - 1], kind);
      assert (a + b)[..|a + b| - 1] == a + b[..|b| - 1];
    }
  }

  /** One revision at most, of one kind. */
  predicate OneOf(rows: seq<Revision>, kind: Kind) {
    rows == [] || (|rows| == 1 && Is(rows[0], kind))
  }

  lemma ThoseOfOne(rows: seq<Revision>, mine: Kind, kind: Kind)
    requires OneOf(rows, mine)
    ensures Those(rows, kind) == Part(rows, mine, kind)
  {
    if |rows| == 1 {
      assert rows[..0] == [];
    }
  }

  lemma ThoseConcats(d: seq<Revision>, c: seq<Revision>, p: seq<Revision>, i: seq<Revision>, s: seq<Revision>,
                     a: seq<Revision>, kind: Kind)
    ensures Those(d + c + p + i + s + a, kind)
         == Those(d, kind) + Those(c, kind) + Those(p, kind) + Those(i, kind) + Those(s, kind) + Those(a, kind)
  {
    ThoseConcat(d, c, kind);
    ThoseConcat(d + c, p, kind);
    ThoseConcat(d + c + p, i, kind);
    ThoseConcat(d + c + p + i, s, kind);
    ThoseConcat(d + c + p + i + s, a, kind);
  }

  function Part(part: seq<Revision>, mine: Kind, kind: Kind): seq<Revision> {
    if mine == kind then part else []
  }

  lemma PartsOfSix(d: seq<Revision>, c: seq<Revision>, p: seq<Revision>, i: seq<Revision>, s: seq<Revision>,
                   a: seq<Revision>, kind: Kind)
    ensures Part(d, OfDescription, kind) + Part(c, OfCategory, kind) + Part(p, OfPayer, kind)
            + Part(i, OfDate, kind) + Part(s, OfSplits, kind) + Part(a, OfAmount, kind)
         == match kind
            case OfDescription => d
            case OfCategory => c
            case OfPayer => p
            case OfDate => i
            case OfSplits => s
            case OfAmount => a
  {
  }

  lemma ThoseOfSix(d: seq<Revision>, c: seq<Revision>, p: seq<Revision>, i: seq<Revision>, s: seq<Revision>,
                   a: seq<Revision>, kind: Kind)
    requires OneOf(d, OfDescription) && OneOf(c, OfCategory) && OneOf(p, OfPayer)
    requires OneOf(i, OfDate) && OneOf(s, OfSplits) && OneOf(a, OfAmount)
    ensures Those(d + c + p + i + s + a, kind)
         == Part(d, OfDescription, kind) + Part(c, OfCategory, kind) + Part(p, OfPayer, kind)
            + Part(i, OfDate, kind) + Part(s, OfSplits, kind) + Part(a, OfAmount, kind)
  {
    ThoseConcats(d, c, p, i, s, a, kind);
    ThoseOfOne(d, OfDescription, kind);
    ThoseOfOne(c, OfCategory, kind);
    ThoseOfOne(p, OfPayer, kind);
    ThoseOfOne(i, OfDate, kind);
    ThoseOfOne(s, OfSplits, kind);
    ThoseOfOne(a, OfAmount, kind);
  }

  lemma EditLogs(e: Expense, edit: Edit, kind: Kind)
    ensures Those(RevisionsOf(e, edit), kind)
         == match kind
            case OfDescription => DescriptionRows(e, edit)
            case OfCategory => CategoryRows(e, edit)
            case OfPayer => PayerRows(e, edit)
            case OfDate => IncurredAtRows(e, edit)
            case OfSplits => SplitsRows(e, edit)
            case OfAmount => AmountRows(e, edit)
  {
    ThoseOfSix(DescriptionRows(e, edit), CategoryRows(e, edit), PayerRows(e, edit), IncurredAtRows(e, edit),
               SplitsRows(e, edit), AmountRows(e, edit), kind);
    PartsOfSix(DescriptionRows(e, edit), CategoryRows(e, edit), PayerRows(e, edit), IncurredAtRows(e, edit),
               SplitsRows(e, edit), AmountRows(e, edit), kind);
  }

  /** What an accepted edit answers: the row and the rows it logs. */
  lemma EditAnswers(e: Expense, edit: Edit)
    requires EditExpense(e, edit).Ok?
    ensures !e.deleted && EditExpense(e, edit).value.1 == RevisionsOf(e, edit)
    ensures EditExpense(e, edit).value.0 == if RevisionsOf(e, edit) == [] then e else Edited(e, edit)
  {
  }

  /** Nothing logged means nothing changed, in the plain fields. */
  lemma NothingLogged(e: Expense, edit: Edit)
    requires RevisionsOf(e, edit) == []
    ensures DescriptionRows(e, edit) == [] && CategoryRows(e, edit) == [] && PayerRows(e, edit) == []
    ensures IncurredAtRows(e, edit) == [] && SplitsRows(e, edit) == [] && AmountRows(e, edit) == []
  {
  }

  /** The plain fields: an accepted edit sets what it names to the value given and leaves the rest
      alone, and logs a field once, with its old and new value, exactly when it changed. */
  lemma EditWritesFields(e: Expense, edit: Edit)
    requires EditExpense(e, edit).Ok?
    ensures var (e', rows) := EditExpense(e, edit).value;
      && e'.group == e.group && e'.createdBy == e.createdBy && e'.currency == e.currency && !e.deleted && !e'.deleted
      && e'.description == (if edit.description.Some? then edit.description.value else e.description)
      && e'.category == (if edit.category.Some? then edit.category.value else e.category)
      && e'.payer == (if edit.payer.Some? then edit.payer.value else e.payer)
      && e'.amount == (if edit.amount.Some? then edit.amount.value else e.amount)
      && Those(rows, OfDescription)
         == (if e'.description != e.description then [DescriptionRow(e.description, e'.description)] else [])
      && Those(rows, OfCategory)
         == (if e'.category != e.category then [CategoryRow(e.category, e'.category)] else [])
      && Those(rows, OfPayer) == (if e'.payer != e.payer then [PayerRow(e.payer, e'.payer)] else [])
      && Those(rows, OfAmount) == (if e'.amount != e.amount then [AmountRow(e.amount, e'.amount)] else [])
  {
    EditAnswers(e, edit);
    EditLogs(e, edit, OfDescription);
    EditLogs(e, edit, OfCategory);
    EditLogs(e, edit, OfPayer);
    EditLogs(e, edit, OfAmount);
    if RevisionsOf(e, edit) == [] {
      NothingLogged(e, edit);
    }
  }

  /** The date: it becomes the given one, forward or back, exactly when the second differs, with
      one row that has both seconds; within the same second it stays. */
  lemma EditWritesDate(e: Expense, edit: Edit)
    requires EditExpense(e, edit).Ok?
    ensures var (e', rows) := EditExpense(e, edit).value;
      if edit.incurredAt.Some? && edit.incurredAt.value / SECOND != e.incurredAt / SECOND then
        && e'.incurredAt == edit.incurredAt.value
        && Those(rows, OfDate)
           == [IncurredAtRow(e.incurredAt / SECOND, edit.incurredAt.value / SECOND)]
      else
        e'.incurredAt == e.incurredAt && Those(rows, OfDate) == []
  {
    EditAnswers(e, edit);
    EditLogs(e, edit, OfDate);
    if RevisionsOf(e, edit) == [] {
      NothingLogged(e, edit);
    }
  }

  /** The splits: supplied rows that differ from the stored ones replace them, with one row that
      has both lists; otherwise a changed amount rescales the stored ones, without a row. */
  lemma EditWritesSplits(e: Expense, edit: Edit)
    requires InKeyOrder(e.splits) && (edit.splits.Some? ==> DistinctUsers(edit.splits.value))
    requires EditExpense(e, edit).Ok?
    ensures var (e', rows) := EditExpense(e, edit).value;
      && InKeyOrder(e'.splits)
      && if edit.splits.Some? && multiset(edit.splits.value) != multiset(e.splits) then
           multiset(e'.splits) == multiset(edit.splits.value)
           && Those(rows, OfSplits) == [SplitsRow(e.splits, e'.splits)]
         else
           && e'.splits == (if edit.amount.Some? && edit.amount.value != e.amount
                            then Rescaled64(e.splits, e.amount, edit.amount.value) else e.splits)
           && Those(rows, OfSplits) == []
  {
    EditAnswers(e, edit);
    EditLogs(e, edit, OfSplits);
    if RevisionsOf(e, edit) == [] {
      NothingLogged(e, edit);
    }
    KeyOrderDistinct(e.splits);
    InUserOrderIdentity(e.splits);
    if edit.splits.Some? {
      SplitsEqualExactly(e.splits, edit.splits.value);
      InUserOrderFacts(edit.splits.value);
    }
    if !SplitsChange(e, edit) && AmountChange(e, edit) {
      RescaledOrKept(e, edit.amount.value);
    }
  }

  /** Rescaled rows that compare equal to the stored ones are the stored ones. */
  lemma RescaledOrKept(e: Expense, amount: int)
    requires InKeyOrder(e.splits)
    ensures var r := Rescaled64(e.splits, e.amount, amount);
      InKeyOrder(r) && InUserOrder(r) == r && (SplitsEqual(e.splits, r) ==> r == e.splits)
  {
    var r := Rescaled64(e.splits, e.amount, amount);
    KeyOrderDistinct(e.splits);
    KeyOrderDistinct(r);
    InUserOrderIdentity(e.splits);
    InUserOrderIdentity(r);
    SplitsEqualExactly(e.splits, r);
  }
}
