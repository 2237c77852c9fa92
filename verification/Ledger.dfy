/** The service calls on the money tables, each one atomic, as functions from a state to the
    next state or an error that leaves the state alone. */
module Ledger {
  import opened Core
  import opened Int64
  import opened Splits
  import opened Expenses
  import opened Tables
  import opened Balances

  /** Crashed is a runtime panic that the server turns into an internal error. */
  datatype ServiceError =
    | NotMember
    | Invalid(why: BadSplit)
    | BadAmount
    | DescriptionRequired
    | NameRequired
    | NothingToUpdate
    | ModeWithoutSplits
    | PayerNotMember
    | SplitNotMember
    | Missing
    | Violation
    | SameParties
    | Forbidden
    | InviteeNotFound
    | NotCreator
    | BadCurrency
    | CurrencyLocked
    | BadDefaultSplit
    | CannotRemoveCreator
    | BalanceNotZero
    | NewOwnerNotMember
    | Crashed

  type Next = Result<State, ServiceError>

  // ------------------------------------------------------------------------------ expenses

  datatype ExpenseInput = ExpenseInput(
    group: Id,
    payer: Id,
    category: Id,
    amount: int,
    currency: string,
    description: string,
    incurredAt: int,
    mode: Mode,
    splits: seq<SplitInput>)

  predicate AllMembers(s: State, group: Id, splits: seq<SplitInput>) {
    forall i :: 0 <= i < |splits| ==> IsMember(s, group, splits[i].user)
  }

  /** The foreign keys from an expense and its splits to the users table. */
  predicate KnownUsers(users: set<Id>, payer: Id, splits: seq<Split>) {
    payer in users && forall i :: 0 <= i < |splits| ==> splits[i].user in users
  }

  /** ExpenseRepo.CreateWithSplits: one row, its split rows, an empty edit history. */
  function InsertExpense(s: State, id: Id, e: Expense): Next {
    if id in s.expenses || e.group !in s.groups || e.createdBy !in s.users
       || !Storable(e.amount, e.splits) || !KnownUsers(s.users, e.payer, e.splits) then Err(Violation)
    else
      var stored := e.(splits := InUserOrder(e.splits));
      Ok(s.(expenses := s.expenses[id := stored],
            revisions := s.revisions[id := []],
            created := s.created[id := stored]))
  }

  function CreateExpense(s: State, actor: Id, id: Id, input: ExpenseInput): Next {
    if !IsMember(s, input.group, actor) then Err(NotMember)
    else if input.amount <= 0 then Err(BadAmount)
    else if input.description == "" then Err(DescriptionRequired)
    else if !IsMember(s, input.group, input.payer) then Err(PayerNotMember)
    else if !AllMembers(s, input.group, input.splits) then Err(SplitNotMember)
    else
      var currency := if input.currency == "" then s.groups[input.group].currency else input.currency;
      match Resolve64(input.mode, input.amount, input.splits)
      case Panicked => Err(Crashed)
      case Returned(Err(why)) => Err(Invalid(why))
      case Returned(Ok(shares)) =>
        match InsertExpense(s, id, NewExpense(input, actor, currency, shares))
        case Err(e) => Err(e)
        case Ok(next) => Ok(if input.currency == "" then next.(defaulted := next.defaulted + {id}) else next)
  }

  function NewExpense(input: ExpenseInput, actor: Id, currency: string, shares: seq<Split>): Expense {
    Expense(input.group, input.payer, actor, input.category, input.amount, currency,
            input.description, input.incurredAt, shares, false)
  }

  datatype ExpensePatch = ExpensePatch(
    description: Option<string>,
    amount: Option<int>,
    category: Option<Id>,
    payer: Option<Id>,
    mode: Option<Mode>,
    splits: Option<seq<SplitInput>>,
    incurredAt: Option<int>)

  const NO_PATCH: ExpensePatch := ExpensePatch(None, None, None, None, None, None, None)

  predicate LiveId(s: State, id: Id) {
    id in s.expenses && !s.expenses[id].deleted
  }

  function PatchError(s: State, actor: Id, id: Id, p: ExpensePatch): Option<ServiceError> {
    if p == NO_PATCH then Some(NothingToUpdate)
    else if p.amount.Some? && p.amount.value <= 0 then Some(BadAmount)
    else if p.description == Some("") then Some(DescriptionRequired)
    else if p.mode.Some? != p.splits.Some? then Some(ModeWithoutSplits)
    else if !LiveId(s, id) then Some(Missing)
    else if !IsMember(s, s.expenses[id].group, actor) then Some(NotMember)
    else if p.payer.Some? && !IsMember(s, s.expenses[id].group, p.payer.value) then Some(PayerNotMember)
    else if p.splits.Some? && !AllMembers(s, s.expenses[id].group, p.splits.value) then Some(SplitNotMember)
    else None
  }

  /** The repository edit a patch turns into, given the splits it resolved to. */
  function EditOf(p: ExpensePatch, resolved: Option<seq<Split>>): Edit {
    Edit(p.description, p.amount, p.category, p.payer, p.incurredAt, resolved)
  }

  function ResolvePatch(e: Expense, p: ExpensePatch): Result<Option<seq<Split>>, ServiceError> {
    if p.mode.Some? && p.splits.Some? then
      match Resolve64(p.mode.value, p.amount.GetOr(e.amount), p.splits.value)
      case Panicked => Err(Crashed)
      case Returned(Err(why)) => Err(Invalid(why))
      case Returned(Ok(shares)) => Ok(Some(shares))
    else Ok(None)
  }

  /** ExpenseService.Update, when nobody changes the expense between the service's read and the
      repository's row lock. */
  function UpdateExpense(s: State, actor: Id, id: Id, p: ExpensePatch): Next {
    var problem := PatchError(s, actor, id, p);
    if problem.Some? then Err(problem.value)
    else FinishUpdate(s, s.expenses[id], id, p)
  }

  /** The rest of the update, at the row lock: the splits are resolved against the expense as it
      was read, and written to the expense as it is now. */
  function FinishUpdate(s: State, read: Expense, id: Id, p: ExpensePatch): Next {
    if id !in s.expenses then Err(Missing)
    else
      match ResolvePatch(read, p)
      case Err(e) => Err(e)
      case Ok(resolved) =>
        match EditExpense(s.expenses[id], EditOf(p, resolved))
        case Err(NotFound) => Err(Missing)
        case Err(ConstraintViolation) => Err(Violation)
        case Ok((e, rows)) =>
          var history := if id in s.revisions then s.revisions[id] else [];
          Ok(s.(expenses := s.expenses[id := e], revisions := s.revisions[id := history + rows]))
  }

  function DeleteExpense(s: State, actor: Id, id: Id): Next {
    if !LiveId(s, id) then Err(Missing)
    else if !IsMember(s, s.expenses[id].group, actor) then Err(NotMember)
    else Ok(s.(expenses := s.expenses[id := s.expenses[id].(deleted := true)]))
  }

  /** The content of a recurring template. */
  datatype Template = Template(
    group: Id,
    payer: Id,
    category: Id,
    amount: int,
    currency: string,
    description: string,
    mode: Mode,
    splits: seq<SplitInput>)

  /** What the database takes as an expense of this template: it resolves, no share is negative,
      and the payer and every split user exist. Nothing checked this when it was stored. */
  predicate Insertable(users: set<Id>, t: Template) {
    var r := Resolve64(t.mode, t.amount, t.splits);
    && r.Returned? && r.resolution.Ok?
    && Storable(t.amount, r.resolution.value) && KnownUsers(users, t.payer, r.resolution.value)
  }

  /** What a tick inserts for one due template; nobody's membership is checked. */
  function Materialize(s: State, id: Id, t: Template, at: int): Next {
    match Resolve64(t.mode, t.amount, t.splits)
    case Panicked => Err(Crashed)
    case Returned(Err(why)) => Err(Invalid(why))
    case Returned(Ok(shares)) =>
      InsertExpense(s, id, Expense(t.group, t.payer, t.payer, t.category, t.amount, t.currency,
                                   t.description, at, shares, false))
  }

  // --------------------------------------------------------------------------- settlements

  datatype SettlementInput = SettlementInput(group: Id, from: Id, to: Id, amount: int, note: string, settledAt: int)

  function CreateSettlement(s: State, actor: Id, id: Id, input: SettlementInput): Next {
    if input.amount <= 0 then Err(BadAmount)
    else if input.from == input.to then Err(SameParties)
    else if actor != input.from then Err(Forbidden)
    else if !IsMember(s, input.group, input.from) || !IsMember(s, input.group, input.to) then Err(NotMember)
    else if id in s.settlements then Err(Violation)
    else
      var t := Settlement(input.group, input.from, input.to, input.amount, input.note, input.settledAt, false);
      Ok(s.(settlements := s.settlements[id := t]))
  }

  function DeleteSettlement(s: State, actor: Id, id: Id): Next {
    if id !in s.settlements || s.settlements[id].deleted then Err(Missing)
    else if !IsMember(s, s.settlements[id].group, actor) then Err(NotMember)
    else Ok(s.(settlements := s.settlements[id := s.settlements[id].(deleted := true)]))
  }

  // -------------------------------------------------------------------------------- groups

  const DEFAULT_CURRENCY := "EUR"

  function UpperChar(c: char): char {
    if 'a' <= c <= 'z' then (c as int - 32) as char else c
  }

  /** Empty stays empty; otherwise three letters, in upper case. The input is already trimmed. */
  function NormalizeCurrency(cur: string): Result<string, ServiceError> {
    if cur == "" then Ok("")
    else if |cur| != 3 then Err(BadCurrency)
    else Ok([UpperChar(cur[0]), UpperChar(cur[1]), UpperChar(cur[2])])
  }

  function CreateGroup(s: State, id: Id, name: string, currency: string, creator: Id): Next {
    if name == "" then Err(NameRequired)
    else
      match NormalizeCurrency(currency)
      case Err(e) => Err(e)
      case Ok(cur) =>
        if id in s.groups || creator !in s.users then Err(Violation)
        else Ok(s.(groups := s.groups[id := Group(name, if cur == "" then DEFAULT_CURRENCY else cur,
                                                  creator, {creator}, None)]))
  }

  datatype GroupPatch = GroupPatch(
    name: Option<string>,
    currency: Option<string>,
    defaultSplit: Option<seq<SplitEntry>>,
    owner: Option<Id>)

  const NO_GROUP_PATCH: GroupPatch := GroupPatch(None, None, None, None)

  function BasisPoints(split: seq<SplitEntry>): (r: seq<int>)
    ensures |r| == |split|
  {
    seq(|split|, i requires 0 <= i < |split| => split[i].basisPoints)
  }

  /** validateDefaultSplit: two entries, for two different members, from 0 to 10000 basis
      points each and 10000 together. */
  predicate DefaultSplitOk(split: seq<SplitEntry>, members: set<Id>) {
    && |split| == 2
    && split[0].user in members && split[1].user in members
    && split[0].user != split[1].user
    && 0 <= split[0].basisPoints <= WHOLE && 0 <= split[1].basisPoints <= WHOLE
    && Sum(BasisPoints(split)) == WHOLE
  }

  function GroupPatchError(s: State, group: Id, actor: Id, p: GroupPatch): Option<ServiceError> {
    if !IsMember(s, group, actor) then Some(NotMember)
    else if p == NO_GROUP_PATCH then Some(NothingToUpdate)
    else if p.name == Some("") then Some(NameRequired)
    else
      var g := s.groups[group];
      var currency := if p.currency.Some? then NormalizeCurrency(p.currency.value) else Ok(g.currency);
      if currency.Err? then Some(currency.error)
      else if currency.value == "" && p.currency.Some? then Some(BadCurrency)
      else if currency.value != g.currency && HasActivity(s, group) then Some(CurrencyLocked)
      else if p.defaultSplit.Some? && |p.defaultSplit.value| > 0
              && (|g.members| != 2 || !DefaultSplitOk(p.defaultSplit.value, g.members)) then Some(BadDefaultSplit)
      else if p.owner.Some? && actor != g.owner then Some(NotCreator)
      else if p.owner.Some? && p.owner.value !in g.members then Some(NewOwnerNotMember)
      else None
  }

  function PatchedGroup(g: Group, p: GroupPatch): Group {
    g.(name := p.name.GetOr(g.name),
       currency := if p.currency.Some? then
                     match NormalizeCurrency(p.currency.value)
                     case Ok(cur) => cur
                     case Err(_) => g.currency
                   else g.currency,
       defaultSplit := if p.defaultSplit.Some? then
                         (if |p.defaultSplit.value| == 0 then None else Some(p.defaultSplit.value))
                       else g.defaultSplit,
       owner := p.owner.GetOr(g.owner))
  }

  function UpdateGroup(s: State, group: Id, actor: Id, p: GroupPatch): Next {
    var problem := GroupPatchError(s, group, actor, p);
    if problem.Some? then Err(problem.value)
    else Ok(s.(groups := s.groups[group := PatchedGroup(s.groups[group], p)]))
  }

  /** DELETE FROM groups cascades to the members and to every ledger row of the group. */
  function DeleteGroup(s: State, group: Id, actor: Id): Next {
    if group !in s.groups then Err(Missing)
    else if s.groups[group].owner != actor then Err(NotCreator)
    else
      var expenses := map id | id in s.expenses && s.expenses[id].group != group :: s.expenses[id];
      Ok(State(
        s.users,
        s.groups - {group},
        expenses,
        map id | id in s.settlements && s.settlements[id].group != group :: s.settlements[id],
        map id | id in s.revisions && id in expenses :: s.revisions[id],
        map id | id in s.created && id in expenses :: s.created[id],
        set id | id in s.defaulted && id in expenses))
  }

  function AddMember(s: State, group: Id, actor: Id, invitee: Option<Id>): Next {
    if !IsMember(s, group, actor) then Err(NotMember)
    else if invitee.None? || invitee.value !in s.users then Err(InviteeNotFound)
    else
      var g := s.groups[group].(members := s.groups[group].members + {invitee.value});
      Ok(s.(groups := s.groups[group := if |g.members| > 2 then g.(defaultSplit := None) else g]))
  }

  ghost function RemovalError(s: State, group: Id, actor: Id, target: Id): Option<ServiceError> {
    if group !in s.groups then Some(Missing)
    else if !IsMember(s, group, actor) then Some(NotMember)
    else if !IsMember(s, group, target) then Some(Missing)
    else if actor != s.groups[group].owner && actor != target then Some(NotCreator)
    else if target == s.groups[group].owner then Some(CannotRemoveCreator)
    else if actor != target && NetForUser(s, group, target) != 0 then Some(BalanceNotZero)
    else None
  }

  ghost function RemoveMember(s: State, group: Id, actor: Id, target: Id): Next {
    var problem := RemovalError(s, group, actor, target);
    if problem.Some? then Err(problem.value)
    else
      var g := s.groups[group].(members := s.groups[group].members - {target});
      Ok(s.(groups := s.groups[group := if |g.members| < 2 then g.(defaultSplit := None) else g]))
  }

  // ---------------------------------------------------------------------------------- runs

  datatype Call =
    | RegisterCall(user: Id)
    | CreateExpenseCall(actor: Id, id: Id, input: ExpenseInput)
    | UpdateExpenseCall(actor: Id, id: Id, patch: ExpensePatch)
    | DeleteExpenseCall(actor: Id, id: Id)
    | MaterializeCall(id: Id, template: Template, at: int)
    | CreateSettlementCall(actor: Id, id: Id, settlement: SettlementInput)
    | DeleteSettlementCall(actor: Id, id: Id)
    | CreateGroupCall(id: Id, name: string, currency: string, creator: Id)
    | UpdateGroupCall(group: Id, actor: Id, groupPatch: GroupPatch)
    | DeleteGroupCall(group: Id, actor: Id)
    | AddMemberCall(group: Id, actor: Id, invitee: Option<Id>)
    | RemoveMemberCall(group: Id, actor: Id, target: Id)

  ghost function Answer(s: State, c: Call): Next {
    match c
    case RegisterCall(user) => Ok(s.(users := s.users + {user}))
    case CreateExpenseCall(actor, id, input) => CreateExpense(s, actor, id, input)
    case UpdateExpenseCall(actor, id, patch) => UpdateExpense(s, actor, id, patch)
    case DeleteExpenseCall(actor, id) => DeleteExpense(s, actor, id)
    case MaterializeCall(id, template, at) => Materialize(s, id, template, at)
    case CreateSettlementCall(actor, id, settlement) => CreateSettlement(s, actor, id, settlement)
    case DeleteSettlementCall(actor, id) => DeleteSettlement(s, actor, id)
    case CreateGroupCall(id, name, currency, creator) => CreateGroup(s, id, name, currency, creator)
    case UpdateGroupCall(group, actor, patch) => UpdateGroup(s, group, actor, patch)
    case DeleteGroupCall(group, actor) => DeleteGroup(s, group, actor)
    case AddMemberCall(group, actor, invitee) => AddMember(s, group, actor, invitee)
    case RemoveMemberCall(group, actor, target) => RemoveMember(s, group, actor, target)
  }

  /** No sum of split values wraps; a test on the call and the stored amount alone. */
  ghost predicate CallSumsFit(s: State, c: Call) {
    match c
    case CreateExpenseCall(_, _, input) => input.amount > 0 ==> SumsFit(input.mode, input.amount, input.splits)
    case UpdateExpenseCall(_, id, patch) => id in s.expenses ==> PatchSumsFit(s.expenses[id].amount, patch)
    case MaterializeCall(_, t, _) => t.amount > 0 ==> SumsFit(t.mode, t.amount, t.splits)
    case _ => true
  }

  /** A patch without splits has nothing to test but the size of its amount. */
  ghost predicate PatchSumsFit(amount: int, p: ExpensePatch) {
    || (p.amount.Some? && p.amount.value <= 0)
    || (&& (p.amount.Some? ==> p.amount.value < TWO_63)
        && (p.mode.Some? && p.splits.Some? ==> SumsFit(p.mode.value, p.amount.GetOr(amount), p.splits.value)))
  }

  /** The range in which the program computes the intended shares. With splits, they are in range
      for the amount to be; without, the new amount times each stored share stays below 2^63. */
  ghost predicate PatchInRange(e: Expense, p: ExpensePatch) {
    || (p.amount.Some? && p.amount.value <= 0)
    || (&& (p.amount.Some? ==> p.amount.value < TWO_63)
        && (p.mode.Some? && p.splits.Some? ==> InRange(p.mode.value, p.amount.GetOr(e.amount), p.splits.value))
        && (p.splits.None? && p.amount.Some? ==> ProductsFit(p.amount.value, Cents(e.splits))))
  }

  /** A refused call changes nothing. */
  ghost function After(s: State, c: Call): State {
    match Answer(s, c)
    case Ok(next) => next
    case Err(_) => s
  }

  ghost function Run(s: State, calls: seq<Call>): State {
    if |calls| == 0 then s
    else After(Run(s, calls[..|calls| - 1]), calls[|calls| - 1])
  }

  /** No call of the run has sums that wrap, where it happens. */
  ghost predicate RunSumsFit(s: State, calls: seq<Call>) {
    |calls| == 0
    || (RunSumsFit(s, calls[..|calls| - 1]) && CallSumsFit(Run(s, calls[..|calls| - 1]), calls[|calls| - 1]))
  }
}
