/** The stored state of the application's money tables. */
module Tables {
  import opened Core
  import opened Expenses

  datatype SplitEntry = SplitEntry(user: Id, basisPoints: int)

  /** A group with its membership rows. */
  datatype Group = Group(
    name: string,
    currency: string,
    owner: Id,
    members: set<Id>,
    defaultSplit: Option<seq<SplitEntry>>)

  datatype Settlement = Settlement(
    group: Id,
    from: Id,
    to: Id,
    amount: int,
    note: string,
    settledAt: int,
    deleted: bool)

  /** One database state. User rows are never removed, only marked deleted. The last two fields
      are history: the row each expense was created as, and the expenses that were created
      without naming a currency. */
  datatype State = State(
    users: set<Id>,
    groups: map<Id, Group>,
    expenses: map<Id, Expense>,
    settlements: map<Id, Settlement>,
    revisions: map<Id, seq<Revision>>,
    created: map<Id, Expense>,
    defaulted: set<Id>)

  const EMPTY: State := State({}, map[], map[], map[], map[], map[], {})

  predicate IsMember(s: State, group: Id, user: Id) {
    group in s.groups && user in s.groups[group].members
  }

  predicate LiveExpense(e: Expense, group: Id) {
    e.group == group && !e.deleted
  }

  predicate LiveSettlement(t: Settlement, group: Id) {
    t.group == group && !t.deleted
  }

  /** The group has at least one expense or settlement that is not deleted. */
  predicate HasActivity(s: State, group: Id) {
    || (exists id :: id in s.expenses && LiveExpense(s.expenses[id], group))
    || (exists id :: id in s.settlements && LiveSettlement(s.settlements[id], group))
  }
}
