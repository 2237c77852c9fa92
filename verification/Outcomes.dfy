/** Each service call from the outside: exactly when it is accepted, and then every field of what it
    writes and that nothing else changes. */
module Outcomes {
  import opened Core
  import opened Splits
  import opened Rescale
  import opened Expenses
  import opened Tables
  import opened Balances
  import opened Ledger
  import opened Invariants

  /** What a resolver answer that was accepted hands out. */
  predicate Resolved(mode: Mode, amount: int, input: seq<SplitInput>, shares: seq<Split>) {
    Resolve64(mode, amount, input) == Returned(Ok(shares))
  }

  /** The stored rows are these, one per user, sorted by user. */
  predicate StoredAs(stored: seq<Split>, shares: seq<Split>) {
    && multiset(stored) == multiset(shares)
    && forall i, j :: 0 <= i < j < |stored| ==> stored[i].user < stored[j].user
  }

  /** At most the expense under this id, its history and its created row differ. */
  ghost predicate OnlyExpense(s: State, s': State, id: Id) {
    && s'.users == s.users && s'.groups == s.groups && s'.settlements == s.settlements
    && s'.expenses.Keys == s.expenses.Keys + {id}
    && (forall k :: k in s.expenses && k != id ==> s'.expenses[k] == s.expenses[k])
    && (forall k :: k != id ==> (k in s'.revisions <==> k in s.revisions))
    && (forall k :: k in s.revisions && k != id ==> s'.revisions[k] == s.revisions[k])
    && (forall k :: k != id ==> (k in s'.created <==> k in s.created))
    && (forall k :: k in s.created && k != id ==> s'.created[k] == s.created[k])
    && (forall k :: k != id ==> (k in s'.defaulted <==> k in s.defaulted))
  }

  /** A new row starts its history: nothing revised, created as it stands. */
  ghost predicate FreshExpense(s: State, s': State, id: Id) {
    && id !in s.expenses && OnlyExpense(s, s', id)
    && id in s'.created && s'.created[id] == s'.expenses[id]
    && id in s'.revisions && s'.revisions[id] == []
  }

  lemma InsertedAs(s: State, id: Id, e: Expense)
    requires InsertExpense(s, id, e).Ok?
    ensures var s' := InsertExpense(s, id, e).value;
      && FreshExpense(s, s', id) && StoredAs(s'.expenses[id].splits, e.splits)
      && s'.expenses[id].(splits := e.splits) == e && s'.defaulted == s.defaulted
  {
    InUserOrderFacts(e.splits);
  }

  // ------------------------------------------------------------------------------ expenses

  /** A created expense holds what the input says: its payer, not the caller, paid; the caller
      created it; an empty currency becomes the group's; the splits are the resolver's. */
  lemma ExpenseCreated(s: State, actor: Id, id: Id, input: ExpenseInput)
    requires CreateExpense(s, actor, id, input).Ok?
    ensures var s' := CreateExpense(s, actor, id, input).value;
      && FreshExpense(s, s', id)
      && (id in s'.defaulted <==> id in s.defaulted || input.currency == "")
      && var e := s'.expenses[id];
         && e.group == input.group && e.group in s.groups
         && e.payer == input.payer && e.createdBy == actor && e.category == input.category
         && e.amount == input.amount && e.description == input.description && e.incurredAt == input.incurredAt
         && e.currency == (if input.currency == "" then s.groups[input.group].currency else input.currency)
         && !e.deleted
         && exists shares :: Resolved(input.mode, input.amount, input.splits, shares) && StoredAs(e.splits, shares)
  {
    var shares := Resolve64(input.mode, input.amount, input.splits).resolution.value;
    var currency := if input.currency == "" then s.groups[input.group].currency else input.currency;
    InsertedAs(s, id, NewExpense(input, actor, currency, shares));
    assert Resolved(input.mode, input.amount, input.splits, shares);
  }

  /** And it is created exactly when a member asks, for a positive amount with a description, with
      payer and split users among the members, and splits that resolve without a negative share. */
  lemma ExpenseCreatable(s: State, actor: Id, id: Id, input: ExpenseInput)
    requires TablesOk(s) && id !in s.expenses
    ensures CreateExpense(s, actor, id, input).Ok? <==>
      && input.group in s.groups && actor in s.groups[input.group].members
      && input.amount > 0 && input.description != ""
      && input.payer in s.groups[input.group].members
      && (forall i :: 0 <= i < |input.splits| ==> input.splits[i].user in s.groups[input.group].members)
      && exists shares: seq<Split> :: (
            Resolved(input.mode, input.amount, input.splits, shares)
            && forall i :: 0 <= i < |shares| ==> shares[i].cents >= 0)
  {
    if input.group in s.groups {
      assert GroupOk(s.groups[input.group], s.users);
    }
    var r := Resolve64(input.mode, input.amount, input.splits);
    if r.Returned? && r.resolution.Ok? {
      ResolvedDistinct(input.mode, input.amount, input.splits);
      ResolvedUsers(input.mode, input.amount, input.splits);
      assert Resolved(input.mode, input.amount, input.splits, r.resolution.value);
    }
  }

  /** The resolver names the input's users, in order. */
  lemma ResolvedUsers(mode: Mode, amount: int, input: seq<SplitInput>)
    requires Resolve64(mode, amount, input).Returned? && Resolve64(mode, amount, input).resolution.Ok?
    ensures var shares := Resolve64(mode, amount, input).resolution.value;
      |shares| == |input| && forall i :: 0 <= i < |input| ==> shares[i].user == input[i].user
  {
  }

  /** Who may update an expense, and with what. */
  predicate MayUpdate(s: State, actor: Id, id: Id, p: ExpensePatch) {
    && (p.description.Some? || p.amount.Some? || p.category.Some? || p.payer.Some?
        || p.mode.Some? || p.splits.Some? || p.incurredAt.Some?)
    && (p.amount.Some? ==> p.amount.value > 0)
    && (p.description.Some? ==> p.description.value != "")
    && (p.mode.Some? <==> p.splits.Some?)
    && id in s.expenses && !s.expenses[id].deleted && s.expenses[id].group in s.groups
    && var members := s.groups[s.expenses[id].group].members;
       && actor in members
       && (p.payer.Some? ==> p.payer.value in members)
       && (p.splits.Some? ==> forall i :: 0 <= i < |p.splits.value| ==> p.splits.value[i].user in members)
  }

  lemma PatchChecks(s: State, actor: Id, id: Id, p: ExpensePatch)
    ensures PatchError(s, actor, id, p).None? <==> MayUpdate(s, actor, id, p)
  {
  }

  /** An update in range is accepted exactly when the caller may make it and supplied splits
      resolve for the amount the expense will have. */
  lemma ExpenseUpdatable(s: State, actor: Id, id: Id, p: ExpensePatch)
    requires LedgerOk(s) && (id in s.expenses ==> PatchInRange(s.expenses[id], p))
    ensures UpdateExpense(s, actor, id, p).Ok? <==>
      && MayUpdate(s, actor, id, p)
      && (p.splits.Some? ==>
            var amount := if p.amount.Some? then p.amount.value else s.expenses[id].amount;
            exists shares :: Resolved(p.mode.value, amount, p.splits.value, shares))
  {
    PatchChecks(s, actor, id, p);
    UpdateNeverViolates(s, actor, id, p);
    if MayUpdate(s, actor, id, p) && p.splits.Some? {
      var r := Resolve64(p.mode.value, p.amount.GetOr(s.expenses[id].amount), p.splits.value);
      if r.Returned? && r.resolution.Ok? {
        assert Resolved(p.mode.value, p.amount.GetOr(s.expenses[id].amount), p.splits.value, r.resolution.value);
      }
    }
  }

  /** An accepted update writes the fields the patch names and nothing else, and its history grows
      by the rows of the fields that changed. */
  lemma ExpenseUpdated(s: State, actor: Id, id: Id, p: ExpensePatch)
    requires UpdateExpense(s, actor, id, p).Ok?
    ensures MayUpdate(s, actor, id, p)
    ensures var s' := UpdateExpense(s, actor, id, p).value;
      && OnlyExpense(s, s', id) && (id in s'.created <==> id in s.created)
      && (id in s.created ==> s'.created[id] == s.created[id]) && (id in s'.defaulted <==> id in s.defaulted)
      && id in s'.revisions && (id in s.revisions ==> s.revisions[id] <= s'.revisions[id])
      && var e, e' := s.expenses[id], s'.expenses[id];
         var rows := s'.revisions[id][if id in s.revisions then |s.revisions[id]| else 0..];
         && e'.group == e.group && e'.createdBy == e.createdBy && e'.currency == e.currency && !e'.deleted
         && e'.description == (if p.description.Some? then p.description.value else e.description)
         && e'.category == (if p.category.Some? then p.category.value else e.category)
         && e'.payer == (if p.payer.Some? then p.payer.value else e.payer)
         && e'.amount == (if p.amount.Some? then p.amount.value else e.amount)
         && e'.incurredAt == (if p.incurredAt.Some? && p.incurredAt.value / SECOND != e.incurredAt / SECOND
                              then p.incurredAt.value else e.incurredAt)
         && Those(rows, OfDescription)
            == (if e'.description != e.description then [DescriptionRow(e.description, e'.description)] else [])
         && Those(rows, OfCategory) == (if e'.category != e.category then [CategoryRow(e.category, e'.category)] else [])
         && Those(rows, OfPayer) == (if e'.payer != e.payer then [PayerRow(e.payer, e'.payer)] else [])
         && Those(rows, OfAmount) == (if e'.amount != e.amount then [AmountRow(e.amount, e'.amount)] else [])
         && Those(rows, OfDate)
            == (if e'.incurredAt != e.incurredAt
                then [IncurredAtRow(e.incurredAt / SECOND, e'.incurredAt / SECOND)] else [])
  {
    PatchChecks(s, actor, id, p);
    var edit := EditOf(p, ResolvePatch(s.expenses[id], p).value);
    var answer := UpdatedWith(s, actor, id, p, edit);
    EditWritesFields(s.expenses[id], edit);
    EditWritesDate(s.expenses[id], edit);
  }

  lemma UpdatedWith(s: State, actor: Id, id: Id, p: ExpensePatch, edit: Edit) returns (answer: (Expense, seq<Revision>))
    requires UpdateExpense(s, actor, id, p).Ok? && ResolvePatch(s.expenses[id], p).Ok?
    requires edit == EditOf(p, ResolvePatch(s.expenses[id], p).value)
    ensures EditExpense(s.expenses[id], edit) == Ok(answer)
    ensures var s' := UpdateExpense(s, actor, id, p).value;
      && OnlyExpense(s, s', id) && s'.created == s.created && s'.defaulted == s.defaulted
      && s'.expenses[id] == answer.0 && id in s'.revisions
      && s'.revisions[id] == (if id in s.revisions then s.revisions[id] else []) + answer.1
  {
    answer := EditExpense(s.expenses[id], edit).value;
  }

  /** The splits of an accepted update: the resolver's rows when the patch has splits that differ
      from the stored ones, otherwise the stored ones, rescaled if the amount changed. */
  lemma SplitsUpdated(s: State, actor: Id, id: Id, p: ExpensePatch)
    requires UpdateExpense(s, actor, id, p).Ok? && InKeyOrder(s.expenses[id].splits)
    ensures var e, e' := s.expenses[id], UpdateExpense(s, actor, id, p).value.expenses[id];
      && (p.splits.Some? ==> p.mode.Some? && exists shares ::
            && Resolved(p.mode.value, e'.amount, p.splits.value, shares)
            && (multiset(shares) != multiset(e.splits) ==> StoredAs(e'.splits, shares))
            && (multiset(shares) == multiset(e.splits) ==>
                  e'.splits == if e'.amount != e.amount then Rescaled64(e.splits, e.amount, e'.amount) else e.splits))
      && (p.splits.None? ==>
            e'.splits == if e'.amount != e.amount then Rescaled64(e.splits, e.amount, e'.amount) else e.splits)
  {
    PatchChecks(s, actor, id, p);
    var edit := EditOf(p, ResolvePatch(s.expenses[id], p).value);
    var answer := UpdatedWith(s, actor, id, p, edit);
    EditWritesFields(s.expenses[id], edit);
    if p.splits.Some? {
      ResolvedDistinct(p.mode.value, answer.0.amount, p.splits.value);
      assert Resolved(p.mode.value, answer.0.amount, p.splits.value, edit.splits.value);
    }
    EditWritesSplits(s.expenses[id], edit);
  }

  /** A live expense is marked deleted, by any member of its group, and nothing else happens. */
  lemma ExpenseDeleted(s: State, actor: Id, id: Id)
    ensures DeleteExpense(s, actor, id).Ok? <==>
      && id in s.expenses && !s.expenses[id].deleted
      && s.expenses[id].group in s.groups && actor in s.groups[s.expenses[id].group].members
    ensures DeleteExpense(s, actor, id).Ok? ==>
      var s' := DeleteExpense(s, actor, id).value;
      && OnlyExpense(s, s', id) && s' == s.(expenses := s'.expenses)
      && s'.expenses[id].deleted && s'.expenses[id].(deleted := false) == s.expenses[id]
  {
  }

  /** The expense of a template at a date, field by field. */
  ghost predicate ExpenseOf(e: Expense, t: Template, at: int) {
    && e.incurredAt == at && e.payer == t.payer && e.createdBy == t.payer
    && e.group == t.group && e.category == t.category && e.amount == t.amount
    && e.currency == t.currency && e.description == t.description && !e.deleted
    && exists shares :: Resolved(t.mode, t.amount, t.splits, shares) && StoredAs(e.splits, shares)
  }

  /** What a tick inserts for one date of a template carries that date and the template's content,
      and is attributed to the template's payer. */
  lemma TemplateMaterialized(s: State, id: Id, t: Template, at: int)
    requires Materialize(s, id, t, at).Ok?
    ensures var s' := Materialize(s, id, t, at).value;
      && FreshExpense(s, s', id) && s'.defaulted == s.defaulted && ExpenseOf(s'.expenses[id], t, at)
  {
    var shares := Resolve64(t.mode, t.amount, t.splits).resolution.value;
    InsertedAs(s, id, Expense(t.group, t.payer, t.payer, t.category, t.amount, t.currency,
                              t.description, at, shares, false));
    assert Resolved(t.mode, t.amount, t.splits, shares);
  }

  // --------------------------------------------------------------------------- settlements

  /** A settlement is recorded exactly when its payer asks, for a positive amount, between two
      different members, and then holds what the input says. */
  lemma SettlementCreated(s: State, actor: Id, id: Id, input: SettlementInput)
    requires id !in s.settlements
    ensures CreateSettlement(s, actor, id, input).Ok? <==>
      && input.amount > 0 && input.from != input.to && actor == input.from && input.group in s.groups
      && input.from in s.groups[input.group].members && input.to in s.groups[input.group].members
    ensures CreateSettlement(s, actor, id, input).Ok? ==>
      var s' := CreateSettlement(s, actor, id, input).value;
      && s' == s.(settlements := s'.settlements) && s'.settlements.Keys == s.settlements.Keys + {id}
      && (forall k :: k in s.settlements ==> s'.settlements[k] == s.settlements[k])
      && var t := s'.settlements[id];
         && t.group == input.group && t.from == input.from && t.to == input.to && t.amount == input.amount
         && t.note == input.note && t.settledAt == input.settledAt && !t.deleted
  {
  }

  /** A live settlement is marked deleted, by any member of its group. */
  lemma SettlementDeleted(s: State, actor: Id, id: Id)
    ensures DeleteSettlement(s, actor, id).Ok? <==>
      && id in s.settlements && !s.settlements[id].deleted
      && s.settlements[id].group in s.groups && actor in s.groups[s.settlements[id].group].members
    ensures DeleteSettlement(s, actor, id).Ok? ==>
      var s' := DeleteSettlement(s, actor, id).value;
      && s' == s.(settlements := s'.settlements) && s'.settlements.Keys == s.settlements.Keys
      && (forall k :: k in s.settlements && k != id ==> s'.settlements[k] == s.settlements[k])
      && s'.settlements[id].deleted && s'.settlements[id].(deleted := false) == s.settlements[id]
  {
  }

  // -------------------------------------------------------------------------------- groups

  /** At most the group under this id differs. */
  ghost predicate OnlyGroup(s: State, s': State, group: Id) {
    && s' == s.(groups := s'.groups) && s'.groups.Keys == s.groups.Keys + {group}
    && forall g :: g in s.groups && g != group ==> s'.groups[g] == s.groups[g]
  }

  /** Upper case of a letter, itself otherwise. */
  predicate UpperOf(c: char, upper: char) {
    upper == if 'a' <= c && c <= 'z' then 'A' + (c - 'a') else c
  }

  /** Three characters, put in upper case. */
  predicate CurrencyOf(given: string, stored: string) {
    |given| == 3 && |stored| == 3 && forall i :: 0 <= i < 3 ==> UpperOf(given[i], stored[i])
  }

  /** A new group has its creator as owner and only member, the given currency in upper case or
      euros, and no default split. */
  lemma GroupCreated(s: State, id: Id, name: string, currency: string, creator: Id)
    requires id !in s.groups
    ensures CreateGroup(s, id, name, currency, creator).Ok? <==>
      name != "" && (currency == "" || |currency| == 3) && creator in s.users
    ensures CreateGroup(s, id, name, currency, creator).Ok? ==>
      var s' := CreateGroup(s, id, name, currency, creator).value;
      && OnlyGroup(s, s', id)
      && var g := s'.groups[id];
         && g.name == name && g.owner == creator && g.members == {creator} && g.defaultSplit.None?
         && if currency == "" then g.currency == "EUR" else CurrencyOf(currency, g.currency)
  {
  }

  /** A member may change the name, the default split of a pair, and, while there is no live row,
      the currency; only the owner may hand the group over, and only to a member. */
  lemma GroupUpdatable(s: State, group: Id, actor: Id, p: GroupPatch)
    ensures UpdateGroup(s, group, actor, p).Ok? <==>
      && group in s.groups && actor in s.groups[group].members
      && (p.name.Some? || p.currency.Some? || p.defaultSplit.Some? || p.owner.Some?)
      && (p.name.Some? ==> p.name.value != "")
      && (p.currency.Some? ==>
            |p.currency.value| == 3 && (CurrencyOf(p.currency.value, s.groups[group].currency) || NoLiveRow(s, group)))
      && (p.defaultSplit.Some? && p.defaultSplit.value != [] ==> PairSplit(p.defaultSplit.value, s.groups[group].members))
      && (p.owner.Some? ==> actor == s.groups[group].owner && p.owner.value in s.groups[group].members)
  {
    assert HasActivity(s, group) <==> !NoLiveRow(s, group);
    if group in s.groups && p.defaultSplit.Some? && |p.defaultSplit.value| > 0 {
      PairSplitExactly(p.defaultSplit.value, s.groups[group].members);
    }
    if group in s.groups && p.currency.Some? && |p.currency.value| == 3 {
      SameCurrency(p.currency.value, s.groups[group].currency);
    }
  }

  /** Every expense and settlement of the group is deleted. */
  predicate NoLiveRow(s: State, group: Id) {
    && (forall k :: k in s.expenses && s.expenses[k].group == group ==> s.expenses[k].deleted)
    && (forall k :: k in s.settlements && s.settlements[k].group == group ==> s.settlements[k].deleted)
  }

  lemma SameCurrency(given: string, stored: string)
    requires |given| == 3
    ensures NormalizeCurrency(given).Ok? && |NormalizeCurrency(given).value| == 3
    ensures CurrencyOf(given, NormalizeCurrency(given).value)
    ensures NormalizeCurrency(given).value == stored <==> CurrencyOf(given, stored)
  {
    var cur := NormalizeCurrency(given).value;
    if CurrencyOf(given, stored) {
      assert forall i :: 0 <= i < 3 ==> cur[i] == stored[i];
    }
  }

  /** The group has two members, and each has an entry; the basis points make a whole. */
  predicate PairSplit(split: seq<SplitEntry>, members: set<Id>) {
    && |members| == 2 && |split| == 2
    && split[0].user in members && split[1].user in members && split[0].user != split[1].user
    && split[0].basisPoints >= 0 && split[1].basisPoints >= 0
    && split[0].basisPoints + split[1].basisPoints == 10000
  }

  lemma PairSplitExactly(split: seq<SplitEntry>, members: set<Id>)
    ensures |members| == 2 && DefaultSplitOk(split, members) <==> PairSplit(split, members)
  {
    if |split| == 2 {
      var bps := BasisPoints(split);
      SumPrefix(bps, 0);
      SumPrefix(bps, 1);
      assert bps[..0] == [] && bps[..2] == bps;
    }
  }

  /** Each field the patch names is replaced, an empty default split clears it, and the members stay. */
  lemma GroupUpdated(s: State, group: Id, actor: Id, p: GroupPatch)
    requires UpdateGroup(s, group, actor, p).Ok?
    ensures var s' := UpdateGroup(s, group, actor, p).value;
      && group in s.groups && OnlyGroup(s, s', group)
      && var g, g' := s.groups[group], s'.groups[group];
         && g'.members == g.members
         && g'.name == (if p.name.Some? then p.name.value else g.name)
         && g'.owner == (if p.owner.Some? then p.owner.value else g.owner)
         && (if p.currency.Some? then CurrencyOf(p.currency.value, g'.currency) else g'.currency == g.currency)
         && g'.defaultSplit == (if p.defaultSplit.None? then g.defaultSplit
                                else if p.defaultSplit.value == [] then None else p.defaultSplit)
  {
    if p.currency.Some? {
      SameCurrency(p.currency.value, s.groups[group].currency);
    }
  }

  /** Only the owner may delete a group; its rows go with it and nobody else's. */
  lemma GroupDeleted(s: State, group: Id, actor: Id)
    ensures DeleteGroup(s, group, actor).Ok? <==> group in s.groups && actor == s.groups[group].owner
    ensures DeleteGroup(s, group, actor).Ok? ==>
      var s' := DeleteGroup(s, group, actor).value;
      && s'.users == s.users && s'.groups == s.groups - {group}
      && (forall k :: k in s'.expenses <==> k in s.expenses && s.expenses[k].group != group)
      && (forall k :: k in s'.expenses ==> s'.expenses[k] == s.expenses[k])
      && (forall k :: k in s'.settlements <==> k in s.settlements && s.settlements[k].group != group)
      && (forall k :: k in s'.settlements ==> s'.settlements[k] == s.settlements[k])
      && (forall k :: k in s'.revisions <==> k in s.revisions && k in s'.expenses)
      && (forall k :: k in s'.revisions ==> s'.revisions[k] == s.revisions[k])
  {
  }

  /** Any member may invite a known user; a third member ends the default split. */
  lemma MemberAdded(s: State, group: Id, actor: Id, invitee: Option<Id>)
    ensures AddMember(s, group, actor, invitee).Ok? <==>
      && group in s.groups && actor in s.groups[group].members && invitee.Some? && invitee.value in s.users
    ensures AddMember(s, group, actor, invitee).Ok? ==>
      var s' := AddMember(s, group, actor, invitee).value;
      && OnlyGroup(s, s', group)
      && var g, g' := s.groups[group], s'.groups[group];
         && g'.members == g.members + {invitee.value} && g'.name == g.name && g'.currency == g.currency
         && g'.owner == g.owner && g'.defaultSplit == (if |g'.members| > 2 then None else g.defaultSplit)
  {
  }

  /** Members may leave whatever their balance, the owner may remove others whose balance is zero,
      and the owner never goes; below two members the default split ends. */
  lemma MemberRemoved(s: State, group: Id, actor: Id, target: Id)
    ensures RemoveMember(s, group, actor, target).Ok? <==>
      && group in s.groups && target in s.groups[group].members && target != s.groups[group].owner
      && (|| actor == target
          || (&& actor == s.groups[group].owner && actor in s.groups[group].members
              && NetForUser(s, group, target) == 0))
    ensures RemoveMember(s, group, actor, target).Ok? ==>
      var s' := RemoveMember(s, group, actor, target).value;
      && OnlyGroup(s, s', group)
      && var g, g' := s.groups[group], s'.groups[group];
         && g'.members == g.members - {target} && g'.name == g.name && g'.currency == g.currency
         && g'.owner == g.owner && g'.defaultSplit == (if |g'.members| < 2 then None else g.defaultSplit)
  {
  }

  // ------------------------------------------------------------------------------ refusals

  /** Why an expense is not created: the first of these that applies. */
  lemma ExpenseRefused(s: State, actor: Id, id: Id, input: ExpenseInput)
    ensures var r := CreateExpense(s, actor, id, input);
      var member := input.group in s.groups && actor in s.groups[input.group].members;
      var checked := member && input.amount > 0 && input.description != "";
      && (!member ==> r == Err(NotMember))
      && (member && input.amount <= 0 ==> r == Err(BadAmount))
      && (member && input.amount > 0 && input.description == "" ==> r == Err(DescriptionRequired))
      && (checked && input.payer !in s.groups[input.group].members ==> r == Err(PayerNotMember))
      && (checked && input.payer in s.groups[input.group].members ==>
            && ((exists i :: 0 <= i < |input.splits| && input.splits[i].user !in s.groups[input.group].members) ==>
                  r == Err(SplitNotMember))
            && ((forall i :: 0 <= i < |input.splits| ==> input.splits[i].user in s.groups[input.group].members) ==>
                  match Resolve64(input.mode, input.amount, input.splits)
                  case Panicked => r == Err(Crashed)
                  case Returned(Err(why)) => r == Err(Invalid(why))
                  case Returned(Ok(_)) => r.Ok? || r == Err(Violation)))
  {
  }

  /** Why a settlement is not recorded. */
  lemma SettlementRefused(s: State, actor: Id, id: Id, input: SettlementInput)
    ensures var r := CreateSettlement(s, actor, id, input);
      && (input.amount <= 0 ==> r == Err(BadAmount))
      && (input.amount > 0 && input.from == input.to ==> r == Err(SameParties))
      && (input.amount > 0 && input.from != input.to && actor != input.from ==> r == Err(Forbidden))
      && (input.amount > 0 && input.from != input.to && actor == input.from
          && (input.group !in s.groups || !({input.from, input.to} <= s.groups[input.group].members)) ==>
            r == Err(NotMember))
  {
  }

  /** Why a member is not removed. */
  lemma RemovalRefused(s: State, group: Id, actor: Id, target: Id)
    ensures var r := RemoveMember(s, group, actor, target);
      if group !in s.groups then r == Err(Missing)
      else
        var members, owner := s.groups[group].members, s.groups[group].owner;
        && (actor !in members ==> r == Err(NotMember))
        && (actor in members && target !in members ==> r == Err(Missing))
        && ({actor, target} <= members && actor != target && actor != owner ==> r == Err(NotCreator))
        && ({actor, target} <= members && (actor == target || actor == owner) && target == owner ==>
              r == Err(CannotRemoveCreator))
        && ({actor, target} <= members && actor == owner && target != owner && NetForUser(s, group, target) != 0 ==>
              r == Err(BalanceNotZero))
  {
  }
}
