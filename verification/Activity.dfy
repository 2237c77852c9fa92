/** The activity feed: one page of the merged expenses and settlements of a group, continued
    from a cursor, while the tables change between the queries. */
module Activity {
  import opened Core
  import opened Sorting
  import opened Calendar
  import opened Cursor

  datatype Content =
    | Spending(description: string, amount: int, payer: Id, currency: string, category: Id)
    | Payment(payer: Id, payee: Id, amount: int, currency: string, note: string)

  /** What the feed reads of an expense or settlement row. */
  datatype Item = Item(group: Id, occurredAt: int, createdAt: int, deleted: bool, content: Content)

  /** What the feed reads of a recurring template. */
  datatype Template = Template(content: Content, cadence: Cadence)

  /** The two tables at one moment. */
  datatype FeedTables = FeedTables(expenses: map<Id, Item>, settlements: map<Id, Item>)

  // ------------------------------------------------------------------------------ the index

  predicate Before(a: FeedRow, b: FeedRow) {
    || a.occurredAt > b.occurredAt
    || (a.occurredAt == b.occurredAt && a.createdAt > b.createdAt)
    || (a.occurredAt == b.occurredAt && a.createdAt == b.createdAt && a.id > b.id)
  }

  function TableOf(t: FeedTables, k: Kind): map<Id, Item> {
    if k.ExpenseRow? then t.expenses else t.settlements
  }

  /** The row stands for an undeleted item of the group with these times. */
  predicate Listed(t: FeedTables, group: Id, r: FeedRow) {
    var table := TableOf(t, r.kind);
    && r.id in table && table[r.id].group == group && !table[r.id].deleted
    && table[r.id].occurredAt == r.occurredAt && table[r.id].createdAt == r.createdAt
  }

  predicate After(after: Option<FeedRow>, r: FeedRow) {
    after.Some? ==> Before(after.value, r)
  }

  /** What ListByGroup answers: the first `limit` listed rows past the cursor, newest first. */
  ghost predicate IndexAnswer(t: FeedTables, group: Id, limit: nat, after: Option<FeedRow>, rows: seq<FeedRow>) {
    && Ordered(rows, Before)
    && |rows| <= limit
    && (forall i :: 0 <= i < |rows| ==> Listed(t, group, rows[i]) && After(after, rows[i]))
    && (forall r :: Listed(t, group, r) && After(after, r) && r !in rows
          ==> |rows| == limit && forall i :: 0 <= i < |rows| ==> Before(rows[i], r))
  }

  /** Beyond a common beginning, a row of one answer stands beyond it in the other too. */
  lemma PastPrefix(a: seq<FeedRow>, b: seq<FeedRow>, i: nat, j: nat)
    requires i < |b| && i <= |a| && a[..i] == b[..i] && Ordered(b, Before)
    requires j < |a| && a[j] == b[i]
    ensures j >= i
  {
    forall m | 0 <= m < i ensures a[m] == b[m] {
      assert a[..i][m] == b[..i][m];
    }
  }

  /** After a common beginning, one answer cannot hold an earlier row than the other. */
  lemma NotEarlier(
      t: FeedTables, group: Id, limit: nat, after: Option<FeedRow>, a: seq<FeedRow>, b: seq<FeedRow>, i: nat)
    requires IndexAnswer(t, group, limit, after, a) && IndexAnswer(t, group, limit, after, b)
    requires i < |a| && i < |b| && a[..i] == b[..i]
    ensures a[i] == b[i] || Before(a[i], b[i])
  {
    if b[i] in a {
      var j :| 0 <= j < |a| && a[j] == b[i];
      PastPrefix(a, b, i, j);
    }
  }

  lemma {:induction false} AnswersAgree(
      t: FeedTables, group: Id, limit: nat, after: Option<FeedRow>, a: seq<FeedRow>, b: seq<FeedRow>, i: nat)
    requires IndexAnswer(t, group, limit, after, a) && IndexAnswer(t, group, limit, after, b)
    requires i <= |a|
    ensures i <= |b| && a[..i] == b[..i]
  {
    if i > 0 {
      var k := i - 1;
      AnswersAgree(t, group, limit, after, a, b, k);
      if a[k] in b {
        var j :| 0 <= j < |b| && b[j] == a[k];
        PastPrefix(b, a, k, j);
      }
      NotEarlier(t, group, limit, after, a, b, k);
      NotEarlier(t, group, limit, after, b, a, k);
      assert a[..i] == a[..k] + [a[k]] && b[..i] == b[..k] + [b[k]];
    }
  }

  /** The query has one answer only. */
  lemma IndexAnswerUnique(
      t: FeedTables, group: Id, limit: nat, after: Option<FeedRow>, a: seq<FeedRow>, b: seq<FeedRow>)
    requires IndexAnswer(t, group, limit, after, a) && IndexAnswer(t, group, limit, after, b)
    ensures a == b
  {
    AnswersAgree(t, group, limit, after, a, b, |a|);
    AnswersAgree(t, group, limit, after, b, a, |b|);
    assert a[..|a|] == a && b[..|b|] == b;
  }

  function RowOf(k: Kind, id: Id, item: Item): FeedRow {
    FeedRow(k, item.occurredAt, item.createdAt, id)
  }

  ghost function ListedRows(t: FeedTables, group: Id, after: Option<FeedRow>): (rows: set<FeedRow>)
    ensures forall r :: r in rows <==> Listed(t, group, r) && After(after, r)
  {
    var all := (set id | id in t.expenses :: RowOf(ExpenseRow, id, t.expenses[id]))
             + (set id | id in t.settlements :: RowOf(SettlementRow, id, t.settlements[id]));
    assert forall r :: Listed(t, group, r) ==> r == RowOf(r.kind, r.id, TableOf(t, r.kind)[r.id]);
    set r | r in all && Listed(t, group, r) && After(after, r)
  }

  lemma {:induction false} Descending(rows: set<FeedRow>) returns (xs: seq<FeedRow>)
    requires forall a, b :: a in rows && b in rows && a != b ==> a.id != b.id
    ensures Ordered(xs, Before) && |xs| == |rows| && forall r :: r in xs <==> r in rows
    decreases rows
  {
    if rows == {} {
      xs := [];
    } else {
      var last := Latest(rows);
      var front := Descending(rows - {last});
      xs := front + [last];
      assert forall r :: r in xs <==> r in front || r == last;
    }
  }

  lemma {:induction false} Latest(rows: set<FeedRow>) returns (last: FeedRow)
    requires rows != {}
    requires forall a, b :: a in rows && b in rows && a != b ==> a.id != b.id
    ensures last in rows && forall r :: r in rows && r != last ==> Before(r, last)
    decreases rows
  {
    var one :| one in rows;
    last := one;
    if rows != {one} {
      assert rows - {one} != {};
      var other := Latest(rows - {one});
      if Before(one, other) {
        last := other;
      }
      forall r | r in rows && r != last ensures Before(r, last) {
        assert r == one || r == other || r in rows - {one};
      }
    }
  }

  /** Ids are not shared between the two tables. */
  predicate SeparateIds(t: FeedTables) {
    t.expenses.Keys !! t.settlements.Keys
  }

  /** The query has an answer. */
  lemma IndexAnswerExists(t: FeedTables, group: Id, limit: nat, after: Option<FeedRow>) returns (rows: seq<FeedRow>)
    requires SeparateIds(t)
    ensures IndexAnswer(t, group, limit, after, rows)
  {
    var all := Descending(ListedRows(t, group, after));
    rows := if |all| <= limit then all else all[..limit];
    forall r | r in all && r !in rows
      ensures |rows| == limit && forall i :: 0 <= i < |rows| ==> Before(rows[i], r)
    {
      var j :| 0 <= j < |all| && all[j] == r;
      forall m | 0 <= m < |rows| ensures all[m] in rows {
        assert rows[m] == all[m];
      }
    }
  }

  // -------------------------------------------------------------------------------- one page

  /** One item of a page, with the index row it was found by and the cadence it repeats at. */
  datatype FeedItem = FeedItem(row: FeedRow, item: Item, cadence: Option<Cadence>)

  datatype Page = Page(items: seq<FeedItem>, next: string)

  datatype FeedError = NotMember | InvalidCursor

  /** Writing and reading cursors. */
  datatype Codec = Codec(encode: FeedRow -> string, decode: string -> Result<Option<FeedRow>, CursorError>)

  predicate Carries(codec: Codec, r: FeedRow) {
    codec.encode(r) != "" && (codec.decode(codec.encode(r)) == Ok(Some(r)) || codec.decode(codec.encode(r)).Err?)
  }

  /** A written cursor reads back as the row it was written for, or is refused. */
  ghost predicate Faithful(codec: Codec) {
    codec.decode("") == Ok(None) && forall r :: Carries(codec, r)
  }

  function GoCodec(): Codec {
    var clock := GoClock();
    Codec((r: FeedRow) => EncodeCursor(clock, r), (s: string) => DecodeCursor(clock, s))
  }

  lemma GoCodecFaithful()
    ensures Faithful(GoCodec())
  {
    forall r ensures Carries(GoCodec(), r) {
      CursorRoundTrip(GoClock(), r);
    }
  }

  type Query = (nat, Option<FeedRow>) -> seq<FeedRow>

  /** One request: the page size asked for, the tables when the index query runs and what it
      answers, the tables when the two payload queries run, and the group's templates when they
      are listed. */
  datatype Visit = Visit(
    limit: int, tables: FeedTables, index: Query,
    expenses: map<Id, Item>, settlements: map<Id, Item>, templates: seq<Template>)

  ghost predicate Honest(v: Visit, group: Id) {
    forall n, after :: IndexAnswer(v.tables, group, n, after, v.index(n, after))
  }

  const DEFAULT_LIMIT: int := 50
  const MAX_LIMIT: int := 100

  function PageSize(limit: int): (n: nat)
    ensures 1 <= n <= MAX_LIMIT
    ensures 1 <= limit <= 100 ==> n == limit
  {
    if limit <= 0 then DEFAULT_LIMIT else if limit > MAX_LIMIT then MAX_LIMIT else limit
  }

  predicate Hydrated(v: Visit, r: FeedRow) {
    var table := if r.kind.ExpenseRow? then v.expenses else v.settlements;
    r.id in table && !table[r.id].deleted
  }

  function Payload(v: Visit, r: FeedRow): Item
    requires Hydrated(v, r)
  {
    if r.kind.ExpenseRow? then v.expenses[r.id] else v.settlements[r.id]
  }

  /** The cadence of the first template with this content. */
  function CadenceOf(templates: seq<Template>, content: Content): (c: Option<Cadence>)
    ensures c.None? <==> forall i :: 0 <= i < |templates| ==> templates[i].content != content
    ensures c.Some? ==> exists i :: 0 <= i < |templates| && FirstWith(templates, content, i) && templates[i].cadence == c.value
  {
    if |templates| == 0 then None
    else if templates[0].content == content then
      assert FirstWith(templates, content, 0);
      Some(templates[0].cadence)
    else
      var later := CadenceOf(templates[1..], content);
      assert later.Some? ==> exists i :: (
        0 < i < |templates| && FirstWith(templates, content, i) && templates[i].cadence == later.value) by {
        if later.Some? {
          var i :| 0 <= i < |templates[1..]| && FirstWith(templates[1..], content, i) && templates[1..][i].cadence == later.value;
          assert forall j :: 0 < j < i + 1 ==> templates[j] == templates[1..][j - 1];
          assert FirstWith(templates, content, i + 1);
        }
      }
      later
  }

  predicate FirstWith(templates: seq<Template>, content: Content, i: nat)
    requires i < |templates|
  {
    templates[i].content == content && forall j :: 0 <= j < i ==> templates[j].content != content
  }

  function Label(v: Visit, r: FeedRow): Option<Cadence>
    requires Hydrated(v, r)
  {
    if r.kind.ExpenseRow? then CadenceOf(v.templates, Payload(v, r).content) else None
  }

  /** The rows whose payload is still there, with it. */
  function Items(v: Visit, rows: seq<FeedRow>): seq<FeedItem> {
    if |rows| == 0 then []
    else
      var front, r := Items(v, rows[..|rows| - 1]), rows[|rows| - 1];
      if Hydrated(v, r) then front + [FeedItem(r, Payload(v, r), Label(v, r))] else front
  }

  /** The rows a page shows, and whether there are more. */
  function Shown(v: Visit, after: Option<FeedRow>): (seq<FeedRow>, bool) {
    var n := PageSize(v.limit);
    var rows := v.index(n + 1, after);
    (if |rows| > n then rows[..n] else rows, |rows| > n)
  }

  function PageAfter(codec: Codec, v: Visit, after: Option<FeedRow>): Page {
    var (rows, more) := Shown(v, after);
    Page(Items(v, rows), if more && |rows| > 0 then codec.encode(rows[|rows| - 1]) else "")
  }

  function PageOf(codec: Codec, v: Visit, cursor: string): Result<Page, FeedError> {
    match codec.decode(cursor)
    case Err(_) => Err(InvalidCursor)
    case Ok(after) => Ok(PageAfter(codec, v, after))
  }

  function IdsOf(rows: seq<FeedRow>, k: Kind): seq<Id> {
    if |rows| == 0 then []
    else
      var front, r := IdsOf(rows[..|rows| - 1], k), rows[|rows| - 1];
      if r.kind == k then front + [r.id] else front
  }

  lemma {:induction false} IdsOfHas(rows: seq<FeedRow>, i: nat)
    requires i < |rows|
    ensures rows[i].id in IdsOf(rows, rows[i].kind)
  {
    if i < |rows| - 1 {
      IdsOfHas(rows[..|rows| - 1], i);
    }
  }

  /** FindByIDs: the undeleted items among these ids. */
  function FindByIds(table: map<Id, Item>, ids: seq<Id>): map<Id, Item> {
    map id | id in ids && id in table && !table[id].deleted :: table[id]
  }

  method CollectIds(rows: seq<FeedRow>) returns (expenseIds: seq<Id>, settlementIds: seq<Id>)
    ensures expenseIds == IdsOf(rows, ExpenseRow) && settlementIds == IdsOf(rows, SettlementRow)
  {
    expenseIds, settlementIds := [], [];
    for i := 0 to |rows|
      invariant expenseIds == IdsOf(rows[..i], ExpenseRow) && settlementIds == IdsOf(rows[..i], SettlementRow)
    {
      match rows[i].kind {
        case ExpenseRow => expenseIds := expenseIds + [rows[i].id];
        case SettlementRow => settlementIds := settlementIds + [rows[i].id];
      }
      assert rows[..i + 1][..i] == rows[..i];
    }
    assert rows[..|rows|] == rows;
  }

  /** The listed expenses that have a template's content, with its cadence. */
  method MatchTemplates(templates: seq<Template>, ids: seq<Id>, expenses: map<Id, Item>) returns (found: map<Id, Cadence>)
    ensures forall id :: id in found <==> id in ids && id in expenses && CadenceOf(templates, expenses[id].content).Some?
    ensures forall id :: id in found ==> Some(found[id]) == CadenceOf(templates, expenses[id].content)
  {
    found := map[];
    for i := 0 to |ids|
      invariant forall id :: id in found <==> id in ids[..i] && id in expenses && CadenceOf(templates, expenses[id].content).Some?
      invariant forall id :: id in found ==> Some(found[id]) == CadenceOf(templates, expenses[id].content)
    {
      var id := ids[i];
      if id in expenses {
        var content := expenses[id].content;
        var cadence := FirstCadence(templates, content);
        if cadence.Some? {
          found := found[id := cadence.value];
        }
      }
      assert forall x :: x in ids[..i + 1] <==> x in ids[..i] || x == id;
    }
    assert ids[..|ids|] == ids;
  }

  method FirstCadence(templates: seq<Template>, content: Content) returns (c: Option<Cadence>)
    ensures c == CadenceOf(templates, content)
  {
    c := None;
    for j := 0 to |templates|
      invariant forall i :: 0 <= i < j ==> templates[i].content != content
      invariant c.None?
    {
      if templates[j].content == content {
        c := Some(templates[j].cadence);
        break;
      }
    }
  }

  method Assemble(v: Visit, rows: seq<FeedRow>) returns (items: seq<FeedItem>)
    ensures items == Items(v, rows)
  {
    var expenseIds, settlementIds := CollectIds(rows);
    var expenses, settlements := FindByIds(v.expenses, expenseIds), FindByIds(v.settlements, settlementIds);
    var cadences := map[];
    if |expenseIds| > 0 {
      cadences := MatchTemplates(v.templates, expenseIds, expenses);
    }
    items := [];
    for i := 0 to |rows|
      invariant items == Items(v, rows[..i])
    {
      var row := rows[i];
      IdsOfHas(rows, i);
      match row.kind {
        case ExpenseRow =>
          if row.id in expenses {
            var cadence := if row.id in cadences then Some(cadences[row.id]) else None;
            items := items + [FeedItem(row, expenses[row.id], cadence)];
          }
        case SettlementRow =>
          if row.id in settlements {
            items := items + [FeedItem(row, settlements[row.id], None)];
          }
      }
      assert rows[..i + 1][..i] == rows[..i];
    }
    assert rows[..|rows|] == rows;
  }

  method List(codec: Codec, member: bool, v: Visit, cursor: string) returns (r: Result<Page, FeedError>)
    ensures r == if !member then Err(NotMember) else PageOf(codec, v, cursor)
  {
    if !member {
      return Err(NotMember);
    }
    var after := codec.decode(cursor);
    if after.Err? {
      return Err(InvalidCursor);
    }
    var limit := v.limit;
    if limit <= 0 {
      limit := DEFAULT_LIMIT;
    }
    if limit > MAX_LIMIT {
      limit := MAX_LIMIT;
    }
    var rows := v.index(limit + 1, after.value);
    var hasMore := |rows| > limit;
    if hasMore {
      rows := rows[..limit];
    }
    var items := Assemble(v, rows);
    var next := "";
    if hasMore && |rows| > 0 {
      next := codec.encode(rows[|rows| - 1]);
    }
    return Ok(Page(items, next));
  }

  // ------------------------------------------------------------------------ walking the feed

  /** Page after page, each asked for with the cursor the one before returned, until there is
      no cursor or no visit left. */
  function Walk(codec: Codec, visits: seq<Visit>, cursor: string): Result<Page, FeedError>
    requires |visits| > 0
  {
    match PageOf(codec, visits[0], cursor)
    case Err(e) => Err(e)
    case Ok(page) =>
      if page.next == "" || |visits| == 1 then Ok(page)
      else
        match Walk(codec, visits[1..], page.next)
        case Err(e) => Err(e)
        case Ok(rest) => Ok(Page(page.items + rest.items, rest.next))
  }

  ghost predicate AllHonest(visits: seq<Visit>, group: Id) {
    forall i :: 0 <= i < |visits| ==> Honest(visits[i], group)
  }

  ghost predicate InOrder(items: seq<FeedItem>, after: Option<FeedRow>) {
    && (forall i :: 0 <= i < |items| ==> After(after, items[i].row))
    && (forall i, j :: 0 <= i < j < |items| ==> Before(items[i].row, items[j].row))
  }

  lemma {:induction false} ItemsOrdered(v: Visit, rows: seq<FeedRow>)
    requires Ordered(rows, Before)
    ensures forall i :: 0 <= i < |Items(v, rows)| ==> Items(v, rows)[i].row in rows
    ensures forall i, j :: 0 <= i < j < |Items(v, rows)| ==> Before(Items(v, rows)[i].row, Items(v, rows)[j].row)
  {
    if |rows| > 0 {
      var front := rows[..|rows| - 1];
      ItemsOrdered(v, front);
      assert forall r :: r in front ==> Before(r, rows[|rows| - 1]);
    }
  }

  lemma {:induction false} ItemsComplete(v: Visit, rows: seq<FeedRow>, i: nat) returns (k: nat)
    requires i < |rows| && Hydrated(v, rows[i])
    ensures k < |Items(v, rows)| && Items(v, rows)[k] == FeedItem(rows[i], Payload(v, rows[i]), Label(v, rows[i]))
  {
    if i == |rows| - 1 {
      k := |Items(v, rows)| - 1;
    } else {
      k := ItemsComplete(v, rows[..|rows| - 1], i);
    }
  }

  lemma ShownRows(v: Visit, group: Id, after: Option<FeedRow>)
    requires Honest(v, group)
    ensures var rows := Shown(v, after).0;
      Ordered(rows, Before) && forall r :: r in rows ==> Listed(v.tables, group, r) && After(after, r)
  {
    var n := PageSize(v.limit);
    assert IndexAnswer(v.tables, group, n + 1, after, v.index(n + 1, after));
  }

  lemma PageInOrder(codec: Codec, v: Visit, group: Id, after: Option<FeedRow>)
    requires Honest(v, group)
    ensures InOrder(PageAfter(codec, v, after).items, after)
    ensures var rows := Shown(v, after).0;
      forall i :: 0 <= i < |PageAfter(codec, v, after).items| ==> PageAfter(codec, v, after).items[i].row in rows
  {
    var n := PageSize(v.limit);
    assert IndexAnswer(v.tables, group, n + 1, after, v.index(n + 1, after));
    ItemsOrdered(v, Shown(v, after).0);
  }

  /** The page's cursor is that of the last row shown; everything shown is at or before it. */
  lemma NextPage(codec: Codec, v: Visit, group: Id, after: Option<FeedRow>)
    requires Honest(v, group) && Faithful(codec)
    requires PageAfter(codec, v, after).next != ""
    ensures var rows := Shown(v, after).0;
      && |rows| > 0 && PageAfter(codec, v, after).next == codec.encode(rows[|rows| - 1])
      && After(after, rows[|rows| - 1])
      && (forall r :: r in rows ==> r == rows[|rows| - 1] || Before(r, rows[|rows| - 1]))
      && Carries(codec, rows[|rows| - 1])
  {
    var n := PageSize(v.limit);
    assert IndexAnswer(v.tables, group, n + 1, after, v.index(n + 1, after));
  }

  lemma {:induction false} WalkInOrder(codec: Codec, visits: seq<Visit>, group: Id, cursor: string)
    requires |visits| > 0 && AllHonest(visits, group) && Faithful(codec)
    requires Walk(codec, visits, cursor).Ok?
    ensures codec.decode(cursor).Ok?
    ensures InOrder(Walk(codec, visits, cursor).value.items, codec.decode(cursor).value)
  {
    var after := codec.decode(cursor).value;
    var page := PageAfter(codec, visits[0], after);
    PageInOrder(codec, visits[0], group, after);
    if page.next != "" && |visits| > 1 {
      NextPage(codec, visits[0], group, after);
      WalkInOrder(codec, visits[1..], group, page.next);
      var rows := Shown(visits[0], after).0;
      var rest := Walk(codec, visits[1..], page.next).value;
      Continued(page.items, rest.items, after, rows[|rows| - 1]);
    }
  }

  lemma Continued(a: seq<FeedItem>, b: seq<FeedItem>, after: Option<FeedRow>, last: FeedRow)
    requires InOrder(a, after) && InOrder(b, Some(last)) && After(after, last)
    requires forall i :: 0 <= i < |a| ==> a[i].row == last || Before(a[i].row, last)
    ensures InOrder(a + b, after)
  {
    var s := a + b;
    forall i | 0 <= i < |s| ensures After(after, s[i].row) {
      if i >= |a| {
        assert After(Some(last), b[i - |a|].row);
      }
    }
    forall i, j | 0 <= i < j < |s| ensures Before(s[i].row, s[j].row) {
      if i < |a| <= j {
        assert After(Some(last), b[j - |a|].row);
      } else if j < |a| {
        assert Before(a[i].row, a[j].row);
      } else {
        assert Before(b[i - |a|].row, b[j - |a|].row);
      }
    }
  }

  /** The row is listed at every index query and its item undeleted at every payload query. */
  ghost predicate Steady(visits: seq<Visit>, group: Id, r: FeedRow) {
    forall i :: 0 <= i < |visits| ==> Listed(visits[i].tables, group, r) && Hydrated(visits[i], r)
  }

  lemma ShownOrLater(codec: Codec, v: Visit, group: Id, after: Option<FeedRow>, r: FeedRow)
    requires Honest(v, group) && Faithful(codec)
    requires Listed(v.tables, group, r) && After(after, r)
    ensures var (rows, more) := Shown(v, after);
      r in rows || (more && |rows| > 0 && PageAfter(codec, v, after).next != "" && Before(rows[|rows| - 1], r))
  {
    var n := PageSize(v.limit);
    var all := v.index(n + 1, after);
    assert IndexAnswer(v.tables, group, n + 1, after, all);
    if |all| > n {
      assert Carries(codec, all[n - 1]);
      if r in all {
        var j :| 0 <= j < |all| && all[j] == r;
        assert j < n ==> all[..n][j] == r;
      }
    }
  }

  lemma {:induction false} WalkFinds(
      codec: Codec, visits: seq<Visit>, group: Id, cursor: string, r: FeedRow) returns (k: nat)
    requires |visits| > 0 && AllHonest(visits, group) && Faithful(codec)
    requires Walk(codec, visits, cursor).Ok? && Walk(codec, visits, cursor).value.next == ""
    requires Steady(visits, group, r)
    requires codec.decode(cursor).Ok? && After(codec.decode(cursor).value, r)
    ensures k < |Walk(codec, visits, cursor).value.items| && Walk(codec, visits, cursor).value.items[k].row == r
  {
    var after := codec.decode(cursor).value;
    var page, rows := PageAfter(codec, visits[0], after), Shown(visits[0], after).0;
    ShownOrLater(codec, visits[0], group, after, r);
    if r in rows {
      var i :| 0 <= i < |rows| && rows[i] == r;
      k := ItemsComplete(visits[0], rows, i);
    } else {
      NextPage(codec, visits[0], group, after);
      k := WalkFinds(codec, visits[1..], group, page.next, r);
      k := |page.items| + k;
    }
  }

  /** Every item a walk returns was listed at its page's index query and undeleted at its page's
      payload query, whose content it shows, labelled with the cadence of the first template with
      that content. */
  ghost predicate Genuine(visits: seq<Visit>, group: Id, x: FeedItem) {
    exists i :: 0 <= i < |visits| && GenuineAt(visits[i], group, x)
  }

  predicate GenuineAt(v: Visit, group: Id, x: FeedItem) {
    Listed(v.tables, group, x.row) && Hydrated(v, x.row) && x.item == Payload(v, x.row) && x.cadence == Label(v, x.row)
  }

  lemma {:induction false} ItemsGenuine(v: Visit, rows: seq<FeedRow>, group: Id)
    requires forall i :: 0 <= i < |rows| ==> Listed(v.tables, group, rows[i])
    ensures forall i :: 0 <= i < |Items(v, rows)| ==> GenuineAt(v, group, Items(v, rows)[i])
  {
    if |rows| > 0 {
      ItemsGenuine(v, rows[..|rows| - 1], group);
    }
  }

  ghost predicate AllGenuine(visits: seq<Visit>, group: Id, items: seq<FeedItem>) {
    forall k :: 0 <= k < |items| ==> Genuine(visits, group, items[k])
  }

  lemma PageGenuine(codec: Codec, visits: seq<Visit>, group: Id, after: Option<FeedRow>)
    requires |visits| > 0 && Honest(visits[0], group)
    ensures AllGenuine(visits, group, PageAfter(codec, visits[0], after).items)
  {
    var v := visits[0];
    ShownRows(v, group, after);
    ItemsGenuine(v, Shown(v, after).0, group);
    var items := PageAfter(codec, v, after).items;
    forall k | 0 <= k < |items| ensures Genuine(visits, group, items[k]) {
      assert GenuineAt(visits[0], group, items[k]);
    }
  }

  lemma GenuineLater(visits: seq<Visit>, group: Id, items: seq<FeedItem>)
    requires |visits| > 0 && AllGenuine(visits[1..], group, items)
    ensures AllGenuine(visits, group, items)
  {
    forall k | 0 <= k < |items| ensures Genuine(visits, group, items[k]) {
      var i :| 0 <= i < |visits[1..]| && GenuineAt(visits[1..][i], group, items[k]);
      assert GenuineAt(visits[i + 1], group, items[k]);
    }
  }

  lemma {:induction false} WalkGenuine(codec: Codec, visits: seq<Visit>, group: Id, cursor: string)
    requires |visits| > 0 && AllHonest(visits, group)
    requires Walk(codec, visits, cursor).Ok?
    ensures AllGenuine(visits, group, Walk(codec, visits, cursor).value.items)
  {
    var after := codec.decode(cursor).value;
    var page := PageAfter(codec, visits[0], after);
    PageGenuine(codec, visits, group, after);
    if page.next != "" && |visits| > 1 {
      WalkGenuine(codec, visits[1..], group, page.next);
      GenuineLater(visits, group, Walk(codec, visits[1..], page.next).value.items);
    }
  }

  ghost predicate Once(items: seq<FeedItem>, r: FeedRow) {
    exists k :: 0 <= k < |items| && OnlyAt(items, r, k)
  }

  predicate OnlyAt(items: seq<FeedItem>, r: FeedRow, k: nat) {
    k < |items| && items[k].row == r && forall j :: 0 <= j < |items| && items[j].row == r ==> j == k
  }

  /** Newest first with no row twice; nothing that was not there; and, once there is no further
      page, exactly one occurrence of every row that stayed in place throughout. */
  ghost predicate GoodWalk(visits: seq<Visit>, group: Id, walk: Page) {
    && (forall i, j :: 0 <= i < j < |walk.items| ==> Before(walk.items[i].row, walk.items[j].row))
    && AllGenuine(visits, group, walk.items)
    && (walk.next == "" ==> forall r :: Steady(visits, group, r) ==> Once(walk.items, r))
  }

  lemma WalkIsGood(codec: Codec, visits: seq<Visit>, group: Id)
    requires |visits| > 0 && AllHonest(visits, group) && Faithful(codec)
    requires Walk(codec, visits, "").Ok?
    ensures GoodWalk(visits, group, Walk(codec, visits, "").value)
  {
    var walk := Walk(codec, visits, "").value;
    WalkInOrder(codec, visits, group, "");
    WalkGenuine(codec, visits, group, "");
    if walk.next == "" {
      forall r | Steady(visits, group, r) ensures Once(walk.items, r) {
        var k := WalkFinds(codec, visits, group, "", r);
        assert OnlyAt(walk.items, r, k);
      }
    }
  }

  /** A walk from the start with the server's own cursors, over tables that change between any
      two queries, with any page sizes. */
  lemma PagedWalk(visits: seq<Visit>, group: Id)
    requires |visits| > 0 && AllHonest(visits, group)
    requires Walk(GoCodec(), visits, "").Ok?
    ensures GoodWalk(visits, group, Walk(GoCodec(), visits, "").value)
  {
    GoCodecFaithful();
    WalkIsGood(GoCodec(), visits, group);
  }

  /** The same in plain terms: times never go up along the walk, equal times go by creation and
      then by id, and every item was an undeleted row of this group with these times. */
  lemma WalkReads(visits: seq<Visit>, group: Id, i: nat, j: nat)
    requires |visits| > 0 && AllHonest(visits, group) && Walk(GoCodec(), visits, "").Ok?
    requires i < j < |Walk(GoCodec(), visits, "").value.items|
    ensures var a, b := Walk(GoCodec(), visits, "").value.items[i].row, Walk(GoCodec(), visits, "").value.items[j].row;
      && a.occurredAt >= b.occurredAt
      && (a.occurredAt == b.occurredAt ==> a.createdAt >= b.createdAt)
      && (a.occurredAt == b.occurredAt && a.createdAt == b.createdAt ==> a.id > b.id)
    ensures var x := Walk(GoCodec(), visits, "").value.items[i];
      exists v :: v in visits && OfGroup(v, group, x)
  {
    PagedWalk(visits, group);
    var walk := Walk(GoCodec(), visits, "").value;
    assert Before(walk.items[i].row, walk.items[j].row);
    assert Genuine(visits, group, walk.items[i]);
    var k :| 0 <= k < |visits| && GenuineAt(visits[k], group, walk.items[i]);
    assert OfGroup(visits[k], group, walk.items[i]);
  }

  predicate OfGroup(v: Visit, group: Id, x: FeedItem) {
    var listed := if x.row.kind.ExpenseRow? then v.tables.expenses else v.tables.settlements;
    var loaded := if x.row.kind.ExpenseRow? then v.expenses else v.settlements;
    && x.row.id in listed && listed[x.row.id].group == group && !listed[x.row.id].deleted
    && listed[x.row.id].occurredAt == x.row.occurredAt && listed[x.row.id].createdAt == x.row.createdAt
    && x.row.id in loaded && !loaded[x.row.id].deleted && x.item == loaded[x.row.id]
  }

  // ------------------------------------------------------------------------- reaching the end

  predicate Dated(r: FeedRow) {
    FourDigitYear(GoClock(), r.occurredAt) && FourDigitYear(GoClock(), r.createdAt)
  }

  /** The request after a page is refused exactly when the page's last row has a time outside
      the years 0 to 9999, which no cursor can carry. */
  lemma CursorRefused(v: Visit, w: Visit, group: Id, after: Option<FeedRow>)
    requires Honest(v, group) && PageAfter(GoCodec(), v, after).next != ""
    ensures |Shown(v, after).0| > 0
    ensures PageOf(GoCodec(), w, PageAfter(GoCodec(), v, after).next) == Err(InvalidCursor)
       <==> !Dated(Shown(v, after).0[|Shown(v, after).0| - 1])
  {
    GoCodecFaithful();
    NextPage(GoCodec(), v, group, after);
    CursorRoundTrip(GoClock(), Shown(v, after).0[|Shown(v, after).0| - 1]);
  }

  predicate Writable(codec: Codec, r: FeedRow) {
    codec.decode(codec.encode(r)) == Ok(Some(r))
  }

  /** Every row any of the visits could list past the cursor is in the pool, and has a cursor. */
  ghost predicate Covers(codec: Codec, visits: seq<Visit>, group: Id, after: Option<FeedRow>, pool: set<FeedRow>) {
    forall i, r :: 0 <= i < |visits| && Listed(visits[i].tables, group, r) && After(after, r)
      ==> r in pool && Writable(codec, r)
  }

  function Capacity(visits: seq<Visit>): nat {
    if |visits| == 0 then 0 else PageSize(visits[0].limit) + Capacity(visits[1..])
  }

  lemma {:induction false} DistinctRows(rows: seq<FeedRow>)
    requires Ordered(rows, Before)
    ensures |set r | r in rows| == |rows|
  {
    if |rows| > 0 {
      var front, last := rows[..|rows| - 1], rows[|rows| - 1];
      DistinctRows(front);
      assert (set r | r in rows) == (set r | r in front) + {last};
    }
  }

  /** A page with a successor is full, and there is a row it does not show. */
  lemma OneMore(codec: Codec, v: Visit, group: Id, after: Option<FeedRow>) returns (extra: FeedRow)
    requires Honest(v, group) && PageAfter(codec, v, after).next != ""
    ensures |Shown(v, after).0| == PageSize(v.limit) && extra !in Shown(v, after).0
    ensures Listed(v.tables, group, extra) && After(after, extra)
  {
    var n := PageSize(v.limit);
    var all := v.index(n + 1, after);
    assert IndexAnswer(v.tables, group, n + 1, after, all);
    extra := all[n];
    assert forall i :: 0 <= i < n ==> Before(all[i], extra);
  }

  lemma CoversLater(
      codec: Codec, visits: seq<Visit>, group: Id, after: Option<FeedRow>, pool: set<FeedRow>,
      last: FeedRow, shown: set<FeedRow>)
    requires |visits| > 0 && Covers(codec, visits, group, after, pool) && After(after, last)
    requires forall r :: r in shown ==> r == last || Before(r, last)
    ensures Covers(codec, visits[1..], group, Some(last), pool - shown)
  {
    forall i, r | 0 <= i < |visits[1..]| && Listed(visits[1..][i].tables, group, r) && After(Some(last), r)
      ensures r in pool - shown && Writable(codec, r)
    {
      assert Listed(visits[i + 1].tables, group, r) && After(after, r);
    }
  }

  /** A page that has a successor uses up as many rows of the pool as it shows. */
  lemma PoolShrinks(
      codec: Codec, visits: seq<Visit>, group: Id, after: Option<FeedRow>, pool: set<FeedRow>) returns (left: set<FeedRow>)
    requires |visits| > 0 && AllHonest(visits, group) && Faithful(codec)
    requires Covers(codec, visits, group, after, pool)
    requires PageAfter(codec, visits[0], after).next != ""
    ensures |left| + PageSize(visits[0].limit) == |pool| && left != {}
    ensures var rows := Shown(visits[0], after).0;
      |rows| > 0 && Writable(codec, rows[|rows| - 1]) && Covers(codec, visits[1..], group, Some(rows[|rows| - 1]), left)
  {
    var rows := Shown(visits[0], after).0;
    var shown := set r | r in rows;
    NextPage(codec, visits[0], group, after);
    ShownRows(visits[0], group, after);
    DistinctRows(rows);
    var extra := OneMore(codec, visits[0], group, after);
    assert shown <= pool;
    left := pool - shown;
    assert extra in left;
    CoversLater(codec, visits, group, after, pool, rows[|rows| - 1], shown);
  }

  /** Visits with room for every row ever listed reach the end. */
  lemma {:induction false} WalkEnds(
      codec: Codec, visits: seq<Visit>, group: Id, cursor: string, pool: set<FeedRow>)
    requires |visits| > 0 && AllHonest(visits, group) && Faithful(codec)
    requires codec.decode(cursor).Ok? && Covers(codec, visits, group, codec.decode(cursor).value, pool)
    requires |pool| <= Capacity(visits)
    ensures Walk(codec, visits, cursor).Ok? && Walk(codec, visits, cursor).value.next == ""
  {
    var after := codec.decode(cursor).value;
    var page := PageAfter(codec, visits[0], after);
    if page.next != "" {
      var left := PoolShrinks(codec, visits, group, after, pool);
      assert Capacity(visits) == PageSize(visits[0].limit) + Capacity(visits[1..]);
      NextPage(codec, visits[0], group, after);
      WalkEnds(codec, visits[1..], group, page.next, left);
    }
  }

  /** The tables stay as they are through every visit. */
  ghost predicate Still(visits: seq<Visit>, t: FeedTables) {
    forall i :: 0 <= i < |visits| ==>
      visits[i].tables == t && visits[i].expenses == t.expenses && visits[i].settlements == t.settlements
  }

  /** When nothing changes, pages with room for all the rows list every row exactly once and
      nothing else. */
  lemma StillWalk(visits: seq<Visit>, group: Id, t: FeedTables)
    requires |visits| > 0 && AllHonest(visits, group) && Still(visits, t)
    requires forall r :: Listed(t, group, r) ==> Dated(r)
    requires |ListedRows(t, group, None)| <= Capacity(visits)
    ensures Walk(GoCodec(), visits, "").Ok? && Walk(GoCodec(), visits, "").value.next == ""
    ensures forall r :: Once(Walk(GoCodec(), visits, "").value.items, r) <==> Listed(t, group, r)
  {
    var pool := ListedRows(t, group, None);
    GoCodecFaithful();
    forall i, r | 0 <= i < |visits| && Listed(visits[i].tables, group, r)
      ensures r in pool && Writable(GoCodec(), r)
    {
      CursorRoundTrip(GoClock(), r);
    }
    WalkEnds(GoCodec(), visits, group, "", pool);
    WalkIsGood(GoCodec(), visits, group);
    StillExact(visits, group, t, Walk(GoCodec(), visits, "").value);
  }

  lemma StillExact(visits: seq<Visit>, group: Id, t: FeedTables, walk: Page)
    requires |visits| > 0 && Still(visits, t) && GoodWalk(visits, group, walk) && walk.next == ""
    ensures forall r :: Once(walk.items, r) <==> Listed(t, group, r)
  {
    forall r ensures Once(walk.items, r) <==> Listed(t, group, r) {
      if Listed(t, group, r) {
        assert Steady(visits, group, r);
      }
      if Once(walk.items, r) {
        var k :| 0 <= k < |walk.items| && OnlyAt(walk.items, r, k);
        assert Genuine(visits, group, walk.items[k]);
      }
    }
  }
}
