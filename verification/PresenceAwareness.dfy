/** Awareness kept in the Presence API's table, one row per client
    (WP_Sync_Presence_API_Awareness_Backend). The table's own calls are the
    external part: a read gives the rows younger than the site's window, in the
    table's order; a write replaces the row of its key. */
module PresenceAwareness {
  import opened StableSort
  import opened Awareness

  const REFRESH_FRACTION := 3

  /** Rows of this plugin carry a prefixed client id; others are not its own. */
  datatype Key = Ours(client: int) | Theirs(name: string)

  datatype Row = Row(key: Key, state: string, user: int, at: int)

  function Refresh(timeout: int): int {
    if timeout / REFRESH_FRACTION > 1 then timeout / REFRESH_FRACTION else 1
  }

  function EntryOf(row: Row): Entry
    requires row.key.Ours?
  {
    Entry(row.key.client, row.state, row.at, row.user)
  }

  function RowOf(e: Entry): Row {
    Row(Ours(e.client), e.state, e.user, e.at)
  }

  predicate Young(row: Row, now: int, window: int) {
    now - row.at < window
  }

  predicate Listed(row: Row, now: int, timeout: int, window: int) {
    row.key.Ours? && Young(row, now, window) && Young(row, now, timeout)
  }

  function ListedOf(rows: seq<Row>, now: int, timeout: int, window: int): seq<Entry> {
    if rows == [] then []
    else
      var last := rows[|rows| - 1];
      ListedOf(rows[..|rows| - 1], now, timeout, window) + if Listed(last, now, timeout, window) then [EntryOf(last)] else []
  }

  function EntriesOf(rows: seq<Row>, now: int, timeout: int, window: int): seq<Entry> {
    SortByClient(ListedOf(rows, now, timeout, window))
  }

  function Remove(rows: seq<Row>, key: Key): seq<Row> {
    if rows == [] then []
    else Remove(rows[..|rows| - 1], key) + if rows[|rows| - 1].key == key then [] else [rows[|rows| - 1]]
  }

  function Set(rows: seq<Row>, row: Row): seq<Row> {
    Remove(rows, row.key) + [row]
  }

  /** The table's own cleanup. */
  function Purge(rows: seq<Row>, now: int, window: int): seq<Row> {
    if rows == [] then []
    else Purge(rows[..|rows| - 1], now, window) + if Young(rows[|rows| - 1], now, window) then [rows[|rows| - 1]] else []
  }

  /** Nothing to write: the listed row says the same and is recent. */
  predicate Idle(rows: seq<Row>, now: int, client: int, state: string, user: int, timeout: int, window: int) {
    exists row | row in rows :: Listed(row, now, timeout, window) && row.key == Ours(client)
      && now - row.at < Refresh(timeout) && row.user == user && row.state == state
  }

  function PutRows(rows: seq<Row>, now: int, client: int, state: string, user: int, timeout: int, window: int): seq<Row> {
    if Idle(rows, now, client, state, user, timeout, window) then rows else Set(rows, Row(Ours(client), state, user, now))
  }

  // ---- Keys ----

  ghost predicate Unique(rows: seq<Row>) {
    forall i, j | 0 <= i < j < |rows| :: rows[i].key != rows[j].key
  }

  lemma UniquePush(rows: seq<Row>, row: Row)
    ensures Unique(rows + [row]) <==> Unique(rows) && forall x | x in rows :: x.key != row.key
  {
    var r := rows + [row];
    assert r[|rows|] == row && forall i | 0 <= i < |rows| :: r[i] == rows[i];
    if Unique(r) {
      forall x | x in rows
        ensures x.key != row.key
      {
        var i :| 0 <= i < |rows| && rows[i] == x;
        assert r[i].key != r[|rows|].key;
      }
    }
  }

  lemma UniqueRow(rows: seq<Row>, a: Row, b: Row)
    requires Unique(rows) && a in rows && b in rows && a.key == b.key
    ensures a == b
  {
    var i :| 0 <= i < |rows| && rows[i] == a;
    var j :| 0 <= j < |rows| && rows[j] == b;
    assert i == j;
  }

  lemma {:induction false} RemoveIs(rows: seq<Row>, key: Key)
    ensures forall x :: x in Remove(rows, key) <==> x in rows && x.key != key
    ensures Unique(rows) ==> Unique(Remove(rows, key))
  {
    if rows != [] {
      var front, last := rows[..|rows| - 1], rows[|rows| - 1];
      assert rows == front + [last];
      RemoveIs(front, key);
      UniquePush(front, last);
      UniquePush(Remove(front, key), last);
    }
  }

  lemma SetIs(rows: seq<Row>, row: Row)
    ensures forall x :: x in Set(rows, row) <==> x == row || (x in rows && x.key != row.key)
    ensures Unique(rows) ==> Unique(Set(rows, row))
  {
    RemoveIs(rows, row.key);
    UniquePush(Remove(rows, row.key), row);
  }

  lemma {:induction false} PurgeIs(rows: seq<Row>, now: int, window: int)
    ensures forall x :: x in Purge(rows, now, window) <==> x in rows && Young(x, now, window)
    ensures Unique(rows) ==> Unique(Purge(rows, now, window))
  {
    if rows != [] {
      var front, last := rows[..|rows| - 1], rows[|rows| - 1];
      assert rows == front + [last];
      PurgeIs(front, now, window);
      UniquePush(front, last);
      UniquePush(Purge(front, now, window), last);
    }
  }

  lemma ListedPush(rows: seq<Row>, row: Row, now: int, timeout: int, window: int)
    ensures ListedOf(rows + [row], now, timeout, window) ==
      ListedOf(rows, now, timeout, window) + if Listed(row, now, timeout, window) then [EntryOf(row)] else []
  {
    assert (rows + [row])[..|rows|] == rows;
  }

  lemma {:induction false} ListedIs(rows: seq<Row>, now: int, timeout: int, window: int)
    ensures forall e :: e in ListedOf(rows, now, timeout, window) <==> RowOf(e) in rows && Listed(RowOf(e), now, timeout, window)
    ensures Unique(rows) ==> OneEach(ListedOf(rows, now, timeout, window), ClientOf)
  {
    if rows != [] {
      var front, last := rows[..|rows| - 1], rows[|rows| - 1];
      assert rows == front + [last];
      ListedIs(front, now, timeout, window);
      UniquePush(front, last);
      if last.key.Ours? {
        assert RowOf(EntryOf(last)) == last;
        assert forall e :: RowOf(e) == last <==> e == EntryOf(last);
        OneEachPush(ListedOf(front, now, timeout, window), EntryOf(last), ClientOf);
      }
    }
  }

  lemma EntriesHave(rows: seq<Row>, now: int, timeout: int, window: int)
    requires Unique(rows)
    ensures Ordered(EntriesOf(rows, now, timeout, window))
    ensures forall e :: e in EntriesOf(rows, now, timeout, window) <==> RowOf(e) in rows && Listed(RowOf(e), now, timeout, window)
  {
    ListedIs(rows, now, timeout, window);
    StrictSort(ListedOf(rows, now, timeout, window), ClientOf);
    SortHas(ListedOf(rows, now, timeout, window), ClientOf);
  }

  /** A listing is by client id, and holds exactly the plugin's own rows that are
      younger than the site's window and than the caller's. */
  lemma EntriesAre(rows: seq<Row>, now: int, timeout: int, window: int)
    requires Unique(rows)
    ensures var es := EntriesOf(rows, now, timeout, window);
      && (forall i, j | 0 <= i < j < |es| :: es[i].client < es[j].client)
      && forall e :: e in es <==> Row(Ours(e.client), e.state, e.user, e.at) in rows && now - e.at < window && now - e.at < timeout
  {
    EntriesHave(rows, now, timeout, window);
    assert forall e :: RowOf(e) == Row(Ours(e.client), e.state, e.user, e.at);
  }

  // ---- The code ----

  class Table {
    var rows: seq<Row>
    const window: int
    const timeout: int

    ghost predicate Valid()
      reads this
    {
      Unique(rows)
    }

    constructor (siteWindow: int, callerTimeout: int)
      ensures Valid() && rows == [] && window == siteWindow && timeout == callerTimeout
    {
      rows, window, timeout := [], siteWindow, callerTimeout;
    }

    method Entries(now: int) returns (entries: seq<Entry>)
      ensures entries == EntriesOf(rows, now, timeout, window)
    {
      entries := [];
      for i := 0 to |rows|
        invariant entries == ListedOf(rows[..i], now, timeout, window)
      {
        var row := rows[i];
        ListedPush(rows[..i], row, now, timeout, window);
        assert rows[..i + 1] == rows[..i] + [row];
        if !Young(row, now, window) {
          continue;
        }
        if !row.key.Ours? {
          continue;
        }
        if now - row.at >= timeout {
          continue;
        }
        entries := entries + [EntryOf(row)];
      }
      assert rows[..|rows|] == rows;
      return SortByClient(entries);
    }

    /** Writes unless idle, and answers with what a second read would give
        (whenever a row just written would be read at all). */
    method Put(now: int, client: int, state: string, user: int) returns (r: seq<Entry>)
      requires Valid()
      modifies this
      ensures Valid() && rows == PutRows(old(rows), now, client, state, user, timeout, window)
      ensures timeout > 0 && window > 0 ==> r == EntriesOf(rows, now, timeout, window)
    {
      var entries := Entries(now);
      var listed := entries;
      EntriesHave(rows, now, timeout, window);
      var refresh := if timeout / REFRESH_FRACTION > 1 then timeout / REFRESH_FRACTION else 1;
      var index := 0;
      while index < |entries|
        invariant index <= |entries| && entries == listed
        invariant forall i | 0 <= i < index :: entries[i].client != client
      {
        var entry := entries[index];
        if entry.client != client {
          index := index + 1;
          continue;
        }
        assert entry in listed;
        if now - entry.at < refresh && entry.user == user && entry.state == state {
          assert RowOf(entry) in rows;
          return entries;
        }
        entries := entries[..index] + entries[index + 1..];
        break;
      }
      NotIdle(rows, now, client, state, user, timeout, window, listed, index);
      SetIs(rows, Row(Ours(client), state, user, now));
      rows := Set(rows, Row(Ours(client), state, user, now));
      var mine := Entry(client, state, now, user);
      r := SortByClient(entries + [mine]);
      if timeout > 0 && window > 0 {
        EntriesHave(rows, now, timeout, window);
        WithoutIndex(listed, index, client, entries);
        Reordered(old(rows), rows, now, mine, timeout, window, listed, entries);
      }
    }

    method Forget(now: int, client: int) returns (r: seq<Entry>)
      requires Valid()
      modifies this
      ensures Valid() && rows == Remove(old(rows), Ours(client))
      ensures r == EntriesOf(rows, now, timeout, window)
    {
      RemoveIs(rows, Ours(client));
      rows := Remove(rows, Ours(client));
      r := Entries(now);
    }
  }

  lemma NotIdle(rows: seq<Row>, now: int, client: int, state: string, user: int, timeout: int, window: int, listed: seq<Entry>, index: nat)
    requires Unique(rows) && index <= |listed| && Ordered(listed)
    requires forall e :: e in listed <==> RowOf(e) in rows && Listed(RowOf(e), now, timeout, window)
    requires forall i | 0 <= i < index :: listed[i].client != client
    requires index < |listed| ==> listed[index].client == client
    requires index < |listed| ==>
      !(now - listed[index].at < Refresh(timeout) && listed[index].user == user && listed[index].state == state)
    ensures !Idle(rows, now, client, state, user, timeout, window)
  {
    forall row | row in rows && Listed(row, now, timeout, window) && row.key == Ours(client)
      ensures !(now - row.at < Refresh(timeout) && row.user == user && row.state == state)
    {
      assert RowOf(EntryOf(row)) == row;
      assert EntryOf(row) in listed;
      var i :| 0 <= i < |listed| && listed[i] == EntryOf(row);
      assert i == index;
    }
  }

  /** What is left once the client's entry, if listed, is taken out. */
  lemma WithoutIndex(listed: seq<Entry>, index: nat, client: int, rest: seq<Entry>)
    requires Ordered(listed) && index <= |listed| && forall i | 0 <= i < index :: listed[i].client != client
    requires index < |listed| ==> listed[index].client == client
    requires rest == if index < |listed| then listed[..index] + listed[index + 1..] else listed
    ensures OneEach(rest, ClientOf) && forall e :: e in rest <==> e in listed && e.client != client
  {
    if index < |listed| {
      assert listed == listed[..index] + [listed[index]] + listed[index + 1..];
      forall i, j | 0 <= i < j < |rest|
        ensures rest[i].client != rest[j].client
      {
        assert rest[i] == listed[if i < index then i else i + 1] && rest[j] == listed[if j < index then j else j + 1];
      }
    }
  }

  lemma SameListing(before: seq<Row>, rows: seq<Row>, now: int, mine: Entry, timeout: int, window: int,
      listed: seq<Entry>, rest: seq<Entry>, r: seq<Entry>)
    requires Unique(rows) && mine.at == now && timeout > 0 && window > 0
    requires forall x :: x in rows <==> x == RowOf(mine) || (x in before && x.key != Ours(mine.client))
    requires forall e :: e in listed <==> RowOf(e) in before && Listed(RowOf(e), now, timeout, window)
    requires forall e :: e in rest <==> e in listed && e.client != mine.client
    requires Ordered(r) && forall e :: e in r <==> e in rest + [mine]
    ensures r == EntriesOf(rows, now, timeout, window)
  {
    EntriesHave(rows, now, timeout, window);
    forall e
      ensures e in r <==> e in EntriesOf(rows, now, timeout, window)
    {
      assert e in rest + [mine] <==> e in rest || e == mine;
      assert RowOf(e) == RowOf(mine) <==> e == mine;
    }
    StrictIsUnique(r, EntriesOf(rows, now, timeout, window), ClientOf);
  }

  /** The entries left and the new one, in client order, are what a second read would list. */
  lemma Reordered(before: seq<Row>, rows: seq<Row>, now: int, mine: Entry, timeout: int, window: int, listed: seq<Entry>, rest: seq<Entry>)
    requires Unique(rows) && mine.at == now && timeout > 0 && window > 0
    requires forall x :: x in rows <==> x == RowOf(mine) || (x in before && x.key != Ours(mine.client))
    requires forall e :: e in listed <==> RowOf(e) in before && Listed(RowOf(e), now, timeout, window)
    requires OneEach(rest, ClientOf) && forall e :: e in rest <==> e in listed && e.client != mine.client
    ensures SortByClient(rest + [mine]) == EntriesOf(rows, now, timeout, window)
  {
    OneEachPush(rest, mine, ClientOf);
    StrictSort(rest + [mine], ClientOf);
    SortHas(rest + [mine], ClientOf);
    SameListing(before, rows, now, mine, timeout, window, listed, rest, SortByClient(rest + [mine]));
  }

  // ---- Whole runs ----

  /** What happens to the table: puts and forgets of this plugin's clients, rows
      written by others, and the cleanup. */
  datatype Op = PutOp(client: int, now: int, state: string, user: int) | ForgetOp(client: int, now: int)
    | OtherOp(name: string, now: int) | PurgeOp(now: int)

  predicate Timed(ops: seq<Op>) {
    forall i, j | 0 <= i < j < |ops| :: ops[i].now <= ops[j].now
  }

  function After(rows: seq<Row>, op: Op, timeout: int, window: int): seq<Row> {
    match op
    case PutOp(client, now, state, user) => PutRows(rows, now, client, state, user, timeout, window)
    case ForgetOp(client, now) => Remove(rows, Ours(client))
    case OtherOp(name, now) => Set(rows, Row(Theirs(name), "", 0, now))
    case PurgeOp(now) => Purge(rows, now, window)
  }

  function Play(ops: seq<Op>, timeout: int, window: int): seq<Row> {
    if ops == [] then [] else After(Play(ops[..|ops| - 1], timeout, window), ops[|ops| - 1], timeout, window)
  }

  predicate OwnOp(op: Op, client: int) {
    (op.PutOp? || op.ForgetOp?) && op.client == client
  }

  /** The last put or forget of the client, or -1. */
  function LastOwn(ops: seq<Op>, client: int): (k: int)
    ensures -1 <= k < |ops|
    ensures k >= 0 ==> OwnOp(ops[k], client)
    ensures forall i | k < i < |ops| :: !OwnOp(ops[i], client)
  {
    if ops == [] then -1
    else if OwnOp(ops[|ops| - 1], client) then |ops| - 1
    else LastOwn(ops[..|ops| - 1], client)
  }

  predicate LastIsPut(ops: seq<Op>, client: int) {
    var k := LastOwn(ops, client);
    k >= 0 && ops[k].PutOp?
  }

  /** The row is what the client's last put left: its state and user, and a time
      that lags by less than the refresh share. */
  predicate Says(row: Row, ops: seq<Op>, client: int, timeout: int) {
    var k := LastOwn(ops, client);
    && LastIsPut(ops, client) && row.key == Ours(client) && row.state == ops[k].state && row.user == ops[k].user
    && ops[k].now - Refresh(timeout) < row.at <= ops[k].now
  }

  /** The row is there, unless it has been cleaned up. */
  ghost predicate HasRow(rows: seq<Row>, ops: seq<Op>, client: int, end: int, timeout: int, window: int)
    requires LastIsPut(ops, client)
  {
    (exists row | row in rows :: Says(row, ops, client, timeout))
    || end - ops[LastOwn(ops, client)].now + Refresh(timeout) > window
  }

  ghost predicate Follows(rows: seq<Row>, ops: seq<Op>, end: int, timeout: int, window: int) {
    && Unique(rows)
    && (forall row | row in rows && row.key.Ours? :: Says(row, ops, row.key.client, timeout) && row.at <= end)
    && forall c | LastIsPut(ops, c) :: HasRow(rows, ops, c, end, timeout, window)
  }

  lemma LastOwnPush(ops: seq<Op>, op: Op, client: int)
    ensures LastOwn(ops + [op], client) == if OwnOp(op, client) then |ops| else LastOwn(ops, client)
  {
    assert (ops + [op])[..|ops|] == ops;
  }

  lemma SaysPush(row: Row, ops: seq<Op>, op: Op, client: int, timeout: int)
    requires !OwnOp(op, client)
    ensures Says(row, ops + [op], client, timeout) == Says(row, ops, client, timeout)
  {
    LastOwnPush(ops, op, client);
  }

  lemma HasRowLater(rows: seq<Row>, ops: seq<Op>, op: Op, client: int, end: int, after: seq<Row>, timeout: int, window: int)
    requires LastIsPut(ops, client) && HasRow(rows, ops, client, end, timeout, window) && end <= op.now && !OwnOp(op, client)
    requires forall x | x in rows && x.key == Ours(client) :: x in after || !Young(x, op.now, window)
    ensures LastIsPut(ops + [op], client) && HasRow(after, ops + [op], client, op.now, timeout, window)
  {
    LastOwnPush(ops, op, client);
    if row :| row in rows && Says(row, ops, client, timeout) {
      SaysPush(row, ops, op, client, timeout);
    }
  }

  lemma OpFollows(rows: seq<Row>, ops: seq<Op>, op: Op, end: int, timeout: int, window: int)
    requires Follows(rows, ops, end, timeout, window) && end <= op.now
    ensures Follows(After(rows, op, timeout, window), ops + [op], op.now, timeout, window)
  {
    var after := After(rows, op, timeout, window);
    AfterIs(rows, op, timeout, window);
    forall row | row in after && row.key.Ours?
      ensures Says(row, ops + [op], row.key.client, timeout) && row.at <= op.now
    {
      RowFollows(rows, ops, op, row, timeout, window);
    }
    forall c | LastIsPut(ops + [op], c)
      ensures HasRow(after, ops + [op], c, op.now, timeout, window)
    {
      LastOwnPush(ops, op, c);
      if OwnOp(op, c) {
        PutSays(rows, ops, op, timeout, window);
      } else {
        HasRowLater(rows, ops, op, c, end, after, timeout, window);
      }
    }
  }

  /** What one step does to the rows of this plugin. */
  lemma AfterIs(rows: seq<Row>, op: Op, timeout: int, window: int)
    requires Unique(rows)
    ensures var after := After(rows, op, timeout, window);
      Unique(after)
      && (forall x | x in after && x.key.Ours? && !OwnOp(op, x.key.client) :: x in rows)
      && (forall x | x in rows && x.key.Ours? && !OwnOp(op, x.key.client) :: x in after || !Young(x, op.now, window))
      && (op.ForgetOp? ==> forall x | x in after :: x.key != Ours(op.client))
  {
    match op
    case PutOp(client, now, state, user) => SetIs(rows, Row(Ours(client), state, user, now));
    case ForgetOp(client, now) => RemoveIs(rows, Ours(client));
    case OtherOp(name, now) => SetIs(rows, Row(Theirs(name), "", 0, now));
    case PurgeOp(now) => PurgeIs(rows, now, window);
  }

  lemma RowFollows(rows: seq<Row>, ops: seq<Op>, op: Op, row: Row, timeout: int, window: int)
    requires Unique(rows) && row in After(rows, op, timeout, window) && row.key.Ours?
    requires forall x | x in rows && x.key.Ours? :: Says(x, ops, x.key.client, timeout)
    requires forall x | x in rows && x.key.Ours? :: x.at <= op.now
    ensures Says(row, ops + [op], row.key.client, timeout) && row.at <= op.now
  {
    AfterIs(rows, op, timeout, window);
    var c := row.key.client;
    if OwnOp(op, c) {
      LastOwnPush(ops, op, c);
      PutRow(rows, op, row, timeout, window);
    } else {
      SaysPush(row, ops, op, c, timeout);
    }
  }

  /** A client's row just after its own put. */
  lemma PutRow(rows: seq<Row>, op: Op, row: Row, timeout: int, window: int)
    requires Unique(rows) && row in After(rows, op, timeout, window) && row.key.Ours? && OwnOp(op, row.key.client)
    requires forall x | x in rows && x.key == row.key && op.PutOp? :: x.at <= op.now
    ensures op.PutOp? && row.state == op.state && row.user == op.user && op.now - Refresh(timeout) < row.at <= op.now
  {
    AfterIs(rows, op, timeout, window);
    if op.PutOp? {
      SetIs(rows, Row(Ours(op.client), op.state, op.user, op.now));
      if Idle(rows, op.now, op.client, op.state, op.user, timeout, window) {
        var x :| x in rows && Listed(x, op.now, timeout, window) && x.key == Ours(op.client)
          && op.now - x.at < Refresh(timeout) && x.user == op.user && x.state == op.state;
        UniqueRow(rows, x, row);
      }
    }
  }

  lemma PutSays(rows: seq<Row>, ops: seq<Op>, op: Op, timeout: int, window: int)
    requires op.PutOp? && Unique(rows)
    requires forall x | x in rows && x.key == Ours(op.client) :: x.at <= op.now
    ensures exists row | row in After(rows, op, timeout, window) :: Says(row, ops + [op], op.client, timeout)
  {
    var mine := Row(Ours(op.client), op.state, op.user, op.now);
    var after := After(rows, op, timeout, window);
    LastOwnPush(ops, op, op.client);
    SetIs(rows, mine);
    if Idle(rows, op.now, op.client, op.state, op.user, timeout, window) {
      var x :| x in rows && Listed(x, op.now, timeout, window) && x.key == Ours(op.client)
        && op.now - x.at < Refresh(timeout) && x.user == op.user && x.state == op.state;
      assert Says(x, ops + [op], op.client, timeout);
    } else {
      assert mine in after && Says(mine, ops + [op], op.client, timeout);
    }
  }

  lemma {:induction false} RunFollows(ops: seq<Op>, timeout: int, window: int)
    requires Timed(ops)
    ensures ops != [] ==> Follows(Play(ops, timeout, window), ops, ops[|ops| - 1].now, timeout, window)
  {
    if ops != [] {
      var front, op := ops[..|ops| - 1], ops[|ops| - 1];
      assert ops == front + [op];
      RunFollows(front, timeout, window);
      var end := if front == [] then op.now else front[|front| - 1].now;
      OpFollows(Play(front, timeout, window), front, op, end, timeout, window);
    }
  }

  /** A client that keeps polling is always listed, with what it last put: it is
      enough that no more than the timeout less the refresh share has passed
      since its last put, and as much less than the site's window. */
  lemma PollingClientIsListed(ops: seq<Op>, client: int, now: int, timeout: int, window: int)
    requires Timed(ops) && LastIsPut(ops, client) && ops[|ops| - 1].now <= now
    requires var gap, share := now - ops[LastOwn(ops, client)].now, if timeout / 3 > 1 then timeout / 3 else 1;
      gap <= timeout - share && gap <= window - share
    ensures var k := LastOwn(ops, client);
      exists e | e in EntriesOf(Play(ops, timeout, window), now, timeout, window) ::
        e.client == client && e.state == ops[k].state && e.user == ops[k].user
  {
    var rows := Play(ops, timeout, window);
    RunFollows(ops, timeout, window);
    EntriesHave(rows, now, timeout, window);
    assert HasRow(rows, ops, client, ops[|ops| - 1].now, timeout, window);
    var row :| row in rows && Says(row, ops, client, timeout);
    assert RowOf(EntryOf(row)) == row;
    assert EntryOf(row) in EntriesOf(rows, now, timeout, window);
  }

  /** And nobody is listed for longer than the timeout, or than the site's window,
      after the last put, nor after a forget. */
  lemma ListedMeansPolling(ops: seq<Op>, e: Entry, now: int, timeout: int, window: int)
    requires Timed(ops) && e in EntriesOf(Play(ops, timeout, window), now, timeout, window)
    ensures LastIsPut(ops, e.client)
    ensures var k := LastOwn(ops, e.client);
      e.state == ops[k].state && e.user == ops[k].user && now - ops[k].now < timeout && now - ops[k].now < window
  {
    var rows := Play(ops, timeout, window);
    if ops == [] {
      EntriesHave(rows, now, timeout, window);
    } else {
      RunFollows(ops, timeout, window);
      EntriesHave(rows, now, timeout, window);
      assert RowOf(e) in rows;
    }
  }

  lemma SkippedWriteDropsOut(client: int, state: string, user: int, timeout: int, window: int)
    returns (ops: seq<Op>, now: int)
    requires window >= timeout >= 1
    ensures Timed(ops) && LastIsPut(ops, client) && ops[|ops| - 1].now <= now
    ensures now - ops[LastOwn(ops, client)].now == timeout - Refresh(timeout) + 1
    ensures forall e | e in EntriesOf(Play(ops, timeout, window), now, timeout, window) :: e.client != client
  {
    var r := Refresh(timeout);
    var first, second := PutOp(client, 0, state, user), PutOp(client, r - 1, state, user);
    ops, now := [first, second], timeout;
    var row := Row(Ours(client), state, user, 0);
    assert ops[..1] == [first] && [first][..0] == [];
    SetIs([], row);
    assert Play([first], timeout, window) == Set([], row);
    var rows := Set([], row);
    assert row in rows && Listed(row, r - 1, timeout, window);
    assert Idle(rows, r - 1, client, state, user, timeout, window);
    assert Play(ops, timeout, window) == rows;
    EntriesHave(rows, now, timeout, window);
    forall e | e in EntriesOf(rows, now, timeout, window)
      ensures e.client != client
    {
      assert RowOf(e) in rows;
    }
  }

  /** The share cannot be had back: with one second more between polls, a skipped
      write lets the client drop out of the list. */
  lemma OneSecondMoreIsTooMuch(client: int, state: string, user: int, timeout: int, window: int)
    returns (ops: seq<Op>, now: int)
    requires window >= timeout >= 1
    ensures Timed(ops) && LastIsPut(ops, client) && ops[|ops| - 1].now <= now
    ensures now - ops[LastOwn(ops, client)].now == timeout - (if timeout / 3 > 1 then timeout / 3 else 1) + 1
    ensures forall e | e in EntriesOf(Play(ops, timeout, window), now, timeout, window) :: e.client != client
  {
    ops, now := SkippedWriteDropsOut(client, state, user, timeout, window);
  }
}
