/** The built-in awareness store, WP_Sync_Awareness: one array per room, read,
    filtered, sorted and written back. */
module Awareness {
  import opened StableSort

  /** One client's presence; the state as the JSON text it is kept as. */
  datatype Entry = Entry(client: int, state: string, at: int, user: int)

  /** What a stored array may hold: entries, or values that are not entries. */
  datatype Slot = Whole(entry: Entry) | Broken

  /** WP_HTTP_Polling_Sync_Server::awareness_timestamp: the time rounded up. */
  function Bucket(now: int, granularity: int): int {
    var g := if granularity < 1 then 1 else granularity;
    (now + g - 1) / g * g
  }

  predicate Alive(e: Entry, now: int, timeout: int) {
    now - e.at < timeout
  }

  /** Kept by the filter; client 0 excludes nobody. */
  predicate Stays(slot: Slot, now: int, timeout: int, exclude: int) {
    slot.Whole? && (exclude == 0 || slot.entry.client != exclude) && Alive(slot.entry, now, timeout)
  }

  function LiveOf(slots: seq<Slot>, now: int, timeout: int, exclude: int): seq<Entry> {
    if slots == [] then []
    else
      var last := slots[|slots| - 1];
      LiveOf(slots[..|slots| - 1], now, timeout, exclude) + if Stays(last, now, timeout, exclude) then [last.entry] else []
  }

  function ClientOf(e: Entry): int {
    e.client
  }

  /** usort by client id. */
  function SortByClient(es: seq<Entry>): seq<Entry> {
    SortBy(es, ClientOf)
  }

  function Slots(es: seq<Entry>): (r: seq<Slot>)
    ensures |r| == |es| && forall i | 0 <= i < |es| :: r[i] == Whole(es[i])
  {
    seq(|es|, i requires 0 <= i < |es| => Whole(es[i]))
  }

  /** The room after a put, and after a forget. */
  function Put(slots: seq<Slot>, now: int, timeout: int, e: Entry): seq<Entry> {
    SortByClient(LiveOf(slots, now, timeout, e.client) + [e])
  }

  function Forget(slots: seq<Slot>, now: int, timeout: int, client: int): seq<Entry> {
    SortByClient(LiveOf(slots, now, timeout, client))
  }

  lemma LivePush(slots: seq<Slot>, slot: Slot, now: int, timeout: int, exclude: int)
    ensures LiveOf(slots + [slot], now, timeout, exclude) ==
      LiveOf(slots, now, timeout, exclude) + if Stays(slot, now, timeout, exclude) then [slot.entry] else []
  {
    assert (slots + [slot])[..|slots|] == slots;
  }

  lemma {:induction false} LiveIs(slots: seq<Slot>, now: int, timeout: int, exclude: int)
    ensures forall e :: e in LiveOf(slots, now, timeout, exclude) <==> Whole(e) in slots && (exclude == 0 || e.client != exclude) && now - e.at < timeout
  {
    if slots != [] {
      var front, last := slots[..|slots| - 1], slots[|slots| - 1];
      assert slots == front + [last];
      LiveIs(front, now, timeout, exclude);
    }
  }

  /** One entry per client, by client id. */
  ghost predicate Ordered(es: seq<Entry>) {
    forall i, j | 0 <= i < j < |es| :: es[i].client < es[j].client
  }

  lemma OrderedPush(es: seq<Entry>, e: Entry)
    requires Ordered(es) && forall x | x in es :: x.client < e.client
    ensures Ordered(es + [e])
  {
  }

  // ---- What the operations do to the room ----

  lemma OrderedLive(es: seq<Entry>, now: int, timeout: int, exclude: int)
    requires Ordered(es)
    ensures Ordered(LiveOf(Slots(es), now, timeout, exclude))
    ensures forall e :: e in LiveOf(Slots(es), now, timeout, exclude) <==>
      e in es && (exclude == 0 || e.client != exclude) && now - e.at < timeout
  {
    if es != [] {
      var front, last := es[..|es| - 1], es[|es| - 1];
      assert Slots(es)[..|es| - 1] == Slots(front);
      assert es == front + [last];
      OrderedLive(front, now, timeout, exclude);
      var kept := LiveOf(Slots(front), now, timeout, exclude);
      assert forall e | e in front :: e.client < last.client;
      OrderedPush(kept, last);
    }
  }

  /** Putting replaces one client's entry and drops the expired ones; client 0
      replaces nothing, so for it the array stays one entry per client exactly
      when it has no live entry. */
  lemma PutReplaces(es: seq<Entry>, now: int, timeout: int, e: Entry)
    requires Ordered(es)
    ensures var zero := e.client == 0 && exists x | x in es :: x.client == 0 && now - x.at < timeout;
      var r := Put(Slots(es), now, timeout, e);
      (Ordered(r) <==> !zero) && (!zero ==> forall x :: x in r <==> x == e || (x in es && x.client != e.client && now - x.at < timeout))
  {
    var kept := LiveOf(Slots(es), now, timeout, e.client);
    OrderedLive(es, now, timeout, e.client);
    OneEachPush(kept, e, ClientOf);
    StrictSort(kept + [e], ClientOf);
    SortHas(kept + [e], ClientOf);
  }

  lemma ForgetRemoves(es: seq<Entry>, now: int, timeout: int, client: int)
    requires Ordered(es)
    ensures Ordered(Forget(Slots(es), now, timeout, client))
    ensures forall x :: x in Forget(Slots(es), now, timeout, client) <==>
      x in es && (client == 0 || x.client != client) && now - x.at < timeout
  {
    OrderedLive(es, now, timeout, client);
    SortOfSorted(LiveOf(Slots(es), now, timeout, client), ClientOf);
  }

  /** A put writes nothing exactly when the client's entry is the same to the
      last detail and no one else's has expired. */
  lemma PutIsIdleExactly(es: seq<Entry>, now: int, timeout: int, e: Entry)
    requires Ordered(es) && e.client != 0
    ensures Put(Slots(es), now, timeout, e) == es <==>
      e in es && forall x | x in es && x.client != e.client :: now - x.at < timeout
  {
    var r := Put(Slots(es), now, timeout, e);
    PutReplaces(es, now, timeout, e);
    if e in es && forall x | x in es && x.client != e.client :: now - x.at < timeout {
      forall x
        ensures x in r <==> x in es
      {
        if x in es && x.client == e.client {
          var i :| 0 <= i < |es| && es[i] == x;
          var j :| 0 <= j < |es| && es[j] == e;
          assert i == j;
        }
      }
      StrictIsUnique(r, es, ClientOf);
    }
  }

  lemma ForgetIsIdleExactly(es: seq<Entry>, now: int, timeout: int, client: int)
    requires Ordered(es)
    ensures Forget(Slots(es), now, timeout, client) == es <==>
      forall x | x in es :: (client == 0 || x.client != client) && now - x.at < timeout
  {
    var r := Forget(Slots(es), now, timeout, client);
    ForgetRemoves(es, now, timeout, client);
    if forall x | x in es :: (client == 0 || x.client != client) && now - x.at < timeout {
      StrictIsUnique(r, es, ClientOf);
    }
  }

  /** The rounding never shortens an entry's life, and lengthens it by less than
      one step. */
  lemma BucketBounds(now: int, granularity: int)
    ensures var g := if granularity < 1 then 1 else granularity;
      now <= Bucket(now, granularity) < now + g && Bucket(now, granularity) % g == 0
  {
    var g := if granularity < 1 then 1 else granularity;
    var q := (now + g - 1) / g;
    assert q * g + (now + g - 1) % g == now + g - 1;
    MultipleHasNoRest(q, g);
  }

  lemma MultipleHasNoRest(q: int, g: int)
    requires g >= 1
    ensures q * g % g == 0
  {
    var r := q * g % g;
    var d := q * g / g;
    assert q * g == d * g + r;
    assert (q - d) * g == r;
    assert q - d >= 1 ==> (q - d) * g >= g;
    assert q - d <= -1 ==> (q - d) * g <= -g;
  }

  /** The window in which an entry put at `put` is listed. */
  lemma ListedFor(put: int, now: int, timeout: int, granularity: int, client: int, state: string, user: int)
    ensures var e := Entry(client, state, Bucket(put, granularity), user);
      (now < put + timeout ==> now - e.at < timeout) &&
      (now - e.at < timeout ==> now < put + timeout + (if granularity < 1 then 1 else granularity) - 1)
  {
    BucketBounds(put, granularity);
  }

  // ---- The store, against a map from client to entry ----

  /** The room as the array holds it, from `clock` on: the last entry put by each
      client that has not been forgotten, as long as it lives. */
  ghost predicate Refines(es: seq<Entry>, room: map<int, Entry>, clock: int, timeout: int) {
    && Ordered(es)
    && (forall c | c in room :: room[c].client == c)
    && forall e: Entry | clock - e.at < timeout :: e in es <==> e.client in room && room[e.client] == e
  }

  class Store {
    const timeout: int
    const granularity: int
    var stored: seq<Slot>
    var writes: nat
    ghost var room: map<int, Entry>
    ghost var clock: int
    ghost var held: seq<Entry>

    ghost predicate Valid()
      reads this
    {
      stored == Slots(held) && Refines(held, room, clock, timeout)
    }

    constructor (window: int, step: int)
      ensures Valid() && timeout == window && granularity == step && room == map[] && held == []
    {
      timeout, granularity := window, step;
      stored, writes := [], 0;
      room, clock, held := map[], 0, [];
    }

    method LiveEntries(now: int, exclude: int) returns (live: seq<Entry>)
      ensures live == LiveOf(stored, now, timeout, exclude)
    {
      live := [];
      for i := 0 to |stored|
        invariant live == LiveOf(stored[..i], now, timeout, exclude)
      {
        LivePush(stored[..i], stored[i], now, timeout, exclude);
        assert stored[..i + 1] == stored[..i] + [stored[i]];
        if stored[i].Broken? {
          continue;
        }
        if exclude != 0 && stored[i].entry.client == exclude {
          continue;
        }
        if now - stored[i].entry.at >= timeout {
          continue;
        }
        live := live + [stored[i].entry];
      }
      assert stored[..|stored|] == stored;
    }

    /** Writes back what has changed. */
    method WriteBack(entries: seq<Entry>) returns (r: seq<Entry>)
      modifies `stored, `writes
      ensures r == SortByClient(entries) && stored == Slots(r)
      ensures writes == old(writes) + if Slots(r) == old(stored) then 0 else 1
    {
      r := SortByClient(entries);
      if Slots(r) != stored {
        stored := Slots(r);
        writes := writes + 1;
      }
    }

    /** Lists, by client id, the entries of the room that live. */
    method Entries(now: int) returns (es: seq<Entry>)
      requires Valid() && clock <= now
      ensures Ordered(es)
      ensures forall e :: e in es <==> e.client in room && room[e.client] == e && now - e.at < timeout
    {
      es := LiveEntries(now, 0);
      OrderedLive(held, now, timeout, 0);
    }

    /** Replaces the client's entry in the room and leaves every other alone. */
    method PutState(now: int, client: int, state: string, user: int) returns (es: seq<Entry>)
      requires Valid() && clock <= now
      modifies this
      ensures clock == now && held == es && stored == Slots(es)
      ensures var e := Entry(client, state, Bucket(now, granularity), user);
        && (client != 0 || (forall x | x in old(held) && now - x.at < timeout :: x.client != 0)
            ==> Valid() && room == old(room)[client := e])
        && (client != 0 ==> writes == old(writes) + if e in old(held) && forall x | x in old(held) && x.client != client :: now - x.at < timeout then 0 else 1)
    {
      var e := Entry(client, state, Bucket(now, granularity), user);
      var live := LiveEntries(now, client);
      es := WriteBack(live + [e]);
      PutReplaces(held, now, timeout, e);
      if client != 0 {
        PutIsIdleExactly(held, now, timeout, e);
        SlotsInjective(es, held);
      }
      RefinesPut(held, room, clock, timeout, now, e, es);
      held, room, clock := es, room[client := e], now;
    }

    /** Takes the client's entry out of the room and leaves every other alone;
        client 0 stands for nobody. */
    method ForgetClient(now: int, client: int) returns (es: seq<Entry>)
      requires Valid() && clock <= now
      modifies this
      ensures Valid() && clock == now && held == es && room == if client == 0 then old(room) else old(room) - {client}
      ensures writes == old(writes) +
        if forall x | x in old(held) :: (client == 0 || x.client != client) && now - x.at < timeout then 0 else 1
    {
      var live := LiveEntries(now, client);
      es := WriteBack(live);
      ForgetRemoves(held, now, timeout, client);
      ForgetIsIdleExactly(held, now, timeout, client);
      SlotsInjective(es, held);
      RefinesForget(held, room, clock, timeout, now, client, es);
      held, room, clock := es, if client == 0 then room else room - {client}, now;
    }
  }

  lemma SlotsInjective(a: seq<Entry>, b: seq<Entry>)
    ensures Slots(a) == Slots(b) <==> a == b
  {
    if Slots(a) == Slots(b) {
      assert |a| == |b|;
      forall i | 0 <= i < |a|
        ensures a[i] == b[i]
      {
        assert Slots(a)[i] == Whole(a[i]) && Slots(b)[i] == Whole(b[i]);
      }
    }
  }

  lemma RefinesPut(es: seq<Entry>, room: map<int, Entry>, clock: int, timeout: int, now: int, e: Entry, after: seq<Entry>)
    requires Refines(es, room, clock, timeout) && clock <= now
    requires Ordered(after) ==> forall x :: x in after <==> x == e || (x in es && x.client != e.client && now - x.at < timeout)
    ensures Ordered(after) ==> Refines(after, room[e.client := e], now, timeout)
  {
  }

  lemma RefinesForget(es: seq<Entry>, room: map<int, Entry>, clock: int, timeout: int, now: int, client: int, after: seq<Entry>)
    requires Refines(es, room, clock, timeout) && clock <= now && Ordered(after)
    requires forall x :: x in after <==> x in es && (client == 0 || x.client != client) && now - x.at < timeout
    ensures Refines(after, if client == 0 then room else room - {client}, now, timeout)
  {
  }
}
