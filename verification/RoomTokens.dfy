/** The record of a room's presence tokens, kept in a transient by
    Gutenberg_Sync_Engines_Advisory_Presence. */
module RoomTokens {
  import opened StableSort

  const PRESENCE_TTL := 300
  const TOKENS_TRANSIENT_EXPIRY := 600
  const MAX_TOKENS_PER_ROOM: nat := 50

  /** A tab's token, its last beat, and whether it made a sync request. */
  datatype Entry = Entry(token: string, at: int, joined: bool)

  /** The transient: entries in the order of the PHP array, and the last second
      at which it can be read. */
  datatype Stored = Nothing | Transient(entries: seq<Entry>, expires: int)

  predicate Fresh(e: Entry, now: int) {
    now - e.at < PRESENCE_TTL
  }

  function FreshOf(es: seq<Entry>, now: int): seq<Entry> {
    if es == [] then []
    else FreshOf(es[..|es| - 1], now) + if Fresh(es[|es| - 1], now) then [es[|es| - 1]] else []
  }

  function Live(s: Stored, now: int): seq<Entry> {
    if s.Nothing? || s.expires < now then [] else FreshOf(s.entries, now)
  }

  function Find(es: seq<Entry>, token: string): (k: int)
    ensures -1 <= k < |es|
    ensures k >= 0 ==> es[k].token == token
    ensures k < 0 ==> forall i | 0 <= i < |es| :: es[i].token != token
  {
    if es == [] then -1
    else if es[|es| - 1].token == token then |es| - 1
    else Find(es[..|es| - 1], token)
  }

  /** Whether the token is there and has made a sync request. */
  predicate HasJoined(es: seq<Entry>, token: string) {
    var k := Find(es, token);
    k >= 0 && es[k].joined
  }

  /** $tokens[ $token ] = entry */
  function Put(es: seq<Entry>, e: Entry): (r: seq<Entry>)
    ensures |es| <= |r| && forall i | 0 <= i < |es| && es[i].token != e.token :: r[i] == es[i]
  {
    var k := Find(es, e.token);
    if k >= 0 then es[k := e] else es + [e]
  }

  /** unset( $tokens[ $token ] ) */
  function Without(es: seq<Entry>, token: string): seq<Entry> {
    if es == [] then []
    else Without(es[..|es| - 1], token) + if es[|es| - 1].token == token then [] else [es[|es| - 1]]
  }

  // ---- The cap ----

  /** uasort puts the newest first. */
  function Age(e: Entry): int {
    -e.at
  }

  function Capped(es: seq<Entry>): (r: seq<Entry>)
    ensures |r| <= MAX_TOKENS_PER_ROOM
  {
    SortKeeps(es, Age);
    if |es| > MAX_TOKENS_PER_ROOM then SortBy(es, Age)[..MAX_TOKENS_PER_ROOM] else es
  }

  // ---- The two writes ----

  function AfterBeat(s: Stored, now: int, token: string, joined: bool): Stored {
    var live := Live(s, now);
    var e := Entry(token, now, joined || HasJoined(live, token));
    Transient(Capped(Put(live, e)), now + TOKENS_TRANSIENT_EXPIRY)
  }

  function AfterLeave(s: Stored, now: int, token: string): Stored {
    var rest := Without(Live(s, now), token);
    if rest == [] then Nothing else Transient(rest, now + TOKENS_TRANSIENT_EXPIRY)
  }

  lemma FreshPush(es: seq<Entry>, e: Entry, now: int)
    ensures FreshOf(es + [e], now) == FreshOf(es, now) + if Fresh(e, now) then [e] else []
  {
    assert (es + [e])[..|es|] == es;
  }

  lemma WithoutPush(es: seq<Entry>, e: Entry, token: string)
    ensures Without(es + [e], token) == Without(es, token) + if e.token == token then [] else [e]
  {
    assert (es + [e])[..|es|] == es;
  }

  // ---- Membership ----

  /** No two entries have one token, as keys of an array. */
  ghost predicate Distinct(es: seq<Entry>) {
    forall i, j | 0 <= i < j < |es| :: es[i].token != es[j].token
  }

  lemma {:induction false} FreshIs(es: seq<Entry>, now: int)
    ensures forall e :: e in FreshOf(es, now) <==> e in es && Fresh(e, now)
    ensures Distinct(es) ==> Distinct(FreshOf(es, now))
  {
    if es != [] {
      var n := |es| - 1;
      var front := es[..n];
      assert es == front + [es[n]];
      FreshIs(front, now);
      if Distinct(es) {
        assert forall i, j | 0 <= i < j < n :: front[i] == es[i] && front[j] == es[j];
        assert forall e | e in front :: e.token != es[n].token;
      }
    }
  }

  lemma {:induction false} WithoutHas(es: seq<Entry>, token: string)
    ensures forall e :: e in Without(es, token) <==> e in es && e.token != token
    ensures |Without(es, token)| <= |es|
  {
    if es != [] {
      var front, last := es[..|es| - 1], es[|es| - 1];
      assert es == front + [last];
      WithoutHas(front, token);
    }
  }

  lemma DistinctPush(es: seq<Entry>, e: Entry)
    ensures Distinct(es + [e]) <==> Distinct(es) && forall x | x in es :: x.token != e.token
  {
    var r := es + [e];
    assert r[|es|] == e && forall i | 0 <= i < |es| :: r[i] == es[i];
    if Distinct(r) {
      forall x | x in es
        ensures x.token != e.token
      {
        var i :| 0 <= i < |es| && es[i] == x;
        assert r[i].token != r[|es|].token;
      }
    }
  }

  lemma {:induction false} WithoutIs(es: seq<Entry>, token: string)
    ensures forall e :: e in Without(es, token) <==> e in es && e.token != token
    ensures Distinct(es) ==> Distinct(Without(es, token))
    ensures |Without(es, token)| <= |es|
  {
    WithoutHas(es, token);
    if es != [] {
      var front, last := es[..|es| - 1], es[|es| - 1];
      assert es == front + [last];
      WithoutIs(front, token);
      WithoutPush(front, last, token);
      DistinctPush(front, last);
      DistinctPush(Without(front, token), last);
    }
  }

  lemma PutIs(es: seq<Entry>, e: Entry)
    requires Distinct(es)
    ensures forall x :: x in Put(es, e) <==> x == e || (x in es && x.token != e.token)
    ensures Distinct(Put(es, e))
    ensures |Put(es, e)| == |es| + if Find(es, e.token) >= 0 then 0 else 1
  {
    var k, r := Find(es, e.token), Put(es, e);
    forall x
      ensures x in r <==> x == e || (x in es && x.token != e.token)
    {
      if x in es && x.token != e.token {
        var i :| 0 <= i < |es| && es[i] == x;
        assert r[i] == x;
      }
      if x == e {
        assert r[if k >= 0 then k else |es|] == e;
      }
      if x in r && x != e {
        var i :| 0 <= i < |r| && r[i] == x;
        assert es[i] == x;
      }
    }
  }

  lemma LiveIs(s: Stored, now: int)
    requires s.Transient? ==> Distinct(s.entries)
    ensures Distinct(Live(s, now))
    ensures forall e :: e in Live(s, now) <==> s.Transient? && now <= s.expires && e in s.entries && Fresh(e, now)
  {
    if s.Transient? {
      FreshIs(s.entries, now);
    }
  }

  /** What a beat writes can be read for ten minutes; a leave takes the transient
      away exactly if no other token is live, and else keeps it as long. */
  lemma KeptForTenMinutes(s: Stored, now: int, token: string, joined: bool)
    ensures AfterBeat(s, now, token, joined).Transient? && AfterBeat(s, now, token, joined).expires == now + 600
    ensures AfterLeave(s, now, token).Nothing? <==> forall e | e in Live(s, now) :: e.token == token
    ensures AfterLeave(s, now, token).Transient? ==> AfterLeave(s, now, token).expires == now + 600
  {
    var rest := Without(Live(s, now), token);
    WithoutHas(Live(s, now), token);
    assert rest != [] ==> rest[0] in rest;
  }

  // ---- What the cap costs ----

  /** The place of the entry that loses: the oldest, and the last of those as old. */
  function Oldest(es: seq<Entry>): (k: nat)
    requires es != []
    ensures k < |es|
    ensures forall i | 0 <= i < |es| :: es[k].at <= es[i].at
    ensures forall i | k < i < |es| :: es[k].at < es[i].at
  {
    var k := Greatest(es, Age);
    assert forall i | 0 <= i < |es| :: Age(es[i]) <= Age(es[k]);
    assert forall i | k < i < |es| :: Age(es[i]) < Age(es[k]);
    k
  }

  /** One entry too many: the cap drops the oldest one, and nothing else. */
  lemma CapDropsOldest(es: seq<Entry>)
    requires Distinct(es) && |es| == 51
    ensures forall e :: e in Capped(es) <==> e in es && e != es[Oldest(es)]
    ensures Distinct(Capped(es))
  {
    SortKeeps(es, Age);
    SortLast(es, Age);
    var sorted := SortBy(es, Age);
    var last := es[Oldest(es)];
    assert sorted == Capped(es) + [last];
    assert multiset(es) == multiset(Capped(es)) + multiset{last};
    DistinctCounts(es);
    forall e
      ensures e in Capped(es) <==> e in es && e != last
    {
      assert e in Capped(es) <==> e in multiset(Capped(es));
      assert e in es <==> e in multiset(es);
    }
    SameTokens(es, Capped(es));
  }

  lemma {:induction false} DistinctCounts(es: seq<Entry>)
    requires Distinct(es)
    ensures forall e | e in es :: multiset(es)[e] == 1
  {
    if es != [] {
      var n := |es| - 1;
      assert es == es[..n] + [es[n]];
      assert Distinct(es[..n]);
      DistinctCounts(es[..n]);
      assert es[n] !in es[..n];
      forall e | e in es
        ensures multiset(es)[e] == 1
      {
        assert multiset(es)[e] == multiset(es[..n])[e] + multiset{es[n]}[e];
        if e in es[..n] {
          assert e != es[n];
        } else {
          assert multiset(es[..n])[e] == 0;
        }
      }
    }
  }

  /** A selection from distinct entries is distinct. */
  lemma SameTokens(es: seq<Entry>, part: seq<Entry>)
    requires Distinct(es) && multiset(part) <= multiset(es)
    ensures Distinct(part)
  {
    DistinctCounts(es);
    forall i, j | 0 <= i < j < |part|
      ensures part[i].token != part[j].token
    {
      TwiceCounts(part, i, j);
      assert part[i] in multiset(part) && part[j] in multiset(part);
      assert part[i] in es && part[j] in es;
    }
  }

  /** A beat is lost to the cap exactly when its tab is new and as many others
      as fit have beaten in the very same second. */
  lemma BeatIsLostExactly(live: seq<Entry>, mine: Entry)
    requires Distinct(live) && |live| <= 50 && forall e | e in live :: e.at <= mine.at
    ensures mine !in Capped(Put(live, mine)) <==>
      Find(live, mine.token) < 0 && |live| == 50 && forall e | e in live :: e.at == mine.at
  {
    var all := Put(live, mine);
    PutIs(live, mine);
    assert mine in all;
    if |all| > 50 {
      CapDropsOldest(all);
      assert all == live + [mine];
      var k := Oldest(all);
      if k < |live| {
        assert all[k] == live[k] && all[|live|] == mine;
        assert live[k] in live && live[k].token != mine.token;
      } else {
        forall e | e in live
          ensures e.at == mine.at
        {
          var i :| 0 <= i < |live| && live[i] == e;
          assert all[k].at <= all[i].at;
        }
      }
    }
  }

  // ---- The code ----

  /** The room's token record. */
  class TokenRecord {
    var stored: Stored

    constructor ()
      ensures stored == Nothing
    {
      stored := Nothing;
    }

    method ReadTokens(now: int) returns (live: seq<Entry>)
      ensures live == Live(stored, now)
    {
      if stored.Nothing? || stored.expires < now {
        return [];
      }
      live := [];
      var entries := stored.entries;
      for i := 0 to |entries|
        invariant live == FreshOf(entries[..i], now)
      {
        FreshPush(entries[..i], entries[i], now);
        assert entries[..i + 1] == entries[..i] + [entries[i]];
        if now - entries[i].at >= PRESENCE_TTL {
          continue;
        }
        live := live + [entries[i]];
      }
      assert entries[..|entries|] == entries;
    }

    method RecordToken(now: int, token: string, joined: bool)
      modifies this
      ensures stored == AfterBeat(old(stored), now, token, joined)
    {
      var tokens := ReadTokens(now);
      tokens := Put(tokens, Entry(token, now, joined || HasJoined(tokens, token)));
      if |tokens| > MAX_TOKENS_PER_ROOM {
        SortKeeps(tokens, Age);
        tokens := SortBy(tokens, Age)[..MAX_TOKENS_PER_ROOM];
      }
      stored := Transient(tokens, now + TOKENS_TRANSIENT_EXPIRY);
    }

    method ForgetToken(now: int, token: string)
      modifies this
      ensures stored == AfterLeave(old(stored), now, token)
    {
      var tokens := ReadTokens(now);
      tokens := Without(tokens, token);
      if |tokens| == 0 {
        stored := Nothing;
      } else {
        stored := Transient(tokens, now + TOKENS_TRANSIENT_EXPIRY);
      }
    }
  }
}
