/** When Gutenberg_Sync_Engines_Advisory_Presence resets a per-post room: the
    requests of all its tabs over time, and who was there. Each request is one
    atomic step. */
module RoomLifetime {
  import opened RoomTokens

  // ---- What happened ----

  /** A probe, a page render or a sync request records the tab's token; leaving
      forgets it. */
  datatype Event = Beat(tab: string, at: int, sync: bool) | Gone(tab: string, at: int)

  predicate Timed(log: seq<Event>) {
    forall i, j | 0 <= i < j < |log| :: log[i].at <= log[j].at
  }

  /** The clock reads `now` after the log. */
  predicate Since(log: seq<Event>, now: int) {
    log != [] ==> log[|log| - 1].at <= now
  }

  /** The last event of the tab, or -1. */
  function LastOf(log: seq<Event>, tab: string): (k: int)
    ensures -1 <= k < |log|
    ensures k >= 0 ==> log[k].tab == tab
    ensures forall i | k < i < |log| :: log[i].tab != tab
  {
    if log == [] then -1
    else if log[|log| - 1].tab == tab then |log| - 1
    else LastOf(log[..|log| - 1], tab)
  }

  /** The tab has beaten within the TTL and has not left since. */
  predicate Here(log: seq<Event>, tab: string, now: int) {
    var k := LastOf(log, tab);
    k >= 0 && log[k].Beat? && now - log[k].at < 300
  }

  lemma HereMeans(log: seq<Event>, tab: string, now: int)
    requires Timed(log)
    ensures Here(log, tab, now) <==>
      exists i | 0 <= i < |log| :: log[i].tab == tab && log[i].Beat? && now - log[i].at < 300 && !LeavesAfter(log, i, tab)
  {
    var k := LastOf(log, tab);
    if Here(log, tab, now) {
      assert !LeavesAfter(log, k, tab);
    }
    if i :| 0 <= i < |log| && log[i].tab == tab && log[i].Beat? && now - log[i].at < 300 && !LeavesAfter(log, i, tab) {
      assert i <= k && log[i].at <= log[k].at;
    }
  }

  predicate LeavesAfter(log: seq<Event>, i: int, tab: string)
    requires 0 <= i < |log|
  {
    exists j | i < j < |log| :: log[j] == Gone(tab, log[j].at)
  }

  function HereSet(log: seq<Event>, now: int): set<string> {
    set i | 0 <= i < |log| && Here(log, log[i].tab, now) :: log[i].tab
  }

  lemma HereSetHas(log: seq<Event>, tab: string, now: int)
    ensures tab in HereSet(log, now) <==> Here(log, tab, now)
  {
    var k := LastOf(log, tab);
    assert k >= 0 ==> log[k].tab == tab;
  }

  /** At event k the tab has made a sync request, and has been there ever since. */
  predicate Joined(log: seq<Event>, k: nat)
    requires k < |log|
    decreases k
  {
    log[k].Beat? && (log[k].sync ||
      (Here(log[..k], log[k].tab, log[k].at) && Joined(log, LastOf(log[..k], log[k].tab))))
  }

  /** The same, now. */
  predicate JoinedBy(log: seq<Event>, tab: string, now: int) {
    Here(log, tab, now) && Joined(log, LastOf(log, tab))
  }

  /** Never more tabs at once than the record has room for. */
  ghost predicate Uncrowded(log: seq<Event>) {
    forall k | 0 <= k < |log| && log[k].Beat? :: |HereSet(log[..k + 1], log[k].at)| <= 50
  }

  // ---- What the record holds ----

  function After(s: Stored, e: Event): Stored {
    match e
    case Beat(tab, at, sync) => AfterBeat(s, at, tab, sync)
    case Gone(tab, at) => AfterLeave(s, at, tab)
  }

  function Play(log: seq<Event>): Stored {
    if log == [] then Nothing else After(Play(log[..|log| - 1]), log[|log| - 1])
  }

  /** The entry says what the log says. */
  ghost predicate True(e: Entry, log: seq<Event>) {
    var k := LastOf(log, e.token);
    k >= 0 && log[k].Beat? && e.at == log[k].at && e.joined == Joined(log, k)
  }

  function EntriesOf(s: Stored): seq<Entry> {
    if s.Nothing? then [] else s.entries
  }

  ghost predicate HasToken(es: seq<Entry>, tab: string) {
    exists e | e in es :: e.token == tab
  }

  ghost predicate AllTrue(es: seq<Entry>, log: seq<Event>) {
    forall e | e in es :: True(e, log)
  }

  /** Every tab that is there has an entry. */
  ghost predicate Covers(es: seq<Entry>, log: seq<Event>, now: int) {
    forall tab | Here(log, tab, now) :: HasToken(es, tab)
  }

  /** The live entries, at any time from now on, are those of the tabs there. */
  ghost predicate Keeps(s: Stored, log: seq<Event>) {
    && Distinct(EntriesOf(s)) && AllTrue(EntriesOf(s), log)
    && (forall e | e in EntriesOf(s) :: e.at + 600 <= s.expires)
    && forall now | Since(log, now) :: Covers(EntriesOf(s), log, now)
  }

  lemma {:induction false} JoinedPrefix(log: seq<Event>, e: Event, k: nat)
    requires k < |log|
    ensures Joined(log + [e], k) == Joined(log, k)
    decreases k
  {
    var r := log + [e];
    assert r[..k] == log[..k] && r[k] == log[k];
    var p := LastOf(log[..k], log[k].tab);
    if p >= 0 {
      JoinedPrefix(log, e, p);
    }
  }

  lemma LastPush(log: seq<Event>, e: Event, tab: string)
    ensures LastOf(log + [e], tab) == if e.tab == tab then |log| else LastOf(log, tab)
  {
    assert (log + [e])[..|log|] == log;
  }

  /** What the next event changes for one tab. */
  lemma HerePush(log: seq<Event>, e: Event, tab: string, now: int)
    ensures Here(log + [e], tab, now) <==>
      if e.tab == tab then e.Beat? && now - e.at < 300 else Here(log, tab, now)
  {
    LastPush(log, e, tab);
  }

  /** The live entries and the log agree. */
  lemma LiveKeeps(s: Stored, log: seq<Event>, now: int)
    requires Keeps(s, log) && Since(log, now) && Timed(log)
    ensures Distinct(Live(s, now)) && AllTrue(Live(s, now), log) && Covers(Live(s, now), log, now)
    ensures forall e | e in Live(s, now) :: Here(log, e.token, now) && e.at <= now
  {
    LiveIs(s, now);
    forall e | e in Live(s, now)
      ensures True(e, log) && Here(log, e.token, now) && e.at <= now
    {
      assert e in EntriesOf(s);
    }
    assert Covers(EntriesOf(s), log, now);
    forall tab | Here(log, tab, now)
      ensures HasToken(Live(s, now), tab)
    {
      assert HasToken(EntriesOf(s), tab);
      var e :| e in EntriesOf(s) && e.token == tab;
      assert True(e, log);
      assert e in Live(s, now);
    }
  }

  lemma FindIs(es: seq<Entry>, token: string)
    requires Distinct(es)
    ensures Find(es, token) >= 0 <==> HasToken(es, token)
  {
    if e :| e in es && e.token == token {
      var i :| 0 <= i < |es| && es[i] == e;
      assert Find(es, token) >= 0;
    }
  }

  /** Whether the record has the tab as joined. */
  lemma KnownJoined(s: Stored, log: seq<Event>, tab: string, now: int)
    requires Keeps(s, log) && Since(log, now) && Timed(log)
    ensures HasJoined(Live(s, now), tab) <==> JoinedBy(log, tab, now)
  {
    LiveKeeps(s, log, now);
    var live := Live(s, now);
    FindIs(live, tab);
    if Find(live, tab) >= 0 {
      assert True(live[Find(live, tab)], log);
    }
  }

  lemma {:induction false} DistinctSize(es: seq<Entry>, tabs: set<string>)
    requires Distinct(es) && forall e | e in es :: e.token in tabs
    ensures |es| <= |tabs|
  {
    if es != [] {
      var n := |es| - 1;
      assert Distinct(es[..n]);
      forall e | e in es[..n]
        ensures e.token in tabs - {es[n].token}
      {
        assert e in es;
      }
      DistinctSize(es[..n], tabs - {es[n].token});
      assert es[n] in es;
    }
  }

  lemma BeatKeeps(s: Stored, log: seq<Event>, e: Event)
    requires Keeps(s, log) && e.Beat? && Since(log, e.at) && Timed(log)
    requires |HereSet(log + [e], e.at)| <= 50
    ensures Keeps(AfterBeat(s, e.at, e.tab, e.sync), log + [e])
  {
    var live := Live(s, e.at);
    var mine := Entry(e.tab, e.at, e.sync || HasJoined(live, e.tab));
    var all := Put(live, mine);
    LiveKeeps(s, log, e.at);
    KnownJoined(s, log, e.tab, e.at);
    BeatIsKept(live, log, e, mine);
    assert Capped(all) == all;
    forall later | Since(log + [e], later)
      ensures Covers(all, log + [e], later)
    {
      BeatCovers(live, log, e, all, later);
    }
  }

  /** The live entries with the beat's own in place: true, and few enough to keep. */
  lemma BeatIsKept(live: seq<Entry>, log: seq<Event>, e: Event, mine: Entry)
    requires e.Beat? && Since(log, e.at) && mine == Entry(e.tab, e.at, e.sync || JoinedBy(log, e.tab, e.at))
    requires Distinct(live) && AllTrue(live, log) && forall x | x in live :: Here(log, x.token, e.at) && x.at <= e.at
    requires |HereSet(log + [e], e.at)| <= 50
    ensures var all := Put(live, mine);
      && Distinct(all) && AllTrue(all, log + [e]) && |all| <= 50 && HasToken(all, e.tab)
      && (forall x | x in all :: x.at <= e.at)
      && forall x | x in live && x.token != e.tab :: x in all
  {
    var all := Put(live, mine);
    PutIs(live, mine);
    assert mine in all;
    BeatIsTrue(live, log, e, mine, all);
    DistinctSize(all, HereSet(log + [e], e.at));
  }

  lemma BeatIsTrue(live: seq<Entry>, log: seq<Event>, e: Event, mine: Entry, all: seq<Entry>)
    requires e.Beat? && Since(log, e.at) && mine == Entry(e.tab, e.at, e.sync || JoinedBy(log, e.tab, e.at))
    requires AllTrue(live, log) && forall x | x in live :: Here(log, x.token, e.at) && x.at <= e.at
    requires forall x | x in all :: x == mine || (x in live && x.token != mine.token)
    ensures AllTrue(all, log + [e])
    ensures forall x | x in all :: x.token in HereSet(log + [e], e.at) && x.at <= e.at
  {
    forall x | x in all
      ensures True(x, log + [e]) && x.token in HereSet(log + [e], e.at) && x.at <= e.at
    {
      assert x != mine ==> True(x, log);
      EntryKeeps(log, e, x, mine);
    }
  }

  /** A tab there after the event was there before it, or the event is its own. */
  lemma HereBefore(log: seq<Event>, e: Event, tab: string, later: int)
    requires Since(log, e.at) && Since(log + [e], later) && Here(log + [e], tab, later)
    ensures (e.Beat? && tab == e.tab) || (tab != e.tab && Here(log, tab, e.at))
  {
    assert (log + [e])[|log|] == e;
    HerePush(log, e, tab, later);
  }

  lemma BeatCovers(live: seq<Entry>, log: seq<Event>, e: Event, all: seq<Entry>, later: int)
    requires e.Beat? && Since(log, e.at) && Since(log + [e], later)
    requires Covers(live, log, e.at) && HasToken(all, e.tab)
    requires forall x | x in live && x.token != e.tab :: x in all
    ensures Covers(all, log + [e], later)
  {
    forall tab | Here(log + [e], tab, later)
      ensures HasToken(all, tab)
    {
      HereBefore(log, e, tab, later);
      if tab != e.tab {
        assert HasToken(live, tab);
        var x :| x in live && x.token == tab;
        assert x in all;
      }
    }
  }

  lemma EntryKeeps(log: seq<Event>, e: Event, x: Entry, mine: Entry)
    requires e.Beat? && Since(log, e.at) && mine == Entry(e.tab, e.at, e.sync || JoinedBy(log, e.tab, e.at))
    requires x == mine || (True(x, log) && Here(log, x.token, e.at) && x.token != e.tab)
    ensures True(x, log + [e]) && x.token in HereSet(log + [e], e.at)
  {
    var r := log + [e];
    assert r[|log|] == e && r[..|log|] == log;
    LastPush(log, e, x.token);
    HerePush(log, e, x.token, e.at);
    HereSetHas(r, x.token, e.at);
    var k := LastOf(log, x.token);
    if k >= 0 {
      JoinedPrefix(log, e, k);
    }
  }

  lemma GoneKeeps(s: Stored, log: seq<Event>, e: Event)
    requires Keeps(s, log) && e.Gone? && Since(log, e.at) && Timed(log)
    ensures Keeps(AfterLeave(s, e.at, e.tab), log + [e])
  {
    var live := Live(s, e.at);
    var rest := Without(live, e.tab);
    LiveKeeps(s, log, e.at);
    WithoutIs(live, e.tab);
    GoneIsTrue(rest, log, e);
    forall later | Since(log + [e], later)
      ensures Covers(rest, log + [e], later)
    {
      GoneCovers(live, log, e, rest, later);
    }
  }

  lemma GoneIsTrue(rest: seq<Entry>, log: seq<Event>, e: Event)
    requires AllTrue(rest, log) && forall x | x in rest :: x.token != e.tab
    ensures AllTrue(rest, log + [e])
  {
    forall x | x in rest
      ensures True(x, log + [e])
    {
      assert True(x, log);
      LastPush(log, e, x.token);
      JoinedPrefix(log, e, LastOf(log, x.token));
    }
  }

  lemma GoneCovers(live: seq<Entry>, log: seq<Event>, e: Event, rest: seq<Entry>, later: int)
    requires e.Gone? && Since(log, e.at) && Since(log + [e], later)
    requires Covers(live, log, e.at) && forall x | x in live && x.token != e.tab :: x in rest
    ensures Covers(rest, log + [e], later)
  {
    forall tab | Here(log + [e], tab, later)
      ensures HasToken(rest, tab)
    {
      HereBefore(log, e, tab, later);
      assert HasToken(live, tab);
      var x :| x in live && x.token == tab;
      assert x in rest;
    }
  }

  /** As long as the room is never crowded, the record is the log. */
  lemma {:induction false} RecordIsTheLog(log: seq<Event>)
    requires Timed(log) && Uncrowded(log)
    ensures Keeps(Play(log), log)
  {
    if log != [] {
      var n := |log| - 1;
      var front, e := log[..n], log[n];
      assert log == front + [e];
      assert Uncrowded(front) by {
        forall k | 0 <= k < n && front[k].Beat?
          ensures |HereSet(front[..k + 1], front[k].at)| <= 50
        {
          assert front[..k + 1] == log[..k + 1] && log[k].Beat?;
        }
      }
      RecordIsTheLog(front);
      if e.Beat? {
        assert log[..n + 1] == log;
        BeatKeeps(Play(front), front, e);
      } else {
        GoneKeeps(Play(front), front, e);
      }
    }
  }

  // ---- Resets ----

  /** What a request finds: whether empty rooms are reset at all, whether there
      is a storage, whether the room was ever written, whether wiping succeeds,
      and the client ids of the live awareness entries, 0 for an unknown one. */
  datatype Site = Site(resets: bool, storage: bool, written: bool, wipes: bool, awareness: seq<nat>)

  predicate Resets(site: Site) {
    site.resets && site.storage && site.written && site.wipes
  }

  /** Someone else has live awareness; to a request without a client id everyone is someone else. */
  predicate Company(site: Site, client: nat) {
    site.written && site.storage && site.awareness != [] && (client == 0 || exists a | a in site.awareness :: a != client)
  }

  predicate JoinResets(s: Stored, now: int, token: string, client: nat, site: Site) {
    && !HasJoined(Live(s, now), token)
    && Without(Live(AfterBeat(s, now, token, true), now), token) == []
    && !Company(site, client) && Resets(site)
  }

  predicate LeaveResets(s: Stored, now: int, token: string, client: nat, site: Site) {
    && Live(AfterLeave(s, now, token), now) == []
    && !Company(site, client) && Resets(site)
  }

  predicate ValidToken(token: string) {
    1 <= |token| <= 64 && forall i | 0 <= i < |token| :: InToken(token[i])
  }

  predicate InToken(c: char) {
    'A' <= c <= 'Z' || 'a' <= c <= 'z' || '0' <= c <= '9' || c == '_' || c == '-'
  }

  lemma PlayPush(log: seq<Event>, e: Event)
    ensures Play(log + [e]) == After(Play(log), e)
  {
    var r := log + [e];
    assert r[..|r| - 1] == log && r[|r| - 1] == e;
  }

  lemma TimedPush(log: seq<Event>, e: Event)
    requires Timed(log) && Since(log, e.at)
    ensures Timed(log + [e])
  {
  }

  /** One room: the record, and everything that ever touched it. */
  class Room {
    const record: TokenRecord
    const perPost: bool
    ghost var log: seq<Event>

    ghost predicate Valid()
      reads this, record
    {
      record.stored == Play(log) && Timed(log)
    }

    constructor (isPerPost: bool)
      ensures Valid() && perPost == isPerPost && log == [] && fresh(record)
    {
      record := new TokenRecord();
      perPost := isPerPost;
      log := [];
    }

    /** A probe or a page render. */
    method Probe(now: int, token: string)
      requires Valid() && Since(log, now)
      modifies this, record
      ensures Valid() && log == old(log) + [Beat(token, now, false)]
    {
      Record(now, token, false);
    }

    method Record(now: int, token: string, joined: bool)
      requires Valid() && Since(log, now)
      modifies this, record
      ensures Valid() && log == old(log) + [Beat(token, now, joined)]
    {
      record.RecordToken(now, token, joined);
      PlayPush(log, Beat(token, now, joined));
      TimedPush(log, Beat(token, now, joined));
      log := log + [Beat(token, now, joined)];
    }

    method HasCompany(site: Site, client: nat) returns (r: bool)
      ensures r == Company(site, client)
    {
      if !site.written || !site.storage {
        return false;
      }
      for i := 0 to |site.awareness|
        invariant i > 0 ==> client != 0
        invariant forall k | 0 <= k < i :: site.awareness[k] == client
      {
        if client == 0 || site.awareness[i] != client {
          assert site.awareness[i] in site.awareness;
          return true;
        }
      }
      return false;
    }

    method OthersPresent(now: int, token: string, client: nat, site: Site) returns (r: bool)
      ensures r <==>
        || (exists e | e in Live(record.stored, now) :: e.token != token)
        || (site.written && site.storage && site.awareness != [] && (client == 0 || exists a | a in site.awareness :: a != client))
    {
      var tokens := record.ReadTokens(now);
      WithoutHas(tokens, token);
      tokens := Without(tokens, token);
      if |tokens| > 0 {
        assert tokens[0] in tokens;
        return true;
      }
      r := HasCompany(site, client);
    }

    method ResetAbandoned(site: Site) returns (r: bool)
      ensures r <==> site.resets && site.storage && site.written && site.wipes
    {
      if !site.resets {
        return false;
      }
      if !site.storage {
        return false;
      }
      if !site.written {
        return false;
      }
      return site.wipes;
    }

    /** A sync request with a token: the tab's join if it is its first. */
    method NoteSyncRequest(now: int, token: string, client: nat, site: Site) returns (reset: bool)
      requires Valid() && Since(log, now)
      modifies this, record
      ensures Valid()
      ensures log == if ValidToken(token) && perPost then old(log) + [Beat(token, now, true)] else old(log)
      ensures reset <==> ValidToken(token) && perPost && JoinResets(Play(old(log)), now, token, client, site)
    {
      if !ValidToken(token) || !perPost {
        return false;
      }
      reset := Join(now, token, client, site);
    }

    method Join(now: int, token: string, client: nat, site: Site) returns (reset: bool)
      requires Valid() && Since(log, now)
      modifies this, record
      ensures Valid() && log == old(log) + [Beat(token, now, true)]
      ensures reset <==> JoinResets(Play(old(log)), now, token, client, site)
    {
      var tokens := record.ReadTokens(now);
      var joined := HasJoined(tokens, token);
      PlayPush(log, Beat(token, now, true));
      Record(now, token, true);
      reset := ResetOnJoin(joined, now, token, client, site);
    }

    /** The rest of a join, once the beat is in the record. */
    method ResetOnJoin(joined: bool, now: int, token: string, client: nat, site: Site) returns (reset: bool)
      ensures reset <==> !joined && Without(Live(record.stored, now), token) == [] && !Company(site, client) && Resets(site)
    {
      if joined {
        return false;
      }
      var others := OthersPresent(now, token, client, site);
      ghost var rest := Without(Live(record.stored, now), token);
      WithoutHas(Live(record.stored, now), token);
      assert rest != [] ==> rest[0] in rest;
      if others {
        return false;
      }
      reset := ResetAbandoned(site);
    }

    /** The site is as it is once the tab's own awareness is forgotten. */
    method Leave(now: int, token: string, client: nat, site: Site) returns (reset: bool)
      requires Valid() && Since(log, now)
      modifies this, record
      ensures Valid() && log == old(log) + [Gone(token, now)]
      ensures reset <==> perPost && LeaveResets(Play(old(log)), now, token, client, site)
    {
      Forget(now, token);
      if !perPost {
        return false;
      }
      reset := ResetOnLeave(now, client, site);
    }

    method Forget(now: int, token: string)
      requires Valid() && Since(log, now)
      modifies this, record
      ensures Valid() && log == old(log) + [Gone(token, now)]
      ensures record.stored == AfterLeave(Play(old(log)), now, token)
    {
      record.ForgetToken(now, token);
      PlayPush(log, Gone(token, now));
      TimedPush(log, Gone(token, now));
      log := log + [Gone(token, now)];
    }

    /** The rest of a leave, once the token is out of the record. */
    method ResetOnLeave(now: int, client: nat, site: Site) returns (reset: bool)
      ensures reset <==> Live(record.stored, now) == [] && !Company(site, client) && Resets(site)
    {
      var tokens := record.ReadTokens(now);
      if |tokens| > 0 {
        return false;
      }
      var others := HasCompany(site, client);
      if others {
        return false;
      }
      reset := ResetAbandoned(site);
    }
  }

  // ---- When a room is reset ----

  ghost predicate Alone(log: seq<Event>, token: string, now: int) {
    forall tab | tab != token :: !Here(log, tab, now)
  }

  lemma EmptyMeansAlone(s: Stored, log: seq<Event>, token: string, now: int)
    requires Keeps(s, log) && Since(log, now) && Timed(log)
    ensures Without(Live(s, now), token) == [] <==> Alone(log, token, now)
  {
    var live := Live(s, now);
    LiveKeeps(s, log, now);
    WithoutIs(live, token);
    if Without(live, token) == [] {
      forall tab | tab != token
        ensures !Here(log, tab, now)
      {
        WithoutKeeps(live, token, tab);
        assert Here(log, tab, now) ==> HasToken(live, tab);
      }
    } else {
      var e := Without(live, token)[0];
      assert e in live && Here(log, e.token, now);
    }
  }

  lemma WithoutKeeps(es: seq<Entry>, token: string, tab: string)
    requires tab != token
    ensures HasToken(Without(es, token), tab) <==> HasToken(es, tab)
  {
    WithoutIs(es, token);
    if HasToken(es, tab) {
      var e :| e in es && e.token == tab;
      assert e in Without(es, token);
    }
  }

  lemma AloneAfter(log: seq<Event>, e: Event, now: int)
    requires e.at == now
    ensures Alone(log + [e], e.tab, now) <==> Alone(log, e.tab, now)
  {
    forall tab | tab != e.tab
      ensures Here(log + [e], tab, now) <==> Here(log, tab, now)
    {
      HerePush(log, e, tab, now);
    }
  }

  lemma UncrowdedPrefix(log: seq<Event>, n: nat)
    requires Uncrowded(log) && n <= |log|
    ensures Uncrowded(log[..n])
  {
    forall k | 0 <= k < n && log[..n][k].Beat?
      ensures |HereSet(log[..n][..k + 1], log[..n][k].at)| <= 50
    {
      assert log[..n][..k + 1] == log[..k + 1] && log[k].Beat?;
    }
  }

  /** Everyone with live awareness is this client, and known to be. */
  lemma NobodyElse(site: Site, client: nat)
    ensures Resets(site) && !Company(site, client) <==>
      && site.resets && site.storage && site.written && site.wipes
      && (client != 0 || site.awareness == []) && forall a | a in site.awareness :: a == client
  {
    if site.awareness != [] {
      assert site.awareness[0] in site.awareness;
    }
  }

  /** A sync request resets the room if and only if the tab has not made one since
      it came, no other tab has beaten within the TTL without leaving, every live
      awareness entry is the client's own (a client without an id has none), and
      resetting is on, there is something to reset and wiping it succeeds. */
  lemma JoinResetsExactly(log: seq<Event>, now: int, token: string, client: nat, site: Site)
    requires Timed(log) && Since(log, now) && Uncrowded(log + [Beat(token, now, true)])
    ensures JoinResets(Play(log), now, token, client, site) <==>
      && !JoinedBy(log, token, now) && Alone(log, token, now)
      && site.resets && site.storage && site.written && site.wipes
      && (client != 0 || site.awareness == []) && forall a | a in site.awareness :: a == client
  {
    NobodyElse(site, client);
    var e := Beat(token, now, true);
    var r := log + [e];
    assert r[|log|] == e && r[..|log|] == log && r[..|log| + 1] == r;
    UncrowdedPrefix(r, |log|);
    RecordIsTheLog(log);
    JoinSees(Play(log), log, now, token);
  }

  /** What the join's two reads of the record say. */
  lemma JoinSees(s: Stored, log: seq<Event>, now: int, token: string)
    requires Keeps(s, log) && Timed(log) && Since(log, now)
    requires |HereSet(log + [Beat(token, now, true)], now)| <= 50
    ensures HasJoined(Live(s, now), token) <==> JoinedBy(log, token, now)
    ensures Without(Live(AfterBeat(s, now, token, true), now), token) == [] <==> Alone(log, token, now)
  {
    var e := Beat(token, now, true);
    KnownJoined(s, log, token, now);
    BeatKeeps(s, log, e);
    TimedPush(log, e);
    EmptyMeansAlone(AfterBeat(s, now, token, true), log + [e], token, now);
    AloneAfter(log, e, now);
  }

  /** Leaving resets the room if and only if nobody else is there, and the site
      lets it. */
  lemma LeaveResetsExactly(log: seq<Event>, now: int, token: string, client: nat, site: Site)
    requires Timed(log) && Since(log, now) && Uncrowded(log)
    ensures LeaveResets(Play(log), now, token, client, site) <==>
      && Alone(log, token, now)
      && site.resets && site.storage && site.written && site.wipes
      && (client != 0 || site.awareness == []) && forall a | a in site.awareness :: a == client
  {
    NobodyElse(site, client);
    RecordIsTheLog(log);
    EmptyMeansAlone(Play(log), log, token, now);
    LeaveLeavesOthers(Play(log), now, token);
  }

  /** Reading the record back just after a leave. */
  lemma LeaveLeavesOthers(s: Stored, now: int, token: string)
    ensures Live(AfterLeave(s, now, token), now) == Without(Live(s, now), token)
  {
    if !(s.Nothing? || s.expires < now) {
      var live := Live(s, now);
      FreshIs(s.entries, now);
      WithoutIs(live, token);
      AllFresh(Without(live, token), now);
    }
  }

  lemma {:induction false} AllFresh(es: seq<Entry>, now: int)
    requires forall e | e in es :: Fresh(e, now)
    ensures FreshOf(es, now) == es
  {
    if es != [] {
      var front, last := es[..|es| - 1], es[|es| - 1];
      assert es == front + [last];
      AllFresh(front, now);
      FreshPush(front, last, now);
    }
  }

  /** The tab of event i neither leaves nor falls silent for the TTL up to event j. */
  ghost predicate StaysUntil(log: seq<Event>, i: nat, j: nat)
    requires i < |log| && j <= |log|
  {
    forall k | i < k < j && log[k].tab == log[i].tab :: log[k].Beat? && Here(log[..k], log[i].tab, log[k].at)
  }

  lemma {:induction false} StaysJoined(log: seq<Event>, i: nat, k: nat)
    requires i <= k < |log| && log[i].Beat? && log[i].sync && log[k].tab == log[i].tab && StaysUntil(log, i, k + 1)
    ensures Joined(log, k)
    decreases k
  {
    if k > i {
      var p := LastOf(log[..k], log[i].tab);
      assert log[..k][i].tab == log[i].tab;
      assert p >= i && log[p].tab == log[i].tab;
      StaysJoined(log, i, p);
      JoinedInFront(log, k, p);
    }
  }

  lemma {:induction false} JoinedInFront(log: seq<Event>, n: nat, k: nat)
    requires k < n <= |log|
    ensures Joined(log[..n], k) == Joined(log, k)
    decreases k
  {
    var p := LastOf(log[..k], log[k].tab);
    assert log[..n][..k] == log[..k];
    if p >= 0 {
      JoinedInFront(log, n, p);
    }
  }

  lemma StaysMeansJoined(log: seq<Event>, i: nat, j: nat)
    requires i < j < |log| && log[i].Beat? && log[i].sync && log[j].tab == log[i].tab && StaysUntil(log, i, j + 1)
    ensures JoinedBy(log[..j], log[j].tab, log[j].at)
  {
    var p := LastOf(log[..j], log[i].tab);
    assert log[..j][i].tab == log[i].tab;
    assert p >= i && log[p].tab == log[i].tab;
    StaysJoined(log, i, p);
    JoinedInFront(log, j, p);
  }

  lemma {:induction false} JoinedSince(log: seq<Event>, k: nat) returns (i: nat)
    requires k < |log| && Joined(log, k)
    ensures i <= k && log[i].tab == log[k].tab && log[i].Beat? && log[i].sync && StaysUntil(log, i, k + 1)
    decreases k
  {
    i := k;
    if !log[k].sync {
      var p := LastOf(log[..k], log[k].tab);
      i := JoinedSince(log, p);
      assert forall j | p < j < k :: log[..k][j].tab != log[k].tab;
    }
  }

  /** A tab is known to have joined exactly if it is there and has made a sync
      request after which it neither left nor fell silent for the TTL. */
  lemma JoinedMeans(log: seq<Event>, tab: string, now: int)
    ensures JoinedBy(log, tab, now) <==>
      && Here(log, tab, now)
      && exists i | 0 <= i < |log| :: log[i].tab == tab && log[i].Beat? && log[i].sync && StaysUntil(log, i, |log|)
  {
    if Here(log, tab, now) {
      var k := LastOf(log, tab);
      if Joined(log, k) {
        var i := JoinedSince(log, k);
        assert StaysUntil(log, i, |log|);
      }
      if i :| 0 <= i < |log| && log[i].tab == tab && log[i].Beat? && log[i].sync && StaysUntil(log, i, |log|) {
        assert StaysUntil(log, i, k + 1);
        StaysJoined(log, i, k);
      }
    }
  }

  /** A token is 1 to 64 letters, digits, underscores and hyphens. */
  lemma TokensAre(token: string)
    ensures ValidToken(token) <==>
      1 <= |token| <= 64 && forall c | c in token :: InAlphabet(c)
  {
    forall i | 0 <= i < |token|
      ensures token[i] in token && (InAlphabet(token[i]) <==> InToken(token[i]))
    {
      Alphabets(token[i]);
    }
  }

  predicate InAlphabet(c: char) {
    c in "ABCDEFGHIJKLMNOPQRSTUVWXYZ" || c in "abcdefghijklmnopqrstuvwxyz" || c in "0123456789" || c in "_-"
  }

  /** The characters from `first` on, one after the other. */
  lemma Alphabet(s: string, first: char, c: char)
    requires 0 < |s| <= 26 && first <= 'z' && forall i | 0 <= i < |s| :: s[i] == first + i as char
    ensures c in s <==> first as int <= c as int < first as int + |s|
  {
    if first as int <= c as int < first as int + |s| {
      assert s[(c - first) as int] == c;
    }
  }

  lemma Alphabets(c: char)
    ensures InAlphabet(c) <==> InToken(c)
  {
    Alphabet("ABCDEFGHIJKLMNOPQRSTUVWXYZ", 'A', c);
    Alphabet("abcdefghijklmnopqrstuvwxyz", 'a', c);
    Alphabet("0123456789", '0', c);
  }

  /** A tab that stays causes at most one join reset: if its sync requests at i
      and at j both reset the room, it was away between them. */
  lemma JoinsOnce(log: seq<Event>, i: nat, j: nat, client: nat, site: Site)
    requires Timed(log) && Uncrowded(log) && i < j < |log|
    requires log[i].Beat? && log[i].sync && log[j] == Beat(log[i].tab, log[j].at, true)
    ensures JoinResets(Play(log[..j]), log[j].at, log[j].tab, client, site) ==> !StaysUntil(log, i, j + 1)
  {
    var front := log[..j];
    UncrowdedPrefix(log, j);
    assert front != [] ==> front[j - 1].at <= log[j].at;
    RecordIsTheLog(front);
    KnownJoined(Play(front), front, log[j].tab, log[j].at);
    if StaysUntil(log, i, j + 1) {
      StaysMeansJoined(log, i, j);
    }
  }

  /** However many tabs there are, the record stays bounded. */
  lemma {:induction false} RecordIsBounded(log: seq<Event>)
    ensures |EntriesOf(Play(log))| <= 50
  {
    if log != [] {
      var s, e := Play(log[..|log| - 1]), log[|log| - 1];
      RecordIsBounded(log[..|log| - 1]);
      FreshIsSmaller(EntriesOf(s), e.at);
      WithoutIs(Live(s, e.at), e.tab);
    }
  }

  lemma {:induction false} FreshIsSmaller(es: seq<Entry>, now: int)
    ensures |FreshOf(es, now)| <= |es|
  {
    if es != [] {
      FreshIsSmaller(es[..|es| - 1], now);
    }
  }
}
