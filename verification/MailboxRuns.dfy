/** Whole runs of the mailbox: every interleaving of any number of append_mail
    and take_mailbox calls on one row, and the row's deletion. */
module MailboxRuns {
  import opened OptionsTable
  import opened Sequences
  import opened Mailbox

  /** The row and the calls, and beside them what became of each message. */
  datatype World = World(
    row: Option<Stored>,
    clock: int,
    calls: map<nat, Call>,
    appended: seq<Msg>,                 // by append calls that succeeded, in that order
    takes: seq<seq<Msg>>,               // what take calls returned, in the order they won
    takers: seq<nat>,                   // ... and who they were
    evicted: seq<Msg>,                  // dropped as the oldest past the cap
    gone: seq<Msg>,                     // delivered or evicted, in the order it happened
    expired: seq<Msg>,
    discarded: seq<Msg>)                // in the box when its row was deleted

  function Box(row: Option<Stored>): seq<Msg> {
    MailOf(Raw(row))
  }

  /** The books are kept from what the winning call itself did. */
  ghost function Settle(w: World, p: nat, c: Call): World
    requires c.pc.Swapping?
  {
    var mail := MailOf(c.pc.cur);
    var live, stale := Live(mail, c.pc.now), Stale(mail, c.pc.now);
    match c.job
    case Append(msgs) =>
      var out := (live + msgs)[..Over(live + msgs)];
      w.(appended := w.appended + msgs, expired := w.expired + stale, evicted := w.evicted + out, gone := w.gone + out)
    case Take =>
      w.(takes := w.takes + [live], takers := w.takers + [p], expired := w.expired + stale, gone := w.gone + live)
  }

  /** One instant: a call's next statement, or an outsider deleting the row. */
  ghost function Apply(w: World, p: nat, at: int): World {
    if p in w.calls then
      var c := w.calls[p];
      var (c', left) := MailStep(c, at, w.row);
      var w' := w.(row := left, clock := at, calls := w.calls[p := c']);
      if c.pc.Swapping? && (c'.pc.Appended? || c'.pc.Delivered?) then Settle(w', p, c) else w'
    else
      w.(row := None, clock := at, discarded := w.discarded + Box(w.row))
  }

  /** A call that has read mail it may yet write back. */
  predicate HoldsMail(c: Call, now: int) {
    match c.pc
    case Decode(_, cur) => MailOf(cur) != [] && (c.job.Append? || Live(MailOf(cur), now) != [])
    case Swapping(_, cur, _, _) => MailOf(cur) != []
    case _ => false
  }

  ghost predicate NobodyHolds(w: World, now: int) {
    forall p | p in w.calls :: !HoldsMail(w.calls[p], now)
  }

  ghost function Exec(w: World, h: seq<Stmt<Stored>>): World {
    if h == [] then w else Apply(Exec(w, h[..|h| - 1]), h[|h| - 1].pid, h[|h| - 1].at)
  }

  /** `h` is a run from `w`: time never goes back, every statement is its
      call's next, and the row is deleted only while nobody holds mail. */
  ghost predicate Run(w: World, h: seq<Stmt<Stored>>) {
    h == [] ||
    var v, last := Exec(w, h[..|h| - 1]), h[|h| - 1];
    && Run(w, h[..|h| - 1])
    && v.clock <= last.at && last.before == v.row && last.after == Apply(v, last.pid, last.at).row
    && (last.pid in v.calls || NobodyHolds(v, last.at))
  }

  /** Nothing has happened yet; every message to be sent is a different one. */
  ghost predicate Initial(w: World) {
    && w.row == None
    && (forall p | p in w.calls :: w.calls[p].pc == Fetch(0))
    && w == World(None, w.clock, w.calls, [], [], [], [], [], [], [])
    && Distinct(w)
  }

  ghost predicate Distinct(w: World) {
    && (forall p | p in w.calls && w.calls[p].job.Append? ::
          w.calls[p].job.msgs != [] && NoDup(w.calls[p].job.msgs))
    && (forall p, q, m | p in w.calls && q in w.calls && p != q && w.calls[p].job.Append? && w.calls[q].job.Append?
          && m in w.calls[p].job.msgs :: m !in w.calls[q].job.msgs)
  }

  // ---- What every instant keeps ----

  /** Every appended message has exactly one fate. */
  ghost predicate Conserved(w: World) {
    multiset(w.appended) ==
      multiset(Flat(w.takes)) + multiset(Box(w.row)) + multiset(w.expired) + multiset(w.evicted) + multiset(w.discarded)
  }

  /** First in, first out: what left the box left it in append order, before
      everything still in it. */
  ghost predicate InOrder(w: World) {
    && Subseq(w.gone + Box(w.row), w.appended)
    && Subseq(Flat(w.takes), w.gone) && Subseq(w.evicted, w.gone)
  }

  /** A sender's messages are in the mailbox's history all together or not at
      all, and they are there exactly when its append succeeded. */
  ghost predicate Senders(w: World) {
    forall p, m | p in w.calls && w.calls[p].job.Append? && m in w.calls[p].job.msgs ::
      m in w.appended <==> w.calls[p].pc.Appended?
  }

  /** What a call under way has read is true enough to act on. */
  ghost predicate Flight(w: World, c: Call) {
    match c.pc
    case Decode(_, cur) =>
      && (forall m | m in MailOf(cur) :: m in w.appended)
      && (HoldsMail(c, w.clock) ==> w.row.Some?)
    case Swapping(_, cur, now, swap) =>
      && (swap.Update? || swap.Reread? || swap.Seed?)
      && (forall m | m in MailOf(cur) :: m in w.appended)
      && (HoldsMail(c, w.clock) ==> w.row.Some?)
      && now <= w.clock && (c.job.Take? ==> Live(MailOf(cur), now) != [])
    case _ => true
  }

  ghost predicate Flights(w: World) {
    forall p | p in w.calls :: Flight(w, w.calls[p])
  }

  /** A take call returned what it took, and only what it took. */
  ghost predicate TakersOf(calls: map<nat, Call>, takes: seq<seq<Msg>>, takers: seq<nat>) {
    && |takes| == |takers|
    && (forall i | 0 <= i < |takers| :: takers[i] in calls && calls[takers[i]].pc == Delivered(takes[i]))
    && (forall i, j | 0 <= i < j < |takers| :: takers[i] != takers[j])
    && (forall p | p in calls && calls[p].pc.Delivered? :: p in takers)
  }

  ghost predicate Takers(w: World) {
    TakersOf(w.calls, w.takes, w.takers)
  }

  ghost predicate TrulyExpired(w: World) {
    forall m | m in w.expired :: w.clock - m.t >= 90
  }

  ghost predicate Inv(w: World) {
    Distinct(w) && Ledger(w) && Senders(w) && Flights(w) && Takers(w)
  }

  // ---- decode_mail ----

  lemma {:induction false} LiveIsSubseq(mail: seq<Msg>, now: int)
    ensures Subseq(Live(mail, now), mail)
  {
    if mail == [] {
      SubseqEmpty<Msg>([]);
    } else {
      LiveIsSubseq(mail[1..], now);
      var head := [mail[0]];
      assert mail == head + mail[1..];
      if Fresh(mail[0], now) {
        SubseqRefl(head);
        SubseqConcat(head, head, Live(mail[1..], now), mail[1..]);
      } else {
        SubseqEmpty(head);
        SubseqConcat([], head, Live(mail[1..], now), mail[1..]);
      }
    }
  }

  lemma {:induction false} LiveAndStale(mail: seq<Msg>, now: int)
    ensures multiset(mail) == multiset(Live(mail, now)) + multiset(Stale(mail, now))
    ensures forall m | m in Stale(mail, now) :: now - m.t >= MAILBOX_EXPIRY
  {
    if mail != [] {
      assert mail == [mail[0]] + mail[1..];
      LiveAndStale(mail[1..], now);
    }
  }

  lemma {:induction false} LiveShrinks(mail: seq<Msg>, now: int, later: int)
    requires now <= later && Live(mail, now) == []
    ensures Live(mail, later) == []
  {
    if mail != [] {
      LiveShrinks(mail[1..], now, later);
    }
  }

  // ---- One instant ----

  lemma Regroup(gone: seq<Msg>, live: seq<Msg>, msgs: seq<Msg>, out: seq<Msg>, kept: seq<Msg>)
    requires live + msgs == out + kept
    ensures gone + live + msgs == gone + out + kept
  {
    assert gone + live + msgs == gone + (live + msgs);
    assert gone + out + kept == gone + (out + kept);
  }

  lemma BoxOrder(appended: seq<Msg>, gone: seq<Msg>, mail: seq<Msg>, live: seq<Msg>, msgs: seq<Msg>)
    requires Subseq(gone + mail, appended) && Subseq(live, mail)
    ensures Subseq(gone + live + msgs, appended + msgs)
  {
    SubseqRefl(gone);
    SubseqConcat(gone, gone, live, mail);
    SubseqTrans(gone + live, gone + mail, appended);
    SubseqRefl(msgs);
    SubseqConcat(gone + live, appended, msgs, msgs);
  }

  lemma LogOrder(log: seq<Msg>, gone: seq<Msg>, out: seq<Msg>)
    requires Subseq(log, gone)
    ensures Subseq(log + out, gone + out) && Subseq(log, gone + out)
  {
    SubseqRefl(out);
    SubseqConcat(log, gone, out, out);
    SubseqEmpty(out);
    SubseqConcat(log, gone, [], out);
    assert log + [] == log;
  }

  ghost predicate Ledger(w: World) {
    NoDup(w.appended) && Conserved(w) && InOrder(w) && TrulyExpired(w)
  }

  /** Out of a box holding `live` and `stale` and `msgs` just added, `out` leaves
      and `kept` stays. */
  ghost predicate Moves(w: World, w': World, msgs: seq<Msg>, live: seq<Msg>, stale: seq<Msg>, out: seq<Msg>, kept: seq<Msg>) {
    && live + msgs == out + kept && Box(w'.row) == kept && w.clock <= w'.clock
    && Subseq(live, Box(w.row)) && multiset(Box(w.row)) == multiset(live) + multiset(stale)
    && (forall m | m in stale :: w.clock - m.t >= MAILBOX_EXPIRY)
    && w'.appended == w.appended + msgs && w'.expired == w.expired + stale && w'.gone == w.gone + out
    && w'.discarded == w.discarded
    && ((w'.evicted == w.evicted + out && w'.takes == w.takes) || (w'.evicted == w.evicted && w'.takes == w.takes + [out]))
  }

  lemma MovesConserve(w: World, w': World, msgs: seq<Msg>, live: seq<Msg>, stale: seq<Msg>, out: seq<Msg>, kept: seq<Msg>)
    requires Conserved(w) && Moves(w, w', msgs, live, stale, out, kept)
    ensures Conserved(w')
  {
    FlatPush(w.takes, out);
    forall m: Msg
      ensures multiset(w'.appended)[m] ==
        (multiset(Flat(w'.takes)) + multiset(Box(w'.row)) + multiset(w'.expired) + multiset(w'.evicted) + multiset(w'.discarded))[m]
    {
      assert multiset(live + msgs)[m] == multiset(out + kept)[m];
      assert multiset(w.appended)[m] ==
        (multiset(Flat(w.takes)) + multiset(Box(w.row)) + multiset(w.expired) + multiset(w.evicted) + multiset(w.discarded))[m];
    }
  }

  lemma MovesInOrder(w: World, w': World, msgs: seq<Msg>, live: seq<Msg>, stale: seq<Msg>, out: seq<Msg>, kept: seq<Msg>)
    requires InOrder(w) && Moves(w, w', msgs, live, stale, out, kept)
    ensures InOrder(w')
  {
    Regroup(w.gone, live, msgs, out, kept);
    BoxOrder(w.appended, w.gone, Box(w.row), live, msgs);
    FlatPush(w.takes, out);
    LogOrder(w.evicted, w.gone, out);
    LogOrder(Flat(w.takes), w.gone, out);
  }

  /** A winning append. */
  lemma AppendKeepsLedger(w: World, p: nat, at: int)
    requires Inv(w) && w.clock <= at && p in w.calls
    requires w.calls[p].pc.Swapping? && w.calls[p].job.Append? && MailStep(w.calls[p], at, w.row).0.pc.Appended?
    ensures Ledger(Apply(w, p, at))
  {
    var w', c := Apply(w, p, at), w.calls[p];
    var mail, msgs := MailOf(c.pc.cur), c.job.msgs;
    var live, stale := Live(mail, c.pc.now), Stale(mail, c.pc.now);
    var out, kept := (live + msgs)[..Over(live + msgs)], (live + msgs)[Over(live + msgs)..];
    assert live + msgs == out + kept;
    assert Box(w.row) == mail && Box(w'.row) == kept;
    LiveAndStale(mail, c.pc.now);
    LiveIsSubseq(mail, c.pc.now);
    assert Moves(w, w', msgs, live, stale, out, kept);
    NoDupConcat(w.appended, msgs);
    MovesConserve(w, w', msgs, live, stale, out, kept);
    MovesInOrder(w, w', msgs, live, stale, out, kept);
  }

  /** A winning take. */
  lemma TakeKeepsLedger(w: World, p: nat, at: int)
    requires Ledger(w) && p in w.calls && Flight(w, w.calls[p]) && w.clock <= at && p in w.calls
    requires w.calls[p].pc.Swapping? && w.calls[p].job.Take? && MailStep(w.calls[p], at, w.row).0.pc.Delivered?
    ensures Ledger(Apply(w, p, at))
  {
    var w', c := Apply(w, p, at), w.calls[p];
    var mail := MailOf(c.pc.cur);
    var live, stale := Live(mail, c.pc.now), Stale(mail, c.pc.now);
    assert Box(w.row) == mail && Box(w'.row) == [];
    LiveAndStale(mail, c.pc.now);
    LiveIsSubseq(mail, c.pc.now);
    assert w'.appended == w.appended + [] && live + [] == live;
    assert Moves(w, w', [], live, stale, live, []);
    MovesConserve(w, w', [], live, stale, live, []);
    MovesInOrder(w, w', [], live, stale, live, []);
  }

  /** Any other statement of a call leaves the books, and the box, alone. */
  lemma OtherKeepsLedger(w: World, p: nat, at: int)
    requires Inv(w) && w.clock <= at && p in w.calls
    requires var pc := MailStep(w.calls[p], at, w.row).0.pc; w.calls[p].pc.Swapping? ==> !pc.Appended? && !pc.Delivered?
    ensures var w' := Apply(w, p, at);
      && w' == w.(row := w'.row, clock := at, calls := w'.calls) && Box(w'.row) == Box(w.row)
  {
  }

  /** What a statement does to the call that runs it. */
  lemma CallStep(w: World, p: nat, at: int)
    requires w.clock <= at && p in w.calls && (w.calls[p].job.Append? ==> w.calls[p].job.msgs != [])
    ensures var w' := Apply(w, p, at);
      && w'.clock == at && w'.calls == w.calls[p := w'.calls[p]] && w'.calls[p].job == w.calls[p].job
      && (w.row.Some? ==> w'.row.Some?)
      && (w.calls[p].pc.Appended? <==> w'.calls[p].pc.Appended? && w'.appended == w.appended)
      && (w'.calls[p].pc.Appended? && !w.calls[p].pc.Appended? ==> w.calls[p].job.Append? && w'.appended == w.appended + w.calls[p].job.msgs)
      && (!w'.calls[p].pc.Appended? ==> w'.appended == w.appended)
  {
  }

  lemma ApplyKeepsSenders(w: World, p: nat, at: int)
    requires Distinct(w) && Senders(w) && w.clock <= at && p in w.calls
    ensures Distinct(Apply(w, p, at)) && Senders(Apply(w, p, at))
  {
    CallStep(w, p, at);
  }

  lemma TakerJoins(calls: map<nat, Call>, takes: seq<seq<Msg>>, takers: seq<nat>, p: nat, c: Call)
    requires TakersOf(calls, takes, takers) && p in calls && !calls[p].pc.Delivered?
    ensures c.pc.Delivered? ==> TakersOf(calls[p := c], takes + [c.pc.out], takers + [p])
    ensures !c.pc.Delivered? ==> TakersOf(calls[p := c], takes, takers)
  {
    assert p !in takers;
  }

  lemma ApplyKeepsTakers(w: World, p: nat, at: int)
    requires Takers(w) && p in w.calls
    ensures Takers(Apply(w, p, at))
  {
    var c, c' := w.calls[p], MailStep(w.calls[p], at, w.row).0;
    if c.pc.Delivered? {
      assert c' == c && w.calls[p := c'] == w.calls;
    } else {
      TakerJoins(w.calls, w.takes, w.takers, p, c');
    }
  }

  lemma OtherFlight(w: World, v: World, c: Call)
    requires Flight(w, c) && w.clock <= v.clock && (w.row.Some? ==> v.row.Some?) && w.appended <= v.appended
    ensures Flight(v, c)
  {
    assert forall m | m in w.appended :: m in v.appended;
    if HoldsMail(c, v.clock) {
      HoldsLess(c, w.clock, v.clock);
    }
  }

  lemma OwnFlight(w: World, p: nat, at: int)
    requires w.clock <= at && p in w.calls && Flight(w, w.calls[p])
    requires forall m | m in Box(w.row) :: m in w.appended
    ensures Flight(Apply(w, p, at), Apply(w, p, at).calls[p])
  {
    var c := w.calls[p];
    if c.pc.Decode? && Live(MailOf(c.pc.cur), w.clock) == [] {
      LiveShrinks(MailOf(c.pc.cur), w.clock, at);
    }
  }

  lemma ApplyKeepsFlights(w: World, p: nat, at: int)
    requires Inv(w) && w.clock <= at && p in w.calls
    ensures Flights(Apply(w, p, at))
  {
    var v := Apply(w, p, at);
    CallStep(w, p, at);
    assert Flight(w, w.calls[p]);
    SubseqMembers(w.gone + Box(w.row), w.appended);
    OwnFlight(w, p, at);
    forall q | q in v.calls && q != p
      ensures Flight(v, v.calls[q])
    {
      assert Flight(w, w.calls[q]);
      OtherFlight(w, v, w.calls[q]);
    }
  }

  lemma HoldsLess(c: Call, now: int, later: int)
    requires now <= later && HoldsMail(c, later)
    ensures HoldsMail(c, now)
  {
    if c.pc.Decode? && c.job.Take? && Live(MailOf(c.pc.cur), now) == [] {
      LiveShrinks(MailOf(c.pc.cur), now, later);
    }
  }

  lemma ApplyKeepsInv(w: World, p: nat, at: int)
    requires Inv(w) && w.clock <= at && (p in w.calls || NobodyHolds(w, at))
    ensures Inv(Apply(w, p, at))
  {
    if p in w.calls {
      var pc := MailStep(w.calls[p], at, w.row).0.pc;
      if w.calls[p].pc.Swapping? && pc.Appended? {
        AppendKeepsLedger(w, p, at);
      } else if w.calls[p].pc.Swapping? && pc.Delivered? {
        TakeKeepsLedger(w, p, at);
      } else {
        OtherKeepsLedger(w, p, at);
      }
      ApplyKeepsSenders(w, p, at);
      ApplyKeepsTakers(w, p, at);
      ApplyKeepsFlights(w, p, at);
    } else {
      DeleteKeepsInv(w, p, at);
    }
  }

  lemma DeleteKeepsLedger(w: World, p: nat, at: int)
    requires Ledger(w) && w.clock <= at && p !in w.calls
    ensures Ledger(Apply(w, p, at))
  {
    SubseqRefl(w.gone);
    SubseqEmpty(Box(w.row));
    SubseqConcat(w.gone, w.gone, [], Box(w.row));
    SubseqTrans(w.gone + [], w.gone + Box(w.row), w.appended);
  }

  lemma DeleteKeepsInv(w: World, p: nat, at: int)
    requires Inv(w) && w.clock <= at && p !in w.calls && NobodyHolds(w, at)
    ensures Inv(Apply(w, p, at))
  {
    DeleteKeepsLedger(w, p, at);
  }

  // ---- Whole runs ----

  lemma {:induction false} RunKeepsInv(w: World, h: seq<Stmt<Stored>>)
    requires Inv(w) && Run(w, h)
    ensures Inv(Exec(w, h))
  {
    if h != [] {
      RunKeepsInv(w, h[..|h| - 1]);
      ApplyKeepsInv(Exec(w, h[..|h| - 1]), h[|h| - 1].pid, h[|h| - 1].at);
    }
  }

  lemma InitialInv(w: World)
    requires Initial(w)
    ensures Inv(w)
  {
    SubseqEmpty<Msg>([]);
    assert Flat(w.takes) == [] && w.gone + Box(w.row) == [];
    assert Ledger(w);
  }

  /** The code makes runs: if every call's own statements in the row's history
      are those the code plays, the history is a run, and each call stands in it
      where its own statements have brought it. */
  lemma {:induction false} HistoryIsRun(w: World, h: seq<Stmt<Stored>>, row: Option<Stored>, now: int)
    requires Linked(w.row, w.clock, h, row, now) && Contributes(MailStep, w.calls, h)
    ensures Run(w, h) && Exec(w, h).row == row && Exec(w, h).clock <= now
    ensures Exec(w, h).calls == Standing(MailStep, w.calls, h)
  {
    if h == [] {
      assert Standing(MailStep, w.calls, h) == w.calls;
    } else {
      var rest, last := h[..|h| - 1], h[|h| - 1];
      StandingLast(MailStep, w.calls, h);
      HistoryIsRun(w, rest, last.before, last.at);
      ApplyCall(Exec(w, rest), last.pid, last.at);
    }
  }

  lemma ApplyCall(w: World, p: nat, at: int)
    requires p in w.calls
    ensures var w' := Apply(w, p, at);
      && w'.calls == w.calls[p := MailStep(w.calls[p], at, w.row).0]
      && w'.row == MailStep(w.calls[p], at, w.row).1 && w'.clock == at
  {
  }

  /** At every moment of every run: each message whose append succeeded is
      delivered, in the box, expired, evicted or discarded with its row, one of
      these and once; messages leave the box in the order they were appended;
      what counts as expired is; and a sender's messages are in play exactly
      when its append succeeded. */
  lemma MailIsConserved(w: World, h: seq<Stmt<Stored>>)
    requires Initial(w) && Run(w, h)
    ensures var v := Exec(w, h); Conserved(v) && InOrder(v) && TrulyExpired(v) && NoDup(v.appended) && Senders(v)
  {
    InitialInv(w);
    RunKeepsInv(w, h);
  }

  /** At most once: no message is returned by two take calls, or twice by one,
      and every returned message is one whose append succeeded. */
  lemma DeliveredAtMostOnce(w: World, h: seq<Stmt<Stored>>, p: nat, q: nat, m: Msg)
    requires Initial(w) && Run(w, h)
    requires var v := Exec(w, h);
      p in v.calls && q in v.calls && v.calls[p].pc.Delivered? && v.calls[q].pc.Delivered?
      && m in v.calls[p].pc.out && m in v.calls[q].pc.out
    ensures p == q && NoDup(Exec(w, h).calls[p].pc.out) && m in Exec(w, h).appended
  {
    InitialInv(w);
    RunKeepsInv(w, h);
    var v := Exec(w, h);
    TakesAreApart(v);
    var i := TakerOf(v.calls, v.takes, v.takers, p);
    var j := TakerOf(v.calls, v.takes, v.takers, q);
    FlatNoDup(v.takes, i, j, m);
    FlatHas(v.takes, i, m);
  }

  lemma TakerOf(calls: map<nat, Call>, takes: seq<seq<Msg>>, takers: seq<nat>, p: nat) returns (i: nat)
    requires TakersOf(calls, takes, takers) && p in calls && calls[p].pc.Delivered?
    ensures i < |takers| == |takes| && takers[i] == p && takes[i] == calls[p].pc.out
  {
    i :| 0 <= i < |takers| && takers[i] == p;
  }

  lemma TakesAreApart(v: World)
    requires InOrder(v) && NoDup(v.appended)
    ensures NoDup(Flat(v.takes)) && forall m | m in Flat(v.takes) :: m in v.appended
  {
    SubseqEmpty(Box(v.row));
    SubseqRefl(v.gone);
    SubseqConcat(v.gone, v.gone, [], Box(v.row));
    assert v.gone + [] == v.gone;
    SubseqTrans(v.gone, v.gone + Box(v.row), v.appended);
    SubseqTrans(Flat(v.takes), v.gone, v.appended);
    NoDupSubseq(Flat(v.takes), v.appended);
    SubseqMembers(Flat(v.takes), v.appended);
  }
}
