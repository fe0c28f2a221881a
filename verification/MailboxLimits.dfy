/** What the mailbox's limits mean, in numbers: 50 messages, 90 seconds, eight
    attempts; and what a call does that nobody disturbs. */
module MailboxLimits {
  import opened OptionsTable
  import opened AtomicOption
  import opened Sequences
  import opened Mailbox
  import opened MailboxRuns
  import opened MailboxProgress

  // ---- decode_mail ----

  /** `live` is what decode_mail makes of `mail` at `now`: the messages younger
      than 90 seconds, each as often as it was there, in order. */
  ghost predicate Decoded(live: seq<Msg>, mail: seq<Msg>, now: int) {
    && Subseq(live, mail)
    && forall m :: multiset(live)[m] == if now - m.t < 90 then multiset(mail)[m] else 0
  }

  lemma {:induction false} LiveCounts(mail: seq<Msg>, now: int, m: Msg)
    ensures multiset(Live(mail, now))[m] == if now - m.t < 90 then multiset(mail)[m] else 0
  {
    if mail != [] {
      LiveCounts(mail[1..], now, m);
      assert mail == [mail[0]] + mail[1..];
    }
  }

  lemma LiveIsDecoded(mail: seq<Msg>, now: int)
    ensures Decoded(Live(mail, now), mail, now)
  {
    LiveIsSubseq(mail, now);
    forall m
      ensures multiset(Live(mail, now))[m] == if now - m.t < 90 then multiset(mail)[m] else 0
    {
      LiveCounts(mail, now, m);
    }
  }

  lemma {:induction false} AllYoung(mail: seq<Msg>, now: int)
    requires forall m | m in mail :: now - m.t < 90
    ensures Live(mail, now) == mail
  {
    if mail != [] {
      AllYoung(mail[1..], now);
      assert mail == [mail[0]] + mail[1..];
    }
  }

  lemma {:induction false} NoneYoung(mail: seq<Msg>, now: int)
    ensures Live(mail, now) == [] <==> forall m | m in mail :: now - m.t >= 90
  {
    if mail != [] {
      NoneYoung(mail[1..], now);
      assert mail == [mail[0]] + mail[1..];
    }
  }

  // ---- The cap ----

  /** The newest 50 of `all`. */
  ghost predicate Newest(kept: seq<Msg>, all: seq<Msg>) {
    if |all| <= 50 then kept == all else |kept| == 50 && exists front :: all == front + kept
  }

  lemma CappedIsNewest(all: seq<Msg>)
    ensures Newest(Capped(all), all)
  {
    assert all == all[..Over(all)] + Capped(all);
  }

  predicate Fits(c: Call) {
    c.pc.Decode? || c.pc.Swapping? ==> |MailOf(c.pc.cur)| <= 50
  }

  ghost predicate Bounded(w: World) {
    |Box(w.row)| <= 50 && forall p | p in w.calls :: Fits(w.calls[p])
  }

  lemma ApplyKeepsBounded(w: World, p: nat, at: int)
    requires Bounded(w)
    ensures Bounded(Apply(w, p, at))
  {
    if p in w.calls {
      ApplyCall(w, p, at);
      var c := w.calls[p];
      assert Fits(c);
    }
  }

  /** In every run the box never holds more than 50 messages. */
  lemma {:induction false} BoxIsBounded(w: World, h: seq<Stmt<Stored>>)
    requires Initial(w)
    ensures Bounded(Exec(w, h)) && |Box(Exec(w, h).row)| <= 50
  {
    if h != [] {
      BoxIsBounded(w, h[..|h| - 1]);
      ApplyKeepsBounded(Exec(w, h[..|h| - 1]), h[|h| - 1].pid, h[|h| - 1].at);
    }
  }

  /** Of `all` the newest 50 are in the box now, and the rest, `out`, is evicted. */
  ghost predicate Files(w: World, w': World, all: seq<Msg>, out: seq<Msg>) {
    all == out + Box(w'.row) && Newest(Box(w'.row), all) && w'.evicted == w.evicted + out
  }

  /** What the books and the row say about the statement that wins for call c. */
  lemma AppendStep(w: World, p: nat, at: int)
    requires p in w.calls && !w.calls[p].pc.Appended? && Apply(w, p, at).calls[p].pc.Appended?
    ensures var c, w' := w.calls[p], Apply(w, p, at);
      && c.pc.Swapping? && c.job.Append? && Box(w.row) == MailOf(c.pc.cur)
      && (var all := Live(MailOf(c.pc.cur), c.pc.now) + c.job.msgs;
          Box(w'.row) == Capped(all) && w'.evicted == w.evicted + all[..Over(all)])
  {
    ApplyCall(w, p, at);
  }

  /** The statement that completes an append replaces the box by the newest 50 of
      the young messages in it followed by the call's own, and what it evicts is
      the rest of them. */
  lemma AppendWins(w: World, p: nat, at: int) returns (live: seq<Msg>, out: seq<Msg>)
    requires p in w.calls && !w.calls[p].pc.Appended? && Apply(w, p, at).calls[p].pc.Appended?
    ensures w.calls[p].pc.Swapping? && w.calls[p].job.Append?
    ensures Decoded(live, Box(w.row), w.calls[p].pc.now) && Files(w, Apply(w, p, at), live + w.calls[p].job.msgs, out)
  {
    var c := w.calls[p];
    AppendStep(w, p, at);
    live := Live(MailOf(c.pc.cur), c.pc.now);
    var all := live + c.job.msgs;
    out := all[..Over(all)];
    LiveIsDecoded(MailOf(c.pc.cur), c.pc.now);
    CappedIsNewest(all);
    assert all == out + Capped(all);
  }

  /** A statement that evicts mail leaves a full box behind. */
  lemma EvictsOnlyWhenFull(w: World, p: nat, at: int)
    requires Apply(w, p, at).evicted != w.evicted
    ensures |Box(Apply(w, p, at).row)| == 50 && p in w.calls && w.calls[p].job.Append?
  {
    if p in w.calls {
      ApplyCall(w, p, at);
      var c, w' := w.calls[p], Apply(w, p, at);
      if !c.pc.Appended? && w'.calls[p].pc.Appended? {
        var live, out := AppendWins(w, p, at);
        assert out != [] by {
          assert w.evicted + [] == w.evicted;
        }
      }
    }
  }

  lemma TakeStep(w: World, p: nat, at: int)
    requires p in w.calls && !w.calls[p].pc.Delivered? && Apply(w, p, at).calls[p].pc.Delivered?
    ensures var c, w' := w.calls[p], Apply(w, p, at);
      && c.pc.Swapping? && Box(w.row) == MailOf(c.pc.cur) && Box(w'.row) == [] && w'.evicted == w.evicted
      && w'.calls[p].pc.out == Live(MailOf(c.pc.cur), c.pc.now)
  {
    ApplyCall(w, p, at);
  }

  /** The statement that completes a take empties the box and delivers the young
      messages that were in it. */
  lemma TakeWins(w: World, p: nat, at: int)
    requires p in w.calls && !w.calls[p].pc.Delivered? && Apply(w, p, at).calls[p].pc.Delivered?
    ensures var c, w' := w.calls[p], Apply(w, p, at);
      c.pc.Swapping? && Decoded(w'.calls[p].pc.out, Box(w.row), c.pc.now) && Box(w'.row) == [] && w'.evicted == w.evicted
  {
    TakeStep(w, p, at);
    LiveIsDecoded(MailOf(w.calls[p].pc.cur), w.calls[p].pc.now);
  }

  // ---- One call ----

  /** What a call has learned from its own statements: in a swap, the clock
      reading that opened its attempt; delivered, what that reading let through. */
  ghost predicate Learned(c: Call, own: seq<Stmt<Stored>>) {
    match c.pc
    case Swapping(_, _, now, _) => exists i | 0 <= i < |own| :: own[i].at == now && own[i].after == own[i].before
    case Delivered(out) =>
      exists i | 0 <= i < |own| :: own[i].after == own[i].before && forall m | m in out :: own[i].at - m.t < 90
    case _ => true
  }

  lemma {:induction false} LearnsFrom(job: Job, own: seq<Stmt<Stored>>)
    requires Plays(MailStep, Call(job, Fetch(0)), own)
    ensures Learned(Play(MailStep, Call(job, Fetch(0)), own), own)
  {
    if own != [] {
      var n := |own| - 1;
      LearnsFrom(job, own[..n]);
      LearnsOne(Play(MailStep, Call(job, Fetch(0)), own[..n]), own);
    }
  }

  /** One statement more. */
  lemma LearnsOne(c: Call, own: seq<Stmt<Stored>>)
    requires own != [] && Learned(c, own[..|own| - 1])
    requires own[|own| - 1].after == MailStep(c, own[|own| - 1].at, own[|own| - 1].before).1
    ensures Learned(MailStep(c, own[|own| - 1].at, own[|own| - 1].before).0, own)
  {
    var n := |own| - 1;
    var c' := MailStep(c, own[n].at, own[n].before).0;
    assert forall i | 0 <= i < n :: own[i] == own[..n][i];
    if c.pc.Decode? && c'.pc.Swapping? {
      assert own[n].at == c'.pc.now && own[n].after == own[n].before;
    }
    if c.pc.Swapping? && c'.pc.Delivered? {
      LiveIsDecoded(MailOf(c.pc.cur), c.pc.now);
      assert forall m | m in c'.pc.out :: m in multiset(c'.pc.out);
    }
  }

  /** Delivered mail is young: every message a take returns was filed less than
      90 seconds before a reading of the clock by that take. */
  lemma DeliveredIsYoung(own: seq<Stmt<Stored>>) returns (i: nat)
    requires Plays(MailStep, Call(Take, Fetch(0)), own) && Play(MailStep, Call(Take, Fetch(0)), own).pc.Delivered?
    ensures i < |own| && own[i].after == own[i].before
    ensures forall m | m in Play(MailStep, Call(Take, Fetch(0)), own).pc.out :: own[i].at - m.t < 90
  {
    LearnsFrom(Take, own);
    i :| 0 <= i < |own| && own[i].after == own[i].before
      && forall m | m in Play(MailStep, Call(Take, Fetch(0)), own).pc.out :: own[i].at - m.t < 90;
  }

  // ---- One call, nobody in the way ----

  /** What call `c` swaps in, having met `v0` and read the clock at `now`. */
  function Result(job: Job, v0: Option<Stored>, now: int): Stored {
    Next(job, Raw(v0), now)
  }

  /** How far a call has come that has met only `v0` and its own seed. */
  ghost predicate Alone(job: Job, v0: Option<Stored>, own: seq<Stmt<Stored>>, v1: Option<Stored>, c: Call) {
    && c.job == job
    && (!c.pc.Fetch? && !c.pc.Decode? ==> |own| >= 2)
    && match c.pc
       case Fetch(a) => a == 0 && own == [] && v1 == v0
       case Decode(a, cur) => a == 0 && |own| == 1 && cur == Raw(v0) && v1 == v0
       case Swapping(a, cur, now, swap) =>
         && a == 0 && cur == Raw(v0) && now == own[1].at && (job.Take? ==> Live(Box(v0), now) != [])
         && (match swap
             case Update(k) => (k == 0 && v1 == v0) || (k == 1 && v0 == None && v1 == Some(Blank))
             case Reread(k) => k == 0 && v1 == v0 == None
             case Seed(k) => k == 0 && v1 == v0 == None
             case _ => false)
       case NothingThere => job.Take? && Live(Box(v0), own[1].at) == [] && v1 == v0
       case Appended => job.Append? && v1 == Some(Result(job, v0, own[1].at))
       case Delivered(out) => job.Take? && out == Live(Box(v0), own[1].at) != [] && v1 == Some(Json([]))
       case GaveUp => false
  }

  /** The call will not swap in what is there. */
  ghost predicate Changes(job: Job, v0: Option<Stored>, own: seq<Stmt<Stored>>) {
    |own| >= 2 && (job.Append? || Live(Box(v0), own[1].at) != []) ==> Result(job, v0, own[1].at) != Raw(v0)
  }

  lemma {:induction false} RunsAlone(job: Job, v0: Option<Stored>, c0: int, own: seq<Stmt<Stored>>, v1: Option<Stored>, c1: int)
    requires Plays(MailStep, Call(job, Fetch(0)), own) && Linked(v0, c0, own, v1, c1) && Changes(job, v0, own)
    ensures Alone(job, v0, own, v1, Play(MailStep, Call(job, Fetch(0)), own))
  {
    if own != [] {
      var n := |own| - 1;
      assert n >= 2 ==> own[..n][1] == own[1];
      RunsAlone(job, v0, c0, own[..n], own[n].before, own[n].at);
    }
  }

  predicate Ended(pc: MailPc) {
    !pc.Fetch? && !pc.Decode? && !pc.Swapping?
  }

  lemma TimesWithin<V>(v0: Option<V>, c0: int, own: seq<Stmt<V>>, v1: Option<V>, c1: int, i: nat)
    requires Linked(v0, c0, own, v1, c1) && i < |own|
    ensures c0 <= own[i].at <= c1
    decreases |own|
  {
    var n := |own| - 1;
    if i < n {
      TimesWithin(v0, c0, own[..n], own[n].before, own[n].at, i);
    } else if n > 0 {
      TimesWithin(v0, c0, own[..n], own[n].before, own[n].at, 0);
    }
  }

  /** An append of messages of which the last is not yet there succeeds at once if
      nobody is in the way: the young messages in the box, by the call's reading
      of the clock, are followed by its own, and the newest 50 of all are kept. */
  lemma AppendAlone(msgs: seq<Msg>, v0: Option<Stored>, c0: int, own: seq<Stmt<Stored>>, v1: Option<Stored>, c1: int)
    requires Plays(MailStep, Call(Append(msgs), Fetch(0)), own) && Linked(v0, c0, own, v1, c1)
    requires msgs != [] && msgs[|msgs| - 1] !in Box(v0)
    requires Ended(Play(MailStep, Call(Append(msgs), Fetch(0)), own).pc)
    ensures Play(MailStep, Call(Append(msgs), Fetch(0)), own).pc.Appended?
    ensures |own| >= 2 && v1.Some? && v1.value.Json?
    ensures exists live :: Decoded(live, Box(v0), own[1].at) && Newest(v1.value.mail, live + msgs)
  {
    forall now
      ensures Result(Append(msgs), v0, now) != Raw(v0)
    {
      LastIsKept(Live(Box(v0), now), msgs);
    }
    RunsAlone(Append(msgs), v0, c0, own, v1, c1);
    LiveIsDecoded(Box(v0), own[1].at);
    CappedIsNewest(Live(Box(v0), own[1].at) + msgs);
  }

  lemma LastIsKept(live: seq<Msg>, msgs: seq<Msg>)
    requires msgs != []
    ensures msgs[|msgs| - 1] in Capped(live + msgs)
  {
    var all := live + msgs;
    assert Capped(all)[|Capped(all)| - 1] == all[|all| - 1] == msgs[|msgs| - 1];
  }

  /** An append to a box of young mail, with room for both, leaves the old mail
      followed by the new. */
  lemma AppendAddsToTheEnd(msgs: seq<Msg>, v0: Option<Stored>, c0: int, own: seq<Stmt<Stored>>, v1: Option<Stored>, c1: int)
    requires Plays(MailStep, Call(Append(msgs), Fetch(0)), own) && Linked(v0, c0, own, v1, c1)
    requires msgs != [] && |Box(v0)| + |msgs| <= 50 && forall m | m in Box(v0) :: c1 - m.t < 90
    requires Ended(Play(MailStep, Call(Append(msgs), Fetch(0)), own).pc)
    ensures Play(MailStep, Call(Append(msgs), Fetch(0)), own).pc.Appended? && v1 == Some(Json(Box(v0) + msgs))
  {
    if |own| >= 2 {
      TimesWithin(v0, c0, own, v1, c1, 1);
      AllYoung(Box(v0), own[1].at);
      CappedIsNewest(Box(v0) + msgs);
    }
    RunsAlone(Append(msgs), v0, c0, own, v1, c1);
  }

  /** A take that nobody disturbs returns the young messages, by its reading of
      the clock, and leaves an empty box; if there are none, it returns nothing
      and leaves the row as it was. */
  lemma TakeAlone(v0: Option<Stored>, c0: int, own: seq<Stmt<Stored>>, v1: Option<Stored>, c1: int)
    requires Plays(MailStep, Call(Take, Fetch(0)), own) && Linked(v0, c0, own, v1, c1)
    requires Ended(Play(MailStep, Call(Take, Fetch(0)), own).pc)
    ensures |own| >= 2
    ensures var pc := Play(MailStep, Call(Take, Fetch(0)), own).pc;
      if forall m | m in Box(v0) :: own[1].at - m.t >= 90 then pc == NothingThere && v1 == v0
      else pc.Delivered? && Decoded(pc.out, Box(v0), own[1].at) && v1 == Some(Json([]))
  {
    if |own| >= 2 {
      NoneYoung(Box(v0), own[1].at);
      LiveIsDecoded(Box(v0), own[1].at);
      if Raw(v0) == Json([]) {
        assert Live([], own[1].at) == [];
      }
    }
    RunsAlone(Take, v0, c0, own, v1, c1);
  }
}
