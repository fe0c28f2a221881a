/** The advisory mailbox (append_mail, take_mailbox): a queue in one options row
    kept by compare-and-swap, with any number of senders and takers at once. */
module Mailbox {
  import opened OptionsTable
  import opened AtomicOption

  const MAILBOX_EXPIRY := 90
  const MAX_MAILBOX_ENTRIES := 50
  const CAS_ATTEMPTS := 8

  /** A handshake message, by identity, and the time it was filed. */
  datatype Msg = Msg(uid: nat, t: int)

  /** What the row can hold: the empty string swap() seeds, or encoded mail. */
  datatype Stored = Blank | Json(mail: seq<Msg>)

  /** `(string) $current`: an absent row reads as the empty string. */
  function Raw(row: Option<Stored>): Stored {
    if row.Some? then row.value else Blank
  }

  function MailOf(s: Stored): seq<Msg> {
    if s.Json? then s.mail else []
  }

  function Fresh(m: Msg, now: int): bool {
    now - m.t < MAILBOX_EXPIRY
  }

  /** decode_mail: the entries still young enough, in order. */
  function Live(mail: seq<Msg>, now: int): seq<Msg> {
    if mail == [] then [] else (if Fresh(mail[0], now) then [mail[0]] else []) + Live(mail[1..], now)
  }

  function Stale(mail: seq<Msg>, now: int): seq<Msg> {
    if mail == [] then [] else (if Fresh(mail[0], now) then [] else [mail[0]]) + Stale(mail[1..], now)
  }

  /** How many of the oldest entries are past the cap. */
  function Over(mail: seq<Msg>): (n: nat)
    ensures n <= |mail|
  {
    if |mail| > MAX_MAILBOX_ENTRIES then |mail| - MAX_MAILBOX_ENTRIES else 0
  }

  function Capped(mail: seq<Msg>): seq<Msg> {
    mail[Over(mail)..]
  }

  datatype Job = Append(msgs: seq<Msg>) | Take

  /** The value a call swaps in, having read `cur` and the clock at `now`. */
  function Next(job: Job, cur: Stored, now: int): Stored {
    match job
    case Append(msgs) =>
      Json(Capped(Live(MailOf(cur), now) + msgs))
    case Take => Json([])
  }

  /** Where a call stands in its `a`-th attempt. */
  datatype MailPc =
    | Fetch(a: nat)
    | Decode(a: nat, cur: Stored)
    | Swapping(a: nat, cur: Stored, now: int, swap: SwapPc)
    | Appended
    | Delivered(out: seq<Msg>)
    | NothingThere
    | GaveUp

  datatype Call = Call(job: Job, pc: MailPc)

  function Retry(a: nat): MailPc {
    if a + 1 < CAS_ATTEMPTS then Fetch(a + 1) else GaveUp
  }

  ghost function AfterSwap(job: Job, pc: MailPc, swap: SwapPc): MailPc
    requires pc.Swapping?
  {
    match swap
    case Won => if job.Append? then Appended else Delivered(Live(MailOf(pc.cur), pc.now))
    case Lost => Retry(pc.a)
    case _ => pc.(swap := swap)
  }

  /** One statement of a call, or one look at the clock. */
  ghost function MailStep(c: Call, at: int, row: Option<Stored>): (Call, Option<Stored>) {
    match c.pc
    case Fetch(a) => (c.(pc := Decode(a, Raw(row))), row)
    case Decode(a, cur) =>
      (c.(pc := if c.job.Take? && Live(MailOf(cur), at) == [] then NothingThere else Swapping(a, cur, at, Update(0))), row)
    case Swapping(a, cur, now, swap) =>
      var (swap', left) := SwapMove(swap, cur, Next(c.job, cur, now), row);
      (c.(pc := AfterSwap(c.job, c.pc, swap')), left)
    case _ => (c, row)
  }

  // ---- The code, statement by statement ----

  lemma {:induction false} SwapInsideCall(c: Call, own: seq<Stmt<Stored>>)
    requires c.pc.Swapping? && c.pc.swap == Update(0)
    requires Plays(SwapStep, SwapStart(c.pc.cur, Next(c.job, c.pc.cur, c.pc.now)), own)
    requires !Play(SwapStep, SwapStart(c.pc.cur, Next(c.job, c.pc.cur, c.pc.now)), own).pc.Returned?
    ensures Plays(MailStep, c, own)
    ensures Play(MailStep, c, own) ==
      c.(pc := AfterSwap(c.job, c.pc, Play(SwapStep, SwapStart(c.pc.cur, Next(c.job, c.pc.cur, c.pc.now)), own).pc))
  {
    if own != [] {
      var rest := own[..|own| - 1];
      SwapEffect(c.pc.cur, Next(c.job, c.pc.cur, c.pc.now), rest);
      SwapInsideCall(c, rest);
    }
  }

  /** append_mail: read, add, swap; up to CAS_ATTEMPTS times. */
  method AppendMail(row: OptionsRow<Stored>, ghost me: nat, messages: seq<Msg>)
    returns (ghost done: Call, ghost mine: seq<Stmt<Stored>>)
    requires row.Valid()
    modifies row
    ensures row.Valid() && Own(row.history, me) == old(Own(row.history, me)) + mine
    ensures Plays(MailStep, Call(Append(messages), Fetch(0)), mine)
    ensures done == Play(MailStep, Call(Append(messages), Fetch(0)), mine)
    ensures done.pc.Appended? || done.pc.GaveUp?
  {
    ghost var call, base := Call(Append(messages), Fetch(0)), Own(row.history, me);
    mine := [];
    var attempt := 0;
    while attempt < CAS_ATTEMPTS
      invariant 0 <= attempt <= CAS_ATTEMPTS
      invariant row.Valid() && Own(row.history, me) == base + mine && Plays(MailStep, call, mine)
      invariant Play(MailStep, call, mine) == call.(pc := if attempt < CAS_ATTEMPTS then Fetch(attempt) else GaveUp)
    {
      var swapped;
      swapped, mine := TryAppend(row, me, messages, base, mine, attempt);
      if swapped {
        return call.(pc := Appended), mine;
      }
      attempt := attempt + 1;
    }
    return call.(pc := GaveUp), mine;
  }

  /** One attempt of append_mail. */
  method TryAppend(row: OptionsRow<Stored>, ghost me: nat, messages: seq<Msg>, ghost base: seq<Stmt<Stored>>,
                   ghost before: seq<Stmt<Stored>>, ghost a: nat)
    returns (swapped: bool, ghost mine: seq<Stmt<Stored>>)
    requires row.Valid() && Own(row.history, me) == base + before
    requires Plays(MailStep, Call(Append(messages), Fetch(0)), before)
    requires Play(MailStep, Call(Append(messages), Fetch(0)), before) == Call(Append(messages), Fetch(a))
    modifies row
    ensures row.Valid() && Own(row.history, me) == base + mine
    ensures Plays(MailStep, Call(Append(messages), Fetch(0)), mine)
    ensures Play(MailStep, Call(Append(messages), Fetch(0)), mine) == Call(Append(messages), if swapped then Appended else Retry(a))
  {
    ghost var call := Call(Append(messages), Fetch(0));
    var current, now;
    current, now, mine := ReadMail(row, me, call, base, before, a);
    var mail := Live(MailOf(Raw(current)), now) + messages;
    if |mail| > MAX_MAILBOX_ENTRIES {
      mail := mail[|mail| - MAX_MAILBOX_ENTRIES..];
    }
    swapped, mine := SwapMail(row, me, call, base, mine, a, Raw(current), now, Json(mail));
  }

  /** take_mailbox: read, and swap in an empty box; `out` is what it returns. */
  method TakeMailbox(row: OptionsRow<Stored>, ghost me: nat)
    returns (out: seq<Msg>, ghost done: Call, ghost mine: seq<Stmt<Stored>>)
    requires row.Valid()
    modifies row
    ensures row.Valid() && Own(row.history, me) == old(Own(row.history, me)) + mine
    ensures Plays(MailStep, Call(Take, Fetch(0)), mine)
    ensures done == Play(MailStep, Call(Take, Fetch(0)), mine)
    ensures if done.pc.Delivered? then out == done.pc.out else out == [] && (done.pc.NothingThere? || done.pc.GaveUp?)
  {
    ghost var call, base := Call(Take, Fetch(0)), Own(row.history, me);
    mine := [];
    var attempt := 0;
    while attempt < CAS_ATTEMPTS
      invariant 0 <= attempt <= CAS_ATTEMPTS
      invariant row.Valid() && Own(row.history, me) == base + mine && Plays(MailStep, call, mine)
      invariant Play(MailStep, call, mine) == call.(pc := if attempt < CAS_ATTEMPTS then Fetch(attempt) else GaveUp)
    {
      var current, now;
      current, now, mine := ReadMail(row, me, call, base, mine, attempt);
      var mail := Live(MailOf(Raw(current)), now);
      if |mail| == 0 {
        return [], call.(pc := NothingThere), mine;
      }
      var swapped;
      swapped, mine := SwapMail(row, me, call, base, mine, attempt, Raw(current), now, Json([]));
      if swapped {
        return mail, call.(pc := Delivered(mail)), mine;
      }
      attempt := attempt + 1;
    }
    return [], call.(pc := GaveUp), mine;
  }

  /** The read that opens an attempt, and the clock decode_mail then reads. */
  method ReadMail(row: OptionsRow<Stored>, ghost me: nat, ghost call: Call, ghost base: seq<Stmt<Stored>>,
                  ghost before: seq<Stmt<Stored>>, ghost a: nat)
    returns (current: Option<Stored>, now: int, ghost mine: seq<Stmt<Stored>>)
    requires row.Valid() && Own(row.history, me) == base + before
    requires Plays(MailStep, call, before) && Play(MailStep, call, before) == call.(pc := Fetch(a))
    modifies row
    ensures row.Valid() && Own(row.history, me) == base + mine
    ensures Plays(MailStep, call, mine)
    ensures Play(MailStep, call, mine).job == call.job
    ensures Play(MailStep, call, mine).pc ==
      if call.job.Take? && Live(MailOf(Raw(current)), now) == [] then NothingThere else Swapping(a, Raw(current), now, Update(0))
  {
    row.Others(me);
    current := row.Select(me);
    mine := Played(MailStep, call, base, before, row.last);
    row.Others(me);
    now := row.Now(me);
    mine := Played(MailStep, call, base, mine, row.last);
  }

  /** The swap inside an attempt. */
  method SwapMail(row: OptionsRow<Stored>, ghost me: nat, ghost call: Call, ghost base: seq<Stmt<Stored>>,
                  ghost before: seq<Stmt<Stored>>, ghost a: nat, cur: Stored, ghost now: int, next: Stored)
    returns (swapped: bool, ghost mine: seq<Stmt<Stored>>)
    requires row.Valid() && Own(row.history, me) == base + before
    requires Plays(MailStep, call, before)
    requires Play(MailStep, call, before) == call.(pc := Swapping(a, cur, now, Update(0)))
    requires next == Next(call.job, cur, now)
    modifies row
    ensures row.Valid() && Own(row.history, me) == base + mine
    ensures Plays(MailStep, call, mine)
    ensures Play(MailStep, call, mine) == call.(pc := AfterSwap(call.job, Swapping(a, cur, now, Update(0)), if swapped then Won else Lost))
  {
    ghost var own;
    swapped, own := Swap(row, me, cur, next);
    mine := SwapInAttempt(call, call.(pc := Swapping(a, cur, now, Update(0))), base, before, own);
  }

  /** The swap's statements after those of the attempt so far. */
  lemma SwapInAttempt(call: Call, c: Call, base: seq<Stmt<Stored>>, before: seq<Stmt<Stored>>, own: seq<Stmt<Stored>>)
    returns (mine: seq<Stmt<Stored>>)
    requires Plays(MailStep, call, before) && Play(MailStep, call, before) == c && c.pc.Swapping? && c.pc.swap == Update(0)
    requires Plays(SwapStep, SwapStart(c.pc.cur, Next(c.job, c.pc.cur, c.pc.now)), own)
    requires !Play(SwapStep, SwapStart(c.pc.cur, Next(c.job, c.pc.cur, c.pc.now)), own).pc.Returned?
    ensures base + before + own == base + mine && Plays(MailStep, call, mine)
    ensures Play(MailStep, call, mine) ==
      c.(pc := AfterSwap(c.job, c.pc, Play(SwapStep, SwapStart(c.pc.cur, Next(c.job, c.pc.cur, c.pc.now)), own).pc))
  {
    SwapInsideCall(c, own);
    PlayConcat(MailStep, call, before, own);
    mine := before + own;
  }
}
