/** WP_Sync_Room_Lock on the built-in options row: a lease lock claimed by INSERT
    IGNORE, taken over by compare-and-swap and released by token. Times are in
    microseconds, the precision of the token's text. */
module RoomLock {
  import opened OptionsTable
  import opened AtomicOption

  const TTL := 30_000_000
  const RETRY_SLEEP := 5_000

  /** The row's text: when the call that wrote it began, and its random part. */
  datatype Token = Token(stamp: int, id: nat)

  datatype LockPc =
    | Stamp
    | Budget(tok: Token)
    | Claim(tok: Token, deadline: int)
    | Probe(tok: Token, deadline: int)
    | Judge(tok: Token, deadline: int, existing: Token)
    | TakeOver(tok: Token, deadline: int, existing: Token)
    | Check(tok: Token, deadline: int)
    | Holding(tok: Token)
    | Busy
    | Released(tok: Token)

  datatype LockCall = LockCall(id: nat, wait: nat, pc: LockPc)

  ghost function LockMove(c: LockCall, at: int, row: Option<Token>): (LockPc, Option<Token>) {
    match c.pc
    case Stamp => (Budget(Token(at, c.id)), row)
    case Budget(tok) => (Claim(tok, at + c.wait), row)
    case Claim(tok, deadline) =>
      if row.None? then (Holding(tok), Some(tok)) else (Probe(tok, deadline), row)
    case Probe(tok, deadline) =>
      (if row.Some? then Judge(tok, deadline, row.value) else Check(tok, deadline), row)
    case Judge(tok, deadline, existing) =>
      (if at - existing.stamp > TTL then TakeOver(tok, deadline, existing) else Check(tok, deadline), row)
    case TakeOver(tok, deadline, existing) =>
      if row == Some(existing) && existing != tok then (Holding(tok), Some(tok)) else (Check(tok, deadline), row)
    case Check(tok, deadline) => (if at >= deadline then Busy else Claim(tok, deadline), row)
    case Holding(tok) => (Released(tok), if row == Some(tok) then None else row)
    case _ => (c.pc, row)
  }

  ghost function LockStep(c: LockCall, at: int, row: Option<Token>): (LockCall, Option<Token>) {
    var (pc, left) := LockMove(c, at, row);
    (c.(pc := pc), left)
  }

  // ---- The code ----

  /** acquire(): the holder token, or None for rest_sync_room_busy. */
  method Acquire(row: OptionsRow<Token>, ghost me: nat, random: nat, wait: nat)
    returns (token: Option<Token>, ghost mine: seq<Stmt<Token>>)
    requires row.Valid()
    modifies row
    ensures row.Valid() && Own(row.history, me) == old(Own(row.history, me)) + mine
    ensures Plays(LockStep, LockCall(random, wait, Stamp), mine)
    ensures Play(LockStep, LockCall(random, wait, Stamp), mine).pc == if token.Some? then Holding(token.value) else Busy
  {
    ghost var call, base := LockCall(random, wait, Stamp), Own(row.history, me);
    var tok, deadline;
    tok, deadline, mine := Mint(row, me, random, wait);
    while true
      invariant row.Valid() && Own(row.history, me) == base + mine && Plays(LockStep, call, mine)
      invariant Play(LockStep, call, mine) == call.(pc := Claim(tok, deadline))
      decreases deadline - row.clock
    {
      var held, late;
      held, late, mine := Pass(row, me, call, base, mine, tok, deadline);
      if held {
        return Some(tok), mine;
      }
      if late {
        return None, mine;
      }
      row.Sleep(me, RETRY_SLEEP);
    }
  }

  /** The token, stamped before the deadline is set and before any waiting. */
  method Mint(row: OptionsRow<Token>, ghost me: nat, random: nat, wait: nat)
    returns (tok: Token, deadline: int, ghost mine: seq<Stmt<Token>>)
    requires row.Valid()
    modifies row
    ensures row.Valid() && Own(row.history, me) == old(Own(row.history, me)) + mine
    ensures Plays(LockStep, LockCall(random, wait, Stamp), mine)
    ensures Play(LockStep, LockCall(random, wait, Stamp), mine) == LockCall(random, wait, Claim(tok, deadline))
  {
    ghost var call, base := LockCall(random, wait, Stamp), Own(row.history, me);
    var start := row.Now(me);
    mine := Played(LockStep, call, base, [], row.last);
    tok := Token(start, random);
    row.Others(me);
    var now := row.Now(me);
    mine := Played(LockStep, call, base, mine, row.last);
    deadline := now + wait;
  }

  /** One pass of the loop, with the look at the deadline that ends it. */
  method Pass(row: OptionsRow<Token>, ghost me: nat, ghost call: LockCall, ghost base: seq<Stmt<Token>>,
              ghost before: seq<Stmt<Token>>, tok: Token, deadline: int)
    returns (held: bool, late: bool, ghost mine: seq<Stmt<Token>>)
    requires row.Valid() && Own(row.history, me) == base + before && Plays(LockStep, call, before)
    requires Play(LockStep, call, before) == call.(pc := Claim(tok, deadline))
    modifies row
    ensures row.Valid() && old(row.clock) <= row.clock && Own(row.history, me) == base + mine && Plays(LockStep, call, mine)
    ensures Play(LockStep, call, mine) == call.(pc := if held then Holding(tok) else if late then Busy else Claim(tok, deadline))
    ensures !held && !late ==> row.clock < deadline
  {
    late := false;
    held, mine := TryClaim(row, me, call, base, before, tok, deadline);
    if !held {
      row.Others(me);
      var t := row.Now(me);
      mine := Played(LockStep, call, base, mine, row.last);
      late := t >= deadline;
    }
  }

  /** Claim a missing row, or take over an expired one. */
  method TryClaim(row: OptionsRow<Token>, ghost me: nat, ghost call: LockCall, ghost base: seq<Stmt<Token>>,
                  ghost before: seq<Stmt<Token>>, tok: Token, ghost deadline: int)
    returns (held: bool, ghost mine: seq<Stmt<Token>>)
    requires row.Valid() && Own(row.history, me) == base + before && Plays(LockStep, call, before)
    requires Play(LockStep, call, before) == call.(pc := Claim(tok, deadline))
    modifies row
    ensures row.Valid() && old(row.clock) <= row.clock && Own(row.history, me) == base + mine && Plays(LockStep, call, mine)
    ensures Play(LockStep, call, mine) == call.(pc := if held then Holding(tok) else Check(tok, deadline))
  {
    row.Others(me);
    var claimed := row.InsertIgnore(me, tok);
    mine := Played(LockStep, call, base, before, row.last);
    if claimed {
      return true, mine;
    }
    row.Others(me);
    var existing := row.Select(me);
    mine := Played(LockStep, call, base, mine, row.last);
    if existing.Some? {
      held, mine := TryTakeOver(row, me, call, base, mine, tok, deadline, existing.value);
      return held, mine;
    }
    return false, mine;
  }

  method TryTakeOver(row: OptionsRow<Token>, ghost me: nat, ghost call: LockCall, ghost base: seq<Stmt<Token>>,
                     ghost before: seq<Stmt<Token>>, tok: Token, ghost deadline: int, existing: Token)
    returns (held: bool, ghost mine: seq<Stmt<Token>>)
    requires row.Valid() && Own(row.history, me) == base + before && Plays(LockStep, call, before)
    requires Play(LockStep, call, before) == call.(pc := Judge(tok, deadline, existing))
    modifies row
    ensures row.Valid() && old(row.clock) <= row.clock && Own(row.history, me) == base + mine && Plays(LockStep, call, mine)
    ensures Play(LockStep, call, mine) == call.(pc := if held then Holding(tok) else Check(tok, deadline))
  {
    row.Others(me);
    var now := row.Now(me);
    mine := Played(LockStep, call, base, before, row.last);
    held := false;
    if now - existing.stamp > TTL {
      row.Others(me);
      held := row.Update(me, existing, tok);
      mine := Played(LockStep, call, base, mine, row.last);
    }
  }

  /** release(): deletes the row only while it still holds this token. */
  method Release(row: OptionsRow<Token>, ghost me: nat, token: Token, ghost call: LockCall) returns (ghost mine: seq<Stmt<Token>>)
    requires row.Valid() && call.pc == Holding(token)
    modifies row
    ensures row.Valid() && Own(row.history, me) == old(Own(row.history, me)) + mine
    ensures Plays(LockStep, call, mine) && Play(LockStep, call, mine) == call.(pc := Released(token))
  {
    row.Others(me);
    row.Delete(me, Some(token));
    mine := Played(LockStep, call, Own(row.history, me), [], row.last);
  }

  // ---- Whole runs ----

  /** One hold of the lock: from the claim or takeover to the holder's release. */
  datatype Tenure = Tenure(pid: nat, tok: Token, from: int, displaced: Option<Token>, until: Option<int>)

  /** `left` is the claim of an earlier epoch that was in the row at the start. */
  datatype World = World(row: Option<Token>, clock: int, calls: map<nat, LockCall>, tenures: seq<Tenure>, left: Option<Token>)

  ghost function Close(ts: seq<Tenure>, p: nat, at: int): (r: seq<Tenure>)
    ensures |r| == |ts|
    ensures forall i | 0 <= i < |ts| :: r[i] == if ts[i].pid == p then ts[i].(until := Some(at)) else ts[i]
  {
    seq(|ts|, i requires 0 <= i < |ts| => if ts[i].pid == p then ts[i].(until := Some(at)) else ts[i])
  }

  ghost function Apply(w: World, p: nat, at: int): World
    requires p in w.calls
  {
    var c := w.calls[p];
    var (c', after) := LockStep(c, at, w.row);
    var ts :=
      if c'.pc.Holding? && !c.pc.Holding? then
        w.tenures + [Tenure(p, c'.pc.tok, at, if c.pc.TakeOver? then Some(c.pc.existing) else None, None)]
      else if c.pc.Holding? then Close(w.tenures, p, at)
      else w.tenures;
    World(after, at, w.calls[p := c'], ts, w.left)
  }

  ghost function Exec(w: World, h: seq<Stmt<Token>>): World {
    if h == [] then w
    else
      var v, last := Exec(w, h[..|h| - 1]), h[|h| - 1];
      if last.pid in v.calls then Apply(v, last.pid, last.at) else v
  }

  /** `h` is a run from `w`: time never goes back and every statement is its
      call's next. */
  ghost predicate Run(w: World, h: seq<Stmt<Token>>) {
    h == [] ||
    var v, last := Exec(w, h[..|h| - 1]), h[|h| - 1];
    && Run(w, h[..|h| - 1])
    && last.pid in v.calls && v.clock <= last.at
    && last.before == v.row && last.after == Apply(v, last.pid, last.at).row
  }

  /** The code makes runs: any history of the row to which every call
      contributes what the code plays is one. */
  lemma {:induction false} HistoryIsRun(w: World, h: seq<Stmt<Token>>, row: Option<Token>, now: int)
    requires Linked(w.row, w.clock, h, row, now) && Contributes(LockStep, w.calls, h)
    ensures Run(w, h) && Exec(w, h).row == row && Exec(w, h).clock <= now
    ensures Exec(w, h).calls == Standing(LockStep, w.calls, h)
  {
    if h == [] {
      assert Standing(LockStep, w.calls, h) == w.calls;
    } else {
      var rest, last := h[..|h| - 1], h[|h| - 1];
      StandingLast(LockStep, w.calls, h);
      HistoryIsRun(w, rest, last.before, last.at);
      ApplyCall(Exec(w, rest), last.pid, last.at);
    }
  }

  lemma ApplyCall(w: World, p: nat, at: int)
    requires p in w.calls
    ensures var w' := Apply(w, p, at);
      && w'.calls == w.calls[p := LockStep(w.calls[p], at, w.row).0]
      && w'.row == LockStep(w.calls[p], at, w.row).1 && w'.clock == at
  {
  }

  ghost predicate Initial(w: World) {
    && w.row == w.left && w.tenures == []
    && (w.left.Some? ==> forall p | p in w.calls :: w.calls[p].id != w.left.value.id)
    && (forall p | p in w.calls :: w.calls[p].pc == Stamp)
    && (forall p, q | p in w.calls && q in w.calls && p != q :: w.calls[p].id != w.calls[q].id)
  }

  /** The lease runs from the token's stamp: a tenure is over for a later one
      that began at `at` if it was released by then or its lease had run out. */
  ghost predicate OverBy(t: Tenure, at: int) {
    (t.until.Some? && t.until.value <= at) || t.tok.stamp + 30_000_000 < at
  }

  ghost predicate TokenOf(c: LockCall, tok: Token) {
    match c.pc
    case Budget(t) => t == tok
    case Claim(t, _) => t == tok
    case Probe(t, _) => t == tok
    case Judge(t, _, _) => t == tok
    case TakeOver(t, _, _) => t == tok
    case Check(t, _) => t == tok
    case Holding(t) => t == tok
    case Released(t) => t == tok
    case _ => false
  }

  ghost predicate Calls(w: World) {
    && (forall p, q | p in w.calls && q in w.calls && p != q :: w.calls[p].id != w.calls[q].id)
    && (w.left.Some? ==> forall p | p in w.calls :: w.calls[p].id != w.left.value.id)
    && (forall p, tok | p in w.calls && TokenOf(w.calls[p], tok) :: tok.id == w.calls[p].id && tok.stamp <= w.clock)
    && (forall p | p in w.calls && w.calls[p].pc.TakeOver? :: w.clock - w.calls[p].pc.existing.stamp > 30_000_000)
  }

  ghost predicate TenureStands(w: World, t: Tenure) {
    && t.pid in w.calls && t.from <= w.clock && t.tok.id == w.calls[t.pid].id
    && w.calls[t.pid].pc == (if t.until.None? then Holding(t.tok) else Released(t.tok))
    && (t.until.Some? ==> t.until.value <= w.clock)
  }

  ghost predicate AllStand(w: World) {
    && (forall i | 0 <= i < |w.tenures| :: TenureStands(w, w.tenures[i]))
    && (forall i, j | 0 <= i < j < |w.tenures| :: w.tenures[i].pid != w.tenures[j].pid)
  }

  ghost predicate HasTenure(ts: seq<Tenure>, p: nat) {
    exists i :: 0 <= i < |ts| && ts[i].pid == p
  }

  ghost predicate AllListed(w: World) {
    forall p | p in w.calls && (w.calls[p].pc.Holding? || w.calls[p].pc.Released?) :: HasTenure(w.tenures, p)
  }

  /** The token of the last tenure, until that is released. */
  ghost function LastToken(ts: seq<Tenure>, left: Option<Token>): Option<Token> {
    if ts == [] then left else if ts[|ts| - 1].until.None? then Some(ts[|ts| - 1].tok) else None
  }

  ghost predicate RowIsLast(w: World) {
    w.row == LastToken(w.tenures, w.left)
  }

  ghost predicate Disjoint(ts: seq<Tenure>, left: Option<Token>) {
    && (forall i, j | 0 <= i < j < |ts| :: OverBy(ts[i], ts[j].from))
    && (forall j | 0 <= j < |ts| && ts[j].displaced.Some? :: DisplacedIs(ts, left, j))
    && (ts != [] && left.Some? ==> ts[0].displaced == left)
  }

  /** What tenure j displaced was the claim before it, and past its lease. */
  ghost predicate DisplacedIs(ts: seq<Tenure>, left: Option<Token>, j: nat)
    requires j < |ts| && ts[j].displaced.Some?
  {
    && ts[j].displaced.value.stamp + 30_000_000 < ts[j].from
    && (if j == 0 then ts[j].displaced == left else ts[j].displaced.value == ts[j - 1].tok)
  }

  ghost predicate Inv(w: World) {
    Calls(w) && AllStand(w) && AllListed(w) && RowIsLast(w) && Disjoint(w.tenures, w.left)
  }

  lemma ApplyKeepsCalls(w: World, p: nat, at: int)
    requires Calls(w) && p in w.calls && w.clock <= at
    ensures Calls(Apply(w, p, at))
  {
    var w', c, c' := Apply(w, p, at), w.calls[p], Apply(w, p, at).calls[p];
    assert w'.calls == w.calls[p := c'] && c'.id == c.id && w'.clock == at;
    forall tok | TokenOf(c', tok)
      ensures tok.id == c.id && tok.stamp <= at
    {
      if !c.pc.Stamp? {
        assert TokenOf(c, tok);
      }
    }
  }

  /** A step that neither starts nor ends a tenure. */
  lemma WaitingStep(w: World, p: nat, at: int)
    requires Inv(w) && p in w.calls && w.clock <= at
    requires !w.calls[p].pc.Holding? && !LockStep(w.calls[p], at, w.row).0.pc.Holding?
    ensures Inv(Apply(w, p, at))
  {
    ApplyKeepsCalls(w, p, at);
    var w' := Apply(w, p, at);
    assert w' == w.(clock := at, calls := w'.calls);
    WaitingCall(w, p, at);
    forall i | 0 <= i < |w.tenures|
      ensures TenureStands(w', w'.tenures[i])
    {
      assert TenureStands(w, w.tenures[i]);
    }
    forall q | q in w'.calls && (w'.calls[q].pc.Holding? || w'.calls[q].pc.Released?)
      ensures HasTenure(w'.tenures, q)
    {
      assert HasTenure(w.tenures, q);
    }
  }

  lemma WaitingCall(w: World, p: nat, at: int)
    requires p in w.calls
    requires !w.calls[p].pc.Holding? && !LockStep(w.calls[p], at, w.row).0.pc.Holding?
    ensures var w' := Apply(w, p, at);
      && w' == World(w.row, at, w.calls[p := w'.calls[p]], w.tenures, w.left)
      && (w'.calls[p].pc.Released? ==> w'.calls[p] == w.calls[p]) && (w.calls[p].pc.Released? ==> w'.calls[p] == w.calls[p])
      && !w'.calls[p].pc.Holding? && w'.calls[p].id == w.calls[p].id
  {
  }

  /** A claim or a takeover: what it does, and that its time had come. */
  lemma WinningStep(w: World, p: nat, at: int) returns (t: Tenure)
    requires Inv(w) && p in w.calls && w.clock <= at
    requires !w.calls[p].pc.Holding? && LockStep(w.calls[p], at, w.row).0.pc.Holding?
    ensures Wins(w, p, at, t) && Apply(w, p, at) == Won(w, p, at, t)
  {
    var c := w.calls[p];
    t := Tenure(p, c.pc.tok, at, if c.pc.TakeOver? then Some(c.pc.existing) else None, None);
    assert TokenOf(c, c.pc.tok);
    if w.tenures != [] {
      assert TenureStands(w, w.tenures[|w.tenures| - 1]);
    }
  }

  /** A winner's tenure comes after the others, which are over. */
  ghost predicate Wins(w: World, p: nat, at: int, t: Tenure) {
    && p in w.calls && w.clock <= at && !w.calls[p].pc.Holding? && !w.calls[p].pc.Released?
    && t.pid == p && t.from == at && t.until == None && t.tok.id == w.calls[p].id
    && (w.tenures != [] ==> OverBy(w.tenures[|w.tenures| - 1], at))
    && (w.tenures == [] && w.left.Some? ==> t.displaced == w.left)
    && (t.displaced.Some? ==> DisplacedIs(w.tenures + [t], w.left, |w.tenures|))
  }

  ghost function Won(w: World, p: nat, at: int, t: Tenure): World
    requires p in w.calls
  {
    World(Some(t.tok), at, w.calls[p := w.calls[p].(pc := Holding(t.tok))], w.tenures + [t], w.left)
  }

  lemma WinAllStand(w: World, p: nat, at: int, t: Tenure)
    requires AllStand(w) && Wins(w, p, at, t)
    ensures AllStand(Won(w, p, at, t))
  {
    forall i | 0 <= i < |w.tenures|
      ensures TenureStands(Won(w, p, at, t), w.tenures[i]) && w.tenures[i].pid != p
    {
      assert TenureStands(w, w.tenures[i]);
    }
  }

  lemma WinAllListed(w: World, p: nat, at: int, t: Tenure)
    requires AllListed(w) && Wins(w, p, at, t)
    ensures AllListed(Won(w, p, at, t))
  {
    var v, n := Won(w, p, at, t), |w.tenures|;
    assert v.tenures[n].pid == p;
    forall q | q in w.calls && q != p && (w.calls[q].pc.Holding? || w.calls[q].pc.Released?)
      ensures HasTenure(v.tenures, q)
    {
      var i :| 0 <= i < n && w.tenures[i].pid == q;
      assert v.tenures[i].pid == q;
    }
  }

  lemma WinDisjoint(w: World, p: nat, at: int, t: Tenure)
    requires AllStand(w) && Disjoint(w.tenures, w.left) && Wins(w, p, at, t)
    ensures Disjoint(w.tenures + [t], w.left)
  {
    var n, ts := |w.tenures|, w.tenures + [t];
    forall j | 0 <= j < |ts| && ts[j].displaced.Some?
      ensures DisplacedIs(ts, w.left, j)
    {
      assert j < n ==> DisplacedIs(w.tenures, w.left, j);
    }
    forall i | 0 <= i < n
      ensures OverBy(w.tenures[i], at)
    {
      if i < n - 1 {
        assert OverBy(w.tenures[i], w.tenures[n - 1].from);
        assert TenureStands(w, w.tenures[n - 1]);
      }
    }
  }

  /** A release. */
  lemma ReleaseAllStand(w: World, p: nat, at: int)
    requires AllStand(w) && p in w.calls && w.clock <= at && w.calls[p].pc.Holding?
    ensures AllStand(Apply(w, p, at))
  {
    forall i | 0 <= i < |w.tenures|
      ensures TenureStands(Apply(w, p, at), Apply(w, p, at).tenures[i])
    {
      assert TenureStands(w, w.tenures[i]);
    }
  }

  lemma ReleaseAllListed(w: World, p: nat, at: int)
    requires AllListed(w) && p in w.calls && w.calls[p].pc.Holding?
    ensures AllListed(Apply(w, p, at))
  {
    var v := Apply(w, p, at);
    forall q | q in v.calls && (v.calls[q].pc.Holding? || v.calls[q].pc.Released?)
      ensures HasTenure(v.tenures, q)
    {
      assert HasTenure(w.tenures, q);
      var i :| 0 <= i < |w.tenures| && w.tenures[i].pid == q;
      assert v.tenures[i].pid == q;
    }
  }

  lemma CloseLast(ts: seq<Tenure>, left: Option<Token>, p: nat, at: int, tok: Token)
    requires ts != []
    requires var last := ts[|ts| - 1];
      if last.pid == p then last.until.None? && last.tok == tok else last.until.None? ==> last.tok != tok
    ensures LastToken(Close(ts, p, at), left) == if LastToken(ts, left) == Some(tok) then None else LastToken(ts, left)
  {
  }

  /** The holder's tenure, if it is not the last one, is another's. */
  lemma HolderOrNot(w: World, p: nat)
    requires Calls(w) && AllStand(w) && AllListed(w) && p in w.calls && w.calls[p].pc.Holding?
    ensures w.tenures != []
    ensures var last := w.tenures[|w.tenures| - 1];
      if last.pid == p then last.until.None? && last.tok == w.calls[p].pc.tok else last.until.None? ==> last.tok != w.calls[p].pc.tok
  {
    assert HasTenure(w.tenures, p);
    var last := w.tenures[|w.tenures| - 1];
    assert TenureStands(w, last);
    assert TokenOf(w.calls[p], w.calls[p].pc.tok);
  }

  lemma ReleaseIs(w: World, p: nat, at: int)
    requires p in w.calls && w.calls[p].pc.Holding?
    ensures Apply(w, p, at).tenures == Close(w.tenures, p, at)
    ensures Apply(w, p, at).row == if w.row == Some(w.calls[p].pc.tok) then None else w.row
  {
  }

  /** The holder's release empties the row only if its tenure is the last one. */
  lemma ReleasedRow(w: World, p: nat, at: int)
    requires Inv(w) && p in w.calls && w.calls[p].pc.Holding?
    ensures RowIsLast(Apply(w, p, at))
  {
    HolderOrNot(w, p);
    ReleaseIs(w, p, at);
    CloseLast(w.tenures, w.left, p, at, w.calls[p].pc.tok);
  }

  lemma ReleaseKeepsDisjoint(ts: seq<Tenure>, left: Option<Token>, p: nat, at: int)
    requires Disjoint(ts, left) && forall i | 0 <= i < |ts| :: ts[i].pid == p ==> ts[i].until.None? && ts[i].from <= at
    ensures Disjoint(Close(ts, p, at), left)
  {
    var r := Close(ts, p, at);
    forall j | 0 <= j < |r| && r[j].displaced.Some?
      ensures DisplacedIs(r, left, j)
    {
      assert DisplacedIs(ts, left, j);
    }
  }

  lemma StepKeepsInv(v: World, p: nat, at: int)
    requires Inv(v) && p in v.calls && v.clock <= at
    ensures Inv(Apply(v, p, at))
  {
    if v.calls[p].pc.Holding? {
      ReleaseKeepsInv(v, p, at);
    } else if LockStep(v.calls[p], at, v.row).0.pc.Holding? {
      WinKeepsInv(v, p, at);
    } else {
      WaitingStep(v, p, at);
    }
  }

  lemma ReleaseKeepsInv(v: World, p: nat, at: int)
    requires Inv(v) && p in v.calls && v.clock <= at && v.calls[p].pc.Holding?
    ensures Inv(Apply(v, p, at))
  {
    ApplyKeepsCalls(v, p, at);
    ReleaseAllStand(v, p, at);
    ReleaseAllListed(v, p, at);
    ReleasedRow(v, p, at);
    ReleaseIs(v, p, at);
    forall i | 0 <= i < |v.tenures| && v.tenures[i].pid == p
      ensures v.tenures[i].until.None? && v.tenures[i].from <= at
    {
      assert TenureStands(v, v.tenures[i]);
    }
    ReleaseKeepsDisjoint(v.tenures, v.left, p, at);
  }

  lemma WinKeepsInv(v: World, p: nat, at: int)
    requires Inv(v) && p in v.calls && v.clock <= at
    requires !v.calls[p].pc.Holding? && LockStep(v.calls[p], at, v.row).0.pc.Holding?
    ensures Inv(Apply(v, p, at))
  {
    ApplyKeepsCalls(v, p, at);
    var t := WinningStep(v, p, at);
    WinAllStand(v, p, at, t);
    WinAllListed(v, p, at, t);
    WinDisjoint(v, p, at, t);
  }

  lemma {:induction false} RunKeepsInv(w: World, h: seq<Stmt<Token>>)
    requires Initial(w) && Run(w, h)
    ensures Inv(Exec(w, h))
  {
    if h != [] {
      RunKeepsInv(w, h[..|h| - 1]);
      StepKeepsInv(Exec(w, h[..|h| - 1]), h[|h| - 1].pid, h[|h| - 1].at);
    }
  }

  /** Mutual exclusion over whole runs: of two tenures the earlier is released,
      or its lease has run out, before the later begins. */
  lemma TenuresNeverOverlap(w: World, h: seq<Stmt<Token>>, i: nat, j: nat)
    requires Initial(w) && Run(w, h) && i < j < |Exec(w, h).tenures|
    ensures OverBy(Exec(w, h).tenures[i], Exec(w, h).tenures[j].from)
  {
    RunKeepsInv(w, h);
  }

  /** The claim an earlier epoch left in the row is over too before the first
      tenure begins, which displaces it. */
  lemma EarlierClaimIsOver(w: World, h: seq<Stmt<Token>>)
    requires Initial(w) && Run(w, h) && w.left.Some? && Exec(w, h).tenures != []
    ensures Exec(w, h).tenures[0].displaced == w.left && w.left.value.stamp + 30_000_000 < Exec(w, h).tenures[0].from
  {
    RunKeepsInv(w, h);
    LeftStays(w, h);
    assert DisplacedIs(Exec(w, h).tenures, w.left, 0);
  }

  lemma {:induction false} LeftStays(w: World, h: seq<Stmt<Token>>)
    ensures Exec(w, h).left == w.left
  {
    if h != [] {
      LeftStays(w, h[..|h| - 1]);
    }
  }

  lemma HolderIsLast(v: World, p: nat)
    requires Inv(v) && p in v.calls && v.calls[p].pc.Holding? && v.clock - v.calls[p].pc.tok.stamp <= 30_000_000
    ensures v.tenures != [] && v.tenures[|v.tenures| - 1].pid == p && v.row == Some(v.calls[p].pc.tok)
  {
    var n := |v.tenures|;
    assert HasTenure(v.tenures, p);
    var i :| 0 <= i < n && v.tenures[i].pid == p;
    assert TenureStands(v, v.tenures[i]) && TenureStands(v, v.tenures[n - 1]);
    assert !OverBy(v.tenures[i], v.tenures[n - 1].from);
  }

  lemma OthersHaveExpired(v: World, p: nat, q: nat)
    requires Inv(v) && v.tenures != [] && v.tenures[|v.tenures| - 1].pid == p
    requires q in v.calls && v.calls[q].pc.Holding? && q != p
    ensures v.clock - v.calls[q].pc.tok.stamp > 30_000_000
  {
    var n := |v.tenures|;
    assert HasTenure(v.tenures, q);
    var j :| 0 <= j < n && v.tenures[j].pid == q;
    assert TenureStands(v, v.tenures[j]) && TenureStands(v, v.tenures[n - 1]);
    assert OverBy(v.tenures[j], v.tenures[n - 1].from);
  }

  /** Within its lease a holder owns the row, whatever stale releases, late
      probes and takeover attempts others make; so no two holders are within
      their leases at once. */
  lemma HolderOwnsRow(w: World, h: seq<Stmt<Token>>, p: nat)
    requires Initial(w) && Run(w, h)
    requires var v := Exec(w, h); p in v.calls && v.calls[p].pc.Holding? && v.clock - v.calls[p].pc.tok.stamp <= 30_000_000
    ensures var v := Exec(w, h);
      && v.row == Some(v.calls[p].pc.tok)
      && forall q | q in v.calls && v.calls[q].pc.Holding? && q != p :: v.clock - v.calls[q].pc.tok.stamp > 30_000_000
  {
    RunKeepsInv(w, h);
    var v := Exec(w, h);
    HolderIsLast(v, p);
    forall q | q in v.calls && v.calls[q].pc.Holding? && q != p
      ensures v.clock - v.calls[q].pc.tok.stamp > 30_000_000
    {
      OthersHaveExpired(v, p, q);
    }
  }

  /** A holder has the row, its lease run out or not, exactly until a later
      tenure begins. */
  lemma HolderKeepsRow(w: World, h: seq<Stmt<Token>>, p: nat)
    requires Initial(w) && Run(w, h)
    requires var v := Exec(w, h); p in v.calls && v.calls[p].pc.Holding?
    ensures var v := Exec(w, h);
      && v.tenures != []
      && (v.row == Some(v.calls[p].pc.tok) <==> v.tenures[|v.tenures| - 1].pid == p)
  {
    RunKeepsInv(w, h);
    HolderOrNot(Exec(w, h), p);
  }

  /** One statement takes the row from its holder only if it is the holder's own
      release, or a takeover after the lease; and whoever else releases leaves
      the row alone. */
  lemma OnlyReleaseOrTakeover(w: World, h: seq<Stmt<Token>>, p: nat)
    requires Initial(w) && Run(w, h) && h != []
    requires var v := Exec(w, h[..|h| - 1]); p in v.calls && v.calls[p].pc.Holding? && v.row == Some(v.calls[p].pc.tok)
    ensures var v, last := Exec(w, h[..|h| - 1]), h[|h| - 1]; var tok := v.calls[p].pc.tok;
      && (last.pid != p && v.calls[last.pid].pc.Holding? ==> last.after == last.before)
      && (last.after != Some(tok) ==> last.pid == p || (v.calls[last.pid].pc.TakeOver? && last.at > tok.stamp + 30_000_000))
  {
    var v, last := Exec(w, h[..|h| - 1]), h[|h| - 1];
    RunKeepsInv(w, h[..|h| - 1]);
    RowTaken(v, p, last.pid, last.at);
  }

  lemma RowTaken(v: World, p: nat, q: nat, at: int)
    requires Inv(v) && p in v.calls && q in v.calls && v.calls[p].pc.Holding? && v.row == Some(v.calls[p].pc.tok) && v.clock <= at
    ensures q != p && v.calls[q].pc.Holding? ==> Apply(v, q, at).row == v.row
    ensures Apply(v, q, at).row != v.row ==> q == p || (v.calls[q].pc.TakeOver? && at > v.calls[p].pc.tok.stamp + 30_000_000)
  {
    assert TokenOf(v.calls[p], v.calls[p].pc.tok);
    if v.calls[q].pc.Holding? {
      assert TokenOf(v.calls[q], v.calls[q].pc.tok);
    }
  }

  /** Two waiters never take over the same claim. */
  lemma StaleClaimIsTakenOnce(w: World, h: seq<Stmt<Token>>, i: nat, j: nat)
    requires Initial(w) && Run(w, h) && i < j < |Exec(w, h).tenures|
    requires Exec(w, h).tenures[i].displaced.Some? && Exec(w, h).tenures[j].displaced.Some?
    ensures Exec(w, h).tenures[i].displaced != Exec(w, h).tenures[j].displaced
  {
    RunKeepsInv(w, h);
    DisplacedDiffer(Exec(w, h), i, j);
  }

  lemma DisplacedDiffer(v: World, i: nat, j: nat)
    requires Inv(v) && i < j < |v.tenures| && v.tenures[i].displaced.Some? && v.tenures[j].displaced.Some?
    ensures v.tenures[i].displaced.value.id != v.tenures[j].displaced.value.id
  {
    var before := v.tenures[j - 1];
    assert DisplacedIs(v.tenures, v.left, i) && DisplacedIs(v.tenures, v.left, j);
    assert TenureStands(v, before);
    if i > 0 {
      assert TenureStands(v, v.tenures[i - 1]) && v.tenures[i - 1].pid != before.pid;
    }
  }

  /** How far a call has come that meets only the row `free`, missing or expired. */
  ghost predicate Advanced(c: LockCall, id: nat, free: Option<Token>, row: Option<Token>, n: nat) {
    && c.id == id
    && match c.pc
       case Stamp => n == 0 && row == free
       case Budget(tok) => n == 1 && row == free && tok.id == id && (free.Some? ==> tok.stamp - free.value.stamp > 30_000_000)
       case Claim(tok, _) => n == 2 && row == free && tok.id == id && (free.Some? ==> tok.stamp - free.value.stamp > 30_000_000)
       case Probe(tok, _) => n == 3 && row == free && free.Some? && tok.id == id && tok.stamp - free.value.stamp > 30_000_000
       case Judge(tok, _, existing) => n == 4 && row == free == Some(existing) && tok.id == id && tok.stamp - existing.stamp > 30_000_000
       case TakeOver(tok, _, existing) => n == 5 && row == free == Some(existing) && tok.id == id && tok.stamp - existing.stamp > 30_000_000
       case Holding(tok) => (n == 3 || n == 6) && row == Some(tok) && tok.id == id
       case Released(tok) => n > 3 && row == None
       case _ => false
  }

  lemma {:induction false} AloneAdvances(free: Option<Token>, id: nat, wait: nat, own: seq<Stmt<Token>>, c0: int, row: Option<Token>, c1: int)
    requires free.Some? ==> c0 - free.value.stamp > 30_000_000
    requires Plays(LockStep, LockCall(id, wait, Stamp), own) && Linked(free, c0, own, row, c1)
    ensures c0 <= c1 && Advanced(Play(LockStep, LockCall(id, wait, Stamp), own), id, free, row, |own|)
  {
    if own != [] {
      var last := own[|own| - 1];
      AloneAdvances(free, id, wait, own[..|own| - 1], c0, last.before, last.at);
    }
  }

  /** A crashed holder's lock is not lost: when the row is missing, or its token
      is older than the lease, a call during which nobody else changes the row
      holds the lock after at most one pass of its loop, however long its
      statements take, and is never told that the room is busy. */
  lemma AbandonedLockCanBeTaken(row: Option<Token>, id: nat, wait: nat, me: nat, h: seq<Stmt<Token>>, c0: int, row1: Option<Token>, c1: int)
    requires row.Some? ==> c0 - row.value.stamp > 30_000_000
    requires Linked(row, c0, h, row1, c1) && Quiet(h, me) && Plays(LockStep, LockCall(id, wait, Stamp), Own(h, me))
    ensures var pc := Play(LockStep, LockCall(id, wait, Stamp), Own(h, me)).pc;
      && !pc.Busy? && !pc.Check?
      && (|Own(h, me)| >= 6 ==> pc.Holding? || pc.Released?)
      && (pc.Holding? ==> pc.tok.id == id && row1 == Some(pc.tok))
  {
    QuietIsOwn(row, c0, h, row1, c1, me);
    AloneAdvances(row, id, wait, Own(h, me), c0, row1, c1);
  }
}
