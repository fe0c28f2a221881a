/** WP_Sync_Atomic_Option::swap_prefixed on the built-in options row, and the
    chain of writers built on it: a row holds a decimal sequence number, a bar
    and a payload; an advance write expects its predecessor's number, and a
    maintenance write its own. */
module PrefixChain {
  import opened OptionsTable
  import opened AtomicOption

  datatype PrefixCall = PrefixCall(prefix: string, next: string, pc: SwapPc)

  /** Unlike swap(), a missing row is seeded with `next`, and that is a win. */
  ghost function PrefixMove(c: PrefixCall, row: Option<string>): (SwapPc, Option<string>) {
    match c.pc
    case Update(k) =>
      if row.Some? && c.prefix <= row.value && row.value != c.next then (Won, Some(c.next)) else (Reread(k), row)
    case Reread(k) => (if row.Some? then Lost else Seed(k), row)
    case Seed(k) =>
      if row.None? then (Won, Some(c.next)) else (if k < 1 then Update(k + 1) else Lost, row)
    case _ => (c.pc, row)
  }

  ghost function PrefixStep(c: PrefixCall, at: int, row: Option<string>): (PrefixCall, Option<string>) {
    var (pc, left) := PrefixMove(c, row);
    (c.(pc := pc), left)
  }

  // ---- The code ----

  /** UPDATE ... WHERE option_value LIKE 'prefix%', counting changed rows. */
  method UpdateLike(row: OptionsRow<string>, ghost me: nat, prefix: string, next: string) returns (changed: bool)
    requires row.Valid()
    modifies row
    ensures row.Valid() && row.clock == old(row.clock)
    ensures changed == (old(row.value).Some? && prefix <= old(row.value).value && old(row.value).value != next)
    ensures row.value == if changed then Some(next) else old(row.value)
    ensures row.last == Stmt(me, row.clock, old(row.value), row.value)
    ensures Own(row.history, me) == old(Own(row.history, me)) + [row.last]
  {
    changed := row.value.Some? && prefix <= row.value.value && row.value.value != next;
    if changed {
      row.value := Some(next);
    }
    row.Record(me, old(row.value));
  }

  method SwapPrefixed(row: OptionsRow<string>, ghost me: nat, prefix: string, next: string)
    returns (ok: bool, ghost mine: seq<Stmt<string>>)
    requires row.Valid()
    modifies row
    ensures row.Valid() && Own(row.history, me) == old(Own(row.history, me)) + mine
    ensures Plays(PrefixStep, PrefixCall(prefix, next, Update(0)), mine)
    ensures Play(PrefixStep, PrefixCall(prefix, next, Update(0)), mine).pc == if ok then Won else Lost
  {
    ghost var call, base := PrefixCall(prefix, next, Update(0)), Own(row.history, me);
    mine := [];
    var attempt := 0;
    while attempt < 2
      invariant 0 <= attempt <= 2
      invariant row.Valid() && Own(row.history, me) == base + mine && Plays(PrefixStep, call, mine)
      invariant Play(PrefixStep, call, mine) == call.(pc := if attempt < 2 then Update(attempt) else Lost)
    {
      row.Others(me);
      var swapped := UpdateLike(row, me, prefix, next);
      mine := Played(PrefixStep, call, base, mine, row.last);
      if swapped {
        return true, mine;
      }
      var found, seeded;
      found, seeded, mine := SeedNext(row, me, call, base, mine, attempt, next);
      if found || seeded {
        return seeded, mine;
      }
      attempt := attempt + 1;
    }
    return false, mine;
  }

  method SeedNext(row: OptionsRow<string>, ghost me: nat, ghost call: PrefixCall, ghost base: seq<Stmt<string>>,
                  ghost before: seq<Stmt<string>>, ghost k: nat, next: string)
    returns (found: bool, seeded: bool, ghost mine: seq<Stmt<string>>)
    requires row.Valid() && Own(row.history, me) == base + before && call.next == next
    requires Plays(PrefixStep, call, before) && Play(PrefixStep, call, before) == call.(pc := Reread(k))
    modifies row
    ensures row.Valid() && Own(row.history, me) == base + mine && Plays(PrefixStep, call, mine)
    ensures found ==> !seeded
    ensures Play(PrefixStep, call, mine) ==
      call.(pc := if found then Lost else if seeded then Won else if k < 1 then Update(k + 1) else Lost)
  {
    row.Others(me);
    var current := row.Select(me);
    mine := Played(PrefixStep, call, base, before, row.last);
    found, seeded := current.Some?, false;
    if !found {
      row.Others(me);
      seeded := row.InsertIgnore(me, next);
      mine := Played(PrefixStep, call, base, mine, row.last);
    }
  }

  // ---- What a result means ----

  /** The row may be swapped: it has the prefix, and holds something else than `next`. */
  predicate Swappable(row: Option<string>, prefix: string, next: string) {
    row.Some? && prefix <= row.value && row.value != next
  }

  ghost function EndsAt(prefix: string, next: string, own: seq<Stmt<string>>): SwapPc {
    Play(PrefixStep, PrefixCall(prefix, next, Update(0)), own).pc
  }

  /** Statement i, and no other, changes the row: from a value with the prefix, or
      from nothing, to `next`. */
  ghost predicate InstallsAt(own: seq<Stmt<string>>, i: nat, prefix: string, next: string) {
    && i < |own| && own[i].after == Some(next) && (own[i].before == None || Swappable(own[i].before, prefix, next))
    && forall j | 0 <= j < |own| && j != i :: own[j].after == own[j].before
  }

  ghost predicate Idle(own: seq<Stmt<string>>) {
    forall j | 0 <= j < |own| :: own[j].after == own[j].before
  }

  /** Whatever others do meanwhile: a call that has won has installed `next` at
      exactly one instant, over a value with the prefix or over a missing row, and
      any other call has changed nothing. */
  lemma {:induction false} PrefixEffect(prefix: string, next: string, own: seq<Stmt<string>>)
    requires Plays(PrefixStep, PrefixCall(prefix, next, Update(0)), own)
    ensures Play(PrefixStep, PrefixCall(prefix, next, Update(0)), own).prefix == prefix
    ensures Play(PrefixStep, PrefixCall(prefix, next, Update(0)), own).next == next
    ensures if EndsAt(prefix, next, own).Won? then exists i :: InstallsAt(own, i, prefix, next) else Idle(own)
  {
    if own != [] {
      var n := |own| - 1;
      PrefixEffect(prefix, next, own[..n]);
      assert forall j | 0 <= j < n :: own[j] == own[..n][j];
      if EndsAt(prefix, next, own[..n]).Won? {
        var i :| InstallsAt(own[..n], i, prefix, next);
        assert InstallsAt(own, i, prefix, next);
      } else if EndsAt(prefix, next, own).Won? {
        assert InstallsAt(own, n, prefix, next);
      }
    }
  }

  /** With nobody in the way the call is one atomic operation: it wins exactly
      when the row is missing or holds another value with the prefix, and then the
      row holds `next`; otherwise the row is as it was. */
  lemma SwapPrefixedAlone(prefix: string, next: string, own: seq<Stmt<string>>, v0: Option<string>, c0: int, v1: Option<string>, c1: int)
    requires Plays(PrefixStep, PrefixCall(prefix, next, Update(0)), own) && Linked(v0, c0, own, v1, c1)
    requires EndsAt(prefix, next, own).Won? || EndsAt(prefix, next, own).Lost?
    ensures EndsAt(prefix, next, own).Won? <==> v0 == None || (prefix <= v0.value && v0.value != next)
    ensures v1 == if EndsAt(prefix, next, own).Won? then Some(next) else v0
  {
    GoesAlone(prefix, next, own, v0, c0, v1, c1);
  }

  lemma {:induction false} GoesAlone(prefix: string, next: string, own: seq<Stmt<string>>, v0: Option<string>, c0: int, v1: Option<string>, c1: int)
    requires Plays(PrefixStep, PrefixCall(prefix, next, Update(0)), own) && Linked(v0, c0, own, v1, c1)
    ensures match EndsAt(prefix, next, own)
      case Update(k) => k == 0 && v1 == v0
      case Reread(k) => k == 0 && v1 == v0 && !Swappable(v0, prefix, next)
      case Seed(k) => k == 0 && v1 == v0 == None
      case Won => v1 == Some(next) && (v0 == None || Swappable(v0, prefix, next))
      case Lost => v1 == v0 && v0.Some? && !Swappable(v0, prefix, next)
      case Returned => false
  {
    if own != [] {
      var last := own[|own| - 1];
      GoesAlone(prefix, next, own[..|own| - 1], v0, c0, last.before, last.at);
      PrefixEffect(prefix, next, own[..|own| - 1]);
    }
  }

  /** Where a call is by the number of its statements. */
  lemma {:induction false} StatementsAre(prefix: string, next: string, own: seq<Stmt<string>>)
    requires Plays(PrefixStep, PrefixCall(prefix, next, Update(0)), own)
    ensures match EndsAt(prefix, next, own)
      case Update(k) => k <= 1 && |own| == 3 * k
      case Reread(k) => k <= 1 && |own| == 3 * k + 1
      case Seed(k) => k <= 1 && |own| == 3 * k + 2
      case _ => true
  {
    if own != [] {
      StatementsAre(prefix, next, own[..|own| - 1]);
    }
  }

  /** A call loses at a read that finds the row, or at its second seed, which
      finds that another process was first. */
  lemma LosesInTwoRounds(prefix: string, next: string, own: seq<Stmt<string>>)
    requires Plays(PrefixStep, PrefixCall(prefix, next, Update(0)), own) && own != []
    requires EndsAt(prefix, next, own).Lost? && !EndsAt(prefix, next, own[..|own| - 1]).Lost?
    ensures (|own| == 2 || |own| == 5 || |own| == 6) && own[|own| - 1].before.Some?
  {
    StatementsAre(prefix, next, own[..|own| - 1]);
  }

  /** A call that loses although the row was missing or had the prefix when it
      began lost to a change by another process. */
  lemma PrefixLossHasACause(prefix: string, next: string, me: nat, h: seq<Stmt<string>>, v0: Option<string>, c0: int, v1: Option<string>, c1: int)
    requires Linked(v0, c0, h, v1, c1) && Plays(PrefixStep, PrefixCall(prefix, next, Update(0)), Own(h, me))
    requires EndsAt(prefix, next, Own(h, me)).Lost? && (v0 == None || (prefix <= v0.value && v0.value != next))
    ensures exists i | 0 <= i < |h| :: h[i].pid != me && h[i].before != h[i].after
  {
    if forall i | 0 <= i < |h| && h[i].pid != me :: h[i].before == h[i].after {
      QuietIsOwn(v0, c0, h, v1, c1, me);
      SwapPrefixedAlone(prefix, next, Own(h, me), v0, c0, v1, c1);
    }
  }

  // ---- Sequence prefixes ----

  function Digit(d: nat): char
    requires d < 10
  {
    "0123456789"[d]
  }

  /** PHP's decimal text of a non-negative integer. */
  function Decimal(n: nat): (s: string)
    ensures |s| > 0 && '|' !in s
  {
    if n < 10 then [Digit(n)] else Decimal(n / 10) + [Digit(n % 10)]
  }

  lemma {:induction false} DecimalInjective(m: nat, n: nat)
    requires Decimal(m) == Decimal(n)
    ensures m == n
    decreases m
  {
    var a, b := Decimal(m), Decimal(n);
    assert a[|a| - 1] == Digit(m % 10) && b[|b| - 1] == Digit(n % 10);
    assert m % 10 == n % 10;
    assert |a| > 1 <==> m >= 10;
    assert |b| > 1 <==> n >= 10;
    if m >= 10 {
      assert a[..|a| - 1] == Decimal(m / 10) && b[..|b| - 1] == Decimal(n / 10);
      DecimalInjective(m / 10, n / 10);
    }
  }

  function Prefix(n: nat): string {
    Decimal(n) + "|"
  }

  /** A value has the sequence prefix of one number only. */
  lemma PrefixesAreDisjoint(m: nat, n: nat, payload: string)
    requires Prefix(n) <= Prefix(m) + payload
    ensures m == n
  {
    var a, b, v := Decimal(m), Decimal(n), Prefix(m) + payload;
    assert v[|a|] == '|' && v[|b|] == Prefix(n)[|b|] == '|';
    assert forall i | 0 <= i < |a| :: a[i] in a && v[i] == a[i];
    assert forall i | 0 <= i < |b| :: b[i] in b && v[i] == Prefix(n)[i] == b[i];
    assert |a| == |b|;
    assert a == v[..|a|] && b == v[..|b|];
    DecimalInjective(m, n);
  }

  // ---- Whole runs of chained writers ----

  /** A writer that expects number `n` and writes `n + 1`, or `n` again. */
  datatype Writer = Writer(n: nat, advance: bool, payload: string, pc: SwapPc)

  ghost function To(c: Writer): nat {
    if c.advance then c.n + 1 else c.n
  }

  ghost function Written(c: Writer): string {
    Prefix(To(c)) + c.payload
  }

  ghost function CallOf(c: Writer): PrefixCall {
    PrefixCall(Prefix(c.n), Written(c), c.pc)
  }

  ghost function WriterStep(c: Writer, at: int, row: Option<string>): (Writer, Option<string>) {
    var (pc, left) := PrefixMove(CallOf(c), row);
    (c.(pc := pc), left)
  }

  /** `winners` lists the writers that succeeded, in the order they did. */
  datatype World = World(row: Option<string>, writers: map<nat, Writer>, winners: seq<nat>)

  ghost function Apply(w: World, p: nat, at: int): World
    requires p in w.writers
  {
    var (c', left) := WriterStep(w.writers[p], at, w.row);
    World(left, w.writers[p := c'], if c'.pc.Won? && !w.writers[p].pc.Won? then w.winners + [p] else w.winners)
  }

  ghost function Exec(w: World, h: seq<Stmt<string>>): World {
    if h == [] then w
    else
      var v, last := Exec(w, h[..|h| - 1]), h[|h| - 1];
      if last.pid in v.writers then Apply(v, last.pid, last.at) else v
  }

  /** The number a winner expected, and the one it wrote. */
  ghost function Base(w: World, i: int): nat
    requires 0 <= i < |w.winners| && w.winners[i] in w.writers
  {
    w.writers[w.winners[i]].n
  }

  ghost function Tip(w: World, i: int): nat
    requires 0 <= i < |w.winners| && w.winners[i] in w.writers
  {
    To(w.writers[w.winners[i]])
  }

  /** How many of the first i winners advance. */
  ghost function Advances(w: World, i: nat): nat
    requires i <= |w.winners|
  {
    if i == 0 then 0
    else Advances(w, i - 1) + if w.winners[i - 1] in w.writers && w.writers[w.winners[i - 1]].advance then 1 else 0
  }

  /** The row before any of the writers: missing, or `start|payload`. */
  ghost function First(start: Option<nat>, payload: string): Option<string> {
    if start.None? then None else Some(Prefix(start.value) + payload)
  }

  ghost predicate WinnersWon(w: World) {
    forall i | 0 <= i < |w.winners| :: w.winners[i] in w.writers && w.writers[w.winners[i]].pc.Won?
  }

  /** Winner i expected what its predecessor wrote. */
  ghost predicate Follows(w: World, i: nat)
    requires 0 < i < |w.winners| && WinnersWon(w)
  {
    Base(w, i) == Tip(w, i - 1)
  }

  ghost predicate Chain(w: World, start: Option<nat>, payload: string) {
    && WinnersWon(w)
    && (forall i | 0 < i < |w.winners| :: Follows(w, i))
    && (forall p | p in w.writers && w.writers[p].pc.Won? :: p in w.winners)
    && (if w.winners == [] then w.row == First(start, payload)
        else
          && w.row == Some(Written(w.writers[w.winners[|w.winners| - 1]]))
          && (start.Some? ==> Base(w, 0) == start.value))
  }

  lemma ApplyKeepsChain(w: World, p: nat, at: int, start: Option<nat>, payload: string)
    requires Chain(w, start, payload) && p in w.writers
    ensures Chain(Apply(w, p, at), start, payload)
  {
    var c, c' := w.writers[p], WriterStep(w.writers[p], at, w.row).0;
    assert c' == c.(pc := c'.pc);
    if c'.pc.Won? && !c.pc.Won? {
      WinExtends(w, p, at, start, payload);
      WinnerJoins(w, p, c', start, payload);
    } else {
      assert WriterStep(c, at, w.row).1 == w.row && (c.pc.Won? <==> c'.pc.Won?);
      OnlyMoves(w, p, c', start, payload);
    }
  }

  /** A writer that neither wins nor had won moves on. */
  lemma OnlyMoves(w: World, p: nat, c: Writer, start: Option<nat>, payload: string)
    requires Chain(w, start, payload) && p in w.writers
    requires c == w.writers[p].(pc := c.pc) && (c.pc.Won? <==> w.writers[p].pc.Won?)
    ensures Chain(World(w.row, w.writers[p := c], w.winners), start, payload)
  {
    var v := World(w.row, w.writers[p := c], w.winners);
    forall i | 0 <= i < |w.winners|
      ensures w.winners[i] in v.writers && Base(v, i) == Base(w, i) && Tip(v, i) == Tip(w, i) && v.writers[v.winners[i]].pc.Won?
    {
      assert w.winners[i] in w.writers;
    }
    forall i | 0 < i < |v.winners|
      ensures Follows(v, i)
    {
      assert Follows(w, i);
    }
  }

  lemma WinnerJoins(w: World, p: nat, c: Writer, start: Option<nat>, payload: string)
    requires Chain(w, start, payload) && p in w.writers && !w.writers[p].pc.Won? && c.pc.Won?
    requires if w.winners != [] then c.n == Tip(w, |w.winners| - 1) else start.Some? ==> c.n == start.value
    ensures Chain(World(Some(Written(c)), w.writers[p := c], w.winners + [p]), start, payload)
  {
    var v, n := World(Some(Written(c)), w.writers[p := c], w.winners + [p]), |w.winners|;
    forall i | 0 <= i < n
      ensures v.winners[i] == w.winners[i] && v.winners[i] in v.writers && v.writers[v.winners[i]].pc.Won?
      ensures Base(v, i) == Base(w, i) && Tip(v, i) == Tip(w, i)
    {
      assert w.winners[i] in w.writers;
    }
    assert v.winners[n] == p && Base(v, n) == c.n;
    forall i | 0 < i < |v.winners|
      ensures Follows(v, i)
    {
      assert i < n ==> Follows(w, i);
    }
    assert forall q | q in w.winners :: q in v.winners;
  }

  lemma WinExtends(w: World, p: nat, at: int, start: Option<nat>, payload: string)
    requires Chain(w, start, payload) && p in w.writers
    requires WriterStep(w.writers[p], at, w.row).0.pc.Won? && !w.writers[p].pc.Won?
    ensures if w.winners != [] then w.writers[p].n == Tip(w, |w.winners| - 1) else start.Some? ==> w.writers[p].n == start.value
    ensures WriterStep(w.writers[p], at, w.row).1 == Some(Written(w.writers[p]))
  {
    if w.winners != [] {
      var last := w.writers[w.winners[|w.winners| - 1]];
      PrefixesAreDisjoint(To(last), w.writers[p].n, last.payload);
    } else if start.Some? {
      PrefixesAreDisjoint(start.value, w.writers[p].n, payload);
    }
  }

  lemma {:induction false} RunKeepsChain(w: World, h: seq<Stmt<string>>, start: Option<nat>, payload: string)
    requires Chain(w, start, payload)
    ensures Chain(Exec(w, h), start, payload)
  {
    if h != [] {
      RunKeepsChain(w, h[..|h| - 1], start, payload);
      var v, last := Exec(w, h[..|h| - 1]), h[|h| - 1];
      if last.pid in v.writers {
        ApplyKeepsChain(v, last.pid, last.at, start, payload);
      }
    }
  }

  lemma {:induction false} TipsCountAdvances(w: World, start: Option<nat>, payload: string, i: nat)
    requires Chain(w, start, payload) && i < |w.winners|
    ensures Base(w, i) == Base(w, 0) + Advances(w, i) && Tip(w, i) == Base(w, 0) + Advances(w, i + 1)
  {
    if i > 0 {
      TipsCountAdvances(w, start, payload, i - 1);
      assert Follows(w, i);
    }
    assert w.winners[i] in w.writers;
  }

  lemma {:induction false} AdvancesGrow(w: World, i: nat, j: nat)
    requires i <= j <= |w.winners|
    ensures Advances(w, i) <= Advances(w, j)
    decreases j
  {
    if i < j {
      AdvancesGrow(w, i, j - 1);
    }
  }

  lemma NumbersDiffer(w: World, start: Option<nat>, payload: string, i: nat, j: nat)
    requires Chain(w, start, payload) && i < j < |w.winners| && w.writers[w.winners[i]].advance
    ensures Base(w, i) < Base(w, j)
  {
    TipsCountAdvances(w, start, payload, i);
    TipsCountAdvances(w, start, payload, j);
    AdvancesGrow(w, i + 1, j);
  }

  /** Without deletes the row's number rises by exactly one with each winning
      advance write, and a winning maintenance write keeps it: each winner
      expects what its predecessor wrote (the first one the row it found, or a
      missing row, which is seeded once), the row holds the last winner's, and
      no two advance writes ever win for the same number. */
  lemma ChainGrowsByOne(w: World, h: seq<Stmt<string>>, start: Option<nat>, payload: string)
    requires w.row == First(start, payload) && w.winners == [] && forall p | p in w.writers :: w.writers[p].pc == Update(0)
    ensures var v := Exec(w, h);
      && Chain(v, start, payload)
      && (forall i | 0 <= i < |v.winners| :: Tip(v, i) == Base(v, 0) + Advances(v, i + 1))
      && (forall p, q | p in v.writers && q in v.writers && p != q && v.writers[p].pc.Won? && v.writers[q].pc.Won?
            && v.writers[p].advance && v.writers[q].advance :: v.writers[p].n != v.writers[q].n)
  {
    RunKeepsChain(w, h, start, payload);
    var v := Exec(w, h);
    forall i | 0 <= i < |v.winners|
      ensures Tip(v, i) == Base(v, 0) + Advances(v, i + 1)
    {
      TipsCountAdvances(v, start, payload, i);
    }
    forall p, q | p in v.writers && q in v.writers && p != q && v.writers[p].pc.Won? && v.writers[q].pc.Won?
      && v.writers[p].advance && v.writers[q].advance
      ensures v.writers[p].n != v.writers[q].n
    {
      var i :| 0 <= i < |v.winners| && v.winners[i] == p;
      var j :| 0 <= j < |v.winners| && v.winners[j] == q;
      if i < j {
        NumbersDiffer(v, start, payload, i, j);
      } else {
        NumbersDiffer(v, start, payload, j, i);
      }
    }
  }

  /** The code makes runs: a history to which every writer contributes what
      swap_prefixed plays leaves the row, and each writer, where Exec does. */
  lemma {:induction false} HistoryIsRun(w: World, h: seq<Stmt<string>>, c0: int, row: Option<string>, c1: int)
    requires Linked(w.row, c0, h, row, c1) && Contributes(WriterStep, w.writers, h)
    ensures Exec(w, h).row == row && Exec(w, h).writers == Standing(WriterStep, w.writers, h)
  {
    if h == [] {
      assert Standing(WriterStep, w.writers, h) == w.writers;
    } else {
      var rest, last := h[..|h| - 1], h[|h| - 1];
      StandingLast(WriterStep, w.writers, h);
      HistoryIsRun(w, rest, c0, last.before, last.at);
    }
  }

  /** ... and swap_prefixed, called as the chain calls it, plays a writer. */
  lemma {:induction false} WriterPlaysSwap(c: Writer, own: seq<Stmt<string>>)
    requires Plays(PrefixStep, CallOf(c), own)
    ensures Plays(WriterStep, c, own)
    ensures CallOf(Play(WriterStep, c, own)) == Play(PrefixStep, CallOf(c), own)
  {
    if own != [] {
      WriterPlaysSwap(c, own[..|own| - 1]);
    }
  }
}
