/** WP_Sync_Atomic_Option on the built-in options row: a compare-and-swap put
    together from UPDATE, SELECT and INSERT IGNORE, under any interference. */
module AtomicOption {
  import opened OptionsTable

  /** Where a swap() call stands. `k` counts its two rounds; Won and Lost are the
      instant it returns, Returned is any later one. */
  datatype SwapPc = Update(k: nat) | Reread(k: nat) | Seed(k: nat) | Won | Lost | Returned

  datatype SwapCall<V> = SwapCall(pc: SwapPc, expected: V, next: V)

  /** The statement a call at `pc` runs on the row it meets. */
  ghost function SwapMove<V>(pc: SwapPc, expected: V, next: V, row: Option<V>): (SwapPc, Option<V>) {
    match pc
    case Update(k) =>
      if row == Some(expected) && expected != next then (Won, Some(next)) else (Reread(k), row)
    case Reread(k) =>
      if row.Some? then (Lost, row) else (Seed(k), row)
    case Seed(k) =>
      (if k < 1 then Update(k + 1) else Lost, if row.None? then Some(expected) else row)
    case _ => (Returned, row)
  }

  ghost function SwapStep<V>(c: SwapCall<V>, at: int, row: Option<V>): (SwapCall<V>, Option<V>) {
    var (pc, left) := SwapMove(c.pc, c.expected, c.next, row);
    (c.(pc := pc), left)
  }

  ghost function SwapStart<V>(expected: V, next: V): SwapCall<V> {
    SwapCall(Update(0), expected, next)
  }

  /** The swap itself: its own statements, `mine`, are those of the machine on
      the row values it met. */
  method Swap<V(==)>(row: OptionsRow<V>, ghost me: nat, expected: V, next: V)
    returns (ok: bool, ghost mine: seq<Stmt<V>>)
    requires row.Valid()
    modifies row
    ensures row.Valid() && old(row.clock) <= row.clock
    ensures Own(row.history, me) == old(Own(row.history, me)) + mine
    ensures Plays(SwapStep, SwapStart(expected, next), mine)
    ensures Play(SwapStep, SwapStart(expected, next), mine).pc == if ok then Won else Lost
  {
    var call := SwapCall(Update(0), expected, next);
    ghost var base := Own(row.history, me);
    mine := [];
    var attempt := 0;
    while attempt < 2
      invariant 0 <= attempt <= 2
      invariant row.Valid() && old(row.clock) <= row.clock
      invariant Own(row.history, me) == base + mine
      invariant Plays(SwapStep, call, mine)
      invariant Play(SwapStep, call, mine) == call.(pc := if attempt < 2 then Update(attempt) else Lost)
    {
      var done;
      done, ok, mine := Attempt(row, me, call, base, mine, attempt);
      if done {
        return ok, mine;
      }
      attempt := attempt + 1;
    }
    return false, mine;
  }

  /** One attempt: the UPDATE, and if it changed nothing, the look at the row. */
  method Attempt<V(==)>(row: OptionsRow<V>, ghost me: nat, call: SwapCall<V>, ghost base: seq<Stmt<V>>,
                        ghost before: seq<Stmt<V>>, ghost k: nat)
    returns (done: bool, ok: bool, ghost mine: seq<Stmt<V>>)
    requires row.Valid() && Own(row.history, me) == base + before
    requires Plays(SwapStep, call, before) && Play(SwapStep, call, before) == call.(pc := Update(k))
    modifies row
    ensures row.Valid() && old(row.clock) <= row.clock && Own(row.history, me) == base + mine
    ensures Plays(SwapStep, call, mine)
    ensures Play(SwapStep, call, mine) == call.(pc := if done && ok then Won else if done || k >= 1 then Lost else Update(k + 1))
  {
    row.Others(me);
    ok := row.Update(me, call.expected, call.next);
    mine := Played(SwapStep, call, base, before, row.last);
    if ok {
      return true, true, mine;
    }
    done, mine := SeedIfMissing(row, me, call, base, mine, k);
  }

  /** After a failed UPDATE: is there a row at all? If not, seed it. */
  method SeedIfMissing<V(==)>(row: OptionsRow<V>, ghost me: nat, call: SwapCall<V>, ghost base: seq<Stmt<V>>,
                              ghost before: seq<Stmt<V>>, ghost k: nat)
    returns (found: bool, ghost mine: seq<Stmt<V>>)
    requires row.Valid() && Own(row.history, me) == base + before
    requires Plays(SwapStep, call, before) && Play(SwapStep, call, before) == call.(pc := Reread(k))
    modifies row
    ensures row.Valid() && old(row.clock) <= row.clock && Own(row.history, me) == base + mine
    ensures Plays(SwapStep, call, mine)
    ensures Play(SwapStep, call, mine) == call.(pc := if found || k >= 1 then Lost else Update(k + 1))
  {
    row.Others(me);
    var current := row.Select(me);
    mine := Played(SwapStep, call, base, before, row.last);
    found := current.Some?;
    if !found {
      row.Others(me);
      var _ := row.InsertIgnore(me, call.expected);
      mine := Played(SwapStep, call, base, mine, row.last);
    }
  }

  /** reset(): delete, then seed. */
  method Reset<V(==)>(row: OptionsRow<V>, ghost me: nat, v: V) returns (ghost mine: seq<Stmt<V>>)
    requires row.Valid()
    modifies row
    ensures row.Valid()
    ensures Own(row.history, me) == old(Own(row.history, me)) + mine
    ensures Plays(ResetStep, ResetCall(Clear, v), mine)
    ensures Play(ResetStep, ResetCall(Clear, v), mine) == ResetCall(Finished, v)
  {
    ghost var base := Own(row.history, me);
    row.Others(me);
    row.Delete(me, None);
    mine := Played(ResetStep, ResetCall(Clear, v), base, [], row.last);
    row.Others(me);
    var _ := row.InsertIgnore(me, v);
    mine := Played(ResetStep, ResetCall(Clear, v), base, mine, row.last);
  }

  /** One more statement of a machine's run; `base` is whatever went before it. */
  ghost function Played<P, V>(step: Machine<P, V>, p: P, base: seq<Stmt<V>>, own: seq<Stmt<V>>, st: Stmt<V>): (r: seq<Stmt<V>>)
    requires Plays(step, p, own)
    requires st.after == step(Play(step, p, own), st.at, st.before).1
    ensures r == own + [st] && base + own + [st] == base + r
    ensures Plays(step, p, r)
    ensures Play(step, p, r) == step(Play(step, p, own), st.at, st.before).0
  {
    assert (own + [st])[..|own + [st]| - 1] == own;
    own + [st]
  }

  // ---- What a result means, whatever the interference ----

  ghost predicate Installs<V>(st: Stmt<V>, expected: V, next: V) {
    st.before == Some(expected) && st.after == Some(next)
  }

  /** A statement that leaves the row alone or seeds a missing one. */
  ghost predicate Harmless<V>(st: Stmt<V>, expected: V) {
    st.after == st.before || (st.before == None && st.after == Some(expected))
  }

  ghost predicate AllHarmless<V>(own: seq<Stmt<V>>, expected: V) {
    forall i | 0 <= i < |own| :: Harmless(own[i], expected)
  }

  /** A swap that is not yet won has done nothing but, perhaps, seed; a won one
      has taken the row from `expected` to `next` at exactly one instant, its
      last. */
  lemma {:induction false} SwapEffect<V>(expected: V, next: V, own: seq<Stmt<V>>)
    requires Plays(SwapStep, SwapStart(expected, next), own)
    ensures Play(SwapStep, SwapStart(expected, next), own).expected == expected
    ensures Play(SwapStep, SwapStart(expected, next), own).next == next
    ensures match Play(SwapStep, SwapStart(expected, next), own).pc
      case Won =>
        && expected != next && own != []
        && Installs(own[|own| - 1], expected, next) && AllHarmless(own[..|own| - 1], expected)
      case Returned => true
      case _ => AllHarmless(own, expected)
  {
    if own != [] {
      var rest := own[..|own| - 1];
      SwapEffect(expected, next, rest);
      var pc := Play(SwapStep, SwapStart(expected, next), own).pc;
      if !pc.Won? && !pc.Returned? {
        forall i | 0 <= i < |own|
          ensures Harmless(own[i], expected)
        {
          if i < |rest| {
            assert own[i] == rest[i];
          }
        }
      }
    }
  }

  /** Nobody else changes the row. */
  ghost predicate Quiet<V>(h: seq<Stmt<V>>, me: nat) {
    forall i | 0 <= i < |h| && h[i].pid != me :: h[i].before == h[i].after
  }

  lemma {:induction false} QuietIsOwn<V>(v0: Option<V>, c0: int, h: seq<Stmt<V>>, v1: Option<V>, c1: int, me: nat)
    requires Linked(v0, c0, h, v1, c1) && Quiet(h, me)
    ensures Linked(v0, c0, Own(h, me), v1, c1)
  {
    if h != [] {
      var rest, last := h[..|h| - 1], h[|h| - 1];
      assert Quiet(rest, me) by {
        forall i | 0 <= i < |rest| && rest[i].pid != me
          ensures rest[i].before == rest[i].after
        {
          assert rest[i] == h[i];
        }
      }
      QuietIsOwn(v0, c0, rest, last.before, last.at, me);
      if last.pid == me {
        var own := Own(h, me);
        assert own[..|own| - 1] == Own(rest, me) && own[|own| - 1] == last;
      } else {
        assert Own(h, me) == Own(rest, me);
        LinkedLater(v0, c0, Own(rest, me), v1, last.at, c1);
      }
    }
  }

  /** With nobody in the way the call is the atomic operation it stands for: it
      wins exactly when the row is missing or holds `expected` and `next` is
      another value, and then installs `next`; otherwise the row is as it was,
      but for the seed of a missing row that was to be swapped for the same. */
  lemma {:induction false} SwapAlone<V>(expected: V, next: V, own: seq<Stmt<V>>, v0: Option<V>, c0: int, v1: Option<V>, c1: int)
    requires Plays(SwapStep, SwapStart(expected, next), own) && Linked(v0, c0, own, v1, c1)
    ensures match Play(SwapStep, SwapStart(expected, next), own).pc
      case Update(k) => if k == 0 then v1 == v0 else v0 == None && v1 == Some(expected)
      case Reread(k) =>
        if k == 0 then v1 == v0 && (expected == next || v0 != Some(expected)) else expected == next && v0 == None && v1 == Some(expected)
      case Seed(k) => k == 0 && v1 == v0 == None
      case Won => expected != next && v1 == Some(next) && (v0 == None || v0 == Some(expected))
      case Lost => if v0 == None then expected == next && v1 == Some(expected) else v1 == v0 && (expected == next || v0 != Some(expected))
      case Returned => true
  {
    if own != [] {
      var last := own[|own| - 1];
      SwapAlone(expected, next, own[..|own| - 1], v0, c0, last.before, last.at);
      SwapEffect(expected, next, own[..|own| - 1]);
    }
  }

  /** Another process created the row with `expected` in it, or deleted it. */
  ghost predicate CreatesOrDeletes<V>(st: Stmt<V>, me: nat, expected: V) {
    && st.pid != me
    && (|| (st.before == None && st.after == Some(expected))
        || (st.before == Some(expected) && st.after == None))
  }

  lemma {:induction false} Neighbours<V>(v0: Option<V>, c0: int, h: seq<Stmt<V>>, v1: Option<V>, c1: int, i: nat)
    requires Linked(v0, c0, h, v1, c1) && i + 1 < |h|
    ensures h[i].after == h[i + 1].before && h[i].at <= h[i + 1].at
    decreases |h|
  {
    var rest, last := h[..|h| - 1], h[|h| - 1];
    if i + 1 < |rest| {
      Neighbours(v0, c0, rest, last.before, last.at, i);
    }
  }

  /** "Lost the race" is almost never a lie: between the start of a lost call
      and its last statement, either the row really held another value, or
      some other process created or deleted the row under it. */
  lemma LossHasACause<V>(expected: V, next: V, me: nat, h: seq<Stmt<V>>, v0: Option<V>, c0: int, v1: Option<V>, c1: int)
    requires expected != next
    requires Linked(v0, c0, h, v1, c1) && h != [] && h[|h| - 1].pid == me
    requires Plays(SwapStep, SwapStart(expected, next), Own(h, me))
    requires Play(SwapStep, SwapStart(expected, next), Own(h, me)).pc.Lost?
    ensures (exists i | 0 <= i < |h| :: h[i].before.Some? && h[i].before.value != expected)
         || (exists i | 0 <= i < |h| :: CreatesOrDeletes(h[i], me, expected))
  {
    if (forall i | 0 <= i < |h| :: h[i].before == None || h[i].before == Some(expected))
      && (forall i | 0 <= i < |h| :: !CreatesOrDeletes(h[i], me, expected)) {
      forall i | 0 <= i < |h| && h[i].pid != me
        ensures h[i].before == h[i].after
      {
        Neighbours(v0, c0, h, v1, c1, i);
      }
      QuietIsOwn(v0, c0, h, v1, c1, me);
      SwapAlone(expected, next, Own(h, me), v0, c0, v1, c1);
      FirstMet(v0, c0, h, v1, c1);
      assert false;
    }
  }

  lemma {:induction false} FirstMet<V>(v0: Option<V>, c0: int, h: seq<Stmt<V>>, v1: Option<V>, c1: int)
    requires Linked(v0, c0, h, v1, c1) && h != []
    ensures h[0].before == v0
    decreases |h|
  {
    var rest, last := h[..|h| - 1], h[|h| - 1];
    if rest != [] {
      FirstMet(v0, c0, rest, last.before, last.at);
    }
  }

  /** The statements since u are of other processes, the last one apart. */
  ghost predicate Between<V>(h: seq<Stmt<V>>, u: nat, me: nat) {
    u < |h| - 1 && h[u].pid == me && forall k | u < k < |h| - 1 :: h[k].pid != me
  }

  lemma {:induction false} OwnSkips<V>(h: seq<Stmt<V>>, u: nat, n: nat, me: nat)
    requires u < n <= |h| && forall k | u < k < n :: h[k].pid != me
    ensures Own(h[..n], me) == Own(h[..u + 1], me)
    decreases n
  {
    if n > u + 1 {
      assert h[..n][..n - 1] == h[..n - 1];
      OwnSkips(h, u, n - 1, me);
    }
  }

  /** The last two statements of a process. */
  lemma LastTwo<V>(h: seq<Stmt<V>>, u: nat, me: nat)
    requires Between(h, u, me) && h[|h| - 1].pid == me
    ensures Own(h, me) == Own(h[..u], me) + [h[u]] + [h[|h| - 1]]
  {
    OwnSkips(h, u, |h| - 1, me);
    assert h[..u + 1][..u] == h[..u];
  }

  /** Statement j put `expected` into the row, and there it stayed. */
  ghost predicate PutsBack<V>(h: seq<Stmt<V>>, j: nat, expected: V) {
    && j < |h| - 1 && h[j].before != Some(expected)
    && forall k | j <= k < |h| - 1 :: h[k].after == Some(expected)
  }

  lemma LastPut<V>(v0: Option<V>, c0: int, h: seq<Stmt<V>>, v1: Option<V>, c1: int, u: nat, m: nat, expected: V) returns (j: nat)
    requires Linked(v0, c0, h, v1, c1) && u <= m < |h| && h[u].after != Some(expected) && h[m].after == Some(expected)
    ensures u < j <= m && h[j].before != Some(expected) && forall k | j <= k <= m :: h[k].after == Some(expected)
    decreases m
  {
    j := m;
    if h[m].before == Some(expected) {
      Neighbours(v0, c0, h, v1, c1, m - 1);
      j := LastPut(v0, c0, h, v1, c1, u, m - 1, expected);
    }
  }

  ghost function CallAt<V>(expected: V, next: V, own: seq<Stmt<V>>): SwapPc {
    Play(SwapStep, SwapStart(expected, next), own).pc
  }

  /** A call that loses at the read after its failed UPDATE, statement u of the
      history, may find the very value it expected there: if and only if another
      process has put it there since that UPDATE. */
  lemma EarlyLossExactly<V>(expected: V, next: V, me: nat, h: seq<Stmt<V>>, v0: Option<V>, c0: int, v1: Option<V>, c1: int, u: nat)
    requires expected != next && Linked(v0, c0, h, v1, c1)
    requires Between(h, u, me) && h[|h| - 1].pid == me && Plays(SwapStep, SwapStart(expected, next), Own(h, me))
    requires CallAt(expected, next, Own(h[..u], me)).Update? && CallAt(expected, next, Own(h, me)).Lost?
    ensures h[|h| - 1].before == Some(expected) <==> exists j :: u < j && PutsBack(h, j, expected)
  {
    var n := |h| - 1;
    UpdateMissed(expected, next, me, h, u);
    Neighbours(v0, c0, h, v1, c1, n - 1);
    if h[n].before == Some(expected) {
      var j := LastPut(v0, c0, h, v1, c1, u, n - 1, expected);
      assert PutsBack(h, j, expected);
    }
  }

  /** The UPDATE before a losing read did not find what it expected. */
  lemma UpdateMissed<V>(expected: V, next: V, me: nat, h: seq<Stmt<V>>, u: nat)
    requires expected != next && Between(h, u, me) && h[|h| - 1].pid == me
    requires Plays(SwapStep, SwapStart(expected, next), Own(h, me))
    requires CallAt(expected, next, Own(h[..u], me)).Update? && CallAt(expected, next, Own(h, me)).Lost?
    ensures h[u].after == h[u].before != Some(expected)
  {
    var front := Own(h[..u], me);
    LastTwo(h, u, me);
    var own, two := Own(h, me), front + [h[u]];
    assert own[..|own| - 1] == two && two[..|two| - 1] == front;
    SwapEffect(expected, next, front);
  }

  ghost predicate Deletes<V>(st: Stmt<V>, me: nat) {
    st.pid != me && st.before.Some? && st.after == None
  }

  /** A call about to lose at its last seed had the row deleted under it. */
  lemma LateLossHasADeletion<V>(expected: V, next: V, me: nat, h: seq<Stmt<V>>, v0: Option<V>, c0: int, v1: Option<V>, c1: int)
    requires Linked(v0, c0, h, v1, c1) && Plays(SwapStep, SwapStart(expected, next), Own(h, me))
    requires CallAt(expected, next, Own(h, me)) == Seed(1)
    ensures exists j | 0 <= j < |h| :: Deletes(h[j], me)
  {
    if forall j | 0 <= j < |h| :: !Deletes(h[j], me) {
      Seeded(expected, next, me, h, v0, c0, v1, c1);
    }
  }

  /** The call has seeded once. */
  ghost predicate HasSeeded(pc: SwapPc) {
    pc == Update(1) || pc == Reread(1) || pc == Seed(1)
  }

  /** From its first seed on the row is there, unless another process deletes it. */
  lemma {:induction false} Seeded<V>(expected: V, next: V, me: nat, h: seq<Stmt<V>>, v0: Option<V>, c0: int, v1: Option<V>, c1: int)
    requires Linked(v0, c0, h, v1, c1) && Plays(SwapStep, SwapStart(expected, next), Own(h, me))
    requires forall j | 0 <= j < |h| :: !Deletes(h[j], me)
    ensures var pc := CallAt(expected, next, Own(h, me)); HasSeeded(pc) ==> v1.Some? && !pc.Seed?
  {
    if h != [] {
      var rest, last := h[..|h| - 1], h[|h| - 1];
      assert forall j | 0 <= j < |rest| :: rest[j] == h[j];
      LastInstant(SwapStep, SwapStart(expected, next), h, me);
      Seeded(expected, next, me, rest, v0, c0, last.before, last.at);
      SwapEffect(expected, next, Own(rest, me));
    }
  }

  /** Losing without any other value in the row does happen, so "row exists with
      a different value" is not an invariant. First way: process 2, on its own
      swap, seeds the row between process 1's failed UPDATE and its read. */
  lemma LostToCreation<V>(expected: V, next: V, u1: Stmt<V>, u2: Stmt<V>, s2: Stmt<V>, r1: Stmt<V>) returns (h: seq<Stmt<V>>)
    requires expected != next
    requires u1 == Stmt(1, 0, None, None) && r1 == Stmt(1, 0, Some(expected), Some(expected))
    requires u2 == Stmt(2, 0, None, None) && s2 == Stmt(2, 0, None, Some(expected))
    ensures h == [u1, u2, u2, s2, r1] && Linked(None, 0, h, Some(expected), 0)
    ensures Plays(SwapStep, SwapStart(expected, next), Own(h, 1)) && CallAt(expected, next, Own(h, 1)).Lost?
    ensures Plays(SwapStep, SwapStart(expected, next), Own(h, 2))
    ensures forall i | 0 <= i < |h| :: h[i].before == None || h[i].before == Some(expected)
  {
    h := [];
    Extended(None, 0, h, None, 0, u1);
    h := h + [u1];
    Extended(None, 0, h, None, 0, u2);
    h := h + [u2];
    Extended(None, 0, h, None, 0, u2);
    h := h + [u2];
    Extended(None, 0, h, None, 0, s2);
    h := h + [s2];
    Extended(None, 0, h, Some(expected), 0, r1);
    h := h + [r1];
    LosesWithoutARow(expected, next, u1, r1);
    SeedsARow(expected, next, u2, s2);
    assert Own(h, 1) == [u1, r1] && Own(h, 2) == [u2, u2, s2];
  }

  lemma LosesWithoutARow<V>(expected: V, next: V, u: Stmt<V>, r: Stmt<V>)
    requires u == Stmt(1, 0, None, None) && r == Stmt(1, 0, Some(expected), Some(expected))
    ensures Plays(SwapStep, SwapStart(expected, next), [u, r]) && CallAt(expected, next, [u, r]).Lost?
  {
    var m := Played(SwapStep, SwapStart(expected, next), [], [], u);
    m := Played(SwapStep, SwapStart(expected, next), [], m, r);
    assert m == [u, r];
  }

  /** A missing row is met twice and then seeded. */
  lemma SeedsARow<V>(expected: V, next: V, u: Stmt<V>, s: Stmt<V>)
    requires u.before == u.after == s.before == None && s.after == Some(expected)
    ensures Plays(SwapStep, SwapStart(expected, next), [u, u, s]) && CallAt(expected, next, [u, u, s]) == Update(1)
    ensures Play(SwapStep, SwapStart(expected, next), [u, u, s]) == SwapCall(Update(1), expected, next)
  {
    var m := Played(SwapStep, SwapStart(expected, next), [], [], u);
    m := Played(SwapStep, SwapStart(expected, next), [], m, u);
    m := Played(SwapStep, SwapStart(expected, next), [], m, s);
    assert m == [u, u, s];
  }

  /** Second way: the row is deleted after the call's own first seed. */
  lemma LostToDeletion<V>(expected: V, next: V, u: Stmt<V>, s: Stmt<V>, d: Stmt<V>) returns (h: seq<Stmt<V>>)
    requires expected != next
    requires u == Stmt(1, 0, None, None) && s == Stmt(1, 0, None, Some(expected)) && d == Stmt(2, 0, Some(expected), None)
    ensures h == [u, u, s, d, u, u, s] && Linked(None, 0, h, Some(expected), 0)
    ensures Plays(SwapStep, SwapStart(expected, next), Own(h, 1)) && CallAt(expected, next, Own(h, 1)).Lost?
    ensures forall i | 0 <= i < |h| :: h[i].before == None || h[i].before == Some(expected)
  {
    h := [];
    Extended(None, 0, h, None, 0, u);
    h := h + [u];
    Extended(None, 0, h, None, 0, u);
    h := h + [u];
    Extended(None, 0, h, None, 0, s);
    h := h + [s];
    Extended(None, 0, h, Some(expected), 0, d);
    h := h + [d];
    Extended(None, 0, h, None, 0, u);
    h := h + [u];
    Extended(None, 0, h, None, 0, u);
    h := h + [u];
    Extended(None, 0, h, None, 0, s);
    h := h + [s];
    SeedsTwice(expected, next, u, s);
    assert Own(h, 1) == [u, u, s, u, u, s];
  }

  lemma SeedsTwice<V>(expected: V, next: V, u: Stmt<V>, s: Stmt<V>)
    requires u.before == u.after == s.before == None && s.after == Some(expected)
    ensures Plays(SwapStep, SwapStart(expected, next), [u, u, s, u, u, s]) && CallAt(expected, next, [u, u, s, u, u, s]).Lost?
  {
    SeedsARow(expected, next, u, s);
    var m := Played(SwapStep, SwapStart(expected, next), [], [u, u, s], u);
    m := Played(SwapStep, SwapStart(expected, next), [], m, u);
    m := Played(SwapStep, SwapStart(expected, next), [], m, s);
    assert m == [u, u, s, u, u, s];
  }

  // ---- Racing re-seeders ----

  datatype ResetPc = Clear | Insert | Finished

  datatype ResetCall<V> = ResetCall(pc: ResetPc, value: V)

  ghost function ResetStep<V>(c: ResetCall<V>, at: int, row: Option<V>): (ResetCall<V>, Option<V>) {
    match c.pc
    case Clear => (c.(pc := Insert), None)
    case Insert => (c.(pc := Finished), if row.None? then Some(c.value) else row)
    case Finished => (c, row)
  }

  /** The row holds the value; or it is missing while some process is between its
      delete and its insert; or nobody has begun. */
  ghost predicate Reseeded<V>(v: V, v0: Option<V>, v1: Option<V>, h: seq<Stmt<V>>) {
    v1 == Some(v)
    || (v1 == None && exists p: nat :: Play(ResetStep, ResetCall(Clear, v), Own(h, p)).pc.Insert?)
    || (v1 == v0 && forall p: nat :: Own(h, p) == [])
  }

  /** Any number of processes re-seed the row with the same value, in any
      order, and at least one of them has begun: once nobody is between its
      delete and its insert, the row holds that value. */
  lemma {:induction false} ResetsAreIdempotent<V>(v: V, v0: Option<V>, c0: int, h: seq<Stmt<V>>, v1: Option<V>, c1: int)
    requires Linked(v0, c0, h, v1, c1)
    requires forall p: nat :: Plays(ResetStep, ResetCall(Clear, v), Own(h, p))
    ensures Reseeded(v, v0, v1, h)
  {
    if h != [] {
      var rest, last := h[..|h| - 1], h[|h| - 1];
      forall p: nat
        ensures Plays(ResetStep, ResetCall(Clear, v), Own(rest, p))
      {
        LastInstant(ResetStep, ResetCall(Clear, v), h, p);
      }
      ResetsAreIdempotent(v, v0, c0, rest, last.before, last.at);
      ResetStatement(v, v0, h);
    }
  }

  lemma ResetStatement<V>(v: V, v0: Option<V>, h: seq<Stmt<V>>)
    requires h != [] && forall p: nat :: Plays(ResetStep, ResetCall(Clear, v), Own(h, p))
    requires Reseeded(v, v0, h[|h| - 1].before, h[..|h| - 1])
    ensures Reseeded(v, v0, h[|h| - 1].after, h)
  {
    var rest, last, start := h[..|h| - 1], h[|h| - 1], ResetCall(Clear, v);
    var q := last.pid;
    var c := Play(ResetStep, start, Own(rest, q));
    LastInstant(ResetStep, start, h, q);
    ResetKeepsValue(v, Own(rest, q));
    match c.pc
    case Clear =>
      assert Play(ResetStep, start, Own(h, q)).pc.Insert?;
    case Insert =>
    case Finished =>
      if last.before == None {
        if p: nat :| Play(ResetStep, start, Own(rest, p)).pc.Insert? {
          LastInstant(ResetStep, start, h, p);
        }
      }
  }

  lemma {:induction false} ResetKeepsValue<V>(v: V, own: seq<Stmt<V>>)
    ensures Play(ResetStep, ResetCall(Clear, v), own).value == v
  {
    if own != [] {
      ResetKeepsValue(v, own[..|own| - 1]);
    }
  }
}
