/** How long acquire() waits: it is told that the room is busy no earlier than its
    deadline, and until then it keeps trying. */
module RoomLockWaits {
  import opened OptionsTable
  import opened AtomicOption
  import opened RoomLock

  ghost predicate InTime<V>(own: seq<Stmt<V>>) {
    forall i, j | 0 <= i <= j < |own| :: own[i].at <= own[j].at
  }

  lemma {:induction false} OwnInTime<V>(v0: Option<V>, c0: int, h: seq<Stmt<V>>, v1: Option<V>, c1: int, me: nat)
    requires Linked(v0, c0, h, v1, c1)
    ensures InTime(Own(h, me)) && forall i | 0 <= i < |Own(h, me)| :: Own(h, me)[i].at <= c1
  {
    if h != [] {
      var rest, last := h[..|h| - 1], h[|h| - 1];
      OwnInTime(v0, c0, rest, last.before, last.at, me);
    }
  }

  /** The call minted its token at its first statement, and set its deadline at
      its second. */
  ghost predicate Minted(own: seq<Stmt<Token>>, id: nat, wait: nat, tok: Token, deadline: int) {
    |own| >= 2 && tok == Token(own[0].at, id) && deadline == own[1].at + wait
  }

  /** The claim that opened this pass of the loop met a row. */
  ghost predicate MetARow(own: seq<Stmt<Token>>) {
    exists i | 2 <= i < |own| :: own[i].before.Some?
  }

  /** What a call's own statements say about where it stands. */
  ghost predicate Stands(own: seq<Stmt<Token>>, id: nat, wait: nat, pc: LockPc) {
    match pc
    case Stamp => own == []
    case Budget(tok) => |own| == 1 && tok == Token(own[0].at, id)
    case Claim(tok, deadline) => Minted(own, id, wait, tok, deadline)
    case Probe(tok, deadline) => Minted(own, id, wait, tok, deadline) && MetARow(own)
    case Judge(tok, deadline, _) => Minted(own, id, wait, tok, deadline) && MetARow(own)
    case TakeOver(tok, deadline, existing) =>
      Minted(own, id, wait, tok, deadline) && MetARow(own) && own[|own| - 1].at - existing.stamp > 30_000_000
    case Check(tok, deadline) => Minted(own, id, wait, tok, deadline) && MetARow(own)
    case Holding(tok) => |own| >= 2 && tok == Token(own[0].at, id)
    case Busy => |own| >= 2 && own[|own| - 1].at >= own[1].at + wait && MetARow(own)
    case Released(_) => true
  }

  lemma {:induction false} CallStands(id: nat, wait: nat, own: seq<Stmt<Token>>)
    requires Plays(LockStep, LockCall(id, wait, Stamp), own) && InTime(own)
    ensures Play(LockStep, LockCall(id, wait, Stamp), own).id == id && Play(LockStep, LockCall(id, wait, Stamp), own).wait == wait
    ensures Stands(own, id, wait, Play(LockStep, LockCall(id, wait, Stamp), own).pc)
  {
    if own != [] {
      var n := |own| - 1;
      assert forall i | 0 <= i < n :: own[i] == own[..n][i];
      CallStands(id, wait, own[..n]);
    }
  }

  /** A call told that the room is busy has waited for all of its budget, and has
      found the row there. */
  lemma BusyIsLate(id: nat, wait: nat, me: nat, h: seq<Stmt<Token>>, v0: Option<Token>, c0: int, v1: Option<Token>, c1: int)
    requires Linked(v0, c0, h, v1, c1) && Plays(LockStep, LockCall(id, wait, Stamp), Own(h, me))
    requires Play(LockStep, LockCall(id, wait, Stamp), Own(h, me)).pc.Busy?
    ensures var own := Own(h, me);
      |own| >= 3 && c1 >= own[|own| - 1].at >= own[1].at + wait && exists i | 2 <= i < |own| :: own[i].before.Some?
  {
    OwnInTime(v0, c0, h, v1, c1, me);
    CallStands(id, wait, Own(h, me));
  }

  /** Until its deadline a call that has neither the lock nor given it back keeps
      trying: at the end of a pass it begins another exactly if its clock reading
      is before the deadline, and a claim that meets the row missing holds it,
      under the call's own token. */
  lemma TriesUntilDeadline(id: nat, wait: nat, own: seq<Stmt<Token>>, st: Stmt<Token>)
    requires Plays(LockStep, LockCall(id, wait, Stamp), own) && InTime(own + [st])
    requires Plays(LockStep, LockCall(id, wait, Stamp), own + [st])
    ensures var pc, pc' := Play(LockStep, LockCall(id, wait, Stamp), own).pc, Play(LockStep, LockCall(id, wait, Stamp), own + [st]).pc;
      && (|own| >= 2 && st.at < own[1].at + wait ==> !pc'.Busy?)
      && (pc.Check? ==> |own| >= 2 && (if st.at < own[1].at + wait then pc'.Claim? else pc'.Busy?) && st.after == st.before)
      && (pc.Claim? && st.before == None ==>
            pc' == Holding(Token(own[0].at, id)) && st.after == Some(Token(own[0].at, id)))
      && (pc'.Busy? ==> pc.Busy? || pc.Check?)
  {
    var all, c := own + [st], Play(LockStep, LockCall(id, wait, Stamp), own);
    assert all[..|all| - 1] == own;
    InTimeFront(own, st);
    CallStands(id, wait, own);
    StandsToStep(own, id, wait, c, st.at, st.before);
  }

  lemma InTimeFront<V>(own: seq<Stmt<V>>, st: Stmt<V>)
    requires InTime(own + [st])
    ensures InTime(own) && (own != [] ==> own[|own| - 1].at <= st.at)
  {
    var all := own + [st];
    assert all[|own|] == st && forall i | 0 <= i < |own| :: all[i] == own[i];
    if own != [] {
      assert all[|own| - 1].at <= all[|own|].at;
    }
  }

  /** One statement of a call whose last one was no later. */
  lemma StandsToStep(own: seq<Stmt<Token>>, id: nat, wait: nat, c: LockCall, at: int, row: Option<Token>)
    requires Stands(own, id, wait, c.pc) && c.id == id && c.wait == wait && (own != [] ==> own[|own| - 1].at <= at)
    ensures var (c', left) := LockStep(c, at, row);
      && (|own| >= 2 && at < own[1].at + wait ==> !c'.pc.Busy?)
      && (c.pc.Check? ==> |own| >= 2 && (if at < own[1].at + wait then c'.pc.Claim? else c'.pc.Busy?) && left == row)
      && (c.pc.Claim? && row == None ==> |own| >= 2 && c'.pc == Holding(Token(own[0].at, id)) && left == Some(Token(own[0].at, id)))
      && (c'.pc.Busy? ==> c.pc.Busy? || c.pc.Check?)
  {
  }

  /** While the token in the row is within its lease and nobody touches it, a
      call leaves it alone: it waits, or is told that the room is busy. */
  lemma {:induction false} HeldLockIsLeftAlone(row: Option<Token>, id: nat, wait: nat, own: seq<Stmt<Token>>, c0: int, row1: Option<Token>, c1: int)
    requires row.Some? && c1 - row.value.stamp <= 30_000_000
    requires Linked(row, c0, own, row1, c1) && Plays(LockStep, LockCall(id, wait, Stamp), own)
    ensures var pc := Play(LockStep, LockCall(id, wait, Stamp), own).pc;
      row1 == row && !pc.Holding? && !pc.TakeOver? && !pc.Released? && (pc.Judge? ==> pc.existing == row.value)
  {
    if own != [] {
      var last := own[|own| - 1];
      HeldLockIsLeftAlone(row, id, wait, own[..|own| - 1], c0, last.before, last.at);
    }
  }
}
