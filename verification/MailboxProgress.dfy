/** Lock freedom of the mailbox: a call fails only because others succeed. */
module MailboxProgress {
  import opened OptionsTable
  import opened AtomicOption
  import opened Mailbox
  import opened MailboxRuns

  /** The row changes at `h[j]`, and not by `p`. */
  ghost predicate Foreign(h: seq<Stmt<Stored>>, p: nat, j: int) {
    0 <= j < |h| && h[j].pid != p && h[j].before != h[j].after
  }

  ghost predicate NoForeign(h: seq<Stmt<Stored>>, p: nat, from: nat) {
    forall j | from <= j < |h| :: !Foreign(h, p, j)
  }

  ghost predicate NoDeletes(w: World, h: seq<Stmt<Stored>>) {
    forall i | 0 <= i < |h| :: h[i].pid in w.calls
  }

  /** What a call in an attempt may rely on while nobody else changes the row. */
  ghost predicate Undisturbed(c: Call, row: Option<Stored>) {
    match c.pc
    case Decode(_, cur) => Raw(row) == cur
    case Swapping(_, cur, _, Update(0)) => Raw(row) == cur
    case Swapping(_, cur, _, Reread(0)) => row == None && cur == Blank
    case Swapping(_, cur, _, Seed(0)) => row == None && cur == Blank
    case Swapping(_, cur, _, Update(1)) => row == Some(cur)
    case Swapping(_, _, _, _) => false
    case _ => true
  }

  /** Attempts that have failed so far. */
  function Failures(pc: MailPc): nat {
    match pc
    case Fetch(a) => a
    case Decode(a, _) => a
    case Swapping(a, _, _, _) => a
    case GaveUp => CAS_ATTEMPTS
    case _ => 0
  }

  /** Each failed attempt of `p` is charged to a change of the row by another
      call, a different and later one each time. */
  ghost predicate Charged(h: seq<Stmt<Stored>>, p: nat, charges: seq<nat>) {
    && (forall i | 0 <= i < |charges| :: Foreign(h, p, charges[i]))
    && (forall i, j | 0 <= i < j < |charges| :: charges[i] < charges[j])
  }

  /** The attempt under way began at `mark`, after every charge. */
  ghost predicate Account(h: seq<Stmt<Stored>>, p: nat, c: Call, row: Option<Stored>, charges: seq<nat>, mark: nat) {
    && Charged(h, p, charges) && mark <= |h| && (forall i | 0 <= i < |charges| :: charges[i] < mark)
    && |charges| == Failures(c.pc) && (c.pc.Fetch? || c.pc.Decode? || c.pc.Swapping? ==> c.pc.a < CAS_ATTEMPTS)
    && (c.pc.Swapping? ==> c.pc.swap in {Update(0), Reread(0), Seed(0), Update(1), Reread(1), Seed(1)})
    && ((c.pc.Decode? || c.pc.Swapping?) && NoForeign(h, p, mark) ==> Undisturbed(c, row))
  }

  /** A call never swaps in the value it expects. */
  lemma SwapsSomethingNew(w: World, p: nat)
    requires Inv(w) && p in w.calls && w.calls[p].pc.Swapping?
    ensures Next(w.calls[p].job, w.calls[p].pc.cur, w.calls[p].pc.now) != w.calls[p].pc.cur
  {
    var c := w.calls[p];
    assert Flight(w, c);
    match c.job {
      case Take =>
        assert Live(MailOf(c.pc.cur), c.pc.now) != [];
      case Append(msgs) =>
        var all := Live(MailOf(c.pc.cur), c.pc.now) + msgs;
        var m := msgs[|msgs| - 1];
        assert all[|all| - 1] == m && Capped(all)[|Capped(all)| - 1] == m;
        assert m in msgs && m in Capped(all);
        assert m !in MailOf(c.pc.cur);
    }
  }

  /** An undisturbed call's next statement neither loses nor strays. */
  lemma UndisturbedStep(c: Call, at: int, row: Option<Stored>)
    requires Undisturbed(c, row)
    requires c.pc.Decode? || (c.pc.Swapping? && Next(c.job, c.pc.cur, c.pc.now) != c.pc.cur)
    ensures var (c', left) := MailStep(c, at, row);
      && Undisturbed(c', left)
      && (c.pc.Swapping? ==> c'.pc.Swapping? || c'.pc.Appended? || c'.pc.Delivered?)
  {
  }

  lemma ChargedLater(h: seq<Stmt<Stored>>, p: nat, charges: seq<nat>)
    requires h != [] && Charged(h[..|h| - 1], p, charges)
    ensures Charged(h, p, charges)
  {
    var rest := h[..|h| - 1];
    forall i | 0 <= i < |charges|
      ensures Foreign(h, p, charges[i])
    {
      assert Foreign(rest, p, charges[i]) && h[charges[i]] == rest[charges[i]];
    }
  }

  lemma NoForeignLess(h: seq<Stmt<Stored>>, p: nat, mark: nat)
    requires h != [] && mark < |h|
    ensures NoForeign(h, p, mark) <==> NoForeign(h[..|h| - 1], p, mark) && !Foreign(h, p, |h| - 1)
  {
    var rest := h[..|h| - 1];
    forall j | mark <= j < |rest|
      ensures Foreign(h, p, j) <==> Foreign(rest, p, j)
    {
      assert h[j] == rest[j];
    }
  }

  lemma AccountOther(h: seq<Stmt<Stored>>, p: nat, c: Call, charges: seq<nat>, mark: nat)
    requires h != [] && h[|h| - 1].pid != p
    requires Account(h[..|h| - 1], p, c, h[|h| - 1].before, charges, mark)
    ensures Account(h, p, c, h[|h| - 1].after, charges, mark)
  {
    ChargedLater(h, p, charges);
    NoForeignLess(h, p, mark);
  }

  lemma AccountOwn(h: seq<Stmt<Stored>>, p: nat, c: Call, charges: seq<nat>, mark: nat) returns (charges': seq<nat>, mark': nat)
    requires h != [] && h[|h| - 1].pid == p
    requires Account(h[..|h| - 1], p, c, h[|h| - 1].before, charges, mark)
    requires h[|h| - 1].after == MailStep(c, h[|h| - 1].at, h[|h| - 1].before).1
    requires c.pc.Swapping? ==> Next(c.job, c.pc.cur, c.pc.now) != c.pc.cur
    ensures Account(h, p, MailStep(c, h[|h| - 1].at, h[|h| - 1].before).0, h[|h| - 1].after, charges', mark')
  {
    var rest, last := h[..|h| - 1], h[|h| - 1];
    var c' := MailStep(c, last.at, last.before).0;
    ChargedLater(h, p, charges);
    NoForeignLess(h, p, mark);
    charges', mark' := charges, mark;
    if c.pc.Fetch? {
      mark' := |h|;
    } else if c.pc.Decode? || c.pc.Swapping? {
      if NoForeign(rest, p, mark) {
        UndisturbedStep(c, last.at, last.before);
      } else if c'.pc.Fetch? || c'.pc.GaveUp? {
        var j :| mark <= j < |rest| && Foreign(rest, p, j);
        assert Foreign(h, p, j);
        charges', mark' := charges + [j], |h|;
      }
      if Failures(c'.pc) == 0 {
        charges' := [];
      }
    }
  }

  lemma NoDeletesLess(w: World, h: seq<Stmt<Stored>>)
    requires h != [] && NoDeletes(w, h)
    ensures NoDeletes(w, h[..|h| - 1])
  {
    assert forall i | 0 <= i < |h| - 1 :: h[..|h| - 1][i] == h[i];
  }

  /** Without deletes the calls stay the same ones. */
  lemma {:induction false} CallsStay(w: World, h: seq<Stmt<Stored>>)
    requires Run(w, h) && NoDeletes(w, h)
    ensures Exec(w, h).calls.Keys == w.calls.Keys
  {
    if h != [] {
      var rest, last := h[..|h| - 1], h[|h| - 1];
      NoDeletesLess(w, h);
      CallsStay(w, rest);
      ApplyCall(Exec(w, rest), last.pid, last.at);
    }
  }

  lemma AccountStep(v: World, h: seq<Stmt<Stored>>, p: nat, charges: seq<nat>, mark: nat) returns (charges': seq<nat>, mark': nat)
    requires h != [] && Inv(v) && p in v.calls && h[|h| - 1].pid in v.calls
    requires h[|h| - 1].before == v.row && h[|h| - 1].after == Apply(v, h[|h| - 1].pid, h[|h| - 1].at).row
    requires Account(h[..|h| - 1], p, v.calls[p], v.row, charges, mark)
    ensures var v' := Apply(v, h[|h| - 1].pid, h[|h| - 1].at);
      p in v'.calls && Account(h, p, v'.calls[p], v'.row, charges', mark')
  {
    var last := h[|h| - 1];
    charges', mark' := charges, mark;
    ApplyCall(v, last.pid, last.at);
    if last.pid != p {
      AccountOther(h, p, v.calls[p], charges, mark);
    } else {
      if v.calls[p].pc.Swapping? {
        SwapsSomethingNew(v, p);
      }
      charges', mark' := AccountOwn(h, p, v.calls[p], charges, mark);
    }
  }

  lemma {:induction false} Accounts(w: World, h: seq<Stmt<Stored>>, p: nat) returns (charges: seq<nat>, mark: nat)
    requires Initial(w) && Run(w, h) && NoDeletes(w, h) && p in w.calls
    ensures Exec(w, h).calls.Keys == w.calls.Keys
    ensures Account(h, p, Exec(w, h).calls[p], Exec(w, h).row, charges, mark)
  {
    CallsStay(w, h);
    if h == [] {
      return [], 0;
    }
    var rest := h[..|h| - 1];
    NoDeletesLess(w, h);
    CallsStay(w, rest);
    charges, mark := Accounts(w, rest, p);
    InitialInv(w);
    RunKeepsInv(w, rest);
    charges, mark := AccountStep(Exec(w, rest), h, p, charges, mark);
  }

  lemma StepLeavesRow(v: World, p: nat, at: int)
    requires p in v.calls
    ensures Apply(v, p, at).row != v.row || v.row.Some? ==> Apply(v, p, at).row.Some?
  {
    ApplyCall(v, p, at);
  }

  /** Without deletes a row that exists keeps existing. */
  lemma {:induction false} RowStays(w: World, h: seq<Stmt<Stored>>, i: nat)
    requires Run(w, h) && NoDeletes(w, h) && i < |h| && h[i].after.Some?
    ensures Exec(w, h).row.Some?
    ensures forall j | i < j < |h| :: h[j].before.Some?
    decreases |h|
  {
    var rest, last := h[..|h| - 1], h[|h| - 1];
    NoDeletesLess(w, h);
    CallsStay(w, rest);
    StepLeavesRow(Exec(w, rest), last.pid, last.at);
    if i < |rest| {
      RowStays(w, rest, i);
      assert forall j | 0 <= j < |rest| :: rest[j] == h[j];
    }
  }

  /** A call that gives up was beaten eight times: there are as many
      different instants at which another call changed the row, and at all of
      them but the first, which may be the one seed there is, that call won its
      swap. */
  lemma GivingUpMeansOthersWon(w: World, h: seq<Stmt<Stored>>, p: nat) returns (charges: seq<nat>)
    requires Initial(w) && Run(w, h) && NoDeletes(w, h) && p in w.calls
    requires p in Exec(w, h).calls && Exec(w, h).calls[p].pc.GaveUp?
    ensures |charges| == 8 && Charged(h, p, charges)
    ensures forall i | 1 <= i < |charges| :: h[charges[i]].before.Some? && h[charges[i]].after.Some?
  {
    var mark;
    charges, mark := Accounts(w, h, p);
    var first := h[charges[0]];
    StatementsLeaveRow(w, h, charges[0]);
    RowStays(w, h, charges[0]);
    forall i | 1 <= i < |charges|
      ensures h[charges[i]].before.Some? && h[charges[i]].after.Some?
    {
      assert Foreign(h, p, charges[i]) && charges[0] < charges[i];
      StatementsLeaveRow(w, h, charges[i]);
    }
  }

  /** Without deletes every change of the row leaves it existing. */
  lemma {:induction false} StatementsLeaveRow(w: World, h: seq<Stmt<Stored>>, i: nat)
    requires Run(w, h) && NoDeletes(w, h) && i < |h| && h[i].before != h[i].after
    ensures h[i].after.Some?
    decreases |h|
  {
    var rest, last := h[..|h| - 1], h[|h| - 1];
    NoDeletesLess(w, h);
    if i < |rest| {
      assert rest[i] == h[i];
      StatementsLeaveRow(w, rest, i);
    } else {
      CallsStay(w, rest);
      StepLeavesRow(Exec(w, rest), last.pid, last.at);
    }
  }
}
