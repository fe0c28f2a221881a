/** When the mailbox row may be deleted (a tab leaving, or the sweep of rows
    that belong to no live tab) without harm to the mail. */
module MailboxDeletion {
  import opened OptionsTable
  import opened Sequences
  import opened Mailbox
  import opened MailboxRuns

  /** One more statement of call `p` at the end of a run. */
  lemma OneMore(w: World, g: seq<Stmt<Stored>>, p: nat, at: int) returns (g': seq<Stmt<Stored>>)
    requires Run(w, g) && Exec(w, g).clock <= at && p in Exec(w, g).calls
    ensures Run(w, g') && Exec(w, g') == Apply(Exec(w, g), p, at)
  {
    var v := Exec(w, g);
    var st := Stmt(p, at, v.row, Apply(v, p, at).row);
    g' := g + [st];
    assert g'[..|g'| - 1] == g;
  }

  /** A call that holds mail while the row is missing puts that mail back. */
  lemma {:induction false} MailReturns(w: World, g: seq<Stmt<Stored>>, p: nat, at: int) returns (g': seq<Stmt<Stored>>)
    requires Run(w, g) && Exec(w, g).clock == at && Conserved(Exec(w, g)) && Exec(w, g).row == None
    requires p in Exec(w, g).calls && HoldsMail(Exec(w, g).calls[p], at)
    requires var pc := Exec(w, g).calls[p].pc; pc.Swapping? ==> pc.swap.Update? || pc.swap.Reread? || pc.swap.Seed?
    ensures Run(w, g') && !Conserved(Exec(w, g'))
    decreases var pc := Exec(w, g).calls[p].pc;
      if pc.Decode? then 3 else if pc.swap.Update? then 2 else if pc.swap.Reread? then 1 else 0
  {
    var v := Exec(w, g);
    var c, v' := v.calls[p], Apply(v, p, at);
    g' := OneMore(w, g, p, at);
    if c.pc.Swapping? && c.pc.swap.Seed? {
      PutBack(v, v', MailOf(c.pc.cur));
    } else {
      assert v' == v.(calls := v'.calls);
      g' := MailReturns(w, g', p, at);
    }
  }

  lemma PutBack(v: World, v': World, mail: seq<Msg>)
    requires Conserved(v) && Box(v.row) == [] && mail != []
    requires v' == v.(row := v'.row, calls := v'.calls) && Box(v'.row) == mail
    ensures !Conserved(v')
  {
    var m := mail[0];
    assert m in multiset(mail);
    assert multiset(v.appended)[m] ==
      (multiset(Flat(v.takes)) + multiset(Box(v.row)) + multiset(v.expired) + multiset(v.evicted) + multiset(v.discarded))[m];
  }

  lemma SafeDeletion(w: World, d: nat, at: int)
    requires Inv(w) && w.clock <= at && d !in w.calls && NobodyHolds(w, at)
    ensures forall g | Run(Apply(w, d, at), g) :: Conserved(Exec(Apply(w, d, at), g))
  {
    DeleteKeepsInv(w, d, at);
    forall g | Run(Apply(w, d, at), g)
      ensures Conserved(Exec(Apply(w, d, at), g))
    {
      RunKeepsInv(Apply(w, d, at), g);
    }
  }

  lemma UnsafeDeletion(w: World, d: nat, at: int, p: nat) returns (g: seq<Stmt<Stored>>)
    requires Inv(w) && w.clock <= at && d !in w.calls && p in w.calls && HoldsMail(w.calls[p], at)
    ensures Run(Apply(w, d, at), g) && !Conserved(Exec(Apply(w, d, at), g))
  {
    g := [];
    if Conserved(Apply(w, d, at)) {
      assert Flight(w, w.calls[p]);
      g := MailReturns(Apply(w, d, at), [], p, at);
    }
  }

  /** Deleting the row is safe exactly when no call has read mail it may yet
      write back: then, and only then, every run from there on keeps each
      message to one fate. */
  lemma DeletionIsSafeExactly(w0: World, h: seq<Stmt<Stored>>, d: nat, at: int)
    requires Initial(w0) && Run(w0, h)
    requires var w := Exec(w0, h); w.clock <= at && d !in w.calls
    ensures var w := Exec(w0, h);
      NobodyHolds(w, at) <==> forall g | Run(Apply(w, d, at), g) :: Conserved(Exec(Apply(w, d, at), g))
  {
    var w := Exec(w0, h);
    InitialInv(w0);
    RunKeepsInv(w0, h);
    if NobodyHolds(w, at) {
      SafeDeletion(w, d, at);
    } else {
      var p :| p in w.calls && HoldsMail(w.calls[p], at);
      var g := UnsafeDeletion(w, d, at, p);
    }
  }
}
