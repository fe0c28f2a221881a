/** One row of the options table as the plugin's lock-free code sees it: every
    SQL statement is one instant, any number of other processes run between two
    statements of this one, and time never goes back. */
module OptionsTable {

  datatype Option<+T> = None | Some(value: T)

  /** One instant: process `pid` met the row at `before` and left it at `after`.
      Reading the clock is an instant that leaves the row alone. */
  datatype Stmt<V> = Stmt(pid: nat, at: int, before: Option<V>, after: Option<V>)

  /** `h` leads the row from `v0` to `v1` while the clock goes from `c0` to `c1`. */
  ghost predicate Linked<V>(v0: Option<V>, c0: int, h: seq<Stmt<V>>, v1: Option<V>, c1: int) {
    if h == [] then v0 == v1 && c0 <= c1
    else
      var last := h[|h| - 1];
      && Linked(v0, c0, h[..|h| - 1], last.before, last.at)
      && last.after == v1 && last.at <= c1
  }

  lemma LinkedLater<V>(v0: Option<V>, c0: int, g: seq<Stmt<V>>, v1: Option<V>, c1: int, c2: int)
    requires Linked(v0, c0, g, v1, c1) && c1 <= c2
    ensures Linked(v0, c0, g, v1, c2)
  {
  }

  /** The statements of process `p`, in order. */
  ghost function Own<V>(h: seq<Stmt<V>>, p: nat): seq<Stmt<V>> {
    if h == [] then []
    else if h[|h| - 1].pid == p then Own(h[..|h| - 1], p) + [h[|h| - 1]]
    else Own(h[..|h| - 1], p)
  }

  /** One more instant at the end of a history. */
  lemma Extended<V>(v0: Option<V>, c0: int, h: seq<Stmt<V>>, v1: Option<V>, c1: int, st: Stmt<V>)
    requires Linked(v0, c0, h, v1, c1) && st.before == v1 && c1 <= st.at
    ensures Linked(v0, c0, h + [st], st.after, st.at)
    ensures forall p: nat :: Own(h + [st], p) == if st.pid == p then Own(h, p) + [st] else Own(h, p)
  {
    assert (h + [st])[..|h + [st]| - 1] == h;
    LinkedLater(v0, c0, h, v1, c1, st.at);
  }

  /** What one process does next: from its own state, the time and the row it
      meets, its new state and the row it leaves. */
  type Machine<!P, !V> = (P, int, Option<V>) -> (P, Option<V>)

  /** Where a machine stands after the given statements. */
  ghost function Play<P, V>(step: Machine<P, V>, p: P, own: seq<Stmt<V>>): P {
    if own == [] then p
    else
      var last := own[|own| - 1];
      step(Play(step, p, own[..|own| - 1]), last.at, last.before).0
  }

  /** The given statements are exactly the machine's: each leaves the row as the
      machine would. */
  ghost predicate Plays<P, V>(step: Machine<P, V>, p: P, own: seq<Stmt<V>>) {
    own == [] ||
    var last := own[|own| - 1];
    && Plays(step, p, own[..|own| - 1])
    && last.after == step(Play(step, p, own[..|own| - 1]), last.at, last.before).1
  }

  lemma PlayConcat<P, V>(step: Machine<P, V>, p: P, g: seq<Stmt<V>>, h: seq<Stmt<V>>)
    requires Plays(step, p, g) && Plays(step, Play(step, p, g), h)
    ensures Plays(step, p, g + h) && Play(step, p, g + h) == Play(step, Play(step, p, g), h)
  {
    if h == [] {
      assert g + h == g;
    } else {
      assert (g + h)[..|g + h| - 1] == g + h[..|h| - 1];
      PlayConcat(step, p, g, h[..|h| - 1]);
    }
  }

  /** The last instant of a history, seen by a process that plays its machine. */
  lemma LastInstant<P, V>(step: Machine<P, V>, c: P, h: seq<Stmt<V>>, p: nat)
    requires h != [] && Plays(step, c, Own(h, p))
    ensures var rest, last := h[..|h| - 1], h[|h| - 1];
      && Plays(step, c, Own(rest, p))
      && (last.pid != p ==> Own(h, p) == Own(rest, p))
      && (last.pid == p ==>
            && last.after == step(Play(step, c, Own(rest, p)), last.at, last.before).1
            && Play(step, c, Own(h, p)) == step(Play(step, c, Own(rest, p)), last.at, last.before).0)
  {
    var rest, last := h[..|h| - 1], h[|h| - 1];
    if last.pid == p {
      assert Own(h, p)[..|Own(h, p)| - 1] == Own(rest, p);
    }
  }

  /** Every statement in `h` belongs to one of `calls`, and each call's are those
      its machine plays. */
  ghost predicate Contributes<P, V>(step: Machine<P, V>, calls: map<nat, P>, h: seq<Stmt<V>>) {
    && (forall p | p in calls :: Plays(step, calls[p], Own(h, p)))
    && (forall i | 0 <= i < |h| :: h[i].pid in calls)
  }

  /** Where each call stands after the statements in `h`. */
  ghost function Standing<P, V>(step: Machine<P, V>, calls: map<nat, P>, h: seq<Stmt<V>>): map<nat, P> {
    map p | p in calls :: Play(step, calls[p], Own(h, p))
  }

  lemma ContributesLess<P, V>(step: Machine<P, V>, calls: map<nat, P>, h: seq<Stmt<V>>)
    requires h != [] && Contributes(step, calls, h)
    ensures Contributes(step, calls, h[..|h| - 1])
  {
    forall p | p in calls
      ensures Plays(step, calls[p], Own(h[..|h| - 1], p))
    {
      LastInstant(step, calls[p], h, p);
    }
  }

  lemma StandingLast<P, V>(step: Machine<P, V>, calls: map<nat, P>, h: seq<Stmt<V>>)
    requires h != [] && Contributes(step, calls, h)
    ensures Contributes(step, calls, h[..|h| - 1])
    ensures var before, last := Standing(step, calls, h[..|h| - 1]), h[|h| - 1];
      && last.pid in before && last.after == step(before[last.pid], last.at, last.before).1
      && Standing(step, calls, h) == before[last.pid := step(before[last.pid], last.at, last.before).0]
  {
    ContributesLess(step, calls, h);
    var before, last, now := Standing(step, calls, h[..|h| - 1]), h[|h| - 1], Standing(step, calls, h);
    var q := last.pid;
    LastInstant(step, calls[q], h, q);
    forall p | p in calls
      ensures now[p] == if p == q then step(before[q], last.at, last.before).0 else before[p]
    {
      LastInstant(step, calls[p], h, p);
    }
  }

  /** The row itself. `history` records every instant since the row was first
      looked at, by whatever process. */
  class OptionsRow<V(==)> {
    var value: Option<V>
    var clock: int
    ghost const initial: Option<V>
    ghost const start: int
    ghost var history: seq<Stmt<V>>
    ghost var last: Stmt<V>  // the latest statement recorded by its own process

    ghost predicate Valid()
      reads this
    {
      Linked(initial, start, history, value, clock)
    }

    constructor (v: Option<V>, now: int)
      ensures Valid() && value == v && clock == now && history == []
    {
      value, clock, initial, start, history := v, now, v, now, [];
      last := Stmt(0, now, v, v);
    }

    /** Any number of statements of other processes, and any time, pass. */
    method Others(ghost me: nat)
      requires Valid()
      modifies this
      ensures Valid() && old(clock) <= clock
      ensures Own(history, me) == old(Own(history, me))
    {
    }

    ghost method Record(me: nat, was: Option<V>)
      requires Linked(initial, start, history, was, clock)
      modifies this`history, this`last
      ensures Valid()
      ensures last == Stmt(me, clock, was, value)
      ensures Own(history, me) == old(Own(history, me)) + [last]
    {
      var st := Stmt(me, clock, was, value);
      assert (history + [st])[..|history + [st]| - 1] == history;
      history, last := history + [st], st;
    }

    /** UPDATE ... SET option_value = next WHERE option_value = expected. The
        count is of CHANGED rows, so writing the value already there reads as
        no success. */
    method Update(ghost me: nat, expected: V, next: V) returns (changed: bool)
      requires Valid()
      modifies this
      ensures Valid() && clock == old(clock)
      ensures changed == (old(value) == Some(expected) && expected != next)
      ensures value == if changed then Some(next) else old(value)
      ensures last == Stmt(me, clock, old(value), value)
      ensures Own(history, me) == old(Own(history, me)) + [last]
    {
      changed := value == Some(expected) && expected != next;
      if changed {
        value := Some(next);
      }
      Record(me, old(value));
    }

    /** SELECT option_value. */
    method Select(ghost me: nat) returns (v: Option<V>)
      requires Valid()
      modifies this
      ensures Valid() && clock == old(clock) && value == old(value)
      ensures v == value
      ensures last == Stmt(me, clock, value, value)
      ensures Own(history, me) == old(Own(history, me)) + [last]
    {
      v := value;
      Record(me, value);
    }

    /** microtime() or time(): an instant at which the row is left alone. */
    method Now(ghost me: nat) returns (t: int)
      requires Valid()
      modifies this
      ensures Valid() && clock == old(clock) && value == old(value)
      ensures t == clock
      ensures last == Stmt(me, clock, value, value)
      ensures Own(history, me) == old(Own(history, me)) + [last]
    {
      t := clock;
      Record(me, value);
    }

    /** INSERT IGNORE: creates a missing row, leaves an existing one alone. */
    method InsertIgnore(ghost me: nat, v: V) returns (inserted: bool)
      requires Valid()
      modifies this
      ensures Valid() && clock == old(clock)
      ensures inserted == old(value).None?
      ensures value == if inserted then Some(v) else old(value)
      ensures last == Stmt(me, clock, old(value), value)
      ensures Own(history, me) == old(Own(history, me)) + [last]
    {
      inserted := value.None?;
      if inserted {
        value := Some(v);
      }
      Record(me, old(value));
    }

    /** DELETE ... WHERE option_value = v, or the whole row when `v` is None. */
    method Delete(ghost me: nat, v: Option<V>)
      requires Valid()
      modifies this
      ensures Valid() && clock == old(clock)
      ensures value == if v.None? || old(value) == v then None else old(value)
      ensures last == Stmt(me, clock, old(value), value)
      ensures Own(history, me) == old(Own(history, me)) + [last]
    {
      if v.None? || value == v {
        value := None;
      }
      Record(me, old(value));
    }

    /** usleep(): others may run; at least `micros` pass. */
    method Sleep(ghost me: nat, micros: nat)
      requires Valid()
      modifies this
      ensures Valid() && old(clock) + micros <= clock
      ensures Own(history, me) == old(Own(history, me))
    {
      Others(me);
      clock := clock + micros;
      LinkedLater(initial, start, history, value, clock - micros, clock);
    }
  }
}
