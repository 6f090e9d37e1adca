/**
 * The debounced value cell (composables/useDebouncedRef.ts) as a single-slot timer state machine
 * over an integer millisecond clock. A write to the source cancels the one pending commit and
 * schedules a replacement `delay` milliseconds later; a commit that fires copies the value of the
 * latest change into the output; disposal cancels the pending commit and stops the watcher.
 */
module Debounce {
  import opened Wrappers

  const DEFAULT_DELAY: nat := 350

  /** The one pending `setTimeout`: the value it will commit and when it fires. */
  datatype Timer<T> = Timer(value: T, deadline: int)

  /**
   * The whole state: the source's current value, the debounced output, the pending timer slot,
   * the clock, the delay, and whether the owning scope has been disposed.
   */
  datatype Cell<T> = Cell(source: T, output: T, pending: Option<Timer<T>>, now: int, delay: nat, disposed: bool)

  /** The invariant every reachable cell keeps. */
  ghost predicate Consistent<T>(c: Cell<T>) {
    && (c.pending.Some? ==>
          && !c.disposed
          && c.pending.value.value == c.source
          && c.now <= c.pending.value.deadline <= c.now + c.delay)
    && (!c.disposed && c.pending.None? ==> c.output == c.source)
  }

  /** Construction: the output starts as the source's current value and nothing is pending. */
  function Initial<T>(source: T, delay: nat, now: int): (c: Cell<T>)
    ensures Consistent(c) && c.output == source && c.pending.None? && !c.disposed
  {
    Cell(source, source, None, now, delay, false)
  }

  /**
   * The source is written with `v`. The watcher runs only when the value differs and the scope is
   * alive; it then replaces the pending timer. The output is never written here.
   */
  function AfterChange<T(==)>(c: Cell<T>, v: T): (c': Cell<T>)
    ensures c'.output == c.output && c'.source == v && c'.now == c.now && c'.delay == c.delay
    ensures c'.disposed == c.disposed
    ensures !c.disposed && v != c.source ==> c'.pending == Some(Timer(v, c.now + c.delay))
    ensures c.disposed || v == c.source ==> c'.pending == c.pending
    ensures Consistent(c) ==> Consistent(c')
  {
    if c.disposed || v == c.source then c.(source := v)
    else c.(source := v, pending := Some(Timer(v, c.now + c.delay)))
  }

  /** The clock moves to `t`; a pending timer whose deadline has come fires and commits its value. */
  function AfterAdvance<T>(c: Cell<T>, t: int): (c': Cell<T>)
    requires c.now <= t
    ensures c'.now == t && c'.source == c.source && c'.delay == c.delay && c'.disposed == c.disposed
    ensures c'.output != c.output ==> c.pending.Some? && c.pending.value.deadline <= t
    ensures c.pending.Some? && c.pending.value.deadline <= t ==>
      c'.output == c.pending.value.value && c'.pending.None?
    ensures c.pending.None? || t < c.pending.value.deadline ==> c'.output == c.output && c'.pending == c.pending
    ensures Consistent(c) ==> Consistent(c')
  {
    if c.pending.Some? && c.pending.value.deadline <= t then
      c.(output := c.pending.value.value, pending := None, now := t)
    else
      c.(now := t)
  }

  /** Scope disposal: the pending timer is cleared and the watcher is stopped. */
  function AfterDispose<T>(c: Cell<T>): (c': Cell<T>)
    ensures c'.pending.None? && c'.disposed && c'.output == c.output && c'.source == c.source
    ensures c'.now == c.now && c'.delay == c.delay
    ensures Consistent(c) ==> Consistent(c')
  {
    c.(pending := None, disposed := true)
  }

  /** What can happen to a cell: a write to the source, time passing, or disposal. */
  datatype Event<T> = Change(value: T) | Wait(ms: nat) | Dispose

  function Step<T(==)>(c: Cell<T>, e: Event<T>): Cell<T> {
    match e
    case Change(v) => AfterChange(c, v)
    case Wait(ms) => AfterAdvance(c, c.now + ms)
    case Dispose => AfterDispose(c)
  }

  function Run<T(==)>(c: Cell<T>, es: seq<Event<T>>): Cell<T>
    decreases |es|
  {
    if es == [] then c else Run(Step(c, es[0]), es[1..])
  }

  /** Every sequence of events keeps the invariant. */
  lemma {:induction false} RunKeepsConsistent<T>(c: Cell<T>, es: seq<Event<T>>)
    requires Consistent(c)
    ensures Consistent(Run(c, es))
    decreases |es|
  {
    if es != [] {
      RunKeepsConsistent(Step(c, es[0]), es[1..]);
    }
  }

  /** Once disposed, no event ever changes the output again and nothing is ever pending. */
  lemma {:induction false} NoWriteAfterDispose<T>(c: Cell<T>, es: seq<Event<T>>)
    requires c.disposed && c.pending.None?
    ensures Run(c, es).output == c.output && Run(c, es).pending.None? && Run(c, es).disposed
    decreases |es|
  {
    if es != [] {
      NoWriteAfterDispose(Step(c, es[0]), es[1..]);
    }
  }

  lemma DisposeIsFinal<T>(c: Cell<T>, es: seq<Event<T>>)
    ensures Run(AfterDispose(c), es).output == c.output
  {
    NoWriteAfterDispose(AfterDispose(c), es);
  }

  /** A write to the source at time `at`. */
  datatype Write<T> = Write(value: T, at: int)

  predicate Chronological<T>(from: int, ws: seq<Write<T>>) {
    && (ws != [] ==> from <= ws[0].at)
    && forall i :: 0 < i < |ws| ==> ws[i - 1].at <= ws[i].at
  }

  /** A burst: each write changes the value and comes less than `delay` after the one before. */
  predicate IsBurst<T(==)>(delay: nat, ws: seq<Write<T>>) {
    forall i :: 0 < i < |ws| ==> ws[i].at < ws[i - 1].at + delay && ws[i].value != ws[i - 1].value
  }

  /** Feeds timed writes to the cell: the clock moves to each write's time, then the source is written. */
  function Feed<T(==)>(c: Cell<T>, ws: seq<Write<T>>): (c': Cell<T>)
    requires Chronological(c.now, ws)
    ensures ws != [] ==> c'.now == ws[|ws| - 1].at
    ensures c'.delay == c.delay && c'.disposed == c.disposed
    decreases |ws|
  {
    if ws == [] then c
    else
      var c1 := AfterChange(AfterAdvance(c, ws[0].at), ws[0].value);
      Feed(c1, ws[1..])
  }

  /**
   * A burst of writes that starts while no earlier timer can fire leaves the output alone and
   * leaves exactly one timer pending, for the last value and `delay` after the last write.
   */
  lemma {:induction false} BurstCoalesces<T>(c: Cell<T>, ws: seq<Write<T>>)
    requires Consistent(c) && !c.disposed
    requires |ws| > 0 && Chronological(c.now, ws) && IsBurst(c.delay, ws)
    requires ws[0].value != c.source
    requires c.pending.None? || ws[0].at < c.pending.value.deadline
    ensures var last := ws[|ws| - 1]; var c' := Feed(c, ws);
      && c'.output == c.output
      && c'.source == last.value
      && c'.pending == Some(Timer(last.value, last.at + c.delay))
      && c'.now == last.at && c'.delay == c.delay && !c'.disposed
    decreases |ws|
  {
    var c1 := AfterChange(AfterAdvance(c, ws[0].at), ws[0].value);
    if |ws| > 1 {
      assert Chronological(c1.now, ws[1..]);
      assert IsBurst(c1.delay, ws[1..]) by {
        forall i | 0 < i < |ws[1..]|
          ensures ws[1..][i].at < ws[1..][i - 1].at + c1.delay && ws[1..][i].value != ws[1..][i - 1].value
        {
          assert ws[1..][i] == ws[i + 1] && ws[1..][i - 1] == ws[i];
        }
      }
      assert ws[1].at < c1.pending.value.deadline && ws[1].value != c1.source;
      BurstCoalesces(c1, ws[1..]);
      assert ws[1..][|ws[1..]| - 1] == ws[|ws| - 1];
    }
  }

  /** After a burst, the output stays put until `delay` after the last write, and then takes the last value. */
  lemma BurstSettles<T>(c: Cell<T>, ws: seq<Write<T>>, t: int)
    requires Consistent(c) && !c.disposed
    requires |ws| > 0 && Chronological(c.now, ws) && IsBurst(c.delay, ws)
    requires ws[0].value != c.source
    requires c.pending.None? || ws[0].at < c.pending.value.deadline
    requires t >= ws[|ws| - 1].at
    ensures var c' := AfterAdvance(Feed(c, ws), t);
      c'.output == if t < ws[|ws| - 1].at + c.delay then c.output else ws[|ws| - 1].value
  {
    BurstCoalesces(c, ws);
  }

  /** Writes at 0, 50, 100 and 150 ms with the default delay: one commit, at 500 ms, of the 150 ms value. */
  lemma DefaultBurstExample(a: int, b: int, x: int, y: int, z: int)
    requires a != b && b != x && x != y && y != z
    ensures var c := Feed(Initial(a, DEFAULT_DELAY, 0), [Write(b, 0), Write(x, 50), Write(y, 100), Write(z, 150)]);
      && AfterAdvance(c, 499).output == a
      && AfterAdvance(c, 500).output == z
  {
    var ws := [Write(b, 0), Write(x, 50), Write(y, 100), Write(z, 150)];
    BurstSettles(Initial(a, DEFAULT_DELAY, 0), ws, 499);
    BurstSettles(Initial(a, DEFAULT_DELAY, 0), ws, 500);
  }

  /** A write at 0 ms followed by disposal at 100 ms: the output never changes. */
  lemma DisposeCancelsExample(a: int, b: int, es: seq<Event<int>>)
    ensures Run(Initial(a, DEFAULT_DELAY, 0), [Change(b), Wait(100), Dispose] + es).output == a
  {
    var c := Initial(a, DEFAULT_DELAY, 0);
    var d := Run(c, [Change(b), Wait(100), Dispose]);
    assert Run(c, [Change(b), Wait(100), Dispose] + es) == Run(d, es) by {
      RunAppend(c, [Change(b), Wait(100), Dispose], es);
    }
    var tail: seq<Event<int>> := [Wait(100), Dispose];
    var last: seq<Event<int>> := [Dispose];
    assert [Change(b), Wait(100), Dispose][1..] == tail;
    assert tail[1..] == last;
    assert last[1..] == [];
    assert d == Run(Step(c, Change(b)), tail);
    assert Run(Step(c, Change(b)), tail) == Run(Step(Step(c, Change(b)), Wait(100)), last);
    assert d == AfterDispose(Step(Step(c, Change(b)), Wait(100)));
    NoWriteAfterDispose(d, es);
  }

  lemma {:induction false} RunAppend<T>(c: Cell<T>, es: seq<Event<T>>, more: seq<Event<T>>)
    ensures Run(c, es + more) == Run(Run(c, es), more)
    decreases |es|
  {
    if es != [] {
      assert (es + more)[1..] == es[1..] + more;
      RunAppend(Step(c, es[0]), es[1..], more);
    } else {
      assert es + more == more;
    }
  }

  /**
   * `useDebouncedRef(source, delay)`: the source ref, the debounced ref, the `timeoutId` slot,
   * and the clock, as fields.
   */
  class DebouncedRef<T(==)> {
    var source: T
    var value: T
    var pending: Option<Timer<T>>
    var now: int
    const delay: nat
    var disposed: bool

    function State(): Cell<T>
      reads this
    {
      Cell(source, value, pending, now, delay, disposed)
    }

    ghost predicate Valid()
      reads this
    {
      Consistent(State())
    }

    constructor (initial: T, delay: nat, now: int)
      ensures State() == Initial(initial, delay, now) && Valid()
    {
      this.source := initial;
      this.value := initial;
      this.pending := None;
      this.now := now;
      this.delay := delay;
      this.disposed := false;
    }

    /** `useDebouncedRef(source)` with the default delay of 350 ms. */
    constructor WithDefaultDelay(initial: T, now: int)
      ensures State() == Initial(initial, DEFAULT_DELAY, now) && delay == 350 && Valid()
    {
      this.source := initial;
      this.value := initial;
      this.pending := None;
      this.now := now;
      this.delay := DEFAULT_DELAY;
      this.disposed := false;
    }

    /** A write to the source; the watcher clears any pending timer and schedules a new one. */
    method SourceChanged(v: T)
      requires Valid()
      modifies this
      ensures State() == AfterChange(old(State()), v) && Valid()
      ensures value == old(value)
    {
      var fires := !disposed && v != source;
      source := v;
      if fires {
        if pending.Some? {
          pending := None;
        }
        pending := Some(Timer(v, now + delay));
      }
    }

    /** The clock reaches `t`; a due timer runs its callback, which writes the debounced value. */
    method AdvanceTo(t: int)
      requires Valid() && now <= t
      modifies this
      ensures State() == AfterAdvance(old(State()), t) && Valid()
    {
      now := t;
      if pending.Some? && pending.value.deadline <= t {
        value := pending.value.value;
        pending := None;
      }
    }

    /** `onScopeDispose`: clears the pending timer; the scope's watcher stops with it. */
    method Dispose()
      requires Valid()
      modifies this
      ensures State() == AfterDispose(old(State())) && Valid()
    {
      if pending.Some? {
        pending := None;
      }
      disposed := true;
    }
  }

  /** A caller's view: a burst through the class commits once, with the last value. */
  method BurstThroughRef() {
    var r := new DebouncedRef.WithDefaultDelay(0, 0);
    r.SourceChanged(1);
    r.AdvanceTo(50);
    r.SourceChanged(2);
    r.AdvanceTo(100);
    r.SourceChanged(3);
    r.AdvanceTo(150);
    r.SourceChanged(4);
    r.AdvanceTo(499);
    assert r.value == 0;
    r.AdvanceTo(500);
    assert r.value == 4 && r.pending.None?;
  }
}
