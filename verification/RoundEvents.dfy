/** All that the scheduler does of its own accord, in order: which tasks, intervals
    and listeners each round calls, and when microtasks are drained. */
module RoundEvents {
  import opened Basics
  import opened Scheduler

  /** Not something that a callback did. */
  predicate IsGates(e: Event) { !e.Queued? && !e.Wrote? }

  /** What the gate itself did, callbacks' doings left out. */
  function Gate(tr: seq<Event>): seq<Event> {
    if tr == [] then []
    else Gate(tr[..|tr| - 1]) + if IsGates(tr[|tr| - 1]) then [tr[|tr| - 1]] else []
  }

  lemma GateOneMore(tr: seq<Event>, e: Event)
    ensures Gate(tr + [e]) == Gate(tr) + if IsGates(e) then [e] else []
  {
    assert (tr + [e])[..|tr|] == tr;
  }

  function RanAll(ts: seq<Task>): seq<Event> { seq(|ts|, i requires 0 <= i < |ts| => Ran(ts[i])) }

  function TickedAll(ts: seq<Task>): seq<Event> { seq(|ts|, i requires 0 <= i < |ts| => Ticked(ts[i])) }

  /** Calls of the listeners from i to n that are due, in order. */
  function DueCalls(r: Realm, i: nat, n: nat, k: nat, state: ReadyState): seq<Event>
    requires Shaped(r) && n <= |r.listeners|
    decreases n - i
  {
    if i >= n then []
    else (if IsDue(r, i, k, state) then [Fired(i, k, state)] else []) + DueCalls(r, i + 1, n, k, state)
  }

  // ---- callbacks ---------------------------------------------------------

  /** Intervals are never dropped, and each has an id of its own. */
  ghost predicate RepeatsOk(r: Realm) {
    && (forall i :: 0 <= i < |r.repeats| ==> r.repeats[i].id < r.nextId)
    && (forall i, j :: 0 <= i < j < |r.repeats| ==> r.repeats[i].id < r.repeats[j].id)
  }

  /** Only callbacks have been at work: nothing of the gate's own, and intervals at
      most added. */
  ghost predicate Quiet(r: Realm, r': Realm) {
    && Gate(r'.trace) == Gate(r.trace) && r.repeats <= r'.repeats
    && (RepeatsOk(r) ==> RepeatsOk(r')) && r.nextId <= r'.nextId
  }

  lemma ActIsQuiet(r: Realm, a: Action)
    ensures Quiet(r, Act(r, a))
  {
    match a
    case Later(fn) => if fn.Some? { GateOneMore(r.trace, Queued(Task(r.nextId, fn.value, r.depth))); }
    case SetState(state) => GateOneMore(r.trace, Wrote(state));
    case _ =>
  }

  lemma {:induction false} ActAllIsQuiet(r: Realm, acts: seq<Action>)
    ensures Quiet(r, ActAll(r, acts))
    decreases |acts|
  {
    hide Act, Gate;
    if acts != [] {
      ActIsQuiet(r, acts[0]);
      ActAllIsQuiet(Act(r, acts[0]), acts[1..]);
    }
  }

  /** The gate did just `events`, and intervals were at most added. */
  ghost predicate Did(r: Realm, r': Realm, events: seq<Event>) {
    && Gate(r'.trace) == Gate(r.trace) + events && r.repeats <= r'.repeats
    && (RepeatsOk(r) ==> RepeatsOk(r'))
  }

  lemma DidThen(a: Realm, b: Realm, c: Realm, x: seq<Event>, y: seq<Event>)
    requires Did(a, b, x) && Did(b, c, y)
    ensures Did(a, c, x + y)
  {
    hide Gate, RepeatsOk;
    assert Gate(a.trace) + x + y == Gate(a.trace) + (x + y);
  }

  lemma NothingDone(r: Realm)
    ensures Did(r, r, [])
  {}

  lemma CallDoes(sc: Script, r: Realm, cb: Callback, e: Event)
    requires IsGates(e)
    ensures Did(r, Call(sc, r, cb, e), [e])
  {
    GateOneMore(r.trace, e);
    ActAllIsQuiet(Note(r, e), sc.does(cb, r.trace + [e]));
  }

  lemma DrainDoes(sc: Script, r: Realm)
    ensures Did(r, Drain(sc, r), [Drained])
  {
    GateOneMore(r.trace, Drained);
    ActAllIsQuiet(Note(r, Drained), sc.drains(r.trace + [Drained]));
  }

  lemma {:induction false} RunTasksDoes(sc: Script, r: Realm, ts: seq<Task>)
    ensures Did(r, RunTasks(sc, r, ts), RanAll(ts))
    decreases |ts|
  {
    hide Call, Did;
    if ts == [] {
      NothingDone(r);
    } else {
      var s := Call(sc, r, ts[0].cb, Ran(ts[0]));
      CallDoes(sc, r, ts[0].cb, Ran(ts[0]));
      RunTasksDoes(sc, s, ts[1..]);
      DidThen(r, s, RunTasks(sc, r, ts), [Ran(ts[0])], RanAll(ts[1..]));
      assert RanAll(ts) == [Ran(ts[0])] + RanAll(ts[1..]);
    }
  }

  lemma {:induction false} TickAllDoes(sc: Script, r: Realm, ts: seq<Task>)
    ensures Did(r, TickAll(sc, r, ts), TickedAll(ts))
    decreases |ts|
  {
    hide Call, Did;
    if ts == [] {
      NothingDone(r);
    } else {
      var s := Call(sc, r, ts[0].cb, Ticked(ts[0]));
      CallDoes(sc, r, ts[0].cb, Ticked(ts[0]));
      TickAllDoes(sc, s, ts[1..]);
      DidThen(r, s, TickAll(sc, r, ts), [Ticked(ts[0])], TickedAll(ts[1..]));
      assert TickedAll(ts) == [Ticked(ts[0])] + TickedAll(ts[1..]);
    }
  }

  // ---- firing ------------------------------------------------------------

  /** Calling one listener makes no difference to whether another is due. */
  lemma OthersStayDue(sc: Script, r: Realm, i: nat, j: nat, k: nat, state: ReadyState)
    requires Shaped(r) && i < j < |r.listeners|
    ensures var r' := FireOne(sc, r, i, k, state);
            Shaped(r') && j < |r'.listeners| && (IsDue(r', j, k, state) <==> IsDue(r, j, k, state))
  {
    FireOneKeeps(sc, r, i, k, state);
    if IsDue(r, i, k, state) {
      CallKeeps(sc, Marked(r, i, state), r.listeners[i].cb, Fired(i, k, state));
      var r' := FireOne(sc, r, i, k, state);
      assert r'.seen[j] == r'.seen[..|r.seen|][j];
    }
  }

  lemma {:induction false} SameDue(r: Realm, r': Realm, i: nat, n: nat, k: nat, state: ReadyState)
    requires Shaped(r) && Shaped(r') && n <= |r.listeners| && n <= |r'.listeners|
    requires forall j :: i <= j < n ==> (IsDue(r', j, k, state) <==> IsDue(r, j, k, state))
    ensures DueCalls(r', i, n, k, state) == DueCalls(r, i, n, k, state)
    decreases n - i
  {
    hide IsDue;
    if i < n { SameDue(r, r', i + 1, n, k, state); }
  }

  lemma FireOneDoes(sc: Script, r: Realm, i: nat, k: nat, state: ReadyState)
    requires Shaped(r) && i < |r.listeners|
    ensures Did(r, FireOne(sc, r, i, k, state), if IsDue(r, i, k, state) then [Fired(i, k, state)] else [])
  {
    hide Gate;
    if IsDue(r, i, k, state) { CallDoes(sc, Marked(r, i, state), r.listeners[i].cb, Fired(i, k, state)); }
  }

  lemma {:induction false} FireFromDoes(sc: Script, r: Realm, i: nat, n: nat, k: nat, state: ReadyState)
    requires Shaped(r) && n <= |r.listeners|
    ensures Did(r, FireFrom(sc, r, i, n, k, state), DueCalls(r, i, n, k, state))
    decreases n - i
  {
    hide FireOne, Did, IsDue;
    if i >= n {
      NothingDone(r);
    } else {
      var s := FireOne(sc, r, i, k, state);
      FireOneKeeps(sc, r, i, k, state);
      FireOneDoes(sc, r, i, k, state);
      FireFromDoes(sc, s, i + 1, n, k, state);
      forall j | i < j < n ensures IsDue(s, j, k, state) <==> IsDue(r, j, k, state) {
        OthersStayDue(sc, r, i, j, k, state);
      }
      SameDue(r, s, i + 1, n, k, state);
      DidThen(r, s, FireFrom(sc, r, i, n, k, state),
              if IsDue(r, i, k, state) then [Fired(i, k, state)] else [], DueCalls(r, i + 1, n, k, state));
    }
  }

  // ---- rounds ------------------------------------------------------------

  /** The intervals there are once round k's tasks have run. */
  function Intervals(sc: Script, r: Realm, k: nat): seq<Task> { RunTasks(sc, Begun(r, k), r.once).repeats }

  /** All that the gate does in round k, in order. */
  function RoundLog(sc: Script, r: Realm, k: nat): seq<Event>
    requires Shaped(r)
  {
    BeforeFiringKeeps(sc, r, k);
    var b := BeforeFiring(sc, r, k);
    [Became(Lifecycle(k))] + RanAll(r.once) + TickedAll(Intervals(sc, r, k)) +
    DueCalls(b, 0, |b.listeners|, k, b.state) + [Drained]
  }

  lemma BeginDoes(r: Realm, k: nat)
    ensures Did(r, Begun(r, k), [Became(Lifecycle(k))])
  {
    GateOneMore(r.trace, Became(Lifecycle(k)));
  }

  /** A round sets the state, runs every task that was waiting, ticks every interval
      there then is, calls every listener that is due, and drains; each once, in
      order of registration, and nothing else. */
  lemma RoundDoes(sc: Script, r: Realm, k: nat)
    requires Shaped(r)
    ensures Did(r, Round(sc, r, k), RoundLog(sc, r, k))
  {
    hide Did, RunTasks, TickAll, FireFrom, Drain, DueCalls, RanAll, TickedAll;
    BeforeFiringKeeps(sc, r, k);
    var g := Begun(r, k);
    var ran := RunTasks(sc, g, r.once);
    var b := BeforeFiring(sc, r, k);
    var f := FireAllOf(sc, b, k);
    BeginDoes(r, k);
    RunTasksDoes(sc, g, r.once);
    DidThen(r, g, ran, [Became(Lifecycle(k))], RanAll(r.once));
    TickAllDoes(sc, ran, ran.repeats);
    DidThen(r, ran, b, [Became(Lifecycle(k))] + RanAll(r.once), TickedAll(ran.repeats));
    FireFromDoes(sc, b, 0, |b.listeners|, k, b.state);
    var due := DueCalls(b, 0, |b.listeners|, k, b.state);
    DidThen(r, b, f, [Became(Lifecycle(k))] + RanAll(r.once) + TickedAll(ran.repeats), due);
    DrainDoes(sc, f);
    DidThen(r, f, Round(sc, r, k), [Became(Lifecycle(k))] + RanAll(r.once) + TickedAll(ran.repeats) + due, [Drained]);
  }

  function RoundsLog(sc: Script, r: Realm, k: nat, n: nat): seq<Event>
    requires Shaped(r)
    decreases n - k
  {
    if k >= n then []
    else
      RoundKeeps(sc, r, k);
      RoundLog(sc, r, k) + RoundsLog(sc, Round(sc, r, k), k + 1, n)
  }

  lemma {:induction false} RoundsDo(sc: Script, r: Realm, k: nat, n: nat)
    requires Shaped(r)
    ensures Did(r, Rounds(sc, r, k, n), RoundsLog(sc, r, k, n))
    decreases n - k
  {
    hide Round, Did, RoundLog;
    if k >= n {
      NothingDone(r);
    } else {
      RoundKeeps(sc, r, k);
      var s := Round(sc, r, k);
      RoundDoes(sc, r, k);
      RoundsDo(sc, s, k + 1, n);
      DidThen(r, s, Rounds(sc, r, k, n), RoundLog(sc, r, k), RoundsLog(sc, s, k + 1, n));
    }
  }

  /** From loading to the end: a drain, then twenty rounds. */
  lemma SettledDoes(sc: Script, loaded: seq<Action>)
    ensures Shaped(ActAll(FRESH, loaded))
    ensures var r := ActAll(FRESH, loaded);
            Shaped(Drain(sc, r)) &&
            Gate(Settled(sc, r).trace) == [Drained] + RoundsLog(sc, Drain(sc, r), 0, 20) &&
            RepeatsOk(Settled(sc, r))
  {
    hide Rounds, RoundsLog, Drain, Gate;
    ActAllKeeps(FRESH, loaded);
    ActAllIsQuiet(FRESH, loaded);
    var r := ActAll(FRESH, loaded);
    DrainKeeps(sc, r);
    DrainDoes(sc, r);
    RoundsDo(sc, Drain(sc, r), 0, 20);
    DidThen(r, Drain(sc, r), Settled(sc, r), [Drained], RoundsLog(sc, Drain(sc, r), 0, 20));
    NothingAtFirst();
    assert RepeatsOk(FRESH);
    assert [] + ([Drained] + RoundsLog(sc, Drain(sc, r), 0, 20)) == [Drained] + RoundsLog(sc, Drain(sc, r), 0, 20);
  }

  lemma NothingAtFirst()
    ensures Gate(FRESH.trace) == []
  {}

  // ---- how often an interval ticks ---------------------------------------

  function TickCount(es: seq<Event>, t: Task): nat { multiset(es)[Ticked(t)] }

  lemma CountsAdd(a: seq<Event>, b: seq<Event>, t: Task)
    ensures TickCount(a + b, t) == TickCount(a, t) + TickCount(b, t)
  {}

  lemma {:induction false} GateKeepsTicks(tr: seq<Event>, t: Task)
    ensures TickCount(Gate(tr), t) == TickCount(tr, t)
  {
    if tr != [] {
      var init, e := tr[..|tr| - 1], tr[|tr| - 1];
      GateKeepsTicks(init, t);
      assert tr == init + [e];
      CountsAdd(init, [e], t);
      CountsAdd(Gate(init), if IsGates(e) then [e] else [], t);
    }
  }

  /** In a list of intervals with ids of their own each is there at most once. */
  lemma {:induction false} TicksOnce(ts: seq<Task>, t: Task)
    requires forall i, j :: 0 <= i < j < |ts| ==> ts[i].id < ts[j].id
    ensures TickCount(TickedAll(ts), t) == if t in ts then 1 else 0
  {
    if ts != [] {
      var init, last := ts[..|ts| - 1], ts[|ts| - 1];
      TicksOnce(init, t);
      assert ts == init + [last];
      assert TickedAll(ts) == TickedAll(init) + [Ticked(last)];
      CountsAdd(TickedAll(init), [Ticked(last)], t);
      if t == last { assert t !in init; }
    }
  }

  lemma NoTicks(es: seq<Event>, t: Task)
    requires forall i :: 0 <= i < |es| ==> !es[i].Ticked?
    ensures TickCount(es, t) == 0
  {
    assert Ticked(t) !in es;
  }

  lemma {:induction false} DueCallsAreCalls(r: Realm, i: nat, n: nat, k: nat, state: ReadyState)
    requires Shaped(r) && n <= |r.listeners|
    ensures forall j :: 0 <= j < |DueCalls(r, i, n, k, state)| ==> DueCalls(r, i, n, k, state)[j].Fired?
    decreases n - i
  {
    hide IsDue;
    if i < n { DueCallsAreCalls(r, i + 1, n, k, state); }
  }

  /** In one round an interval ticks once if it is there, and not otherwise. */
  lemma RoundTicks(sc: Script, r: Realm, k: nat, t: Task)
    requires Shaped(r) && RepeatsOk(r)
    ensures TickCount(RoundLog(sc, r, k), t) == if t in Intervals(sc, r, k) then 1 else 0
  {
    hide DueCalls, RunTasks, BeforeFiring, TickCount;
    BeforeFiringKeeps(sc, r, k);
    var b, ts := BeforeFiring(sc, r, k), Intervals(sc, r, k);
    var due := DueCalls(b, 0, |b.listeners|, k, b.state);
    IntervalsKeep(sc, r, k);
    TicksOnce(ts, t);
    NoTicks([Became(Lifecycle(k))] + RanAll(r.once), t);
    DueCallsAreCalls(b, 0, |b.listeners|, k, b.state);
    NoTicks(due, t);
    NoTicks([Drained], t);
    var first := [Became(Lifecycle(k))] + RanAll(r.once);
    CountsAdd(first, TickedAll(ts), t);
    CountsAdd(first + TickedAll(ts), due, t);
    CountsAdd(first + TickedAll(ts) + due, [Drained], t);
  }

  lemma IntervalsKeep(sc: Script, r: Realm, k: nat)
    ensures r.repeats <= Intervals(sc, r, k)
    ensures RepeatsOk(r) ==>
              forall i, j :: 0 <= i < j < |Intervals(sc, r, k)| ==> Intervals(sc, r, k)[i].id < Intervals(sc, r, k)[j].id
  {
    hide RunTasks, Gate;
    BeginDoes(r, k);
    RunTasksDoes(sc, Begun(r, k), r.once);
  }

  /** The intervals of round m are still there in every later round's ticks. */
  lemma RoundKeepsIntervals(sc: Script, r: Realm, k: nat)
    requires Shaped(r)
    ensures Intervals(sc, r, k) <= Round(sc, r, k).repeats
    ensures RepeatsOk(r) ==> RepeatsOk(Round(sc, r, k))
  {
    hide RunTasks, TickAll, FireFrom, Gate, RepeatsOk, DueCalls;
    RoundDoes(sc, r, k);
    BeforeFiringKeeps(sc, r, k);
    var ran := RunTasks(sc, Begun(r, k), r.once);
    var b := BeforeFiring(sc, r, k);
    TickAllDoes(sc, ran, ran.repeats);
    FireFromDoes(sc, b, 0, |b.listeners|, k, b.state);
    DrainDoes(sc, FireAllOf(sc, b, k));
  }

  /** An interval that is there when rounds begin ticks once in each of them. */
  lemma {:induction false} TicksInEveryRound(sc: Script, r: Realm, k: nat, n: nat, t: Task)
    requires Shaped(r) && RepeatsOk(r) && k <= n && t in r.repeats
    ensures TickCount(RoundsLog(sc, r, k, n), t) == n - k
    decreases n - k
  {
    hide Round, RoundLog, Intervals, TickCount, RepeatsOk;
    if k < n {
      RoundKeeps(sc, r, k);
      IntervalsKeep(sc, r, k);
      RoundTicks(sc, r, k, t);
      RoundKeepsIntervals(sc, r, k);
      TicksInEveryRound(sc, Round(sc, r, k), k + 1, n, t);
      CountsAdd(RoundLog(sc, r, k), RoundsLog(sc, Round(sc, r, k), k + 1, n), t);
    } else {
      NoTicks([], t);
    }
  }

  /** An interval ticks from the first round that finds it on: registered before the
      rounds or while round m's tasks run, 20 - m times in all, m being 0 for the
      former; and never if no round finds it. */
  lemma {:induction false} TicksFrom(sc: Script, r: Realm, k: nat, n: nat, t: Task)
    requires Shaped(r) && RepeatsOk(r) && k <= n
    ensures TickCount(RoundsLog(sc, r, k, n), t) == 0 <==> NoneFinds(sc, r, k, n, t)
    ensures forall m :: k <= m < n && FirstFinds(sc, r, k, m, t) ==> TickCount(RoundsLog(sc, r, k, n), t) == n - m
    decreases n - k
  {
    hide Round, RoundLog, Intervals, TickCount, RepeatsOk;
    if k < n {
      RoundKeeps(sc, r, k);
      var s := Round(sc, r, k);
      RoundTicks(sc, r, k, t);
      RoundKeepsIntervals(sc, r, k);
      CountsAdd(RoundLog(sc, r, k), RoundsLog(sc, s, k + 1, n), t);
      if t in Intervals(sc, r, k) {
        assert t in s.repeats;
        TicksInEveryRound(sc, s, k + 1, n, t);
        assert t in IntervalsIn(sc, r, k, k);
      } else {
        var next := k + 1;
        TicksFrom(sc, s, next, n, t);
        FoundLater(sc, r, k, next, n, t);
        assert TickCount(RoundsLog(sc, r, k, n), t) == TickCount(RoundsLog(sc, s, next, n), t);
        forall m | k <= m < n && FirstFinds(sc, r, k, m, t)
          ensures TickCount(RoundsLog(sc, r, k, n), t) == n - m
        {
          assert m != k;
        }
        if NoneFinds(sc, r, k, n, t) {
          forall m | next <= m < n ensures t !in IntervalsIn(sc, s, next, m) {
            assert t !in IntervalsIn(sc, r, k, m);
          }
        }
        if NoneFinds(sc, s, next, n, t) {
          forall m | k <= m < n ensures t !in IntervalsIn(sc, r, k, m) {
            if m > k { assert t !in IntervalsIn(sc, s, next, m); }
          }
        }
      }
    } else {
      NoTicks([], t);
    }
  }

  /** An interval that round k does not find is found as it is from the next one on. */
  lemma FoundLater(sc: Script, r: Realm, k: nat, next: nat, n: nat, t: Task)
    requires Shaped(r) && next == k + 1 && t !in Intervals(sc, r, k)
    ensures Shaped(Round(sc, r, k))
    ensures t !in IntervalsIn(sc, r, k, k)
    ensures forall m :: next <= m < n ==> IntervalsIn(sc, r, k, m) == IntervalsIn(sc, Round(sc, r, k), next, m)
    ensures forall m :: next <= m < n && FirstFinds(sc, r, k, m, t) ==> FirstFinds(sc, Round(sc, r, k), next, m, t)
  {
    hide Round, Intervals;
    RoundKeeps(sc, r, k);
    var s := Round(sc, r, k);
    forall m | next <= m < n && FirstFinds(sc, r, k, m, t) ensures FirstFinds(sc, s, next, m, t) {
      assert t in IntervalsIn(sc, s, next, m);
      forall l | next <= l < m ensures t !in IntervalsIn(sc, s, next, l) { assert t !in IntervalsIn(sc, r, k, l); }
    }
  }

  ghost predicate NoneFinds(sc: Script, r: Realm, k: nat, n: nat, t: Task)
    requires Shaped(r)
  {
    forall m :: k <= m < n ==> t !in IntervalsIn(sc, r, k, m)
  }

  /** Round m is the first to find the interval. */
  ghost predicate FirstFinds(sc: Script, r: Realm, k: nat, m: nat, t: Task)
    requires Shaped(r)
  {
    t in IntervalsIn(sc, r, k, m) && forall l :: k <= l < m ==> t !in IntervalsIn(sc, r, k, l)
  }

  /** The intervals that round m ticks, in rounds that begin with k at r. */
  function IntervalsIn(sc: Script, r: Realm, k: nat, m: nat): seq<Task>
    requires Shaped(r)
    decreases m - k
  {
    if m <= k then Intervals(sc, r, k)
    else
      RoundKeeps(sc, r, k);
      IntervalsIn(sc, Round(sc, r, k), k + 1, m)
  }

  /** For every script: an interval found by round m first ticks exactly 20 - m times
      in the settled trace, and one that no round finds never does. */
  lemma IntervalTicks(sc: Script, loaded: seq<Action>, t: Task, m: nat)
    requires m < 20
    ensures Shaped(ActAll(FRESH, loaded)) && Shaped(Drain(sc, ActAll(FRESH, loaded)))
    ensures var d := Drain(sc, ActAll(FRESH, loaded)); var f := Settled(sc, ActAll(FRESH, loaded));
            && (Times(f, Ticked(t)) == 0 <==> NoneFinds(sc, d, 0, 20, t))
            && (FirstFinds(sc, d, 0, m, t) ==> Times(f, Ticked(t)) == 20 - m)
  {
    hide Rounds, RoundsLog, Gate, IntervalsIn, Drain;
    SettledDoes(sc, loaded);
    var r := ActAll(FRESH, loaded);
    var d := Drain(sc, r);
    DrainedIsOk(sc, loaded);
    TicksFrom(sc, d, 0, 20, t);
    GateKeepsTicks(Settled(sc, r).trace, t);
    NoTicks([Drained], t);
    CountsAdd([Drained], RoundsLog(sc, d, 0, 20), t);
  }

  lemma DrainedIsOk(sc: Script, loaded: seq<Action>)
    ensures RepeatsOk(Drain(sc, ActAll(FRESH, loaded)))
    ensures ActAll(FRESH, loaded).repeats <= Drain(sc, ActAll(FRESH, loaded)).repeats
  {
    hide Gate;
    ActAllIsQuiet(FRESH, loaded);
    DrainDoes(sc, ActAll(FRESH, loaded));
  }

  // ---- what registering leads to -----------------------------------------

  /** Among the actions' results there is the interval, and the timer, asked for. */
  lemma {:induction false} AskedFor(r: Realm, acts: seq<Action>, j: nat, cb: Callback)
    requires j < |acts|
    ensures acts[j] == Every(Some(cb)) ==> exists t :: t in ActAll(r, acts).repeats && t.cb == cb
    ensures acts[j] == Later(Some(cb)) ==> exists t :: t in ActAll(r, acts).once && t.cb == cb
    ensures forall kind :: acts[j] == Listen(kind, Some(cb)) ==> Listener(kind, cb) in ActAll(r, acts).listeners
    decreases |acts|
  {
    var s := Act(r, acts[0]);
    if j > 0 {
      AskedFor(s, acts[1..], j - 1, cb);
    } else {
      ActAllGrows(s, acts[1..]);
      if acts[0] == Every(Some(cb)) { assert Task(r.nextId, cb, r.depth) in s.repeats; }
      if acts[0] == Later(Some(cb)) { assert Task(r.nextId, cb, r.depth) in s.once; }
      if acts[0].Listen? && acts[0].fn == Some(cb) { assert Listener(acts[0].kind, cb) in s.listeners; }
    }
  }

  lemma {:induction false} ActAllGrows(r: Realm, acts: seq<Action>)
    ensures r.repeats <= ActAll(r, acts).repeats && r.once <= ActAll(r, acts).once
    ensures r.listeners <= ActAll(r, acts).listeners
    decreases |acts|
  {
    if acts != [] { ActAllGrows(Act(r, acts[0]), acts[1..]); }
  }

  /** setInterval while the page loads: its callback ticks in each of twenty rounds. */
  lemma LoadedIntervalTicks(sc: Script, loaded: seq<Action>, j: nat, cb: Callback)
    requires j < |loaded| && loaded[j] == Every(Some(cb))
    ensures Shaped(ActAll(FRESH, loaded))
    ensures exists t: Task :: t.cb == cb && Times(Settled(sc, ActAll(FRESH, loaded)), Ticked(t)) == 20
  {
    hide Settled, ActAll, Drain, Intervals;
    AskedFor(FRESH, loaded, j, cb);
    var t :| t in ActAll(FRESH, loaded).repeats && t.cb == cb;
    IntervalTicks(sc, loaded, t, 0);
    DrainedIsOk(sc, loaded);
    IntervalsKeep(sc, Drain(sc, ActAll(FRESH, loaded)), 0);
    assert t in IntervalsIn(sc, Drain(sc, ActAll(FRESH, loaded)), 0, 0);
  }

  /** setInterval from a task of round k: the interval is among those the round ticks. */
  lemma {:induction false} TaskIntervalTicks(sc: Script, r: Realm, ts: seq<Task>, i: nat, j: nat, cb: Callback)
    requires i < |ts|
    requires var at := RunTasks(sc, r, ts[..i]);
             var acts := sc.does(ts[i].cb, at.trace + [Ran(ts[i])]); j < |acts| && acts[j] == Every(Some(cb))
    ensures exists t :: t in RunTasks(sc, r, ts).repeats && t.cb == cb
    decreases i
  {
    hide Gate;
    var s := Call(sc, r, ts[0].cb, Ran(ts[0]));
    if i == 0 {
      assert ts[..0] == [];
      AskedFor(Note(r, Ran(ts[0])), sc.does(ts[0].cb, r.trace + [Ran(ts[0])]), j, cb);
      RunTasksDoes(sc, s, ts[1..]);
    } else {
      assert ts[..i] == [ts[0]] + ts[1..][..i - 1];
      assert ts[..i][1..] == ts[1..][..i - 1];
      TaskIntervalTicks(sc, s, ts[1..], i - 1, j, cb);
    }
  }

  /** What a ticking interval's callback asks for is queued. */
  lemma {:induction false} TickAsks(sc: Script, r: Realm, ts: seq<Task>, i: nat, j: nat, cb: Callback)
    requires i < |ts|
    requires var at := TickAll(sc, r, ts[..i]);
             var acts := sc.does(ts[i].cb, at.trace + [Ticked(ts[i])]); j < |acts| && acts[j] == Later(Some(cb))
    ensures exists t :: t in TickAll(sc, r, ts).once && t.cb == cb
    decreases i
  {
    var s := Call(sc, r, ts[0].cb, Ticked(ts[0]));
    if i == 0 {
      assert ts[..0] == [];
      AskedFor(Note(r, Ticked(ts[0])), sc.does(ts[0].cb, r.trace + [Ticked(ts[0])]), j, cb);
      TickAllGrows(sc, s, ts[1..]);
    } else {
      assert ts[..i] == [ts[0]] + ts[1..][..i - 1];
      assert ts[..i][1..] == ts[1..][..i - 1];
      TickAsks(sc, s, ts[1..], i - 1, j, cb);
    }
  }

  lemma {:induction false} TickAllGrows(sc: Script, r: Realm, ts: seq<Task>)
    ensures r.once <= TickAll(sc, r, ts).once
    decreases |ts|
  {
    if ts != [] {
      ActAllGrows(Note(r, Ticked(ts[0])), sc.does(ts[0].cb, r.trace + [Ticked(ts[0])]));
      TickAllGrows(sc, Call(sc, r, ts[0].cb, Ticked(ts[0])), ts[1..]);
    }
  }

  /** And so is what the callback of a listener that is called asks for. */
  lemma FireAsks(sc: Script, r: Realm, i: nat, k: nat, state: ReadyState, j: nat, cb: Callback)
    requires Shaped(r) && i < |r.listeners| && IsDue(r, i, k, state)
    requires var acts := sc.does(r.listeners[i].cb, r.trace + [Fired(i, k, state)]);
             j < |acts| && acts[j] == Later(Some(cb))
    ensures exists t :: t in FireOne(sc, r, i, k, state).once && t.cb == cb
  {
    AskedFor(Note(Marked(r, i, state), Fired(i, k, state)),
             sc.does(r.listeners[i].cb, r.trace + [Fired(i, k, state)]), j, cb);
  }

  /** And what a drain of microtasks leaves behind. */
  lemma DrainAsks(sc: Script, r: Realm, j: nat, cb: Callback)
    requires j < |sc.drains(r.trace + [Drained])| && sc.drains(r.trace + [Drained])[j] == Later(Some(cb))
    ensures exists t :: t in Drain(sc, r).once && t.cb == cb
  {
    AskedFor(Note(r, Drained), sc.drains(r.trace + [Drained]), j, cb);
  }

  /** setTimeout while the page loads: its callback runs, once. */
  lemma LoadedTimerRuns(sc: Script, loaded: seq<Action>, j: nat, cb: Callback)
    requires j < |loaded| && loaded[j] == Later(Some(cb))
    ensures Shaped(ActAll(FRESH, loaded))
    ensures exists t: Task :: t.cb == cb && Times(Settled(sc, ActAll(FRESH, loaded)), Ran(t)) == 1
  {
    hide Settled, Drain, Rounds;
    ActAllKeeps(FRESH, loaded);
    AskedFor(FRESH, loaded, j, cb);
    var r := ActAll(FRESH, loaded);
    var t :| t in r.once && t.cb == cb;
    FreshIsConserved();
    ActAllConserves(FRESH, loaded, []);
    QueuedIsNoted(r, t);
    EveryTaskRunsOnceToDepth19(sc, loaded, t);
    QueuedStays(sc, r, t);
    LoadDepth(FRESH, loaded);
  }

  lemma QueuedIsNoted(r: Realm, t: Task)
    requires TasksConserved(r, []) && DepthsOk(r, []) && t in r.once
    ensures Queued(t) in r.trace && t.depth == r.depth
  {
    assert Times(r, Queued(t)) >= multiset(r.once)[t];
  }

  lemma {:induction false} LoadDepth(r: Realm, acts: seq<Action>)
    ensures ActAll(r, acts).depth == r.depth
    decreases |acts|
  {
    if acts != [] { LoadDepth(Act(r, acts[0]), acts[1..]); }
  }

  lemma QueuedStays(sc: Script, r: Realm, t: Task)
    requires Shaped(r) && Queued(t) in r.trace
    ensures Queued(t) in Settled(sc, r).trace
  {
    hide Drain, Rounds;
    DrainKeeps(sc, r);
    RoundsExtend(sc, Drain(sc, r), 0, ROUNDS);
    var i :| 0 <= i < |r.trace| && r.trace[i] == Queued(t);
    assert Drain(sc, r).trace[i] == r.trace[i];
    assert Settled(sc, r).trace[i] == Drain(sc, r).trace[i];
  }
}
