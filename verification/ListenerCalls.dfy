/** Which listeners the scheduler calls, in which round and in which state: exactly,
    for every page script, and what that says of the page lifecycle. */
module ListenerCalls {
  import opened Basics
  import opened Scheduler

  // ---- the states calls are made in ---------------------------------------

  /** What has been added since is no call but such as round k makes, in `state`, of
      the first n listeners. */
  ghost predicate NewCalls(tr: seq<Event>, tr': seq<Event>, k: nat, state: ReadyState, n: nat) {
    && tr <= tr'
    && forall p :: |tr| <= p < |tr'| && tr'[p].Fired? ==>
         tr'[p].round == k && tr'[p].state == state && tr'[p].listener < n
  }

  lemma {:induction false} ActAllCallsNone(r: Realm, acts: seq<Action>, k: nat, state: ReadyState, n: nat)
    ensures NewCalls(r.trace, ActAll(r, acts).trace, k, state, n)
    decreases |acts|
  {
    if acts != [] { ActAllCallsNone(Act(r, acts[0]), acts[1..], k, state, n); }
  }

  lemma CallCalls(sc: Script, r: Realm, cb: Callback, e: Event, k: nat, state: ReadyState, n: nat)
    requires e.Fired? ==> e.round == k && e.state == state && e.listener < n
    ensures NewCalls(r.trace, Call(sc, r, cb, e).trace, k, state, n)
  {
    ActAllCallsNone(Note(r, e), sc.does(cb, r.trace + [e]), k, state, n);
  }

  lemma {:induction false} RunTasksCallsNone(sc: Script, r: Realm, ts: seq<Task>, k: nat, state: ReadyState, n: nat)
    ensures NewCalls(r.trace, RunTasks(sc, r, ts).trace, k, state, n)
    decreases |ts|
  {
    hide Call;
    if ts != [] {
      CallCalls(sc, r, ts[0].cb, Ran(ts[0]), k, state, n);
      RunTasksCallsNone(sc, Call(sc, r, ts[0].cb, Ran(ts[0])), ts[1..], k, state, n);
    }
  }

  lemma {:induction false} TickAllCallsNone(sc: Script, r: Realm, ts: seq<Task>, k: nat, state: ReadyState, n: nat)
    ensures NewCalls(r.trace, TickAll(sc, r, ts).trace, k, state, n)
    decreases |ts|
  {
    hide Call;
    if ts != [] {
      CallCalls(sc, r, ts[0].cb, Ticked(ts[0]), k, state, n);
      TickAllCallsNone(sc, Call(sc, r, ts[0].cb, Ticked(ts[0])), ts[1..], k, state, n);
    }
  }

  lemma {:induction false} FireFromCalls(sc: Script, r: Realm, i: nat, n: nat, k: nat, state: ReadyState)
    requires Shaped(r) && n <= |r.listeners|
    ensures NewCalls(r.trace, FireFrom(sc, r, i, n, k, state).trace, k, state, n)
    decreases n - i
  {
    hide Call;
    if i < n {
      FireOneKeeps(sc, r, i, k, state);
      if IsDue(r, i, k, state) {
        CallCalls(sc, Marked(r, i, state), r.listeners[i].cb, Fired(i, k, state), k, state, n);
      }
      FireFromCalls(sc, FireOne(sc, r, i, k, state), i + 1, n, k, state);
    }
  }

  /** All calls of a round are of its snapshot's listeners, in the state it found. */
  lemma RoundCalls(sc: Script, r: Realm, k: nat)
    requires Shaped(r)
    ensures var b := BeforeFiring(sc, r, k);
            NewCalls(r.trace, Round(sc, r, k).trace, k, b.state, |b.listeners|)
  {
    hide RunTasks, TickAll, FireFrom;
    var b := BeforeFiring(sc, r, k);
    var ran := RunTasks(sc, Begun(r, k), r.once);
    RunTasksCallsNone(sc, Begun(r, k), r.once, k, b.state, |b.listeners|);
    TickAllCallsNone(sc, ran, ran.repeats, k, b.state, |b.listeners|);
    BeforeFiringKeeps(sc, r, k);
    FireFromCalls(sc, b, 0, |b.listeners|, k, b.state);
    var f := FireAllOf(sc, b, k);
    ActAllCallsNone(Note(f, Drained), sc.drains(f.trace + [Drained]), k, b.state, |b.listeners|);
  }

  /** Every call made in rounds k to n - 1 is of a listener in its round's snapshot,
      in the state that snapshot found, whatever the page writes and when. */
  lemma {:induction false} RoundsCall(sc: Script, r: Realm, k: nat, n: nat, p: nat)
    requires Shaped(r) && |r.trace| <= p < |Rounds(sc, r, k, n).trace| && Rounds(sc, r, k, n).trace[p].Fired?
    ensures var e := Rounds(sc, r, k, n).trace[p];
            k <= e.round < n &&
            var b := BeforeFiring(sc, Rounds(sc, r, k, e.round), e.round);
            e.state == b.state && e.listener < |b.listeners|
    decreases n - k
  {
    hide Round, BeforeFiring;
    if k < n {
      RoundKeeps(sc, r, k);
      RoundCalls(sc, r, k);
      var after := Round(sc, r, k);
      RoundsExtend(sc, after, k + 1, n);
      if p >= |after.trace| {
        RoundsCall(sc, after, k + 1, n, p);
      } else {
        assert Rounds(sc, r, k, n).trace[p] == after.trace[p];
      }
    }
  }

  lemma CallsAreInSnapshotState(sc: Script, loaded: seq<Action>, p: nat)
    ensures Shaped(ActAll(FRESH, loaded))
    ensures var r := ActAll(FRESH, loaded); var f := Settled(sc, r);
            p < |f.trace| && f.trace[p].Fired? ==>
              f.trace[p].round < ROUNDS &&
              var s := Snapshot(sc, r, f.trace[p].round);
              f.trace[p].state == s.state && f.trace[p].listener < |s.listeners|
  {
    hide Rounds;
    ActAllKeeps(FRESH, loaded);
    var r := ActAll(FRESH, loaded);
    var d, f := Drain(sc, r), Settled(sc, r);
    DrainKeeps(sc, r);
    RoundsExtend(sc, d, 0, ROUNDS);
    LoadCallsNone(sc, loaded);
    if p < |f.trace| && f.trace[p].Fired? {
      RoundsCall(sc, d, 0, ROUNDS, p);
    }
  }

  lemma LoadCallsNone(sc: Script, loaded: seq<Action>)
    ensures var d := Drain(sc, ActAll(FRESH, loaded)); forall p :: 0 <= p < |d.trace| ==> !d.trace[p].Fired?
  {
    var r := ActAll(FRESH, loaded);
    ActAllCallsNone(FRESH, loaded, 0, 0, 0);
    ActAllCallsNone(FRESH, loaded, 1, 0, 0);
    ActAllCallsNone(Note(r, Drained), sc.drains(r.trace + [Drained]), 0, 0, 0);
    ActAllCallsNone(Note(r, Drained), sc.drains(r.trace + [Drained]), 1, 0, 0);
  }

  // ---- which calls are made, exactly --------------------------------------

  /** Listener i is in round k's snapshot and round 0 does not pass it over. */
  ghost predicate Reaches(sc: Script, r: Realm, i: nat, k: nat)
    requires Shaped(r)
  {
    var s := Snapshot(sc, r, k);
    k < ROUNDS && i < |s.listeners| && (k == 0 ==> IsEarly(s.listeners[i].kind))
  }

  ghost function KeyAt(sc: Script, r: Realm, i: nat, k: nat): Key
    requires Shaped(r) && Reaches(sc, r, i, k)
  {
    KeyFor(Snapshot(sc, r, k).listeners[i].kind, Snapshot(sc, r, k).state)
  }

  /** Round k is the first to reach listener i under its key. */
  ghost predicate FirstUnderKey(sc: Script, r: Realm, i: nat, k: nat)
    requires Shaped(r)
  {
    Reaches(sc, r, i, k) &&
    forall m :: 0 <= m < k && Reaches(sc, r, i, m) ==> KeyAt(sc, r, i, m) != KeyAt(sc, r, i, k)
  }

  /** Round k calls listener i. */
  ghost predicate CalledIn(tr: seq<Event>, i: nat, k: nat) {
    exists p :: 0 <= p < |tr| && IsCallOf(tr[p], i) && tr[p].round == k
  }

  lemma {:induction false} CallIsThere(tr: seq<Event>, i: nat) returns (p: nat)
    requires Calls(tr, i) > 0
    ensures p < |tr| && IsCallOf(tr[p], i)
  {
    p := |tr| - 1;
    if !IsCallOf(tr[p], i) { p := CallIsThere(tr[..p], i); }
  }

  lemma {:induction false} CallInIsThere(tr: seq<Event>, i: nat, state: ReadyState) returns (p: nat)
    requires CallsIn(tr, i, state) > 0
    ensures p < |tr| && IsCallOf(tr[p], i) && tr[p].state == state
  {
    p := |tr| - 1;
    if !IsCallOf(tr[p], i) || tr[p].state != state { p := CallInIsThere(tr[..p], i, state); }
  }

  lemma {:induction false} CallCounts(tr: seq<Event>, i: nat, p: nat)
    requires p < |tr| && IsCallOf(tr[p], i)
    ensures Calls(tr, i) >= 1 && CallsIn(tr, i, tr[p].state) >= 1
  {
    if p < |tr| - 1 { CallCounts(tr[..|tr| - 1], i, p); }
  }

  lemma {:induction false} TwoCallsCount(tr: seq<Event>, i: nat, p: nat, q: nat)
    requires p < q < |tr| && IsCallOf(tr[p], i) && IsCallOf(tr[q], i)
    ensures Calls(tr, i) >= 2
    ensures tr[p].state == tr[q].state ==> CallsIn(tr, i, tr[p].state) >= 2
  {
    var before := tr[..|tr| - 1];
    if q < |tr| - 1 { TwoCallsCount(before, i, p, q); } else { CallCounts(before, i, p); }
  }

  /** A key that a listener holds is the key of a call it had. */
  lemma HeldKeyWasCalled(r: Realm, i: nat, state: ReadyState) returns (p: nat)
    requires CallsMatchKeys(r) && i < |r.listeners|
    requires KeyFor(r.listeners[i].kind, state) in r.seen[i]
    ensures p < |r.trace| && IsCallOf(r.trace[p], i)
    ensures KeyFor(r.listeners[i].kind, r.trace[p].state) == KeyFor(r.listeners[i].kind, state)
  {
    assert CountOk(r.trace, i, r.listeners[i].kind, r.seen[i]);
    if r.listeners[i].kind.ReadyStateChange? {
      assert CallsIn(r.trace, i, state) == 1;
      p := CallInIsThere(r.trace, i, state);
    } else {
      p := CallIsThere(r.trace, i);
    }
  }

  lemma OnceUnderKey(r: Realm, i: nat, p: nat, q: nat)
    requires CallsMatchKeys(r) && i < |r.listeners| && p < |r.trace| && q < |r.trace|
    requires IsCallOf(r.trace[p], i) && IsCallOf(r.trace[q], i)
    requires KeyFor(r.listeners[i].kind, r.trace[p].state) == KeyFor(r.listeners[i].kind, r.trace[q].state)
    ensures p == q
  {
    assert CountOk(r.trace, i, r.listeners[i].kind, r.seen[i]);
    if p < q { TwoCallsCount(r.trace, i, p, q); }
    if q < p { TwoCallsCount(r.trace, i, q, p); }
  }

  /** The realm right after round k. */
  function AfterRound(sc: Script, r: Realm, k: nat): Realm
    requires Shaped(r)
  {
    DrainKeeps(sc, r);
    Rounds(sc, Drain(sc, r), 0, k + 1)
  }

  lemma AfterRoundIs(sc: Script, r: Realm, k: nat)
    requires Shaped(r) && ListenersOk(r) && r.depth == 0 && k < ROUNDS
    ensures var a, f, s := AfterRound(sc, r, k), Settled(sc, r), Snapshot(sc, r, k);
            && ListenersOk(a) && a.depth == k + 1
            && a.trace <= f.trace && s.listeners <= a.listeners <= f.listeners && Shaped(a)
            && forall i :: 0 <= i < |s.listeners| ==> !IsDue(a, i, k, s.state)
  {
    hide ListenersOk, Round, BeforeFiring, Drain, IsDue;
    DrainKeeps(sc, r);
    DrainKeepsListeners(sc, r);
    var d := Drain(sc, r);
    RoundsKeepListeners(sc, d, 0, k + 1);
    RoundsCompose(sc, d, 0, k, k + 1);
    RoundsCompose(sc, d, 0, k + 1, ROUNDS);
    RoundKeeps(sc, Rounds(sc, d, 0, k), k);
    assert AfterRound(sc, r, k) == Round(sc, Rounds(sc, d, 0, k), k);
    RoundsExtend(sc, AfterRound(sc, r, k), k + 1, ROUNDS);
  }

  /** A listener that round k reaches has been called under its key by the end of
      the round. */
  lemma ReachedIsCalled(sc: Script, r: Realm, i: nat, k: nat) returns (p: nat)
    requires Shaped(r) && ListenersOk(r) && r.depth == 0 && Reaches(sc, r, i, k)
    ensures var f := Settled(sc, r);
            && p < |f.trace| && IsCallOf(f.trace[p], i) && f.trace[p].round <= k
            && KeyFor(Snapshot(sc, r, k).listeners[i].kind, f.trace[p].state) == KeyAt(sc, r, i, k)
  {
    hide Snapshot, Settled, AfterRound;
    AfterRoundIs(sc, r, k);
    var a, s := AfterRound(sc, r, k), Snapshot(sc, r, k);
    assert !IsDue(a, i, k, s.state);
    p := HeldKeyWasCalled(a, i, s.state);
    assert CallOk(a, a.trace[p]);
    assert a.trace[p] == Settled(sc, r).trace[p];
  }

  /** What is known of a call: its round reaches its listener, in its state. */
  lemma CallReaches(sc: Script, loaded: seq<Action>, p: nat)
    ensures Shaped(ActAll(FRESH, loaded))
    ensures var r := ActAll(FRESH, loaded); var f := Settled(sc, r);
            p < |f.trace| && f.trace[p].Fired? ==>
              var e := f.trace[p];
              && Reaches(sc, r, e.listener, e.round) && e.state == Snapshot(sc, r, e.round).state
              && e.listener < |f.listeners|
              && f.listeners[e.listener] == Snapshot(sc, r, e.round).listeners[e.listener]
  {
    hide Snapshot, Settled;
    CallsAreInSnapshotState(sc, loaded, p);
    LoadedIsOk(loaded);
    var r := ActAll(FRESH, loaded);
    SettledIsOk(sc, r);
    var f := Settled(sc, r);
    if p < |f.trace| && f.trace[p].Fired? {
      assert CallOk(f, f.trace[p]);
      SnapshotIsCalled(sc, r, f.trace[p].round);
    }
  }

  /** Over any script: round k calls listener i if and only if it is the first
      round to reach it under its key. So a readystatechange listener is called in
      the first round that finds each state, any other in the first that reaches
      it, and a page that writes document.readyState decides nothing else. */
  lemma CalledInRoundIff(sc: Script, loaded: seq<Action>, i: nat, k: nat)
    ensures Shaped(ActAll(FRESH, loaded))
    ensures var r := ActAll(FRESH, loaded);
            CalledIn(Settled(sc, r).trace, i, k) <==> FirstUnderKey(sc, r, i, k)
  {
    hide Snapshot, Settled;
    LoadedIsOk(loaded);
    var r := ActAll(FRESH, loaded);
    var f := Settled(sc, r);
    if CalledIn(f.trace, i, k) {
      var p :| 0 <= p < |f.trace| && IsCallOf(f.trace[p], i) && f.trace[p].round == k;
      CallIsFirst(sc, loaded, p);
    }
    if FirstUnderKey(sc, r, i, k) {
      var p := ReachedIsCalled(sc, r, i, k);
      CallReaches(sc, loaded, p);
      SnapshotIsCalled(sc, r, k);
    }
  }

  lemma CallIsFirst(sc: Script, loaded: seq<Action>, p: nat)
    requires Shaped(ActAll(FRESH, loaded))
    requires var f := Settled(sc, ActAll(FRESH, loaded)); p < |f.trace| && f.trace[p].Fired?
    ensures var r := ActAll(FRESH, loaded); var e := Settled(sc, r).trace[p];
            FirstUnderKey(sc, r, e.listener, e.round)
  {
    hide Snapshot, Settled;
    LoadedIsOk(loaded);
    CallReaches(sc, loaded, p);
    var r := ActAll(FRESH, loaded);
    SettledIsOk(sc, r);
    var f := Settled(sc, r);
    var i, k := f.trace[p].listener, f.trace[p].round;
    forall m | 0 <= m < k && Reaches(sc, r, i, m) ensures KeyAt(sc, r, i, m) != KeyAt(sc, r, i, k) {
      var q := ReachedIsCalled(sc, r, i, m);
      SnapshotIsCalled(sc, r, m);
      if KeyAt(sc, r, i, m) == KeyAt(sc, r, i, k) { OnceUnderKey(f, i, p, q); }
    }
  }

  /** How often a listener is called: a readystatechange one once in a state that
      some snapshot with it found and never in another, any other one once if some
      round reaches it and never if none does. */
  lemma CallCountIff(sc: Script, loaded: seq<Action>, i: nat, state: ReadyState)
    ensures Shaped(ActAll(FRESH, loaded))
    ensures var r := ActAll(FRESH, loaded); var f := Settled(sc, r);
            i < |f.listeners| ==>
              if f.listeners[i].kind.ReadyStateChange? then
                && CallsIn(f.trace, i, state) <= 1
                && (CallsIn(f.trace, i, state) == 1 <==>
                      exists k :: 0 <= k < ROUNDS && Finds(sc, r, i, k, state))
              else Calls(f.trace, i) == if exists k: nat :: Reaches(sc, r, i, k) then 1 else 0
  {
    hide Snapshot, Settled;
    LoadedIsOk(loaded);
    var r := ActAll(FRESH, loaded);
    SettledIsOk(sc, r);
    var f := Settled(sc, r);
    if i < |f.listeners| {
      assert CountOk(f.trace, i, f.listeners[i].kind, f.seen[i]);
      if f.listeners[i].kind.ReadyStateChange? {
        assert CallsIn(f.trace, i, state) <= 1;
        if CallsIn(f.trace, i, state) == 1 {
          var p := CallInIsThere(f.trace, i, state);
          CallReaches(sc, loaded, p);
          assert Finds(sc, r, i, f.trace[p].round, state);
        }
        if k :| 0 <= k < ROUNDS && Finds(sc, r, i, k, state) { ListenersFire(sc, loaded, k, i); }
      } else {
        if Calls(f.trace, i) == 1 {
          var p := CallIsThere(f.trace, i);
          CallReaches(sc, loaded, p);
        }
        if k: nat :| Reaches(sc, r, i, k) { ListenersFire(sc, loaded, k, i); }
      }
    }
  }

  /** Listener i is in round k's snapshot, which found this state. */
  ghost predicate Finds(sc: Script, r: Realm, i: nat, k: nat, state: ReadyState)
    requires Shaped(r)
  {
    i < |Snapshot(sc, r, k).listeners| && Snapshot(sc, r, k).state == state
  }

  /** Exactly when the lifecycle is not followed. Some call is made in another state
      than its round's own if and only if a round that calls a listener found
      another; some interactive call comes after a complete one if and only if a
      round that calls a listener found complete before another found interactive. */
  lemma LifecycleBrokenIff(sc: Script, loaded: seq<Action>)
    ensures Shaped(ActAll(FRESH, loaded))
    ensures var r := ActAll(FRESH, loaded); var tr := Settled(sc, r).trace;
            (exists p :: 0 <= p < |tr| && tr[p].Fired? && tr[p].state != Lifecycle(tr[p].round)) <==>
              exists i, k :: FirstUnderKey(sc, r, i, k) && Snapshot(sc, r, k).state != Lifecycle(k)
    ensures var r := ActAll(FRESH, loaded); var tr := Settled(sc, r).trace;
            (exists p, q :: 0 <= p < q < |tr| && IsCallWhile(tr[p], COMPLETE) && IsCallWhile(tr[q], INTERACTIVE)) <==>
              exists i, j, i', k :: j < k && CallsWhile(sc, r, i, j, COMPLETE) && CallsWhile(sc, r, i', k, INTERACTIVE)
  {
    hide Snapshot, Settled, FirstUnderKey;
    LoadedIsOk(loaded);
    var r := ActAll(FRESH, loaded);
    var tr := Settled(sc, r).trace;
    forall p | 0 <= p < |tr| && tr[p].Fired?
      ensures CallsWhile(sc, r, tr[p].listener, tr[p].round, tr[p].state)
    {
      CallIsFirst(sc, loaded, p);
      CallReaches(sc, loaded, p);
    }
    if i, k :| FirstUnderKey(sc, r, i, k) && Snapshot(sc, r, k).state != Lifecycle(k) {
      var p := FirstIsCalled(sc, loaded, i, k);
    }
    RoundsInOrder(sc, loaded);
    if i, j, i', k :| j < k && CallsWhile(sc, r, i, j, COMPLETE) && CallsWhile(sc, r, i', k, INTERACTIVE) {
      var p := FirstIsCalled(sc, loaded, i, j);
      var q := FirstIsCalled(sc, loaded, i', k);
      assert IsCallWhile(tr[p], COMPLETE) && IsCallWhile(tr[q], INTERACTIVE);
    }
    if p, q :| 0 <= p < q < |tr| && IsCallWhile(tr[p], COMPLETE) && IsCallWhile(tr[q], INTERACTIVE) {
      assert CallsWhile(sc, r, tr[p].listener, tr[p].round, COMPLETE);
      assert CallsWhile(sc, r, tr[q].listener, tr[q].round, INTERACTIVE);
    }
  }

  predicate IsCallWhile(e: Event, state: ReadyState) { e.Fired? && e.state == state }

  /** Round k calls listener i for the first time under its key, in this state. */
  ghost predicate CallsWhile(sc: Script, r: Realm, i: nat, k: nat, state: ReadyState)
    requires Shaped(r)
  {
    FirstUnderKey(sc, r, i, k) && Snapshot(sc, r, k).state == state
  }

  lemma FirstIsCalled(sc: Script, loaded: seq<Action>, i: nat, k: nat) returns (p: nat)
    requires Shaped(ActAll(FRESH, loaded)) && FirstUnderKey(sc, ActAll(FRESH, loaded), i, k)
    ensures var r := ActAll(FRESH, loaded); var tr := Settled(sc, r).trace;
            p < |tr| && IsCallOf(tr[p], i) && tr[p].round == k && tr[p].state == Snapshot(sc, r, k).state
  {
    hide Snapshot, Settled, FirstUnderKey;
    CalledInRoundIff(sc, loaded, i, k);
    var tr := Settled(sc, ActAll(FRESH, loaded)).trace;
    p :| 0 <= p < |tr| && IsCallOf(tr[p], i) && tr[p].round == k;
    CallReaches(sc, loaded, p);
  }

  lemma RoundsInOrder(sc: Script, loaded: seq<Action>)
    ensures Shaped(ActAll(FRESH, loaded))
    ensures var tr := Settled(sc, ActAll(FRESH, loaded)).trace;
            forall p, q :: 0 <= p < q < |tr| && tr[p].Fired? && tr[q].Fired? ==> tr[p].round <= tr[q].round
  {
    hide Settled;
    LoadedIsOk(loaded);
    SettledIsOk(sc, ActAll(FRESH, loaded));
  }

  /** A page with one readystatechange listener whose first timer writes "complete"
      and whose second, one round later, writes "interactive". */
  const REVERSING := Script(
    (cb, tr) => if cb == 1 then [SetState(COMPLETE), Later(Some(2))] else if cb == 2 then [SetState(INTERACTIVE)] else [],
    tr => [])

  const LISTENER := Listen(ReadyStateChange, Some(0))
  const TIMER := Later(Some(1))

  lemma OneAction(r: Realm, a: Action)
    ensures ActAll(r, [a]) == Act(r, a)
  {
    assert [a][1..] == [];
  }

  lemma TwoActions(r: Realm, a: Action, b: Action)
    ensures ActAll(r, [a, b]) == Act(Act(r, a), b)
  {
    assert [a, b][1..] == [b];
    OneAction(Act(r, a), b);
  }

  /** A round's only timer, when nothing repeats. */
  lemma OneTimer(sc: Script, r: Realm, k: nat, t: Task)
    requires r.once == [t] && r.repeats == []
    requires ActAll(Note(Begun(r, k), Ran(t)), sc.does(t.cb, Begun(r, k).trace + [Ran(t)])).repeats == []
    ensures BeforeFiring(sc, r, k) == ActAll(Note(Begun(r, k), Ran(t)), sc.does(t.cb, Begun(r, k).trace + [Ran(t)]))
  {
    assert [t][1..] == [];
    var ran := Call(sc, Begun(r, k), t.cb, Ran(t));
    assert RunTasks(sc, Begun(r, k), [t]) == RunTasks(sc, ran, []);
  }

  /** A round that calls one idle listener leaves the queue as it was. */
  lemma IdleListener(sc: Script, b: Realm, k: nat)
    requires Shaped(b) && |b.listeners| == 1
    requires forall tr :: sc.does(b.listeners[0].cb, tr) == [] && sc.drains(tr) == []
    ensures var r := Drain(sc, FireAllOf(sc, b, k));
            r.once == b.once && r.repeats == b.repeats && r.listeners == b.listeners && r.nextId == b.nextId
  {
    var f := FireOne(sc, b, 0, k, b.state);
    FireOneKeeps(sc, b, 0, k, b.state);
    assert FireAllOf(sc, b, k) == FireFrom(sc, f, 1, 1, k, b.state) == f;
  }

  /** The first two snapshots of that page find complete and then interactive. */
  lemma ReversedSnapshots()
    ensures Shaped(ActAll(FRESH, [LISTENER, TIMER]))
    ensures var r := ActAll(FRESH, [LISTENER, TIMER]); var s0, s1 := Snapshot(REVERSING, r, 0), Snapshot(REVERSING, r, 1);
            && s0.state == COMPLETE && s1.state == INTERACTIVE
            && s0.listeners == s1.listeners == [Listener(ReadyStateChange, 0)]
  {
    TwoActions(FRESH, LISTENER, TIMER);
    var r := Act(Act(FRESH, LISTENER), TIMER);
    var d := Drain(REVERSING, r);
    var t, u := Task(0, 1, 0), Task(1, 2, 1);
    TwoActions(Note(Begun(d, 0), Ran(t)), SetState(COMPLETE), Later(Some(2)));
    OneTimer(REVERSING, d, 0, t);
    var s0 := BeforeFiring(REVERSING, d, 0);
    assert s0.once == [u] && s0.state == COMPLETE;
    IdleListener(REVERSING, s0, 0);
    var d1 := Round(REVERSING, d, 0);
    OneAction(Note(Begun(d1, 1), Ran(u)), SetState(INTERACTIVE));
    OneTimer(REVERSING, d1, 1, u);
    assert Rounds(REVERSING, d, 0, 0) == d;
    RoundKeeps(REVERSING, d, 0);
    assert Rounds(REVERSING, d, 0, 1) == Rounds(REVERSING, d1, 1, 1) == d1;
  }

  /** So its listener is called in the complete state first and in the interactive
      state after that. */
  lemma PageMayReverseStates()
    ensures Shaped(ActAll(FRESH, [LISTENER, TIMER]))
    ensures var tr := Settled(REVERSING, ActAll(FRESH, [LISTENER, TIMER])).trace;
            exists p, q :: 0 <= p < q < |tr| && IsCallWhile(tr[p], COMPLETE) && IsCallWhile(tr[q], INTERACTIVE)
  {
    hide Snapshot, Settled, REVERSING, LISTENER, TIMER, ActAll;
    var loaded := [LISTENER, TIMER];
    ReversedSnapshots();
    var r := ActAll(FRESH, loaded);
    LifecycleBrokenIff(REVERSING, loaded);
    assert CallsWhile(REVERSING, r, 0, 0, COMPLETE);
    assert CallsWhile(REVERSING, r, 0, 1, INTERACTIVE);
  }

  /** With a page that leaves document.readyState alone, round 0 finds it
      interactive and every later round complete, and no call in the interactive
      state comes after one in the complete state. */
  lemma UntouchedFollowsLifecycle(sc: Script, loaded: seq<Action>, k: nat)
    requires k < ROUNDS
    ensures Shaped(ActAll(FRESH, loaded))
    ensures var r := ActAll(FRESH, loaded); var f := Settled(sc, r);
            NoWrites(f.trace) ==>
              && Snapshot(sc, r, k).state == Lifecycle(k)
              && (forall p :: 0 <= p < |f.trace| && f.trace[p].Fired? ==>
                    f.trace[p].state == Lifecycle(f.trace[p].round))
              && (forall p, q :: 0 <= p < q < |f.trace| && f.trace[p].Fired? && f.trace[q].Fired? ==>
                    f.trace[p].state <= f.trace[q].state)
  {
    LoadedIsOk(loaded);
    var r := ActAll(FRESH, loaded);
    SettledIsOk(sc, r);
    var f := Settled(sc, r);
    if NoWrites(f.trace) {
      SnapshotFollowsLifecycle(sc, r, k);
      StatesInOrder(f);
    }
  }

  lemma StatesInOrder(f: Realm)
    requires CallsInOrder(f) && NoWrites(f.trace)
    ensures forall p :: 0 <= p < |f.trace| && f.trace[p].Fired? ==> f.trace[p].state == Lifecycle(f.trace[p].round)
    ensures forall p, q :: 0 <= p < q < |f.trace| && f.trace[p].Fired? && f.trace[q].Fired? ==>
              f.trace[p].state <= f.trace[q].state
  {
    forall p | 0 <= p < |f.trace| && f.trace[p].Fired? ensures f.trace[p].state == Lifecycle(f.trace[p].round) {
      assert CallOk(f, f.trace[p]);
    }
  }

  lemma SnapshotFollowsLifecycle(sc: Script, r: Realm, k: nat)
    requires Shaped(r) && ListenersOk(r) && r.depth == 0 && k < ROUNDS && NoWrites(Settled(sc, r).trace)
    ensures Snapshot(sc, r, k).state == Lifecycle(k)
  {
    hide ListenersOk, Settled, BeforeFiring, Drain;
    DrainKeeps(sc, r);
    DrainKeepsListeners(sc, r);
    RoundsKeepListeners(sc, Drain(sc, r), 0, k);
    SnapshotIsFiring(sc, Rounds(sc, Drain(sc, r), 0, k), k);
    SnapshotIsCalled(sc, r, k);
    NoWritesBefore(Snapshot(sc, r, k).trace, Settled(sc, r).trace);
  }

  /** So with such a page a readystatechange listener is called once when
      interactive exactly if it is in the first snapshot, once when complete exactly
      if it is in a later one, and never in another state. */
  lemma UntouchedListenersSeeEachState(sc: Script, loaded: seq<Action>, i: nat)
    ensures Shaped(ActAll(FRESH, loaded))
    ensures var r := ActAll(FRESH, loaded); var f := Settled(sc, r);
            NoWrites(f.trace) && i < |f.listeners| && f.listeners[i].kind.ReadyStateChange? ==>
              && (CallsIn(f.trace, i, INTERACTIVE) == 1 <==> i < |Snapshot(sc, r, 0).listeners|)
              && (CallsIn(f.trace, i, COMPLETE) == 1 <==>
                    exists k :: 0 < k < ROUNDS && i < |Snapshot(sc, r, k).listeners|)
              && forall state :: state != INTERACTIVE && state != COMPLETE ==> CallsIn(f.trace, i, state) == 0
  {
    hide Snapshot, Settled;
    forall k | 0 <= k < ROUNDS
      ensures var r := ActAll(FRESH, loaded);
              Shaped(r) && (NoWrites(Settled(sc, r).trace) ==> Snapshot(sc, r, k).state == Lifecycle(k))
    {
      UntouchedFollowsLifecycle(sc, loaded, k);
    }
    LoadedIsOk(loaded);
    var r := ActAll(FRESH, loaded);
    var f := Settled(sc, r);
    if NoWrites(f.trace) && i < |f.listeners| && f.listeners[i].kind.ReadyStateChange? {
      CallCountIff(sc, loaded, i, INTERACTIVE);
      CallCountIff(sc, loaded, i, COMPLETE);
      assert forall k :: 0 <= k < ROUNDS ==>
        (Finds(sc, r, i, k, INTERACTIVE) <==> k == 0 && i < |Snapshot(sc, r, 0).listeners|);
      assert forall k :: 0 <= k < ROUNDS ==>
        (Finds(sc, r, i, k, COMPLETE) <==> k > 0 && i < |Snapshot(sc, r, k).listeners|);
      if i < |Snapshot(sc, r, 0).listeners| { assert Finds(sc, r, i, 0, INTERACTIVE); }
      if k :| 0 < k < ROUNDS && i < |Snapshot(sc, r, k).listeners| { assert Finds(sc, r, i, k, COMPLETE); }
      forall state | state != INTERACTIVE && state != COMPLETE ensures CallsIn(f.trace, i, state) == 0 {
        CallCountIff(sc, loaded, i, state);
      }
    }
  }

  // ---- listeners registered at load ---------------------------------------

  lemma {:induction false} LoadedListener(r: Realm, acts: seq<Action>, j: nat, kind: Kind, cb: Callback) returns (i: nat)
    requires Shaped(r) && j < |acts| && acts[j] == Listen(kind, Some(cb))
    ensures i < |ActAll(r, acts).listeners| && ActAll(r, acts).listeners[i] == Listener(kind, cb)
    decreases |acts|
  {
    var s := Act(r, acts[0]);
    if j > 0 {
      i := LoadedListener(s, acts[1..], j - 1, kind, cb);
    } else {
      i := |r.listeners|;
      ActAllKeeps(s, acts[1..]);
    }
  }

  /** Every round's snapshot holds what the page's loading registered. */
  lemma SnapshotHoldsLoaded(sc: Script, r: Realm, k: nat)
    requires Shaped(r)
    ensures r.listeners <= Snapshot(sc, r, k).listeners
  {
    hide Round, BeforeFiring, Drain;
    DrainKeeps(sc, r);
    var d := Drain(sc, r);
    RoundsExtend(sc, d, 0, k);
    BeforeFiringKeeps(sc, Rounds(sc, d, 0, k), k);
  }

  /** A listener for DOMContentLoaded or readystatechange that the page registers while
      it loads is called in round 0; one for anything else, load included, in round 1. */
  lemma LoadedListenerIsCalled(sc: Script, loaded: seq<Action>, j: nat, kind: Kind, cb: Callback) returns (i: nat)
    requires j < |loaded| && loaded[j] == Listen(kind, Some(cb))
    ensures Shaped(ActAll(FRESH, loaded))
    ensures var f := Settled(sc, ActAll(FRESH, loaded));
            && i < |f.listeners| && f.listeners[i] == Listener(kind, cb)
            && (kind == DomContentLoaded || kind == ReadyStateChange ==> CalledIn(f.trace, i, 0))
            && (kind.Other? ==> CalledIn(f.trace, i, 1) && !CalledIn(f.trace, i, 0))
  {
    hide Settled, Snapshot, ActAll;
    LoadedIsOk(loaded);
    var r := ActAll(FRESH, loaded);
    i := LoadedListener(FRESH, loaded, j, kind, cb);
    SnapshotHoldsLoaded(sc, r, 0);
    SnapshotHoldsLoaded(sc, r, 1);
    SnapshotIsCalled(sc, r, 0);
    CalledInRoundIff(sc, loaded, i, 0);
    CalledInRoundIff(sc, loaded, i, 1);
    assert Snapshot(sc, r, 0).listeners[i] == Listener(kind, cb);
    assert Snapshot(sc, r, 1).listeners[i] == Listener(kind, cb);
  }
}
