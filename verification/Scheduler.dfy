/** Running everything a page script deferred, including work that defers more
    work, through twenty rounds of a page lifecycle. */
module Scheduler {
  import opened Basics

  const ROUNDS: nat := 20

  /** A value of document.readyState: the three below, or another that the page
      has written over it. */
  type ReadyState = nat

  const LOADING: ReadyState := 0
  const INTERACTIVE: ReadyState := 1
  const COMPLETE: ReadyState := 2

  /** What round k sets it to. */
  function Lifecycle(k: nat): ReadyState { if k == 0 then INTERACTIVE else COMPLETE }

  datatype Kind = DomContentLoaded | ReadyStateChange | Other(name: string)

  type Callback = nat

  /** What a callback can do to the page; None is an argument that cannot be
      called. */
  datatype Action =
    | Later(fn: Option<Callback>) | Every(fn: Option<Callback>) | Listen(kind: Kind, fn: Option<Callback>)
    | SetState(state: ReadyState)

  /** `depth` counts the rounds begun when the task was queued. */
  datatype Task = Task(id: nat, cb: Callback, depth: nat)

  datatype Listener = Listener(kind: Kind, cb: Callback)

  datatype Key = OncePerListener | OncePer(state: ReadyState)

  /** Everything observable that has happened, in order. */
  datatype Event =
    | Queued(t: Task) | Ran(t: Task) | Ticked(t: Task)
    | Became(state: ReadyState) | Wrote(state: ReadyState) | Drained
    | Fired(listener: nat, round: nat, state: ReadyState)

  /** The page's script: what each callback does, which may depend on everything
      that has happened so far, and what a microtask drain leaves behind. */
  datatype Script = Script(does: (Callback, seq<Event>) -> seq<Action>, drains: seq<Event> -> seq<Action>)

  datatype Realm = Realm(
    state: ReadyState, depth: nat, nextId: nat, once: seq<Task>, repeats: seq<Task>,
    listeners: seq<Listener>, seen: seq<set<Key>>, trace: seq<Event>)

  const FRESH := Realm(LOADING, 0, 0, [], [], [], [], [])

  // ---- steps -------------------------------------------------------------

  function Act(r: Realm, a: Action): Realm {
    match a
    case Later(fn) =>
      if fn.None? then r.(nextId := r.nextId + 1)
      else
        var t := Task(r.nextId, fn.value, r.depth);
        r.(once := r.once + [t], nextId := r.nextId + 1, trace := r.trace + [Queued(t)])
    case Every(fn) =>
      if fn.None? then r.(nextId := r.nextId + 1)
      else r.(repeats := r.repeats + [Task(r.nextId, fn.value, r.depth)], nextId := r.nextId + 1)
    case Listen(kind, fn) =>
      if fn.None? then r
      else r.(listeners := r.listeners + [Listener(kind, fn.value)], seen := r.seen + [{}])
    case SetState(state) => r.(state := state, trace := r.trace + [Wrote(state)])
  }

  function ActAll(r: Realm, acts: seq<Action>): Realm
    decreases |acts|
  {
    if acts == [] then r else ActAll(Act(r, acts[0]), acts[1..])
  }

  function Note(r: Realm, e: Event): Realm { r.(trace := r.trace + [e]) }

  function Call(sc: Script, r: Realm, cb: Callback, e: Event): Realm {
    ActAll(Note(r, e), sc.does(cb, r.trace + [e]))
  }

  function Drain(sc: Script, r: Realm): Realm {
    ActAll(Note(r, Drained), sc.drains(r.trace + [Drained]))
  }

  function RunTasks(sc: Script, r: Realm, ts: seq<Task>): Realm
    decreases |ts|
  {
    if ts == [] then r else RunTasks(sc, Call(sc, r, ts[0].cb, Ran(ts[0])), ts[1..])
  }

  function TickAll(sc: Script, r: Realm, ts: seq<Task>): Realm
    decreases |ts|
  {
    if ts == [] then r else TickAll(sc, Call(sc, r, ts[0].cb, Ticked(ts[0])), ts[1..])
  }

  predicate IsEarly(kind: Kind) { kind.DomContentLoaded? || kind.ReadyStateChange? }

  function KeyFor(kind: Kind, state: ReadyState): Key {
    if kind.ReadyStateChange? then OncePer(state) else OncePerListener
  }

  predicate Shaped(r: Realm) { |r.seen| == |r.listeners| }

  /** Should listener i be called in round k, in this state? */
  predicate IsDue(r: Realm, i: nat, k: nat, state: ReadyState)
    requires Shaped(r) && i < |r.listeners|
  {
    (k == 0 ==> IsEarly(r.listeners[i].kind)) && KeyFor(r.listeners[i].kind, state) !in r.seen[i]
  }

  function Marked(r: Realm, i: nat, state: ReadyState): Realm
    requires Shaped(r) && i < |r.listeners|
  {
    r.(seen := r.seen[i := r.seen[i] + {KeyFor(r.listeners[i].kind, state)}])
  }

  function FireOne(sc: Script, r: Realm, i: nat, k: nat, state: ReadyState): Realm
    requires Shaped(r) && i < |r.listeners|
  {
    if !IsDue(r, i, k, state) then r
    else Call(sc, Marked(r, i, state), r.listeners[i].cb, Fired(i, k, state))
  }

  /** The listeners from i to n, the length of the list when firing began, in the
      state that was read then. */
  function FireFrom(sc: Script, r: Realm, i: nat, n: nat, k: nat, state: ReadyState): Realm
    requires Shaped(r) && n <= |r.listeners|
    decreases n - i
  {
    if i >= n then r
    else
      FireOneKeeps(sc, r, i, k, state);
      FireFrom(sc, FireOne(sc, r, i, k, state), i + 1, n, k, state)
  }

  function FireAllOf(sc: Script, r: Realm, k: nat): Realm
    requires Shaped(r)
  {
    FireFrom(sc, r, 0, |r.listeners|, k, r.state)
  }

  function Begun(r: Realm, k: nat): Realm {
    Note(r, Became(Lifecycle(k))).(state := Lifecycle(k), once := [], depth := r.depth + 1)
  }

  /** A round up to the point where its listeners are about to be called. */
  function BeforeFiring(sc: Script, r: Realm, k: nat): Realm {
    var ran := RunTasks(sc, Begun(r, k), r.once);
    TickAll(sc, ran, ran.repeats)
  }

  function Round(sc: Script, r: Realm, k: nat): Realm
    requires Shaped(r)
  {
    BeforeFiringKeeps(sc, r, k);
    Drain(sc, FireAllOf(sc, BeforeFiring(sc, r, k), k))
  }

  /** Rounds k, k + 1, .., n - 1. */
  function Rounds(sc: Script, r: Realm, k: nat, n: nat): (r': Realm)
    requires Shaped(r)
    ensures Shaped(r')
    decreases n - k
  {
    if k >= n then r
    else
      RoundKeeps(sc, r, k);
      Rounds(sc, Round(sc, r, k), k + 1, n)
  }

  function Settled(sc: Script, r: Realm): Realm
    requires Shaped(r)
  {
    DrainKeeps(sc, r);
    Rounds(sc, Drain(sc, r), 0, ROUNDS)
  }

  // ---- shape -------------------------------------------------------------

  /** The list of listeners only grows, what has been called stays called, and
      what has happened has happened. */
  ghost predicate Grows(r: Realm, r': Realm) {
    && Shaped(r') && r.listeners <= r'.listeners && r.trace <= r'.trace && r'.depth == r.depth
    && forall i :: 0 <= i < |r.seen| && i < |r'.seen| ==> r.seen[i] <= r'.seen[i]
  }

  lemma {:induction false} ActAllKeeps(r: Realm, acts: seq<Action>)
    requires Shaped(r)
    ensures Grows(r, ActAll(r, acts)) && ActAll(r, acts).seen[..|r.seen|] == r.seen
    decreases |acts|
  {
    if acts != [] {
      var s := Act(r, acts[0]);
      ActAllKeeps(s, acts[1..]);
      var t := ActAll(s, acts[1..]);
      assert t.seen[..|r.seen|] == t.seen[..|s.seen|][..|r.seen|];
    }
  }

  lemma CallKeeps(sc: Script, r: Realm, cb: Callback, e: Event)
    requires Shaped(r)
    ensures Grows(r, Call(sc, r, cb, e)) && Call(sc, r, cb, e).seen[..|r.seen|] == r.seen
  {
    ActAllKeeps(Note(r, e), sc.does(cb, r.trace + [e]));
  }

  lemma DrainKeeps(sc: Script, r: Realm)
    requires Shaped(r)
    ensures Grows(r, Drain(sc, r)) && Drain(sc, r).seen[..|r.seen|] == r.seen
  {
    ActAllKeeps(Note(r, Drained), sc.drains(r.trace + [Drained]));
  }

  lemma {:induction false} RunTasksKeeps(sc: Script, r: Realm, ts: seq<Task>)
    requires Shaped(r)
    ensures Grows(r, RunTasks(sc, r, ts))
    decreases |ts|
  {
    if ts != [] {
      CallKeeps(sc, r, ts[0].cb, Ran(ts[0]));
      RunTasksKeeps(sc, Call(sc, r, ts[0].cb, Ran(ts[0])), ts[1..]);
    }
  }

  lemma {:induction false} TickAllKeeps(sc: Script, r: Realm, ts: seq<Task>)
    requires Shaped(r)
    ensures Grows(r, TickAll(sc, r, ts))
    decreases |ts|
  {
    if ts != [] {
      CallKeeps(sc, r, ts[0].cb, Ticked(ts[0]));
      TickAllKeeps(sc, Call(sc, r, ts[0].cb, Ticked(ts[0])), ts[1..]);
    }
  }

  lemma FireOneKeeps(sc: Script, r: Realm, i: nat, k: nat, state: ReadyState)
    requires Shaped(r) && i < |r.listeners|
    ensures Grows(r, FireOne(sc, r, i, k, state))
    ensures var r' := FireOne(sc, r, i, k, state);
            i < |r'.listeners| && r'.listeners[i] == r.listeners[i] && !IsDue(r', i, k, state)
  {
    if IsDue(r, i, k, state) {
      var marked := Marked(r, i, state);
      CallKeeps(sc, marked, r.listeners[i].cb, Fired(i, k, state));
      var r' := FireOne(sc, r, i, k, state);
      forall j | 0 <= j < |r.seen| ensures r'.seen[j] == marked.seen[j] {
        assert r'.seen[j] == r'.seen[..|r.seen|][j];
      }
    }
  }

  lemma GrowsTransitive(a: Realm, b: Realm, c: Realm)
    requires Shaped(a) && Grows(a, b) && Grows(b, c)
    ensures Grows(a, c)
  {}

  /** What has been called is not due again. */
  lemma StaysCalled(r: Realm, r': Realm, i: nat, k: nat, state: ReadyState)
    requires Shaped(r) && Grows(r, r') && i < |r.listeners| && !IsDue(r, i, k, state)
    ensures !IsDue(r', i, k, state)
  {
    assert r.seen[i] <= r'.seen[i];
  }

  /** After the listeners have been called, none of them is due any more. */
  lemma {:induction false} FireFromKeeps(sc: Script, r: Realm, i: nat, n: nat, k: nat, state: ReadyState)
    requires Shaped(r) && n <= |r.listeners|
    ensures Grows(r, FireFrom(sc, r, i, n, k, state))
    ensures forall j :: i <= j < n ==> !IsDue(FireFrom(sc, r, i, n, k, state), j, k, state)
    decreases n - i
  {
    hide FireOne, IsDue;
    if i < n {
      FireOneKeeps(sc, r, i, k, state);
      var s := FireOne(sc, r, i, k, state);
      FireFromKeeps(sc, s, i + 1, n, k, state);
      var t := FireFrom(sc, s, i + 1, n, k, state);
      GrowsTransitive(r, s, t);
      StaysCalled(s, t, i, k, state);
    }
  }

  lemma BeforeFiringKeeps(sc: Script, r: Realm, k: nat)
    requires Shaped(r)
    ensures Shaped(Begun(r, k)) && Grows(Begun(r, k), BeforeFiring(sc, r, k))
  {
    RunTasksKeeps(sc, Begun(r, k), r.once);
    var ran := RunTasks(sc, Begun(r, k), r.once);
    TickAllKeeps(sc, ran, ran.repeats);
    GrowsTransitive(Begun(r, k), ran, BeforeFiring(sc, r, k));
  }

  /** A round adds to what a realm holds, begins one depth more, and leaves none
      of the listeners of its snapshot due. */
  lemma RoundKeeps(sc: Script, r: Realm, k: nat)
    requires Shaped(r)
    ensures Grows(Begun(r, k), Round(sc, r, k)) && Grows(BeforeFiring(sc, r, k), Round(sc, r, k))
    ensures var b := BeforeFiring(sc, r, k);
            forall i :: 0 <= i < |b.listeners| ==> !IsDue(Round(sc, r, k), i, k, b.state)
  {
    hide Drain, FireFrom, BeforeFiring, IsDue;
    BeforeFiringKeeps(sc, r, k);
    var b := BeforeFiring(sc, r, k);
    FireFromKeeps(sc, b, 0, |b.listeners|, k, b.state);
    var f := FireAllOf(sc, b, k);
    DrainKeeps(sc, f);
    var r' := Drain(sc, f);
    GrowsTransitive(b, f, r');
    GrowsTransitive(Begun(r, k), b, r');
    forall i | 0 <= i < |b.listeners| ensures !IsDue(r', i, k, b.state) {
      StaysCalled(f, r', i, k, b.state);
    }
  }

  // ---- conservation of tasks ---------------------------------------------

  function Times(r: Realm, e: Event): nat { multiset(r.trace)[e] }

  /** Every task ever queued has run, or is waiting in the queue or among the
      drained tasks `held` still to be run; ids never repeat. */
  ghost predicate TasksConserved(r: Realm, held: seq<Task>) {
    && (forall t {:trigger Times(r, Queued(t))} ::
          Times(r, Queued(t)) == Times(r, Ran(t)) + multiset(r.once)[t] + multiset(held)[t])
    && (forall t {:trigger Times(r, Queued(t))} ::
          Times(r, Queued(t)) <= 1 && (Times(r, Queued(t)) > 0 ==> t.id < r.nextId))
  }

  /** Tasks queued now have the current depth; those run had a smaller one. */
  ghost predicate DepthsOk(r: Realm, held: seq<Task>) {
    && (forall t :: t in r.once ==> t.depth == r.depth)
    && (forall t :: t in held ==> t.depth + 1 == r.depth)
    && (forall t {:trigger Ran(t) in r.trace} :: Ran(t) in r.trace ==> t.depth < r.depth)
  }

  lemma TimesAppend(r: Realm, e: Event, x: Event)
    ensures Times(Note(r, e), x) == Times(r, x) + (if x == e then 1 else 0)
  {
    assert multiset(r.trace + [e]) == multiset(r.trace) + multiset{e};
  }

  lemma LaterConserves(r: Realm, cb: Callback, held: seq<Task>)
    requires TasksConserved(r, held) && DepthsOk(r, held)
    ensures TasksConserved(Act(r, Later(Some(cb))), held) && DepthsOk(Act(r, Later(Some(cb))), held)
  {
    var t0 := Task(r.nextId, cb, r.depth);
    var r' := Act(r, Later(Some(cb)));
    assert Times(r, Queued(t0)) == 0;
    assert multiset(r.once + [t0]) == multiset(r.once) + multiset{t0};
    forall t ensures Times(r', Queued(t)) == Times(r, Queued(t)) + (if t == t0 then 1 else 0)
             ensures Times(r', Ran(t)) == Times(r, Ran(t))
    {
      TimesAppend(r, Queued(t0), Queued(t));
      TimesAppend(r, Queued(t0), Ran(t));
    }
  }

  /** Nothing that the counts of tasks look at is different. */
  lemma SameTasksConserve(r: Realm, r': Realm, held: seq<Task>)
    requires TasksConserved(r, held) && DepthsOk(r, held)
    requires r'.trace == r.trace && r'.once == r.once && r'.depth == r.depth && r'.nextId >= r.nextId
    ensures TasksConserved(r', held) && DepthsOk(r', held)
  {
    assert forall x :: Times(r', x) == Times(r, x);
  }

  lemma ActConserves(r: Realm, a: Action, held: seq<Task>)
    requires TasksConserved(r, held) && DepthsOk(r, held)
    ensures TasksConserved(Act(r, a), held) && DepthsOk(Act(r, a), held)
  {
    hide TasksConserved, DepthsOk;
    if a.SetState? {
      NoteConserves(r, Wrote(a.state), held);
      SameTasksConserve(Note(r, Wrote(a.state)), Act(r, a), held);
    } else if a.Later? && a.fn.Some? {
      LaterConserves(r, a.fn.value, held);
    } else {
      SameTasksConserve(r, Act(r, a), held);
    }
  }

  lemma {:induction false} ActAllConserves(r: Realm, acts: seq<Action>, held: seq<Task>)
    requires TasksConserved(r, held) && DepthsOk(r, held)
    ensures TasksConserved(ActAll(r, acts), held) && DepthsOk(ActAll(r, acts), held)
    decreases |acts|
  {
    if acts != [] {
      ActConserves(r, acts[0], held);
      ActAllConserves(Act(r, acts[0]), acts[1..], held);
    }
  }

  /** An event that is neither a queueing nor a run changes no count of tasks. */
  lemma NoteConserves(r: Realm, e: Event, held: seq<Task>)
    requires TasksConserved(r, held) && DepthsOk(r, held) && !e.Queued? && !e.Ran?
    ensures TasksConserved(Note(r, e), held) && DepthsOk(Note(r, e), held)
  {
    var r' := Note(r, e);
    forall t ensures Times(r', Queued(t)) == Times(r, Queued(t)) && Times(r', Ran(t)) == Times(r, Ran(t)) {
      TimesAppend(r, e, Queued(t));
      TimesAppend(r, e, Ran(t));
    }
  }

  lemma {:induction false} RunTasksConserves(sc: Script, r: Realm, ts: seq<Task>)
    requires TasksConserved(r, ts) && DepthsOk(r, ts)
    ensures TasksConserved(RunTasks(sc, r, ts), []) && DepthsOk(RunTasks(sc, r, ts), [])
    decreases |ts|
  {
    if ts != [] {
      var t0, rest := ts[0], ts[1..];
      var r' := Note(r, Ran(t0));
      assert ts == [t0] + rest;
      assert multiset(ts) == multiset{t0} + multiset(rest);
      forall t ensures Times(r', Queued(t)) == Times(r, Queued(t))
               ensures Times(r', Ran(t)) == Times(r, Ran(t)) + (if t == t0 then 1 else 0)
      {
        TimesAppend(r, Ran(t0), Queued(t));
        TimesAppend(r, Ran(t0), Ran(t));
      }
      ActAllConserves(r', sc.does(t0.cb, r.trace + [Ran(t0)]), rest);
      RunTasksConserves(sc, Call(sc, r, t0.cb, Ran(t0)), rest);
    }
  }

  lemma {:induction false} TickAllConserves(sc: Script, r: Realm, ts: seq<Task>)
    requires TasksConserved(r, []) && DepthsOk(r, [])
    ensures TasksConserved(TickAll(sc, r, ts), []) && DepthsOk(TickAll(sc, r, ts), [])
    decreases |ts|
  {
    if ts != [] {
      NoteConserves(r, Ticked(ts[0]), []);
      ActAllConserves(Note(r, Ticked(ts[0])), sc.does(ts[0].cb, r.trace + [Ticked(ts[0])]), []);
      TickAllConserves(sc, Call(sc, r, ts[0].cb, Ticked(ts[0])), ts[1..]);
    }
  }

  lemma MarkConserves(r: Realm, seen: seq<set<Key>>, e: Event)
    requires TasksConserved(r, []) && DepthsOk(r, []) && !e.Queued? && !e.Ran?
    ensures TasksConserved(Note(r.(seen := seen), e), []) && DepthsOk(Note(r.(seen := seen), e), [])
  {
    var m := r.(seen := seen);
    assert forall x :: Times(m, x) == Times(r, x);
    NoteConserves(m, e, []);
  }

  lemma {:induction false} FireFromConserves(sc: Script, r: Realm, i: nat, n: nat, k: nat, state: ReadyState)
    requires Shaped(r) && n <= |r.listeners| && TasksConserved(r, []) && DepthsOk(r, [])
    ensures TasksConserved(FireFrom(sc, r, i, n, k, state), []) && DepthsOk(FireFrom(sc, r, i, n, k, state), [])
    decreases n - i
  {
    if i < n {
      FireOneKeeps(sc, r, i, k, state);
      FireOneConserves(sc, r, i, k, state);
      FireFromConserves(sc, FireOne(sc, r, i, k, state), i + 1, n, k, state);
    }
  }

  lemma FireOneConserves(sc: Script, r: Realm, i: nat, k: nat, state: ReadyState)
    requires Shaped(r) && i < |r.listeners| && TasksConserved(r, []) && DepthsOk(r, [])
    ensures TasksConserved(FireOne(sc, r, i, k, state), []) && DepthsOk(FireOne(sc, r, i, k, state), [])
  {
    if IsDue(r, i, k, state) {
      var e := Fired(i, k, state);
      MarkConserves(r, Marked(r, i, state).seen, e);
      ActAllConserves(Note(Marked(r, i, state), e), sc.does(r.listeners[i].cb, r.trace + [e]), []);
    }
  }

  lemma DrainConserves(sc: Script, r: Realm)
    requires TasksConserved(r, []) && DepthsOk(r, [])
    ensures TasksConserved(Drain(sc, r), []) && DepthsOk(Drain(sc, r), [])
  {
    NoteConserves(r, Drained, []);
    ActAllConserves(Note(r, Drained), sc.drains(r.trace + [Drained]), []);
  }

  lemma BeginConserves(r: Realm, k: nat)
    requires TasksConserved(r, []) && DepthsOk(r, [])
    ensures TasksConserved(Begun(r, k), r.once) && DepthsOk(Begun(r, k), r.once)
  {
    var noted := Note(r, Became(Lifecycle(k)));
    NoteConserves(r, Became(Lifecycle(k)), []);
    assert forall x :: Times(Begun(r, k), x) == Times(noted, x);
  }

  lemma RoundConserves(sc: Script, r: Realm, k: nat)
    requires Shaped(r) && TasksConserved(r, []) && DepthsOk(r, [])
    ensures TasksConserved(Round(sc, r, k), []) && DepthsOk(Round(sc, r, k), [])
  {
    hide TasksConserved, DepthsOk, Begun, RunTasks, TickAll, FireFrom, Drain;
    BeginConserves(r, k);
    RunTasksConserves(sc, Begun(r, k), r.once);
    var ran := RunTasks(sc, Begun(r, k), r.once);
    TickAllConserves(sc, ran, ran.repeats);
    BeforeFiringKeeps(sc, r, k);
    var b := BeforeFiring(sc, r, k);
    FireFromConserves(sc, b, 0, |b.listeners|, k, b.state);
    DrainConserves(sc, FireAllOf(sc, b, k));
  }

  lemma {:induction false} RoundsConserve(sc: Script, r: Realm, k: nat, n: nat)
    requires Shaped(r) && TasksConserved(r, []) && DepthsOk(r, []) && k <= n
    ensures var r' := Rounds(sc, r, k, n);
            TasksConserved(r', []) && DepthsOk(r', []) && r'.depth == r.depth + (n - k)
    decreases n - k
  {
    if k < n {
      RoundKeeps(sc, r, k);
      RoundConserves(sc, r, k);
      RoundsConserve(sc, Round(sc, r, k), k + 1, n);
    }
  }

  lemma FreshIsConserved()
    ensures Shaped(FRESH) && TasksConserved(FRESH, []) && DepthsOk(FRESH, [])
  {}

  lemma SettledConserves(sc: Script, loaded: seq<Action>)
    ensures Shaped(ActAll(FRESH, loaded))
    ensures var r := Settled(sc, ActAll(FRESH, loaded));
            TasksConserved(r, []) && DepthsOk(r, []) && r.depth == ROUNDS
  {
    var r0 := ActAll(FRESH, loaded);
    FreshIsConserved();
    ActAllKeeps(FRESH, loaded);
    ActAllConserves(FRESH, loaded, []);
    DrainKeeps(sc, r0);
    DrainConserves(sc, r0);
    RoundsConserve(sc, Drain(sc, r0), 0, ROUNDS);
  }

  /** Whatever the script loads and whatever its callbacks do: every task queued
      at depth at most 19 runs exactly once, and a deeper one is left waiting. */
  lemma EveryTaskRunsOnceToDepth19(sc: Script, loaded: seq<Action>, t: Task)
    ensures Shaped(ActAll(FRESH, loaded))
    ensures var r := Settled(sc, ActAll(FRESH, loaded));
            && Times(r, Ran(t)) == (if Queued(t) in r.trace && t.depth < ROUNDS then 1 else 0)
            && (Queued(t) in r.trace ==> t.depth <= ROUNDS && (t.depth == ROUNDS <==> t in r.once))
  {
    SettledConserves(sc, loaded);
    CountsDecide(Settled(sc, ActAll(FRESH, loaded)), t);
  }

  lemma CountsDecide(r: Realm, t: Task)
    requires TasksConserved(r, []) && DepthsOk(r, [])
    ensures Times(r, Ran(t)) == (if Queued(t) in r.trace && t.depth < r.depth then 1 else 0)
    ensures Queued(t) in r.trace ==> t.depth <= r.depth && (t.depth == r.depth <==> t in r.once)
  {
    assert Times(r, Queued(t)) == Times(r, Ran(t)) + multiset(r.once)[t];
    assert t in r.once <==> multiset(r.once)[t] > 0;
    assert Ran(t) in r.trace <==> Times(r, Ran(t)) > 0;
  }

  /** A task queued while a task of depth d runs has depth d + 1, so a chain of
      tasks that queue tasks is run through depth 19. */
  lemma ChainDeepens(sc: Script, r: Realm, t: Task, child: Task)
    requires Shaped(r) && t.depth + 1 == r.depth
    requires child in Call(sc, r, t.cb, Ran(t)).once && child !in r.once
    ensures child.depth == t.depth + 1
  {
    NewTasksHaveDepth(Note(r, Ran(t)), sc.does(t.cb, r.trace + [Ran(t)]), child);
  }

  lemma {:induction false} NewTasksHaveDepth(r: Realm, acts: seq<Action>, t: Task)
    requires t in ActAll(r, acts).once && t !in r.once
    ensures t.depth == r.depth
    decreases |acts|
  {
    var s := Act(r, acts[0]);
    if t !in s.once { NewTasksHaveDepth(s, acts[1..], t); }
  }

  // ---- listeners ---------------------------------------------------------

  predicate IsCallOf(e: Event, i: nat) { e.Fired? && e.listener == i }

  /** How often listener i has been called, and how often in one state. */
  function Calls(tr: seq<Event>, i: nat): nat {
    if tr == [] then 0 else Calls(tr[..|tr| - 1], i) + if IsCallOf(tr[|tr| - 1], i) then 1 else 0
  }

  function CallsIn(tr: seq<Event>, i: nat, state: ReadyState): nat {
    if tr == [] then 0
    else
      var last := tr[|tr| - 1];
      CallsIn(tr[..|tr| - 1], i, state) + if IsCallOf(last, i) && last.state == state then 1 else 0
  }

  lemma CallsOneMore(tr: seq<Event>, e: Event, i: nat, state: ReadyState)
    ensures Calls(tr + [e], i) == Calls(tr, i) + if IsCallOf(e, i) then 1 else 0
    ensures CallsIn(tr + [e], i, state) == CallsIn(tr, i, state) + if IsCallOf(e, i) && e.state == state then 1 else 0
  {
    assert (tr + [e])[..|tr|] == tr;
  }

  /** Listener i has been called as often, and in the states, that its keys say. */
  ghost predicate CountOk(tr: seq<Event>, i: nat, kind: Kind, seen: set<Key>) {
    if kind.ReadyStateChange? then
      forall state {:trigger CallsIn(tr, i, state)} :: CallsIn(tr, i, state) == if OncePer(state) in seen then 1 else 0
    else Calls(tr, i) == if OncePerListener in seen then 1 else 0
  }

  ghost predicate NeverCalled(tr: seq<Event>, i: nat) {
    Calls(tr, i) == 0 && forall state :: CallsIn(tr, i, state) == 0
  }

  ghost predicate CallsMatchKeys(r: Realm) {
    && Shaped(r)
    && (forall i: nat :: i < |r.listeners| ==> CountOk(r.trace, i, r.listeners[i].kind, r.seen[i]))
    && (forall i: nat :: i >= |r.listeners| ==> NeverCalled(r.trace, i))
  }

  /** The page's scripts have not written over document.readyState. */
  ghost predicate NoWrites(tr: seq<Event>) { forall p :: 0 <= p < |tr| ==> !tr[p].Wrote? }

  /** A call was made in a round begun, in round 0 to an early kind only, and in
      the round's own state unless the page wrote another. */
  ghost predicate CallOk(r: Realm, e: Event)
    requires e.Fired?
  {
    && e.round < r.depth && e.listener < |r.listeners|
    && (e.round == 0 ==> IsEarly(r.listeners[e.listener].kind))
    && (NoWrites(r.trace) ==> e.state == Lifecycle(e.round))
  }

  ghost predicate CallsInOrder(r: Realm) {
    && (forall p :: 0 <= p < |r.trace| && r.trace[p].Fired? ==> CallOk(r, r.trace[p]))
    && (forall p, q :: 0 <= p < q < |r.trace| && r.trace[p].Fired? && r.trace[q].Fired? ==>
          r.trace[p].round <= r.trace[q].round)
  }

  ghost predicate StateOk(r: Realm) {
    NoWrites(r.trace) ==> r.state == if r.depth == 0 then LOADING else Lifecycle(r.depth - 1)
  }

  ghost predicate ListenersOk(r: Realm) { CallsMatchKeys(r) && CallsInOrder(r) && StateOk(r) }

  lemma QuietCount(tr: seq<Event>, e: Event, i: nat, kind: Kind, seen: set<Key>)
    requires !IsCallOf(e, i)
    ensures CountOk(tr, i, kind, seen) ==> CountOk(tr + [e], i, kind, seen)
    ensures NeverCalled(tr, i) ==> NeverCalled(tr + [e], i)
  {
    forall state ensures Calls(tr + [e], i) == Calls(tr, i) && CallsIn(tr + [e], i, state) == CallsIn(tr, i, state) {
      CallsOneMore(tr, e, i, state);
    }
  }

  /** The realm holds one more event that is not a call, its state perhaps new. */
  ghost predicate OneMoreQuiet(r: Realm, r': Realm, e: Event) {
    && !e.Fired? && r'.trace == r.trace + [e] && r'.listeners == r.listeners && r'.seen == r.seen
    && r.depth <= r'.depth
  }

  lemma QuietKeepsCounts(r: Realm, r': Realm, e: Event)
    requires CallsMatchKeys(r) && OneMoreQuiet(r, r', e)
    ensures CallsMatchKeys(r')
  {
    forall i: nat | i < |r.listeners| ensures CountOk(r'.trace, i, r'.listeners[i].kind, r'.seen[i]) {
      QuietCount(r.trace, e, i, r.listeners[i].kind, r.seen[i]);
    }
    forall i: nat | i >= |r.listeners| ensures NeverCalled(r'.trace, i) {
      QuietCount(r.trace, e, i, DomContentLoaded, {});
    }
  }

  lemma NoWritesBefore(tr: seq<Event>, tr': seq<Event>)
    requires tr <= tr' && NoWrites(tr')
    ensures NoWrites(tr)
  {
    forall p | 0 <= p < |tr| ensures !tr[p].Wrote? { assert tr[p] == tr'[p]; }
  }

  lemma QuietKeepsOrder(r: Realm, r': Realm, e: Event)
    requires CallsInOrder(r) && OneMoreQuiet(r, r', e)
    ensures CallsInOrder(r')
  {
    if NoWrites(r'.trace) { NoWritesBefore(r.trace, r'.trace); }
    forall p | 0 <= p < |r'.trace| && r'.trace[p].Fired? ensures p < |r.trace| && CallOk(r', r'.trace[p]) {
      assert r'.trace[p] == r.trace[p];
      assert CallOk(r, r.trace[p]);
    }
  }

  lemma NoteKeepsListeners(r: Realm, e: Event)
    requires ListenersOk(r) && !e.Fired?
    ensures ListenersOk(Note(r, e))
  {
    QuietKeepsCounts(r, Note(r, e), e);
    QuietKeepsOrder(r, Note(r, e), e);
    if NoWrites(Note(r, e).trace) { NoWritesBefore(r.trace, Note(r, e).trace); }
  }

  lemma WriteKeepsListeners(r: Realm, state: ReadyState)
    requires ListenersOk(r)
    ensures ListenersOk(Act(r, SetState(state)))
  {
    var r' := Act(r, SetState(state));
    QuietKeepsCounts(r, r', Wrote(state));
    QuietKeepsOrder(r, r', Wrote(state));
    assert r'.trace[|r.trace|] == Wrote(state);
  }

  lemma ListenKeepsListeners(r: Realm, kind: Kind, cb: Callback)
    requires ListenersOk(r)
    ensures ListenersOk(Act(r, Listen(kind, Some(cb))))
  {
    var r', n := Act(r, Listen(kind, Some(cb))), |r.listeners|;
    assert NeverCalled(r.trace, n);
    forall i: nat | i < |r'.listeners| ensures CountOk(r'.trace, i, r'.listeners[i].kind, r'.seen[i]) {
      if i < n { assert CountOk(r.trace, i, r.listeners[i].kind, r.seen[i]); }
    }
    forall p | 0 <= p < |r.trace| && r.trace[p].Fired? ensures CallOk(r', r.trace[p]) {
      assert CallOk(r, r.trace[p]);
    }
  }

  lemma ActKeepsListeners(r: Realm, a: Action)
    requires ListenersOk(r)
    ensures ListenersOk(Act(r, a))
  {
    match a
    case Later(fn) =>
      if fn.Some? {
        var e := Queued(Task(r.nextId, fn.value, r.depth));
        QuietKeepsCounts(r, Act(r, a), e);
        QuietKeepsOrder(r, Act(r, a), e);
        if NoWrites(Act(r, a).trace) { NoWritesBefore(r.trace, Act(r, a).trace); }
      }
    case Every(_) =>
    case Listen(kind, fn) =>
      if fn.Some? { ListenKeepsListeners(r, kind, fn.value); }
    case SetState(state) => WriteKeepsListeners(r, state);
  }

  lemma {:induction false} ActAllKeepsListeners(r: Realm, acts: seq<Action>)
    requires ListenersOk(r)
    ensures ListenersOk(ActAll(r, acts))
    decreases |acts|
  {
    hide ListenersOk, Act;
    if acts != [] {
      ActKeepsListeners(r, acts[0]);
      ActAllKeepsListeners(Act(r, acts[0]), acts[1..]);
    }
  }

  lemma {:induction false} RunTasksKeepsListeners(sc: Script, r: Realm, ts: seq<Task>)
    requires ListenersOk(r)
    ensures ListenersOk(RunTasks(sc, r, ts))
    decreases |ts|
  {
    hide ListenersOk, ActAll;
    if ts != [] {
      NoteKeepsListeners(r, Ran(ts[0]));
      ActAllKeepsListeners(Note(r, Ran(ts[0])), sc.does(ts[0].cb, r.trace + [Ran(ts[0])]));
      RunTasksKeepsListeners(sc, Call(sc, r, ts[0].cb, Ran(ts[0])), ts[1..]);
    }
  }

  lemma {:induction false} TickAllKeepsListeners(sc: Script, r: Realm, ts: seq<Task>)
    requires ListenersOk(r)
    ensures ListenersOk(TickAll(sc, r, ts))
    decreases |ts|
  {
    hide ListenersOk, ActAll;
    if ts != [] {
      NoteKeepsListeners(r, Ticked(ts[0]));
      ActAllKeepsListeners(Note(r, Ticked(ts[0])), sc.does(ts[0].cb, r.trace + [Ticked(ts[0])]));
      TickAllKeepsListeners(sc, Call(sc, r, ts[0].cb, Ticked(ts[0])), ts[1..]);
    }
  }

  /** What a firing pass goes by: the round under way and the state read. */
  ghost predicate Firing(r: Realm, k: nat, state: ReadyState) {
    ListenersOk(r) && r.depth == k + 1 && (NoWrites(r.trace) ==> state == Lifecycle(k))
  }

  lemma MarkedCount(tr: seq<Event>, e: Event, kind: Kind, seen: set<Key>)
    requires e.Fired? && CountOk(tr, e.listener, kind, seen) && KeyFor(kind, e.state) !in seen
    ensures CountOk(tr + [e], e.listener, kind, seen + {KeyFor(kind, e.state)})
  {
    forall state
      ensures Calls(tr + [e], e.listener) == Calls(tr, e.listener) + 1
      ensures CallsIn(tr + [e], e.listener, state) == CallsIn(tr, e.listener, state) + if e.state == state then 1 else 0
    {
      CallsOneMore(tr, e, e.listener, state);
    }
  }

  lemma MarkAndFire(r: Realm, i: nat, k: nat, state: ReadyState)
    requires Firing(r, k, state) && i < |r.listeners| && IsDue(r, i, k, state)
    ensures ListenersOk(Note(Marked(r, i, state), Fired(i, k, state)))
  {
    var e := Fired(i, k, state);
    var r' := Note(Marked(r, i, state), e);
    if NoWrites(r'.trace) { NoWritesBefore(r.trace, r'.trace); }
    forall j: nat | j < |r.listeners| ensures CountOk(r'.trace, j, r'.listeners[j].kind, r'.seen[j]) {
      if j == i {
        MarkedCount(r.trace, e, r.listeners[i].kind, r.seen[i]);
      } else {
        QuietCount(r.trace, e, j, r.listeners[j].kind, r.seen[j]);
      }
    }
    forall j: nat | j >= |r.listeners| ensures NeverCalled(r'.trace, j) {
      QuietCount(r.trace, e, j, DomContentLoaded, {});
    }
    CallAddsInOrder(r, r', e);
  }

  lemma CallAddsInOrder(r: Realm, r': Realm, e: Event)
    requires CallsInOrder(r) && e.Fired? && r'.trace == r.trace + [e]
    requires r'.listeners == r.listeners && r'.depth == r.depth == e.round + 1
    requires CallOk(r', e)
    ensures CallsInOrder(r')
  {
    if NoWrites(r'.trace) { NoWritesBefore(r.trace, r'.trace); }
    forall p | 0 <= p < |r'.trace| && r'.trace[p].Fired?
      ensures CallOk(r', r'.trace[p]) && r'.trace[p].round <= e.round
    {
      if p < |r.trace| {
        assert r'.trace[p] == r.trace[p];
        assert CallOk(r, r.trace[p]);
      }
    }
    forall p, q | 0 <= p < q < |r'.trace| && r'.trace[p].Fired? && r'.trace[q].Fired?
      ensures r'.trace[p].round <= r'.trace[q].round
    {
      if q < |r.trace| { assert r'.trace[p] == r.trace[p] && r'.trace[q] == r.trace[q]; }
    }
  }

  lemma FireOneKeepsListeners(sc: Script, r: Realm, i: nat, k: nat, state: ReadyState)
    requires Shaped(r) && Firing(r, k, state) && i < |r.listeners|
    ensures Firing(FireOne(sc, r, i, k, state), k, state)
  {
    hide CallsMatchKeys, CallsInOrder, StateOk, IsDue;
    FireOneKeeps(sc, r, i, k, state);
    var r' := FireOne(sc, r, i, k, state);
    if NoWrites(r'.trace) { NoWritesBefore(r.trace, r'.trace); }
    if IsDue(r, i, k, state) {
      var e := Fired(i, k, state);
      MarkAndFire(r, i, k, state);
      ActAllKeepsListeners(Note(Marked(r, i, state), e), sc.does(r.listeners[i].cb, r.trace + [e]));
    }
  }

  lemma {:induction false} FireFromKeepsListeners(sc: Script, r: Realm, i: nat, n: nat, k: nat, state: ReadyState)
    requires Shaped(r) && Firing(r, k, state) && n <= |r.listeners|
    ensures Firing(FireFrom(sc, r, i, n, k, state), k, state)
    decreases n - i
  {
    hide Firing, FireOne;
    if i < n {
      FireOneKeeps(sc, r, i, k, state);
      FireOneKeepsListeners(sc, r, i, k, state);
      FireFromKeepsListeners(sc, FireOne(sc, r, i, k, state), i + 1, n, k, state);
    }
  }

  lemma DrainKeepsListeners(sc: Script, r: Realm)
    requires ListenersOk(r)
    ensures ListenersOk(Drain(sc, r))
  {
    hide ListenersOk, ActAll;
    NoteKeepsListeners(r, Drained);
    ActAllKeepsListeners(Note(r, Drained), sc.drains(r.trace + [Drained]));
  }

  lemma BeginKeepsListeners(r: Realm, k: nat)
    requires ListenersOk(r) && r.depth == k
    ensures ListenersOk(Begun(r, k))
  {
    QuietKeepsCounts(r, Begun(r, k), Became(Lifecycle(k)));
    QuietKeepsOrder(r, Begun(r, k), Became(Lifecycle(k)));
  }

  lemma SnapshotIsFiring(sc: Script, r: Realm, k: nat)
    requires Shaped(r) && ListenersOk(r) && r.depth == k
    ensures var b := BeforeFiring(sc, r, k); Firing(b, k, b.state)
  {
    hide CallsMatchKeys, CallsInOrder, RunTasks, TickAll;
    BeginKeepsListeners(r, k);
    RunTasksKeepsListeners(sc, Begun(r, k), r.once);
    var ran := RunTasks(sc, Begun(r, k), r.once);
    TickAllKeepsListeners(sc, ran, ran.repeats);
    BeforeFiringKeeps(sc, r, k);
  }

  lemma RoundKeepsListeners(sc: Script, r: Realm, k: nat)
    requires Shaped(r) && ListenersOk(r) && r.depth == k
    ensures ListenersOk(Round(sc, r, k))
  {
    hide ListenersOk, BeforeFiring, FireFrom, Drain;
    SnapshotIsFiring(sc, r, k);
    BeforeFiringKeeps(sc, r, k);
    var b := BeforeFiring(sc, r, k);
    FireFromKeepsListeners(sc, b, 0, |b.listeners|, k, b.state);
    DrainKeepsListeners(sc, FireAllOf(sc, b, k));
  }

  lemma {:induction false} RoundsKeepListeners(sc: Script, r: Realm, k: nat, n: nat)
    requires Shaped(r) && ListenersOk(r) && r.depth == k && k <= n
    ensures ListenersOk(Rounds(sc, r, k, n)) && Rounds(sc, r, k, n).depth == n
    decreases n - k
  {
    hide ListenersOk, Round;
    if k < n {
      RoundKeeps(sc, r, k);
      RoundKeepsListeners(sc, r, k);
      RoundsKeepListeners(sc, Round(sc, r, k), k + 1, n);
    }
  }

  lemma {:induction false} RoundsCompose(sc: Script, r: Realm, k: nat, m: nat, n: nat)
    requires Shaped(r) && k <= m <= n
    ensures Rounds(sc, r, k, n) == Rounds(sc, Rounds(sc, r, k, m), m, n)
    decreases m - k
  {
    hide Round;
    if k < m {
      RoundKeeps(sc, r, k);
      RoundsCompose(sc, Round(sc, r, k), k + 1, m, n);
    }
  }

  /** All that later rounds keep: calls made, listeners registered. */
  ghost predicate Extends(r: Realm, r': Realm) {
    && Shaped(r') && r.listeners <= r'.listeners && r.trace <= r'.trace
    && forall i :: 0 <= i < |r.seen| && i < |r'.seen| ==> r.seen[i] <= r'.seen[i]
  }

  lemma RoundExtends(sc: Script, r: Realm, k: nat)
    requires Shaped(r)
    ensures Extends(r, Round(sc, r, k))
  {
    hide Round;
    RoundKeeps(sc, r, k);
    assert r.trace <= Begun(r, k).trace;
  }

  lemma {:induction false} RoundsExtend(sc: Script, r: Realm, k: nat, n: nat)
    requires Shaped(r)
    ensures Extends(r, Rounds(sc, r, k, n))
    decreases n - k
  {
    hide Round;
    if k < n {
      RoundKeeps(sc, r, k);
      RoundExtends(sc, r, k);
      RoundsExtend(sc, Round(sc, r, k), k + 1, n);
    }
  }

  /** The realm just before the listeners are called in round k. */
  function Snapshot(sc: Script, r: Realm, k: nat): Realm
    requires Shaped(r)
  {
    DrainKeeps(sc, r);
    BeforeFiring(sc, Rounds(sc, Drain(sc, r), 0, k), k)
  }

  /** Every listener of round k's snapshot is still there when all has settled,
      and has been called under its key, unless round 0 passed it over. */
  lemma SnapshotIsCalled(sc: Script, r: Realm, k: nat)
    requires Shaped(r) && k < ROUNDS
    ensures var s, f := Snapshot(sc, r, k), Settled(sc, r);
            && Shaped(s) && Shaped(f) && s.listeners <= f.listeners && s.trace <= f.trace
            && forall i :: 0 <= i < |s.listeners| ==> !IsDue(f, i, k, s.state)
  {
    hide Round, BeforeFiring, Drain, IsDue;
    DrainKeeps(sc, r);
    var d := Drain(sc, r);
    var before := Rounds(sc, d, 0, k);
    RoundsCompose(sc, d, 0, k, ROUNDS);
    BeforeFiringKeeps(sc, before, k);
    RoundKeeps(sc, before, k);
    var s, after := Snapshot(sc, r, k), Round(sc, before, k);
    var f := Rounds(sc, after, k + 1, ROUNDS);
    RoundsExtend(sc, after, k + 1, ROUNDS);
    assert Rounds(sc, before, k, ROUNDS) == f;
    forall i | 0 <= i < |s.listeners| ensures !IsDue(f, i, k, s.state) {
      StaysCalledLater(after, f, i, k, s.state);
    }
  }

  lemma StaysCalledLater(r: Realm, r': Realm, i: nat, k: nat, state: ReadyState)
    requires Shaped(r) && Extends(r, r') && i < |r.listeners| && !IsDue(r, i, k, state)
    ensures !IsDue(r', i, k, state)
  {
    assert r.seen[i] <= r'.seen[i];
  }

  lemma LoadedIsOk(loaded: seq<Action>)
    ensures Shaped(ActAll(FRESH, loaded)) && ListenersOk(ActAll(FRESH, loaded)) && ActAll(FRESH, loaded).depth == 0
  {
    assert ListenersOk(FRESH);
    ActAllKeeps(FRESH, loaded);
    ActAllKeepsListeners(FRESH, loaded);
  }

  lemma SettledIsOk(sc: Script, r: Realm)
    requires Shaped(r) && ListenersOk(r) && r.depth == 0
    ensures ListenersOk(Settled(sc, r))
  {
    hide ListenersOk, Drain;
    DrainKeeps(sc, r);
    DrainKeepsListeners(sc, r);
    RoundsKeepListeners(sc, Drain(sc, r), 0, ROUNDS);
  }

  /** Over any script, one that writes document.readyState included: a listener
      is called at most once, a readystatechange one at most once per state, calls
      never go back a round, round 0 calls early kinds only; and each listener of
      each round's snapshot is called, a readystatechange one in the state that
      round found, any other once, unless round 0 passed it over. */
  lemma ListenersFire(sc: Script, loaded: seq<Action>, k: nat, i: nat)
    requires k < ROUNDS
    ensures Shaped(ActAll(FRESH, loaded))
    ensures var r := ActAll(FRESH, loaded); var f, s := Settled(sc, r), Snapshot(sc, r, k);
            && ListenersOk(f) && s.listeners <= f.listeners
            && (i < |s.listeners| && s.listeners[i].kind.ReadyStateChange? ==> CallsIn(f.trace, i, s.state) == 1)
            && (i < |s.listeners| && !s.listeners[i].kind.ReadyStateChange? && (k > 0 || IsEarly(s.listeners[i].kind))
                ==> Calls(f.trace, i) == 1)
  {
    LoadedIsOk(loaded);
    var r := ActAll(FRESH, loaded);
    SettledIsOk(sc, r);
    CalledOnce(sc, r, k, i);
  }

  lemma CalledOnce(sc: Script, r: Realm, k: nat, i: nat)
    requires Shaped(r) && k < ROUNDS && ListenersOk(Settled(sc, r))
    ensures var f, s := Settled(sc, r), Snapshot(sc, r, k);
            && s.listeners <= f.listeners
            && (i < |s.listeners| && s.listeners[i].kind.ReadyStateChange? ==> CallsIn(f.trace, i, s.state) == 1)
            && (i < |s.listeners| && !s.listeners[i].kind.ReadyStateChange? && (k > 0 || IsEarly(s.listeners[i].kind))
                ==> Calls(f.trace, i) == 1)
  {
    hide Settled, Snapshot, CallsInOrder, StateOk;
    SnapshotIsCalled(sc, r, k);
    var s, f := Snapshot(sc, r, k), Settled(sc, r);
    if i < |s.listeners| {
      assert !IsDue(f, i, k, s.state);
      assert CountOk(f.trace, i, f.listeners[i].kind, f.seen[i]);
    }
  }

  // ---- the loop as the gate runs it -----------------------------------

  class Sandbox {
    const script: Script
    var readyState: ReadyState
    var depth: nat
    var nextId: nat
    var once: seq<Task>
    var repeats: seq<Task>
    var listeners: seq<Listener>
    var seen: seq<set<Key>>
    var trace: seq<Event>

    constructor (script: Script)
      ensures this.script == script && Now() == FRESH
    {
      this.script := script;
      readyState, depth, nextId := LOADING, 0, 0;
      once, repeats, listeners, seen, trace := [], [], [], [], [];
    }

    function Now(): Realm
      reads this
    {
      Realm(readyState, depth, nextId, once, repeats, listeners, seen, trace)
    }

    /** setTimeout and its kin, setInterval, addEventListener, and a plain write
        to document.readyState. */
    method Perform(acts: seq<Action>)
      modifies this
      ensures Now() == ActAll(old(Now()), acts)
    {
      for n := 0 to |acts|
        invariant ActAll(Now(), acts[n..]) == ActAll(old(Now()), acts)
      {
        var a := acts[n];
        assert acts[n..][1..] == acts[n + 1..];
        match a
        case Later(fn) =>
          if fn.Some? {
            var t := Task(nextId, fn.value, depth);
            once, trace := once + [t], trace + [Queued(t)];
          }
          nextId := nextId + 1;
        case Every(fn) =>
          if fn.Some? { repeats := repeats + [Task(nextId, fn.value, depth)]; }
          nextId := nextId + 1;
        case Listen(kind, fn) =>
          if fn.Some? { listeners, seen := listeners + [Listener(kind, fn.value)], seen + [{}]; }
        case SetState(state) =>
          readyState, trace := state, trace + [Wrote(state)];
      }
    }

    method Invoke(cb: Callback, e: Event)
      modifies this
      ensures Now() == Call(script, old(Now()), cb, e)
    {
      trace := trace + [e];
      Perform(script.does(cb, trace));
    }

    method Macrotask()
      modifies this
      ensures Now() == Drain(script, old(Now()))
    {
      trace := trace + [Drained];
      Perform(script.drains(trace));
    }

    method Settle()
      requires Shaped(Now())
      modifies this
      ensures Now() == Settled(script, old(Now()))
    {
      DrainKeeps(script, Now());
      Macrotask();
      ghost var start := Now();
      for round := 0 to ROUNDS
        invariant Shaped(Now()) && Rounds(script, Now(), round, ROUNDS) == Rounds(script, start, 0, ROUNDS)
      {
        RoundKeeps(script, Now(), round);
        OneRound(round);
      }
    }

    method OneRound(k: nat)
      requires Shaped(Now())
      modifies this
      ensures Now() == Round(script, old(Now()), k)
    {
      BeforeFiringKeeps(script, Now(), k);
      readyState := Lifecycle(k);
      trace := trace + [Became(readyState)];
      var due := once;
      once, depth := [], depth + 1;
      ghost var begun := Now();
      for n := 0 to |due|
        invariant RunTasks(script, Now(), due[n..]) == RunTasks(script, begun, due)
      {
        assert due[n..][1..] == due[n + 1..];
        Invoke(due[n].cb, Ran(due[n]));
      }
      ghost var ran := Now();
      var ticks := repeats;
      for n := 0 to |ticks|
        invariant TickAll(script, Now(), ticks[n..]) == TickAll(script, ran, ticks)
      {
        assert ticks[n..][1..] == ticks[n + 1..];
        Invoke(ticks[n].cb, Ticked(ticks[n]));
      }
      FireAll(k);
      Macrotask();
    }

    /** Each listener registered so far, once, or once per state: the state is
        read once, before the first call. */
    method FireAll(round: nat)
      requires Shaped(Now())
      modifies this
      ensures Now() == FireAllOf(script, old(Now()), round)
    {
      var state := readyState;
      var snapshot := |listeners|;
      for i := 0 to snapshot
        invariant Shaped(Now()) && snapshot <= |listeners|
        invariant FireFrom(script, Now(), i, snapshot, round, state) == FireAllOf(script, old(Now()), round)
      {
        FireOneKeeps(script, Now(), i, round, state);
        var l := listeners[i];
        if round == 0 && !IsEarly(l.kind) { continue; }
        var key := KeyFor(l.kind, state);
        if key in seen[i] { continue; }
        seen := seen[i := seen[i] + {key}];
        Invoke(l.cb, Fired(i, round, state));
      }
    }
  }
}
