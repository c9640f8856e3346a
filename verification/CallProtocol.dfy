/**
 How widget threads and the event watcher share Lua states and the barlib (luastatus/luastatus.c).

 One thread per widget runs its plugin; the main thread spawns those threads, then runs the barlib's
 event watcher. A state of the program is a program counter per thread, the holders of the mutexes,
 the heights of the Lua stacks and the "current widget" of the separate state. An action runs one
 thread from one point where others may interfere to the next: up to a mutex operation or into
 plugin, barlib or Lua code. A failed LS_ASSERT, or a use of memory that is not initialized, makes the
 state `crashed`.
 */
module CallProtocol {
  import opened Wrappers

  // ---- Widgets after initialization ----

  /** How widgets_init() went for a widget: not at all, or with an `event` that is nil, a function, or
      a string. */
  datatype Widget = Stillborn | NoEvent | FunctionEvent | StringEvent

  /** Whether `L`, `L_mtx` and `comm` are initialized. */
  predicate HasState(w: Widget) {
    !w.Stillborn?
  }

  /** Whether `lref_event` is LUA_REFNIL. */
  predicate RefNil(w: Widget) {
    w.Stillborn? || w.NoEvent?
  }

  /** The `sepstate_event` field. */
  predicate SepEvent(w: Widget) {
    w.Stillborn? || w.StringEvent?
  }

  // ---- States ----

  datatype Thread = MainThread | WidgetThread(i: nat)

  /** Where a widget thread is. `pushed` counts the values the plugin has pushed since call_begin();
      `inComm` tells whether Lua code is inside luastatus.communicate() with its mutex locked. */
  datatype WidgetPc =
    | NotSpawned
    | InRun
    | Began(pushed: nat)
    | InCb(inComm: bool)
    | CbReturned(ok: bool)
    | Setting(ok: bool)
    | AfterSet
    | RunReturned
    | FinalSet
    | Done

  datatype MainPc =
    | Spawning(i: nat)
    | SpawnSet(i: nat)
    | Watching
    | EwBegan(k: nat, pushed: nat)
    | InEvent(k: nat, inComm: bool)
    | EventFailed(k: nat)
    | EventSet(k: nat)
    | EventOver(k: nat)
    | Joining(i: nat)
    | Finished

  datatype State = State(
    main: MainPc,
    pcs: seq<WidgetPc>,
    heights: seq<nat>,           // of the widgets' Lua stacks
    sepHeight: nat,              // of the separate state's
    curW: Option<nat>,           // sepstate.cur_w
    widgetMtx: seq<Option<Thread>>,
    sepMtx: Option<Thread>,
    barlibMtx: Option<Thread>,
    commMtx: Option<Thread>,
    exited: bool,                // a fatal error was reported, or Lua code called os.exit()
    crashed: bool)

  function Init(c: seq<Widget>): (s: State)
    ensures Shaped(c, s)
  {
    State(Spawning(0), seq(|c|, i => NotSpawned), seq(|c|, i => 1), 1, None,
          seq(|c|, i => None), None, None, None, false, false)
  }

  // ---- Actions ----

  datatype SetResult = SetOk | SetNonFatal | SetFatal

  datatype WidgetAction =
    | CallBegin
    | PluginPush
    | CallCancel
    | CallEnd
    | CbCommLock
    | CbCommUnlock
    | CbExits
    | CbReturns(ok: bool)
    | LockBarlib
    | Set(r: SetResult, errorIsFatal: bool)
    | UnlockWidget
    | RunReturns

  /** What the main thread does outside of events. */
  datatype StartAction = Spawn | SpawnSetError(fatal: bool) | WatcherReturns(fatal: bool) | Join

  datatype EventAction =
    | EwCallBegin
    | EwPush
    | EwCallCancel
    | EwCallEnd
    | EventCommLock
    | EventCommUnlock
    | EventExits
    | EventReturns(ok: bool)
    | EventLockBarlib
    | EventSetError(fatal: bool)
    | EventUnlock

  datatype Action = ByWidget(i: nat, wa: WidgetAction) | ByStart(sa: StartAction) | ByEvent(k: nat, ea: EventAction)

  predicate Shaped(c: seq<Widget>, s: State) {
    |s.pcs| == |s.heights| == |s.widgetMtx| == |c|
  }

  /** What a thread works on: its place, the Lua stack and mutex in question, and what is shared. */
  datatype View<Pc> = View(
    pc: Pc, height: nat, mtx: Option<Thread>, curW: Option<nat>,
    barlib: Option<Thread>, comm: Option<Thread>, exited: bool, crashed: bool)

  // ---- Widget threads ----

  /** One action of a widget thread; None means that it is elsewhere, or has to wait for a mutex. */
  function WidgetStep(me: Thread, v: View<WidgetPc>, a: WidgetAction): Option<View<WidgetPc>> {
    var pc := v.pc;
    match a
    case CallBegin =>
      if pc != InRun || v.mtx != None then None
      else if v.height != 1 then Some(v.(crashed := true))
      else Some(v.(pc := Began(0), height := 2, mtx := Some(me)))
    case PluginPush =>
      if !pc.Began? then None else Some(v.(pc := Began(pc.pushed + 1), height := v.height + 1))
    case CallCancel =>
      if !pc.Began? then None else Some(v.(pc := InRun, height := 1, mtx := None))
    case CallEnd => // plugins push exactly one value before this
      if pc != Began(1) then None
      else if v.height != 3 then Some(v.(crashed := true))
      else Some(v.(pc := InCb(false)))
    case CbCommLock =>
      if pc != InCb(false) || v.comm != None then None else Some(v.(pc := InCb(true), comm := Some(me)))
    case CbCommUnlock =>
      if pc != InCb(true) then None else Some(v.(pc := InCb(false), comm := None))
    case CbExits =>
      if pc != InCb(false) then None else Some(v.(exited := true))
    case CbReturns(ok) => // a result replaces the function and its argument; an error message is popped
      if pc != InCb(false) then None else Some(v.(pc := CbReturned(ok), height := if ok then 2 else 1))
    case LockBarlib =>
      if v.barlib != None then None
      else if pc.CbReturned? then Some(v.(pc := Setting(pc.ok), barlib := Some(me)))
      else if pc == RunReturned then Some(v.(pc := FinalSet, barlib := Some(me)))
      else None
    case Set(r, errorIsFatal) => // set(), or set_error(), or both; then the barlib is unlocked
      if pc.Setting? then
        var callsSetError := !pc.ok || r == SetNonFatal;
        if (pc.ok && r == SetFatal) || (callsSetError && errorIsFatal) then Some(v.(exited := true))
        else Some(v.(pc := AfterSet, height := 1, barlib := None))
      else if pc == FinalSet then
        if errorIsFatal then Some(v.(exited := true)) else Some(v.(pc := Done, barlib := None))
      else None
    case UnlockWidget =>
      if pc != AfterSet then None else Some(v.(pc := InRun, mtx := None))
    case RunReturns =>
      if pc != InRun then None else Some(v.(pc := RunReturned))
  }

  function WidgetView(s: State, i: nat): View<WidgetPc>
    requires i < |s.pcs| == |s.heights| == |s.widgetMtx|
  {
    View(s.pcs[i], s.heights[i], s.widgetMtx[i], None, s.barlibMtx, s.commMtx, s.exited, s.crashed)
  }

  function PutWidget(s: State, i: nat, v: View<WidgetPc>): State
    requires i < |s.pcs| == |s.heights| == |s.widgetMtx|
  {
    s.(pcs := s.pcs[i := v.pc], heights := s.heights[i := v.height], widgetMtx := s.widgetMtx[i := v.mtx],
       barlibMtx := v.barlib, commMtx := v.comm, exited := v.exited, crashed := v.crashed)
  }

  // ---- The main thread ----

  /** The Comm that luastatus.communicate() called from widget `k`'s event works on: in the separate
      state cur_w tells. None stands for one that does not exist. */
  function EventComm(c: seq<Widget>, k: nat, curW: Option<nat>): Option<nat>
    requires k < |c|
  {
    var w := if SepEvent(c[k]) then curW else Some(k);
    if w.Some? && w.value < |c| && HasState(c[w.value]) then w else None
  }

  /** One action of the event watcher about widget `k`. */
  function EventStep(c: seq<Widget>, k: nat, v: View<MainPc>, a: EventAction): Option<View<MainPc>>
    requires k < |c|
  {
    var me, pc := Some(MainThread), v.pc;
    match a
    case EwCallBegin =>
      if pc != Watching then None
      else if !SepEvent(c[k]) && !HasState(c[k]) then Some(v.(crashed := true))
      else if v.mtx != None then None
      else if v.height != 1 then Some(v.(crashed := true))
      else Some(v.(pc := EwBegan(k, 0), height := 2, mtx := me,
                   curW := if SepEvent(c[k]) then Some(k) else v.curW))
    case EwPush =>
      if !pc.EwBegan? then None
      else Some(v.(pc := EwBegan(k, pc.pushed + 1), height := v.height + 1))
    case EwCallCancel =>
      if !pc.EwBegan? then None
      else Some(v.(pc := Watching, height := 1, mtx := None,
                   curW := if SepEvent(c[k]) then None else v.curW))
    case EwCallEnd => // barlibs push exactly one value before this
      if !pc.EwBegan? || pc.pushed != 1 then None
      else if v.height != 3 then Some(v.(crashed := true))
      else if RefNil(c[k]) then Some(v.(pc := EventOver(k), height := 1))
      else Some(v.(pc := InEvent(k, false)))
    case EventCommLock =>
      if !pc.InEvent? || pc.inComm then None
      else if EventComm(c, k, v.curW) == None then Some(v.(crashed := true))
      else if v.comm != None then None
      else Some(v.(pc := InEvent(k, true), comm := me))
    case EventCommUnlock =>
      if !pc.InEvent? || !pc.inComm then None else Some(v.(pc := InEvent(k, false), comm := None))
    case EventExits =>
      if !pc.InEvent? || pc.inComm then None else Some(v.(exited := true))
    case EventReturns(ok) =>
      if !pc.InEvent? || pc.inComm then None
      else Some(v.(pc := if ok then EventOver(k) else EventFailed(k), height := 1))
    case EventLockBarlib =>
      if !pc.EventFailed? || v.barlib != None then None else Some(v.(pc := EventSet(k), barlib := me))
    case EventSetError(fatal) =>
      if !pc.EventSet? then None
      else if fatal then Some(v.(exited := true))
      else Some(v.(pc := EventOver(k), barlib := None))
    case EventUnlock =>
      if !pc.EventOver? then None
      else Some(v.(pc := Watching, mtx := None, curW := if SepEvent(c[k]) then None else v.curW))
  }

  /** Events of widget `k` use the Lua state and mutex of the separate state, or the widget's own. */
  function EventView(c: seq<Widget>, s: State, k: nat): View<MainPc>
    requires Shaped(c, s) && k < |c|
  {
    View(s.main, if SepEvent(c[k]) then s.sepHeight else s.heights[k],
         if SepEvent(c[k]) then s.sepMtx else s.widgetMtx[k],
         s.curW, s.barlibMtx, s.commMtx, s.exited, s.crashed)
  }

  function PutEvent(c: seq<Widget>, s: State, k: nat, v: View<MainPc>): State
    requires Shaped(c, s) && k < |c|
  {
    var s' := s.(main := v.pc, curW := v.curW, barlibMtx := v.barlib, commMtx := v.comm,
                 exited := v.exited, crashed := v.crashed);
    if SepEvent(c[k]) then s'.(sepHeight := v.height, sepMtx := v.mtx)
    else s'.(heights := s.heights[k := v.height], widgetMtx := s.widgetMtx[k := v.mtx])
  }

  function StartNext(c: seq<Widget>, s: State, a: StartAction): Option<State>
    requires Shaped(c, s)
  {
    var pc := s.main;
    match a
    case Spawn =>
      if !pc.Spawning? then None
      else if pc.i >= |c| then Some(s.(main := Watching))
      else if HasState(c[pc.i]) then Some(s.(main := Spawning(pc.i + 1), pcs := s.pcs[pc.i := InRun]))
      else if s.barlibMtx != None then None
      else Some(s.(main := SpawnSet(pc.i), barlibMtx := Some(MainThread)))
    case SpawnSetError(fatal) =>
      if !pc.SpawnSet? then None
      else if fatal then Some(s.(exited := true))
      else Some(s.(main := Spawning(pc.i + 1), barlibMtx := None))
    case WatcherReturns(fatal) => // also: there is no event watcher
      if pc != Watching then None
      else if fatal then Some(s.(exited := true))
      else Some(s.(main := Joining(0)))
    case Join =>
      if !pc.Joining? then None
      else if pc.i >= |c| then Some(s.(main := Finished))
      else if HasState(c[pc.i]) && s.pcs[pc.i] != Done then None
      else Some(s.(main := Joining(pc.i + 1)))
  }

  function Next(c: seq<Widget>, s: State, a: Action): (r: Option<State>)
    requires Shaped(c, s)
    ensures r.Some? ==> Shaped(c, r.value)
  {
    if s.exited || s.crashed then None
    else match a
      case ByWidget(i, wa) =>
        if i >= |c| then None
        else
          var v := WidgetStep(WidgetThread(i), WidgetView(s, i), wa);
          if v.None? then None else Some(PutWidget(s, i, v.value))
      case ByEvent(k, ea) =>
        if k >= |c| || (ea.EwCallBegin? <==> Handling(s.main) == Some(k)) then None
        else
          var v := EventStep(c, k, EventView(c, s, k), ea);
          if v.None? then None else Some(PutEvent(c, s, k, v.value))
      case ByStart(sa) => StartNext(c, s, sa)
  }

  /** The state after a schedule, if every action of it was possible. */
  function Run(c: seq<Widget>, s: State, schedule: seq<Action>): (r: Option<State>)
    requires Shaped(c, s)
    ensures r.Some? ==> Shaped(c, r.value)
    decreases |schedule|
  {
    if schedule == [] then Some(s)
    else
      var s' := Next(c, s, schedule[0]);
      if s'.None? then None else Run(c, s'.value, schedule[1..])
  }

  ghost predicate Reachable(c: seq<Widget>, s: State) {
    exists schedule :: Run(c, Init(c), schedule) == Some(s)
  }

  // ---- The invariant ----

  /** Whether a widget thread is between locking and unlocking its widget's mutex. */
  predicate LocksWidget(pc: WidgetPc) {
    pc.Began? || pc.InCb? || pc.CbReturned? || pc.Setting? || pc.AfterSet?
  }

  /** The widget whose event the main thread is handling. */
  function Handling(pc: MainPc): Option<nat> {
    match pc
    case EwBegan(k, _) => Some(k)
    case InEvent(k, _) => Some(k)
    case EventFailed(k) => Some(k)
    case EventSet(k) => Some(k)
    case EventOver(k) => Some(k)
    case _ => None
  }

  /** The height of a widget's stack at a point of its thread; None means that any will do. */
  function HeightAt(pc: WidgetPc): Option<nat> {
    match pc
    case Began(pushed) => Some(2 + pushed)
    case InCb(_) => Some(3)
    case CbReturned(ok) => Some(if ok then 2 else 1)
    case Setting(_) => None
    case _ => Some(1)
  }

  function EventHeightAt(pc: MainPc): nat {
    match pc
    case EwBegan(_, pushed) => 2 + pushed
    case InEvent(_, _) => 3
    case _ => 1
  }

  predicate InBarlib(pc: WidgetPc) {
    pc.Setting? || pc.FinalSet?
  }

  predicate MainInBarlib(pc: MainPc) {
    pc.SpawnSet? || pc.EventSet?
  }

  predicate MainInComm(pc: MainPc) {
    pc.InEvent? && pc.inComm
  }

  /** What a widget thread sees when no event of its widget is being handled in its Lua state. */
  predicate WidgetFits(me: Thread, v: View<WidgetPc>) {
    && v.mtx == (if LocksWidget(v.pc) then Some(me) else None)
    && (HeightAt(v.pc) == None || HeightAt(v.pc) == Some(v.height))
    && (v.barlib == Some(me) <==> InBarlib(v.pc))
    && (v.comm == Some(me) <==> v.pc == InCb(true))
  }

  /** What it sees otherwise: it cannot hold the mutex. */
  predicate WidgetKeptOut(me: Thread, v: View<WidgetPc>) {
    && v.mtx == Some(MainThread) && !LocksWidget(v.pc)
    && (v.barlib == Some(me) <==> InBarlib(v.pc))
    && v.comm != Some(me)
  }

  /** What the main thread sees of the Lua state of widget `k`'s events while it handles one. */
  predicate EventFits(c: seq<Widget>, k: nat, v: View<MainPc>)
    requires k < |c|
  {
    && Handling(v.pc) == Some(k) && v.mtx == Some(MainThread) && v.height == EventHeightAt(v.pc)
    && v.curW == (if SepEvent(c[k]) then Some(k) else None)
    && (v.pc.InEvent? ==> !RefNil(c[k]))
    && (v.barlib == Some(MainThread) <==> MainInBarlib(v.pc))
    && (v.comm == Some(MainThread) <==> MainInComm(v.pc))
  }

  /** A mutex stays with its holder, or goes from or to the thread that acts. */
  predicate Moves(me: Thread, before: Option<Thread>, after: Option<Thread>) {
    after == before || (before == None && after == Some(me)) || (before == Some(me) && after == None)
  }

  lemma {:induction false} WidgetStepFits(me: Thread, v: View<WidgetPc>, a: WidgetAction)
    requires (me != MainThread && WidgetKeptOut(me, v)) || WidgetFits(me, v)
    requires WidgetStep(me, v, a).Some? && !v.crashed
    ensures var v' := WidgetStep(me, v, a).value;
      && !v'.crashed && (WidgetFits(me, v) ==> WidgetFits(me, v'))
      && (me != MainThread && WidgetKeptOut(me, v) ==> WidgetKeptOut(me, v') && v'.height == v.height)
      && Moves(me, v.barlib, v'.barlib) && Moves(me, v.comm, v'.comm)
      && v.pc != Done && v.pc != NotSpawned && v'.pc != NotSpawned
  {
  }

  lemma {:induction false} EventStepFits(c: seq<Widget>, k: nat, v: View<MainPc>, a: EventAction)
    requires k < |c| && EventStep(c, k, v, a).Some? && !v.crashed
    requires EventFits(c, k, v) || (a.EwCallBegin? && v.curW == None && (v.mtx == None ==> v.height == 1)
               && v.barlib != Some(MainThread) && v.comm != Some(MainThread))
    ensures var v' := EventStep(c, k, v, a).value;
      && !v'.crashed && Moves(MainThread, v.barlib, v'.barlib) && Moves(MainThread, v.comm, v'.comm)
      && (EventFits(c, k, v')
          || (v'.pc == Watching && v'.mtx == None && v'.height == 1 && v'.curW == None
              && v'.barlib != Some(MainThread) && v'.comm != Some(MainThread)))
  {
  }

  /** Whether the main thread is handling an event of widget `i` in that widget's own Lua state. */
  predicate EventInside(c: seq<Widget>, s: State, i: nat)
    requires i < |c|
  {
    Handling(s.main) == Some(i) && !SepEvent(c[i])
  }

  /** Stillborn widgets never have a thread, others have one from some point of start-up on; main does
      not get past the end of a thread that is not done. */
  predicate SpawnOk(c: seq<Widget>, s: State, i: nat)
    requires Shaped(c, s) && i < |c|
  {
    && (s.pcs[i] == NotSpawned <==>
          !HasState(c[i]) || ((s.main.Spawning? || s.main.SpawnSet?) && s.main.i <= i))
    && (HasState(c[i]) && (s.main == Finished || (s.main.Joining? && i < s.main.i)) ==> s.pcs[i] == Done)
  }

  predicate WidgetOk(c: seq<Widget>, s: State, i: nat)
    requires Shaped(c, s) && i < |c|
  {
    && SpawnOk(c, s, i)
    && if EventInside(c, s, i)
       then WidgetKeptOut(WidgetThread(i), WidgetView(s, i))
       else WidgetFits(WidgetThread(i), WidgetView(s, i))
  }

  predicate MainOk(c: seq<Widget>, s: State)
    requires Shaped(c, s)
  {
    var k := Handling(s.main);
    && (if k.Some? then k.value < |c| && EventFits(c, k.value, EventView(c, s, k.value))
        else s.curW == None && s.commMtx != Some(MainThread)
             && (s.barlibMtx == Some(MainThread) <==> s.main.SpawnSet?))
    && (k.None? || (k.value < |c| && !SepEvent(c[k.value])) ==> s.sepMtx == None && s.sepHeight == 1)
    && (s.main.SpawnSet? ==> s.main.i < |c| && !HasState(c[s.main.i]))
  }

  /** Only threads that exist hold mutexes. */
  predicate Exists(c: seq<Widget>, t: Option<Thread>) {
    t.Some? && t.value.WidgetThread? ==> t.value.i < |c|
  }

  /** Who holds what, the heights of the Lua stacks and sepstate.cur_w are what the places of the
      threads say; a Lua stack has height 1 whenever its mutex is free; nothing has crashed. */
  predicate Inv(c: seq<Widget>, s: State) {
    && Shaped(c, s) && !s.crashed
    && MainOk(c, s) && Exists(c, s.barlibMtx) && Exists(c, s.commMtx)
    && forall i: nat | i < |c| :: WidgetOk(c, s, i)
  }

  lemma {:induction false} InvInit(c: seq<Widget>)
    ensures Inv(c, Init(c))
  {
  }

  lemma {:induction false} OthersMutexes(me: Thread, v: View<WidgetPc>, t: Thread, b: Option<Thread>, m: Option<Thread>)
    requires me != t && Moves(t, v.barlib, b) && Moves(t, v.comm, m)
    ensures WidgetFits(me, v) ==> WidgetFits(me, v.(barlib := b, comm := m, exited := true))
                                  && WidgetFits(me, v.(barlib := b, comm := m, exited := false))
    ensures WidgetKeptOut(me, v) ==> WidgetKeptOut(me, v.(barlib := b, comm := m, exited := true))
                                     && WidgetKeptOut(me, v.(barlib := b, comm := m, exited := false))
  {
    hide LocksWidget, HeightAt, InBarlib;
  }

  lemma {:induction false} OthersKept(c: seq<Widget>, s: State, i: nat, v': View<WidgetPc>, j: nat)
    requires Shaped(c, s) && i < |c| && j < |c| && i != j && WidgetOk(c, s, j)
    requires Moves(WidgetThread(i), s.barlibMtx, v'.barlib) && Moves(WidgetThread(i), s.commMtx, v'.comm)
    requires v'.crashed == s.crashed
    ensures WidgetOk(c, PutWidget(s, i, v'), j)
  {
    hide WidgetFits, WidgetKeptOut, Handling, Moves, SepEvent, HasState;
    var v, s' := WidgetView(s, j), PutWidget(s, i, v');
    OthersMutexes(WidgetThread(j), v, WidgetThread(i), v'.barlib, v'.comm);
    assert WidgetView(s', j) == v.(barlib := v'.barlib, comm := v'.comm, exited := v'.exited);
    assert v'.exited == true || v'.exited == false;
  }

  lemma {:induction false} InvWidget(c: seq<Widget>, s: State, i: nat, a: WidgetAction)
    requires Inv(c, s) && Next(c, s, ByWidget(i, a)).Some?
    ensures Inv(c, Next(c, s, ByWidget(i, a)).value)
  {
    hide WidgetStep, LocksWidget, HeightAt, InBarlib, EventHeightAt, HasState;
    var me, v := WidgetThread(i), WidgetView(s, i);
    assert WidgetOk(c, s, i);
    WidgetStepFits(me, v, a);
    var v' := WidgetStep(me, v, a).value;
    var s' := PutWidget(s, i, v');
    forall j: nat | j < |c| ensures WidgetOk(c, s', j) {
      if j != i {
        OthersKept(c, s, i, v', j);
      }
    }
  }

  lemma {:induction false} InvStart(c: seq<Widget>, s: State, a: StartAction)
    requires Inv(c, s) && Next(c, s, ByStart(a)).Some?
    ensures Inv(c, Next(c, s, ByStart(a)).value)
  {
    hide SepEvent;
    var s' := Next(c, s, ByStart(a)).value;
    forall j: nat | j < |c| ensures WidgetOk(c, s', j) {
      assert WidgetOk(c, s, j);
    }
  }

  lemma {:induction false} WidgetsKept(c: seq<Widget>, s: State, k: nat, v': View<MainPc>, j: nat)
    requires Shaped(c, s) && k < |c| && j < |c| && WidgetOk(c, s, j)
    requires Handling(s.main) == Some(k) || (s.main == Watching && EventView(c, s, k).mtx == None)
    requires Moves(MainThread, s.barlibMtx, v'.barlib) && Moves(MainThread, s.commMtx, v'.comm)
    requires EventFits(c, k, v') || (v'.pc == Watching && v'.mtx == None && v'.height == 1)
    requires v'.crashed == s.crashed
    ensures WidgetOk(c, PutEvent(c, s, k, v'), j)
  {
    var v, s' := WidgetView(s, j), PutEvent(c, s, k, v');
    if j != k || SepEvent(c[k]) {
      hide WidgetFits, WidgetKeptOut, Moves, HasState;
      OthersMutexes(WidgetThread(j), v, MainThread, v'.barlib, v'.comm);
      assert WidgetView(s', j) == v.(barlib := v'.barlib, comm := v'.comm, exited := v'.exited);
      assert v'.exited == true || v'.exited == false;
      assert !EventInside(c, s, j) && !EventInside(c, s', j);
    } else {
      InsideKept(c, s, k, v');
    }
  }

  lemma {:induction false} InsideKept(c: seq<Widget>, s: State, k: nat, v': View<MainPc>)
    requires Shaped(c, s) && k < |c| && WidgetOk(c, s, k) && !SepEvent(c[k])
    requires Handling(s.main) == Some(k) || (s.main == Watching && EventView(c, s, k).mtx == None)
    requires Moves(MainThread, s.barlibMtx, v'.barlib) && Moves(MainThread, s.commMtx, v'.comm)
    requires EventFits(c, k, v') || (v'.pc == Watching && v'.mtx == None && v'.height == 1)
    ensures WidgetOk(c, PutEvent(c, s, k, v'), k)
  {
    hide InBarlib, MainInBarlib, MainInComm, EventHeightAt, RefNil, HasState;
  }

  lemma {:induction false} InvEvent(c: seq<Widget>, s: State, k: nat, a: EventAction)
    requires Inv(c, s) && Next(c, s, ByEvent(k, a)).Some?
    ensures Inv(c, Next(c, s, ByEvent(k, a)).value)
  {
    var v := EventView(c, s, k);
    assert WidgetOk(c, s, k);
    EventStepFits(c, k, v, a);
    var v' := EventStep(c, k, v, a).value;
    forall j: nat | j < |c| ensures WidgetOk(c, PutEvent(c, s, k, v'), j) {
      WidgetsKept(c, s, k, v', j);
    }
  }

  // ---- All runs ----

  lemma {:induction false} StepRuns(c: seq<Widget>, s: State, a: Action)
    requires Shaped(c, s) && Next(c, s, a).Some?
    ensures !s.exited
  {
  }

  lemma {:induction false} InvRun(c: seq<Widget>, s: State, schedule: seq<Action>)
    requires Inv(c, s) && Run(c, s, schedule).Some?
    ensures Inv(c, Run(c, s, schedule).value)
    decreases |schedule|
  {
    hide WidgetOk, MainOk, Next;
    if schedule == [] {
    } else {
      InvStep(c, s, schedule[0]);
      InvRun(c, Next(c, s, schedule[0]).value, schedule[1..]);
    }
  }

  lemma {:induction false} InvStep(c: seq<Widget>, s: State, a: Action)
    requires Inv(c, s) && Next(c, s, a).Some?
    ensures Inv(c, Next(c, s, a).value)
  {
    hide Inv, WidgetStep, EventStep, StartNext;
    match a
    case ByWidget(i, wa) => InvWidget(c, s, i, wa);
    case ByEvent(k, ea) => InvEvent(c, s, k, ea);
    case ByStart(sa) => InvStart(c, s, sa);
  }

  lemma {:induction false} ReachableInv(c: seq<Widget>, s: State)
    requires Reachable(c, s)
    ensures Inv(c, s)
  {
    hide Inv;
    var schedule :| Run(c, Init(c), schedule) == Some(s);
    InvInit(c);
    InvRun(c, Init(c), schedule);
  }

  /** Over every interleaving: no assertion fails; the Lua stack of a widget, or of the separate state,
      has exactly one element whenever its mutex is free; and communicate() called from an event works
      on the Comm of the very widget the event is for, which is not stillborn. */
  lemma {:induction false} Safety(c: seq<Widget>, s: State, i: nat)
    requires Reachable(c, s) && i < |c|
    ensures Shaped(c, s) && !s.crashed
    ensures s.widgetMtx[i] == None ==> s.heights[i] == 1
    ensures s.sepMtx == None ==> s.sepHeight == 1 && s.curW == None
    ensures s.main.InEvent? ==>
              && s.main.k < |c| && HasState(c[s.main.k])
              && EventComm(c, s.main.k, s.curW) == Some(s.main.k)
  {
    ReachableInv(c, s);
    assert WidgetOk(c, s, i);
    if s.main.InEvent? {
      assert EventFits(c, s.main.k, EventView(c, s, s.main.k));
    }
  }

  /** At most one thread at a time is inside the barlib's set() and set_error(). */
  lemma {:induction false} BarlibCallsExclude(c: seq<Widget>, s: State, i: nat, j: nat)
    requires Reachable(c, s) && i < |c| && j < |c|
    ensures Shaped(c, s) && (InBarlib(s.pcs[i]) ==> !MainInBarlib(s.main))
    ensures InBarlib(s.pcs[i]) && InBarlib(s.pcs[j]) ==> i == j
  {
    ReachableInv(c, s);
    assert WidgetOk(c, s, i) && WidgetOk(c, s, j);
  }

  // ---- Freedom from deadlock ----

  /** How many actions a widget thread needs to come to its end, if it begins no new call. */
  function WidgetSteps(pc: WidgetPc): nat {
    match pc
    case NotSpawned => 0
    case Done => 0
    case FinalSet => 1
    case RunReturned => 2
    case InRun => 3
    case AfterSet => 4
    case Began(_) => 4
    case Setting(_) => 5
    case CbReturned(_) => 6
    case InCb(inComm) => if inComm then 8 else 7
  }

  function AllSteps(pcs: seq<WidgetPc>): nat {
    if pcs == [] then 0 else WidgetSteps(pcs[0]) + AllSteps(pcs[1..])
  }

  lemma {:induction false} AllStepsUpdate(pcs: seq<WidgetPc>, i: nat, pc: WidgetPc)
    requires i < |pcs|
    ensures AllSteps(pcs[i := pc]) + WidgetSteps(pcs[i]) == AllSteps(pcs) + WidgetSteps(pc)
  {
    hide WidgetSteps;
    if i == 0 {
      assert pcs[i := pc][1..] == pcs[1..];
    } else {
      AllStepsUpdate(pcs[1..], i - 1, pc);
      assert pcs[i := pc][1..] == pcs[1..][i - 1 := pc];
    }
  }

  /** The same for the main thread, for `n` widgets; spawning a thread makes work for that thread. */
  function MainSteps(pc: MainPc, n: nat): nat {
    match pc
    case Spawning(i) => n + 3 + if i < n then 5 * (n - i) else 0
    case SpawnSet(i) => n + 2 + if i < n then 5 * (n - i) else 0
    case Watching => n + 2
    case EwBegan(_, _) => n + 3
    case InEvent(_, inComm) => if inComm then n + 5 else n + 4
    case EventFailed(_) => n + 5
    case EventSet(_) => n + 4
    case EventOver(_) => n + 3
    case Joining(i) => if i < n then n - i + 1 else 1
    case Finished => 0
  }

  function Steps(s: State): nat {
    MainSteps(s.main, |s.pcs|) + AllSteps(s.pcs)
  }

  /** Begins no new call. */
  predicate WindsUp(a: Action) {
    match a
    case ByWidget(_, wa) => !wa.CallBegin?
    case ByStart(sa) => true
    case ByEvent(_, ea) => !ea.EwCallBegin?
  }

  predicate Nearer(c: seq<Widget>, s: State, a: Action)
    requires Shaped(c, s)
  {
    WindsUp(a) && Next(c, s, a).Some? && !Next(c, s, a).value.exited && Steps(Next(c, s, a).value) < Steps(s)
  }

  lemma {:induction false} WidgetNearer(c: seq<Widget>, s: State, i: nat, wa: WidgetAction)
    requires Shaped(c, s) && !wa.CallBegin? && Next(c, s, ByWidget(i, wa)).Some?
    requires var s' := Next(c, s, ByWidget(i, wa)).value;
      !s'.exited && WidgetSteps(s'.pcs[i]) < WidgetSteps(s.pcs[i])
    ensures Nearer(c, s, ByWidget(i, wa))
  {
    hide WidgetSteps, WidgetStep, AllSteps, MainSteps;
    AllStepsUpdate(s.pcs, i, Next(c, s, ByWidget(i, wa)).value.pcs[i]);
  }

  lemma {:induction false} HolderActs(c: seq<Widget>, s: State) returns (a: Action)
    requires Inv(c, s) && !s.exited && (s.commMtx.Some? || s.barlibMtx.Some?)
    ensures Nearer(c, s, a)
  {
    hide AllSteps;
    var t := if s.commMtx.Some? then s.commMtx.value else s.barlibMtx.value;
    match t
    case WidgetThread(i) =>
      assert WidgetOk(c, s, i);
      a := ByWidget(i, if s.commMtx.Some? then CbCommUnlock else Set(SetOk, false));
      WidgetNearer(c, s, i, a.wa);
    case MainThread =>
      match s.main
      case SpawnSet(_) => a := ByStart(SpawnSetError(false));
      case InEvent(k, _) => a := ByEvent(k, EventCommUnlock);
      case EventSet(k) => a := ByEvent(k, EventSetError(false));
  }

  lemma {:induction false} CallbackActs(c: seq<Widget>, s: State, i: nat) returns (a: Action)
    requires Inv(c, s) && !s.exited && s.commMtx == None && s.barlibMtx == None
    requires i < |c| && LocksWidget(s.pcs[i])
    ensures Nearer(c, s, a)
  {
    hide AllSteps;
    assert WidgetOk(c, s, i);
    match s.pcs[i] {
      case Began(_) => a := ByWidget(i, CallCancel);
      case InCb(_) => a := ByWidget(i, CbReturns(true));
      case CbReturned(_) => a := ByWidget(i, LockBarlib);
      case AfterSet => a := ByWidget(i, UnlockWidget);
    }
    WidgetNearer(c, s, i, a.wa);
  }

  lemma {:induction false} EventActs(c: seq<Widget>, s: State) returns (a: Action)
    requires Inv(c, s) && !s.exited && s.commMtx == None && s.barlibMtx == None
    requires Handling(s.main).Some?
    ensures Nearer(c, s, a)
  {
    hide AllSteps;
    match s.main
    case EwBegan(k, _) => a := ByEvent(k, EwCallCancel);
    case InEvent(k, _) => a := ByEvent(k, EventReturns(true));
    case EventFailed(k) => a := ByEvent(k, EventLockBarlib);
    case EventOver(k) => a := ByEvent(k, EventUnlock);
  }

  lemma {:induction false} UnlockedActs(c: seq<Widget>, s: State) returns (a: Action)
    requires Inv(c, s) && !s.exited && s.main != Finished && s.commMtx == None && s.barlibMtx == None
    requires Handling(s.main) == None && forall i: nat | i < |c| :: !LocksWidget(s.pcs[i])
    ensures Nearer(c, s, a)
  {
    hide AllSteps;
    match s.main
    case Spawning(i) =>
      a := ByStart(Spawn);
      if i < |c| {
        AllStepsUpdate(s.pcs, i, InRun);
        assert WidgetOk(c, s, i);
      }
    case Watching => a := ByStart(WatcherReturns(false));
    case Joining(i) =>
      if i >= |c| || !HasState(c[i]) || s.pcs[i] == Done {
        a := ByStart(Join);
      } else {
        assert WidgetOk(c, s, i);
        a := ByWidget(i, if s.pcs[i] == InRun then RunReturns else LockBarlib);
        WidgetNearer(c, s, i, a.wa);
      }
  }

  /** As long as the program has not come to its end, some thread can act and bring the end nearer. */
  lemma {:induction false} Progress(c: seq<Widget>, s: State) returns (a: Action)
    requires Inv(c, s) && !s.exited && s.main != Finished
    ensures Nearer(c, s, a)
  {
    hide Nearer;
    if s.commMtx.Some? || s.barlibMtx.Some? {
      a := HolderActs(c, s);
    } else if i: nat :| i < |c| && LocksWidget(s.pcs[i]) {
      a := CallbackActs(c, s, i);
    } else if Handling(s.main).Some? {
      a := EventActs(c, s);
    } else {
      a := UnlockedActs(c, s);
    }
  }

  /** Freedom from deadlock: from every reachable state the calls that have begun can all be finished, without new
      ones, and all threads can come to their ends, with every mutex free. */
  lemma {:induction false} CanFinish(c: seq<Widget>, s: State) returns (schedule: seq<Action>)
    requires Reachable(c, s) && !s.exited
    ensures Shaped(c, s) && (forall i | 0 <= i < |schedule| :: WindsUp(schedule[i])) && Run(c, s, schedule).Some?
    ensures var s' := Run(c, s, schedule).value;
      && s'.main == Finished && !s'.exited
      && (forall i: nat | i < |c| :: s'.pcs[i] == if HasState(c[i]) then Done else NotSpawned)
      && s'.barlibMtx == s'.commMtx == s'.sepMtx == None && forall i: nat | i < |c| :: s'.widgetMtx[i] == None
  {
    ReachableInv(c, s);
    schedule := WindUp(c, s);
    InvRun(c, s, schedule);
    FinishedIsFree(c, Run(c, s, schedule).value);
  }

  lemma {:induction false} WindUp(c: seq<Widget>, s: State) returns (schedule: seq<Action>)
    requires Inv(c, s) && !s.exited
    ensures (forall i | 0 <= i < |schedule| :: WindsUp(schedule[i])) && Run(c, s, schedule).Some?
    ensures Run(c, s, schedule).value.main == Finished && !Run(c, s, schedule).value.exited
    decreases Steps(s)
  {
    hide MainOk, WidgetOk, Next, Steps, WindsUp;
    if s.main == Finished {
      schedule := [];
    } else {
      var a := Progress(c, s);
      InvStep(c, s, a);
      var rest := WindUp(c, Next(c, s, a).value);
      schedule := [a] + rest;
      assert schedule[1..] == rest;
    }
  }

  /** Whoever holds the barlib's or the Comm mutex is where that mutex is used. */
  lemma {:induction false} HeldBySomebody(c: seq<Widget>, s: State)
    requires Inv(c, s)
    ensures s.barlibMtx.Some? ==> MainInBarlib(s.main) || exists i: nat :: i < |c| && InBarlib(s.pcs[i])
    ensures s.commMtx.Some? ==> MainInComm(s.main) || exists i: nat :: i < |c| && s.pcs[i] == InCb(true)
  {
    if s.barlibMtx.Some? && s.barlibMtx.value.WidgetThread? {
      assert WidgetOk(c, s, s.barlibMtx.value.i);
    }
    if s.commMtx.Some? && s.commMtx.value.WidgetThread? {
      assert WidgetOk(c, s, s.commMtx.value.i);
    }
  }

  lemma {:induction false} FinishedIsFree(c: seq<Widget>, s: State)
    requires Inv(c, s) && s.main == Finished
    ensures forall i: nat | i < |c| :: s.pcs[i] == (if HasState(c[i]) then Done else NotSpawned) && s.widgetMtx[i] == None
    ensures s.barlibMtx == s.commMtx == s.sepMtx == None
  {
    forall i: nat | i < |c|
      ensures s.pcs[i] == (if HasState(c[i]) then Done else NotSpawned) && s.widgetMtx[i] == None
    {
      assert WidgetOk(c, s, i);
    }
    HeldBySomebody(c, s);
  }

  // ---- When cb() and event() of one widget can overlap ----

  predicate Overlap(s: State, i: nat) {
    i < |s.pcs| && s.pcs[i].InCb? && s.main.InEvent? && s.main.k == i
  }

  lemma {:induction false} RunConcat(c: seq<Widget>, s: State, a: seq<Action>, b: seq<Action>)
    requires Shaped(c, s) && Run(c, s, a).Some?
    ensures Run(c, s, a + b) == Run(c, Run(c, s, a).value, b)
    decreases |a|
  {
    hide Next;
    if a == [] {
      assert a + b == b;
    } else {
      RunConcat(c, Next(c, s, a[0]).value, a[1..], b);
      assert (a + b)[1..] == a[1..] + b;
    }
  }

  lemma {:induction false} RunExtend(c: seq<Widget>, s: State, schedule: seq<Action>, a: Action)
    requires Shaped(c, s) && Run(c, s, schedule).Some?
    ensures Run(c, s, schedule + [a]) == Next(c, Run(c, s, schedule).value, a)
    decreases |schedule|
  {
    hide Next;
    if schedule == [] {
      assert [a][1..] == [];
    } else {
      RunExtend(c, Next(c, s, schedule[0]).value, schedule[1..], a);
      assert (schedule + [a])[1..] == schedule[1..] + [a];
    }
  }

  lemma {:induction false} ReachNext(c: seq<Widget>, s: State, a: Action)
    requires Reachable(c, s) && Shaped(c, s) && Next(c, s, a).Some?
    ensures Reachable(c, Next(c, s, a).value)
  {
    hide Next;
    var schedule :| Run(c, Init(c), schedule) == Some(s);
    RunExtend(c, Init(c), schedule, a);
    assert Run(c, Init(c), schedule + [a]) == Some(Next(c, s, a).value);
  }

  /** Start-up, with nobody else acting before all threads are there. */
  predicate Quiet(c: seq<Widget>, s: State, n: nat) {
    && Shaped(c, s) && !s.exited && s.barlibMtx == None
    && forall i: nat | i < n && i < |c| && HasState(c[i]) :: s.pcs[i] == InRun
  }

  lemma {:induction false} SpawnAll(c: seq<Widget>, s: State) returns (s': State)
    requires Reachable(c, s) && s.main.Spawning? && s.main.i <= |c| && Quiet(c, s, s.main.i)
    ensures Reachable(c, s') && s'.main == Watching && Quiet(c, s', |c|)
    decreases |c| - s.main.i
  {
    ReachableInv(c, s);
    hide Reachable;
    s' := SpawnOne(c, s);
    if s.main.i < |c| {
      s' := SpawnAll(c, s');
    }
  }

  lemma {:induction false} SpawnOne(c: seq<Widget>, s: State) returns (s': State)
    requires Reachable(c, s) && s.main.Spawning? && s.main.i <= |c| && Quiet(c, s, s.main.i) && !s.crashed
    ensures Reachable(c, s')
    ensures if s.main.i == |c| then s'.main == Watching && Quiet(c, s', |c|)
            else s'.main == Spawning(s.main.i + 1) && Quiet(c, s', s.main.i + 1)
  {
    hide Reachable;
    ReachNext(c, s, ByStart(Spawn));
    s' := Next(c, s, ByStart(Spawn)).value;
    if s'.main.SpawnSet? {
      ReachNext(c, s', ByStart(SpawnSetError(false)));
      s' := Next(c, s', ByStart(SpawnSetError(false))).value;
    }
  }

  /** A reachable state in which all threads are there and nobody holds anything. */
  lemma {:induction false} AllSpawned(c: seq<Widget>) returns (s: State)
    ensures Reachable(c, s) && Inv(c, s) && !s.exited && s.main == Watching
    ensures s.barlibMtx == s.commMtx == s.sepMtx == None
    ensures forall i: nat | i < |c| && HasState(c[i]) ::
              s.pcs[i] == InRun && s.widgetMtx[i] == None && s.heights[i] == 1
  {
    assert Run(c, Init(c), []) == Some(Init(c));
    s := SpawnAll(c, Init(c));
    ReachableInv(c, s);
    HeldBySomebody(c, s);
    forall i: nat | i < |c|
      ensures s.pcs[i] == (if HasState(c[i]) then InRun else NotSpawned)
      ensures HasState(c[i]) ==> s.widgetMtx[i] == None && s.heights[i] == 1
    {
      assert WidgetOk(c, s, i);
    }
  }

  lemma {:induction false} StartEvent(c: seq<Widget>, s: State, i: nat) returns (s': State)
    requires Reachable(c, s) && Shaped(c, s) && !s.exited && !s.crashed
    requires i < |c| && c[i] == StringEvent && s.main == Watching && s.sepMtx == None && s.sepHeight == 1
    ensures Reachable(c, s') && Shaped(c, s') && !s'.exited && !s'.crashed && s'.main == InEvent(i, false)
    ensures s'.pcs == s.pcs && s'.heights == s.heights && s'.widgetMtx == s.widgetMtx
  {
    hide Reachable;
    ReachNext(c, s, ByEvent(i, EwCallBegin));
    s' := Next(c, s, ByEvent(i, EwCallBegin)).value;
    ReachNext(c, s', ByEvent(i, EwPush));
    s' := Next(c, s', ByEvent(i, EwPush)).value;
    ReachNext(c, s', ByEvent(i, EwCallEnd));
    s' := Next(c, s', ByEvent(i, EwCallEnd)).value;
  }

  lemma {:induction false} StartCb(c: seq<Widget>, s: State, i: nat) returns (s': State)
    requires Reachable(c, s) && Shaped(c, s) && !s.exited && !s.crashed
    requires i < |c| && s.pcs[i] == InRun && s.widgetMtx[i] == None && s.heights[i] == 1
    ensures Reachable(c, s') && Shaped(c, s') && s'.main == s.main && s'.pcs[i].InCb?
  {
    hide Reachable;
    ReachNext(c, s, ByWidget(i, CallBegin));
    s' := Next(c, s, ByWidget(i, CallBegin)).value;
    ReachNext(c, s', ByWidget(i, PluginPush));
    s' := Next(c, s', ByWidget(i, PluginPush)).value;
    ReachNext(c, s', ByWidget(i, CallEnd));
    s' := Next(c, s', ByWidget(i, CallEnd)).value;
  }

  /** A run in which a string event of widget `i` is executed while its cb() is. */
  lemma {:induction false} OverlapRun(c: seq<Widget>, i: nat) returns (s: State)
    requires i < |c| && c[i] == StringEvent
    ensures Reachable(c, s) && Overlap(s, i)
  {
    assert Run(c, Init(c), []) == Some(Init(c));
    s := SpawnAll(c, Init(c));
    ReachableInv(c, s);
    assert WidgetOk(c, s, i);
    s := StartEvent(c, s, i);
    s := StartCb(c, s, i);
  }

  /** The documentation (luastatus/README.rst) says that cb() and event() of one widget never overlap.
      That is so exactly for widgets whose event is not a string. */
  lemma {:induction false} OverlapExactly(c: seq<Widget>, i: nat)
    requires i < |c|
    ensures (exists s :: Reachable(c, s) && Overlap(s, i)) <==> c[i] == StringEvent
  {
    if c[i] == StringEvent {
      var s := OverlapRun(c, i);
    } else {
      forall s | Reachable(c, s) ensures !Overlap(s, i) {
        ReachableInv(c, s);
        assert WidgetOk(c, s, i);
      }
    }
  }
}
