/**
 Why the lock orders of luastatus (DOCS/design/locking-patterns.md) and of its plugins rule out deadlocks.

 Threads run scripts of mutex operations, any number of them one after another. A script is `WellOrdered`
 if it locks every mutex while holding only mutexes of lower rank, and unlocks all it locks.
 */
module LockOrder {

  /** `owner` and `id` tell mutexes of the same kind apart. */
  datatype Lock = Lock(rank: nat, owner: nat, id: nat)

  datatype Op = Acquire(l: Lock) | Release(l: Lock)

  datatype Thread = Thread(held: set<Lock>, script: seq<Op>)

  /** Started with `held` locked, the script respects the order and ends with `held'` locked. */
  ghost predicate Brings(held: set<Lock>, script: seq<Op>, held': set<Lock>)
    decreases |script|
  {
    if script == [] then held == held'
    else match script[0]
      case Acquire(l) => (forall h | h in held :: h.rank < l.rank) && Brings(held + {l}, script[1..], held')
      case Release(l) => l in held && Brings(held - {l}, script[1..], held')
  }

  ghost predicate WellOrdered(held: set<Lock>, script: seq<Op>) {
    Brings(held, script, {})
  }

  ghost predicate Free(ts: seq<Thread>, l: Lock) {
    forall i | 0 <= i < |ts| :: l !in ts[i].held
  }

  ghost predicate CanStep(ts: seq<Thread>, i: nat) {
    && i < |ts| && ts[i].script != []
    && (ts[i].script[0].Acquire? ==> Free(ts, ts[i].script[0].l))
  }

  function After(t: Thread): Thread
    requires t.script != []
  {
    match t.script[0]
    case Acquire(l) => Thread(t.held + {l}, t.script[1..])
    case Release(l) => Thread(t.held - {l}, t.script[1..])
  }

  /** A thread performs its next operation, or a thread that has finished starts another script. */
  ghost predicate Next(ts: seq<Thread>, ts': seq<Thread>) {
    exists i: nat :: i < |ts| &&
      ((CanStep(ts, i) && ts' == ts[i := After(ts[i])])
       || (ts[i].script == [] && exists s :: WellOrdered({}, s) && ts' == ts[i := Thread(ts[i].held, s)]))
  }

  ghost predicate Inv(ts: seq<Thread>) {
    && (forall i | 0 <= i < |ts| :: WellOrdered(ts[i].held, ts[i].script))
    && (forall i, j | 0 <= i < |ts| && 0 <= j < |ts| && i != j :: ts[i].held !! ts[j].held)
  }

  lemma {:induction false} InvNext(ts: seq<Thread>, ts': seq<Thread>)
    requires Inv(ts) && Next(ts, ts')
    ensures Inv(ts')
  {
  }

  /** While some thread is in the middle of a script, some such thread can perform its next operation:
      whoever waits, waits for a thread that wants, if anything, a mutex of higher rank. */
  lemma {:induction false} Progress(ts: seq<Thread>, i: nat, top: nat) returns (j: nat)
    requires Inv(ts) && i < |ts| && ts[i].script != []
    requires forall k, o | 0 <= k < |ts| && o in ts[k].script :: o.l.rank <= top
    ensures CanStep(ts, j)
    decreases top - ts[i].script[0].l.rank
  {
    if CanStep(ts, i) {
      j := i;
    } else {
      var l := ts[i].script[0].l;
      var k: nat :| k < |ts| && l in ts[k].held;
      assert WellOrdered(ts[k].held, ts[k].script);
      assert ts[k].script[0] in ts[k].script;
      if ts[k].script[0].Release? {
        j := k;
      } else {
        j := Progress(ts, k, top);
      }
    }
  }

  ghost function Remaining(ts: seq<Thread>): nat {
    if ts == [] then 0 else |ts[0].script| + Remaining(ts[1..])
  }

  lemma {:induction false} StepReduces(ts: seq<Thread>, i: nat, t: Thread)
    requires i < |ts| && |t.script| < |ts[i].script|
    ensures Remaining(ts[i := t]) < Remaining(ts)
  {
    if i == 0 {
      assert ts[i := t][1..] == ts[1..];
    } else {
      StepReduces(ts[1..], i - 1, t);
      assert ts[i := t][1..] == ts[1..][i - 1 := t];
    }
  }

  /** A number that bounds the ranks of all the mutexes in the scripts. */
  ghost function Top(ts: seq<Thread>): (top: nat)
    ensures forall k, o | 0 <= k < |ts| && o in ts[k].script :: o.l.rank <= top
  {
    if ts == [] then 0
    else
      var a, b := TopOf(ts[0].script), Top(ts[1..]);
      if a < b then b else a
  }

  ghost function TopOf(script: seq<Op>): (top: nat)
    ensures forall o | o in script :: o.l.rank <= top
  {
    if script == [] then 0
    else
      var a, b := script[0].l.rank, TopOf(script[1..]);
      if a < b then b else a
  }

  ghost predicate Leads(ts: seq<Thread>, order: seq<nat>, ts': seq<Thread>)
    decreases |order|
  {
    if order == [] then ts == ts'
    else CanStep(ts, order[0]) && Leads(ts[order[0] := After(ts[order[0]])], order[1..], ts')
  }

  /** From every state in which the invariant holds all threads can run their scripts to the end, with
      every mutex free again. */
  lemma {:induction false} AllCanFinish(ts: seq<Thread>) returns (order: seq<nat>, ts': seq<Thread>)
    requires Inv(ts)
    ensures Leads(ts, order, ts') && |ts'| == |ts|
    ensures forall i | 0 <= i < |ts'| :: ts'[i] == Thread({}, [])
    decreases Remaining(ts)
  {
    if i: nat :| i < |ts| && ts[i].script != [] {
      var j := Progress(ts, i, Top(ts));
      var next := ts[j := After(ts[j])];
      StepReduces(ts, j, After(ts[j]));
      assert Next(ts, next);
      InvNext(ts, next);
      order, ts' := AllCanFinish(next);
      assert ([j] + order)[1..] == order;
      order := [j] + order;
    } else {
      order, ts' := [], ts;
      assert forall k | 0 <= k < |ts| :: WellOrdered(ts[k].held, ts[k].script);
    }
  }

  // ---- The scripts of luastatus and of its plugins ----

  // A data source of a multiplex widget has a Lua state of its own, and may be a multiplex in turn; a widget is at
  // depth 0, its data sources at depth 1, and so on. `n` is how deep that goes.

  const SEP := Lock(0, 0, 0)                                          // sepstate.L_mtx
  function AroundMtx(d: nat, x: nat, i: nat): Lock { Lock(2 * d, x, i) }   // a plugin's own, around its calls (dbus)
  function StateMtx(d: nat, x: nat, i: nat): Lock { Lock(2 * d + 1, x, i) } // L_mtx of a widget or data source
  function RunnersMtx(d: nat, x: nat): Lock { Lock(2 * d + 2, x, 0) } // runners_mtx of a multiplex at depth d
  function PluginMtx(n: nat, m: nat): Lock { Lock(2 * n + 3, m, 0) }  // a plugin's own, inside (fs, pipev2, timeouts)
  function ConqMtx(n: nat, x: nat): Lock { Lock(2 * n + 4, x, 0) }    // of a multiplex's queue
  function Barlib(n: nat): Lock { Lock(2 * n + 5, 0, 0) }             // barlib.set_mtx
  function Comm(n: nat): Lock { Lock(2 * n + 6, 0, 0) }               // of luastatus.communicate()

  /** What Lua code may do that involves mutexes: communicate(), a function of its plugin that locks the plugin's
      mutex, or call_event() of a multiplex, whose data source's event() does things in turn. */
  datatype LuaCall = Communicate | PluginFunction(m: nat) | CallEvent(x: nat, i: nat, body: seq<LuaCall>)

  predicate Fits(n: nat, d: nat, call: LuaCall)
    decreases call
  {
    match call
    case CallEvent(_, _, body) => d < n && forall k | 0 <= k < |body| :: Fits(n, d + 1, body[k])
    case _ => true
  }

  predicate AllFit(n: nat, d: nat, calls: seq<LuaCall>) {
    forall k | 0 <= k < |calls| :: Fits(n, d, calls[k])
  }

  function Locked(l: Lock, body: seq<Op>): seq<Op> {
    [Acquire(l)] + body + [Release(l)]
  }

  function CallScript(n: nat, d: nat, call: LuaCall): seq<Op>
    decreases call, 0
  {
    match call
    case Communicate => Locked(Comm(n), [])
    case PluginFunction(m) => Locked(PluginMtx(n, m), [])
    case CallEvent(x, i, body) =>
      Locked(RunnersMtx(d, x), []) + Locked(StateMtx(d + 1, x, i), LuaScript(n, d + 1, body))
  }

  function LuaScript(n: nat, d: nat, calls: seq<LuaCall>): seq<Op>
    decreases calls, 1
  {
    if calls == [] then [] else CallScript(n, d, calls[0]) + LuaScript(n, d, calls[1..])
  }

  /** A call of cb(), from plugin_call_begin() to plugin_call_end(): `before` is what the plugin does with its own
      mutexes while it prepares the argument. The result of a widget goes to the barlib, that of a data source into
      the queue. */
  function CbCall(n: nat, d: nat, x: nat, i: nat, before: seq<LuaCall>, calls: seq<LuaCall>): seq<Op> {
    Locked(StateMtx(d, x, i),
           LuaScript(n, d, before + calls) + Locked(if d == 0 then Barlib(n) else ConqMtx(n, x), []))
  }

  /** ew_call_begin(), event(), ew_call_end() */
  function EventCall(n: nat, l: Lock, calls: seq<LuaCall>, failed: bool): seq<Op> {
    Locked(l, LuaScript(n, 0, calls) + if failed then Locked(Barlib(n), []) else [])
  }

  lemma {:induction false} BringsConcat(held: set<Lock>, a: seq<Op>, mid: set<Lock>, b: seq<Op>, held': set<Lock>)
    requires Brings(held, a, mid) && Brings(mid, b, held')
    ensures Brings(held, a + b, held')
    decreases |a|
  {
    if a == [] {
      assert a + b == b;
    } else {
      assert (a + b)[1..] == a[1..] + b;
      match a[0]
      case Acquire(l) => BringsConcat(held + {l}, a[1..], mid, b, held');
      case Release(l) => BringsConcat(held - {l}, a[1..], mid, b, held');
    }
  }

  lemma {:induction false} LockedBrings(held: set<Lock>, l: Lock, body: seq<Op>)
    requires (forall h | h in held :: h.rank < l.rank) && Brings(held + {l}, body, held + {l})
    ensures Brings(held, Locked(l, body), held)
  {
    assert l !in held;
    assert held + {l} - {l} == held;
    var end := [Release(l)];
    assert end[1..] == [];
    assert Brings(held, end[1..], held);
    BringsConcat(held + {l}, body, held + {l}, end, held);
    assert Locked(l, body)[1..] == body + end;
  }

  lemma {:induction false} LeafBrings(held: set<Lock>, l: Lock)
    requires forall h | h in held :: h.rank < l.rank
    ensures Brings(held, Locked(l, []), held)
  {
    LockedBrings(held, l, []);
  }

  lemma {:induction false} CallBrings(n: nat, d: nat, held: set<Lock>, call: LuaCall)
    requires d <= n && Fits(n, d, call) && forall h | h in held :: h.rank <= 2 * d + 1
    ensures Brings(held, CallScript(n, d, call), held)
    decreases call, 0
  {
    hide Brings, Locked, LuaScript;
    match call
    case Communicate => LeafBrings(held, Comm(n));
    case PluginFunction(m) => LeafBrings(held, PluginMtx(n, m));
    case CallEvent(x, i, body) =>
      var l := StateMtx(d + 1, x, i);
      LeafBrings(held, RunnersMtx(d, x));
      LuaBrings(n, d + 1, held + {l}, body);
      LockedBrings(held, l, LuaScript(n, d + 1, body));
      BringsConcat(held, Locked(RunnersMtx(d, x), []), held, Locked(l, LuaScript(n, d + 1, body)), held);
  }

  lemma {:induction false} LuaBrings(n: nat, d: nat, held: set<Lock>, calls: seq<LuaCall>)
    requires d <= n && AllFit(n, d, calls) && forall h | h in held :: h.rank <= 2 * d + 1
    ensures Brings(held, LuaScript(n, d, calls), held)
    decreases calls, 1
  {
    hide CallScript, Fits;
    if calls == [] {
    } else {
      CallBrings(n, d, held, calls[0]);
      LuaBrings(n, d, held, calls[1..]);
      BringsConcat(held, CallScript(n, d, calls[0]), held, LuaScript(n, d, calls[1..]), held);
    }
  }

  lemma {:induction false} CallIsOrdered(n: nat, d: nat, held: set<Lock>, l: Lock, calls: seq<LuaCall>, tail: Lock, useTail: bool)
    requires d <= n && AllFit(n, d, calls) && l.rank <= 2 * d + 1 < tail.rank && forall h | h in held :: h.rank < l.rank
    ensures Brings(held, Locked(l, LuaScript(n, d, calls) + if useTail then Locked(tail, []) else []), held)
  {
    hide Locked, LuaScript, Fits;
    var end := if useTail then Locked(tail, []) else [];
    var inside := held + {l};
    LuaBrings(n, d, inside, calls);
    LeafBrings(inside, tail);
    BringsConcat(inside, LuaScript(n, d, calls), inside, end, inside);
    LockedBrings(held, l, LuaScript(n, d, calls) + end);
  }

  /** The scripts of the program are well-ordered, whatever the Lua code calls and however deep multiplexes are nested;
      so `AllCanFinish` applies to any number of threads that run them. */
  lemma {:induction false} ScriptsAreOrdered(n: nat, d: nat, x: nat, i: nat, before: seq<LuaCall>, calls: seq<LuaCall>,
                                             failed: bool)
    requires d <= n && AllFit(n, d, before + calls) && AllFit(n, 0, calls)
    // cb(), of a widget or a data source, by itself and inside a plugin's own mutex
    ensures WellOrdered({}, CbCall(n, d, x, i, before, calls))
    ensures WellOrdered({}, Locked(AroundMtx(d, x, i), CbCall(n, d, x, i, before, calls)))
    // event(), in the widget's own state or the separate state
    ensures WellOrdered({}, EventCall(n, StateMtx(0, x, i), calls, failed))
    ensures WellOrdered({}, EventCall(n, SEP, calls, failed))
  {
    hide Locked, LuaScript, Fits;
    var tail := if d == 0 then Barlib(n) else ConqMtx(n, x);
    CallIsOrdered(n, d, {}, StateMtx(d, x, i), before + calls, tail, true);
    assert {} + {AroundMtx(d, x, i)} == {AroundMtx(d, x, i)};
    CallIsOrdered(n, d, {AroundMtx(d, x, i)}, StateMtx(d, x, i), before + calls, tail, true);
    LockedBrings({}, AroundMtx(d, x, i), CbCall(n, d, x, i, before, calls));
    CallIsOrdered(n, 0, {}, StateMtx(0, x, i), calls, Barlib(n), failed);
    CallIsOrdered(n, 0, {}, SEP, calls, Barlib(n), failed);
  }

  /** So is locking a single mutex: the consumer of a queue fetches and sleeps without holding a Lua mutex, the barlib is
      told that a widget is dead, run() of a multiplex sets up the data sources under the mutex that all multiplexes
      share and then publishes them, and plugins use their mutexes outside of calls. */
  lemma {:induction false} SingleIsOrdered(l: Lock)
    ensures WellOrdered({}, Locked(l, []))
  {
    LeafBrings({}, l);
  }
}
