/**
 Producers and the consumer of a coalescing queue, step by step (plugins/multiplex/conq.c).

 A step takes one thread from one point where others may interfere to the next. The condition variable
 is the consumer's `Waiting(signalled)`; it may also wake up without having been signalled.
 */
module ConqProtocol {
  import opened Wrappers
  import opened CoalescingQueue

  datatype Thread = Consumer | Producer(p: nat)

  datatype ProducerPc =
    | Idle
    | WantsUpdate(i: nat, slot: Slot)
    | Updating(i: nat, slot: Slot)   // the mutex is locked
    | Signalling                     // the slot and the mask have been changed
    | UpdateDone                     // about to unlock

  datatype ConsumerPc =
    | Outside
    | Checking
    | Waiting(signalled: bool)
    | Copying(k: nat)                // slots below k have been looked at

  /** `written[i]` is everything written to slot `i`, starting with the initial value; `seen[i]` are
      the positions in it of what the consumer has copied from that slot, in order. */
  datatype State = State(
    q: Queue, copies: seq<Slot>, mtx: Option<Thread>, consumer: ConsumerPc, producers: seq<ProducerPc>,
    written: seq<seq<Slot>>, seen: seq<seq<nat>>)

  datatype Action =
    | Start(p: nat, i: nat, slot: Slot)
    | Lock(p: nat)
    | Update(p: nat)
    | Signal(p: nat)
    | Unlock(p: nat)
    | FetchLock
    | FetchCheck
    | WakeUp
    | Copy

  ghost function Init(nslots: nat, nproducers: nat): (s: State)
    requires nslots <= MAX_SLOTS
    ensures Shaped(s)
  {
    State(Created(nslots), seq(nslots, i => EMPTY_SLOT), None, Outside, seq(nproducers, p => Idle),
          seq(nslots, i => [EMPTY_SLOT]), seq(nslots, i => [0]))
  }

  predicate Shaped(s: State) {
    && QueueOk(s.q) && |s.copies| == |s.written| == |s.seen| == |s.q.slots|
    && forall i | 0 <= i < |s.written| :: s.written[i] != []
  }

  function At(s: State, p: nat, pc: ProducerPc): State
    requires p < |s.producers|
  {
    s.(producers := s.producers[p := pc])
  }

  /** The next state; None means that the thread is elsewhere, or has to wait. */
  function Next(s: State, a: Action): (r: Option<State>)
    requires Shaped(s)
    ensures r.Some? ==> Shaped(r.value)
  {
    match a
    case Start(p, i, slot) => // producers never write the initial value; see multiplex.c
      if p >= |s.producers| || s.producers[p] != Idle || i >= |s.q.slots| || slot.state.Empty? then None
      else Some(At(s, p, WantsUpdate(i, slot)))
    case Lock(p) =>
      if p >= |s.producers| || !s.producers[p].WantsUpdate? || s.mtx != None then None
      else Some(At(s, p, Updating(s.producers[p].i, s.producers[p].slot)).(mtx := Some(Producer(p))))
    case Update(p) =>
      if p >= |s.producers| || !s.producers[p].Updating? || s.producers[p].i >= |s.q.slots| then None
      else
        var i, slot := s.producers[p].i, s.producers[p].slot;
        var pc := if s.q.slots[i] == slot then UpdateDone else Signalling;
        Some(At(s, p, pc).(q := Updated(s.q, i, slot), written := s.written[i := s.written[i] + [slot]]))
    case Signal(p) =>
      if p >= |s.producers| || !s.producers[p].Signalling? then None
      else Some(At(s, p, UpdateDone).(consumer := if s.consumer.Waiting? then Waiting(true) else s.consumer))
    case Unlock(p) =>
      if p >= |s.producers| || !s.producers[p].UpdateDone? then None
      else Some(At(s, p, Idle).(mtx := None))
    case FetchLock =>
      if s.consumer != Outside || s.mtx != None then None
      else Some(s.(consumer := Checking, mtx := Some(Consumer)))
    case FetchCheck =>
      if s.consumer != Checking then None
      else if s.q.mask == 0 then Some(s.(consumer := Waiting(false), mtx := None))
      else Some(s.(consumer := Copying(0)))
    case WakeUp =>
      if !s.consumer.Waiting? || s.mtx != None then None
      else Some(s.(consumer := Checking, mtx := Some(Consumer)))
    case Copy =>
      if !s.consumer.Copying? then None
      else
        var k := s.consumer.k;
        if k >= |s.q.slots| then Some(s.(q := s.q.(mask := 0), consumer := Outside, mtx := None))
        else if Bit(s.q.mask, k) then
          Some(s.(consumer := Copying(k + 1), copies := s.copies[k := s.q.slots[k]],
                  seen := s.seen[k := s.seen[k] + [|s.written[k]| - 1]]))
        else Some(s.(consumer := Copying(k + 1)))
  }

  function Run(s: State, schedule: seq<Action>): (r: Option<State>)
    requires Shaped(s)
    ensures r.Some? ==> Shaped(r.value)
    decreases |schedule|
  {
    if schedule == [] then Some(s)
    else
      var s' := Next(s, schedule[0]);
      if s'.None? then None else Run(s'.value, schedule[1..])
  }

  // ---- The invariant ----

  predicate HasMutex(pc: ProducerPc) {
    pc.Updating? || pc.Signalling? || pc.UpdateDone?
  }

  predicate ProducerOk(s: State, p: nat)
    requires p < |s.producers|
  {
    var pc := s.producers[p];
    && (s.mtx == Some(Producer(p)) <==> HasMutex(pc))
    && (pc.WantsUpdate? || pc.Updating? ==> pc.i < |s.q.slots| && !pc.slot.state.Empty?)
  }

  /** The consumer's copy of a slot is not out of date, except where the mask says so. */
  predicate Marked(s: State, i: nat) {
    Bit(s.q.mask, i) && !(s.consumer.Copying? && i < s.consumer.k)
  }

  predicate Increasing(a: seq<nat>) {
    forall x, y | 0 <= x < y < |a| :: a[x] < a[y]
  }

  predicate SlotOk(s: State, i: nat)
    requires Shaped(s) && i < |s.q.slots|
  {
    var w, seen := s.written[i], s.seen[i];
    && w != [] && w[|w| - 1] == s.q.slots[i]
    && w[0] == EMPTY_SLOT && (forall x | 1 <= x < |w| :: !w[x].state.Empty?)
    && seen != [] && Increasing(seen) && seen[|seen| - 1] < |w|
    && s.copies[i] == w[seen[|seen| - 1]]
    && (if Marked(s, i) then seen[|seen| - 1] < |w| - 1 else s.copies[i] == s.q.slots[i])
    && (Bit(s.q.mask, i) ==> |w| >= 2)
  }

  predicate ConsumerOk(s: State) {
    && (s.mtx == Some(Consumer) <==> s.consumer.Checking? || s.consumer.Copying?)
    && (s.mtx.Some? && s.mtx.value.Producer? ==> s.mtx.value.p < |s.producers|)
    && (s.consumer.Copying? ==> s.q.mask != 0 && s.consumer.k <= |s.q.slots|)
    // no lost wake-up: whoever has made the mask non-zero has not left the mutex without signalling
    && (s.consumer == Waiting(false) && s.q.mask != 0 ==>
          s.mtx.Some? && s.mtx.value.Producer? && s.mtx.value.p < |s.producers|
          && s.producers[s.mtx.value.p] == Signalling)
  }

  predicate MaskOk(s: State) {
    s.q.mask < Pow2(|s.q.slots|)
  }

  ghost predicate Inv(s: State) {
    && Shaped(s) && ConsumerOk(s) && MaskOk(s)
    && (forall p: nat | p < |s.producers| :: ProducerOk(s, p))
    && (forall i: nat | i < |s.q.slots| :: SlotOk(s, i))
  }

  lemma {:induction false} InvInit(nslots: nat, nproducers: nat)
    requires nslots <= MAX_SLOTS
    ensures Inv(Init(nslots, nproducers))
  {
    var s := Init(nslots, nproducers);
    forall i: nat | i < nslots ensures SlotOk(s, i) {
      ZeroHasNoBit(i);
    }
    Pow2Positive(nslots);
  }

  lemma {:induction false} Pow2Positive(n: nat)
    ensures Pow2(n) > 0
  {
    if n == 0 {
    } else {
      Pow2Positive(n - 1);
    }
  }

  lemma {:induction false} ConsumerStep(s: State, a: Action)
    requires Inv(s) && Next(s, a).Some?
    ensures ConsumerOk(Next(s, a).value) && MaskOk(Next(s, a).value)
  {
    Pow2Positive(|s.q.slots|);
    if a.Update? {
      SetBitFits(s.q.mask, s.producers[a.p].i, |s.q.slots|);
      assert ProducerOk(s, a.p);
    } else if a.Lock? || a.Signal? || a.Unlock? {
      assert ProducerOk(s, a.p);
    }
  }

  lemma {:induction false} ProducerStep(s: State, a: Action, p: nat)
    requires Inv(s) && Next(s, a).Some? && p < |s.producers|
    ensures ProducerOk(Next(s, a).value, p)
  {
    assert ProducerOk(s, p);
    hide SlotOk, Updated;
    if a.Lock? || a.Update? || a.Signal? || a.Unlock? {
      assert ProducerOk(s, a.p);
    }
  }

  lemma {:induction false} SlotUpdate(s: State, a: Action, i: nat)
    requires Inv(s) && a.Update? && Next(s, a).Some? && i < |s.q.slots|
    ensures SlotOk(Next(s, a).value, i)
  {
    assert SlotOk(s, i) && ProducerOk(s, a.p);
    BitOfSetBit(s.q.mask, s.producers[a.p].i, i);
  }

  lemma {:induction false} SlotCopy(s: State, a: Action, i: nat)
    requires Inv(s) && a.Copy? && Next(s, a).Some? && i < |s.q.slots|
    ensures SlotOk(Next(s, a).value, i)
  {
    assert SlotOk(s, i);
    ZeroHasNoBit(i);
  }

  lemma {:induction false} SlotStep(s: State, a: Action, i: nat)
    requires Inv(s) && Next(s, a).Some? && i < |s.q.slots|
    ensures SlotOk(Next(s, a).value, i)
  {
    if a.Update? {
      SlotUpdate(s, a, i);
    } else if a.Copy? {
      SlotCopy(s, a, i);
    } else {
      assert SlotOk(s, i);
    }
  }

  lemma {:induction false} InvStep(s: State, a: Action)
    requires Inv(s) && Next(s, a).Some?
    ensures Inv(Next(s, a).value)
  {
    hide Next, SlotOk, ProducerOk, ConsumerOk, MaskOk;
    ConsumerStep(s, a);
    var s' := Next(s, a).value;
    forall p: nat | p < |s'.producers| ensures ProducerOk(s', p) {
      SameProducers(s, a);
      ProducerStep(s, a, p);
    }
    forall i: nat | i < |s'.q.slots| ensures SlotOk(s', i) {
      SameProducers(s, a);
      SlotStep(s, a, i);
    }
  }

  lemma {:induction false} SameProducers(s: State, a: Action)
    requires Shaped(s) && Next(s, a).Some?
    ensures |Next(s, a).value.producers| == |s.producers| && |Next(s, a).value.q.slots| == |s.q.slots|
  {
  }

  // ---- All runs ----

  ghost predicate Reachable(nslots: nat, nproducers: nat, s: State) {
    nslots <= MAX_SLOTS && exists schedule :: Run(Init(nslots, nproducers), schedule) == Some(s)
  }

  lemma {:induction false} InvRun(s: State, schedule: seq<Action>)
    requires Inv(s) && Run(s, schedule).Some?
    ensures Inv(Run(s, schedule).value)
    decreases |schedule|
  {
    hide SlotOk, ProducerOk, ConsumerOk, MaskOk, Next;
    if schedule == [] {
    } else {
      InvStep(s, schedule[0]);
      InvRun(Next(s, schedule[0]).value, schedule[1..]);
    }
  }

  lemma {:induction false} ReachableInv(nslots: nat, nproducers: nat, s: State)
    requires Reachable(nslots, nproducers, s)
    ensures Inv(s)
  {
    hide Inv;
    var schedule :| Run(Init(nslots, nproducers), schedule) == Some(s);
    InvInit(nslots, nproducers);
    InvRun(Init(nslots, nproducers), schedule);
  }

  /** Over every interleaving: bits that stand for no slot are clear; while a slot's bit is clear, the
      consumer's copy is what is in the slot, which is what was written last; and a consumer that
      sleeps, not having been signalled, while nobody is inside the queue, has nothing to fetch. */
  lemma {:induction false} Agreement(nslots: nat, nproducers: nat, s: State, i: nat)
    requires Reachable(nslots, nproducers, s)
    ensures Shaped(s) && (i >= |s.q.slots| ==> !Bit(s.q.mask, i))
    ensures i < |s.q.slots| && !Bit(s.q.mask, i) ==>
              s.written[i] != [] && s.copies[i] == s.q.slots[i] == s.written[i][|s.written[i]| - 1]
    ensures s.consumer == Waiting(false) && s.mtx == None ==> s.q.mask == 0
  {
    ReachableInv(nslots, nproducers, s);
    if i < |s.q.slots| {
      assert SlotOk(s, i);
    } else {
      HighBitsClear(s.q.mask, |s.q.slots|, i);
    }
  }

  lemma {:induction false} HighBitsClear(m: nat, n: nat, i: nat)
    requires m < Pow2(n) && i >= n
    ensures !Bit(m, i)
  {
    if n == 0 {
      ZeroHasNoBit(i);
    } else {
      HighBitsClear(m / 2, n - 1, i - 1);
    }
  }

  /** What the consumer has seen of a slot is a subsequence of what was written to it, and its copy is
      the last element of that subsequence; after the initial value nothing seen is "empty". */
  lemma {:induction false} SeenIsSubsequence(nslots: nat, nproducers: nat, s: State, i: nat)
    requires Reachable(nslots, nproducers, s) && i < |s.q.slots|
    ensures Shaped(s)
    ensures Increasing(s.seen[i])
    ensures forall x | 0 <= x < |s.seen[i]| :: s.seen[i][x] < |s.written[i]|
    ensures s.seen[i] != [] && s.copies[i] == s.written[i][s.seen[i][|s.seen[i]| - 1]]
    ensures forall x | 1 <= x < |s.seen[i]| :: !s.written[i][s.seen[i][x]].state.Empty?
  {
    ReachableInv(nslots, nproducers, s);
    assert SlotOk(s, i);
    var seen := s.seen[i];
    forall x | 0 <= x < |seen| ensures seen[x] <= seen[|seen| - 1] && x <= seen[x] {
      if x < |seen| - 1 {
        assert seen[x] < seen[|seen| - 1];
      }
      IncreasingAtLeast(seen, x);
    }
  }

  lemma {:induction false} IncreasingAtLeast(a: seq<nat>, x: nat)
    requires Increasing(a) && x < |a|
    ensures x <= a[x]
  {
    if x == 0 {
    } else {
      IncreasingAtLeast(a, x - 1);
    }
  }

  // ---- Getting the updates through ----

  /** Actions that only carry on what has begun: no new update enters the queue, and the consumer does
      not wake up by chance. */
  predicate CarriesOn(s: State, a: Action) {
    !a.Start? && !a.Lock? && (a.WakeUp? ==> s.consumer == Waiting(true))
  }

  predicate AllCarryOn(s: State, schedule: seq<Action>)
    requires Shaped(s)
    decreases |schedule|
  {
    schedule == [] || (CarriesOn(s, schedule[0]) && Next(s, schedule[0]).Some?
                       && AllCarryOn(Next(s, schedule[0]).value, schedule[1..]))
  }

  function ProducerSteps(s: State): nat {
    if s.mtx.Some? && s.mtx.value.Producer? && s.mtx.value.p < |s.producers| then
      match s.producers[s.mtx.value.p]
      case Updating(_, _) => 3
      case Signalling => 2
      case _ => 1
    else 0
  }

  function ConsumerSteps(s: State): nat {
    var n := |s.q.slots|;
    match s.consumer
    case Checking => n + 2
    case Copying(k) => if k <= n then n + 1 - k else 0
    case _ => if s.q.mask == 0 then 0 else n + 3
  }

  /** No update gets stuck: from every reachable state the threads already involved can carry on until
      nothing is marked and the consumer's copies are what is in the slots. */
  lemma {:induction false} Drains(s: State) returns (schedule: seq<Action>)
    requires Inv(s)
    ensures AllCarryOn(s, schedule) && Run(s, schedule).Some?
    ensures var s' := Run(s, schedule).value;
      s'.q.mask == 0 && s'.mtx == None && s'.q.slots == s'.copies
    decreases ProducerSteps(s), ConsumerSteps(s)
  {
    if s.mtx == None && s.q.mask == 0 {
      schedule := [];
      forall i: nat | i < |s.q.slots| ensures s.copies[i] == s.q.slots[i] {
        assert SlotOk(s, i);
        ZeroHasNoBit(i);
      }
      assert s.q.slots == s.copies;
    } else {
      var a := NextToCarryOn(s);
      InvStep(s, a);
      var rest := Drains(Next(s, a).value);
      schedule := [a] + rest;
      assert schedule[1..] == rest;
    }
  }

  lemma {:induction false} NextToCarryOn(s: State) returns (a: Action)
    requires Inv(s) && !(s.mtx == None && s.q.mask == 0)
    ensures CarriesOn(s, a) && Next(s, a).Some?
    ensures var s' := Next(s, a).value;
      ProducerSteps(s') < ProducerSteps(s)
      || (ProducerSteps(s') == ProducerSteps(s) && ConsumerSteps(s') < ConsumerSteps(s))
  {
    hide SlotOk, Updated, MaskOk;
    if s.mtx == None {
      a := if s.consumer == Outside then FetchLock else WakeUp;
    } else if s.mtx.value.Producer? {
      var p := s.mtx.value.p;
      assert ProducerOk(s, p);
      a := match s.producers[p] case Updating(_, _) => Update(p) case Signalling => Signal(p) case _ => Unlock(p);
    } else {
      a := if s.consumer == Checking then FetchCheck else Copy;
    }
  }

  // ---- The steps of a fetch are a fetch ----

  function Copies(n: nat): (r: seq<Action>)
    ensures |r| == n
  {
    seq(n, i => Copy)
  }

  /** What the consumer's steps do, while it has the mutex, is what `Conq.FetchUpdates` does at once. */
  lemma {:induction false} CopyingIsFetching(s: State, n: nat)
    requires Shaped(s)
    requires s.consumer.Copying? && s.consumer.k + n == |s.q.slots|
    ensures var k, r := s.consumer.k, Run(s, Copies(n + 1));
      && r.Some? && r.value.consumer == Outside && r.value.mtx == None && r.value.q == s.q.(mask := 0)
      && r.value.producers == s.producers && r.value.written == s.written
      && |r.value.copies| == |s.q.slots|
      && forall i: nat | i < |s.q.slots| ::
           r.value.copies[i] == if i >= k && Bit(s.q.mask, i) then s.q.slots[i] else s.copies[i]
    decreases n
  {
    hide Bit;
    assert Copies(n + 1)[1..] == Copies(n);
    var s' := Next(s, Copy).value;
    if n > 0 {
      CopyingIsFetching(s', n - 1);
    } else {
      assert Run(s', Copies(0)) == Some(s');
    }
  }
}
