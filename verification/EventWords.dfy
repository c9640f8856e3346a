/**
 What the main thread of `CallProtocol` does about one event after the other: the exact sequences of actions that
 make up the handling of an event (luastatus/luastatus.c).
 */
module EventWords {
  import opened Common
  import opened Wrappers
  import opened CallProtocol

  /** Whether init left the widget an `event` to call: a function, or a string turned into one. */
  predicate HasEvent(w: Widget) {
    w.FunctionEvent? || w.StringEvent?
  }

  // ---- The words ----

  /** The actions about widget `k`'s events. */
  function EventWord(schedule: seq<Action>, k: nat): seq<EventAction> {
    if schedule == [] then [] else EventOf(schedule[0], k) + EventWord(schedule[1..], k)
  }

  function EventOf(a: Action, k: nat): seq<EventAction> {
    if a.ByEvent? && a.k == k then [a.ea] else []
  }

  /** The last beginning and what follows it. */
  function LastEvent(word: seq<EventAction>): seq<EventAction> {
    if word == [] then []
    else
      var n := |word| - 1;
      if word[n] == EwCallBegin then [EwCallBegin] else LastEvent(word[..n]) + [word[n]]
  }

  const EVENT_SENT: seq<EventAction> := [EwCallBegin, EwPush, EwCallEnd]

  /** The event has been sent and is being handled: the Comm mutex has been locked and unlocked in turns. */
  predicate BeingHandled(word: seq<EventAction>, inComm: bool) {
    && EVENT_SENT <= word && (|word| % 2 == 0 <==> inComm)
    && forall i | 3 <= i < |word| :: word[i] == if i % 2 == 1 then EventCommLock else EventCommUnlock
  }

  /** The event has been handled, and this came after that. */
  predicate Handled(word: seq<EventAction>, tail: seq<EventAction>) {
    var n := |word| - |tail|;
    n >= 0 && word[n..] == tail && BeingHandled(word[..n], false)
  }

  /** What has been done about an event when the main thread is at a point of handling it. */
  predicate EventSoFar(w: Widget, pc: MainPc, word: seq<EventAction>) {
    match pc
    case EwBegan(_, pushed) => word == [EwCallBegin] + seq(pushed, _ => EwPush)
    case InEvent(_, inComm) => HasEvent(w) && BeingHandled(word, inComm)
    case EventFailed(_) => HasEvent(w) && Handled(word, [EventReturns(false)])
    case EventSet(_) => HasEvent(w) && Handled(word, [EventReturns(false), EventLockBarlib])
    case EventOver(_) =>
      if HasEvent(w) then
        Handled(word, [EventReturns(true)])
        || Handled(word, [EventReturns(false), EventLockBarlib, EventSetError(false)])
      else word == EVENT_SENT
    case _ => false
  }

  /** An event that is over: cancelled, or sent and, if the widget has an `event`, handled by it; and if that failed,
      the widget's error has been shown. */
  predicate WholeEvent(w: Widget, k: nat, word: seq<EventAction>) {
    var n := |word| - 1;
    n >= 0
    && if word[n] == EwCallCancel then n >= 1 && EventSoFar(w, EwBegan(k, n - 1), word[..n])
       else word[n] == EventUnlock && EventSoFar(w, EventOver(k), word[..n])
  }

  predicate EventFollows(w: Widget, k: nat, pc: MainPc, word: seq<EventAction>) {
    if Handling(pc) == Some(k) then EventSoFar(w, pc, word) else word == [] || WholeEvent(w, k, word)
  }

  lemma {:induction false} LastEventSnoc(word: seq<EventAction>, a: EventAction)
    ensures LastEvent(word + [a]) == if a == EwCallBegin then [a] else LastEvent(word) + [a]
  {
    assert (word + [a])[..|word|] == word;
  }

  lemma {:induction false} HandledSnoc(word: seq<EventAction>, tail: seq<EventAction>, a: EventAction)
    requires Handled(word, tail)
    ensures Handled(word + [a], tail + [a])
  {
    hide BeingHandled;
    var n := |word| - |tail|;
    assert (word + [a])[n..] == word[n..] + [a] && (word + [a])[..n] == word[..n];
  }

  lemma {:induction false} BeingHandledSnoc(word: seq<EventAction>, inComm: bool, a: EventAction)
    requires BeingHandled(word, inComm)
    ensures a == (if inComm then EventCommUnlock else EventCommLock) ==> BeingHandled(word + [a], !inComm)
    ensures !inComm ==> Handled(word + [a], [a])
  {
    assert (word + [a])[..|word|] == word && (word + [a])[|word|..] == [a];
  }

  lemma {:induction false} SentSnoc(n: nat)
    ensures [EwCallBegin] + seq(n, _ => EwPush) + [EwPush] == [EwCallBegin] + seq(n + 1, _ => EwPush)
    ensures [EwCallBegin] + seq(1, _ => EwPush) + [EwCallEnd] == EVENT_SENT
  {
  }

  lemma {:induction false} SentStart()
    ensures [EwCallBegin] + seq(0, _ => EwPush) == [EwCallBegin]
    ensures BeingHandled(EVENT_SENT, false)
  {
  }

  lemma {:induction false} EventWordStep(c: seq<Widget>, k: nat, v: View<MainPc>, a: EventAction, word: seq<EventAction>)
    requires k < |c| && EventStep(c, k, v, a).Some? && (a.EwCallBegin? <==> Handling(v.pc) != Some(k))
    requires EventFollows(c[k], k, v.pc, word)
    requires !EventStep(c, k, v, a).value.exited && !EventStep(c, k, v, a).value.crashed
    ensures EventFollows(c[k], k, EventStep(c, k, v, a).value.pc, if a == EwCallBegin then [a] else word + [a])
  {
    hide BeingHandled, Handled;
    var more := word + [a];
    assert more[..|word|] == word;
    SentStart();
    match v.pc
    case EwBegan(_, pushed) => SentSnoc(pushed);
    case InEvent(_, inComm) => BeingHandledSnoc(word, inComm, a);
    case EventFailed(_) =>
      HandledSnoc(word, [EventReturns(false)], a);
      assert [EventReturns(false)] + [a] == [EventReturns(false), a];
    case EventSet(_) =>
      HandledSnoc(word, [EventReturns(false), EventLockBarlib], a);
      assert [EventReturns(false), EventLockBarlib] + [a] == [EventReturns(false), EventLockBarlib, a];
    case _ =>
  }

  lemma {:induction false} OtherEventStep(c: seq<Widget>, j: nat, v: View<MainPc>, a: EventAction, k: nat)
    requires j < |c| && EventStep(c, j, v, a).Some? && (a.EwCallBegin? <==> Handling(v.pc) != Some(j)) && j != k
    ensures Handling(v.pc) != Some(k) && Handling(EventStep(c, j, v, a).value.pc) != Some(k)
  {
  }

  /** What one action of any thread adds to the word. */
  lemma {:induction false} EventsAfter(c: seq<Widget>, s: State, k: nat, word: seq<EventAction>, a: Action)
    requires Shaped(c, s) && k < |c| && Next(c, s, a).Some?
    requires !Next(c, s, a).value.exited && !Next(c, s, a).value.crashed
    requires EventFollows(c[k], k, s.main, LastEvent(word))
    ensures EventFollows(c[k], k, Next(c, s, a).value.main, LastEvent(word + EventOf(a, k)))
  {
    hide EventStep, WidgetStep, EventSoFar, WholeEvent, LastEvent;
    assert word + [] == word;
    match a
    case ByEvent(j, ea) =>
      if j == k {
        LastEventSnoc(word, ea);
        EventWordStep(c, k, EventView(c, s, k), ea, LastEvent(word));
      } else {
        OtherEventStep(c, j, EventView(c, s, j), ea, k);
      }
    case _ =>
  }

  lemma {:induction false} EventsFrom(c: seq<Widget>, s: State, k: nat, word: seq<EventAction>, schedule: seq<Action>)
    requires Inv(c, s) && k < |c| && Run(c, s, schedule).Some?
    requires !s.exited ==> EventFollows(c[k], k, s.main, LastEvent(word))
    ensures var s' := Run(c, s, schedule).value;
      !s'.exited ==> EventFollows(c[k], k, s'.main, LastEvent(word + EventWord(schedule, k)))
    decreases |schedule|
  {
    hide EventFollows, LastEvent, Next, WidgetOk, MainOk, EventOf;
    if schedule == [] {
      assert word + EventWord(schedule, k) == word;
    } else {
      var a, rest := schedule[0], schedule[1..];
      StepRuns(c, s, a);
      InvStep(c, s, a);
      var s' := Next(c, s, a).value;
      if !s'.exited {
        EventsAfter(c, s, k, word, a);
      }
      EventsFrom(c, s', k, word + EventOf(a, k), rest);
      Associative(word, EventOf(a, k), EventWord(rest, k));
    }
  }

  lemma {:induction false} NoEventYet(c: seq<Widget>, k: nat)
    requires k < |c|
    ensures EventFollows(c[k], k, Init(c).main, LastEvent([]))
  {
  }

  /** Over every interleaving: an event that is over was cancelled, or was sent and, exactly if the widget has an
      event function or string, handled; if that failed, the widget's error was shown with the barlib locked, before
      the Lua state was unlocked. While an event is being handled, this is so of what has been done so far. */
  lemma {:induction false} EventsAreHandled(c: seq<Widget>, schedule: seq<Action>, k: nat)
    requires k < |c| && Run(c, Init(c), schedule).Some?
    ensures var s := Run(c, Init(c), schedule).value;
      !s.exited ==> EventFollows(c[k], k, s.main, LastEvent(EventWord(schedule, k)))
  {
    InvInit(c);
    NoEventYet(c, k);
    hide EventFollows, LastEvent, Inv, EventOf, Next, Init;
    EventsFrom(c, Init(c), k, [], schedule);
    assert [] + EventWord(schedule, k) == EventWord(schedule, k);
  }

  // ---- Every word for an event can happen ----

  function About(k: nat, word: seq<EventAction>): seq<Action> {
    seq(|word|, i requires 0 <= i < |word| => ByEvent(k, word[i]))
  }

  /** The main thread is watching, and what it needs for an event of widget `k` is free. */
  predicate Idle(c: seq<Widget>, s: State, k: nat) {
    && k < |c| && Shaped(c, s) && !s.exited && !s.crashed && s.main == Watching && s.curW == None
    && EventView(c, s, k).mtx == None && EventView(c, s, k).height == 1
    && s.barlibMtx == None && s.commMtx == None
  }

  /** What the main thread sees at a point of handling an event, if nobody interferes. */
  function EventAt(c: seq<Widget>, s: State, k: nat, pc: MainPc): View<MainPc>
    requires Shaped(c, s) && k < |c|
  {
    EventView(c, s, k).(
      pc := pc, height := EventHeightAt(pc), mtx := Some(MainThread), curW := if SepEvent(c[k]) then Some(k) else None,
      barlib := if MainInBarlib(pc) then Some(MainThread) else None,
      comm := if MainInComm(pc) then Some(MainThread) else None)
  }

  /** The word leads to this point, if nobody interferes. */
  predicate LeadsTo(c: seq<Widget>, s: State, k: nat, word: seq<EventAction>, pc: MainPc)
    requires Shaped(c, s) && k < |c|
  {
    Run(c, s, About(k, word)) == Some(PutEvent(c, s, k, EventAt(c, s, k, pc)))
  }

  lemma {:induction false} AboutSnoc(c: seq<Widget>, s: State, k: nat, word: seq<EventAction>, a: EventAction)
    requires Shaped(c, s) && Run(c, s, About(k, word)).Some?
    ensures Run(c, s, About(k, word + [a])) == Next(c, Run(c, s, About(k, word)).value, ByEvent(k, a))
  {
    RunExtend(c, s, About(k, word), ByEvent(k, a));
    assert About(k, word + [a]) == About(k, word) + [ByEvent(k, a)];
  }

  lemma {:induction false} PutThenView(c: seq<Widget>, s: State, k: nat, v: View<MainPc>, v': View<MainPc>)
    requires Shaped(c, s) && k < |c|
    ensures EventView(c, PutEvent(c, s, k, v), k) == v
    ensures PutEvent(c, PutEvent(c, s, k, v), k, v') == PutEvent(c, s, k, v')
  {
    assert s.heights[k := v.height][k := v'.height] == s.heights[k := v'.height];
    assert s.widgetMtx[k := v.mtx][k := v'.mtx] == s.widgetMtx[k := v'.mtx];
  }

  lemma {:induction false} StepLeadsTo(c: seq<Widget>, s: State, k: nat, word: seq<EventAction>, pc: MainPc,
                                       a: EventAction, next: MainPc)
    requires Idle(c, s, k) && LeadsTo(c, s, k, word, pc) && Handling(pc) == Some(k)
    requires EventStep(c, k, EventAt(c, s, k, pc), a) == Some(EventAt(c, s, k, next)) && !a.EwCallBegin?
    ensures LeadsTo(c, s, k, word + [a], next)
  {
    hide EventStep, Handling, Run;
    AboutSnoc(c, s, k, word, a);
    PutThenView(c, s, k, EventAt(c, s, k, pc), EventAt(c, s, k, next));
  }

  lemma {:induction false} BeginningLeadsTo(c: seq<Widget>, s: State, k: nat, pushed: nat)
    requires Idle(c, s, k)
    ensures LeadsTo(c, s, k, [EwCallBegin] + seq(pushed, _ => EwPush), EwBegan(k, pushed))
  {
    if pushed == 0 {
      SentStart();
      AboutSnoc(c, s, k, [], EwCallBegin);
      assert About(k, []) == [] && [] + [EwCallBegin] == [EwCallBegin];
      assert EventStep(c, k, EventView(c, s, k), EwCallBegin) == Some(EventAt(c, s, k, EwBegan(k, 0)));
    } else {
      BeginningLeadsTo(c, s, k, pushed - 1);
      SentSnoc(pushed - 1);
      StepLeadsTo(c, s, k, [EwCallBegin] + seq(pushed - 1, _ => EwPush), EwBegan(k, pushed - 1), EwPush,
                  EwBegan(k, pushed));
    }
  }

  lemma {:induction false} SentLeadsTo(c: seq<Widget>, s: State, k: nat)
    requires Idle(c, s, k)
    ensures LeadsTo(c, s, k, EVENT_SENT, if HasEvent(c[k]) then InEvent(k, false) else EventOver(k))
  {
    BeginningLeadsTo(c, s, k, 1);
    SentSnoc(1);
    StepLeadsTo(c, s, k, [EwCallBegin] + seq(1, _ => EwPush), EwBegan(k, 1), EwCallEnd,
                if HasEvent(c[k]) then InEvent(k, false) else EventOver(k));
  }

  lemma {:induction false} HandlingLeadsTo(c: seq<Widget>, s: State, k: nat, word: seq<EventAction>, inComm: bool)
    requires Idle(c, s, k) && HasEvent(c[k]) && BeingHandled(word, inComm)
    ensures LeadsTo(c, s, k, word, InEvent(k, inComm))
    decreases |word|
  {
    var n := |word| - 1;
    if n == 2 {
      SentLeadsTo(c, s, k);
      assert word == EVENT_SENT;
    } else {
      assert BeingHandled(word[..n], !inComm) && word == word[..n] + [word[n]];
      HandlingLeadsTo(c, s, k, word[..n], !inComm);
      StepLeadsTo(c, s, k, word[..n], InEvent(k, !inComm), word[n], InEvent(k, inComm));
    }
  }

  lemma {:induction false} FailingLeadsTo(c: seq<Widget>, s: State, k: nat, word: seq<EventAction>)
    requires Idle(c, s, k) && HasEvent(c[k]) && BeingHandled(word, false)
    ensures LeadsTo(c, s, k, word + [EventReturns(false)], EventFailed(k))
    ensures LeadsTo(c, s, k, word + [EventReturns(false)] + [EventLockBarlib], EventSet(k))
    ensures LeadsTo(c, s, k, word + [EventReturns(false)] + [EventLockBarlib] + [EventSetError(false)], EventOver(k))
  {
    hide BeingHandled, LeadsTo;
    HandlingLeadsTo(c, s, k, word, false);
    StepLeadsTo(c, s, k, word, InEvent(k, false), EventReturns(false), EventFailed(k));
    StepLeadsTo(c, s, k, word + [EventReturns(false)], EventFailed(k), EventLockBarlib, EventSet(k));
    StepLeadsTo(c, s, k, word + [EventReturns(false)] + [EventLockBarlib], EventSet(k), EventSetError(false), EventOver(k));
  }

  lemma {:induction false} BackToWatching(c: seq<Widget>, s: State, k: nat, word: seq<EventAction>, pc: MainPc,
                                          a: EventAction)
    requires Idle(c, s, k) && LeadsTo(c, s, k, word, pc) && Handling(pc) == Some(k)
    requires EventStep(c, k, EventAt(c, s, k, pc), a) == Some(EventView(c, s, k)) && !a.EwCallBegin?
    ensures Run(c, s, About(k, word + [a])) == Some(s)
  {
    hide EventStep, Handling, Run;
    AboutSnoc(c, s, k, word, a);
    PutThenView(c, s, k, EventAt(c, s, k, pc), EventView(c, s, k));
    assert PutEvent(c, s, k, EventView(c, s, k)) == s;
  }

  /** The tail of a word that has been handled follows the part before it. */
  lemma {:induction false} HandledLeadsTo(c: seq<Widget>, s: State, k: nat, word: seq<EventAction>)
    requires Idle(c, s, k) && EventSoFar(c[k], EventOver(k), word)
    ensures LeadsTo(c, s, k, word, EventOver(k))
  {
    hide LeadsTo, BeingHandled;
    if !HasEvent(c[k]) {
      SentLeadsTo(c, s, k);
    } else if Handled(word, [EventReturns(true)]) {
      var before := word[..|word| - 1];
      HandlingLeadsTo(c, s, k, before, false);
      StepLeadsTo(c, s, k, before, InEvent(k, false), EventReturns(true), EventOver(k));
      assert word == before + [EventReturns(true)];
    } else {
      var before := word[..|word| - 3];
      FailingLeadsTo(c, s, k, before);
      assert word == before + [EventReturns(false)] + [EventLockBarlib] + [EventSetError(false)];
    }
  }

  /** The handling of an event, whole, in a state in which nobody interferes. */
  lemma {:induction false} WholeEventRuns(c: seq<Widget>, s: State, k: nat, word: seq<EventAction>)
    requires Idle(c, s, k) && WholeEvent(c[k], k, word)
    ensures Run(c, s, About(k, word)) == Some(s)
  {
    hide LeadsTo;
    var n := |word| - 1;
    assert word == word[..n] + [word[n]];
    if word[n] == EwCallCancel {
      BeginningLeadsTo(c, s, k, n - 1);
      BackToWatching(c, s, k, word[..n], EwBegan(k, n - 1), EwCallCancel);
    } else {
      HandledLeadsTo(c, s, k, word[..n]);
      BackToWatching(c, s, k, word[..n], EventOver(k), EventUnlock);
    }
  }

  // ---- The words for events, exactly ----

  lemma {:induction false} IdleReachable(c: seq<Widget>, k: nat) returns (s: State)
    requires k < |c|
    ensures Reachable(c, s) && Idle(c, s, k)
  {
    s := AllSpawned(c);
  }

  lemma {:induction false} EventWordConcat(a: seq<Action>, b: seq<Action>, k: nat)
    ensures EventWord(a + b, k) == EventWord(a, k) + EventWord(b, k)
    decreases |a|
  {
    hide EventOf;
    if a == [] {
      assert a + b == b;
    } else {
      EventWordConcat(a[1..], b, k);
      assert (a + b)[1..] == a[1..] + b;
      Associative(EventOf(a[0], k), EventWord(a[1..], k), EventWord(b, k));
    }
  }

  lemma {:induction false} EventWordAbout(k: nat, word: seq<EventAction>)
    ensures EventWord(About(k, word), k) == word
  {
    if word == [] {
    } else {
      EventWordAbout(k, word[1..]);
      assert About(k, word)[1..] == About(k, word[1..]);
    }
  }

  predicate BeginsOnce(word: seq<EventAction>) {
    word != [] && word[0] == EwCallBegin && forall i | 1 <= i < |word| :: word[i] != EwCallBegin
  }

  lemma {:induction false} LastEventWhole(before: seq<EventAction>, word: seq<EventAction>)
    requires BeginsOnce(word)
    ensures LastEvent(before + word) == word
  {
    var n := |word| - 1;
    LastEventSnoc(before + word[..n], word[n]);
    assert before + word == before + word[..n] + [word[n]] && word == word[..n] + [word[n]];
    if n > 0 {
      LastEventWhole(before, word[..n]);
    }
  }

  lemma {:induction false} HandledBeginsOnce(word: seq<EventAction>, tail: seq<EventAction>)
    requires Handled(word, tail) && EwCallBegin !in tail
    ensures BeginsOnce(word)
  {
    var n := |word| - |tail|;
    assert word == word[..n] + tail && BeginsOnce(word[..n]);
  }

  lemma {:induction false} BeginsSnoc(word: seq<EventAction>, a: EventAction, n: nat)
    requires a != EwCallBegin
    ensures BeginsOnce(word) ==> BeginsOnce(word + [a])
    ensures word == [EwCallBegin] + seq(n, _ => EwPush) ==> BeginsOnce(word + [a])
    ensures BeginsOnce(EVENT_SENT)
  {
  }

  lemma {:induction false} WholeBeginsOnce(w: Widget, k: nat, word: seq<EventAction>)
    requires WholeEvent(w, k, word)
    ensures BeginsOnce(word)
  {
    hide BeingHandled, Handled, BeginsOnce;
    var n := |word| - 1;
    var before := word[..n];
    assert word == before + [word[n]];
    BeginsSnoc(before, word[n], if n > 0 then n - 1 else 0);
    if word[n] == EventUnlock && HasEvent(w) {
      HandledBeginsOnce(before, if Handled(before, [EventReturns(true)]) then [EventReturns(true)]
                                else [EventReturns(false), EventLockBarlib, EventSetError(false)]);
    }
  }

  /** What the handling of an event of widget `k` can have consisted of, at the moments between two events. */
  lemma {:induction false} EventWordsExactly(c: seq<Widget>, k: nat, word: seq<EventAction>)
    requires k < |c|
    ensures (exists schedule :: IsRunTo(c, schedule, Watching) && word != [] && LastEvent(EventWord(schedule, k)) == word)
            <==> WholeEvent(c[k], k, word)
  {
    hide WholeEvent, LastEvent, EventWord, Next;
    if WholeEvent(c[k], k, word) {
      var schedule := WholeEventHappens(c, k, word);
    }
    forall schedule | IsRunTo(c, schedule, Watching) && word != [] && LastEvent(EventWord(schedule, k)) == word
      ensures WholeEvent(c[k], k, word)
    {
      EventsAreHandled(c, schedule, k);
    }
  }

  lemma {:induction false} WholeEventHappens(c: seq<Widget>, k: nat, word: seq<EventAction>)
    returns (schedule: seq<Action>)
    requires k < |c| && WholeEvent(c[k], k, word)
    ensures IsRunTo(c, schedule, Watching) && word != [] && LastEvent(EventWord(schedule, k)) == word
  {
    hide WholeEvent, LastEvent, EventWord, Next;
    var s := IdleReachable(c, k);
    var start :| Run(c, Init(c), start) == Some(s);
    WholeEventRuns(c, s, k, word);
    RunConcat(c, Init(c), start, About(k, word));
    EventWordConcat(start, About(k, word), k);
    EventWordAbout(k, word);
    WholeBeginsOnce(c[k], k, word);
    LastEventWhole(EventWord(start, k), word);
    schedule := start + About(k, word);
  }

  /** A run from the start that brings the main thread here and does not end the program. */
  predicate IsRunTo(c: seq<Widget>, schedule: seq<Action>, pc: MainPc) {
    var s := Run(c, Init(c), schedule);
    s.Some? && !s.value.exited && s.value.main == pc
  }

  /** The main thread can get to run a widget's event exactly if there is one. */
  lemma {:induction false} EventsOfWidget(c: seq<Widget>, k: nat, inComm: bool)
    requires k < |c|
    ensures (exists s :: Reachable(c, s) && s.main == InEvent(k, inComm)) <==> HasEvent(c[k])
  {
    if HasEvent(c[k]) {
      var s := HandlingReachable(c, k, inComm);
    }
    forall s | Reachable(c, s) && s.main == InEvent(k, inComm) ensures HasEvent(c[k]) {
      ReachableInv(c, s);
    }
  }

  lemma {:induction false} HandlingReachable(c: seq<Widget>, k: nat, inComm: bool) returns (s: State)
    requires k < |c| && HasEvent(c[k])
    ensures Reachable(c, s) && s.main == InEvent(k, inComm)
  {
    var idle := IdleReachable(c, k);
    SentStart();
    var word := if inComm then EVENT_SENT + [EventCommLock] else EVENT_SENT;
    assert BeingHandled(word, inComm);
    HandlingLeadsTo(c, idle, k, word, inComm);
    var start :| Run(c, Init(c), start) == Some(idle);
    RunConcat(c, Init(c), start, About(k, word));
    s := PutEvent(c, idle, k, EventAt(c, idle, k, InEvent(k, inComm)));
    assert Run(c, Init(c), start + About(k, word)) == Some(s);
  }

  // ---- Start-up and the end ----

  /** What the main thread does outside of events. */
  function StartWord(schedule: seq<Action>): seq<StartAction> {
    if schedule == [] then [] else StartOf(schedule[0]) + StartWord(schedule[1..])
  }

  function StartOf(a: Action): seq<StartAction> {
    if a.ByStart? then [a.sa] else []
  }

  /** Threads for the widgets before `i` that have a state, and errors shown for the others, in their order. */
  function Started(c: seq<Widget>, i: nat): seq<StartAction>
    requires i <= |c|
  {
    if i == 0 then []
    else Started(c, i - 1) + if c[i - 1].Stillborn? then [Spawn, SpawnSetError(false)] else [Spawn]
  }

  /** What has been done outside of events when the main thread is at this point. */
  predicate StartSoFar(c: seq<Widget>, pc: MainPc, word: seq<StartAction>) {
    var started := Started(c, |c|) + [Spawn];
    match pc
    case Spawning(i) => i <= |c| && word == Started(c, i)
    case SpawnSet(i) => i < |c| && c[i].Stillborn? && word == Started(c, i) + [Spawn]
    case Joining(i) => i <= |c| && word == started + [WatcherReturns(false)] + seq(i, _ => Join)
    case Finished => word == started + [WatcherReturns(false)] + seq(|c| + 1, _ => Join)
    case _ => word == started
  }

  lemma {:induction false} StartActionStep(c: seq<Widget>, s: State, a: StartAction, word: seq<StartAction>)
    requires Shaped(c, s) && StartNext(c, s, a).Some? && StartSoFar(c, s.main, word) && !StartNext(c, s, a).value.exited
    ensures StartSoFar(c, StartNext(c, s, a).value.main, word + [a])
  {
    assert s.main.SpawnSet? ==> Started(c, s.main.i) + [Spawn] + [SpawnSetError(false)]
                                == Started(c, s.main.i) + [Spawn, SpawnSetError(false)];
  }

  lemma {:induction false} StartWordStep(c: seq<Widget>, s: State, a: Action, word: seq<StartAction>)
    requires Shaped(c, s) && Next(c, s, a).Some? && StartSoFar(c, s.main, word)
    requires !Next(c, s, a).value.exited && !Next(c, s, a).value.crashed
    ensures StartSoFar(c, Next(c, s, a).value.main, word + StartOf(a))
  {
    hide WidgetStep, StartNext, Started;
    assert word + [] == word;
    match a
    case ByStart(sa) => StartActionStep(c, s, sa, word);
    case _ =>
  }

  lemma {:induction false} StartsFrom(c: seq<Widget>, s: State, word: seq<StartAction>, schedule: seq<Action>)
    requires Inv(c, s) && Run(c, s, schedule).Some? && (!s.exited ==> StartSoFar(c, s.main, word))
    ensures var s' := Run(c, s, schedule).value;
      !s'.exited ==> StartSoFar(c, s'.main, word + StartWord(schedule))
    decreases |schedule|
  {
    hide StartSoFar, Next, WidgetOk, MainOk, StartOf;
    if schedule == [] {
      assert word + StartWord(schedule) == word;
    } else {
      var a, rest := schedule[0], schedule[1..];
      StepRuns(c, s, a);
      InvStep(c, s, a);
      if !Next(c, s, a).value.exited {
        StartWordStep(c, s, a, word);
      }
      StartsFrom(c, Next(c, s, a).value, word + StartOf(a), rest);
      Associative(word, StartOf(a), StartWord(rest));
    }
  }

  /** Over every interleaving: the event watcher begins when every widget has its thread or, if it could not be set up,
      its error shown, in the order of the widgets; and the program ends when all have been waited for. */
  lemma {:induction false} StartsInOrder(c: seq<Widget>, schedule: seq<Action>)
    requires Run(c, Init(c), schedule).Some?
    ensures var s := Run(c, Init(c), schedule).value;
      !s.exited ==> StartSoFar(c, s.main, StartWord(schedule))
  {
    InvInit(c);
    hide Inv, Next, StartOf;
    StartsFrom(c, Init(c), [], schedule);
    assert [] + StartWord(schedule) == StartWord(schedule);
  }
}
