/**
 What the widget threads of `CallProtocol` do in one call after the other: the exact sequences of actions that make
 up a call of a widget's cb() and the showing of its result (luastatus/luastatus.c).
 */
module CallWords {
  import opened Common
  import opened Wrappers
  import opened CallProtocol

  // ---- The words ----

  /** The actions of widget `i`'s thread. */
  function CallWord(schedule: seq<Action>, i: nat): seq<WidgetAction> {
    if schedule == [] then [] else CallOf(schedule[0], i) + CallWord(schedule[1..], i)
  }

  function CallOf(a: Action, i: nat): seq<WidgetAction> {
    if a.ByWidget? && a.i == i then [a.wa] else []
  }

  /** Whether a call begins here, or the end of the thread. */
  predicate Begins(a: WidgetAction) {
    a == CallBegin || a == RunReturns
  }

  /** The last beginning and what follows it. */
  function LastCall(word: seq<WidgetAction>): seq<WidgetAction> {
    if word == [] then []
    else
      var n := |word| - 1;
      if Begins(word[n]) then [word[n]] else LastCall(word[..n]) + [word[n]]
  }

  const CALL_SENT: seq<WidgetAction> := [CallBegin, PluginPush, CallEnd]

  /** The data has been sent and cb() is running: the Comm mutex has been locked and unlocked in turns. */
  predicate BeingCalled(word: seq<WidgetAction>, inComm: bool) {
    && CALL_SENT <= word && (|word| % 2 == 0 <==> inComm)
    && forall i | 3 <= i < |word| :: word[i] == if i % 2 == 1 then CbCommLock else CbCommUnlock
  }

  /** cb() has been called, and this came after that. */
  predicate Called(word: seq<WidgetAction>, tail: seq<WidgetAction>) {
    var n := |word| - |tail|;
    n >= 0 && word[n..] == tail && BeingCalled(word[..n], false)
  }

  /** The result has been shown: a result by set(), and after a non-fatal failure of that, or instead of a result, the
      error by set_error(); and nothing that was called reported a fatal error. */
  predicate Shown(word: seq<WidgetAction>) {
    var n := |word| - 1;
    && n >= 0 && word[n].Set?
    && ((Called(word[..n], [CbReturns(true), LockBarlib])
         && (word[n].r == SetOk || (word[n].r == SetNonFatal && !word[n].errorIsFatal)))
        || (Called(word[..n], [CbReturns(false), LockBarlib]) && !word[n].errorIsFatal))
  }

  /** A call that is over: cancelled, or sent, made and its result shown. */
  predicate WholeCall(word: seq<WidgetAction>) {
    var n := |word| - 1;
    n >= 0
    && if word[n] == CallCancel then n >= 1 && word[..n] == [CallBegin] + seq(n - 1, _ => PluginPush)
       else word[n] == UnlockWidget && Shown(word[..n])
  }

  /** What a widget's thread has done since the last beginning when it is at this point. */
  predicate CallSoFar(pc: WidgetPc, word: seq<WidgetAction>) {
    match pc
    case NotSpawned => word == []
    case InRun => word == [] || WholeCall(word)
    case Began(pushed) => word == [CallBegin] + seq(pushed, _ => PluginPush)
    case InCb(inComm) => BeingCalled(word, inComm)
    case CbReturned(ok) => Called(word, [CbReturns(ok)])
    case Setting(ok) => Called(word, [CbReturns(ok), LockBarlib])
    case AfterSet => Shown(word)
    case RunReturned => word == [RunReturns]
    case FinalSet => word == [RunReturns, LockBarlib]
    case Done => |word| == 3 && word[..2] == [RunReturns, LockBarlib] && word[2].Set? && !word[2].errorIsFatal
  }

  lemma {:induction false} LastCallSnoc(word: seq<WidgetAction>, a: WidgetAction)
    ensures LastCall(word + [a]) == if Begins(a) then [a] else LastCall(word) + [a]
  {
    assert (word + [a])[..|word|] == word;
  }

  lemma {:induction false} CalledSnoc(word: seq<WidgetAction>, tail: seq<WidgetAction>, a: WidgetAction)
    requires Called(word, tail)
    ensures Called(word + [a], tail + [a])
  {
    hide BeingCalled;
    var n := |word| - |tail|;
    assert (word + [a])[n..] == word[n..] + [a] && (word + [a])[..n] == word[..n];
  }

  lemma {:induction false} BeingCalledSnoc(word: seq<WidgetAction>, inComm: bool, a: WidgetAction)
    requires BeingCalled(word, inComm)
    ensures a == (if inComm then CbCommUnlock else CbCommLock) ==> BeingCalled(word + [a], !inComm)
    ensures !inComm ==> Called(word + [a], [a])
  {
    assert (word + [a])[..|word|] == word && (word + [a])[|word|..] == [a];
  }

  lemma {:induction false} SentSnoc(n: nat)
    ensures [CallBegin] + seq(n, _ => PluginPush) + [PluginPush] == [CallBegin] + seq(n + 1, _ => PluginPush)
    ensures [CallBegin] + seq(1, _ => PluginPush) + [CallEnd] == CALL_SENT
  {
  }

  lemma {:induction false} SentStart()
    ensures [CallBegin] + seq(0, _ => PluginPush) == [CallBegin]
    ensures BeingCalled(CALL_SENT, false)
  {
  }

  // ---- What has been done ----

  lemma {:induction false} ShownSnoc(word: seq<WidgetAction>, ok: bool, a: WidgetAction)
    requires Called(word, [CbReturns(ok), LockBarlib]) && a.Set?
    requires if ok then a.r == SetOk || (a.r == SetNonFatal && !a.errorIsFatal) else !a.errorIsFatal
    ensures Shown(word + [a])
  {
    hide Called;
    assert (word + [a])[..|word|] == word;
  }

  lemma {:induction false} WholeSnoc(word: seq<WidgetAction>, n: nat)
    ensures Shown(word) ==> WholeCall(word + [UnlockWidget])
    ensures word == [CallBegin] + seq(n, _ => PluginPush) ==> WholeCall(word + [CallCancel])
  {
    hide Shown;
    assert (word + [UnlockWidget])[..|word|] == word == (word + [CallCancel])[..|word|];
  }

  lemma {:induction false} CallWordStep(me: Thread, v: View<WidgetPc>, a: WidgetAction, word: seq<WidgetAction>)
    requires WidgetStep(me, v, a).Some? && CallSoFar(v.pc, word)
    requires !WidgetStep(me, v, a).value.exited && !WidgetStep(me, v, a).value.crashed
    ensures CallSoFar(WidgetStep(me, v, a).value.pc, if Begins(a) then [a] else word + [a])
  {
    hide BeingCalled, Called, Shown, WholeCall;
    SentStart();
    match v.pc
    case Began(pushed) =>
      SentSnoc(pushed);
      WholeSnoc(word, pushed);
    case InCb(inComm) => BeingCalledSnoc(word, inComm, a);
    case CbReturned(ok) =>
      CalledSnoc(word, [CbReturns(ok)], a);
      assert [CbReturns(ok)] + [a] == [CbReturns(ok), a];
    case Setting(ok) => ShownSnoc(word, ok, a);
    case AfterSet => WholeSnoc(word, 0);
    case _ =>
  }

  /** What one action of any thread adds to the word. */
  lemma {:induction false} CallsAfter(c: seq<Widget>, s: State, i: nat, word: seq<WidgetAction>, a: Action)
    requires Inv(c, s) && i < |c| && Next(c, s, a).Some?
    requires !Next(c, s, a).value.exited && !Next(c, s, a).value.crashed
    requires CallSoFar(s.pcs[i], LastCall(word))
    ensures CallSoFar(Next(c, s, a).value.pcs[i], LastCall(word + CallOf(a, i)))
  {
    hide EventStep, WidgetStep, LastCall, WholeCall, Called, BeingCalled, Shown;
    assert word + [] == word;
    match a
    case ByWidget(j, wa) =>
      if j == i {
        LastCallSnoc(word, wa);
        CallWordStep(WidgetThread(i), WidgetView(s, i), wa, LastCall(word));
      }
    case ByStart(_) => assert WidgetOk(c, s, i);
    case _ =>
  }

  lemma {:induction false} CallsFrom(c: seq<Widget>, s: State, i: nat, word: seq<WidgetAction>, schedule: seq<Action>)
    requires Inv(c, s) && i < |c| && Run(c, s, schedule).Some?
    requires !s.exited ==> CallSoFar(s.pcs[i], LastCall(word))
    ensures var s' := Run(c, s, schedule).value;
      !s'.exited ==> CallSoFar(s'.pcs[i], LastCall(word + CallWord(schedule, i)))
    decreases |schedule|
  {
    hide CallSoFar, LastCall, Next, WidgetOk, MainOk, CallOf;
    if schedule == [] {
      assert word + CallWord(schedule, i) == word;
    } else {
      var a, rest := schedule[0], schedule[1..];
      StepRuns(c, s, a);
      InvStep(c, s, a);
      var s' := Next(c, s, a).value;
      if !s'.exited {
        CallsAfter(c, s, i, word, a);
      }
      CallsFrom(c, s', i, word + CallOf(a, i), rest);
      Associative(word, CallOf(a, i), CallWord(rest, i));
    }
  }

  /** Over every interleaving: a call that is over was cancelled, or was made and its result or its error shown, with
      the barlib locked, before the widget was unlocked; a thread that is over has shown that its plugin returned.
      While this is being done, it is so of what has been done so far. */
  lemma {:induction false} ResultsAreShown(c: seq<Widget>, schedule: seq<Action>, i: nat)
    requires i < |c| && Run(c, Init(c), schedule).Some?
    ensures var s := Run(c, Init(c), schedule).value;
      !s.exited ==> CallSoFar(s.pcs[i], LastCall(CallWord(schedule, i)))
  {
    InvInit(c);
    assert CallSoFar(Init(c).pcs[i], LastCall([]));
    hide CallSoFar, LastCall, Inv, CallOf, Next;
    CallsFrom(c, Init(c), i, [], schedule);
    assert [] + CallWord(schedule, i) == CallWord(schedule, i);
  }

  // ---- Every word can happen ----

  function By(i: nat, word: seq<WidgetAction>): seq<Action> {
    seq(|word|, n requires 0 <= n < |word| => ByWidget(i, word[n]))
  }

  /** The thread of widget `i` is in its plugin's run(), and what it needs for a call is free. */
  predicate Alone(c: seq<Widget>, s: State, i: nat) {
    && i < |c| && Shaped(c, s) && !s.exited && !s.crashed
    && s.pcs[i] == InRun && s.widgetMtx[i] == None && s.heights[i] == 1 && s.barlibMtx == None && s.commMtx == None
  }

  /** What the thread sees at a point of its call, if nobody interferes. */
  function CallAt(c: seq<Widget>, s: State, i: nat, pc: WidgetPc): View<WidgetPc>
    requires Shaped(c, s) && i < |c|
  {
    var me := Some(WidgetThread(i));
    WidgetView(s, i).(
      pc := pc, height := if HeightAt(pc).Some? then HeightAt(pc).value else if pc == Setting(true) then 2 else 1,
      mtx := if LocksWidget(pc) then me else None, barlib := if InBarlib(pc) then me else None,
      comm := if pc == InCb(true) then me else None)
  }

  /** The word leads to this point, if nobody interferes. */
  predicate LeadsTo(c: seq<Widget>, s: State, i: nat, word: seq<WidgetAction>, pc: WidgetPc)
    requires Shaped(c, s) && i < |c|
  {
    Run(c, s, By(i, word)) == Some(PutWidget(s, i, CallAt(c, s, i, pc)))
  }

  lemma {:induction false} PutThenView(c: seq<Widget>, s: State, i: nat, v: View<WidgetPc>, v': View<WidgetPc>)
    requires Shaped(c, s) && i < |c| && v.curW == None
    ensures WidgetView(PutWidget(s, i, v), i) == v
    ensures PutWidget(PutWidget(s, i, v), i, v') == PutWidget(s, i, v')
  {
    assert s.pcs[i := v.pc][i := v'.pc] == s.pcs[i := v'.pc];
    assert s.heights[i := v.height][i := v'.height] == s.heights[i := v'.height];
    assert s.widgetMtx[i := v.mtx][i := v'.mtx] == s.widgetMtx[i := v'.mtx];
  }

  lemma {:induction false} StepLeadsTo(c: seq<Widget>, s: State, i: nat, word: seq<WidgetAction>, pc: WidgetPc,
                                       a: WidgetAction, next: WidgetPc)
    requires Alone(c, s, i) && LeadsTo(c, s, i, word, pc)
    requires WidgetStep(WidgetThread(i), CallAt(c, s, i, pc), a) == Some(CallAt(c, s, i, next))
    ensures LeadsTo(c, s, i, word + [a], next)
  {
    hide WidgetStep, Run;
    RunExtend(c, s, By(i, word), ByWidget(i, a));
    assert By(i, word + [a]) == By(i, word) + [ByWidget(i, a)];
    PutThenView(c, s, i, CallAt(c, s, i, pc), CallAt(c, s, i, next));
  }

  lemma {:induction false} NothingLeadsNowhere(c: seq<Widget>, s: State, i: nat)
    requires Alone(c, s, i)
    ensures PutWidget(s, i, CallAt(c, s, i, InRun)) == s && LeadsTo(c, s, i, [], InRun)
  {
    assert s.pcs[i := InRun] == s.pcs && s.heights[i := 1] == s.heights && s.widgetMtx[i := None] == s.widgetMtx;
  }

  lemma {:induction false} BeginningLeadsTo(c: seq<Widget>, s: State, i: nat, pushed: nat)
    requires Alone(c, s, i)
    ensures LeadsTo(c, s, i, [CallBegin] + seq(pushed, _ => PluginPush), Began(pushed))
  {
    hide LeadsTo;
    if pushed == 0 {
      SentStart();
      NothingLeadsNowhere(c, s, i);
      StepLeadsTo(c, s, i, [], InRun, CallBegin, Began(0));
      assert [] + [CallBegin] == [CallBegin];
    } else {
      BeginningLeadsTo(c, s, i, pushed - 1);
      SentSnoc(pushed - 1);
      StepLeadsTo(c, s, i, [CallBegin] + seq(pushed - 1, _ => PluginPush), Began(pushed - 1), PluginPush, Began(pushed));
    }
  }

  lemma {:induction false} CallingLeadsTo(c: seq<Widget>, s: State, i: nat, word: seq<WidgetAction>, inComm: bool)
    requires Alone(c, s, i) && BeingCalled(word, inComm)
    ensures LeadsTo(c, s, i, word, InCb(inComm))
    decreases |word|
  {
    hide LeadsTo;
    var n := |word| - 1;
    if n == 2 {
      BeginningLeadsTo(c, s, i, 1);
      SentSnoc(1);
      StepLeadsTo(c, s, i, [CallBegin] + seq(1, _ => PluginPush), Began(1), CallEnd, InCb(false));
      assert word == CALL_SENT;
    } else {
      assert BeingCalled(word[..n], !inComm) && word == word[..n] + [word[n]];
      CallingLeadsTo(c, s, i, word[..n], !inComm);
      StepLeadsTo(c, s, i, word[..n], InCb(!inComm), word[n], InCb(inComm));
    }
  }

  lemma {:induction false} ShowingLeadsTo(c: seq<Widget>, s: State, i: nat, word: seq<WidgetAction>)
    requires Alone(c, s, i) && Shown(word)
    ensures LeadsTo(c, s, i, word, AfterSet)
  {
    hide LeadsTo, BeingCalled;
    var n := |word| - 1;
    var ok, before := Called(word[..n], [CbReturns(true), LockBarlib]), word[..n - 2];
    assert word[..n][..n - 2] == before;
    CallingLeadsTo(c, s, i, before, false);
    StepLeadsTo(c, s, i, before, InCb(false), CbReturns(ok), CbReturned(ok));
    StepLeadsTo(c, s, i, before + [CbReturns(ok)], CbReturned(ok), LockBarlib, Setting(ok));
    StepLeadsTo(c, s, i, before + [CbReturns(ok)] + [LockBarlib], Setting(ok), word[n], AfterSet);
    assert word == before + [CbReturns(ok)] + [LockBarlib] + [word[n]];
  }

  /** A call, whole, in a state in which nobody interferes. */
  lemma {:induction false} WholeCallRuns(c: seq<Widget>, s: State, i: nat, word: seq<WidgetAction>)
    requires Alone(c, s, i) && WholeCall(word)
    ensures Run(c, s, By(i, word)) == Some(s)
  {
    hide Shown;
    var n := |word| - 1;
    assert word == word[..n] + [word[n]];
    NothingLeadsNowhere(c, s, i);
    if word[n] == CallCancel {
      BeginningLeadsTo(c, s, i, n - 1);
      StepLeadsTo(c, s, i, word[..n], Began(n - 1), CallCancel, InRun);
    } else {
      ShowingLeadsTo(c, s, i, word[..n]);
      StepLeadsTo(c, s, i, word[..n], AfterSet, UnlockWidget, InRun);
    }
  }

  // ---- The words, exactly ----

  lemma {:induction false} CallWordConcat(a: seq<Action>, b: seq<Action>, i: nat)
    ensures CallWord(a + b, i) == CallWord(a, i) + CallWord(b, i)
    decreases |a|
  {
    hide CallOf;
    if a == [] {
      assert a + b == b;
    } else {
      CallWordConcat(a[1..], b, i);
      assert (a + b)[1..] == a[1..] + b;
      Associative(CallOf(a[0], i), CallWord(a[1..], i), CallWord(b, i));
    }
  }

  lemma {:induction false} CallWordBy(i: nat, word: seq<WidgetAction>)
    ensures CallWord(By(i, word), i) == word
  {
    if word == [] {
    } else {
      CallWordBy(i, word[1..]);
      assert By(i, word)[1..] == By(i, word[1..]);
    }
  }

  predicate BeginsOnce(word: seq<WidgetAction>) {
    word != [] && word[0] == CallBegin && forall n | 1 <= n < |word| :: !Begins(word[n])
  }

  lemma {:induction false} LastCallWhole(before: seq<WidgetAction>, word: seq<WidgetAction>)
    requires BeginsOnce(word)
    ensures LastCall(before + word) == word
  {
    var n := |word| - 1;
    LastCallSnoc(before + word[..n], word[n]);
    assert before + word == before + word[..n] + [word[n]] && word == word[..n] + [word[n]];
    if n > 0 {
      LastCallWhole(before, word[..n]);
    }
  }

  lemma {:induction false} CalledBeginsOnce(word: seq<WidgetAction>, ok: bool)
    requires Called(word, [CbReturns(ok), LockBarlib])
    ensures BeginsOnce(word)
  {
    var n := |word| - 2;
    assert word == word[..n] + [CbReturns(ok), LockBarlib] && BeginsOnce(word[..n]);
  }

  lemma {:induction false} WholeBeginsOnce(word: seq<WidgetAction>)
    requires WholeCall(word)
    ensures BeginsOnce(word)
  {
    hide BeingCalled, Called;
    var n := |word| - 1;
    assert word == word[..n] + [word[n]];
    if word[n] == UnlockWidget {
      var before := word[..n - 1];
      assert word[..n][..n - 1] == before && word == before + [word[n - 1], word[n]];
      CalledBeginsOnce(before, Called(before, [CbReturns(true), LockBarlib]));
    }
  }

  /** A run from the start that brings the widget's thread here and does not end the program. */
  predicate IsRunTo(c: seq<Widget>, schedule: seq<Action>, i: nat, pc: WidgetPc)
    requires i < |c|
  {
    var s := Run(c, Init(c), schedule);
    s.Some? && !s.value.exited && s.value.pcs[i] == pc
  }

  /** What the last call of widget `i`'s thread can have consisted of, at the moments between two calls. */
  lemma {:induction false} CallWordsExactly(c: seq<Widget>, i: nat, word: seq<WidgetAction>)
    requires i < |c|
    ensures (exists schedule :: IsRunTo(c, schedule, i, InRun) && word != [] && LastCall(CallWord(schedule, i)) == word)
            <==> HasState(c[i]) && WholeCall(word)
  {
    hide WholeCall, LastCall;
    if HasState(c[i]) && WholeCall(word) {
      var schedule := WholeCallHappens(c, i, word);
    }
    forall schedule | IsRunTo(c, schedule, i, InRun) && word != [] && LastCall(CallWord(schedule, i)) == word
      ensures HasState(c[i]) && WholeCall(word)
    {
      ResultsAreShown(c, schedule, i);
      var s := Run(c, Init(c), schedule).value;
      ReachableInv(c, s);
      assert WidgetOk(c, s, i);
    }
  }

  lemma {:induction false} WholeCallHappens(c: seq<Widget>, i: nat, word: seq<WidgetAction>)
    returns (schedule: seq<Action>)
    requires i < |c| && HasState(c[i]) && WholeCall(word)
    ensures IsRunTo(c, schedule, i, InRun) && word != [] && LastCall(CallWord(schedule, i)) == word
  {
    hide WholeCall;
    var s := AllSpawned(c);
    var start :| Run(c, Init(c), start) == Some(s);
    WholeCallRuns(c, s, i, word);
    RunConcat(c, Init(c), start, By(i, word));
    CallWordConcat(start, By(i, word), i);
    CallWordBy(i, word);
    WholeBeginsOnce(word);
    LastCallWhole(CallWord(start, i), word);
    schedule := start + By(i, word);
  }
}
