/**
 What the multiplex plugin (plugins/multiplex/multiplex.c) puts into its queue and what it makes of what
 it takes out.
 */
module Multiplex {
  import opened LuaVm
  import opened CoalescingQueue

  /** Why the callback of a data source's runner is called. */
  datatype Reason = NewData(value: Lua) | LuaError | PluginExited

  function Received(r: Reason): Slot {
    match r
    case NewData(Nil) => Slot("", NilValue)
    case NewData(String(s)) => Slot(s, HasValue)
    case NewData(_) => Slot("", ErrorBadType)
    case LuaError => Slot("", ErrorLuaErr)
    case PluginExited => Slot("", ErrorPluginDone)
  }

  method RecvCallback(q: Conq, i: nat, r: Reason) returns (signal: bool)
    requires q.Valid() && i < q.texts.Length
    modifies q`mask, q.texts, q.states
    ensures q.Valid() && q.View() == Updated(old(q.View()), i, Received(r))
    ensures signal <==> old(q.View()).slots[i] != Received(r)
  {
    match r {
      case NewData(v) =>
        if v.Nil? {
          signal := q.UpdateSlot(i, "", NilValue);
        } else if v.String? {
          signal := q.UpdateSlot(i, v.s, HasValue);
        } else {
          signal := q.UpdateSlot(i, "", ErrorBadType);
        }
      case LuaError =>
        signal := q.UpdateSlot(i, "", ErrorLuaErr);
      case PluginExited =>
        signal := q.UpdateSlot(i, "", ErrorPluginDone);
    }
  }

  /** push_update() */
  function Pushed(slot: Slot): Lua {
    match slot.state
    case Empty => Nil
    case NilValue => Boolean(false)
    case HasValue => String(slot.text)
    case ErrorPluginDone => Number(64.0)
    case ErrorLuaErr => Number(65.0)
    case ErrorBadType => Number(66.0)
  }

  /** Whatever a data source produced shows in the "updates" table, and different results show
      differently, except that all values of a bad type look the same. */
  lemma {:induction false} ResultsShow(a: Reason, b: Reason)
    ensures Received(a).state != Empty && Pushed(Received(a)) != Nil
    ensures Pushed(Received(a)) == Pushed(Received(b)) <==>
            a == b || (a.NewData? && b.NewData? && !(a.value.Nil? || a.value.String?)
                       && !(b.value.Nil? || b.value.String?))
  {
  }

  /** What the "updates" table holds for a data source, as the plugin's documentation lists it: its string, false for
      nil, or the code of an error. */
  lemma {:induction false} ResultsAreDocumented(value: Lua)
    ensures value.String? ==> Pushed(Received(NewData(value))) == value
    ensures value == Nil ==> Pushed(Received(NewData(value))) == Boolean(false)
    ensures Pushed(Received(PluginExited)) == Number(64.0)
    ensures Pushed(Received(LuaError)) == Number(65.0)
    ensures !value.String? && value != Nil ==> Pushed(Received(NewData(value))) == Number(66.0)
  {
  }

  predicate Distinct(names: seq<string>) {
    forall i, j | 0 <= i < j < |names| :: names[i] != names[j]
  }

  /** check_wspecs() */
  method CheckWspecs(names: seq<string>) returns (ok: bool)
    ensures ok <==> 1 <= |names| <= MAX_SLOTS && Distinct(names)
  {
    if |names| == 0 || |names| > MAX_SLOTS {
      return false;
    }
    for i := 0 to |names|
      invariant Distinct(names[..i])
    {
      for j := 0 to i
        invariant forall k | 0 <= k < j :: names[k] != names[i]
      {
        if names[i] == names[j] {
          return false;
        }
      }
    }
    assert names[..|names|] == names;
    ok := true;
  }

  /** Whether a slot shows in the "updates" table: it is marked, and not in its initial state. */
  predicate Shows(mask: Mask, i: nat, slot: Slot) {
    Bit(mask, i) && slot.state != Empty
  }

  /** make_call_update(): the "updates" table has one entry for every slot that shows, and no others. */
  method MakeUpdates(names: seq<string>, mask: Mask, texts: array<string>, states: array<SlotState>)
    returns (t: map<Key, Lua>)
    requires Distinct(names) && |names| == texts.Length == states.Length
    ensures forall k: Key | k in t :: exists i: nat ::
              i < |names| && Shows(mask, i, Slot(texts[i], states[i])) && k == StrKey(names[i])
    ensures forall i: nat | i < |names| && Shows(mask, i, Slot(texts[i], states[i])) ::
              StrKey(names[i]) in t && t[StrKey(names[i])] == Pushed(Slot(texts[i], states[i]))
  {
    t := map[];
    for i := 0 to |names|
      invariant forall k: Key | k in t :: exists j: nat ::
                  j < i && Shows(mask, j, Slot(texts[j], states[j])) && k == StrKey(names[j])
      invariant forall j: nat | j < i && Shows(mask, j, Slot(texts[j], states[j])) ::
                  StrKey(names[j]) in t && t[StrKey(names[j])] == Pushed(Slot(texts[j], states[j]))
    {
      if Bit(mask, i) {
        t := SetEntry(t, StrKey(names[i]), Pushed(Slot(texts[i], states[i])));
      }
    }
  }

  /** One round of the consumer: what was marked is in the table, as it was in the queue. */
  method ConsumerRound(q: Conq, names: seq<string>, texts: array<string>, states: array<SlotState>)
    returns (t: map<Key, Lua>)
    requires q.Valid() && Distinct(names) && |names| == texts.Length == states.Length == q.texts.Length
    requires texts != q.texts && states != q.states
    modifies q`mask, texts, states
    ensures q.Valid() && q.View() == old(q.View()).(mask := 0)
    ensures forall i: nat | i < |names| ::
              (StrKey(names[i]) in t <==> Shows(old(q.mask), i, q.View().slots[i]))
              && (StrKey(names[i]) in t ==> t[StrKey(names[i])] == Pushed(q.View().slots[i]))
    ensures forall i: nat | i < |names| :: Slot(texts[i], states[i])
              == if Bit(old(q.mask), i) then q.View().slots[i] else old(Slot(texts[i], states[i]))
  {
    var m := q.FetchUpdates(texts, states);
    assert forall i: nat | i < |names| && Bit(m, i) :: Slot(texts[i], states[i]) == q.View().slots[i];
    t := MakeUpdates(names, m, texts, states);
  }
}
