/**
 The coalescing queue of the multiplex plugin (plugins/multiplex/conq.c): producers overwrite slots and
 mark them in a 64-bit mask; the consumer sleeps until the mask is non-zero, copies the marked slots
 and clears the mask.
 */
module CoalescingQueue {

  // ---- The mask ----

  const MAX_SLOTS: nat := 64

  /** uint64_t */
  type Mask = m: nat | m < 0x1_0000_0000_0000_0000

  function Pow2(n: nat): nat {
    if n == 0 then 1 else 2 * Pow2(n - 1)
  }

  /** (m >> i) & 1 */
  predicate Bit(m: nat, i: nat) {
    if i == 0 then m % 2 == 1 else Bit(m / 2, i - 1)
  }

  /** m | (1 << i) */
  function SetBit(m: nat, i: nat): nat {
    if i == 0 then m / 2 * 2 + 1 else SetBit(m / 2, i - 1) * 2 + m % 2
  }

  lemma {:induction false} SetBitFits(m: nat, i: nat, n: nat)
    requires m < Pow2(n) && i < n
    ensures SetBit(m, i) < Pow2(n)
  {
    hide Bit;
    assert Pow2(n) == 2 * Pow2(n - 1);
    if i == 0 {
      EvenBound(m, Pow2(n - 1));
    } else {
      assert m / 2 < Pow2(n - 1);
      SetBitFits(m / 2, i - 1, n - 1);
    }
  }

  lemma {:induction false} EvenBound(m: nat, k: nat)
    requires m < 2 * k
    ensures m + 1 - m % 2 < 2 * k
  {
  }

  lemma {:induction false} BitOfSetBit(m: nat, i: nat, j: nat)
    ensures Bit(SetBit(m, i), j) <==> i == j || Bit(m, j)
  {
    if i == 0 || j == 0 {
    } else {
      BitOfSetBit(m / 2, i - 1, j - 1);
    }
  }

  lemma {:induction false} ZeroHasNoBit(i: nat)
    ensures !Bit(0, i)
  {
    if i == 0 {
    } else {
      ZeroHasNoBit(i - 1);
    }
  }

  lemma {:induction false} Pow2Of64()
    ensures Pow2(MAX_SLOTS) == 0x1_0000_0000_0000_0000
  {
    assert Pow2(4) == 0x10;
    Pow2Sum(4, 4);
    Pow2Sum(8, 8);
    Pow2Sum(16, 16);
    Pow2Sum(32, 32);
  }

  lemma {:induction false} Pow2Sum(a: nat, b: nat)
    ensures Pow2(a + b) == Pow2(a) * Pow2(b)
  {
    if a == 0 {
    } else {
      Pow2Sum(a - 1, b);
      assert a + b - 1 == a - 1 + b;
    }
  }

  // ---- The queue as a value ----

  datatype SlotState = Empty | NilValue | HasValue | ErrorPluginDone | ErrorLuaErr | ErrorBadType

  datatype Slot = Slot(text: string, state: SlotState)

  const EMPTY_SLOT := Slot("", Empty)

  datatype Queue = Queue(slots: seq<Slot>, mask: Mask)

  predicate QueueOk(q: Queue) {
    |q.slots| <= MAX_SLOTS
  }

  function Created(n: nat): Queue {
    Queue(seq(n, i => EMPTY_SLOT), 0)
  }

  /** What an update does: nothing if the slot already is so. */
  function Updated(q: Queue, i: nat, slot: Slot): (r: Queue)
    requires QueueOk(q) && i < |q.slots|
    ensures QueueOk(r) && |r.slots| == |q.slots|
  {
    Pow2Of64();
    SetBitFits(q.mask, i, MAX_SLOTS);
    if q.slots[i] == slot then q else Queue(q.slots[i := slot], SetBit(q.mask, i))
  }

  class Conq {
    var texts: array<string>
    var states: array<SlotState>
    var mask: Mask

    ghost predicate Valid()
      reads this, texts, states
    {
      texts.Length == states.Length <= MAX_SLOTS
    }

    ghost function View(): Queue
      reads this, texts, states
      requires Valid()
    {
      Queue(seq(texts.Length, i requires 0 <= i < texts.Length reads this, texts, states requires Valid()
                  => Slot(texts[i], states[i])), mask)
    }

    constructor (nslots: nat)
      requires nslots <= MAX_SLOTS
      ensures Valid() && View() == Created(nslots) && fresh(texts) && fresh(states)
    {
      texts := new string[nslots](_ => "");
      states := new SlotState[nslots](_ => Empty);
      mask := 0;
    }

    /** conq_update_slot(); `signal` tells whether the consumer has to be woken up. */
    method UpdateSlot(i: nat, text: string, state: SlotState) returns (signal: bool)
      requires Valid() && i < texts.Length
      modifies this`mask, texts, states
      ensures Valid() && View() == Updated(old(View()), i, Slot(text, state))
      ensures signal <==> old(View()).slots[i] != Slot(text, state)
    {
      if texts[i] == text && states[i] == state {
        return false;
      }
      texts[i] := text;
      states[i] := state;
      Pow2Of64();
      SetBitFits(mask, i, MAX_SLOTS);
      mask := SetBit(mask, i);
      signal := true;
    }

    /** conq_fetch_updates() after the wait. */
    method FetchUpdates(outTexts: array<string>, outStates: array<SlotState>) returns (m: Mask)
      requires Valid() && outTexts.Length == outStates.Length == texts.Length
      requires outTexts != texts && outStates != states
      modifies this`mask, outTexts, outStates
      ensures Valid() && View() == old(View()).(mask := 0) && m == old(mask)
      ensures forall i: nat | i < outTexts.Length ::
                Slot(outTexts[i], outStates[i]) == if Bit(m, i) then old(View()).slots[i]
                                                   else old(Slot(outTexts[i], outStates[i]))
    {
      m := mask;
      for i := 0 to texts.Length
        invariant Valid() && View() == old(View())
        invariant forall j: nat | j < i ::
                    Slot(outTexts[j], outStates[j]) == if Bit(m, j) then View().slots[j]
                                                       else old(Slot(outTexts[j], outStates[j]))
        invariant forall j: nat | i <= j < outTexts.Length ::
                    Slot(outTexts[j], outStates[j]) == old(Slot(outTexts[j], outStates[j]))
      {
        if Bit(m, i) {
          outTexts[i] := texts[i];
          outStates[i] := states[i];
        }
      }
      mask := 0;
    }
  }
}
