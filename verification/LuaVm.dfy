/** The part of a Lua interpreter the modelled code relies on: values, tables of values, and a value
    stack with a guaranteed number of slots. */
module LuaVm {
  import opened Common

  datatype Key = IntKey(n: nat) | StrKey(s: string)

  datatype Lua =
    | Nil
    | Boolean(b: bool)
    | Number(r: real)
    | String(s: string)
    | Table(entries: map<Key, Lua>)
    | Closure(upvalues: seq<Lua>)

  /** Assigning nil to a table entry removes it. */
  function SetEntry(t: map<Key, Lua>, k: Key, v: Lua): map<Key, Lua> {
    if v.Nil? then t - {k} else t[k := v]
  }

  /** What a Lua program gets by indexing with the keys of a path one after the other. */
  function Get(l: Lua, path: seq<Key>): Lua {
    if path == [] then l
    else if l.Table? && path[0] in l.entries then Get(l.entries[path[0]], path[1..])
    else Nil
  }

  lemma {:induction false} NowhereToGo(path: seq<Key>)
    ensures Get(Nil, path) == Nil
  {
  }

  class LuaState {
    var stack: seq<Lua>
    /** The stack may not grow beyond this; see lua_checkstack(). */
    const limit: nat
    /** The largest height the stack has had. */
    ghost var peak: nat

    constructor (limit: nat)
      ensures stack == [] && peak == 0 && this.limit == limit
    {
      stack, peak := [], 0;
      this.limit := limit;
    }

    method Push(v: Lua)
      requires |stack| < limit
      modifies this
      ensures stack == old(stack) + [v]
      ensures peak == Max(old(peak), |stack|)
    {
      stack := stack + [v];
      peak := Max(peak, |stack|);
    }

    /** lua_rawseti(L, -2, n) */
    method RawSetI(n: nat)
      requires |stack| >= 2 && stack[|stack| - 2].Table?
      modifies this`stack
      ensures var h := |old(stack)| - 2;
        stack == old(stack)[..h] + [Table(SetEntry(old(stack)[h].entries, IntKey(n), old(stack)[h + 1]))]
    {
      var h := |stack| - 2;
      stack := stack[..h] + [Table(SetEntry(stack[h].entries, IntKey(n), stack[h + 1]))];
    }

    /** lua_insert(L, -2) */
    method SwapTop()
      requires |stack| >= 2
      modifies this`stack
      ensures var h := |old(stack)| - 2;
        stack == old(stack)[..h] + [old(stack)[h + 1], old(stack)[h]]
    {
      var h := |stack| - 2;
      stack := stack[..h] + [stack[h + 1], stack[h]];
    }

    /** lua_settable(L, -3) with a string key */
    method SetTable()
      requires |stack| >= 3 && stack[|stack| - 3].Table? && stack[|stack| - 2].String?
      modifies this`stack
      ensures var h := |old(stack)| - 3;
        stack == old(stack)[..h]
              + [Table(SetEntry(old(stack)[h].entries, StrKey(old(stack)[h + 1].s), old(stack)[h + 2]))]
    {
      var h := |stack| - 3;
      stack := stack[..h] + [Table(SetEntry(stack[h].entries, StrKey(stack[h + 1].s), stack[h + 2]))];
    }

    /** lua_pushcclosure(): the top `n` values become the upvalues of a new closure. */
    method PushClosure(n: nat)
      requires 1 <= n <= |stack|
      modifies this`stack
      ensures stack == old(stack)[..|old(stack)| - n] + [Closure(old(stack)[|old(stack)| - n..])]
    {
      stack := stack[..|stack| - n] + [Closure(stack[|stack| - n..])];
    }
  }
}
