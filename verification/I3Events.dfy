/**
 The i3 barlib's click-event watcher (barlibs/i3/event_watcher.c).

 JSON parser callbacks are flattened into a token list plus an array of strings; when an event object
 is complete, a recursive cursor walk rebuilds it on a Lua stack. This flattening machine is proved
 to refine the tree-building one of `I3Trees`.
 */
module I3Events {
  import opened Common
  import opened LuaVm
  import opened ParseInt
  import opened I3Trees

  /** include/barlib_data.h: free stack slots of a Lua state returned by call_begin(). */
  const FREE_SLOTS: nat := 15

  datatype Token =
    | TokArrayStart
    | TokArrayEnd
    | TokMapStart
    | TokMapEnd
    | TokKey(strIdx: nat)
    | TokString(strIdx: nat)
    | TokNumber(r: real)
    | TokBool(b: bool)
    | TokNull

  function DepthChange(t: Token): int {
    if t.TokArrayStart? || t.TokMapStart? then 1 else if t.TokArrayEnd? || t.TokMapEnd? then -1 else 0
  }

  /** Whether a token, together with the strings stored so far, represents a parser event. */
  predicate Denotes(t: Token, strs: seq<string>, e: Ev) {
    match e
    case ArrayStart => t == TokArrayStart
    case ArrayEnd => t == TokArrayEnd
    case MapStart => t == TokMapStart
    case MapEnd => t == TokMapEnd
    case StringKey(k) => t.TokKey? && t.strIdx < |strs| && strs[t.strIdx] == k
    case StringVal(s) => t.TokString? && t.strIdx < |strs| && strs[t.strIdx] == s
    case NumberVal(r) => t == TokNumber(r)
    case BoolVal(b) => t == TokBool(b)
    case NullVal => t == TokNull
  }

  /** What push_object() reads of a context. */
  datatype View = View(tokens: seq<Token>, strarr: seq<string>, maxi: nat)

  /** The tokens from index `idx` on represent `evs`. */
  ghost predicate Denoted(v: View, idx: nat, evs: seq<Ev>) {
    && idx + |evs| <= |v.tokens|
    && forall k | 0 <= k < |evs| :: Denotes(v.tokens[idx + k], v.strarr, evs[k])
  }

  /** Rebuilds the value that starts at token `idx` and pushes it. Fails only where the C code's
      assertion about the size of an array does. */
  method PushObject(L: LuaState, v: View, idx: nat, ghost j: Json, ghost bound: nat) returns (ok: bool, end: nat)
    requires Denoted(v, idx, Flat(j))
    requires |L.stack| + Depth(j) + 2 <= bound <= L.limit && L.peak <= bound
    modifies L
    ensures ok <==> ArraysFit(j, v.maxi)
    ensures ok ==> end == idx + |Flat(j)| && L.stack == old(L.stack) + [ToLua(j)]
    ensures L.peak <= bound
    decreases j, 1
  {
    ok, end := true, idx;
    assert Denotes(v.tokens[idx + 0], v.strarr, Flat(j)[0]);
    var t := v.tokens[idx];
    match t {
      case TokArrayStart =>
        assert j.JArr?;
        assert Flat(j)[1..] == FlatElems(j.elems) + [ArrayEnd];
        DenotedSuffix(v, idx, Flat(j), 1);
        ok, end := PushArray(L, v, idx + 1, j.elems, bound);
        if !ok {
          return;
        }
      case TokMapStart =>
        assert j.JObj?;
        assert Flat(j)[1..] == FlatEntries(j.entries) + [MapEnd];
        DenotedSuffix(v, idx, Flat(j), 1);
        ok, end := PushMap(L, v, idx + 1, j.entries, bound);
        if !ok {
          return;
        }
      case TokString(i) => L.Push(String(v.strarr[i]));
      case TokNumber(r) => L.Push(Number(r));
      case TokBool(b) => L.Push(Boolean(b));
      case TokNull => L.Push(Nil);
    }
    end := end + 1;
  }

  lemma {:induction false} DenotedSuffix(v: View, idx: nat, evs: seq<Ev>, n: nat)
    requires Denoted(v, idx, evs) && n <= |evs|
    ensures Denoted(v, idx + n, evs[n..])
  {
    forall k | 0 <= k < |evs| - n ensures Denotes(v.tokens[idx + n + k], v.strarr, evs[n..][k]) {
      assert Denotes(v.tokens[idx + (n + k)], v.strarr, evs[n + k]);
    }
  }

  /** Where the cursor stands in an array: at the closing token, or before an element. */
  lemma {:induction false} ElemsAt(v: View, idx: nat, rest: seq<Json>)
    requires Denoted(v, idx, FlatElems(rest) + [ArrayEnd])
    ensures idx < |v.tokens| && (v.tokens[idx] == TokArrayEnd <==> rest == [])
    ensures rest != [] ==>
              && Denoted(v, idx, Flat(rest[0]))
              && Denoted(v, idx + |Flat(rest[0])|, FlatElems(rest[1..]) + [ArrayEnd])
              && |FlatElems(rest)| == |Flat(rest[0])| + |FlatElems(rest[1..])|
  {
    var evs := FlatElems(rest) + [ArrayEnd];
    assert Denotes(v.tokens[idx + 0], v.strarr, evs[0]);
    if rest != [] {
      assert evs == Flat(rest[0]) + (FlatElems(rest[1..]) + [ArrayEnd]);
      DenotedPrefix(v, idx, Flat(rest[0]), FlatElems(rest[1..]) + [ArrayEnd]);
    }
  }

  lemma {:induction false} ArrayParts(elems: seq<Json>, maxi: nat)
    ensures ArraysFit(JArr(elems), maxi) <==> |elems| <= maxi && forall i | 0 <= i < |elems| :: ArraysFit(elems[i], maxi)
    ensures elems != [] ==> DepthOfElems(elems) == Max(Depth(elems[0]), DepthOfElems(elems[1..]))
    ensures ElemMap([]) == map[]
  {
  }

  /** One element of an array, stored at index `n`. */
  method PushElem(L: LuaState, v: View, idx: nat, n: nat, ghost rest: seq<Json>, ghost table: map<Key, Lua>,
                  ghost bound: nat)
    returns (ok: bool, end: nat)
    requires rest != [] && Denoted(v, idx, FlatElems(rest) + [ArrayEnd])
    requires L.stack != [] && L.stack[|L.stack| - 1] == Table(table)
    requires |L.stack| + Depth(rest[0]) + 2 <= bound <= L.limit && L.peak <= bound
    modifies L
    ensures ok <==> ArraysFit(rest[0], v.maxi) && n <= v.maxi
    ensures ok ==> Denoted(v, end, FlatElems(rest[1..]) + [ArrayEnd])
    ensures ok ==> end + |FlatElems(rest[1..])| == idx + |FlatElems(rest)|
    ensures ok ==>
              L.stack == old(L.stack)[..|old(L.stack)| - 1]
                         + [Table(SetEntry(table, IntKey(n), ToLua(rest[0])))]
    ensures L.peak <= bound
    decreases rest, 0
  {
    hide Flat, FlatElems, ToLua, Depth, Denoted, Denotes, ArraysFit, SetEntry;
    ElemsAt(v, idx, rest);
    ok, end := PushObject(L, v, idx, rest[0], bound);
    ok := ok && n <= v.maxi;
    if ok {
      L.RawSetI(n);
    }
  }

  /** The array case; `end` is the index of the closing token. */
  method PushArray(L: LuaState, v: View, idx: nat, ghost elems: seq<Json>, ghost bound: nat) returns (ok: bool, end: nat)
    requires Denoted(v, idx, FlatElems(elems) + [ArrayEnd])
    requires |L.stack| + DepthOfElems(elems) + 3 <= bound <= L.limit && L.peak <= bound
    modifies L
    ensures ok <==> ArraysFit(JArr(elems), v.maxi)
    ensures ok ==> end == idx + |FlatElems(elems)| && L.stack == old(L.stack) + [Table(ElemMap(elems))]
    ensures L.peak <= bound
    decreases elems, 1
  {
    hide Flat, FlatElems, ToLua, Denotes, Denoted, Depth, DepthOfElems, SetEntry, ElemMap, ArraysFit;
    L.Push(Table(map[]));
    ok, end := true, idx;
    ghost var rest: seq<Json> := elems;
    ElemsAt(v, end, rest);
    ArrayParts(elems, v.maxi);
    NoTokens();
    var n := 1;
    ghost var table: map<Key, Lua> := map[];
    assert elems[..0] == [];
    while v.tokens[end] != TokArrayEnd
      invariant end < |v.tokens| && (v.tokens[end] == TokArrayEnd <==> rest == [])
      invariant 1 <= n <= |elems| + 1 && rest == elems[n - 1..]
      invariant Denoted(v, end, FlatElems(rest) + [ArrayEnd])
      invariant end + |FlatElems(rest)| == idx + |FlatElems(elems)|
      invariant L.stack == old(L.stack) + [Table(table)] && table == ElemMap(elems[..n - 1])
      invariant DepthOfElems(rest) <= DepthOfElems(elems)
      invariant ok && L.peak <= bound
      invariant n <= v.maxi + 1 && forall i | 0 <= i < n - 1 :: ArraysFit(elems[i], v.maxi)
      decreases |rest|
    {
      ArrayParts(rest, v.maxi);
      assert rest[0] == elems[n - 1];
      ok, end := PushElem(L, v, end, n, rest, table, bound);
      if !ok {
        return;
      }
      table := SetEntry(table, IntKey(n), ToLua(rest[0]));
      ElemMapStep(elems, n);
      rest := rest[1..];
      n := n + 1;
      ElemsAt(v, end, rest);
    }
    assert elems[..n - 1] == elems;
  }

  lemma {:induction false} NoTokens()
    ensures FlatElems([]) == [] && FlatEntries([]) == []
  {
  }

  /** Where the cursor stands in an object: at the closing token, or at a key. */
  lemma {:induction false} EntriesAt(v: View, idx: nat, rest: seq<Entry>)
    requires Denoted(v, idx, FlatEntries(rest) + [MapEnd])
    ensures idx < |v.tokens| && (v.tokens[idx] == TokMapEnd <==> rest == [])
    ensures rest != [] ==>
              && Denotes(v.tokens[idx], v.strarr, StringKey(rest[0].key))
              && Denoted(v, idx + 1, Flat(rest[0].value))
              && Denoted(v, idx + 1 + |Flat(rest[0].value)|, FlatEntries(rest[1..]) + [MapEnd])
              && |FlatEntries(rest)| == 1 + |Flat(rest[0].value)| + |FlatEntries(rest[1..])|
  {
    hide Flat;
    var evs := FlatEntries(rest) + [MapEnd];
    assert Denotes(v.tokens[idx + 0], v.strarr, evs[0]);
    if rest != [] {
      var tail := FlatEntries(rest[1..]) + [MapEnd];
      assert evs == [StringKey(rest[0].key)] + (Flat(rest[0].value) + tail);
      DenotedPrefix(v, idx, [StringKey(rest[0].key)], Flat(rest[0].value) + tail);
      DenotedPrefix(v, idx + 1, Flat(rest[0].value), tail);
    }
  }

  /** The value on top goes into the table below it: the key is pushed last, then swapped with it. */
  method StoreUnderKey(L: LuaState, key: string, ghost table: map<Key, Lua>)
    requires 2 <= |L.stack| < L.limit && L.stack[|L.stack| - 2] == Table(table)
    modifies L
    ensures var h := |old(L.stack)| - 2;
      L.stack == old(L.stack)[..h] + [Table(SetEntry(table, StrKey(key), old(L.stack)[h + 1]))]
    ensures L.peak == Max(old(L.peak), |old(L.stack)| + 1)
  {
    L.Push(String(key));
    L.SwapTop();
    L.SetTable();
  }

  /** One entry of an object: the value is pushed before the key, to save a stack slot. */
  method PushEntry(L: LuaState, v: View, idx: nat, ghost rest: seq<Entry>, ghost table: map<Key, Lua>,
                   ghost bound: nat)
    returns (ok: bool, end: nat)
    requires rest != [] && Denoted(v, idx, FlatEntries(rest) + [MapEnd])
    requires L.stack != [] && L.stack[|L.stack| - 1] == Table(table)
    requires |L.stack| + Depth(rest[0].value) + 2 <= bound <= L.limit && L.peak <= bound
    modifies L
    ensures ok <==> ArraysFit(rest[0].value, v.maxi)
    ensures ok ==> Denoted(v, end, FlatEntries(rest[1..]) + [MapEnd])
    ensures ok ==> end + |FlatEntries(rest[1..])| == idx + |FlatEntries(rest)|
    ensures ok ==>
              L.stack == old(L.stack)[..|old(L.stack)| - 1]
                         + [Table(SetEntry(table, StrKey(rest[0].key), ToLua(rest[0].value)))]
    ensures L.peak <= bound
    decreases rest, 0
  {
    EntriesAt(v, idx, rest);
    var key := v.tokens[idx];
    assert key.TokKey? && v.strarr[key.strIdx] == rest[0].key;
    hide Flat, FlatEntries, ToLua, Depth, Denoted, Denotes, ArraysFit, SetEntry;
    ok, end := PushObject(L, v, idx + 1, rest[0].value, bound);
    if ok {
      StoreUnderKey(L, v.strarr[key.strIdx], table);
    }
  }

  lemma {:induction false} ObjectParts(entries: seq<Entry>, maxi: nat)
    ensures ArraysFit(JObj(entries), maxi) <==> forall i | 0 <= i < |entries| :: ArraysFit(entries[i].value, maxi)
    ensures entries != [] ==> DepthOfEntries(entries) == Max(Depth(entries[0].value), DepthOfEntries(entries[1..]))
    ensures EntryMap([]) == map[]
  {
  }

  /** The object case; `end` is the index of the closing token. */
  method PushMap(L: LuaState, v: View, idx: nat, ghost entries: seq<Entry>, ghost bound: nat) returns (ok: bool, end: nat)
    requires Denoted(v, idx, FlatEntries(entries) + [MapEnd])
    requires |L.stack| + DepthOfEntries(entries) + 3 <= bound <= L.limit && L.peak <= bound
    modifies L
    ensures ok <==> ArraysFit(JObj(entries), v.maxi)
    ensures ok ==> end == idx + |FlatEntries(entries)| && L.stack == old(L.stack) + [Table(EntryMap(entries))]
    ensures L.peak <= bound
    decreases entries, 1
  {
    hide Flat, FlatEntries, ToLua, Denotes, Denoted, Depth, DepthOfEntries, SetEntry, EntryMap, ArraysFit;
    L.Push(Table(map[]));
    ok, end := true, idx;
    ghost var rest: seq<Entry> := entries;
    EntriesAt(v, end, rest);
    ObjectParts(entries, v.maxi);
    NoTokens();
    assert entries[..0] == [];
    ghost var n := 0;
    ghost var table: map<Key, Lua> := map[];
    while v.tokens[end] != TokMapEnd
      invariant end < |v.tokens| && (v.tokens[end] == TokMapEnd <==> rest == [])
      invariant 0 <= n <= |entries| && rest == entries[n..]
      invariant Denoted(v, end, FlatEntries(rest) + [MapEnd])
      invariant end + |FlatEntries(rest)| == idx + |FlatEntries(entries)|
      invariant L.stack == old(L.stack) + [Table(table)] && table == EntryMap(entries[..n])
      invariant DepthOfEntries(rest) <= DepthOfEntries(entries)
      invariant ok && L.peak <= bound
      invariant forall i | 0 <= i < n :: ArraysFit(entries[i].value, v.maxi)
      decreases |rest|
    {
      ObjectParts(rest, v.maxi);
      assert rest[0] == entries[n];
      ok, end := PushEntry(L, v, end, rest, table, bound);
      if !ok {
        return;
      }
      table := SetEntry(table, StrKey(rest[0].key), ToLua(rest[0].value));
      EntryMapStep(entries, n);
      rest := rest[1..];
      n := n + 1;
      EntriesAt(v, end, rest);
    }
    assert entries[..n] == entries;
  }

  /** The argument of an event() call, built in a fresh part of a Lua stack. */
  method RebuildEvent(v: View, ghost entries: seq<Entry>) returns (ok: bool, arg: Lua, ghost used: nat)
    requires Denoted(v, 0, Flat(JObj(entries))) && |v.tokens| == |Flat(JObj(entries))|
    requires Depth(JObj(entries)) < DEPTH_LIMIT
    ensures ok <==> ArraysFit(JObj(entries), v.maxi)
    ensures ok ==> arg == ToLua(JObj(entries))
    ensures used <= DEPTH_LIMIT + 1
  {
    var L := new LuaState(FREE_SLOTS);
    var end;
    ok, end := PushObject(L, v, 0, JObj(entries), DEPTH_LIMIT + 1);
    used := L.peak;
    arg := Nil;
    if ok {
      assert end == |v.tokens|;
      arg := L.stack[0];
    }
  }

  lemma {:induction false} DenotedPrefix(v: View, idx: nat, a: seq<Ev>, b: seq<Ev>)
    requires Denoted(v, idx, a + b)
    ensures Denoted(v, idx, a) && Denoted(v, idx + |a|, b)
  {
    DenotedSuffix(v, idx, a + b, |a|);
    assert (a + b)[|a|..] == b;
    forall k | 0 <= k < |a| ensures Denotes(v.tokens[idx + k], v.strarr, a[k]) {
      assert (a + b)[k] == a[k];
    }
  }

  /** What the current widget and the flag about the last key must be for given frames. */
  predicate NameFits(widget: int, lastKeyIsName: bool, frames: seq<Frame>) {
    if frames == [] then widget == -1 && !lastKeyIsName
    else
      && !frames[0].InArray?
      && widget == WidgetOf(frames[0].entries)
      && (frames[0].AtValue? ==> (lastKeyIsName <==> frames[0].key == "name"))
  }

  lemma {:induction false} NameNext(frames: seq<Frame>, e: Ev, widget: int, lastKeyIsName: bool)
    requires WellNested(frames) && Accepts(frames, e) && (frames == [] ==> e.MapStart?)
    requires !Completes(frames, e)
    requires NameFits(widget, lastKeyIsName,
                      if e.StringVal? || e.StringKey? then NextFrames(frames, e) else frames)
    ensures NameFits(widget, lastKeyIsName, NextFrames(frames, e))
  {
    if frames != [] {
      NextWidget(frames, e);
    }
  }

  lemma {:induction false} TokensNext(v: View, frames: seq<Frame>, t: Token, e: Ev)
    requires WellNested(frames) && Accepts(frames, e) && Shallow(frames)
    requires (frames == [] ==> e.MapStart?) && (IsOpening(e) ==> |frames| + 1 < DEPTH_LIMIT)
    requires !Completes(frames, e)
    requires |v.tokens| == |FlatFrames(frames)| && Denoted(v, 0, FlatFrames(frames)) && Denotes(t, v.strarr, e)
    ensures var v', next := v.(tokens := v.tokens + [t]), NextFrames(frames, e);
      && |v'.tokens| == |FlatFrames(next)| && Denoted(v', 0, FlatFrames(next)) && Shallow(next)
      && |next| == |frames| + (if IsOpening(e) then 1 else if e.ArrayEnd? || e.MapEnd? then -1 else 0)
  {
    NextFlat(frames, e);
    DenotedSnoc(v, FlatFrames(frames), t, e);
  }

  /** The token kept tells as much about the nesting as the event did. */
  lemma {:induction false} TokenKind(frames: seq<Frame>, t: Token, strs: seq<string>, e: Ev)
    requires WellNested(frames) && Accepts(frames, e) && Denotes(t, strs, e)
    ensures t == TokMapStart <==> e.MapStart?
    ensures DepthChange(t) > 0 <==> IsOpening(e)
    ensures DepthChange(t) < 0 <==> e.ArrayEnd? || e.MapEnd?
    ensures frames != [] ==> (DepthChange(t) < 0 && |frames| + DepthChange(t) == 0 <==> Completes(frames, e))
  {
  }

  lemma {:induction false} TokensComplete(v: View, frames: seq<Frame>, t: Token, e: Ev)
    requires WellNested(frames) && Accepts(frames, e) && Shallow(frames) && Completes(frames, e)
    requires |v.tokens| == |FlatFrames(frames)| && Denoted(v, 0, FlatFrames(frames)) && Denotes(t, v.strarr, e)
    ensures var v', event := v.(tokens := v.tokens + [t]), JObj(frames[0].entries);
      && |v'.tokens| == |Flat(event)| && Denoted(v', 0, Flat(event)) && Depth(event) < DEPTH_LIMIT
    ensures FlatFrames([]) == []
  {
    CompleteFlat(frames, e);
    DenotedSnoc(v, FlatFrames(frames), t, e);
  }

  class Context {
    var depth: int
    var lastKeyIsName: bool
    var strarr: seq<string>
    var tokens: seq<Token>
    var widget: int
    /** The event() calls made through the functions the barlib was given. */
    var calls: seq<(nat, Lua)>
    const config: Config
    /** The tree-building machine this one refines. */
    ghost var w: Watcher
    /** The largest number of Lua stack slots used by one event. */
    ghost var slotsUsed: nat

    constructor (config: Config)
      ensures Valid() && w == INITIAL && this.config == config
    {
      depth, lastKeyIsName, strarr, tokens, widget := -1, false, [], [], -1;
      calls := [];
      this.config := config;
      w, slotsUsed := INITIAL, 0;
    }

    ghost predicate NameOk(frames: seq<Frame>)
      reads this
    {
      NameFits(widget, lastKeyIsName, frames)
    }

    function Here(): View
      reads this
    {
      View(tokens, strarr, config.maxi)
    }

    ghost predicate TokensOk()
      reads this
    {
      && w.status.Running?
      && WellNested(w.frames) && Shallow(w.frames)
      && depth == (if w.started then |w.frames| else -1)
      && (!w.started ==> w.frames == [])
      && |tokens| == |FlatFrames(w.frames)| && Denoted(Here(), 0, FlatFrames(w.frames))
    }

    /** While running, the context is the flat form of the trees under construction; between two
        events it is as fresh as the initial one. An event never needs more than 11 stack slots. */
    ghost predicate Valid()
      reads this
    {
      && calls == w.calls && WellNested(w.frames)
      && slotsUsed <= DEPTH_LIMIT + 1
      && (w.status.Running? ==>
            TokensOk() && NameOk(w.frames) && (w.frames == [] ==> strarr == []))
    }

    /** One parser callback. Returns false to make the parser stop. */
    method Feed(e: Ev) returns (ok: bool)
      requires Valid() && w.status.Running? && CanStep(w, e)
      modifies this
      ensures w == Step(config, old(w), e) && Valid()
      ensures ok <==> w.status.Running?
    {
      match e {
        case StringVal(s) => ok := CallbackString(s);
        case StringKey(s) => ok := CallbackMapKey(s);
        case NullVal => ok := TokenHelper(TokNull, e);
        case BoolVal(b) => ok := TokenHelper(TokBool(b), e);
        case NumberVal(r) => ok := TokenHelper(TokNumber(r), e);
        case MapStart => ok := TokenHelper(TokMapStart, e);
        case MapEnd => ok := TokenHelper(TokMapEnd, e);
        case ArrayStart => ok := TokenHelper(TokArrayStart, e);
        case ArrayEnd => ok := TokenHelper(TokArrayEnd, e);
      }
    }

    method CallbackString(s: string) returns (ok: bool)
      requires Valid() && w.status.Running? && CanStep(w, StringVal(s))
      modifies this
      ensures w == Step(config, old(w), StringVal(s)) && Valid()
      ensures ok <==> w.status.Running?
    {
      hide NextFrames, FlatFrames, WidgetOf, Denoted, Step, Dispatch;
      DenotedMoreStrings(Here(), FlatFrames(w.frames), s);
      if w.frames != [] {
        NextWidget(w.frames, StringVal(s));
      }
      if depth == 1 && lastKeyIsName {
        widget := FullStrtouB(s);
      }
      strarr := strarr + [s];
      ok := TokenHelper(TokString(|strarr| - 1), StringVal(s));
    }

    method CallbackMapKey(s: string) returns (ok: bool)
      requires Valid() && w.status.Running? && CanStep(w, StringKey(s))
      modifies this
      ensures w == Step(config, old(w), StringKey(s)) && Valid()
      ensures ok <==> w.status.Running?
    {
      hide NextFrames, FlatFrames, WidgetOf, Denoted, Step, Dispatch;
      DenotedMoreStrings(Here(), FlatFrames(w.frames), s);
      if w.frames != [] {
        NextWidget(w.frames, StringKey(s));
      }
      if depth == 1 {
        lastKeyIsName := s == "name";
      }
      strarr := strarr + [s];
      ok := TokenHelper(TokKey(|strarr| - 1), StringKey(s));
    }

    method Flush(ghost entries: seq<Entry>) returns (ok: bool)
      requires Denoted(Here(), 0, Flat(JObj(entries))) && |tokens| == |Flat(JObj(entries))|
      requires widget == WidgetOf(entries) && Depth(JObj(entries)) < DEPTH_LIMIT
      requires calls == w.calls && slotsUsed <= DEPTH_LIMIT + 1 && w.status.Running?
      modifies this
      ensures w == old(w) && depth == old(depth) && slotsUsed <= DEPTH_LIMIT + 1
      ensures calls == Dispatch(config, w, entries).calls
      ensures ok <==> Dispatch(config, w, entries).status.Running?
      ensures ok ==> !lastKeyIsName && strarr == [] && tokens == [] && widget == -1
    {
      ok := true;
      if widget >= 0 && widget < config.nwidgets {
        var arg;
        ghost var used;
        ok, arg, used := RebuildEvent(Here(), entries);
        slotsUsed := Max(slotsUsed, used);
        if !ok {
          return;
        }
        calls := calls + [(widget, arg)];
      }
      lastKeyIsName, strarr, tokens, widget := false, [], [], -1;
    }

    /** The state before token_helper() is entered: a string has already been stored and looked at. */
    ghost predicate Ready(e: Ev)
      reads this
    {
      && TokensOk() && CanStep(w, e)
      && calls == w.calls && slotsUsed <= DEPTH_LIMIT + 1
      && if w.frames == [] then e.StringVal? || e.StringKey? || (NameOk([]) && strarr == [])
         else NameOk(if e.StringVal? || e.StringKey? then NextFrames(w.frames, e) else w.frames)
    }

    /** Returns false to make the parser stop. */
    method TokenHelper(token: Token, ghost e: Ev) returns (ok: bool)
      requires Ready(e) && Denotes(token, strarr, e)
      modifies this
      ensures w == Step(config, old(w), e) && Valid()
      ensures ok <==> w.status.Running?
    {
      hide NextFrames, FlatFrames, WidgetOf, ToLua, ArraysFit, Denoted;
      ghost var next := Step(config, w, e);
      if depth == -1 {
        ok := token == TokArrayStart;
        if ok {
          depth := depth + 1;
        }
      } else if depth == 0 && token != TokMapStart {
        ok := false;
      } else {
        ok := TakeToken(token, e);
      }
      w := next;
    }

    /** The part of token_helper() that stores a token and keeps track of the depth. */
    method TakeToken(token: Token, ghost e: Ev) returns (ok: bool)
      requires Ready(e) && Denotes(token, strarr, e)
      requires w.started && (w.frames == [] ==> token == TokMapStart)
      modifies this
      ensures w == old(w)
      ensures ok <==> Step(config, w, e).status.Running?
      ensures calls == Step(config, w, e).calls && slotsUsed <= DEPTH_LIMIT + 1
      ensures ok ==> Shallow(Step(config, w, e).frames)
      ensures ok ==> Tracks(Step(config, w, e).frames)
    {
      hide NextFrames, FlatFrames, Denotes, WidgetOf, ToLua, Flat;
      TokenKind(w.frames, token, strarr, e);
      ghost var frames := w.frames;
      if Completes(w.frames, e) {
        TokensComplete(Here(), w.frames, token, e);
      } else if !IsOpening(e) || |w.frames| + 1 < DEPTH_LIMIT {
        TokensNext(Here(), w.frames, token, e);
        NameNext(w.frames, e, widget, lastKeyIsName);
      }
      var complete;
      ok, complete := StoreToken(token);
      if complete {
        assert Completes(frames, e);
        ok := Flush(frames[0].entries);
        assert ok ==> Step(config, w, e).frames == [];
      } else if ok {
        ghost var next := NextFrames(frames, e);
        assert |tokens| == |FlatFrames(next)| && Denoted(Here(), 0, FlatFrames(next));
        assert depth == |next| && next != [];
        assert NameFits(widget, lastKeyIsName, next);
        assert Tracks(next);
        assert Step(config, w, e) == w.(frames := next);
      }
    }

    method StoreToken(token: Token) returns (ok: bool, complete: bool)
      modifies this`tokens, this`depth
      ensures Here() == old(Here()).(tokens := old(tokens) + [token])
      ensures depth == old(depth) + DepthChange(token)
      ensures ok <==> DepthChange(token) <= 0 || depth < DEPTH_LIMIT
      ensures complete <==> DepthChange(token) < 0 && depth == 0
    {
      tokens := tokens + [token];
      ok, complete := true, false;
      match token {
        case TokArrayStart =>
          depth := depth + 1;
          ok := depth < DEPTH_LIMIT;
        case TokMapStart =>
          depth := depth + 1;
          ok := depth < DEPTH_LIMIT;
        case TokArrayEnd =>
          depth := depth - 1;
          complete := depth == 0;
        case TokMapEnd =>
          depth := depth - 1;
          complete := depth == 0;
        case _ =>
      }
    }

    /** The fields represent these frames. */
    ghost predicate Tracks(frames: seq<Frame>)
      reads this
    {
      && depth == |frames|
      && |tokens| == |FlatFrames(frames)| && Denoted(Here(), 0, FlatFrames(frames))
      && NameOk(frames)
      && (frames == [] ==> strarr == [])
    }
  }

  lemma {:induction false} DenotedSnoc(v: View, evs: seq<Ev>, t: Token, e: Ev)
    requires Denoted(v, 0, evs) && |v.tokens| == |evs| && Denotes(t, v.strarr, e)
    ensures Denoted(v.(tokens := v.tokens + [t]), 0, evs + [e])
  {
    forall k | 0 <= k < |evs| ensures Denotes(v.tokens[k], v.strarr, evs[k]) {
      assert Denotes(v.tokens[0 + k], v.strarr, evs[k]);
    }
  }

  lemma {:induction false} DenotedMoreStrings(v: View, evs: seq<Ev>, s: string)
    requires Denoted(v, 0, evs)
    ensures Denoted(v.(strarr := v.strarr + [s]), 0, evs)
  {
    forall k | 0 <= k < |evs| ensures Denotes(v.tokens[k], v.strarr + [s], evs[k]) {
      assert Denotes(v.tokens[0 + k], v.strarr, evs[k]);
    }
  }

  /** event_watcher(), given the callbacks the parser makes. */
  method EventWatcher(config: Config, evs: seq<Ev>) returns (calls: seq<(nat, Lua)>, ok: bool)
    requires Accepted(config, INITIAL, evs)
    ensures calls == Run(config, INITIAL, evs).calls
    ensures ok <==> Run(config, INITIAL, evs).status.Running?
  {
    hide Step, CanStep;
    var ctx := new Context(config);
    ok := true;
    var i := 0;
    while i < |evs| && ok
      invariant 0 <= i <= |evs| && ctx.config == config && fresh(ctx)
      invariant ctx.Valid() && WellNested(ctx.w.frames) && (ok <==> ctx.w.status.Running?)
      invariant Accepted(config, ctx.w, evs[i..])
      invariant Run(config, ctx.w, evs[i..]) == Run(config, INITIAL, evs)
    {
      assert evs[i..][0] == evs[i] && evs[i..][1..] == evs[i + 1..];
      ok := ctx.Feed(evs[i]);
      i := i + 1;
    }
    calls := ctx.calls;
  }

  /** The event watcher on a stream of JSON values, of which any part has been delivered: it makes exactly the calls
      that the complete ones make, each on its own, up to the first one that stops it. */
  method WatchStream(config: Config, evs: seq<Ev>, ghost elems: seq<Json>) returns (calls: seq<(nat, Lua)>, ok: bool)
    requires evs <= [ArrayStart] + FlatElems(elems)
    ensures var n, bad := Complete(elems, Body(evs)), FirstBad(config, elems);
      && calls == CallsFor(config, elems[..Min(n, bad)]) && Delivers(config, calls, elems[..Min(n, bad)])
      && (n < bad || n == |elems| == bad ==> ok) && (bad < n ==> !ok)
  {
    hide *;
    WholeRun(config, elems, evs);
    calls, ok := EventWatcher(config, evs);
  }
}
