/**
 What the i3 barlib's click-event watcher (barlibs/i3/event_watcher.c) does, said without tokens: a
 machine that keeps the JSON trees under construction and hands every complete event object to the
 widget it names.
 */
module I3Trees {
  import opened Common
  import opened Wrappers
  import opened LuaVm
  import opened ParseInt

  const DEPTH_LIMIT: nat := 10

  // ---- JSON values and what they denote in Lua ----

  datatype Entry = Entry(key: string, value: Json)

  datatype Json =
    | JNull
    | JBool(b: bool)
    | JNum(r: real)
    | JStr(s: string)
    | JArr(elems: seq<Json>)
    | JObj(entries: seq<Entry>)

  /** The Lua value of a JSON value. */
  ghost function ToLua(j: Json): Lua
    decreases j, 1
  {
    match j
    case JNull => Nil
    case JBool(b) => Boolean(b)
    case JNum(r) => Number(r)
    case JStr(s) => String(s)
    case JArr(elems) => Table(ElemMap(elems))
    case JObj(entries) => Table(EntryMap(entries))
  }

  ghost function ElemMap(elems: seq<Json>): map<Key, Lua>
    decreases elems, 0
  {
    var n := |elems|;
    if n == 0 then map[] else SetEntry(ElemMap(elems[..n - 1]), IntKey(n), ToLua(elems[n - 1]))
  }

  ghost function EntryMap(entries: seq<Entry>): map<Key, Lua>
    decreases entries, 0
  {
    var n := |entries|;
    if n == 0 then map[]
    else SetEntry(EntryMap(entries[..n - 1]), StrKey(entries[n - 1].key), ToLua(entries[n - 1].value))
  }

  lemma {:induction false} ElemMapStep(elems: seq<Json>, n: nat)
    requires 1 <= n <= |elems|
    ensures ElemMap(elems[..n]) == SetEntry(ElemMap(elems[..n - 1]), IntKey(n), ToLua(elems[n - 1]))
  {
    assert elems[..n][..n - 1] == elems[..n - 1];
  }

  lemma {:induction false} EntryMapStep(entries: seq<Entry>, n: nat)
    requires n < |entries|
    ensures EntryMap(entries[..n + 1])
         == SetEntry(EntryMap(entries[..n]), StrKey(entries[n].key), ToLua(entries[n].value))
  {
    assert entries[..n + 1][..n] == entries[..n];
  }

  /** Array elements keep their positions 1, 2, ..., and a null leaves a hole. */
  lemma {:induction false} ElemLookup(elems: seq<Json>, k: Key)
    ensures k in ElemMap(elems) <==>
            k.IntKey? && 1 <= k.n <= |elems| && !ToLua(elems[k.n - 1]).Nil?
    ensures k in ElemMap(elems) ==> ElemMap(elems)[k] == ToLua(elems[k.n - 1])
  {
    if elems == [] {
    } else {
      ElemLookup(elems[..|elems| - 1], k);
    }
  }

  /** The position of the last entry with key `key`, or -1. */
  function LastIndex(entries: seq<Entry>, key: string): (i: int)
    ensures -1 <= i < |entries|
    ensures 0 <= i ==> entries[i].key == key
    ensures forall j | i < j < |entries| :: entries[j].key != key
  {
    var n := |entries|;
    if n == 0 then -1
    else if entries[n - 1].key == key then n - 1
    else LastIndex(entries[..n - 1], key)
  }

  /** For every key the last entry wins; if that one is null, there is no entry. */
  lemma {:induction false} EntryLookup(entries: seq<Entry>, k: Key)
    ensures k in EntryMap(entries) <==>
            k.StrKey? && var i := LastIndex(entries, k.s); 0 <= i && !ToLua(entries[i].value).Nil?
    ensures k in EntryMap(entries) ==>
              EntryMap(entries)[k] == ToLua(entries[LastIndex(entries, k.s)].value)
  {
    if entries == [] {
    } else {
      EntryLookup(entries[..|entries| - 1], k);
    }
  }

  /** The part of a value at the end of a path: elements by their positions, entries by their last occurrences. */
  function Find(j: Json, path: seq<Key>): Option<Json> {
    if path == [] then Some(j)
    else match j
      case JArr(elems) =>
        if path[0].IntKey? && 1 <= path[0].n <= |elems| then Find(elems[path[0].n - 1], path[1..]) else None
      case JObj(entries) =>
        if path[0].StrKey? && 0 <= LastIndex(entries, path[0].s)
        then Find(entries[LastIndex(entries, path[0].s)].value, path[1..])
        else None
      case _ => None
  }

  /** A Lua value that stands for the given part: scalars are themselves, and what is null or absent is nil. */
  predicate StandsFor(l: Lua, j: Option<Json>) {
    match j
    case None => l == Nil
    case Some(JNull) => l == Nil
    case Some(JBool(b)) => l == Boolean(b)
    case Some(JNum(r)) => l == Number(r)
    case Some(JStr(s)) => l == String(s)
    case Some(_) => l.Table?
  }

  /** Wherever one looks in a Lua value, one finds what is there in a JSON value. */
  ghost predicate Represents(l: Lua, j: Json) {
    forall path :: StandsFor(Get(l, path), Find(j, path))
  }

  lemma {:induction false} FoundInLua(j: Json, path: seq<Key>)
    ensures StandsFor(Get(ToLua(j), path), Find(j, path))
    decreases |path|
  {
    if path != [] {
      var k, rest := path[0], path[1..];
      NowhereToGo(rest);
      match j
      case JArr(elems) =>
        ElemLookup(elems, k);
        if k.IntKey? && 1 <= k.n <= |elems| {
          FoundInLua(elems[k.n - 1], rest);
        }
      case JObj(entries) =>
        EntryLookup(entries, k);
        if k.StrKey? && 0 <= LastIndex(entries, k.s) {
          FoundInLua(entries[LastIndex(entries, k.s)].value, rest);
        }
      case _ =>
    }
  }

  /** At any nesting, a Lua program finds every element and the last entry of every key, and nothing else. */
  lemma {:induction false} LuaRepresents(j: Json)
    ensures Represents(ToLua(j), j)
  {
    forall path ensures StandsFor(Get(ToLua(j), path), Find(j, path)) {
      FoundInLua(j, path);
    }
  }

  // ---- Sizes ----

  /** The number of containers on the deepest path. */
  ghost function Depth(j: Json): nat
    decreases j, 1
  {
    match j
    case JArr(elems) => 1 + DepthOfElems(elems)
    case JObj(entries) => 1 + DepthOfEntries(entries)
    case _ => 0
  }

  ghost function DepthOfElems(elems: seq<Json>): nat
    decreases elems, 0
  {
    if elems == [] then 0 else Max(Depth(elems[0]), DepthOfElems(elems[1..]))
  }

  ghost function DepthOfEntries(entries: seq<Entry>): nat
    decreases entries, 0
  {
    if entries == [] then 0 else Max(Depth(entries[0].value), DepthOfEntries(entries[1..]))
  }

  lemma {:induction false} DepthOfElemsSnoc(elems: seq<Json>, e: Json)
    ensures DepthOfElems(elems + [e]) == Max(DepthOfElems(elems), Depth(e))
  {
    var more := elems + [e];
    if elems == [] {
      assert more[0] == e && more[1..] == [];
    } else {
      DepthOfElemsSnoc(elems[1..], e);
      assert more[0] == elems[0] && more[1..] == elems[1..] + [e];
    }
  }

  lemma {:induction false} DepthOfEntriesSnoc(entries: seq<Entry>, e: Entry)
    ensures DepthOfEntries(entries + [e]) == Max(DepthOfEntries(entries), Depth(e.value))
  {
    var more := entries + [e];
    if entries == [] {
      assert more[0] == e && more[1..] == [];
    } else {
      DepthOfEntriesSnoc(entries[1..], e);
      assert more[0] == entries[0] && more[1..] == entries[1..] + [e];
    }
  }

  /** Whether every array's indices are representable in Lua. */
  ghost predicate ArraysFit(j: Json, maxi: nat)
    decreases j
  {
    match j
    case JArr(elems) => |elems| <= maxi && forall i | 0 <= i < |elems| :: ArraysFit(elems[i], maxi)
    case JObj(entries) => forall i | 0 <= i < |entries| :: ArraysFit(entries[i].value, maxi)
    case _ => true
  }

  // ---- Parser events and the flat form of a value ----

  datatype Ev =
    | ArrayStart
    | ArrayEnd
    | MapStart
    | MapEnd
    | StringKey(key: string)
    | StringVal(s: string)
    | NumberVal(r: real)
    | BoolVal(b: bool)
    | NullVal

  predicate IsScalar(e: Ev) {
    e.StringVal? || e.NumberVal? || e.BoolVal? || e.NullVal?
  }

  function ScalarJson(e: Ev): Json
    requires IsScalar(e)
  {
    match e
    case StringVal(s) => JStr(s)
    case NumberVal(r) => JNum(r)
    case BoolVal(b) => JBool(b)
    case NullVal => JNull
  }

  /** The parser events for a value. */
  ghost function Flat(j: Json): (evs: seq<Ev>)
    ensures evs != [] && !evs[0].ArrayEnd? && !evs[0].MapEnd? && !evs[0].StringKey?
    decreases j, 1
  {
    match j
    case JNull => [NullVal]
    case JBool(b) => [BoolVal(b)]
    case JNum(r) => [NumberVal(r)]
    case JStr(s) => [StringVal(s)]
    case JArr(elems) => [ArrayStart] + FlatElems(elems) + [ArrayEnd]
    case JObj(entries) => [MapStart] + FlatEntries(entries) + [MapEnd]
  }

  ghost function FlatElems(elems: seq<Json>): seq<Ev>
    decreases elems, 0
  {
    if elems == [] then [] else Flat(elems[0]) + FlatElems(elems[1..])
  }

  ghost function FlatEntries(entries: seq<Entry>): seq<Ev>
    decreases entries, 0
  {
    if entries == [] then []
    else [StringKey(entries[0].key)] + Flat(entries[0].value) + FlatEntries(entries[1..])
  }

  lemma {:induction false} FlatElemsSnoc(elems: seq<Json>, e: Json)
    ensures FlatElems(elems + [e]) == FlatElems(elems) + Flat(e)
  {
    hide Flat;
    var more := elems + [e];
    if elems == [] {
      assert more[1..] == [] && more[0] == e;
    } else {
      FlatElemsSnoc(elems[1..], e);
      assert more[1..] == elems[1..] + [e] && more[0] == elems[0];
    }
  }

  lemma {:induction false} FlatEntriesSnoc(entries: seq<Entry>, e: Entry)
    ensures FlatEntries(entries + [e]) == FlatEntries(entries) + [StringKey(e.key)] + Flat(e.value)
  {
    hide Flat;
    var more := entries + [e];
    if entries == [] {
      assert more[1..] == [] && more[0] == e;
    } else {
      FlatEntriesSnoc(entries[1..], e);
      assert more[1..] == entries[1..] + [e] && more[0] == entries[0];
    }
  }

  // ---- The trees under construction ----

  /** A container whose closing bracket has not been seen. */
  datatype Frame =
    | InArray(elems: seq<Json>)
    | InMap(entries: seq<Entry>)
    | AtValue(entries: seq<Entry>, key: string)

  /** Only the innermost frame waits for a key, and the outermost one is an event object. */
  predicate WellNested(frames: seq<Frame>) {
    && (frames != [] ==> !frames[0].InArray?)
    && forall i | 0 <= i < |frames| - 1 :: !frames[i].InMap?
  }

  /** What a well-formed JSON text may continue with, inside the outermost array. */
  predicate Accepts(frames: seq<Frame>, e: Ev) {
    if frames == [] then !e.StringKey? && !e.MapEnd?
    else match frames[|frames| - 1]
      case InArray(_) => !e.StringKey? && !e.MapEnd?
      case InMap(_) => e.StringKey? || e.MapEnd?
      case AtValue(_, _) => !e.StringKey? && !e.MapEnd? && !e.ArrayEnd?
  }

  function AddValue(frames: seq<Frame>, j: Json): (r: seq<Frame>)
    requires frames != [] && !frames[|frames| - 1].InMap?
    ensures |r| == |frames| && (WellNested(frames) ==> WellNested(r))
  {
    var n := |frames| - 1;
    frames[..n] + [match frames[n]
                   case InArray(elems) => InArray(elems + [j])
                   case AtValue(entries, key) => InMap(entries + [Entry(key, j)])]
  }

  ghost function InnerDepth(f: Frame): nat {
    match f
    case InArray(elems) => DepthOfElems(elems)
    case InMap(entries) => DepthOfEntries(entries)
    case AtValue(entries, _) => DepthOfEntries(entries)
  }

  /** Nothing built so far is nested deeper than the limit allows. */
  ghost predicate Shallow(frames: seq<Frame>) {
    && |frames| < DEPTH_LIMIT
    && forall i | 0 <= i < |frames| :: i + 1 + InnerDepth(frames[i]) < DEPTH_LIMIT
  }

  lemma {:induction false} ShallowAddValue(frames: seq<Frame>, j: Json)
    requires frames != [] && !frames[|frames| - 1].InMap?
    requires Shallow(frames) && |frames| + Depth(j) < DEPTH_LIMIT
    ensures Shallow(AddValue(frames, j))
  {
    match frames[|frames| - 1]
    case InArray(elems) => DepthOfElemsSnoc(elems, j);
    case AtValue(entries, key) => DepthOfEntriesSnoc(entries, Entry(key, j));
  }

  ghost function FlatFrame(f: Frame): seq<Ev> {
    match f
    case InArray(elems) => [ArrayStart] + FlatElems(elems)
    case InMap(entries) => [MapStart] + FlatEntries(entries)
    case AtValue(entries, key) => [MapStart] + FlatEntries(entries) + [StringKey(key)]
  }

  ghost function FlatFrames(frames: seq<Frame>): seq<Ev> {
    if frames == [] then []
    else FlatFrames(frames[..|frames| - 1]) + FlatFrame(frames[|frames| - 1])
  }

  lemma {:induction false} FlatFramesPush(frames: seq<Frame>, f: Frame)
    ensures FlatFrames(frames + [f]) == FlatFrames(frames) + FlatFrame(f)
  {
    assert (frames + [f])[..|frames|] == frames;
  }

  lemma {:induction false} FlatFramesAddValue(frames: seq<Frame>, j: Json)
    requires frames != [] && !frames[|frames| - 1].InMap?
    ensures FlatFrames(AddValue(frames, j)) == FlatFrames(frames) + Flat(j)
  {
    hide Flat, FlatElems, FlatEntries;
    var n := |frames| - 1;
    var fs := AddValue(frames, j);
    assert fs[..n] == frames[..n];
    match frames[n]
    case InArray(elems) => FlatElemsSnoc(elems, j);
    case AtValue(entries, key) => FlatEntriesSnoc(entries, Entry(key, j));
  }

  // ---- The event watcher as a machine that builds trees ----

  /** The widget an event is for, as far as known after these top-level entries: what the last
      string-valued "name" entry parses to, or a negative number. */
  function WidgetOf(entries: seq<Entry>): int {
    if entries == [] then -1
    else
      var e := entries[|entries| - 1];
      if e.key == "name" && e.value.JStr? then FullStrtou(e.value.s)
      else WidgetOf(entries[..|entries| - 1])
  }

  /** How the watcher ended, if it did: a callback stopped the parser, an assertion failed, or the parser found
      that the text is no JSON. */
  datatype Status = Running | Cancelled | Aborted | Malformed

  /** `calls` are the widgets' event() calls made, with their arguments. */
  datatype Watcher = Watcher(
    status: Status, started: bool, frames: seq<Frame>, calls: seq<(nat, Lua)>)

  /** The number of widgets, and the largest index of a Lua array. */
  datatype Config = Config(nwidgets: nat, maxi: nat)

  const INITIAL := Watcher(Running, false, [], [])

  ghost predicate CanStep(w: Watcher, e: Ev) {
    WellNested(w.frames) && (w.started ==> Accepts(w.frames, e))
  }

  ghost function Stopped(w: Watcher, status: Status): Watcher {
    w.(status := status, frames := [])
  }

  predicate IsOpening(e: Ev) {
    e.ArrayStart? || e.MapStart?
  }

  /** What is under construction after an event that fits. */
  function NextFrames(frames: seq<Frame>, e: Ev): (r: seq<Frame>)
    requires WellNested(frames) && Accepts(frames, e) && (frames == [] ==> e.MapStart?)
    ensures WellNested(r)
  {
    var n := |frames| - 1;
    match e
    case ArrayStart => frames + [InArray([])]
    case MapStart => frames + [InMap([])]
    case StringKey(k) => frames[..n] + [AtValue(frames[n].entries, k)]
    case ArrayEnd => AddValue(frames[..n], JArr(frames[n].elems))
    case MapEnd => if n == 0 then [] else AddValue(frames[..n], JObj(frames[n].entries))
    case _ => AddValue(frames, ScalarJson(e))
  }

  /** Whether an event closes a complete event object. */
  predicate Completes(frames: seq<Frame>, e: Ev) {
    |frames| == 1 && e.MapEnd?
  }

  /** A complete event object: a call of the addressed widget's event(), if there is such a widget. */
  ghost function Dispatch(c: Config, w: Watcher, entries: seq<Entry>): Watcher {
    var k := WidgetOf(entries);
    if !(0 <= k < c.nwidgets) then w.(frames := [])
    else if !ArraysFit(JObj(entries), c.maxi) then Stopped(w, Aborted)
    else w.(frames := [], calls := w.calls + [(k, ToLua(JObj(entries)))])
  }

  ghost function Step(c: Config, w: Watcher, e: Ev): (w': Watcher)
    requires CanStep(w, e)
    ensures WellNested(w'.frames) && (w'.status.Malformed? ==> w.status.Malformed?)
  {
    if !w.status.Running? then w
    else if !w.started then
      if e.ArrayStart? then w.(started := true) else Stopped(w, Cancelled)
    else if w.frames == [] && !e.MapStart? then Stopped(w, Cancelled)
    else if IsOpening(e) && |w.frames| + 1 >= DEPTH_LIMIT then Stopped(w, Cancelled)
    else if Completes(w.frames, e) then Dispatch(c, w, w.frames[0].entries)
    else w.(frames := NextFrames(w.frames, e))
  }

  /** Every event accepted adds itself to the flat form of what is under construction. */
  lemma {:induction false} NextFlat(frames: seq<Frame>, e: Ev)
    requires WellNested(frames) && Accepts(frames, e) && Shallow(frames)
    requires (frames == [] ==> e.MapStart?) && (IsOpening(e) ==> |frames| + 1 < DEPTH_LIMIT)
    requires !Completes(frames, e)
    ensures var next := NextFrames(frames, e);
      && Shallow(next) && FlatFrames(next) == FlatFrames(frames) + [e]
      && |next| == |frames| + (if IsOpening(e) then 1 else if e.ArrayEnd? || e.MapEnd? then -1 else 0)
  {
    hide FlatFrames, FlatFrame, Flat, Shallow, AddValue, InnerDepth, Depth;
    match e
    case ArrayStart => OpenFlat(frames, InArray([]), e);
    case MapStart => OpenFlat(frames, InMap([]), e);
    case StringKey(k) => KeyFlat(frames, k);
    case ArrayEnd => CloseFlat(frames, e);
    case MapEnd => CloseFlat(frames, e);
    case _ => ScalarFlat(frames, e);
  }

  lemma {:induction false} ScalarFlat(frames: seq<Frame>, e: Ev)
    requires IsScalar(e) && Shallow(frames) && frames != [] && !frames[|frames| - 1].InMap?
    ensures var next := AddValue(frames, ScalarJson(e));
      FlatFrames(next) == FlatFrames(frames) + [e] && Shallow(next)
  {
    var j := ScalarJson(e);
    assert Flat(j) == [e] && Depth(j) == 0;
    hide *;
    FlatFramesAddValue(frames, j);
    assert |frames| < DEPTH_LIMIT;
    ShallowAddValue(frames, j);
  }

  lemma {:induction false} CompleteFlat(frames: seq<Frame>, e: Ev)
    requires Accepts(frames, e) && Shallow(frames) && Completes(frames, e)
    ensures frames == [InMap(frames[0].entries)]
    ensures FlatFrames(frames) + [e] == Flat(JObj(frames[0].entries))
    ensures Depth(JObj(frames[0].entries)) < DEPTH_LIMIT
  {
    hide Flat, FlatFrame, FlatFrames, InnerDepth, Depth, Shallow;
    ClosedFlat(frames[0], e);
    FlatFramesOne(frames[0]);
    ShallowAt(frames, 0);
    assert frames == [frames[0]];
  }

  lemma {:induction false} FlatFramesOne(f: Frame)
    ensures FlatFrames([f]) == FlatFrame(f)
  {
    hide FlatFrame;
    assert [f][..0] == [] && FlatFrames([]) + FlatFrame(f) == FlatFrame(f);
  }

  lemma {:induction false} ShallowAt(frames: seq<Frame>, i: nat)
    requires Shallow(frames) && i < |frames|
    ensures i + 1 + InnerDepth(frames[i]) < DEPTH_LIMIT
  {
  }

  lemma {:induction false} OpenFlat(frames: seq<Frame>, f: Frame, e: Ev)
    requires Shallow(frames) && |frames| + 1 < DEPTH_LIMIT
    requires (f == InArray([]) && e.ArrayStart?) || (f == InMap([]) && e.MapStart?)
    ensures FlatFrames(frames + [f]) == FlatFrames(frames) + [e] && Shallow(frames + [f])
  {
    FlatFramesPush(frames, f);
  }

  lemma {:induction false} KeyFlat(frames: seq<Frame>, k: string)
    requires Shallow(frames) && frames != [] && frames[|frames| - 1].InMap?
    ensures var n := |frames| - 1; var fs := frames[..n] + [AtValue(frames[n].entries, k)];
      FlatFrames(fs) == FlatFrames(frames) + [StringKey(k)] && Shallow(fs)
  {
    var n := |frames| - 1;
    var fs := frames[..n] + [AtValue(frames[n].entries, k)];
    assert fs[..n] == frames[..n];
    assert n + 1 + InnerDepth(frames[n]) < DEPTH_LIMIT;
  }

  /** The value of a container that is complete. */
  function Closed(f: Frame): Json
    requires !f.AtValue?
  {
    if f.InArray? then JArr(f.elems) else JObj(f.entries)
  }

  lemma {:induction false} ClosedFlat(f: Frame, e: Ev)
    requires (f.InArray? && e.ArrayEnd?) || (f.InMap? && e.MapEnd?)
    ensures Flat(Closed(f)) == FlatFrame(f) + [e] && Depth(Closed(f)) == 1 + InnerDepth(f)
  {
  }

  lemma {:induction false} CloseFlat(frames: seq<Frame>, e: Ev)
    requires |frames| >= 2 && WellNested(frames) && Shallow(frames) && Accepts(frames, e)
    requires e.ArrayEnd? || e.MapEnd?
    ensures var next := AddValue(frames[..|frames| - 1], Closed(frames[|frames| - 1]));
      FlatFrames(next) == FlatFrames(frames) + [e] && Shallow(next)
  {
    hide Flat, FlatFrame, AddValue, InnerDepth, Depth, Closed;
    var n := |frames| - 1;
    ClosedFlat(frames[n], e);
    FlatFramesAddValue(frames[..n], Closed(frames[n]));
    assert n + 1 + InnerDepth(frames[n]) < DEPTH_LIMIT;
    ShallowAddValue(frames[..n], Closed(frames[n]));
  }

  /** Only a string at the top level of an event object changes which widget the event is for. */
  lemma {:induction false} NextWidget(frames: seq<Frame>, e: Ev)
    requires WellNested(frames) && Accepts(frames, e) && frames != [] && !Completes(frames, e)
    ensures NextFrames(frames, e) != []
    ensures var f, f' := frames[0], NextFrames(frames, e)[0];
      && (e.StringKey? && |frames| == 1 ==> f' == AtValue(f.entries, e.key))
      && (e.StringVal? && |frames| == 1 ==>
            f.AtValue? && f' == InMap(f.entries + [Entry(f.key, JStr(e.s))])
            && WidgetOf(f'.entries) == if f.key == "name" then FullStrtou(e.s) else WidgetOf(f.entries))
      && (|frames| > 1 || (!e.StringKey? && !e.StringVal?) ==>
            WidgetOf(f'.entries) == WidgetOf(f.entries) && (f'.AtValue? ==> f' == f))
  {
    var f := frames[0];
    if f.AtValue? {
      forall v: Json ensures (f.entries + [Entry(f.key, v)])[..|f.entries|] == f.entries {
      }
    }
  }

  // ---- Whole streams ----

  /** Feeds events one by one; the parser itself rejects what is not well-formed JSON. */
  ghost function Run(c: Config, w: Watcher, evs: seq<Ev>): Watcher
    requires WellNested(w.frames)
    decreases |evs|
  {
    if evs == [] || !w.status.Running? then w
    else if !CanStep(w, evs[0]) then Stopped(w, Malformed)
    else Run(c, Step(c, w, evs[0]), evs[1..])
  }

  /** All the events are ones a parser of well-formed JSON would deliver. */
  ghost predicate Accepted(c: Config, w: Watcher, evs: seq<Ev>)
    requires WellNested(w.frames)
    decreases |evs|
  {
    evs == [] || !w.status.Running? || (CanStep(w, evs[0]) && Accepted(c, Step(c, w, evs[0]), evs[1..]))
  }

  lemma {:induction false} AcceptedExactly(c: Config, w: Watcher, evs: seq<Ev>)
    requires WellNested(w.frames) && !w.status.Malformed?
    ensures Accepted(c, w, evs) <==> !Run(c, w, evs).status.Malformed?
    decreases |evs|
  {
    hide Step, CanStep;
    if evs == [] || !w.status.Running? || !CanStep(w, evs[0]) {
    } else {
      AcceptedExactly(c, Step(c, w, evs[0]), evs[1..]);
    }
  }

  lemma {:induction false} RunConcat(c: Config, w: Watcher, a: seq<Ev>, b: seq<Ev>)
    requires WellNested(w.frames)
    ensures WellNested(Run(c, w, a).frames)
    ensures Run(c, w, a + b) == Run(c, Run(c, w, a), b)
    decreases |a|
  {
    hide Step, CanStep;
    if a == [] {
      assert a + b == b;
    } else if w.status.Running? && CanStep(w, a[0]) {
      RunConcat(c, Step(c, w, a[0]), a[1..], b);
      assert (a + b)[1..] == a[1..] + b;
    }
  }

  lemma {:induction false} CallsGrow(c: Config, w: Watcher, evs: seq<Ev>)
    requires WellNested(w.frames)
    ensures w.calls <= Run(c, w, evs).calls
    decreases |evs|
  {
    hide Step, CanStep;
    if evs == [] || !w.status.Running? || !CanStep(w, evs[0]) {
    } else {
      StepGrows(c, w, evs[0]);
      CallsGrow(c, Step(c, w, evs[0]), evs[1..]);
    }
  }

  lemma {:induction false} StepGrows(c: Config, w: Watcher, e: Ev)
    requires CanStep(w, e)
    ensures w.calls <= Step(c, w, e).calls
  {
    hide NextFrames, WidgetOf, ArraysFit, ToLua;
  }

  /** A run that makes no calls, or does not stop, does not do so on the way either. */
  lemma {:induction false} RunPrefix(c: Config, w: Watcher, part: seq<Ev>, evs: seq<Ev>)
    requires WellNested(w.frames) && part <= evs
    ensures w.calls <= Run(c, w, part).calls <= Run(c, w, evs).calls
    ensures !Run(c, w, part).status.Running? ==> Run(c, w, part) == Run(c, w, evs)
  {
    assert evs == part + evs[|part|..];
    RunConcat(c, w, part, evs[|part|..]);
    CallsGrow(c, w, part);
    CallsGrow(c, Run(c, w, part), evs[|part|..]);
  }

  /** Where a value may come next inside an event object. */
  ghost predicate Awaits(w: Watcher) {
    && w.status.Running? && w.started && WellNested(w.frames)
    && 0 < |w.frames| < DEPTH_LIMIT && !w.frames[|w.frames| - 1].InMap?
  }

  /** The events of a value add exactly that value, unless it is nested too deep: then, and only
      then, the parser is stopped. */
  lemma {:induction false} ValueRun(c: Config, w: Watcher, j: Json)
    requires Awaits(w)
    ensures Run(c, w, Flat(j))
         == if |w.frames| + Depth(j) < DEPTH_LIMIT then w.(frames := AddValue(w.frames, j))
            else Stopped(w, Cancelled)
    decreases j, 2
  {
    hide FlatElems, FlatEntries, DepthOfElems, DepthOfEntries, Run;
    match j
    case JArr(elems) => ArrayRun(c, w, elems);
    case JObj(entries) => ObjectRun(c, w, entries);
    case _ =>
      RunOne(c, w, Flat(j)[0]);
  }

  lemma {:induction false} ArrayRun(c: Config, w: Watcher, elems: seq<Json>)
    requires Awaits(w)
    ensures Run(c, w, Flat(JArr(elems)))
         == if |w.frames| + 1 + DepthOfElems(elems) < DEPTH_LIMIT
            then w.(frames := AddValue(w.frames, JArr(elems)))
            else Stopped(w, Cancelled)
    decreases elems, 1
  {
    hide FlatElems, DepthOfElems, AddValue, Run, Step, CanStep, NextFrames, Accepts;
    var rest := FlatElems(elems) + [ArrayEnd];
    assert Flat(JArr(elems)) == [ArrayStart] + rest;
    RunConcat(c, w, [ArrayStart], rest);
    OpeningRun(c, w, ArrayStart);
    if |w.frames| + 1 < DEPTH_LIMIT {
      var inside := w.(frames := w.frames + [InArray([])]);
      RunConcat(c, inside, FlatElems(elems), [ArrayEnd]);
      ElemsRun(c, inside, elems);
      assert inside.frames[..|w.frames|] == w.frames && [] + elems == elems;
      StoppedRun(c, Stopped(inside, Cancelled), [ArrayEnd]);
      ClosingRun(c, w, InArray(elems), ArrayEnd);
    } else {
      StoppedRun(c, Stopped(w, Cancelled), rest);
    }
  }

  /** An opening bracket puts a container under construction, unless that is too deep. */
  lemma {:induction false} OpeningRun(c: Config, w: Watcher, e: Ev)
    requires w.status.Running? && w.started && CanStep(w, e)
    requires e.MapStart? || (e.ArrayStart? && w.frames != [])
    ensures Run(c, w, [e])
         == if |w.frames| + 1 < DEPTH_LIMIT
            then w.(frames := w.frames + [if e.MapStart? then InMap([]) else InArray([])])
            else Stopped(w, Cancelled)
  {
    RunOne(c, w, e);
  }

  /** A closing bracket makes what is under construction a part of its container. */
  lemma {:induction false} ClosingRun(c: Config, w: Watcher, f: Frame, e: Ev)
    requires w.status.Running? && w.started && WellNested(w.frames + [f])
    requires w.frames != [] && !w.frames[|w.frames| - 1].InMap?
    requires (f.InArray? && e.ArrayEnd?) || (f.InMap? && e.MapEnd?)
    ensures Run(c, w.(frames := w.frames + [f]), [e]) == w.(frames := AddValue(w.frames, Closed(f)))
  {
    hide AddValue;
    var full := w.(frames := w.frames + [f]);
    assert full.frames[..|w.frames|] == w.frames;
    RunOne(c, full, e);
  }

  lemma {:induction false} StoppedRun(c: Config, w: Watcher, evs: seq<Ev>)
    requires WellNested(w.frames) && !w.status.Running?
    ensures Run(c, w, evs) == w
  {
  }

  /** What the end of an object does: it becomes a part of its container, or is a complete event. */
  ghost function ObjectDone(c: Config, w: Watcher, entries: seq<Entry>): Watcher
    requires w.frames != [] ==> !w.frames[|w.frames| - 1].InMap?
  {
    if w.frames == [] then Dispatch(c, w, entries) else w.(frames := AddValue(w.frames, JObj(entries)))
  }

  lemma {:induction false} ObjectRun(c: Config, w: Watcher, entries: seq<Entry>)
    requires Awaits(w) || (w.status.Running? && w.started && w.frames == [])
    ensures Run(c, w, Flat(JObj(entries)))
         == if |w.frames| + 1 + DepthOfEntries(entries) < DEPTH_LIMIT then ObjectDone(c, w, entries)
            else Stopped(w, Cancelled)
    decreases entries, 1
  {
    hide FlatEntries, DepthOfEntries, AddValue, ArraysFit, WidgetOf, ToLua, Run, Step, CanStep, NextFrames, Accepts, Dispatch;
    var rest := FlatEntries(entries) + [MapEnd];
    assert Flat(JObj(entries)) == [MapStart] + rest;
    RunConcat(c, w, [MapStart], rest);
    MapFits(w);
    OpeningRun(c, w, MapStart);
    if |w.frames| + 1 < DEPTH_LIMIT {
      var inside := w.(frames := w.frames + [InMap([])]);
      RunConcat(c, inside, FlatEntries(entries), [MapEnd]);
      EntriesRun(c, inside, entries);
      assert inside.frames[..|w.frames|] == w.frames && [] + entries == entries;
      StoppedRun(c, Stopped(inside, Cancelled), [MapEnd]);
      if w.frames == [] {
        EventRun(c, w, entries);
      } else {
        ClosingRun(c, w, InMap(entries), MapEnd);
      }
    } else {
      StoppedRun(c, Stopped(w, Cancelled), rest);
    }
  }

  lemma {:induction false} MapFits(w: Watcher)
    requires Awaits(w) || (w.status.Running? && w.started && w.frames == [])
    ensures CanStep(w, MapStart)
  {
  }

  /** The closing bracket of an event. */
  lemma {:induction false} EventRun(c: Config, w: Watcher, entries: seq<Entry>)
    requires w.status.Running? && w.started && w.frames == []
    ensures Run(c, w.(frames := w.frames + [InMap(entries)]), [MapEnd]) == Dispatch(c, w, entries)
  {
    hide ArraysFit, ToLua, WidgetOf;
    var full := w.(frames := w.frames + [InMap(entries)]);
    RunOne(c, full, MapEnd);
  }

  lemma {:induction false} RunOne(c: Config, w: Watcher, e: Ev)
    requires w.status.Running? && CanStep(w, e)
    ensures Run(c, w, [e]) == Step(c, w, e)
  {
    hide Step;
    assert [e][1..] == [];
    assert Run(c, w, [e]) == Run(c, Step(c, w, e), []);
  }

  lemma {:induction false} ElemsRun(c: Config, w: Watcher, elems: seq<Json>)
    requires Awaits(w) && w.frames[|w.frames| - 1].InArray?
    ensures var n := |w.frames| - 1;
      Run(c, w, FlatElems(elems))
      == if |w.frames| + DepthOfElems(elems) < DEPTH_LIMIT
         then w.(frames := w.frames[..n] + [InArray(w.frames[n].elems + elems)])
         else Stopped(w, Cancelled)
    decreases elems, 0
  {
    hide Flat, Depth, Step, CanStep;
    var n := |w.frames| - 1;
    if elems == [] {
      assert w.frames[n].elems + elems == w.frames[n].elems;
      assert w.frames[..n] + [InArray(w.frames[n].elems)] == w.frames;
    } else {
      RunConcat(c, w, Flat(elems[0]), FlatElems(elems[1..]));
      ValueRun(c, w, elems[0]);
      var w' := w.(frames := AddValue(w.frames, elems[0]));
      ElemsRun(c, w', elems[1..]);
      assert w.frames[n].elems + [elems[0]] + elems[1..] == w.frames[n].elems + elems;
      assert w'.frames[..n] == w.frames[..n];
    }
  }

  lemma {:induction false} EntriesRun(c: Config, w: Watcher, entries: seq<Entry>)
    requires w.status.Running? && w.started && WellNested(w.frames) && 0 < |w.frames| < DEPTH_LIMIT
    requires w.frames[|w.frames| - 1].InMap?
    ensures var n := |w.frames| - 1;
      Run(c, w, FlatEntries(entries))
      == if |w.frames| + DepthOfEntries(entries) < DEPTH_LIMIT
         then w.(frames := w.frames[..n] + [InMap(w.frames[n].entries + entries)])
         else Stopped(w, Cancelled)
    decreases entries, 0
  {
    hide Flat, Depth, Step, CanStep;
    var n := |w.frames| - 1;
    if entries == [] {
      assert w.frames[n].entries + entries == w.frames[n].entries;
      assert w.frames[..n] + [InMap(w.frames[n].entries)] == w.frames;
    } else {
      var e := entries[0];
      RunConcat(c, w, [StringKey(e.key)] + Flat(e.value), FlatEntries(entries[1..]));
      EntryRun(c, w, e);
      var w' := w.(frames := w.frames[..n] + [InMap(w.frames[n].entries + [e])]);
      EntriesRun(c, w', entries[1..]);
      assert w.frames[n].entries + [e] + entries[1..] == w.frames[n].entries + entries;
      assert w'.frames[..n] == w.frames[..n];
    }
  }

  lemma {:induction false} EntryRun(c: Config, w: Watcher, e: Entry)
    requires w.status.Running? && w.started && WellNested(w.frames) && 0 < |w.frames| < DEPTH_LIMIT
    requires w.frames[|w.frames| - 1].InMap?
    ensures var n := |w.frames| - 1;
      Run(c, w, [StringKey(e.key)] + Flat(e.value))
      == if |w.frames| + Depth(e.value) < DEPTH_LIMIT
         then w.(frames := w.frames[..n] + [InMap(w.frames[n].entries + [e])])
         else Stopped(w, Cancelled)
    decreases e, 0
  {
    hide Flat, Depth, Run;
    var n := |w.frames| - 1;
    var key := StringKey(e.key);
    RunConcat(c, w, [key], Flat(e.value));
    RunOne(c, w, key);
    var w' := Step(c, w, key);
    ValueRun(c, w', e.value);
    assert w'.frames[..n] == w.frames[..n];
  }

  // ---- Streams of events, and which widget gets which ----

  predicate Routed(c: Config, j: Json) {
    j.JObj? && 0 <= WidgetOf(j.entries) < c.nwidgets
  }

  /** An element of the stream that does not end the event watcher. */
  ghost predicate Fine(c: Config, j: Json) {
    j.JObj? && Depth(j) < DEPTH_LIMIT && (Routed(c, j) ==> ArraysFit(j, c.maxi))
  }

  ghost function CallsFor(c: Config, elems: seq<Json>): seq<(nat, Lua)> {
    if elems == [] then []
    else (if Routed(c, elems[0]) then [(WidgetOf(elems[0].entries), ToLua(elems[0]))] else [])
         + CallsFor(c, elems[1..])
  }

  /** One element of the stream: what it does depends on nothing that came before it. */
  lemma {:induction false} ElementRun(c: Config, w: Watcher, j: Json)
    requires w.status.Running? && w.started && w.frames == []
    ensures Fine(c, j) ==> Run(c, w, Flat(j)) == w.(calls := w.calls + CallsFor(c, [j]))
    ensures !Fine(c, j) ==>
              && !Run(c, w, Flat(j)).status.Running? && !Run(c, w, Flat(j)).status.Malformed?
              && Run(c, w, Flat(j)).calls == w.calls
  {
    hide Run, Flat, ToLua, ArraysFit, WidgetOf, CallsFor;
    CallsForOne(c, j);
    if j.JObj? {
      ObjectRun(c, w, j.entries);
    } else {
      NonObjectRun(c, w, j);
    }
  }

  lemma {:induction false} NonObjectRun(c: Config, w: Watcher, j: Json)
    requires w.status.Running? && w.started && w.frames == [] && !j.JObj?
    ensures Run(c, w, Flat(j)) == Stopped(w, Cancelled)
  {
    assert Flat(j) == [Flat(j)[0]] + Flat(j)[1..];
    RunConcat(c, w, [Flat(j)[0]], Flat(j)[1..]);
    RunOne(c, w, Flat(j)[0]);
  }

  lemma {:induction false} CallsForOne(c: Config, j: Json)
    ensures CallsFor(c, [j]) == if Routed(c, j) then [(WidgetOf(j.entries), ToLua(j))] else []
  {
    hide ToLua, WidgetOf;
    assert [j][1..] == [] && CallsFor(c, []) == [];
  }

  /** No call is made before an element is complete. */
  lemma {:induction false} NoEarlyCall(c: Config, w: Watcher, j: Json, part: seq<Ev>)
    requires w.status.Running? && w.started && w.frames == []
    requires part <= Flat(j) && part != Flat(j)
    ensures Run(c, w, part).calls == w.calls
  {
    hide Run, FlatEntries;
    match j
    case JObj(entries) =>
      assert Flat(j) == ([MapStart] + FlatEntries(entries)) + [MapEnd];
      assert part <= [MapStart] + FlatEntries(entries);
      OpenObject(c, w, entries);
      RunPrefix(c, w, part, [MapStart] + FlatEntries(entries));
    case _ =>
      NonObjectRun(c, w, j);
      RunPrefix(c, w, part, Flat(j));
  }

  lemma {:induction false} OpenObject(c: Config, w: Watcher, entries: seq<Entry>)
    requires w.status.Running? && w.started && w.frames == []
    ensures Run(c, w, [MapStart] + FlatEntries(entries)).calls == w.calls
  {
    hide FlatEntries, DepthOfEntries, Run;
    RunConcat(c, w, [MapStart], FlatEntries(entries));
    OpeningRun(c, w, MapStart);
    EntriesRun(c, w.(frames := [InMap([])]), entries);
    assert w.frames + [InMap([])] == [InMap([])];
  }

  /** The position of the first element that ends the event watcher. */
  ghost function FirstBad(c: Config, elems: seq<Json>): (n: nat)
    ensures n <= |elems| && (forall i | 0 <= i < n :: Fine(c, elems[i]))
    ensures n < |elems| ==> !Fine(c, elems[n])
  {
    if elems == [] || !Fine(c, elems[0]) then 0 else 1 + FirstBad(c, elems[1..])
  }

  /** How many of the elements are complete, when only `evs` of their events have been delivered. */
  ghost function Complete(elems: seq<Json>, evs: seq<Ev>): (n: nat)
    ensures n <= |elems|
  {
    if elems == [] || |evs| < |Flat(elems[0])| then 0 else 1 + Complete(elems[1..], evs[|Flat(elems[0])|..])
  }

  /** However much of a stream of elements has been delivered: the calls made are those that its complete elements
      make one by one, up to the first one that is no object, is nested too deep or has too long an array. That one
      stops the event watcher, when it is complete if not before; nothing else does. */
  lemma {:induction false} StreamRun(c: Config, w: Watcher, elems: seq<Json>, evs: seq<Ev>)
    requires w.status.Running? && w.started && w.frames == []
    requires evs <= FlatElems(elems)
    ensures var n, bad, r := Complete(elems, evs), FirstBad(c, elems), Run(c, w, evs);
      && r.calls == w.calls + CallsFor(c, elems[..Min(n, bad)]) && !r.status.Malformed?
      && (n < bad || n == |elems| == bad ==> r.status.Running?) && (bad < n ==> !r.status.Running?)
    decreases |elems|
  {
    hide Flat, Fine, Step, CanStep, CallsFor;
    CallsForNone(c);
    if elems == [] {
    } else {
      var e, rest := elems[0], elems[1..];
      ElementRun(c, w, e);
      if |evs| < |Flat(e)| {
        assert evs <= Flat(e);
        RunPrefix(c, w, evs, Flat(e));
        NoEarlyCall(c, w, e, evs);
      } else {
        var later := evs[|Flat(e)|..];
        assert evs == Flat(e) + later && later <= FlatElems(rest);
        RunConcat(c, w, Flat(e), later);
        if Fine(c, e) {
          var n := Min(Complete(rest, later), FirstBad(c, rest));
          StreamRun(c, w.(calls := w.calls + CallsFor(c, [e])), rest, later);
          CallsForCons(c, e, rest[..n]);
          assert elems[..n + 1] == [e] + rest[..n];
        }
      }
    }
  }

  lemma {:induction false} CallsForNone(c: Config)
    ensures CallsFor(c, []) == []
  {
  }

  lemma {:induction false} CallsForCons(c: Config, e: Json, rest: seq<Json>)
    ensures CallsFor(c, [e] + rest) == CallsFor(c, [e]) + CallsFor(c, rest)
  {
    hide ToLua, Routed;
    assert ([e] + rest)[1..] == rest && [e][1..] == [];
  }

  /** The events after the opening bracket. */
  function Body(evs: seq<Ev>): seq<Ev> {
    if evs == [] then [] else evs[1..]
  }

  /** The same from the very start: '[' and then the elements. */
  lemma {:induction false} WholeRun(c: Config, elems: seq<Json>, evs: seq<Ev>)
    requires evs <= [ArrayStart] + FlatElems(elems)
    ensures var n, bad, r := Complete(elems, Body(evs)), FirstBad(c, elems), Run(c, INITIAL, evs);
      && r.calls == CallsFor(c, elems[..Min(n, bad)]) && Accepted(c, INITIAL, evs)
      && Delivers(c, r.calls, elems[..Min(n, bad)])
      && (n < bad || n == |elems| == bad ==> r.status.Running?) && (bad < n ==> !r.status.Running?)
  {
    hide FlatElems, Fine, CallsFor, Complete, FirstBad, Step, CanStep, Delivers;
    AcceptedExactly(c, INITIAL, evs);
    CallsDeliver(c, elems[..Min(Complete(elems, Body(evs)), FirstBad(c, elems))]);
    if evs == [] {
      StreamRun(c, INITIAL.(started := true), elems, []);
    } else {
      assert evs == [ArrayStart] + Body(evs) && Body(evs) <= FlatElems(elems);
      RunConcat(c, INITIAL, [ArrayStart], Body(evs));
      FirstBracket(c);
      StreamRun(c, INITIAL.(started := true), elems, Body(evs));
    }
  }

  lemma {:induction false} FirstBracket(c: Config)
    ensures Run(c, INITIAL, [ArrayStart]) == INITIAL.(started := true)
  {
    RunOne(c, INITIAL, ArrayStart);
  }

  /** The last top-level "name" entry whose value is a string, or -1. */
  function NameIndex(entries: seq<Entry>): (i: int)
    ensures -1 <= i < |entries|
    ensures 0 <= i ==> entries[i].key == "name" && entries[i].value.JStr?
    ensures forall j | i < j < |entries| :: !(entries[j].key == "name" && entries[j].value.JStr?)
  {
    var n := |entries|;
    if n == 0 then -1
    else if entries[n - 1].key == "name" && entries[n - 1].value.JStr? then n - 1
    else NameIndex(entries[..n - 1])
  }

  lemma {:induction false} WidgetOfName(entries: seq<Entry>)
    ensures WidgetOf(entries)
         == var i := NameIndex(entries); if i < 0 then -1 else FullStrtou(entries[i].value.s)
  {
    if entries == [] {
    } else {
      WidgetOfName(entries[..|entries| - 1]);
    }
  }

  /** An event reaches widget `k` exactly if its last string-valued name is a numeral for `k` that
      fits a C int, and there is such a widget. */
  lemma {:induction false} RoutedExactly(c: Config, entries: seq<Entry>, k: nat)
    ensures (Routed(c, JObj(entries)) && WidgetOf(entries) == k) <==>
            k < c.nwidgets && k <= INT_MAX && Names(entries, k)
  {
    WidgetOfName(entries);
  }

  /** How many of the elements are events for some widget. */
  function RoutedCount(c: Config, elems: seq<Json>): nat {
    if elems == [] then 0 else (if Routed(c, elems[0]) then 1 else 0) + RoutedCount(c, elems[1..])
  }

  /** Whether the last string-valued name among the entries is a numeral for `k`. */
  predicate Names(entries: seq<Entry>, k: nat) {
    var i := NameIndex(entries);
    0 <= i && var s := entries[i].value.s; s != "" && AllDigits(s) && Value(s) == k
  }

  /** The call for the event at position `j` is to the widget it names, and has an argument in which everything in
      the event can be found. */
  ghost predicate DeliveredAt(c: Config, calls: seq<(nat, Lua)>, elems: seq<Json>, j: nat)
    requires j < |elems| && Routed(c, elems[j])
  {
    var n := RoutedCount(c, elems[..j]);
    n < |calls| && calls[n].0 < c.nwidgets && Names(elems[j].entries, calls[n].0) && Represents(calls[n].1, elems[j])
  }

  /** One call for each event addressed to a widget, in their order. */
  ghost predicate Delivers(c: Config, calls: seq<(nat, Lua)>, elems: seq<Json>) {
    && |calls| == RoutedCount(c, elems)
    && forall j: nat | j < |elems| && Routed(c, elems[j]) :: DeliveredAt(c, calls, elems, j)
  }

  lemma {:induction false} RoutedCountStep(c: Config, elems: seq<Json>, j: nat)
    requires 0 < j <= |elems|
    ensures RoutedCount(c, elems[..j])
         == (if Routed(c, elems[0]) then 1 else 0) + RoutedCount(c, elems[1..][..j - 1])
  {
    hide Routed;
    assert elems[..j][1..] == elems[1..][..j - 1];
  }

  lemma {:induction false} RoutedCountNone(c: Config)
    ensures RoutedCount(c, []) == 0
  {
  }

  lemma {:induction false} CallsDeliver(c: Config, elems: seq<Json>)
    ensures Delivers(c, CallsFor(c, elems), elems)
  {
    hide ToLua, Represents, Names, WidgetOf, CallsFor, RoutedCount, Routed;
    CallsForNone(c);
    RoutedCountNone(c);
    if elems != [] {
      var e, rest := elems[0], elems[1..];
      CallsDeliver(c, rest);
      CallsForOne(c, e);
      CallsForCons(c, e, rest);
      assert elems == [e] + rest && elems[..|elems|] == elems && rest[..|rest|] == rest;
      RoutedCountStep(c, elems, |elems|);
      assert elems[..0] == [];
      forall j: nat | j < |elems| && Routed(c, elems[j]) ensures DeliveredAt(c, CallsFor(c, elems), elems, j) {
        if j == 0 {
          RoutedToWidget(c, e);
          LuaRepresents(e);
        } else {
          RoutedCountStep(c, elems, j);
          assert DeliveredAt(c, CallsFor(c, rest), rest, j - 1);
        }
      }
    }
  }

  lemma {:induction false} RoutedToWidget(c: Config, j: Json)
    requires Routed(c, j)
    ensures 0 <= WidgetOf(j.entries) < c.nwidgets && Names(j.entries, WidgetOf(j.entries))
  {
    RoutedExactly(c, j.entries, WidgetOf(j.entries));
  }

  /** The name that a widget's segments are printed with routes their events back to that widget. */
  lemma {:induction false} PrintedNameRoutesBack(c: Config, entries: seq<Entry>, k: nat)
    requires k < c.nwidgets && 0 <= NameIndex(entries)
    requires entries[NameIndex(entries)].value == JStr(Decimal(k))
    ensures k <= INT_MAX ==> CallsFor(c, [JObj(entries)]) == [(k, ToLua(JObj(entries)))]
    ensures k > INT_MAX ==> CallsFor(c, [JObj(entries)]) == []
  {
    WidgetOfName(entries);
    PrintedIndexParses(k);
    CallsForOne(c, JObj(entries));
  }
}
