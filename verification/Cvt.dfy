/**
 The dbus plugin's conversion of GVariants to Lua values (plugins/dbus/cvt.c), with its recursion limit and
 its use of the Lua stack.
 */
module Cvt {
  import opened Common
  import opened LuaVm
  import opened ParseInt
  import opened Wrappers

  /** The limit that cvt() gives. */
  const LIMIT: nat := 200
  /** The slots that cvt() asks lua_checkstack() for. */
  const SLOTS: nat := 210
  /** The size of the buffer that integers are printed to. */
  const NBUF: nat := 32

  type Int64 = n: int | -0x8000_0000_0000_0000 <= n < 0x1_0000_0000_0000_0000

  /** Containers are arrays, tuples and dictionary entries; strings include object paths and signatures. */
  datatype GVariant =
    | Bool(b: bool)
    | Integer(n: Int64)
    | Double(r: real)
    | Str(s: string)
    | Boxed(v: GVariant)
    | Container(children: seq<GVariant>)
    | Handle(typeString: string)

  const TOO_DEEP := Closure([Nil, String("depth limit exceeded")])
  const TOO_BIG := Closure([Nil, String("array would be too big")])
  const NO_MEMORY := Closure([Nil, String("out of memory")])

  // ---- Integers ----

  /** What printf("%d") and its relatives write. */
  function Signed(n: int): string {
    if n < 0 then "-" + Decimal(-n) else Decimal(n)
  }

  function Pow10(k: nat): nat {
    if k == 0 then 1 else 10 * Pow10(k - 1)
  }

  lemma {:induction false} DecimalSize(n: nat, k: nat)
    requires k >= 1 && n < Pow10(k)
    ensures |Decimal(n)| <= k
  {
    if n < 10 {
    } else {
      assert k > 1;
      DecimalSize(n / 10, k - 1);
    }
  }

  /** Every integer of D-Bus fits the buffer, and its text denotes it. */
  lemma {:induction false} IntegersFit(n: Int64)
    ensures |Signed(n)| < NBUF
    ensures n >= 0 ==> Value(Signed(n)) == n
    ensures n < 0 ==> Signed(n)[0] == '-' && Value(Signed(n)[1..]) == -n
  {
    assert Pow10(5) == 100000;
    assert Pow10(10) == 100000 * Pow10(5);
    assert Pow10(15) == 100000 * Pow10(10);
    assert Pow10(20) == 100000 * Pow10(15);
    DecimalSize(if n < 0 then -n else n, 20);
    ValueOfDecimal(if n < 0 then -n else n);
    assert n < 0 ==> Signed(n)[1..] == Decimal(-n);
  }

  // ---- What is pushed ----

  /** The value of a leaf. */
  function Leaf(v: GVariant): Lua
    requires !v.Boxed? && !v.Container?
  {
    match v
    case Bool(b) => Boolean(b)
    case Integer(n) => String(Signed(n))
    case Double(r) => Number(r)
    case Str(s) => String(s)
    case Handle(t) => Closure([String(t)])
  }

  /** The Lua value of `v` under the limit `r`; both a container and its list of children are charged. */
  function Converted(v: GVariant, r: nat, maxi: nat): Lua
    decreases v, 1
  {
    if r == 0 then TOO_DEEP
    else
      match v
      case Boxed(w) => Converted(w, r - 1, maxi)
      case Container(children) =>
        if r == 1 then TOO_DEEP
        else if |children| > maxi then TOO_BIG
        else Table(Elements(children, r - 2, maxi))
      case _ => Leaf(v)
  }

  function Elements(children: seq<GVariant>, r: nat, maxi: nat): map<Key, Lua>
    decreases children, 0
  {
    var n := |children|;
    if n == 0 then map[]
    else SetEntry(Elements(children[..n - 1], r, maxi), IntKey(n), Converted(children[n - 1], r, maxi))
  }

  /** The children keep their positions 1, 2, ..., without holes. */
  lemma {:induction false} ElementAt(children: seq<GVariant>, r: nat, maxi: nat, k: Key)
    ensures k in Elements(children, r, maxi) <==> k.IntKey? && 1 <= k.n <= |children|
    ensures k in Elements(children, r, maxi) ==>
              Elements(children, r, maxi)[k] == Converted(children[k.n - 1], r, maxi)
  {
    if children == [] {
    } else {
      var n := |children| - 1;
      ElementAt(children[..n], r, maxi, k);
      NeverNil(children[n], r, maxi);
    }
  }

  lemma {:induction false} NeverNil(v: GVariant, r: nat, maxi: nat)
    ensures !Converted(v, r, maxi).Nil?
  {
    if r > 0 && v.Boxed? {
      NeverNil(v.v, r - 1, maxi);
    }
  }

  lemma {:induction false} ElementsStep(children: seq<GVariant>, r: nat, maxi: nat, i: nat)
    requires i < |children|
    ensures Elements(children[..i + 1], r, maxi)
         == SetEntry(Elements(children[..i], r, maxi), IntKey(i + 1), Converted(children[i], r, maxi))
  {
    assert children[..i + 1][..i] == children[..i];
  }

  // ---- The code ----

  /** push_special_object() */
  method PushSpecialObject(l: LuaState, s: string, isError: bool)
    requires |l.stack| + 2 <= l.limit
    modifies l
    ensures l.stack == old(l.stack) + [Closure(if isError then [Nil, String(s)] else [String(s)])]
    ensures l.peak <= Max(old(l.peak), |old(l.stack)| + if isError then 2 else 1)
  {
    var numUpvalues := 1;
    if isError {
      l.Push(Nil);
      numUpvalues := 2;
    }
    l.Push(String(s));
    assert isError ==> l.stack == old(l.stack) + [Nil, String(s)];
    l.PushClosure(numUpvalues);
  }

  /** push_small_fstr() of an integer; vsnprintf() would cut what does not fit the buffer, but all do. */
  method PushInteger(l: LuaState, n: Int64)
    requires |l.stack| < l.limit
    modifies l
    ensures l.stack == old(l.stack) + [String(Signed(n))]
    ensures l.peak == Max(old(l.peak), |l.stack|)
  {
    var text := Signed(n);
    IntegersFit(n);
    assert |text| < NBUF;
    l.Push(String(text));
  }

  /** push_gvariant_iterable(), called with the limit already charged once. */
  method PushIterable(l: LuaState, v: GVariant, r: nat, maxi: nat)
    requires v.Container? && |l.stack| + (r + 1) / 2 + 2 <= l.limit
    modifies l
    ensures l.stack == old(l.stack) + [Converted(v, r + 1, maxi)]
    ensures l.peak <= Max(old(l.peak), |old(l.stack)| + (r + 1) / 2 + 2)
    decreases v, 0
  {
    hide Elements, Signed;
    if r == 0 {
      PushSpecialObject(l, "depth limit exceeded", true);
      return;
    }
    var children := v.children;
    if |children| > maxi {
      PushSpecialObject(l, "array would be too big", true);
      return;
    }
    ghost var below := l.stack;
    l.Push(Table(map[]));
    NoElements(children, r - 1, maxi);
    for i := 0 to |children|
      invariant l.stack == below + [Table(Elements(children[..i], r - 1, maxi))]
      invariant l.peak <= Max(old(l.peak), |below| + (r + 1) / 2 + 2)
    {
      PushGVariant(l, children[i], r - 1, maxi);
      ElementsStep(children, r - 1, maxi, i);
      l.RawSetI(i + 1);
    }
    assert children[..|children|] == children;
  }

  lemma {:induction false} NoElements(children: seq<GVariant>, r: nat, maxi: nat)
    ensures Elements(children[..0], r, maxi) == map[]
  {
  }

  /** push_gvariant(): exactly one value, within r / 2 + 2 slots. */
  method PushGVariant(l: LuaState, v: GVariant, r: nat, maxi: nat)
    requires |l.stack| + r / 2 + 2 <= l.limit
    modifies l
    ensures l.stack == old(l.stack) + [Converted(v, r, maxi)]
    ensures l.peak <= Max(old(l.peak), |old(l.stack)| + r / 2 + 2)
    decreases v, 1
  {
    hide Elements, Signed;
    if r == 0 {
      PushSpecialObject(l, "depth limit exceeded", true);
      return;
    }
    match v
    case Bool(b) =>
      l.Push(Boolean(b));
    case Integer(n) =>
      PushInteger(l, n);
    case Double(d) =>
      l.Push(Number(d));
    case Str(s) =>
      l.Push(String(s));
    case Boxed(w) =>
      PushGVariant(l, w, r - 1, maxi);
    case Container(_) =>
      PushIterable(l, v, r - 1, maxi);
    case Handle(t) =>
      PushSpecialObject(l, t, false);
  }

  /** cvt(): of the slots it reserves it needs at most 102. The caller has the two that the error object
      takes, as any C function has. */
  method CvtVariant(l: LuaState, v: Option<GVariant>, maxi: nat)
    requires |l.stack| + 2 <= l.limit
    modifies l
    ensures l.stack == old(l.stack)
        + [match v
           case None => Nil
           case Some(w) => if |old(l.stack)| + SLOTS <= l.limit then Converted(w, LIMIT, maxi) else NO_MEMORY]
    ensures l.peak <= Max(old(l.peak), |old(l.stack)| + 102)
  {
    if v.None? {
      l.Push(Nil);
      return;
    }
    if |l.stack| + SLOTS <= l.limit {
      PushGVariant(l, v.value, LIMIT, maxi);
    } else {
      PushSpecialObject(l, "out of memory", true);
    }
  }

  // ---- What the limit means ----

  /** The height of `v`, where a container counts twice; an array that is too big is not looked into. */
  ghost function Height(v: GVariant, maxi: nat): nat
    decreases v, 1
  {
    match v
    case Boxed(w) => 1 + Height(w, maxi)
    case Container(children) => 2 + if |children| > maxi then 0 else HeightOfAll(children, maxi)
    case _ => 1
  }

  ghost function HeightOfAll(children: seq<GVariant>, maxi: nat): (h: nat)
    ensures forall i | 0 <= i < |children| :: Height(children[i], maxi) <= h
    ensures h == 0 || exists i | 0 <= i < |children| :: Height(children[i], maxi) == h
    decreases children, 0
  {
    if children == [] then 0
    else
      var n := |children| - 1;
      Max(HeightOfAll(children[..n], maxi), Height(children[n], maxi))
  }

  /** Whether the depth marker occurs in a value. */
  ghost predicate Marked(a: Lua) {
    a == TOO_DEEP || (a.Table? && exists k | k in a.entries :: Marked(a.entries[k]))
  }

  /** `a` is `b`, except that values may be replaced by the depth marker. */
  ghost predicate CutFrom(a: Lua, b: Lua) {
    || a == TOO_DEEP
    || a == b
    || (a.Table? && b.Table? && a.entries.Keys == b.entries.Keys
        && forall k | k in a.entries :: CutFrom(a.entries[k], b.entries[k]))
  }

  /** The depth marker occurs exactly if the height exceeds the limit. */
  lemma {:induction false} MarkedExactly(v: GVariant, r: nat, maxi: nat)
    ensures Marked(Converted(v, r, maxi)) <==> Height(v, maxi) > r
    decreases v, 1
  {
    hide Elements, Signed, HeightOfAll;
    if r == 0 {
    } else {
      match v
      case Boxed(w) => MarkedExactly(w, r - 1, maxi);
      case Container(children) =>
        if r > 1 && |children| <= maxi {
          TableMarked(children, r - 2, maxi);
        }
      case _ =>
    }
  }

  lemma {:induction false} TableMarked(children: seq<GVariant>, r: nat, maxi: nat)
    ensures Marked(Table(Elements(children, r, maxi))) <==> HeightOfAll(children, maxi) > r
    decreases children, 0
  {
    hide Elements, Height, Converted, HeightOfAll;
    var all := Elements(children, r, maxi);
    forall k | k in all
      ensures k.IntKey? && 1 <= k.n <= |children|
      ensures Marked(all[k]) <==> Height(children[k.n - 1], maxi) > r
    {
      ElementAt(children, r, maxi, k);
      MarkedExactly(children[k.n - 1], r, maxi);
    }
    if HeightOfAll(children, maxi) > r {
      var i: nat :| i < |children| && Height(children[i], maxi) == HeightOfAll(children, maxi);
      ElementAt(children, r, maxi, IntKey(i + 1));
      assert Marked(all[IntKey(i + 1)]);
    }
  }

  // ---- What a Lua program finds ----

  function Unboxed(v: GVariant): GVariant {
    if v.Boxed? then Unboxed(v.v) else v
  }

  /** The part of a value at the end of a path of positions; boxes do not count. */
  function Find(v: GVariant, path: seq<Key>): Option<GVariant>
    decreases |path|
  {
    var u := Unboxed(v);
    if path == [] then Some(u)
    else if u.Container? && path[0].IntKey? && 1 <= path[0].n <= |u.children|
    then Find(u.children[path[0].n - 1], path[1..])
    else None
  }

  /** Whether a text is that of an integer. */
  predicate IsTextOf(s: string, n: int) {
    if s != "" && s[0] == '-' then AllDigits(s[1..]) && n == -(Value(s[1..]) as int)
    else s != "" && AllDigits(s) && n == Value(s)
  }

  predicate StandsFor(l: Lua, v: Option<GVariant>) {
    match v
    case None => l == Nil
    case Some(Bool(b)) => l == Boolean(b)
    case Some(Integer(n)) => l.String? && IsTextOf(l.s, n)
    case Some(Double(r)) => l == Number(r)
    case Some(Str(s)) => l == String(s)
    case Some(Handle(t)) => l == Closure([String(t)])
    case Some(Container(_)) => l.Table?
    case Some(Boxed(_)) => false
  }

  /** No array is too big for Lua's indices. */
  ghost predicate ArraysFit(v: GVariant, maxi: nat) {
    match v
    case Boxed(w) => ArraysFit(w, maxi)
    case Container(children) => |children| <= maxi && forall i | 0 <= i < |children| :: ArraysFit(children[i], maxi)
    case _ => true
  }

  lemma {:induction false} TextIs(n: Int64)
    ensures IsTextOf(Signed(n), n)
  {
    IntegersFit(n);
  }

  /** Within the limit, and if no array is too big, a Lua program finds everything by its positions, whatever it is
      boxed in: what it finds is no marker but the value that is there. */
  lemma {:induction false} FoundInLua(v: GVariant, r: nat, maxi: nat, path: seq<Key>)
    requires Height(v, maxi) <= r && ArraysFit(v, maxi)
    ensures StandsFor(Get(Converted(v, r, maxi), path), Find(v, path))
    decreases v
  {
    hide Signed, IsTextOf, Elements;
    match v
    case Boxed(w) => FoundInLua(w, r - 1, maxi, path);
    case Container(children) =>
      if path != [] {
        var k, rest := path[0], path[1..];
        NowhereToGo(rest);
        ElementAt(children, r - 2, maxi, k);
        if k.IntKey? && 1 <= k.n <= |children| {
          FoundInLua(children[k.n - 1], r - 2, maxi, rest);
        }
      }
    case Integer(n) => TextIs(n);
    case _ =>
  }

  /** A larger limit gives the same value, except in the place of depth markers; so under a limit that is no
      less than the height, the value does not depend on the limit. */
  lemma {:induction false} LimitOnlyCuts(v: GVariant, r: nat, more: nat, maxi: nat)
    requires r <= more
    ensures CutFrom(Converted(v, r, maxi), Converted(v, more, maxi))
    ensures Height(v, maxi) <= r ==> Converted(v, r, maxi) == Converted(v, more, maxi)
    decreases v
  {
    if r > 0 && v.Boxed? {
      LimitOnlyCuts(v.v, r - 1, more - 1, maxi);
    } else if r > 1 && v.Container? && |v.children| <= maxi {
      var children := v.children;
      var few, all := Elements(children, r - 2, maxi), Elements(children, more - 2, maxi);
      forall k
        ensures k in few <==> k in all
        ensures k in few ==> CutFrom(few[k], all[k]) && (Height(v, maxi) <= r ==> few[k] == all[k])
      {
        ElementAt(children, r - 2, maxi, k);
        ElementAt(children, more - 2, maxi, k);
        if k in few {
          LimitOnlyCuts(children[k.n - 1], r - 2, more - 2, maxi);
        }
      }
      assert few.Keys == all.Keys;
      if Height(v, maxi) <= r {
        assert few == all;
      }
    }
  }
}
