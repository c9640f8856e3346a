/**
 The set of strings of the network-linux plugin (strset.c, strset_mergesort.c, strset_binsearch.c) and
 how the plugin uses it (network.c).
 */
module StrSet {
  import opened Common
  import opened Wrappers

  // ---- strcmp() ----

  /** strcmp(a, b) <= 0 */
  predicate LessEq(a: string, b: string) {
    a == "" || (b != "" && (a[0] < b[0] || (a[0] == b[0] && LessEq(a[1..], b[1..]))))
  }

  lemma {:induction false} LessEqTotal(a: string, b: string)
    ensures LessEq(a, b) || LessEq(b, a)
    ensures LessEq(a, b) && LessEq(b, a) <==> a == b
  {
    if a == "" || b == "" {
    } else {
      LessEqTotal(a[1..], b[1..]);
      assert a == [a[0]] + a[1..] && b == [b[0]] + b[1..];
    }
  }

  lemma {:induction false} LessEqTransitive(a: string, b: string, c: string)
    requires LessEq(a, b) && LessEq(b, c)
    ensures LessEq(a, c)
  {
    if a != "" && a[0] == b[0] && b[0] == c[0] {
      LessEqTransitive(a[1..], b[1..], c[1..]);
    }
  }

  // ---- Sorting ----

  /** A C string: ones that are equal may be at different addresses. */
  datatype CStr = CStr(addr: nat, text: string)

  ghost predicate Sorted(s: seq<CStr>) {
    forall i, j | 0 <= i < j < |s| :: LessEq(s[i].text, s[j].text)
  }

  function Merge(a: seq<CStr>, b: seq<CStr>): (r: seq<CStr>)
    ensures |r| == |a| + |b|
    decreases |a| + |b|
  {
    if a == [] then b
    else if b == [] then a
    else if LessEq(a[0].text, b[0].text) then [a[0]] + Merge(a[1..], b)
    else [b[0]] + Merge(a, b[1..])
  }

  function MergeSorted(s: seq<CStr>): (r: seq<CStr>)
    ensures |r| == |s|
    decreases |s|
  {
    if |s| < 2 then s else Merge(MergeSorted(s[..|s| / 2]), MergeSorted(s[|s| / 2..]))
  }

  /** The elements with a given text, in order. */
  function With(s: seq<CStr>, text: string): seq<CStr> {
    if s == [] then [] else One(s[0], text) + With(s[1..], text)
  }

  function One(x: CStr, text: string): seq<CStr> {
    if x.text == text then [x] else []
  }

  lemma {:induction false} WithConcat(a: seq<CStr>, b: seq<CStr>, text: string)
    ensures With(a + b, text) == With(a, text) + With(b, text)
  {
    hide One;
    if a == [] {
      assert a + b == b;
    } else {
      WithConcat(a[1..], b, text);
      assert (a + b)[1..] == a[1..] + b && (a + b)[0] == a[0];
      Associative(One(a[0], text), With(a[1..], text), With(b, text));
    }
  }

  lemma {:induction false} WithNone(s: seq<CStr>, text: string)
    requires forall x | x in s :: x.text != text
    ensures With(s, text) == []
  {
    if s == [] {
    } else {
      WithNone(s[1..], text);
    }
  }

  lemma {:induction false} WithCons(x: CStr, s: seq<CStr>, text: string)
    ensures With([x] + s, text) == One(x, text) + With(s, text)
  {
    assert ([x] + s)[1..] == s;
  }

  /** In a sorted sequence that begins above a text, nothing has that text. */
  lemma {:induction false} NoneBelow(s: seq<CStr>, text: string)
    requires Sorted(s) && s != [] && !LessEq(s[0].text, text)
    ensures With(s, text) == []
  {
    LessEqTotal(text, text);
    forall x | x in s ensures x.text != text {
      var i: nat :| i < |s| && s[i] == x;
      assert i > 0 ==> LessEq(s[0].text, s[i].text);
    }
    WithNone(s, text);
  }

  /** A merge is stable: elements with equal texts stay in order, those of `a` first. */
  lemma {:induction false} MergeStable(a: seq<CStr>, b: seq<CStr>, text: string)
    requires Sorted(a) && Sorted(b)
    ensures With(Merge(a, b), text) == With(a, text) + With(b, text)
    decreases |a| + |b|
  {
    hide LessEq, One;
    if a == [] || b == [] {
      assert [] + With(b, text) == With(b, text) && With(a, text) + [] == With(a, text);
    } else if LessEq(a[0].text, b[0].text) {
      MergeStable(a[1..], b, text);
      WithCons(a[0], Merge(a[1..], b), text);
      Associative(One(a[0], text), With(a[1..], text), With(b, text));
    } else {
      MergeStable(a, b[1..], text);
      WithCons(b[0], Merge(a, b[1..]), text);
      OneIf(b[0], text);
      if b[0].text == text {
        NoneBelow(a, text);
        assert One(b[0], text) + ([] + With(b[1..], text)) == [] + (One(b[0], text) + With(b[1..], text));
      } else {
        assert [] + (With(a, text) + With(b[1..], text)) == With(a, text) + ([] + With(b[1..], text));
      }
    }
  }

  lemma {:induction false} OneIf(x: CStr, text: string)
    ensures One(x, text) == if x.text == text then [x] else []
  {
  }

  lemma {:induction false} MergeElements(a: seq<CStr>, b: seq<CStr>)
    ensures forall x :: x in Merge(a, b) <==> x in a || x in b
    decreases |a| + |b|
  {
    if a == [] || b == [] {
    } else {
      if LessEq(a[0].text, b[0].text) {
        MergeElements(a[1..], b);
        assert a == [a[0]] + a[1..];
      } else {
        MergeElements(a, b[1..]);
        assert b == [b[0]] + b[1..];
      }
    }
  }

  lemma {:induction false} MergeSortedness(a: seq<CStr>, b: seq<CStr>)
    requires Sorted(a) && Sorted(b)
    ensures Sorted(Merge(a, b))
    decreases |a| + |b|
  {
    if a == [] || b == [] {
    } else {
      LessEqTotal(a[0].text, b[0].text);
      if LessEq(a[0].text, b[0].text) {
        MergeSortedness(a[1..], b);
        MergeElements(a[1..], b);
        FirstIsLeast(a[0], a, b);
        SortedCons(a[0], Merge(a[1..], b));
      } else {
        MergeSortedness(a, b[1..]);
        MergeElements(a, b[1..]);
        FirstIsLeast(b[0], b, a);
        SortedCons(b[0], Merge(a, b[1..]));
      }
    }
  }

  lemma {:induction false} FirstIsLeast(x: CStr, own: seq<CStr>, other: seq<CStr>)
    requires Sorted(own) && Sorted(other) && own != [] && x == own[0]
    requires other != [] ==> LessEq(x.text, other[0].text)
    ensures forall y | y in own[1..] || y in other :: LessEq(x.text, y.text)
  {
    forall y | y in own[1..] || y in other ensures LessEq(x.text, y.text) {
      if y in own[1..] {
        var i: nat :| i < |own[1..]| && own[1..][i] == y;
        assert own[i + 1] == y;
      } else {
        var i: nat :| i < |other| && other[i] == y;
        if i > 0 {
          LessEqTransitive(x.text, other[0].text, y.text);
        }
      }
    }
  }

  lemma {:induction false} SortedCons(x: CStr, s: seq<CStr>)
    requires Sorted(s) && forall y | y in s :: LessEq(x.text, y.text)
    ensures Sorted([x] + s)
  {
    forall i, j | 0 <= i < j < |s| + 1 ensures LessEq(([x] + s)[i].text, ([x] + s)[j].text) {
      assert i > 0 ==> LessEq(s[i - 1].text, s[j - 1].text);
      assert s[j - 1] in s;
    }
  }

  /** Merge sort sorts, and is stable; so it also permutes. */
  lemma {:induction false} MergeSortedIsSorted(s: seq<CStr>)
    ensures Sorted(MergeSorted(s))
    ensures forall text :: With(MergeSorted(s), text) == With(s, text)
    ensures forall x :: x in MergeSorted(s) <==> x in s
    decreases |s|
  {
    hide Merge, MergeSorted, LessEq, Sorted, With;
    MergeSortedHalves(s);
    if |s| < 2 {
      ShortIsSorted(s);
    } else {
      var l, r := s[..|s| / 2], s[|s| / 2..];
      MergeSortedIsSorted(l);
      MergeSortedIsSorted(r);
      MergeSortedness(MergeSorted(l), MergeSorted(r));
      MergeElements(MergeSorted(l), MergeSorted(r));
      assert s == l + r;
      forall text ensures With(MergeSorted(s), text) == With(s, text) {
        MergeStable(MergeSorted(l), MergeSorted(r), text);
        WithConcat(l, r, text);
      }
    }
  }

  lemma {:induction false} ShortIsSorted(s: seq<CStr>)
    requires |s| < 2
    ensures Sorted(s)
  {
  }

  // ---- Sorting in place ----

  /** `s` with `x` written over it from `lo` on. */
  ghost function Over(s: seq<CStr>, lo: nat, x: seq<CStr>): (r: seq<CStr>)
    requires lo + |x| <= |s|
    ensures |r| == |s|
  {
    s[..lo] + x + s[lo + |x|..]
  }

  lemma {:induction false} OverNothing(s: seq<CStr>, lo: nat)
    requires lo <= |s|
    ensures Over(s, lo, []) == s
  {
  }

  lemma {:induction false} OverMore(s: seq<CStr>, lo: nat, x: seq<CStr>, c: CStr)
    requires lo + |x| < |s|
    ensures Over(s, lo, x)[lo + |x| := c] == Over(s, lo, x + [c])
  {
  }

  lemma {:induction false} OverTwice(s: seq<CStr>, lo: nat, x: seq<CStr>, y: seq<CStr>)
    requires lo + |x| + |y| <= |s|
    ensures Over(Over(s, lo, x), lo + |x|, y) == Over(s, lo, x + y)
  {
  }

  lemma {:induction false} OverHalves(a: seq<CStr>, x: seq<CStr>, y: seq<CStr>)
    ensures |x| <= |a| ==> Over(a, 0, x) == x + a[|x|..]
    ensures |a| == |x| + |y| ==> Over(a, 0, x + y) == x + y
    ensures |a| == |x| + |y| ==> (x + a[|x|..])[|x|..] == a[|x|..] && Over(x + a[|x|..], |x|, y) == x + y
  {
  }

  /** copy(); the source and the destination are different allocations. */
  method Copy(dst: array<CStr>, d: nat, src: array<CStr>, s: nat, n: nat)
    requires d + n <= dst.Length && s + n <= src.Length && dst != src
    modifies dst
    ensures dst[..] == Over(old(dst[..]), d, src[s..s + n])
  {
    hide Over;
    ghost var was := dst[..];
    OverNothing(was, d);
    assert src[s..s + 0] == [];
    for i := 0 to n
      invariant dst[..] == Over(was, d, src[s..s + i])
    {
      OverMore(was, d, src[s..s + i], src[s + i]);
      assert src[s..s + i + 1] == src[s..s + i] + [src[s + i]];
      ghost var before := dst[..];
      dst[d + i] := src[s + i];
      assert dst[..] == before[d + i := src[s + i]];
    }
  }

  /** strset_mergesort() of `n` elements from `lo` on; the halves are sorted in the auxiliary array. */
  method MergeSort(data: array<CStr>, lo: nat, n: nat)
    requires lo + n <= data.Length
    modifies data
    ensures data[..] == Over(old(data[..]), lo, MergeSorted(old(data[lo..lo + n])))
    decreases n, 1
  {
    hide Merge, MergeSorted, Over;
    ghost var s := data[lo..lo + n];
    MergeSortedHalves(s);
    if n < 2 {
      OverItself(data[..], lo, n);
      return;
    }
    var aux := new CStr[n](_ => CStr(0, ""));
    SortHalves(data, lo, n, aux);
    MergeBack(data, lo, aux, MergeSorted(s[..n / 2]), MergeSorted(s[n / 2..]));
  }

  /** The two halves are copied to the auxiliary array and sorted there. */
  method SortHalves(data: array<CStr>, lo: nat, n: nat, aux: array<CStr>)
    requires lo + n <= data.Length && n >= 2 && aux.Length == n && aux != data
    modifies aux
    ensures aux[..] == MergeSorted(data[lo..lo + n][..n / 2]) + MergeSorted(data[lo..lo + n][n / 2..])
    decreases n, 0
  {
    hide Merge, MergeSorted, Over;
    var nleft := n / 2;
    ghost var l, r, was := data[lo..lo + n][..nleft], data[lo..lo + n][nleft..], aux[..];
    Halves(data[..], lo, nleft, n);
    Copy(aux, 0, data, lo, nleft);
    Copy(aux, nleft, data, lo + nleft, n - nleft);
    assert aux[..] == l + r by {
      OverHalves(was, l, r);
      OverTwice(was, 0, l, r);
    }
    assert aux[0..0 + nleft] == l by {
      Slices(l, r);
    }
    MergeSort(aux, 0, nleft);
    assert aux[..] == MergeSorted(l) + r by {
      Slices(l, r);
      OverHalves(l + r, MergeSorted(l), MergeSorted(r));
    }
    assert aux[nleft..nleft + (n - nleft)] == r by {
      Slices(MergeSorted(l), r);
    }
    MergeSort(aux, nleft, n - nleft);
    assert aux[..] == MergeSorted(l) + MergeSorted(r) by {
      Slices(l, r);
      OverHalves(l + r, MergeSorted(l), MergeSorted(r));
    }
  }

  lemma {:induction false} Slices(a: seq<CStr>, b: seq<CStr>)
    ensures (a + b)[0..0 + |a|] == a && (a + b)[|a|..] == b == (a + b)[|a|..|a| + |b|]
  {
  }

  lemma {:induction false} OverItself(s: seq<CStr>, lo: nat, n: nat)
    requires lo + n <= |s|
    ensures Over(s, lo, s[lo..lo + n]) == s
  {
  }

  lemma {:induction false} MergeSortedHalves(s: seq<CStr>)
    ensures MergeSorted(s) == if |s| < 2 then s else Merge(MergeSorted(s[..|s| / 2]), MergeSorted(s[|s| / 2..]))
  {
  }

  lemma {:induction false} Halves(data: seq<CStr>, lo: nat, k: nat, n: nat)
    requires lo + n <= |data| && k <= n
    ensures data[lo..lo + k] == data[lo..lo + n][..k]
    ensures data[lo + k..lo + k + (n - k)] == data[lo..lo + n][k..]
  {
  }

  /** One step of the merging loop: the smaller of the two first elements moves to the output. */
  lemma {:induction false} MergeStep(done: seq<CStr>, a: seq<CStr>, b: seq<CStr>)
    requires a != [] && b != []
    ensures LessEq(a[0].text, b[0].text) ==> done + Merge(a, b) == done + [a[0]] + Merge(a[1..], b)
    ensures !LessEq(a[0].text, b[0].text) ==> done + Merge(a, b) == done + [b[0]] + Merge(a, b[1..])
  {
    Associative(done, [a[0]], Merge(a[1..], b));
    Associative(done, [b[0]], Merge(a, b[1..]));
  }

  lemma {:induction false} MergeWithNothing(done: seq<CStr>, a: seq<CStr>, b: seq<CStr>)
    requires a == [] || b == []
    ensures done + Merge(a, b) == done + a + b
  {
  }

  /** The loops of strset_mergesort(): `aux` holds the two sorted halves. */
  method MergeBack(data: array<CStr>, lo: nat, aux: array<CStr>, ghost l: seq<CStr>, ghost r: seq<CStr>)
    requires lo + aux.Length <= data.Length && aux != data && aux[..] == l + r && |l| == aux.Length / 2
    modifies data
    ensures data[..] == Over(old(data[..]), lo, Merge(l, r))
  {
    hide Merge, LessEq, Over;
    var nleft := aux.Length / 2;
    var nright := aux.Length - nleft;
    ghost var was := data[..];
    var i, j;
    ghost var done;
    i, j, done := MergeHeads(data, lo, aux, nleft, l, r);
    MergeWithNothing(done, l[i..], r[j..]);
    // the two loops that move what is left of one half
    assert aux[i..i + (nleft - i)] == l[i..] && aux[nleft + j..nleft + j + (nright - j)] == r[j..];
    OverTwice(was, lo, done, l[i..]);
    OverTwice(was, lo, done + l[i..], r[j..]);
    Copy(data, lo + i + j, aux, i, nleft - i);
    Copy(data, lo + nleft + j, aux, nleft + j, nright - j);
  }

  /** The loop that runs while both halves have something left. */
  method MergeHeads(data: array<CStr>, lo: nat, aux: array<CStr>, nleft: nat, ghost l: seq<CStr>, ghost r: seq<CStr>)
    returns (i: nat, j: nat, ghost done: seq<CStr>)
    requires lo + aux.Length <= data.Length && aux != data && aux[..] == l + r && |l| == nleft
    modifies data
    ensures i <= |l| && j <= |r| && (i == |l| || j == |r|) && |done| == i + j
    ensures done + Merge(l[i..], r[j..]) == Merge(l, r) && data[..] == Over(old(data[..]), lo, done)
  {
    hide Merge, LessEq, Over;
    var nright := aux.Length - nleft;
    i, j, done := 0, 0, [];
    OverNothing(data[..], lo);
    assert l[0..] == l && r[0..] == r && [] + Merge(l, r) == Merge(l, r);
    while i < nleft && j < nright
      invariant i <= nleft && j <= nright && |done| == i + j
      invariant done + Merge(l[i..], r[j..]) == Merge(l, r) && data[..] == Over(old(data[..]), lo, done)
    {
      var elemLeft, elemRight := aux[i], aux[nleft + j];
      assert elemLeft == l[i] && elemRight == r[j] && l[i..][1..] == l[i + 1..] && r[j..][1..] == r[j + 1..];
      MergeStep(done, l[i..], r[j..]);
      ghost var before := data[..];
      if LessEq(elemLeft.text, elemRight.text) {
        OverMore(old(data[..]), lo, done, elemLeft);
        data[lo + i + j] := elemLeft;
        assert data[..] == before[lo + i + j := elemLeft];
        done := done + [elemLeft];
        i := i + 1;
      } else {
        OverMore(old(data[..]), lo, done, elemRight);
        data[lo + i + j] := elemRight;
        assert data[..] == before[lo + i + j := elemRight];
        done := done + [elemRight];
        j := j + 1;
      }
    }
  }

  // ---- Searching ----

  ghost predicate Has(s: seq<CStr>, text: string) {
    exists x :: x in s && x.text == text
  }

  /** strset_binsearch() */
  method BinSearch(data: array<CStr>, n: nat, text: string) returns (found: bool)
    requires n <= data.Length && Sorted(data[..n])
    ensures found <==> Has(data[..n], text)
  {
    var l, r := 0, n;
    ghost var s := data[..n];
    while r - l > 1
      invariant 0 <= l <= r <= n && (n > 0 ==> l < r)
      invariant l > 0 ==> LessEq(s[l].text, text)
      invariant r < n ==> !LessEq(s[r].text, text)
    {
      var m := l + (r - l) / 2;
      if LessEq(data[m].text, text) {
        l := m;
      } else {
        r := m;
      }
    }
    found := l != r && data[l].text == text;
    if found {
      assert s[l] in s;
    } else {
      NotThere(s, text, l, r);
    }
  }

  lemma {:induction false} NotThere(data: seq<CStr>, text: string, l: nat, r: nat)
    requires Sorted(data) && l <= r <= |data| && r - l <= 1 && (data != [] ==> l < r)
    requires l > 0 ==> LessEq(data[l].text, text)
    requires r < |data| ==> !LessEq(data[r].text, text)
    requires l < r ==> data[l].text != text
    ensures !Has(data, text)
  {
    forall x | x in data ensures x.text != text {
      var k: nat :| k < |data| && data[k] == x;
      LessEqTotal(text, text);
      if k < l {
        assert LessEq(data[k].text, data[l].text);
        LessEqTotal(data[l].text, text);
      } else if k > r {
        assert LessEq(data[r].text, data[k].text);
      }
    }
  }

  // ---- The set ----

  class Strset {
    var data: array<CStr>
    var size: nat

    ghost predicate Valid()
      reads this
    {
      size <= data.Length
    }

    ghost function Contents(): seq<CStr>
      requires Valid()
      reads this, data
    {
      data[..size]
    }

    constructor ()
      ensures Valid() && Contents() == [] && fresh(data)
    {
      data, size := new CStr[0](_ => CStr(0, "")), 0;
    }

    /** strset_add(); `x` is the duplicated string. */
    method Add(x: CStr)
      requires Valid()
      modifies this, data
      ensures Valid() && Contents() == old(Contents()) + [x] && (data == old(data) || fresh(data))
    {
      ghost var was := Contents();
      if size == data.Length {
        var grown := new CStr[if size == 0 then 1 else size * 2](_ => CStr(0, ""));
        Copy(grown, 0, data, 0, size);
        assert grown[..size] == data[0..0 + size] == data[..size];
        data := grown;
      }
      data[size] := x;
      size := size + 1;
      assert data[..size] == was + [x];
    }

    /** strset_freeze() */
    method Freeze()
      requires Valid()
      modifies data
      ensures Valid() && Contents() == MergeSorted(old(Contents()))
    {
      assert data[0..0 + size] == data[..size];
      MergeSort(data, 0, size);
    }

    /** strset_contains() */
    method Contains(text: string) returns (found: bool)
      requires Valid() && Sorted(Contents())
      ensures found <==> Has(Contents(), text)
    {
      found := BinSearch(data, size, text);
    }

    /** strset_reset() */
    method Reset()
      requires Valid()
      modifies this
      ensures Valid() && Contents() == [] && data == old(data)
    {
      size := 0;
    }
  }

  // ---- Its use in network.c ----

  /** What the system reports during a call: the interface addresses, unless getifaddrs() fails, and which
      interfaces are wireless. */
  datatype World = World(ifaddrs: Option<seq<string>>, wlan: set<string>)

  /** A call of make_call(): whether it refreshes, and what it finds. */
  datatype Call = Call(refresh: bool, world: World)

  /** The name, unless it has been seen. */
  function Fresh(name: string, seen: set<string>): seq<string> {
    if name in seen then [] else [name]
  }

  /** The names without repetitions; an interface has an address per family. */
  function Firsts(names: seq<string>, seen: set<string>): seq<string> {
    if names == [] then [] else Fresh(names[0], seen) + Firsts(names[1..], seen + {names[0]})
  }

  function Only(names: seq<string>, keep: set<string>): seq<string> {
    if names == [] then [] else Among(names[0], keep) + Only(names[1..], keep)
  }

  function Among(name: string, keep: set<string>): seq<string> {
    if name in keep then [name] else []
  }

  /** The wireless ones of the interfaces. */
  function Found(world: World): set<string>
    requires world.ifaddrs.Some?
  {
    set x | x in world.ifaddrs.value && x in world.wlan
  }

  /** The wireless interfaces found by the last of the calls that refreshed and succeeded. */
  function LastFound(calls: seq<Call>): set<string> {
    if calls == [] then {}
    else
      var n := |calls| - 1;
      if calls[n].refresh && calls[n].world.ifaddrs.Some? then Found(calls[n].world) else LastFound(calls[..n])
  }

  /** What a call reports wireless information of: the wireless interfaces, as of the last successful refresh. */
  function Reported(calls: seq<Call>): Option<seq<string>>
    requires calls != []
  {
    match calls[|calls| - 1].world.ifaddrs
    case None => None
    case Some(names) => Some(Only(Firsts(names, {}), LastFound(calls)))
  }

  lemma {:induction false} OnlySnoc(names: seq<string>, x: string, keep: set<string>)
    ensures Only(names + [x], keep) == Only(names, keep) + Among(x, keep)
  {
    hide Among;
    if names == [] {
      assert (names + [x])[1..] == [] && (names + [x])[0] == x && Among(x, keep) + [] == Among(x, keep) == [] + Among(x, keep);
    } else {
      OnlySnoc(names[1..], x, keep);
      assert (names + [x])[1..] == names[1..] + [x] && (names + [x])[0] == names[0];
      Associative(Among(names[0], keep), Only(names[1..], keep), Among(x, keep));
    }
  }

  lemma {:induction false} FirstsSnoc(names: seq<string>, x: string, seen: set<string>)
    ensures Firsts(names + [x], seen) == Firsts(names, seen) + Fresh(x, seen + set y | y in names)
  {
    hide Fresh;
    if names == [] {
      assert (names + [x])[1..] == [] && (names + [x])[0] == x && seen + (set y | y in names) == seen;
      assert Fresh(x, seen) + [] == Fresh(x, seen) == [] + Fresh(x, seen);
    } else {
      var more := seen + {names[0]};
      FirstsSnoc(names[1..], x, more);
      assert (names + [x])[1..] == names[1..] + [x] && (names + [x])[0] == names[0];
      assert names == [names[0]] + names[1..];
      assert more + (set y | y in names[1..]) == seen + set y | y in names;
      Associative(Fresh(names[0], seen), Firsts(names[1..], more), Fresh(x, more + set y | y in names[1..]));
    }
  }

  /** The texts of the set. */
  ghost predicate Holds(s: seq<CStr>, found: set<string>) {
    forall text :: Has(s, text) <==> text in found
  }

  lemma {:induction false} EmptyHolds()
    ensures Holds([], {}) && Only(Firsts([], {}), {}) == []
    ensures forall keep :: Only(Firsts([], {}), keep) == []
  {
  }

  lemma {:induction false} HoldsSnoc(s: seq<CStr>, found: set<string>, x: CStr, known: bool)
    requires known ==> Holds(s, found)
    ensures known ==> Holds(s + [x], found + {x.text})
  {
    if known {
      forall text ensures Has(s + [x], text) <==> text in found + {x.text} {
        assert x in s + [x];
        assert forall y :: y in s + [x] <==> y in s || y == x;
        assert Has(s, text) <==> text in found;
      }
    }
  }

  lemma {:induction false} InjectStep(names: seq<string>, x: string, keep: set<string>)
    ensures Only(Firsts(names + [x], {}), keep)
         == Only(Firsts(names, {}), keep) + if x !in names && x in keep then [x] else []
  {
    hide Only, Firsts;
    FirstsSnoc(names, x, {});
    assert {} + (set y | y in names) == set y | y in names;
    OnlySnoc(Firsts(names, {}), x, keep);
    assert Firsts(names, {}) + [] == Firsts(names, {});
  }

  lemma {:induction false} FreezingHolds(s: seq<CStr>, found: set<string>)
    requires Holds(s, found)
    ensures Holds(MergeSorted(s), found) && Sorted(MergeSorted(s))
  {
    MergeSortedIsSorted(s);
    forall text ensures Has(MergeSorted(s), text) <==> Has(s, text) {
    }
  }

  class Plugin {
    const wlanIfaces: Strset
    const reportWireless: bool
    ghost var calls: seq<Call>

    /** Between calls the set is frozen, and is what the last successful refresh found. */
    ghost predicate Valid()
      reads this, wlanIfaces, wlanIfaces.data
    {
      && wlanIfaces.Valid()
      && Sorted(wlanIfaces.Contents())
      && Holds(wlanIfaces.Contents(), if reportWireless then LastFound(calls) else {})
    }

    constructor (reportWireless: bool)
      ensures Valid() && calls == [] && this.reportWireless == reportWireless
      ensures fresh(wlanIfaces) && fresh(wlanIfaces.data)
    {
      wlanIfaces := new Strset();
      this.reportWireless, calls := reportWireless, [];
    }

    /** Whether an interface is wireless: asked of the system when refreshing, looked up otherwise. */
    method IsWlan(refresh: bool, world: World, name: string, addr: nat, ghost keep: set<string>)
      returns (isWlan: bool)
      requires wlanIfaces.Valid()
      requires !refresh ==> Sorted(wlanIfaces.Contents()) && Holds(wlanIfaces.Contents(), keep)
      modifies wlanIfaces, wlanIfaces.data
      ensures wlanIfaces.Valid() && (wlanIfaces.data == old(wlanIfaces.data) || fresh(wlanIfaces.data))
      ensures isWlan == (name in if refresh then world.wlan else keep)
      ensures wlanIfaces.Contents()
           == old(wlanIfaces.Contents()) + if refresh && isWlan then [CStr(addr, name)] else []
    {
      if refresh {
        isWlan := name in world.wlan;
        if isWlan {
          wlanIfaces.Add(CStr(addr, name));
        }
      } else {
        isWlan := wlanIfaces.Contains(name);
      }
    }

    /** The loop of make_call() over the interface addresses. */
    method Inject(refresh: bool, world: World, names: seq<string>, ghost keep: set<string>)
      returns (injected: seq<string>)
      requires wlanIfaces.Valid() && world.ifaddrs == Some(names)
      requires if refresh then wlanIfaces.Contents() == [] else Sorted(wlanIfaces.Contents())
      requires keep == if refresh then Found(world) else keep
      requires !refresh && reportWireless ==> Holds(wlanIfaces.Contents(), keep)
      modifies wlanIfaces, wlanIfaces.data
      ensures wlanIfaces.Valid() && (wlanIfaces.data == old(wlanIfaces.data) || fresh(wlanIfaces.data))
      ensures !refresh ==> wlanIfaces.Contents() == old(wlanIfaces.Contents())
      ensures refresh ==> Holds(wlanIfaces.Contents(), if reportWireless then keep else {})
      ensures injected == if reportWireless then Only(Firsts(names, {}), keep) else []
    {
      hide Holds, Sorted, Only, Firsts;
      var table: set<string> := {};
      injected := [];
      EmptyHolds();
      assert names[..0] == [] && table * world.wlan == {};
      for i := 0 to |names|
        invariant wlanIfaces.Valid() && (wlanIfaces.data == old(wlanIfaces.data) || fresh(wlanIfaces.data))
        invariant table == set x | x in names[..i]
        invariant !refresh ==> wlanIfaces.Contents() == old(wlanIfaces.Contents())
        invariant refresh ==> Holds(wlanIfaces.Contents(), if reportWireless then table * world.wlan else {})
        invariant injected == if reportWireless then Only(Firsts(names[..i], {}), keep) else []
      {
        var name := names[i];
        assert names[..i + 1] == names[..i] + [name];
        InjectStep(names[..i], name, keep);
        if name !in table {
          if reportWireless {
            ghost var was := wlanIfaces.Contents();
            HoldsSnoc(was, table * world.wlan, CStr(i, name), refresh);
            var isWlan := IsWlan(refresh, world, name, i, keep);
            assert name in Found(world) <==> name in world.wlan;
            assert (table + {name}) * world.wlan
                == if name in world.wlan then table * world.wlan + {name} else table * world.wlan;
            assert was + [] == was;
            if isWlan {
              injected := injected + [name];
            }
          }
          table := table + {name};
        }
      }
      assert names[..|names|] == names;
      assert table * world.wlan == Found(world);
    }

    /** make_call(); the result is the interfaces that wireless information is injected for. */
    method MakeCall(refresh: bool, world: World) returns (wireless: Option<seq<string>>)
      requires Valid()
      modifies this, wlanIfaces, wlanIfaces.data
      ensures Valid() && calls == old(calls) + [Call(refresh, world)]
      ensures wlanIfaces.data == old(wlanIfaces.data) || fresh(wlanIfaces.data)
      ensures reportWireless ==> wireless == Reported(calls)
      ensures !reportWireless ==> wireless == None || wireless == Some([])
    {
      hide Holds, Sorted, Only, Firsts;
      ghost var before := calls;
      calls := calls + [Call(refresh, world)];
      assert calls[..|before|] == before;
      if world.ifaddrs.None? {
        return None;
      }
      if refresh {
        wlanIfaces.Reset();
      }
      ghost var keep := if refresh then Found(world) else LastFound(before);
      var injected := Inject(refresh, world, world.ifaddrs.value, keep);
      if refresh {
        FreezingHolds(wlanIfaces.Contents(), if reportWireless then keep else {});
        wlanIfaces.Freeze();
      }
      wireless := Some(injected);
    }
  }
}
