/**
 The growable byte buffer and the packed string array of libls (ls_string.h, ls_strarr.h), with the growth
 policy of ls_alloc_utils.c and the cut-back of ls_freemem.h. Methods that may run out of address space
 return `false` where the library panics; nothing is promised about the object then.
 */
module LsString {
  import opened Common
  /** The size of an element of an offset array, sizeof(size_t). */
  const WORD: nat := 8
  /** What clearing keeps, in bytes. */
  const KEPT: nat := 1024

  // ---- Growth ----

  /** mul_zu() */
  method MulZu(a: nat, b: nat) returns (ok: bool, product: nat)
    requires a <= SIZE_MAX && b <= SIZE_MAX
    ensures ok <==> a * b <= SIZE_MAX
    ensures ok ==> product == a * b
  {
    hide *;
    product := 0;
    if b != 0 {
      DivideBound(a, b, SIZE_MAX);
      if a > SIZE_MAX / b {
        return false, 0;
      }
    }
    return true, a * b;
  }

  lemma {:induction false} DivideBound(a: nat, b: nat, m: nat)
    requires b > 0
    ensures a > m / b <==> a * b > m
  {
    var q := m / b;
    assert q * b <= m < q * b + b;
    if a > q {
      MultiplyLess(q + 1, a, b);
      assert (q + 1) * b == q * b + b;
    } else {
      MultiplyLess(a, q, b);
    }
  }

  lemma {:induction false} MultiplyLess(a: nat, c: nat, b: nat)
    requires a <= c
    ensures a * b <= c * b
  {
  }

  /** The capacity that ls_x2realloc() asks for. */
  function Doubled(capacity: nat): nat {
    if capacity == 0 then 1 else capacity * 2
  }

  /** The first of capacity, Doubled(capacity), ... that is at least `need`. */
  function FirstFit(capacity: nat, need: nat): (r: nat)
    ensures r >= need && r >= capacity
    ensures r == capacity || r == 1 || r < 2 * need
    decreases need - capacity
  {
    if need <= capacity then capacity else FirstFit(Doubled(capacity), need)
  }

  lemma {:induction false} FirstFitIsLeast(capacity: nat, need: nat)
    ensures FirstFit(capacity, need) == if need <= capacity then capacity else FirstFit(Doubled(capacity), need)
    ensures FirstFit(capacity, need) <= SIZE_MAX && need > capacity ==> Doubled(capacity) <= SIZE_MAX
  {
  }

  /** The size part of ls_x2realloc(): false where it panics. */
  method X2(capacity: nat, elemsz: nat) returns (ok: bool, grown: nat)
    requires capacity <= SIZE_MAX && 0 < elemsz <= SIZE_MAX
    ensures ok <==> Doubled(capacity) * elemsz <= SIZE_MAX
    ensures ok ==> grown == Doubled(capacity)
  {
    grown := 1;
    if capacity != 0 {
      ok, grown := MulZu(capacity, 2);
      if !ok {
        Wider(capacity * 2, elemsz);
        return;
      }
    }
    var total;
    ok, total := MulZu(grown, elemsz);
  }

  lemma {:induction false} Wider(a: nat, b: nat)
    requires b > 0
    ensures a <= a * b
  {
  }

  /** memcpy() */
  method CopyIn(dst: array<char>, d: nat, s: string)
    requires d + |s| <= dst.Length
    modifies dst
    ensures dst[..d + |s|] == old(dst[..d]) + s
  {
    ghost var before := dst[..d];
    assert s[..0] == "" && before + "" == before && dst[..d] == before;
    for i := 0 to |s|
      invariant dst[..d + i] == before + s[..i]
    {
      dst[d + i] := s[i];
      assert s[..i + 1] == s[..i] + [s[i]] && dst[..d + i + 1] == dst[..d + i] + [s[i]];
      Associative(before, s[..i], [s[i]]);
    }
    assert s[..|s|] == s;
  }

  // ---- Strings ----

  class LsString {
    var data: array<char>
    var size: nat
    /** The largest size or reservation asked for. */
    ghost var asked: nat

    /** The capacity is the length of `data`; it is linear in what was asked for. */
    ghost predicate Valid()
      reads this
    {
      size <= data.Length <= SIZE_MAX && size <= asked && data.Length <= Max(2 * asked, 1)
    }

    ghost function Contents(): string
      requires Valid()
      reads this, data
    {
      data[..size]
    }

    constructor ()
      ensures Valid() && fresh(data) && Contents() == "" && data.Length == 0
    {
      data, size, asked := new char[0], 0, 0;
    }

    /** The copying part of realloc(). */
    method Move(capacity: nat)
      requires Valid() && size <= capacity <= SIZE_MAX && capacity <= Max(2 * asked, 1)
      modifies this`data
      ensures Valid() && fresh(data) && data.Length == capacity && Contents() == old(Contents())
    {
      var grown := new char[capacity];
      CopyIn(grown, 0, data[..size]);
      assert grown[..size] == [] + data[..size] == data[..size];
      data := grown;
    }

    /** ls_string_reserve() */
    method Reserve(n: nat)
      requires Valid() && n <= SIZE_MAX
      modifies this
      ensures Valid() && Contents() == old(Contents()) && size == old(size)
      ensures data.Length == Max(old(data.Length), n) && (data == old(data) || fresh(data))
    {
      asked := Max(asked, n);
      if data.Length < n {
        Move(n);
      }
    }

    /** LS_M_X2REALLOC() of the data */
    method Double() returns (ok: bool)
      requires Valid() && data.Length < asked
      modifies this`data
      ensures ok <==> Doubled(old(data.Length)) <= SIZE_MAX
      ensures ok ==> Valid() && fresh(data) && Contents() == old(Contents()) && data.Length == Doubled(old(data.Length))
    {
      var grown;
      ok, grown := X2(data.Length, 1);
      if ok {
        Move(grown);
      }
    }

    /** ls_string_ensure_avail(): the first doubling that leaves room, unless that is out of range. */
    method EnsureAvail(n: nat) returns (ok: bool)
      requires Valid()
      modifies this
      ensures ok <==> FirstFit(old(data.Length), old(size) + n) <= SIZE_MAX
      ensures ok ==> Valid() && Contents() == old(Contents()) && size == old(size)
      ensures ok ==> asked == Max(old(asked), size + n) && (data == old(data) || fresh(data))
      ensures ok ==> data.Length == FirstFit(old(data.Length), size + n)
    {
      hide FirstFit;
      asked := Max(asked, size + n);
      ghost var fit := FirstFit(data.Length, size + n);
      while data.Length - size < n
        invariant Valid() && size == old(size) && Contents() == old(Contents())
        invariant asked == Max(old(asked), size + n) && (data == old(data) || fresh(data))
        invariant FirstFit(data.Length, size + n) == fit
        decreases size + n - data.Length
      {
        FirstFitIsLeast(data.Length, size + n);
        ok := Double();
        if !ok {
          return;
        }
      }
      FirstFitIsLeast(data.Length, size + n);
      ok := true;
    }

    /** ls_string_append_b() */
    method Append(s: string) returns (ok: bool)
      requires Valid()
      modifies this, data
      ensures ok <==> FirstFit(old(data.Length), old(size) + |s|) <= SIZE_MAX
      ensures ok ==> Valid() && Contents() == old(Contents()) + s
      ensures ok ==> (data == old(data) || fresh(data)) && asked == Max(old(asked), size)
    {
      ok := EnsureAvail(|s|);
      if !ok {
        return;
      }
      CopyIn(data, size, s);
      size := size + |s|;
    }

    /** ls_string_append_c() */
    method AppendChar(c: char) returns (ok: bool)
      requires Valid()
      modifies this, data
      ensures ok <==> FirstFit(old(data.Length), old(size) + 1) <= SIZE_MAX
      ensures ok ==> Valid() && Contents() == old(Contents()) + [c]
      ensures ok ==> (data == old(data) || fresh(data)) && asked == Max(old(asked), size)
    {
      asked := Max(asked, size + 1);
      FirstFitIsLeast(data.Length, size + 1);
      ok := true;
      if size == data.Length {
        FirstFitIsLeast(Doubled(data.Length), size + 1);
        ok := Double();
        if !ok {
          return;
        }
      }
      data[size] := c;
      size := size + 1;
      assert data[..size] == data[..size - 1] + [c];
    }

    /** ls_string_assign_b() */
    method Assign(s: string)
      requires Valid() && |s| <= SIZE_MAX
      modifies this, data
      ensures Valid() && Contents() == s && (data == old(data) || fresh(data))
      ensures data.Length == Max(old(data.Length), |s|)
    {
      Reserve(|s|);
      CopyIn(data, 0, s);
      asked, size := Max(asked, |s|), |s|;
      assert data[..size] == [] + s == s;
    }

    /** ls_string_clear() */
    method Clear()
      requires Valid()
      modifies this
      ensures Valid() && Contents() == "" && (data == old(data) || fresh(data))
      ensures data.Length == if old(data.Length) > KEPT then KEPT else old(data.Length)
      ensures asked <= KEPT
    {
      size := 0;
      if data.Length > KEPT {
        Move(KEPT);
      }
      asked := KEPT;
    }

    /** ls_string_eq_b() */
    method EqualTo(s: string) returns (equal: bool)
      requires Valid()
      ensures equal <==> Contents() == s
    {
      if size != |s| {
        return false;
      }
      for i := 0 to size
        invariant data[..i] == s[..i]
      {
        if data[i] != s[i] {
          assert Contents()[i] != s[i];
          return false;
        }
      }
      return true;
    }
  }

  /** ls_string_swap() */
  method Swap(x: LsString, y: LsString)
    requires x.Valid() && y.Valid()
    modifies x, y
    ensures x.Valid() && y.Valid()
    ensures x.Contents() == old(y.Contents()) && y.Contents() == old(x.Contents())
    ensures x.data == old(y.data) && y.data == old(x.data)
  {
    var data, size := x.data, x.size;
    ghost var asked := x.asked;
    x.data, x.size, x.asked := y.data, y.size, y.asked;
    y.data, y.size, y.asked := data, size, asked;
  }

  // ---- Arrays of strings ----

  /** The strings that `offsets` cut `text` into; each runs to the next offset, the last to the end. */
  ghost function Unpacked(offsets: seq<nat>, text: string): (r: seq<string>)
    requires Packed(offsets, text)
    ensures |r| == |offsets|
  {
    if offsets == [] then []
    else
      var n := |offsets| - 1;
      Unpacked(offsets[..n], text[..offsets[n]]) + [text[offsets[n]..]]
  }

  /** The offsets do not decrease, do not exceed the size of the text, and the first is 0. */
  ghost predicate Packed(offsets: seq<nat>, text: string) {
    if offsets == [] then text == ""
    else
      var n := |offsets| - 1;
      offsets[n] <= |text| && Packed(offsets[..n], text[..offsets[n]])
  }

  lemma {:induction false} PackedMore(offsets: seq<nat>, text: string, s: string)
    requires Packed(offsets, text)
    ensures Packed(offsets + [|text|], text + s)
    ensures Unpacked(offsets + [|text|], text + s) == Unpacked(offsets, text) + [s]
  {
    var more := offsets + [|text|];
    assert more[..|offsets|] == offsets && (text + s)[..|text|] == text && (text + s)[|text|..] == s;
  }

  /** Where the i-th string ends. */
  function EndOf(offsets: seq<nat>, total: nat, i: nat): nat
    requires i < |offsets|
  {
    if i + 1 == |offsets| then total else offsets[i + 1]
  }

  lemma {:induction false} UnpackedAt(offsets: seq<nat>, text: string, i: nat)
    requires Packed(offsets, text) && i < |offsets|
    ensures offsets[i] <= EndOf(offsets, |text|, i) <= |text|
    ensures Unpacked(offsets, text)[i] == text[offsets[i]..EndOf(offsets, |text|, i)]
  {
    var n := |offsets| - 1;
    if i >= n {
    } else {
      UnpackedAt(offsets[..n], text[..offsets[n]], i);
    }
  }

  class StringArray {
    const buf: LsString
    var offsets: array<nat>
    var size: nat

    /** The capacity of the offsets is linear in the number of strings. */
    ghost predicate Valid()
      reads this, offsets, buf, buf.data
    {
      && buf.Valid()
      && size <= offsets.Length <= Max(2 * size, KEPT / WORD)
      && offsets.Length * WORD <= SIZE_MAX
      && Packed(offsets[..size], buf.Contents())
    }

    ghost function Contents(): seq<string>
      requires Valid()
      reads this, offsets, buf, buf.data
    {
      Unpacked(offsets[..size], buf.Contents())
    }

    constructor ()
      ensures Valid() && Contents() == [] && fresh(buf) && fresh(offsets) && fresh(buf.data)
    {
      buf := new LsString();
      offsets, size := new nat[0], 0;
    }

    /** ls_strarr_append() */
    method Append(s: string) returns (ok: bool)
      requires Valid()
      modifies this, offsets, buf, buf.data
      ensures ok ==> Valid() && Contents() == old(Contents()) + [s]
      ensures ok ==> (offsets == old(offsets) || fresh(offsets)) && (buf.data == old(buf.data) || fresh(buf.data))
      ensures ok == (old(size < offsets.Length || Doubled(offsets.Length) * WORD <= SIZE_MAX)
                     && FirstFit(old(buf.data.Length), old(buf.size) + |s|) <= SIZE_MAX)
    {
      hide FirstFit, Packed, Unpacked;
      PackedMore(offsets[..size], buf.Contents(), s);
      ghost var was, text := offsets[..size], buf.Contents();
      ok := true;
      if size == offsets.Length {
        var capacity;
        ok, capacity := X2(offsets.Length, WORD);
        if !ok {
          return;
        }
        var grown := new nat[capacity];
        forall i | 0 <= i < size {
          grown[i] := offsets[i];
        }
        offsets := grown;
      }
      offsets[size] := buf.size;
      size := size + 1;
      assert offsets[..size] == was + [|text|];
      ok := buf.Append(s);
    }

    /** ls_strarr_at() */
    method At(i: nat) returns (begin: nat, n: nat)
      requires Valid() && i < size
      ensures begin + n <= buf.size && buf.data[begin..begin + n] == Contents()[i]
    {
      UnpackedAt(offsets[..size], buf.Contents(), i);
      begin := offsets[i];
      var end := if i + 1 == size then buf.size else offsets[i + 1];
      n := end - begin;
    }

    /** ls_strarr_clear() */
    method Clear()
      requires Valid()
      modifies this, buf
      ensures Valid() && Contents() == []
      ensures (offsets == old(offsets) || fresh(offsets)) && (buf.data == old(buf.data) || fresh(buf.data))
    {
      buf.Clear();
      size := 0;
      if offsets.Length > KEPT / WORD {
        offsets := new nat[KEPT / WORD];
      }
    }
  }
}
