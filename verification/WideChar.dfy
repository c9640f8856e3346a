/**
 Widths, truncation and repair of multibyte strings (libwidechar). mbrtowc() and wcwidth() are an
 arbitrary decoder, of which only what `IsDecoder` says is known.
 */
module WideChar {
  import opened Common
  import opened Wrappers

  /** What wcwidth() returns is a C int. */
  type Columns = w: int | -INT_MAX - 1 <= w <= INT_MAX

  /** What decoding the start of a non-empty string gives: an error, or a character with the number of
      its bytes and its width, negative if it is not printable. */
  datatype Decoded = Bad | Char(n: nat, width: Columns, isNul: bool)

  type Decoder = string -> Decoded

  /** A stateless encoding: what a character is depends on its own bytes only. */
  ghost predicate IsDecoder(dec: Decoder) {
    && (forall s: string | s != "" && dec(s).Char? :: 1 <= dec(s).n <= |s|)
    && (forall s: string, t: string | s != "" && dec(s).Char? && dec(s).n <= |s| && s[..dec(s).n] <= t
          :: dec(t) == dec(s))
  }

  /** For example, ASCII. */
  function Ascii(s: string): Decoded {
    if s == "" || s[0] as int >= 128 then Bad
    else Char(1, if 32 <= s[0] as int < 127 then 1 else if s[0] as int == 0 then 0 else -1, s[0] as int == 0)
  }

  lemma {:induction false} AsciiIsDecoder()
    ensures IsDecoder(Ascii)
  {
  }

  predicate Printable(d: Decoded) {
    d.Char? && d.width >= 0 && !d.isNul
  }

  lemma {:induction false} DecodesAlike(dec: Decoder, s: string, t: string)
    requires IsDecoder(dec) && s != "" && dec(s).Char? && s[..dec(s).n] <= t
    ensures dec(t) == dec(s)
  {
  }

  lemma {:induction false} DecodesSome(dec: Decoder, s: string)
    requires IsDecoder(dec) && s != ""
    ensures dec(s).Char? ==> 1 <= dec(s).n <= |s|
  {
  }

  // ---- Width ----

  /** The width of a string; None if it has a part that is invalid or not printable. */
  ghost function Width(dec: Decoder, s: string): (w: Option<nat>)
    requires IsDecoder(dec)
    decreases |s|
  {
    if s == "" then Some(0)
    else if !Printable(dec(s)) then None
    else
      var rest := Width(dec, s[dec(s).n..]);
      if rest.None? then None else Some(dec(s).width + rest.value)
  }

  /** A position in a string, and the string. */
  datatype XSpan = XSpan(v: string, cur: nat) {
    predicate Valid() { cur <= |v| }
    function Processed(): string requires Valid() { v[..cur] }
    function Unprocessed(): string requires Valid() { v[cur..] }
  }

  /** libwidechar_width() adds up in 64 bits. */
  method LibWidth(dec: Decoder, v: string) returns (w: Option<nat>)
    requires IsDecoder(dec)
    ensures w == match Width(dec, v) case None => None case Some(total) => Some(total % (SIZE_MAX + 1))
  {
    hide IsDecoder;
    var x := XSpan(v, 0);
    var width := 0;
    ghost var total := 0;
    while x.cur != |x.v|
      invariant x.Valid() && x.v == v && width == total % (SIZE_MAX + 1) && total >= 0
      invariant Width(dec, v) == var rest := Width(dec, x.Unprocessed());
                                 if rest.None? then None else Some(total + rest.value)
      decreases |v| - x.cur
    {
      var d := dec(x.Unprocessed());
      if !Printable(d) {
        return None;
      }
      DecodesSome(dec, x.Unprocessed());
      assert x.Unprocessed()[d.n..] == v[x.cur + d.n..];
      x := x.(cur := x.cur + d.n);
      AddWraps(total, d.width);
      width := (width + d.width) % (SIZE_MAX + 1);
      total := total + d.width;
    }
    w := Some(width);
  }

  lemma {:induction false} AddWraps(a: nat, b: nat)
    ensures (a % (SIZE_MAX + 1) + b) % (SIZE_MAX + 1) == (a + b) % (SIZE_MAX + 1)
  {
  }

  /** No character is wider than the number of its bytes, as in the encodings there are. */
  ghost predicate IsNarrow(dec: Decoder) {
    forall s: string | s != "" && dec(s).Char? :: dec(s).width <= dec(s).n
  }

  lemma {:induction false} NarrowOne(dec: Decoder, s: string)
    requires s != "" && dec(s).Char?
    ensures IsNarrow(dec) ==> dec(s).width <= dec(s).n
  {
  }

  /** Then the sum does not wrap, for any string that fits the memory. */
  lemma {:induction false} NarrowWidth(dec: Decoder, s: string)
    requires IsDecoder(dec) && IsNarrow(dec)
    ensures Width(dec, s).Some? ==> Width(dec, s).value <= |s|
    decreases |s|
  {
    hide IsDecoder, IsNarrow;
    if s == "" {
    } else if Printable(dec(s)) {
      DecodesSome(dec, s);
      NarrowOne(dec, s);
      NarrowWidth(dec, s[dec(s).n..]);
    }
  }

  // ---- Truncation ----

  /** The length and width of what is left of a string after truncation; None on failure. */
  ghost function Truncated(dec: Decoder, s: string, max: nat): Option<(nat, nat)>
    requires IsDecoder(dec)
    decreases |s|
  {
    if s == "" then Some((0, 0))
    else if !Printable(dec(s)) then None
    else if dec(s).width > max then Some((0, 0))
    else Plus(Truncated(dec, s[dec(s).n..], max - dec(s).width), dec(s).n, dec(s).width)
  }

  function Plus(r: Option<(nat, nat)>, n: nat, w: nat): Option<(nat, nat)> {
    if r.None? then None else Some((n + r.value.0, w + r.value.1))
  }

  lemma {:induction false} TruncatedStep(dec: Decoder, s: string, max: nat)
    requires IsDecoder(dec) && s != ""
    ensures var d := dec(s);
      Truncated(dec, s, max)
      == if !Printable(d) then None else if d.width > max then Some((0, 0))
         else Plus(Truncated(dec, s[d.n..], max - d.width), d.n, d.width)
  {
  }

  lemma {:induction false} TruncatedNothing(dec: Decoder, max: nat)
    requires IsDecoder(dec)
    ensures Truncated(dec, "", max) == Some((0, 0))
  {
  }

  /** Whether the 64-bit sum of widths wraps before it exceeds the maximum. */
  ghost predicate Wraps(dec: Decoder, s: string, max: nat, used: nat)
    requires IsDecoder(dec)
    decreases |s|
  {
    s != "" && Printable(dec(s))
    && (used + dec(s).width > SIZE_MAX
        || (used + dec(s).width <= max && Wraps(dec, s[dec(s).n..], max, used + dec(s).width)))
  }

  lemma {:induction false} WrapsStep(dec: Decoder, s: string, max: nat, used: nat)
    requires IsDecoder(dec) && s != ""
    ensures var d := dec(s);
      Wraps(dec, s, max, used)
      == (Printable(d) && (used + d.width > SIZE_MAX
                           || (used + d.width <= max && Wraps(dec, s[d.n..], max, used + d.width))))
  {
  }

  /** libwidechar_truncate_to_width() is right if and only if its sum does not wrap; if it does, the result is too
      long, or failure. */
  method TruncateToWidth(dec: Decoder, v: string, max: nat) returns (r: Option<(nat, nat)>)
    requires IsDecoder(dec) && max <= SIZE_MAX
    ensures r == Truncated(dec, v, max) <==> !Wraps(dec, v, max, 0)
    ensures r.Some? ==> r.value.0 <= |v|
  {
    hide IsDecoder, Truncated, Wraps;
    var x := XSpan(v, 0);
    var width := 0;
    ghost var wrapped := false;
    while x.cur != |x.v|
      invariant x.Valid() && x.v == v && 0 <= width <= max
      invariant !wrapped ==> Wraps(dec, v, max, 0) == Wraps(dec, x.Unprocessed(), max, width)
      invariant !wrapped ==> Truncated(dec, v, max) == Plus(Truncated(dec, x.Unprocessed(), max - width), x.cur, width)
      invariant wrapped ==> Wraps(dec, v, max, 0)
                            && Truncated(dec, v, max).Some? && Truncated(dec, v, max).value.0 < x.cur
      decreases |v| - x.cur
    {
      var d := dec(x.Unprocessed());
      TruncatedStep(dec, x.Unprocessed(), max - width);
      WrapsStep(dec, x.Unprocessed(), max, width);
      if !Printable(d) {
        return None;
      }
      DecodesSome(dec, x.Unprocessed());
      assert x.Unprocessed()[d.n..] == v[x.cur + d.n..];
      ghost var before := width;
      width := (width + d.width) % (SIZE_MAX + 1);
      if width > max {
        width := width - d.width;
        break;
      }
      wrapped := wrapped || before + d.width > SIZE_MAX;
      x := x.(cur := x.cur + d.n);
    }
    if x.cur == |v| {
      assert x.Unprocessed() == "";
      TruncatedNothing(dec, max - width);
      NothingWraps(dec, max, width);
    }
    r := Some((x.cur, width));
  }

  lemma {:induction false} NothingWraps(dec: Decoder, max: nat, used: nat)
    requires IsDecoder(dec)
    ensures !Wraps(dec, "", max, used)
  {
  }

  /** It does not wrap unless the maximum is within INT_MAX of the largest there is, and some character is wider than
      its bytes. */
  lemma {:induction false} SeldomWraps(dec: Decoder, s: string, max: nat, used: nat)
    requires IsDecoder(dec) && used <= max
    requires max <= SIZE_MAX - INT_MAX || (IsNarrow(dec) && used + |s| <= SIZE_MAX)
    ensures !Wraps(dec, s, max, used)
    decreases |s|
  {
    hide IsDecoder, IsNarrow;
    if s == "" || !Printable(dec(s)) {
    } else if used + dec(s).width <= max {
      DecodesSome(dec, s);
      NarrowOne(dec, s);
      SeldomWraps(dec, s[dec(s).n..], max, used + dec(s).width);
    } else {
      DecodesSome(dec, s);
      NarrowOne(dec, s);
    }
  }

  /** For example, an encoding in which every byte is as wide as can be. */
  function Widest(s: string): Decoded {
    Char(1, INT_MAX, false)
  }

  lemma {:induction false} WidestIsDecoder()
    ensures IsDecoder(Widest)
  {
  }

  /** Then it does wrap, for a maximum that leaves no room, and a string that is long enough. */
  lemma {:induction false} WidestWraps(s: string, used: nat)
    requires IsDecoder(Widest) && used <= SIZE_MAX < used + |s| * INT_MAX
    ensures Wraps(Widest, s, SIZE_MAX, used)
    decreases |s|
  {
    hide IsDecoder, Wraps;
    assert s != "" by {
      assert s == "" ==> |s| * INT_MAX == 0;
    }
    WrapsStep(Widest, s, SIZE_MAX, used);
    if used + INT_MAX <= SIZE_MAX {
      assert |s| * INT_MAX == INT_MAX + |s[1..]| * INT_MAX;
      WidestWraps(s[1..], used + INT_MAX);
    }
  }

  lemma {:induction false} TruncationCanWrap(s: string)
    requires |s| * INT_MAX > SIZE_MAX
    ensures IsDecoder(Widest) && Wraps(Widest, s, SIZE_MAX, 0)
  {
    WidestIsDecoder();
    WidestWraps(s, 0);
  }

  /** Whether the first `k` bytes are whole printable characters. */
  ghost predicate Boundary(dec: Decoder, s: string, k: nat)
    requires IsDecoder(dec)
    decreases |s|
  {
    k == 0 || (s != "" && Printable(dec(s)) && dec(s).n <= k && Boundary(dec, s[dec(s).n..], k - dec(s).n))
  }

  lemma {:induction false} BoundaryWidth(dec: Decoder, s: string, k: nat)
    requires IsDecoder(dec) && Boundary(dec, s, k)
    ensures k <= |s| && Width(dec, s[..k]).Some?
    ensures k > 0 ==> var n := dec(s).n; dec(s[..k]) == dec(s) && s[..k][n..] == s[n..][..k - n]
    decreases |s|
  {
    hide IsDecoder;
    if k == 0 {
    } else {
      var n := dec(s).n;
      DecodesSome(dec, s);
      BoundaryWidth(dec, s[n..], k - n);
      DecodesAlike(dec, s, s[..k]);
      assert s[..k][n..] == s[n..][..k - n];
    }
  }

  /** A successful truncation leaves the longest possible prefix of whole characters that is not wider
      than the maximum, and reports its width. */
  lemma {:induction false} TruncatedIsLongest(dec: Decoder, s: string, max: nat)
    requires IsDecoder(dec) && Truncated(dec, s, max).Some?
    ensures var (k, w) := Truncated(dec, s, max).value;
      Boundary(dec, s, k) && k <= |s| && Width(dec, s[..k]) == Some(w) && w <= max
    ensures forall k': nat | Boundary(dec, s, k') && k' <= |s| && Width(dec, s[..k']).Some? && Width(dec, s[..k']).value <= max
              :: k' <= Truncated(dec, s, max).value.0
    decreases |s|
  {
    hide IsDecoder;
    var k := Truncated(dec, s, max).value.0;
    if s == "" {
    } else {
      var d := dec(s);
      DecodesSome(dec, s);
      if d.width <= max {
        TruncatedIsLongest(dec, s[d.n..], max - d.width);
      }
      BoundaryWidth(dec, s, k);
      forall k': nat | Boundary(dec, s, k') && k' <= |s| && Width(dec, s[..k']).Some? && Width(dec, s[..k']).value <= max
        ensures k' <= k
      {
        if k' > 0 {
          BoundaryWidth(dec, s, k');
          BoundaryWidth(dec, s[d.n..], k' - d.n);
        }
      }
    }
  }

  /** Position `k` is where something invalid or not printable is met, after text that is not too wide. */
  ghost predicate Obstacle(dec: Decoder, s: string, max: nat, k: nat)
    requires IsDecoder(dec)
  {
    && Boundary(dec, s, k) && k < |s| && !Printable(dec(s[k..]))
    && Width(dec, s[..k]).Some? && Width(dec, s[..k]).value <= max
  }

  lemma {:induction false} ObstacleFound(dec: Decoder, s: string, max: nat) returns (k: nat)
    requires IsDecoder(dec) && Truncated(dec, s, max) == None
    ensures Obstacle(dec, s, max, k)
    decreases |s|
  {
    hide IsDecoder;
    var d := dec(s);
    DecodesSome(dec, s);
    if !Printable(d) {
      assert s[0..] == s && s[..0] == "";
      k := 0;
    } else {
      k := ObstacleFound(dec, s[d.n..], max - d.width);
      assert s[d.n..][k..] == s[d.n + k..];
      k := d.n + k;
      BoundaryWidth(dec, s, k);
    }
  }

  lemma {:induction false} ObstacleStops(dec: Decoder, s: string, max: nat, k: nat)
    requires IsDecoder(dec) && Obstacle(dec, s, max, k)
    ensures Truncated(dec, s, max) == None
    decreases |s|
  {
    hide IsDecoder;
    var d := dec(s);
    DecodesSome(dec, s);
    assert s[0..] == s;
    if k == 0 {
    } else {
      BoundaryWidth(dec, s, k);
      BoundaryWidth(dec, s[d.n..], k - d.n);
      assert s[d.n..][k - d.n..] == s[k..];
      ObstacleStops(dec, s[d.n..], max - d.width, k - d.n);
    }
  }

  /** Truncation fails exactly if there is an obstacle. */
  lemma {:induction false} TruncationFails(dec: Decoder, s: string, max: nat)
    requires IsDecoder(dec)
    ensures Truncated(dec, s, max) == None <==> exists k: nat :: Obstacle(dec, s, max, k)
  {
    hide IsDecoder, Obstacle, Truncated;
    if Truncated(dec, s, max) == None {
      var k := ObstacleFound(dec, s, max);
    }
    if k: nat :| Obstacle(dec, s, max, k) {
      ObstacleStops(dec, s, max, k);
    }
  }

  /** Truncating twice is truncating once, to the smaller width. */
  lemma {:induction false} TruncateTwice(dec: Decoder, s: string, a: nat, b: nat)
    requires IsDecoder(dec) && Truncated(dec, s, a).Some?
    ensures var k := Truncated(dec, s, a).value.0;
      k <= |s| && Truncated(dec, s[..k], b) == Truncated(dec, s, if a < b then a else b)
    decreases |s|
  {
    hide IsDecoder, Truncated, Width;
    var k := Truncated(dec, s, a).value.0;
    var c := if a < b then a else b;
    TruncatedIsLongest(dec, s, a);
    TruncatedNothing(dec, b);
    if s == "" {
      TruncatedNothing(dec, c);
    } else {
      var d := dec(s);
      DecodesSome(dec, s);
      TruncatedStep(dec, s, a);
      TruncatedStep(dec, s, c);
      if d.width <= a {
        BoundaryWidth(dec, s, k);
        TruncatedStep(dec, s[..k], b);
        if d.width <= b {
          TruncateTwice(dec, s[d.n..], a - d.width, b - d.width);
        }
      }
    }
  }

  // ---- Repair ----

  /** Every character that is not printable, and every invalid byte, replaced by `bad`. */
  ghost function Repaired(dec: Decoder, s: string, bad: string): string
    requires IsDecoder(dec)
    decreases |s|
  {
    if s == "" then ""
    else
      var d := dec(s);
      if Printable(d) then s[..d.n] + Repaired(dec, s[d.n..], bad)
      else bad + Repaired(dec, s[if d.Char? then d.n else 1..], bad)
  }

  lemma {:induction false} RepairedStep(dec: Decoder, s: string, bad: string)
    requires IsDecoder(dec) && s != ""
    ensures var d := dec(s);
      Repaired(dec, s, bad)
      == if Printable(d) then s[..d.n] + Repaired(dec, s[d.n..], bad)
         else bad + Repaired(dec, s[if d.Char? then d.n else 1..], bad)
  {
  }

  method MakeValidAndPrintable(dec: Decoder, v: string, bad: string) returns (out: string)
    requires IsDecoder(dec)
    ensures out == Repaired(dec, v, bad)
  {
    hide IsDecoder, Repaired;
    var x := XSpan(v, 0);
    out := "";
    while x.cur != |x.v|
      invariant x.Valid()
      invariant out + x.Processed() + Repaired(dec, x.Unprocessed(), bad) == Repaired(dec, v, bad)
      decreases |x.v| - x.cur
    {
      ghost var rest, done := x.Unprocessed(), x.Processed();
      DecodesSome(dec, rest);
      RepairedStep(dec, rest, bad);
      var d := dec(x.Unprocessed());
      if Printable(d) {
        Reassociate(out, done, rest[..d.n], Repaired(dec, rest[d.n..], bad));
        assert x.v[..x.cur + d.n] == done + rest[..d.n] && x.v[x.cur + d.n..] == rest[d.n..];
        x := x.(cur := x.cur + d.n);
      } else {
        var n := if d.Char? then d.n else 1;
        Reassociate(out, done, bad, Repaired(dec, rest[n..], bad));
        out := out + x.Processed();
        out := out + bad;
        assert x.v[x.cur + n..] == rest[n..];
        x := XSpan(x.v[x.cur + n..], 0);
        assert x.Processed() == "" && out + "" == out && x.Unprocessed() == rest[n..];
      }
    }
    assert x.Unprocessed() == "" && out + x.Processed() + "" == out + x.Processed();
    NothingToRepair(dec, bad);
    out := out + x.Processed();
  }

  lemma {:induction false} NothingToRepair(dec: Decoder, bad: string)
    requires IsDecoder(dec)
    ensures Repaired(dec, "", bad) == ""
  {
  }

  lemma {:induction false} Reassociate(a: string, b: string, c: string, d: string)
    ensures a + b + (c + d) == a + (b + c) + d == a + b + c + d
  {
    Associative(a + b, c, d);
    Associative(a, b, c);
  }

  /** Widths add up. */
  lemma {:induction false} AcceptedConcat(dec: Decoder, a: string, b: string)
    requires IsDecoder(dec) && Width(dec, a).Some? && Width(dec, b).Some?
    ensures Width(dec, a + b) == Some(Width(dec, a).value + Width(dec, b).value)
    decreases |a|
  {
    hide IsDecoder;
    if a == "" {
      assert a + b == b;
    } else {
      var n := dec(a).n;
      DecodesSome(dec, a);
      assert a[..n] <= a + b && (a + b)[n..] == a[n..] + b;
      DecodesAlike(dec, a, a + b);
      AcceptedConcat(dec, a[n..], b);
    }
  }

  lemma {:induction false} OneAccepted(dec: Decoder, s: string)
    requires IsDecoder(dec) && s != "" && Printable(dec(s))
    ensures Width(dec, s[..dec(s).n]) == Some(dec(s).width)
  {
    var n := dec(s).n;
    DecodesAlike(dec, s, s[..n]);
    assert s[..n][n..] == "";
  }

  /** The result of a repair is valid and printable if the replacement is. */
  lemma {:induction false} RepairedIsAccepted(dec: Decoder, s: string, bad: string)
    requires IsDecoder(dec) && Width(dec, bad).Some?
    ensures Width(dec, Repaired(dec, s, bad)).Some?
    decreases |s|
  {
    hide IsDecoder;
    if s == "" {
    } else {
      var d := dec(s);
      DecodesSome(dec, s);
      var n := if d.Char? then d.n else 1;
      RepairedIsAccepted(dec, s[n..], bad);
      if Printable(d) {
        OneAccepted(dec, s);
        AcceptedConcat(dec, s[..n], Repaired(dec, s[n..], bad));
      } else {
        AcceptedConcat(dec, bad, Repaired(dec, s[n..], bad));
      }
    }
  }

  /** A string that is accepted is not changed. */
  lemma {:induction false} AcceptedIsKept(dec: Decoder, s: string, bad: string)
    requires IsDecoder(dec) && Width(dec, s).Some?
    ensures Repaired(dec, s, bad) == s
    decreases |s|
  {
    hide IsDecoder;
    if s == "" {
    } else {
      var n := dec(s).n;
      DecodesSome(dec, s);
      AcceptedIsKept(dec, s[n..], bad);
      assert s[..n] + s[n..] == s;
    }
  }

  /** Whole printable characters are kept; then an invalid byte, or a whole character that is not printable, is
      replaced; then the same begins again. */
  lemma {:induction false} RepairedAt(dec: Decoder, s: string, bad: string, k: nat)
    requires IsDecoder(dec) && Boundary(dec, s, k) && k < |s| && !Printable(dec(s[k..]))
    ensures var d := dec(s[k..]);
      var n := if d.Char? then d.n else 1;
      k + n <= |s| && Repaired(dec, s, bad) == s[..k] + bad + Repaired(dec, s[k + n..], bad)
    decreases |s|
  {
    hide IsDecoder, Repaired;
    DecodesSome(dec, s[k..]);
    DecodesSome(dec, s);
    RepairedStep(dec, s, bad);
    if k == 0 {
      assert s[0..] == s && s[..0] + bad == bad;
    } else {
      var m, d := dec(s).n, dec(s[k..]);
      var n := if d.Char? then d.n else 1;
      assert s[m..][k - m..] == s[k..];
      RepairedAt(dec, s[m..], bad, k - m);
      assert s[m..][k - m + n..] == s[k + n..] && s[..m] + s[m..][..k - m] == s[..k];
      Reassociated(s[..m], s[m..][..k - m], bad, Repaired(dec, s[k + n..], bad));
    }
  }

  lemma {:induction false} Reassociated(a: string, b: string, c: string, d: string)
    ensures a + (b + c + d) == a + b + c + d
  {
    Associative(a, b + c, d);
    Associative(a, b, c);
  }

  /** A width is missing exactly if something invalid or not printable comes after whole printable characters. */
  lemma {:induction false} NoWidthExactly(dec: Decoder, s: string)
    requires IsDecoder(dec)
    ensures Width(dec, s) == None <==>
            exists k: nat :: Boundary(dec, s, k) && k < |s| && !Printable(dec(s[k..]))
    decreases |s|
  {
    hide IsDecoder;
    if s != "" {
      assert s[0..] == s;
      if Printable(dec(s)) {
        var n := dec(s).n;
        DecodesSome(dec, s);
        NoWidthExactly(dec, s[n..]);
        if k: nat :| Boundary(dec, s[n..], k) && k < |s[n..]| && !Printable(dec(s[n..][k..])) {
          assert s[n..][k..] == s[n + k..] && Boundary(dec, s, n + k);
        }
        if k: nat :| Boundary(dec, s, k) && k < |s| && !Printable(dec(s[k..])) {
          assert s[n..][k - n..] == s[k..];
        }
      } else {
        assert Boundary(dec, s, 0);
      }
    }
  }

  lemma {:induction false} RepairTwice(dec: Decoder, s: string, bad: string)
    requires IsDecoder(dec) && Width(dec, bad).Some?
    ensures Repaired(dec, Repaired(dec, s, bad), bad) == Repaired(dec, s, bad)
  {
    RepairedIsAccepted(dec, s, bad);
    AcceptedIsKept(dec, Repaired(dec, s, bad), bad);
  }
}
