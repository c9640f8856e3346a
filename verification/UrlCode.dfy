/**
 Percent-coding of the web plugin (plugins/web/mod_urlencode), sections 2.1 and 2.3 of RFC 3986, with the
 optional plus sign for a space.
 */
module UrlCode {
  import opened Common
  import opened Wrappers

  type Byte = b: int | 0 <= b < 256

  const PERCENT: Byte := '%' as int
  const PLUS: Byte := '+' as int
  const SPACE: Byte := ' ' as int

  /** should_be_escaped(), negated: the unreserved characters. */
  predicate Unreserved(c: Byte) {
    'A' as int <= c <= 'Z' as int || 'a' as int <= c <= 'z' as int || '0' as int <= c <= '9' as int
    || c == '-' as int || c == '_' as int || c == '.' as int || c == '~' as int
  }

  function HexByte(d: nat): Byte
    requires d < 16
  {
    HexChar(d) as int
  }

  /** parse_hex_digit() */
  function ParseHexDigit(c: Byte): (d: int)
    ensures -1 <= d < 16
  {
    HexValue(c as char)
  }

  // ---- Encoding ----

  /** How one byte is written. */
  function Written(c: Byte, plus: bool): (r: seq<Byte>)
    ensures 1 <= |r| <= 3
  {
    if plus && c == SPACE then [PLUS]
    else if Unreserved(c) then [c]
    else [PERCENT, HexByte(c / 16), HexByte(c % 16)]
  }

  function Encoded(src: seq<Byte>, plus: bool): seq<Byte> {
    if src == [] then [] else Written(src[0], plus) + Encoded(src[1..], plus)
  }

  /** urlencode_size(): the size of the encoding, or (size_t) -1 if it is that much or more. */
  method UrlencodeSize(src: seq<Byte>, plus: bool) returns (res: nat)
    ensures res == if |Encoded(src, plus)| < SIZE_MAX then |Encoded(src, plus)| else SIZE_MAX
  {
    hide Unreserved;
    res := 0;
    for i := 0 to |src|
      invariant res <= SIZE_MAX && res + |Encoded(src[i..], plus)| == |Encoded(src, plus)|
    {
      var c := src[i];
      assert src[i..][1..] == src[i + 1..];
      var summand := if (plus && c == SPACE) || Unreserved(c) then 1 else 3;
      assert summand == |Written(c, plus)|;
      AddOverflows(res, summand);
      res := (res + summand) % (SIZE_MAX + 1);
      if res < summand {
        return SIZE_MAX;
      }
    }
  }

  /** The test for overflow after an addition. */
  lemma {:induction false} AddOverflows(a: nat, b: nat)
    requires a <= SIZE_MAX && b <= SIZE_MAX
    ensures (a + b) % (SIZE_MAX + 1) < b <==> a + b > SIZE_MAX
    ensures a + b <= SIZE_MAX ==> (a + b) % (SIZE_MAX + 1) == a + b
  {
  }

  /** urlencode(); the destination has the size that urlencode_size() gives. */
  method Urlencode(src: seq<Byte>, dst: array<Byte>, plus: bool)
    requires dst.Length == |Encoded(src, plus)|
    modifies dst
    ensures dst[..] == Encoded(src, plus)
  {
    hide Written, Encoded;
    var j := 0;
    assert src[0..] == src && dst[..0] + Encoded(src, plus) == Encoded(src, plus);
    for i := 0 to |src|
      invariant 0 <= j <= dst.Length && dst[..j] + Encoded(src[i..], plus) == Encoded(src, plus)
    {
      ghost var done, rest := dst[..j], Encoded(src[i + 1..], plus);
      EncodedStep(src[i..], plus);
      assert src[i..][1..] == src[i + 1..];
      Associative(done, Written(src[i], plus), rest);
      j := Put(dst, j, src[i], plus);
      assert dst[..j] == done + Written(src[i], plus);
    }
    EncodedStep([], plus);
    assert src[|src|..] == [] && dst[..j] + [] == dst[..j];
    assert j == dst.Length;
  }

  lemma {:induction false} EncodedStep(src: seq<Byte>, plus: bool)
    ensures Encoded(src, plus) == if src == [] then [] else Written(src[0], plus) + Encoded(src[1..], plus)
  {
  }

  /** Writes one byte; the result is the position after it. */
  method Put(dst: array<Byte>, j: nat, c: Byte, plus: bool) returns (j': nat)
    requires j + |Written(c, plus)| <= dst.Length
    modifies dst
    ensures j' == j + |Written(c, plus)| && dst[..j'] == old(dst[..j]) + Written(c, plus)
  {
    hide Unreserved, HexByte;
    if plus && c == SPACE {
      dst[j] := PLUS;
      j' := j + 1;
    } else if !Unreserved(c) {
      dst[j], dst[j + 1], dst[j + 2] := PERCENT, HexByte(c / 16), HexByte(c % 16);
      j' := j + 3;
    } else {
      dst[j] := c;
      j' := j + 1;
    }
    assert dst[..j] == old(dst[..j]);
    assert dst[..j'] == dst[..j] + dst[j..j'];
  }

  // ---- Decoding ----

  /** Whether a percent sign at `i` starts an escape. */
  predicate EscapeAt(src: seq<Byte>, i: nat) {
    i + 2 < |src| && ParseHexDigit(src[i + 1]) >= 0 && ParseHexDigit(src[i + 2]) >= 0
  }

  function Decoded(src: seq<Byte>): Option<seq<Byte>> {
    if src == [] then Some([])
    else if src[0] != PERCENT then
      var rest := Decoded(src[1..]);
      if rest.None? then None else Some([if src[0] == PLUS then SPACE else src[0]] + rest.value)
    else if !EscapeAt(src, 0) then None
    else
      var rest := Decoded(src[3..]);
      if rest.None? then None else Some([ParseHexDigit(src[1]) * 16 + ParseHexDigit(src[2])] + rest.value)
  }

  /** The number of bytes a decoding takes, whether or not the escapes are well-formed. */
  function Tokens(src: seq<Byte>): nat
    decreases |src|
  {
    if src == [] then 0
    else if src[0] == PERCENT then 1 + Tokens(if |src| < 3 then [] else src[3..])
    else 1 + Tokens(src[1..])
  }

  /** urldecode_size() */
  method UrldecodeSize(src: seq<Byte>) returns (res: nat)
    ensures res == Tokens(src)
  {
    var i := 0;
    res := 0;
    while i < |src|
      invariant 0 <= i && res + Tokens(if i < |src| then src[i..] else []) == Tokens(src)
    {
      ghost var rest := src[i..];
      if src[i] == PERCENT {
        i := i + 3;
        assert i <= |src| ==> rest[3..] == src[i..];
      } else {
        i := i + 1;
        assert rest[1..] == src[i..];
      }
      res := res + 1;
    }
  }

  /** urldecode(): the destination, of the size that urldecode_size() gives, is never overrun. */
  method Urldecode(src: seq<Byte>, dst: array<Byte>) returns (ok: bool)
    requires dst.Length == Tokens(src)
    modifies dst
    ensures ok <==> Decoded(src).Some?
    ensures ok ==> Decoded(src) == Some(dst[..])
  {
    hide Tokens, ParseHexDigit;
    var i, j := 0, 0;
    assert src[0..] == src && (Decoded(src).Some? ==> dst[..0] + Decoded(src).value == Decoded(src).value);
    while i < |src|
      invariant 0 <= i <= |src| && 0 <= j && j + Tokens(src[i..]) == dst.Length
      invariant Decoded(src) == match Decoded(src[i..]) case None => None case Some(t) => Some(dst[..j] + t)
    {
      var c := src[i];
      ghost var done, rest := dst[..j], src[i..];
      TokensStep(rest);
      var newC: Byte;
      if c == PERCENT {
        if i + 2 >= |src| {
          return false;
        }
        var hi, lo := ParseHexDigit(src[i + 1]), ParseHexDigit(src[i + 2]);
        if hi < 0 || lo < 0 {
          return false;
        }
        newC := hi * 16 + lo;
        i := i + 3;
        assert rest[3..] == src[i..];
      } else {
        newC := if c == PLUS then SPACE else c;
        i := i + 1;
        assert rest[1..] == src[i..];
      }
      dst[j] := newC;
      j := j + 1;
      assert dst[..j] == done + [newC];
      DecodedStep(done, newC, rest, src[i..]);
    }
    TokensStep([]);
    assert dst[..j] + [] == dst[..];
    ok := true;
  }

  lemma {:induction false} TokensStep(src: seq<Byte>)
    ensures Tokens(src) == if src == [] then 0
                           else if src[0] == PERCENT then 1 + Tokens(if |src| < 3 then [] else src[3..])
                           else 1 + Tokens(src[1..])
  {
  }

  lemma {:induction false} DecodedStep(done: seq<Byte>, c: Byte, src: seq<Byte>, rest: seq<Byte>)
    requires Decoded(src) == match Decoded(rest) case None => None case Some(t) => Some([c] + t)
    ensures (match Decoded(src) case None => None case Some(t) => Some(done + t))
         == (match Decoded(rest) case None => None case Some(t) => Some(done + [c] + t))
  {
    hide Decoded;
    if Decoded(rest).Some? {
      Associative(done, [c], Decoded(rest).value);
    }
  }

  // ---- The functions that Lua sees ----

  /** urlencode(); None for an out-of-memory panic. */
  method LuaUrlencode(src: seq<Byte>, plus: bool) returns (r: Option<seq<Byte>>)
    ensures r == if |Encoded(src, plus)| < SIZE_MAX then Some(Encoded(src, plus)) else None
  {
    var n := UrlencodeSize(src, plus);
    if n == SIZE_MAX {
      return None;
    }
    var buf := new Byte[n];
    Urlencode(src, buf, plus);
    r := Some(buf[..]);
  }

  /** urldecode(); None for nil. */
  method LuaUrldecode(src: seq<Byte>) returns (r: Option<seq<Byte>>)
    ensures r == Decoded(src)
  {
    var n := UrldecodeSize(src);
    var buf := new Byte[n];
    var ok := Urldecode(src, buf);
    r := if ok then Some(buf[..]) else None;
  }

  // ---- What they are to each other ----

  lemma {:induction false} ByteRoundTrip(c: Byte)
    ensures ParseHexDigit(HexByte(c / 16)) == c / 16 && ParseHexDigit(HexByte(c % 16)) == c % 16
    ensures c / 16 * 16 + c % 16 == c
    ensures Unreserved(c) ==> c != PERCENT && c != PLUS
  {
    HexRoundTrip(c / 16);
    HexRoundTrip(c % 16);
  }

  /** Decoding undoes encoding, in both notations. */
  lemma {:induction false} DecodeEncode(src: seq<Byte>, plus: bool)
    ensures Decoded(Encoded(src, plus)) == Some(src)
  {
    hide Unreserved, HexByte, ParseHexDigit;
    if src == [] {
    } else {
      var c, rest, t := src[0], Encoded(src[1..], plus), Encoded(src, plus);
      DecodeEncode(src[1..], plus);
      ByteRoundTrip(c);
      assert src == [c] + src[1..];
      assert t[|Written(c, plus)|..] == rest;
    }
  }

  /** An encoding has only unreserved characters, percent signs of escapes in upper case, and plus signs where
      asked for. */
  lemma {:induction false} EncodedCharacters(src: seq<Byte>, plus: bool)
    ensures forall i | 0 <= i < |Encoded(src, plus)| ::
              var c := Encoded(src, plus)[i]; Unreserved(c) || c == PERCENT || (plus && c == PLUS)
  {
    if src == [] {
    } else {
      EncodedCharacters(src[1..], plus);
      assert forall i | 0 <= i < |Written(src[0], plus)| ::
          var c := Written(src[0], plus)[i]; Unreserved(c) || c == PERCENT || (plus && c == PLUS);
    }
  }

  predicate BadAt(src: seq<Byte>, i: nat)
    requires i < |src|
  {
    src[i] == PERCENT && !EscapeAt(src, i)
  }

  ghost predicate Malformed(src: seq<Byte>) {
    exists i: nat :: i < |src| && BadAt(src, i)
  }

  lemma {:induction false} MalformedLater(src: seq<Byte>, k: nat)
    requires k <= |src| && forall i: nat | i < k :: !BadAt(src, i)
    ensures Malformed(src) <==> Malformed(src[k..])
  {
    hide ParseHexDigit;
    if Malformed(src) {
      var i: nat :| i < |src| && BadAt(src, i);
      assert BadAt(src[k..], i - k);
    }
    if Malformed(src[k..]) {
      var i: nat :| i < |src[k..]| && BadAt(src[k..], i);
      assert BadAt(src, i + k);
    }
  }

  /** Decoding fails exactly if some percent sign, wherever it is, is not followed by two hexadecimal digits. */
  lemma {:induction false} MalformedExactly(src: seq<Byte>)
    ensures Decoded(src).None? <==> Malformed(src)
  {
    hide Malformed;
    if src == [] {
      NotMalformed();
    } else if src[0] != PERCENT {
      MalformedExactly(src[1..]);
      MalformedLater(src, 1);
    } else if EscapeAt(src, 0) {
      MalformedExactly(src[3..]);
      assert !BadAt(src, 0) && !BadAt(src, 1) && !BadAt(src, 2);
      MalformedLater(src, 3);
    } else {
      MalformedAt(src, 0);
    }
  }

  lemma {:induction false} NotMalformed()
    ensures !Malformed([])
  {
  }

  lemma {:induction false} MalformedAt(src: seq<Byte>, i: nat)
    requires i < |src| && BadAt(src, i)
    ensures Malformed(src)
  {
  }

  function Lower(c: Byte): Byte {
    if 'A' as int <= c <= 'Z' as int then c + 32 else c
  }

  /** The same with the letters among the digits of escapes in lower case. */
  function LowerDigits(src: seq<Byte>): seq<Byte> {
    if src == [] then []
    else if src[0] == PERCENT && |src| >= 3 then [PERCENT, Lower(src[1]), Lower(src[2])] + LowerDigits(src[3..])
    else [src[0]] + LowerDigits(src[1..])
  }

  lemma {:induction false} LowerDigit(c: Byte)
    ensures ParseHexDigit(Lower(c)) == ParseHexDigit(c)
  {
  }

  /** The case of the digits does not matter: only that of other characters is kept. */
  lemma {:induction false} CaseOfDigits(src: seq<Byte>)
    ensures Decoded(LowerDigits(src)) == Decoded(src)
  {
    hide ParseHexDigit, Lower;
    if src == [] {
    } else if src[0] == PERCENT && |src| >= 3 {
      var t := LowerDigits(src);
      CaseOfDigits(src[3..]);
      LowerDigit(src[1]);
      LowerDigit(src[2]);
      assert t[3..] == LowerDigits(src[3..]);
    } else {
      var t := LowerDigits(src);
      CaseOfDigits(src[1..]);
      assert t[1..] == LowerDigits(src[1..]);
      if src[0] == PERCENT {
        assert |src| < 3;
      }
    }
  }

  /** What has no percent and plus signs is decoded as itself. */
  lemma {:induction false} PlainIsKept(src: seq<Byte>)
    requires PERCENT !in src && PLUS !in src
    ensures Decoded(src) == Some(src)
  {
    if src == [] {
    } else {
      PlainIsKept(src[1..]);
      assert src == [src[0]] + src[1..];
    }
  }

  /** The size pass agrees with what decoding yields. */
  lemma {:induction false} DecodedSize(src: seq<Byte>)
    ensures Decoded(src).Some? ==> |Decoded(src).value| == Tokens(src)
  {
    if src == [] {
    } else {
      if src[0] != PERCENT {
        DecodedSize(src[1..]);
      } else if |src| >= 3 {
        DecodedSize(src[3..]);
      }
    }
  }
}
