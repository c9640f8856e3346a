/**
 The two escapers of JSON strings: plugins/web/mod_json/json_encode_str.c, which hands out segments, and
 barlibs/i3/escape_json_str.c, which appends a quoted string to a buffer. Against them stands a reader of JSON
 strings, after section 7 of RFC 8259. A char stands for a byte.
 */
module JsonEscape {
  import opened Common
  import opened LsString
  import opened Wrappers

  // ---- Writing ----

  predicate MustEscape(c: char) {
    c < ' ' || c == '\\' || c == '"' || c == '/'
  }

  /** How one byte is written. */
  function Written(c: char): string {
    if MustEscape(c) then "\\u00" + [HexChar(c as int / 16 % 16), HexChar(c as int % 16)] else [c]
  }

  function Escaped(s: string): string {
    if s == "" then "" else Written(s[0]) + Escaped(s[1..])
  }

  lemma {:induction false} EscapedConcat(a: string, b: string)
    ensures Escaped(a + b) == Escaped(a) + Escaped(b)
  {
    hide Written;
    if a == "" {
      assert a + b == b;
    } else {
      EscapedConcat(a[1..], b);
      assert (a + b)[1..] == a[1..] + b;
      Associative(Written(a[0]), Escaped(a[1..]), Escaped(b));
    }
  }

  /** A stretch of bytes that need no escape is written as it is. */
  lemma {:induction false} EscapedPlain(s: string)
    requires forall i | 0 <= i < |s| :: !MustEscape(s[i])
    ensures Escaped(s) == s
  {
    if s == "" {
    } else {
      EscapedPlain(s[1..]);
    }
  }

  /** What is written once the stretch from `prev` and the byte at `i` are. */
  lemma {:induction false} EscapedStretch(v: string, prev: nat, i: nat)
    requires prev <= i < |v| && MustEscape(v[i]) && forall k | prev <= k < i :: !MustEscape(v[k])
    ensures Escaped(v[..i + 1]) == Escaped(v[..prev]) + v[prev..i] + Written(v[i])
  {
    hide MustEscape, Written;
    EscapedPlain(v[prev..i]);
    assert v[..i] == v[..prev] + v[prev..i];
    EscapedConcat(v[..prev], v[prev..i]);
    assert v[..i + 1] == v[..i] + [v[i]];
    EscapedConcat(v[..i], [v[i]]);
    EscapedOne(v[i]);
  }

  lemma {:induction false} EscapedOne(c: char)
    ensures Escaped([c]) == Written(c)
  {
    assert [c][1..] == "";
  }

  lemma {:induction false} EscapedEnd(v: string, prev: nat)
    requires prev <= |v| && forall k | prev <= k < |v| :: !MustEscape(v[k])
    ensures Escaped(v) == Escaped(v[..prev]) + v[prev..]
  {
    EscapedPlain(v[prev..]);
    assert v == v[..prev] + v[prev..];
    EscapedConcat(v[..prev], v[prev..]);
  }

  function Flat(segments: seq<string>): string {
    if segments == [] then "" else Flat(segments[..|segments| - 1]) + segments[|segments| - 1]
  }

  lemma {:induction false} FlatSnoc(segments: seq<string>, a: string)
    ensures Flat(segments + [a]) == Flat(segments) + a
  {
    assert (segments + [a])[..|segments|] == segments;
  }

  /** Setting the two digits of the escape. */
  method Patch(esc: array<char>, c: char)
    requires esc.Length == 6 && esc[..4] == "\\u00" && MustEscape(c)
    modifies esc
    ensures esc[..] == Written(c) && esc[..4] == "\\u00"
  {
    hide HexChar;
    esc[4] := HexChar(c as int / 16 % 16);
    esc[5] := HexChar(c as int % 16);
    assert esc[..] == esc[..4] + [esc[4], esc[5]];
  }

  /** json_encode_str(); the segments are those given to the append callback, in order. */
  method JsonEncodeStr(v: string) returns (segments: seq<string>)
    ensures Flat(segments) == Escaped(v)
  {
    hide Written, MustEscape, Escaped, Flat;
    var esc := new char[6](i requires 0 <= i < 6 => "\\u00##"[i]);
    assert esc[..4] == "\\u00";
    var prev := 0;
    segments := [];
    Nothing();
    assert v[..0] == "";
    for i := 0 to |v|
      invariant 0 <= prev <= i && forall k | prev <= k < i :: !MustEscape(v[k])
      invariant esc[..4] == "\\u00"
      invariant Flat(segments) == Escaped(v[..prev])
    {
      var c := v[i];
      if MustEscape(c) {
        EscapedStretch(v, prev, i);
        FlatSnoc(segments, v[prev..i]);
        segments := segments + [v[prev..i]];
        Patch(esc, c);
        FlatSnoc(segments, esc[..]);
        segments := segments + [esc[..]];
        prev := i + 1;
      }
    }
    EscapedEnd(v, prev);
    FlatSnoc(segments, v[prev..]);
    segments := segments + [v[prev..]];
  }

  lemma {:induction false} Nothing()
    ensures Flat([]) == "" == Escaped("")
  {
  }

  /** append_json_escaped_str(); false for a panic of the buffer. */
  method AppendJsonEscapedStr(dst: LsString, v: string) returns (ok: bool)
    requires dst.Valid()
    modifies dst, dst.data
    ensures ok ==> dst.Valid() && (dst.data == old(dst.data) || fresh(dst.data))
    ensures ok ==> dst.Contents() == old(dst.Contents()) + "\"" + Escaped(v) + "\""
  {
    hide Escaped, FirstFit;
    ok := dst.AppendChar('"');
    if ok {
      ok := AppendEscaped(dst, v);
    }
    if ok {
      ok := dst.AppendChar('"');
    }
  }

  /** The part between the quotes. */
  method AppendEscaped(dst: LsString, v: string) returns (ok: bool)
    requires dst.Valid()
    modifies dst, dst.data
    ensures ok ==> dst.Valid() && (dst.data == old(dst.data) || fresh(dst.data))
    ensures ok ==> dst.Contents() == old(dst.Contents()) + Escaped(v)
  {
    hide Written, MustEscape, Escaped, FirstFit;
    ghost var was := dst.Contents();
    var esc := new char[6](i requires 0 <= i < 6 => "\\u00##"[i]);
    assert esc[..4] == "\\u00";
    var prev := 0;
    Nothing();
    assert v[..0] == "";
    for i := 0 to |v|
      invariant 0 <= prev <= i && forall k | prev <= k < i :: !MustEscape(v[k])
      invariant esc[..4] == "\\u00"
      invariant dst.Valid() && (dst.data == old(dst.data) || fresh(dst.data)) && dst.data != esc
      invariant dst.Contents() == was + Escaped(v[..prev])
    {
      if MustEscape(v[i]) {
        EscapedStretch(v, prev, i);
        Associative(was, Escaped(v[..prev]), v[prev..i] + Written(v[i]));
        Associative(Escaped(v[..prev]), v[prev..i], Written(v[i]));
        ok := AppendStretch(dst, v[prev..i], v[i], esc);
        if !ok {
          return;
        }
        prev := i + 1;
      }
    }
    EscapedEnd(v, prev);
    Associative(was, Escaped(v[..prev]), v[prev..]);
    ok := dst.Append(v[prev..]);
  }

  /** A stretch of plain bytes and the byte that ends it. */
  method AppendStretch(dst: LsString, plain: string, c: char, esc: array<char>) returns (ok: bool)
    requires dst.Valid() && dst.data != esc && esc.Length == 6 && esc[..4] == "\\u00" && MustEscape(c)
    modifies dst, dst.data, esc
    ensures esc[..4] == "\\u00"
    ensures ok ==> dst.Valid() && (dst.data == old(dst.data) || fresh(dst.data))
    ensures ok ==> dst.Contents() == old(dst.Contents()) + (plain + Written(c))
  {
    hide Written, MustEscape, FirstFit;
    Associative(dst.Contents(), plain, Written(c));
    ok := dst.Append(plain);
    if ok {
      Patch(esc, c);
      ok := dst.Append(esc[..]);
    }
  }

  // ---- Reading ----

  /** The character that a two-character escape stands for. */
  function ShortEscape(c: char): Option<char> {
    match c
    case '"' => Some('"')
    case '\\' => Some('\\')
    case '/' => Some('/')
    case 'b' => Some(8 as char)
    case 'f' => Some(12 as char)
    case 'n' => Some('\n')
    case 'r' => Some('\r')
    case 't' => Some('\t')
    case _ => None
  }

  datatype Reading = Reading(value: string, rest: string)

  function Before(c: char, r: Option<Reading>): (r': Option<Reading>)
    ensures r'.Some? <==> r.Some?
    ensures r.Some? ==> r'.value.rest == r.value.rest
  {
    match r
    case None => None
    case Some(Reading(value, rest)) => Some(Reading([c] + value, rest))
  }

  /** Reads what follows an opening quote, up to the closing one, and gives what is after that. Control
      characters must be escaped; of the long escapes, those of ASCII are enough here. */
  function Read(t: string): (r: Option<Reading>)
    ensures r.Some? ==> |r.value.rest| < |t|
  {
    if t == "" then None
    else if t[0] == '"' then Some(Reading("", t[1..]))
    else if t[0] == '\\' then
      if |t| >= 6 && t[1] == 'u' then
        var a, b := HexValue(t[4]), HexValue(t[5]);
        if t[2] == '0' && t[3] == '0' && 0 <= a < 8 && b >= 0 then Before((a * 16 + b) as char, Read(t[6..]))
        else None
      else if |t| >= 2 && ShortEscape(t[1]).Some? then Before(ShortEscape(t[1]).value, Read(t[2..]))
      else None
    else if t[0] < ' ' then None
    else Before(t[0], Read(t[1..]))
  }

  lemma {:induction false} ReadWritten(c: char, t: string)
    ensures Read(Written(c) + t) == Before(c, Read(t))
  {
    var w := Written(c) + t;
    if MustEscape(c) {
      var hi, lo := c as int / 16 % 16, c as int % 16;
      assert hi < 8 && hi * 16 + lo == c as int;
      HexRoundTrip(hi);
      HexRoundTrip(lo);
      assert w[..6] == Written(c) && w[6..] == t;
      assert w[0] == '\\' && w[1] == 'u' && w[2] == '0' && w[3] == '0' && w[4] == HexChar(hi) && w[5] == HexChar(lo);
    } else {
      assert w[1..] == t;
    }
  }

  /** A quoted escaped string reads back as the original, and ends where it was closed, whatever follows. */
  lemma {:induction false} ReadEscaped(s: string, rest: string)
    ensures Read(Escaped(s) + "\"" + rest) == Some(Reading(s, rest))
  {
    hide Written;
    if s == "" {
      assert Escaped(s) + "\"" + rest == "\"" + rest;
      assert ("\"" + rest)[1..] == rest;
    } else {
      ReadEscaped(s[1..], rest);
      var t := Escaped(s[1..]) + "\"" + rest;
      assert Escaped(s) + "\"" + rest == Written(s[0]) + t;
      ReadWritten(s[0], t);
      assert s == [s[0]] + s[1..];
    }
  }

  /** The byte at `i` is no control character, quote or slash, and if it is a backslash, it opens an escape of
      four digits. */
  predicate CleanAt(t: string, i: nat)
    requires i < |t|
  {
    && t[i] >= ' ' && t[i] != '"' && t[i] != '/'
    && (t[i] == '\\' ==>
          && i + 5 < |t| && t[i + 1] == 'u' && t[i + 2] == '0' && t[i + 3] == '0'
          && HexValue(t[i + 4]) >= 0 && HexValue(t[i + 5]) >= 0)
  }

  lemma {:induction false} WrittenIsClean(c: char)
    ensures forall i | 0 <= i < |Written(c)| :: CleanAt(Written(c), i)
  {
  }

  lemma {:induction false} EscapedIsClean(s: string)
    ensures forall i | 0 <= i < |Escaped(s)| :: CleanAt(Escaped(s), i)
  {
    hide Written, HexValue;
    if s == "" {
    } else {
      var w, u := Written(s[0]), Escaped(s[1..]);
      WrittenIsClean(s[0]);
      EscapedIsClean(s[1..]);
      forall i | 0 <= i < |w + u| ensures CleanAt(w + u, i) {
        if i < |w| {
          assert CleanAt(w, i);
        } else {
          assert CleanAt(u, i - |w|);
        }
      }
    }
  }
}
