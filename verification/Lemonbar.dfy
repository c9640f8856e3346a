/** Markup handling of the lemonbar and stdout barlibs (markup_utils.c, sanitize.c). */
module Lemonbar {
  import opened Common
  import opened Wrappers
  import opened ParseInt

  /** memchr(): the position of the first `c`, or -1. */
  function IndexOf(s: string, c: char): (i: int)
    ensures -1 <= i < |s|
    ensures forall j | 0 <= j < (if i < 0 then |s| else i) :: s[j] != c
    ensures 0 <= i ==> s[i] == c
  {
    if s == "" then -1
    else if s[0] == c then 0
    else
      var i := IndexOf(s[1..], c);
      if i < 0 then -1 else i + 1
  }

  /** Every `c` replaced by `repl`. */
  function Replaced(s: string, c: char, repl: string): string {
    if s == "" then "" else (if s[0] == c then repl else [s[0]]) + Replaced(s[1..], c, repl)
  }

  /** What the "escape" function of the lemonbar barlib is for. */
  function Escaped(s: string): string {
    Replaced(s, '%', "%%")
  }

  function Stripped(s: string): string {
    Replaced(s, '\n', "")
  }

  lemma {:induction false} ReplacedSkips(s: string, c: char, repl: string, n: nat)
    requires n <= |s| && (forall j | 0 <= j < n :: s[j] != c)
    ensures Replaced(s, c, repl) == s[..n] + Replaced(s[n..], c, repl)
  {
    if n > 0 {
      ReplacedSkips(s[1..], c, repl, n - 1);
      assert s[..n] == [s[0]] + s[1..][..n - 1] && s[1..][n - 1..] == s[n..];
    } else {
      assert s[..0] == "" && s[0..] == s;
    }
  }

  lemma {:induction false} ReplacedAt(s: string, c: char, repl: string, i: int)
    requires i == IndexOf(s, c)
    ensures i < 0 ==> Replaced(s, c, repl) == s
    ensures 0 <= i ==> Replaced(s, c, repl) == s[..i] + repl + Replaced(s[i + 1..], c, repl)
  {
    if i < 0 {
      ReplacedSkips(s, c, repl, |s|);
      assert s[..|s|] == s && s[|s|..] == "";
    } else {
      ReplacedSkips(s, c, repl, i);
      assert s[i..][1..] == s[i + 1..];
      Associative(s[..i], repl, Replaced(s[i + 1..], c, repl));
    }
  }

  /** escape() and stdout's append_sanitized() are this loop, with "%%" and "" for `repl`. */
  method ReplaceAll(s: string, c: char, repl: string) returns (out: string)
    ensures out == Replaced(s, c, repl)
  {
    hide Replaced, IndexOf;
    out := "";
    var v := s;
    while true
      invariant out + Replaced(v, c, repl) == Replaced(s, c, repl)
      decreases |v|
    {
      var i := IndexOf(v, c);
      ReplacedAt(v, c, repl, i);
      if i < 0 {
        break;
      }
      Associative(out, v[..i] + repl, Replaced(v[i + 1..], c, repl));
      Associative(out, v[..i], repl);
      out := out + v[..i];
      out := out + repl;
      v := v[i + 1..];
    }
    out := out + v;
  }

  lemma {:induction false} ReplacedConcat(a: string, b: string, c: char, repl: string)
    ensures Replaced(a + b, c, repl) == Replaced(a, c, repl) + Replaced(b, c, repl)
  {
    if a == "" {
      assert a + b == b;
    } else {
      ReplacedConcat(a[1..], b, c, repl);
      assert (a + b)[1..] == a[1..] + b;
      Associative(if a[0] == c then repl else [a[0]], Replaced(a[1..], c, repl), Replaced(b, c, repl));
    }
  }

  /** Stripping joins what is between newlines, and changes nothing else. */
  lemma {:induction false} StrippedJoins(a: string, b: string)
    requires '\n' !in a
    ensures Stripped(a + "\n" + b) == a + Stripped(b) && Stripped(a) == a
  {
    ReplacedSkips(a, '\n', "", |a|);
    assert a[..|a|] == a && a[|a|..] == "" && a + "" == a;
    ReplacedConcat(a, "\n" + b, '\n', "");
    ReplacedConcat("\n", b, '\n', "");
    Associative(a, "\n", b);
    assert Replaced("\n", '\n', "") == "" + Replaced("", '\n', "");
  }

  lemma {:induction false} StrippedHasNoNewline(s: string)
    ensures '\n' !in Stripped(s)
  {
    if s == "" {
    } else {
      StrippedHasNoNewline(s[1..]);
    }
  }

  /** A reader that takes "%%" for a percent sign. */
  function Unescaped(s: string): string {
    if s == "" then ""
    else if s[0] == '%' && |s| >= 2 && s[1] == '%' then "%" + Unescaped(s[2..])
    else [s[0]] + Unescaped(s[1..])
  }

  lemma {:induction false} EscapedReadsBack(s: string)
    ensures Unescaped(Escaped(s)) == s
  {
    if s == "" {
    } else {
      var rest := Escaped(s[1..]);
      EscapedReadsBack(s[1..]);
      if s[0] == '%' {
        assert Escaped(s) == "%%" + rest && ("%%" + rest)[2..] == rest;
        assert s == "%" + s[1..];
      } else {
        assert Escaped(s) == [s[0]] + rest && ([s[0]] + rest)[1..] == rest;
      }
    }
  }

  // ---- Sanitizing ----

  /** A piece of sanitized text: a byte of the input, or the inserted widget prefix. */
  datatype Piece = Kept(c: char) | Prefix

  predicate StartsTag(s: string) {
    |s| >= 3 && s[0] == '%' && s[1] == '{' && s[2] == 'A'
  }

  /** One step of the scan for click tags: how many bytes it takes, what comes of them, and whether a
      tag's colon is awaited afterwards. The first colon after a "%{A", unless a closing brace comes
      first, is followed by the prefix; "%%" is no tag start; newlines go away. */
  function Scan(s: string, inTag: bool): (int, seq<Piece>, bool)
    requires s != ""
  {
    if s[0] == '\n' then (1, [], inTag)
    else if StartsTag(s) then (1, [Kept('%')], true)
    else if s[0] == '%' && |s| >= 2 && s[1] == '%' then (2, [Kept('%'), Kept('%')], inTag)
    else if s[0] == ':' && inTag then (1, [Kept(':'), Prefix], false)
    else (1, [Kept(s[0])], inTag && s[0] != '}')
  }

  function Marked(s: string, inTag: bool): seq<Piece>
    decreases |s|
  {
    if s == "" then []
    else
      var (n, pieces, inTag') := Scan(s, inTag);
      pieces + Marked(s[n..], inTag')
  }

  function PieceText(p: Piece, widget: nat): string {
    match p case Kept(c) => [c] case Prefix => Decimal(widget) + "_"
  }

  function Text(pieces: seq<Piece>, widget: nat): string {
    if pieces == [] then "" else PieceText(pieces[0], widget) + Text(pieces[1..], widget)
  }

  function Sanitized(s: string, widget: nat): string {
    Text(Marked(s, false), widget)
  }

  lemma {:induction false} TextConcat(a: seq<Piece>, b: seq<Piece>, widget: nat)
    ensures Text(a + b, widget) == Text(a, widget) + Text(b, widget)
  {
    hide PieceText;
    if a == [] {
      assert a + b == b;
    } else {
      TextConcat(a[1..], b, widget);
      assert (a + b)[1..] == a[1..] + b && (a + b)[0] == a[0];
      Associative(PieceText(a[0], widget), Text(a[1..], widget), Text(b, widget));
    }
  }

  /** The byte at `i`, or a zero byte past the end. */
  function Peek(v: string, i: nat): char {
    if i < |v| then v[i] else '\0'
  }

  /** A step of the scan, in terms of the bytes that the code looks at. */
  lemma {:induction false} CodeStep(v: string, i: nat, aTag: bool, widget: nat)
    requires i < |v|
    ensures var c, starts := v[i], Peek(v, i + 1) == '{' && Peek(v, i + 2) == 'A';
      var n := if c == '%' && !starts && Peek(v, i + 1) == '%' then 2 else 1;
      var aTag' := if c == '%' && starts then true else if (c == ':' && aTag) || c == '}' then false else aTag;
      && i + n <= |v|
      && Text(Marked(v[i..], aTag), widget)
         == (if c == '\n' then "" else if c == ':' && aTag then ":" + (Decimal(widget) + "_") else v[i..i + n])
            + Text(Marked(v[i + n..], aTag'), widget)
  {
    hide Text, Marked, Decimal, PieceText;
    var s := v[i..];
    var n := Scan(s, aTag).0;
    TextOfScan(s, aTag, widget);
    assert s[n..] == v[i + n..] && s[..n] == v[i..i + n];
  }

  /** append_sanitized() of lemonbar, which copies spans of the input. */
  method AppendSanitized(buf: string, widget: nat, v: string) returns (out: string)
    ensures out == buf + Sanitized(v, widget)
  {
    hide Text, Marked, Decimal, PieceText, Sanitized;
    out := buf;
    var prev, i, aTag := 0, 0, false;
    SanitizedIs(v, widget);
    assert out + v[0..0] == out;
    while i < |v|
      invariant 0 <= prev <= i <= |v|
      invariant out + v[prev..i] + Text(Marked(v[i..], aTag), widget) == buf + Sanitized(v, widget)
    {
      CodeStep(v, i, aTag, widget);
      var c, next1, next2 := v[i], Peek(v, i + 1), Peek(v, i + 2);
      ghost var start := i;
      if c == '\n' {
        Copied(out, v, prev, i, "", Text(Marked(v[i + 1..], aTag), widget));
        out := out + v[prev..i];
        prev := i + 1;
      } else if c == '%' {
        if next1 == '{' && next2 == 'A' {
          aTag := true;
        } else if next1 == '%' {
          i := i + 1;
        }
      } else if c == ':' {
        if aTag {
          Copied(out, v, prev, i + 1, Decimal(widget) + "_", Text(Marked(v[i + 1..], false), widget));
          NotCopied(out, v, prev, i, 1, Decimal(widget) + "_" + Text(Marked(v[i + 1..], false), widget));
          Associative(":", Decimal(widget) + "_", Text(Marked(v[i + 1..], false), widget));
          out := out + v[prev..i + 1];
          prev := i + 1;
          out := out + (Decimal(widget) + "_");
          aTag := false;
        }
      } else if c == '}' {
        aTag := false;
      }
      i := i + 1;
      if prev <= start {
        NotCopied(out, v, prev, start, i - start, Text(Marked(v[i..], aTag), widget));
      }
    }
    assert v[prev..] == v[prev..i] && v[i..] == "";
    TextOfNothing(aTag, widget);
    out := out + v[prev..];
  }

  /** A span is copied, and something else appended; nothing is left that is not copied. */
  lemma {:induction false} Copied(out: string, v: string, prev: nat, i: nat, more: string, rest: string)
    requires prev <= i <= |v|
    ensures forall k | 0 <= k <= |v| :: out + v[prev..i] + more + v[k..k] + rest == out + v[prev..i] + (more + rest)
    ensures forall k | 0 <= k <= |v| :: more == "" ==> out + v[prev..i] + v[k..k] + rest == out + v[prev..i] + (more + rest)
  {
    Associative(out + v[prev..i], more, rest);
    forall k | 0 <= k <= |v|
      ensures out + v[prev..i] + more + v[k..k] == out + v[prev..i] + more
      ensures more == "" ==> out + v[prev..i] + v[k..k] == out + v[prev..i] + more
    {
    }
  }

  /** The span that is not copied yet grows. */
  lemma {:induction false} NotCopied(out: string, v: string, prev: nat, i: nat, n: nat, rest: string)
    requires prev <= i && i + n <= |v|
    ensures out + v[prev..i] + (v[i..i + n] + rest) == out + v[prev..i + n] + rest
  {
    Associative(out + v[prev..i], v[i..i + n], rest);
    Associative(out, v[prev..i], v[i..i + n]);
    assert v[prev..i + n] == v[prev..i] + v[i..i + n];
  }

  lemma {:induction false} SanitizedIs(s: string, widget: nat)
    ensures s[0..] == s && Sanitized(s, widget) == Text(Marked(s, false), widget)
  {
  }

  lemma {:induction false} TextOfNothing(inTag: bool, widget: nat)
    ensures Text(Marked("", inTag), widget) == ""
  {
  }

  lemma {:induction false} TextOfScan(s: string, inTag: bool, widget: nat)
    requires s != ""
    ensures var (n, pieces, inTag') := Scan(s, inTag);
      && 0 < n <= |s| && Text(Marked(s, inTag), widget) == Text(pieces, widget) + Text(Marked(s[n..], inTag'), widget)
      && Text(pieces, widget) == (if s[0] == '\n' then "" else if s[0] == ':' && inTag then ":" + (Decimal(widget) + "_")
                                  else s[..n])
  {
    var (n, pieces, inTag') := Scan(s, inTag);
    TextConcat(pieces, Marked(s[n..], inTag'), widget);
    hide Decimal;
    TextOfPieces(pieces, widget);
  }

  lemma {:induction false} TextOfPieces(pieces: seq<Piece>, widget: nat)
    requires |pieces| <= 2
    ensures Text(pieces, widget) == match |pieces|
                                    case 0 => ""
                                    case 1 => PieceText(pieces[0], widget)
                                    case _ => PieceText(pieces[0], widget) + PieceText(pieces[1], widget)
  {
    hide PieceText;
    if |pieces| == 2 {
      assert pieces[1..] == [pieces[1]] && pieces[1..][1..] == [];
      assert Text(pieces[1..], widget) == PieceText(pieces[1], widget) + "" == PieceText(pieces[1], widget);
    } else if |pieces| == 1 {
      assert pieces[1..] == [] && PieceText(pieces[0], widget) + "" == PieceText(pieces[0], widget);
    }
  }

  // ---- What escaping and sanitizing achieve ----

  /** Text that has been escaped contains no tags: only its newlines go away. */
  lemma {:induction false} SanitizeEscaped(s: string, widget: nat)
    ensures Sanitized(Escaped(s), widget) == Escaped(Stripped(s))
  {
    MarkedEscaped(s);
    TextOfKept(Escaped(Stripped(s)), widget);
  }

  function AllKept(s: string): seq<Piece> {
    seq(|s|, i requires 0 <= i < |s| => Kept(s[i]))
  }

  lemma {:induction false} TextOfKept(s: string, widget: nat)
    ensures Text(AllKept(s), widget) == s
  {
    if s == "" {
    } else {
      TextOfKept(s[1..], widget);
      assert AllKept(s)[1..] == AllKept(s[1..]);
    }
  }

  lemma {:induction false} AllKeptConcat(a: string, b: string)
    ensures AllKept(a + b) == AllKept(a) + AllKept(b)
  {
  }

  lemma {:induction false} ReplacedCons(x: char, s: string, c: char, repl: string)
    ensures Replaced([x] + s, c, repl) == (if x == c then repl else [x]) + Replaced(s, c, repl)
  {
    assert ([x] + s)[1..] == s;
  }

  lemma {:induction false} MarkedEscaped(s: string)
    ensures Marked(Escaped(s), false) == AllKept(Escaped(Stripped(s)))
  {
    hide Marked, AllKept, Replaced, Scan;
    if s == "" {
      EscapedNothing();
    } else {
      var x, rest := s[0], s[1..];
      MarkedEscaped(rest);
      assert s == [x] + rest;
      ReplacedCons(x, rest, '%', "%%");
      ReplacedCons(x, rest, '\n', "");
      var head := if x == '%' then "%%" else [x];
      MarkedOrdinary(head, Escaped(rest));
      if x == '\n' {
        assert "" + Stripped(rest) == Stripped(rest);
      } else {
        ReplacedCons(x, Stripped(rest), '%', "%%");
        AllKeptConcat(head, Escaped(Stripped(rest)));
      }
    }
  }

  lemma {:induction false} EscapedNothing()
    ensures Escaped("") == "" && Stripped("") == "" && Marked("", false) == AllKept("")
  {
  }

  lemma {:induction false} MarkedOrdinary(head: string, rest: string)
    requires head == "%%" || (|head| == 1 && head[0] != '%')
    ensures Marked(head + rest, false)
         == (if head == "\n" then [] else AllKept(head)) + Marked(rest, false)
  {
    var s := head + rest;
    assert s[|head|..] == rest && s[0] == head[0];
    if head == "%%" {
      assert s[1] == '%';
      assert AllKept(head) == [Kept('%'), Kept('%')];
    } else {
      assert AllKept(head) == [Kept(head[0])];
    }
    assert Marked(s, false) == Scan(s, false).1 + Marked(s[|head|..], false);
  }

  /** The output has no newline, whatever the input is. */
  lemma {:induction false} SanitizedHasNoNewline(s: string, inTag: bool, widget: nat)
    ensures forall i | 0 <= i < |Text(Marked(s, inTag), widget)| :: Text(Marked(s, inTag), widget)[i] != '\n'
    decreases |s|
  {
    if s != "" {
      hide Marked, Text, Scan, StartsTag;
      var (n, pieces, inTag') := Scan(s, inTag);
      TextOfScan(s, inTag, widget);
      assert 0 < n <= |s|;
      SanitizedHasNoNewline(s[n..], inTag', widget);
      PiecesHaveNoNewline(s, inTag, widget);
      var a, b := Text(pieces, widget), Text(Marked(s[n..], inTag'), widget);
      assert Text(Marked(s, inTag), widget) == a + b;
    } else {
      TextOfNothing(inTag, widget);
    }
  }

  lemma {:induction false} PiecesHaveNoNewline(s: string, inTag: bool, widget: nat)
    requires s != ""
    ensures var text := Text(Scan(s, inTag).1, widget); forall i | 0 <= i < |text| :: text[i] != '\n'
  {
    TextOfScan(s, inTag, widget);
    hide Marked, Text, Decimal;
  }

  function ErasedPiece(p: Piece): string {
    match p case Kept(c) => [c] case Prefix => ""
  }

  /** What is left of the pieces when the inserted prefixes are deleted. */
  function Erased(pieces: seq<Piece>): string {
    if pieces == [] then "" else ErasedPiece(pieces[0]) + Erased(pieces[1..])
  }

  lemma {:induction false} ErasedConcat(a: seq<Piece>, b: seq<Piece>)
    ensures Erased(a + b) == Erased(a) + Erased(b)
  {
    hide ErasedPiece;
    if a == [] {
      assert a + b == b;
    } else {
      ErasedConcat(a[1..], b);
      assert (a + b)[1..] == a[1..] + b && (a + b)[0] == a[0];
      Associative(ErasedPiece(a[0]), Erased(a[1..]), Erased(b));
    }
  }

  /** Without the inserted prefixes the output is the input without newlines. */
  lemma {:induction false} OnlyPrefixesAreInserted(s: string, inTag: bool)
    ensures Erased(Marked(s, inTag)) == Stripped(s)
    decreases |s|
  {
    if s == "" {
    } else {
      var (n, pieces, inTag') := Scan(s, inTag);
      ErasedConcat(pieces, Marked(s[n..], inTag'));
      OnlyPrefixesAreInserted(s[n..], inTag');
      ErasedScan(s, inTag);
    }
  }

  lemma {:induction false} ErasedScan(s: string, inTag: bool)
    requires s != ""
    ensures var (n, pieces, _) := Scan(s, inTag); Stripped(s) == Erased(pieces) + Stripped(s[n..])
  {
    hide Replaced, Erased;
    var (n, pieces, _) := Scan(s, inTag);
    ErasedSmall(pieces);
    assert s == [s[0]] + s[1..];
    ReplacedCons(s[0], s[1..], '\n', "");
    if n == 2 {
      assert s[1..] == ['%'] + s[2..];
      ReplacedCons('%', s[2..], '\n', "");
      Associative(['%'], ['%'], Stripped(s[2..]));
    }
  }

  lemma {:induction false} ErasedSmall(pieces: seq<Piece>)
    requires |pieces| <= 2
    ensures Erased(pieces) == match |pieces|
                              case 0 => ""
                              case 1 => ErasedPiece(pieces[0])
                              case _ => ErasedPiece(pieces[0]) + ErasedPiece(pieces[1])
  {
    hide ErasedPiece;
    if |pieces| == 2 {
      assert pieces[1..] == [pieces[1]] && pieces[1..][1..] == [];
      assert Erased(pieces[1..]) == ErasedPiece(pieces[1]) + "" == ErasedPiece(pieces[1]);
    } else if |pieces| == 1 {
      assert pieces[1..] == [] && ErasedPiece(pieces[0]) + "" == ErasedPiece(pieces[0]);
    }
  }

  /** What may be between "%{A" and the colon of a click tag, for the tag not to be interrupted. */
  predicate IsButton(s: string) {
    forall i | 0 <= i < |s| :: s[i] !in {'%', ':', '}', '\n'}
  }

  /** A click tag that no newline interrupts gets the prefix right after its first colon. */
  lemma {:induction false} TagGetsPrefix(button: string, rest: string, inTag: bool)
    requires IsButton(button)
    ensures Marked("%{A" + button + ":" + rest, inTag)
         == AllKept("%{A" + button + ":") + [Prefix] + Marked(rest, false)
  {
    hide Marked, AllKept;
    var tail := button + ":" + rest;
    ButtonKept(button, rest);
    MarkedPlain('A', tail, true);
    MarkedPlain('{', ['A'] + tail, true);
    MarkedStart(tail, inTag);
    assert "%{A" + button + ":" + rest == ['%'] + (['{'] + (['A'] + tail));
    assert "%{A" + button + ":" == ['%'] + (['{'] + (['A'] + (button + ":")));
    AllKeptConcat(['%'], ['{'] + (['A'] + (button + ":")));
    AllKeptConcat(['{'], ['A'] + (button + ":"));
    AllKeptConcat(['A'], button + ":");
    AllKeptOne('%');
    AllKeptOne('{');
    AllKeptOne('A');
  }

  lemma {:induction false} TagShown(button: string, rest: string, widget: nat)
    requires IsButton(button)
    ensures Sanitized("%{A" + button + ":" + rest, widget)
         == "%{A" + button + ":" + (Decimal(widget) + "_") + Sanitized(rest, widget)
  {
    hide Marked, AllKept, Decimal;
    var tag := "%{A" + button + ":";
    TagGetsPrefix(button, rest, false);
    TextConcat(AllKept(tag) + [Prefix], Marked(rest, false), widget);
    TextConcat(AllKept(tag), [Prefix], widget);
    TextOfKept(tag, widget);
    TextOfPieces([Prefix], widget);
    SanitizedIs(rest, widget);
    SanitizedIs(tag + rest, widget);
  }

  lemma {:induction false} AllKeptOne(x: char)
    ensures AllKept([x]) == [Kept(x)]
  {
  }

  lemma {:induction false} MarkedStart(tail: string, inTag: bool)
    ensures var rest := ['{'] + (['A'] + tail);
      Marked(['%'] + rest, inTag) == [Kept('%')] + Marked(rest, true)
  {
    var rest := ['{'] + (['A'] + tail);
    var s := ['%'] + rest;
    assert StartsTag(s) && s[1..] == rest;
  }

  lemma {:induction false} MarkedPlain(x: char, rest: string, inTag: bool)
    requires x !in {'%', ':', '}', '\n'}
    ensures Marked([x] + rest, inTag) == [Kept(x)] + Marked(rest, inTag)
  {
    var s := [x] + rest;
    assert s[0] == x && s[1..] == rest;
  }

  lemma {:induction false} ButtonKept(button: string, rest: string)
    requires IsButton(button)
    ensures Marked(button + ":" + rest, true) == AllKept(button + ":") + [Prefix] + Marked(rest, false)
  {
    hide Marked, AllKept;
    if button == "" {
      assert button + ":" + rest == [':'] + rest && button + ":" == [':'];
      MarkedColon(rest);
    } else {
      var x, more := button[0], button[1..];
      ButtonKept(more, rest);
      MarkedPlain(x, more + ":" + rest, true);
      AllKeptConcat([x], more + ":");
      AllKeptOne(x);
      assert button + ":" + rest == [x] + (more + ":" + rest);
      assert button + ":" == [x] + (more + ":");
      var end := Marked(rest, false);
      Associative([Kept(x)], AllKept(more + ":") + [Prefix], end);
      Associative([Kept(x)], AllKept(more + ":"), [Prefix]);
    }
  }

  lemma {:induction false} MarkedColon(rest: string)
    ensures Marked([':'] + rest, true) == AllKept([':']) + [Prefix] + Marked(rest, false)
  {
    var s := [':'] + rest;
    assert s[0] == ':' && s[1..] == rest;
    assert AllKept([':']) == [Kept(':')] && [Kept(':')] + [Prefix] == [Kept(':'), Prefix];
  }

  // ---- Which colons get a prefix ----

  /** How many percent signs there are right before position `i`. */
  function PercentsBefore(s: string, i: nat): nat
    requires i <= |s|
  {
    if i == 0 || s[i - 1] != '%' then 0 else 1 + PercentsBefore(s, i - 1)
  }

  /** "%{A", unless its percent sign is the second one of a pair. */
  predicate TagAt(s: string, i: nat) {
    i + 2 < |s| && s[i] == '%' && s[i + 1] == '{' && s[i + 2] == 'A' && PercentsBefore(s, i) % 2 == 0
  }

  /** Whether a click tag begins before position `i` and no colon or closing brace comes in between. */
  ghost predicate InsideTag(s: string, i: nat)
    requires i <= |s|
  {
    exists j: nat :: j < i && TagAt(s, j) && forall m | j < m < i :: s[m] != ':' && s[m] != '}'
  }

  /** What the byte at `i` becomes. */
  ghost function PieceAt(s: string, i: nat): seq<Piece>
    requires i < |s|
  {
    if s[i] == '\n' then []
    else [Kept(s[i])] + if s[i] == ':' && InsideTag(s, i) then [Prefix] else []
  }

  ghost function PiecesTo(s: string, i: nat): seq<Piece>
    requires i <= |s|
  {
    if i == 0 then [] else PiecesTo(s, i - 1) + PieceAt(s, i - 1)
  }

  lemma {:induction false} InsideNext(s: string, i: nat)
    requires i < |s|
    ensures InsideTag(s, i + 1) <==> TagAt(s, i) || (InsideTag(s, i) && s[i] != ':' && s[i] != '}')
  {
    hide TagAt;
    if InsideTag(s, i + 1) {
      var j: nat :| j < i + 1 && TagAt(s, j) && forall m | j < m < i + 1 :: s[m] != ':' && s[m] != '}';
    }
  }

  /** Where a step of the scan begins, it is not between the two percent signs of a pair. */
  predicate AtStep(s: string, i: nat) {
    i <= |s| && (i < |s| && s[i] == '%' ==> PercentsBefore(s, i) % 2 == 0)
  }

  lemma {:induction false} OneByte(s: string, i: nat)
    requires i < |s|
    ensures PiecesTo(s, i + 1) == PiecesTo(s, i) + PieceAt(s, i)
    ensures PercentsBefore(s, i + 1) == if s[i] == '%' then 1 + PercentsBefore(s, i) else 0
  {
    hide PieceAt;
  }

  /** The two percent signs of a pair. */
  lemma {:induction false} PairAt(s: string, i: nat, inTag: bool)
    requires i + 1 < |s| && AtStep(s, i) && s[i] == '%' && s[i + 1] == '%'
    requires inTag <==> InsideTag(s, i)
    ensures AtStep(s, i + 2) && (inTag <==> InsideTag(s, i + 2))
    ensures PiecesTo(s, i + 2) == PiecesTo(s, i) + [Kept('%'), Kept('%')]
  {
    hide InsideTag, PiecesTo, PercentsBefore;
    InsideNext(s, i);
    InsideNext(s, i + 1);
    OneByte(s, i);
    OneByte(s, i + 1);
    assert [Kept('%')] + [Kept('%')] == [Kept('%'), Kept('%')];
    Associative(PiecesTo(s, i), [Kept('%')], [Kept('%')]);
  }

  lemma {:induction false} ScanAt(s: string, i: nat, inTag: bool)
    requires i < |s| && AtStep(s, i) && (inTag <==> InsideTag(s, i))
    ensures var (n, pieces, inTag') := Scan(s[i..], inTag);
      && 1 <= n <= |s| - i && AtStep(s, i + n) && (inTag' <==> InsideTag(s, i + n))
      && PiecesTo(s, i + n) == PiecesTo(s, i) + pieces
  {
    hide InsideTag, PiecesTo, PercentsBefore;
    var t := s[i..];
    InsideNext(s, i);
    OneByte(s, i);
    assert [Kept(':')] + [Prefix] == [Kept(':'), Prefix] && [Kept(s[i])] + [] == [Kept(s[i])];
    if t[0] == '%' && |t| >= 2 && t[1] == '%' {
      PairAt(s, i, inTag);
    }
  }

  /** Exactly the first colons after click tags get a prefix, unless a closing brace comes first; pairs of percent
      signs are no tags; and newlines go away. */
  lemma {:induction false} PrefixedExactly(s: string, i: nat, inTag: bool)
    requires AtStep(s, i) && (inTag <==> InsideTag(s, i))
    ensures PiecesTo(s, i) + Marked(s[i..], inTag) == PiecesTo(s, |s|)
    decreases |s| - i
  {
    hide InsideTag, PiecesTo, Scan, PercentsBefore;
    assert PiecesTo(s, i) + [] == PiecesTo(s, i);
    if i < |s| {
      ScanAt(s, i, inTag);
      var (n, pieces, inTag') := Scan(s[i..], inTag);
      PrefixedExactly(s, i + n, inTag');
      assert s[i..][n..] == s[i + n..];
      Associative(PiecesTo(s, i), pieces, Marked(s[i + n..], inTag'));
    }
  }

  lemma {:induction false} SanitizedExactly(s: string, widget: nat)
    ensures Sanitized(s, widget) == Text(PiecesTo(s, |s|), widget)
  {
    hide Marked, Text;
    PrefixedExactly(s, 0, false);
    assert s[0..] == s && [] + Marked(s, false) == Marked(s, false);
  }

  // ---- Click events ----

  /** parse_command(): the widget index and the command. */
  method ParseCommand(line: string) returns (r: Option<(nat, string)>)
    ensures r == Command(line)
  {
    var idx, end := StrtouB(line);
    if idx < 0 || end == 0 || end == |line| || line[end] != '_' {
      return None;
    }
    r := Some((idx, line[end + 1..]));
  }

  function Command(line: string): Option<(nat, string)> {
    var n := DigitRun(line);
    if n == 0 || n == |line| || line[n] != '_' || Value(line[..n]) > INT_MAX then None
    else Some((Value(line[..n]), line[n + 1..]))
  }

  /** A line is a command for widget `k` exactly if it is a numeral for `k` that fits a C int, an
      underscore, and the command. */
  lemma {:induction false} CommandExactly(line: string, k: nat, cmd: string)
    ensures Command(line) == Some((k, cmd)) <==>
            k <= INT_MAX && exists d :: d != "" && AllDigits(d) && Value(d) == k && line == d + "_" + cmd
  {
    var n := DigitRun(line);
    if Command(line) == Some((k, cmd)) {
      var d := line[..n];
      assert line == d + "_" + cmd;
    }
    forall d | d != "" && AllDigits(d) && Value(d) == k && line == d + "_" + cmd && k <= INT_MAX
      ensures Command(line) == Some((k, cmd))
    {
      DigitRunUnique(line, |d|);
      assert line[..|d|] == d && line[|d| + 1..] == cmd;
    }
  }

  /** What is printed for a click in widget `k` comes back to widget `k`. */
  lemma {:induction false} PrintedCommandParses(k: nat, cmd: string)
    ensures Command(Decimal(k) + "_" + cmd) == if k <= INT_MAX then Some((k, cmd)) else None
  {
    var line := Decimal(k) + "_" + cmd;
    ValueOfDecimal(k);
    DigitRunUnique(line, |Decimal(k)|);
    assert line[..|Decimal(k)|] == Decimal(k) && line[|Decimal(k)| + 1..] == cmd;
  }
}
