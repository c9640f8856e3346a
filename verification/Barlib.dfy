/**
 The double-buffered output of the stdout, lemonbar, dwm and i3 barlibs, and how luastatus drives it
 (`set`, `set_error`, `redraw`, plugin_call_end()).

 A barlib keeps the current text of every widget and draws only when something has changed. That is
 proved to look the same as drawing after every call.
 */
module Barlib {
  import opened Wrappers
  import opened Common
  import opened Joining
  import opened Lemonbar
  import opened ParseInt
  import I3Segments

  /** What the result of cb() is, as far as barlibs care. `Segments` is a table as i3 sees it, `ArrayData` one as the
      others see it. */
  datatype Item = NilItem | StringItem(s: string) | OtherItem
  datatype Data =
    | NilData
    | StringData(s: string)
    | ArrayData(items: seq<Item>)
    | Segments(t: I3Segments.Table)
    | OtherData

  datatype Style =
    | Stdout(sep: string, error: string)
    | LemonbarStyle(sep: string)
    | Dwm(sep: string)
    | I3(noseps: bool)

  function ErrorText(st: Style): string {
    match st
    case Stdout(_, error) => error
    case LemonbarStyle(_) => "%{B#f00}%{F#fff}(Error)%{B-}%{F-}"
    case Dwm(_) => "(Error)"
    case I3(noseps) =>
      "{\"full_text\":\"(Error)\"" + ",\"color\":\"#ff0000\"" + ",\"background\":\"#000000\""
      + ((if noseps then ",\"separator\":false" else "") + "}")
  }

  // ---- What is drawn ----

  /** What one redraw shows: a line, or the name of the root window. */
  function Rendered(st: Style, bufs: seq<string>): string {
    match st
    case Stdout(sep, _) => Joined(bufs, sep) + "\n"
    case LemonbarStyle(sep) => Joined(bufs, sep) + "\n"
    case Dwm(sep) => Joined(bufs, sep)
    case I3(_) => "[" + Joined(bufs, ",") + "],\n"
  }

  // ---- What a widget shows ----

  function Cleaned(st: Style, i: nat, s: string): string {
    match st
    case Stdout(_, _) => Stripped(s)
    case LemonbarStyle(_) => Sanitized(s, i)
    case _ => s
  }

  /** The texts of an array's items put together; None if one is neither a string nor nil. A separator
      precedes an item that is not empty, before it is cleaned, once there is some text. */
  function ItemsText(st: Style, i: nat, items: seq<Item>, sep: string): Option<string> {
    if items == [] then Some("")
    else
      var init := ItemsText(st, i, items[..|items| - 1], sep);
      match items[|items| - 1]
      case NilItem => init
      case OtherItem => None
      case StringItem(s) =>
        if init.None? then None
        else Some(init.value + (if init.value != "" && s != "" then sep else "") + Cleaned(st, i, s))
  }

  /** The text that data stands for; None if it is invalid. */
  function Content(st: Style, i: nat, d: Data): Option<string> {
    match d
    case NilData => Some("")
    case StringData(s) => if st.I3? then None else Some(Cleaned(st, i, s))
    case ArrayData(items) => if st.I3? then None else ItemsText(st, i, items, st.sep)
    case Segments(t) => if st.I3? then I3Segments.TableText(st.noseps, i, t) else None
    case OtherData => None
  }

  datatype Result = Ok | NonFatal | Fatal

  class Bar {
    const st: Style
    var bufs: seq<string>
    var tmpbuf: string
    /** Everything drawn so far. */
    var drawn: seq<string>

    constructor (st: Style, nwidgets: nat)
      ensures this.st == st && bufs == seq(nwidgets, i => "")
      ensures drawn == if st.Dwm? then [Rendered(st, bufs)] else []
    {
      this.st := st;
      bufs := seq(nwidgets, i => "");
      tmpbuf := "";
      drawn := [];
      new;
      if st.Dwm? {
        var ok := Redraw(true);
      }
    }

    /** `works` tells whether the output can be written to. */
    method Redraw(works: bool) returns (ok: bool)
      modifies this`drawn
      ensures ok == works && drawn == old(drawn) + [Rendered(st, bufs)]
      ensures !st.I3? ==>
                drawn == old(drawn) + [Interspersed(NonEmpty(bufs), st.sep) + if st.Dwm? then "" else "\n"]
    {
      var line;
      match st {
        case Stdout(sep, _) =>
          line := JoinFirst(bufs, sep);
          line := line + "\n";
        case LemonbarStyle(sep) =>
          line := JoinFirst(bufs, sep);
          line := line + "\n";
        case Dwm(sep) =>
          line := JoinSize(bufs, sep);
          assert line + "" == line;
        case I3(_) =>
          line := JoinFirst(bufs, ",");
          line := "[" + line + "],\n";
      }
      drawn := drawn + [line];
      ok := works;
    }

    /** set() */
    method Set(i: nat, d: Data, works: bool) returns (r: Result)
      requires i < |bufs|
      modifies this
      ensures r == (if Content(st, i, d) == None then NonFatal
                    else if works || Content(st, i, d) == Some(old(bufs)[i]) then Ok
                    else Fatal)
      ensures bufs == old(bufs)[i := if Content(st, i, d) == None then "" else Content(st, i, d).value]
      ensures drawn == if Content(st, i, d) == None || Content(st, i, d) == Some(old(bufs)[i])
                       then old(drawn) else old(drawn) + [Rendered(st, bufs)]
    {
      var valid;
      tmpbuf := "";
      match d {
        case NilData => valid := true;
        case StringData(s) =>
          valid := !st.I3?;
          if valid {
            tmpbuf := AppendCleaned(st, i, tmpbuf, s);
            assert tmpbuf == Cleaned(st, i, s);
          }
        case ArrayData(items) =>
          valid := false;
          if !st.I3? {
            valid, tmpbuf := AppendItems(st, i, items, st.sep);
          }
        case Segments(t) =>
          valid := false;
          if st.I3? {
            valid, tmpbuf := I3Segments.AppendTable(st.noseps, i, t);
          }
        case OtherData => valid := false;
      }
      if !valid {
        bufs := bufs[i := ""];
        return NonFatal;
      }
      if tmpbuf != bufs[i] {
        var t := tmpbuf;
        tmpbuf := bufs[i];
        bufs := bufs[i := t];
        var ok := Redraw(works);
        if !ok {
          return Fatal;
        }
      } else {
        assert bufs[i := tmpbuf] == bufs;
      }
      r := Ok;
    }

    /** set_error() */
    method SetError(i: nat, works: bool) returns (r: Result)
      requires i < |bufs|
      modifies this
      ensures r == (if works then Ok else Fatal) && bufs == old(bufs)[i := ErrorText(st)]
      ensures drawn == old(drawn) + [Rendered(st, bufs)]
    {
      bufs := bufs[i := ErrorText(st)];
      var ok := Redraw(works);
      r := if ok then Ok else Fatal;
    }

    /** What luastatus does with a result while it holds the barlib's mutex: cb() has returned data,
        or there was an error (in cb() or event(), or the plugin or the widget is dead). */
    method Update(i: nat, u: Call, works: bool) returns (alive: bool)
      requires i < |bufs|
      modifies this
      ensures bufs == NewBufs(st, old(bufs), i, u)
      ensures drawn == old(drawn) + (if Skipped(st, old(bufs), i, u) then [] else [Rendered(st, bufs)])
      ensures alive <==> works || Skipped(st, old(bufs), i, u)
    {
      var r;
      if u.Error? {
        r := SetError(i, works);
      } else {
        r := Set(i, u.d, works);
        if r == NonFatal {
          r := SetError(i, works);
        }
      }
      alive := r != Fatal;
    }
  }

  method JoinFirst(bufs: seq<string>, sep: string) returns (line: string)
    ensures line == Joined(bufs, sep) == Interspersed(NonEmpty(bufs), sep)
  {
    JoinedIsInterspersed(bufs, sep);
    line := "";
    var first := true;
    for i := 0 to |bufs|
      invariant line == Joined(bufs[..i], sep) && (first <==> line == "")
    {
      assert bufs[..i + 1][..i] == bufs[..i];
      if |bufs[i]| > 0 {
        if !first {
          line := line + sep;
        }
        line := line + bufs[i];
        first := false;
      }
    }
    assert bufs[..|bufs|] == bufs;
  }

  /** dwm looks at the size of what has been joined instead. */
  method JoinSize(bufs: seq<string>, sep: string) returns (joined: string)
    ensures joined == Joined(bufs, sep) == Interspersed(NonEmpty(bufs), sep)
  {
    JoinedIsInterspersed(bufs, sep);
    joined := "";
    for i := 0 to |bufs|
      invariant joined == Joined(bufs[..i], sep)
    {
      assert bufs[..i + 1][..i] == bufs[..i];
      if |bufs[i]| > 0 {
        if |joined| > 0 {
          joined := joined + sep;
        }
        joined := joined + bufs[i];
      }
    }
    assert bufs[..|bufs|] == bufs;
  }

  method AppendCleaned(st: Style, i: nat, buf: string, s: string) returns (out: string)
    ensures out == buf + Cleaned(st, i, s)
  {
    match st {
      case Stdout(_, _) =>
        var t := ReplaceAll(s, '\n', "");
        out := buf + t;
      case LemonbarStyle(_) => out := AppendSanitized(buf, i, s);
      case _ => out := buf + s;
    }
  }

  method AppendItems(st: Style, i: nat, items: seq<Item>, sep: string) returns (valid: bool, buf: string)
    ensures valid <==> ItemsText(st, i, items, sep).Some?
    ensures valid ==> buf == ItemsText(st, i, items, sep).value
  {
    hide Cleaned, ItemsText;
    buf := "";
    ItemsStep(st, i, items, sep, 0);
    for k := 0 to |items|
      invariant ItemsText(st, i, items[..k], sep) == Some(buf)
    {
      ItemsStep(st, i, items, sep, k);
      match items[k] {
        case NilItem =>
        case OtherItem =>
          ItemsInvalid(st, i, items, sep, k + 1);
          return false, buf;
        case StringItem(s) =>
          if |buf| > 0 && |s| > 0 {
            buf := buf + sep;
          } else {
            assert buf + "" == buf;
          }
          buf := AppendCleaned(st, i, buf, s);
      }
    }
    assert items[..|items|] == items;
    valid := true;
  }

  lemma {:induction false} ItemsStep(st: Style, i: nat, items: seq<Item>, sep: string, k: nat)
    requires k <= |items|
    ensures k == 0 ==> ItemsText(st, i, items[..k], sep) == Some("")
    ensures k < |items| ==>
              var before := ItemsText(st, i, items[..k], sep);
              ItemsText(st, i, items[..k + 1], sep)
              == match items[k]
                 case NilItem => before
                 case OtherItem => None
                 case StringItem(s) =>
                   if before.None? then None
                   else Some(before.value + (if before.value != "" && s != "" then sep else "") + Cleaned(st, i, s))
  {
    hide Cleaned;
    if k < |items| {
      assert items[..k + 1][..k] == items[..k];
    }
  }

  lemma {:induction false} ItemsInvalid(st: Style, i: nat, items: seq<Item>, sep: string, k: nat)
    requires k <= |items| && ItemsText(st, i, items[..k], sep) == None
    ensures ItemsText(st, i, items, sep) == None
  {
    if k < |items| {
      assert items[..|items| - 1][..k] == items[..k];
      ItemsInvalid(st, i, items[..|items| - 1], sep, k);
    } else {
      assert items[..k] == items;
    }
  }

  // ---- The text of an array ----

  function StringOf(item: Item): seq<string> {
    if item.StringItem? && item.s != "" then [item.s] else []
  }

  /** The strings among the items that are not empty, in their order. */
  function Strings(items: seq<Item>): seq<string> {
    if items == [] then [] else StringOf(items[0]) + Strings(items[1..])
  }

  /** Without the first ones, as long as nothing is left of them by cleaning. */
  function FromFirst(st: Style, i: nat, texts: seq<string>): seq<string> {
    if texts == [] then []
    else if Cleaned(st, i, texts[0]) == "" then FromFirst(st, i, texts[1..])
    else texts
  }

  function AllCleaned(st: Style, i: nat, texts: seq<string>): seq<string> {
    seq(|texts|, k requires 0 <= k < |texts| => Cleaned(st, i, texts[k]))
  }

  lemma {:induction false} StringsSnoc(items: seq<Item>, item: Item)
    ensures Strings(items + [item]) == Strings(items) + StringOf(item)
  {
    hide StringOf;
    if items == [] {
      assert [item][1..] == [] && [] + [item] == [item];
    } else {
      StringsSnoc(items[1..], item);
      assert (items + [item])[1..] == items[1..] + [item];
      Associative(StringOf(items[0]), Strings(items[1..]), StringOf(item));
    }
  }

  lemma {:induction false} FromFirstSnoc(st: Style, i: nat, texts: seq<string>, s: string)
    ensures FromFirst(st, i, texts + [s])
         == if FromFirst(st, i, texts) != [] then FromFirst(st, i, texts) + [s]
            else if Cleaned(st, i, s) == "" then [] else [s]
  {
    hide Cleaned;
    if texts == [] {
      assert [] + [s] == [s] && [s][1..] == [];
    } else {
      FromFirstSnoc(st, i, texts[1..], s);
      assert (texts + [s])[1..] == texts[1..] + [s];
    }
  }

  lemma {:induction false} FirstIsShown(st: Style, i: nat, texts: seq<string>, sep: string)
    ensures Interspersed(AllCleaned(st, i, FromFirst(st, i, texts)), sep) == "" <==> FromFirst(st, i, texts) == []
  {
    hide Cleaned;
    if texts != [] && Cleaned(st, i, texts[0]) == "" {
      FirstIsShown(st, i, texts[1..], sep);
    }
  }

  /** The text of an array is that of its strings, cleaned and in their order, with a separator between each two;
      but empty strings have no separator, and neither has what is cleaned away before any text is there. */
  lemma {:induction false} ItemsAreInterspersed(st: Style, i: nat, items: seq<Item>, sep: string)
    ensures ItemsText(st, i, items, sep)
         == if OtherItem in items then None
            else Some(Interspersed(AllCleaned(st, i, FromFirst(st, i, Strings(items))), sep))
  {
    hide Cleaned, FromFirst, Strings, AllCleaned;
    if items == [] {
      NoStrings(st, i);
    } else {
      var n := |items| - 1;
      var init, item := items[..n], items[n];
      assert items == init + [item];
      ItemsAreInterspersed(st, i, init, sep);
      StringsSnoc(init, item);
      NothingCleaned(st, i);
      if item.StringItem? && item.s != "" {
        StringAdded(st, i, Strings(init), item.s, sep);
        assert StringOf(item) == [item.s];
      } else {
        assert Strings(init) + [] == Strings(init);
        var text := ItemsText(st, i, init, sep);
        assert text.Some? ==> text.value + "" + "" == text.value;
      }
    }
  }

  lemma {:induction false} NoStrings(st: Style, i: nat)
    ensures FromFirst(st, i, Strings([])) == [] && AllCleaned(st, i, []) == []
  {
  }

  lemma {:induction false} NothingCleaned(st: Style, i: nat)
    ensures Cleaned(st, i, "") == ""
  {
    TextOfNothing(false, i);
  }

  lemma {:induction false} StringAdded(st: Style, i: nat, texts: seq<string>, s: string, sep: string)
    ensures var text := Interspersed(AllCleaned(st, i, FromFirst(st, i, texts)), sep);
      Interspersed(AllCleaned(st, i, FromFirst(st, i, texts + [s])), sep)
      == text + (if text != "" then sep else "") + Cleaned(st, i, s)
  {
    assert Interspersed([], sep) == "";
    hide Cleaned, Interspersed, FromFirst, AllCleaned;
    FirstIsShown(st, i, texts, sep);
    FromFirstSnoc(st, i, texts, s);
    var shown := FromFirst(st, i, texts);
    InterspersedSnoc(AllCleaned(st, i, shown), Cleaned(st, i, s), sep);
    AllCleanedSnoc(st, i, shown, s);
    AllCleanedSnoc(st, i, [], s);
    assert [] + [s] == [s] && [] + [Cleaned(st, i, s)] == [Cleaned(st, i, s)];
  }

  lemma {:induction false} AllCleanedSnoc(st: Style, i: nat, texts: seq<string>, s: string)
    ensures AllCleaned(st, i, texts + [s]) == AllCleaned(st, i, texts) + [Cleaned(st, i, s)]
    ensures AllCleaned(st, i, []) == [] && (AllCleaned(st, i, texts) == [] <==> texts == [])
  {
    hide Cleaned;
  }

  /** A string shows as it is in dwm, and without its newlines in stdout; in lemonbar, what is clicked on gets the
      widget's prefix; i3 wants tables. An array of one string shows as that string. */
  lemma {:induction false} StringShown(st: Style, i: nat, a: string, b: string)
    ensures st.Dwm? ==> Content(st, i, StringData(a)) == Some(a)
    ensures st.Stdout? && '\n' !in a ==>
              && Content(st, i, StringData(a)) == Some(a)
              && Content(st, i, StringData(a + "\n" + b)) == Some(a + Content(st, i, StringData(b)).value)
    ensures st.LemonbarStyle? && IsButton(a) ==>
              Content(st, i, StringData("%{A" + a + ":" + b))
              == Some("%{A" + a + ":" + (Decimal(i) + "_") + Content(st, i, StringData(b)).value)
    ensures st.I3? ==> Content(st, i, StringData(a)) == None
    ensures Content(st, i, ArrayData([StringItem(a)])) == Content(st, i, StringData(a))
  {
    hide Marked, Sanitized, Replaced, IsButton;
    match st
    case Dwm(_) => OneString(st, i, a);
    case Stdout(_, _) =>
      OneString(st, i, a);
      if '\n' !in a {
        StrippedJoins(a, b);
      }
    case LemonbarStyle(_) =>
      OneString(st, i, a);
      if IsButton(a) {
        TagShown(a, b, i);
      }
    case I3(_) =>
  }

  lemma {:induction false} OneString(st: Style, i: nat, s: string)
    requires !st.I3?
    ensures ItemsText(st, i, [StringItem(s)], st.sep) == Some(Cleaned(st, i, s))
  {
    hide Cleaned;
    assert [StringItem(s)][..0] == [];
    assert "" + "" + Cleaned(st, i, s) == Cleaned(st, i, s);
  }

  // ---- One line after the other ----

  predicate IsLine(p: string) {
    p != "" && p[|p| - 1] == '\n' && '\n' !in p[..|p| - 1]
  }

  predicate HasNewline(s: string) {
    '\n' in s
  }

  /** stdout and lemonbar, with a separator and a text for errors that have no newlines. */
  predicate IsLineStyle(st: Style) {
    (st.Stdout? || st.LemonbarStyle?) && !HasNewline(st.sep) && !HasNewline(ErrorText(st))
  }

  lemma {:induction false} CleanedHasNoNewline(st: Style, i: nat, s: string)
    requires st.Stdout? || st.LemonbarStyle?
    ensures !HasNewline(Cleaned(st, i, s))
  {
    if st.Stdout? {
      StrippedHasNoNewline(s);
    } else {
      SanitizedHasNoNewline(s, false, i);
    }
  }

  lemma {:induction false} ItemsHaveNoNewline(st: Style, i: nat, items: seq<Item>, sep: string)
    requires (st.Stdout? || st.LemonbarStyle?) && !HasNewline(sep)
    ensures ItemsText(st, i, items, sep).Some? ==> !HasNewline(ItemsText(st, i, items, sep).value)
  {
    hide Cleaned;
    if items == [] {
    } else {
      ItemsHaveNoNewline(st, i, items[..|items| - 1], sep);
      if items[|items| - 1].StringItem? {
        CleanedHasNoNewline(st, i, items[|items| - 1].s);
      }
    }
  }

  lemma {:induction false} NothingHasNoNewline()
    ensures !HasNewline("")
  {
  }

  predicate NoNewlines(bufs: seq<string>) {
    forall k | 0 <= k < |bufs| :: !HasNewline(bufs[k])
  }

  lemma {:induction false} NewBufsHaveNoNewline(st: Style, bufs: seq<string>, i: nat, u: Call)
    requires i < |bufs| && IsLineStyle(st) && NoNewlines(bufs)
    ensures NoNewlines(NewBufs(st, bufs, i, u))
  {
    hide HasNewline, ErrorText, Cleaned, ItemsText;
    NothingHasNoNewline();
    if u.Returned? && u.d.StringData? {
      CleanedHasNoNewline(st, i, u.d.s);
    } else if u.Returned? && u.d.ArrayData? {
      ItemsHaveNoNewline(st, i, u.d.items, st.sep);
    }
  }

  /** Everything that stdout and lemonbar draw is one line. */
  lemma {:induction false} DrawnAreLines(st: Style, bufs: seq<string>, calls: seq<(nat, Call)>)
    requires InRange(calls, |bufs|) && IsLineStyle(st) && NoNewlines(bufs)
    ensures forall k | 0 <= k < |Drawn(st, bufs, calls)| :: IsLine(Drawn(st, bufs, calls)[k])
    decreases |calls|
  {
    hide Rendered, NewBufs, IsLine, NoNewlines, IsLineStyle;
    if calls == [] {
    } else {
      var now := NewBufs(st, bufs, calls[0].0, calls[0].1);
      NewBufsHaveNoNewline(st, bufs, calls[0].0, calls[0].1);
      LineRendered(st, now);
      DrawnAreLines(st, now, calls[1..]);
    }
  }

  lemma {:induction false} LineRendered(st: Style, bufs: seq<string>)
    requires IsLineStyle(st) && NoNewlines(bufs)
    ensures IsLine(Rendered(st, bufs))
  {
    JoinedWithout(bufs, st.sep, '\n');
    var joined := Joined(bufs, st.sep);
    assert (joined + "\n")[..|joined|] == joined;
  }

  // ---- Skipped redraws cannot be seen ----

  datatype Call = Returned(d: Data) | Error

  function NewBufs(st: Style, bufs: seq<string>, i: nat, u: Call): (now: seq<string>)
    requires i < |bufs|
    ensures |now| == |bufs|
  {
    if u.Error? || Content(st, i, u.d) == None then bufs[i := ErrorText(st)]
    else bufs[i := Content(st, i, u.d).value]
  }

  predicate Skipped(st: Style, bufs: seq<string>, i: nat, u: Call)
    requires i < |bufs|
  {
    u.Returned? && Content(st, i, u.d) == Some(bufs[i])
  }

  predicate InRange(calls: seq<(nat, Call)>, n: nat) {
    forall k | 0 <= k < |calls| :: calls[k].0 < n
  }

  function BufsAfter(st: Style, bufs: seq<string>, calls: seq<(nat, Call)>): (now: seq<string>)
    requires InRange(calls, |bufs|)
    ensures |now| == |bufs|
    decreases |calls|
  {
    if calls == [] then bufs
    else BufsAfter(st, NewBufs(st, bufs, calls[0].0, calls[0].1), calls[1..])
  }

  /** What is drawn during calls. */
  function Drawn(st: Style, bufs: seq<string>, calls: seq<(nat, Call)>): seq<string>
    requires InRange(calls, |bufs|)
    decreases |calls|
  {
    if calls == [] then []
    else
      var (i, u) := calls[0];
      var now := NewBufs(st, bufs, i, u);
      (if Skipped(st, bufs, i, u) then [] else [Rendered(st, now)]) + Drawn(st, now, calls[1..])
  }

  /** What a barlib would draw that always draws. */
  function NaivelyDrawn(st: Style, bufs: seq<string>, calls: seq<(nat, Call)>): seq<string>
    requires InRange(calls, |bufs|)
    decreases |calls|
  {
    if calls == [] then []
    else
      var now := NewBufs(st, bufs, calls[0].0, calls[0].1);
      [Rendered(st, now)] + NaivelyDrawn(st, now, calls[1..])
  }

  lemma {:induction false} DrawnSnoc(st: Style, bufs: seq<string>, calls: seq<(nat, Call)>, i: nat, u: Call)
    requires InRange(calls, |bufs|) && i < |bufs|
    ensures var now := BufsAfter(st, bufs, calls);
      && BufsAfter(st, bufs, calls + [(i, u)]) == NewBufs(st, now, i, u)
      && Drawn(st, bufs, calls + [(i, u)])
         == Drawn(st, bufs, calls) + if Skipped(st, now, i, u) then [] else [Rendered(st, NewBufs(st, now, i, u))]
    decreases |calls|
  {
    hide Content, Rendered, Skipped, NewBufs;
    var more := calls + [(i, u)];
    if calls == [] {
      assert more[1..] == [] && more[0] == (i, u);
    } else {
      DrawnSnoc(st, NewBufs(st, bufs, calls[0].0, calls[0].1), calls[1..], i, u);
      assert more[1..] == calls[1..] + [(i, u)] && more[0] == calls[0];
    }
  }

  /** Whether call number `k` of a session gets by without a write, or its write works. */
  predicate GoesOn(st: Style, bufs: seq<string>, calls: seq<(nat, Call)>, works: seq<bool>, k: nat)
    requires InRange(calls, |bufs|) && k < |calls| == |works|
  {
    works[k] || Skipped(st, BufsAfter(st, bufs, calls[..k]), calls[k].0, calls[k].1)
  }

  /** Any number of calls, one after another, up to the first whose write fails, which is fatal: what is drawn by
      those made is what `Drawn` says. */
  method Session(bar: Bar, calls: seq<(nat, Call)>, works: seq<bool>) returns (made: nat, alive: bool)
    requires InRange(calls, |bar.bufs|) && |works| == |calls|
    modifies bar
    ensures made <= |calls| && bar.bufs == BufsAfter(bar.st, old(bar.bufs), calls[..made])
    ensures bar.drawn == old(bar.drawn) + Drawn(bar.st, old(bar.bufs), calls[..made])
    ensures forall k: nat | k < made :: GoesOn(bar.st, old(bar.bufs), calls, works, k) <==> alive || k < made - 1
    ensures if alive then made == |calls| else made > 0
  {
    hide Content, Rendered, Drawn, BufsAfter, Skipped, NewBufs;
    made, alive := 0, true;
    NothingDrawn(bar.st, bar.bufs);
    assert calls[..0] == [] && bar.drawn + [] == bar.drawn;
    while made < |calls| && alive
      invariant made <= |calls| && |bar.bufs| == |old(bar.bufs)|
      invariant bar.bufs == BufsAfter(bar.st, old(bar.bufs), calls[..made])
      invariant bar.drawn == old(bar.drawn) + Drawn(bar.st, old(bar.bufs), calls[..made])
      invariant forall k: nat | k < made :: GoesOn(bar.st, old(bar.bufs), calls, works, k) <==> alive || k < made - 1
      invariant !alive ==> made > 0
      decreases |calls| - made
    {
      var (i, u) := calls[made];
      DrawnSnoc(bar.st, old(bar.bufs), calls[..made], i, u);
      assert calls[..made + 1] == calls[..made] + [(i, u)];
      alive := bar.Update(i, u, works[made]);
      made := made + 1;
    }
  }

  lemma {:induction false} NothingDrawn(st: Style, bufs: seq<string>)
    ensures BufsAfter(st, bufs, []) == bufs && Drawn(st, bufs, []) == []
  {
  }

  /** A sequence of pictures, as seen: repetitions do not show. */
  function Seen(pictures: seq<string>): seq<string> {
    if |pictures| < 2 then pictures
    else if pictures[0] == pictures[1] then Seen(pictures[1..])
    else [pictures[0]] + Seen(pictures[1..])
  }

  lemma {:induction false} SeenCons(p: string, pictures: seq<string>)
    ensures Seen([p] + pictures)
         == if pictures != [] && pictures[0] == p then Seen(pictures) else [p] + Seen(pictures)
  {
    assert ([p] + pictures)[1..] == pictures;
  }

  /** On a screen that shows the current texts, skipping redraws cannot be told from drawing after every
      call, and in the end the screen shows the current texts. */
  lemma {:induction false} SkippingIsUnseen(st: Style, bufs: seq<string>, calls: seq<(nat, Call)>)
    requires InRange(calls, |bufs|)
    ensures var shown := [Rendered(st, bufs)];
      && Seen(shown + Drawn(st, bufs, calls)) == Seen(shown + NaivelyDrawn(st, bufs, calls))
      && (shown + Drawn(st, bufs, calls))[|Drawn(st, bufs, calls)|] == Rendered(st, BufsAfter(st, bufs, calls))
    decreases |calls|
  {
    hide Rendered, Content, Seen;
    if calls == [] {
    } else {
      var (i, u) := calls[0];
      var now := NewBufs(st, bufs, i, u);
      var p, q := Rendered(st, bufs), Rendered(st, now);
      var d, n := Drawn(st, now, calls[1..]), NaivelyDrawn(st, now, calls[1..]);
      SkippingIsUnseen(st, now, calls[1..]);
      SeenMore(p, q, d, n);
      if Skipped(st, bufs, i, u) {
        assert now == bufs;
        assert [] + d == d;
      }
    }
  }

  /** What is seen the same after `q` is seen the same after `p` and `q`; if they are the same, one will do. */
  lemma {:induction false} SeenMore(p: string, q: string, d: seq<string>, n: seq<string>)
    requires Seen([q] + d) == Seen([q] + n)
    ensures Seen([p] + ([q] + d)) == Seen([p] + ([q] + n)) && (p == q ==> Seen([p] + d) == Seen([p] + ([q] + n)))
    ensures ([p] + ([q] + d))[|[q] + d|] == ([q] + d)[|d|]
  {
    hide Seen;
    SeenCons(p, [q] + n);
    SeenCons(p, [q] + d);
  }

  /** Whether a call gives an empty text. */
  predicate Quiet(st: Style, call: (nat, Call)) {
    call.1.Returned? && Content(st, call.0, call.1.d) == Some("")
  }

  /** The first call that does not give an empty text is an error, or gives invalid data. */
  predicate FirstLoudFails(st: Style, calls: seq<(nat, Call)>) {
    calls != []
    && if Quiet(st, calls[0]) then FirstLoudFails(st, calls[1..])
       else calls[0].1.Error? || Content(st, calls[0].0, calls[0].1.d) == None
  }

  /** stdout, lemonbar and i3 start without having drawn anything (dwm draws at once). So what they draw looks the
      same as what an always drawing barlib does exactly if the very first call does not give an empty text; or
      if the text for errors is empty, and the first call that does not give an empty text fails. */
  lemma {:induction false} SameFromTheStart(st: Style, n: nat, calls: seq<(nat, Call)>)
    requires InRange(calls, n)
    ensures var bufs := seq(n, i => "");
      Seen(Drawn(st, bufs, calls)) == Seen(NaivelyDrawn(st, bufs, calls))
      <==> calls == [] || !Quiet(st, calls[0]) || (ErrorText(st) == "" && FirstLoudFails(st, calls))
  {
    hide Rendered, Content, Seen, FirstLoudFails, ErrorText, Drawn, NaivelyDrawn, NewBufs;
    var bufs := seq(n, i => "");
    FirstPicture(st, bufs, calls);
    FirstCall(st, bufs, calls);
    if calls == [] {
    } else {
      var (i, u) := calls[0];
      var now := NewBufs(st, bufs, i, u);
      if Skipped(st, bufs, i, u) {
        SkippingIsUnseen(st, bufs, calls);
        SeenCons(Rendered(st, bufs), Drawn(st, bufs, calls));
        SeenCons(Rendered(st, bufs), NaivelyDrawn(st, bufs, calls));
      } else {
        SkippingIsUnseen(st, now, calls[1..]);
      }
    }
  }

  /** What the first call adds to either trace. */
  lemma {:induction false} FirstCall(st: Style, bufs: seq<string>, calls: seq<(nat, Call)>)
    requires InRange(calls, |bufs|)
    ensures calls == [] ==> Drawn(st, bufs, calls) == NaivelyDrawn(st, bufs, calls) == []
    ensures calls != [] ==>
              var (i, u) := calls[0];
              var now := NewBufs(st, bufs, i, u);
              && (Skipped(st, bufs, i, u) ==> now == bufs)
              && (!Skipped(st, bufs, i, u) ==>
                    Drawn(st, bufs, calls) == [Rendered(st, now)] + Drawn(st, now, calls[1..]))
              && NaivelyDrawn(st, bufs, calls) == [Rendered(st, now)] + NaivelyDrawn(st, now, calls[1..])
  {
    hide Rendered, Content, ErrorText;
  }

  /** The difference does occur: one widget of the stdout barlib that returns nil. */
  lemma {:induction false} FirstDrawIsMissing(sep: string, error: string)
    ensures var st, calls := Stdout(sep, error), [(0, Returned(NilData))];
      && Drawn(st, [""], calls) == [] && NaivelyDrawn(st, [""], calls) == ["\n"]
      && Seen(Drawn(st, [""], calls)) != Seen(NaivelyDrawn(st, [""], calls))
  {
    var st, calls := Stdout(sep, error), [(0, Returned(NilData))];
    assert NewBufs(st, [""], 0, calls[0].1) == [""] && calls[1..] == [];
    JoinedEmpty([""], sep);
    assert Rendered(st, [""]) == "" + "\n" == "\n" && NaivelyDrawn(st, [""], []) == [];
  }

  /** The first picture drawn when all texts have been empty shows some text, except for an empty error text. */
  lemma {:induction false} FirstPicture(st: Style, bufs: seq<string>, calls: seq<(nat, Call)>)
    requires InRange(calls, |bufs|)
    requires forall k | 0 <= k < |bufs| :: bufs[k] == ""
    ensures Drawn(st, bufs, calls) != [] && Drawn(st, bufs, calls)[0] == Rendered(st, bufs)
            <==> ErrorText(st) == "" && FirstLoudFails(st, calls)
    decreases |calls|
  {
    hide Content, Joined, ErrorText;
    if calls == [] {
    } else {
      var (i, u) := calls[0];
      var now := NewBufs(st, bufs, i, u);
      if Skipped(st, bufs, i, u) {
        assert now == bufs;
        FirstPicture(st, bufs, calls[1..]);
      } else {
        var sep := if st.I3? then "," else st.sep;
        JoinedEmpty(bufs, sep);
        if now[i] == "" {
          assert now == bufs;
        } else {
          JoinedOne(now, sep, i);
        }
      }
    }
  }
}
