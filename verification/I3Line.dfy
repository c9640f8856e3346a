/** What a reader of JSON makes of a line that the i3 barlib draws: all segments of all widgets, in their order. */
module I3Line {
  import opened Common
  import opened Wrappers
  import opened Joining
  import opened JsonEscape
  import opened ParseInt
  import opened I3Segments
  import Barlib

  // ---- The segments of a table ----

  function TableOf(item: Item): seq<seq<Entry>> {
    if item.TableItem? then [item.entries] else []
  }

  function TablesOf(items: seq<Item>): seq<seq<Entry>> {
    if items == [] then [] else TableOf(items[0]) + TablesOf(items[1..])
  }

  /** The entries of each segment. */
  function Tables(t: Table): seq<seq<Entry>> {
    match t
    case Empty => []
    case Dict(entries) => [entries]
    case Array(items) => TablesOf(items)
  }

  lemma {:induction false} TablesOfConcat(a: seq<Item>, b: seq<Item>)
    ensures TablesOf(a + b) == TablesOf(a) + TablesOf(b)
  {
    hide TableOf;
    if a == [] {
      assert a + b == b;
    } else {
      TablesOfConcat(a[1..], b);
      assert (a + b)[1..] == a[1..] + b;
      Associative(TableOf(a[0]), TablesOf(a[1..]), TablesOf(b));
    }
  }

  /** The objects for segments of widget `w`. */
  function Objects(noseps: bool, w: nat, tables: seq<seq<Entry>>): seq<seq<Member>> {
    seq(|tables|, k requires 0 <= k < |tables| => SegmentOf(noseps, w, tables[k]))
  }

  function SegmentOf(noseps: bool, w: nat, entries: seq<Entry>): seq<Member> {
    var ms := Members(noseps, w, entries);
    if ms.None? then [] else ms.value
  }

  function Texts(objects: seq<seq<Member>>): seq<string> {
    seq(|objects|, k requires 0 <= k < |objects| => TextOf(objects[k]))
  }

  function TextOf(ms: seq<Member>): (t: string)
    ensures t != ""
  {
    if ms == [] then "{}" else ObjectText(ms)
  }

  predicate AllFit(tables: seq<seq<Entry>>) {
    forall k | 0 <= k < |tables| :: TableFits(tables[k])
  }

  predicate TableFits(entries: seq<Entry>) {
    forall k | 0 <= k < |entries| :: EntryFits(entries[k])
  }

  predicate AllNumerals(tables: seq<seq<Entry>>) {
    forall k | 0 <= k < |tables| :: NumbersAreNumerals(tables[k])
  }

  predicate Acceptable(t: Table) {
    (t.Array? ==> forall k | 0 <= k < |t.items| :: !t.items[k].OtherItem?) && AllFit(Tables(t))
  }

  lemma {:induction false} TextsSnoc(noseps: bool, w: nat, tables: seq<seq<Entry>>, entries: seq<Entry>)
    ensures Texts(Objects(noseps, w, tables + [entries]))
         == Texts(Objects(noseps, w, tables)) + [TextOf(SegmentOf(noseps, w, entries))]
  {
    hide TextOf, SegmentOf;
  }

  lemma {:induction false} SegmentTextIs(noseps: bool, w: nat, entries: seq<Entry>)
    requires NumbersAreNumerals(entries)
    ensures SegmentText(noseps, w, entries)
         == if TableFits(entries) then Some(TextOf(SegmentOf(noseps, w, entries))) else None
  {
    hide MembersOf, ObjectText;
    MembersMean(entries);
  }

  lemma {:induction false} AllConcat(a: seq<seq<Entry>>, b: seq<seq<Entry>>)
    ensures AllFit(a + b) <==> AllFit(a) && AllFit(b)
    ensures AllNumerals(a + b) <==> AllNumerals(a) && AllNumerals(b)
  {
    hide TableFits, NumbersAreNumerals;
    assert forall k | 0 <= k < |a| :: a[k] == (a + b)[k];
    assert forall k | 0 <= k < |b| :: b[k] == (a + b)[|a| + k];
  }

  lemma {:induction false} AllOne(entries: seq<Entry>)
    ensures AllFit([entries]) <==> TableFits(entries)
    ensures AllNumerals([entries]) <==> NumbersAreNumerals(entries)
  {
    hide TableFits, NumbersAreNumerals;
    assert [entries][0] == entries;
  }

  /** What one more item adds. */
  lemma {:induction false} TablesOfSnoc(items: seq<Item>, item: Item)
    ensures TablesOf(items + [item]) == TablesOf(items) + TableOf(item)
    ensures Acceptable(Array(items + [item])) <==>
            Acceptable(Array(items)) && !item.OtherItem? && (item.TableItem? ==> TableFits(item.entries))
    ensures AllNumerals(TablesOf(items + [item])) <==>
            AllNumerals(TablesOf(items)) && (item.TableItem? ==> NumbersAreNumerals(item.entries))
  {
    hide TableFits, NumbersAreNumerals, AllFit, AllNumerals;
    TablesOfConcat(items, [item]);
    assert [item][1..] == [];
    AllConcat(TablesOf(items), TableOf(item));
    if item.TableItem? {
      AllOne(item.entries);
    } else {
      AllConcat([], []);
      AllNone();
    }
    assert (items + [item])[|items|] == item;
    assert forall k | 0 <= k < |items| :: items[k] == (items + [item])[k];
  }

  lemma {:induction false} AllNone()
    ensures AllFit([]) && AllNumerals([])
  {
  }

  lemma {:induction false} SegmentsAreJoined(noseps: bool, w: nat, items: seq<Item>)
    requires AllNumerals(TablesOf(items))
    ensures SegmentsText(noseps, w, items)
         == if Acceptable(Array(items)) then Some(Joined(Texts(Objects(noseps, w, TablesOf(items))), ",")) else None
  {
    if items == [] {
      AllNone();
    } else {
      hide Texts, Objects, Joined, TablesOf, SegmentsText, SegmentText, Acceptable, AllNumerals, NumbersAreNumerals, TableFits;
      var n := |items| - 1;
      var init, item := items[..n], items[n];
      assert items == init + [item] && items[..n + 1] == items;
      TablesOfSnoc(init, item);
      SegmentsAreJoined(noseps, w, init);
      SegmentsStep(noseps, w, items, n);
      if item.TableItem? && NumbersAreNumerals(item.entries) {
        SegmentTextIs(noseps, w, item.entries);
        OneMoreSegment(noseps, w, TablesOf(init), item.entries);
      } else {
        assert TablesOf(init) + [] == TablesOf(init);
      }
    }
  }

  lemma {:induction false} OneMoreSegment(noseps: bool, w: nat, tables: seq<seq<Entry>>, entries: seq<Entry>)
    ensures var joined := Joined(Texts(Objects(noseps, w, tables)), ",");
      Joined(Texts(Objects(noseps, w, tables + [entries])), ",")
      == joined + (if joined != "" then "," else "") + TextOf(SegmentOf(noseps, w, entries))
  {
    hide Texts, Objects, Joined, TextOf, SegmentOf;
    TextsSnoc(noseps, w, tables, entries);
    JoinedSnoc(Texts(Objects(noseps, w, tables)), TextOf(SegmentOf(noseps, w, entries)), ",");
  }

  // ---- What is read ----

  /** Reads objects up to the closing bracket. */
  function ReadObjects(t: string): Option<(seq<seq<Member>>, string)>
    decreases |t|
  {
    match ReadObject(t)
    case None => None
    case Some((ms, rest)) =>
      if rest == "" then None
      else if rest[0] == ']' then Some(([ms], rest[1..]))
      else if rest[0] != ',' then None
      else match ReadObjects(rest[1..]) case None => None case Some((more, rest')) => Some(([ms] + more, rest'))
  }

  function ReadArray(t: string): Option<(seq<seq<Member>>, string)> {
    if |t| < 2 || t[0] != '[' then None
    else if t[1] == ']' then Some(([], t[2..]))
    else ReadObjects(t[1..])
  }

  predicate Readable(objects: seq<seq<Member>>) {
    forall k | 0 <= k < |objects| :: objects[k] != [] && forall m | m in objects[k] :: WellFormed(m.value)
  }

  lemma {:induction false} ReadObjectsText(objects: seq<seq<Member>>, rest: string)
    requires objects != [] && Readable(objects)
    ensures ReadObjects(Interspersed(Texts(objects), ",") + ("]" + rest)) == Some((objects, rest))
    decreases |objects|
  {
    hide ObjectText, WellFormed, ReadObject;
    var first, more := objects[0], objects[1..];
    assert Texts(objects)[1..] == Texts(more);
    if more == [] {
      assert objects == [first];
      ReadObjectText(first, "]" + rest);
    } else {
      var later := Interspersed(Texts(more), ",") + ("]" + rest);
      ReadObjectsText(more, rest);
      ReadObjectText(first, "," + later);
      Associative(ObjectText(first), "," + Interspersed(Texts(more), ","), "]" + rest);
      Associative(",", Interspersed(Texts(more), ","), "]" + rest);
      assert ("," + later)[1..] == later && objects == [first] + more;
    }
  }

  lemma {:induction false} NonEmptyTexts(objects: seq<seq<Member>>)
    ensures NonEmpty(Texts(objects)) == Texts(objects)
  {
    hide TextOf;
    if objects == [] {
    } else {
      NonEmptyTexts(objects[1..]);
      assert Texts(objects)[1..] == Texts(objects[1..]);
    }
  }

  lemma {:induction false} ObjectsStart(t: string)
    ensures ReadObjects(t).Some? ==> t != "" && t[0] == '{'
  {
    hide ReadMembers;
  }

  lemma {:induction false} ReadJoined(objects: seq<seq<Member>>, rest: string)
    requires Readable(objects)
    ensures ReadArray("[" + Joined(Texts(objects), ",") + "]" + rest) == Some((objects, rest))
  {
    hide ReadObjects, Joined, Interspersed, Readable, TextOf;
    var joined := Joined(Texts(objects), ",");
    JoinedIsInterspersed(Texts(objects), ",");
    NonEmptyTexts(objects);
    if objects == [] {
      NothingJoined(",");
      assert "[" + joined + "]" + rest == "[" + ("]" + rest);
    } else {
      var t := joined + ("]" + rest);
      ReadObjectsText(objects, rest);
      ObjectsStart(t);
      assert "[" + joined + "]" + rest == "[" + t && ("[" + t)[1..] == t && ("[" + t)[1] == t[0];
    }
  }

  // ---- What the widgets show ----

  /** What a widget shows: segments, or that there was an error. */
  datatype Showing = Segments(tables: seq<seq<Entry>>) | ErrorSegment

  function ErrorMembers(noseps: bool): seq<Member> {
    [Member("full_text", JString("(Error)")), Member("color", JString("#ff0000")),
     Member("background", JString("#000000"))]
    + if noseps then [Member("separator", JToken("false"))] else []
  }

  function ObjectsOf(noseps: bool, w: nat, s: Showing): seq<seq<Member>> {
    match s case Segments(tables) => Objects(noseps, w, tables) case ErrorSegment => [ErrorMembers(noseps)]
  }

  /** What a reader is to make of it. */
  function Means(noseps: bool, w: nat, s: Showing): seq<seq<(string, Value)>> {
    match s
    case Segments(tables) => seq(|tables|, k requires 0 <= k < |tables| => SegmentMeans(noseps, w, tables[k]))
    case ErrorSegment =>
      [[("full_text", Str("(Error)")), ("color", Str("#ff0000")), ("background", Str("#000000"))]
       + if noseps then [("separator", Bool(false))] else []]
  }

  /** All that the first `n` widgets show. */
  function AllMean(noseps: bool, shown: seq<Showing>, n: nat): seq<seq<(string, Value)>>
    requires n <= |shown|
  {
    if n == 0 then [] else AllMean(noseps, shown, n - 1) + Means(noseps, n - 1, shown[n - 1])
  }

  function AllObjects(noseps: bool, shown: seq<Showing>, n: nat): seq<seq<Member>>
    requires n <= |shown|
  {
    if n == 0 then [] else AllObjects(noseps, shown, n - 1) + ObjectsOf(noseps, n - 1, shown[n - 1])
  }

  predicate Proper(s: Showing) {
    s.Segments? ==> AllFit(s.tables) && AllNumerals(s.tables)
  }

  /** The texts are those of what is shown. */
  predicate Fits(noseps: bool, bufs: seq<string>, shown: seq<Showing>) {
    && |bufs| == |shown|
    && forall w: nat | w < |bufs| :: Proper(shown[w]) && bufs[w] == Joined(Texts(ObjectsOf(noseps, w, shown[w])), ",")
  }

  function AllUnderstood(objects: seq<seq<Member>>): seq<seq<(string, Value)>> {
    seq(|objects|, k requires 0 <= k < |objects| => Understood(objects[k]))
  }

  lemma {:induction false} ObjectsRead(noseps: bool, w: nat, s: Showing)
    requires Proper(s)
    ensures Readable(ObjectsOf(noseps, w, s)) && AllUnderstood(ObjectsOf(noseps, w, s)) == Means(noseps, w, s)
  {
    hide Understood, Members, SegmentMeans, NumbersAreNumerals, TableFits, TokenEnd;
    match s
    case Segments(tables) =>
      forall k | 0 <= k < |tables|
        ensures var ms := SegmentOf(noseps, w, tables[k]);
          && ms != [] && (forall m | m in ms :: WellFormed(m.value))
          && Understood(ms) == SegmentMeans(noseps, w, tables[k])
      {
        SegmentRead(noseps, w, tables[k]);
      }
    case ErrorSegment =>
      Literals();
      ErrorMeans(noseps);
  }

  lemma {:induction false} SegmentRead(noseps: bool, w: nat, entries: seq<Entry>)
    requires TableFits(entries) && NumbersAreNumerals(entries)
    ensures var ms := SegmentOf(noseps, w, entries);
      && ms != [] && (forall m | m in ms :: WellFormed(m.value)) && Understood(ms) == SegmentMeans(noseps, w, entries)
  {
    hide Understood, MembersOf, SegmentMeans;
    MembersMean(entries);
    MembersRead(noseps, w, entries);
  }

  lemma {:induction false} ErrorMeans(noseps: bool)
    ensures Understood(ErrorMembers(noseps)) == Means(noseps, 0, ErrorSegment)[0]
  {
    hide Understood;
    var f, c, b, n := Member("full_text", JString("(Error)")), Member("color", JString("#ff0000")),
                      Member("background", JString("#000000")), Member("separator", JToken("false"));
    UnderstoodOne(f);
    UnderstoodOne(c);
    UnderstoodOne(b);
    UnderstoodOne(n);
    NothingMeans();
    UnderstoodConcat([f], [c]);
    UnderstoodConcat([f] + [c], [b]);
    UnderstoodConcat([f] + [c] + [b], if noseps then [n] else []);
    assert ErrorMembers(noseps) == [f] + [c] + [b] + if noseps then [n] else [];
  }

  lemma {:induction false} AllRead(noseps: bool, bufs: seq<string>, shown: seq<Showing>, n: nat)
    requires Fits(noseps, bufs, shown) && n <= |bufs|
    ensures var objects := AllObjects(noseps, shown, n);
      && Readable(objects) && AllUnderstood(objects) == AllMean(noseps, shown, n)
      && Joined(bufs[..n], ",") == Joined(Texts(objects), ",")
  {
    hide ObjectsOf, Means, WellFormed, Understood, Proper, TextOf, Joined;
    if n == 0 {
      NothingJoined(",");
      assert Texts([]) == [] && bufs[..0] == [];
    } else {
      var a, b := AllObjects(noseps, shown, n - 1), ObjectsOf(noseps, n - 1, shown[n - 1]);
      AllRead(noseps, bufs, shown, n - 1);
      ObjectsRead(noseps, n - 1, shown[n - 1]);
      assert Texts(a + b) == Texts(a) + Texts(b);
      assert AllUnderstood(a + b) == AllUnderstood(a) + AllUnderstood(b);
      JoinedConcat(Texts(a), Texts(b), ",");
      JoinedConcat(bufs[..n - 1], [bufs[n - 1]], ",");
      JoinedSingle(bufs[n - 1], ",");
      assert bufs[..n] == bufs[..n - 1] + [bufs[n - 1]];
    }
  }

  /** A reader of JSON gets out of a line drawn all segments of all widgets, in their order, and a comma after them. */
  lemma {:induction false} ReadLine(noseps: bool, bufs: seq<string>, shown: seq<Showing>)
    requires Fits(noseps, bufs, shown)
    ensures var r := ReadArray(Barlib.Rendered(Barlib.I3(noseps), bufs));
      r.Some? && r.value.1 == ",\n" && AllUnderstood(r.value.0) == AllMean(noseps, shown, |bufs|)
  {
    hide Joined, ReadArray, AllUnderstood, Texts, Readable, AllObjects, AllMean, ObjectsOf, Proper;
    var objects := AllObjects(noseps, shown, |bufs|);
    AllRead(noseps, bufs, shown, |bufs|);
    assert bufs[..|bufs|] == bufs;
    ReadJoined(objects, ",\n");
    var joined := Joined(bufs, ",");
    assert "[" + joined + "]" + ",\n" == "[" + joined + "],\n";
  }

  // ---- Sessions ----

  /** What a widget shows after a call. */
  function Shows(u: Barlib.Call): Showing {
    match u
    case Error => ErrorSegment
    case Returned(d) =>
      match d
      case NilData => Segments([])
      case Segments(t) => if Acceptable(t) then Segments(Tables(t)) else ErrorSegment
      case _ => ErrorSegment
  }

  /** What each widget shows after calls: what the last call for it says. */
  function ShownAfter(shown: seq<Showing>, calls: seq<(nat, Barlib.Call)>): (now: seq<Showing>)
    requires Barlib.InRange(calls, |shown|)
    ensures |now| == |shown|
  {
    if calls == [] then shown
    else
      var n := |calls| - 1;
      ShownAfter(shown, calls[..n])[calls[n].0 := Shows(calls[n].1)]
  }

  predicate NumeralsIn(u: Barlib.Call) {
    u.Returned? && u.d.Segments? ==> AllNumerals(Tables(u.d.t))
  }

  lemma {:induction false} TableTextIs(noseps: bool, w: nat, t: Table)
    requires AllNumerals(Tables(t))
    ensures TableText(noseps, w, t)
         == if Acceptable(t) then Some(Joined(Texts(Objects(noseps, w, Tables(t))), ",")) else None
  {
    hide SegmentsText, SegmentText, Joined, TextOf, SegmentOf, TableFits, NumbersAreNumerals;
    NothingJoined(",");
    match t
    case Empty =>
    case Dict(entries) =>
      AllOne(entries);
      SegmentTextIs(noseps, w, entries);
      assert Texts(Objects(noseps, w, [entries])) == [TextOf(SegmentOf(noseps, w, entries))];
      JoinedSingle(TextOf(SegmentOf(noseps, w, entries)), ",");
    case Array(items) => SegmentsAreJoined(noseps, w, items);
  }

  lemma {:induction false} ErrorTextIs(noseps: bool, w: nat)
    ensures Barlib.ErrorText(Barlib.I3(noseps)) == Joined(Texts(ObjectsOf(noseps, w, ErrorSegment)), ",")
  {
    hide Escaped, MemberText, TailText, ObjectText;
    ErrorObject(noseps);
    var ms := ErrorMembers(noseps);
    assert Texts([ms]) == [ObjectText(ms)];
    JoinedSingle(ObjectText(ms), ",");
  }

  predicate IsPlain(s: string) {
    forall k | 0 <= k < |s| :: !MustEscape(s[k])
  }

  lemma {:induction false} QuotedPlain(s: string)
    requires IsPlain(s)
    ensures Quoted(s) == "\"" + s + "\""
  {
    hide Escaped;
    EscapedPlain(s);
  }

  lemma {:induction false} MemberIs(key: string, value: string)
    ensures MemberText(Member(key, JString(value))) == Quoted(key) + ":" + Quoted(value)
  {
    hide Quoted;
  }

  lemma {:induction false} FullText()
    ensures MemberText(Member("full_text", JString("(Error)"))) == "\"full_text\":\"(Error)\""
  {
    hide *;
    QuotedPlain("full_text") by {
      PlainFullText();
    }
    QuotedPlain("(Error)") by {
      PlainFullText();
    }
    MemberIs("full_text", "(Error)");
    assert "\"" + "full_text" + "\"" == "\"full_text\"" && "\"" + "(Error)" + "\"" == "\"(Error)\"";
    assert "\"full_text\"" + ":" + "\"(Error)\"" == "\"full_text\":\"(Error)\"";
  }

  lemma {:induction false} PlainFullText()
    ensures IsPlain("full_text") && IsPlain("(Error)")
  {
  }

  lemma {:induction false} Color()
    ensures MemberText(Member("color", JString("#ff0000"))) == "\"color\":\"#ff0000\""
  {
    hide *;
    QuotedPlain("color") by {
      PlainColor();
    }
    QuotedPlain("#ff0000") by {
      PlainColor();
    }
    MemberIs("color", "#ff0000");
    assert "\"" + "color" + "\"" == "\"color\"" && "\"" + "#ff0000" + "\"" == "\"#ff0000\"";
    assert "\"color\"" + ":" + "\"#ff0000\"" == "\"color\":\"#ff0000\"";
  }

  lemma {:induction false} PlainColor()
    ensures IsPlain("color") && IsPlain("#ff0000")
  {
  }

  lemma {:induction false} Background()
    ensures MemberText(Member("background", JString("#000000"))) == "\"background\":\"#000000\""
  {
    hide *;
    QuotedPlain("background") by {
      PlainBackground();
    }
    QuotedPlain("#000000") by {
      PlainBackground();
    }
    MemberIs("background", "#000000");
    assert "\"" + "background" + "\"" == "\"background\"" && "\"" + "#000000" + "\"" == "\"#000000\"";
    assert "\"background\"" + ":" + "\"#000000\"" == "\"background\":\"#000000\"";
  }

  lemma {:induction false} PlainBackground()
    ensures IsPlain("background") && IsPlain("#000000")
  {
  }

  lemma {:induction false} TailOfTwo(c: Member, b: Member, more: seq<Member>)
    ensures TailText([c, b] + more) == "," + MemberText(c) + ("," + MemberText(b) + TailText(more))
  {
    hide MemberText, TailText;
    FirstOfTail([c, b] + more);
    FirstOfTail([b] + more);
    assert ([c, b] + more)[1..] == [b] + more && ([b] + more)[1..] == more;
  }

  lemma {:induction false} Regrouped(f: string, c: string, b: string, t: string)
    ensures "{" + f + ("," + c + ("," + b + t)) + "}" == ("{" + f) + ("," + c) + ("," + b) + (t + "}")
  {
    Associative("{" + f, "," + c, "," + b + t);
    Associative("{" + f + ("," + c), "," + b, t);
    Associative("{" + f + ("," + c) + ("," + b), t, "}");
  }

  lemma {:induction false} ErrorTextParts(noseps: bool)
    ensures Barlib.ErrorText(Barlib.I3(noseps))
         == ("{" + "\"full_text\":\"(Error)\"") + ("," + "\"color\":\"#ff0000\"")
            + ("," + "\"background\":\"#000000\"") + ((if noseps then ",\"separator\":false" else "") + "}")
  {
    assert "{" + "\"full_text\":\"(Error)\"" == "{\"full_text\":\"(Error)\"";
    assert "," + "\"color\":\"#ff0000\"" == ",\"color\":\"#ff0000\"";
    assert "," + "\"background\":\"#000000\"" == ",\"background\":\"#000000\"";
  }

  lemma {:induction false} ObjectOfThree(f: Member, c: Member, b: Member, more: seq<Member>)
    ensures ObjectText([f, c, b] + more)
         == ("{" + MemberText(f)) + ("," + MemberText(c)) + ("," + MemberText(b)) + (TailText(more) + "}")
  {
    hide TailText, MemberText;
    TailOfTwo(c, b, more);
    Regrouped(MemberText(f), MemberText(c), MemberText(b), TailText(more));
    assert ([f, c, b] + more)[1..] == [c, b] + more;
  }

  lemma {:induction false} SeparatorTail(noseps: bool)
    ensures TailText(if noseps then [Member("separator", JToken("false"))] else [])
         == if noseps then ",\"separator\":false" else ""
  {
    var n := Member("separator", JToken("false"));
    SeparatorText();
    NoMembers([]);
    hide TailText, MemberText;
    FirstOfTail([n]);
    assert [n][1..] == [];
  }

  lemma {:induction false} ErrorObject(noseps: bool)
    ensures ObjectText(ErrorMembers(noseps)) == Barlib.ErrorText(Barlib.I3(noseps))
  {
    hide TailText, MemberText, ObjectText, Barlib.ErrorText;
    FullText();
    Color();
    Background();
    SeparatorTail(noseps);
    ErrorTextParts(noseps);
    ObjectOfThree(Member("full_text", JString("(Error)")), Member("color", JString("#ff0000")),
                  Member("background", JString("#000000")),
                  if noseps then [Member("separator", JToken("false"))] else []);
  }

  lemma {:induction false} FitsNext(noseps: bool, bufs: seq<string>, shown: seq<Showing>, i: nat, u: Barlib.Call)
    requires Fits(noseps, bufs, shown) && i < |bufs| && NumeralsIn(u)
    ensures Fits(noseps, Barlib.NewBufs(Barlib.I3(noseps), bufs, i, u), shown[i := Shows(u)])
  {
    hide TableText, Tables, Joined, Texts, ObjectsOf, AllFit, AllNumerals, Barlib.ErrorText;
    ErrorTextIs(noseps, i);
    NothingShown(noseps, i);
    if u.Returned? && u.d.Segments? {
      TableTextIs(noseps, i, u.d.t);
      SegmentsShown(noseps, i, Tables(u.d.t));
    }
  }

  lemma {:induction false} SegmentsShown(noseps: bool, w: nat, tables: seq<seq<Entry>>)
    ensures ObjectsOf(noseps, w, Segments(tables)) == Objects(noseps, w, tables)
  {
  }

  lemma {:induction false} NothingShown(noseps: bool, w: nat)
    ensures Joined(Texts(ObjectsOf(noseps, w, Segments([]))), ",") == "" && Proper(Segments([]))
  {
    NothingJoined(",");
    assert Texts(ObjectsOf(noseps, w, Segments([]))) == [];
  }

  lemma {:induction false} SessionFits(noseps: bool, bufs: seq<string>, shown: seq<Showing>, calls: seq<(nat, Barlib.Call)>)
    requires Fits(noseps, bufs, shown) && |shown| == |bufs| && Barlib.InRange(calls, |bufs|)
    requires forall k | 0 <= k < |calls| :: NumeralsIn(calls[k].1)
    ensures Fits(noseps, Barlib.BufsAfter(Barlib.I3(noseps), bufs, calls), ShownAfter(shown, calls))
    decreases |calls|
  {
    hide NumeralsIn, Shows, ObjectsOf, Joined, Texts, Proper, Barlib.NewBufs, Barlib.Skipped, Barlib.Rendered, Barlib.Drawn;
    if calls == [] {
    } else {
      var n := |calls| - 1;
      SessionFits(noseps, bufs, shown, calls[..n]);
      var now := Barlib.BufsAfter(Barlib.I3(noseps), bufs, calls[..n]);
      FitsNext(noseps, now, ShownAfter(shown, calls[..n]), calls[n].0, calls[n].1);
      Barlib.DrawnSnoc(Barlib.I3(noseps), bufs, calls[..n], calls[n].0, calls[n].1);
      assert calls == calls[..n] + [calls[n]];
    }
  }

  /** What i3 reads after any calls, from the start: of each widget what its last call says, or nothing. */
  lemma {:induction false} ReadSession(noseps: bool, nwidgets: nat, calls: seq<(nat, Barlib.Call)>)
    requires Barlib.InRange(calls, nwidgets) && forall k | 0 <= k < |calls| :: NumeralsIn(calls[k].1)
    ensures var st, none := Barlib.I3(noseps), seq(nwidgets, w => Segments([]));
      var r := ReadArray(Barlib.Rendered(st, Barlib.BufsAfter(st, seq(nwidgets, w => ""), calls)));
      && r.Some? && r.value.1 == ",\n"
      && AllUnderstood(r.value.0) == AllMean(noseps, ShownAfter(none, calls), nwidgets)
  {
    hide AllMean, ReadArray, ShownAfter, Texts, Joined, ObjectsOf, Proper;
    var bufs, none := seq(nwidgets, w => ""), seq(nwidgets, w => Segments([]));
    forall w: nat | w < nwidgets ensures Proper(none[w]) && bufs[w] == Joined(Texts(ObjectsOf(noseps, w, none[w])), ",") {
      NothingShown(noseps, w);
    }
    SessionFits(noseps, bufs, none, calls);
    ReadLine(noseps, Barlib.BufsAfter(Barlib.I3(noseps), bufs, calls), ShownAfter(none, calls));
  }
}
