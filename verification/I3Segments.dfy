/**
 How the i3 barlib (barlibs/i3/i3.c) turns tables into JSON segments, and what a reader of JSON makes of them.
 */
module I3Segments {
  import opened Common
  import opened JsonEscape
  import opened ParseInt
  import opened Wrappers

  /** The value of a table entry; of a number, what "%.20g" prints, or None for an infinity or NaN. */
  datatype Value = Num(text: Option<string>) | Str(s: string) | Bool(b: bool) | NilValue | OtherValue

  datatype Key = StringKey(s: string) | OtherKey

  datatype Entry = Entry(key: Key, value: Value)

  /** What is in a table: nothing; entries with keys, in the order of lua_next(); or elements. */
  datatype Item = NilItem | TableItem(entries: seq<Entry>) | OtherItem
  datatype Table = Empty | Dict(entries: seq<Entry>) | Array(items: seq<Item>)

  // ---- What is written ----

  /** A value in JSON that is no container: a string, or the text of a number or literal. */
  datatype Scalar = JString(s: string) | JToken(t: string)

  datatype Member = Member(key: string, value: Scalar)

  function Quoted(s: string): string {
    "\"" + Escaped(s) + "\""
  }

  function ScalarText(v: Scalar): string {
    match v
    case JString(s) => Quoted(s)
    case JToken(t) => t
  }

  function MemberText(m: Member): string {
    Quoted(m.key) + ":" + ScalarText(m.value)
  }

  /** Members after the first one. */
  function TailText(ms: seq<Member>): string {
    if ms == [] then "" else TailText(ms[..|ms| - 1]) + ("," + MemberText(ms[|ms| - 1]))
  }

  function ScalarOf(v: Value): Option<Scalar> {
    match v
    case Num(text) => if text.None? then None else Some(JToken(text.value))
    case Str(s) => Some(JString(s))
    case Bool(b) => Some(JToken(if b then "true" else "false"))
    case NilValue => Some(JToken("null"))
    case OtherValue => None
  }

  /** The members for entries; an entry "name" is ignored. None if a key or value is invalid. Keys are C strings. */
  function MembersOf(entries: seq<Entry>): Option<seq<Member>> {
    if entries == [] then Some([])
    else
      var n := |entries| - 1;
      var (init, e) := (MembersOf(entries[..n]), entries[n]);
      if init == None || e.key.OtherKey? then None
      else if CString(e.key.s) == "name" then init
      else if ScalarOf(e.value) == None then None
      else Some(init.value + [Member(CString(e.key.s), ScalarOf(e.value).value)])
  }

  predicate HasKey(entries: seq<Entry>, key: string) {
    exists i | 0 <= i < |entries| :: entries[i].key.StringKey? && CString(entries[i].key.s) == key
  }

  /** The member that the "no_separators" option adds. */
  function Epilogue(noseps: bool, entries: seq<Entry>): seq<Member> {
    if noseps && !HasKey(entries, "separator") then [Member("separator", JToken("false"))] else []
  }

  /** All the members of a segment of widget `i`. */
  function Members(noseps: bool, i: nat, entries: seq<Entry>): Option<seq<Member>> {
    var ms := MembersOf(entries);
    if ms == None then None
    else Some([Member("name", JString(Decimal(i)))] + (ms.value + Epilogue(noseps, entries)))
  }

  function ObjectText(ms: seq<Member>): string
    requires ms != []
  {
    "{" + MemberText(ms[0]) + TailText(ms[1..]) + "}"
  }

  function SegmentText(noseps: bool, i: nat, entries: seq<Entry>): Option<string> {
    var ms := Members(noseps, i, entries);
    if ms == None then None else Some(ObjectText(ms.value))
  }

  /** The segments of an array's elements, with commas between them. */
  function SegmentsText(noseps: bool, i: nat, items: seq<Item>): Option<string> {
    if items == [] then Some("")
    else
      var (init, item) := (SegmentsText(noseps, i, items[..|items| - 1]), items[|items| - 1]);
      match item
      case NilItem => init
      case OtherItem => None
      case TableItem(entries) =>
        var text := SegmentText(noseps, i, entries);
        if init == None || text == None then None
        else Some(init.value + (if init.value != "" then "," else "") + text.value)
  }

  function TableText(noseps: bool, i: nat, t: Table): Option<string> {
    match t
    case Empty => Some("")
    case Dict(entries) => SegmentText(noseps, i, entries)
    case Array(items) => SegmentsText(noseps, i, items)
  }

  lemma {:induction false} TailTextConcat(a: seq<Member>, b: seq<Member>)
    ensures TailText(a + b) == TailText(a) + TailText(b)
  {
    hide MemberText;
    if b == [] {
      assert a + b == a;
    } else {
      var n := |b| - 1;
      TailTextConcat(a, b[..n]);
      assert (a + b)[..|a| + n] == a + b[..n];
      Associative(TailText(a), TailText(b[..n]), "," + MemberText(b[n]));
    }
  }

  lemma {:induction false} MembersInvalid(entries: seq<Entry>, k: nat)
    requires k <= |entries| && MembersOf(entries[..k]) == None
    ensures MembersOf(entries) == None
    decreases |entries|
  {
    if k == |entries| {
      assert entries[..k] == entries;
    } else {
      var n := |entries| - 1;
      assert entries[..n][..k] == entries[..k];
      MembersInvalid(entries[..n], k);
    }
  }

  lemma {:induction false} MembersStep(entries: seq<Entry>, k: nat)
    requires k < |entries|
    ensures var init, e := MembersOf(entries[..k]), entries[k];
      MembersOf(entries[..k + 1])
      == if init == None || e.key.OtherKey? then None
         else if CString(e.key.s) == "name" then init
         else if ScalarOf(e.value) == None then None
         else Some(init.value + [Member(CString(e.key.s), ScalarOf(e.value).value)])
  {
    hide ScalarOf, CString;
    assert entries[..k + 1][..k] == entries[..k];
  }

  /** What append_segment() appends for a value. */
  method ValueText(v: Value) returns (ok: bool, text: string)
    ensures ok <==> ScalarOf(v).Some?
    ensures ok ==> text == ScalarText(ScalarOf(v).value)
  {
    ok, text := true, "";
    match v
    case Num(n) =>
      ok := n.Some?;
      if ok {
        text := n.value;
      }
    case Str(s) => text := "\"" + Escaped(s) + "\"";
    case Bool(b) => text := if b then "true" else "false";
    case NilValue => text := "null";
    case OtherValue => ok := false;
  }

  /** append_segment(); the buffer is of no use after a failure. */
  method AppendSegment(dst: string, noseps: bool, i: nat, entries: seq<Entry>) returns (ok: bool, out: string)
    ensures ok <==> SegmentText(noseps, i, entries).Some?
    ensures ok ==> out == dst + (if dst != "" then "," else "") + SegmentText(noseps, i, entries).value
  {
    hide MembersOf, ScalarOf, TailText, Escaped, CString, Decimal;
    out := dst;
    if out != "" {
      out := out + ",";
    }
    out := out + ("{\"name\":\"" + Decimal(i) + "\"");
    NameText(i);
    ghost var start := out;
    var hasSeparatorKey := false;
    NoMembers(entries);
    ghost var ms: seq<Member> := [];
    for k := 0 to |entries|
      invariant MembersOf(entries[..k]) == Some(ms) && out == start + TailText(ms)
      invariant hasSeparatorKey <==> HasKey(entries[..k], "separator")
    {
      var e := entries[k];
      MembersStep(entries, k);
      HasKeyStep(entries, k, "separator");
      if e.key.OtherKey? {
        MembersInvalid(entries, k + 1);
        return false, "";
      }
      var key := CString(e.key.s);
      if key != "name" {
        if key == "separator" {
          hasSeparatorKey := true;
        }
        var text;
        ok, text := ValueText(e.value);
        if !ok {
          MembersInvalid(entries, k + 1);
          return false, "";
        }
        ghost var m := Member(key, ScalarOf(e.value).value);
        AppendedMember(start, ms, m);
        out := out + ("," + (Quoted(key) + ":" + text));
        ms := ms + [m];
      }
    }
    assert entries[..|entries|] == entries;
    if noseps && !hasSeparatorKey {
      SeparatorText();
      AppendedMember(start, ms, Member("separator", JToken("false")));
      out := out + ",\"separator\":false";
    }
    ghost var all := ms + Epilogue(noseps, entries);
    assert ms + [] == ms;
    assert out == start + TailText(all);
    out := out + "}";
    ok := true;
    WholeText(dst + (if dst != "" then "," else ""), i, all);
  }

  lemma {:induction false} NoMembers(entries: seq<Entry>)
    ensures MembersOf(entries[..0]) == Some([]) && TailText([]) == "" && !HasKey(entries[..0], "separator")
  {
  }

  lemma {:induction false} HasKeyStep(entries: seq<Entry>, k: nat, key: string)
    requires k < |entries|
    ensures HasKey(entries[..k + 1], key)
        <==> HasKey(entries[..k], key) || (entries[k].key.StringKey? && CString(entries[k].key.s) == key)
  {
    hide CString;
    var more := entries[..k + 1];
    assert forall i | 0 <= i < k :: more[i] == entries[..k][i];
    assert more[k] == entries[k];
  }

  lemma {:induction false} AppendedMember(start: string, ms: seq<Member>, m: Member)
    ensures start + TailText(ms + [m]) == start + TailText(ms) + ("," + MemberText(m))
  {
    hide MemberText;
    assert (ms + [m])[..|ms|] == ms;
    Associative(start, TailText(ms), "," + MemberText(m));
  }

  /** Names and numerals need no escapes. */
  lemma {:induction false} NameText(i: nat)
    ensures "{\"name\":\"" + Decimal(i) + "\"" == "{" + MemberText(Member("name", JString(Decimal(i))))
  {
    hide Decimal, Escaped;
    EscapedPlain("name");
    DigitsArePlain(Decimal(i));
    EscapedPlain(Decimal(i));
    assert Quoted("name") == "\"name\"";
  }

  lemma {:induction false} DigitsArePlain(s: string)
    requires AllDigits(s)
    ensures forall k | 0 <= k < |s| :: !MustEscape(s[k])
  {
  }

  lemma {:induction false} SeparatorText()
    ensures "," + MemberText(Member("separator", JToken("false"))) == ",\"separator\":false"
  {
    hide Escaped;
    EscapedPlain("separator");
    assert Quoted("separator") == "\"separator\"";
    assert MemberText(Member("separator", JToken("false"))) == "\"separator\"" + ":" + "false" == "\"separator\":false";
  }

  lemma {:induction false} WholeText(before: string, i: nat, ms: seq<Member>)
    ensures var name := Member("name", JString(Decimal(i)));
      before + ("{" + MemberText(name)) + TailText(ms) + "}" == before + ObjectText([name] + ms)
  {
    hide MemberText, TailText, Decimal;
    var name := Member("name", JString(Decimal(i)));
    assert ([name] + ms)[1..] == ms;
    Associative(before, "{" + MemberText(name), TailText(ms) + "}");
    Associative(before + ("{" + MemberText(name)), TailText(ms), "}");
    Associative("{" + MemberText(name), TailText(ms), "}");
  }

  lemma {:induction false} SegmentsInvalid(noseps: bool, i: nat, items: seq<Item>, k: nat)
    requires k <= |items| && SegmentsText(noseps, i, items[..k]) == None
    ensures SegmentsText(noseps, i, items) == None
    decreases |items|
  {
    hide SegmentText;
    if k == |items| {
      assert items[..k] == items;
    } else {
      var n := |items| - 1;
      assert items[..n][..k] == items[..k];
      SegmentsInvalid(noseps, i, items[..n], k);
    }
  }

  lemma {:induction false} SegmentsStep(noseps: bool, i: nat, items: seq<Item>, k: nat)
    requires k < |items|
    ensures var init := SegmentsText(noseps, i, items[..k]);
      SegmentsText(noseps, i, items[..k + 1])
      == match items[k]
         case NilItem => init
         case OtherItem => None
         case TableItem(entries) =>
           var text := SegmentText(noseps, i, entries);
           if init == None || text == None then None
           else Some(init.value + (if init.value != "" then "," else "") + text.value)
  {
    hide SegmentText;
    assert items[..k + 1][..k] == items[..k];
  }

  method AppendSegments(noseps: bool, i: nat, items: seq<Item>) returns (ok: bool, out: string)
    ensures ok <==> SegmentsText(noseps, i, items).Some?
    ensures ok ==> out == SegmentsText(noseps, i, items).value
  {
    hide SegmentText;
    ok, out := true, "";
    assert items[..0] == [] && SegmentsText(noseps, i, []) == Some("");
    hide SegmentsText;
    for k := 0 to |items|
      invariant ok && SegmentsText(noseps, i, items[..k]) == Some(out)
    {
      SegmentsStep(noseps, i, items, k);
      match items[k] {
        case NilItem =>
        case OtherItem =>
          SegmentsInvalid(noseps, i, items, k + 1);
          return false, "";
        case TableItem(entries) =>
          ok, out := AppendSegment(out, noseps, i, entries);
          if !ok {
            SegmentsInvalid(noseps, i, items, k + 1);
            return;
          }
      }
    }
    assert items[..|items|] == items;
  }

  /** The table part of set(). */
  method AppendTable(noseps: bool, i: nat, t: Table) returns (ok: bool, out: string)
    ensures ok <==> TableText(noseps, i, t).Some?
    ensures ok ==> out == TableText(noseps, i, t).value
  {
    hide SegmentText, SegmentsText;
    ok, out := true, "";
    match t
    case Empty =>
    case Dict(entries) => ok, out := AppendSegment(out, noseps, i, entries);
    case Array(items) => ok, out := AppendSegments(noseps, i, items);
  }

  // ---- What is read ----

  /** The length of the text of a number or literal at the start of `t`. */
  function TokenEnd(t: string): (n: nat)
    ensures n <= |t|
  {
    if t == "" || t[0] == ',' || t[0] == '}' then 0 else 1 + TokenEnd(t[1..])
  }

  predicate IsToken(t: string) {
    t != "" && t[0] != '"' && TokenEnd(t) == |t|
  }

  /** Reads a value that is no container, and gives what is after it. */
  function ReadScalar(t: string): (r: Option<(Scalar, string)>)
    ensures r.Some? ==> |r.value.1| < |t|
  {
    if t == "" then None
    else if t[0] == '"' then
      match Read(t[1..]) case None => None case Some(Reading(s, rest)) => Some((JString(s), rest))
    else if TokenEnd(t) == 0 then None
    else Some((JToken(t[..TokenEnd(t)]), t[TokenEnd(t)..]))
  }

  function ReadMember(t: string): (r: Option<(Member, string)>)
    ensures r.Some? ==> |r.value.1| < |t|
  {
    if t == "" || t[0] != '"' then None
    else match Read(t[1..])
      case None => None
      case Some(Reading(key, rest)) =>
        if rest == "" || rest[0] != ':' then None
        else match ReadScalar(rest[1..]) case None => None case Some((v, rest')) => Some((Member(key, v), rest'))
  }

  /** Reads members up to the closing brace. */
  function ReadMembers(t: string): (r: Option<(seq<Member>, string)>)
    ensures r.Some? ==> |r.value.1| < |t|
    decreases |t|
  {
    match ReadMember(t)
    case None => None
    case Some((m, rest)) =>
      if rest == "" then None
      else if rest[0] == '}' then Some(([m], rest[1..]))
      else if rest[0] != ',' then None
      else match ReadMembers(rest[1..]) case None => None case Some((ms, rest')) => Some(([m] + ms, rest'))
  }

  function ReadObject(t: string): (r: Option<(seq<Member>, string)>)
    ensures r.Some? ==> |r.value.1| < |t|
  {
    if t == "" || t[0] != '{' then None else ReadMembers(t[1..])
  }

  lemma {:induction false} ReadQuoted(s: string, rest: string)
    ensures (Quoted(s) + rest)[0] == '"' && Read((Quoted(s) + rest)[1..]) == Some(Reading(s, rest))
  {
    ReadEscaped(s, rest);
    assert (Quoted(s) + rest)[1..] == Escaped(s) + "\"" + rest;
  }

  lemma {:induction false} TokenEnds(t: string, rest: string)
    requires TokenEnd(t) == |t| && rest != "" && (rest[0] == ',' || rest[0] == '}')
    ensures TokenEnd(t + rest) == |t|
  {
    if t == "" {
      assert t + rest == rest;
    } else {
      TokenEnds(t[1..], rest);
      assert (t + rest)[1..] == t[1..] + rest;
    }
  }

  predicate WellFormed(v: Scalar) {
    v.JToken? ==> IsToken(v.t)
  }

  lemma {:induction false} ReadScalarText(v: Scalar, rest: string)
    requires WellFormed(v) && rest != "" && (rest[0] == ',' || rest[0] == '}')
    ensures ReadScalar(ScalarText(v) + rest) == Some((v, rest))
  {
    hide Read, Quoted, TokenEnd;
    match v
    case JString(s) => ReadQuoted(s, rest);
    case JToken(t) =>
      TokenEnds(t, rest);
      assert (t + rest)[..|t|] == t && (t + rest)[|t|..] == rest && (t + rest)[0] == t[0];
  }

  lemma {:induction false} ReadMemberText(m: Member, rest: string)
    requires WellFormed(m.value) && rest != "" && (rest[0] == ',' || rest[0] == '}')
    ensures ReadMember(MemberText(m) + rest) == Some((m, rest))
  {
    hide Read, ReadScalar, Quoted, ScalarText, WellFormed;
    var v := ":" + (ScalarText(m.value) + rest);
    Associative(Quoted(m.key), ":" + ScalarText(m.value), rest);
    Associative(Quoted(m.key), ":", ScalarText(m.value));
    Associative(":", ScalarText(m.value), rest);
    assert MemberText(m) + rest == Quoted(m.key) + v;
    ReadQuoted(m.key, v);
    ReadScalarText(m.value, rest);
    assert v[1..] == ScalarText(m.value) + rest;
  }

  lemma {:induction false} ReadMembersText(ms: seq<Member>, rest: string)
    requires ms != [] && forall k | 0 <= k < |ms| :: WellFormed(ms[k].value)
    ensures ReadMembers(MemberText(ms[0]) + (TailText(ms[1..]) + "}" + rest)) == Some((ms, rest))
    decreases |ms|
  {
    hide ReadMember, MemberText, TailText, WellFormed;
    var m, more := ms[0], ms[1..];
    if more == [] {
      NoMembers([]);
      assert TailText(more) + "}" + rest == "}" + rest && ("}" + rest)[1..] == rest;
      ReadMemberText(m, "}" + rest);
      assert ms == [m];
    } else {
      var later := MemberText(more[0]) + (TailText(more[1..]) + "}" + rest);
      FirstOfTail(more);
      assert TailText(more) + "}" + rest == "," + later by {
        Associative(",", MemberText(more[0]), TailText(more[1..]));
        assert "," + MemberText(more[0]) + TailText(more[1..]) + "}" + rest == "," + later;
      }
      ReadMembersText(more, rest);
      ReadMemberText(m, "," + later);
      assert ("," + later)[1..] == later && ms == [m] + more;
    }
  }

  lemma {:induction false} FirstOfTail(ms: seq<Member>)
    requires ms != []
    ensures TailText(ms) == "," + MemberText(ms[0]) + TailText(ms[1..])
  {
    hide MemberText;
    TailTextConcat([ms[0]], ms[1..]);
    assert ms == [ms[0]] + ms[1..] && [ms[0]][..0] == [];
    assert TailText([ms[0]]) == "" + ("," + MemberText(ms[0])) == "," + MemberText(ms[0]);
  }

  /** What printf() makes of numbers. */
  predicate IsNumeral(t: string) {
    IsToken(t) && (t[0] == '-' || '0' <= t[0] <= '9')
  }

  predicate NumbersAreNumerals(entries: seq<Entry>) {
    forall k | 0 <= k < |entries| ::
      entries[k].value.Num? && entries[k].value.text.Some? ==> IsNumeral(entries[k].value.text.value)
  }

  lemma {:induction false} Literals()
    ensures IsToken("true") && IsToken("false") && IsToken("null")
  {
    TokenEndPlain("true");
    TokenEndPlain("false");
    TokenEndPlain("null");
  }

  lemma {:induction false} TokenEndPlain(t: string)
    requires forall k | 0 <= k < |t| :: t[k] != ',' && t[k] != '}'
    ensures TokenEnd(t) == |t|
  {
    if t == "" {
    } else {
      TokenEndPlain(t[1..]);
    }
  }

  /** What a reader takes a value for. */
  function Meaning(v: Scalar): Value {
    match v
    case JString(s) => Str(s)
    case JToken(t) =>
      if t == "true" then Bool(true)
      else if t == "false" then Bool(false)
      else if t == "null" then NilValue
      else Num(Some(t))
  }

  /** What a reader takes an object for: names and values, in their order. */
  function Understood(ms: seq<Member>): seq<(string, Value)> {
    if ms == [] then [] else [(ms[0].key, Meaning(ms[0].value))] + Understood(ms[1..])
  }

  function KeptOf(e: Entry): seq<(string, Value)> {
    if e.key.StringKey? && CString(e.key.s) != "name" then [(CString(e.key.s), e.value)] else []
  }

  /** The entries of a table that a segment is to have. */
  function Kept(entries: seq<Entry>): seq<(string, Value)> {
    if entries == [] then [] else KeptOf(entries[0]) + Kept(entries[1..])
  }

  predicate Named(pairs: seq<(string, Value)>, key: string) {
    exists k | 0 <= k < |pairs| :: pairs[k].0 == key
  }

  /** What a segment of widget `i` is to mean to its reader. */
  function SegmentMeans(noseps: bool, i: nat, entries: seq<Entry>): seq<(string, Value)> {
    [("name", Str(Decimal(i)))] + Kept(entries)
    + if noseps && !Named(Kept(entries), "separator") then [("separator", Bool(false))] else []
  }

  lemma {:induction false} UnderstoodConcat(a: seq<Member>, b: seq<Member>)
    ensures Understood(a + b) == Understood(a) + Understood(b)
  {
    hide Meaning;
    if a == [] {
      assert a + b == b;
    } else {
      UnderstoodConcat(a[1..], b);
      assert (a + b)[1..] == a[1..] + b;
      Associative([(a[0].key, Meaning(a[0].value))], Understood(a[1..]), Understood(b));
    }
  }

  lemma {:induction false} KeptConcat(a: seq<Entry>, b: seq<Entry>)
    ensures Kept(a + b) == Kept(a) + Kept(b)
  {
    hide KeptOf;
    if a == [] {
      assert a + b == b;
    } else {
      KeptConcat(a[1..], b);
      assert (a + b)[1..] == a[1..] + b;
      Associative(KeptOf(a[0]), Kept(a[1..]), Kept(b));
    }
  }

  lemma {:induction false} UnderstoodOne(m: Member)
    ensures Understood([m]) == [(m.key, Meaning(m.value))]
  {
    assert [m][1..] == [];
  }

  lemma {:induction false} KeptOne(e: Entry)
    ensures Kept([e]) == KeptOf(e)
  {
    assert [e][1..] == [];
  }

  /** A value that can be written is read as itself. */
  lemma {:induction false} MeaningOfScalar(v: Value)
    requires v.Num? && v.text.Some? ==> IsNumeral(v.text.value)
    ensures ScalarOf(v) == None <==> v == OtherValue || v == Num(None)
    ensures ScalarOf(v).Some? ==> WellFormed(ScalarOf(v).value) && Meaning(ScalarOf(v).value) == v
  {
    hide TokenEnd;
    Literals();
  }

  /** An entry called "name", or with a value that is a finite number, a string, a boolean or nil. */
  predicate EntryFits(e: Entry) {
    e.key.StringKey? && (CString(e.key.s) == "name" || (e.value != OtherValue && e.value != Num(None)))
  }

  /** Writing fails exactly for an entry that does not fit; and the members written are read as the entries. */
  lemma {:induction false} MembersMean(entries: seq<Entry>)
    requires NumbersAreNumerals(entries)
    ensures MembersOf(entries).Some? <==> forall k | 0 <= k < |entries| :: EntryFits(entries[k])
    ensures MembersOf(entries).Some? ==>
              && Understood(MembersOf(entries).value) == Kept(entries)
              && forall k | 0 <= k < |MembersOf(entries).value| :: WellFormed(MembersOf(entries).value[k].value)
  {
    hide ScalarOf, Meaning, WellFormed, IsNumeral, CString, Understood, Kept;
    if entries == [] {
      NothingMeans();
    } else {
      var n := |entries| - 1;
      var init, e := entries[..n], entries[n];
      MembersMean(init);
      MeaningOfScalar(e.value);
      KeptConcat(init, [e]);
      KeptOne(e);
      assert entries == init + [e];
      if MembersOf(entries).Some? && CString(e.key.s) != "name" {
        var m := Member(CString(e.key.s), ScalarOf(e.value).value);
        UnderstoodConcat(MembersOf(init).value, [m]);
        UnderstoodOne(m);
      }
    }
  }

  lemma {:induction false} NothingMeans()
    ensures Understood([]) == [] && Kept([]) == []
  {
  }

  lemma {:induction false} NamedConcat(a: seq<(string, Value)>, b: seq<(string, Value)>, key: string)
    ensures Named(a + b, key) <==> Named(a, key) || Named(b, key)
  {
    assert forall k | 0 <= k < |a| :: a[k] == (a + b)[k];
    assert forall k | 0 <= k < |b| :: b[k] == (a + b)[|a| + k];
  }

  lemma {:induction false} NamedOne(e: Entry, key: string)
    requires key != "name"
    ensures Named(KeptOf(e), key) <==> e.key.StringKey? && CString(e.key.s) == key
  {
    if e.key.StringKey? && CString(e.key.s) != "name" {
      assert KeptOf(e)[0].0 == CString(e.key.s);
    }
  }

  lemma {:induction false} SeparatorKept(entries: seq<Entry>)
    ensures HasKey(entries, "separator") <==> Named(Kept(entries), "separator")
  {
    hide CString, Kept, KeptOf;
    NothingMeans();
    if entries == [] {
    } else {
      var n := |entries| - 1;
      var init, e := entries[..n], entries[n];
      SeparatorKept(init);
      NamedOne(e, "separator");
      HasKeyStep(entries, n, "separator");
      KeptConcat(init, [e]);
      KeptOne(e);
      NamedConcat(Kept(init), Kept([e]), "separator");
      assert entries == init + [e] && entries[..n + 1] == entries;
    }
  }

  /** A reader of JSON gets out of a segment exactly what the table says, whatever strings are in it, and stops at the
      end of the segment: first the name of the widget, then all the table's entries but "name", in their order and
      with their values, and "separator": false at the end if it is asked for and the table has no "separator". */
  lemma {:induction false} ReadSegment(noseps: bool, i: nat, entries: seq<Entry>, rest: string)
    requires NumbersAreNumerals(entries) && SegmentText(noseps, i, entries).Some?
    ensures var r := ReadObject(SegmentText(noseps, i, entries).value + rest);
      r.Some? && r.value.1 == rest && Understood(r.value.0) == SegmentMeans(noseps, i, entries)
  {
    hide MembersOf, MemberText, TailText, ReadMembers, Decimal, NumbersAreNumerals, Understood, Kept;
    MembersMean(entries);
    var ms := Members(noseps, i, entries).value;
    MembersRead(noseps, i, entries);
    ReadObjectText(ms, rest);
  }

  lemma {:induction false} MembersRead(noseps: bool, i: nat, entries: seq<Entry>)
    requires NumbersAreNumerals(entries) && Members(noseps, i, entries).Some?
    ensures var ms := Members(noseps, i, entries).value;
      && ms != [] && (forall k | 0 <= k < |ms| :: WellFormed(ms[k].value))
      && Understood(ms) == SegmentMeans(noseps, i, entries)
  {
    hide MembersOf, Decimal, NumbersAreNumerals, Understood, Kept, HasKey, TokenEnd, Named;
    MembersMean(entries);
    SeparatorKept(entries);
    Literals();
    var ms, e := MembersOf(entries).value, Epilogue(noseps, entries);
    var name := Member("name", JString(Decimal(i)));
    UnderstoodConcat([name], ms + e);
    UnderstoodConcat(ms, e);
    UnderstoodOne(name);
    UnderstoodOne(Member("separator", JToken("false")));
    NothingMeans();
  }

  lemma {:induction false} ReadObjectText(ms: seq<Member>, rest: string)
    requires ms != [] && forall k | 0 <= k < |ms| :: WellFormed(ms[k].value)
    ensures ReadObject(ObjectText(ms) + rest) == Some((ms, rest))
  {
    hide MemberText, TailText, ReadMembers, WellFormed;
    ReadMembersText(ms, rest);
    var t := MemberText(ms[0]) + (TailText(ms[1..]) + "}" + rest);
    assert ObjectText(ms) + rest == "{" + t;
    assert ("{" + t)[1..] == t;
  }
}
