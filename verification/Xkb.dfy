/**
 The splitting of layout names in the xkb plugin (plugins/xkb/wrongly.c, plugins/xkb/somehow.c), into the packed
 string array of libls. Strings are C strings without their terminator.
 */
module Xkb {
  import opened Common
  import opened LsString
  import opened Wrappers

  // ---- What a split is ----

  /** Where a string is cut: at every separator, or at separators outside of parentheses. */
  datatype Rule = Everywhere(sep: char) | Outside(sep: char)

  /** Opening minus closing parentheses. */
  function Balance(s: string): int {
    if s == "" then 0
    else
      var n := |s| - 1;
      Balance(s[..n]) + if s[n] == '(' then 1 else if s[n] == ')' then -1 else 0
  }

  /** The code counts in a size_t, which wraps. */
  predicate CutAt(rule: Rule, s: string, i: nat)
    requires i < |s|
  {
    s[i] == rule.sep && (rule.Outside? ==> Balance(s[..i]) % (SIZE_MAX + 1) == 0)
  }

  lemma {:induction false} BalanceRange(s: string)
    ensures -|s| <= Balance(s) <= |s|
  {
    if s == "" {
    } else {
      BalanceRange(s[..|s| - 1]);
    }
  }

  /** For strings that a memory can hold, wrapping makes no difference: cuts are where parentheses balance. */
  lemma {:induction false} CutsAreBalanced(rule: Rule, s: string, i: nat)
    requires i < |s| <= SIZE_MAX
    ensures CutAt(rule, s, i) <==> s[i] == rule.sep && (rule.Outside? ==> Balance(s[..i]) == 0)
  {
    BalanceRange(s[..i]);
  }

  function Join(groups: seq<string>, sep: char): string {
    if groups == [] then ""
    else if |groups| == 1 then groups[0]
    else groups[0] + [sep] + Join(groups[1..], sep)
  }

  /** `groups` is what is between the cuts of `s` from `start` on. */
  ghost predicate IsSplit(rule: Rule, s: string, start: nat, groups: seq<string>)
    requires start <= |s|
    decreases |groups|
  {
    && groups != []
    && var end := start + |groups[0]|;
    && end <= |s| && groups[0] == s[start..end]
    && (forall i | start <= i < end :: !CutAt(rule, s, i))
    && if end == |s| then |groups| == 1 else CutAt(rule, s, end) && IsSplit(rule, s, end + 1, groups[1..])
  }

  /** The split of `s` where a group is open since `start` and has no cut before `i`. */
  function Groups(rule: Rule, s: string, start: nat, i: nat): seq<string>
    requires start <= i <= |s|
    decreases |s| - i
  {
    if i == |s| then [s[start..]]
    else if CutAt(rule, s, i) then [s[start..i]] + Groups(rule, s, i + 1, i + 1)
    else Groups(rule, s, start, i + 1)
  }

  function Split(rule: Rule, s: string): seq<string> {
    Groups(rule, s, 0, 0)
  }

  lemma {:induction false} GroupsAreTheSplit(rule: Rule, s: string, start: nat, i: nat, groups: seq<string>)
    requires start <= i <= |s| && forall k | start <= k < i :: !CutAt(rule, s, k)
    ensures IsSplit(rule, s, start, groups) <==> groups == Groups(rule, s, start, i)
    decreases |s| - i
  {
    hide CutAt;
    if i == |s| {
      if IsSplit(rule, s, start, groups) {
        assert groups == [groups[0]];
      }
      assert s[start..] == s[start..|s|];
      assert groups == [s[start..]] ==> groups[0] == s[start..] && start + |groups[0]| == |s|;
    } else if CutAt(rule, s, i) {
      if groups != [] {
        GroupsAreTheSplit(rule, s, i + 1, i + 1, groups[1..]);
        assert groups == [groups[0]] + groups[1..];
      }
    } else {
      GroupsAreTheSplit(rule, s, start, i + 1, groups);
    }
  }

  lemma {:induction false} GroupsJoin(rule: Rule, s: string, start: nat, i: nat)
    requires start <= i <= |s|
    ensures Groups(rule, s, start, i) != [] && Join(Groups(rule, s, start, i), rule.sep) == s[start..]
    decreases |s| - i
  {
    if i == |s| {
    } else if CutAt(rule, s, i) {
      GroupsJoin(rule, s, i + 1, i + 1);
      var rest := Groups(rule, s, i + 1, i + 1);
      assert ([s[start..i]] + rest)[1..] == rest;
      assert s[start..] == s[start..i] + [s[i]] + s[i + 1..];
    } else {
      GroupsJoin(rule, s, start, i + 1);
    }
  }

  /** The split is the one list of groups that lies between the cuts, and joined it gives the string back. */
  lemma {:induction false} SplitExactly(rule: Rule, s: string, groups: seq<string>)
    ensures IsSplit(rule, s, 0, groups) <==> groups == Split(rule, s)
    ensures Join(Split(rule, s), rule.sep) == s
  {
    GroupsAreTheSplit(rule, s, 0, 0, groups);
    GroupsJoin(rule, s, 0, 0);
  }

  // ---- wrongly.c ----

  method NextBalance(balance: nat, c: char, ghost before: string) returns (next: nat)
    requires balance == Balance(before) % (SIZE_MAX + 1)
    ensures next == Balance(before + [c]) % (SIZE_MAX + 1)
  {
    assert (before + [c])[..|before|] == before;
    next := if c == '(' then (balance + 1) % (SIZE_MAX + 1)
            else if c == ')' then (balance + SIZE_MAX) % (SIZE_MAX + 1)
            else balance;
  }

  /** wrongly_parse_layout(): appends the groups; false for a panic of the array. */
  method WronglyParseLayout(layout: string, out: StringArray) returns (ok: bool)
    requires out.Valid()
    modifies out, out.offsets, out.buf, out.buf.data
    ensures ok ==> out.Valid() && out.Contents() == old(out.Contents()) + Split(Outside(','), layout)
  {
    var rule := Outside(',');
    var prev, balance := 0, 0;
    ghost var was := out.Contents();
    assert layout[..0] == "";
    for i := 0 to |layout|
      invariant 0 <= prev <= i && balance == Balance(layout[..i]) % (SIZE_MAX + 1)
      invariant out.Valid() && (out.offsets == old(out.offsets) || fresh(out.offsets))
      invariant out.buf.data == old(out.buf.data) || fresh(out.buf.data)
      invariant out.Contents() + Groups(rule, layout, prev, i) == was + Split(rule, layout)
    {
      var c := layout[i];
      assert layout[..i + 1] == layout[..i] + [c];
      if c == ',' {
        if balance == 0 {
          Associative(out.Contents(), [layout[prev..i]], Groups(rule, layout, i + 1, i + 1));
          ok := out.Append(layout[prev..i]);
          if !ok {
            return;
          }
          prev := i + 1;
        }
      }
      balance := NextBalance(balance, c, layout[..i]);
    }
    ok := out.Append(layout[prev..]);
  }

  // ---- somehow.c ----

  /** An entry of `bad` matches itself, and itself followed by a group in parentheses or a colon. */
  predicate Matches(bad: string, s: string) {
    bad <= s && (|s| == |bad| || s[|bad|] == '(' || s[|bad|] == ':')
  }

  /** bad_matches() */
  method BadMatches(bad: string, s: string) returns (r: bool)
    ensures r <==> Matches(bad, s)
  {
    if |s| >= |bad| && s[..|bad|] == bad {
      if |s| == |bad| {
        return true;
      }
      var c := s[|bad|];
      if c == '(' || c == ':' {
        return true;
      }
    }
    return false;
  }

  /** What is dropped: empty groups, and those that an entry of the comma-separated list matches, if there is a
      list at all. */
  ghost predicate Bad(bad: string, s: string) {
    s == "" || (bad != "" && exists e :: e in Split(Everywhere(','), bad) && Matches(e, s))
  }

  /** strchr() */
  function StrChr(s: string, c: char, start: nat): (r: Option<nat>)
    requires start <= |s|
    ensures match r
            case None => forall i | start <= i < |s| :: s[i] != c
            case Some(k) => start <= k < |s| && s[k] == c && forall i | start <= i < k :: s[i] != c
    decreases |s| - start
  {
    if start == |s| then None else if s[start] == c then Some(start) else StrChr(s, c, start + 1)
  }

  /** check_bad() */
  method CheckBad(bad: string, s: string) returns (r: bool)
    ensures r <==> Bad(bad, s)
  {
    if |s| == 0 {
      return true;
    }
    if bad == "" {
      return false;
    }
    var start := 0;
    var next := StrChr(bad, ',', start);
    ghost var rule, rest := Everywhere(','), Split(Everywhere(','), bad);
    while next.Some?
      invariant start <= |bad| && next == StrChr(bad, ',', start)
      invariant rest == Groups(rule, bad, start, start)
      invariant Bad(bad, s) <==> exists e :: e in rest && Matches(e, s)
      decreases |bad| - start
    {
      FirstGroup(bad, start);
      ghost var first := bad[start..next.value];
      r := BadMatches(bad[start..next.value], s);
      if r {
        assert first in rest;
        return;
      }
      rest := Groups(rule, bad, next.value + 1, next.value + 1);
      start := next.value + 1;
      next := StrChr(bad, ',', start);
    }
    FirstGroup(bad, start);
    r := BadMatches(bad[start..], s);
    assert bad[start..] in rest;
  }

  lemma {:induction false} FirstGroup(bad: string, start: nat)
    requires start <= |bad|
    ensures match StrChr(bad, ',', start)
            case None => Groups(Everywhere(','), bad, start, start) == [bad[start..]]
            case Some(k) => (Groups(Everywhere(','), bad, start, start)
                             == [bad[start..k]] + Groups(Everywhere(','), bad, k + 1, k + 1))
  {
    match StrChr(bad, ',', start)
    case None => NoCuts(bad, start, start, |bad|);
    case Some(k) => NoCuts(bad, start, start, k);
  }

  lemma {:induction false} NoCuts(bad: string, start: nat, i: nat, k: nat)
    requires start <= i <= k <= |bad| && forall j | i <= j < k :: bad[j] != ','
    ensures Groups(Everywhere(','), bad, start, i) == Groups(Everywhere(','), bad, start, k)
    decreases k - i
  {
    if i >= k {
    } else {
      NoCuts(bad, start, i + 1, k);
    }
  }

  ghost function Kept(group: string, bad: string): seq<string> {
    if Bad(bad, group) then [] else [group]
  }

  ghost function Good(groups: seq<string>, bad: string): seq<string> {
    if groups == [] then [] else Kept(groups[0], bad) + Good(groups[1..], bad)
  }

  /** The test and the append that both the separator and the end of the string lead to. */
  method AppendUnlessBad(s: string, out: StringArray, bad: string) returns (ok: bool)
    requires out.Valid()
    modifies out, out.offsets, out.buf, out.buf.data
    ensures ok ==> out.Valid() && (out.offsets == old(out.offsets) || fresh(out.offsets))
    ensures ok ==> out.buf.data == old(out.buf.data) || fresh(out.buf.data)
    ensures ok ==> out.Contents() == old(out.Contents()) + Kept(s, bad)
  {
    var isBad := CheckBad(bad, s);
    ok := true;
    if !isBad {
      ok := out.Append(s);
    }
  }

  /** somehow_parse_symbols(): appends the groups that are not bad. */
  method SomehowParseSymbols(symbols: string, out: StringArray, bad: string) returns (ok: bool)
    requires out.Valid()
    modifies out, out.offsets, out.buf, out.buf.data
    ensures ok ==> out.Valid() && out.Contents() == old(out.Contents()) + Good(Split(Outside('+'), symbols), bad)
  {
    hide Bad, Kept, Good, FirstFit;
    var rule := Outside('+');
    var prev, balance := 0, 0;
    ghost var was := out.Contents();
    assert symbols[..0] == "";
    for i := 0 to |symbols|
      invariant 0 <= prev <= i && balance == Balance(symbols[..i]) % (SIZE_MAX + 1)
      invariant out.Valid() && (out.offsets == old(out.offsets) || fresh(out.offsets))
      invariant out.buf.data == old(out.buf.data) || fresh(out.buf.data)
      invariant out.Contents() + Good(Groups(rule, symbols, prev, i), bad) == was + Good(Split(rule, symbols), bad)
    {
      var c := symbols[i];
      assert symbols[..i + 1] == symbols[..i] + [c];
      if c == '+' {
        if balance == 0 {
          GoodStep(out.Contents(), symbols[prev..i], Groups(rule, symbols, i + 1, i + 1), bad);
          ok := AppendUnlessBad(symbols[prev..i], out, bad);
          if !ok {
            return;
          }
          prev := i + 1;
        }
      }
      balance := NextBalance(balance, c, symbols[..i]);
    }
    GoodStep(out.Contents(), symbols[prev..], [], bad);
    ok := AppendUnlessBad(symbols[prev..], out, bad);
  }

  lemma {:induction false} GoodStep(done: seq<string>, group: string, rest: seq<string>, bad: string)
    ensures done + Good([group] + rest, bad) == done + Kept(group, bad) + Good(rest, bad)
    ensures done + Good([group], bad) == done + Kept(group, bad)
  {
    hide Kept;
    assert ([group] + rest)[1..] == rest && [group][1..] == [];
    assert Kept(group, bad) + [] == Kept(group, bad);
    Associative(done, Kept(group, bad), Good(rest, bad));
  }
}
