/** Putting texts together with a separator, as barlibs do: empty texts are left out. */
module Joining {
  import opened Common

  /** The non-empty texts, with a separator between each two. */
  function Joined(texts: seq<string>, sep: string): string {
    if texts == [] then ""
    else
      var init, last := Joined(texts[..|texts| - 1], sep), texts[|texts| - 1];
      if last == "" then init
      else if init == "" then last
      else init + sep + last
  }

  lemma {:induction false} JoinedSnoc(texts: seq<string>, last: string, sep: string)
    ensures Joined(texts + [last], sep)
         == if last == "" then Joined(texts, sep)
            else if Joined(texts, sep) == "" then last
            else Joined(texts, sep) + sep + last
  {
    assert (texts + [last])[..|texts|] == texts;
  }

  lemma {:induction false} JoinedSingle(text: string, sep: string)
    ensures Joined([text], sep) == text
  {
    NothingJoined(sep);
    JoinedSnoc([], text, sep);
    assert [] + [text] == [text];
  }

  /** Joining in two parts, which are separated if neither is empty. */
  lemma {:induction false} JoinedConcat(a: seq<string>, b: seq<string>, sep: string)
    ensures Joined(a + b, sep)
         == if Joined(a, sep) == "" then Joined(b, sep)
            else if Joined(b, sep) == "" then Joined(a, sep)
            else Joined(a, sep) + (sep + Joined(b, sep))
  {
    hide Joined;
    NothingJoined(sep);
    if b == [] {
      assert a + b == a;
    } else {
      var init, last := b[..|b| - 1], b[|b| - 1];
      assert b == init + [last] && a + b == a + init + [last];
      JoinedConcat(a, init, sep);
      JoinedSnoc(init, last, sep);
      JoinedSnoc(a + init, last, sep);
      Associative(Joined(a, sep), sep, last);
      Associative(Joined(a, sep), sep + Joined(init, sep), sep + last);
      Associative(sep, Joined(init, sep), sep + last);
      Associative(Joined(init, sep), sep, last);
      Associative(Joined(a, sep) + (sep + Joined(init, sep)), sep, last);
    }
  }

  lemma {:induction false} NothingJoined(sep: string)
    ensures Joined([], sep) == ""
  {
  }

  /** All the texts, with a separator between each two. */
  function Interspersed(texts: seq<string>, sep: string): string {
    if texts == [] then ""
    else if |texts| == 1 then texts[0]
    else texts[0] + (sep + Interspersed(texts[1..], sep))
  }

  lemma {:induction false} InterspersedSnoc(texts: seq<string>, last: string, sep: string)
    ensures Interspersed(texts + [last], sep)
         == if texts == [] then last else Interspersed(texts, sep) + sep + last
  {
    if |texts| < 2 {
      assert texts != [] ==> (texts + [last])[1..] == [last];
    } else {
      InterspersedSnoc(texts[1..], last, sep);
      assert (texts + [last])[1..] == texts[1..] + [last];
    }
  }

  /** The texts that are not empty, in their order. */
  function NonEmpty(texts: seq<string>): seq<string> {
    if texts == [] then [] else (if texts[0] != "" then [texts[0]] else []) + NonEmpty(texts[1..])
  }

  lemma {:induction false} JoinedIsInterspersed(texts: seq<string>, sep: string)
    ensures Joined(texts, sep) == Interspersed(NonEmpty(texts), sep)
    ensures Joined(texts, sep) == "" <==> NonEmpty(texts) == []
  {
    if texts == [] {
    } else {
      var first, rest := texts[0], texts[1..];
      JoinedSingle(first, sep);
      assert texts == [first] + rest;
      JoinedConcat([first], rest, sep);
      JoinedIsInterspersed(rest, sep);
      assert NonEmpty(texts) == if first != "" then [first] + NonEmpty(rest) else NonEmpty(rest);
    }
  }

  /** What is in no text and not in the separator is not in what is joined. */
  lemma {:induction false} JoinedWithout(texts: seq<string>, sep: string, c: char)
    requires c !in sep && forall k | 0 <= k < |texts| :: c !in texts[k]
    ensures c !in Joined(texts, sep)
  {
    if texts == [] {
    } else {
      JoinedWithout(texts[..|texts| - 1], sep, c);
    }
  }

  lemma {:induction false} JoinedEmpty(texts: seq<string>, sep: string)
    requires forall k | 0 <= k < |texts| :: texts[k] == ""
    ensures Joined(texts, sep) == ""
  {
    if texts == [] {
    } else {
      JoinedEmpty(texts[..|texts| - 1], sep);
    }
  }

  lemma {:induction false} JoinedOne(texts: seq<string>, sep: string, i: nat)
    requires i < |texts| && texts[i] != ""
    ensures Joined(texts, sep) != ""
  {
    if i == |texts| - 1 {
    } else {
      JoinedOne(texts[..|texts| - 1], sep, i);
    }
  }
}
