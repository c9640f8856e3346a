/**
 The string that a widget shares with its event handler in the separate state: luastatus/comm.c, and
 luastatus.communicate() in luastatus/luastatus.c. Every operation runs under one lock, so a run is the list of
 operations, of whatever threads, in the order of their locking.
 */
module Comm {
  import opened Common
  import opened Wrappers

  datatype Op = Read | ReadAndClear | Write(new_: string) | Cas(old_: string, new_: string)

  datatype Reply = Text(s: string) | Nothing | Verdict(ok: bool)

  /** The new value and the answer of an operation. */
  function Apply(op: Op, s: string): (string, Reply) {
    match op
    case Read => (s, Text(s))
    case ReadAndClear => ("", Text(s))
    case Write(t) => (t, Nothing)
    case Cas(o, t) => if s == o then (t, Verdict(true)) else (s, Verdict(false))
  }

  // ---- The arguments from Lua ----

  // An argument is None if it is neither a string nor a number.

  /** luaL_checklstring() */
  function CheckString(args: seq<Option<string>>, i: nat): Option<string> {
    if i < |args| then args[i] else None
  }

  /** The operation that a call of luastatus.communicate() asks for; None for a Lua error. */
  function Asked(args: seq<Option<string>>): Option<Op> {
    var action, first, second := CheckString(args, 0), CheckString(args, 1), CheckString(args, 2);
    if action == None then None
    else match CString(action.value)
      case "read" => Some(Read)
      case "read_and_clear" => Some(ReadAndClear)
      case "write" => if first == None then None else Some(Write(first.value))
      case "cas" => if first == None || second == None then None else Some(Cas(first.value, second.value))
      case _ => None
  }

  class Cell {
    /** An allocation of exactly `data_len` bytes. */
    var data: array<char>

    constructor ()
      ensures data[..] == "" && fresh(data)
    {
      data := new char[0];
    }

    /** comm_set() */
    method Set(s: string)
      modifies this
      ensures data[..] == s && fresh(data)
    {
      data := new char[|s|](i requires 0 <= i < |s| => s[i]);
    }

    /** comm_cas() */
    method CompareAndSwap(o: string, t: string) returns (ok: bool)
      modifies this
      ensures ok <==> old(data[..]) == o
      ensures data[..] == if ok then t else old(data[..])
    {
      if data.Length != |o| {
        return false;
      }
      for i := 0 to |o|
        invariant data[..i] == o[..i] && data == old(data)
      {
        if data[i] != o[i] {
          assert data[..][i] != o[i];
          return false;
        }
      }
      Set(t);
      ok := true;
    }

    /** l_communicate(), on a cell that is in use; None for a Lua error, which leaves the cell alone. */
    method Communicate(args: seq<Option<string>>) returns (reply: Option<Reply>)
      modifies this
      ensures match Asked(args)
              case None => reply == None && data[..] == old(data[..])
              case Some(op) => reply.Some? && (data[..], reply.value) == Apply(op, old(data[..]))
    {
      var first := CheckString(args, 0);
      if first == None {
        return None;
      }
      var action := CString(first.value);
      if action == "read" {
        reply := Some(Text(data[..]));
      } else if action == "read_and_clear" {
        reply := Some(Text(data[..]));
        Set("");
      } else if action == "write" {
        var s := CheckString(args, 1);
        if s == None {
          return None;
        }
        Set(s.value);
        reply := Some(Nothing);
      } else if action == "cas" {
        var o := CheckString(args, 1);
        if o == None {
          return None;
        }
        var t := CheckString(args, 2);
        if t == None {
          return None;
        }
        var ok := CompareAndSwap(o.value, t.value);
        reply := Some(Verdict(ok));
      } else {
        return None;
      }
    }
  }

  // ---- Runs ----

  /** The value after a run. */
  function After(ops: seq<Op>, s: string): string {
    if ops == [] then s else After(ops[1..], Apply(ops[0], s).0)
  }

  /** How many swaps of a run succeeded. */
  function Swaps(ops: seq<Op>, s: string): nat {
    if ops == [] then 0
    else
      var r := Apply(ops[0], s);
      (if r.1 == Verdict(true) then 1 else 0) + Swaps(ops[1..], r.0)
  }

  /** What the clearing reads of a run returned, together. */
  function Taken(ops: seq<Op>, s: string): string {
    if ops == [] then ""
    else (if ops[0].ReadAndClear? then s else "") + Taken(ops[1..], Apply(ops[0], s).0)
  }

  function Iterated(f: string -> string, n: nat, s: string): string {
    if n == 0 then s else Iterated(f, n - 1, f(s))
  }

  /** No update is lost: where everyone only swaps in f of the value they expect, the value is f applied as many
      times as a swap succeeded, whatever the interleaving and however stale the expectations. */
  lemma {:induction false} NoLostUpdate(ops: seq<Op>, s: string, f: string -> string)
    requires forall op | op in ops :: op.Read? || (op.Cas? && op.new_ == f(op.old_))
    ensures After(ops, s) == Iterated(f, Swaps(ops, s), s)
  {
    if ops == [] {
    } else {
      NoLostUpdate(ops[1..], Apply(ops[0], s).0, f);
    }
  }

  /** The messages that the swaps of a run appended. */
  function Appended(ops: seq<Op>, s: string): string {
    if ops == [] then ""
    else
      (if ops[0].Cas? && s == ops[0].old_ <= ops[0].new_ then ops[0].new_[|s|..] else "")
      + Appended(ops[1..], Apply(ops[0], s).0)
  }

  /** Used as a mailbox, where one side appends by swapping and the other takes all there is, the string loses
      and repeats nothing: what was taken, and what is left, is what there was and what was appended. */
  lemma {:induction false} Mailbox(ops: seq<Op>, s: string)
    requires forall op | op in ops :: op.Read? || op.ReadAndClear? || (op.Cas? && op.old_ <= op.new_)
    ensures Taken(ops, s) + After(ops, s) == s + Appended(ops, s)
  {
    if ops == [] {
    } else {
      var op, next, rest := ops[0], Apply(ops[0], s).0, ops[1..];
      Mailbox(rest, next);
      assert "" + Appended(rest, next) == Appended(rest, next) && "" + Taken(rest, next) == Taken(rest, next);
      if op.ReadAndClear? {
        Associative(s, Taken(rest, ""), After(rest, ""));
      } else if op.Cas? && s == op.old_ {
        var m := op.new_[|s|..];
        assert next == s + m;
        Associative(s, m, Appended(rest, next));
      }
    }
  }

  // ---- What is answered, in terms of what is passed ----

  /** Whether a call asks for this action. */
  predicate Is(args: seq<Option<string>>, action: string) {
    args != [] && args[0].Some? && CString(args[0].value) == action
  }

  /** Whether a call has the strings it needs. */
  predicate WellFormed(args: seq<Option<string>>) {
    || Is(args, "read") || Is(args, "read_and_clear")
    || (Is(args, "write") && |args| > 1 && args[1].Some?)
    || (Is(args, "cas") && |args| > 2 && args[1].Some? && args[2].Some?)
  }

  /** What a call has set the string to, as its reply shows: what was written, or swapped in; or nothing, when it has
      been taken out. */
  function SetBy(args: seq<Option<string>>, reply: Option<Reply>): Option<string> {
    if reply == Some(Nothing) && |args| > 1 then args[1]
    else if reply == Some(Verdict(true)) && |args| > 2 then args[2]
    else if Is(args, "read_and_clear") then Some("")
    else None
  }

  /** What the string was last set to in a run, or what it was before that. */
  function LastSet(s: string, calls: seq<seq<Option<string>>>, replies: seq<Option<Reply>>): string
    requires |calls| == |replies|
  {
    if calls == [] then s
    else
      var n := |calls| - 1;
      var t := SetBy(calls[n], replies[n]);
      if t.Some? then t.value else LastSet(s, calls[..n], replies[..n])
  }

  /** The right reply to a call when the string is `now`. */
  predicate Answers(now: string, args: seq<Option<string>>, reply: Option<Reply>) {
    && (reply.Some? <==> WellFormed(args))
    && (Is(args, "read") || Is(args, "read_and_clear") ==> reply == Some(Text(now)))
    && (WellFormed(args) && Is(args, "write") ==> reply == Some(Nothing))
    && (WellFormed(args) && Is(args, "cas") ==> reply == Some(Verdict(args[1] == Some(now))))
  }

  /** Every reply of a run is right for what the string was last set to before the call. */
  predicate AllAnswered(s: string, calls: seq<seq<Option<string>>>, replies: seq<Option<Reply>>) {
    |calls| == |replies|
    && forall k | 0 <= k < |calls| :: Answers(LastSet(s, calls[..k], replies[..k]), calls[k], replies[k])
  }

  lemma {:induction false} AskedExactly(args: seq<Option<string>>)
    ensures Asked(args).Some? <==> WellFormed(args)
    ensures Asked(args) == Some(Read) <==> Is(args, "read")
    ensures Asked(args) == Some(ReadAndClear) <==> Is(args, "read_and_clear")
    ensures forall t :: Asked(args) == Some(Write(t)) <==> Is(args, "write") && |args| > 1 && args[1] == Some(t)
    ensures forall o, t ::
              Asked(args) == Some(Cas(o, t)) <==>
              Is(args, "cas") && |args| > 2 && args[1] == Some(o) && args[2] == Some(t)
  {
    hide CString;
  }

  /** What luastatus.communicate() answers, and what it sets the string to, is right. */
  lemma {:induction false} OneAnswer(now: string, args: seq<Option<string>>)
    ensures match Asked(args)
            case None => Answers(now, args, None) && SetBy(args, None) == None
            case Some(op) =>
              var (next, reply) := Apply(op, now);
              var t := SetBy(args, Some(reply));
              Answers(now, args, Some(reply)) && next == if t.Some? then t.value else now
  {
    hide CString, Asked;
    AskedExactly(args);
    OneAction(args);
    match Asked(args)
    case Some(Write(t)) =>
    case Some(Cas(o, t)) =>
    case _ =>
  }

  lemma {:induction false} OneAction(args: seq<Option<string>>)
    ensures Is(args, "read") ==> !Is(args, "read_and_clear") && !Is(args, "write") && !Is(args, "cas")
    ensures Is(args, "read_and_clear") ==> !Is(args, "write") && !Is(args, "cas")
    ensures Is(args, "write") ==> !Is(args, "cas")
  {
    assert |"read"| == 4 && |"read_and_clear"| == 14 && |"write"| == 5 && |"cas"| == 3;
  }

  /** One more call of a run. */
  lemma {:induction false} AnsweredSnoc(s: string, calls: seq<seq<Option<string>>>, replies: seq<Option<Reply>>,
                                        args: seq<Option<string>>, reply: Option<Reply>)
    requires AllAnswered(s, calls, replies) && Answers(LastSet(s, calls, replies), args, reply)
    ensures AllAnswered(s, calls + [args], replies + [reply])
    ensures LastSet(s, calls + [args], replies + [reply])
         == var t := SetBy(args, reply); if t.Some? then t.value else LastSet(s, calls, replies)
  {
    hide Answers, SetBy, LastSet;
    var calls', replies' := calls + [args], replies + [reply];
    var n := |calls|;
    assert calls'[..n] == calls && replies'[..n] == replies;
    forall k | 0 <= k < n ensures Answers(LastSet(s, calls'[..k], replies'[..k]), calls'[k], replies'[k]) {
      assert calls'[..k] == calls[..k] && replies'[..k] == replies[..k];
    }
    LastSetStep(s, calls', replies', n);
    assert calls'[..n + 1] == calls' && replies'[..n + 1] == replies';
  }

  /** Any number of calls, one after another: a reader is answered what was last written or swapped in, unless it was
      taken out since; a swap succeeds exactly if that is what it expects. */
  method Session(cell: Cell, calls: seq<seq<Option<string>>>) returns (replies: seq<Option<Reply>>)
    modifies cell
    ensures AllAnswered(old(cell.data[..]), calls, replies)
    ensures cell.data[..] == LastSet(old(cell.data[..]), calls, replies)
  {
    hide AllAnswered, LastSet, Asked, Apply, Answers, SetBy;
    ghost var s := cell.data[..];
    replies := [];
    NothingAnswered(s);
    assert calls[..0] == [];
    for k := 0 to |calls|
      invariant AllAnswered(s, calls[..k], replies) && |replies| == k
      invariant cell.data[..] == LastSet(s, calls[..k], replies)
    {
      OneAnswer(cell.data[..], calls[k]);
      var reply := cell.Communicate(calls[k]);
      AnsweredSnoc(s, calls[..k], replies, calls[k], reply);
      assert calls[..k + 1] == calls[..k] + [calls[k]];
      replies := replies + [reply];
    }
    assert calls[..|calls|] == calls;
  }

  lemma {:induction false} NothingAnswered(s: string)
    ensures AllAnswered(s, [], []) && LastSet(s, [], []) == s
  {
  }

  lemma {:induction false} CStringPlain(s: string)
    requires '\0' !in s
    ensures CString(s) == s
  {
    if s == "" {
    } else {
      CStringPlain(s[1..]);
    }
  }

  /** A swap between two reads succeeds exactly if the first one is answered what the swap expects, and the second one
      is then answered what was swapped in, and otherwise the same as the first. */
  lemma {:induction false} ReadsAroundSwap(s: string, calls: seq<seq<Option<string>>>, replies: seq<Option<Reply>>,
                                           k: nat, o: string, t: string)
    requires AllAnswered(s, calls, replies) && k + 2 < |calls|
    requires Is(calls[k], "read") && Is(calls[k + 2], "read")
    requires Is(calls[k + 1], "cas") && |calls[k + 1]| > 2 && calls[k + 1][1] == Some(o) && calls[k + 1][2] == Some(t)
    ensures replies[k + 1] == Some(Verdict(replies[k] == Some(Text(o))))
    ensures replies[k + 2] == if replies[k] == Some(Text(o)) then Some(Text(t)) else replies[k]
  {
    hide CString;
    LastSetStep(s, calls, replies, k);
    LastSetStep(s, calls, replies, k + 1);
    assert Answers(LastSet(s, calls[..k], replies[..k]), calls[k], replies[k]);
    assert Answers(LastSet(s, calls[..k + 1], replies[..k + 1]), calls[k + 1], replies[k + 1]);
    assert Answers(LastSet(s, calls[..k + 2], replies[..k + 2]), calls[k + 2], replies[k + 2]);
  }

  lemma {:induction false} LastSetStep(s: string, calls: seq<seq<Option<string>>>, replies: seq<Option<Reply>>, k: nat)
    requires |calls| == |replies| && k < |calls|
    ensures LastSet(s, calls[..k + 1], replies[..k + 1])
         == var t := SetBy(calls[k], replies[k]); if t.Some? then t.value else LastSet(s, calls[..k], replies[..k])
  {
    hide SetBy;
    assert calls[..k + 1][..k] == calls[..k] && replies[..k + 1][..k] == replies[..k];
  }
}
