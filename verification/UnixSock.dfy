/**
 The unixsock plugin's server (plugins/unixsock/server.c) and the order in which its loop uses it
 (plugins/unixsock/unixsock.c). What poll(), read() and accept() give is input.
 */
module UnixSock {
  import opened Common
  import opened Wrappers

  const NCHUNK: nat := 1024

  /** A client; its descriptor is negative after it has been dropped. */
  datatype Client = Client(fd: int, buf: string)

  datatype PollFd = PollFd(fd: int, revents: bool)

  /** A report of a line. Lua code gets the line only; the descriptor tells here which client it came from. */
  datatype Report = Report(fd: int, line: string)

  datatype ReadResult = Again | Failed | Eof | Bytes(s: string)

  predicate IsDropped(c: Client) {
    c.fd < 0
  }

  predicate Readable(r: ReadResult) {
    r.Bytes? ==> 1 <= |r.s| <= NCHUNK
  }

  lemma {:induction false} UpdateTwice(cs: seq<Client>, i: nat, c: Client, d: Client)
    requires i < |cs|
    ensures cs[i := c][i := d] == cs[i := d] && cs[i := cs[i]] == cs
  {
  }

  // ---- Clients that are left, and their descriptors ----

  function Live(cs: seq<Client>): seq<Client> {
    if cs == [] then []
    else
      var n := |cs| - 1;
      Live(cs[..n]) + if IsDropped(cs[n]) then [] else [cs[n]]
  }

  function FdOf(c: Client): multiset<int> {
    if IsDropped(c) then multiset{} else multiset{c.fd}
  }

  function Fds(cs: seq<Client>): multiset<int> {
    if cs == [] then multiset{}
    else
      var n := |cs| - 1;
      Fds(cs[..n]) + FdOf(cs[n])
  }

  lemma {:induction false} LiveStep(cs: seq<Client>, i: nat)
    requires i <= |cs|
    ensures i == 0 ==> Live(cs[..i]) == []
    ensures i < |cs| ==> Live(cs[..i + 1]) == if IsDropped(cs[i]) then Live(cs[..i]) else Live(cs[..i]) + [cs[i]]
  {
    if i < |cs| {
      assert cs[..i + 1][..i] == cs[..i] && Live(cs[..i]) + [] == Live(cs[..i]);
    }
  }

  lemma {:induction false} FdsSnoc(cs: seq<Client>, c: Client)
    ensures Fds(cs + [c]) == Fds(cs) + FdOf(c)
  {
    assert (cs + [c])[..|cs|] == cs;
  }

  lemma {:induction false} LiveFds(cs: seq<Client>)
    ensures Fds(Live(cs)) == Fds(cs) && |Live(cs)| <= |cs|
    ensures forall c :: c in Live(cs) <==> c in cs && !IsDropped(c)
  {
    hide Fds;
    if cs == [] {
      assert Live(cs) == cs;
    } else {
      var n := |cs| - 1;
      var front, last := cs[..n], if IsDropped(cs[n]) then [] else [cs[n]];
      LiveFds(front);
      FdsSnoc(front, cs[n]);
      FdsSnoc(Live(front), cs[n]);
      assert cs == front + [cs[n]] && Live(front) + [] == Live(front);
      assert Live(cs) == Live(front) + last;
    }
  }

  lemma {:induction false} Exchanged(a: multiset<int>, x: int, b: multiset<int>, more: multiset<int>)
    requires x in a
    ensures a - multiset{x} + b + more == a + more - multiset{x} + b
  {
  }

  lemma {:induction false} FdsUpdate(cs: seq<Client>, i: nat, c: Client)
    requires i < |cs| && !IsDropped(cs[i])
    ensures cs[i].fd in Fds(cs) && Fds(cs[i := c]) == Fds(cs) - multiset{cs[i].fd} + FdOf(c)
  {
    hide Fds;
    var n, fd := |cs| - 1, cs[i].fd;
    var front, last := cs[..n], cs[n];
    assert cs == front + [last];
    FdsSnoc(front, last);
    hide FdOf;
    if i < n {
      FdsUpdate(front, i, c);
      FdsSnoc(front[i := c], last);
      Exchanged(Fds(front), fd, FdOf(c), FdOf(last));
      assert cs[i := c] == front[i := c] + [last];
    } else {
      FdsSnoc(front, c);
      Removed(Fds(front), fd);
      assert cs[i := c] == front + [c];
    }
  }

  lemma {:induction false} Removed(a: multiset<int>, x: int)
    ensures a + multiset{x} - multiset{x} == a
  {
  }

  /** The descriptors of clients: those open now, and all that were ever accepted or closed. */
  datatype Ledger = Ledger(open: multiset<int>, accepted: multiset<int>, closed: multiset<int>)

  /** What is open is what the clients have, each descriptor once, and what was accepted but not closed. */
  ghost predicate Balanced(l: Ledger, cs: seq<Client>) {
    && l.open == Fds(cs)
    && l.accepted == l.closed + l.open
    && (forall fd :: l.open[fd] <= 1)
    && (forall fd | fd in l.open :: fd >= 0)
  }

  function Closing(l: Ledger, fd: int): Ledger {
    l.(open := l.open - multiset{fd}, closed := l.closed + multiset{fd})
  }

  function Accepting(l: Ledger, fd: int): Ledger {
    l.(open := l.open + multiset{fd}, accepted := l.accepted + multiset{fd})
  }

  lemma {:induction false} BalancedRead(l: Ledger, cs: seq<Client>, i: nat, buf: string)
    requires Balanced(l, cs) && i < |cs| && !IsDropped(cs[i])
    ensures Balanced(l, cs[i := Client(cs[i].fd, buf)])
  {
    FdsUpdate(cs, i, Client(cs[i].fd, buf));
  }

  /** Closing a client's descriptor closes one that is open. */
  lemma {:induction false} BalancedDrop(l: Ledger, cs: seq<Client>, i: nat)
    requires Balanced(l, cs) && i < |cs| && !IsDropped(cs[i])
    ensures cs[i].fd in l.open && Balanced(Closing(l, cs[i].fd), cs[i := Client(-1, "")])
  {
    hide Fds;
    FdsUpdate(cs, i, Client(-1, ""));
    var fd := cs[i].fd;
    assert Fds(cs) - multiset{fd} + multiset{} == Fds(cs) - multiset{fd};
    assert l.closed + multiset{fd} + (l.open - multiset{fd}) == l.closed + l.open;
  }

  lemma {:induction false} BalancedAdd(l: Ledger, cs: seq<Client>, fd: nat)
    requires Balanced(l, cs) && fd !in l.open
    ensures Balanced(Accepting(l, fd), cs + [Client(fd, "")])
  {
    assert (cs + [Client(fd, "")])[..|cs|] == cs;
  }

  lemma {:induction false} BalancedLive(l: Ledger, cs: seq<Client>)
    requires Balanced(l, cs)
    ensures Balanced(l, Live(cs)) && |Live(cs)| <= |cs|
    ensures forall c :: c in Live(cs) <==> c in cs && !IsDropped(c)
  {
    LiveFds(cs);
  }

  // ---- Lines ----

  /** The position of the first newline; the length if there is none. */
  function LineEnd(s: string): (n: nat)
    ensures n <= |s| && (n < |s| ==> s[n] == '\n') && forall k | 0 <= k < n :: s[k] != '\n'
  {
    if s == "" || s[0] == '\n' then 0 else 1 + LineEnd(s[1..])
  }

  predicate HasLine(s: string) {
    LineEnd(s) < |s|
  }

  function Line(s: string): string {
    s[..LineEnd(s)]
  }

  lemma {:induction false} LineEndUnique(s: string, n: nat)
    requires n <= |s| && (n < |s| ==> s[n] == '\n') && forall k | 0 <= k < n :: s[k] != '\n'
    ensures LineEnd(s) == n
  {
  }

  lemma {:induction false} LineOfPrefix(a: string, b: string)
    ensures HasLine(a) ==> HasLine(a + b) && Line(a + b) == Line(a)
  {
    if HasLine(a) {
      LineEndUnique(a + b, LineEnd(a));
    }
  }

  // ---- What reading from a client comes to ----

  /** A client after its turn in the loop, and the line reported, if any. */
  function Turn(c: Client, r: ReadResult): (Client, Option<string>) {
    match r
    case Again => (c, None)
    case Failed => (Client(-1, ""), None)
    case Eof => (Client(-1, ""), None)
    case Bytes(s) =>
      var buf := c.buf + s;
      if HasLine(buf) then (Client(-1, ""), Some(Line(buf))) else (Client(c.fd, buf), None)
  }

  /** Clients that poll() says nothing about are left alone. */
  function AfterTurn(c: Client, ready: bool, r: ReadResult): Client {
    if ready then Turn(c, r).0 else c
  }

  /** The line that a turn reports, if any. */
  function LineOf(c: Client, ready: bool, r: ReadResult): seq<Report> {
    if ready && Turn(c, r).1.Some? then [Report(c.fd, Turn(c, r).1.value)] else []
  }

  function Reported(cs: seq<Client>, ready: seq<bool>, got: seq<ReadResult>): seq<Report>
    requires |ready| == |got| == |cs|
  {
    if cs == [] then []
    else
      var n := |cs| - 1;
      Reported(cs[..n], ready[..n], got[..n]) + LineOf(cs[n], ready[n], got[n])
  }

  function AfterTurns(cs: seq<Client>, ready: seq<bool>, got: seq<ReadResult>): seq<Client>
    requires |ready| == |got| == |cs|
  {
    seq(|cs|, i requires 0 <= i < |cs| => AfterTurn(cs[i], ready[i], got[i]))
  }

  /** The line reported for a client, over any number of turns. */
  function LineReported(c: Client, got: seq<ReadResult>): Option<string>
    decreases |got|
  {
    if got == [] || IsDropped(c) then None
    else
      var (c', line) := Turn(c, got[0]);
      if line.Some? then line else LineReported(c', got[1..])
  }

  /** The bytes received from a client before it goes away. */
  function Received(got: seq<ReadResult>): string
    decreases |got|
  {
    if got == [] then ""
    else match got[0]
      case Again => Received(got[1..])
      case Bytes(s) => s + Received(got[1..])
      case _ => ""
  }

  /** However the bytes are split over reads, the line reported is what comes before the first newline
      of all that is received; there is none if no newline comes. */
  lemma {:induction false} ChunkingDoesNotMatter(c: Client, got: seq<ReadResult>)
    requires !IsDropped(c) && !HasLine(c.buf)
    ensures var all := c.buf + Received(got);
      LineReported(c, got) == if HasLine(all) then Some(Line(all)) else None
    decreases |got|
  {
    if got == [] {
      assert c.buf + "" == c.buf;
    } else {
      match got[0]
      case Again => ChunkingDoesNotMatter(c, got[1..]);
      case Bytes(s) =>
        var buf, rest := c.buf + s, Received(got[1..]);
        assert c.buf + (s + rest) == buf + rest;
        LineOfPrefix(buf, rest);
        if !HasLine(buf) {
          ChunkingDoesNotMatter(Client(c.fd, buf), got[1..]);
        }
      case _ => assert c.buf + "" == c.buf;
    }
  }

  datatype AcceptResult = NobodyThere | AcceptFailed | NewClient(fd: nat)

  /** What the system delivers in a round: whether somebody wants to connect, what poll() says about each client,
      and what read() would give for each client and accept(). */
  datatype Input = Input(srvReady: bool, ready: seq<bool>, got: seq<ReadResult>, accept: AcceptResult)

  /** How a round of the loop ends. */
  datatype Outcome = GoesOn | FatalError | AssertionFails

  /** A new descriptor is none of those still open. */
  ghost predicate Fits(cs: seq<Client>, x: Input) {
    && |x.ready| == |x.got| == |cs|
    && (forall i | 0 <= i < |cs| :: Readable(x.got[i]))
    && (x.accept.NewClient? ==> x.accept.fd !in Fds(AfterTurns(cs, x.ready, x.got)))
  }

  /** A full server accepts nobody. */
  predicate Accepts(cs: seq<Client>, x: Input, maxClients: nat) {
    x.srvReady && |cs| < maxClients
  }

  /** A round fails an assertion exactly if a client is accepted in the same round in which one was dropped: the
      new client is added before the dropped ones are removed. */
  ghost function EndOf(cs: seq<Client>, x: Input, maxClients: nat): Outcome
    requires |x.ready| == |x.got| == |cs|
  {
    if !Accepts(cs, x, maxClients) then GoesOn
    else if x.accept.AcceptFailed? then FatalError
    else if x.accept.NewClient? && exists c :: c in AfterTurns(cs, x.ready, x.got) && IsDropped(c) then AssertionFails
    else GoesOn
  }

  /** The descriptors accepted in a round. */
  function Accepted(cs: seq<Client>, x: Input, maxClients: nat): multiset<int> {
    if Accepts(cs, x, maxClients) && x.accept.NewClient? then multiset{x.accept.fd} else multiset{}
  }

  /** The clients after a round that goes on. */
  function NextClients(cs: seq<Client>, x: Input, maxClients: nat): seq<Client>
    requires |x.ready| == |x.got| == |cs|
  {
    Live(AfterTurns(cs, x.ready, x.got))
    + if Accepts(cs, x, maxClients) && x.accept.NewClient? then [Client(x.accept.fd, "")] else []
  }

  class Server {
    const maxClients: nat
    var clients: seq<Client>
    var pfds: seq<PollFd>
    ghost var fds: Ledger

    /** No descriptor is lost or used twice. */
    ghost predicate Valid()
      reads this
    {
      |pfds| == |clients| + 1 && |clients| <= maxClients && Balanced(fds, clients)
    }

    /** Clients that are left have not sent a newline. */
    ghost predicate NoLines()
      reads this
    {
      forall i | 0 <= i < |clients| && !IsDropped(clients[i]) :: !HasLine(clients[i].buf)
    }

    ghost predicate NoneDropped()
      reads this
    {
      forall i | 0 <= i < |clients| :: !IsDropped(clients[i])
    }

    /** The descriptors poll() looks at are those of the clients. */
    ghost predicate Synced()
      reads this
    {
      |pfds| == |clients| + 1 && forall i | 0 <= i < |clients| :: pfds[i + 1].fd == clients[i].fd
    }

    constructor (maxClients: nat)
      ensures Valid() && NoLines() && NoneDropped() && Synced()
      ensures clients == [] && fds.accepted == multiset{} && this.maxClients == maxClients
    {
      this.maxClients := maxClients;
      clients, pfds := [], [PollFd(-1, false)];
      fds := Ledger(multiset{}, multiset{}, multiset{});
    }

    /** server_poll(): a full server does not poll its own descriptor. */
    method Poll(srvFd: nat, srvReady: bool, ready: seq<bool>) returns (canAccept: bool)
      requires Valid() && Synced() && |ready| == |clients|
      modifies this`pfds
      ensures Valid() && Synced() && (canAccept <==> srvReady && |clients| < maxClients)
      ensures canAccept <==> pfds[0].revents
      ensures pfds[0].fd == if |clients| == maxClients then -1 else srvFd
      ensures forall i | 0 <= i < |clients| :: pfds[i + 1].revents == ready[i]
    {
      var full := |clients| == maxClients;
      var p0 := PollFd(if full then -1 else srvFd, srvReady && !full);
      pfds := [p0] + seq(|clients|, i requires 0 <= i < |clients| reads this requires |pfds| == |clients| + 1
                                      => PollFd(pfds[i + 1].fd, i < |ready| && ready[i]));
      canAccept := pfds[0].revents;
    }

    /** find_newline(): looks only at the last `n` bytes. */
    method FindNewline(buf: string, n: nat) returns (found: bool)
      requires 0 < n <= |buf| && !HasLine(buf[..|buf| - n])
      ensures found <==> HasLine(buf)
    {
      var start := |buf| - n;
      var k := start;
      assert forall m | 0 <= m < start :: buf[..start][m] == buf[m];
      while k < |buf| && buf[k] != '\n'
        invariant start <= k <= |buf|
        invariant forall m | 0 <= m < k :: buf[m] != '\n'
      {
        k := k + 1;
      }
      LineEndUnique(buf, k);
      found := k < |buf|;
    }

    /** server_read_from_client(): 1 if a full line is there, -1 if the client is gone, else 0. */
    method ReadFromClient(i: nat, r: ReadResult) returns (rc: int)
      requires Valid() && i < |clients| && !IsDropped(clients[i]) && !HasLine(clients[i].buf) && Readable(r)
      modifies this`clients
      ensures Valid()
      ensures clients == if pfds[i + 1].revents && r.Bytes?
                         then old(clients)[i := Client(old(clients)[i].fd, old(clients)[i].buf + r.s)]
                         else old(clients)
      ensures rc == if !pfds[i + 1].revents || r.Again? then 0
                    else if !r.Bytes? then -1
                    else if HasLine(clients[i].buf) then 1 else 0
    {
      hide Balanced;
      if !pfds[i + 1].revents {
        return 0;
      }
      match r {
        case Again => return 0;
        case Failed => return -1;
        case Eof => return -1;
        case Bytes(s) =>
          var c := clients[i];
          BalancedRead(fds, clients, i, c.buf + s);
          clients := clients[i := Client(c.fd, c.buf + s)];
          assert (c.buf + s)[..|c.buf + s| - |s|] == c.buf;
          var found := FindNewline(clients[i].buf, |s|);
          return if found then 1 else 0;
      }
    }

    /** server_get_full_line(): its assertions are the precondition. */
    method GetFullLine(i: nat) returns (line: string)
      requires i < |clients| && HasLine(clients[i].buf)
      ensures line == Line(clients[i].buf)
    {
      var data := clients[i].buf;
      var n := 0;
      while data[n] != '\n'
        invariant 0 <= n < |data| && n <= LineEnd(data)
        decreases |data| - n
      {
        n := n + 1;
      }
      LineEndUnique(data, n);
      line := data[..n];
    }

    /** server_drop_client() */
    method DropClient(i: nat)
      requires Valid() && i < |clients| && !IsDropped(clients[i])
      modifies this`clients, this`fds
      ensures Valid() && clients == old(clients)[i := Client(-1, "")]
      ensures old(clients)[i].fd in old(fds).open && fds == Closing(old(fds), old(clients)[i].fd)
    {
      hide Balanced;
      BalancedDrop(fds, clients, i);
      fds := Closing(fds, clients[i].fd);
      clients := clients[i := Client(-1, "")];
    }

    /** set_nclients(); new elements are not initialized. */
    method SetNClients(n: nat)
      requires |pfds| == |clients| + 1
      modifies this`clients, this`pfds
      ensures |clients| == n && |pfds| == n + 1
      ensures forall i | 0 <= i < n && i < |old(clients)| :: clients[i] == old(clients)[i]
    {
      if |clients| == n {
        return;
      }
      clients := if n < |clients| then clients[..n] else clients + seq(n - |clients|, i => Client(-1, ""));
      pfds := if n + 1 < |pfds| then pfds[..n + 1] else pfds + seq(n + 1 - |pfds|, i => PollFd(-1, false));
    }

    /** update_pfds() asserts that no client is dropped. */
    method UpdatePfds()
      requires NoneDropped() && |pfds| == |clients| + 1
      modifies this`pfds
      ensures Synced()
    {
      for i := 0 to |clients|
        invariant |pfds| == |clients| + 1
        invariant forall k | 0 <= k < i :: pfds[k + 1].fd == clients[k].fd
      {
        pfds := pfds[i + 1 := PollFd(clients[i].fd, false)];
      }
    }

    /** add_client() */
    method AddClient(fd: nat)
      requires Valid() && NoneDropped() && NoLines() && fd !in fds.open && |clients| < maxClients
      modifies this
      ensures Valid() && NoneDropped() && NoLines() && Synced()
      ensures clients == old(clients) + [Client(fd, "")]
      ensures fds == Accepting(old(fds), fd)
    {
      hide Balanced;
      BalancedAdd(fds, clients, fd);
      ghost var before := clients;
      SetNClients(|clients| + 1);
      clients := clients[|clients| - 1 := Client(fd, "")];
      assert clients == before + [Client(fd, "")];
      fds := Accepting(fds, fd);
      UpdatePfds();
    }

    /** server_compact(): the clients that are left move to the front, in order. */
    method Compact()
      requires Valid() && NoLines()
      modifies this`clients, this`pfds
      ensures Valid() && NoneDropped() && NoLines() && Synced()
      ensures clients == Live(old(clients))
    {
      hide Balanced, HasLine, Live;
      ghost var before := clients;
      var j := 0;
      LiveStep(before, 0);
      for i := 0 to |clients|
        invariant 0 <= j <= i && |clients| == |before| && |pfds| == |before| + 1
        invariant clients[..j] == Live(before[..i])
        invariant clients[i..] == before[i..]
      {
        LiveStep(before, i);
        assert clients[i..][0] == before[i..][0];
        assert before[i..][1..] == before[i + 1..] && clients[i..][1..] == clients[i + 1..];
        if !IsDropped(clients[i]) {
          ghost var front := clients[..j];
          clients := clients[j := clients[i]];
          assert clients[..j + 1] == front + [before[i]];
          j := j + 1;
        }
      }
      assert before[..|before|] == before;
      ghost var kept := clients[..j];
      BalancedLive(fds, before);
      SetNClients(j);
      assert clients == kept;
      assert forall i | 0 <= i < |clients| :: clients[i] in kept;
      UpdatePfds();
    }

    /** The turn of one client. */
    method TakeTurn(i: nat, r: ReadResult) returns (reports: seq<Report>)
      requires Valid() && i < |clients| && !IsDropped(clients[i]) && !HasLine(clients[i].buf)
      requires Readable(r)
      modifies this`clients, this`fds
      ensures Valid() && clients == old(clients)[i := AfterTurn(old(clients)[i], pfds[i + 1].revents, r)]
      ensures IsDropped(clients[i]) || !HasLine(clients[i].buf)
      ensures fds == if IsDropped(clients[i]) then Closing(old(fds), old(clients)[i].fd) else old(fds)
      ensures reports == LineOf(old(clients)[i], pfds[i + 1].revents, r)
    {
      hide Balanced, LineEnd, HasLine, Line;
      UpdateTwice(clients, i, Client(clients[i].fd, if r.Bytes? then clients[i].buf + r.s else ""), Client(-1, ""));
      reports := [];
      if pfds[i + 1].revents {
        var rc := ReadFromClient(i, r);
        if rc < 0 {
          DropClient(i);
        } else if rc > 0 {
          var line := GetFullLine(i);
          reports := [Report(clients[i].fd, line)];
          DropClient(i);
        }
      }
    }

    /** The reading part of a round; every client has its turn. Descriptors are only closed. */
    method ReadAll(ready: seq<bool>, got: seq<ReadResult>) returns (reports: seq<Report>)
      requires Valid() && NoLines() && NoneDropped() && |ready| == |got| == |clients|
      requires forall i | 0 <= i < |got| :: Readable(got[i]) && pfds[i + 1].revents == ready[i]
      modifies this`clients, this`fds
      ensures Valid() && NoLines() && clients == AfterTurns(old(clients), ready, got)
      ensures fds.accepted == old(fds).accepted
      ensures reports == Reported(old(clients), ready, got)
    {
      hide Balanced, HasLine, AfterTurn, LineOf;
      ghost var before := clients;
      reports := [];
      for i := 0 to |clients|
        invariant Valid() && |clients| == |before| && NoLines() && fds.accepted == old(fds).accepted
        invariant forall k | 0 <= k < i :: clients[k] == AfterTurn(before[k], ready[k], got[k])
        invariant forall k | i <= k < |before| :: clients[k] == before[k]
        invariant reports == Reported(before[..i], ready[..i], got[..i])
      {
        assert before[..i + 1][..i] == before[..i] && ready[..i + 1][..i] == ready[..i]
               && got[..i + 1][..i] == got[..i];
        var more := TakeTurn(i, got[i]);
        reports := reports + more;
      }
      assert before[..|before|] == before && ready[..|before|] == ready && got[..|before|] == got;
    }

    /** One round: poll, read from every client that is ready, accept, compact. If it goes on, the descriptors open
        are those that were, and the one accepted, without those closed, each of which was open. */
    method Round(srvFd: nat, x: Input) returns (outcome: Outcome, reports: seq<Report>)
      requires Valid() && NoLines() && NoneDropped() && Synced() && Fits(clients, x)
      modifies this
      ensures reports == Reported(old(clients), x.ready, x.got)
      ensures outcome == EndOf(old(clients), x, maxClients)
      ensures outcome == GoesOn ==>
                && Valid() && NoLines() && NoneDropped() && Synced()
                && clients == NextClients(old(clients), x, maxClients)
                && fds.accepted == old(fds).accepted + Accepted(old(clients), x, maxClients)
    {
      hide Balanced, HasLine;
      var canAccept := Poll(srvFd, x.srvReady, x.ready);
      reports := ReadAll(x.ready, x.got);
      ghost var after := clients;
      if canAccept {
        if x.accept.AcceptFailed? {
          return FatalError, reports;
        }
        if x.accept.NewClient? {
          if i: nat :| i < |clients| && IsDropped(clients[i]) {
            assert clients[i] in after;
            return AssertionFails, reports; // in update_pfds()
          }
          FreshMeansClosed(fds, clients, x.accept.fd);
          AddClient(x.accept.fd);
          LiveOfLive(after);
          LiveOfLive(clients);
        }
      }
      Compact();
      outcome := GoesOn;
    }

    /** The loop of run(), for as long as there is input. */
    method Serve(srvFd: nat, inputs: seq<Input>) returns (outcome: Outcome, reports: seq<Report>)
      requires Valid() && NoLines() && NoneDropped() && Synced() && FitsRun(clients, inputs, maxClients)
      modifies this
      ensures reports == RunReports(old(clients), inputs, maxClients)
      ensures outcome == RunEnd(old(clients), inputs, maxClients)
      ensures outcome == GoesOn ==>
                && Valid() && NoLines() && NoneDropped() && Synced()
                && fds.accepted == old(fds).accepted + RunAccepted(old(clients), inputs, maxClients)
    {
      hide Balanced, HasLine, Reported, AfterTurns, Live, EndOf, NextClients, Accepted, Fits;
      reports := [];
      for i := 0 to |inputs|
        invariant Valid() && NoLines() && NoneDropped() && Synced() && FitsRun(clients, inputs[i..], maxClients)
        invariant reports + RunReports(clients, inputs[i..], maxClients) == RunReports(old(clients), inputs, maxClients)
        invariant RunEnd(clients, inputs[i..], maxClients) == RunEnd(old(clients), inputs, maxClients)
        invariant fds.accepted + RunAccepted(clients, inputs[i..], maxClients)
               == old(fds).accepted + RunAccepted(old(clients), inputs, maxClients)
      {
        assert inputs[i..][1..] == inputs[i + 1..];
        ghost var was, rest := clients, inputs[i..];
        var more;
        outcome, more := Round(srvFd, inputs[i]);
        RunStep(reports, was, rest, maxClients);
        reports := reports + more;
        if outcome != GoesOn {
          return;
        }
      }
      outcome := GoesOn;
    }
  }

  lemma {:induction false} FreshMeansClosed(l: Ledger, cs: seq<Client>, fd: nat)
    requires Balanced(l, cs) && fd !in Fds(cs)
    ensures fd !in l.open
  {
  }

  lemma {:induction false} LiveOfLive(cs: seq<Client>)
    requires forall i | 0 <= i < |cs| :: !IsDropped(cs[i])
    ensures Live(cs) == cs
  {
    if cs == [] {
    } else {
      LiveOfLive(cs[..|cs| - 1]);
    }
  }

  // ---- Runs ----

  ghost predicate FitsRun(cs: seq<Client>, inputs: seq<Input>, maxClients: nat)
    decreases |inputs|
  {
    inputs == []
    || (Fits(cs, inputs[0])
        && (EndOf(cs, inputs[0], maxClients) == GoesOn ==>
              FitsRun(NextClients(cs, inputs[0], maxClients), inputs[1..], maxClients)))
  }

  ghost function RunEnd(cs: seq<Client>, inputs: seq<Input>, maxClients: nat): Outcome
    requires FitsRun(cs, inputs, maxClients)
    decreases |inputs|
  {
    if inputs == [] then GoesOn
    else
      var end := EndOf(cs, inputs[0], maxClients);
      if end == GoesOn then RunEnd(NextClients(cs, inputs[0], maxClients), inputs[1..], maxClients) else end
  }

  ghost function RunReports(cs: seq<Client>, inputs: seq<Input>, maxClients: nat): seq<Report>
    requires FitsRun(cs, inputs, maxClients)
    decreases |inputs|
  {
    if inputs == [] then []
    else
      Reported(cs, inputs[0].ready, inputs[0].got)
      + if EndOf(cs, inputs[0], maxClients) != GoesOn then []
        else RunReports(NextClients(cs, inputs[0], maxClients), inputs[1..], maxClients)
  }

  ghost function RunAccepted(cs: seq<Client>, inputs: seq<Input>, maxClients: nat): multiset<int>
    requires FitsRun(cs, inputs, maxClients)
    decreases |inputs|
  {
    if inputs == [] || EndOf(cs, inputs[0], maxClients) != GoesOn then multiset{}
    else
      Accepted(cs, inputs[0], maxClients)
      + RunAccepted(NextClients(cs, inputs[0], maxClients), inputs[1..], maxClients)
  }

  lemma {:induction false} RunStep(done: seq<Report>, cs: seq<Client>, inputs: seq<Input>, maxClients: nat)
    requires inputs != [] && FitsRun(cs, inputs, maxClients)
    ensures var more := Reported(cs, inputs[0].ready, inputs[0].got);
      done + RunReports(cs, inputs, maxClients)
      == if EndOf(cs, inputs[0], maxClients) != GoesOn then done + more
         else done + more + RunReports(NextClients(cs, inputs[0], maxClients), inputs[1..], maxClients)
  {
    hide Fits, EndOf, NextClients, Reported;
  }

  /** The loop does fail the assertion: a client connects, and in the next round disconnects while another one
      connects. */
  lemma {:induction false} AssertionCanFail(maxClients: nat) returns (inputs: seq<Input>)
    requires maxClients >= 2
    ensures FitsRun([], inputs, maxClients) && RunEnd([], inputs, maxClients) == AssertionFails
  {
    var first, second := Input(true, [], [], NewClient(3)), Input(true, [true], [Eof], NewClient(4));
    inputs := [first, second];
    var cs := [Client(3, "")];
    assert NextClients([], first, maxClients) == cs;
    var after := AfterTurns(cs, [true], [Eof]);
    assert after == [Client(-1, "")] && after[..0] == [];
    assert Fds(after) == multiset{} && after[0] in after;
    assert inputs[1..] == [second];
  }

  lemma {:induction false} SingleClientIsSafe(cs: seq<Client>, inputs: seq<Input>, maxClients: nat)
    requires maxClients <= 1 && FitsRun(cs, inputs, maxClients)
    ensures RunEnd(cs, inputs, maxClients) != AssertionFails
    decreases |inputs|
  {
    if inputs == [] {
    } else if EndOf(cs, inputs[0], maxClients) == GoesOn {
      SingleClientIsSafe(NextClients(cs, inputs[0], maxClients), inputs[1..], maxClients);
    }
  }

  /** A server can come to fail the assertion if and only if it is for more than one client. */
  lemma {:induction false} AssertionFailsExactly(maxClients: nat)
    ensures (exists inputs :: FitsRun([], inputs, maxClients) && RunEnd([], inputs, maxClients) == AssertionFails)
            <==> maxClients >= 2
  {
    if maxClients >= 2 {
      var inputs := AssertionCanFail(maxClients);
    } else {
      forall inputs | FitsRun([], inputs, maxClients) ensures RunEnd([], inputs, maxClients) != AssertionFails {
        SingleClientIsSafe([], inputs, maxClients);
      }
    }
  }

  // ---- One descriptor, over a run ----

  function OneOn(c: Client, fd: nat): seq<Client> {
    if c.fd == fd then [c] else []
  }

  /** The clients with a descriptor. */
  function On(cs: seq<Client>, fd: nat): seq<Client> {
    if cs == [] then [] else On(cs[..|cs| - 1], fd) + OneOn(cs[|cs| - 1], fd)
  }

  function ReportOn(r: Report, fd: nat): seq<Report> {
    if r.fd == fd then [r] else []
  }

  /** The reports about a descriptor. */
  function ReportsOn(reports: seq<Report>, fd: nat): seq<Report> {
    if reports == [] then [] else ReportsOn(reports[..|reports| - 1], fd) + ReportOn(reports[|reports| - 1], fd)
  }

  lemma {:induction false} OnConcat(a: seq<Client>, b: seq<Client>, fd: nat)
    ensures On(a + b, fd) == On(a, fd) + On(b, fd)
  {
    hide OneOn;
    if b == [] {
      assert a + b == a;
    } else {
      var n := |b| - 1;
      OnConcat(a, b[..n], fd);
      assert (a + b)[..|a| + n] == a + b[..n];
      Associative(On(a, fd), On(b[..n], fd), OneOn(b[n], fd));
    }
  }

  lemma {:induction false} ReportsOnConcat(a: seq<Report>, b: seq<Report>, fd: nat)
    ensures ReportsOn(a + b, fd) == ReportsOn(a, fd) + ReportsOn(b, fd)
  {
    hide ReportOn;
    if b == [] {
      assert a + b == a;
    } else {
      var n := |b| - 1;
      ReportsOnConcat(a, b[..n], fd);
      assert (a + b)[..|a| + n] == a + b[..n];
      Associative(ReportsOn(a, fd), ReportsOn(b[..n], fd), ReportOn(b[n], fd));
    }
  }

  lemma {:induction false} OnLive(cs: seq<Client>, fd: nat)
    ensures On(Live(cs), fd) == On(cs, fd)
  {
    if cs == [] {
    } else {
      var n := |cs| - 1;
      OnLive(cs[..n], fd);
      OnConcat(Live(cs[..n]), if IsDropped(cs[n]) then [] else [cs[n]], fd);
      assert [cs[n]][..0] == [];
    }
  }

  /** The reads from a descriptor in a round. */
  function ReadsOn(cs: seq<Client>, ready: seq<bool>, got: seq<ReadResult>, fd: nat): seq<ReadResult>
    requires |ready| == |got| == |cs|
  {
    if cs == [] then []
    else
      var n := |cs| - 1;
      ReadsOn(cs[..n], ready[..n], got[..n], fd) + if ready[n] && cs[n].fd == fd then [got[n]] else []
  }

  ghost function RunReads(cs: seq<Client>, inputs: seq<Input>, fd: nat, maxClients: nat): seq<ReadResult>
    requires FitsRun(cs, inputs, maxClients)
    decreases |inputs|
  {
    if inputs == [] then []
    else
      ReadsOn(cs, inputs[0].ready, inputs[0].got, fd)
      + if EndOf(cs, inputs[0], maxClients) != GoesOn then []
        else RunReads(NextClients(cs, inputs[0], maxClients), inputs[1..], fd, maxClients)
  }

  /** In a round, a descriptor that no client has is not read from, and nothing is reported for it. */
  lemma {:induction false} RoundWithout(cs: seq<Client>, ready: seq<bool>, got: seq<ReadResult>, fd: nat)
    requires |ready| == |got| == |cs| && On(cs, fd) == []
    ensures ReadsOn(cs, ready, got, fd) == [] && ReportsOn(Reported(cs, ready, got), fd) == []
    ensures On(AfterTurns(cs, ready, got), fd) == []
  {
    hide Turn;
    if cs == [] {
    } else {
      var n := |cs| - 1;
      RoundWithout(cs[..n], ready[..n], got[..n], fd);
      OtherTurn(cs[n], ready[n], got[n], fd);
      ReportsOnConcat(Reported(cs[..n], ready[..n], got[..n]), LineOf(cs[n], ready[n], got[n]), fd);
      assert AfterTurns(cs, ready, got)[..n] == AfterTurns(cs[..n], ready[..n], got[..n]);
    }
  }

  lemma {:induction false} OtherTurn(c: Client, ready: bool, r: ReadResult, fd: nat)
    requires c.fd != fd
    ensures AfterTurn(c, ready, r).fd != fd && ReportsOn(LineOf(c, ready, r), fd) == []
  {
    assert ReportsOn([], fd) == [];
    assert LineOf(c, ready, r) != [] ==> LineOf(c, ready, r)[..0] == [];
  }

  /** In a round, a descriptor that one client has is read from at most once, and then that client has its turn. */
  lemma {:induction false} RoundWith(cs: seq<Client>, ready: seq<bool>, got: seq<ReadResult>, fd: nat, c: Client)
    requires |ready| == |got| == |cs| && On(cs, fd) == [c]
    ensures var rs := ReadsOn(cs, ready, got, fd);
      && c.fd == fd && |rs| <= 1
      && ReportsOn(Reported(cs, ready, got), fd) == (if rs == [] then [] else LineOf(c, true, rs[0]))
      && On(AfterTurns(cs, ready, got), fd) == if rs == [] then [c] else On([Turn(c, rs[0]).0], fd)
  {
    hide Turn;
    var n := |cs| - 1;
    var front, reported := cs[..n], Reported(cs[..n], ready[..n], got[..n]);
    ReportsOnConcat(reported, LineOf(cs[n], ready[n], got[n]), fd);
    assert AfterTurns(cs, ready, got)[..n] == AfterTurns(front, ready[..n], got[..n]);
    assert [Turn(cs[n], got[n]).0][..0] == [];
    if cs[n].fd == fd {
      assert On(cs, fd) == On(front, fd) + [cs[n]];
      assert |On(front, fd)| == 0 && On(cs, fd)[0] == cs[n];
      RoundWithout(front, ready[..n], got[..n], fd);
      OwnTurn(c, ready[n], got[n], fd);
    } else {
      RoundWith(front, ready[..n], got[..n], fd, c);
      OtherTurn(cs[n], ready[n], got[n], fd);
    }
  }

  lemma {:induction false} OwnTurn(c: Client, ready: bool, r: ReadResult, fd: nat)
    requires c.fd == fd
    ensures ReportsOn(LineOf(c, ready, r), fd) == LineOf(c, ready, r)
  {
    assert ReportsOn([], fd) == [];
    assert LineOf(c, ready, r) != [] ==> LineOf(c, ready, r)[..0] == [];
  }

  lemma {:induction false} AfterOwnTurn(c: Client, r: ReadResult, fd: nat)
    requires c.fd == fd
    ensures var c' := Turn(c, r).0;
      && On([c'], fd) == (if IsDropped(c') then [] else [c']) && (IsDropped(c') || c'.fd == fd)
  {
    assert [Turn(c, r).0][..0] == [] && On([], fd) == [];
  }

  /** Nobody gets the descriptor anew. */
  predicate NotAccepted(inputs: seq<Input>, fd: nat) {
    forall i | 0 <= i < |inputs| :: inputs[i].accept != NewClient(fd)
  }

  lemma {:induction false} NextOn(cs: seq<Client>, x: Input, maxClients: nat, fd: nat)
    requires |x.ready| == |x.got| == |cs| && x.accept != NewClient(fd)
    ensures On(NextClients(cs, x, maxClients), fd) == On(AfterTurns(cs, x.ready, x.got), fd)
  {
    var after := AfterTurns(cs, x.ready, x.got);
    var new_ := if Accepts(cs, x, maxClients) && x.accept.NewClient? then [Client(x.accept.fd, "")] else [];
    OnLive(after, fd);
    OnConcat(Live(after), new_, fd);
    assert new_ != [] ==> new_[..0] == [];
  }

  lemma {:induction false} Sized(cs: seq<Client>, x: Input)
    requires Fits(cs, x)
    ensures |x.ready| == |x.got| == |cs|
  {
  }

  lemma {:induction false} Silent(cs: seq<Client>, inputs: seq<Input>, fd: nat, maxClients: nat)
    requires FitsRun(cs, inputs, maxClients) && NotAccepted(inputs, fd) && On(cs, fd) == []
    ensures RunReads(cs, inputs, fd, maxClients) == []
    ensures ReportsOn(RunReports(cs, inputs, maxClients), fd) == []
    decreases |inputs|
  {
    hide Fits, EndOf, NextClients, Reported, ReadsOn, AfterTurns, On;
    if inputs == [] {
    } else {
      var x := inputs[0];
      Sized(cs, x);
      RoundWithout(cs, x.ready, x.got, fd);
      NextOn(cs, x, maxClients, fd);
      var next := NextClients(cs, x, maxClients);
      var later := if EndOf(cs, x, maxClients) == GoesOn then RunReports(next, inputs[1..], maxClients) else [];
      ReportsOnConcat(Reported(cs, x.ready, x.got), later, fd);
      if EndOf(cs, x, maxClients) == GoesOn {
        Silent(next, inputs[1..], fd, maxClients);
      }
    }
  }

  /** Over a run, what is reported for a client's descriptor is the line before the first newline of all bytes
      received on it, once, or nothing without a newline: whatever the other clients do, however the bytes are
      split over reads and rounds, and wherever compaction moves the client. */
  lemma {:induction false} LineOfDescriptor(cs: seq<Client>, inputs: seq<Input>, fd: nat, maxClients: nat, c: Client)
    requires FitsRun(cs, inputs, maxClients) && NotAccepted(inputs, fd)
    requires On(cs, fd) == [c] && !HasLine(c.buf)
    ensures var all := c.buf + Received(RunReads(cs, inputs, fd, maxClients));
      ReportsOn(RunReports(cs, inputs, maxClients), fd) == if HasLine(all) then [Report(fd, Line(all))] else []
  {
    OnFound(cs, fd);
    assert On(cs, fd)[0] == c;
    TurnsOfDescriptor(cs, inputs, fd, maxClients, c);
    ChunkingDoesNotMatter(c, RunReads(cs, inputs, fd, maxClients));
  }

  lemma {:induction false} OnFound(cs: seq<Client>, fd: nat)
    ensures forall i | 0 <= i < |On(cs, fd)| :: On(cs, fd)[i].fd == fd
  {
    if cs == [] {
    } else {
      OnFound(cs[..|cs| - 1], fd);
    }
  }

  function AsReport(fd: nat, line: Option<string>): seq<Report> {
    if line.Some? then [Report(fd, line.value)] else []
  }

  lemma {:induction false} TurnThen(c: Client, r: ReadResult, more: seq<ReadResult>, later: seq<Report>, fd: nat)
    requires c.fd == fd
    requires later == AsReport(fd, LineReported(Turn(c, r).0, more))
    ensures LineOf(c, true, r) + later == AsReport(fd, LineReported(c, [r] + more))
    ensures LineReported(Client(-1, ""), more) == None && (IsDropped(Turn(c, r).0) ==> Turn(c, r).0 == Client(-1, ""))
  {
    hide HasLine, Line;
    assert ([r] + more)[1..] == more;
  }

  lemma {:induction false} TurnsOfDescriptor(cs: seq<Client>, inputs: seq<Input>, fd: nat, maxClients: nat, c: Client)
    requires FitsRun(cs, inputs, maxClients) && NotAccepted(inputs, fd) && On(cs, fd) == [c] && c.fd == fd
    ensures ReportsOn(RunReports(cs, inputs, maxClients), fd)
         == AsReport(fd, LineReported(c, RunReads(cs, inputs, fd, maxClients)))
    decreases |inputs|
  {
    hide Fits, EndOf, NextClients, Reported, ReadsOn, AfterTurns, On, Turn, LineOf, AsReport, LineReported, ReportsOn;
    if inputs == [] {
      NothingReported(c, fd);
    } else {
      var x := inputs[0];
      Sized(cs, x);
      RoundWith(cs, x.ready, x.got, fd, c);
      NextOn(cs, x, maxClients, fd);
      var rs, next := ReadsOn(cs, x.ready, x.got, fd), NextClients(cs, x, maxClients);
      var goes := EndOf(cs, x, maxClients) == GoesOn;
      var later := if goes then RunReports(next, inputs[1..], maxClients) else [];
      var more := if goes then RunReads(next, inputs[1..], fd, maxClients) else [];
      ReportsOnConcat(Reported(cs, x.ready, x.got), later, fd);
      assert [] + more == more && [] + ReportsOn(later, fd) == ReportsOn(later, fd);
      var c' := if rs == [] then c else Turn(c, rs[0]).0;
      if rs != [] {
        AfterOwnTurn(c, rs[0], fd);
        assert rs == [rs[0]];
      }
      NothingReported(c', fd);
      if goes && IsDropped(c') {
        Silent(next, inputs[1..], fd, maxClients);
      } else if goes {
        TurnsOfDescriptor(next, inputs[1..], fd, maxClients, c');
      }
      if rs != [] {
        TurnThen(c, rs[0], more, ReportsOn(later, fd), fd);
      }
    }
  }

  lemma {:induction false} NothingReported(c: Client, fd: nat)
    ensures ReportsOn([], fd) == [] == AsReport(fd, LineReported(c, []))
  {
  }
}
