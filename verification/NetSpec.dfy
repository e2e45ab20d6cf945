/** The fan-out of messages to TCP clients, against any outcome of every send: src/netout.c. */
module NetSpec {
  import opened CText
  import opened Sets

  const MAX_CLIENTS := 16
  const PARTIAL_WAITS := 5

  /** What one call of send reports: bytes taken, a full socket, an interruption, or an error. */
  datatype Outcome = Took(n: nat) | Full | Interrupted | Broken

  /** How sending one message to one client ends: all of it went out, none of it, or the client is closed. */
  datatype Verdict = Whole | Skipped | Closed

  datatype End = End(off: nat, verdict: Verdict)

  /** send_all from offset off, when the calls of send report these outcomes; a client
      with no further outcome is gone. */
  function Send(script: seq<Outcome>, len: nat, off: nat, waits: nat): (e: End)
    requires off <= len
    ensures off <= e.off <= len
    ensures e.verdict == Whole ==> e.off == len
    ensures e.verdict == Skipped ==> off == 0 && e.off == 0
    ensures e.verdict == Closed ==> e.off < len
    decreases |script|
  {
    if off == len then End(off, Whole)
    else if script == [] then End(off, Closed)
    else
      match script[0]
      case Took(n) =>
        if n == 0 then End(off, Closed)
        else Send(script[1..], len, if off + n < len then off + n else len, waits)
      case Full =>
        if off == 0 then End(0, Skipped)
        else if waits + 1 > PARTIAL_WAITS then End(off, Closed)
        else Send(script[1..], len, off, waits + 1)
      case Interrupted => Send(script[1..], len, off, waits)
      case Broken => End(off, Closed)
  }

  // ----- how a send ends, told by its outcomes

  /** The bytes that the first p calls took. */
  function Bytes(script: seq<Outcome>, p: nat): nat
    requires p <= |script|
  {
    if p == 0 then 0 else Bytes(script, p - 1) + if script[p - 1].Took? then script[p - 1].n else 0
  }

  function Fulls(script: seq<Outcome>, p: nat): nat
    requires p <= |script|
  {
    if p == 0 then 0 else Fulls(script, p - 1) + if script[p - 1].Full? then 1 else 0
  }

  /** The first p calls did not end the send: none of them failed or took nothing, the socket was
      not full before the first byte, and not more than five times afterwards. */
  ghost predicate Going(script: seq<Outcome>, p: nat, len: nat) {
    && p <= |script| && Fulls(script, p) <= 5
    && forall i | 0 <= i < p ::
         && Bytes(script, i) < len
         && (match script[i]
             case Took(n) => n > 0
             case Full => Bytes(script, i) > 0
             case Interrupted => true
             case Broken => false)
  }

  lemma {:induction false} BytesGrow(script: seq<Outcome>, p: nat, q: nat)
    requires p <= q <= |script|
    ensures Bytes(script, p) <= Bytes(script, q) && Fulls(script, p) <= Fulls(script, q)
    decreases q
  {
    if p < q { BytesGrow(script, p, q - 1); }
  }

  lemma {:induction false} GoingOn(script: seq<Outcome>, p: nat, q: nat, len: nat)
    requires p <= q && Going(script, q, len)
    ensures Going(script, p, len) && (p < q ==> Bytes(script, p) < len && Going(script, p + 1, len))
  {
    GoingBefore(script, p, q, len);
    if p < q {
      GoingBefore(script, p + 1, q, len);
      GoingLess(script, p, p + 1, len);
    }
  }

  lemma {:induction false} GoingBefore(script: seq<Outcome>, p: nat, q: nat, len: nat)
    requires p <= q && Going(script, q, len)
    ensures Going(script, p, len)
  {
    BytesGrow(script, p, q);
    hide Bytes, Fulls;
  }

  lemma GoingLess(script: seq<Outcome>, p: nat, q: nat, len: nat)
    requires p < q && Going(script, q, len)
    ensures Bytes(script, p) < len
  {
    hide Bytes, Fulls;
  }

  ghost predicate EndsWhole(script: seq<Outcome>, p: nat, len: nat) { exists q: nat :: p <= q && Going(script, q, len) && Bytes(script, q) >= len }

  ghost predicate EndsSkipped(script: seq<Outcome>, p: nat, len: nat) {
    exists q: nat :: p <= q < |script| && Going(script, q, len) && Bytes(script, q) == 0 < len && script[q].Full?
  }

  lemma {:induction false} EndFrom(script: seq<Outcome>, p: nat, len: nat)
    requires Going(script, p, len)
    ensures var b := Bytes(script, p);
            var e := Send(script[p..], len, if b < len then b else len, Fulls(script, p));
            && (e.verdict == Whole <==> EndsWhole(script, p, len))
            && (e.verdict == Skipped <==> EndsSkipped(script, p, len))
    decreases |script| - p
  {
    hide Going;
    GoingShort(script, p, len);
    var b := Bytes(script, p);
    if b >= len {
      assert EndsWhole(script, p, len);
      forall q: nat | p <= q && Going(script, q, len) ensures q <= |script| && Bytes(script, q) >= b {
        GoingShort(script, q, len);
        BytesGrow(script, p, q);
      }
    } else if p == |script| {
      forall q: nat | p <= q && Going(script, q, len) ensures q == p { GoingShort(script, q, len); }
    } else {
      assert script[p..][0] == script[p] && script[p..][1..] == script[p + 1..];
      forall q: nat | p < q && Going(script, q, len) ensures Going(script, p + 1, len) {
        GoingOn(script, p, q, len);
      }
      OneMoreGoing(script, p, len);
      if Going(script, p + 1, len) {
        EndFrom(script, p + 1, len);
        assert EndsWhole(script, p, len) <==> EndsWhole(script, p + 1, len);
        assert EndsSkipped(script, p, len) <==> EndsSkipped(script, p + 1, len);
      }
    }
  }

  lemma GoingShort(script: seq<Outcome>, p: nat, len: nat)
    requires Going(script, p, len)
    ensures p <= |script| && Fulls(script, p) <= 5
  {
  }

  lemma {:induction false} OneMoreGoing(script: seq<Outcome>, p: nat, len: nat)
    requires p < |script| && Going(script, p, len) && Bytes(script, p) < len
    ensures Going(script, p + 1, len) <==>
            match script[p]
            case Took(n) => n > 0
            case Full => Bytes(script, p) > 0 && Fulls(script, p) < 5
            case Interrupted => true
            case Broken => false
  {
  }

  /** A message goes out whole exactly when calls that do not end the send take all its bytes, and is
      skipped exactly when the socket is full before it took one; else the client is closed. */
  lemma {:induction false} SendEnds(script: seq<Outcome>, len: nat)
    ensures var e := Send(script, len, 0, 0);
            && (e.verdict == Whole <==> EndsWhole(script, 0, len))
            && (e.verdict == Skipped <==> EndsSkipped(script, 0, len))
  {
    EndFrom(script, 0, len);
    assert script[0..] == script;
  }

  /** The outcomes of one broadcast, by client. */
  type Scripts = map<int, seq<Outcome>>

  function EndOf(scripts: Scripts, msg: string, c: int): End {
    Send(if c in scripts then scripts[c] else [], |msg|, 0, 0)
  }

  /** The open clients, and the bytes that every connection took so far. */
  datatype Net = Net(clients: set<int>, wire: map<int, string>)

  ghost predicate Valid(s: Net) {
    |s.clients| <= MAX_CLIENTS && s.clients <= s.wire.Keys
  }

  function Kept(cs: set<int>, scripts: Scripts, msg: string): set<int> {
    set c | c in cs && EndOf(scripts, msg, c).verdict != Closed
  }

  function Served(cs: set<int>, scripts: Scripts, msg: string): set<int> {
    set c | c in cs && EndOf(scripts, msg, c).verdict == Whole
  }

  /** Every client of cs was sent its part of the message once. */
  function Wired(wire: map<int, string>, cs: set<int>, scripts: Scripts, msg: string): (w: map<int, string>)
    ensures w.Keys == wire.Keys
  {
    map c | c in wire :: if c in cs then wire[c] + msg[..EndOf(scripts, msg, c).off] else wire[c]
  }

  function Broadcast(s: Net, msg: string, scripts: Scripts): Net {
    Net(Kept(s.clients, scripts, msg), Wired(s.wire, s.clients, scripts, msg))
  }

  /** A new connection, taken while there is room. */
  function Accept(s: Net, c: int): Net {
    if |s.clients| >= MAX_CLIENTS then s else Net(s.clients + {c}, s.wire[c := ""])
  }

  /** All pending connections, one after the other. */
  function Accepted(s: Net, pending: seq<int>): Net
    decreases |pending|
  {
    if pending == [] then s else Accepted(Accept(s, pending[0]), pending[1..])
  }

  /** How many of that many pending connections find room. */
  function Room(s: Net, pending: nat): (r: nat)
    ensures r <= pending
  {
    if |s.clients| >= MAX_CLIENTS then 0
    else if pending < MAX_CLIENTS - |s.clients| then pending else MAX_CLIENTS - |s.clients|
  }

  lemma {:induction false} MembersFirst(s: seq<int>)
    requires s != []
    ensures Members(s) == {s[0]} + Members(s[1..])
  {
    assert s == [s[0]] + s[1..];
  }

  lemma {:induction false} FirstTaken(pending: seq<int>, k: nat)
    requires Distinct(pending) && 0 < k <= |pending|
    ensures var c, rest := pending[0], pending[1..];
            && Members(pending[..k]) == {c} + Members(rest[..k - 1])
            && c !in Members(rest) && c !in Members(rest[..k - 1]) && Distinct(rest)
            && Members(pending) == {c} + Members(rest)
  {
    var rest := pending[1..];
    MembersFirst(pending);
    MembersFirst(pending[..k]);
    assert pending[..k][1..] == rest[..k - 1];
    assert forall i | 0 <= i < |rest| :: rest[i] == pending[i + 1];
  }

  /** What a server that took these has of a connection's bytes. */
  ghost predicate StartsEmpty(s: Net, t: Net, taken: set<int>) {
    forall c | c in s.wire || c in taken :: c in t.wire && t.wire[c] == if c in taken then "" else s.wire[c]
  }

  lemma {:induction false} OneTaken(s: Net, c: int, n: nat)
    requires c !in s.clients && n > 0
    ensures |s.clients| < MAX_CLIENTS ==>
              && Room(Accept(s, c), n - 1) + 1 == Room(s, n)
              && Accept(s, c).clients == s.clients + {c}
    ensures |s.clients| >= MAX_CLIENTS ==> Accept(s, c) == s && Room(s, n) == Room(s, n - 1) == 0
  {
  }

  /** A turn of the accepting loop. */
  lemma {:induction false} NextTaken(s: Net, pending: seq<int>)
    requires Distinct(pending) && s.clients !! Members(pending) && pending != []
    ensures var c, rest := pending[0], pending[1..];
            var t := Accept(s, c);
            && c !in s.clients && Distinct(rest) && t.clients !! Members(rest)
            && Accepted(t, rest) == Accepted(s, pending)
            && Room(s, |pending|) == Room(t, |rest|) + if |s.clients| < MAX_CLIENTS then 1 else 0
  {
    hide Members, Distinct, Room;
    FirstTaken(pending, |pending|);
    OneTaken(s, pending[0], |pending|);
  }

  lemma {:induction false} EmptyTaken(s: Net, c: int, t: Net, taken: set<int>)
    requires |s.clients| < MAX_CLIENTS && c !in taken && StartsEmpty(Accept(s, c), t, taken)
    ensures StartsEmpty(s, t, {c} + taken)
  {
    var a := Accept(s, c);
    assert forall d | d in s.wire :: d in a.wire && a.wire[d] == if d == c then "" else s.wire[d];
    assert c in a.wire && a.wire[c] == "";
  }

  /** The first ones are taken, as many as there is room for, with nothing sent to them yet;
      nobody else notices. */
  lemma {:induction false} FirstAccepted(s: Net, pending: seq<int>)
    requires Distinct(pending) && s.clients !! Members(pending)
    ensures var taken := Members(pending[..Room(s, |pending|)]);
            Accepted(s, pending).clients == s.clients + taken && StartsEmpty(s, Accepted(s, pending), taken)
    decreases |pending|
  {
    hide Members, Distinct, StartsEmpty, Accept;
    hide Room;
    if pending == [] || |s.clients| >= MAX_CLIENTS {
      assert pending[..0] == [];
      NoMembers();
      NoneAccepted(s, pending);
    } else {
      var c, rest := pending[0], pending[1..];
      var a := Accept(s, c);
      var k := Room(a, |rest|);
      NextTaken(s, pending);
      FirstTaken(pending, k + 1);
      OneTaken(s, c, |pending|);
      FirstAccepted(a, rest);
      hide Accepted;
      EmptyTaken(s, c, Accepted(a, rest), Members(rest[..k]));
    }
  }

  lemma NoMembers()
    ensures Members<int>([]) == {}
    ensures forall s: Net :: StartsEmpty(s, s, {})
  {
  }

  lemma {:induction false} NoneAccepted(s: Net, pending: seq<int>)
    requires pending == [] || |s.clients| >= MAX_CLIENTS
    ensures Accepted(s, pending) == s && Room(s, |pending|) == 0
    decreases |pending|
  {
    if pending != [] {
      NoneAccepted(s, pending[1..]);
    }
  }

  /** Who got the message entirely, and who stays connected. */
  lemma {:induction false} ServedAre(cs: set<int>, scripts: Scripts, msg: string, c: int)
    ensures var script := if c in scripts then scripts[c] else [];
            && (c in Served(cs, scripts, msg) <==> c in cs && EndsWhole(script, 0, |msg|))
            && (c in Kept(cs, scripts, msg) <==> c in cs && (EndsWhole(script, 0, |msg|) || EndsSkipped(script, 0, |msg|)))
  {
    hide Send, EndsWhole, EndsSkipped;
    SendEnds(if c in scripts then scripts[c] else [], |msg|);
  }

  /** A broadcast sends to the clients and to nobody else. */
  lemma {:induction false} OthersUntouched(s: Net, msg: string, scripts: Scripts, c: int)
    requires c in s.wire && c !in s.clients
    ensures c in Broadcast(s, msg, scripts).wire && Broadcast(s, msg, scripts).wire[c] == s.wire[c]
  {
    hide EndOf;
  }

  // ----- runs

  datatype Op = Connect(c: int) | Say(msg: string, scripts: Scripts)

  function Run(ops: seq<Op>): Net {
    if ops == [] then Net({}, map[])
    else
      var s := Run(ops[..|ops| - 1]);
      match ops[|ops| - 1]
      case Connect(c) => Accept(s, c)
      case Say(msg, scripts) => Broadcast(s, msg, scripts)
  }

  /** The messages broadcast since the client connected that went out to it entirely, in order. */
  function Delivered(ops: seq<Op>, c: int): seq<string> {
    if ops == [] then []
    else
      var got := Delivered(ops[..|ops| - 1], c);
      match ops[|ops| - 1]
      case Connect(d) => if c == d && |Run(ops[..|ops| - 1]).clients| < MAX_CLIENTS then [] else got
      case Say(msg, scripts) => if EndOf(scripts, msg, c).verdict == Whole then got + [msg] else got
  }

  lemma {:induction false} KeptFew(cs: set<int>, scripts: Scripts, msg: string)
    ensures |Kept(cs, scripts, msg)| <= |cs|
  {
    SubsetSize(Kept(cs, scripts, msg), cs);
  }

  lemma {:induction false} RunValid(ops: seq<Op>)
    ensures Valid(Run(ops))
  {
    hide Wired, Kept;
    if ops != [] {
      var s := Run(ops[..|ops| - 1]);
      RunValid(ops[..|ops| - 1]);
      match ops[|ops| - 1]
      case Connect(c) =>
      case Say(msg, scripts) =>
        KeptFew(s.clients, scripts, msg);
        KeptIn(s.clients, scripts, msg);
    }
  }

  lemma KeptIn(cs: set<int>, scripts: Scripts, msg: string)
    ensures Kept(cs, scripts, msg) <= cs
  {
  }

  /** A client that is still connected has received whole messages only: those that
      went out to it entirely, in order, with nothing between them. */
  lemma {:induction false} WholeMessages(ops: seq<Op>, c: int)
    requires c in Run(ops).clients
    ensures c in Run(ops).wire && Run(ops).wire[c] == Concat(Delivered(ops, c))
  {
    hide EndOf, Wired, Kept, Concat;
    RunValid(ops);
    var before := ops[..|ops| - 1];
    RunValid(before);
    match ops[|ops| - 1]
    case Connect(d) =>
      if c != d || |Run(before).clients| >= MAX_CLIENTS {
        WholeMessages(before, c);
      } else {
        assert Concat([]) == "" by { ConcatNone(); }
      }
    case Say(msg, scripts) =>
      KeptMeans(Run(before), scripts, msg, c);
      WholeMessages(before, c);
      ConcatSnoc(Delivered(before, c), msg);
  }

  lemma ConcatNone()
    ensures Concat([]) == ""
  {
  }

  lemma {:induction false} KeptMeans(s: Net, scripts: Scripts, msg: string, c: int)
    requires Valid(s) && c in Kept(s.clients, scripts, msg)
    ensures var e := EndOf(scripts, msg, c);
            && c in s.clients && (e.verdict == Whole || e.verdict == Skipped)
            && Wired(s.wire, s.clients, scripts, msg)[c] == if e.verdict == Whole then s.wire[c] + msg else s.wire[c]
  {
    hide Send;
    assert msg[..|msg|] == msg && msg[..0] == "";
  }
}
