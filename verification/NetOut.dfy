/** The client table of the TCP server, extended and swap-removed in place: src/netout.c. */
module NetOut {
  import opened NetSpec
  import opened Sets

  /** Overwriting a client by the last one takes just that client out. */
  lemma {:induction false} SwapRemoved(s: seq<int>, i: nat)
    requires Distinct(s) && i < |s|
    ensures var t := s[i := s[|s| - 1]][..|s| - 1];
            && Distinct(t) && t[..i] == s[..i]
            && Members(t) == Members(s) - {s[i]}
            && Members(t[i..]) == Members(s[i..]) - {s[i]}
  {
    var last := |s| - 1;
    var t := s[i := s[last]][..last];
    SwapMembers(s, i, 0);
    SwapMembers(s, i, i);
    assert s[0..] == s && t[0..] == t;
  }

  lemma {:induction false} SwapMembers(s: seq<int>, i: nat, b: nat)
    requires Distinct(s) && b <= i < |s|
    ensures var t := s[i := s[|s| - 1]][..|s| - 1]; Members(t[b..]) == Members(s[b..]) - {s[i]}
  {
    var last := |s| - 1;
    var t := s[i := s[last]][..last];
    forall x ensures x in t[b..] <==> x in s[b..] && x != s[i] {
      if x in t[b..] {
        var k :| 0 <= k < |t[b..]| && t[b..][k] == x;
        assert s[b..][if b + k == i then last - b else k] == x;
      }
      if x in s[b..] && x != s[i] {
        var k :| 0 <= k < |s[b..]| && s[b..][k] == x;
        assert t[b..][if b + k == last then i - b else k] == x;
      }
    }
  }

  class Server {
    const clients: array<int>
    var n: nat
    /** What the connections took, and what send will report: the world outside. */
    var wire: map<int, string>

    ghost predicate Valid()
      reads this, clients
    {
      clients.Length == MAX_CLIENTS && n <= MAX_CLIENTS && Distinct(clients[..n])
      && forall i | 0 <= i < n :: clients[i] in wire
    }

    ghost function State(): Net
      requires Valid()
      reads this, clients
    {
      Net(Members(clients[..n]), wire)
    }

    constructor ()
      ensures Valid() && fresh(clients) && State() == Net({}, map[])
    {
      clients := new int[MAX_CLIENTS];
      n := 0;
      wire := map[];
    }

    /** One turn of the accepting loop: a connection is refused when the table is full. */
    method Take(c: int) returns (added: bool)
      requires Valid() && c !in State().clients
      modifies this, clients
      ensures Valid() && State() == NetSpec.Accept(old(State()), c)
      ensures added == (|old(State()).clients| < MAX_CLIENTS)
    {
      ghost var s := clients[..n];
      DistinctSize(s);
      if n >= MAX_CLIENTS {
        return false;
      }
      clients[n] := c;
      n := n + 1;
      wire := wire[c := ""];
      assert clients[..n] == s + [c];
      assert Members(s + [c]) == Members(s) + {c};
      return true;
    }

    /** netout_accept: takes the pending connections while there is room. */
    method Accept(pending: seq<int>) returns (added: nat)
      requires Valid() && Distinct(pending) && State().clients !! Members(pending)
      modifies this, clients
      ensures Valid() && State() == Accepted(old(State()), pending)
      ensures added == Room(old(State()), |pending|)
    {
      hide Members, Distinct, Room, Accepted, NetSpec.Accept;
      added := 0;
      assert pending[0..] == pending;
      for i := 0 to |pending|
        invariant Valid() && Distinct(pending[i..]) && State().clients !! Members(pending[i..])
        invariant Accepted(State(), pending[i..]) == Accepted(old(State()), pending)
        invariant added + Room(State(), |pending| - i) == Room(old(State()), |pending|)
      {
        ghost var rest := pending[i..];
        assert rest[0] == pending[i] && rest[1..] == pending[i + 1..];
        NextTaken(State(), rest);
        var taken := Take(pending[i]);
        if taken {
          added := added + 1;
        }
      }
      assert pending[|pending|..] == [];
      NoneAccepted(State(), []);
    }

    /** send_all: the loop over partial sends. */
    method SendAll(c: int, msg: string, script: seq<Outcome>) returns (v: Verdict)
      requires c in wire
      modifies this`wire
      ensures var e := Send(script, |msg|, 0, 0); v == e.verdict && wire == old(wire)[c := old(wire)[c] + msg[..e.off]]
    {
      ghost var start := wire;
      var off, waits, k := 0, 0, 0;
      assert msg[..0] == "" && start[c] + msg[..0] == start[c];
      while off < |msg|
        invariant off <= |msg| && k <= |script|
        invariant wire == start[c := start[c] + msg[..off]]
        invariant Send(script[k..], |msg|, off, waits) == Send(script, |msg|, 0, 0)
        decreases |script| - k, |msg| - off
      {
        if k == |script| {
          return Closed;
        }
        var o := script[k];
        assert script[k..][0] == o && script[k..][1..] == script[k + 1..];
        k := k + 1;
        if o.Took? && o.n > 0 {
          var m := if off + o.n < |msg| then off + o.n else |msg|;
          assert start[c] + msg[..m] == start[c] + msg[..off] + msg[off..m];
          wire := wire[c := wire[c] + msg[off..m]];
          off := m;
        } else if o.Full? {
          if off == 0 {
            return Skipped;
          }
          waits := waits + 1;
          if waits > PARTIAL_WAITS {
            return Closed;
          }
        } else if !o.Interrupted? {
          return Closed;
        }
      }
      return Whole;
    }

    /** Takes client i out by moving the last one to its place. */
    method Remove(i: nat)
      requires Valid() && i < n
      modifies this`n, clients
      ensures Valid() && n == old(n) - 1 && clients[..i] == old(clients[..i])
      ensures Members(clients[..n]) == Members(old(clients[..n])) - {old(clients[i])}
      ensures Members(clients[i..n]) == Members(old(clients[i..n])) - {old(clients[i])}
    {
      ghost var s := clients[..n];
      SwapRemoved(s, i);
      assert s[i..] == clients[i..n];
      n := n - 1;
      clients[i] := clients[n];
      assert clients[..n] == s[i := s[|s| - 1]][..|s| - 1];
      assert clients[i..n] == clients[..n][i..] && clients[..i] == clients[..n][..i];
    }

    /** Clients before index i have their part of the message and stay, those from i on are to come. */
    ghost predicate Halfway(i: nat, all: set<int>, done: set<int>, start: map<int, string>, msg: string, scripts: Scripts)
      reads this, clients
    {
      && Valid() && i <= n
      && done + Members(clients[i..n]) == all && done !! Members(clients[i..n])
      && Members(clients[..i]) == Kept(done, scripts, msg)
      && wire == Wired(start, done, scripts, msg)
    }

    /** One turn of the loop: the client either stays or is replaced by the last one. */
    method Offer(i: nat, msg: string, scripts: Scripts,
                 ghost all: set<int>, ghost done: set<int>, ghost start: map<int, string>)
      returns (v: Verdict)
      requires Halfway(i, all, done, start, msg, scripts) && i < n
      modifies this, clients
      ensures v == EndOf(scripts, msg, old(clients[i])).verdict && old(clients[i]) !in done
      ensures if v == Closed then n == old(n) - 1 else n == old(n)
      ensures Halfway(if v == Closed then i else i + 1, all, done + {old(clients[i])}, start, msg, scripts)
    {
      hide Send, Distinct, Wired, Kept, Members;
      var c := clients[i];
      SplitFirst(i);
      WiredMore(start, done, c, scripts, msg);
      KeptMore(done, c, scripts, msg);
      v := SendAll(c, msg, if c in scripts then scripts[c] else []);
      if v == Closed {
        Remove(i);
      }
    }

    /** netout_broadcast: every client is offered the message once, whatever is removed on the way. */
    method Broadcast(msg: string, scripts: Scripts) returns (ok: nat)
      requires Valid()
      modifies this, clients
      ensures Valid() && State() == NetSpec.Broadcast(old(State()), msg, scripts)
      ensures ok == |Served(old(State()).clients, scripts, msg)|
    {
      hide Send, Distinct, Wired, Kept, Served, EndOf;
      ghost var all, start := Members(clients[..n]), wire;
      ghost var done: set<int> := {};
      ok := 0;
      var i: nat := 0;
      assert clients[..n] == clients[0..n] && clients[..0] == [];
      NothingDone(start, scripts, msg);
      while i < n
        invariant Halfway(i, all, done, start, msg, scripts)
        invariant ok == |Served(done, scripts, msg)|
        decreases n - i
      {
        ghost var c := clients[i];
        var v := Offer(i, msg, scripts, all, done, start);
        ServedMore(done, c, scripts, msg);
        if v != Closed {
          i := i + 1;
        }
        if v == Whole {
          ok := ok + 1;
        }
        done := done + {c};
      }
      assert clients[i..n] == [] && clients[..i] == clients[..n];
    }

    lemma {:induction false} SplitFirst(i: nat)
      requires Valid() && i < n
      ensures Members(clients[..i + 1]) == Members(clients[..i]) + {clients[i]}
      ensures Members(clients[i + 1..n]) == Members(clients[i..n]) - {clients[i]}
      ensures clients[i] in Members(clients[i..n])
    {
      assert clients[..i + 1] == clients[..i] + [clients[i]];
      var t := clients[i + 1..n];
      assert clients[i..n] == [clients[i]] + t;
      forall k | 0 <= k < |t| ensures t[k] != clients[i] {
        assert clients[..n][i + 1 + k] == t[k] && clients[..n][i] == clients[i];
      }
    }
  }

  lemma {:induction false} KeptMore(done: set<int>, c: int, scripts: Scripts, msg: string)
    ensures Kept(done + {c}, scripts, msg)
         == Kept(done, scripts, msg) + (if EndOf(scripts, msg, c).verdict != Closed then {c} else {})
  {
    hide EndOf;
  }

  lemma {:induction false} ServedMore(done: set<int>, c: int, scripts: Scripts, msg: string)
    requires c !in done
    ensures |Served(done + {c}, scripts, msg)|
         == |Served(done, scripts, msg)| + if EndOf(scripts, msg, c).verdict == Whole then 1 else 0
  {
    hide EndOf;
    var more := if EndOf(scripts, msg, c).verdict == Whole then {c} else {};
    assert Served(done + {c}, scripts, msg) == Served(done, scripts, msg) + more;
  }

  lemma {:induction false} WiredMore(start: map<int, string>, done: set<int>, c: int, scripts: Scripts, msg: string)
    requires c in start && c !in done
    ensures Wired(start, done, scripts, msg)[c] == start[c]
    ensures Wired(start, done + {c}, scripts, msg)
         == Wired(start, done, scripts, msg)[c := start[c] + msg[..EndOf(scripts, msg, c).off]]
  {
    hide EndOf;
  }

  lemma {:induction false} NothingDone(start: map<int, string>, scripts: Scripts, msg: string)
    ensures Wired(start, {}, scripts, msg) == start && Kept({}, scripts, msg) == {} && Served({}, scripts, msg) == {}
  {
    hide EndOf;
  }
}
