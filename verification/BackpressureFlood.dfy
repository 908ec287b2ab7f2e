/** Sums of weights over a sequence. */
module Sums {
  function Sum<T>(s: seq<T>, w: T -> nat): nat {
    if s == [] then 0 else w(s[0]) + Sum(s[1..], w)
  }

  lemma {:induction false} SumAppend<T>(a: seq<T>, b: seq<T>, w: T -> nat)
    ensures Sum(a + b, w) == Sum(a, w) + Sum(b, w)
  {
    if a == [] {
      assert a + b == b;
    } else {
      SumAppend(a[1..], b, w);
      assert (a + b)[1..] == a[1..] + b;
    }
  }

  lemma SumSplit<T>(s: seq<T>, i: nat, w: T -> nat)
    requires i < |s|
    ensures Sum(s, w) == Sum(s[..i], w) + w(s[i]) + Sum(s[i + 1..], w)
  {
    assert s == s[..i] + s[i..] && s[i..][1..] == s[i + 1..];
    SumAppend(s[..i], s[i..], w);
  }

  lemma SumRemove<T>(s: seq<T>, i: nat, w: T -> nat)
    requires i < |s|
    ensures Sum(s, w) == w(s[i]) + Sum(s[..i] + s[i + 1..], w)
  {
    SumSplit(s, i, w);
    SumAppend(s[..i], s[i + 1..], w);
  }

  lemma SumUpdate<T>(s: seq<T>, i: nat, x: T, w: T -> nat)
    requires i < |s|
    ensures Sum(s[i := x], w) == Sum(s, w) - w(s[i]) + w(x)
  {
    SumSplit(s, i, w);
    SumSplit(s[i := x], i, w);
    assert s[i := x][..i] == s[..i] && s[i := x][i + 1..] == s[i + 1..];
  }

  lemma {:induction false} SumUniform<T>(s: seq<T>, k: nat, w: T -> nat)
    requires forall i :: 0 <= i < |s| ==> w(s[i]) == k
    ensures Sum(s, w) == |s| * k
  {
    if s != [] {
      SumUniform(s[1..], k, w);
      Distribute(|s|, k);
    }
  }

  lemma Distribute(n: int, k: int)
    ensures n * k == k + (n - 1) * k
  {
  }
}

/**
  The backpressure query flood and its replies: bp/bpmetricflood.cc and bp/bpqueryresponder.cc.  Nodes are numbered
  0..n-1.  First what one node does with one message, then a network of nodes whose links lose and delay messages.
 */
module BackpressureFlood {
  import opened Common

  type Node = nat
  type Path = seq<Node>

  datatype Query = Query(sender: Node, path: Path, qdst: Node, seqno: nat)

  /** `path` holds the nodes written into the packet; `links` is the one-byte link count of its header. */
  datatype Reply = Reply(sender: Node, path: Path, links: Byte, qdst: Node, seqno: nat, next: Byte)

  /** A `Seen` record; `held` says that it still has its packet and has not been forwarded. */
  datatype Entry = Entry(path: Path, qdst: Node, seqno: nat, held: bool)

  const MAX_SEEN := 100

  /** The link count in the header is one byte, so a path of more nodes wraps around. */
  const MAX_PATH := 256

  function Header(path: Path): (h: Path)
    ensures h <= path
    ensures h == path <==> |path| <= MAX_PATH
    ensures |h| <= MAX_PATH && (path != [] ==> h != [])
  {
    if path == [] then [] else path[..(|path| - 1) % MAX_PATH + 1]
  }

  // --- One node ----------------------------------------------------------------------------------

  predicate Accepts(me: Node, q: Query) {
    q.sender != me && me !in q.path
  }

  /** `process_flood`: the new list of seen queries; at 100 the oldest goes, forwarded or not. */
  function Process(me: Node, seen: seq<Entry>, q: Query): seq<Entry> {
    if !Accepts(me, q) then seen
    else (if |seen| >= MAX_SEEN then seen[1..] else seen) + [Entry(q.path + [me], q.qdst, q.seqno, q.qdst != me)]
  }

  /** `forward_query`; `valid` is the link table's opinion of the path. */
  function Forward(me: Node, seen: seq<Entry>, x: nat, valid: bool): (seq<Entry>, Option<Query>)
    requires x < |seen|
  {
    var e := seen[x];
    (seen[x := e.(held := false)],
     if e.held && valid then Some(Query(me, Header(e.path), e.qdst, e.seqno)) else None)
  }

  /** `forward_query_hook`: every entry below k that is due. */
  function Hook(me: Node, seen: seq<Entry>, due: set<nat>, valid: Path -> bool, k: nat): (r: (seq<Entry>, seq<Query>))
    requires k <= |seen|
    ensures |r.0| == |seen|
  {
    if k == 0 then (seen, []) else
    var (s, out) := Hook(me, seen, due, valid, k - 1);
    if k - 1 !in due then (s, out) else
    var (t, q) := Forward(me, s, k - 1, valid(s[k - 1].path));
    (t, if q.Some? then out + [q.value] else out)
  }

  /** `start_reply`. */
  function Answer(me: Node, q: Query, valid: bool): Option<Reply> {
    if q.sender == me || q.qdst != me || !valid then None
    else Some(StartReply(me, q))
  }

  /** The reply carries the query's path, completed with the destination, and points at the node before it. */
  function StartReply(me: Node, q: Query): Reply {
    Reply(me, q.path + [me], |q.path| % MAX_PATH, q.qdst, q.seqno, (|q.path| - 1) % MAX_PATH)
  }

  /** A reply arriving: the data queues and what is sent on. */
  function Relay(me: Node, queues: set<Node>, r: Reply): (set<Node>, Option<Reply>) {
    if r.sender == me || r.next >= |r.path| || r.path[r.next] != me || r.next == 0 then (queues, None)
    else (queues + {r.qdst}, if r.next >= r.links then None else Some(r.(sender := me, next := r.next - 1)))
  }

  /** What a node remembers of an accepted query, behind the earlier ones in their order; the oldest goes at 100. */
  lemma ProcessKeeps(me: Node, seen: seq<Entry>, q: Query, i: nat)
    requires Accepts(me, q)
    ensures var t, lost := Process(me, seen, q), if |seen| < MAX_SEEN then 0 else 1;
            && |t| == |seen| - lost + 1
            && t[|t| - 1] == Entry(q.path + [me], q.qdst, q.seqno, q.qdst != me)
            && (i < |t| - 1 ==> t[i] == seen[i + lost])
  {
  }

  predicate MaySendNow(e: Entry, valid: Path -> bool) {
    e.held && valid(e.path)
  }

  /** The entries below k whose queries the hook sends, and the frames sent, in the order of the list. */
  ghost predicate Sends(me: Node, seen: seq<Entry>, due: set<nat>, valid: Path -> bool, k: nat, xs: seq<nat>, out: seq<Query>)
    requires k <= |seen|
  {
    && |xs| == |out|
    && (forall i :: 0 <= i < |xs| ==> xs[i] < |seen| && IsSent(me, seen[xs[i]], out[i]))
    && (forall i, j :: 0 <= i < j < |xs| ==> xs[i] < xs[j])
    && (forall x: nat {:trigger x in xs} :: x in xs <==> x < k && x in due && MaySendNow(seen[x], valid))
  }

  predicate IsSent(me: Node, e: Entry, q: Query) {
    q == Query(me, Header(e.path), e.qdst, e.seqno)
  }

  /** The hook leaves no due entry held, and entries that are not due as they were. */
  lemma {:induction false} HookReleases(me: Node, seen: seq<Entry>, due: set<nat>, valid: Path -> bool, k: nat)
    requires k <= |seen|
    ensures forall x :: 0 <= x < |seen| ==>
              Hook(me, seen, due, valid, k).0[x] == if x < k && x in due then seen[x].(held := false) else seen[x]
  {
    if k > 0 {
      HookReleases(me, seen, due, valid, k - 1);
    }
  }

  lemma HookNext(me: Node, seen: seq<Entry>, due: set<nat>, valid: Path -> bool, k: nat)
    requires k < |seen|
    ensures var (out, e) := (Hook(me, seen, due, valid, k).1, seen[k]);
            Hook(me, seen, due, valid, k + 1).1 ==
            if k in due && MaySendNow(e, valid) then out + [Query(me, Header(e.path), e.qdst, e.seqno)] else out
  {
    HookReleases(me, seen, due, valid, k);
  }

  /** The hook sends exactly one query for each entry that is due, held and valid, in the order of the list. */
  lemma {:induction false} HookSends(me: Node, seen: seq<Entry>, due: set<nat>, valid: Path -> bool, k: nat, out: seq<Query>)
    returns (xs: seq<nat>)
    requires k <= |seen| && out == Hook(me, seen, due, valid, k).1
    ensures Sends(me, seen, due, valid, k, xs, out)
  {
    if k == 0 {
      xs := [];
    } else {
      var before := Hook(me, seen, due, valid, k - 1).1;
      var ys := HookSends(me, seen, due, valid, k - 1, before);
      HookNext(me, seen, due, valid, k - 1);
      xs := SendsMore(me, seen, due, valid, k - 1, ys, before, out);
    }
  }

  lemma SendsMore(me: Node, seen: seq<Entry>, due: set<nat>, valid: Path -> bool, k: nat, xs: seq<nat>, out: seq<Query>,
                  out': seq<Query>)
    returns (ys: seq<nat>)
    requires k < |seen| && Sends(me, seen, due, valid, k, xs, out)
    requires var e := seen[k];
             out' == if k in due && MaySendNow(e, valid) then out + [Query(me, Header(e.path), e.qdst, e.seqno)] else out
    ensures Sends(me, seen, due, valid, k + 1, ys, out')
  {
    if k in due && MaySendNow(seen[k], valid) {
      ys := xs + [k];
      assert forall x: nat :: x in ys <==> x in xs || x == k;
      assert forall i :: 0 <= i < |xs| ==> xs[i] in xs;
    } else {
      ys := xs;
    }
  }

  // --- The elements ---------------------------------------------------------------------------------

  predicate NoDup(p: seq<Node>) {
    forall i, j :: 0 <= i < j < |p| ==> p[i] != p[j]
  }

  class MetricFlood {
    const ip: Node
    var seqno: nat
    var seen: seq<Entry>

    constructor (ip: Node)
      ensures this.ip == ip && seqno == 0 && seen == []
    {
      this.ip, seqno, seen := ip, 0, [];
    }

    /** A new query carries a sequence number beyond all earlier ones and the path of its querier alone. */
    method StartFlood(qdst: Node) returns (q: Query)
      modifies this
      ensures seqno == old(seqno) + 1 && seen == old(seen)
      ensures q == Query(ip, [ip], qdst, seqno)
    {
      seqno := seqno + 1;
      q := Query(ip, [ip], qdst, seqno);
    }

    /** `passed`: the packet goes on to the responder. */
    method ProcessFlood(q: Query) returns (passed: bool)
      modifies this
      ensures seqno == old(seqno) && seen == Process(ip, old(seen), q) && passed == Accepts(ip, q)
      ensures |old(seen)| <= MAX_SEEN ==> |seen| <= MAX_SEEN
      ensures NoDup(q.path) && passed ==> seen != [] && NoDup(seen[|seen| - 1].path) && q.path < seen[|seen| - 1].path
      ensures forall e :: e in seen && e !in old(seen) ==> e.held == (e.qdst != ip)
    {
      if q.sender == ip {
        return false;
      }
      var path := q.path;
      if ip in path {
        return false;
      }
      path := path + [ip];
      if |seen| >= MAX_SEEN {
        seen := seen[1..];
      }
      seen := seen + [Entry(path, q.qdst, q.seqno, false)];
      if q.qdst == ip {
        return true;
      }
      seen := seen[|seen| - 1 := seen[|seen| - 1].(held := true)];
      return true;
    }

    /** A query goes out only if it is held and its route is valid; once asked for, it never goes out again. */
    method ForwardQuery(x: nat, valid: bool) returns (q: Option<Query>)
      requires x < |seen|
      modifies this
      ensures seqno == old(seqno) && (seen, q) == Forward(ip, old(seen), x, valid)
      ensures q.Some? <==> old(seen)[x].held && valid
      ensures forall v :: Forward(ip, seen, x, v) == (seen, None)
      ensures forall y, v :: 0 <= y < |seen| && y != x ==> Forward(ip, seen, y, v).1 == Forward(ip, old(seen), y, v).1
    {
      var e := seen[x];
      seen := seen[x := e.(held := false)];
      assert seen[x := seen[x].(held := false)] == seen;
      if !e.held || !valid {
        return None;
      }
      return Some(Query(ip, Header(e.path), e.qdst, e.seqno));
    }

    method ForwardQueryHook(due: set<nat>, valid: Path -> bool) returns (out: seq<Query>)
      modifies this
      ensures seqno == old(seqno) && (seen, out) == Hook(ip, old(seen), due, valid, |old(seen)|)
    {
      out := [];
      var x := 0;
      while x < |seen|
        invariant x <= |seen| == |old(seen)| && seqno == old(seqno)
        invariant (seen, out) == Hook(ip, old(seen), due, valid, x)
      {
        if x in due {
          var q := ForwardQuery(x, valid(seen[x].path));
          if q.Some? {
            out := out + [q.value];
          }
        }
        x := x + 1;
      }
    }
  }

  /** What `send` asserts. */
  predicate MaySend(me: Node, r: Reply) {
    r.next < |r.path| && r.path[r.next] != me
  }

  class QueryResponder {
    const ip: Node
    var queues: set<Node>

    constructor (ip: Node)
      ensures this.ip == ip && queues == {}
    {
      this.ip, queues := ip, {};
    }

    /** The assertion in `send`: a reply is never addressed to its sender. */
    method Send(r: Reply) returns (out: Reply)
      requires MaySend(ip, r)
      ensures out == r.(sender := ip)
    {
      out := r.(sender := ip);
    }

    /**
      A query whose header names up to 256 nodes, the last of them another one, is answered over its own path: first to
      the node it came through, along a path that repeats no node if the query's did not and this node was not on it.
     */
    method ReceiveQuery(q: Query, valid: bool) returns (out: Option<Reply>)
      requires 0 < |q.path| <= MAX_PATH && q.path[|q.path| - 1] != ip
      ensures out == Answer(ip, q, valid)
      ensures out.Some? <==> q.sender != ip && q.qdst == ip && valid
      ensures out.Some? ==> q.path < out.value.path && out.value.path[out.value.next] == q.path[|q.path| - 1]
      ensures out.Some? && NoDup(q.path) && ip !in q.path ==> NoDup(out.value.path)
    {
      if q.sender == ip || q.qdst != ip || !valid {
        return None;
      }
      var links := |q.path|;
      var r := Send(Reply(ip, q.path + [ip], links % 256, q.qdst, q.seqno, (links - 1) % 256));
      return Some(r);
    }

    /**
      A reply over a path that names no node twice in a row moves one node closer to the querier, over the same path, and
      leaves a data queue for its destination; no data queue is ever lost.
     */
    method ReceiveReply(r: Reply) returns (out: Option<Reply>)
      requires r.next < |r.path| && (r.next > 0 ==> r.path[r.next - 1] != r.path[r.next])
      modifies this
      ensures (queues, out) == Relay(ip, old(queues), r)
      ensures old(queues) <= queues <= old(queues) + {r.qdst}
      ensures out.Some? <==> r.sender != ip && r.path[r.next] == ip && 0 < r.next < r.links
      ensures out.Some? ==>
                && r.qdst in queues
                && out.value.next + 1 == r.next
                && out.value.path == r.path
                && r.path[out.value.next + 1] == ip
    {
      if r.sender == ip || r.path[r.next] != ip || r.next == 0 {
        return None;
      }
      out := None;
      if r.next < r.links {
        var s := Send(r.(next := r.next - 1));
        out := Some(s);
      }
      queues := queues + {r.qdst};
    }
  }
}

/**
  Floods over a network of n nodes.  A broadcast reaches any set of nodes, each copy is delivered once or lost, in any
  order; the link table's verdicts and the moments at which held queries fall due are arbitrary.
 */
module FloodNetwork {
  import opened Common
  import opened BackpressureFlood
  import opened Sums

  datatype NodeState = NodeState(seqno: nat, seen: seq<Entry>, queues: set<Node>)

  datatype Copy = Copy(receiver: Node, q: Query)

  /** A reply with the nodes that have handled it so far. */
  datatype Trace = Trace(r: Reply, visited: seq<Node>)

  datatype Flood = Flood(querier: Node, qdst: Node, seqno: nat)

  /** `copies` and `replies` are in flight; `floods`, `sent` and `done` record what has happened. */
  datatype Net = Net(nodes: seq<NodeState>, copies: seq<Copy>, replies: seq<Trace>,
                     floods: set<Flood>, sent: set<Query>, done: set<Trace>)

  datatype Step =
    | Start(at: Node, qdst: Node, heard: seq<Node>)
    | Deliver(i: nat, valid: bool)
    | SendHeld(at: Node, x: nat, valid: bool, heard: seq<Node>)
    | DeliverReply(i: nat, at: Node)
    | Lose(i: nat)
    | LoseReply(i: nat)

  function Init(n: nat): Net {
    Net(seq(n, _ => NodeState(0, [], {})), [], [], {}, {}, {})
  }

  predicate Heard(n: nat, heard: seq<Node>) {
    NoDup(heard) && forall i :: 0 <= i < |heard| ==> heard[i] < n
  }

  predicate Enabled(net: Net, s: Step) {
    var n := |net.nodes|;
    match s
    case Start(at, _, heard) => at < n && Heard(n, heard)
    case Deliver(i, _) => i < |net.copies| && net.copies[i].receiver < n
    case SendHeld(at, x, _, heard) =>
      at < n && x < |net.nodes[at].seen| && net.nodes[at].seen[x].held && Heard(n, heard)
    case DeliverReply(i, at) => i < |net.replies| && at < n
    case Lose(i) => i < |net.copies|
    case LoseReply(i) => i < |net.replies|
  }

  function Without<T>(s: seq<T>, i: nat): seq<T>
    requires i < |s|
  {
    s[..i] + s[i + 1..]
  }

  function Copies(q: Query, heard: seq<Node>): (cs: seq<Copy>)
    ensures |cs| == |heard| && forall i :: 0 <= i < |cs| ==> cs[i] == Copy(heard[i], q)
  {
    seq(|heard|, i requires 0 <= i < |heard| => Copy(heard[i], q))
  }

  function Broadcast(net: Net, q: Query, heard: seq<Node>): Net {
    net.(copies := net.copies + Copies(q, heard), sent := net.sent + {q})
  }

  function StartFlood(net: Net, at: Node, qdst: Node, heard: seq<Node>): Net
    requires at < |net.nodes|
  {
    var s := net.nodes[at];
    var k := s.seqno + 1;
    Broadcast(net.(nodes := net.nodes[at := s.(seqno := k)], floods := net.floods + {Flood(at, qdst, k)}),
              Query(at, [at], qdst, k), heard)
  }

  /** Reception of a query: the flood element, then the responder if the packet is passed on. */
  function ReceiveQuery(net: Net, me: Node, q: Query, valid: bool): Net
    requires me < |net.nodes|
  {
    var s := net.nodes[me];
    var r := if Accepts(me, q) then Answer(me, q, valid) else None;
    net.(nodes := net.nodes[me := s.(seen := Process(me, s.seen, q))],
         replies := if r.Some? then net.replies + [Trace(r.value, [me])] else net.replies)
  }

  function SendQuery(net: Net, at: Node, x: nat, valid: bool, heard: seq<Node>): Net
    requires at < |net.nodes| && x < |net.nodes[at].seen|
  {
    var s := net.nodes[at];
    var (seen, q) := Forward(at, s.seen, x, valid);
    var net' := net.(nodes := net.nodes[at := s.(seen := seen)]);
    if q.Some? then Broadcast(net', q.value, heard) else net'
  }

  function ReceiveReply(net: Net, at: Node, t: Trace): Net
    requires at < |net.nodes|
  {
    var s := net.nodes[at];
    var (queues, r) := Relay(at, s.queues, t.r);
    var here := Trace(t.r, t.visited + [at]);
    net.(nodes := net.nodes[at := s.(queues := queues)],
         replies := if r.Some? then net.replies + [Trace(r.value, t.visited + [at])] else net.replies,
         done := if Arrives(at, t.r) then net.done + {here} else net.done)
  }

  /** `got_reply` is called. */
  predicate Arrives(at: Node, r: Reply) {
    r.sender != at && r.next == 0 && r.path != [] && r.path[0] == at
  }

  function Next(net: Net, s: Step): Net
    requires Enabled(net, s)
  {
    match s
    case Start(at, qdst, heard) => StartFlood(net, at, qdst, heard)
    case Deliver(i, valid) =>
      ReceiveQuery(net.(copies := Without(net.copies, i)), net.copies[i].receiver, net.copies[i].q, valid)
    case SendHeld(at, x, valid, heard) => SendQuery(net, at, x, valid, heard)
    case DeliverReply(i, at) => ReceiveReply(net.(replies := Without(net.replies, i)), at, net.replies[i])
    case Lose(i) => net.(copies := Without(net.copies, i))
    case LoseReply(i) => net.(replies := Without(net.replies, i))
  }

  predicate IsRun(net: Net, steps: seq<Step>)
    decreases |steps|
  {
    steps != [] ==> Enabled(net, steps[0]) && IsRun(Next(net, steps[0]), steps[1..])
  }

  function After(net: Net, steps: seq<Step>): Net
    requires IsRun(net, steps)
    decreases |steps|
  {
    if steps == [] then net else After(Next(net, steps[0]), steps[1..])
  }

  // --- The invariant -----------------------------------------------------------------------------------

  predicate IsPath(n: nat, p: Path) {
    NoDup(p) && p != [] && forall i :: 0 <= i < |p| ==> p[i] < n
  }

  /** The broadcast from which the last node of a path got the query. */
  function Previous(p: Path, qdst: Node, seqno: nat): Query
    requires |p| > 1
  {
    Query(p[|p| - 2], p[..|p| - 1], qdst, seqno)
  }

  /** The broadcast by the last node of a path itself; a wrapped header may come from a node further down. */
  function Honest(p: Path, qdst: Node, seqno: nat): Query
    requires p != []
  {
    Query(p[|p| - 1], p, qdst, seqno)
  }

  predicate SentOk(net: Net, q: Query) {
    && IsPath(|net.nodes|, q.path)
    && |q.path| <= MAX_PATH
    && Flood(q.path[0], q.qdst, q.seqno) in net.floods
    && Honest(q.path, q.qdst, q.seqno) in net.sent
    && (|q.path| > 1 ==> Previous(q.path, q.qdst, q.seqno) in net.sent)
  }

  predicate EntryOk(net: Net, at: Node, e: Entry) {
    && IsPath(|net.nodes|, e.path)
    && |e.path| > 1
    && e.path[|e.path| - 1] == at
    && Flood(e.path[0], e.qdst, e.seqno) in net.floods
    && Previous(e.path, e.qdst, e.seqno) in net.sent
  }

  predicate HasQueue(net: Net, at: Node, qdst: Node) {
    at < |net.nodes| && qdst in net.nodes[at].queues
  }

  predicate Queued(net: Net, p: Path, from: int, qdst: Node) {
    forall i :: 0 <= from < i < |p| - 1 ==> HasQueue(net, p[i], qdst)
  }

  /** The path of a reply is the path of a query of a known flood, completed with the destination. */
  predicate Answers(net: Net, p: Path, links: Byte, qdst: Node, seqno: nat) {
    && IsPath(|net.nodes|, p)
    && 1 < |p| <= MAX_PATH + 1
    && links == (|p| - 1) % MAX_PATH
    && p[|p| - 1] == qdst
    && Flood(p[0], qdst, seqno) in net.floods
    && Previous(p, qdst, seqno) in net.sent
  }

  function Reverse(p: Path): (r: Path)
    ensures |r| == |p| && forall i :: 0 <= i < |p| ==> r[i] == p[|p| - 1 - i]
  {
    if p == [] then [] else Reverse(p[1..]) + [p[0]]
  }

  predicate TraceOk(net: Net, t: Trace) {
    && Answers(net, t.r.path, t.r.links, t.r.qdst, t.r.seqno)
    && t.r.next < |t.r.path| - 1
    && (|t.r.path| > MAX_PATH ==> t.r.next == MAX_PATH - 1)
    && t.r.sender == t.r.path[t.r.next + 1]
    && t.visited == Reverse(t.r.path[t.r.next + 1..])
    && Queued(net, t.r.path, t.r.next, t.r.qdst)
  }

  predicate DoneOk(net: Net, t: Trace) {
    && Answers(net, t.r.path, t.r.links, t.r.qdst, t.r.seqno)
    && |t.r.path| <= MAX_PATH
    && t.visited == Reverse(t.r.path)
    && Queued(net, t.r.path, 0, t.r.qdst)
  }

  predicate AllSent(net: Net) {
    forall q {:trigger SentOk(net, q)} :: q in net.sent ==> SentOk(net, q)
  }

  predicate CopyOk(net: Net, c: Copy) {
    c.receiver < |net.nodes| && c.q in net.sent
  }

  predicate AllCopies(net: Net) {
    forall c {:trigger CopyOk(net, c)} :: c in net.copies ==> CopyOk(net, c)
  }

  predicate AllEntries(net: Net) {
    forall a, e {:trigger EntryOk(net, a, e)} :: 0 <= a < |net.nodes| && e in net.nodes[a].seen ==> EntryOk(net, a, e)
  }

  predicate AllReplies(net: Net) {
    forall t {:trigger TraceOk(net, t)} :: t in net.replies ==> TraceOk(net, t)
  }

  predicate AllDone(net: Net) {
    forall t {:trigger DoneOk(net, t)} :: t in net.done ==> DoneOk(net, t)
  }

  predicate Inv(net: Net) {
    AllSent(net) && AllCopies(net) && AllEntries(net) && AllReplies(net) && AllDone(net)
  }

  /** Logs and data queues only grow. */
  predicate Grows(net: Net, net': Net) {
    && |net'.nodes| == |net.nodes|
    && net.floods <= net'.floods
    && net.sent <= net'.sent
    && forall a :: 0 <= a < |net.nodes| ==> net.nodes[a].queues <= net'.nodes[a].queues
  }

  lemma QueuedGrows(net: Net, net': Net, p: Path, from: int, qdst: Node)
    requires Grows(net, net') && Queued(net, p, from, qdst)
    ensures Queued(net', p, from, qdst)
  {
    forall i | 0 <= from < i < |p| - 1
      ensures HasQueue(net', p[i], qdst)
    {
      assert HasQueue(net, p[i], qdst);
    }
  }

  lemma TraceGrows(net: Net, net': Net, t: Trace)
    requires Grows(net, net')
    ensures TraceOk(net, t) ==> TraceOk(net', t)
    ensures DoneOk(net, t) ==> DoneOk(net', t)
  {
    if TraceOk(net, t) {
      QueuedGrows(net, net', t.r.path, t.r.next, t.r.qdst);
    }
    if DoneOk(net, t) {
      QueuedGrows(net, net', t.r.path, 0, t.r.qdst);
    }
  }

  /** What holds of old messages keeps holding; only what a step adds has to be looked at. */
  lemma Preserve(net: Net, net': Net)
    requires Inv(net) && Grows(net, net')
    requires forall q {:trigger SentOk(net', q)} :: q in net'.sent ==> q in net.sent || SentOk(net', q)
    requires forall c {:trigger CopyOk(net', c)} :: c in net'.copies ==> c in net.copies || CopyOk(net', c)
    requires forall a, e {:trigger EntryOk(net', a, e)} :: 0 <= a < |net'.nodes| && e in net'.nodes[a].seen ==>
               e in net.nodes[a].seen || EntryOk(net', a, e)
    requires forall t {:trigger TraceOk(net', t)} :: t in net'.replies ==> t in net.replies || TraceOk(net', t)
    requires forall t {:trigger DoneOk(net', t)} :: t in net'.done ==> t in net.done || DoneOk(net', t)
    ensures Inv(net')
  {
    forall q | q in net'.sent
      ensures SentOk(net', q)
    {
      assert q in net.sent ==> SentOk(net, q);
    }
    forall c | c in net'.copies
      ensures CopyOk(net', c)
    {
      assert c in net.copies ==> CopyOk(net, c);
    }
    forall a, e | 0 <= a < |net'.nodes| && e in net'.nodes[a].seen
      ensures EntryOk(net', a, e)
    {
      assert e in net.nodes[a].seen ==> EntryOk(net, a, e);
    }
    forall t | t in net'.replies
      ensures TraceOk(net', t)
    {
      assert t in net.replies ==> TraceOk(net, t);
      TraceGrows(net, net', t);
    }
    forall t | t in net'.done
      ensures DoneOk(net', t)
    {
      assert t in net.done ==> DoneOk(net, t);
      TraceGrows(net, net', t);
    }
  }

  lemma StartKeepsInv(net: Net, at: Node, qdst: Node, heard: seq<Node>)
    requires Inv(net) && at < |net.nodes| && Heard(|net.nodes|, heard)
    ensures Inv(StartFlood(net, at, qdst, heard))
  {
    var net' := StartFlood(net, at, qdst, heard);
    var q := Query(at, [at], qdst, net.nodes[at].seqno + 1);
    assert SentOk(net', q);
    Preserve(net, net');
  }

  /** The path a query has at the node that accepts it. */
  lemma Extend(net: Net, me: Node, q: Query)
    requires SentOk(net, q) && q in net.sent && me < |net.nodes| && Accepts(me, q)
    ensures var p := q.path + [me]; IsPath(|net.nodes|, p) && Previous(p, q.qdst, q.seqno) in net.sent
  {
    var p := q.path + [me];
    assert p[..|p| - 1] == q.path;
  }

  lemma AcceptedEntry(net: Net, me: Node, q: Query, held: bool)
    requires SentOk(net, q) && q in net.sent && me < |net.nodes| && Accepts(me, q)
    ensures EntryOk(net, me, Entry(q.path + [me], q.qdst, q.seqno, held))
  {
    Extend(net, me, q);
  }

  lemma AnswersStart(net: Net, me: Node, q: Query)
    requires SentOk(net, q) && q in net.sent && me < |net.nodes| && Accepts(me, q) && q.qdst == me
    ensures Answers(net, q.path + [me], |q.path| % MAX_PATH, q.qdst, q.seqno)
  {
    Extend(net, me, q);
  }

  lemma TraceStarts(net: Net, r: Reply)
    requires Answers(net, r.path, r.links, r.qdst, r.seqno) && r.next == |r.path| - 2
    requires r.sender == r.path[|r.path| - 1]
    ensures TraceOk(net, Trace(r, [r.sender]))
  {
    assert r.path[r.next + 1..] == [r.sender];
    assert Reverse([r.sender]) == [r.sender];
  }

  lemma StartedReply(net: Net, me: Node, q: Query)
    requires SentOk(net, q) && q in net.sent && me < |net.nodes| && Accepts(me, q) && q.qdst == me
    ensures TraceOk(net, Trace(StartReply(me, q), [me]))
  {
    AnswersStart(net, me, q);
    TraceStarts(net, StartReply(me, q));
  }

  /** What a received query changes. */
  lemma ReceiveAdds(net: Net, me: Node, q: Query, valid: bool)
    requires me < |net.nodes|
    ensures var net' := ReceiveQuery(net, me, q, valid);
            && Grows(net, net')
            && (net'.copies, net'.sent, net'.floods, net'.done) == (net.copies, net.sent, net.floods, net.done)
            && (forall a, e ::
                  0 <= a < |net.nodes| && e in net'.nodes[a].seen && e !in net.nodes[a].seen ==>
                  a == me && Accepts(me, q) && e == Entry(q.path + [me], q.qdst, q.seqno, q.qdst != me))
            && (forall t ::
                  t in net'.replies && t !in net.replies ==>
                  && Accepts(me, q)
                  && q.qdst == me
                  && t == Trace(StartReply(me, q), [me]))
  {
  }

  lemma ReceiveKeepsInv(net: Net, me: Node, q: Query, valid: bool)
    requires Inv(net) && me < |net.nodes| && q in net.sent
    ensures Inv(ReceiveQuery(net, me, q, valid))
  {
    var net' := ReceiveQuery(net, me, q, valid);
    ReceiveAdds(net, me, q, valid);
    assert SentOk(net, q);
    AddedOk(net', me, q);
    Preserve(net, net');
  }

  /** What a received query adds is in order. */
  lemma AddedOk(net: Net, me: Node, q: Query)
    requires SentOk(net, q) && q in net.sent && me < |net.nodes|
    ensures Accepts(me, q) ==> EntryOk(net, me, Entry(q.path + [me], q.qdst, q.seqno, q.qdst != me))
    ensures Accepts(me, q) && q.qdst == me ==> TraceOk(net, Trace(StartReply(me, q), [me]))
  {
    if Accepts(me, q) {
      AcceptedEntry(net, me, q, q.qdst != me);
      if q.qdst == me {
        StartedReply(net, me, q);
      }
    }
  }

  /** Pigeonhole: a duplicate-free path has at most n nodes. */
  lemma {:induction false} PathFits(n: nat, p: Path)
    requires IsPath(n, p)
    ensures |p| <= n
  {
    var used := set i | 0 <= i < |p| :: p[i];
    Distinct(p);
    Below(n, used);
  }

  lemma {:induction false} Distinct(p: Path)
    requires NoDup(p)
    ensures |set i | 0 <= i < |p| :: p[i]| == |p|
  {
    if p != [] {
      var k := |p| - 1;
      var q := p[..k];
      Distinct(q);
      var rest := set i | 0 <= i < |q| :: q[i];
      assert (set i | 0 <= i < |p| :: p[i]) == rest + {p[k]};
    }
  }

  lemma {:induction false} Below(n: nat, s: set<Node>)
    requires forall x :: x in s ==> x < n
    ensures |s| <= n
  {
    if n == 0 {
      assert s == {};
    } else {
      Below(n - 1, s - {n - 1});
    }
  }

  predicate WasBroadcast(net: Net, p: Path, k: nat, qdst: Node, seqno: nat) {
    0 < k <= |p| && Query(p[k - 1], p[..k], qdst, seqno) in net.sent
  }

  lemma {:induction false} PrefixesSent(net: Net, q: Query, k: nat)
    requires Inv(net) && q in net.sent && 0 < k <= |q.path|
    ensures WasBroadcast(net, q.path, k, q.qdst, q.seqno)
    decreases |q.path|
  {
    assert SentOk(net, q);
    if k == |q.path| {
      assert q.path[..k] == q.path;
    } else {
      var prev := Previous(q.path, q.qdst, q.seqno);
      PrefixesSent(net, prev, k);
      assert prev.path[..k] == q.path[..k];
    }
  }

  /** What goes out for a held query, wrapped or not, has a path that its last node has broadcast too. */
  lemma SentHeader(net: Net, at: Node, e: Entry)
    requires Inv(net) && EntryOk(net, at, e)
    ensures var h := Header(e.path);
            && IsPath(|net.nodes|, h)
            && Flood(h[0], e.qdst, e.seqno) in net.floods
            && (h == e.path || Honest(h, e.qdst, e.seqno) in net.sent)
            && (|h| > 1 ==> Previous(h, e.qdst, e.seqno) in net.sent)
  {
    var (h, prev) := (Header(e.path), Previous(e.path, e.qdst, e.seqno));
    if h != e.path {
      PrefixesSent(net, prev, |h|);
      assert prev.path[..|h|] == h;
      assert SentOk(net, Honest(h, e.qdst, e.seqno));
    }
  }

  lemma SendKeepsInv(net: Net, at: Node, x: nat, valid: bool, heard: seq<Node>)
    requires Inv(net) && Enabled(net, SendHeld(at, x, valid, heard))
    ensures Inv(SendQuery(net, at, x, valid, heard))
  {
    var net' := SendQuery(net, at, x, valid, heard);
    var e := net.nodes[at].seen[x];
    assert EntryOk(net, at, e);
    assert EntryOk(net', at, e.(held := false));
    SentHeader(net, at, e);
    if valid {
      assert SentOk(net', Query(at, Header(e.path), e.qdst, e.seqno));
    }
    Preserve(net, net');
  }

  lemma ReverseGrows(p: Path, k: nat)
    requires k < |p|
    ensures Reverse(p[k..]) == Reverse(p[k + 1..]) + [p[k]]
  {
    assert p[k..][1..] == p[k + 1..];
  }

  /** What an arriving reply changes. */
  lemma ReplyAdds(net: Net, at: Node, t: Trace)
    requires at < |net.nodes|
    ensures var (net', r) := (ReceiveReply(net, at, t), Relay(at, net.nodes[at].queues, t.r).1);
            && Grows(net, net')
            && (net'.copies, net'.sent, net'.floods) == (net.copies, net.sent, net.floods)
            && (forall a :: 0 <= a < |net.nodes| ==> net'.nodes[a].seen == net.nodes[a].seen)
            && (r.Some? ==> HasQueue(net', at, t.r.qdst))
            && (forall u :: u in net'.replies && u !in net.replies ==> r.Some? && u == Trace(r.value, t.visited + [at]))
            && (forall u :: u in net'.done && u !in net.done ==> Arrives(at, t.r) && u == Trace(t.r, t.visited + [at]))
  {
  }

  lemma ReplyKeepsInv(net: Net, at: Node, t: Trace)
    requires Inv(net) && at < |net.nodes| && TraceOk(net, t)
    ensures Inv(ReceiveReply(net, at, t))
  {
    var net' := ReceiveReply(net, at, t);
    var r := Relay(at, net.nodes[at].queues, t.r).1;
    ReplyAdds(net, at, t);
    TraceGrows(net, net', t);
    if Arrives(at, t.r) {
      Arrived(net', at, t);
    }
    if r.Some? {
      Relayed(net', at, t);
    }
    Preserve(net, net');
  }

  lemma Arrived(net: Net, at: Node, t: Trace)
    requires TraceOk(net, t) && Arrives(at, t.r)
    ensures DoneOk(net, Trace(t.r, t.visited + [at]))
  {
    ReverseGrows(t.r.path, 0);
    assert t.r.path[0..] == t.r.path;
  }

  lemma Relayed(net: Net, at: Node, t: Trace)
    requires TraceOk(net, t) && 0 < t.r.next < t.r.links && t.r.path[t.r.next] == at && HasQueue(net, at, t.r.qdst)
    ensures TraceOk(net, Trace(t.r.(sender := at, next := t.r.next - 1), t.visited + [at]))
  {
    var (p, k) := (t.r.path, t.r.next);
    ReverseGrows(p, k);
    QueuedOneMore(net, p, k, t.r.qdst);
    ShortPath(net, p, t.r.links, t.r.qdst, t.r.seqno, k);
    TraceFrom(net, Reply(at, p, t.r.links, t.r.qdst, t.r.seqno, k - 1), t.visited + [at]);
  }

  lemma ShortPath(net: Net, p: Path, links: Byte, qdst: Node, seqno: nat, k: nat)
    requires Answers(net, p, links, qdst, seqno) && k < links
    ensures |p| <= MAX_PATH
  {
  }

  lemma TraceFrom(net: Net, r: Reply, visited: seq<Node>)
    requires Answers(net, r.path, r.links, r.qdst, r.seqno) && |r.path| <= MAX_PATH && r.next < |r.path| - 1
    requires r.sender == r.path[r.next + 1] && visited == Reverse(r.path[r.next + 1..])
    requires Queued(net, r.path, r.next, r.qdst)
    ensures TraceOk(net, Trace(r, visited))
  {
  }

  lemma QueuedOneMore(net: Net, p: Path, k: nat, qdst: Node)
    requires 0 < k < |p| && Queued(net, p, k, qdst) && HasQueue(net, p[k], qdst)
    ensures Queued(net, p, k - 1, qdst)
  {
  }

  lemma DropKeepsInv(net: Net, net': Net)
    requires Inv(net) && net' == net.(copies := net'.copies, replies := net'.replies)
    requires forall c :: c in net'.copies ==> c in net.copies
    requires forall t :: t in net'.replies ==> t in net.replies
    ensures Inv(net')
  {
    Preserve(net, net');
  }

  lemma StepKeepsInv(net: Net, s: Step)
    requires Inv(net) && Enabled(net, s)
    ensures Inv(Next(net, s)) && |Next(net, s).nodes| == |net.nodes|
  {
    match s {
      case Start(at, qdst, heard) => StartKeepsInv(net, at, qdst, heard);
      case Deliver(i, valid) =>
        var net0 := net.(copies := Without(net.copies, i));
        DropKeepsInv(net, net0);
        assert CopyOk(net, net.copies[i]);
        ReceiveKeepsInv(net0, net.copies[i].receiver, net.copies[i].q, valid);
      case SendHeld(at, x, valid, heard) => SendKeepsInv(net, at, x, valid, heard);
      case DeliverReply(i, at) =>
        var net0 := net.(replies := Without(net.replies, i));
        DropKeepsInv(net, net0);
        assert TraceOk(net, net.replies[i]);
        TraceGrows(net, net0, net.replies[i]);
        ReplyKeepsInv(net0, at, net.replies[i]);
      case Lose(i) => DropKeepsInv(net, Next(net, s));
      case LoseReply(i) => DropKeepsInv(net, Next(net, s));
    }
  }

  lemma {:induction false} RunKeepsInv(net: Net, steps: seq<Step>)
    requires Inv(net) && IsRun(net, steps)
    ensures Inv(After(net, steps)) && |After(net, steps).nodes| == |net.nodes|
    decreases |steps|
  {
    if steps != [] {
      StepKeepsInv(net, steps[0]);
      RunKeepsInv(Next(net, steps[0]), steps[1..]);
    }
  }

  lemma InitInv(n: nat)
    ensures Inv(Init(n)) && |Init(n).nodes| == n
  {
  }

  // --- What the runs of a network guarantee ------------------------------------------------------------

  /**
    Every query ever broadcast carries a duplicate-free path that starts at the node that began the flood, and each
    node on it did broadcast the query with the path up to itself.
   */
  lemma QueryPaths(n: nat, steps: seq<Step>, q: Query)
    requires IsRun(Init(n), steps) && q in After(Init(n), steps).sent
    ensures IsPath(n, q.path)
    ensures var net := After(Init(n), steps);
            && Flood(q.path[0], q.qdst, q.seqno) in net.floods
            && forall k :: 0 < k <= |q.path| ==> WasBroadcast(net, q.path, k, q.qdst, q.seqno)
  {
    InitInv(n);
    RunKeepsInv(Init(n), steps);
    var net := After(Init(n), steps);
    assert SentOk(net, q);
    forall k | 0 < k <= |q.path|
      ensures WasBroadcast(net, q.path, k, q.qdst, q.seqno)
    {
      PrefixesSent(net, q, k);
    }
  }

  /**
    Every reply that reaches the querier has visited exactly the reverse of a path the query took, destination first,
    and has left a data queue for the destination at every node in between.
   */
  lemma RepliesRetrace(n: nat, steps: seq<Step>, t: Trace)
    requires IsRun(Init(n), steps) && t in After(Init(n), steps).done
    ensures var (net, p) := (After(Init(n), steps), t.r.path);
            && IsPath(n, p)
            && 1 < |p| <= MAX_PATH
            && p[|p| - 1] == t.r.qdst
            && t.visited == Reverse(p)
            && Flood(p[0], t.r.qdst, t.r.seqno) in net.floods
            && (forall k :: 0 < k < |p| ==> WasBroadcast(net, p, k, t.r.qdst, t.r.seqno))
            && (forall i :: 0 < i < |p| - 1 ==> HasQueue(net, p[i], t.r.qdst))
  {
    InitInv(n);
    RunKeepsInv(Init(n), steps);
    var (net, p) := (After(Init(n), steps), t.r.path);
    assert DoneOk(net, t);
    var q := Previous(p, t.r.qdst, t.r.seqno);
    forall k | 0 < k < |p|
      ensures WasBroadcast(net, p, k, t.r.qdst, t.r.seqno)
    {
      PrefixesSent(net, q, k);
      assert q.path[..k] == p[..k];
    }
  }

  /**
    The assertion in `send` never fails.  The "strange next" branch of `forward_reply` is taken exactly by replies over
    one node more than a header can count, which therefore die at their first hop.
   */
  lemma SendAssertion(n: nat, steps: seq<Step>, t: Trace)
    requires IsRun(Init(n), steps) && t in After(Init(n), steps).replies
    ensures MaySend(t.r.sender, t.r) && t.r.next < |t.r.path| - 1
    ensures t.r.next >= t.r.links <==> |t.r.path| > MAX_PATH
  {
    InitInv(n);
    RunKeepsInv(Init(n), steps);
    assert TraceOk(After(Init(n), steps), t);
  }

  /** Every copy in flight carries a duplicate-free path that starts at the node that began its flood. */
  lemma CopyPaths(n: nat, steps: seq<Step>, c: Copy)
    requires IsRun(Init(n), steps) && c in After(Init(n), steps).copies
    ensures IsPath(n, c.q.path) && Flood(c.q.path[0], c.q.qdst, c.q.seqno) in After(Init(n), steps).floods
  {
    InitInv(n);
    RunKeepsInv(Init(n), steps);
    assert CopyOk(After(Init(n), steps), c) && SentOk(After(Init(n), steps), c.q);
  }

  // --- Sequence numbers and the list of seen queries ----------------------------------------------------------

  predicate FloodOk(net: Net, f: Flood) {
    f.querier < |net.nodes| && 1 <= f.seqno <= net.nodes[f.querier].seqno
  }

  /** Sequence numbers in use are not beyond the counters and tell floods apart; no list is longer than allowed. */
  predicate Bookkeeping(net: Net) {
    && (forall f {:trigger FloodOk(net, f)} :: f in net.floods ==> FloodOk(net, f))
    && (forall f, g :: f in net.floods && g in net.floods && f.querier == g.querier && f.seqno == g.seqno ==> f == g)
    && (forall a :: 0 <= a < |net.nodes| ==> |net.nodes[a].seen| <= MAX_SEEN)
  }

  /** Every step but a start leaves floods and counters alone. */
  lemma QuietStep(net: Net, s: Step)
    requires Enabled(net, s) && !s.Start?
    ensures var net' := Next(net, s);
            && net'.floods == net.floods
            && |net'.nodes| == |net.nodes|
            && forall a :: 0 <= a < |net.nodes| ==>
                 && net'.nodes[a].seqno == net.nodes[a].seqno
                 && (|net.nodes[a].seen| <= MAX_SEEN ==> |net'.nodes[a].seen| <= MAX_SEEN)
  {
  }

  lemma StepKeepsBooks(net: Net, s: Step)
    requires Bookkeeping(net) && Enabled(net, s)
    ensures Bookkeeping(Next(net, s))
  {
    var net' := Next(net, s);
    if !s.Start? {
      QuietStep(net, s);
    }
    forall f | f in net'.floods
      ensures FloodOk(net', f)
    {
      assert f in net.floods ==> FloodOk(net, f);
    }
    forall f, g | f in net'.floods && g in net'.floods && f.querier == g.querier && f.seqno == g.seqno
      ensures f == g
    {
      assert (f in net.floods ==> FloodOk(net, f)) && (g in net.floods ==> FloodOk(net, g));
    }
  }

  lemma {:induction false} RunKeepsBooks(net: Net, steps: seq<Step>)
    requires Bookkeeping(net) && IsRun(net, steps)
    ensures Bookkeeping(After(net, steps))
    decreases |steps|
  {
    if steps != [] {
      StepKeepsBooks(net, steps[0]);
      RunKeepsBooks(Next(net, steps[0]), steps[1..]);
    }
  }

  /** In every run, querier and sequence number identify a flood, and no node remembers more than 100 queries. */
  lemma FloodsIdentified(n: nat, steps: seq<Step>, f: Flood, g: Flood, a: Node)
    requires IsRun(Init(n), steps)
    requires f in After(Init(n), steps).floods && g in After(Init(n), steps).floods
    ensures f.querier == g.querier && f.seqno == g.seqno ==> f == g
    ensures a < |After(Init(n), steps).nodes| ==> |After(Init(n), steps).nodes[a].seen| <= MAX_SEEN
  {
    RunKeepsBooks(Init(n), steps);
  }

  // --- Every path is found ---------------------------------------------------------------------------------

  lemma Prepend(net: Net, s: Step, rest: seq<Step>)
    requires Enabled(net, s) && IsRun(Next(net, s), rest)
    ensures IsRun(net, [s] + rest) && After(net, [s] + rest) == After(Next(net, s), rest)
  {
    assert ([s] + rest)[1..] == rest;
  }

  predicate Found(net: Net, p: Path, qdst: Node) {
    exists t :: t in net.done && t.r.path == p && t.r.qdst == qdst
  }

  predicate ReplyInFlight(net: Net, p: Path, k: nat) {
    && k + 1 < |p|
    && net.replies != []
    && var r := net.replies[|net.replies| - 1].r;
       r.path == p && r.links == (|p| - 1) % MAX_PATH && r.next == k && r.sender == p[k + 1] && r.qdst == p[|p| - 1]
  }

  lemma {:induction false} WalkBack(net: Net, p: Path, k: nat) returns (steps: seq<Step>)
    requires IsPath(|net.nodes|, p) && |p| <= MAX_PATH && ReplyInFlight(net, p, k)
    ensures IsRun(net, steps) && Found(After(net, steps), p, p[|p| - 1])
    decreases k
  {
    var s := DeliverReply(|net.replies| - 1, p[k]);
    var net', t := Next(net, s), net.replies[|net.replies| - 1];
    if k == 0 {
      assert Trace(t.r, t.visited + [p[k]]) in net'.done;
      steps := [s] + [];
      Prepend(net, s, []);
    } else {
      assert ReplyInFlight(net', p, k - 1);
      var rest := WalkBack(net', p, k - 1);
      steps := [s] + rest;
      Prepend(net, s, rest);
    }
  }

  predicate QueryInFlight(net: Net, p: Path, k: nat) {
    && 0 < k < |p|
    && |net.copies| == 1
    && net.copies[0].receiver == p[k]
    && net.copies[0].q.sender == p[k - 1]
    && net.copies[0].q.path == p[..k]
    && net.copies[0].q.qdst == p[|p| - 1]
  }

  lemma ArriveAt(net: Net, p: Path, k: nat)
    requires IsPath(|net.nodes|, p) && |p| <= MAX_PATH && QueryInFlight(net, p, k) && k == |p| - 1
    ensures var s := Deliver(0, true); Enabled(net, s) && ReplyInFlight(Next(net, s), p, k - 1)
  {
    assert p[..k] + [p[k]] == p;
  }

  /** A node takes in the only copy in flight and keeps it for sending. */
  lemma TakeIn(net: Net, me: Node, q: Query)
    requires net.copies == [Copy(me, q)] && me < |net.nodes| && Accepts(me, q) && q.qdst != me
    ensures var s := Deliver(0, true);
            && Enabled(net, s)
            && var net' := Next(net, s);
               && net'.copies == []
               && |net'.nodes| == |net.nodes|
               && net'.nodes[me].seen != []
               && net'.nodes[me].seen[|net'.nodes[me].seen| - 1] == Entry(q.path + [me], q.qdst, q.seqno, true)
  {
    assert Without(net.copies, 0) == [];
  }

  /** A node sends the last query it holds to one neighbour. */
  lemma SendOut(net: Net, me: Node, other: Node)
    requires net.copies == [] && me < |net.nodes| && other < |net.nodes| && net.nodes[me].seen != []
    requires net.nodes[me].seen[|net.nodes[me].seen| - 1].held
    ensures var x := |net.nodes[me].seen| - 1;
            var (s, e) := (SendHeld(me, x, true, [other]), net.nodes[me].seen[x]);
            && Enabled(net, s)
            && Next(net, s).copies == [Copy(other, Query(me, Header(e.path), e.qdst, e.seqno))]
            && |Next(net, s).nodes| == |net.nodes|
  {
    var e := net.nodes[me].seen[|net.nodes[me].seen| - 1];
    var q := Query(me, Header(e.path), e.qdst, e.seqno);
    assert [] + Copies(q, [other]) == [Copy(other, q)];
  }

  /** Both steps together: the only copy in flight moves on by one node. */
  lemma MoveOn(net: Net, me: Node, q: Query, other: Node) returns (a: Step, b: Step)
    requires net.copies == [Copy(me, q)] && me < |net.nodes| && other < |net.nodes| && Accepts(me, q) && q.qdst != me
    ensures !a.Start? && !b.Start? && Enabled(net, a) && Enabled(Next(net, a), b)
    ensures var net' := Next(Next(net, a), b);
            && |net'.nodes| == |net.nodes|
            && net'.copies == [Copy(other, Query(me, Header(q.path + [me]), q.qdst, q.seqno))]
  {
    a := Deliver(0, true);
    TakeIn(net, me, q);
    var net1 := Next(net, a);
    b := SendHeld(me, |net1.nodes[me].seen| - 1, true, [other]);
    SendOut(net1, me, other);
  }

  lemma PassOn(net: Net, p: Path, k: nat) returns (a: Step, b: Step)
    requires IsPath(|net.nodes|, p) && |p| <= MAX_PATH && QueryInFlight(net, p, k) && k < |p| - 1
    ensures Enabled(net, a) && Enabled(Next(net, a), b)
    ensures var net' := Next(Next(net, a), b); |net'.nodes| == |net.nodes| && QueryInFlight(net', p, k + 1)
  {
    assert p[..k] + [p[k]] == p[..k + 1];
    a, b := MoveOn(net, p[k], net.copies[0].q, p[k + 1]);
  }

  lemma {:induction false} WalkOut(net: Net, p: Path, k: nat) returns (steps: seq<Step>)
    requires IsPath(|net.nodes|, p) && |p| <= MAX_PATH && QueryInFlight(net, p, k)
    ensures IsRun(net, steps) && Found(After(net, steps), p, p[|p| - 1])
    decreases |p| - k
  {
    if k == |p| - 1 {
      ArriveAt(net, p, k);
      var s := Deliver(0, true);
      var rest := WalkBack(Next(net, s), p, k - 1);
      steps := [s] + rest;
      Prepend(net, s, rest);
    } else {
      var a, b := PassOn(net, p, k);
      var rest := WalkOut(Next(Next(net, a), b), p, k + 1);
      steps := [a] + ([b] + rest);
      Prepend(Next(net, a), b, rest);
      Prepend(net, a, [b] + rest);
    }
  }

  /** Every duplicate-free path of up to 256 nodes can come back in a reply. */
  lemma EveryPathIsFound(n: nat, p: Path) returns (steps: seq<Step>)
    requires IsPath(n, p) && 1 < |p| <= MAX_PATH
    ensures IsRun(Init(n), steps) && Found(After(Init(n), steps), p, p[|p| - 1])
  {
    var s := Start(p[0], p[|p| - 1], [p[1]]);
    assert QueryInFlight(Next(Init(n), s), p, 1);
    var rest := WalkOut(Next(Init(n), s), p, 1);
    steps := [s] + rest;
    Prepend(Init(n), s, rest);
  }

  ghost predicate Finds(n: nat, steps: seq<Step>, p: Path)
    requires p != []
  {
    IsRun(Init(n), steps) && Found(After(Init(n), steps), p, p[|p| - 1])
  }

  /** Partner of RepliesRetrace: the paths that can come back in a reply are exactly those a header can count. */
  lemma FoundExactly(n: nat, p: Path)
    requires IsPath(n, p) && |p| > 1
    ensures (exists steps :: Finds(n, steps, p)) <==> |p| <= MAX_PATH
  {
    if |p| <= MAX_PATH {
      var steps := EveryPathIsFound(n, p);
      assert Finds(n, steps, p);
    }
    forall steps | Finds(n, steps, p)
      ensures |p| <= MAX_PATH
    {
      FoundIsShort(n, steps, p);
    }
  }

  lemma FoundIsShort(n: nat, steps: seq<Step>, p: Path)
    requires p != [] && Finds(n, steps, p)
    ensures |p| <= MAX_PATH
  {
    var t :| t in After(Init(n), steps).done && t.r.path == p && t.r.qdst == p[|p| - 1];
    RepliesRetrace(n, steps, t);
  }

  // --- A flood is finite ---------------------------------------------------------------------------------

  /** More than the number of steps one copy can cause when m nodes are not on its path yet. */
  function CopyWeight(n: nat, m: int): (w: nat)
    ensures w > n
    decreases if m < 0 then 0 else m, 0
  {
    n + 2 + if m <= 0 then 0 else HeldWeight(n, m - 1)
  }

  /** The same for a query held at a node. */
  function HeldWeight(n: nat, m: int): (w: nat)
    ensures w > 0
    decreases if m < 0 then 0 else m, 1
  {
    1 + n * CopyWeight(n, m)
  }

  function OfCopy(n: nat): Copy -> nat {
    (c: Copy) => CopyWeight(n, n - |c.q.path|)
  }

  function OfEntry(n: nat): Entry -> nat {
    (e: Entry) => if e.held then HeldWeight(n, n - |e.path|) else 0
  }

  function OfNode(n: nat): NodeState -> nat {
    (s: NodeState) => Sum(s.seen, OfEntry(n))
  }

  function OfReply(): Trace -> nat {
    (t: Trace) => t.r.next + 1
  }

  function Weight(net: Net): nat {
    var n := |net.nodes|;
    Sum(net.copies, OfCopy(n)) + Sum(net.nodes, OfNode(n)) + Sum(net.replies, OfReply())
  }

  lemma BroadcastWeight(n: nat, copies: seq<Copy>, q: Query, heard: seq<Node>)
    requires Heard(n, heard)
    ensures Sum(copies + Copies(q, heard), OfCopy(n)) < Sum(copies, OfCopy(n)) + HeldWeight(n, n - |q.path|)
  {
    var w := CopyWeight(n, n - |q.path|);
    SumAppend(copies, Copies(q, heard), OfCopy(n));
    SumUniform(Copies(q, heard), w, OfCopy(n));
    if heard != [] {
      PathFits(n, heard);
    }
    Scale(|heard|, n, w);
  }

  lemma Scale(a: nat, b: nat, w: nat)
    requires a <= b
    ensures a * w <= b * w
  {
  }

  lemma {:induction false} ReceiveWeight(net: Net, me: Node, q: Query, valid: bool)
    requires me < |net.nodes| && IsPath(|net.nodes|, q.path)
    ensures Weight(ReceiveQuery(net, me, q, valid)) < Weight(net) + CopyWeight(|net.nodes|, |net.nodes| - |q.path|)
  {
    var n, s := |net.nodes|, net.nodes[me];
    SumUpdate(net.nodes, me, s.(seen := Process(me, s.seen, q)), OfNode(n));
    if Accepts(me, q) {
      assert IsPath(n, q.path + [me]);
      PathFits(n, q.path + [me]);
      ProcessWeight(n, me, s.seen, q);
      AnswerWeight(net.replies, me, q, valid);
    }
  }

  lemma AnswerWeight(replies: seq<Trace>, me: Node, q: Query, valid: bool)
    ensures var r := Answer(me, q, valid);
            r.Some? ==>
              && q.qdst == me
              && Sum(replies + [Trace(r.value, [me])], OfReply()) <=
                 Sum(replies, OfReply()) + if q.path == [] then MAX_PATH else |q.path|
  {
    var r := Answer(me, q, valid);
    if r.Some? {
      SumAppend(replies, [Trace(r.value, [me])], OfReply());
    }
  }

  lemma ProcessWeight(n: nat, me: Node, seen: seq<Entry>, q: Query)
    requires Accepts(me, q)
    ensures Sum(Process(me, seen, q), OfEntry(n)) <=
            Sum(seen, OfEntry(n)) + if q.qdst == me then 0 else HeldWeight(n, n - |q.path| - 1)
  {
    var e := Entry(q.path + [me], q.qdst, q.seqno, q.qdst != me);
    SumAppend(if |seen| >= MAX_SEEN then seen[1..] else seen, [e], OfEntry(n));
  }

  lemma SendWeight(net: Net, at: Node, x: nat, valid: bool, heard: seq<Node>)
    requires Enabled(net, SendHeld(at, x, valid, heard)) && |net.nodes[at].seen[x].path| <= MAX_PATH
    ensures Weight(SendQuery(net, at, x, valid, heard)) < Weight(net)
  {
    var n, s := |net.nodes|, net.nodes[at];
    var e := s.seen[x];
    var seen := s.seen[x := e.(held := false)];
    SumUpdate(s.seen, x, e.(held := false), OfEntry(n));
    SumUpdate(net.nodes, at, s.(seen := seen), OfNode(n));
    if valid {
      BroadcastWeight(n, net.copies, Query(at, e.path, e.qdst, e.seqno), heard);
    }
  }

  lemma StartWeight(net: Net, at: Node, qdst: Node, heard: seq<Node>)
    requires at < |net.nodes| && Heard(|net.nodes|, heard)
    ensures Weight(StartFlood(net, at, qdst, heard)) < Weight(net) + HeldWeight(|net.nodes|, |net.nodes| - 1)
  {
    var n, s := |net.nodes|, net.nodes[at];
    SumUpdate(net.nodes, at, s.(seqno := s.seqno + 1), OfNode(n));
    BroadcastWeight(n, net.copies, Query(at, [at], qdst, s.seqno + 1), heard);
  }

  lemma ReplyWeight(net: Net, at: Node, t: Trace)
    requires at < |net.nodes|
    ensures Weight(ReceiveReply(net, at, t)) <= Weight(net) + t.r.next
  {
    var n, s := |net.nodes|, net.nodes[at];
    var (queues, r) := Relay(at, s.queues, t.r);
    SumUpdate(net.nodes, at, s.(queues := queues), OfNode(n));
    if r.Some? {
      SumAppend(net.replies, [Trace(r.value, t.visited + [at])], OfReply());
    }
  }

  lemma LoseWeight(net: Net, i: nat)
    requires i < |net.copies|
    ensures var n := |net.nodes|;
            Weight(net.(copies := Without(net.copies, i))) + CopyWeight(n, n - |net.copies[i].q.path|) == Weight(net)
  {
    SumRemove(net.copies, i, OfCopy(|net.nodes|));
  }

  lemma LoseReplyWeight(net: Net, i: nat)
    requires i < |net.replies|
    ensures Weight(net.(replies := Without(net.replies, i))) + net.replies[i].r.next + 1 == Weight(net)
  {
    SumRemove(net.replies, i, OfReply());
  }

  lemma DeliverWeight(net: Net, i: nat, valid: bool)
    requires Inv(net) && Enabled(net, Deliver(i, valid))
    ensures Weight(Next(net, Deliver(i, valid))) < Weight(net)
  {
    var net0 := net.(copies := Without(net.copies, i));
    assert CopyOk(net, net.copies[i]) && SentOk(net, net.copies[i].q);
    LoseWeight(net, i);
    ReceiveWeight(net0, net.copies[i].receiver, net.copies[i].q, valid);
  }

  lemma DeliverReplyWeight(net: Net, i: nat, at: Node)
    requires Inv(net) && Enabled(net, DeliverReply(i, at))
    ensures Weight(Next(net, DeliverReply(i, at))) < Weight(net)
  {
    assert TraceOk(net, net.replies[i]);
    LoseReplyWeight(net, i);
    ReplyWeight(net.(replies := Without(net.replies, i)), at, net.replies[i]);
  }

  /** Every step but the start of a flood uses up weight. */
  lemma StepWeight(net: Net, s: Step)
    requires Inv(net) && Enabled(net, s) && |net.nodes| <= MAX_PATH
    ensures Weight(Next(net, s)) < Weight(net) + if s.Start? then HeldWeight(|net.nodes|, |net.nodes| - 1) else 0
  {
    var n := |net.nodes|;
    match s {
      case Start(at, qdst, heard) => StartWeight(net, at, qdst, heard);
      case Deliver(i, valid) => DeliverWeight(net, i, valid);
      case SendHeld(at, x, valid, heard) =>
        assert EntryOk(net, at, net.nodes[at].seen[x]);
        PathFits(n, net.nodes[at].seen[x].path);
        SendWeight(net, at, x, valid, heard);
      case DeliverReply(i, at) => DeliverReplyWeight(net, i, at);
      case Lose(i) => LoseWeight(net, i);
      case LoseReply(i) =>
        assert TraceOk(net, net.replies[i]);
        LoseReplyWeight(net, i);
    }
  }

  function Starts(steps: seq<Step>): nat {
    if steps == [] then 0 else (if steps[0].Start? then 1 else 0) + Starts(steps[1..])
  }

  lemma {:induction false} RunWeight(net: Net, steps: seq<Step>)
    requires Inv(net) && IsRun(net, steps) && |net.nodes| <= MAX_PATH
    ensures |steps| <= Weight(net) + Starts(steps) * HeldWeight(|net.nodes|, |net.nodes| - 1)
    decreases |steps|
  {
    if steps != [] {
      var w := HeldWeight(|net.nodes|, |net.nodes| - 1);
      StepKeepsInv(net, steps[0]);
      StepWeight(net, steps[0]);
      RunWeight(Next(net, steps[0]), steps[1..]);
      Distribute(Starts(steps), w);
    }
  }

  /** Every flood is finite: k floods take at most k * HeldWeight(n, n - 1) steps, replies included, however they run. */
  lemma FloodIsFinite(n: nat, steps: seq<Step>)
    requires n <= MAX_PATH && IsRun(Init(n), steps)
    ensures |steps| <= Starts(steps) * HeldWeight(n, n - 1)
  {
    InitInv(n);
    RunWeight(Init(n), steps);
    SumUniform(Init(n).nodes, 0, OfNode(n));
  }

  // --- Beyond 256 nodes the link count wraps and a flood may never end --------------------------------------

  function Upto(k: nat): (p: Path)
    ensures |p| == k && forall i :: 0 <= i < k ==> p[i] == i
  {
    seq(k, i => i)
  }

  /** One copy in flight, for node j, with the path 0, ..., j - 1, looking for an unknown host. */
  predicate Ready(net: Net, j: nat) {
    && 1 <= j <= MAX_PATH < |net.nodes|
    && |net.copies| == 1
    && net.copies[0].receiver == j
    && net.copies[0].q.sender != j
    && net.copies[0].q.path == Upto(j)
    && net.copies[0].q.qdst == |net.nodes|
  }

  lemma HeaderWraps(j: nat)
    requires j <= MAX_PATH
    ensures Header(Upto(j) + [j]) == Upto(if j < MAX_PATH then j + 1 else 1)
  {
    assert Upto(j) + [j] == Upto(j + 1);
  }

  lemma Hop(net: Net, j: nat) returns (a: Step, b: Step, j': nat)
    requires Ready(net, j)
    ensures !a.Start? && !b.Start?
    ensures Enabled(net, a) && Enabled(Next(net, a), b) && Ready(Next(Next(net, a), b), j')
  {
    j' := if j < MAX_PATH then j + 1 else 1;
    HeaderWraps(j);
    a, b := MoveOn(net, j, net.copies[0].q, j');
  }

  lemma {:induction false} KeepsGoing(net: Net, j: nat, k: nat) returns (steps: seq<Step>)
    requires Ready(net, j)
    ensures IsRun(net, steps) && Starts(steps) == 0 && |steps| >= k
    decreases k
  {
    steps := [];
    if k > 0 {
      var a, b, j' := Hop(net, j);
      var rest := KeepsGoing(Next(Next(net, a), b), j', k - 1);
      steps := [a] + ([b] + rest);
      assert steps[1..] == [b] + rest && ([b] + rest)[1..] == rest;
    }
  }

  /** With more than 256 nodes a single flood has runs of every length, so 256 is the exact limit of FloodIsFinite. */
  lemma FloodNeverEnds(n: nat, k: nat) returns (steps: seq<Step>)
    requires n > MAX_PATH
    ensures IsRun(Init(n), steps) && Starts(steps) == 1 && |steps| > k
  {
    var s := Start(0, n, [1]);
    assert Ready(Next(Init(n), s), 1) by {
      assert Upto(1) == [0];
    }
    var rest := KeepsGoing(Next(Init(n), s), 1, k);
    steps := [s] + rest;
    assert steps[1..] == rest;
  }
}
