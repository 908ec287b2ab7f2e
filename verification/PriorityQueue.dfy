/** Bounded multi-queue storage with a cyclic service pointer: others/priorityqueue.cc. */
module PriorityQueue {
  import opened Common

  const PAINTS := 255

  /** The paint annotation; the code's tables have 255 entries, so paint 255 is outside them. */
  type Paint = x: int | 0 <= x < PAINTS

  datatype Packet = Packet(id: nat, paint: Paint)
  type Queue = seq<Packet>

  datatype State = State(queues: seq<Queue>, pull: nat, bucket: seq<int>, drops: nat, highwater: seq<nat>)

  datatype Limits = Limits(short: nat, long: nat)

  // --- Capacity split --------------------------------------------------------------------

  /** The arithmetic of `configure`. */
  function Split(capacity: nat, number: nat, proportion: nat): Limits
    requires number >= 1 && number - 1 + proportion > 0
  {
    var short := capacity / (number - 1 + proportion);
    SplitFits(capacity, number, proportion);
    Limits(short, capacity - (number - 1) * short)
  }

  lemma SplitFits(capacity: nat, number: nat, proportion: nat)
    requires number >= 1 && number - 1 + proportion > 0
    ensures (number - 1) * (capacity / (number - 1 + proportion)) <= capacity
  {
    var d := number - 1 + proportion;
    var short := capacity / d;
    assert d * short <= capacity;
    assert d * short == (number - 1) * short + proportion * short;
  }

  // --- Steps -------------------------------------------------------------------------------

  /** The first of the short queues with room, or the last queue. */
  function FirstRoom(queues: seq<Queue>, short: nat, from: nat): (i: nat)
    requires from < |queues|
    ensures from <= i < |queues|
    ensures i < |queues| - 1 ==> |queues[i]| != short
    ensures forall j :: from <= j < i ==> |queues[j]| == short
    decreases |queues| - from
  {
    if from == |queues| - 1 || |queues[from]| != short then from else FirstRoom(queues, short, from + 1)
  }

  function Store(s: State, i: nat, p: Packet): State
    requires i < |s.queues| == |s.highwater|
  {
    s.(queues := s.queues[i := s.queues[i] + [p]],
       highwater := if |s.queues[i]| == s.highwater[i] then s.highwater[i := s.highwater[i] + 1] else s.highwater)
  }

  /** Where a packet goes: traffic short of its goal prefers the short queues, in order. */
  function Target(s: State, l: Limits, achieved: bool): (i: nat)
    requires s.queues != []
    ensures i < |s.queues| && (i < |s.queues| - 1 ==> |s.queues[i]| != l.short)
  {
    if achieved then |s.queues| - 1 else FirstRoom(s.queues, l.short, 0)
  }

  /** The last queue takes the packet and counts its paint, or the packet is dropped. */
  function PushLast(s: State, l: Limits, p: Packet): (State, bool)
    requires 0 < |s.queues| == |s.highwater| && |s.bucket| == PAINTS
  {
    var n := |s.queues| - 1;
    if |s.queues[n]| != l.long then (Counted(s, n, p), true) else (s.(drops := s.drops + 1), false)
  }

  function Counted(s: State, n: nat, p: Packet): State
    requires n < |s.queues| == |s.highwater| && |s.bucket| == PAINTS
  {
    Store(s, n, p).(bucket := s.bucket[p.paint := s.bucket[p.paint] + 1])
  }

  /** `push` on port 0; `achieved` is the throughput test of the packet's paint. */
  function Push(s: State, l: Limits, p: Packet, achieved: bool): (State, bool)
    requires 0 < |s.queues| == |s.highwater| && |s.bucket| == PAINTS
  {
    var i := Target(s, l, achieved);
    if i < |s.queues| - 1 then (Store(s, i, p), true) else PushLast(s, l, p)
  }

  /** The first non-empty queue in [from, end), or `end`. */
  function FirstFull(queues: seq<Queue>, from: nat, end: nat): (i: nat)
    requires from <= end <= |queues|
    ensures from <= i <= end && (i < end ==> queues[i] != [])
    ensures forall j :: from <= j < i ==> |queues[j]| == 0
    decreases end - from
  {
    if from == end || queues[from] != [] then from else FirstFull(queues, from + 1, end)
  }

  /** The queue served next: from the pointer to the end, then from the start to the pointer. */
  function Served(s: State): (i: nat)
    requires s.pull <= |s.queues|
    ensures i <= |s.queues| && (i < |s.queues| ==> s.queues[i] != [])
    ensures i == |s.queues| ==> forall j :: 0 <= j < |s.queues| ==> s.queues[j] == []
  {
    var n := |s.queues|;
    var i := FirstFull(s.queues, s.pull, n);
    if i < n then i else
    var j := FirstFull(s.queues, 0, s.pull);
    if j < s.pull then j else n
  }

  function Pull(s: State): (State, Option<Packet>)
    requires s.pull <= |s.queues| && |s.bucket| == PAINTS
  {
    var i := Served(s);
    if i == |s.queues| then (s, None) else (PopFrom(s, i), Some(s.queues[i][0]))
  }

  /** Take the front packet of queue i, move the pointer past the queue, and count the packet out of the last queue. */
  function PopFrom(s: State, i: nat): State
    requires i < |s.queues| && s.queues[i] != [] && |s.bucket| == PAINTS
  {
    var c := s.queues[i][0].paint;
    s.(queues := s.queues[i := s.queues[i][1..]],
       pull := i + 1,
       bucket := if i + 1 == |s.queues| then s.bucket[c := s.bucket[c] - 1] else s.bucket)
  }

  datatype Event = Arrive(p: Packet, achieved: bool) | Serve

  function Step(s: State, l: Limits, e: Event): (State, Option<Packet>)
    requires 0 < |s.queues| == |s.highwater| && |s.bucket| == PAINTS && s.pull <= |s.queues|
  {
    match e
    case Arrive(p, achieved) => (Push(s, l, p, achieved).0, None)
    case Serve => Pull(s)
  }

  // --- Invariant -----------------------------------------------------------------------------

  function CountPaint(q: Queue, c: int): nat {
    if q == [] then 0 else CountPaint(q[..|q| - 1], c) + (if q[|q| - 1].paint == c then 1 else 0)
  }

  function Limit(l: Limits, n: nat, i: nat): nat {
    if i == n - 1 then l.long else l.short
  }

  predicate Inv(s: State, l: Limits) {
    && 0 < |s.queues| == |s.highwater| && |s.bucket| == PAINTS && s.pull <= |s.queues|
    && (forall i :: 0 <= i < |s.queues| ==> |s.queues[i]| <= s.highwater[i] <= Limit(l, |s.queues|, i))
    && (forall c :: 0 <= c < PAINTS ==> s.bucket[c] == CountPaint(s.queues[|s.queues| - 1], c))
  }

  lemma CountAppend(q: Queue, p: Packet, c: int)
    ensures CountPaint(q + [p], c) == CountPaint(q, c) + (if p.paint == c then 1 else 0)
  {
    assert (q + [p])[..|q|] == q;
  }

  lemma {:induction false} CountTail(q: Queue, c: int)
    requires q != []
    ensures CountPaint(q, c) == CountPaint(q[1..], c) + (if q[0].paint == c then 1 else 0)
  {
    if |q| > 1 {
      var n := |q| - 1;
      CountTail(q[..n], c);
      assert q[..n][1..] == q[1..][..n - 1];
    }
  }

  lemma StoreKeeps(s: State, l: Limits, i: nat, p: Packet)
    requires Inv(s, l) && i < |s.queues| && |s.queues[i]| < Limit(l, |s.queues|, i)
    ensures forall j :: 0 <= j < |s.queues| ==>
              |Store(s, i, p).queues[j]| <= Store(s, i, p).highwater[j] <= Limit(l, |s.queues|, j)
  {
  }

  lemma StoreShortKeepsInv(s: State, l: Limits, i: nat, p: Packet)
    requires Inv(s, l) && i < |s.queues| - 1 && |s.queues[i]| != l.short
    ensures Inv(Store(s, i, p), l)
  {
    StoreKeeps(s, l, i, p);
  }

  lemma CountedKeepsInv(s: State, l: Limits, n: nat, p: Packet)
    requires Inv(s, l) && n == |s.queues| - 1 && |s.queues[n]| != l.long
    ensures Inv(Counted(s, n, p), l)
  {
    StoreKeeps(s, l, n, p);
    forall c | 0 <= c < PAINTS
      ensures Counted(s, n, p).bucket[c] == CountPaint(s.queues[n] + [p], c)
    {
      CountAppend(s.queues[n], p, c);
    }
  }

  lemma PushKeepsInv(s: State, l: Limits, p: Packet, achieved: bool)
    requires Inv(s, l)
    ensures Inv(Push(s, l, p, achieved).0, l)
  {
    var n := |s.queues| - 1;
    var i := Target(s, l, achieved);
    if i < n {
      StoreShortKeepsInv(s, l, i, p);
    } else if |s.queues[n]| != l.long {
      CountedKeepsInv(s, l, n, p);
    }
  }

  lemma PullKeepsInv(s: State, l: Limits)
    requires Inv(s, l)
    ensures Inv(Pull(s).0, l)
  {
    var n := |s.queues|;
    var i := Served(s);
    if i == n - 1 {
      forall c | 0 <= c < PAINTS
        ensures Pull(s).0.bucket[c] == CountPaint(s.queues[i][1..], c)
      {
        CountTail(s.queues[i], c);
      }
    }
  }

  lemma StepKeepsInv(s: State, l: Limits, e: Event)
    requires Inv(s, l)
    ensures Inv(Step(s, l, e).0, l)
  {
    match e
    case Arrive(p, achieved) => PushKeepsInv(s, l, p, achieved);
    case Serve => PullKeepsInv(s, l);
  }

  function Empty(number: nat): State {
    State(seq(number, _ => []), 0, seq(PAINTS, _ => 0), 0, seq(number, _ => 0))
  }

  function Run(s: State, l: Limits, es: seq<Event>): (t: State)
    requires Inv(s, l)
    ensures Inv(t, l)
    decreases |es|
  {
    if es == [] then s else
    StepKeepsInv(s, l, es[0]);
    Run(Step(s, l, es[0]).0, l, es[1..])
  }

  // --- Capacity ---------------------------------------------------------------------------------

  function Total(queues: seq<Queue>): nat {
    if queues == [] then 0 else Total(queues[..|queues| - 1]) + |queues[|queues| - 1]|
  }

  lemma {:induction false} TotalBound(queues: seq<Queue>, short: nat)
    requires forall i :: 0 <= i < |queues| ==> |queues[i]| <= short
    ensures Total(queues) <= |queues| * short
  {
    if queues != [] {
      var n := |queues| - 1;
      TotalBound(queues[..n], short);
      assert (n + 1) * short == n * short + short;
    }
  }

  /** Whatever arrives and is served, the stored packets never exceed CAPACITY. */
  lemma NeverOverCapacity(capacity: nat, number: nat, proportion: nat, es: seq<Event>)
    requires number >= 1 && number - 1 + proportion > 0
    ensures Inv(Empty(number), Split(capacity, number, proportion))
    ensures Total(Run(Empty(number), Split(capacity, number, proportion), es).queues) <= capacity
  {
    var l := Split(capacity, number, proportion);
    EmptyInv(number, l);
    var t := Run(Empty(number), l, es);
    RunKeepsNumber(Empty(number), l, es);
    TotalBound(t.queues[..number - 1], l.short);
  }

  lemma EmptyInv(number: nat, l: Limits)
    requires number >= 1
    ensures Inv(Empty(number), l)
  {
  }

  lemma {:induction false} RunKeepsNumber(s: State, l: Limits, es: seq<Event>)
    requires Inv(s, l)
    ensures |Run(s, l, es).queues| == |s.queues|
    decreases |es|
  {
    if es != [] {
      StepKeepsInv(s, l, es[0]);
      RunKeepsNumber(Step(s, l, es[0]).0, l, es[1..]);
    }
  }

  // --- Conservation --------------------------------------------------------------------------------

  function Stored(queues: seq<Queue>): multiset<Packet> {
    if queues == [] then multiset{} else Stored(queues[..|queues| - 1]) + multiset(queues[|queues| - 1])
  }

  function Gain(s: State, l: Limits, e: Event): multiset<Packet>
    requires Inv(s, l)
  {
    if e.Arrive? && Push(s, l, e.p, e.achieved).1 then multiset{e.p} else multiset{}
  }

  function Loss(s: State, l: Limits, e: Event): multiset<Packet>
    requires Inv(s, l)
  {
    var out := Step(s, l, e).1;
    if out.Some? then multiset{out.value} else multiset{}
  }

  /** All packets accepted, and all packets handed out, during a run. */
  function Accepted(s: State, l: Limits, es: seq<Event>): multiset<Packet>
    requires Inv(s, l)
    decreases |es|
  {
    if es == [] then multiset{} else
    StepKeepsInv(s, l, es[0]);
    Gain(s, l, es[0]) + Accepted(Step(s, l, es[0]).0, l, es[1..])
  }

  function Pulled(s: State, l: Limits, es: seq<Event>): multiset<Packet>
    requires Inv(s, l)
    decreases |es|
  {
    if es == [] then multiset{} else
    StepKeepsInv(s, l, es[0]);
    Loss(s, l, es[0]) + Pulled(Step(s, l, es[0]).0, l, es[1..])
  }

  lemma {:induction false} StoredUpdate(queues: seq<Queue>, i: nat, q: Queue)
    requires i < |queues|
    ensures Stored(queues[i := q]) + multiset(queues[i]) == Stored(queues) + multiset(q)
  {
    var n := |queues| - 1;
    if i == n {
      assert queues[i := q][..n] == queues[..n];
    } else {
      StoredUpdate(queues[..n], i, q);
      var u := queues[i := q];
      assert u[..n] == queues[..n][i := q];
      AddBoth(Stored(u[..n]), multiset(queues[i]), Stored(queues[..n]), multiset(q), multiset(queues[n]));
    }
  }

  lemma AddBoth<T>(a: multiset<T>, b: multiset<T>, c: multiset<T>, d: multiset<T>, m: multiset<T>)
    requires a + b == c + d
    ensures (a + m) + b == (c + m) + d
  {
    assert (a + m) + b == (a + b) + m;
  }

  lemma AppendStored(queues: seq<Queue>, i: nat, p: Packet)
    requires i < |queues|
    ensures Stored(queues[i := queues[i] + [p]]) == Stored(queues) + multiset{p}
  {
    var q := queues[i];
    StoredUpdate(queues, i, q + [p]);
    assert multiset(q + [p]) == multiset{p} + multiset(q);
    Cancel(Stored(queues[i := q + [p]]), Stored(queues) + multiset{p}, multiset(q));
  }

  lemma TailStored(queues: seq<Queue>, i: nat)
    requires i < |queues| && queues[i] != []
    ensures Stored(queues[i := queues[i][1..]]) + multiset{queues[i][0]} == Stored(queues)
  {
    var q := queues[i];
    StoredUpdate(queues, i, q[1..]);
    assert q == [q[0]] + q[1..];
    assert multiset(q) == multiset{q[0]} + multiset(q[1..]);
    Cancel(Stored(queues[i := q[1..]]) + multiset{q[0]}, Stored(queues), multiset(q[1..]));
  }

  lemma PushConserves(s: State, l: Limits, p: Packet, achieved: bool)
    requires Inv(s, l)
    ensures Stored(Push(s, l, p, achieved).0.queues) == Stored(s.queues) + Gain(s, l, Arrive(p, achieved))
  {
    PushQueues(s, l, p, achieved);
    AppendStored(s.queues, Target(s, l, achieved), p);
  }

  lemma PushQueues(s: State, l: Limits, p: Packet, achieved: bool)
    requires Inv(s, l)
    ensures var (t, accepted) := Push(s, l, p, achieved);
            var i := Target(s, l, achieved);
            t.queues == (if accepted then s.queues[i := s.queues[i] + [p]] else s.queues) && t.pull == s.pull
  {
  }

  lemma PullConserves(s: State, l: Limits)
    requires Inv(s, l)
    ensures Stored(Pull(s).0.queues) + Loss(s, l, Serve) == Stored(s.queues)
  {
    var i := Served(s);
    if i < |s.queues| {
      TailStored(s.queues, i);
    }
  }

  lemma Cancel<T>(a: multiset<T>, b: multiset<T>, c: multiset<T>)
    requires a + c == b + c
    ensures a == b
  {
    assert forall x :: (a + c)[x] == a[x] + c[x] && (b + c)[x] == b[x] + c[x];
  }

  lemma Telescope<T>(s: multiset<T>, t: multiset<T>, u: multiset<T>, gain: multiset<T>, loss: multiset<T>,
                     gains: multiset<T>, losses: multiset<T>)
    requires t + loss == s + gain && u + losses == t + gains
    ensures u + (loss + losses) == s + (gain + gains)
  {
    assert u + (loss + losses) == (t + gains) + loss == (s + gain) + gains;
  }

  lemma StepConserves(s: State, l: Limits, e: Event)
    requires Inv(s, l)
    ensures Stored(Step(s, l, e).0.queues) + Loss(s, l, e) == Stored(s.queues) + Gain(s, l, e)
  {
    match e
    case Arrive(p, achieved) => PushConserves(s, l, p, achieved);
    case Serve => PullConserves(s, l);
  }

  /** Every accepted packet is stored or has been pulled, exactly once. */
  lemma {:induction false} Conservation(s: State, l: Limits, es: seq<Event>)
    requires Inv(s, l)
    ensures Stored(Run(s, l, es).queues) + Pulled(s, l, es) == Stored(s.queues) + Accepted(s, l, es)
    decreases |es|
  {
    if es != [] {
      StepKeepsInv(s, l, es[0]);
      var t := Step(s, l, es[0]).0;
      StepConserves(s, l, es[0]);
      Conservation(t, l, es[1..]);
      Telescope(Stored(s.queues), Stored(t.queues), Stored(Run(t, l, es[1..]).queues), Gain(s, l, es[0]), Loss(s, l, es[0]),
                Accepted(t, l, es[1..]), Pulled(t, l, es[1..]));
    }
  }

  // --- Fairness -----------------------------------------------------------------------------------------

  function Pulls(es: seq<Event>): nat {
    if es == [] then 0 else (if es[0].Serve? then 1 else 0) + Pulls(es[1..])
  }

  /** k * n, by repeated addition. */
  function Times(k: nat, n: nat): nat {
    if k == 0 then 0 else n + Times(k - 1, n)
  }

  lemma {:induction false} TimesIsProduct(k: nat, n: nat)
    ensures Times(k, n) == k * n
  {
    if k > 0 {
      TimesIsProduct(k - 1, n);
    }
  }

  /** How many queues the pointer passes before it reaches queue j. */
  function Distance(n: nat, pull: nat, j: nat): int {
    if pull <= j then j - pull else j - pull + n
  }

  /** Following the packet that has k packets ahead of it in queue j: some pull of the run returns it. */
  predicate Returns(s: State, l: Limits, es: seq<Event>, j: nat, k: nat, p: Packet)
    requires Inv(s, l) && j < |s.queues| && k < |s.queues[j]|
    decreases |es|
  {
    es != [] &&
    (StepKeepsInv(s, l, es[0]);
     var (t, out) := Step(s, l, es[0]);
     if es[0].Serve? && Served(s) == j then
       if k == 0 then out == Some(p) else Returns(t, l, es[1..], j, k - 1, p)
     else
       Returns(t, l, es[1..], j, k, p))
  }

  /** A pull that serves another queue brings the pointer closer. */
  lemma CloserToQueue(s: State, j: nat)
    requires s.pull <= |s.queues| && j < |s.queues| && s.queues[j] != []
    ensures var i := Served(s);
            i < |s.queues| && (i != j ==> Distance(|s.queues|, i + 1, j) < Distance(|s.queues|, s.pull, j))
  {
  }

  /** What one event does to the packet followed: its queue only grows behind it, or it moves up one place. */
  lemma FollowStep(s: State, l: Limits, e: Event, j: nat, k: nat)
    requires Inv(s, l) && j < |s.queues| && k < |s.queues[j]|
    ensures var t := Step(s, l, e).0;
            && Inv(t, l) && |t.queues| == |s.queues|
            && (e.Serve? && Served(s) == j ==> t.queues[j] == s.queues[j][1..] && t.pull == j + 1)
            && (!(e.Serve? && Served(s) == j) ==> k < |t.queues[j]| && t.queues[j][k] == s.queues[j][k])
            && (e.Arrive? ==> t.pull == s.pull)
            && (e.Serve? && Served(s) != j ==>
                  Distance(|s.queues|, t.pull, j) < Distance(|s.queues|, s.pull, j))
  {
    StepKeepsInv(s, l, e);
    match e
    case Arrive(p, achieved) => PushQueues(s, l, p, achieved);
    case Serve => CloserToQueue(s, j);
  }

  lemma {:induction false} ReturnsWithin(s: State, l: Limits, es: seq<Event>, j: nat, k: nat)
    requires Inv(s, l) && j < |s.queues| && k < |s.queues[j]|
    requires Pulls(es) > Times(k, |s.queues|) + Distance(|s.queues|, s.pull, j)
    ensures Returns(s, l, es, j, k, s.queues[j][k])
    decreases |es|
  {
    FollowStep(s, l, es[0], j, k);
    var t := Step(s, l, es[0]).0;
    if es[0].Serve? && Served(s) == j {
      if k > 0 {
        ReturnsWithin(t, l, es[1..], j, k - 1);
      }
    } else {
      ReturnsWithin(t, l, es[1..], j, k);
    }
  }

  /** A packet with k packets ahead of it in its queue is returned within (k+1)*N pulls, whatever arrives meanwhile. */
  lemma Fairness(s: State, l: Limits, es: seq<Event>, j: nat, k: nat)
    requires Inv(s, l) && j < |s.queues| && k < |s.queues[j]|
    requires Pulls(es) >= (k + 1) * |s.queues|
    ensures Returns(s, l, es, j, k, s.queues[j][k])
  {
    TimesIsProduct(k + 1, |s.queues|);
    ReturnsWithin(s, l, es, j, k);
  }

  // --- Where a packet is stored and which one is served, by lengths alone ----------------------------------

  predicate ShortFull(s: State, l: Limits, end: nat)
    requires end <= |s.queues|
  {
    forall j :: 0 <= j < end ==> |s.queues[j]| == l.short
  }

  /** Queue i is the one for a packet: the first short queue with room while its paint is short of the goal, or the last. */
  predicate Goes(s: State, l: Limits, achieved: bool, i: nat)
    requires i < |s.queues|
  {
    if i == |s.queues| - 1 then (achieved || ShortFull(s, l, i)) && |s.queues[i]| < l.long
    else !achieved && |s.queues[i]| < l.short && ShortFull(s, l, i)
  }

  /** The packet is at the end of queue i, its highwater mark follows, and only the last queue counts paints. */
  predicate StoredIn(s: State, t: State, i: nat, p: Packet)
    requires i < |s.queues| == |s.highwater| && |s.bucket| == PAINTS
  {
    && t.queues == s.queues[i := s.queues[i] + [p]]
    && t.pull == s.pull && t.drops == s.drops
    && t.bucket == (if i == |s.queues| - 1 then s.bucket[p.paint := s.bucket[p.paint] + 1] else s.bucket)
    && t.highwater == s.highwater[i := if s.highwater[i] > |s.queues[i]| then s.highwater[i] else |s.queues[i]| + 1]
  }

  /** Both limits are reached for this packet. */
  predicate NoRoom(s: State, l: Limits, achieved: bool)
    requires s.queues != []
  {
    |s.queues[|s.queues| - 1]| == l.long && (achieved || ShortFull(s, l, |s.queues| - 1))
  }

  lemma StoreExactly(s: State, l: Limits, i: nat, p: Packet)
    requires Inv(s, l) && i < |s.queues|
    ensures StoredIn(s, if i == |s.queues| - 1 then Counted(s, i, p) else Store(s, i, p), i, p)
  {
    assert s.highwater[i] > |s.queues[i]| ==> s.highwater[i := s.highwater[i]] == s.highwater;
  }

  /**
    A packet is dropped, and counted, exactly if there is no room for it; else it is appended to the queue for it: traffic
    over its goal never enters a short queue, and other traffic enters the first short queue with room.
   */
  lemma PushExactly(s: State, l: Limits, p: Packet, achieved: bool) returns (i: nat)
    requires Inv(s, l)
    ensures i < |s.queues|
    ensures var (t, pushed) := Push(s, l, p, achieved);
            && (pushed <==> !NoRoom(s, l, achieved))
            && if pushed then Goes(s, l, achieved, i) && StoredIn(s, t, i, p) else t == s.(drops := s.drops + 1)
  {
    i := Target(s, l, achieved);
    StoreExactly(s, l, i, p);
  }

  /** There is at most one queue for a packet. */
  lemma GoesToOne(s: State, l: Limits, achieved: bool, i: nat, j: nat)
    requires i < |s.queues| && j < |s.queues| && Goes(s, l, achieved, i) && Goes(s, l, achieved, j)
    ensures i == j
  {
  }

  /** A pull serves the first non-empty queue at or after the pointer, cyclically, and moves the pointer past it. */
  lemma PullExactly(s: State, l: Limits) returns (i: nat)
    requires Inv(s, l)
    ensures var (t, out) := Pull(s);
            if forall j :: 0 <= j < |s.queues| ==> s.queues[j] == [] then t == s && out == None
            else
              && i < |s.queues| && s.queues[i] != [] && out == Some(s.queues[i][0])
              && (forall j :: 0 <= j < |s.queues| && Distance(|s.queues|, s.pull, j) < Distance(|s.queues|, s.pull, i) ==>
                    s.queues[j] == [])
              && var c := s.queues[i][0].paint;
                 t == s.(queues := s.queues[i := s.queues[i][1..]], pull := i + 1,
                         bucket := if i == |s.queues| - 1 then s.bucket[c := s.bucket[c] - 1] else s.bucket)
  {
    i := Served(s);
    ServedFirst(s);
  }

  lemma ServedFirst(s: State)
    requires s.pull <= |s.queues|
    ensures var i := Served(s);
            i < |s.queues| ==>
              forall j :: 0 <= j < |s.queues| && Distance(|s.queues|, s.pull, j) < Distance(|s.queues|, s.pull, i) ==>
                s.queues[j] == []
  {
  }

  // --- The element -----------------------------------------------------------------------------------------

  class Element {
    const table: array<Queue>
    const capacityShort: nat
    const capacityLong: nat
    var pullQ: nat
    var bucket: seq<int>
    var drops: nat
    var highwater: seq<nat>

    ghost function Now(): State
      reads this, table
    {
      State(table[..], pullQ, bucket, drops, highwater)
    }

    ghost function Caps(): Limits {
      Limits(capacityShort, capacityLong)
    }

    constructor (capacity: nat, number: nat, proportion: nat)
      requires number >= 1 && number - 1 + proportion > 0
      ensures Now() == Empty(number) && Caps() == Split(capacity, number, proportion) && Inv(Now(), Caps())
      ensures fresh(table)
    {
      SplitFits(capacity, number, proportion);
      var short := capacity / (number - 1 + proportion);
      capacityShort := short;
      capacityLong := capacity - (number - 1) * short;
      table := new Queue[number](_ => []);
      pullQ, drops := 0, 0;
      bucket := seq(PAINTS, _ => 0);
      highwater := seq(number, _ => 0);
      new;
      assert table[..] == seq(number, _ => []);
      EmptyInv(number, Caps());
    }

    method PushBack(i: nat, p: Packet)
      requires i < table.Length == |highwater|
      modifies this, table
      ensures Now() == Store(old(Now()), i, p)
    {
      var size := |table[i]|;
      table[i] := table[i] + [p];
      if size == highwater[i] {
        highwater := highwater[i := highwater[i] + 1];
      }
    }

    method PushPacket(p: Packet, achieved: bool) returns (pushed: bool)
      requires Inv(Now(), Caps())
      modifies this, table
      ensures Inv(Now(), Caps())
      ensures (Now(), pushed) == Push(old(Now()), Caps(), p, achieved)
    {
      PushKeepsInv(Now(), Caps(), p, achieved);
      pushed := false;
      var q := table.Length - 1;
      if !achieved {
        q := ScanRoom();
        if q < table.Length - 1 {
          PushBack(q, p);
          pushed := true;
        }
      }
      if !pushed {
        pushed := PushToLast(q, p);
      }
    }

    method PushToLast(q: nat, p: Packet) returns (pushed: bool)
      requires q == table.Length - 1 && table.Length == |highwater| && |bucket| == PAINTS
      modifies this, table
      ensures (Now(), pushed) == PushLast(old(Now()), Caps(), p)
    {
      if |table[q]| != capacityLong {
        PushBack(q, p);
        bucket := bucket[p.paint := bucket[p.paint] + 1];
        return true;
      }
      drops := drops + 1;
      return false;
    }

    /** The loop of `push` over the short queues. */
    method ScanRoom() returns (q: nat)
      requires table.Length > 0
      ensures q == FirstRoom(table[..], capacityShort, 0)
    {
      q := 0;
      while q < table.Length - 1 && |table[q]| == capacityShort
        invariant q < table.Length && FirstRoom(table[..], capacityShort, q) == FirstRoom(table[..], capacityShort, 0)
      {
        q := q + 1;
      }
    }

    /** One of the two loops of `pull`. */
    method ScanFull(from: nat, end: nat) returns (q: nat)
      requires from <= end <= table.Length
      ensures q == FirstFull(table[..], from, end)
    {
      q := from;
      while q < end && |table[q]| == 0
        invariant from <= q <= end && FirstFull(table[..], q, end) == FirstFull(table[..], from, end)
      {
        q := q + 1;
      }
    }

    method PullPacket() returns (p: Option<Packet>)
      requires Inv(Now(), Caps())
      modifies this, table
      ensures Inv(Now(), Caps())
      ensures (Now(), p) == Pull(old(Now()))
    {
      PullKeepsInv(Now(), Caps());
      var q := NextQueue();
      if q == table.Length {
        return None;
      }
      var front := PopFront(q);
      return Some(front);
    }

    /** Both loops of `pull`. */
    method NextQueue() returns (q: nat)
      requires pullQ <= table.Length
      ensures q == Served(Now())
    {
      q := ScanFull(pullQ, table.Length);
      if q == table.Length {
        q := ScanFull(0, pullQ);
        if q == pullQ {
          return table.Length;
        }
      }
    }

    method PopFront(i: nat) returns (front: Packet)
      requires i < table.Length && table[i] != [] && |bucket| == PAINTS
      modifies this, table
      ensures front == old(table[i])[0] && Now() == PopFrom(old(Now()), i)
    {
      front := table[i][0];
      table[i] := table[i][1..];
      var q := i + 1;
      pullQ := q;
      if q == table.Length {
        bucket := bucket[front.paint := bucket[front.paint] - 1];
      }
    }
  }
}
