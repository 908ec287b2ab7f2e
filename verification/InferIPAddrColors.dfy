/**
  Address colour inference: models/package/inferipaddrcolors.cc.

  Every packet is an edge between its source and destination address.  Colours
  come in pairs 2k / 2k+1; `mapping` is a forest over colours, and addresses hold
  stale colours that are resolved lazily.  It is a union-find with parity.
 */
module Walks {
  type Addr = nat
  datatype Edge = Edge(src: Addr, dst: Addr)

  /** Some seen packet joins `a` and `b`, in either direction. */
  predicate Adjacent(h: seq<Edge>, a: Addr, b: Addr) {
    Edge(a, b) in h || Edge(b, a) in h
  }

  predicate IsWalk(h: seq<Edge>, w: seq<Addr>) {
    |w| > 0 && forall i :: 0 <= i < |w| - 1 ==> Adjacent(h, w[i], w[i + 1])
  }

  /** A walk of seen packets leads from `a` to `b`; its number of hops is odd iff `odd`. */
  ghost predicate Joined(h: seq<Edge>, a: Addr, b: Addr, odd: bool) {
    exists w :: IsWalkBetween(h, w, a, b, odd)
  }

  predicate IsWalkBetween(h: seq<Edge>, w: seq<Addr>, a: Addr, b: Addr, odd: bool) {
    IsWalk(h, w) && w[0] == a && w[|w| - 1] == b && (odd <==> |w| % 2 == 0)
  }

  lemma JoinedSelf(h: seq<Edge>, a: Addr)
    ensures Joined(h, a, a, false)
  {
    assert IsWalkBetween(h, [a], a, a, false);
  }

  lemma JoinedEdge(h: seq<Edge>, a: Addr, b: Addr)
    requires Adjacent(h, a, b)
    ensures Joined(h, a, b, true)
  {
    assert IsWalkBetween(h, [a, b], a, b, true);
  }

  lemma JoinedGrows(h: seq<Edge>, e: Edge, a: Addr, b: Addr, odd: bool)
    requires Joined(h, a, b, odd)
    ensures Joined(h + [e], a, b, odd)
  {
    var w :| IsWalkBetween(h, w, a, b, odd);
    assert IsWalkBetween(h + [e], w, a, b, odd);
  }

  lemma JoinedTransitive(h: seq<Edge>, a: Addr, b: Addr, c: Addr, odd1: bool, odd2: bool)
    requires Joined(h, a, b, odd1) && Joined(h, b, c, odd2)
    ensures Joined(h, a, c, odd1 != odd2)
  {
    var v :| IsWalkBetween(h, v, a, b, odd1);
    var w :| IsWalkBetween(h, w, b, c, odd2);
    var u := v + w[1..];
    forall i | 0 <= i < |u| - 1
      ensures Adjacent(h, u[i], u[i + 1])
    {
      if i >= |v| - 1 {
        assert Adjacent(h, w[i - |v| + 1], w[i - |v| + 2]);
      }
    }
    assert IsWalkBetween(h, u, a, c, odd1 != odd2);
  }
}

module InferIPAddrColors {
  import opened Walks

  /** A node's colour field: NULLCOLOR, BADCOLOR or an ordinary colour. */
  datatype Color = Null | Bad | Hue(c: nat)

  datatype Coloring = Coloring(nodes: map<Addr, Color>, mapping: seq<nat>, nextColor: nat, compacted: bool)

  const EMPTY := Coloring(map[], [], 0, true)

  /** c ^ 1 */
  function Flip(c: nat): nat {
    if c % 2 == 0 then c + 1 else c - 1
  }

  /** `_color_mapping` is a parity-respecting forest: pair numbers strictly decrease along it. */
  predicate IsForest(m: seq<nat>) {
    && |m| % 2 == 0
    && (forall c :: 0 <= c < |m| ==> Descends(m, c))
    && (forall c :: 0 <= c < |m| ==> Opposed(m, c))
  }

  predicate Descends(m: seq<nat>, c: nat)
    requires c < |m|
  {
    m[c] < |m| && (m[c] == c || m[c] / 2 < c / 2)
  }

  predicate Opposed(m: seq<nat>, c: nat)
    requires c < |m|
  {
    Flip(c) < |m| && m[Flip(c)] == Flip(m[c])
  }

  /** The colour a chain of mappings ends in. */
  function Resolve(m: seq<nat>, c: nat): (r: nat)
    requires IsForest(m) && c < |m|
    ensures r < |m| && m[r] == r
    ensures r / 2 <= c / 2
    decreases c / 2
  {
    assert Descends(m, c);
    if m[c] == c then c else Resolve(m, m[c])
  }

  predicate WellFormed(s: Coloring) {
    && IsForest(s.mapping)
    && s.nextColor == |s.mapping|
    && forall a :: a in s.nodes && s.nodes[a].Hue? ==> s.nodes[a].c < |s.mapping|
  }

  /** The node `find_node` returns: a node made on first sight has NULLCOLOR. */
  function Stored(s: Coloring, a: Addr): Color {
    if a in s.nodes then s.nodes[a] else Null
  }

  /** An address's colour once every pending merge is taken into account. */
  function ColorOf(s: Coloring, a: Addr): (r: Color)
    requires WellFormed(s)
  {
    match Stored(s, a)
    case Hue(c) => Hue(Resolve(s.mapping, c))
    case other => other
  }

  function Touch(s: Coloring, a: Addr): Coloring
    requires WellFormed(s)
  {
    s.(nodes := s.nodes[a := ColorOf(s, a)])
  }

  function Paint(s: Coloring, a: Addr, c: Color): Coloring {
    s.(nodes := s.nodes[a := c])
  }

  /** Hang the pair of the root `child` below the pair of the root `parent` so that they differ in the low bit. */
  function Merge(m: seq<nat>, child: nat, parent: nat): seq<nat>
    requires child < |m| && Flip(child) < |m|
  {
    m[child := Flip(parent)][Flip(child) := parent]
  }

  /** What one accepted packet does to the colouring. */
  function Update(s: Coloring, e: Edge): Coloring
    requires WellFormed(s)
  {
    ResolvedColors(s, e, e.src);
    Decide(Resolved(s, e), e)
  }

  /** The decision taken on the two resolved endpoint colours. */
  function Decide(t: Coloring, e: Edge): Coloring
    requires WellFormed(t) && e.src in t.nodes && e.dst in t.nodes
  {
    match (t.nodes[e.src], t.nodes[e.dst])
    case (Bad, _) => t
    case (_, Bad) => t
    case (Null, Null) =>
      Paint(Paint(Extend(t), e.src, Hue(t.nextColor)), e.dst, Hue(t.nextColor + 1))
    case (Null, Hue(d)) => Paint(t, e.src, Hue(Flip(d)))
    case (Hue(c), Null) => Paint(t, e.dst, Hue(Flip(c)))
    case (Hue(c), Hue(d)) =>
      FlipInRange(t.mapping, c);
      FlipInRange(t.mapping, d);
      if c / 2 < d / 2 then
        Paint(MergePairs(t, d, c), e.dst, Hue(Flip(c)))
      else if d / 2 < c / 2 then
        Paint(MergePairs(t, c, d), e.src, Hue(Flip(d)))
      else if c == d then
        Paint(t, e.src, Bad)
      else
        t
  }

  /** Allocate a fresh pair of colours. */
  function Extend(s: Coloring): Coloring {
    s.(mapping := s.mapping + [s.nextColor, s.nextColor + 1], nextColor := s.nextColor + 2)
  }

  function MergePairs(s: Coloring, child: nat, parent: nat): Coloring
    requires child < |s.mapping| && Flip(child) < |s.mapping|
  {
    s.(mapping := Merge(s.mapping, child, parent), compacted := false)
  }

  /** The two resolve loops at the head of `update`. */
  function Resolved(s: Coloring, e: Edge): Coloring
    requires WellFormed(s)
  {
    s.(nodes := s.nodes[e.src := ColorOf(s, e.src)][e.dst := ColorOf(s, e.dst)])
  }

  lemma FlipInRange(m: seq<nat>, c: nat)
    requires |m| % 2 == 0 && c < |m|
    ensures Flip(c) < |m| && Flip(Flip(c)) == c && Flip(c) / 2 == c / 2 && Flip(c) != c
  {
  }

  // --- Resolving ---------------------------------------------------------------

  lemma {:induction false} ResolveFlip(m: seq<nat>, c: nat)
    requires IsForest(m) && c < |m|
    ensures Flip(c) < |m| && Resolve(m, Flip(c)) == Flip(Resolve(m, c))
    decreases c / 2
  {
    assert Descends(m, c) && Opposed(m, c);
    FlipInRange(m, c);
    FlipInRange(m, m[c]);
    if m[c] != c {
      ResolveFlip(m, m[c]);
    }
  }

  lemma ExtendForest(m: seq<nat>)
    requires IsForest(m)
    ensures IsForest(m + [|m|, |m| + 1])
  {
    var n := m + [|m|, |m| + 1];
    forall d | 0 <= d < |n|
      ensures Descends(n, d) && Opposed(n, d)
    {
      FlipInRange(n, d);
      if d < |m| {
        assert Descends(m, d) && Opposed(m, d);
      }
    }
  }

  lemma {:induction false} ResolveExtended(m: seq<nat>, c: nat)
    requires IsForest(m) && c < |m|
    ensures IsForest(m + [|m|, |m| + 1]) && Resolve(m + [|m|, |m| + 1], c) == Resolve(m, c)
    decreases c / 2
  {
    ExtendForest(m);
    assert Descends(m, c);
    if m[c] != c {
      ResolveExtended(m, m[c]);
    }
  }

  lemma MergeForest(m: seq<nat>, child: nat, parent: nat)
    requires IsForest(m) && child < |m| && parent < |m|
    requires m[child] == child && m[parent] == parent && parent / 2 < child / 2
    ensures Flip(child) < |m| && IsForest(Merge(m, child, parent))
  {
    FlipInRange(m, child);
    FlipInRange(m, parent);
    var n := Merge(m, child, parent);
    forall c | 0 <= c < |n|
      ensures Descends(n, c) && Opposed(n, c)
    {
      assert Descends(m, c) && Opposed(m, c);
      FlipInRange(m, c);
    }
  }

  /** After a merge, exactly the colours that resolved into the child pair move, and they move by parity. */
  lemma {:induction false} ResolveMerged(m: seq<nat>, child: nat, parent: nat, c: nat)
    requires IsForest(m) && child < |m| && parent < |m| && c < |m|
    requires m[child] == child && m[parent] == parent && parent / 2 < child / 2
    ensures Flip(child) < |m| && IsForest(Merge(m, child, parent))
    ensures var r := Resolve(m, c);
            Resolve(Merge(m, child, parent), c) ==
            if r == child then Flip(parent) else if r == Flip(child) then parent else r
    decreases c / 2
  {
    MergeForest(m, child, parent);
    FlipInRange(m, child);
    FlipInRange(m, parent);
    var n := Merge(m, child, parent);
    assert Opposed(m, parent) && Opposed(m, child) && Descends(m, c);
    assert n[parent] == parent && n[Flip(parent)] == Flip(parent);
    if m[c] != c {
      ResolveMerged(m, child, parent, m[c]);
    }
  }

  // --- What a packet does to every resolved colour -------------------------------

  /** Colour of `a` after the pair of `child` was merged below the pair of `parent`. */
  function Moved(was: Color, child: nat, parent: nat): Color {
    match was
    case Hue(r) => Hue(if r == child then Flip(parent) else if r == Flip(child) then parent else r)
    case other => other
  }

  /** `Update` seen through fully resolved colours only. */
  function NewColor(s: Coloring, e: Edge, a: Addr): Color
    requires WellFormed(s)
  {
    var was := ColorOf(s, a);
    match (ColorOf(s, e.src), ColorOf(s, e.dst))
    case (Bad, _) => was
    case (_, Bad) => was
    case (Null, Null) =>
      if a == e.dst then Hue(s.nextColor + 1) else if a == e.src then Hue(s.nextColor) else was
    case (Null, Hue(d)) => if a == e.src then Hue(Flip(d)) else was
    case (Hue(c), Null) => if a == e.dst then Hue(Flip(c)) else was
    case (Hue(c), Hue(d)) =>
      if c / 2 < d / 2 then Moved(was, d, c)
      else if d / 2 < c / 2 then Moved(was, c, d)
      else if c == d && a == e.src then Bad
      else was
  }

  lemma ResolvedColors(s: Coloring, e: Edge, a: Addr)
    requires WellFormed(s)
    ensures WellFormed(Resolved(s, e)) && ColorOf(Resolved(s, e), a) == ColorOf(s, a)
  {
  }

  lemma PaintColors(s: Coloring, x: Addr, c: Color, a: Addr)
    requires WellFormed(s) && (c.Hue? ==> c.c < |s.mapping|)
    ensures WellFormed(Paint(s, x, c))
    ensures ColorOf(Paint(s, x, c), a) ==
            if a != x then ColorOf(s, a) else if c.Hue? then Hue(Resolve(s.mapping, c.c)) else c
  {
  }

  lemma ExtendColors(s: Coloring, a: Addr)
    requires WellFormed(s)
    ensures WellFormed(Extend(s)) && ColorOf(Extend(s), a) == ColorOf(s, a)
  {
    ExtendForest(s.mapping);
    if Stored(s, a).Hue? {
      ResolveExtended(s.mapping, Stored(s, a).c);
    }
  }

  lemma MergeColors(s: Coloring, child: nat, parent: nat, a: Addr)
    requires WellFormed(s) && child < |s.mapping| && parent < |s.mapping|
    requires s.mapping[child] == child && s.mapping[parent] == parent && parent / 2 < child / 2
    ensures Flip(child) < |s.mapping| && WellFormed(MergePairs(s, child, parent))
    ensures ColorOf(MergePairs(s, child, parent), a) == Moved(ColorOf(s, a), child, parent)
    ensures var n := MergePairs(s, child, parent).mapping;
            Flip(parent) < |n| && Resolve(n, Flip(parent)) == Flip(parent)
  {
    MergeForest(s.mapping, child, parent);
    if Stored(s, a).Hue? {
      ResolveMerged(s.mapping, child, parent, Stored(s, a).c);
    }
    FlipInRange(s.mapping, parent);
    FlipInRange(s.mapping, child);
    assert Opposed(s.mapping, parent);
  }

  lemma UpdateMergeColors(s: Coloring, child: nat, parent: nat, x: Addr, a: Addr)
    requires WellFormed(s) && child < |s.mapping| && parent < |s.mapping|
    requires s.mapping[child] == child && s.mapping[parent] == parent && parent / 2 < child / 2
    requires ColorOf(s, x) == Hue(child)
    ensures Flip(child) < |s.mapping| && Flip(parent) < |s.mapping|
    ensures var t := Paint(MergePairs(s, child, parent), x, Hue(Flip(parent)));
            WellFormed(t) && ColorOf(t, a) == Moved(ColorOf(s, a), child, parent)
  {
    MergeColors(s, child, parent, a);
    PaintColors(MergePairs(s, child, parent), x, Hue(Flip(parent)), a);
  }

  lemma UpdateExtendColors(s: Coloring, e: Edge, a: Addr)
    requires WellFormed(s)
    ensures var t := Paint(Paint(Extend(s), e.src, Hue(s.nextColor)), e.dst, Hue(s.nextColor + 1));
            && WellFormed(t)
            && ColorOf(t, a) ==
               if a == e.dst then Hue(s.nextColor + 1) else if a == e.src then Hue(s.nextColor) else ColorOf(s, a)
  {
    ExtendColors(s, a);
    PaintColors(Extend(s), e.src, Hue(s.nextColor), a);
    PaintColors(Paint(Extend(s), e.src, Hue(s.nextColor)), e.dst, Hue(s.nextColor + 1), a);
  }

  lemma UpdateColors(s: Coloring, e: Edge, a: Addr)
    requires WellFormed(s)
    ensures WellFormed(Update(s, e))
    ensures ColorOf(Update(s, e), a) == NewColor(s, e, a)
  {
    var t := Resolved(s, e);
    ResolvedColors(s, e, a);
    ResolvedColors(s, e, e.src);
    ResolvedColors(s, e, e.dst);
    match (ColorOf(s, e.src), ColorOf(s, e.dst))
    case (Null, Null) =>
      UpdateExtendColors(t, e, a);
    case (Null, Hue(d)) =>
      ResolveFlip(t.mapping, d);
      PaintColors(t, e.src, Hue(Flip(d)), a);
    case (Hue(c), Null) =>
      ResolveFlip(t.mapping, c);
      PaintColors(t, e.dst, Hue(Flip(c)), a);
    case (Hue(c), Hue(d)) =>
      if c / 2 < d / 2 {
        UpdateMergeColors(t, d, c, e.dst, a);
      } else if d / 2 < c / 2 {
        UpdateMergeColors(t, c, d, e.src, a);
      } else {
        PaintColors(t, e.src, Bad, a);
      }
    case _ =>
  }

  lemma DecidedEndpoint(t: Coloring, e: Edge, a: Addr, x: Color, y: Color)
    requires WellFormed(t) && e.src in t.nodes && e.dst in t.nodes && x == t.nodes[e.src] && y == t.nodes[e.dst]
    requires a == e.src || a == e.dst
    ensures a in Decide(t, e).nodes
    ensures Decide(t, e).nodes[a] ==
            var was := t.nodes[a];
            match (x, y)
            case (Bad, _) => was
            case (_, Bad) => was
            case (Null, Null) => Hue(if a == e.dst then t.nextColor + 1 else t.nextColor)
            case (Null, Hue(d)) => if a == e.src then Hue(Flip(d)) else was
            case (Hue(c), Null) => if a == e.dst then Hue(Flip(c)) else was
            case (Hue(c), Hue(d)) =>
              if c / 2 < d / 2 then Moved(was, d, c)
              else if d / 2 < c / 2 then Moved(was, c, d)
              else if c == d && a == e.src then Bad
              else was
  {
  }

  /** Both addresses of a packet are left with a colour field that is the end of its chain. */
  lemma EndpointsResolved(s: Coloring, e: Edge, a: Addr)
    requires WellFormed(s) && (a == e.src || a == e.dst)
    ensures a in Update(s, e).nodes && Update(s, e).nodes[a] == NewColor(s, e, a)
  {
    TouchTwice(s, e);
    ResolvedColors(s, e, a);
    DecidedEndpoint(Resolved(s, e), e, a, ColorOf(s, e.src), ColorOf(s, e.dst));
  }

  // --- The whole-run invariant ----------------------------------------------------

  /** Two coloured addresses share a root pair only if seen packets join them with the right parity. */
  ghost predicate Sound(s: Coloring, h: seq<Edge>)
    requires WellFormed(s)
  {
    forall a, b :: SamePair(s, a, b) ==> Joined(h, a, b, ColorOf(s, a) != ColorOf(s, b))
  }

  predicate SamePair(s: Coloring, a: Addr, b: Addr)
    requires WellFormed(s)
  {
    ColorOf(s, a).Hue? && ColorOf(s, b).Hue? && ColorOf(s, a).c / 2 == ColorOf(s, b).c / 2
  }

  predicate IsBad(s: Coloring, a: Addr) {
    Stored(s, a) == Bad
  }

  /** A conflict is recorded only on an odd closed walk. */
  ghost predicate BadIsOdd(s: Coloring, h: seq<Edge>) {
    forall a :: IsBad(s, a) ==> Joined(h, a, a, true)
  }

  predicate Proper(s: Coloring, e: Edge)
    requires WellFormed(s)
  {
    || IsBad(s, e.src) || IsBad(s, e.dst)
    || (ColorOf(s, e.src).Hue? && ColorOf(s, e.dst) == Hue(Flip(ColorOf(s, e.src).c)))
  }

  /** Every accepted packet between two distinct good addresses has endpoints of opposite colour. */
  predicate ProperlyColored(s: Coloring, h: seq<Edge>)
    requires WellFormed(s)
  {
    forall e :: e in h && e.src != e.dst ==> Proper(s, e)
  }

  ghost predicate Inv(s: Coloring, h: seq<Edge>) {
    WellFormed(s) && Sound(s, h) && BadIsOdd(s, h) && ProperlyColored(s, h)
  }

  function Run(h: seq<Edge>): (s: Coloring)
    ensures WellFormed(s)
  {
    if h == [] then EMPTY else
    var s := Run(h[..|h| - 1]);
    UpdateColors(s, h[|h| - 1], 0);
    Update(s, h[|h| - 1])
  }

  // --- Every packet keeps the invariant -------------------------------------------

  lemma Bridge(h: seq<Edge>, a: Addr, x: Addr, y: Addr, b: Addr, odd1: bool, odd2: bool)
    requires Joined(h, a, x, odd1) && Adjacent(h, x, y) && Joined(h, y, b, odd2)
    ensures Joined(h, a, b, odd1 == odd2)
  {
    JoinedEdge(h, x, y);
    JoinedTransitive(h, a, x, y, odd1, true);
    JoinedTransitive(h, a, y, b, !odd1, odd2);
  }

  /** Two addresses of one class stay joined when one more packet has been seen. */
  lemma OldPair(s: Coloring, h: seq<Edge>, e: Edge, a: Addr, b: Addr)
    requires WellFormed(s) && Sound(s, h) && SamePair(s, a, b)
    ensures Joined(h + [e], a, b, ColorOf(s, a) != ColorOf(s, b))
  {
    JoinedGrows(h, e, a, b, ColorOf(s, a) != ColorOf(s, b));
  }

  /** A member `a` of the class of `x` and a member `b` of the class of `y`, joined by the packet x -- y. */
  lemma AcrossPacket(s: Coloring, h: seq<Edge>, e: Edge, a: Addr, x: Addr, y: Addr, b: Addr)
    requires WellFormed(s) && Sound(s, h) && SamePair(s, a, x) && SamePair(s, y, b)
    requires (x == e.src && y == e.dst) || (x == e.dst && y == e.src)
    ensures Joined(h + [e], a, b, (ColorOf(s, a) == ColorOf(s, x)) == (ColorOf(s, y) == ColorOf(s, b)))
  {
    OldPair(s, h, e, a, x);
    OldPair(s, h, e, y, b);
    assert Adjacent(h + [e], x, y) by { assert e in h + [e]; }
    Bridge(h + [e], a, x, y, b, ColorOf(s, a) != ColorOf(s, x), ColorOf(s, y) != ColorOf(s, b));
  }

  /** How a merge changes whether two colours of one (new) pair are equal. */
  lemma MovedParity(a: nat, b: nat, child: nat, parent: nat)
    requires parent / 2 < child / 2
    requires Moved(Hue(a), child, parent).c / 2 == Moved(Hue(b), child, parent).c / 2
    ensures a / 2 == b / 2 ==>
              (Moved(Hue(a), child, parent) == Moved(Hue(b), child, parent) <==> a == b)
    ensures a / 2 != b / 2 ==>
              || (a / 2 == child / 2 && b / 2 == parent / 2
                  && (Moved(Hue(a), child, parent) != Moved(Hue(b), child, parent) <==> (a == child) == (parent == b)))
              || (a / 2 == parent / 2 && b / 2 == child / 2
                  && (Moved(Hue(a), child, parent) != Moved(Hue(b), child, parent) <==> (a == parent) == (child == b)))
  {
  }

  /** Soundness for one pair of addresses, when the class of `x` moves below the class of `y`. */
  lemma SoundMerge(s: Coloring, h: seq<Edge>, e: Edge, x: Addr, y: Addr, a: Addr, b: Addr)
    requires WellFormed(s) && Sound(s, h)
    requires (x == e.src && y == e.dst) || (x == e.dst && y == e.src)
    requires ColorOf(s, x).Hue? && ColorOf(s, y).Hue? && ColorOf(s, y).c / 2 < ColorOf(s, x).c / 2
    requires ColorOf(s, a).Hue? && ColorOf(s, b).Hue?
    requires var child, parent := ColorOf(s, x).c, ColorOf(s, y).c;
             Moved(ColorOf(s, a), child, parent).c / 2 == Moved(ColorOf(s, b), child, parent).c / 2
    ensures var child, parent := ColorOf(s, x).c, ColorOf(s, y).c;
            Joined(h + [e], a, b, Moved(ColorOf(s, a), child, parent) != Moved(ColorOf(s, b), child, parent))
  {
    var child, parent := ColorOf(s, x).c, ColorOf(s, y).c;
    var ca, cb := ColorOf(s, a).c, ColorOf(s, b).c;
    MovedParity(ca, cb, child, parent);
    if ca / 2 == cb / 2 {
      OldPair(s, h, e, a, b);
    } else if ca / 2 == child / 2 {
      AcrossPacket(s, h, e, a, x, y, b);
    } else {
      AcrossPacket(s, h, e, a, y, x, b);
    }
  }

  lemma SoundStep(s: Coloring, h: seq<Edge>, e: Edge, a: Addr, b: Addr)
    requires WellFormed(s) && Sound(s, h)
    requires var na, nb := NewColor(s, e, a), NewColor(s, e, b);
             na.Hue? && nb.Hue? && na.c / 2 == nb.c / 2
    ensures Joined(h + [e], a, b, NewColor(s, e, a) != NewColor(s, e, b))
  {
    assert Adjacent(h + [e], e.src, e.dst) && Adjacent(h + [e], e.dst, e.src) by { assert e in h + [e]; }
    if a == b {
      JoinedSelf(h + [e], a);
      return;
    }
    match (ColorOf(s, e.src), ColorOf(s, e.dst))
    case (Null, Null) =>
      if a in {e.src, e.dst} && b in {e.src, e.dst} {
        JoinedEdge(h + [e], a, b);
      } else {
        OldPair(s, h, e, a, b);
      }
    case (Null, Hue(d)) =>
      JoinFresh(s, h, e, e.src, e.dst, a, b);
    case (Hue(c), Null) =>
      JoinFresh(s, h, e, e.dst, e.src, a, b);
    case (Hue(c), Hue(d)) =>
      if c / 2 < d / 2 {
        SoundMerge(s, h, e, e.dst, e.src, a, b);
      } else if d / 2 < c / 2 {
        SoundMerge(s, h, e, e.src, e.dst, a, b);
      } else {
        OldPair(s, h, e, a, b);
      }
    case _ =>
      OldPair(s, h, e, a, b);
  }

  /** Soundness for one pair of addresses, when the uncoloured `x` takes the colour opposite to `y`'s. */
  lemma JoinFresh(s: Coloring, h: seq<Edge>, e: Edge, x: Addr, y: Addr, a: Addr, b: Addr)
    requires WellFormed(s) && Sound(s, h)
    requires (x == e.src && y == e.dst) || (x == e.dst && y == e.src)
    requires ColorOf(s, x).Null? && ColorOf(s, y).Hue? && a != b
    requires a == x || ColorOf(s, a).Hue?
    requires b == x || ColorOf(s, b).Hue?
    requires var na := if a == x then Flip(ColorOf(s, y).c) else ColorOf(s, a).c;
             var nb := if b == x then Flip(ColorOf(s, y).c) else ColorOf(s, b).c;
             na / 2 == nb / 2
    ensures var na := if a == x then Flip(ColorOf(s, y).c) else ColorOf(s, a).c;
            var nb := if b == x then Flip(ColorOf(s, y).c) else ColorOf(s, b).c;
            Joined(h + [e], a, b, na != nb)
  {
    assert Adjacent(h + [e], x, y) && Adjacent(h + [e], y, x) by { assert e in h + [e]; }
    if a == x {
      OldPair(s, h, e, y, b);
      JoinedSelf(h + [e], x);
      Bridge(h + [e], x, x, y, b, false, ColorOf(s, y) != ColorOf(s, b));
    } else if b == x {
      OldPair(s, h, e, a, y);
      JoinedSelf(h + [e], x);
      Bridge(h + [e], a, y, x, x, ColorOf(s, a) != ColorOf(s, y), false);
    } else {
      OldPair(s, h, e, a, b);
    }
  }

  /** A conflict: the packet closes an even walk between its endpoints. */
  lemma BadStep(s: Coloring, h: seq<Edge>, e: Edge, a: Addr)
    requires Inv(s, h) && NewColor(s, e, a) == Bad
    ensures Joined(h + [e], a, a, true)
  {
    if ColorOf(s, a) == Bad {
      assert IsBad(s, a);
      JoinedGrows(h, e, a, a, true);
    } else {
      AcrossPacket(s, h, e, e.src, e.src, e.dst, e.src);
    }
  }

  /** Opposite colours stay opposite, and the new packet's endpoints become so. */
  lemma ProperStep(s: Coloring, h: seq<Edge>, e: Edge, f: Edge)
    requires Inv(s, h) && f in h + [e] && f.src != f.dst
    ensures var c, d := NewColor(s, e, f.src), NewColor(s, e, f.dst);
            c.Bad? || d.Bad? || (c.Hue? && d == Hue(Flip(c.c)))
  {
    if f in h {
      assert Proper(s, f);
      KeepOpposite(s, e, f);
    } else {
      PacketOpposite(s, e);
    }
  }

  lemma MovedOpposite(c: nat, child: nat, parent: nat)
    ensures Moved(Hue(Flip(c)), child, parent) == Hue(Flip(Moved(Hue(c), child, parent).c))
  {
    FlipTwice(c);
    FlipTwice(child);
    FlipTwice(parent);
  }

  lemma FlipTwice(c: nat)
    ensures Flip(Flip(c)) == c && Flip(c) / 2 == c / 2 && Flip(c) != c
  {
  }

  lemma KeepOpposite(s: Coloring, e: Edge, f: Edge)
    requires WellFormed(s) && Proper(s, f) && f.src != f.dst
    ensures var c, d := NewColor(s, e, f.src), NewColor(s, e, f.dst);
            c.Bad? || d.Bad? || (c.Hue? && d == Hue(Flip(c.c)))
  {
    var c, d := ColorOf(s, e.src), ColorOf(s, e.dst);
    if c.Hue? && d.Hue? && ColorOf(s, f.src).Hue? {
      MovedOpposite(ColorOf(s, f.src).c, c.c, d.c);
      MovedOpposite(ColorOf(s, f.src).c, d.c, c.c);
    }
  }

  lemma PacketOpposite(s: Coloring, e: Edge)
    requires WellFormed(s) && e.src != e.dst
    ensures var c, d := NewColor(s, e, e.src), NewColor(s, e, e.dst);
            c.Bad? || d.Bad? || (c.Hue? && d == Hue(Flip(c.c)))
  {
    if ColorOf(s, e.src).Hue? {
      FlipInRange(s.mapping, ColorOf(s, e.src).c);
    }
    if ColorOf(s, e.dst).Hue? {
      FlipInRange(s.mapping, ColorOf(s, e.dst).c);
    }
  }

  lemma UpdateKeepsInv(s: Coloring, h: seq<Edge>, e: Edge)
    requires Inv(s, h)
    ensures Inv(Update(s, e), h + [e])
  {
    var t := Update(s, e);
    UpdateColors(s, e, 0);
    forall a, b | SamePair(t, a, b)
      ensures Joined(h + [e], a, b, ColorOf(t, a) != ColorOf(t, b))
    {
      UpdateColors(s, e, a);
      UpdateColors(s, e, b);
      SoundStep(s, h, e, a, b);
    }
    forall a | IsBad(t, a)
      ensures Joined(h + [e], a, a, true)
    {
      UpdateColors(s, e, a);
      BadStep(s, h, e, a);
    }
    forall f | f in h + [e] && f.src != f.dst
      ensures Proper(t, f)
    {
      UpdateColors(s, e, f.src);
      UpdateColors(s, e, f.dst);
      ProperStep(s, h, e, f);
    }
  }

  // --- Main theorems ----------------------------------------------------------------

  /** After any packet sequence: proper 2-colouring, sound classes, conflicts only on odd closed walks. */
  lemma {:induction false} RunInvariant(h: seq<Edge>)
    ensures Inv(Run(h), h)
  {
    if h != [] {
      var n := |h| - 1;
      RunInvariant(h[..n]);
      UpdateKeepsInv(Run(h[..n]), h[..n], h[n]);
      assert h == h[..n] + [h[n]];
    }
  }

  ghost predicate HasOddClosedWalk(h: seq<Edge>) {
    exists a :: Joined(h, a, a, true)
  }

  predicate IsSelf(e: Edge) {
    e.src == e.dst
  }

  predicate HasSelfPacket(h: seq<Edge>) {
    exists e :: e in h && IsSelf(e)
  }

  /** The packets that join two different addresses. */
  function NonSelf(h: seq<Edge>): seq<Edge> {
    if h == [] then [] else NonSelf(h[..|h| - 1]) + (if IsSelf(h[|h| - 1]) then [] else [h[|h| - 1]])
  }

  lemma {:induction false} NonSelfMembers(h: seq<Edge>, e: Edge)
    ensures e in NonSelf(h) <==> e in h && !IsSelf(e)
  {
    if h != [] {
      NonSelfMembers(h[..|h| - 1], e);
      assert h == h[..|h| - 1] + [h[|h| - 1]];
    }
  }

  ghost predicate Clean(s: Coloring) {
    forall a :: !IsBad(s, a)
  }

  ghost predicate ConflictFree(h: seq<Edge>) {
    Clean(Run(h))
  }

  /** Every packet seen joins addresses of opposite colour, without exception. */
  ghost predicate TwoColored(s: Coloring, h: seq<Edge>)
    requires WellFormed(s)
  {
    forall a, b :: Adjacent(h, a, b) ==> Opposite(ColorOf(s, a), ColorOf(s, b))
  }

  predicate Opposite(c: Color, d: Color) {
    c.Hue? && d == Hue(Flip(c.c))
  }

  lemma RunTwoColored(h: seq<Edge>)
    requires ConflictFree(h)
    ensures TwoColored(Run(h), NonSelf(h))
  {
    RunInvariant(h);
    var s := Run(h);
    forall a, b | Adjacent(NonSelf(h), a, b)
      ensures Opposite(ColorOf(s, a), ColorOf(s, b))
    {
      var e := if Edge(a, b) in NonSelf(h) then Edge(a, b) else Edge(b, a);
      NonSelfMembers(h, e);
      assert Proper(s, e);
      FlipTwice(ColorOf(s, e.src).c);
    }
  }

  /** A 2-colouring alternates along every walk. */
  lemma {:induction false} WalkColors(s: Coloring, h: seq<Edge>, w: seq<Addr>, odd: bool)
    requires WellFormed(s) && TwoColored(s, h)
    requires IsWalk(h, w) && ColorOf(s, w[0]).Hue? && (odd <==> |w| % 2 == 0)
    ensures var c := ColorOf(s, w[0]).c;
            ColorOf(s, w[|w| - 1]) == Hue(if odd then Flip(c) else c)
  {
    if |w| > 1 {
      var n := |w| - 1;
      WalkFront(h, w, n);
      WalkColors(s, h, w[..n], !odd);
      assert w[..n][0] == w[0] && w[..n][n - 1] == w[n - 1];
      OneMoreHop(s, h, w[n - 1], w[n], ColorOf(s, w[0]).c, odd);
    }
  }

  lemma WalkFront(h: seq<Edge>, w: seq<Addr>, n: nat)
    requires IsWalk(h, w) && 0 < n == |w| - 1
    ensures IsWalk(h, w[..n]) && Adjacent(h, w[n - 1], w[n])
  {
    assert Adjacent(h, w[n - 1], w[n - 1 + 1]);
  }

  lemma OneMoreHop(s: Coloring, h: seq<Edge>, a: Addr, b: Addr, c: nat, odd: bool)
    requires WellFormed(s) && TwoColored(s, h) && Adjacent(h, a, b)
    requires ColorOf(s, a) == Hue(if odd then c else Flip(c))
    ensures ColorOf(s, b) == Hue(if odd then Flip(c) else c)
  {
    FlipTwice(c);
  }

  // --- Self-packets ------------------------------------------------------------------------------

  lemma LastPacket(h: seq<Edge>, e: Edge)
    ensures Run(h + [e]) == Update(Run(h), e)
    ensures NonSelf(h + [e]) == if IsSelf(e) then NonSelf(h) else NonSelf(h) + [e]
  {
    assert (h + [e])[..|h|] == h;
  }

  /** A packet from an address to itself joins no classes. */
  lemma SoundSelf(s: Coloring, g: seq<Edge>, e: Edge, a: Addr, b: Addr)
    requires WellFormed(s) && Sound(s, g) && IsSelf(e)
    requires var na, nb := NewColor(s, e, a), NewColor(s, e, b);
             na.Hue? && nb.Hue? && na.c / 2 == nb.c / 2
    ensures Joined(g, a, b, NewColor(s, e, a) != NewColor(s, e, b))
  {
    if a == b {
      JoinedSelf(g, a);
    } else {
      assert SamePair(s, a, b);
    }
  }

  /** The classes are joined by packets between different addresses alone. */
  lemma {:induction false} RunSoundNonSelf(h: seq<Edge>)
    ensures Sound(Run(h), NonSelf(h))
  {
    if h != [] {
      var front, e := h[..|h| - 1], h[|h| - 1];
      assert h == front + [e];
      RunSoundNonSelf(front);
      LastPacket(front, e);
      StepSoundNonSelf(Run(front), NonSelf(front), e);
    }
  }

  lemma StepSoundNonSelf(s: Coloring, g: seq<Edge>, e: Edge)
    requires WellFormed(s) && Sound(s, g)
    ensures WellFormed(Update(s, e)) && Sound(Update(s, e), if IsSelf(e) then g else g + [e])
  {
    var t := Update(s, e);
    UpdateColors(s, e, 0);
    forall a, b | SamePair(t, a, b)
      ensures Joined(if IsSelf(e) then g else g + [e], a, b, ColorOf(t, a) != ColorOf(t, b))
    {
      UpdateColors(s, e, a);
      UpdateColors(s, e, b);
      if IsSelf(e) {
        SoundSelf(s, g, e, a, b);
      } else {
        SoundStep(s, g, e, a, b);
      }
    }
  }

  /** In a run without conflicts the classes are exactly the parity-connected components. */
  lemma CleanComponents(h: seq<Edge>, a: Addr, b: Addr, odd: bool)
    requires ConflictFree(h) && ColorOf(Run(h), a).Hue?
    ensures Joined(NonSelf(h), a, b, odd) <==>
            SamePair(Run(h), a, b) && (odd <==> ColorOf(Run(h), a) != ColorOf(Run(h), b))
  {
    RunSoundNonSelf(h);
    if Joined(NonSelf(h), a, b, odd) {
      var w :| IsWalkBetween(NonSelf(h), w, a, b, odd);
      RunTwoColored(h);
      WalkColors(Run(h), NonSelf(h), w, odd);
      FlipTwice(ColorOf(Run(h), a).c);
    }
  }

  lemma NoOddWalk(h: seq<Edge>)
    requires ConflictFree(h)
    ensures !HasOddClosedWalk(NonSelf(h))
  {
    if HasOddClosedWalk(NonSelf(h)) {
      var a :| Joined(NonSelf(h), a, a, true);
      var w :| IsWalkBetween(NonSelf(h), w, a, a, true);
      RunTwoColored(h);
      assert Adjacent(NonSelf(h), w[0], w[0 + 1]);
      CleanComponents(h, a, a, true);
    }
  }

  predicate Mentions(h: seq<Edge>, a: Addr) {
    exists e :: e in h && Touches(e, a)
  }

  predicate Touches(e: Edge, a: Addr) {
    a == e.src || a == e.dst
  }

  /** A packet whose endpoints are good leaves both of them coloured or bad, and uncolours nobody. */
  lemma EndpointsColored(s: Coloring, e: Edge, a: Addr)
    requires WellFormed(s)
    ensures IsBad(s, a) ==> IsBad(Update(s, e), a)
    ensures ColorOf(s, a) != Null ==> NewColor(s, e, a) != Null
    ensures Touches(e, a) && !IsBad(s, e.src) && !IsBad(s, e.dst) ==> NewColor(s, e, a) != Null
    ensures !Touches(e, a) && ColorOf(s, a) == Null ==> NewColor(s, e, a) == Null
  {
    UpdateColors(s, e, a);
  }

  lemma ConflictFreeBefore(h: seq<Edge>, e: Edge)
    requires ConflictFree(h + [e])
    ensures ConflictFree(h)
  {
    LastPacket(h, e);
    forall a
      ensures !IsBad(Run(h), a)
    {
      EndpointsColored(Run(h), e, a);
    }
  }

  /** In a run without conflicts exactly the addresses that occurred are coloured. */
  lemma {:induction false} ColoredExactly(h: seq<Edge>, a: Addr)
    requires ConflictFree(h)
    ensures ColorOf(Run(h), a).Hue? <==> Mentions(h, a)
  {
    if h != [] {
      var front, e := h[..|h| - 1], h[|h| - 1];
      assert h == front + [e];
      ConflictFreeBefore(front, e);
      ColoredExactly(front, a);
      LastPacket(front, e);
      EndpointsColored(Run(front), e, a);
      UpdateColors(Run(front), e, a);
      MentionsLast(front, e, a);
      assert !IsBad(Run(h), a) && !IsBad(Run(front), a);
    }
  }

  lemma MentionsLast(h: seq<Edge>, e: Edge, a: Addr)
    ensures Mentions(h + [e], a) <==> Mentions(h, a) || Touches(e, a)
  {
    if Mentions(h, a) {
      var f :| f in h && Touches(f, a);
      assert f in h + [e];
    } else if Touches(e, a) {
      assert e in h + [e];
    }
  }

  // --- Which addresses are bad, in every run --------------------------------------------------------

  /** A packet contradicts the packets kept so far: they join its endpoints by an even walk. */
  ghost predicate Clashes(kept: seq<Edge>, e: Edge) {
    Mentions(kept, e.src) && Joined(NonSelf(kept), e.src, e.dst, false)
  }

  /**
    The reference, in terms of packets and walks only: the packets kept and the sources found inconsistent.  A packet of
    an inconsistent address is ignored, and one that clashes makes its source inconsistent.
   */
  ghost function Verdict(h: seq<Edge>): (seq<Edge>, set<Addr>) {
    if h == [] then ([], {}) else
    var (kept, bad) := Verdict(h[..|h| - 1]);
    Judge(kept, bad, h[|h| - 1])
  }

  ghost function Judge(kept: seq<Edge>, bad: set<Addr>, e: Edge): (seq<Edge>, set<Addr>) {
    if e.src in bad || e.dst in bad then (kept, bad)
    else if Clashes(kept, e) then (kept, bad + {e.src})
    else (kept + [e], bad)
  }

  /** The colouring s agrees with t on every address outside `bad`, and s has given up those inside. */
  ghost predicate Agrees(s: Coloring, t: Coloring, bad: set<Addr>)
    requires WellFormed(s) && WellFormed(t)
  {
    && s.nextColor == t.nextColor
    && forall a :: if a in bad then ColorOf(s, a) == Bad else ColorOf(s, a) == ColorOf(t, a)
  }

  /** The colouring of all packets is that of the kept ones, which is free of conflicts, with the bad addresses given up. */
  ghost predicate Follows(h: seq<Edge>, kept: seq<Edge>, bad: set<Addr>) {
    ConflictFree(kept) && Agrees(Run(h), Run(kept), bad)
  }

  lemma NextColorStep(s: Coloring, e: Edge)
    requires WellFormed(s)
    ensures WellFormed(Update(s, e))
    ensures Update(s, e).nextColor ==
            if ColorOf(s, e.src).Null? && ColorOf(s, e.dst).Null? then s.nextColor + 2 else s.nextColor
  {
    UpdateColors(s, e, 0);
    ResolvedColors(s, e, e.src);
    TouchTwice(s, e);
  }

  /** `update` flags a packet between good addresses exactly when it clashes with the kept ones. */
  lemma FlagsExactly(kept: seq<Edge>, e: Edge)
    requires ConflictFree(kept)
    ensures NewColor(Run(kept), e, e.src) == Bad <==> Clashes(kept, e)
  {
    ColoredExactly(kept, e.src);
    assert !IsBad(Run(kept), e.src) && !IsBad(Run(kept), e.dst);
    if Mentions(kept, e.src) {
      CleanComponents(kept, e.src, e.dst, false);
    }
  }

  lemma SameNewColor(s: Coloring, t: Coloring, bad: set<Addr>, e: Edge, a: Addr)
    requires WellFormed(s) && WellFormed(t) && Agrees(s, t, bad) && e.src !in bad && e.dst !in bad
    ensures if a in bad then NewColor(s, e, a) == Bad else NewColor(s, e, a) == NewColor(t, e, a)
  {
    assert ColorOf(s, e.src) == ColorOf(t, e.src) && ColorOf(s, e.dst) == ColorOf(t, e.dst);
  }

  lemma AgreesStep(s: Coloring, t: Coloring, bad: set<Addr>, e: Edge)
    requires WellFormed(s) && WellFormed(t) && Agrees(s, t, bad) && e.src !in bad && e.dst !in bad
    ensures WellFormed(Update(s, e)) && WellFormed(Update(t, e)) && Agrees(Update(s, e), Update(t, e), bad)
  {
    NextColorStep(s, e);
    NextColorStep(t, e);
    assert ColorOf(s, e.src) == ColorOf(t, e.src) && ColorOf(s, e.dst) == ColorOf(t, e.dst);
    forall a
      ensures if a in bad then ColorOf(Update(s, e), a) == Bad else ColorOf(Update(s, e), a) == ColorOf(Update(t, e), a)
    {
      UpdateColors(s, e, a);
      UpdateColors(t, e, a);
      SameNewColor(s, t, bad, e, a);
    }
  }

  lemma NewBad(s: Coloring, e: Edge, a: Addr)
    requires WellFormed(s) && !IsBad(s, a)
    ensures NewColor(s, e, a) == Bad ==> a == e.src
  {
  }

  lemma CleanStep(s: Coloring, e: Edge)
    requires WellFormed(s) && Clean(s)
    ensures Clean(Update(s, e)) <==> NewColor(s, e, e.src) != Bad
  {
    UpdateColors(s, e, e.src);
    if Clean(Update(s, e)) {
      assert !IsBad(Update(s, e), e.src);
    } else {
      var a :| IsBad(Update(s, e), a);
      UpdateColors(s, e, a);
      NewBad(s, e, a);
    }
  }

  lemma KeptStep(h: seq<Edge>, kept: seq<Edge>, bad: set<Addr>, e: Edge)
    requires Follows(h, kept, bad) && e.src !in bad && e.dst !in bad && !Clashes(kept, e)
    ensures Follows(h + [e], kept + [e], bad)
  {
    LastPacket(h, e);
    LastPacket(kept, e);
    AgreesStep(Run(h), Run(kept), bad, e);
    FlagsExactly(kept, e);
    CleanStep(Run(kept), e);
  }

  /** A packet that is skipped or flagged changes no colour but that of a flagged source. */
  lemma DroppedColor(s: Coloring, e: Edge, a: Addr)
    requires WellFormed(s)
    requires IsBad(s, e.src) || IsBad(s, e.dst) || NewColor(s, e, e.src) == Bad
    ensures NewColor(s, e, a) ==
            if a == e.src && !IsBad(s, e.src) && !IsBad(s, e.dst) then Bad else ColorOf(s, a)
  {
  }

  lemma DroppedAgrees(s: Coloring, t: Coloring, bad: set<Addr>, e: Edge, bad': set<Addr>)
    requires WellFormed(s) && WellFormed(t) && Agrees(s, t, bad) && Clean(t)
    requires e.src in bad || e.dst in bad || NewColor(t, e, e.src) == Bad
    requires bad' == if e.src in bad || e.dst in bad then bad else bad + {e.src}
    ensures WellFormed(Update(s, e)) && Agrees(Update(s, e), t, bad')
  {
    NextColorStep(s, e);
    assert IsBad(s, e.src) <==> e.src in bad by { assert !IsBad(t, e.src); }
    assert IsBad(s, e.dst) <==> e.dst in bad by { assert !IsBad(t, e.dst); }
    if e.src !in bad && e.dst !in bad {
      SameNewColor(s, t, bad, e, e.src);
    }
    forall a
      ensures if a in bad' then ColorOf(Update(s, e), a) == Bad else ColorOf(Update(s, e), a) == ColorOf(t, a)
    {
      UpdateColors(s, e, a);
      DroppedColor(s, e, a);
    }
  }

  lemma DroppedStep(h: seq<Edge>, kept: seq<Edge>, bad: set<Addr>, e: Edge)
    requires Follows(h, kept, bad) && (e.src in bad || e.dst in bad || Clashes(kept, e))
    ensures Follows(h + [e], kept, if e.src in bad || e.dst in bad then bad else bad + {e.src})
  {
    LastPacket(h, e);
    FlagsExactly(kept, e);
    DroppedAgrees(Run(h), Run(kept), bad, e, if e.src in bad || e.dst in bad then bad else bad + {e.src});
  }

  lemma {:induction false} RunFollows(h: seq<Edge>)
    ensures var (kept, bad) := Verdict(h); Follows(h, kept, bad)
  {
    if h != [] {
      var front, e := h[..|h| - 1], h[|h| - 1];
      assert h == front + [e];
      RunFollows(front);
      var (kept, bad) := Verdict(front);
      if e.src in bad || e.dst in bad || Clashes(kept, e) {
        DroppedStep(front, kept, bad, e);
      } else {
        KeptStep(front, kept, bad, e);
      }
    }
  }

  /** In every run an address is BADCOLOR exactly when the walk reference finds it inconsistent. */
  lemma BadExactly(h: seq<Edge>, a: Addr)
    ensures IsBad(Run(h), a) <==> a in Verdict(h).1
  {
    RunFollows(h);
    var (kept, bad) := Verdict(h);
    assert Agrees(Run(h), Run(kept), bad);
    assert !IsBad(Run(kept), a);
  }

  /** In every run the classes of the good addresses are the parity-connected components of the packets kept. */
  lemma ColorsAreComponents(h: seq<Edge>, a: Addr, b: Addr, odd: bool)
    requires ColorOf(Run(h), a).Hue? && !IsBad(Run(h), b)
    ensures Joined(NonSelf(Verdict(h).0), a, b, odd) <==>
            SamePair(Run(h), a, b) && (odd <==> ColorOf(Run(h), a) != ColorOf(Run(h), b))
  {
    RunFollows(h);
    var (kept, bad) := Verdict(h);
    assert Agrees(Run(h), Run(kept), bad);
    CleanComponents(kept, a, b, odd);
  }

  /** A packet makes its source BADCOLOR only if earlier packets already join its endpoints by an even walk. */
  lemma ConflictOnlyOnEvenWalk(h: seq<Edge>, e: Edge)
    requires !IsBad(Run(h), e.src) && IsBad(Run(h + [e]), e.src)
    ensures Joined(h, e.src, e.dst, false)
  {
    RunInvariant(h);
    LastPacket(h, e);
    UpdateColors(Run(h), e, e.src);
    assert SamePair(Run(h), e.src, e.dst);
  }

  /** When a packet makes an address BADCOLOR, in every run: its source, if neither end is bad and it clashes. */
  lemma ConflictExactly(h: seq<Edge>, e: Edge, a: Addr)
    ensures IsBad(Run(h + [e]), a) <==>
            || IsBad(Run(h), a)
            || (a == e.src && !IsBad(Run(h), e.dst) && Clashes(Verdict(h).0, e))
  {
    BadExactly(h, a);
    BadExactly(h, e.src);
    BadExactly(h, e.dst);
    BadExactly(h + [e], a);
    assert (h + [e])[..|h|] == h;
  }

  /** A recorded conflict proves the packets inconsistent with two sides. */
  lemma ConflictMeansOddWalk(h: seq<Edge>)
    ensures !ConflictFree(h) ==> HasOddClosedWalk(h)
  {
    RunInvariant(h);
    if !ConflictFree(h) {
      var a :| IsBad(Run(h), a);
      assert Joined(h, a, a, true);
    }
  }

  // --- Exactly when no conflict is recorded -------------------------------------------------------------

  /** Every packet from an address to itself is the first packet of that address. */
  predicate SelfFirst(h: seq<Edge>) {
    forall i {:trigger h[i]} :: 0 <= i < |h| && IsSelf(h[i]) ==> !Mentions(h[..i], h[i].src)
  }

  lemma SelfFirstLast(h: seq<Edge>, e: Edge)
    ensures SelfFirst(h + [e]) <==> SelfFirst(h) && (IsSelf(e) ==> !Mentions(h, e.src))
  {
    var k := h + [e];
    assert k[..|h|] == h && k[|h|] == e;
    forall i | 0 <= i < |h|
      ensures k[i] == h[i] && k[..i] == h[..i]
    {
    }
  }

  lemma OddWalkGrows(h: seq<Edge>, e: Edge)
    requires HasOddClosedWalk(h)
    ensures HasOddClosedWalk(h + [e])
  {
    var a :| Joined(h, a, a, true);
    JoinedGrows(h, e, a, a, true);
  }

  /** One more packet after a run without conflicts: what is recorded on it. */
  lemma FirstConflict(h: seq<Edge>, e: Edge)
    requires ConflictFree(h)
    ensures ConflictFree(h + [e]) <==> !Clashes(h, e)
  {
    LastPacket(h, e);
    FlagsExactly(h, e);
    CleanStep(Run(h), e);
  }

  lemma ClashClosesWalk(h: seq<Edge>, e: Edge)
    requires Clashes(h, e) && !IsSelf(e)
    ensures HasOddClosedWalk(NonSelf(h + [e]))
  {
    var g := NonSelf(h) + [e];
    LastPacket(h, e);
    JoinedGrows(NonSelf(h), e, e.src, e.dst, false);
    assert Adjacent(g, e.dst, e.src) by { assert e in g; }
    JoinedEdge(g, e.dst, e.src);
    JoinedTransitive(g, e.src, e.dst, e.src, false, true);
  }

  /** The condition on the packets alone: self-packets come first, and the others have no odd closed walk. */
  lemma {:induction false} ConflictFreeExactly(h: seq<Edge>)
    ensures ConflictFree(h) <==> SelfFirst(h) && !HasOddClosedWalk(NonSelf(h))
  {
    if h == [] {
      NoOddWalk([]);
    } else {
      var front, e := h[..|h| - 1], h[|h| - 1];
      assert h == front + [e];
      ConflictFreeExactly(front);
      SelfFirstLast(front, e);
      LastPacket(front, e);
      if ConflictFree(front) {
        FirstConflict(front, e);
        JoinedSelf(NonSelf(front), e.src);
        if Clashes(front, e) && !IsSelf(e) {
          ClashClosesWalk(front, e);
        }
        if ConflictFree(h) {
          NoOddWalk(h);
        }
      } else {
        if ConflictFree(h) {
          ConflictFreeBefore(front, e);
        }
        if HasOddClosedWalk(NonSelf(front)) {
          OddWalkGrows(NonSelf(front), e);
        }
      }
    }
  }

  lemma {:induction false} NonSelfIsAll(h: seq<Edge>)
    requires forall i :: 0 <= i < |h| ==> !IsSelf(h[i])
    ensures NonSelf(h) == h
  {
    if h != [] {
      NonSelfIsAll(h[..|h| - 1]);
      NonSelfLast(h, h[..|h| - 1], h[|h| - 1]);
    }
  }

  lemma NonSelfLast(h: seq<Edge>, front: seq<Edge>, e: Edge)
    requires h == front + [e] && !IsSelf(e) && NonSelf(front) == front
    ensures NonSelf(h) == h
  {
    assert h[..|h| - 1] == front;
  }

  /** Without a recorded conflict, the only odd closed walks are self-packets. */
  lemma NoConflictMeansBipartite(h: seq<Edge>)
    requires ConflictFree(h)
    ensures HasOddClosedWalk(h) <==> HasSelfPacket(h)
  {
    if HasSelfPacket(h) {
      var e :| e in h && IsSelf(e);
      JoinedEdge(h, e.src, e.src);
    } else {
      assert forall i :: 0 <= i < |h| ==> h[i] in h;
      NonSelfIsAll(h);
      NoOddWalk(h);
    }
  }

  /** Exactly when the element misses an inconsistency, in terms of the packets alone. */
  lemma ConflictMissedExactly(h: seq<Edge>)
    ensures HasOddClosedWalk(h) && ConflictFree(h) <==>
            HasSelfPacket(h) && SelfFirst(h) && !HasOddClosedWalk(NonSelf(h))
  {
    ConflictFreeExactly(h);
    if ConflictFree(h) {
      NoConflictMeansBipartite(h);
    }
  }

  /** The smallest such run: one packet from address 7 to itself. */
  lemma SelfPacketIsNotFlagged()
    ensures ConflictFree([Edge(7, 7)]) && HasOddClosedWalk([Edge(7, 7)])
  {
    var h := [Edge(7, 7)];
    assert h[..0] == [];
    assert Run(h[..0]) == EMPTY;
    assert Run(h) == Update(EMPTY, h[0]);
    JoinedEdge(h, 7, 7);
  }

  // --- Compaction ---------------------------------------------------------------------

  /** How many of the first n colours are the end of their chain. */
  function Roots(m: seq<nat>, n: nat): (k: nat)
    requires n <= |m|
    ensures k <= n
  {
    if n == 0 then 0 else Roots(m, n - 1) + if m[n - 1] == n - 1 then 1 else 0
  }

  /** The end of the chain, counted among the ends. */
  function Rank(m: seq<nat>, c: nat): nat
    requires IsForest(m) && c < |m|
  {
    Roots(m, Resolve(m, c))
  }

  function Renumber(m: seq<nat>, c: Color): Color
    requires IsForest(m) && (c.Hue? ==> c.c < |m|)
  {
    match c
    case Hue(k) => Hue(Rank(m, k))
    case other => other
  }

  function Renumbered(nodes: map<Addr, Color>, m: seq<nat>): map<Addr, Color>
    requires IsForest(m) && forall a :: a in nodes && nodes[a].Hue? ==> nodes[a].c < |m|
  {
    map a | a in nodes :: Renumber(m, nodes[a])
  }

  lemma RecoloredRanks(nodes: map<Addr, Color>, m: seq<nat>, mapping: seq<nat>)
    requires IsForest(m) && |mapping| == |m| && forall a :: a in nodes && nodes[a].Hue? ==> nodes[a].c < |m|
    requires forall d :: 0 <= d < |m| ==> mapping[d] == Rank(m, d)
    ensures Recolored(nodes, mapping) == Renumbered(nodes, m)
  {
  }

  /** The entries before c are ends of chains, and those behind it are still those of m. */
  predicate ResolvedBefore(n: seq<nat>, m: seq<nat>, c: nat)
    requires IsForest(m)
  {
    && |n| == |m|
    && (forall d :: 0 <= d < c && d < |m| ==> n[d] == Resolve(m, d))
    && (forall d :: c < d < |m| ==> n[d] == m[d])
  }

  /** `node_compact_colors` over all nodes. */
  function Recolored(nodes: map<Addr, Color>, mapping: seq<nat>): map<Addr, Color>
    requires forall a :: a in nodes && nodes[a].Hue? ==> nodes[a].c < |mapping|
  {
    map a | a in nodes :: match nodes[a] case Hue(c) => Hue(mapping[c]) case other => other
  }

  function Identity(n: nat): seq<nat> {
    seq(n, i => i)
  }

  /** `compact_colors`: pending merges are carried out and the colours left are numbered without gaps. */
  function Compacted(s: Coloring): Coloring
    requires WellFormed(s)
  {
    if s.compacted then s else
    var k := Roots(s.mapping, |s.mapping|);
    Coloring(Renumbered(s.nodes, s.mapping), Identity(k), k, true)
  }

  // --- The element --------------------------------------------------------------------

  datatype Packet = NonIP | IP(src: Addr, dst: Addr)

  class Element {
    var active: bool
    var nodes: map<Addr, Color>
    var mapping: seq<nat>
    var nextColor: nat
    var compacted: bool

    ghost function State(): Coloring
      reads this
    {
      Coloring(nodes, mapping, nextColor, compacted)
    }

    constructor (active: bool)
      ensures State() == Run([]) && this.active == active
    {
      this.active := active;
      nodes, mapping, nextColor, compacted := map[], [], 0, true;
    }

    /** The loop that replaces a stale colour by the end of its chain. */
    method ResolveColor(c: nat) returns (r: nat)
      requires IsForest(mapping) && c < |mapping|
      ensures r == Resolve(mapping, c)
    {
      r := c;
      while r != mapping[r]
        invariant r < |mapping| && Resolve(mapping, r) == Resolve(mapping, c)
        decreases r / 2
      {
        assert Descends(mapping, r);
        r := mapping[r];
      }
    }

    method ResolveNode(a: Addr)
      requires WellFormed(State())
      modifies `nodes
      ensures State() == Touch(old(State()), a)
    {
      var color := if a in nodes then nodes[a] else Null;
      if color.Hue? {
        var c := ResolveColor(color.c);
        color := Hue(c);
      }
      nodes := nodes[a := color];
    }

    method DecideColors(src: Addr, dst: Addr)
      requires WellFormed(State()) && src in nodes && dst in nodes
      modifies `nodes, `mapping, `nextColor, `compacted
      ensures State() == Decide(old(State()), Edge(src, dst))
    {
      var sc, dc := nodes[src], nodes[dst];
      if sc.Bad? || dc.Bad? {
        // skip this packet
      } else if sc.Null? && dc.Null? {
        nodes := nodes[src := Hue(nextColor)];
        nodes := nodes[dst := Hue(nextColor + 1)];
        mapping := mapping + [nextColor];
        mapping := mapping + [nextColor + 1];
        assert mapping == old(mapping) + [nextColor, nextColor + 1];
        nextColor := nextColor + 2;
      } else if sc.Null? {
        nodes := nodes[src := Hue(Flip(dc.c))];
      } else if dc.Null? {
        nodes := nodes[dst := Hue(Flip(sc.c))];
      } else {
        FlipInRange(mapping, sc.c);
        FlipInRange(mapping, dc.c);
        if sc.c / 2 < dc.c / 2 {
          mapping := mapping[dc.c := Flip(sc.c)];
          mapping := mapping[Flip(dc.c) := sc.c];
          nodes := nodes[dst := Hue(Flip(sc.c))];
          compacted := false;
        } else if dc.c / 2 < sc.c / 2 {
          mapping := mapping[sc.c := Flip(dc.c)];
          mapping := mapping[Flip(sc.c) := dc.c];
          nodes := nodes[src := Hue(Flip(dc.c))];
          compacted := false;
        } else if sc.c == dc.c {
          nodes := nodes[src := Bad];
        }
      }
    }

    /** `compact_colors` */
    method CompactColors()
      requires WellFormed(State())
      modifies `nodes, `mapping, `nextColor, `compacted
      ensures State() == Compacted(old(State()))
    {
      if compacted {
        return;
      }
      ghost var m := mapping;
      ResolveChains();
      var next := AllocateColors(m);
      RecoloredRanks(nodes, m, mapping);
      nodes := Recolored(nodes, mapping);
      Rewrite(next);
      nextColor := next;
      compacted := true;
    }

    /** Last loop: the colours left stand for themselves. */
    method Rewrite(next: nat)
      requires next <= |mapping|
      modifies `mapping
      ensures mapping == Identity(next)
    {
      var c := 0;
      while c < next
        invariant c <= next <= |mapping| && forall d :: 0 <= d < c ==> mapping[d] == d
      {
        mapping := mapping[c := c];
        c := c + 1;
      }
      mapping := mapping[..next];
    }

    /** First loop: every entry becomes the end of its chain. */
    method ResolveChains()
      requires IsForest(mapping)
      modifies `mapping
      ensures |mapping| == old(|mapping|)
      ensures forall d :: 0 <= d < |mapping| ==> mapping[d] == Resolve(old(mapping), d)
    {
      ghost var m := mapping;
      var c := 0;
      while c < |mapping|
        invariant c <= |mapping| && ResolvedBefore(mapping, m, c) && (c < |m| ==> mapping[c] == m[c])
      {
        ResolveChain(m, c);
        c := c + 1;
      }
    }

    /** The inner loop, for entry c. */
    method ResolveChain(ghost m: seq<nat>, c: nat)
      requires IsForest(m) && ResolvedBefore(mapping, m, c) && c < |m| && mapping[c] == m[c]
      modifies `mapping
      ensures ResolvedBefore(mapping, m, c) && mapping[c] == Resolve(m, c)
    {
      var cc := c;
      assert Descends(m, c);
      while mapping[cc] != cc
        invariant 0 <= cc <= c && ResolvedBefore(mapping, m, c) && Resolve(m, cc) == Resolve(m, c)
        invariant mapping[c] == if cc == c then m[c] else cc
        decreases cc / 2
      {
        assert Descends(m, cc);
        cc := mapping[cc];
        mapping := mapping[c := cc];
      }
    }

    /** Second loop: the ends are numbered in order, and every other entry takes the number of its end. */
    method AllocateColors(ghost m: seq<nat>) returns (next: nat)
      requires IsForest(m) && |mapping| == |m| && forall d :: 0 <= d < |m| ==> mapping[d] == Resolve(m, d)
      modifies `mapping
      ensures next == Roots(m, |m|) && |mapping| == |m|
      ensures forall d :: 0 <= d < |m| ==> mapping[d] == Rank(m, d)
    {
      next := 0;
      var c := 0;
      while c < |mapping|
        invariant c <= |mapping| == |m| && next == Roots(m, c)
        invariant forall d :: 0 <= d < c ==> mapping[d] == Rank(m, d)
        invariant forall d :: c <= d < |m| ==> mapping[d] == Resolve(m, d)
      {
        assert Descends(m, c);
        if mapping[c] == c {
          mapping := mapping[c := next];
          next := next + 1;
        } else {
          mapping := mapping[c := mapping[mapping[c]]];
        }
        c := c + 1;
      }
    }

    method UpdatePacket(p: Packet) returns (accepted: bool)
      requires WellFormed(State())
      modifies `nodes, `mapping, `nextColor, `compacted
      ensures accepted <==> active && p.IP?
      ensures State() == if accepted then Update(old(State()), Edge(p.src, p.dst)) else old(State())
      ensures WellFormed(State())
      ensures forall h :: accepted && old(State()) == Run(h) ==> State() == Run(h + [Edge(p.src, p.dst)])
    {
      if !active || p.NonIP? {
        return false;
      }
      ghost var e := Edge(p.src, p.dst);
      UpdateColors(State(), e, 0);
      TouchTwice(State(), e);
      ResolveNode(p.src);
      ResolveNode(p.dst);
      DecideColors(p.src, p.dst);
      forall h | old(State()) == Run(h)
        ensures State() == Run(h + [e])
      {
        LastPacket(h, e);
      }
      return true;
    }
  }

  /** Resolving the two endpoints one after the other is the joint resolution, also when they coincide. */
  lemma TouchTwice(s: Coloring, e: Edge)
    requires WellFormed(s)
    ensures WellFormed(Touch(s, e.src)) && WellFormed(Touch(Touch(s, e.src), e.dst))
    ensures Touch(Touch(s, e.src), e.dst) == Resolved(s, e)
    ensures var t := Resolved(s, e);
            t.nodes[e.src] == ColorOf(s, e.src) && t.nodes[e.dst] == ColorOf(s, e.dst)
  {
  }
}
