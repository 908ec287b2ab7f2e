/**
  Compaction of address colours (`compact_colors` of models/package/ipaddrcolors.cc), carried out at any moments between
  packets, is a renaming: it changes no answer to the question which addresses are bad, equal or opposite.
 */
module CompactColors {
  import opened Walks
  import opened InferIPAddrColors

  // --- Ranks of chain ends -----------------------------------------------------------------

  predicate IsRoot(m: seq<nat>, c: nat) {
    c < |m| && m[c] == c
  }

  lemma RootFlip(m: seq<nat>, c: nat)
    requires IsForest(m) && c < |m|
    ensures IsRoot(m, c) <==> IsRoot(m, Flip(c))
  {
    FlipInRange(m, c);
    assert Opposed(m, c) && Opposed(m, Flip(c));
  }

  lemma {:induction false} RootsMonotone(m: seq<nat>, i: nat, j: nat)
    requires i <= j <= |m|
    ensures Roots(m, i) <= Roots(m, j)
    decreases j
  {
    if i < j {
      RootsMonotone(m, i, j - 1);
    }
  }

  /** The two colours of a pair are both ends or both not, so the ends before a pair are even in number. */
  lemma {:induction false} RootsEven(m: seq<nat>, p: nat)
    requires IsForest(m) && 2 * p <= |m|
    ensures Roots(m, 2 * p) % 2 == 0
    ensures p > 0 ==> Roots(m, 2 * p) == Roots(m, 2 * (p - 1)) + if IsRoot(m, 2 * (p - 1)) then 2 else 0
  {
    if p > 0 {
      RootsEven(m, p - 1);
      RootFlip(m, 2 * (p - 1));
    }
  }

  /** Ranking the ends keeps opposite colours opposite. */
  lemma RankFlip(m: seq<nat>, c: nat)
    requires IsForest(m) && IsRoot(m, c)
    ensures Flip(c) < |m| && IsRoot(m, Flip(c)) && Roots(m, Flip(c)) == Flip(Roots(m, c))
  {
    FlipInRange(m, c);
    RootFlip(m, c);
    RootsEven(m, c / 2);
    RootsPair(m, c / 2);
  }

  lemma RootsPair(m: seq<nat>, p: nat)
    requires IsForest(m) && 2 * p + 1 < |m| && IsRoot(m, 2 * p)
    ensures Roots(m, 2 * p + 1) == Roots(m, 2 * p) + 1
  {
  }

  /** Ranking the ends keeps the order of pairs. */
  lemma RankOrder(m: seq<nat>, c: nat, d: nat)
    requires IsForest(m) && IsRoot(m, c) && IsRoot(m, d) && c / 2 < d / 2
    ensures Roots(m, c) / 2 < Roots(m, d) / 2
  {
    RankOfPair(m, c);
    RankOfPair(m, d);
    PairsBefore(m, c / 2, d / 2);
    PairOrder(Roots(m, 2 * (c / 2)), Roots(m, 2 * (d / 2)), c % 2, d % 2);
  }

  lemma PairsBefore(m: seq<nat>, p: nat, q: nat)
    requires IsForest(m) && p < q && 2 * q <= |m| && IsRoot(m, 2 * p)
    ensures Roots(m, 2 * p) + 2 <= Roots(m, 2 * q)
  {
    RootsEven(m, p + 1);
    RootsMonotone(m, 2 * (p + 1), 2 * q);
  }

  lemma PairOrder(a: nat, b: nat, x: nat, y: nat)
    requires a % 2 == 0 && b % 2 == 0 && a + 2 <= b && x < 2 && y < 2
    ensures (a + x) / 2 < (b + y) / 2
  {
  }

  /** The rank of an end lies in the pair that starts at the number of ends before its pair. */
  lemma RankOfPair(m: seq<nat>, c: nat)
    requires IsForest(m) && IsRoot(m, c)
    ensures 2 * (c / 2) + 1 < |m| && IsRoot(m, 2 * (c / 2))
    ensures Roots(m, 2 * (c / 2)) % 2 == 0 && Roots(m, c) == Roots(m, 2 * (c / 2)) + c % 2
  {
    RootFlip(m, c);
    RootsEven(m, c / 2);
    RootsPair(m, c / 2);
  }

  lemma RankBelow(m: seq<nat>, c: nat)
    requires IsForest(m) && IsRoot(m, c)
    ensures Roots(m, c) < Roots(m, |m|)
  {
    RootsMonotone(m, c + 1, |m|);
  }

  // --- The compacted colouring ---------------------------------------------------------------

  lemma IdentityForest(n: nat)
    requires n % 2 == 0
    ensures IsForest(Identity(n)) && forall c: nat :: c < n ==> Resolve(Identity(n), c) == c
  {
    var m := Identity(n);
    forall c | 0 <= c < |m|
      ensures Descends(m, c) && Opposed(m, c)
    {
    }
  }

  /** A colouring marked as compact has no pending merge. */
  predicate Flat(s: Coloring) {
    s.compacted ==> s.mapping == Identity(|s.mapping|)
  }

  lemma ResolveIsRoot(m: seq<nat>, c: nat)
    requires IsForest(m) && c < |m|
    ensures IsRoot(m, Resolve(m, c))
  {
  }

  /** Compaction replaces every resolved colour by its rank. */
  lemma CompactedColors(s: Coloring, a: Addr)
    requires WellFormed(s) && !s.compacted
    ensures var t := Compacted(s);
            && WellFormed(t) && Flat(t) && t.nextColor == Roots(s.mapping, |s.mapping|)
            && ColorOf(t, a) == match ColorOf(s, a) case Hue(r) => Hue(Roots(s.mapping, r)) case other => other
  {
    var (m, t) := (s.mapping, Compacted(s));
    RootsEven(m, |m| / 2);
    IdentityForest(t.nextColor);
    forall b | b in t.nodes && t.nodes[b].Hue?
      ensures t.nodes[b].c < t.nextColor
    {
      ResolveIsRoot(m, s.nodes[b].c);
      RankBelow(m, Resolve(m, s.nodes[b].c));
    }
  }

  // --- Renamings -------------------------------------------------------------------------------

  type Renaming = map<nat, nat>

  /** Colour c is renamed to a chain end below `next`, and its opposite to the opposite of that. */
  predicate Renamed(f: Renaming, c: nat, next: nat, t: Coloring)
    requires c in f
  {
    c < next && Flip(c) in f && f[Flip(c)] == Flip(f[c]) && f[c] < t.nextColor && IsRoot(t.mapping, f[c])
  }

  predicate Ordered(f: Renaming, c: nat, d: nat)
    requires c in f && d in f
  {
    c / 2 < d / 2 ==> f[c] / 2 < f[d] / 2
  }

  /** The colour u under the renaming is v. */
  predicate Same(f: Renaming, u: Color, v: Color) {
    match u
    case Null => v == Null
    case Bad => v == Bad
    case Hue(c) => c in f && v == Hue(f[c])
  }

  /** t is s with its colours renamed, keeping pairs together and in order. */
  ghost predicate Renames(f: Renaming, s: Coloring, t: Coloring) {
    && WellFormed(s) && WellFormed(t)
    && (forall c {:trigger Renamed(f, c, s.nextColor, t)} :: c in f ==> Renamed(f, c, s.nextColor, t))
    && (forall c, d {:trigger Ordered(f, c, d)} :: c in f && d in f ==> Ordered(f, c, d))
    && (forall a {:trigger Same(f, ColorOf(s, a), ColorOf(t, a))} :: Same(f, ColorOf(s, a), ColorOf(t, a)))
  }

  /** Such colourings agree on which addresses are bad, unseen, equal and opposite. */
  lemma RenamedAlike(f: Renaming, s: Coloring, t: Coloring, a: Addr, b: Addr)
    requires Renames(f, s, t)
    ensures ColorOf(s, a).Bad? <==> ColorOf(t, a).Bad?
    ensures ColorOf(s, a).Null? <==> ColorOf(t, a).Null?
    ensures ColorOf(s, a) == ColorOf(s, b) <==> ColorOf(t, a) == ColorOf(t, b)
    ensures Opposite(ColorOf(s, a), ColorOf(s, b)) <==> Opposite(ColorOf(t, a), ColorOf(t, b))
  {
    assert Same(f, ColorOf(s, a), ColorOf(t, a)) && Same(f, ColorOf(s, b), ColorOf(t, b));
    if ColorOf(s, a).Hue? && ColorOf(s, b).Hue? {
      RenamingTells(f, s, t, ColorOf(s, a).c, ColorOf(s, b).c);
    }
  }

  lemma RenamingTells(f: Renaming, s: Coloring, t: Coloring, c: nat, d: nat)
    requires Renames(f, s, t) && c in f && d in f
    ensures f[c] == f[d] <==> c == d
    ensures f[d] == Flip(f[c]) <==> d == Flip(c)
    ensures c / 2 < d / 2 <==> f[c] / 2 < f[d] / 2
  {
    assert Renamed(f, c, s.nextColor, t) && Renamed(f, d, s.nextColor, t);
    assert Ordered(f, c, d) && Ordered(f, d, c);
    FlipPair(c, d);
    FlipPair(f[c], f[d]);
  }

  /** Two colours of one pair are equal or opposite. */
  lemma FlipPair(c: nat, d: nat)
    ensures c / 2 == d / 2 <==> d == c || d == Flip(c)
    ensures Flip(c) / 2 == c / 2 && Flip(c) != c && Flip(Flip(c)) == c
  {
  }

  // --- A packet under a renaming ------------------------------------------------------------------

  /** The renaming after a packet: a new pair is added, and a pair that was merged away is dropped. */
  function Next(f: Renaming, s: Coloring, t: Coloring, e: Edge): Renaming
    requires WellFormed(s)
  {
    match (ColorOf(s, e.src), ColorOf(s, e.dst))
    case (Null, Null) => f[s.nextColor := t.nextColor][s.nextColor + 1 := t.nextColor + 1]
    case (Hue(c), Hue(d)) =>
      if c / 2 < d / 2 then f - {d, Flip(d)} else if d / 2 < c / 2 then f - {c, Flip(c)} else f
    case _ => f
  }

  /** A merge under a renaming that tells colour u from the child pair. */
  lemma MovedSame(f: Renaming, u: Color, u': Color, child: nat, parent: nat)
    requires Same(f, u, u') && child in f && parent in f && Flip(parent) in f && f[Flip(parent)] == Flip(f[parent])
    requires child / 2 != parent / 2
    requires u.Hue? ==> (f[u.c] == f[child] <==> u.c == child) && (f[u.c] == Flip(f[child]) <==> u.c == Flip(child))
    ensures Same(f - {child, Flip(child)}, Moved(u, child, parent), Moved(u', f[child], f[parent]))
  {
    FlipPair(child, parent);
    FlipPair(child, Flip(parent));
    FlipPair(parent, parent);
  }

  lemma AddedSame(f: Renaming, n: nat, n': nat, u: Color, v: Color)
    requires Same(f, u, v) && (u.Hue? ==> u.c < n)
    ensures Same(f[n := n'][n + 1 := n' + 1], u, v)
  {
  }

  lemma FlippedSame(f: Renaming, s: Coloring, t: Coloring, c: nat)
    requires Renames(f, s, t) && c in f
    ensures Same(f, Hue(Flip(c)), Hue(Flip(f[c])))
  {
    assert Renamed(f, c, s.nextColor, t);
  }

  /** What `Renames` says of a colour and of the relation of two colours. */
  lemma MergeSame(f: Renaming, s: Coloring, t: Coloring, u: Color, u': Color, child: nat, parent: nat)
    requires Renames(f, s, t) && Same(f, u, u') && child in f && parent in f && parent / 2 < child / 2
    ensures Same(f - {child, Flip(child)}, Moved(u, child, parent), Moved(u', f[child], f[parent]))
  {
    assert Renamed(f, parent, s.nextColor, t);
    if u.Hue? {
      RenamingTells(f, s, t, child, u.c);
    }
    MovedSame(f, u, u', child, parent);
  }

  /** The colours of one address after a packet between two coloured addresses. */
  lemma NewSameHues(f: Renaming, s: Coloring, t: Coloring, e: Edge, a: Addr, c: nat, d: nat)
    requires Renames(f, s, t) && ColorOf(s, e.src) == Hue(c) && ColorOf(s, e.dst) == Hue(d)
    ensures Same(Next(f, s, t, e), NewColor(s, e, a), NewColor(t, e, a))
  {
    assert Same(f, ColorOf(s, e.src), ColorOf(t, e.src)) && Same(f, ColorOf(s, e.dst), ColorOf(t, e.dst));
    assert Same(f, ColorOf(s, a), ColorOf(t, a));
    RenamingTells(f, s, t, c, d);
    RenamingTells(f, s, t, d, c);
    if c / 2 < d / 2 {
      MergeSame(f, s, t, ColorOf(s, a), ColorOf(t, a), d, c);
    } else if d / 2 < c / 2 {
      MergeSame(f, s, t, ColorOf(s, a), ColorOf(t, a), c, d);
    }
  }

  lemma KeyBelow(f: Renaming, s: Coloring, t: Coloring, u: Color, v: Color)
    requires Renames(f, s, t) && Same(f, u, v)
    ensures u.Hue? ==> u.c < s.nextColor
  {
    assert u.Hue? ==> Renamed(f, u.c, s.nextColor, t);
  }

  /** The colours of one address after the packet. */
  lemma NewSame(f: Renaming, s: Coloring, t: Coloring, e: Edge, a: Addr)
    requires Renames(f, s, t)
    ensures Same(Next(f, s, t, e), NewColor(s, e, a), NewColor(t, e, a))
  {
    var (x, y, u) := (ColorOf(s, e.src), ColorOf(s, e.dst), ColorOf(s, a));
    assert Same(f, ColorOf(s, e.src), ColorOf(t, e.src)) && Same(f, ColorOf(s, e.dst), ColorOf(t, e.dst));
    assert Same(f, ColorOf(s, a), ColorOf(t, a));
    match (x, y)
    case (Null, Null) =>
      KeyBelow(f, s, t, u, ColorOf(t, a));
      AddedSame(f, s.nextColor, t.nextColor, u, ColorOf(t, a));
    case (Null, Hue(d)) => FlippedSame(f, s, t, d);
    case (Hue(c), Null) => FlippedSame(f, s, t, c);
    case (Hue(c), Hue(d)) => NewSameHues(f, s, t, e, a, c, d);
    case _ =>
  }

  /** The mapping after a packet, by the resolved colours of its addresses. */
  predicate MappingAfter(s: Coloring, e: Edge, m: seq<nat>)
    requires WellFormed(s)
  {
    match (ColorOf(s, e.src), ColorOf(s, e.dst))
    case (Null, Null) => m == s.mapping + [s.nextColor, s.nextColor + 1]
    case (Hue(c), Hue(d)) =>
      FlipInRange(s.mapping, c);
      FlipInRange(s.mapping, d);
      m == if c / 2 < d / 2 then Merge(s.mapping, d, c) else if d / 2 < c / 2 then Merge(s.mapping, c, d) else s.mapping
    case _ => m == s.mapping
  }

  lemma UpdateMapping(s: Coloring, e: Edge)
    requires WellFormed(s)
    ensures WellFormed(Update(s, e)) && MappingAfter(s, e, Update(s, e).mapping)
  {
    UpdateColors(s, e, 0);
    TouchTwice(s, e);
  }

  /** The keys of a renaming, over the numbers of colours and the mapping of t. */
  ghost predicate KeysOk(f: Renaming, next: nat, m: seq<nat>) {
    && (forall c {:trigger KeyOk(f, c, next, m)} :: c in f ==> KeyOk(f, c, next, m))
    && (forall c, d {:trigger Ordered(f, c, d)} :: c in f && d in f ==> Ordered(f, c, d))
  }

  predicate KeyOk(f: Renaming, c: nat, next: nat, m: seq<nat>)
    requires c in f
  {
    c < next && Flip(c) in f && f[Flip(c)] == Flip(f[c]) && IsRoot(m, f[c])
  }

  lemma AddedKeys(f: Renaming, n: nat, m: seq<nat>)
    requires KeysOk(f, n, m) && n % 2 == 0 && |m| % 2 == 0
    ensures KeysOk(f[n := |m|][n + 1 := |m| + 1], n + 2, m + [|m|, |m| + 1])
  {
    WithAdded(f, n, m, f[n := |m|][n + 1 := |m| + 1], m + [|m|, |m| + 1]);
  }

  lemma WithAdded(f: Renaming, n: nat, m: seq<nat>, g: Renaming, k: seq<nat>)
    requires KeysOk(f, n, m) && n % 2 == 0 && |m| % 2 == 0
    requires g == f[n := |m|][n + 1 := |m| + 1] && k == m + [|m|, |m| + 1]
    ensures KeysOk(g, n + 2, k)
  {
    forall c | c in g
      ensures KeyOk(g, c, n + 2, k)
    {
      AddedKey(f, n, m, g, k, c);
    }
    forall c, d | c in g && d in g
      ensures Ordered(g, c, d)
    {
      AddedOrder(f, n, m, g, c, d);
    }
  }

  lemma AddedKey(f: Renaming, n: nat, m: seq<nat>, g: Renaming, k: seq<nat>, c: nat)
    requires KeysOk(f, n, m) && n % 2 == 0 && |m| % 2 == 0 && k == m + [|m|, |m| + 1]
    requires g == f[n := |m|][n + 1 := |m| + 1] && c in g
    ensures KeyOk(g, c, n + 2, k)
  {
    if c in f {
      assert KeyOk(f, c, n, m);
    }
  }

  lemma AddedOrder(f: Renaming, n: nat, m: seq<nat>, g: Renaming, c: nat, d: nat)
    requires KeysOk(f, n, m) && n % 2 == 0 && |m| % 2 == 0
    requires g == f[n := |m|][n + 1 := |m| + 1] && c in g && d in g
    ensures Ordered(g, c, d)
  {
    if c in f {
      assert KeyOk(f, c, n, m);
      if d in f {
        assert KeyOk(f, d, n, m) && Ordered(f, c, d);
      }
    } else if d in f {
      assert KeyOk(f, d, n, m);
    }
  }

  /** Dropping a pair whose ends are hung below another pair. */
  lemma DroppedKeys(f: Renaming, n: nat, m: seq<nat>, child: nat, k: seq<nat>)
    requires KeysOk(f, n, m) && child in f && |k| == |m|
    requires forall i :: 0 <= i < |m| && i / 2 != f[child] / 2 ==> k[i] == m[i]
    ensures KeysOk(f - {child, Flip(child)}, n, k)
  {
    var g := f - {child, Flip(child)};
    assert KeyOk(f, child, n, m);
    forall c | c in g
      ensures KeyOk(g, c, n, k)
    {
      assert KeyOk(f, c, n, m);
      assert Ordered(f, c, child) && Ordered(f, child, c);
      FlipPair(c, child);
      FlipPair(Flip(c), child);
      FlipPair(f[c], f[child]);
    }
    forall c, d | c in g && d in g
      ensures Ordered(g, c, d)
    {
      assert Ordered(f, c, d);
    }
  }

  lemma KeysOfRenames(f: Renaming, s: Coloring, t: Coloring)
    requires Renames(f, s, t)
    ensures KeysOk(f, s.nextColor, t.mapping)
  {
    forall c | c in f
      ensures KeyOk(f, c, s.nextColor, t.mapping)
    {
      assert Renamed(f, c, s.nextColor, t);
    }
  }

  lemma RenamesFromKeys(f: Renaming, s: Coloring, t: Coloring)
    requires WellFormed(s) && WellFormed(t) && KeysOk(f, s.nextColor, t.mapping)
    requires forall a {:trigger Same(f, ColorOf(s, a), ColorOf(t, a))} :: Same(f, ColorOf(s, a), ColorOf(t, a))
    ensures Renames(f, s, t)
  {
    forall c | c in f
      ensures Renamed(f, c, s.nextColor, t)
    {
      assert KeyOk(f, c, s.nextColor, t.mapping);
    }
  }

  lemma MergedKeys(f: Renaming, s: Coloring, t: Coloring, child: nat, parent: nat)
    requires Renames(f, s, t) && child in f && parent in f
    ensures f[child] < |t.mapping| && Flip(f[child]) < |t.mapping|
    ensures KeysOk(f - {child, Flip(child)}, s.nextColor, Merge(t.mapping, f[child], f[parent]))
  {
    KeysOfRenames(f, s, t);
    assert KeyOk(f, child, s.nextColor, t.mapping);
    FlipInRange(t.mapping, f[child]);
    DroppedKeys(f, s.nextColor, t.mapping, child, Merge(t.mapping, f[child], f[parent]));
  }

  lemma HueKeys(f: Renaming, s: Coloring, t: Coloring, c: nat, d: nat)
    requires Renames(f, s, t) && c in f && d in f
    ensures var m := t.mapping;
            && f[c] < |m| && f[d] < |m| && Flip(f[c]) < |m| && Flip(f[d]) < |m|
            && (c / 2 < d / 2 <==> f[c] / 2 < f[d] / 2) && (d / 2 < c / 2 <==> f[d] / 2 < f[c] / 2)
            && (c / 2 < d / 2 ==> KeysOk(f - {d, Flip(d)}, s.nextColor, Merge(m, f[d], f[c])))
            && (d / 2 < c / 2 ==> KeysOk(f - {c, Flip(c)}, s.nextColor, Merge(m, f[c], f[d])))
  {
    RenamingTells(f, s, t, c, d);
    RenamingTells(f, s, t, d, c);
    MergedKeys(f, s, t, d, c);
    MergedKeys(f, s, t, c, d);
  }

  lemma NextKeys(f: Renaming, s: Coloring, t: Coloring, e: Edge, next: nat, m: seq<nat>)
    requires Renames(f, s, t) && MappingAfter(t, e, m)
    requires next == if ColorOf(s, e.src).Null? && ColorOf(s, e.dst).Null? then s.nextColor + 2 else s.nextColor
    ensures KeysOk(Next(f, s, t, e), next, m)
  {
    KeysOfRenames(f, s, t);
    var (x, y) := (ColorOf(s, e.src), ColorOf(s, e.dst));
    assert Same(f, ColorOf(s, e.src), ColorOf(t, e.src)) && Same(f, ColorOf(s, e.dst), ColorOf(t, e.dst));
    if x.Null? && y.Null? {
      AddedKeys(f, s.nextColor, t.mapping);
    } else if x.Hue? && y.Hue? {
      HueKeys(f, s, t, x.c, y.c);
    }
  }

  lemma UpdateKeys(f: Renaming, s: Coloring, t: Coloring, e: Edge)
    requires Renames(f, s, t)
    ensures WellFormed(Update(s, e)) && WellFormed(Update(t, e))
    ensures KeysOk(Next(f, s, t, e), Update(s, e).nextColor, Update(t, e).mapping)
  {
    UpdateMapping(t, e);
    NextColorStep(s, e);
    NextKeys(f, s, t, e, Update(s, e).nextColor, Update(t, e).mapping);
  }

  /** A packet keeps renamed colourings renamed. */
  lemma UpdateRenames(f: Renaming, s: Coloring, t: Coloring, e: Edge)
    requires Renames(f, s, t)
    ensures Renames(Next(f, s, t, e), Update(s, e), Update(t, e))
  {
    UpdateKeys(f, s, t, e);
    var (g, s', t') := (Next(f, s, t, e), Update(s, e), Update(t, e));
    forall a
      ensures Same(g, ColorOf(s', a), ColorOf(t', a))
    {
      UpdateColors(s, e, a);
      UpdateColors(t, e, a);
      NewSame(f, s, t, e, a);
    }
    RenamesFromKeys(g, s', t');
  }

  // --- Compaction as a renaming ------------------------------------------------------------------

  function Ranked(f: Renaming, m: seq<nat>): Renaming
    requires forall c :: c in f ==> f[c] < |m|
  {
    map c | c in f :: Roots(m, f[c])
  }

  lemma RankedKey(f: Renaming, n: nat, m: seq<nat>, c: nat)
    requires IsForest(m) && (forall d :: d in f ==> f[d] < |m|) && c in f && KeyOk(f, c, n, m)
    ensures KeyOk(Ranked(f, m), c, n, Identity(Roots(m, |m|)))
  {
    RankFlip(m, f[c]);
    RankBelow(m, f[c]);
  }

  lemma RankedKeys(f: Renaming, n: nat, m: seq<nat>)
    requires IsForest(m) && KeysOk(f, n, m) && forall c :: c in f ==> f[c] < |m|
    ensures KeysOk(Ranked(f, m), n, Identity(Roots(m, |m|)))
  {
    var g := Ranked(f, m);
    forall c | c in g
      ensures KeyOk(g, c, n, Identity(Roots(m, |m|)))
    {
      assert KeyOk(f, c, n, m);
      RankedKey(f, n, m, c);
    }
    forall c, d | c in g && d in g
      ensures Ordered(g, c, d)
    {
      assert KeyOk(f, c, n, m) && KeyOk(f, d, n, m) && Ordered(f, c, d);
      if c / 2 < d / 2 {
        RankOrder(m, f[c], f[d]);
      }
    }
  }

  /** Compaction renames the colours. */
  lemma CompactRenames(f: Renaming, s: Coloring, t: Coloring) returns (g: Renaming)
    requires Renames(f, s, t)
    ensures Renames(g, s, Compacted(t))
  {
    g := f;
    if !t.compacted {
      KeysOfRenames(f, s, t);
      KeysBelow(f, s.nextColor, t.mapping);
      g := Ranked(f, t.mapping);
      RankedKeys(f, s.nextColor, t.mapping);
      CompactedColors(t, 0);
      forall a
        ensures Same(g, ColorOf(s, a), ColorOf(Compacted(t), a))
      {
        CompactedColors(t, a);
        assert Same(f, ColorOf(s, a), ColorOf(t, a));
      }
      RenamesFromKeys(g, s, Compacted(t));
    }
  }

  lemma KeysBelow(f: Renaming, n: nat, m: seq<nat>)
    requires KeysOk(f, n, m)
    ensures forall c :: c in f ==> f[c] < |m|
  {
    forall c | c in f
      ensures f[c] < |m|
    {
      assert KeyOk(f, c, n, m);
    }
  }

  // --- Runs with compaction -------------------------------------------------------------------------

  datatype Event = See(e: Edge) | Compact

  function Packets(evs: seq<Event>): seq<Edge> {
    if evs == [] then [] else
    var h := Packets(evs[..|evs| - 1]);
    match evs[|evs| - 1]
    case See(e) => h + [e]
    case Compact => h
  }

  function Mixed(evs: seq<Event>): (s: Coloring)
    ensures WellFormed(s)
  {
    if evs == [] then EMPTY else
    var s := Mixed(evs[..|evs| - 1]);
    match evs[|evs| - 1]
    case See(e) => UpdateColors(s, e, 0); Update(s, e)
    case Compact => CompactedWellFormed(s); Compacted(s)
  }

  lemma CompactedWellFormed(s: Coloring)
    requires WellFormed(s)
    ensures WellFormed(Compacted(s))
  {
    if !s.compacted {
      CompactedColors(s, 0);
    }
  }

  lemma {:induction false} MixedRenames(evs: seq<Event>) returns (f: Renaming)
    ensures Renames(f, Run(Packets(evs)), Mixed(evs))
  {
    if evs == [] {
      f := map[];
    } else {
      var (front, last) := (evs[..|evs| - 1], evs[|evs| - 1]);
      var g := MixedRenames(front);
      match last
      case See(e) =>
        UpdateRenames(g, Run(Packets(front)), Mixed(front), e);
        LastPacket(Packets(front), e);
        f := Next(g, Run(Packets(front)), Mixed(front), e);
      case Compact =>
        f := CompactRenames(g, Run(Packets(front)), Mixed(front));
    }
  }

  /** Compaction is unobservable: whenever it is carried out, the same addresses are bad, unseen, equal and opposite. */
  lemma CompactionUnobservable(evs: seq<Event>, a: Addr, b: Addr)
    ensures var (s, t) := (Run(Packets(evs)), Mixed(evs));
            && (ColorOf(s, a).Bad? <==> ColorOf(t, a).Bad?)
            && (ColorOf(s, a).Null? <==> ColorOf(t, a).Null?)
            && (ColorOf(s, a) == ColorOf(s, b) <==> ColorOf(t, a) == ColorOf(t, b))
            && (Opposite(ColorOf(s, a), ColorOf(s, b)) <==> Opposite(ColorOf(t, a), ColorOf(t, b)))
  {
    var f := MixedRenames(evs);
    RenamedAlike(f, Run(Packets(evs)), Mixed(evs), a, b);
  }

  /** The flag is right: a colouring marked as compact has no pending merge, so that skipping the work is sound. */
  lemma {:induction false} MixedFlat(evs: seq<Event>)
    ensures Flat(Mixed(evs))
  {
    if evs != [] {
      var s := Mixed(evs[..|evs| - 1]);
      MixedFlat(evs[..|evs| - 1]);
      match evs[|evs| - 1]
      case See(e) =>
        UpdateMapping(s, e);
        UpdateFlag(s, e);
      case Compact =>
        if !s.compacted {
          CompactedColors(s, 0);
        }
    }
  }

  lemma UpdateFlag(s: Coloring, e: Edge)
    requires WellFormed(s)
    ensures WellFormed(Update(s, e)) && (Update(s, e).compacted ==> s.compacted)
    ensures match (ColorOf(s, e.src), ColorOf(s, e.dst))
            case (Hue(c), Hue(d)) => Update(s, e).compacted ==> c / 2 == d / 2
            case _ => true
  {
    UpdateColors(s, e, 0);
    TouchTwice(s, e);
  }

  /** After compaction every colour stands for itself: one look at the mapping gives the colour of an address. */
  lemma CompactedIsFlat(evs: seq<Event>, a: Addr)
    ensures var t := Compacted(Mixed(evs)); t.mapping == Identity(t.nextColor) && WellFormed(t) && ColorOf(t, a) == Stored(t, a)
  {
    MixedFlat(evs);
    var s := Mixed(evs);
    CompactedWellFormed(s);
    if !s.compacted {
      CompactedColors(s, a);
    }
    IdentityForest(Compacted(s).nextColor);
  }
}
