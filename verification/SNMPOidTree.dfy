/**
  The SNMP OID trie: snmp/snmpoidtree.{cc,hh}.  Nodes are heap objects linked by
  parent, sibling and child pointers.  `Shape` is the ghost picture of the links:
  which node stands for which OID, and the sibling list below every OID.
 */
module SNMPOidTree {
  type Word = x: int | 0 <= x < 0x1_0000_0000
  type Oid = seq<Word>

  class Node {
    var suffix: Word
    var parent: Node?
    var sibling: Node?
    var child: Node?
    var data: int

    constructor (suffix: Word, parent: Node?)
      ensures this.suffix == suffix && this.parent == parent
      ensures sibling == null && child == null && data == -1
    {
      this.suffix, this.parent := suffix, parent;
      sibling, child, data := null, null, -1;
    }
  }

  /** The fields of a node, as a value. */
  datatype Cell = Cell(suffix: Word, parent: Node?, sibling: Node?, child: Node?, data: int)
  type Heap = map<Node, Cell>

  ghost function Read(n: Node): Cell
    reads n
  {
    Cell(n.suffix, n.parent, n.sibling, n.child, n.data)
  }

  ghost function Snapshot(repr: set<Node>): Heap
    reads repr
  {
    map n | n in repr :: Read(n)
  }

  datatype Shape = Shape(at: map<Oid, Node>, oid: map<Node, Oid>, kids: map<Oid, seq<Node>>)

  const NO_SHAPE := Shape(map[], map[], map[[] := []])

  function Init(o: Oid): Oid
    requires o != []
  {
    o[..|o| - 1]
  }

  function First(s: seq<Node>): Node? {
    if s == [] then null else s[0]
  }

  function Last(s: seq<Node>): Node? {
    if s == [] then null else s[|s| - 1]
  }

  /** The node of an OID prefix; the empty prefix has none. */
  ghost function Owner(sh: Shape, p: Oid): Node? {
    if p in sh.at then sh.at[p] else null
  }

  // --- Well-formedness of a linked heap ----------------------------------------------

  ghost predicate NodeOk(h: Heap, sh: Shape, n: Node)
    requires n in h
  {
    && n in sh.oid && sh.oid[n] != []
    && sh.oid[n] in sh.at && sh.at[sh.oid[n]] == n
    && sh.oid[n] in sh.kids && Init(sh.oid[n]) in sh.kids
    && n in sh.kids[Init(sh.oid[n])]
    && h[n].suffix == sh.oid[n][|sh.oid[n]| - 1]
    && h[n].child == First(sh.kids[sh.oid[n]])
    && h[n].parent == Owner(sh, Init(sh.oid[n]))
  }

  ghost predicate OidOk(h: Heap, sh: Shape, o: Oid)
    requires o in sh.at
  {
    sh.at[o] in h && sh.at[o] in sh.oid && sh.oid[sh.at[o]] == o
  }

  ghost predicate KidOk(h: Heap, sh: Shape, p: Oid, i: nat)
    requires p in sh.kids && i < |sh.kids[p]|
  {
    var s := sh.kids[p];
    && s[i] in h && s[i] in sh.oid
    && sh.oid[s[i]] == p + [h[s[i]].suffix]
    && h[s[i]].sibling == (if i + 1 < |s| then s[i + 1] else null)
  }

  ghost predicate Linked(h: Heap, root: Node?, sh: Shape) {
    && h.Keys == sh.oid.Keys
    && [] !in sh.at && sh.kids.Keys == sh.at.Keys + {[]}
    && root == First(sh.kids[[]])
    && (forall n {:trigger NodeOk(h, sh, n)} :: n in h ==> NodeOk(h, sh, n))
    && (forall o {:trigger OidOk(h, sh, o)} :: o in sh.at ==> OidOk(h, sh, o))
    && (forall p, i {:trigger KidOk(h, sh, p, i)} :: p in sh.kids && 0 <= i < |sh.kids[p]| ==> KidOk(h, sh, p, i))
  }

  /** The map from OIDs to data that the linked nodes represent. */
  ghost function Contents(h: Heap, sh: Shape): map<Oid, int> {
    map o | o in sh.at :: Datum(h, sh.at[o])
  }

  ghost function Datum(h: Heap, n: Node): int {
    if n in h then h[n].data else -1
  }

  // --- Linking in one node --------------------------------------------------------------

  ghost function AttachShape(sh: Shape, p: Oid, w: Word, n: Node): Shape
    requires p in sh.kids
  {
    Shape(sh.at[p + [w] := n], sh.oid[n := p + [w]], sh.kids[p := sh.kids[p] + [n]][p + [w] := []])
  }

  ghost function AttachHeap(h: Heap, parent: Node?, sibling: Node?, w: Word, n: Node): Heap
    requires parent != null ==> parent in h
    requires sibling != null ==> sibling in h
  {
    var h1 := h[n := Cell(w, parent, null, null, -1)];
    var h2 := if parent != null && h[parent].child == null then h1[parent := h1[parent].(child := n)] else h1;
    if sibling != null then h2[sibling := h2[sibling].(sibling := n)] else h2
  }

  lemma KidOf(h: Heap, root: Node?, sh: Shape, p: Oid, w: Word)
    requires Linked(h, root, sh) && p in sh.kids
    ensures p + [w] in sh.at <==> exists i :: 0 <= i < |sh.kids[p]| && sh.kids[p][i] in h && h[sh.kids[p][i]].suffix == w
    ensures forall i :: 0 <= i < |sh.kids[p]| && sh.kids[p][i] in h && h[sh.kids[p][i]].suffix == w ==>
              p + [w] in sh.at && sh.at[p + [w]] == sh.kids[p][i]
  {
    if p + [w] in sh.at {
      assert OidOk(h, sh, p + [w]);
      var n := sh.at[p + [w]];
      assert NodeOk(h, sh, n);
      assert Init(p + [w]) == p;
    }
    forall i | 0 <= i < |sh.kids[p]| && sh.kids[p][i] in h && h[sh.kids[p][i]].suffix == w
      ensures p + [w] in sh.at && sh.at[p + [w]] == sh.kids[p][i]
    {
      assert KidOk(h, sh, p, i);
      assert NodeOk(h, sh, sh.kids[p][i]);
    }
  }

  /** What linking did to the cell of m. */
  ghost predicate CellGrown(h: Heap, parent: Node?, sibling: Node?, w: Word, n: Node, g: Heap, m: Node) {
    && m in g
    && if m == n then g[m] == Cell(w, parent, null, null, -1) else
         && m in h
         && g[m] == Cell(h[m].suffix, h[m].parent,
                         if m == sibling then n else h[m].sibling,
                         if m == parent && h[m].child == null then n else h[m].child,
                         h[m].data)
  }

  lemma AttachCell(h: Heap, parent: Node?, sibling: Node?, w: Word, n: Node, m: Node)
    requires parent != null ==> parent in h
    requires sibling != null ==> sibling in h
    requires n !in h && m in AttachHeap(h, parent, sibling, w, n)
    ensures CellGrown(h, parent, sibling, w, n, AttachHeap(h, parent, sibling, w, n), m)
  {
  }

  lemma AttachNodeOk(h: Heap, root: Node?, sh: Shape, p: Oid, w: Word, n: Node, m: Node, g: Heap)
    requires Linked(h, root, sh) && p in sh.kids && p + [w] !in sh.at && n !in h
    requires CellGrown(h, Owner(sh, p), Last(sh.kids[p]), w, n, g, m)
    ensures NodeOk(g, AttachShape(sh, p, w, n), m)
  {
    assert Init(p + [w]) == p;
    if m == n {
      assert [] !in sh.at;
    } else {
      OldNodeOk(h, root, sh, p, w, n, m, g);
    }
  }

  lemma OldNodeOk(h: Heap, root: Node?, sh: Shape, p: Oid, w: Word, n: Node, m: Node, g: Heap)
    requires Linked(h, root, sh) && p in sh.kids && p + [w] !in sh.at && n !in h && m != n
    requires CellGrown(h, Owner(sh, p), Last(sh.kids[p]), w, n, g, m)
    ensures NodeOk(g, AttachShape(sh, p, w, n), m)
  {
    assert NodeOk(h, sh, m);
    if p in sh.at {
      assert OidOk(h, sh, p);
    }
  }

  /** A node heads one place of one sibling list. */
  lemma OnePlace(h: Heap, root: Node?, sh: Shape, p: Oid, i: nat, q: Oid, j: nat)
    requires Linked(h, root, sh) && p in sh.kids && i < |sh.kids[p]| && q in sh.kids && j < |sh.kids[q]|
    requires sh.kids[p][i] == sh.kids[q][j]
    ensures p == q
  {
    assert KidOk(h, sh, p, i) && KidOk(h, sh, q, j);
    var x := h[sh.kids[p][i]].suffix;
    assert p == Init(p + [x]) && q == Init(q + [x]);
  }

  lemma AttachKidOk(h: Heap, root: Node?, sh: Shape, p: Oid, w: Word, n: Node, q: Oid, i: nat, g: Heap, t: Shape)
    requires Linked(h, root, sh) && p in sh.kids && p + [w] !in sh.at && n !in h && t == AttachShape(sh, p, w, n)
    requires q in t.kids && i < |t.kids[q]|
    requires CellGrown(h, Owner(sh, p), Last(sh.kids[p]), w, n, g, t.kids[q][i])
    ensures KidOk(g, t, q, i)
  {
    if q in sh.kids && i < |sh.kids[q]| {
      OldKidOk(h, root, sh, p, w, n, q, i, g, t);
    }
  }

  lemma OldKidOk(h: Heap, root: Node?, sh: Shape, p: Oid, w: Word, n: Node, q: Oid, i: nat, g: Heap, t: Shape)
    requires Linked(h, root, sh) && p in sh.kids && p + [w] !in sh.at && n !in h && t == AttachShape(sh, p, w, n)
    requires q in sh.kids && i < |sh.kids[q]|
    requires CellGrown(h, Owner(sh, p), Last(sh.kids[p]), w, n, g, sh.kids[q][i])
    ensures KidOk(g, t, q, i)
  {
    assert KidOk(h, sh, q, i);
    if sh.kids[q][i] == Last(sh.kids[p]) {
      OnePlace(h, root, sh, p, |sh.kids[p]| - 1, q, i);
      assert KidOk(h, sh, p, |sh.kids[p]| - 1);
    }
    if i + 1 < |sh.kids[q]| {
      assert KidOk(h, sh, q, i + 1);
    }
  }

  lemma AttachEnds(h: Heap, root: Node?, sh: Shape, p: Oid)
    requires Linked(h, root, sh) && p in sh.kids
    ensures Owner(sh, p) != null ==> Owner(sh, p) in h
    ensures Last(sh.kids[p]) != null ==> Last(sh.kids[p]) in h
  {
    if p in sh.at {
      assert OidOk(h, sh, p);
    }
    if sh.kids[p] != [] {
      assert KidOk(h, sh, p, |sh.kids[p]| - 1);
    }
  }

  lemma AttachOidOk(h: Heap, root: Node?, sh: Shape, p: Oid, w: Word, n: Node, o: Oid)
    requires Linked(h, root, sh) && p in sh.kids && p + [w] !in sh.at && n !in h
    requires Owner(sh, p) != null ==> Owner(sh, p) in h
    requires Last(sh.kids[p]) != null ==> Last(sh.kids[p]) in h
    requires o in AttachShape(sh, p, w, n).at
    ensures var g, t := AttachHeap(h, Owner(sh, p), Last(sh.kids[p]), w, n), AttachShape(sh, p, w, n);
            && OidOk(g, t, o)
            && (o == p + [w] ==> g[t.at[o]].data == -1)
            && (o != p + [w] ==> o in sh.at && OidOk(h, sh, o) && g[t.at[o]].data == h[sh.at[o]].data)
  {
    if o != p + [w] {
      assert OidOk(h, sh, o);
    }
  }

  lemma AttachKeys(h: Heap, root: Node?, sh: Shape, p: Oid, w: Word, n: Node)
    requires Linked(h, root, sh) && p in sh.kids && p + [w] !in sh.at && n !in h
    requires Owner(sh, p) != null ==> Owner(sh, p) in h
    requires Last(sh.kids[p]) != null ==> Last(sh.kids[p]) in h
    requires root == null ==> p == []
    ensures var g, t := AttachHeap(h, Owner(sh, p), Last(sh.kids[p]), w, n), AttachShape(sh, p, w, n);
            && g.Keys == t.oid.Keys
            && [] !in t.at && t.kids.Keys == t.at.Keys + {[]}
            && (if root == null then n else root) == First(t.kids[[]])
  {
  }

  lemma KidInHeap(h: Heap, root: Node?, sh: Shape, p: Oid, w: Word, n: Node, q: Oid, i: nat)
    requires Linked(h, root, sh) && p in sh.kids && p + [w] !in sh.at
    requires var t := AttachShape(sh, p, w, n); q in t.kids && i < |t.kids[q]|
    ensures var m := AttachShape(sh, p, w, n).kids[q][i]; m == n || m in h
  {
    if q in sh.kids && i < |sh.kids[q]| {
      assert KidOk(h, sh, q, i);
    }
  }

  /** Linking a new node at the end of a sibling list keeps the trie well-formed. */
  lemma AttachLinked(h: Heap, root: Node?, sh: Shape, p: Oid, w: Word, n: Node, g: Heap, t: Shape)
    requires Linked(h, root, sh) && p in sh.kids && p + [w] !in sh.at && n !in h
    requires Owner(sh, p) != null ==> Owner(sh, p) in h
    requires Last(sh.kids[p]) != null ==> Last(sh.kids[p]) in h
    requires root == null ==> p == []
    requires g == AttachHeap(h, Owner(sh, p), Last(sh.kids[p]), w, n) && t == AttachShape(sh, p, w, n)
    ensures Linked(g, if root == null then n else root, t)
  {
    AttachKeys(h, root, sh, p, w, n);
    forall m | m in g
      ensures NodeOk(g, t, m)
    {
      AttachCell(h, Owner(sh, p), Last(sh.kids[p]), w, n, m);
      AttachNodeOk(h, root, sh, p, w, n, m, g);
    }
    forall o | o in t.at
      ensures OidOk(g, t, o)
    {
      AttachOidOk(h, root, sh, p, w, n, o);
    }
    forall q, i | q in t.kids && 0 <= i < |t.kids[q]|
      ensures KidOk(g, t, q, i)
    {
      KidInHeap(h, root, sh, p, w, n, q, i);
      AttachCell(h, Owner(sh, p), Last(sh.kids[p]), w, n, t.kids[q][i]);
      AttachKidOk(h, root, sh, p, w, n, q, i, g, t);
    }
  }

  /** ... and adds exactly one entry, with data -1, to the map it represents. */
  lemma AttachContents(h: Heap, root: Node?, sh: Shape, p: Oid, w: Word, n: Node, g: Heap, t: Shape)
    requires Linked(h, root, sh) && p in sh.kids && p + [w] !in sh.at && n !in h
    requires Owner(sh, p) != null ==> Owner(sh, p) in h
    requires Last(sh.kids[p]) != null ==> Last(sh.kids[p]) in h
    requires root == null ==> p == []
    requires g == AttachHeap(h, Owner(sh, p), Last(sh.kids[p]), w, n) && t == AttachShape(sh, p, w, n)
    ensures Linked(g, if root == null then n else root, t)
    ensures Contents(g, t) == Contents(h, sh)[p + [w] := -1]
  {
    AttachLinked(h, root, sh, p, w, n, g, t);
    forall o | o in t.at && o != p + [w]
      ensures o in sh.at && Datum(g, t.at[o]) == Datum(h, sh.at[o])
    {
      AttachOidOk(h, root, sh, p, w, n, o);
    }
    AttachOidOk(h, root, sh, p, w, n, p + [w]);
    ContentsExtended(h, sh, g, t, p + [w]);
  }

  /** Everything a caller of `alloc_node` learns about the linked heap. */
  lemma AttachAll(h: Heap, root: Node?, sh: Shape, p: Oid, w: Word, n: Node, g: Heap, t: Shape,
                  parent: Node?, sibling: Node?)
    requires Linked(h, root, sh) && p in sh.kids && p + [w] !in sh.at && n !in h
    requires parent == Owner(sh, p) && sibling == Last(sh.kids[p])
    requires (parent != null ==> parent in h) && (sibling != null ==> sibling in h)
    requires root == null ==> p == []
    requires g == AttachHeap(h, parent, sibling, w, n) && t == AttachShape(sh, p, w, n)
    ensures Linked(g, if root == null then n else root, t)
    ensures Contents(g, t) == Contents(h, sh)[p + [w] := -1]
    ensures Owner(t, p + [w]) == n && p + [w] in t.kids && t.kids[p + [w]] == []
    ensures Extends(sh, t)
  {
    AttachContents(h, root, sh, p, w, n, g, t);
  }

  lemma ContentsExtended(h: Heap, sh: Shape, g: Heap, t: Shape, key: Oid)
    requires t.at.Keys == sh.at.Keys + {key} && Datum(g, t.at[key]) == -1
    requires forall o :: o in t.at && o != key ==> o in sh.at && Datum(g, t.at[o]) == Datum(h, sh.at[o])
    ensures Contents(g, t) == Contents(h, sh)[key := -1]
  {
  }

  /** Every node of the smaller trie keeps its OID in the larger one. */
  ghost predicate Extends(sh: Shape, t: Shape) {
    forall n :: n in sh.oid ==> n in t.oid && t.oid[n] == sh.oid[n]
  }

  // --- The abstract map ------------------------------------------------------------------

  /** The non-empty prefixes of an OID. */
  function Prefixes(oid: Oid): (r: set<Oid>)
    ensures forall o :: o in r <==> o != [] && o <= oid
  {
    var r := set k | 1 <= k <= |oid| :: oid[..k];
    assert forall o :: o != [] && o <= oid ==> o == oid[..|o|];
    r
  }

  /** `force_node`: every missing prefix of `oid` appears with data -1. */
  function Force(m: map<Oid, int>, oid: Oid): map<Oid, int> {
    map o | o in m.Keys + Prefixes(oid) :: if o in m then m[o] else -1
  }

  function InsertMap(m: map<Oid, int>, oid: Oid, data: int): map<Oid, int> {
    if oid == [] then m else Force(m, oid)[oid := data]
  }

  function Lookup(m: map<Oid, int>, oid: Oid): int {
    if oid in m then m[oid] else -1
  }

  lemma PrefixesGrow(oid: Oid, k: nat)
    requires k < |oid|
    ensures Prefixes(oid[..k + 1]) == Prefixes(oid[..k]) + {oid[..k + 1]}
  {
    var shorter, longer := Prefixes(oid[..k]), Prefixes(oid[..k + 1]);
    forall o | o in longer
      ensures o in shorter || o == oid[..k + 1]
    {
    }
    forall o | o in shorter
      ensures o in longer
    {
    }
  }

  lemma ForceStep(m: map<Oid, int>, oid: Oid, k: nat)
    requires k < |oid|
    ensures Force(m, oid[..k + 1]) ==
            if oid[..k + 1] in Force(m, oid[..k]) then Force(m, oid[..k]) else Force(m, oid[..k])[oid[..k + 1] := -1]
  {
    PrefixesGrow(oid, k);
  }

  lemma ForceNext(m: map<Oid, int>, oid: Oid, k: nat, before: map<Oid, int>, after: map<Oid, int>)
    requires k < |oid| && before == Force(m, oid[..k])
    requires after == if oid[..k + 1] in before then before else before[oid[..k + 1] := -1]
    ensures after == Force(m, oid[..k + 1])
  {
    ForceStep(m, oid, k);
  }

  lemma ForceNothing(m: map<Oid, int>)
    ensures Force(m, []) == m
  {
  }

  /** Starting with the root node already made gives the same result. */
  lemma ForceAfterRoot(m: map<Oid, int>, oid: Oid)
    requires oid != [] && oid[..1] !in m
    ensures Force(m[oid[..1] := -1], oid) == Force(m, oid)
  {
    assert oid[..1] in Prefixes(oid);
  }

  datatype Insertion = Insertion(oid: Oid, data: int)

  function InsertAllMap(ins: seq<Insertion>): map<Oid, int> {
    if ins == [] then map[] else
    InsertMap(InsertAllMap(ins[..|ins| - 1]), ins[|ins| - 1].oid, ins[|ins| - 1].data)
  }

  /** The value of the last insertion of `oid`, or -1. */
  function LastInserted(ins: seq<Insertion>, oid: Oid): int {
    if ins == [] then -1
    else if ins[|ins| - 1].oid == oid then ins[|ins| - 1].data
    else LastInserted(ins[..|ins| - 1], oid)
  }

  /** Prefix nodes created on the way never change what any other OID maps to. */
  lemma {:induction false} LookupIsLastInserted(ins: seq<Insertion>, oid: Oid)
    requires oid != []
    ensures Lookup(InsertAllMap(ins), oid) == LastInserted(ins, oid)
  {
    if ins != [] {
      LookupIsLastInserted(ins[..|ins| - 1], oid);
    }
  }

  /** Every stored path starts some inserted OID, and conversely. */
  lemma {:induction false} StoredPaths(ins: seq<Insertion>, oid: Oid)
    ensures oid in InsertAllMap(ins) <==> oid != [] && exists i :: 0 <= i < |ins| && oid <= ins[i].oid
  {
    if ins != [] {
      var n := |ins| - 1;
      StoredPaths(ins[..n], oid);
    }
  }

  // --- The tree ----------------------------------------------------------------------------

  class OidTree {
    var nodes: seq<Node>
    ghost var repr: set<Node>
    ghost var shape: Shape

    ghost function Snap(): Heap
      reads this, repr
    {
      Snapshot(repr)
    }

    ghost predicate Valid()
      reads this, repr
    {
      Listed() && Linked(Snap(), Root(), shape)
    }

    function Root(): Node?
      reads this
    {
      if nodes == [] then null else nodes[0]
    }

    ghost function Map(): map<Oid, int>
      reads this, repr
      requires Valid()
    {
      Contents(Snap(), shape)
    }

    constructor ()
      ensures Valid() && Map() == map[] && nodes == [] && shape == NO_SHAPE
    {
      nodes, repr := [], {};
      shape := NO_SHAPE;
    }

    ghost predicate Listed()
      reads this
    {
      repr == set n | n in nodes
    }

    method AddNode(suffix: Word, parent: Node?, ghost p: Oid) returns (n: Node)
      requires Listed() && p in shape.kids
      modifies this`nodes, this`repr, this`shape
      ensures Listed() && fresh(n) && n !in old(repr) && nodes == old(nodes) + [n] && repr == old(repr) + {n}
      ensures Snap() == old(Snap())[n := Cell(suffix, parent, null, null, -1)]
      ensures shape == AttachShape(old(shape), p, suffix, n)
    {
      n := new Node(suffix, parent);
      nodes := nodes + [n];
      repr := repr + {n};
      shape := AttachShape(shape, p, suffix, n);
    }

    method SetChild(x: Node, n: Node)
      requires x in repr
      modifies x
      ensures x in old(Snap()) && Snap() == old(Snap())[x := old(Snap())[x].(child := n)]
    {
      x.child := n;
    }

    method SetSibling(x: Node, n: Node)
      requires x in repr
      modifies x
      ensures x in old(Snap()) && Snap() == old(Snap())[x := old(Snap())[x].(sibling := n)]
    {
      x.sibling := n;
    }

    /** The pointer assignments of `alloc_node`. */
    method LinkNode(suffix: Word, parent: Node?, sibling: Node?, ghost p: Oid) returns (n: Node)
      requires parent != null ==> parent in repr
      requires sibling != null ==> sibling in repr
      requires Listed() && p in shape.kids
      modifies this`nodes, this`repr, this`shape, repr
      ensures fresh(n) && n !in old(repr)
      ensures nodes == old(nodes) + [n] && repr == old(repr) + {n} && Listed()
      ensures Snap() == AttachHeap(old(Snap()), parent, sibling, suffix, n)
      ensures shape == AttachShape(old(shape), p, suffix, n)
    {
      n := AddNode(suffix, parent, p);
      if parent != null && parent.child == null {
        SetChild(parent, n);
      }
      if sibling != null {
        SetSibling(sibling, n);
      }
    }

    /** `alloc_node`, called with the owner and the last member of the sibling list of `p`. */
    method AllocNode(suffix: Word, parent: Node?, sibling: Node?, ghost p: Oid) returns (n: Node)
      requires Valid() && p in shape.kids && p + [suffix] !in shape.at
      requires parent == Owner(shape, p) && sibling == Last(shape.kids[p])
      requires nodes == [] ==> p == []
      modifies this, repr
      ensures Valid() && nodes != [] && fresh(repr - old(repr))
      ensures Owner(shape, p + [suffix]) == n && p + [suffix] in shape.kids && shape.kids[p + [suffix]] == []
      ensures Extends(old(shape), shape)
      ensures Map() == old(Map())[p + [suffix] := -1]
    {
      ghost var h, r, sh := Snap(), Root(), shape;
      AttachEnds(h, r, sh, p);
      n := LinkNode(suffix, parent, sibling, p);
      AttachAll(h, r, sh, p, suffix, n, Snap(), shape, parent, sibling);
    }

    /** One sibling scan: `while (np && np->suffix != want) np = np->sibling`. */
    method Scan(start: Node?, want: Word, ghost p: Oid) returns (np: Node?, prev: Node?)
      requires Valid() && p in shape.kids && start == First(shape.kids[p])
      ensures np == Owner(shape, p + [want])
      ensures np == null ==> prev == Last(shape.kids[p])
    {
      ghost var s, i := shape.kids[p], 0;
      np, prev := start, start;
      KidOf(Snap(), Root(), shape, p, want);
      if s != [] {
        assert KidOk(Snap(), shape, p, 0);
      }
      while np != null && np.suffix != want
        invariant 0 <= i <= |s|
        invariant np == if i < |s| then s[i] else null
        invariant np == null ==> prev == Last(s)
        invariant np != null ==> np in repr && KidOk(Snap(), shape, p, i)
        invariant forall j :: 0 <= j < i ==> s[j] in repr && s[j].suffix != want
        decreases |s| - i
      {
        prev, np := np, np.sibling;
        i := i + 1;
        if i < |s| {
          assert KidOk(Snap(), shape, p, i);
        }
      }
    }

    /** The child pointer of the node of `p` heads the sibling list below `p`. */
    lemma ChildHeads(n: Node, p: Oid)
      requires Valid() && p in shape.at && shape.at[p] == n
      ensures n in repr && p in shape.kids && n.child == First(shape.kids[p])
      ensures shape.oid[n] == p && n.data == Map()[p]
    {
      assert OidOk(Snap(), shape, p);
      assert NodeOk(Snap(), shape, n);
    }

    lemma PrefixClosed(oid: Oid, k: nat)
      requires Valid() && oid in shape.at && 1 <= k <= |oid|
      ensures oid[..k] in shape.at
      decreases |oid| - k
    {
      if k < |oid| {
        PrefixClosed(oid, k + 1);
        assert OidOk(Snap(), shape, oid[..k + 1]);
        assert NodeOk(Snap(), shape, shape.at[oid[..k + 1]]);
        assert Init(oid[..k + 1]) == oid[..k];
      } else {
        assert oid[..k] == oid;
      }
    }

    /** One round of the walks that only read: to the node's children, then along them. */
    method StepDown(at: Node?, oid: Oid, pos: nat) returns (np: Node?)
      requires Valid() && pos < |oid|
      requires if pos == 0 then at == Root() else oid[..pos] in shape.at && at == shape.at[oid[..pos]]
      ensures np == Owner(shape, oid[..pos + 1])
      ensures np != null ==> oid[..pos + 1] in shape.at
    {
      np := at;
      if pos > 0 {
        ChildHeads(at, oid[..pos]);
        np := at.child;
      }
      assert oid[..pos] + [oid[pos]] == oid[..pos + 1];
      var prev;
      np, prev := Scan(np, oid[pos], oid[..pos]);
    }

    method FindNode(oid: Oid) returns (np: Node?)
      requires Valid()
      ensures np == Owner(shape, oid)
    {
      if nodes == [] || oid == [] {
        if oid != [] {
          EmptyTree(oid, |oid|);
        }
        return null;
      }
      np := nodes[0];
      var pos := 0;
      while np != null && pos < |oid|
        invariant 0 <= pos <= |oid|
        invariant pos == 0 ==> np == Root()
        invariant pos > 0 ==> np == Owner(shape, oid[..pos])
      {
        np := StepDown(np, oid, pos);
        pos := pos + 1;
      }
      if oid in shape.at {
        PrefixClosed(oid, pos);
      }
      assert pos == |oid| ==> oid[..pos] == oid;
    }

    lemma EmptyTree(oid: Oid, k: nat)
      requires Valid() && Root() == null && 0 < k <= |oid|
      ensures oid[..k] !in shape.at
      ensures k == |oid| ==> oid !in shape.at
    {
      KidOf(Snap(), Root(), shape, [], oid[0]);
      assert [] + [oid[0]] == oid[..k][..1];
      assert k == |oid| ==> oid[..k] == oid;
      if oid[..k] in shape.at {
        PrefixClosed(oid[..k], 1);
      }
    }

    /** `find`: the data stored for `oid`, or -1. */
    method Find(oid: Oid) returns (data: int)
      requires Valid()
      ensures data == Lookup(Map(), oid)
    {
      var n := FindNode(oid);
      if n != null {
        ChildHeads(n, oid);
        data := n.data;
      } else {
        data := -1;
      }
    }

    /** `find_prefix`: the length of the longest stored path along `oid`, and its data. */
    method FindPrefix(oid: Oid) returns (data: int, len: nat)
      requires Valid()
      ensures len <= |oid| && data == Lookup(Map(), oid[..len])
      ensures len > 0 ==> oid[..len] in Map()
      ensures forall k :: len < k <= |oid| ==> oid[..k] !in Map()
    {
      if nodes == [] || oid == [] {
        NothingStored(oid);
        return -1, 0;
      }
      var np: Node? := nodes[0];
      var prev: Node? := null;
      var pos := 0;
      while pos < |oid|
        invariant 0 <= pos <= |oid|
        invariant pos == 0 ==> np == Root() && prev == null
        invariant pos > 0 ==> oid[..pos] in shape.at && np == prev == shape.at[oid[..pos]]
      {
        np := StepDown(np, oid, pos);
        if np == null {
          LongestPrefix(oid, pos);
          if prev != null {
            ChildHeads(prev, oid[..pos]);
          }
          return if prev != null then prev.data else -1, pos;
        }
        prev := np;
        pos := pos + 1;
      }
      ChildHeads(np, oid[..pos]);
      return np.data, pos;
    }

    lemma NothingStored(oid: Oid)
      requires Valid() && (Root() == null || oid == [])
      ensures [] !in Map() && forall k :: 0 < k <= |oid| ==> oid[..k] !in Map()
    {
      forall k | 0 < k <= |oid|
        ensures oid[..k] !in Map()
      {
        EmptyTree(oid, k);
      }
    }

    lemma LongestPrefix(oid: Oid, pos: nat)
      requires Valid() && pos < |oid| && oid[..pos + 1] !in shape.at
      ensures forall k :: pos < k <= |oid| ==> oid[..k] !in Map()
    {
      forall k | pos < k <= |oid|
        ensures oid[..k] !in Map()
      {
        if oid[..k] in shape.at {
          assert oid[..k][..pos + 1] == oid[..pos + 1];
          PrefixClosed(oid[..k], pos + 1);
        }
      }
    }

    /** `extract_oid`: count the ancestors, then fill the OID from its end. */
    method ExtractOid(node: Node) returns (oid: Oid)
      requires Valid() && node in repr
      ensures oid == shape.oid[node]
    {
      ghost var full := shape.oid[node];
      var len := 0;
      var np: Node? := node;
      assert NodeOk(Snap(), shape, node);
      assert full[..|full|] == full;
      while np != null
        invariant 0 <= len <= |full|
        invariant np == Owner(shape, full[..|full| - len])
        invariant np == null ==> len == |full|
        decreases |full| - len
      {
        StepUp(np, full[..|full| - len]);
        assert full[..|full| - len][..|full| - len - 1] == full[..|full| - (len + 1)];
        np := np.parent;
        len := len + 1;
      }
      oid := seq(len, _ => 0);
      np := node;
      while np != null
        invariant 0 <= len <= |full| == |oid|
        invariant np == Owner(shape, full[..len])
        invariant np == null ==> len == 0
        invariant forall j :: len <= j < |oid| ==> oid[j] == full[j]
        decreases len
      {
        StepUp(np, full[..len]);
        assert full[..len][..len - 1] == full[..len - 1];
        len := len - 1;
        oid := oid[len := np.suffix];
        np := np.parent;
      }
    }

    /** The parent of the node of `p` is the node of `p` without its last component. */
    lemma StepUp(n: Node, p: Oid)
      requires Valid() && n == Owner(shape, p)
      ensures n in repr && p != [] && n.suffix == p[|p| - 1]
      ensures n.parent == Owner(shape, p[..|p| - 1])
      ensures n.parent == null <==> |p| == 1
    {
      assert OidOk(Snap(), shape, p);
      assert NodeOk(Snap(), shape, n);
    }

    /** The last sibling below `p` points to the owner of `p`. */
    lemma SiblingParent(p: Oid)
      requires Valid() && p in shape.kids && shape.kids[p] != []
      ensures var s := shape.kids[p]; s[|s| - 1] in repr && s[|s| - 1].parent == Owner(shape, p)
    {
      var s := shape.kids[p];
      assert KidOk(Snap(), shape, p, |s| - 1);
      assert NodeOk(Snap(), shape, s[|s| - 1]);
      assert Init(p + [s[|s| - 1].suffix]) == p;
    }

    /** Appends a sibling behind the last one below `p`. */
    method Append(last: Node, want: Word, ghost p: Oid) returns (np: Node)
      requires Valid() && nodes != [] && p in shape.kids && last == Last(shape.kids[p]) && p + [want] !in shape.at
      modifies this, repr
      ensures Valid() && nodes != [] && fresh(repr - old(repr))
      ensures Owner(shape, p + [want]) == np && Extends(old(shape), shape)
      ensures Map() == old(Map())[p + [want] := -1]
    {
      SiblingParent(p);
      np := AllocNode(want, last.parent, last, p);
    }

    /** One round of the first loop of `force_node`: find the sibling or append it. */
    method Descend(start: Node, want: Word, ghost p: Oid) returns (np: Node)
      requires Valid() && p in shape.kids && start == First(shape.kids[p]) && nodes != []
      modifies this, repr
      ensures Valid() && nodes != [] && fresh(repr - old(repr))
      ensures Owner(shape, p + [want]) == np
      ensures Extends(old(shape), shape)
      ensures Map() == if p + [want] in old(Map()) then old(Map()) else old(Map())[p + [want] := -1]
    {
      var found, prev := Scan(start, want, p);
      if found != null {
        np := found;
      } else {
        np := Append(prev, want, p);
      }
    }

    /** `force_node`, before its loops: an empty tree gets a root. */
    method EnsureRoot(oid: Oid)
      requires Valid() && oid != []
      modifies this, repr
      ensures Valid() && nodes != [] && fresh(repr - old(repr)) && Extends(old(shape), shape)
      ensures Force(Map(), oid) == Force(old(Map()), oid)
    {
      if nodes == [] {
        EmptyTree(oid, 1);
        assert [] + [oid[0]] == oid[..1];
        var root := AllocNode(oid[0], null, null, []);
        ForceAfterRoot(old(Map()), oid);
      }
    }

    /** The node to go on from: the root's sibling list, or the children of a node. */
    method Below(at: Node, oid: Oid, pos: nat) returns (np: Node?)
      requires Valid() && nodes != [] && pos < |oid|
      requires at == if pos == 0 then Root() else Owner(shape, oid[..pos])
      ensures oid[..pos] in shape.kids && np == First(shape.kids[oid[..pos]])
      ensures np == null ==> pos > 0
    {
      np := at;
      if pos > 0 {
        ChildHeads(at, oid[..pos]);
        np := at.child;
      }
    }

    /** One round of the first loop of `force_node` with `m` the map before it all; `leaf` is its break. */
    method FollowStep(at: Node, oid: Oid, pos: nat, ghost m: map<Oid, int>) returns (np: Node, leaf: bool)
      requires Valid() && nodes != [] && pos < |oid| && Map() == Force(m, oid[..pos])
      requires at == if pos == 0 then Root() else Owner(shape, oid[..pos])
      modifies this, repr
      ensures Valid() && nodes != [] && fresh(repr - old(repr)) && Extends(old(shape), shape)
      ensures leaf ==> pos > 0 && np == Owner(shape, oid[..pos]) && Map() == Force(m, oid[..pos])
      ensures leaf ==> oid[..pos] in shape.kids && shape.kids[oid[..pos]] == []
      ensures !leaf ==> np == Owner(shape, oid[..pos + 1]) && Map() == Force(m, oid[..pos + 1])
    {
      var below := Below(at, oid, pos);
      if below == null {
        return at, true;
      }
      ghost var before := Map();
      assert oid[..pos] + [oid[pos]] == oid[..pos + 1];
      np := Descend(below, oid[pos], oid[..pos]);
      ForceNext(m, oid, pos, before, Map());
      leaf := false;
    }

    /** Where the first loop of `force_node` stands. */
    ghost predicate Following(oid: Oid, np: Node, pos: nat, leaf: bool, m: map<Oid, int>, was: Shape)
      reads this, repr
    {
      && Valid() && nodes != [] && pos <= |oid|
      && (pos == 0 ==> np == Root() && !leaf)
      && (pos > 0 ==> np == Owner(shape, oid[..pos]))
      && (leaf ==> oid[..pos] in shape.kids && shape.kids[oid[..pos]] == [])
      && Map() == Force(m, oid[..pos])
      && Extends(was, shape)
    }

    method FollowOnce(at: Node, oid: Oid, pos: nat, ghost m: map<Oid, int>, ghost was: Shape)
        returns (np: Node, next: nat, leaf: bool)
      requires Following(oid, at, pos, false, m, was) && pos < |oid|
      modifies this, repr
      ensures Following(oid, np, next, leaf, m, was) && fresh(repr - old(repr))
      ensures next == if leaf then pos else pos + 1
    {
      np, leaf := FollowStep(at, oid, pos, m);
      next := if leaf then pos else pos + 1;
    }

    lemma StartsFollowing(oid: Oid, np: Node)
      requires Valid() && nodes != [] && np == nodes[0]
      ensures Following(oid, np, 0, false, Map(), shape)
    {
      ForceNothing(Map());
    }

    /** `force_node`, first loop: follow the path, appending missing siblings, down to a childless node. */
    method FollowPath(oid: Oid) returns (np: Node, pos: nat, leaf: bool)
      requires Valid() && nodes != [] && oid != []
      modifies this, repr
      ensures fresh(repr - old(repr)) && 0 < pos && (pos < |oid| ==> leaf)
      ensures Following(oid, np, pos, leaf, old(Map()), old(shape))
    {
      ghost var m, was := Map(), shape;
      np := nodes[0];
      pos := 0;
      leaf := false;
      StartsFollowing(oid, np);
      while pos < |oid| && !leaf
        invariant Following(oid, np, pos, leaf, m, was) && fresh(repr - old(repr))
        decreases |oid| - pos, !leaf
      {
        np, pos, leaf := FollowOnce(np, oid, pos, m, was);
      }
    }

    /** The first child of a childless node. */
    method AddChild(parent: Node, want: Word, ghost p: Oid) returns (np: Node)
      requires Valid() && nodes != [] && parent == Owner(shape, p) && p in shape.kids && shape.kids[p] == []
      modifies this, repr
      ensures Valid() && nodes != [] && fresh(repr - old(repr)) && Extends(old(shape), shape)
      ensures Owner(shape, p + [want]) == np && p + [want] in shape.kids && shape.kids[p + [want]] == []
      ensures p + [want] !in old(Map()) && Map() == old(Map())[p + [want] := -1]
    {
      KidOf(Snap(), Root(), shape, p, want);
      np := AllocNode(want, parent, null, p);
    }

    /** `force_node`, second loop: a chain of only children for the rest of the path. */
    method GrowPath(oid: Oid, start: Node, at: nat, ghost m: map<Oid, int>) returns (np: Node)
      requires Valid() && nodes != [] && 0 < at <= |oid| && start == Owner(shape, oid[..at])
      requires Map() == Force(m, oid[..at])
      requires at < |oid| ==> oid[..at] in shape.kids && shape.kids[oid[..at]] == []
      modifies this, repr
      ensures Valid() && nodes != [] && fresh(repr - old(repr)) && Extends(old(shape), shape)
      ensures np == Owner(shape, oid)
      ensures Map() == Force(m, oid)
    {
      np := start;
      var pos := at;
      while pos < |oid|
        invariant Valid() && nodes != [] && fresh(repr - old(repr)) && Extends(old(shape), shape)
        invariant 0 < pos <= |oid| && np == Owner(shape, oid[..pos])
        invariant pos < |oid| ==> oid[..pos] in shape.kids && shape.kids[oid[..pos]] == []
        invariant Map() == Force(m, oid[..pos])
      {
        ghost var before := Map();
        assert oid[..pos] + [oid[pos]] == oid[..pos + 1];
        np := AddChild(np, oid[pos], oid[..pos]);
        ForceNext(m, oid, pos, before, Map());
        pos := pos + 1;
      }
      assert oid[..pos] == oid;
    }

    method ForcePath(oid: Oid) returns (np: Node)
      requires Valid() && nodes != [] && oid != []
      modifies this, repr
      ensures Valid() && nodes != [] && fresh(repr - old(repr)) && Extends(old(shape), shape)
      ensures np == Owner(shape, oid)
      ensures Map() == Force(old(Map()), oid)
    {
      var pos, leaf;
      np, pos, leaf := FollowPath(oid);
      np := GrowPath(oid, np, pos, old(Map()));
    }

    method ForceNode(oid: Oid) returns (np: Node?)
      requires Valid()
      modifies this, repr
      ensures Valid() && fresh(repr - old(repr)) && Extends(old(shape), shape)
      ensures np == Owner(shape, oid)
      ensures Map() == Force(old(Map()), oid)
      ensures np == null <==> oid == []
    {
      if oid == [] {
        ForceNothing(Map());
        return null;
      }
      EnsureRoot(oid);
      np := ForcePath(oid);
    }

    method SetData(n: Node, oid: Oid, data: int)
      requires Valid() && n == Owner(shape, oid)
      modifies repr
      ensures Valid() && oid in old(Map()) && Map() == old(Map())[oid := data]
      ensures n in repr && n in shape.oid && shape.oid[n] == oid
    {
      ChildHeads(n, oid);
      ghost var h := Snap();
      n.data := data;
      assert Snap() == h[n := h[n].(data := data)];
      SetDataLinked(h, Root(), shape, n, data, Snap());
      SetDataContents(h, Root(), shape, n, oid, data, Snap());
    }

    /** `insert`: the map gains `oid`, no other entry changes, and every earlier node keeps its OID. */
    method Insert(oid: Oid, data: int) returns (n: Node?)
      requires Valid()
      modifies this, repr
      ensures Valid() && fresh(repr - old(repr)) && Extends(old(shape), shape)
      ensures n == null <==> oid == []
      ensures n != null ==> n in repr && n in shape.oid && shape.oid[n] == oid
      ensures Map() == InsertMap(old(Map()), oid, data)
    {
      n := ForceNode(oid);
      if n != null {
        SetData(n, oid, data);
      } else {
        ForceNothing(old(Map()));
      }
    }
  }

  /** Writing one node's data keeps the links ... */
  lemma SetDataLinked(h: Heap, root: Node?, sh: Shape, n: Node, data: int, g: Heap)
    requires Linked(h, root, sh) && n in h && g == h[n := h[n].(data := data)]
    ensures Linked(g, root, sh)
  {
    forall m | m in g
      ensures NodeOk(g, sh, m)
    {
      assert NodeOk(h, sh, m);
    }
    forall o | o in sh.at
      ensures OidOk(g, sh, o)
    {
      assert OidOk(h, sh, o);
    }
    forall p, i | p in sh.kids && 0 <= i < |sh.kids[p]|
      ensures KidOk(g, sh, p, i)
    {
      assert KidOk(h, sh, p, i);
    }
  }

  /** ... and changes one entry of the map. */
  lemma SetDataContents(h: Heap, root: Node?, sh: Shape, n: Node, oid: Oid, data: int, g: Heap)
    requires Linked(h, root, sh) && n in h && g == h[n := h[n].(data := data)]
    requires oid in sh.at && sh.at[oid] == n
    ensures Contents(g, sh) == Contents(h, sh)[oid := data]
  {
    assert OidOk(h, sh, oid);
    forall o | o in sh.at && o != oid
      ensures sh.at[o] != n
    {
      assert OidOk(h, sh, o);
    }
  }

  /**
    Any sequence of inserts into an empty tree: the tree represents the map of the run, and every node handed out on the
    way still has the OID it was made for.
   */
  method InsertAll(ins: seq<Insertion>) returns (tree: OidTree, handed: seq<Node?>)
    ensures fresh(tree) && tree.Valid() && tree.Map() == InsertAllMap(ins)
    ensures AllHanded(tree.shape, handed, ins)
  {
    tree := new OidTree();
    handed := [];
    for k := 0 to |ins|
      invariant fresh(tree) && fresh(tree.repr) && tree.Valid()
      invariant tree.Map() == InsertAllMap(ins[..k])
      invariant AllHanded(tree.shape, handed, ins[..k])
    {
      ghost var before := tree.shape;
      InsertOneMore(ins, k);
      var n := tree.Insert(ins[k].oid, ins[k].data);
      StillHanded(before, tree.shape, handed, ins[..k], n, ins[k]);
      handed := handed + [n];
    }
    assert ins[..|ins|] == ins;
  }

  lemma InsertOneMore(ins: seq<Insertion>, k: nat)
    requires k < |ins|
    ensures InsertAllMap(ins[..k + 1]) == InsertMap(InsertAllMap(ins[..k]), ins[k].oid, ins[k].data)
    ensures ins[..k + 1] == ins[..k] + [ins[k]]
  {
    assert ins[..k + 1][..k] == ins[..k];
  }

  ghost predicate IsNodeOf(sh: Shape, n: Node?, oid: Oid) {
    if oid == [] then n == null else n != null && n in sh.oid && sh.oid[n] == oid
  }

  ghost predicate AllHanded(sh: Shape, handed: seq<Node?>, ins: seq<Insertion>) {
    |handed| == |ins| && forall i :: 0 <= i < |ins| ==> IsNodeOf(sh, handed[i], ins[i].oid)
  }

  lemma StillHanded(sh: Shape, t: Shape, handed: seq<Node?>, ins: seq<Insertion>, n: Node?, next: Insertion)
    requires Extends(sh, t) && AllHanded(sh, handed, ins) && IsNodeOf(t, n, next.oid)
    ensures AllHanded(t, handed + [n], ins + [next])
  {
    forall i | 0 <= i < |ins|
      ensures IsNodeOf(t, handed[i], ins[i].oid)
    {
      assert IsNodeOf(sh, handed[i], ins[i].oid);
    }
  }
}
