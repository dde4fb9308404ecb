/** The tile quadtrees of a virtual texture (`TileQuadtreeNode` in virtualtex.cpp).

    The C++ nodes are heap objects linked by pointers.  Here every node lives in an arena,
    a sequence indexed by node number: a pointer is an index, NULL is `None`, and
    `new TileQuadtreeNode()` appends an empty node.  Nodes 0 and 1 are the two roots
    `tileTree[0]` and `tileTree[1]`.  T is the type of the tile references stored in nodes. */
module TileQuadtree {
  import opened Bits
  import opened Wrappers

  datatype QuadNode<T> = QuadNode(tile: Option<T>, children: seq<Option<nat>>)

  /** A freshly constructed node: no tile, four NULL children. */
  function EmptyNode<T>(): QuadNode<T>
  {
    QuadNode(None, [None, None, None, None])
  }

  ghost predicate WellFormed<T>(n: QuadNode<T>, size: nat)
  {
    |n.children| == 4 &&
    forall c :: 0 <= c < 4 && n.children[c].Some? ==> n.children[c].value < size
  }

  /** Both roots exist and every child pointer names a node of the arena. */
  ghost predicate ValidTree<T>(nodes: seq<QuadNode<T>>)
  {
    |nodes| >= 2 && forall i :: 0 <= i < |nodes| ==> WellFormed(nodes[i], |nodes|)
  }

  /** b is a grown a: nothing removed, no tile replaced, no child pointer redirected. */
  ghost predicate NodeExtends<T>(x: QuadNode<T>, y: QuadNode<T>)
  {
    |x.children| == |y.children| &&
    (x.tile.Some? ==> y.tile == x.tile) &&
    forall c :: 0 <= c < |x.children| && x.children[c].Some? ==> y.children[c] == x.children[c]
  }

  ghost predicate Extends<T>(a: seq<QuadNode<T>>, b: seq<QuadNode<T>>)
  {
    |a| <= |b| && forall i :: 0 <= i < |a| ==> NodeExtends(a[i], b[i])
  }

  /** One of the four child slots of a node. */
  type Slot = c: nat | c < 4

  /** `u >> lod`: the root tree that holds column u at level lod. */
  function RootIndex(u: nat, lod: nat): (r: nat)
    ensures u < 2 * Pow2(lod) ==> r == if u < Pow2(lod) then 0 else 1
  {
    RootHalves(u, lod);
    Shr(u, lod)
  }

  lemma {:induction false} RootHalves(u: nat, lod: nat)
    ensures u < 2 * Pow2(lod) ==> Shr(u, lod) == if u < Pow2(lod) then 0 else 1
  {
    ShrIsDiv(u, lod);
    var p := Pow2(lod);
    if u < p {
      DivModUnique(u, p, 0, u);
    } else if u < 2 * p {
      DivModUnique(u, p, 1, u - p);
    }
  }

  /** `(((v & mask) << 1) | (u & mask)) >> k` with `mask = 1 << k`: the child taken at the
      level whose coordinate bit is k.  It is the two-bit number made of bit k of v and
      bit k of u, so it always names one of the four children. */
  function ChildIndex(u: nat, v: nat, k: nat): (c: nat)
    ensures c == 2 * Bit(v, k) + Bit(u, k)
    ensures c < 4
  {
    ChildIndexBits(u, v, k);
    var mask := Pow2(k);
    BitOr(BitAnd(v, mask) * 2, BitAnd(u, mask)) / mask
  }

  /** The child slots on the way from a root down to the node of (u, v) at level lod:
      step n (counting from the root) takes the child selected by bit lod - n - 1. */
  function TilePath(u: nat, v: nat, lod: nat): (p: seq<Slot>)
    ensures |p| == lod
    ensures forall n :: 0 <= n < lod ==> p[n] == ChildIndex(u, v, lod - n - 1)
  {
    seq(lod, n requires 0 <= n < lod => ChildIndex(u, v, lod - n - 1) as Slot)
  }

  lemma {:induction false} ChildIndexBits(u: nat, v: nat, k: nat)
    ensures BitOr(BitAnd(v, Pow2(k)) * 2, BitAnd(u, Pow2(k))) / Pow2(k) == 2 * Bit(v, k) + Bit(u, k)
  {
    var p, a, b := Pow2(k), Bit(v, k), Bit(u, k);
    BitAndPow2(v, k);
    BitAndPow2(u, k);
    assert BitAnd(v, p) * 2 == a * p * 2;
    assert BitAnd(u, p) == b * p;
    BitOrAdjacent(a, b, k);
    var w := BitOr(BitAnd(v, p) * 2, BitAnd(u, p));
    var c := 2 * a + b;
    assert w == c * p;
    assert w == p * c + 0;
    DivModUnique(w, p, c, 0);
  }

  /** `node->children[child] = new TileQuadtreeNode()`. */
  function Link<T>(nodes: seq<QuadNode<T>>, node: nat, child: Slot): (r: seq<QuadNode<T>>)
    requires ValidTree(nodes) && node < |nodes|
    ensures ValidTree(r) && |r| == |nodes| + 1
    ensures r[node].children[child] == Some(|nodes|) && r[|nodes|] == EmptyNode()
    ensures r[node] == nodes[node].(children := nodes[node].children[child := Some(|nodes|)])
    ensures forall i :: 0 <= i < |nodes| && i != node ==> r[i] == nodes[i]
    ensures nodes[node].children[child].None? ==> Extends(nodes, r)
  {
    var n := nodes[node];
    var r := nodes[node := n.(children := n.children[child := Some(|nodes|)])] + [EmptyNode()];
    assert forall i :: 0 <= i < |r| ==> WellFormed(r[i], |r|) by {
      forall i | 0 <= i < |r| ensures WellFormed(r[i], |r|) {
        if i < |nodes| && i != node {
          assert r[i] == nodes[i];
          assert WellFormed(nodes[i], |nodes|);
        } else if i == node {
          assert WellFormed(nodes[node], |nodes|);
        }
      }
    }
    r
  }

  /** `if (node->tile == NULL) node->tile = tile`. */
  function StoreTile<T>(nodes: seq<QuadNode<T>>, node: nat, tile: T): (r: seq<QuadNode<T>>)
    requires ValidTree(nodes) && node < |nodes|
    ensures ValidTree(r) && Extends(nodes, r) && |r| == |nodes|
    ensures r[node].tile == if nodes[node].tile.Some? then nodes[node].tile else Some(tile)
  {
    if nodes[node].tile.Some? then nodes
    else
      var r := nodes[node := nodes[node].(tile := Some(tile))];
      assert forall i :: 0 <= i < |r| ==> WellFormed(r[i], |r|) by {
        forall i | 0 <= i < |r| ensures WellFormed(r[i], |r|) {
          assert WellFormed(nodes[i], |nodes|);
        }
      }
      r
  }

  /** What `addTileToTree` does to the arena from step n of the path onwards, starting at
      `node`: follow the path, creating missing children, then store the tile in the node at
      the end of the path unless that node already has one. */
  function AddPath<T>(nodes: seq<QuadNode<T>>, node: nat, tile: T, path: seq<Slot>, n: nat)
    : (r: seq<QuadNode<T>>)
    requires ValidTree(nodes) && node < |nodes| && n <= |path|
    ensures ValidTree(r) && Extends(nodes, r)
    decreases |path| - n
  {
    if n == |path| then StoreTile(nodes, node, tile)
    else
      assert WellFormed(nodes[node], |nodes|);
      match nodes[node].children[path[n]]
      case Some(c) => AddPath(nodes, c, tile, path, n + 1)
      case None =>
        var linked := Link(nodes, node, path[n]);
        var r := AddPath(linked, |nodes|, tile, path, n + 1);
        ExtendsTransitive(nodes, linked, r);
        r
  }

  /** One step of `addTileToTree`: an existing child is followed; a missing one is first
      linked to a new empty node, which is then followed. */
  lemma {:induction false} AddPathStep<T>(nodes: seq<QuadNode<T>>, node: nat, tile: T, path: seq<Slot>, n: nat)
    requires ValidTree(nodes) && node < |nodes| && n < |path|
    ensures |nodes[node].children| == 4
    ensures nodes[node].children[path[n]].None? ==>
              AddPath(nodes, node, tile, path, n) == AddPath(Link(nodes, node, path[n]), |nodes|, tile, path, n + 1)
    ensures nodes[node].children[path[n]].Some? ==>
              var c := nodes[node].children[path[n]].value;
              c < |nodes| && AddPath(nodes, node, tile, path, n) == AddPath(nodes, c, tile, path, n + 1)
  {
    assert WellFormed(nodes[node], |nodes|);
  }

  /** Where the descent of `getTile` ends. */
  datatype Found<T> = Found(node: nat, tile: Option<T>, tileLOD: nat)

  /** The node reached from `node` by following the slots path[n..m), or None when one of
      the children on the way is missing. */
  ghost function Walk<T>(nodes: seq<QuadNode<T>>, node: nat, path: seq<Slot>, n: nat, m: nat): (w: Option<nat>)
    requires ValidTree(nodes) && node < |nodes| && n <= m <= |path|
    ensures w.Some? ==> w.value < |nodes|
    decreases m - n
  {
    if n == m then Some(node)
    else
      assert WellFormed(nodes[node], |nodes|);
      match nodes[node].children[path[n]]
      case None => None
      case Some(c) => Walk(nodes, c, path, n + 1, m)
  }

  /** Every child on the way from step n to step m exists. */
  ghost predicate Entered<T>(nodes: seq<QuadNode<T>>, node: nat, path: seq<Slot>, n: nat, m: nat)
    requires ValidTree(nodes) && node < |nodes| && n <= m <= |path|
  {
    forall k :: n <= k <= m ==> Walk(nodes, node, path, n, k).Some?
  }

  /** The tile of the node the walk is at after step k, if it gets there. */
  ghost function TileAt<T>(nodes: seq<QuadNode<T>>, node: nat, path: seq<Slot>, n: nat, k: nat): Option<T>
    requires ValidTree(nodes) && node < |nodes| && n <= k <= |path|
  {
    match Walk(nodes, node, path, n, k)
    case None => None
    case Some(x) => nodes[x].tile
  }

  /** t is the tile of the deepest node below step n, down to step m, that has one, or
      `carried` when none of them has a tile. */
  ghost predicate DeepestTile<T>(nodes: seq<QuadNode<T>>, node: nat, path: seq<Slot>, n: nat, m: nat,
                                 carried: Option<T>, t: Option<T>)
    requires ValidTree(nodes) && node < |nodes| && n <= m <= |path|
  {
    || (t == carried && forall k :: n < k <= m ==> TileAt(nodes, node, path, n, k).None?)
    || (exists k :: n < k <= m && t.Some? && TileAt(nodes, node, path, n, k) == t &&
          forall j :: k < j <= m ==> TileAt(nodes, node, path, n, j).None?)
  }

  /** The loop of `getTile` from step n of the path onwards at `node`, `tile` being the
      deepest tile met so far: follow the path, stopping at the first missing child; remember
      the deepest tile met and the depth of the last node entered. */
  function Descend<T>(nodes: seq<QuadNode<T>>, node: nat, path: seq<Slot>, n: nat, tile: Option<T>)
    : (f: Found<T>)
    requires ValidTree(nodes) && node < |nodes| && n <= |path|
    ensures f.node < |nodes| && n <= f.tileLOD <= |path|
    ensures f.tileLOD < |path| ==> nodes[f.node].children[path[f.tileLOD]].None?
    ensures f.tileLOD == n ==> f.node == node && f.tile == tile
    ensures f.tileLOD > n && nodes[f.node].tile.Some? ==> f.tile == nodes[f.node].tile
    ensures f.tile.None? ==> tile.None?
    decreases |path| - n
  {
    if n == |path| then Found(node, tile, n)
    else
      assert WellFormed(nodes[node], |nodes|);
      match nodes[node].children[path[n]]
      case None => Found(node, tile, n)
      case Some(c) => Descend(nodes, c, path, n + 1, if nodes[c].tile.Some? then nodes[c].tile else tile)
  }

  /** What the descent finds: the node it ends at is the one reached by following the path
      from step n to its depth, every child on the way exists, it stops at the first missing
      child (or at the end of the path), and the tile it returns is the deepest one on the way,
      or the one it started with when no node on the way has a tile. */
  lemma {:induction false} DescendWalks<T>(nodes: seq<QuadNode<T>>, node: nat, path: seq<Slot>, n: nat, tile: Option<T>)
    requires ValidTree(nodes) && node < |nodes| && n <= |path|
    ensures var f := Descend(nodes, node, path, n, tile);
            && Walk(nodes, node, path, n, f.tileLOD) == Some(f.node)
            && Entered(nodes, node, path, n, f.tileLOD)
            && (f.tileLOD < |path| ==> nodes[f.node].children[path[f.tileLOD]].None?)
            && DeepestTile(nodes, node, path, n, f.tileLOD, tile, f.tile)
    decreases |path| - n
  {
    var f := Descend(nodes, node, path, n, tile);
    if n < |path| {
      DescendStep(nodes, node, path, n, tile);
      assert WellFormed(nodes[node], |nodes|);
      if nodes[node].children[path[n]].Some? {
        var c := nodes[node].children[path[n]].value;
        DescendWalks(nodes, c, path, n + 1, if nodes[c].tile.Some? then nodes[c].tile else tile);
        WalkThroughChild(nodes, node, path, n, f.tileLOD, tile, f.tile);
      }
    }
  }

  /** The walk from `node` at step n goes through the child on the path: what holds of the
      walk from the child at step n + 1 (carrying its tile, if any) holds of the whole. */
  lemma {:induction false} WalkThroughChild<T>(nodes: seq<QuadNode<T>>, node: nat, path: seq<Slot>, n: nat, m: nat,
                                               tile: Option<T>, t: Option<T>)
    requires ValidTree(nodes) && node < |nodes| && n < m <= |path|
    requires WellFormed(nodes[node], |nodes|) && nodes[node].children[path[n]].Some?
    requires var c := nodes[node].children[path[n]].value;
             && Entered(nodes, c, path, n + 1, m)
             && DeepestTile(nodes, c, path, n + 1, m, if nodes[c].tile.Some? then nodes[c].tile else tile, t)
    ensures Walk(nodes, node, path, n, m) == Walk(nodes, nodes[node].children[path[n]].value, path, n + 1, m)
    ensures Entered(nodes, node, path, n, m) && DeepestTile(nodes, node, path, n, m, tile, t)
  {
    var c := nodes[node].children[path[n]].value;
    var carried := if nodes[c].tile.Some? then nodes[c].tile else tile;
    var n1 := n + 1;
    assert Walk(nodes, node, path, n, n) == Some(node);
    assert forall k :: n < k <= m ==> Walk(nodes, node, path, n, k) == Walk(nodes, c, path, n + 1, k);
    assert TileAt(nodes, node, path, n, n + 1) == nodes[c].tile by {
      assert Walk(nodes, c, path, n + 1, n + 1) == Some(c);
    }
    assert forall k :: n + 1 <= k <= m ==> TileAt(nodes, node, path, n, k) == TileAt(nodes, c, path, n + 1, k);
    if t == carried && forall k :: n1 < k <= m ==> TileAt(nodes, c, path, n1, k).None? {
      if nodes[c].tile.None? {
        assert forall k :: n < k <= m ==> TileAt(nodes, node, path, n, k).None?;
      } else {
        assert TileAt(nodes, node, path, n, n + 1) == t;
      }
    } else {
      var k :| n1 < k <= m && t.Some? && TileAt(nodes, c, path, n1, k) == t &&
               forall j :: k < j <= m ==> TileAt(nodes, c, path, n1, j).None?;
      assert TileAt(nodes, node, path, n, k) == t;
    }
  }

  /** One step of the descent: a missing child ends it where it is; otherwise it goes on
      from the child, carrying the child's tile when it has one. */
  lemma {:induction false} DescendStep<T>(nodes: seq<QuadNode<T>>, node: nat, path: seq<Slot>, n: nat, tile: Option<T>)
    requires ValidTree(nodes) && node < |nodes| && n < |path|
    ensures |nodes[node].children| == 4
    ensures nodes[node].children[path[n]].None? ==> Descend(nodes, node, path, n, tile) == Found(node, tile, n)
    ensures nodes[node].children[path[n]].Some? ==>
              var c := nodes[node].children[path[n]].value;
              c < |nodes| &&
              Descend(nodes, node, path, n, tile) ==
                Descend(nodes, c, path, n + 1, if nodes[c].tile.Some? then nodes[c].tile else tile)
  {
    assert WellFormed(nodes[node], |nodes|);
  }

  /** A tile is stored at the end of `path` from `root`: the walk reaches the end of the
      path and that node has a tile. */
  ghost predicate StoredAt<T>(nodes: seq<QuadNode<T>>, root: nat, path: seq<Slot>)
    requires ValidTree(nodes)
  {
    root < 2 &&
    var f := Descend(nodes, root, path, 0, None);
    f.tileLOD == |path| && nodes[f.node].tile.Some?
  }

  /** A tile is stored for (lod, u, v). */
  ghost predicate Stored<T>(nodes: seq<QuadNode<T>>, lod: nat, u: nat, v: nat)
    requires ValidTree(nodes)
  {
    StoredAt(nodes, RootIndex(u, lod), TilePath(u, v, lod))
  }

  // ---------------------------------------------------------------------------
  // Lemmas

  lemma {:induction false} ExtendsTransitive<T>(a: seq<QuadNode<T>>, b: seq<QuadNode<T>>, c: seq<QuadNode<T>>)
    requires Extends(a, b) && Extends(b, c)
    ensures Extends(a, c)
  {
    forall i | 0 <= i < |a| ensures NodeExtends(a[i], c[i]) {
      assert NodeExtends(a[i], b[i]) && NodeExtends(b[i], c[i]);
    }
  }

  /** t is no tile, or the tile of a node of the arena. */
  ghost predicate InArena<T>(nodes: seq<QuadNode<T>>, t: Option<T>)
  {
    t.None? || exists j :: 0 <= j < |nodes| && nodes[j].tile == t
  }

  /** The descent only ever picks up tiles hanging in the arena. */
  lemma {:induction false} DescendInArena<T>(nodes: seq<QuadNode<T>>, node: nat, path: seq<Slot>,
                                             n: nat, tile: Option<T>)
    requires ValidTree(nodes) && node < |nodes| && n <= |path| && InArena(nodes, tile)
    ensures InArena(nodes, Descend(nodes, node, path, n, tile).tile)
    decreases |path| - n
  {
    if n < |path| {
      assert WellFormed(nodes[node], |nodes|);
      match nodes[node].children[path[n]]
      case None =>
      case Some(c) =>
        var carried := if nodes[c].tile.Some? then nodes[c].tile else tile;
        assert InArena(nodes, carried) by {
          if nodes[c].tile.Some? {
            assert nodes[c].tile == carried;
          }
        }
        DescendInArena(nodes, c, path, n + 1, carried);
    }
  }

  /** Where the descent ends does not depend on the tile carried along. */
  lemma {:induction false} DescendPathIndependent<T>(nodes: seq<QuadNode<T>>, node: nat, path: seq<Slot>,
                                                     n: nat, t1: Option<T>, t2: Option<T>)
    requires ValidTree(nodes) && node < |nodes| && n <= |path|
    ensures Descend(nodes, node, path, n, t1).node == Descend(nodes, node, path, n, t2).node
    ensures Descend(nodes, node, path, n, t1).tileLOD == Descend(nodes, node, path, n, t2).tileLOD
    decreases |path| - n
  {
    if n < |path| {
      assert WellFormed(nodes[node], |nodes|);
      match nodes[node].children[path[n]]
      case None =>
      case Some(c) =>
        DescendPathIndependent(nodes, c, path, n + 1,
          if nodes[c].tile.Some? then nodes[c].tile else t1,
          if nodes[c].tile.Some? then nodes[c].tile else t2);
    }
  }

  /** A path that reaches its end still reaches it, at the same node, once the tree grows. */
  lemma {:induction false} DescendExtends<T>(a: seq<QuadNode<T>>, b: seq<QuadNode<T>>, node: nat, path: seq<Slot>,
                                             n: nat, ta: Option<T>, tb: Option<T>)
    requires ValidTree(a) && ValidTree(b) && Extends(a, b) && node < |a| && n <= |path|
    requires Descend(a, node, path, n, ta).tileLOD == |path|
    ensures Descend(b, node, path, n, tb).tileLOD == |path|
    ensures Descend(b, node, path, n, tb).node == Descend(a, node, path, n, ta).node
    decreases |path| - n
  {
    if n < |path| {
      assert WellFormed(a[node], |a|);
      assert NodeExtends(a[node], b[node]);
      match a[node].children[path[n]]
      case None =>
      case Some(c) =>
        assert b[node].children[path[n]] == Some(c);
        var ta' := if a[c].tile.Some? then a[c].tile else ta;
        var tb' := if b[c].tile.Some? then b[c].tile else tb;
        assert Descend(a, node, path, n, ta) == Descend(a, c, path, n + 1, ta');
        assert Descend(b, node, path, n, tb) == Descend(b, c, path, n + 1, tb');
        DescendExtends(a, b, c, path, n + 1, ta', tb');
    }
  }

  /** Below a node without children the descent goes no further. */
  lemma {:induction false} NewNodeDescent<T>(nodes: seq<QuadNode<T>>, node: nat, path: seq<Slot>, n: nat, carried: Option<T>)
    requires ValidTree(nodes) && node < |nodes| && n <= |path| && nodes[node] == EmptyNode()
    ensures Descend(nodes, node, path, n, carried) == Found(node, carried, n)
  {
  }

  /** `addTileToTree` allocates exactly the nodes missing on the path: one per level below
      the depth the descent reached before. */
  lemma {:induction false} AddPathAllocates<T>(nodes: seq<QuadNode<T>>, node: nat, tile: T, path: seq<Slot>,
                                               n: nat, carried: Option<T>)
    requires ValidTree(nodes) && node < |nodes| && n <= |path|
    ensures |AddPath(nodes, node, tile, path, n)| ==
            |nodes| + (|path| - Descend(nodes, node, path, n, carried).tileLOD)
    decreases |path| - n
  {
    if n < |path| {
      AddPathStep(nodes, node, tile, path, n);
      DescendStep(nodes, node, path, n, carried);
      if nodes[node].children[path[n]].Some? {
        var c := nodes[node].children[path[n]].value;
        var t' := if nodes[c].tile.Some? then nodes[c].tile else carried;
        AddPathAllocates(nodes, c, tile, path, n + 1, t');
      } else {
        var linked := Link(nodes, node, path[n]);
        AddPathAllocates(linked, |nodes|, tile, path, n + 1, carried);
        NewNodeDescent(linked, |nodes|, path, n + 1, carried);
      }
    }
  }

  /** After the walk of `addTileToTree` from `node` at step n the descent reaches the end of
      the path (at the same node if it reached it before), and that node holds the tile that
      was already there, or else the new one. */
  lemma {:induction false} AddPathReaches<T>(nodes: seq<QuadNode<T>>, node: nat, tile: T, path: seq<Slot>,
                                             n: nat, carried: Option<T>)
    requires ValidTree(nodes) && node < |nodes| && n <= |path|
    ensures Reaches(nodes, node, tile, path, n, carried)
    decreases |path| - n, 1
  {
    if n < |path| {
      AddPathStep(nodes, node, tile, path, n);
      if nodes[node].children[path[n]].Some? {
        ReachesThroughChild(nodes, node, tile, path, n, carried);
      } else {
        ReachesThroughNewChild(nodes, node, tile, path, n, carried);
      }
    }
  }

  /** The conclusion of `AddPathReaches`. */
  ghost predicate Reaches<T>(nodes: seq<QuadNode<T>>, node: nat, tile: T, path: seq<Slot>, n: nat, carried: Option<T>)
    requires ValidTree(nodes) && node < |nodes| && n <= |path|
  {
    var r := AddPath(nodes, node, tile, path, n);
    var before := Descend(nodes, node, path, n, carried);
    var after := Descend(r, node, path, n, carried);
    && after.tileLOD == |path|
    && (before.tileLOD == |path| ==> after.node == before.node)
    && r[after.node].tile ==
         (if before.tileLOD == |path| && nodes[before.node].tile.Some? then nodes[before.node].tile
          else Some(tile))
  }

  /** `AddPathReaches` when the child on the path exists. */
  lemma {:induction false} ReachesThroughChild<T>(nodes: seq<QuadNode<T>>, node: nat, tile: T, path: seq<Slot>,
                                                  n: nat, carried: Option<T>)
    requires ValidTree(nodes) && node < |nodes| && n < |path|
    requires WellFormed(nodes[node], |nodes|) && nodes[node].children[path[n]].Some?
    ensures Reaches(nodes, node, tile, path, n, carried)
    decreases |path| - n, 0
  {
    var c := nodes[node].children[path[n]].value;
    var r := AddPath(nodes, node, tile, path, n);
    AddPathStep(nodes, node, tile, path, n);
    DescendStep(nodes, node, path, n, carried);
    var t' := if nodes[c].tile.Some? then nodes[c].tile else carried;
    AddPathReaches(nodes, c, tile, path, n + 1, t');
    assert NodeExtends(nodes[node], r[node]);
    DescendStep(r, node, path, n, carried);
    var rt := if r[c].tile.Some? then r[c].tile else carried;
    DescendPathIndependent(r, c, path, n + 1, t', rt);
  }

  /** `AddPathReaches` when the child on the path is missing and gets linked to a new node. */
  lemma {:induction false} ReachesThroughNewChild<T>(nodes: seq<QuadNode<T>>, node: nat, tile: T, path: seq<Slot>,
                                                     n: nat, carried: Option<T>)
    requires ValidTree(nodes) && node < |nodes| && n < |path|
    requires WellFormed(nodes[node], |nodes|) && nodes[node].children[path[n]].None?
    ensures Reaches(nodes, node, tile, path, n, carried)
    decreases |path| - n, 0
  {
    var r := AddPath(nodes, node, tile, path, n);
    AddPathStep(nodes, node, tile, path, n);
    DescendStep(nodes, node, path, n, carried);
    var linked := Link(nodes, node, path[n]);
    var m := |nodes|;
    AddPathReaches(linked, m, tile, path, n + 1, carried);
    NewNodeDescent(linked, m, path, n + 1, carried);
    assert NodeExtends(linked[node], r[node]);
    DescendStep(r, node, path, n, carried);
    var rt := if r[m].tile.Some? then r[m].tile else carried;
    DescendPathIndependent(r, m, path, n + 1, carried, rt);
  }

  /** The j-th node `addTileToTree` appends when the descent had stopped at depth d of the
      path, the new nodes being numbered from `base`: the node of depth d + 1 + j, whose only
      child is the next new node, or which holds the tile at the end of the path. */
  function ChainNode<T>(tile: T, path: seq<Slot>, base: nat, d: nat, j: nat): QuadNode<T>
    requires d + 1 + j <= |path|
  {
    if d + 1 + j < |path| then QuadNode(None, EmptyNode<T>().children[path[d + 1 + j] := Some(base + j + 1)])
    else QuadNode(Some(tile), EmptyNode<T>().children)
  }

  /** The node where the descent had stopped at depth d: it gains the missing child `next`,
      or, at the end of the path, the tile unless it already holds one. */
  function Attached<T>(x: QuadNode<T>, tile: T, path: seq<Slot>, d: nat, next: nat): QuadNode<T>
    requires d <= |path| && |x.children| == 4
  {
    if d < |path| then x.(children := x.children[path[d] := Some(next)])
    else if x.tile.Some? then x
    else x.(tile := Some(tile))
  }

  /** r is a grown exactly as `addTileToTree` grows it from `node` at step n: the node e where
      the descent stops is attached to the chain of new nodes (or takes the tile), every other
      old node is unchanged, and one new node is appended per missing level. */
  ghost predicate Grown<T>(a: seq<QuadNode<T>>, r: seq<QuadNode<T>>, node: nat, tile: T, path: seq<Slot>, n: nat)
    requires ValidTree(a) && node < |a| && n <= |path|
  {
    var f := Descend(a, node, path, n, None);
    assert WellFormed(a[f.node], |a|);
    && |r| == |a| + (|path| - f.tileLOD)
    && (forall i :: 0 <= i < |a| && i != f.node ==> r[i] == a[i])
    && r[f.node] == Attached(a[f.node], tile, path, f.tileLOD, |a|)
    && (forall j :: 0 <= j < |path| - f.tileLOD ==> r[|a| + j] == ChainNode(tile, path, |a|, f.tileLOD, j))
  }

  /** The node at the end of the path once the tile is added: the node where the descent
      stopped if it reached the end, else the last new node. */
  ghost function PathEnd<T>(a: seq<QuadNode<T>>, node: nat, path: seq<Slot>, n: nat): nat
    requires ValidTree(a) && node < |a| && n <= |path|
  {
    var f := Descend(a, node, path, n, None);
    if f.tileLOD == |path| then f.node else |a| + (|path| - f.tileLOD) - 1
  }

  /** The shape of the arena after `addTileToTree`, and where its path then ends. */
  lemma {:induction false} AddPathShape<T>(nodes: seq<QuadNode<T>>, node: nat, tile: T, path: seq<Slot>, n: nat)
    requires ValidTree(nodes) && node < |nodes| && n <= |path|
    ensures Grown(nodes, AddPath(nodes, node, tile, path, n), node, tile, path, n)
    ensures var r := AddPath(nodes, node, tile, path, n);
            Descend(r, node, path, n, None).node == PathEnd(nodes, node, path, n)
    decreases |path| - n, 1
  {
    if n < |path| {
      AddPathStep(nodes, node, tile, path, n);
      if nodes[node].children[path[n]].Some? {
        ShapeThroughChild(nodes, node, tile, path, n);
      } else {
        ShapeThroughNewChild(nodes, node, tile, path, n);
      }
    }
  }

  /** `AddPathShape` when the child on the path exists. */
  lemma {:induction false} ShapeThroughChild<T>(nodes: seq<QuadNode<T>>, node: nat, tile: T, path: seq<Slot>, n: nat)
    requires ValidTree(nodes) && node < |nodes| && n < |path|
    requires WellFormed(nodes[node], |nodes|) && nodes[node].children[path[n]].Some?
    ensures Grown(nodes, AddPath(nodes, node, tile, path, n), node, tile, path, n)
    ensures var r := AddPath(nodes, node, tile, path, n);
            Descend(r, node, path, n, None).node == PathEnd(nodes, node, path, n)
    decreases |path| - n, 0
  {
    var r := AddPath(nodes, node, tile, path, n);
    var c := nodes[node].children[path[n]].value;
    AddPathStep(nodes, node, tile, path, n);
    DescendStep(nodes, node, path, n, None);
    AddPathShape(nodes, c, tile, path, n + 1);
    DescendPathIndependent(nodes, c, path, n + 1, nodes[c].tile, None);
    assert NodeExtends(nodes[node], r[node]);
    DescendStep(r, node, path, n, None);
    DescendPathIndependent(r, c, path, n + 1, r[c].tile, None);
  }

  /** `AddPathShape` when the child on the path is missing and gets linked to a new node. */
  lemma {:induction false} ShapeThroughNewChild<T>(nodes: seq<QuadNode<T>>, node: nat, tile: T, path: seq<Slot>, n: nat)
    requires ValidTree(nodes) && node < |nodes| && n < |path|
    requires WellFormed(nodes[node], |nodes|) && nodes[node].children[path[n]].None?
    ensures Grown(nodes, AddPath(nodes, node, tile, path, n), node, tile, path, n)
    ensures var r := AddPath(nodes, node, tile, path, n);
            Descend(r, node, path, n, None).node == PathEnd(nodes, node, path, n)
    decreases |path| - n, 0
  {
    var r := AddPath(nodes, node, tile, path, n);
    AddPathStep(nodes, node, tile, path, n);
    var linked := Link(nodes, node, path[n]);
    AddPathShape(linked, |nodes|, tile, path, n + 1);
    GrownByLink(nodes, node, tile, path, n, r);
    EndByLink(nodes, node, tile, path, n, r);
  }

  /** The shape after linking a new child, from the shape below that child. */
  lemma {:induction false} GrownByLink<T>(nodes: seq<QuadNode<T>>, node: nat, tile: T, path: seq<Slot>, n: nat,
                                          r: seq<QuadNode<T>>)
    requires ValidTree(nodes) && node < |nodes| && n < |path|
    requires WellFormed(nodes[node], |nodes|) && nodes[node].children[path[n]].None?
    requires Grown(Link(nodes, node, path[n]), r, |nodes|, tile, path, n + 1)
    ensures Grown(nodes, r, node, tile, path, n)
  {
    var linked := Link(nodes, node, path[n]);
    var m := |nodes|;
    DescendStep(nodes, node, path, n, None);
    NewNodeDescent(linked, m, path, n + 1, None);
    assert r[m] == Attached(EmptyNode(), tile, path, n + 1, m + 1);
    ChainStarts(tile, path, m, n);
    forall j | 0 < j < |path| - n ensures r[m + j] == ChainNode(tile, path, m, n, j) {
      assert r[|linked| + (j - 1)] == ChainNode(tile, path, m + 1, n + 1, j - 1);
    }
  }

  /** Where the path ends after linking a new child, from where it ends below that child. */
  lemma {:induction false} EndByLink<T>(nodes: seq<QuadNode<T>>, node: nat, tile: T, path: seq<Slot>, n: nat,
                                        r: seq<QuadNode<T>>)
    requires ValidTree(nodes) && node < |nodes| && n < |path|
    requires WellFormed(nodes[node], |nodes|) && nodes[node].children[path[n]].None?
    requires ValidTree(r) && Grown(Link(nodes, node, path[n]), r, |nodes|, tile, path, n + 1)
    requires Descend(r, |nodes|, path, n + 1, None).node == PathEnd(Link(nodes, node, path[n]), |nodes|, path, n + 1)
    ensures Descend(r, node, path, n, None).node == PathEnd(nodes, node, path, n)
  {
    var linked := Link(nodes, node, path[n]);
    var m := |nodes|;
    DescendStep(nodes, node, path, n, None);
    NewNodeDescent(linked, m, path, n + 1, None);
    assert r[node] == linked[node];
    DescendStep(r, node, path, n, None);
    DescendPathIndependent(r, m, path, n + 1, r[m].tile, None);
  }

  /** The first new node is the empty node linked to the second, or holding the tile; the
      chain started one level deeper is the rest of it. */
  lemma {:induction false} ChainStarts<T>(tile: T, path: seq<Slot>, base: nat, d: nat)
    requires d < |path|
    ensures Attached(EmptyNode(), tile, path, d + 1, base + 1) == ChainNode(tile, path, base, d, 0)
    ensures forall j :: 0 < j < |path| - d ==> ChainNode(tile, path, base + 1, d + 1, j - 1) == ChainNode(tile, path, base, d, j)
  {
  }

  /** Where the path ends once `addTileToTree` has walked it. */
  lemma {:induction false} AddPathEnd<T>(nodes: seq<QuadNode<T>>, node: nat, tile: T, path: seq<Slot>, n: nat)
    requires ValidTree(nodes) && node < |nodes| && n <= |path|
    ensures var r := AddPath(nodes, node, tile, path, n);
            Descend(r, node, path, n, None).node == PathEnd(nodes, node, path, n)
  {
    AddPathShape(nodes, node, tile, path, n);
  }

  /** Tiles change only at the end of the path: every other node keeps its tile, and the new
      nodes on the way hold none. */
  lemma {:induction false} AddPathTiles<T>(nodes: seq<QuadNode<T>>, node: nat, tile: T, path: seq<Slot>, n: nat)
    requires ValidTree(nodes) && node < |nodes| && n <= |path|
    ensures var r := AddPath(nodes, node, tile, path, n);
            forall x :: 0 <= x < |r| && x != PathEnd(nodes, node, path, n) ==>
              r[x].tile == if x < |nodes| then nodes[x].tile else None
  {
    var r := AddPath(nodes, node, tile, path, n);
    AddPathShape(nodes, node, tile, path, n);
    var f := Descend(nodes, node, path, n, None);
    forall x | 0 <= x < |r| && x != PathEnd(nodes, node, path, n)
      ensures r[x].tile == if x < |nodes| then nodes[x].tile else None
    {
      if x >= |nodes| {
        assert r[|nodes| + (x - |nodes|)] == ChainNode(tile, path, |nodes|, f.tileLOD, x - |nodes|);
      }
    }
  }

  /** Add-then-find round trip: after `addTileToTree` the tile is found by the descent
      of `getTile` at the full depth of the path; it is the new tile unless one was already
      stored there, which is then kept. */
  lemma {:induction false} AddThenFind<T>(nodes: seq<QuadNode<T>>, root: nat, tile: T, path: seq<Slot>)
    requires ValidTree(nodes) && root < 2
    ensures var r := AddPath(nodes, root, tile, path, 0);
            var f := Descend(r, root, path, 0, r[root].tile);
            && StoredAt(r, root, path)
            && f.tileLOD == |path|
            && f.tile == (if StoredAt(nodes, root, path)
                          then nodes[Descend(nodes, root, path, 0, None).node].tile
                          else Some(tile))
  {
    var r := AddPath(nodes, root, tile, path, 0);
    AddPathReaches(nodes, root, tile, path, 0, None);
    AddPathReaches(nodes, root, tile, path, 0, r[root].tile);
    DescendPathIndependent(r, root, path, 0, None, r[root].tile);
  }

  /** Once stored, a tile stays where it is however the tree grows. */
  lemma {:induction false} StoredExtends<T>(a: seq<QuadNode<T>>, b: seq<QuadNode<T>>, root: nat, path: seq<Slot>)
    requires ValidTree(a) && ValidTree(b) && Extends(a, b) && StoredAt(a, root, path)
    ensures StoredAt(b, root, path)
    ensures Descend(b, root, path, 0, None).node == Descend(a, root, path, 0, None).node
  {
    DescendExtends(a, b, root, path, 0, None, None);
    var e := Descend(a, root, path, 0, None).node;
    assert NodeExtends(a[e], b[e]);
  }
}
