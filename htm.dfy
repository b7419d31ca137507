/** The hierarchical triangular mesh of `HTM.cpp`: a group of eight
    spherical base triangles, each an `HTMNode` that stores objects while it
    is a small enough leaf and otherwise splits into four named sub-cells.

    The tree is modelled on values: `Insert` and `Split` are the
    specification, and `InsertNode`, `SplitNode` and the scans are the loop
    methods that follow the C++ step by step and are proved equal to it.
    `fuel` bounds the depth of the recursion (the C++ only stops splitting
    when a cell's bound reaches the minimum size). */
module HTM {
  import opened Wrappers
  import opened Strings

  // ---------------------------------------------------------------------
  // Geometry

  datatype Vec3 = Vec3(x: real, y: real, z: real)

  function Add(a: Vec3, b: Vec3): Vec3 {
    Vec3(a.x + b.x, a.y + b.y, a.z + b.z)
  }

  /** A plane of a triangle's polytope, as `Triangle::set` builds it: the
      plane through the origin and the edge from `a` to `b`, whose normal is
      `a ^ b` (normalised in the C++, which changes the length of the
      normal but not the sign of a distance). */
  datatype Plane = EdgePlane(a: Vec3, b: Vec3)

  /** The exact signed distance of `p` from the plane, up to the positive
      length of the normal: the dot product of `p` with `a × b`, written
      out by components. */
  function Distance(pl: Plane, p: Vec3): real {
    var a, b := pl.a, pl.b;
    (a.y * b.z - a.z * b.y) * p.x + (a.z * b.x - a.x * b.z) * p.y + (a.x * b.y - a.y * b.x) * p.z
  }

  /** The reference meaning of `PolytopeDP::contains`: no plane of the
      polytope, under the signed distance `distance`, has `p` on its
      negative side. */
  predicate InPolytope(planes: seq<Plane>, distance: (Plane, Vec3) -> real, p: Vec3) {
    forall i :: 0 <= i < |planes| ==> distance(planes[i], p) >= 0.0
  }

  /** `PolytopeDP::contains`: the loop over the planes that answers false
      at the first negative distance. */
  method PolytopeContains(planes: seq<Plane>, distance: (Plane, Vec3) -> real, p: Vec3) returns (r: bool)
    ensures r <==> InPolytope(planes, distance, p)
  {
    var i := 0;
    while i < |planes|
      invariant 0 <= i <= |planes|
      invariant forall k :: 0 <= k < i ==> distance(planes[k], p) >= 0.0
    {
      if distance(planes[i], p) < 0.0 {
        return false;
      }
      i := i + 1;
    }
    return true;
  }

  /** A cell's triangle, its vertices wound counter-clockwise. */
  datatype Triangle = Triangle(v0: Vec3, v1: Vec3, v2: Vec3)

  /** The bounding polytope of a triangle: the planes of its three edges
      `v0 v1`, `v1 v2` and `v2 v0`. */
  function TrianglePlanes(t: Triangle): (r: seq<Plane>)
    ensures |r| == 3
  {
    [EdgePlane(t.v0, t.v1), EdgePlane(t.v1, t.v2), EdgePlane(t.v2, t.v0)]
  }

  // ---------------------------------------------------------------------
  // The tree

  /** A child of a cell: an inserted object, or a sub-cell. */
  datatype Child<O(!new)> = Object(obj: O) | Cell(node: Node<O>)

  /** An `HTMNode`: its name, its triangle, whether it is still a leaf,
      and its children in order. */
  datatype Node<O(!new)> = Node(id: string, tri: Triangle, isLeaf: bool, children: seq<Child<O>>)

  /** The `HTMSettings` the insertion reads. */
  datatype Settings = Settings(maxObjectsPerCell: nat, minCellSize: real, maxCellSize: real, storeObjectsInLeavesOnly: bool)

  /** The values the model takes from outside: vector normalisation, the
      signed distance `osg::Plane::distance` computes in floating point, the
      centre of a child's bound, and the diameter of a cell's bound (twice
      the radius `getBound` reports). */
  datatype Geometry<!O(!new)> = Geometry(
    normalize: Vec3 -> Vec3,
    distance: (Plane, Vec3) -> real,
    center: Child<O> -> Vec3,
    diameter: Node<O> -> real)

  /** `HTMNode::contains`: the point lies inside the cell's polytope. */
  predicate Contains<O(!new)>(g: Geometry<O>, n: Node<O>, p: Vec3) {
    InPolytope(TrianglePlanes(n.tri), g.distance, p)
  }

  /** A fresh leaf, as the `HTMNode` constructor leaves it. */
  function NewCell<O(!new)>(id: string, t: Triangle): Node<O> {
    Node(id, t, true, [])
  }

  /** Sub-triangle `k` of `t`, built from the normalised edge midpoints
      `w0 = |v0+v1|`, `w1 = |v1+v2|`, `w2 = |v2+v0|`. */
  function SubTriangle<O(!new)>(g: Geometry<O>, t: Triangle, k: nat): Triangle
    requires k < 4
  {
    var w0 := g.normalize(Add(t.v0, t.v1));
    var w1 := g.normalize(Add(t.v1, t.v2));
    var w2 := g.normalize(Add(t.v2, t.v0));
    if k == 0 then Triangle(t.v0, w0, w2)
    else if k == 1 then Triangle(t.v1, w1, w0)
    else if k == 2 then Triangle(t.v2, w2, w1)
    else Triangle(w0, w1, w2)
  }

  /** The name of sub-cell `k` of a cell named `id`. */
  function SubId(id: string, k: nat): (r: string)
    requires k < 10
    ensures |r| == |id| + 1
  {
    id + [DigitChar(k)]
  }

  /** A sub-cell's name extends its parent's by one digit, the child's
      index, so sibling names differ and the parent's name is recoverable. */
  lemma SubIdExtends(id: string, k: nat)
    requires k < 10
    ensures var r := SubId(id, k); r[..|id|] == id && IsDigit(r[|id|]) && DigitValue(r[|id|]) == k
  {
    assert SubId(id, k)[..|id|] == id;
  }

  /** Distinct indices give distinct names. */
  lemma SubIdInjective(id: string, j: nat, k: nat)
    requires j < 10 && k < 10
    ensures SubId(id, j) == SubId(id, k) <==> j == k
  {
    if SubId(id, j) == SubId(id, k) {
      SubIdExtends(id, j);
      SubIdExtends(id, k);
    }
  }

  /** The four sub-cells `split` creates, in order. */
  function SubCells<O(!new)>(g: Geometry<O>, n: Node<O>): (r: seq<Node<O>>)
    ensures |r| == 4
    ensures forall k :: 0 <= k < 4 ==> r[k] == NewCell(SubId(n.id, k), SubTriangle(g, n.tri, k))
  {
    [NewCell(SubId(n.id, 0), SubTriangle(g, n.tri, 0)), NewCell(SubId(n.id, 1), SubTriangle(g, n.tri, 1)),
     NewCell(SubId(n.id, 2), SubTriangle(g, n.tri, 2)), NewCell(SubId(n.id, 3), SubTriangle(g, n.tri, 3))]
  }

  function AsCells<O(!new)>(cells: seq<Node<O>>): (r: seq<Child<O>>)
    ensures |r| == |cells| && forall k :: 0 <= k < |cells| ==> r[k] == Cell(cells[k])
    decreases |cells|
  {
    if |cells| == 0 then [] else AsCells(cells[..|cells| - 1]) + [Cell(cells[|cells| - 1])]
  }

  /** A leaf takes the object itself when it is under the maximum cell size
      with room for more objects, or has reached the minimum cell size. */
  predicate LeafAccepts(s: Settings, diameter: real, count: nat) {
    (diameter < s.maxCellSize && count < s.maxObjectsPerCell) || diameter <= s.minCellSize
  }

  /** Child `j` is a sub-cell that contains `p`. */
  predicate Hit<O(!new)>(g: Geometry<O>, children: seq<Child<O>>, p: Vec3, j: int) {
    0 <= j < |children| && children[j].Cell? && Contains(g, children[j].node, p)
  }

  /** The scan from child `i` down to child `lo` (never below 0) for the
      first sub-cell containing `p`. */
  function FindCell<O(!new)>(g: Geometry<O>, children: seq<Child<O>>, p: Vec3, i: int, lo: int): (r: Option<nat>)
    requires i < |children|
    ensures r.Some? ==> lo <= r.value <= i && children[r.value].Cell?
    decreases i + 1
  {
    if i < 0 || i < lo then None
    else if children[i].Cell? && Contains(g, children[i].node, p) then Some(i)
    else FindCell(g, children, p, i - 1, lo)
  }

  /** The scan finds the highest hit in `lo..i`, and nothing exactly when
      there is none. */
  lemma {:induction false} FindCellSpec<O(!new)>(g: Geometry<O>, children: seq<Child<O>>, p: Vec3, i: int, lo: int)
    requires i < |children|
    ensures var r := FindCell(g, children, p, i, lo);
      (r.Some? ==> (Hit(g, children, p, r.value) && forall j :: r.value < j <= i ==> !Hit(g, children, p, j)))
      && (r.None? <==> forall j :: lo <= j <= i && 0 <= j ==> !Hit(g, children, p, j))
    decreases i + 1
  {
    if !(i < 0 || i < lo) && !(children[i].Cell? && Contains(g, children[i].node, p)) {
      FindCellSpec(g, children, p, i - 1, lo);
    }
  }

  /** The sub-cell a non-leaf descends into: the last of its last four
      children that is a sub-cell containing `p`, if there is one. */
  function ScanCells<O(!new)>(g: Geometry<O>, children: seq<Child<O>>, p: Vec3): (r: Option<nat>)
    ensures r.Some? ==> |children| - 4 <= r.value < |children| && children[r.value].Cell?
  {
    FindCell(g, children, p, |children| - 1, |children| - 4)
  }

  /** The scan picks the last hit among the last four children, and nothing
      exactly when none of them is a hit. */
  lemma ScanCellsSpec<O(!new)>(g: Geometry<O>, children: seq<Child<O>>, p: Vec3)
    ensures var r := ScanCells(g, children, p);
      (r.Some? ==> (Hit(g, children, p, r.value) && forall j :: r.value < j < |children| ==> !Hit(g, children, p, j)))
      && (r.None? <==> forall j :: |children| - 4 <= j < |children| ==> !Hit(g, children, p, j))
  {
    FindCellSpec(g, children, p, |children| - 1, |children| - 4);
  }

  /** The first cell of `cells`, from position `k` on, containing `p`. */
  function FirstContainingFrom<O(!new)>(g: Geometry<O>, cells: seq<Node<O>>, p: Vec3, k: nat): (r: Option<nat>)
    requires k <= |cells|
    ensures r.Some? ==> k <= r.value < |cells|
    decreases |cells| - k
  {
    if k == |cells| then None
    else if Contains(g, cells[k], p) then Some(k)
    else FirstContainingFrom(g, cells, p, k + 1)
  }

  /** The search from `k` finds the first containing cell, and nothing
      exactly when no cell from `k` on contains the point. */
  lemma {:induction false} FirstContainingFromSpec<O(!new)>(g: Geometry<O>, cells: seq<Node<O>>, p: Vec3, k: nat)
    requires k <= |cells|
    ensures var r := FirstContainingFrom(g, cells, p, k);
      (r.Some? ==> (Contains(g, cells[r.value], p) && forall j :: k <= j < r.value ==> !Contains(g, cells[j], p)))
      && (r.None? <==> forall j :: k <= j < |cells| ==> !Contains(g, cells[j], p))
    decreases |cells| - k
  {
    if k < |cells| && !Contains(g, cells[k], p) {
      FirstContainingFromSpec(g, cells, p, k + 1);
    }
  }

  function FirstContaining<O(!new)>(g: Geometry<O>, cells: seq<Node<O>>, p: Vec3): (r: Option<nat>)
    ensures r.Some? ==> r.value < |cells|
  {
    FirstContainingFrom(g, cells, p, 0)
  }

  /** The first cell containing the point, or nothing exactly when no
      cell contains it. */
  lemma FirstContainingSpec<O(!new)>(g: Geometry<O>, cells: seq<Node<O>>, p: Vec3)
    ensures var r := FirstContaining(g, cells, p);
      (r.Some? ==> (Contains(g, cells[r.value], p) && forall j :: 0 <= j < r.value ==> !Contains(g, cells[j], p)))
      && (r.None? <==> forall j :: 0 <= j < |cells| ==> !Contains(g, cells[j], p))
  {
    FirstContainingFromSpec(g, cells, p, 0);
  }

  /** `HTMNode::insert`: a leaf takes the object or splits and tries again;
      a non-leaf passes it to the sub-cell the scan finds, or drops it. */
  function NodeInsert<O(!new)>(s: Settings, g: Geometry<O>, n: Node<O>, x: Child<O>, fuel: nat): Node<O>
    decreases fuel, 1, 0
  {
    if fuel == 0 then n
    else if n.isLeaf then
      if LeafAccepts(s, g.diameter(n), |n.children|) then n.(children := n.children + [x])
      else NodeInsert(s, g, NodeSplit(s, g, n, fuel - 1), x, fuel - 1)
    else
      match ScanCells(g, n.children, g.center(x))
      case Some(i) => n.(children := n.children[i := Cell(NodeInsert(s, g, n.children[i].node, x, fuel - 1))])
      case None => n
  }

  /** `HTMNode::split`: the node stops being a leaf and its four sub-cells
      become its last children; when objects are kept in leaves only, its
      old children are first handed to the sub-cells and then removed. */
  function NodeSplit<O(!new)>(s: Settings, g: Geometry<O>, n: Node<O>, fuel: nat): Node<O>
    decreases fuel, 2, 0
  {
    var cells := if s.storeObjectsInLeavesOnly then Distribute(s, g, SubCells(g, n), n.children, fuel) else SubCells(g, n);
    var base := if s.storeObjectsInLeavesOnly then [] else n.children;
    n.(isLeaf := false, children := base + AsCells(cells))
  }

  /** The redistribution loop of `split`: each old child, in order, goes to
      the first sub-cell containing its centre, and is lost if none does. */
  function Distribute<O(!new)>(s: Settings, g: Geometry<O>, cells: seq<Node<O>>, items: seq<Child<O>>, fuel: nat): seq<Node<O>>
    decreases fuel, 1, |items| + 1
  {
    if |items| == 0 then cells
    else
      var before := Distribute(s, g, cells, items[..|items| - 1], fuel);
      var x := items[|items| - 1];
      match FirstContaining(g, before, g.center(x))
      case Some(j) => before[j := NodeInsert(s, g, before[j], x, fuel)]
      case None => before
  }

  /** Insertion keeps a cell's name and triangle, and never turns a
      non-leaf back into a leaf. */
  lemma {:induction false} InsertKeeps<O(!new)>(s: Settings, g: Geometry<O>, n: Node<O>, x: Child<O>, fuel: nat)
    ensures var r := NodeInsert(s, g, n, x, fuel);
      r.id == n.id && r.tri == n.tri && (r.isLeaf ==> n.isLeaf)
    decreases fuel
  {
    if fuel > 0 && n.isLeaf && !LeafAccepts(s, g.diameter(n), |n.children|) {
      InsertKeeps(s, g, NodeSplit(s, g, n, fuel - 1), x, fuel - 1);
    }
  }

  /** Redistribution keeps the number of sub-cells, and each one's name and
      triangle. */
  lemma {:induction false} DistributeKeeps<O(!new)>(s: Settings, g: Geometry<O>, cells: seq<Node<O>>, items: seq<Child<O>>, fuel: nat)
    ensures var r := Distribute(s, g, cells, items, fuel);
      |r| == |cells| && forall k :: 0 <= k < |cells| ==> r[k].id == cells[k].id && r[k].tri == cells[k].tri
    decreases |items|
  {
    if |items| > 0 {
      DistributeKeeps(s, g, cells, items[..|items| - 1], fuel);
      var before := Distribute(s, g, cells, items[..|items| - 1], fuel);
      var x := items[|items| - 1];
      match FirstContaining(g, before, g.center(x)) {
        case Some(j) => InsertKeeps(s, g, before[j], x, fuel);
        case None =>
      }
    }
  }

  /** The shape `split` gives a node: no longer a leaf, its four sub-cells
      last, named after it with the digits 0 to 3 and holding its four
      sub-triangles; the old children kept in front of them, or, when
      objects are kept in leaves only, removed. */
  lemma SplitShape<O(!new)>(s: Settings, g: Geometry<O>, n: Node<O>, fuel: nat)
    ensures var r := NodeSplit(s, g, n, fuel);
      r.id == n.id && r.tri == n.tri && !r.isLeaf
      && |r.children| == (if s.storeObjectsInLeavesOnly then 4 else |n.children| + 4)
      && (!s.storeObjectsInLeavesOnly ==> r.children == n.children + AsCells(SubCells(g, n)))
      && forall k :: 0 <= k < 4 ==>
           r.children[|r.children| - 4 + k].Cell?
           && r.children[|r.children| - 4 + k].node.id == SubId(n.id, k)
           && r.children[|r.children| - 4 + k].node.tri == SubTriangle(g, n.tri, k)
  {
    if s.storeObjectsInLeavesOnly {
      SplitShapeLeavesOnly(s, g, n, fuel);
    } else {
      SplitShapeKept(s, g, n, fuel);
    }
  }

  /** `SplitShape` when objects are kept in leaves only: the four
      redistributed sub-cells are all the children. */
  lemma SplitShapeLeavesOnly<O(!new)>(s: Settings, g: Geometry<O>, n: Node<O>, fuel: nat)
    requires s.storeObjectsInLeavesOnly
    ensures var r := NodeSplit(s, g, n, fuel);
      r.id == n.id && r.tri == n.tri && !r.isLeaf && |r.children| == 4
      && forall k :: 0 <= k < 4 ==>
           r.children[k].Cell? && r.children[k].node.id == SubId(n.id, k) && r.children[k].node.tri == SubTriangle(g, n.tri, k)
  {
    var cells := SubCells(g, n);
    DistributeKeeps(s, g, cells, n.children, fuel);
    var d := Distribute(s, g, cells, n.children, fuel);
    var r := NodeSplit(s, g, n, fuel);
    assert r == n.(isLeaf := false, children := [] + AsCells(d));
    assert [] + AsCells(d) == AsCells(d);
    forall k | 0 <= k < 4
      ensures r.children[k] == Cell(d[k]) && d[k].id == SubId(n.id, k) && d[k].tri == SubTriangle(g, n.tri, k)
    {
      assert d[k].id == cells[k].id && d[k].tri == cells[k].tri;
    }
  }

  /** `SplitShape` otherwise: the old children, then the four new cells. */
  lemma SplitShapeKept<O(!new)>(s: Settings, g: Geometry<O>, n: Node<O>, fuel: nat)
    requires !s.storeObjectsInLeavesOnly
    ensures var r := NodeSplit(s, g, n, fuel);
      r.id == n.id && r.tri == n.tri && !r.isLeaf
      && r.children == n.children + AsCells(SubCells(g, n)) && |r.children| == |n.children| + 4
      && forall k :: 0 <= k < 4 ==> r.children[|n.children| + k] == Cell(SubCells(g, n)[k])
  {
    var cells := SubCells(g, n);
    var r := NodeSplit(s, g, n, fuel);
    assert r.children == n.children + AsCells(cells);
    forall k | 0 <= k < 4
      ensures r.children[|n.children| + k] == Cell(cells[k])
    {
      assert r.children[|n.children| + k] == AsCells(cells)[k];
    }
  }

  /** The leaf rule: a leaf stays a leaf exactly when it accepts the object,
      and then the object becomes its last child; otherwise the insertion is
      that into the split node. */
  lemma LeafRule<O(!new)>(s: Settings, g: Geometry<O>, n: Node<O>, x: Child<O>, fuel: nat)
    requires n.isLeaf && fuel > 0
    ensures NodeInsert(s, g, n, x, fuel).isLeaf <==> LeafAccepts(s, g.diameter(n), |n.children|)
    ensures LeafAccepts(s, g.diameter(n), |n.children|) ==> NodeInsert(s, g, n, x, fuel).children == n.children + [x]
    ensures !LeafAccepts(s, g.diameter(n), |n.children|) ==>
      NodeInsert(s, g, n, x, fuel) == NodeInsert(s, g, NodeSplit(s, g, n, fuel - 1), x, fuel - 1)
  {
    if !LeafAccepts(s, g.diameter(n), |n.children|) {
      var m := NodeSplit(s, g, n, fuel - 1);
      assert !m.isLeaf;
    }
  }

  /** A non-leaf keeps its children but the one sub-cell the scan picks,
      which becomes that sub-cell with the object inserted. */
  lemma NonLeafRule<O(!new)>(s: Settings, g: Geometry<O>, n: Node<O>, x: Child<O>, fuel: nat)
    requires !n.isLeaf && fuel > 0
    ensures var r := NodeInsert(s, g, n, x, fuel);
      !r.isLeaf && |r.children| == |n.children|
      && (forall j :: 0 <= j < |n.children| && r.children[j] != n.children[j] ==> ScanCells(g, n.children, g.center(x)) == Some(j))
      && (ScanCells(g, n.children, g.center(x)).None? ==> r == n)
  ensures var i := ScanCells(g, n.children, g.center(x));
    i.Some? ==>
      NodeInsert(s, g, n, x, fuel) == n.(children := n.children[i.value := Cell(NodeInsert(s, g, n.children[i.value].node, x, fuel - 1))])
  {
  }

  /** A sub-cell whose triangle contains none of the redistributed centres
      is left as it was. */
  lemma {:induction false} DistributeUntouched<O(!new)>(s: Settings, g: Geometry<O>, cells: seq<Node<O>>, items: seq<Child<O>>, fuel: nat, k: nat)
    requires k < |cells|
    requires forall i :: 0 <= i < |items| ==> !Contains(g, cells[k], g.center(items[i]))
    ensures var r := Distribute(s, g, cells, items, fuel);
      |r| == |cells| && r[k] == cells[k]
    decreases |items|
  {
    if |items| > 0 {
      var init := items[..|items| - 1];
      forall i | 0 <= i < |init| ensures !Contains(g, cells[k], g.center(init[i])) {
        assert init[i] == items[i];
      }
      DistributeUntouched(s, g, cells, init, fuel, k);
      DistributeKeeps(s, g, cells, init, fuel);
      var before := Distribute(s, g, cells, init, fuel);
      assert before[k] == cells[k];
      assert !Contains(g, before[k], g.center(items[|items| - 1]));
      FirstContainingSpec(g, before, g.center(items[|items| - 1]));
    }
  }

  // ---------------------------------------------------------------------
  // Shape of the tree

  /** Every cell of the tree has the shape `insert` and `split` keep: a
      leaf holds only objects, and a non-leaf holds objects followed by
      exactly four sub-cells named after it with the digits 0 to 3. */
  ghost predicate WellFormed<O(!new)>(n: Node<O>)
    decreases n, 1
  {
    var c := n.children;
    if n.isLeaf then forall i :: 0 <= i < |c| ==> c[i].Object?
    else (|c| >= 4
      && (forall i :: 0 <= i < |c| - 4 ==> c[i].Object?)
      && (forall k :: 0 <= k < 4 ==> SubCellOk(n, k)))
  }

  /** The `k`-th of the last four children of `n` is a well-formed cell
      named after `n` with the digit `k`. */
  ghost predicate SubCellOk<O(!new)>(n: Node<O>, k: nat)
    requires k < 4 <= |n.children|
    decreases n, 0
  {
    var e := n.children[|n.children| - 4 + k];
    e.Cell? && e.node.id == SubId(n.id, k) && WellFormed(e.node)
  }

  /** A leaf that takes one more object keeps its shape. */
  lemma AppendObjectWellFormed<O(!new)>(n: Node<O>, o: O)
    requires n.isLeaf && WellFormed(n)
    ensures WellFormed(n.(children := n.children + [Object(o)]))
  {
    var c := n.children + [Object(o)];
    forall i | 0 <= i < |c| ensures c[i].Object? {
      if i < |n.children| {
        assert c[i] == n.children[i];
      }
    }
  }

  /** A non-leaf whose sub-cell is replaced by a well-formed cell of the
      same name keeps its shape. */
  lemma ReplaceCellWellFormed<O(!new)>(n: Node<O>, i: nat, m: Node<O>)
    requires !n.isLeaf && WellFormed(n)
    requires |n.children| - 4 <= i < |n.children| && n.children[i].Cell?
    requires m.id == n.children[i].node.id && WellFormed(m)
    ensures WellFormed(n.(children := n.children[i := Cell(m)]))
  {
    var c := n.children;
    var r := n.(children := c[i := Cell(m)]);
    forall j | 0 <= j < |c| - 4 ensures r.children[j].Object? {
      assert r.children[j] == c[j];
    }
    forall k | 0 <= k < 4 ensures SubCellOk(r, k) {
      ReplaceCellSubCellOk(n, i, m, k);
    }
    assert WellFormed(r);
  }

  /** One sub-cell of `ReplaceCellWellFormed`. */
  lemma ReplaceCellSubCellOk<O(!new)>(n: Node<O>, i: nat, m: Node<O>, k: nat)
    requires !n.isLeaf && WellFormed(n) && k < 4
    requires |n.children| - 4 <= i < |n.children| && n.children[i].Cell?
    requires m.id == n.children[i].node.id && WellFormed(m)
    ensures SubCellOk(n.(children := n.children[i := Cell(m)]), k)
  {
    var c := n.children;
    assert SubCellOk(n, k);
    if |c| - 4 + k != i {
      assert c[i := Cell(m)][|c| - 4 + k] == c[|c| - 4 + k];
    }
  }

  lemma {:induction false} InsertWellFormed<O(!new)>(s: Settings, g: Geometry<O>, n: Node<O>, o: O, fuel: nat)
    requires WellFormed(n)
    ensures WellFormed(NodeInsert(s, g, n, Object(o), fuel))
    decreases fuel, 1, 0
  {
    var x: Child<O> := Object(o);
    if fuel == 0 {
    } else if n.isLeaf {
      if LeafAccepts(s, g.diameter(n), |n.children|) {
        assert NodeInsert(s, g, n, x, fuel) == n.(children := n.children + [x]);
        AppendObjectWellFormed(n, o);
      } else {
        SplitThenInsertWellFormed(s, g, n, o, fuel);
      }
    } else {
      DescendWellFormed(s, g, n, o, fuel);
    }
  }

  lemma {:induction false} SplitThenInsertWellFormed<O(!new)>(s: Settings, g: Geometry<O>, n: Node<O>, o: O, fuel: nat)
    requires WellFormed(n) && fuel > 0 && n.isLeaf && !LeafAccepts(s, g.diameter(n), |n.children|)
    ensures WellFormed(NodeInsert(s, g, n, Object(o), fuel))
    decreases fuel, 0, 0
  {
    var x: Child<O> := Object(o);
    SplitWellFormed(s, g, n, fuel - 1);
    InsertWellFormed(s, g, NodeSplit(s, g, n, fuel - 1), o, fuel - 1);
    LeafRule(s, g, n, x, fuel);
  }

  lemma {:induction false} DescendWellFormed<O(!new)>(s: Settings, g: Geometry<O>, n: Node<O>, o: O, fuel: nat)
    requires WellFormed(n) && fuel > 0 && !n.isLeaf
    ensures WellFormed(NodeInsert(s, g, n, Object(o), fuel))
    decreases fuel, 0, 0
  {
    var x: Child<O> := Object(o);
    match ScanCells(g, n.children, g.center(x)) {
      case Some(i) =>
        var child := n.children[i].node;
        assert SubCellOk(n, i - (|n.children| - 4));
        InsertWellFormed(s, g, child, o, fuel - 1);
        InsertKeeps(s, g, child, x, fuel - 1);
        ReplaceCellWellFormed(n, i, NodeInsert(s, g, child, x, fuel - 1));
        NonLeafRule(s, g, n, x, fuel);
      case None =>
        NonLeafRule(s, g, n, x, fuel);
    }
  }

  /** A non-leaf made of objects followed by four well-formed cells named
      after it with the digits 0 to 3 is well formed. */
  lemma AttachWellFormed<O(!new)>(r: Node<O>, base: seq<Child<O>>, cells: seq<Node<O>>)
    requires !r.isLeaf && |cells| == 4 && r.children == base + AsCells(cells)
    requires forall i :: 0 <= i < |base| ==> base[i].Object?
    requires forall k :: 0 <= k < 4 ==> cells[k].id == SubId(r.id, k) && WellFormed(cells[k])
    ensures WellFormed(r)
  {
    var c := r.children;
    forall i | 0 <= i < |c| - 4 ensures c[i].Object? {
      assert c[i] == base[i];
    }
    forall k | 0 <= k < 4 ensures SubCellOk(r, k) {
      assert c[|c| - 4 + k] == AsCells(cells)[k];
    }
  }

  /** The four fresh sub-cells of a split are well-formed empty leaves. */
  lemma SubCellsWellFormed<O(!new)>(g: Geometry<O>, n: Node<O>)
    ensures var cells := SubCells(g, n);
      forall k :: 0 <= k < 4 ==> cells[k].id == SubId(n.id, k) && WellFormed(cells[k])
  {
    var cells := SubCells(g, n);
    forall k | 0 <= k < 4 ensures cells[k].id == SubId(n.id, k) && WellFormed(cells[k]) {
      assert cells[k].isLeaf && cells[k].children == [];
    }
  }

  lemma {:induction false} SplitWellFormed<O(!new)>(s: Settings, g: Geometry<O>, n: Node<O>, fuel: nat)
    requires n.isLeaf && WellFormed(n)
    ensures WellFormed(NodeSplit(s, g, n, fuel))
    decreases fuel, 2, 0
  {
    var newCells := SubCells(g, n);
    SubCellsWellFormed(g, n);
    var cells := if s.storeObjectsInLeavesOnly then Distribute(s, g, newCells, n.children, fuel) else newCells;
    var base := if s.storeObjectsInLeavesOnly then [] else n.children;
    if s.storeObjectsInLeavesOnly {
      DistributeWellFormed(s, g, newCells, n.children, fuel);
      DistributeKeeps(s, g, newCells, n.children, fuel);
    }
    AttachWellFormed(NodeSplit(s, g, n, fuel), base, cells);
  }

  lemma {:induction false} DistributeWellFormed<O(!new)>(s: Settings, g: Geometry<O>, cells: seq<Node<O>>, items: seq<Child<O>>, fuel: nat)
    requires forall k :: 0 <= k < |cells| ==> WellFormed(cells[k])
    requires forall i :: 0 <= i < |items| ==> items[i].Object?
    ensures var r := Distribute(s, g, cells, items, fuel);
      forall k :: 0 <= k < |r| ==> WellFormed(r[k])
    decreases fuel, 1, |items| + 1
  {
    if |items| > 0 {
      var init := items[..|items| - 1];
      forall i | 0 <= i < |init| ensures init[i].Object? {
        assert init[i] == items[i];
      }
      DistributeWellFormed(s, g, cells, init, fuel);
      DistributeKeeps(s, g, cells, init, fuel);
      var before := Distribute(s, g, cells, init, fuel);
      var x := items[|items| - 1];
      match FirstContaining(g, before, g.center(x)) {
        case Some(j) =>
          InsertWellFormed(s, g, before[j], x.obj, fuel);
        case None =>
      }
    }
  }

  // ---------------------------------------------------------------------
  // The loops

  /** The scan of a non-leaf's last four children, from the end, for a
      sub-cell containing `p`, stopping at the fourth child from the end
      and never going below the first child. */
  method ScanSubcells<O(!new)>(g: Geometry<O>, children: seq<Child<O>>, p: Vec3) returns (r: Option<nat>)
    ensures r == ScanCells(g, children, p)
  {
    var i := |children| - 1;
    while i >= 0 && i >= |children| - 4
      invariant -1 <= i < |children|
      invariant i >= |children| - 5
      invariant ScanCells(g, children, p) == FindCell(g, children, p, i, |children| - 4)
      decreases i + 1
    {
      if children[i].Cell? {
        var inside := PolytopeContains(TrianglePlanes(children[i].node.tri), g.distance, p);
        if inside {
          return Some(i);
        }
      }
      i := i - 1;
    }
    return None;
  }

  /** The loop that hands a point to the first cell containing it. */
  method FindContaining<O(!new)>(g: Geometry<O>, cells: seq<Node<O>>, p: Vec3) returns (r: Option<nat>)
    ensures r == FirstContaining(g, cells, p)
  {
    var j := 0;
    while j < |cells|
      invariant 0 <= j <= |cells|
      invariant FirstContaining(g, cells, p) == FirstContainingFrom(g, cells, p, j)
    {
      var inside := PolytopeContains(TrianglePlanes(cells[j].tri), g.distance, p);
      if inside {
        return Some(j);
      }
      j := j + 1;
    }
    return None;
  }

  /** `HTMNode::insert`, step by step. */
  method InsertNode<O(!new)>(s: Settings, g: Geometry<O>, n: Node<O>, x: Child<O>, fuel: nat) returns (r: Node<O>)
    ensures r == NodeInsert(s, g, n, x, fuel)
    decreases fuel, 1, 1
  {
    if fuel == 0 {
      r := n;
    } else if n.isLeaf {
      r := InsertIntoLeaf(s, g, n, x, fuel);
    } else {
      r := InsertBelow(s, g, n, x, fuel);
    }
  }

  /** The leaf branch: keep the object, or split and insert again. */
  method InsertIntoLeaf<O(!new)>(s: Settings, g: Geometry<O>, n: Node<O>, x: Child<O>, fuel: nat) returns (r: Node<O>)
    requires fuel > 0 && n.isLeaf
    ensures r == NodeInsert(s, g, n, x, fuel)
    decreases fuel, 1, 0
  {
    LeafRule(s, g, n, x, fuel);
    var diameter := g.diameter(n);
    var roomForMoreObjects := |n.children| < s.maxObjectsPerCell;
    var underMaxCellSize := diameter < s.maxCellSize;
    var reachedMinCellSize := diameter <= s.minCellSize;
    if (underMaxCellSize && roomForMoreObjects) || reachedMinCellSize {
      r := n.(children := n.children + [x]);
    } else {
      r := SplitAndInsert(s, g, n, x, fuel);
      SameNode(r, NodeInsert(s, g, NodeSplit(s, g, n, fuel - 1), x, fuel - 1), NodeInsert(s, g, n, x, fuel));
    }
  }

  /** A leaf that does not take the object splits and tries again. */
  method SplitAndInsert<O(!new)>(s: Settings, g: Geometry<O>, n: Node<O>, x: Child<O>, fuel: nat) returns (r: Node<O>)
    requires fuel > 0
    ensures r == NodeInsert(s, g, NodeSplit(s, g, n, fuel - 1), x, fuel - 1)
    decreases fuel, 0, 1
  {
    var split := SplitNode(s, g, n, fuel - 1);
    r := InsertIntoSplitNode(s, g, n, x, fuel, split);
  }

  /** The second half of `SplitAndInsert`: the insertion into the node
      `SplitNode` returned. */
  method InsertIntoSplitNode<O(!new)>(s: Settings, g: Geometry<O>, n: Node<O>, x: Child<O>, fuel: nat, split: Node<O>) returns (r: Node<O>)
    requires fuel > 0 && split == NodeSplit(s, g, n, fuel - 1)
    ensures r == NodeInsert(s, g, NodeSplit(s, g, n, fuel - 1), x, fuel - 1)
    decreases fuel, 0, 0
  {
    r := InsertNode(s, g, split, x, fuel - 1);
    InsertIntoSplit(s, g, n, x, fuel, split, r);
  }

  /** The insertion into the node `SplitNode` returns is the insertion into
      the split node. */
  lemma InsertIntoSplit<O(!new)>(s: Settings, g: Geometry<O>, n: Node<O>, x: Child<O>, fuel: nat, split: Node<O>, r: Node<O>)
    requires fuel > 0 && split == NodeSplit(s, g, n, fuel - 1) && r == NodeInsert(s, g, split, x, fuel - 1)
    ensures r == NodeInsert(s, g, NodeSplit(s, g, n, fuel - 1), x, fuel - 1)
  {
  }

  /** Equality is transitive; stated as a lemma so that the solver is not
      asked to rediscover it among the unfoldings of the insertion. */
  lemma SameNode<O(!new)>(a: Node<O>, b: Node<O>, c: Node<O>)
    requires a == b && b == c
    ensures a == c
  {
  }

  /** The non-leaf branch: descend into the sub-cell the scan finds. */
  method InsertBelow<O(!new)>(s: Settings, g: Geometry<O>, n: Node<O>, x: Child<O>, fuel: nat) returns (r: Node<O>)
    requires fuel > 0 && !n.isLeaf
    ensures r == NodeInsert(s, g, n, x, fuel)
    decreases fuel, 1, 0
  {
    var i := ScanSubcells(g, n.children, g.center(x));
    match i {
      case Some(k) =>
        var c := InsertNode(s, g, n.children[k].node, x, fuel - 1);
        r := n.(children := n.children[k := Cell(c)]);
      case None =>
        r := n;
    }
  }

  /** One pass of the redistribution loop. */
  lemma DistributeStep<O(!new)>(s: Settings, g: Geometry<O>, cells: seq<Node<O>>, items: seq<Child<O>>, fuel: nat, i: nat)
    requires i < |items|
    ensures var before := Distribute(s, g, cells, items[..i], fuel);
      Distribute(s, g, cells, items[..i + 1], fuel)
        == match FirstContaining(g, before, g.center(items[i]))
           case Some(j) => before[j := NodeInsert(s, g, before[j], items[i], fuel)]
           case None => before
  {
    assert items[..i + 1][..i] == items[..i];
  }

  /** The redistribution loop of `HTMNode::split`. */
  method Redistribute<O(!new)>(s: Settings, g: Geometry<O>, start: seq<Node<O>>, items: seq<Child<O>>, fuel: nat) returns (cells: seq<Node<O>>)
    ensures cells == Distribute(s, g, start, items, fuel)
    decreases fuel, 1, 2
  {
    cells := start;
    var i := 0;
    while i < |items|
      invariant 0 <= i <= |items|
      invariant cells == Distribute(s, g, start, items[..i], fuel)
    {
      var x := items[i];
      var j := FindContaining(g, cells, g.center(x));
      if j.Some? {
        var c := InsertNode(s, g, cells[j.value], x, fuel);
        cells := cells[j.value := c];
      }
      DistributeStep(s, g, start, items, fuel, i);
      i := i + 1;
    }
    assert items[..i] == items;
  }

  /** The loop of `HTMNode::split` that adds the sub-cells as children. */
  method AttachCells<O(!new)>(base: seq<Child<O>>, cells: seq<Node<O>>) returns (children: seq<Child<O>>)
    ensures children == base + AsCells(cells)
  {
    children := base;
    var k := 0;
    while k < |cells|
      invariant 0 <= k <= |cells|
      invariant children == base + AsCells(cells[..k])
    {
      assert cells[..k + 1][..k] == cells[..k];
      children := children + [Cell(cells[k])];
      k := k + 1;
    }
    assert cells[..k] == cells;
  }

  /** `HTMNode::split`, step by step. */
  method SplitNode<O(!new)>(s: Settings, g: Geometry<O>, n: Node<O>, fuel: nat) returns (r: Node<O>)
    ensures r == NodeSplit(s, g, n, fuel)
    decreases fuel, 2, 0
  {
    var cells := SubCells(g, n);
    var base := n.children;
    if s.storeObjectsInLeavesOnly {
      cells := Redistribute(s, g, cells, n.children, fuel);
      base := [];
    }
    var children := AttachCells(base, cells);
    r := n.(isLeaf := false, children := children);
  }

  // ---------------------------------------------------------------------
  // The scan bound as written

  /** `size_t` on a 64-bit target. */
  const SizeMod: int := 0x1_0000_0000_0000_0000

  /** An `int` or an unsigned difference converted to `size_t`. */
  function ToSize(v: int): (r: nat)
    ensures r < SizeMod && (0 <= v < SizeMod ==> r == v)
  {
    v % SizeMod
  }

  /** The loop condition `i >= _children.size()-4` as compiled: the signed
      `i` is converted to `size_t` and compared with an unsigned
      difference. */
  predicate ScanGuardAsWritten(i: int, size: nat) {
    ToSize(i) >= ToSize(size - 4)
  }

  /** The condition the scan evidently means, and the one `ScanSubcells`
      uses: stay within the last four children and at or above index 0. */
  predicate ScanGuard(i: int, size: nat) {
    i >= 0 && i >= size - 4
  }

  /** With exactly four children and no sub-cell containing the point, the
      compiled loop goes on past index 0: at `i == -1` its condition still
      holds and it reads `_children[-1]`. */
  lemma ScanGuardAsWrittenPassesZero()
    ensures ScanGuardAsWritten(-1, 4) && !ScanGuard(-1, 4)
    ensures forall i :: -SizeMod < i < 0 ==> ScanGuardAsWritten(i, 4)
  {
    assert ToSize(-1) == SizeMod - 1;
  }

  /** On the indices of the children, the compiled condition and the
      intended one agree; they differ only once `i` is negative. */
  lemma ScanGuardsAgreeOnIndices(i: int, size: nat)
    requires 0 <= i < size < SizeMod && size >= 4
    ensures ScanGuardAsWritten(i, size) <==> ScanGuard(i, size)
  {
    assert ToSize(i) == i && ToSize(size - 4) == size - 4;
  }

  /** With more than four children the compiled loop stops at the fourth
      child from the end, as intended. */
  lemma ScanGuardAsWrittenStops(size: nat)
    requires 4 < size < SizeMod
    ensures ScanGuardAsWritten(size - 4, size) && !ScanGuardAsWritten(size - 5, size)
  {
    assert ToSize(size - 5) == size - 5 && ToSize(size - 4) == size - 4;
  }

  // ---------------------------------------------------------------------
  // The group

  /** The base manifold: the poles and the four equator points. */
  function BaseVertex(k: nat): Vec3
    requires k < 6
  {
    if k == 0 then Vec3(0.0, 0.0, 1.0)
    else if k == 1 then Vec3(1.0, 0.0, 0.0)
    else if k == 2 then Vec3(0.0, 1.0, 0.0)
    else if k == 3 then Vec3(-1.0, 0.0, 0.0)
    else if k == 4 then Vec3(0.0, -1.0, 0.0)
    else Vec3(0.0, 0.0, -1.0)
  }

  /** The eight counter-clockwise base triangles, one per octant. */
  function BaseTriangle(k: nat): Triangle
    requires k < 8
  {
    if k == 0 then Triangle(BaseVertex(0), BaseVertex(1), BaseVertex(2))
    else if k == 1 then Triangle(BaseVertex(0), BaseVertex(2), BaseVertex(3))
    else if k == 2 then Triangle(BaseVertex(0), BaseVertex(3), BaseVertex(4))
    else if k == 3 then Triangle(BaseVertex(0), BaseVertex(4), BaseVertex(1))
    else if k == 4 then Triangle(BaseVertex(5), BaseVertex(1), BaseVertex(4))
    else if k == 5 then Triangle(BaseVertex(5), BaseVertex(4), BaseVertex(3))
    else if k == 6 then Triangle(BaseVertex(5), BaseVertex(3), BaseVertex(2))
    else Triangle(BaseVertex(5), BaseVertex(2), BaseVertex(1))
  }

  function BaseRoot<O(!new)>(k: nat): Node<O>
    requires k < 8
  {
    NewCell([DigitChar(k)], BaseTriangle(k))
  }

  /** A root of the group is base cell `k`, possibly grown. */
  ghost predicate IsRoot<O(!new)>(n: Node<O>, k: nat)
    requires k < 8
  {
    n.id == [DigitChar(k)] && n.tri == BaseTriangle(k) && WellFormed(n)
  }

  /** Point `p` lies in octant `k`: on the side of each axis where base
      triangle `k` lies, boundary included. */
  predicate InOctant(k: nat, p: Vec3) {
    (if k in {0, 3, 4, 7} then p.x >= 0.0 else p.x <= 0.0)
    && (if k in {0, 1, 6, 7} then p.y >= 0.0 else p.y <= 0.0)
    && (if k < 4 then p.z >= 0.0 else p.z <= 0.0)
  }

  /** A triangle's polytope holds `p` exactly when its three edge-plane
      distances are not negative. */
  lemma EdgePlanes(t: Triangle, p: Vec3, d0: real, d1: real, d2: real)
    requires Distance(EdgePlane(t.v0, t.v1), p) == d0
    requires Distance(EdgePlane(t.v1, t.v2), p) == d1
    requires Distance(EdgePlane(t.v2, t.v0), p) == d2
    ensures InPolytope(TrianglePlanes(t), Distance, p) <==> d0 >= 0.0 && d1 >= 0.0 && d2 >= 0.0
  {
    var planes := TrianglePlanes(t);
    assert planes[0] == EdgePlane(t.v0, t.v1) && planes[1] == EdgePlane(t.v1, t.v2) && planes[2] == EdgePlane(t.v2, t.v0);
  }

  /** With exact distances, base triangle `k` is octant `k`. */
  lemma BaseTriangleOctant(k: nat, p: Vec3)
    requires k < 8
    ensures InPolytope(TrianglePlanes(BaseTriangle(k)), Distance, p) <==> InOctant(k, p)
  {
    if k == 0 {
      BaseOctant0(p);
    } else if k == 1 {
      BaseOctant1(p);
    } else if k == 2 {
      BaseOctant2(p);
    } else if k == 3 {
      BaseOctant3(p);
    } else if k == 4 {
      BaseOctant4(p);
    } else if k == 5 {
      BaseOctant5(p);
    } else if k == 6 {
      BaseOctant6(p);
    } else {
      BaseOctant7(p);
    }
  }

  lemma BaseOctant0(p: Vec3)
    ensures InPolytope(TrianglePlanes(BaseTriangle(0)), Distance, p) <==> InOctant(0, p)
  {
    var t := Triangle(Vec3(0.0, 0.0, 1.0), Vec3(1.0, 0.0, 0.0), Vec3(0.0, 1.0, 0.0));
    assert BaseTriangle(0) == t;
    EdgePlanes(t, p, p.y, p.z, p.x);
  }

  lemma BaseOctant1(p: Vec3)
    ensures InPolytope(TrianglePlanes(BaseTriangle(1)), Distance, p) <==> InOctant(1, p)
  {
    var t := Triangle(Vec3(0.0, 0.0, 1.0), Vec3(0.0, 1.0, 0.0), Vec3(-1.0, 0.0, 0.0));
    assert BaseTriangle(1) == t;
    EdgePlanes(t, p, -p.x, p.z, p.y);
  }

  lemma BaseOctant2(p: Vec3)
    ensures InPolytope(TrianglePlanes(BaseTriangle(2)), Distance, p) <==> InOctant(2, p)
  {
    var t := Triangle(Vec3(0.0, 0.0, 1.0), Vec3(-1.0, 0.0, 0.0), Vec3(0.0, -1.0, 0.0));
    assert BaseTriangle(2) == t;
    EdgePlanes(t, p, -p.y, p.z, -p.x);
  }

  lemma BaseOctant3(p: Vec3)
    ensures InPolytope(TrianglePlanes(BaseTriangle(3)), Distance, p) <==> InOctant(3, p)
  {
    var t := Triangle(Vec3(0.0, 0.0, 1.0), Vec3(0.0, -1.0, 0.0), Vec3(1.0, 0.0, 0.0));
    assert BaseTriangle(3) == t;
    EdgePlanes(t, p, p.x, p.z, -p.y);
  }

  lemma BaseOctant4(p: Vec3)
    ensures InPolytope(TrianglePlanes(BaseTriangle(4)), Distance, p) <==> InOctant(4, p)
  {
    var t := Triangle(Vec3(0.0, 0.0, -1.0), Vec3(1.0, 0.0, 0.0), Vec3(0.0, -1.0, 0.0));
    assert BaseTriangle(4) == t;
    EdgePlanes(t, p, -p.y, -p.z, p.x);
  }

  lemma BaseOctant5(p: Vec3)
    ensures InPolytope(TrianglePlanes(BaseTriangle(5)), Distance, p) <==> InOctant(5, p)
  {
    var t := Triangle(Vec3(0.0, 0.0, -1.0), Vec3(0.0, -1.0, 0.0), Vec3(-1.0, 0.0, 0.0));
    assert BaseTriangle(5) == t;
    EdgePlanes(t, p, -p.x, -p.z, -p.y);
  }

  lemma BaseOctant6(p: Vec3)
    ensures InPolytope(TrianglePlanes(BaseTriangle(6)), Distance, p) <==> InOctant(6, p)
  {
    var t := Triangle(Vec3(0.0, 0.0, -1.0), Vec3(-1.0, 0.0, 0.0), Vec3(0.0, 1.0, 0.0));
    assert BaseTriangle(6) == t;
    EdgePlanes(t, p, p.y, -p.z, -p.x);
  }

  lemma BaseOctant7(p: Vec3)
    ensures InPolytope(TrianglePlanes(BaseTriangle(7)), Distance, p) <==> InOctant(7, p)
  {
    var t := Triangle(Vec3(0.0, 0.0, -1.0), Vec3(0.0, 1.0, 0.0), Vec3(1.0, 0.0, 0.0));
    assert BaseTriangle(7) == t;
    EdgePlanes(t, p, p.x, -p.z, p.y);
  }

  /** With exact distances the eight base triangles cover the sphere:
      every point is in one of them. */
  lemma BaseTrianglesCover(p: Vec3)
    ensures exists k :: 0 <= k < 8 && InPolytope(TrianglePlanes(BaseTriangle(k)), Distance, p)
  {
    var k := if p.z >= 0.0 then
        (if p.x >= 0.0 then (if p.y >= 0.0 then 0 else 3) else (if p.y >= 0.0 then 1 else 2))
      else
        (if p.x >= 0.0 then (if p.y >= 0.0 then 7 else 4) else (if p.y >= 0.0 then 6 else 5));
    BaseTriangleOctant(k, p);
  }

  /** The model's distance is the exact one. */
  ghost predicate ExactDistances<O(!new)>(g: Geometry<O>) {
    forall pl, q :: g.distance(pl, q) == Distance(pl, q)
  }

  /** The effect of `HTMGroup::insert` on the roots: the object goes into
      the first root whose triangle contains its normalised centre, and the
      answer says whether there was one. */
  ghost predicate GroupInserts<O(!new)>(s: Settings, g: Geometry<O>, before: seq<Node<O>>, after: seq<Node<O>>, o: O, fuel: nat, inserted: bool) {
    match FirstContaining(g, before, g.normalize(g.center(Object(o))))
    case Some(i) => inserted && after == before[i := NodeInsert(s, g, before[i], Object(o), fuel)]
    case None => !inserted && after == before
  }

  /** An `HTMGroup`: the settings shared with its cells and its eight
      root cells. */
  class HTMGroup<O(!new)> {
    var settings: Settings
    var roots: seq<Node<O>>
    const geometry: Geometry<O>

    ghost predicate Valid()
      reads this
    {
      |roots| == 8 && forall k :: 0 <= k < 8 ==> IsRoot(roots[k], k)
    }

    /** The constructor's settings; the pixel threshold and the debug flag
        are not part of this model. */
    static const DefaultSettings := Settings(128, 10000.0, 500000.0, false)

    constructor(g: Geometry<O>)
      ensures geometry == g && settings == DefaultSettings
      ensures |roots| == 8 && forall k :: 0 <= k < 8 ==> roots[k] == BaseRoot(k)
      ensures Valid()
    {
      geometry := g;
      settings := DefaultSettings;
      new;
      Reinitialize();
    }

    /** `reinitialize`: the children are cleared and the eight base
        triangles added, named "0" to "7". */
    method Reinitialize()
      modifies this
      ensures settings == old(settings)
      ensures |roots| == 8 && forall k :: 0 <= k < 8 ==> roots[k] == BaseRoot(k)
      ensures Valid()
    {
      roots := [];
      var k := 0;
      while k < 8
        invariant 0 <= k <= 8 && settings == old(settings)
        invariant |roots| == k && forall j :: 0 <= j < k ==> roots[j] == BaseRoot(j)
      {
        roots := roots + [BaseRoot(k)];
        k := k + 1;
      }
      forall j | 0 <= j < 8 ensures IsRoot(roots[j], j) {
        assert WellFormed(roots[j]);
      }
    }

    /** `HTMGroup::insert`; with exact distances some root always takes
        the object. */
    method Insert(o: O, fuel: nat) returns (inserted: bool)
      requires Valid()
      modifies this
      ensures Valid() && settings == old(settings)
      ensures GroupInserts(settings, geometry, old(roots), roots, o, fuel, inserted)
      ensures ExactDistances(geometry) ==> inserted
    {
      var p := geometry.normalize(geometry.center(Object(o)));
      if ExactDistances(geometry) {
        BaseTrianglesCover(p);
        var k0 :| 0 <= k0 < 8 && InPolytope(TrianglePlanes(BaseTriangle(k0)), Distance, p);
        assert Contains(geometry, roots[k0], p);
        FirstContainingSpec(geometry, roots, p);
      }
      var i := FindContaining(geometry, roots, p);
      inserted := false;
      if i.Some? {
        var k := i.value;
        var c := InsertNode(settings, geometry, roots[k], Object(o), fuel);
        InsertWellFormed(settings, geometry, roots[k], o, fuel);
        InsertKeeps(settings, geometry, roots[k], Object(o), fuel);
        roots := roots[k := c];
        inserted := true;
      }
    }

    /** `addChild` is an insertion. */
    method AddChild(o: O, fuel: nat) returns (r: bool)
      requires Valid()
      modifies this
      ensures Valid() && settings == old(settings)
      ensures GroupInserts(settings, geometry, old(roots), roots, o, fuel, r)
    {
      r := Insert(o, fuel);
    }

    /** `insertChild` ignores the position and inserts. */
    method InsertChild(index: nat, o: O, fuel: nat) returns (r: bool)
      requires Valid()
      modifies this
      ensures Valid() && settings == old(settings)
      ensures GroupInserts(settings, geometry, old(roots), roots, o, fuel, r)
    {
      r := Insert(o, fuel);
    }

    /** `removeChildren`, `replaceChild` and `setChild` are refused: they
        answer false and change nothing. */
    method RemoveChildren(pos: nat, count: nat) returns (r: bool)
      ensures !r
    {
      r := false;
    }

    method ReplaceChild(orig: Child<O>, replacement: Child<O>) returns (r: bool)
      ensures !r
    {
      r := false;
    }

    method SetChild(index: nat, child: Child<O>) returns (r: bool)
      ensures !r
    {
      r := false;
    }
  }
}
