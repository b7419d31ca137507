/** Draw-instanced conversion (DrawInstanced.cpp): the proxy-mesh builder
    that merges equal transformed vertices, the decoding of an instance
    matrix, the packing of instance matrices and object IDs into the
    texture buffer, and the conversions of LODs, drawables and state sets.
    Floats are modelled as reals and the vertex transform `v * matrix` is a
    parameter. */
module DrawInstanced {
  import opened Wrappers

  /** An `osg::Matrixf`: 16 elements, row-major, so that element `(row, col)`
      is at `4 * row + col`. */
  type Matrix = seq<real>

  /** `FLT_MAX`. */
  const FltMax: real := 340282346638528859811704183484516925440.0

  /** `InstanceGeometry::decodeMatrix`: elements 3, 7 and 11 become 0 and
      element 15 becomes 1; the others are kept. */
  function DecodeMatrix(m: Matrix): (out: Matrix)
    requires |m| == 16
    ensures |out| == 16
    ensures out[3] == 0.0 && out[7] == 0.0 && out[11] == 0.0 && out[15] == 1.0
    ensures forall i :: 0 <= i < 16 && i != 3 && i != 7 && i != 11 && i != 15 ==> out[i] == m[i]
  {
    m[3 := 0.0][7 := 0.0][11 := 0.0][15 := 1.0]
  }

  /** Decoding a decoded matrix changes nothing, and two matrices that
      differ only in the encoded column decode alike. */
  lemma DecodeMatrixIdempotent(m: Matrix, n: Matrix)
    requires |m| == 16 && |n| == 16
    ensures DecodeMatrix(DecodeMatrix(m)) == DecodeMatrix(m)
    ensures (forall i :: 0 <= i < 16 && i != 3 && i != 7 && i != 11 && i != 15 ==> m[i] == n[i])
      ==> DecodeMatrix(m) == DecodeMatrix(n)
  {
    var d := DecodeMatrix(m);
    assert forall i :: 0 <= i < 16 ==> DecodeMatrix(d)[i] == d[i];
    if forall i :: 0 <= i < 16 && i != 3 && i != 7 && i != 11 && i != 15 ==> m[i] == n[i] {
      assert forall i :: 0 <= i < 16 ==> DecodeMatrix(m)[i] == DecodeMatrix(n)[i];
    }
  }

  predicate Distinct<V(==)>(s: seq<V>) {
    forall i, j :: 0 <= i < j < |s| ==> s[i] != s[j]
  }

  predicate AllMatrices(ms: seq<Matrix>) {
    forall k :: 0 <= k < |ms| ==> |ms[k]| == 16
  }

  /** The corners of a triangle transformed by one matrix, in order. */
  function Corners<V>(tri: seq<V>, matrix: Matrix, transform: (V, Matrix) -> V): (r: seq<V>)
    ensures |r| == |tri| && forall j :: 0 <= j < |tri| ==> r[j] == transform(tri[j], matrix)
  {
    seq(|tri|, j requires 0 <= j < |tri| => transform(tri[j], matrix))
  }

  /** The transformed vertices one triangle contributes, matrix by matrix,
      each matrix decoded first. */
  function Targets<V>(matrices: seq<Matrix>, transform: (V, Matrix) -> V, tri: seq<V>): (r: seq<V>)
    requires AllMatrices(matrices)
    ensures |r| == |tri| * |matrices|
    decreases |matrices|
  {
    if |matrices| == 0 then []
    else
      var init := matrices[..|matrices| - 1];
      assert AllMatrices(init) by {
        assert forall k :: 0 <= k < |init| ==> init[k] == matrices[k];
      }
      Targets(init, transform, tri) + Corners(tri, DecodeMatrix(matrices[|matrices| - 1]), transform)
  }

  /** Index positions `from ..` of `indices` name, in order, stored vertices
      equal to `vs`. */
  ghost predicate Refers<V>(verts: seq<V>, indices: seq<nat>, from: nat, vs: seq<V>) {
    |indices| == from + |vs| && forall k :: 0 <= k < |vs| ==> RefersOne(verts, indices, from, vs, k)
  }

  /** Index position `from + k` names a stored vertex equal to `vs[k]`. */
  ghost predicate RefersOne<V>(verts: seq<V>, indices: seq<nat>, from: nat, vs: seq<V>, k: nat)
    requires k < |vs|
  {
    from + k < |indices| && indices[from + k] < |verts| && verts[indices[from + k]] == vs[k]
  }

  /** One reference of a run. */
  lemma RefersAt<V>(verts: seq<V>, indices: seq<nat>, from: nat, vs: seq<V>, k: nat)
    requires Refers(verts, indices, from, vs) && k < |vs|
    ensures indices[from + k] < |verts| && verts[indices[from + k]] == vs[k]
  {
    assert RefersOne(verts, indices, from, vs, k);
  }

  /** A reference stays valid when vertices and indices are appended. */
  lemma RefersAtExtended<V>(verts: seq<V>, indices: seq<nat>, verts': seq<V>, indices': seq<nat>, from: nat, vs: seq<V>, k: nat)
    requires Refers(verts, indices, from, vs) && k < |vs|
    requires verts <= verts' && indices <= indices'
    ensures indices'[from + k] < |verts'| && verts'[indices'[from + k]] == vs[k]
  {
    RefersAt(verts, indices, from, vs, k);
    var x := indices[from + k];
    assert indices'[from + k] == indices'[..|indices|][from + k];
    assert verts'[x] == verts'[..|verts|][x];
  }

  /** References stay valid when vertices and indices are appended. */
  lemma RefersExtend<V>(verts: seq<V>, indices: seq<nat>, verts': seq<V>, indices': seq<nat>, from: nat, vs: seq<V>, ws: seq<V>)
    requires Refers(verts, indices, from, vs)
    requires verts <= verts' && indices <= indices' && Refers(verts', indices', from + |vs|, ws)
    ensures Refers(verts', indices', from, vs + ws)
  {
    var all := vs + ws;
    assert |indices'| == from + |all|;
    forall k: nat | k < |all|
      ensures RefersOne(verts', indices', from, all, k)
    {
      if k < |vs| {
        RefersAtExtended(verts, indices, verts', indices', from, vs, k);
      } else {
        RefersAt(verts', indices', from + |vs|, ws, k - |vs|);
      }
    }
  }

  /** One corner added: the references so far extend by one, and the vertex
      list gains at most that corner. */
  lemma CornerAdded<V>(start: seq<V>, vs0: seq<V>, is0: seq<nat>, verts: seq<V>, indices: seq<nat>,
                       from: nat, corners: seq<V>, j: nat, index: nat)
    requires 0 <= j < |corners| && Refers(vs0, is0, from, corners[..j])
    requires start <= vs0 && forall q :: |start| <= q < |vs0| ==> vs0[q] in corners
    requires verts == vs0 || verts == vs0 + [corners[j]]
    requires index < |verts| && verts[index] == corners[j] && indices == is0 + [index]
    ensures start <= verts && vs0 <= verts && is0 <= indices
    ensures Refers(verts, indices, from, corners[..j + 1])
    ensures forall q :: |start| <= q < |verts| ==> verts[q] in corners
  {
    assert Refers(verts, indices, from + j, [corners[j]]);
    RefersExtend(vs0, is0, verts, indices, from, corners[..j], [corners[j]]);
    assert corners[..j] + [corners[j]] == corners[..j + 1];
    forall q | |start| <= q < |verts| ensures verts[q] in corners {
      if q < |vs0| {
        assert verts[q] == vs0[q];
      }
    }
  }

  /** The `Mesher` triangle functor: the proxy vertex list, the index list
      and `verts_unique`, which maps each stored vertex to its position. */
  class Mesher<V(==)> {
    var verts: seq<V>
    var indices: seq<nat>
    var unique: map<V, nat>

    ghost predicate Valid()
      reads this
    {
      (forall i :: 0 <= i < |verts| ==> verts[i] in unique && unique[verts[i]] == i) &&
      (forall v :: v in unique ==> unique[v] < |verts| && verts[unique[v]] == v) &&
      (forall k :: 0 <= k < |indices| ==> indices[k] < |verts|)
    }

    constructor ()
      ensures Valid() && verts == [] && indices == [] && unique == map[]
    {
      verts, indices, unique := [], [], map[];
    }

    /** The vertex list of a valid mesher never holds a vertex twice. */
    lemma VertsDistinct()
      requires Valid()
      ensures Distinct(verts)
    {
      forall i, j | 0 <= i < j < |verts| ensures verts[i] != verts[j] {
        assert unique[verts[i]] == i && unique[verts[j]] == j;
      }
    }

    /** One corner: `verts_unique.insert` with the next position, a
        `push_back` of the vertex when it was new, and a `push_back` of the
        position the map holds. */
    method AddVertex(v: V) returns (index: nat)
      requires Valid()
      modifies this
      ensures Valid()
      ensures verts == if v in old(unique) then old(verts) else old(verts) + [v]
      ensures index < |verts| && verts[index] == v
      ensures indices == old(indices) + [index]
    {
      if v !in unique {
        unique := unique[v := |verts|];
        verts := verts + [v];
      }
      index := unique[v];
      indices := indices + [index];
    }

    /** The inner loop over `{ v0, v1, v2 }` for one decoded matrix. */
    method AddCorners(tri: seq<V>, matrix: Matrix, transform: (V, Matrix) -> V)
      requires Valid()
      modifies this
      ensures Valid()
      ensures old(verts) <= verts && old(indices) <= indices
      ensures Refers(verts, indices, |old(indices)|, Corners(tri, matrix, transform))
      ensures forall q :: |old(verts)| <= q < |verts| ==> verts[q] in Corners(tri, matrix, transform)
    {
      ghost var corners := Corners(tri, matrix, transform);
      for j := 0 to |tri|
        invariant Valid()
        invariant old(verts) <= verts && old(indices) <= indices
        invariant Refers(verts, indices, |old(indices)|, corners[..j])
        invariant forall q :: |old(verts)| <= q < |verts| ==> verts[q] in corners
      {
        ghost var vs0 := verts;
        ghost var is0 := indices;
        var vFinal := transform(tri[j], matrix);
        var index := AddVertex(vFinal);
        CornerAdded(old(verts), vs0, is0, verts, indices, |old(indices)|, corners, j, index);
      }
      assert corners[..|tri|] == corners;
    }

    /** `Mesher::operator()`: for every matrix, decoded, the three corners
        transformed by it are added in turn.  Exactly three indices are
        appended per matrix, each names a stored vertex equal to its
        transformed corner, the old vertices stay in place, every new vertex
        is one of the transformed corners, and no vertex is stored twice. */
    method Triangle(matrices: seq<Matrix>, transform: (V, Matrix) -> V, v0: V, v1: V, v2: V)
      requires Valid() && AllMatrices(matrices)
      modifies this
      ensures Valid() && Distinct(verts)
      ensures old(verts) <= verts && old(indices) <= indices
      ensures |indices| == |old(indices)| + 3 * |matrices|
      ensures Refers(verts, indices, |old(indices)|, Targets(matrices, transform, [v0, v1, v2]))
      ensures forall q :: |old(verts)| <= q < |verts| ==> verts[q] in Targets(matrices, transform, [v0, v1, v2])
    {
      var tri := [v0, v1, v2];
      for m := 0 to |matrices|
        invariant Valid()
        invariant old(verts) <= verts && old(indices) <= indices
        invariant AllMatrices(matrices[..m])
        invariant Refers(verts, indices, |old(indices)|, Targets(matrices[..m], transform, tri))
        invariant forall q :: |old(verts)| <= q < |verts| ==> verts[q] in Targets(matrices[..m], transform, tri)
      {
        ghost var (vs0, is0) := (verts, indices);
        ghost var done := Targets(matrices[..m], transform, tri);
        var matrix := DecodeMatrix(matrices[m]);
        AddCorners(tri, matrix, transform);
        RefersExtend(vs0, is0, verts, indices, |old(indices)|, done, Corners(tri, matrix, transform));
        assert matrices[..m + 1][..m] == matrices[..m];
        assert Targets(matrices[..m + 1], transform, tri) == done + Corners(tri, matrix, transform);
      }
      assert matrices[..|matrices|] == matrices;
      VertsDistinct();
    }
  }

  // ---------------------------------------------------------------------
  // Instance packing

  /** An `ObjectID`: a 32-bit unsigned integer. */
  type ObjectID = x: nat | x < 0x1_0000_0000

  /** A `ModelInstance`: its matrix and its object ID. */
  datatype ModelInstance = ModelInstance(matrix: Matrix, objectID: ObjectID)

  /** `id >> (8 * k)`. */
  function Shifted(id: nat, k: nat): nat {
    if k == 0 then id else Shifted(id, k - 1) / 256
  }

  /** Byte `k` of the ID, least significant first: `(id >> 8k) & 0xff`. */
  function IDByte(id: ObjectID, k: nat): (b: nat)
    ensures b < 256
  {
    Shifted(id, k) % 256
  }

  /** The shifts the packing loop writes. */
  lemma ShiftedValues(id: nat)
    ensures Shifted(id, 0) == id && Shifted(id, 1) == id / 256
    ensures Shifted(id, 2) == id / 65536 && Shifted(id, 3) == id / 16777216
  {
    assert Shifted(id, 1) == Shifted(id, 0) / 256;
    assert Shifted(id, 2) == Shifted(id, 1) / 256;
    assert Shifted(id, 3) == Shifted(id, 2) / 256;
  }

  /** The four bytes, weighted by powers of 256, add up to the object ID. */
  lemma IDBytesRoundTrip(id: ObjectID)
    ensures IDByte(id, 0) + 256 * IDByte(id, 1) + 65536 * IDByte(id, 2) + 16777216 * IDByte(id, 3) == id
  {
    var s1, s2, s3 := Shifted(id, 1), Shifted(id, 2), Shifted(id, 3);
    assert id == IDByte(id, 0) + 256 * s1;
    assert s1 == IDByte(id, 1) + 256 * s2;
    assert s2 == IDByte(id, 2) + 256 * s3;
    assert s1 < 16777216;
    assert s2 < 65536;
    assert s3 < 256;
    assert s3 == IDByte(id, 3);
  }

  /** Column `col` of a matrix, top to bottom: `mat(0, col) .. mat(3, col)`. */
  function Column(mat: Matrix, col: nat): (r: seq<real>)
    requires |mat| == 16 && col < 4
    ensures |r| == 4 && forall row :: 0 <= row < 4 ==> r[row] == mat[4 * row + col]
  {
    [mat[col], mat[4 + col], mat[8 + col], mat[12 + col]]
  }

  /** The first `n` columns, one after the other. */
  function Columns(mat: Matrix, n: nat): (r: seq<real>)
    requires |mat| == 16 && n <= 4
    ensures |r| == 4 * n
  {
    if n == 0 then [] else Columns(mat, n - 1) + Column(mat, n - 1)
  }

  /** The object ID's four bytes, least significant first. */
  function IDBytes(id: ObjectID): (r: seq<real>)
    ensures |r| == 4 && forall k :: 0 <= k < 4 ==> r[k] == IDByte(id, k) as real
  {
    [IDByte(id, 0) as real, IDByte(id, 1) as real, IDByte(id, 2) as real, IDByte(id, 3) as real]
  }

  /** The 16 floats (four RGBA texels) of one instance: the first three
      columns of its matrix (the transpose the shader decodes), then its
      object ID in place of the last column. */
  function InstanceTexels(inst: ModelInstance): (r: seq<real>)
    requires |inst.matrix| == 16
    ensures |r| == 16
  {
    Columns(inst.matrix, 3) + IDBytes(inst.objectID)
  }

  /** Where each element of an instance lands among its 16 floats. */
  lemma InstanceTexelsLayout(inst: ModelInstance)
    requires |inst.matrix| == 16
    ensures forall col, row :: 0 <= col < 3 && 0 <= row < 4 ==>
      InstanceTexels(inst)[4 * col + row] == inst.matrix[4 * row + col]
    ensures forall k :: 0 <= k < 4 ==> InstanceTexels(inst)[12 + k] == IDByte(inst.objectID, k) as real
  {
    var mat := inst.matrix;
    assert Columns(mat, 1) == Column(mat, 0);
    assert Columns(mat, 2) == Column(mat, 0) + Column(mat, 1);
    assert Columns(mat, 3) == Column(mat, 0) + Column(mat, 1) + Column(mat, 2);
  }

  predicate AllInstances(instances: seq<ModelInstance>) {
    forall m :: 0 <= m < |instances| ==> |instances[m].matrix| == 16
  }

  /** The texture contents for a run of instances. */
  function Packed(instances: seq<ModelInstance>): (r: seq<real>)
    requires AllInstances(instances)
    ensures |r| == 16 * |instances|
    decreases |instances|
  {
    if |instances| == 0 then []
    else
      var init := instances[..|instances| - 1];
      assert AllInstances(init) by {
        assert forall m :: 0 <= m < |init| ==> init[m] == instances[m];
      }
      Packed(init) + InstanceTexels(instances[|instances| - 1])
  }

  /** Instance `m` occupies floats `16m .. 16m+15`. */
  lemma {:induction false} PackedAt(instances: seq<ModelInstance>, m: nat)
    requires AllInstances(instances) && m < |instances|
    ensures Packed(instances)[16 * m .. 16 * m + 16] == InstanceTexels(instances[m])
    decreases |instances|
  {
    var init := instances[..|instances| - 1];
    assert AllInstances(init) by {
      assert forall j :: 0 <= j < |init| ==> init[j] == instances[j];
    }
    if m < |instances| - 1 {
      PackedAt(init, m);
      assert init[m] == instances[m];
      assert Packed(instances)[..16 * |init|] == Packed(init);
    }
  }

  /** Instances a texture buffer of `maxTBOSize` bytes holds, at 64 bytes
      (four `vec4` of floats) each. */
  function TBOCapacity(maxTBOSize: nat): nat {
    maxTBOSize / (4 * 4 * 4)
  }

  /** The instances stored: all of them when fewer than the capacity, else
      as many as the capacity. */
  function StoredCount(count: nat, capacity: nat): (n: nat)
    ensures n <= count && n <= capacity
    ensures n == count || n == capacity
    ensures count < capacity <==> n == count && n != capacity
  {
    if count < capacity then count else capacity
  }

  function MatricesOf(instances: seq<ModelInstance>): (r: seq<Matrix>)
    ensures |r| == |instances| && forall m :: 0 <= m < |r| ==> r[m] == instances[m].matrix
  {
    seq(|instances|, m requires 0 <= m < |instances| => instances[m].matrix)
  }

  /** The packing loop of `convertGraphToUseDrawInstanced` for one model:
      the texture holds `4 * tboSize` RGBA texels, which are the 16 floats
      of each stored instance in order, and the stored matrices are kept in
      order. */
  method PackInstances(instances: seq<ModelInstance>, maxTBOSize: nat)
    returns (tboSize: nat, image: array<real>, matrices: seq<Matrix>)
    requires AllInstances(instances)
    ensures tboSize == StoredCount(|instances|, TBOCapacity(maxTBOSize)) && tboSize <= |instances|
    ensures image.Length == 4 * (4 * tboSize)
    ensures image[..] == Packed(instances[..tboSize])
    ensures matrices == MatricesOf(instances[..tboSize])
  {
    var capacity := maxTBOSize / (4 * 4 * 4);
    if |instances| < capacity {
      tboSize := |instances|;
    } else {
      tboSize := capacity;
    }
    image := new real[tboSize * 4 * 4];
    matrices := [];
    var ptr := 0;
    for m := 0 to tboSize
      invariant ptr == 16 * m
      invariant AllInstances(instances[..m])
      invariant image[..ptr] == Packed(instances[..m])
      invariant matrices == MatricesOf(instances[..m])
    {
      ghost var before := image[..ptr];
      ptr := PackOne(image, ptr, instances[m]);
      assert instances[..m + 1][..m] == instances[..m];
      assert image[..ptr] == before + InstanceTexels(instances[m]);
      assert MatricesOf(instances[..m + 1]) == MatricesOf(instances[..m]) + [instances[m].matrix];
      matrices := matrices + [instances[m].matrix];
    }
    assert image[..] == image[..ptr];
  }

  /** One instance written at `ptr`, advancing it by 16; the floats before
      `ptr` stay as they were. */
  method PackOne(image: array<real>, ptr: nat, instance: ModelInstance) returns (next: nat)
    requires ptr + 16 <= image.Length && |instance.matrix| == 16
    modifies image
    ensures next == ptr + 16
    ensures image[ptr..next] == InstanceTexels(instance)
    ensures image[..ptr] == old(image[..ptr])
  {
    var mat := instance.matrix;
    next := ptr;
    for col := 0 to 3
      invariant next == ptr + 4 * col
      invariant image[ptr..next] == Columns(mat, col)
      invariant image[..ptr] == old(image[..ptr])
    {
      ghost var before := image[..next];
      next := PackColumn(image, next, mat, col);
      assert image[ptr..next] == before[ptr..] + Column(mat, col);
    }
    var id := instance.objectID;
    ShiftedValues(id);
    ghost var cols := image[ptr..next];
    image[next] := (id % 256) as real;
    image[next + 1] := ((id / 256) % 256) as real;
    image[next + 2] := ((id / 65536) % 256) as real;
    image[next + 3] := ((id / 16777216) % 256) as real;
    assert image[ptr..next + 4] == cols + IDBytes(id);
    next := next + 4;
  }

  /** The inner loop over the rows of one column. */
  method PackColumn(image: array<real>, ptr: nat, mat: Matrix, col: nat) returns (next: nat)
    requires ptr + 4 <= image.Length && |mat| == 16 && col < 4
    modifies image
    ensures next == ptr + 4
    ensures image[..ptr] == old(image[..ptr]) && image[ptr..next] == Column(mat, col)
  {
    next := ptr;
    for row := 0 to 4
      invariant next == ptr + row
      invariant image[..ptr] == old(image[..ptr])
      invariant image[ptr..next] == Column(mat, col)[..row]
    {
      image[next] := mat[4 * row + col];
      assert Column(mat, col)[..row + 1] == Column(mat, col)[..row] + [mat[4 * row + col]];
      next := next + 1;
    }
  }

  // ---------------------------------------------------------------------
  // The conversion visitor

  /** An LOD node's range starts and ends and its children. */
  class Lod<Node> {
    var ranges: seq<(real, real)>
    var children: seq<Node>

    constructor (ranges: seq<(real, real)>, children: seq<Node>)
      ensures this.ranges == ranges && this.children == children
    {
      this.ranges := ranges;
      this.children := children;
    }
  }

  /** The index the LOD scan chooses: the first smallest range start below
      `FLT_MAX`, or 0 when there is none. */
  ghost predicate HighestLOD(ranges: seq<(real, real)>, index: nat) {
    if exists j :: 0 <= j < |ranges| && ranges[j].0 < FltMax then
      index < |ranges| && ranges[index].0 < FltMax &&
      (forall j :: 0 <= j < |ranges| ==> ranges[index].0 <= ranges[j].0) &&
      (forall j :: 0 <= j < index ==> ranges[index].0 < ranges[j].0)
    else index == 0
  }

  /** The scan over the range list for the smallest start. */
  method FindHighestLOD(ranges: seq<(real, real)>) returns (minIndex: nat)
    ensures HighestLOD(ranges, minIndex)
    ensures minIndex < |ranges| || minIndex == 0
  {
    minIndex := 0;
    var minRange := FltMax;
    for i := 0 to |ranges|
      invariant minIndex < |ranges| || minIndex == 0
      invariant minRange <= FltMax
      invariant (exists j :: 0 <= j < i && ranges[j].0 < FltMax) ==> minIndex < i && minRange == ranges[minIndex].0 && minRange < FltMax
      invariant !(exists j :: 0 <= j < i && ranges[j].0 < FltMax) ==> minIndex == 0 && minRange == FltMax
      invariant forall j :: 0 <= j < i ==> minRange <= ranges[j].0
      invariant forall j :: 0 <= j < minIndex ==> minRange < ranges[j].0
    {
      if ranges[i].0 < minRange {
        minRange := ranges[i].0;
        minIndex := i;
      }
    }
  }

  /** `ConvertToDrawInstanced::apply(osg::LOD&)`: only the child the scan
      chooses remains, with the range `[0, FLT_MAX]`. */
  method ConvertLod<Node>(lod: Lod<Node>)
    requires |lod.children| > 0 && |lod.ranges| <= |lod.children|
    modifies lod
    ensures exists i: nat :: HighestLOD(old(lod.ranges), i) && i < |old(lod.children)| && lod.children == [old(lod.children)[i]]
    ensures lod.ranges == [(0.0, FltMax)]
  {
    var minIndex := FindHighestLOD(lod.ranges);
    var highest := lod.children[minIndex];
    lod.children := [];
    lod.ranges := [];
    lod.children := lod.children + [highest];
    lod.ranges := lod.ranges + [(0.0, FltMax)];
  }

  /** A primitive set's instance count. */
  class PrimitiveSet {
    var numInstances: nat

    constructor (n: nat)
      ensures numInstances == n
    {
      numInstances := n;
    }
  }

  /** `ConvertToDrawInstanced`: the instance count it sets, the primitive
      sets it has converted and the texture unit for the buffer. */
  class Converter {
    const numInstances: nat
    var primitiveSets: seq<PrimitiveSet>
    var tboUnit: int

    constructor (numInstances: nat, defaultUnit: int)
      ensures this.numInstances == numInstances && primitiveSets == [] && tboUnit == defaultUnit
    {
      this.numInstances := numInstances;
      primitiveSets := [];
      tboUnit := defaultUnit;
    }

    /** `apply(osg::Node&)`: a state set with `numTexAttrs` texture
        attribute lists raises the unit to at least that. */
    method ApplyNode(numTexAttrs: Option<int>)
      modifies this
      ensures tboUnit == if numTexAttrs.Some? && numTexAttrs.value > old(tboUnit) then numTexAttrs.value else old(tboUnit)
      ensures tboUnit >= old(tboUnit) && (numTexAttrs.Some? ==> tboUnit >= numTexAttrs.value)
      ensures primitiveSets == old(primitiveSets)
    {
      if numTexAttrs.Some? {
        tboUnit := if tboUnit < numTexAttrs.value then numTexAttrs.value else tboUnit;
      }
    }

    /** `apply(osg::Drawable&)`: every primitive set of a geometry gets the
        instance count and is appended, in order; then the node rule. */
    method ApplyDrawable(geometry: Option<seq<PrimitiveSet>>, numTexAttrs: Option<int>)
      modifies this, if geometry.Some? then geometry.value else []
      ensures geometry.Some? ==> forall p :: p in geometry.value ==> p.numInstances == numInstances
      ensures primitiveSets == old(primitiveSets) + (if geometry.Some? then geometry.value else [])
      ensures tboUnit == if numTexAttrs.Some? && numTexAttrs.value > old(tboUnit) then numTexAttrs.value else old(tboUnit)
    {
      if geometry.Some? {
        var sets := geometry.value;
        for p := 0 to |sets|
          invariant primitiveSets == old(primitiveSets) + sets[..p]
          invariant forall q :: 0 <= q < p ==> sets[q].numInstances == numInstances
          invariant tboUnit == old(tboUnit)
        {
          sets[p].numInstances := numInstances;
          primitiveSets := primitiveSets + [sets[p]];
        }
        assert sets[..|sets|] == sets;
      }
      ApplyNode(numTexAttrs);
    }
  }

  /** The texture-buffer capacity limits what is stored, and a model that
      fits is stored whole. */
  lemma StoredCountFits(count: nat, maxTBOSize: nat)
    ensures StoredCount(count, TBOCapacity(maxTBOSize)) * 64 <= maxTBOSize
    ensures count * 64 < maxTBOSize - maxTBOSize % 64 ==> StoredCount(count, TBOCapacity(maxTBOSize)) == count
  {
  }

}
