/** Combining two stored meshes into a new one. Applying a transform to a
    position, and its rotation to a normal, is floating-point math outside
    this model: both are parameters. */
module MeshUtils {
  import opened UIDs
  import opened Geometry
  import opened MeshData
  import opened MeshStore
  import opened Transforms

  const CombinedMeshName: string := "Combined mesh"

  /** Each buffer flag is set iff both meshes have that buffer. */
  function CombinedFlags(mesh0: Mesh, mesh1: Mesh): (flags: bv8)
    ensures flags & PositionFlag != 0 <==> NonNull(mesh0.positions) && NonNull(mesh1.positions)
    ensures flags & NormalFlag != 0 <==> NonNull(mesh0.normals) && NonNull(mesh1.normals)
    ensures flags & TexcoordsFlag != 0 <==> NonNull(mesh0.texcoords) && NonNull(mesh1.texcoords)
  {
    var p := if NonNull(mesh0.positions) && NonNull(mesh1.positions) then PositionFlag else NoFlags;
    var n := if NonNull(mesh0.normals) && NonNull(mesh1.normals) then NormalFlag else NoFlags;
    var t := if NonNull(mesh0.texcoords) && NonNull(mesh1.texcoords) then TexcoordsFlag else NoFlags;
    p | n | t
  }

  /** A triangle's indices moved up by `offset`, in 32-bit unsigned arithmetic. */
  function OffsetIndex(t: Index3, offset: nat): Index3 {
    Index3((t.i0 + offset) % U32Modulus, (t.i1 + offset) % U32Modulus, (t.i2 + offset) % U32Modulus)
  }

  /** The first `n` elements of a buffer; a buffer read for zero elements may be null. */
  function Elements<T>(b: Buf<T>, n: nat): (s: seq<T>)
    requires n == 0 || (b.Owned? && n <= |b.data|)
    ensures |s| == n
  {
    if n == 0 then [] else b.data[..n]
  }

  /** The first mesh's triangles unchanged, then the second's with every
      index moved past the first mesh's vertices. */
  method CombineIndices(first: seq<Index3>, second: seq<Index3>, offset: nat) returns (r: seq<Index3>)
    ensures |r| == |first| + |second| && r[..|first|] == first
    ensures forall i :: 0 <= i < |second| ==> r[|first| + i] == OffsetIndex(second[i], offset)
  {
    r := first;
    var i := 0;
    while i < |second|
      invariant 0 <= i <= |second| && |r| == |first| + i && r[..|first|] == first
      invariant forall j :: 0 <= j < i ==> r[|first| + j] == OffsetIndex(second[j], offset)
    {
      r := r + [OffsetIndex(second[i], offset)];
      i := i + 1;
    }
  }

  /** The elements of `first` mapped by `f`, then those of `second` mapped
      by `g`, written through one walking output position. */
  method MapConcat<V>(first: seq<V>, f: V -> V, second: seq<V>, g: V -> V) returns (r: seq<V>)
    ensures |r| == |first| + |second|
    ensures forall i :: 0 <= i < |first| ==> r[i] == f(first[i])
    ensures forall i :: 0 <= i < |second| ==> r[|first| + i] == g(second[i])
  {
    r := [];
    var v := 0;
    while v < |first|
      invariant 0 <= v <= |first| && |r| == v
      invariant forall i :: 0 <= i < v ==> r[i] == f(first[i])
    {
      r := r + [f(first[v])];
      v := v + 1;
    }
    v := 0;
    while v < |second|
      invariant 0 <= v <= |second| && |r| == |first| + v
      invariant forall i :: 0 <= i < |first| ==> r[i] == f(first[i])
      invariant forall i :: 0 <= i < v ==> r[|first| + i] == g(second[i])
    {
      r := r + [g(second[v])];
      v := v + 1;
    }
  }

  /** A stored mesh whose indices and positions `Combine` can read. */
  predicate Readable(m: Mesh) {
    && m.WellFormed() && m.NoDangling()
    && (m.indexCount == 0 || m.indices.Owned?) && m.positions.Owned?
  }

  /** What `Combine` stores for the new mesh, given the two inputs. */
  ghost predicate CombinedFrom(r: Mesh, mesh0: Mesh, transform0: Transform, mesh1: Mesh, transform1: Transform,
                               apply: (Transform, Vec3) -> Vec3, rotate: (Transform, Vec3) -> Vec3)
    requires Readable(mesh0) && Readable(mesh1)
  {
    && r.indexCount == mesh0.indexCount + mesh1.indexCount
    && r.vertexCount == mesh0.vertexCount + mesh1.vertexCount
    // Indices: the first mesh's unchanged, the second's offset by the first's vertex count.
    && r.indices.Owned? && |r.indices.data| == r.indexCount
    && (mesh0.indexCount > 0 ==> r.indices.data[..mesh0.indexCount] == mesh0.indices.data)
    && (forall i :: 0 <= i < mesh1.indexCount ==>
          r.indices.data[mesh0.indexCount + i] == OffsetIndex(mesh1.indices.data[i], mesh0.vertexCount))
    // Positions: each mesh's, under its own transform.
    && r.positions.Owned? && |r.positions.data| == r.vertexCount
    && (forall v :: 0 <= v < mesh0.vertexCount ==>
          r.positions.data[v] == apply(transform0, mesh0.positions.data[v]))
    && (forall v :: 0 <= v < mesh1.vertexCount ==>
          r.positions.data[mesh0.vertexCount + v] == apply(transform1, mesh1.positions.data[v]))
    // Normals: present iff both have them; each mesh's, under its own rotation.
    && (NonNull(r.normals) <==> NonNull(mesh0.normals) && NonNull(mesh1.normals))
    && (r.normals.Owned? ==>
          && |r.normals.data| == r.vertexCount
          && (forall v :: 0 <= v < mesh0.vertexCount ==>
                r.normals.data[v] == rotate(transform0, mesh0.normals.data[v]))
          && (forall v :: 0 <= v < mesh1.vertexCount ==>
                r.normals.data[mesh0.vertexCount + v] == rotate(transform1, mesh1.normals.data[v])))
    // Texture coordinates: present iff both have them; the first's, then the second's.
    && (NonNull(r.texcoords) <==> NonNull(mesh0.texcoords) && NonNull(mesh1.texcoords))
    && (r.texcoords.Owned? ==> r.texcoords.data == mesh0.texcoords.data + mesh1.texcoords.data)
  }

  /** Fills the buffers of `created`, the mesh `Combine` has just created
      with the combined counts and flags. */
  method FillCombined(mesh0: Mesh, transform0: Transform, mesh1: Mesh, transform1: Transform,
                      apply: (Transform, Vec3) -> Vec3, rotate: (Transform, Vec3) -> Vec3,
                      created: Mesh) returns (r: Mesh)
    requires Readable(mesh0) && Readable(mesh1)
    requires created == NewMeshWithFlags(mesh0.indexCount + mesh1.indexCount,
                                         mesh0.vertexCount + mesh1.vertexCount, CombinedFlags(mesh0, mesh1))
    ensures r.WellFormed() && r.NoDangling()
    ensures CombinedFrom(r, mesh0, transform0, mesh1, transform1, apply, rotate)
  {
    var meshFlags := CombinedFlags(mesh0, mesh1);
    var indices := CombineIndices(Elements(mesh0.indices, mesh0.indexCount),
                                  Elements(mesh1.indices, mesh1.indexCount), mesh0.vertexCount);
    var positions := MapConcat(mesh0.positions.data, p => apply(transform0, p),
                               mesh1.positions.data, p => apply(transform1, p));
    var normals := created.normals;
    if meshFlags & NormalFlag != 0 {
      var rotated := MapConcat(mesh0.normals.data, n => rotate(transform0, n),
                               mesh1.normals.data, n => rotate(transform1, n));
      normals := Owned(rotated);
    }
    var texcoords := created.texcoords;
    if meshFlags & TexcoordsFlag != 0 {
      texcoords := Owned(mesh0.texcoords.data + mesh1.texcoords.data);
    }
    r := Mesh(created.indexCount, created.vertexCount, Owned(indices), Owned(positions), normals, texcoords);
  }

  /** Creates "Combined mesh" from two stored meshes and returns its id: the
      buffers are concatenated, the second mesh's indices offset, positions
      and normals transformed, and the bounds computed from the positions.
      Positions are written unconditionally and the bounds read the first
      one, so both inputs must hold positions and together at least one vertex. */
  method Combine(store: Meshes, mesh0ID: nat, transform0: Transform, mesh1ID: nat, transform1: Transform,
                 apply: (Transform, Vec3) -> Vec3, rotate: (Transform, Vec3) -> Vec3)
    returns (resultID: nat)
    requires store.Valid() && store.IsAllocated()
    requires mesh0ID < store.Capacity() && mesh1ID < store.Capacity()
    requires store.meshes[mesh0ID].indexCount == 0 || store.meshes[mesh0ID].indices.Owned?
    requires store.meshes[mesh1ID].indexCount == 0 || store.meshes[mesh1ID].indices.Owned?
    requires store.meshes[mesh0ID].positions.Owned? && store.meshes[mesh1ID].positions.Owned?
    requires store.meshes[mesh0ID].vertexCount + store.meshes[mesh1ID].vertexCount >= 1
    modifies store, store.names, store.meshes, store.bounds, store.changes
    ensures store.Valid() && store.IsAllocated()
    ensures (store.gen, resultID) == old(store.gen).Generate()
    ensures store.names[resultID] == CombinedMeshName && store.changes[resultID] == Created
    ensures CombinedFrom(store.meshes[resultID], old(store.meshes[mesh0ID]), transform0,
                         old(store.meshes[mesh1ID]), transform1, apply, rotate)
    ensures store.bounds[resultID] == Hull(store.meshes[resultID].positions.data)
    ensures store.changed == old(store.changed) +
      if resultID < old(store.Capacity()) && old(store.changes[resultID]) != NoChange then [] else [resultID]
    ensures forall i :: 0 <= i < old(store.Capacity()) && i != resultID ==>
      && store.names[i] == old(store.names[i]) && store.meshes[i] == old(store.meshes[i])
      && store.bounds[i] == old(store.bounds[i]) && store.changes[i] == old(store.changes[i])
  {
    var mesh0 := store.meshes[mesh0ID];
    var mesh1 := store.meshes[mesh1ID];
    assert Readable(mesh0) && Readable(mesh1);

    var indexCount := mesh0.indexCount + mesh1.indexCount;
    var vertexCount := mesh0.vertexCount + mesh1.vertexCount;
    var meshFlags := CombinedFlags(mesh0, mesh1);
    resultID := store.Create(CombinedMeshName, indexCount, vertexCount, meshFlags);
    var combined := FillCombined(mesh0, transform0, mesh1, transform1, apply, rotate, store.meshes[resultID]);
    store.meshes[resultID] := combined;
    var _ := store.ComputeBounds(resultID);
  }
}
