/** The `Mesh` buffer owner: two counts and four buffers (indices, positions,
    normals, texture coordinates). A buffer pointer is null, owns live
    storage, or dangles after its storage was released without the pointer
    being reset. Meshes are values here; the move operations return both the
    new target and the emptied source. */
module MeshData {
  import opened Geometry

  const U32Modulus: nat := 0x1_0000_0000

  /** An `unsigned int`. */
  type U32 = x: nat | x < U32Modulus

  /** A triangle: three vertex indices. */
  datatype Index3 = Index3(i0: U32, i1: U32, i2: U32)

  datatype Buf<T> = Null | Owned(data: seq<T>) | Dangling

  predicate NonNull<T>(b: Buf<T>) {
    !b.Null?
  }

  /** `delete[]` of a buffer pointer: releasing null does nothing, releasing
      live storage leaves the pointer dangling, and releasing a dangling
      pointer is a double release (`false`). */
  function Delete<T>(b: Buf<T>): (r: (Buf<T>, bool))
    ensures r.1 <==> !b.Dangling?
    ensures r.0.Null? <==> b.Null?
    ensures b.Owned? ==> r.0.Dangling?
  {
    match b
    case Null => (Null, true)
    case Owned(_) => (Dangling, true)
    case Dangling => (Dangling, false)
  }

  datatype Mesh = Mesh(indexCount: nat, vertexCount: nat,
                       indices: Buf<Index3>, positions: Buf<Vec3>,
                       normals: Buf<Vec3>, texcoords: Buf<Vec2>)
  {
    /** Every live buffer has as many elements as its count says. */
    predicate WellFormed() {
      && (indices.Owned? ==> |indices.data| == indexCount)
      && (positions.Owned? ==> |positions.data| == vertexCount)
      && (normals.Owned? ==> |normals.data| == vertexCount)
      && (texcoords.Owned? ==> |texcoords.data| == vertexCount)
    }

    /** No buffer pointer dangles. */
    predicate NoDangling() {
      !indices.Dangling? && !positions.Dangling? && !normals.Dangling? && !texcoords.Dangling?
    }
  }

  // Buffer flags of the three-argument mesh constructor.
  const NoFlags: bv8 := 0
  const PositionFlag: bv8 := 1
  const NormalFlag: bv8 := 2
  const TexcoordsFlag: bv8 := 4
  const AllBuffers: bv8 := 7

  /** The default mesh: no elements and no buffers. */
  function EmptyMesh(): (m: Mesh)
    ensures m.indexCount == 0 && m.vertexCount == 0
    ensures m.indices.Null? && m.positions.Null? && m.normals.Null? && m.texcoords.Null?
  {
    Mesh(0, 0, Null, Null, Null, Null)
  }

  function Zeros<T>(n: nat, zero: T): (s: seq<T>)
    ensures |s| == n && forall i :: 0 <= i < n ==> s[i] == zero
  {
    seq(n, _ => zero)
  }

  /** A mesh that owns an index buffer of `indexCount` triangles, and a
      vertex buffer of `vertexCount` elements for each attribute whose flag
      is set. Element values are not specified by the constructor; they are
      zero here. */
  function NewMeshWithFlags(indexCount: nat, vertexCount: nat, flags: bv8): (m: Mesh)
    ensures m.WellFormed() && m.NoDangling()
    ensures m.indexCount == indexCount && m.vertexCount == vertexCount && m.indices.Owned?
    ensures m.positions.Owned? <==> flags & PositionFlag != 0
    ensures m.normals.Owned? <==> flags & NormalFlag != 0
    ensures m.texcoords.Owned? <==> flags & TexcoordsFlag != 0
    ensures m.positions.Null? <==> flags & PositionFlag == 0
    ensures m.normals.Null? <==> flags & NormalFlag == 0
    ensures m.texcoords.Null? <==> flags & TexcoordsFlag == 0
  {
    var zero3 := Vec3(0.0, 0.0, 0.0);
    Mesh(indexCount, vertexCount,
         Owned(Zeros(indexCount, Index3(0, 0, 0))),
         if flags & PositionFlag != 0 then Owned(Zeros(vertexCount, zero3)) else Null,
         if flags & NormalFlag != 0 then Owned(Zeros(vertexCount, zero3)) else Null,
         if flags & TexcoordsFlag != 0 then Owned(Zeros(vertexCount, Vec2(0.0, 0.0))) else Null)
  }

  /** The two-argument constructor: every buffer is allocated. */
  function NewMesh(indexCount: nat, vertexCount: nat): (m: Mesh)
    ensures m.WellFormed() && m.NoDangling()
    ensures m.indexCount == indexCount && m.vertexCount == vertexCount
    ensures m.indices.Owned? && |m.indices.data| == indexCount
    ensures m.positions.Owned? && |m.positions.data| == vertexCount
    ensures m.normals.Owned? && |m.normals.data| == vertexCount
    ensures m.texcoords.Owned? && |m.texcoords.data| == vertexCount
  {
    NewMeshWithFlags(indexCount, vertexCount, AllBuffers)
  }

  /** Move construction: the new mesh takes the counts and buffers of
      `other`, which is left empty. Returns (new mesh, other afterwards). */
  function MoveConstruct(other: Mesh): (r: (Mesh, Mesh))
    ensures r.0 == other && r.1 == EmptyMesh()
  {
    (Mesh(other.indexCount, other.vertexCount, other.indices, other.positions, other.normals, other.texcoords),
     Mesh(0, 0, Null, Null, Null, Null))
  }

  /** Move assignment: the target takes the counts and buffers of `other`,
      which is left empty. The target's previous buffers are dropped without
      being released (see `MoveAssignDropsTarget`). Returns (target
      afterwards, other afterwards). */
  function MoveAssign(target: Mesh, other: Mesh): (r: (Mesh, Mesh))
    ensures r.0 == other && r.1 == EmptyMesh()
  {
    (Mesh(other.indexCount, other.vertexCount, other.indices, other.positions, other.normals, other.texcoords),
     Mesh(0, 0, Null, Null, Null, Null))
  }

  /** Move assignment neither reads nor releases the target's buffers: the
      outcome is the same whatever the target held. */
  lemma MoveAssignDropsTarget(target: Mesh, other: Mesh)
    ensures MoveAssign(target, other) == MoveAssign(EmptyMesh(), other)
  {
  }

  /** Moving out and back in restores the original mesh. */
  lemma MoveRoundTrip(m: Mesh)
    ensures var (moved, emptied) := MoveConstruct(m); MoveAssign(emptied, moved).0 == m
  {
  }

  /** `delete[]` of all four buffer pointers, leaving the pointers as they
      are; `false` when some pointer already dangled. */
  function DeleteBuffers(m: Mesh): (r: (Mesh, bool))
    ensures r.1 <==> m.NoDangling()
    ensures r.0.indexCount == m.indexCount && r.0.vertexCount == m.vertexCount
    ensures NonNull(r.0.indices) <==> NonNull(m.indices)
    ensures NonNull(r.0.positions) <==> NonNull(m.positions)
    ensures NonNull(r.0.normals) <==> NonNull(m.normals)
    ensures NonNull(r.0.texcoords) <==> NonNull(m.texcoords)
    ensures !r.0.indices.Owned? && !r.0.positions.Owned? && !r.0.normals.Owned? && !r.0.texcoords.Owned?
  {
    var (i, ok0) := Delete(m.indices);
    var (p, ok1) := Delete(m.positions);
    var (n, ok2) := Delete(m.normals);
    var (t, ok3) := Delete(m.texcoords);
    (Mesh(m.indexCount, m.vertexCount, i, p, n, t), ok0 && ok1 && ok2 && ok3)
  }

  /** `delete[]` of all four buffer pointers, each pointer then reset to null. */
  function ReleaseBuffers(m: Mesh): (r: (Mesh, bool))
    ensures r.1 <==> m.NoDangling()
    ensures r.0.indexCount == m.indexCount && r.0.vertexCount == m.vertexCount
    ensures r.0.indices.Null? && r.0.positions.Null? && r.0.normals.Null? && r.0.texcoords.Null?
  {
    var (released, ok) := DeleteBuffers(m);
    (released.(indices := Null, positions := Null, normals := Null, texcoords := Null), ok)
  }
}
