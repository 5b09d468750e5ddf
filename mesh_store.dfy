/** The mesh store: structure-of-arrays storage of mesh names, mesh buffers,
    bounds and per-slot change masks, keyed by a UID, with the list of meshes
    changed in the current tick. An id enters that list only when its mask
    leaves `None`, so between resets every changed id is listed exactly once. */
module MeshStore {
  import opened UIDs
  import opened Storage
  import opened Geometry
  import opened MeshData

  // Change masks.
  const NoChange: bv8 := 0
  const Created: bv8 := 1
  const Destroyed: bv8 := 2

  const DummyMeshName: string := "Dummy Node"

  /** What default construction leaves in a new bounds slot; the box type's
      default constructor is not part of this model. */
  const DefaultBounds: AABB := AABB(Vec3(0.0, 0.0, 0.0), Vec3(0.0, 0.0, 0.0))

  /** The changed list and the masks agree: an id is listed iff its mask is
      not `None`, and no id is listed twice. */
  ghost predicate Ledger(changes: seq<bv8>, changed: seq<nat>) {
    && Distinct(changed)
    && (forall k :: 0 <= k < |changed| ==> changed[k] < |changes|)
    && (forall id :: 0 <= id < |changes| ==> (changes[id] != NoChange <==> id in changed))
  }

  /** Recording a change of `id` to mask `m`: the id is appended when its mask
      was `None`, and the mask becomes `m`. */
  lemma RecordKeepsLedger(changes: seq<bv8>, changed: seq<nat>, id: nat, m: bv8)
    requires Ledger(changes, changed) && id < |changes| && m != NoChange
    ensures Ledger(changes[id := m], changed + if changes[id] == NoChange then [id] else [])
  {
    var changed' := changed + if changes[id] == NoChange then [id] else [];
    forall i | 0 <= i < |changes| && i != id ensures (i in changed' <==> i in changed) { }
    if changes[id] == NoChange {
      forall k | 0 <= k < |changed| ensures changed'[k] != id {
        assert changed[k] in changed;
      }
    }
  }

  class Meshes {
    var gen: UIDGenerator
    var names: array?<string>
    var meshes: array?<Mesh>
    var bounds: array?<AABB>
    var changes: array?<bv8>
    var changed: seq<nat>

    predicate IsAllocated()
      reads this
    {
      meshes != null
    }

    function Capacity(): nat
      reads this
    {
      gen.capacity
    }

    /** Whether `id` is a live mesh. */
    predicate Has(id: nat)
      reads this
    {
      gen.Has(id)
    }

    /** Either no array exists (the generator is empty with capacity 0 and no
        change is listed), or every array has one slot per generator slot,
        the changed list agrees with the masks, and every stored mesh is well
        formed with no dangling buffer. */
    ghost predicate Valid()
      reads this, names, meshes, bounds, changes
    {
      && gen.Valid()
      && (meshes == null <==> names == null)
      && (meshes == null <==> bounds == null)
      && (meshes == null <==> changes == null)
      && (meshes == null ==> gen == NewGenerator(0) && changed == [])
      && (meshes != null ==>
            && gen.capacity >= 1
            && names.Length == gen.capacity && meshes.Length == gen.capacity
            && bounds.Length == gen.capacity && changes.Length == gen.capacity
            && MasksApart()
            && Ledger(changes[..], changed)
            && forall i :: 0 <= i < gen.capacity ==> meshes[i].WellFormed() && meshes[i].NoDangling())
    }

    /** The mask array is none of the other arrays. */
    predicate MasksApart()
      reads this
    {
      && changes as object? != names as object?
      && changes as object? != meshes as object?
      && changes as object? != bounds as object?
    }

    twostate predicate SameArrays()
      reads this
    {
      names == old(names) && meshes == old(meshes) && bounds == old(bounds) && changes == old(changes)
    }

    constructor ()
      ensures Valid() && !IsAllocated() && Capacity() == 0
    {
      gen := NewGenerator(0);
      names, meshes, bounds, changes := null, null, null, null;
      changed := [];
    }

    /** Fresh arrays of `c` slots with every mask `None`; slot 0 is the dummy
        mesh, which is empty and has the inverted box as bounds. */
    static method NewMeshArrays(c: nat)
      returns (n: array<string>, m: array<Mesh>, b: array<AABB>, ch: array<bv8>)
      requires c >= 1
      ensures fresh(n) && fresh(m) && fresh(b) && fresh(ch)
      ensures ch as object != n as object && ch as object != m as object && ch as object != b as object
      ensures n.Length == c && m.Length == c && b.Length == c && ch.Length == c
      ensures n[0] == DummyMeshName && m[0] == EmptyMesh() && b[0] == InvertedBox()
      ensures forall i :: 0 <= i < c ==> m[i] == EmptyMesh() && ch[i] == NoChange
    {
      n := new string[c](_ => "");
      m := new Mesh[c](_ => EmptyMesh());
      b := new AABB[c](_ => DefaultBounds);
      ch := new bv8[c](_ => NoChange);
      n[0] := DummyMeshName;
      m[0] := MoveAssign(m[0], EmptyMesh()).0;
      b[0] := InvertedBox();
    }

    /** No-op when allocated. Otherwise creates a generator over `capacity`
        slots and arrays of that length, every mask `None`, slot 0 the dummy. */
    method Allocate(capacity: nat)
      requires Valid()
      requires IsAllocated() || capacity >= 1
      modifies this
      ensures Valid() && IsAllocated()
      ensures old(IsAllocated()) ==> gen == old(gen) && SameArrays() && changed == old(changed)
      ensures !old(IsAllocated()) ==>
        && gen == NewGenerator(capacity) && changed == []
        && fresh(names) && fresh(meshes) && fresh(bounds) && fresh(changes)
        && names[0] == DummyMeshName && meshes[0] == EmptyMesh() && bounds[0] == InvertedBox()
        && forall i :: 0 <= i < Capacity() ==> changes[i] == NoChange && meshes[i] == EmptyMesh()
    {
      if IsAllocated() {
        return;
      }
      gen := NewGenerator(capacity);
      names, meshes, bounds, changes := NewMeshArrays(gen.capacity);
    }

    /** No-op when not allocated. Otherwise releases the buffers of every
        slot — never a double release, since no stored pointer dangles — then
        drops every array, empties the changed list and resets the generator. */
    method Deallocate()
      requires Valid()
      modifies this
      ensures Valid() && !IsAllocated()
      ensures gen == NewGenerator(0) && changed == []
      ensures old(IsAllocated()) ==> ReleaseAll(old(meshes[..]))
    {
      if !IsAllocated() {
        return;
      }
      var i := 0;
      var ok := true;
      while i < meshes.Length
        invariant 0 <= i <= meshes.Length
        invariant ok <==> forall j :: 0 <= j < i ==> meshes[j].NoDangling()
      {
        var (_, released) := DeleteBuffers(meshes[i]);
        ok := ok && released;
        i := i + 1;
      }
      assert ok;
      assert ReleaseAll(meshes[..]);
      names, meshes, bounds, changes := null, null, null, null;
      changed := [];
      gen := NewGenerator(0);
    }

    /** Replaces every array by one of `newCapacity` slots holding the first
        min(newCapacity, oldCapacity) slots of the old one; new masks are `None`. */
    method ReserveMeshData(newCapacity: nat, oldCapacity: nat)
      requires names != null && meshes != null && bounds != null && changes != null
      requires names.Length == oldCapacity && meshes.Length == oldCapacity
      requires bounds.Length == oldCapacity && changes.Length == oldCapacity
      modifies this
      ensures gen == old(gen) && changed == old(changed)
      ensures fresh(names) && fresh(meshes) && fresh(bounds) && fresh(changes) && MasksApart()
      ensures names.Length == newCapacity && meshes.Length == newCapacity
      ensures bounds.Length == newCapacity && changes.Length == newCapacity
      ensures var k := Min(newCapacity, oldCapacity);
        && names[..k] == old(names[..k]) && meshes[..k] == old(meshes[..k])
        && bounds[..k] == old(bounds[..k]) && changes[..k] == old(changes[..k])
      ensures forall i :: Min(newCapacity, oldCapacity) <= i < newCapacity ==>
        meshes[i] == EmptyMesh() && changes[i] == NoChange
    {
      var copyable := Min(newCapacity, oldCapacity);
      names := ResizeAndCopy(names, newCapacity, copyable, "");
      meshes := ResizeAndCopy(meshes, newCapacity, copyable, EmptyMesh());
      bounds := ResizeAndCopy(bounds, newCapacity, copyable, DefaultBounds);
      // The fill value `NoChange` stands for the `memset` that clears the new masks.
      changes := ResizeAndCopy(changes, newCapacity, copyable, NoChange);
    }

    /** Installs `g`, which has at least as many slots, and reallocates every
        array to its capacity, keeping every existing slot. */
    method ResizeTo(g: UIDGenerator)
      requires Valid() && IsAllocated() && g.Valid() && g.capacity >= Capacity()
      modifies this
      ensures Valid() && IsAllocated() && gen == g && changed == old(changed)
      ensures fresh(names) && fresh(meshes) && fresh(bounds) && fresh(changes)
      ensures forall i :: 0 <= i < old(Capacity()) ==>
        && names[i] == old(names[i]) && meshes[i] == old(meshes[i])
        && bounds[i] == old(bounds[i]) && changes[i] == old(changes[i])
      ensures forall i :: old(Capacity()) <= i < Capacity() ==> changes[i] == NoChange
    {
      var oldCapacity := Capacity();
      ghost var oldNames, oldMeshes, oldBounds, oldChanges := names[..], meshes[..], bounds[..], changes[..];
      gen := g;
      ReserveMeshData(gen.capacity, oldCapacity);
      assert Min(gen.capacity, oldCapacity) == oldCapacity;
      forall i | 0 <= i < oldCapacity
        ensures names[i] == oldNames[i] && meshes[i] == oldMeshes[i]
        ensures bounds[i] == oldBounds[i] && changes[i] == oldChanges[i]
      {
        assert names[..oldCapacity][i] == oldNames[..oldCapacity][i];
        assert meshes[..oldCapacity][i] == oldMeshes[..oldCapacity][i];
        assert bounds[..oldCapacity][i] == oldBounds[..oldCapacity][i];
        assert changes[..oldCapacity][i] == oldChanges[..oldCapacity][i];
      }
      assert changes[..oldCapacity] == oldChanges;
      GrownLedger(oldChanges, changes[..], changed);
    }

    /** Growing the masks by `None` entries keeps the ledger. */
    static lemma GrownLedger(before: seq<bv8>, after: seq<bv8>, changed: seq<nat>)
      requires Ledger(before, changed) && |before| <= |after|
      requires after[..|before|] == before
      requires forall i :: |before| <= i < |after| ==> after[i] == NoChange
      ensures Ledger(after, changed)
    {
      forall i | 0 <= i < |before| ensures after[i] == before[i] {
        assert after[..|before|][i] == before[i];
      }
    }

    /** Grows the generator to at least `newCapacity` and the arrays with it. */
    method Reserve(newCapacity: nat)
      requires Valid() && IsAllocated()
      modifies this
      ensures Valid() && IsAllocated()
      ensures gen == old(gen).Reserve(newCapacity)
      ensures Capacity() >= newCapacity && Capacity() >= old(Capacity())
      ensures forall i :: 0 <= i < old(Capacity()) ==>
        && names[i] == old(names[i]) && meshes[i] == old(meshes[i])
        && bounds[i] == old(bounds[i]) && changes[i] == old(changes[i])
      ensures changed == old(changed)
    {
      ResizeTo(gen.Reserve(newCapacity));
    }

    /** Hands out a fresh id, growing the arrays when the generator grew, and
        fills its slot: the name, a new mesh with the flagged buffers, the
        all-encompassing box, and the mask exactly `Created`. */
    method Create(name: string, indexCount: nat, vertexCount: nat, flags: bv8) returns (id: nat)
      requires Valid() && IsAllocated()
      modifies this, names, meshes, bounds, changes
      ensures Valid() && IsAllocated()
      ensures (gen, id) == old(gen).Generate()
      ensures old(gen).HasFreeSlot() ==> SameArrays()
      ensures !old(gen).HasFreeSlot() ==> fresh(names) && fresh(meshes) && fresh(bounds) && fresh(changes)
      ensures names[id] == name && meshes[id] == NewMeshWithFlags(indexCount, vertexCount, flags)
      ensures bounds[id] == EncompassingBox() && changes[id] == Created
      ensures changed == old(changed) + if id < old(Capacity()) && old(changes[id]) != NoChange then [] else [id]
      ensures forall i :: 0 <= i < old(Capacity()) && i != id ==>
        && names[i] == old(names[i]) && meshes[i] == old(meshes[i])
        && bounds[i] == old(bounds[i]) && changes[i] == old(changes[i])
    {
      var oldCapacity := gen.capacity;
      var (g, newID) := gen.Generate();
      if oldCapacity != g.capacity {
        ResizeTo(g);
      } else {
        gen := g;
      }
      id := newID;
      if changes[id] == NoChange {
        changed := changed + [id];
      }
      RecordKeepsLedger(old(changes[..]) + changes[oldCapacity..], old(changed), id, Created);
      FillSlot(id, name, NewMeshWithFlags(indexCount, vertexCount, flags));
    }

    /** Writes slot `id` of a fresh mesh: its name, its mesh, the
        all-encompassing box and the mask `Created`. */
    method FillSlot(id: nat, name: string, mesh: Mesh)
      requires names != null && meshes != null && bounds != null && changes != null
      requires id < names.Length && id < meshes.Length && id < bounds.Length && id < changes.Length
      requires MasksApart()
      modifies names, meshes, bounds, changes
      ensures names[..] == old(names[..])[id := name] && meshes[..] == old(meshes[..])[id := mesh]
      ensures bounds[..] == old(bounds[..])[id := EncompassingBox()]
      ensures changes[..] == old(changes[..])[id := Created]
    {
      names[id] := name;
      meshes[id] := MoveAssign(meshes[id], mesh).0;
      bounds[id] := EncompassingBox();
      changes[id] := Created;
    }

    /** Erases the id; if it was live, releases its buffers and resets their
        pointers to null, lists it as changed when its mask was `None` and
        adds `Destroyed` to the mask. Without the reset, the release loop of
        `Deallocate` would release the same buffers a second time
        (`DestroyThenDeallocateAsWritten`). */
    method Destroy(id: nat)
      requires Valid()
      modifies this, meshes, changes
      ensures Valid() && SameArrays()
      ensures var (g, wasLive) := old(gen).Erase(id);
        && gen == g
        && (!wasLive ==> changed == old(changed))
        && (!wasLive && IsAllocated() ==> meshes[..] == old(meshes[..]) && changes[..] == old(changes[..]))
        && (wasLive ==>
              && meshes[..] == old(meshes[..])[id := ReleaseBuffers(old(meshes[id])).0]
              && changes[..] == old(changes[..])[id := old(changes[id]) | Destroyed]
              && changed == old(changed) + if old(changes[id]) == NoChange then [id] else [])
    {
      var (g, wasLive) := gen.Erase(id);
      gen := g;
      if wasLive {
        var (released, _) := ReleaseBuffers(meshes[id]);
        meshes[id] := released;
        RecordKeepsLedger(changes[..], changed, id, changes[id] | Destroyed);
        if changes[id] == NoChange {
          changed := changed + [id];
        }
        changes[id] := changes[id] | Destroyed;
      }
    }

    /** Folds the positions of mesh `id` into their bounding box, stores it as
        the mesh's bounds and returns it. Reads the first position, so the
        mesh must have one. */
    method ComputeBounds(id: nat) returns (box: AABB)
      requires Valid() && IsAllocated() && id < Capacity()
      requires meshes[id].positions.Owned? && meshes[id].vertexCount >= 1
      modifies bounds
      ensures Valid()
      ensures box == Hull(meshes[id].positions.data)
      ensures bounds[..] == old(bounds[..])[id := box]
    {
      var positions := meshes[id].positions.data;
      box := AABB(positions[0], positions[0]);
      var i := 1;
      while i < meshes[id].vertexCount
        invariant 1 <= i <= |positions|
        invariant box == Hull(positions[..i])
      {
        assert positions[..i + 1][..i] == positions[..i];
        box := GrowToContain(box, positions[i]);
        i := i + 1;
      }
      assert positions[..i] == positions;
      bounds[id] := box;
    }

    /** Clears every mask to `None` and empties the changed list; on an
        unallocated store only the (already empty) list is reset. */
    method ResetChangeNotifications()
      requires Valid()
      modifies this`changed, changes
      ensures Valid() && IsAllocated() == old(IsAllocated())
      ensures changed == []
      ensures changes != null ==> forall i :: 0 <= i < changes.Length ==> changes[i] == NoChange
    {
      if changes != null {
        forall i | 0 <= i < changes.Length {
          changes[i] := NoChange;
        }
      }
      changed := [];
    }

    function GetName(id: nat): string
      reads this, names
      requires names != null && id < names.Length
    {
      names[id]
    }

    /** Renames one mesh; a later `GetName(id)` returns the new name. */
    method SetName(id: nat, name: string)
      requires Valid() && IsAllocated() && id < Capacity()
      modifies names
      ensures Valid()
      ensures GetName(id) == name
      ensures forall i :: 0 <= i < names.Length && i != id ==> GetName(i) == old(GetName(i))
    {
      names[id] := name;
    }

    function GetBounds(id: nat): AABB
      reads this, bounds
      requires bounds != null && id < bounds.Length
    {
      bounds[id]
    }

    /** Sets the bounds of one mesh; a later `GetBounds(id)` returns them. */
    method SetBounds(id: nat, box: AABB)
      requires Valid() && IsAllocated() && id < Capacity()
      modifies bounds
      ensures Valid()
      ensures GetBounds(id) == box
      ensures forall i :: 0 <= i < bounds.Length && i != id ==> GetBounds(i) == old(GetBounds(i))
    {
      bounds[id] := box;
    }

    function GetMesh(id: nat): Mesh
      reads this, meshes
      requires meshes != null && id < meshes.Length
    {
      meshes[id]
    }
  }

  /** The bounds `ComputeBounds` stores contain every position of the mesh,
      and each of their six faces touches one of them. */
  lemma ComputedBoundsTight(positions: seq<Vec3>)
    requires |positions| >= 1
    ensures forall i :: 0 <= i < |positions| ==> Contains(Hull(positions), positions[i])
    ensures forall k :: 0 <= k < 3 ==>
      LowAttained(positions, Hull(positions), k) && HighAttained(positions, Hull(positions), k)
  {
    HullContains(positions);
    HullAttained(positions);
  }

  /** The release loop of `Deallocate` over every slot: false when some
      release is a double release. */
  function ReleaseAll(ms: seq<Mesh>): (ok: bool)
    ensures ok <==> forall i :: 0 <= i < |ms| ==> ms[i].NoDangling()
  {
    if |ms| == 0 then true
    else
      var rest := ReleaseAll(ms[1..]);
      assert forall i :: 1 <= i < |ms| ==> ms[i] == ms[1..][i - 1];
      DeleteBuffers(ms[0]).1 && rest
  }

  /** The buffer release of `destroy` as written: `delete[]` of the four
      pointers, which are left as they were. */
  function DestroyBuffersAsWritten(ms: seq<Mesh>, id: nat): (r: seq<Mesh>)
    requires id < |ms|
    ensures |r| == |ms| && r[id] == DeleteBuffers(ms[id]).0
    ensures forall i :: 0 <= i < |ms| && i != id ==> r[i] == ms[i]
  {
    ms[id := DeleteBuffers(ms[id]).0]
  }

  /** As written, destroying a mesh and then deallocating the store releases
      that mesh's index buffer twice. */
  lemma DestroyThenDeallocateAsWritten(ms: seq<Mesh>, id: nat)
    requires id < |ms| && ms[id].NoDangling() && ms[id].indices.Owned?
    ensures !ReleaseAll(DestroyBuffersAsWritten(ms, id))
  {
    assert !DestroyBuffersAsWritten(ms, id)[id].NoDangling();
  }

  /** With the pointers reset after the release, as `Meshes.Destroy` does,
      the later release in `Deallocate` is harmless. */
  lemma DestroyThenDeallocateCorrected(ms: seq<Mesh>, id: nat)
    requires id < |ms| && forall i :: 0 <= i < |ms| ==> ms[i].NoDangling()
    ensures ReleaseAll(ms[id := ReleaseBuffers(ms[id]).0])
  {
    var after := ms[id := ReleaseBuffers(ms[id]).0];
    assert forall i :: 0 <= i < |after| ==> after[i].NoDangling();
  }
}
