/** The mesh model store: join records of a scene node, a mesh and a material,
    keyed by a UID, with the created and destroyed lists of the current tick.
    A destroyed model keeps its record, readable until the change
    notifications are reset. */
module MeshModelStore {
  import opened UIDs
  import opened Storage

  // Model properties.
  const NoProperties: bv32 := 0
  const DestroyedProperty: bv32 := 2

  datatype MeshModel = MeshModel(sceneNodeID: nat, meshID: nat, materialID: nat, properties: bv32)

  /** The record of the dummy slot: every reference is the invalid id. */
  const DummyModel: MeshModel := MeshModel(InvalidUID, InvalidUID, InvalidUID, NoProperties)

  class MeshModels {
    var gen: UIDGenerator
    var models: array?<MeshModel>

    // Change notifications of the current tick.
    var created: seq<nat>
    var destroyed: seq<nat>

    predicate IsAllocated()
      reads this
    {
      models != null
    }

    function Capacity(): nat
      reads this
    {
      gen.capacity
    }

    predicate Has(id: nat)
      reads this
    {
      gen.Has(id)
    }

    /** Either the record array is absent (deallocated: the generator is
        empty with capacity 0 and no change is recorded), or it has one
        record per generator slot. */
    ghost predicate Valid()
      reads this
    {
      && gen.Valid()
      && (models == null ==> gen == NewGenerator(0) && created == [] && destroyed == [])
      && (models != null ==> gen.capacity >= 1 && models.Length == gen.capacity)
    }

    /** The dummy slot still holds the record with invalid references. */
    ghost predicate SentinelIntact()
      reads this, models
      requires Valid() && IsAllocated()
    {
      models[InvalidUID] == DummyModel
    }

    function GetModel(id: nat): MeshModel
      reads this, models
      requires Valid() && IsAllocated() && id < Capacity()
    {
      models[id]
    }

    function GetSceneNodeID(id: nat): nat
      reads this, models
      requires Valid() && IsAllocated() && id < Capacity()
    {
      models[id].sceneNodeID
    }

    function GetMeshID(id: nat): nat
      reads this, models
      requires Valid() && IsAllocated() && id < Capacity()
    {
      models[id].meshID
    }

    function GetMaterialID(id: nat): nat
      reads this, models
      requires Valid() && IsAllocated() && id < Capacity()
    {
      models[id].materialID
    }

    /** The store before its first allocation. */
    constructor ()
      ensures Valid() && !IsAllocated() && Capacity() == 0
    {
      gen := NewGenerator(0);
      models := null;
      created, destroyed := [], [];
    }

    /** No-op when allocated. Otherwise creates a generator over `capacity`
        slots and a record array of that length whose slot 0 is the dummy. */
    method Allocate(capacity: nat)
      requires Valid()
      requires IsAllocated() || capacity >= 1
      modifies this
      ensures Valid() && IsAllocated()
      ensures old(IsAllocated()) ==>
        gen == old(gen) && models == old(models) && created == old(created) && destroyed == old(destroyed)
      ensures !old(IsAllocated()) ==>
        && gen == NewGenerator(capacity) && fresh(models) && SentinelIntact()
        && created == [] && destroyed == []
    {
      if IsAllocated() {
        return;
      }
      gen := NewGenerator(capacity);
      models := new MeshModel[capacity](_ => DummyModel);
    }

    /** No-op when not allocated. Otherwise drops the records, resets the
        generator to capacity 0 and empties the change lists. */
    method Deallocate()
      requires Valid()
      modifies this
      ensures Valid() && !IsAllocated() && Capacity() == 0
      ensures gen == NewGenerator(0) && created == [] && destroyed == []
    {
      if !IsAllocated() {
        return;
      }
      gen := NewGenerator(0);
      models := null;
      created, destroyed := [], [];
    }

    /** Installs the generator `g`, which has at least as many slots, and
        reallocates the record array to its capacity, keeping every record. */
    method ResizeTo(g: UIDGenerator)
      requires Valid() && IsAllocated() && g.Valid() && g.capacity >= Capacity()
      modifies this
      ensures Valid() && IsAllocated() && gen == g && fresh(models)
      ensures models[..old(Capacity())] == old(models[..])
      ensures created == old(created) && destroyed == old(destroyed)
    {
      var oldCapacity := Capacity();
      gen := g;
      models := ResizeAndCopy(models, gen.capacity, oldCapacity, DummyModel);
    }

    /** Grows the generator to at least `newCapacity` and the records with
        it; a smaller request changes no capacity. Every record is kept. */
    method Reserve(newCapacity: nat)
      requires Valid() && IsAllocated()
      modifies this
      ensures Valid() && IsAllocated()
      ensures gen == old(gen).Reserve(newCapacity)
      ensures Capacity() >= newCapacity && Capacity() >= old(Capacity())
      ensures newCapacity <= old(Capacity()) ==> Capacity() == old(Capacity())
      ensures models[..old(Capacity())] == old(models[..])
      ensures created == old(created) && destroyed == old(destroyed)
    {
      ResizeTo(gen.Reserve(newCapacity));
    }

    /** Writes the record of `id`, leaving every other record as it was. */
    method SetModel(id: nat, model: MeshModel)
      requires Valid() && IsAllocated() && id < Capacity()
      modifies models
      ensures Valid() && GetModel(id) == model
      ensures forall i :: 0 <= i < Capacity() && i != id ==> GetModel(i) == old(GetModel(i))
    {
      models[id] := model;
    }

    /** Hands out a fresh id, growing the records when the generator grew,
        stores the three references with no property set, and records the id
        as created. */
    method Create(sceneNodeID: nat, meshID: nat, materialID: nat) returns (id: nat)
      requires Valid() && IsAllocated()
      modifies this, models
      ensures Valid() && IsAllocated()
      ensures (gen, id) == old(gen).Generate()
      ensures Has(id) && id != InvalidUID
      ensures GetModel(id) == MeshModel(sceneNodeID, meshID, materialID, NoProperties)
      ensures forall i :: 0 <= i < old(Capacity()) && i != id ==> GetModel(i) == old(GetModel(i))
      ensures old(SentinelIntact()) ==> SentinelIntact()
      ensures created == old(created) + [id] && destroyed == old(destroyed)
    {
      var (g, newID) := gen.Generate();
      if g.capacity != gen.capacity {
        ResizeTo(g);
      } else {
        gen := g;
      }
      id := newID;
      models[id] := MeshModel(sceneNodeID, meshID, materialID, NoProperties);
      created := created + [id];
    }

    /** Erases the id. Only when it was live is it recorded as destroyed and
        its record marked destroyed; the references stay readable. */
    method Destroy(id: nat)
      requires Valid() && IsAllocated()
      modifies this, models
      ensures Valid() && IsAllocated() && models == old(models)
      ensures var (g, wasLive) := old(gen).Erase(id);
        && gen == g
        && destroyed == old(destroyed) + (if wasLive then [id] else [])
        && (wasLive ==> models[..] == old(models[..])[id := old(models[id]).(properties := old(models[id]).properties | DestroyedProperty)])
        && (!wasLive ==> models[..] == old(models[..]))
      ensures created == old(created)
    {
      var (g, wasLive) := gen.Erase(id);
      gen := g;
      if wasLive {
        models[id] := models[id].(properties := models[id].properties | DestroyedProperty);
        destroyed := destroyed + [id];
      }
    }

    /** Empties the created and destroyed lists and touches nothing else. */
    method ResetChangeNotifications()
      requires Valid()
      modifies this
      ensures Valid() && gen == old(gen) && models == old(models)
      ensures created == [] && destroyed == []
    {
      created, destroyed := [], [];
    }
  }

  /** The sentinel id is not live and its references read as invalid. */
  lemma SentinelReadsInvalid(store: MeshModels)
    requires store.Valid() && store.IsAllocated() && store.SentinelIntact()
    ensures !store.Has(InvalidUID)
    ensures store.GetSceneNodeID(InvalidUID) == InvalidUID && store.GetMeshID(InvalidUID) == InvalidUID
    ensures store.GetModel(InvalidUID).sceneNodeID == InvalidUID && store.GetModel(InvalidUID).meshID == InvalidUID
  {
  }

  /** Reserving past the capacity grows it, a smaller request keeps it, and
      deallocation drops it below the reserved value. */
  method ResizingScenario(store: MeshModels, largerCapacity: nat)
    requires store.Valid() && store.IsAllocated() && largerCapacity >= 1
    modifies store
    ensures store.Valid() && !store.IsAllocated() && store.Capacity() < largerCapacity
  {
    store.Reserve(largerCapacity);
    assert store.Capacity() >= largerCapacity;
    store.Reserve(5);
    assert store.Capacity() >= largerCapacity;
    store.Deallocate();
  }

  /** A created model is live and holds exactly the given references; the
      sentinel record survives the creation. */
  method CreateScenario(store: MeshModels, sceneNodeID: nat, meshID: nat) returns (modelID: nat)
    requires store.Valid() && store.IsAllocated() && store.SentinelIntact()
    modifies store, store.models
    ensures store.Valid() && store.IsAllocated() && store.SentinelIntact()
    ensures store.Has(modelID)
    ensures store.GetSceneNodeID(modelID) == sceneNodeID && store.GetMeshID(modelID) == meshID
    ensures store.GetModel(modelID).sceneNodeID == sceneNodeID && store.GetModel(modelID).meshID == meshID
  {
    modelID := store.Create(sceneNodeID, meshID, InvalidUID);
  }
}
