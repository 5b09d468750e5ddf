/** The scene node store: structure-of-arrays storage of node names, hierarchy
    links and cached global transforms, keyed by a UID, with the created,
    destroyed and transforms-changed lists of the current tick. */
module Scene {
  import opened UIDs
  import opened Storage
  import opened Transforms
  import opened SceneLinks

  const DummyNodeName: string := "Dummy Node"

  /** The per-slot contents of every attribute array, as sequences. */
  datatype NodeTable = NodeTable(names: seq<string>, links: Links, globals: seq<Transform>) {
    /** Slot `i` holds the same values in both tables. */
    ghost predicate SameAt(other: NodeTable, i: nat)
      requires i < |names| && i < |other.names| && i < |globals| && i < |other.globals|
      requires links.Valid() && other.links.Valid() && i < |links.parent| && i < |other.links.parent|
    {
      && names[i] == other.names[i] && globals[i] == other.globals[i]
      && links.parent[i] == other.links.parent[i]
      && links.firstChild[i] == other.links.firstChild[i]
      && links.sibling[i] == other.links.sibling[i]
    }
  }

  /** After a change of the global transform of `n` to `t`: `n` holds `t`,
      every descendant `d` holds `delta(old global of n, t) * old global of d`,
      every other slot is unchanged, and the transforms-changed list has grown
      by `n` followed by each descendant once, in some order. */
  ghost predicate Propagated(before: seq<Transform>, after: seq<Transform>,
                             changedBefore: seq<nat>, changedAfter: seq<nat>,
                             n: nat, t: Transform, desc: seq<nat>)
  {
    && |after| == |before| && n < |before| && after[n] == t
    && (forall i :: 0 <= i < |before| && i != n ==>
          after[i] == if i in desc then Compose(Delta(before[n], t), before[i]) else before[i])
    && |changedAfter| == |changedBefore| + 1 + |desc|
    && changedAfter[..|changedBefore| + 1] == changedBefore + [n]
    && multiset(changedAfter[|changedBefore| + 1..]) == multiset(desc)
  }

  /** `after` is `before` with `delta` composed onto the slots listed in `s`. */
  ghost predicate AppliedTo(before: seq<Transform>, after: seq<Transform>, delta: Transform, s: seq<nat>) {
    && |after| == |before|
    && forall i :: 0 <= i < |before| ==>
         after[i] == if i in s then Compose(delta, before[i]) else before[i]
  }

  /** One step of the descendant walk: `done` was processed, then the child
      slot, then the child's disjoint descendants `desc`. */
  lemma AppliedToStep(before: seq<Transform>, mid: seq<Transform>, after: seq<Transform>,
                      delta: Transform, done: seq<nat>, child: nat, desc: seq<nat>)
    requires AppliedTo(before, mid, delta, done)
    requires child < |mid| && child !in done && child !in desc
    requires forall x :: x in done ==> x !in desc
    requires AppliedTo(mid[child := Compose(delta, mid[child])], after, delta, desc)
    ensures AppliedTo(before, after, delta, done + [child] + desc)
  {
  }

  class SceneNodes {
    var gen: UIDGenerator
    var names: array?<string>
    var parents: array?<nat>
    var siblings: array?<nat>
    var firstChildren: array?<nat>
    var globals: array?<Transform>

    // Change notifications of the current tick.
    var created: seq<nat>
    var destroyed: seq<nat>
    var transformsChanged: seq<nat>

    predicate IsAllocated()
      reads this
    {
      names != null
    }

    function Capacity(): nat
      reads this
    {
      gen.capacity
    }

    /** Either every attribute array is absent (deallocated: the generator is
        empty with capacity 0 and no change is recorded), or every array has
        one slot per generator slot and every link is an index of them. */
    ghost predicate Valid()
      reads this, names, parents, siblings, firstChildren, globals
    {
      && gen.Valid()
      && (names == null <==> parents == null)
      && (names == null <==> siblings == null)
      && (names == null <==> firstChildren == null)
      && (names == null <==> globals == null)
      && (names == null ==>
            gen == NewGenerator(0) && created == [] && destroyed == [] && transformsChanged == [])
      && (names != null ==>
            && gen.capacity >= 1
            && names.Length == gen.capacity && parents.Length == gen.capacity
            && siblings.Length == gen.capacity && firstChildren.Length == gen.capacity
            && globals.Length == gen.capacity
            && parents != siblings && parents != firstChildren && siblings != firstChildren
            && LinksOf().Valid())
    }

    function LinksOf(): Links
      reads this`parents, this`siblings, this`firstChildren, parents, siblings, firstChildren
      requires parents != null && siblings != null && firstChildren != null
    {
      Links(parents[..], firstChildren[..], siblings[..])
    }

    ghost function Table(): NodeTable
      reads this`names, this`parents, this`siblings, this`firstChildren, this`globals
      reads names, parents, siblings, firstChildren, globals
      requires names != null && parents != null && siblings != null && firstChildren != null && globals != null
    {
      NodeTable(names[..], LinksOf(), globals[..])
    }

    twostate predicate SameArrays()
      reads this
    {
      && names == old(names) && parents == old(parents) && siblings == old(siblings)
      && firstChildren == old(firstChildren) && globals == old(globals)
    }

    /** The store before its first allocation. */
    constructor ()
      ensures Valid() && !IsAllocated() && Capacity() == 0
    {
      gen := NewGenerator(0);
      names, parents, siblings, firstChildren, globals := null, null, null, null, null;
      created, destroyed, transformsChanged := [], [], [];
    }

    /** No-op when allocated. Otherwise creates a generator over `capacity`
        slots and arrays of that length whose slot 0 is the dummy node. */
    method Allocate(capacity: nat)
      requires Valid()
      requires IsAllocated() || capacity >= 1
      modifies this
      ensures Valid() && IsAllocated()
      ensures old(IsAllocated()) ==> gen == old(gen) && SameArrays()
      ensures old(IsAllocated()) ==> created == old(created) && destroyed == old(destroyed)
      ensures old(IsAllocated()) ==> transformsChanged == old(transformsChanged)
      ensures !old(IsAllocated()) ==> gen == NewGenerator(capacity) && HoldsOnlyDummy()
      ensures !old(IsAllocated()) ==>
        && fresh(names) && fresh(parents) && fresh(siblings) && fresh(firstChildren) && fresh(globals)
        && created == [] && destroyed == [] && transformsChanged == []
    {
      if IsAllocated() {
        return;
      }
      gen := NewGenerator(capacity);
      var c := gen.capacity;
      names, parents, siblings, firstChildren, globals := NewNodeArrays(c);
      ResizedLinksValid(0);
    }

    /** Fresh attribute arrays of `c` slots; slot 0 is the dummy node: named,
        a root without children, at the identity. */
    static method NewNodeArrays(c: nat)
      returns (n: array<string>, p: array<nat>, s: array<nat>, f: array<nat>, g: array<Transform>)
      requires c >= 1
      ensures fresh(n) && fresh(p) && fresh(s) && fresh(f) && fresh(g)
      ensures p != s && p != f && s != f
      ensures n.Length == c && p.Length == c && s.Length == c && f.Length == c && g.Length == c
      ensures n[0] == DummyNodeName && g[0] == Identity
      ensures forall i :: 0 <= i < c ==> p[i] == InvalidUID && s[i] == InvalidUID && f[i] == InvalidUID
    {
      n := new string[c](_ => "");
      p := new nat[c](_ => InvalidUID);
      s := new nat[c](_ => InvalidUID);
      f := new nat[c](_ => InvalidUID);
      g := new Transform[c](_ => Identity);
      n[0] := DummyNodeName;
      p[0], f[0], s[0] := InvalidUID, InvalidUID, InvalidUID;
      g[0] := Identity;
    }

    /** Slot 0 holds the dummy node and every link is the invalid id. */
    ghost predicate HoldsOnlyDummy()
      reads this, names, parents, siblings, firstChildren, globals
      requires Valid() && IsAllocated()
    {
      && names[0] == DummyNodeName && globals[0] == Identity
      && forall i :: 0 <= i < Capacity() ==>
           parents[i] == InvalidUID && firstChildren[i] == InvalidUID && siblings[i] == InvalidUID
    }

    /** No-op when not allocated. Otherwise drops every array, resets the
        generator to capacity 0 and empties the change lists. */
    method Deallocate()
      requires Valid()
      modifies this
      ensures Valid() && !IsAllocated()
      ensures gen == NewGenerator(0) && created == [] && destroyed == [] && transformsChanged == []
    {
      if !IsAllocated() {
        return;
      }
      gen := NewGenerator(0);
      names, parents, siblings, firstChildren, globals := null, null, null, null, null;
      created, destroyed, transformsChanged := [], [], [];
    }

    /** Replaces every attribute array by one of `newCapacity` slots holding
        the first min(newCapacity, oldCapacity) slots of the old one. */
    method ReserveNodeData(newCapacity: nat, oldCapacity: nat)
      requires names != null && parents != null && siblings != null && firstChildren != null && globals != null
      requires names.Length == oldCapacity && parents.Length == oldCapacity && siblings.Length == oldCapacity
      requires firstChildren.Length == oldCapacity && globals.Length == oldCapacity
      modifies this
      ensures gen == old(gen) && created == old(created) && destroyed == old(destroyed)
      ensures transformsChanged == old(transformsChanged)
      ensures fresh(names) && fresh(parents) && fresh(siblings) && fresh(firstChildren) && fresh(globals)
      ensures names.Length == newCapacity && parents.Length == newCapacity && siblings.Length == newCapacity
      ensures firstChildren.Length == newCapacity && globals.Length == newCapacity
      ensures parents != siblings && parents != firstChildren && siblings != firstChildren
      ensures var k := Min(newCapacity, oldCapacity);
        && names[..k] == old(names[..k]) && globals[..k] == old(globals[..k])
        && parents[..k] == old(parents[..k]) && siblings[..k] == old(siblings[..k])
        && firstChildren[..k] == old(firstChildren[..k])
      ensures var k := Min(newCapacity, oldCapacity);
        forall i :: k <= i < newCapacity ==>
          parents[i] == InvalidUID && siblings[i] == InvalidUID && firstChildren[i] == InvalidUID
    {
      var copyable := Min(newCapacity, oldCapacity);
      names := ResizeAndCopy(names, newCapacity, copyable, "");
      parents := ResizeAndCopy(parents, newCapacity, copyable, InvalidUID);
      siblings := ResizeAndCopy(siblings, newCapacity, copyable, InvalidUID);
      firstChildren := ResizeAndCopy(firstChildren, newCapacity, copyable, InvalidUID);
      globals := ResizeAndCopy(globals, newCapacity, copyable, Identity);
    }

    /** Grows the generator to at least `newCapacity` and the arrays with it,
        keeping every existing slot. */
    method Reserve(newCapacity: nat)
      requires Valid() && IsAllocated()
      modifies this
      ensures Valid() && IsAllocated()
      ensures gen == old(gen).Reserve(newCapacity)
      ensures Capacity() >= newCapacity && Capacity() >= old(Capacity())
      ensures forall i :: 0 <= i < old(Capacity()) ==> Table().SameAt(old(Table()), i)
      ensures created == old(created) && destroyed == old(destroyed) && transformsChanged == old(transformsChanged)
    {
      ResizeTo(gen.Reserve(newCapacity));
    }

    /** Installs the generator `g`, which has at least as many slots, and
        reallocates every array to its capacity, keeping every existing slot. */
    method ResizeTo(g: UIDGenerator)
      requires Valid() && IsAllocated() && g.Valid() && g.capacity >= Capacity()
      modifies this
      ensures Valid() && IsAllocated() && gen == g
      ensures fresh(names) && fresh(parents) && fresh(siblings) && fresh(firstChildren) && fresh(globals)
      ensures forall i :: 0 <= i < old(Capacity()) ==> Table().SameAt(old(Table()), i)
      ensures created == old(created) && destroyed == old(destroyed) && transformsChanged == old(transformsChanged)
    {
      var oldCapacity := Capacity();
      ghost var before := Table();
      gen := g;
      ReserveNodeData(gen.capacity, oldCapacity);
      assert Min(gen.capacity, oldCapacity) == oldCapacity;
      forall i | 0 <= i < oldCapacity
        ensures Table().SameAt(before, i)
        ensures parents[i] < oldCapacity && siblings[i] < oldCapacity && firstChildren[i] < oldCapacity
      {
        assert parents[..oldCapacity][i] == before.links.parent[..oldCapacity][i];
        assert siblings[..oldCapacity][i] == before.links.sibling[..oldCapacity][i];
        assert firstChildren[..oldCapacity][i] == before.links.firstChild[..oldCapacity][i];
        assert names[..oldCapacity][i] == before.names[..oldCapacity][i];
        assert globals[..oldCapacity][i] == before.globals[..oldCapacity][i];
      }
      ResizedLinksValid(oldCapacity);
    }

    /** The links of a store whose arrays were just grown from `oldCapacity`
        slots are still indices of the arrays. */
    lemma ResizedLinksValid(oldCapacity: nat)
      requires parents != null && siblings != null && firstChildren != null
      requires oldCapacity <= parents.Length
      requires parents.Length == siblings.Length == firstChildren.Length
      requires forall i :: 0 <= i < oldCapacity ==>
        parents[i] < oldCapacity && siblings[i] < oldCapacity && firstChildren[i] < oldCapacity
      requires forall i :: oldCapacity <= i < parents.Length ==>
        parents[i] == InvalidUID && siblings[i] == InvalidUID && firstChildren[i] == InvalidUID
      requires parents.Length >= 1
      ensures LinksOf().Valid()
    {
    }

    /** Hands out a fresh id, growing every array when the generator grew,
        and initialises its slot as a root without children. */
    method Create(name: string, transform: Transform) returns (id: nat)
      requires Valid() && IsAllocated()
      modifies this, names, parents, siblings, firstChildren, globals
      ensures Valid() && IsAllocated()
      ensures (gen, id) == old(gen).Generate()
      ensures old(gen).HasFreeSlot() ==> SameArrays()
      ensures !old(gen).HasFreeSlot() ==>
        fresh(names) && fresh(parents) && fresh(siblings) && fresh(firstChildren) && fresh(globals)
      ensures names[id] == name && globals[id] == transform
      ensures parents[id] == InvalidUID && firstChildren[id] == InvalidUID && siblings[id] == InvalidUID
      ensures forall i :: 0 <= i < old(Capacity()) && i != id ==> Table().SameAt(old(Table()), i)
      ensures created == old(created) + [id]
      ensures destroyed == old(destroyed) && transformsChanged == old(transformsChanged)
    {
      var oldCapacity := gen.capacity;
      ghost var t0 := Table();
      var (g, newID) := gen.Generate();
      if oldCapacity != g.capacity {
        ResizeTo(g);
      } else {
        gen := g;
      }
      id := newID;
      ghost var t1 := Table();
      InitSlot(id, name, transform);
      forall i | 0 <= i < oldCapacity && i != id
        ensures Table().SameAt(t0, i)
      {
        assert Table().SameAt(t1, i) && t1.SameAt(t0, i);
      }
      created := created + [id];
    }

    /** Sets slot `id` to a root without children with the given name and
        global transform, leaving every other slot as it was. */
    method InitSlot(id: nat, name: string, transform: Transform)
      requires Valid() && IsAllocated() && id < Capacity()
      modifies names, parents, siblings, firstChildren, globals
      ensures Valid()
      ensures names[id] == name && globals[id] == transform
      ensures parents[id] == InvalidUID && firstChildren[id] == InvalidUID && siblings[id] == InvalidUID
      ensures forall i :: 0 <= i < Capacity() && i != id ==> Table().SameAt(old(Table()), i)
    {
      names[id] := name;
      parents[id], firstChildren[id], siblings[id] := InvalidUID, InvalidUID, InvalidUID;
      globals[id] := transform;
    }

    /** Erases the id; records it as destroyed only if it was live. The slot's
        values are left in place. */
    method Destroy(id: nat)
      requires Valid()
      modifies this
      ensures Valid() && SameArrays()
      ensures var (g, wasLive) := old(gen).Erase(id);
        gen == g && destroyed == old(destroyed) + (if wasLive then [id] else [])
      ensures created == old(created) && transformsChanged == old(transformsChanged)
    {
      var (g, wasLive) := gen.Erase(id);
      gen := g;
      if wasLive {
        destroyed := destroyed + [id];
      }
    }

    /** Makes `parentID` the parent of `nodeID`, as the first of its children.
        `path` is the walk from the old parent's first child to `nodeID`; the
        predecessor search only stops if there is one. */
    method SetParent(nodeID: nat, parentID: nat, ghost path: seq<nat>)
      requires Valid() && IsAllocated() && nodeID < Capacity() && parentID < Capacity()
      requires nodeID != parentID && nodeID != InvalidUID && parents[nodeID] != InvalidUID ==>
        IsPathTo(siblings[..], firstChildren[parents[nodeID]], nodeID, path)
      modifies parents, siblings, firstChildren
      ensures Valid()
      ensures LinksOf() == SetParentSpec(old(LinksOf()), nodeID, parentID, path)
    {
      var oldParentID := parents[nodeID];
      if nodeID != parentID && nodeID != InvalidUID {
        if oldParentID != InvalidUID {
          var sibling := firstChildren[oldParentID];
          if sibling == nodeID {
            firstChildren[oldParentID] := siblings[sibling];
          } else {
            ghost var j := 0;
            while nodeID != siblings[sibling]
              invariant 0 <= j < |path| - 1 && sibling == path[j]
              invariant siblings[..] == old(siblings[..])
              decreases |path| - j
            {
              sibling := siblings[sibling];
              j := j + 1;
            }
            assert siblings[..][path[j]] == path[j + 1] == nodeID;
            assert j == |path| - 2;
            siblings[sibling] := siblings[nodeID];
          }
        }
        parents[nodeID] := parentID;
        siblings[nodeID] := firstChildren[parentID];
        firstChildren[parentID] := nodeID;
      }
    }

    /** The child chain of `nodeID`, in order. `chain` witnesses that the
        chain reaches the invalid id, without which the walk does not stop. */
    method GetChildrenIDs(nodeID: nat, ghost chain: seq<nat>) returns (res: seq<nat>)
      requires Valid() && IsAllocated() && nodeID < Capacity()
      requires IsChain(siblings[..], firstChildren[nodeID], chain)
      ensures res == chain
    {
      res := [];
      var child := firstChildren[nodeID];
      ghost var k := 0;
      while child != InvalidUID
        invariant 0 <= k <= |chain| && res == chain[..k]
        invariant IsChain(siblings[..], child, chain[k..])
        decreases |chain| - k
      {
        assert chain[k..][1..] == chain[k + 1..];
        res := res + [child];
        child := siblings[child];
        k := k + 1;
      }
    }

    /** Whether `testedChildID` is in the child chain of `nodeID`. */
    method HasChild(nodeID: nat, testedChildID: nat, ghost chain: seq<nat>) returns (found: bool)
      requires Valid() && IsAllocated() && nodeID < Capacity()
      requires IsChain(siblings[..], firstChildren[nodeID], chain)
      ensures found <==> testedChildID in chain
    {
      var child := firstChildren[nodeID];
      ghost var k := 0;
      while child != InvalidUID
        invariant 0 <= k <= |chain| && testedChildID !in chain[..k]
        invariant IsChain(siblings[..], child, chain[k..])
        decreases |chain| - k
      {
        assert chain[k..][1..] == chain[k + 1..];
        if child == testedChildID {
          return true;
        }
        assert chain[..k + 1] == chain[..k] + [child];
        child := siblings[child];
        k := k + 1;
      }
      assert chain[..k] == chain;
      return false;
    }

    /** The child chain of the parent of `nodeID`. */
    method GetSiblingIDs(nodeID: nat, ghost chain: seq<nat>) returns (res: seq<nat>)
      requires Valid() && IsAllocated() && nodeID < Capacity()
      requires IsChain(siblings[..], firstChildren[parents[nodeID]], chain)
      ensures res == chain
    {
      var parentID := parents[nodeID];
      res := GetChildrenIDs(parentID, chain);
    }

    /** The transform of a node relative to its parent. */
    function GetLocalTransform(nodeID: nat): Transform
      reads this, names, parents, siblings, firstChildren, globals
      requires Valid() && IsAllocated() && nodeID < Capacity()
    {
      Delta(globals[parents[nodeID]], globals[nodeID])
    }

    /** Applies `delta` to the cached global transform of every node below the
        root of `tree`, appending each of them to the transforms-changed list. */
    method ApplyToDescendants(nodeID: nat, delta: Transform, ghost tree: Tree)
      requires Valid() && IsAllocated() && tree.id == nodeID
      requires Spans(firstChildren[..], siblings[..], tree) && Distinct(Flatten(tree))
      modifies this`transformsChanged, globals
      ensures transformsChanged == old(transformsChanged) + Descendants(tree)
      ensures AppliedTo(old(globals[..]), globals[..], delta, Descendants(tree))
      decreases tree
    {
      ghost var kids := tree.kids;
      var child := firstChildren[nodeID];
      ghost var k := 0;
      assert Ids(kids)[0..] == Ids(kids);
      while child != InvalidUID
        invariant 0 <= k <= |kids| && globals.Length == |old(globals[..])|
        invariant IsChain(siblings[..], child, Ids(kids)[k..])
        invariant transformsChanged == old(transformsChanged) + FlattenAll(kids[..k])
        invariant AppliedTo(old(globals[..]), globals[..], delta, FlattenAll(kids[..k]))
        decreases |kids| - k
      {
        assert Ids(kids)[k..][1..] == Ids(kids)[k + 1..];
        ghost var sub := kids[k];
        KidSubtree(tree, k);
        ghost var before := globals[..];
        globals[child] := Compose(delta, globals[child]);
        assert globals[..] == before[child := Compose(delta, before[child])];
        transformsChanged := transformsChanged + [child];
        ApplyToDescendants(child, delta, sub);
        AppliedToStep(old(globals[..]), before, globals[..], delta, FlattenAll(kids[..k]), child, Descendants(sub));
        child := siblings[child];
        k := k + 1;
      }
      assert kids[..k] == kids;
    }

    /** Sets the global transform of a node and moves all of its descendants
        along by the same relative change. `tree` witnesses that the nodes
        below `nodeID` form a tree. */
    method SetGlobalTransform(nodeID: nat, transform: Transform, ghost tree: Tree)
      requires Valid() && IsAllocated() && nodeID < Capacity()
      requires nodeID != InvalidUID ==>
        tree.id == nodeID && Spans(firstChildren[..], siblings[..], tree) && Distinct(Flatten(tree))
      modifies this`transformsChanged, globals
      ensures Valid()
      ensures nodeID == InvalidUID ==>
        globals[..] == old(globals[..]) && transformsChanged == old(transformsChanged)
      ensures nodeID != InvalidUID ==>
        Propagated(old(globals[..]), globals[..], old(transformsChanged), transformsChanged,
                   nodeID, transform, Descendants(tree))
    {
      if nodeID == InvalidUID {
        return;
      }
      var deltaTransform := Delta(globals[nodeID], transform);
      globals[nodeID] := transform;
      transformsChanged := transformsChanged + [nodeID];
      ghost var mid := transformsChanged;
      ghost var before := globals[..];
      RootNotDescendant(tree);
      ApplyToDescendants(nodeID, deltaTransform, tree);
      assert transformsChanged[..|old(transformsChanged)| + 1] == mid;
      assert transformsChanged[|old(transformsChanged)| + 1..] == Descendants(tree);
    }

    /** Sets the transform of a node relative to its parent. */
    method SetLocalTransform(nodeID: nat, transform: Transform, ghost tree: Tree)
      requires Valid() && IsAllocated() && nodeID < Capacity()
      requires nodeID != InvalidUID ==>
        tree.id == nodeID && Spans(firstChildren[..], siblings[..], tree) && Distinct(Flatten(tree))
      modifies this`transformsChanged, globals
      ensures Valid()
      ensures nodeID == InvalidUID ==>
        globals[..] == old(globals[..]) && transformsChanged == old(transformsChanged)
      ensures nodeID != InvalidUID ==>
        Propagated(old(globals[..]), globals[..], old(transformsChanged), transformsChanged,
                   nodeID, Compose(old(globals[parents[nodeID]]), transform), Descendants(tree))
    {
      if nodeID == InvalidUID {
        return;
      }
      var parentID := parents[nodeID];
      var parentTransform := globals[parentID];
      SetGlobalTransform(nodeID, Compose(parentTransform, transform), tree);
    }

    /** Empties the created, destroyed and transforms-changed lists. */
    method ResetChangeNotifications()
      requires Valid()
      modifies this`created, this`destroyed, this`transformsChanged
      ensures Valid()
      ensures created == [] && destroyed == [] && transformsChanged == []
    {
      created, destroyed, transformsChanged := [], [], [];
    }
  }
}
