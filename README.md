# Cogwheel entity stores and helpers, in Dafny

This project models the core of the Cogwheel rendering engine (C++) and proves
properties of the model.

**The entity-store pattern.** Each entity kind lives in a structure-of-arrays
store keyed by a UID. Slot 0 is a reserved dummy entry. Each store has:
- capacity growth that copies the existing entries;
- create and destroy operations;
- the change lists of the current tick.

Three stores are modelled, each as a `class` whose array fields are
reallocated and written in place:
- `Scene.SceneNodes`: names, a parent / first-child / next-sibling hierarchy,
  and cached global transforms that are propagated eagerly to descendants.
- `MeshStore.Meshes`: mesh buffers, bounds, and a per-slot change mask that
  drives the changed list.
- `MeshModelStore.MeshModels`: records joining a scene node, a mesh and a
  material.

**Shared model pieces.**
- The UID generator is a value (`UIDs.UIDGenerator`): a set of live ids over a
  growable index space.
- Transforms are a free term algebra (`Transforms`).
- The mesh buffer owner is a value (`MeshData.Mesh`). Its four buffer pointers
  are each null, owning, or dangling after release.
- `MeshUtils.Combine` concatenates two stored meshes into a new one.

**Smaller cores.**
- The 1D distribution of a discretised function (`Distributions`): CDF
  construction, binary search, evaluation and sampling, over exact reals.
- `ceil_divide` and `pow2roundup` (`MathUtils`), the latter on `bv32`.
- A mouse state machine (`Input.Mouse`).
- The command-line logic of the environment convolution tool
  (`EnvironmentConvolution`): option parsing and printing, the usage and
  file-format checks, the output file name, the sample split and the pixel
  index.

**Proof structure.** Each imperative operation is a method whose
postcondition gives the new state in terms of the old state. The
hierarchy-editing loop of `set_parent` is proved against the pure
`SceneLinks.SetParentSpec`. Lemmas about that specification prove what
re-parenting does to the child chains.

## Model

| member | source | states |
|---|---|---|
| UIDs.UIDGenerator.Generate | cogs/Cogwheel/Cogwheel/Assets/Mesh.cpp:101-105 | The new id is fresh, not the invalid id, and live afterwards (the live set grows by exactly it). The capacity never shrinks, and it stays the same exactly when a non-dummy slot was free. |
| UIDs.UIDGenerator.Erase | cogs/Cogwheel/Cogwheel/Scene/SceneNode.cpp:128 | Reports true iff the id was live, and removes it from the live set; the capacity is unchanged. |
| UIDs.UIDGenerator.Reserve | apps/Tests/Assets/MeshModelTest.h:30-38 | The capacity becomes at least the request and never decreases; the live ids are kept. |
| UIDs.UIDGenerator.FirstFree | cogs/Cogwheel/Cogwheel/Assets/Mesh.cpp:102 | The returned slot is free, or the capacity; every slot before it is live. |
| UIDs.NewGenerator | cogs/Cogwheel/Cogwheel/Scene/SceneNode.cpp:33 | A fresh generator has the requested capacity and no live id. |
| UIDs.GenerateTwiceDistinct | cogs/Cogwheel/Cogwheel/Scene/SceneNode.cpp:112 | Two generates in a row return distinct ids, and both are live. |
| UIDs.EraseMakesReusable | cogs/Cogwheel/Cogwheel/Scene/SceneNode.cpp:126-130 | An erased live id is no longer live, and the next generate needs no growth. |
| Storage.ResizeAndCopy | cogs/Cogwheel/Cogwheel/Scene/SceneNode.cpp:78-84 | The new array has the new length, its first `copyable` elements are the old ones, and the rest hold the default value. |
| SceneLinks.Detach | cogs/Cogwheel/Cogwheel/Scene/SceneNode.cpp:139-150 | Unlinking keeps the link arrays well-formed and leaves every parent link as it was. |
| SceneLinks.Attach | cogs/Cogwheel/Cogwheel/Scene/SceneNode.cpp:152-155 | Pushing a node onto a parent's chain keeps the link arrays well-formed. |
| SceneLinks.SetParentSpec | cogs/Cogwheel/Cogwheel/Scene/SceneNode.cpp:132-157 | It is a no-op when the node is its own new parent or is the invalid id. Otherwise the node's parent becomes `p`, and `p`'s first child becomes the node. |
| SceneLinks.ChainUnique | cogs/Cogwheel/Cogwheel/Scene/SceneNode.cpp:167-178 | The child chain from a given start is unique. |
| SceneLinks.ChainDistinct | cogs/Cogwheel/Cogwheel/Scene/SceneNode.cpp:173-176 | A chain that reaches the invalid id visits no node twice. |
| SceneLinks.DetachRemoves | cogs/Cogwheel/Cogwheel/Scene/SceneNode.cpp:139-150 | After detaching, the old parent's chain is the old chain with the node taken out and the other siblings in their old order. The node is no longer in it. |
| SceneLinks.AttachToNewParent | cogs/Cogwheel/Cogwheel/Scene/SceneNode.cpp:152-155 | In a hierarchy where each node is on one chain only (the new parent's chain does not already hold the node), under a different parent the new parent's chain is the node followed by that parent's previous chain. |
| SceneLinks.AttachToSameParent | cogs/Cogwheel/Cogwheel/Scene/SceneNode.cpp:132-157 | Re-parenting under the same parent moves the node to the front; the other siblings keep their order. |
| SceneLinks.SetParentKeepsOtherChains | cogs/Cogwheel/Cogwheel/Scene/SceneNode.cpp:132-157 | In a hierarchy where each node is on one chain only (the chain neither holds the node nor shares a node with the search path), the chain of every node other than the old and new parent is unchanged. |
| SceneLinks.KidSubtree | cogs/Cogwheel/Cogwheel/Scene/SceneNode.cpp:231-235 | In a tree without repeated nodes, a child subtree is repeat-free and shares no node with its earlier siblings' subtrees. Visiting it extends the preorder listing. |
| SceneLinks.RootNotDescendant | cogs/Cogwheel/Cogwheel/Scene/SceneNode.cpp:227-235 | The root of a repeat-free tree is not among its descendants, so propagation never rewrites the node itself. |
| Scene.AppliedToStep | cogs/Cogwheel/Cogwheel/Scene/SceneNode.cpp:232-235 | Applying the delta to the processed nodes, then to a child, then to that child's descendants, is applying it to all of them. |
| Scene.SceneNodes.constructor | cogs/Cogwheel/Cogwheel/Scene/SceneNode.cpp:16-27 | Initially the store is unallocated, with capacity 0. |
| Scene.SceneNodes.Allocate | cogs/Cogwheel/Cogwheel/Scene/SceneNode.cpp:29-52 | A no-op when already allocated. Otherwise the generator has the requested capacity and slot 0 is "Dummy Node" with invalid links and the identity transform. The change lists are empty. |
| Scene.SceneNodes.NewNodeArrays | cogs/Cogwheel/Cogwheel/Scene/SceneNode.cpp:36-51 | Five fresh arrays of the capacity; slot 0 is the dummy node and every link is invalid. |
| Scene.SceneNodes.Deallocate | cogs/Cogwheel/Cogwheel/Scene/SceneNode.cpp:54-70 | A no-op when not allocated. Otherwise every array is dropped, the generator has capacity 0, and the three lists are empty. |
| Scene.SceneNodes.ReserveNodeData | cogs/Cogwheel/Cogwheel/Scene/SceneNode.cpp:86-102 | Every array gets the new length and keeps its first min(new, old) entries; new link slots are invalid. |
| Scene.SceneNodes.Reserve | cogs/Cogwheel/Cogwheel/Scene/SceneNode.cpp:72-76 | The generator is reserved and every existing slot keeps all five values. The lists are untouched. |
| Scene.SceneNodes.ResizeTo | cogs/Cogwheel/Cogwheel/Scene/SceneNode.cpp:111-115 | When the generator grew, every array is reallocated to the new capacity, keeping every existing slot. |
| Scene.SceneNodes.ResizedLinksValid | cogs/Cogwheel/Cogwheel/Scene/SceneNode.cpp:86-102 | Grown link arrays still index the arrays. |
| Scene.SceneNodes.Create | cogs/Cogwheel/Cogwheel/Scene/SceneNode.cpp:104-124 | The id is the generator's next one. The arrays are reallocated exactly when the generator grew. The new slot has the name and transform and invalid links; other slots are kept. The id is appended to the created list. |
| Scene.SceneNodes.InitSlot | cogs/Cogwheel/Cogwheel/Scene/SceneNode.cpp:117-119 | The slot holds the name, the transform and invalid links; every other slot is unchanged. |
| Scene.SceneNodes.Destroy | cogs/Cogwheel/Cogwheel/Scene/SceneNode.cpp:126-130 | Erases the id and appends it to the destroyed list iff it was live. The node data stays in place. |
| Scene.SceneNodes.SetParent | cogs/Cogwheel/Cogwheel/Scene/SceneNode.cpp:132-157 | The in-place splice, including the predecessor search loop, leaves exactly the links of `SetParentSpec`. |
| Scene.SceneNodes.GetChildrenIDs | cogs/Cogwheel/Cogwheel/Scene/SceneNode.cpp:167-178 | Returns the first-child / next-sibling chain, in order, up to the invalid id. |
| Scene.SceneNodes.HasChild | cogs/Cogwheel/Cogwheel/Scene/SceneNode.cpp:180-191 | True iff the tested id is in the child chain. |
| Scene.SceneNodes.GetSiblingIDs | cogs/Cogwheel/Cogwheel/Scene/SceneNode.cpp:159-165 | The child chain of the node's parent. It holds the node only when the node was attached under that parent: a freshly created node has the invalid parent, and slot 0's chain does not hold it. |
| Scene.SceneNodes.ApplyToDescendants | cogs/Cogwheel/Cogwheel/Scene/SceneNode.cpp:231-235 | Each descendant's global transform becomes the delta composed onto it; no other slot changes. The descendants are appended to the transforms-changed list. |
| Scene.SceneNodes.SetGlobalTransform | cogs/Cogwheel/Cogwheel/Scene/SceneNode.cpp:222-236 | A no-op on the invalid id. Otherwise the node holds `t`, and every descendant `d` holds `delta(old global, t) * global(d)`. The list grows by the node and then each descendant once. |
| Scene.SceneNodes.SetLocalTransform | cogs/Cogwheel/Cogwheel/Scene/SceneNode.cpp:209-220 | Equals setting the global transform to the parent's global transform composed with the local one. |
| Scene.SceneNodes.ResetChangeNotifications | cogs/Cogwheel/Cogwheel/Scene/SceneNode.cpp:238-242 | Empties the created, destroyed and transforms-changed lists and touches nothing else. |
| Geometry.InvertedBox | cogs/Cogwheel/Cogwheel/Assets/Mesh.cpp:44 | The dummy slot's box contains no point. |
| Geometry.EncompassingBox | cogs/Cogwheel/Cogwheel/Assets/Mesh.cpp:112 | The box of a new mesh contains exactly the points within 10^30 on each axis. |
| Geometry.GrowToContain | cogs/Cogwheel/Cogwheel/Assets/Mesh.cpp:137-138 | The grown box contains the point and everything the old box contained. |
| Geometry.HullContains | cogs/Cogwheel/Cogwheel/Assets/Mesh.cpp:133-142 | The bounds fold contains every position folded into it. |
| Geometry.HullAttained | cogs/Cogwheel/Cogwheel/Assets/Mesh.cpp:133-142 | Each of the six faces of the fold is a coordinate of some position. |
| MeshData.Delete | cogs/Cogwheel/Cogwheel/Assets/Mesh.cpp:122-125 | `delete[]` of null does nothing. Of owned storage it leaves the pointer dangling. Of a dangling pointer it is a double release. |
| MeshData.EmptyMesh | cogs/Cogwheel/Cogwheel/Assets/Mesh.h:35-42 | The default mesh has both counts 0 and all four pointers null. |
| MeshData.NewMesh | cogs/Cogwheel/Cogwheel/Assets/Mesh.h:44-51 | The two-count constructor owns indices of length `ic` and three vertex buffers of length `vc`. |
| MeshData.NewMeshWithFlags | cogs/Cogwheel/Cogwheel/Assets/Mesh.cpp:111 | Sets the counts and owns the index buffer. Each vertex buffer is owned iff its flag is set, and null otherwise. |
| MeshData.MoveConstruct | cogs/Cogwheel/Cogwheel/Assets/Mesh.h:53-60 | The new mesh has the source's counts and buffers; the source is left empty. |
| MeshData.MoveAssign | cogs/Cogwheel/Cogwheel/Assets/Mesh.h:62-70 | The target takes the source's counts and buffers; the source is left empty. |
| MeshData.MoveAssignDropsTarget | cogs/Cogwheel/Cogwheel/Assets/Mesh.h:62-70 | The outcome does not depend on the target's previous buffers: they are dropped, not released. |
| MeshData.MoveRoundTrip | cogs/Cogwheel/Cogwheel/Assets/Mesh.h:53-70 | Moving a mesh out and assigning it back restores it. |
| MeshData.DeleteBuffers | cogs/Cogwheel/Cogwheel/Assets/Mesh.cpp:122-125 | Releases all four buffers, which succeeds iff none dangled. No buffer is owned afterwards, and the null-ness of each pointer is unchanged. |
| MeshData.ReleaseBuffers | cogs/Cogwheel/Cogwheel/Assets/Mesh.cpp:121-125 | Releases all four buffers and then nulls the pointers. |
| MeshStore.RecordKeepsLedger | cogs/Cogwheel/Cogwheel/Assets/Mesh.cpp:107-113 | Setting a non-`None` mask keeps the ledger, provided the id is appended only when its old mask was `None`. The ledger says an id is listed iff its mask is not `None`, and at most once. |
| MeshStore.Meshes.constructor | cogs/Cogwheel/Cogwheel/Assets/Mesh.cpp:20-24 | Initially the store is unallocated, with capacity 0. |
| MeshStore.Meshes.NewMeshArrays | cogs/Cogwheel/Cogwheel/Assets/Mesh.cpp:33-44 | Four fresh arrays of the capacity; every mask is `None`; slot 0 is "Dummy Node" with an empty mesh and the inverted box. |
| MeshStore.Meshes.Allocate | cogs/Cogwheel/Cogwheel/Assets/Mesh.cpp:26-45 | Idempotent when allocated. Otherwise as `NewMeshArrays`, with an empty changed list. |
| MeshStore.Meshes.Deallocate | cogs/Cogwheel/Cogwheel/Assets/Mesh.cpp:47-65 | A no-op when not allocated. Otherwise releasing every slot's buffers succeeds with no double release (`ReleaseAll` of the old meshes holds), and the arrays are dropped. The changed list is emptied and the generator reset. |
| MeshStore.Meshes.ReserveMeshData | cogs/Cogwheel/Cogwheel/Assets/Mesh.cpp:75-88 | Every array gets the new length and keeps its first min(new, old) entries; every new mask is `None`. |
| MeshStore.Meshes.ResizeTo | cogs/Cogwheel/Cogwheel/Assets/Mesh.cpp:101-105 | Installs the grown generator and reallocates every array to it, keeping every slot; the new masks are `None`. |
| MeshStore.Meshes.GrownLedger | cogs/Cogwheel/Cogwheel/Assets/Mesh.cpp:85-87 | Appending `None` masks keeps the ledger. |
| MeshStore.Meshes.Reserve | cogs/Cogwheel/Cogwheel/Assets/Mesh.cpp:90-94 | The generator is reserved and every existing slot is kept; the changed list is untouched. |
| MeshStore.Meshes.Create | cogs/Cogwheel/Cogwheel/Assets/Mesh.cpp:96-116 | The id is the generator's next one, and the arrays are reallocated exactly when it grew. The slot gets the name, the new mesh, the encompassing box and the mask exactly `Created`. The id is appended iff its old mask was `None`. |
| MeshStore.Meshes.FillSlot | cogs/Cogwheel/Cogwheel/Assets/Mesh.cpp:110-113 | Writes name, mesh, encompassing box and `Created` into one slot and nothing else. |
| MeshStore.Meshes.Destroy | cogs/Cogwheel/Cogwheel/Assets/Mesh.cpp:118-131 | Only when the erase succeeds: the buffers are released (and nulled, see Findings) and the id is appended iff its mask was `None`. `Destroyed` is OR-ed into the mask. |
| MeshStore.Meshes.ComputeBounds | cogs/Cogwheel/Cogwheel/Assets/Mesh.cpp:133-142 | The loop computes the fold of the mesh's positions. It stores the fold in the mesh's bounds slot and returns it. |
| MeshStore.ComputedBoundsTight | cogs/Cogwheel/Cogwheel/Assets/Mesh.cpp:133-142 | The computed bounds contain every position and each face is attained. |
| MeshStore.Meshes.ResetChangeNotifications | cogs/Cogwheel/Cogwheel/Assets/Mesh.cpp:144-147 | The changed list is empty and, when the store is allocated, every mask is `None`. On an unallocated store, where the source clears zero bytes, nothing else changes. |
| MeshStore.Meshes.SetName | cogs/Cogwheel/Cogwheel/Assets/Mesh.h:101-102 | `GetName(id)` returns the new name; every other name is unchanged. |
| MeshStore.Meshes.SetBounds | cogs/Cogwheel/Cogwheel/Assets/Mesh.h:105-106 | `GetBounds(id)` returns the new box; every other box is unchanged. |
| MeshStore.ReleaseAll | cogs/Cogwheel/Cogwheel/Assets/Mesh.cpp:52-57 | The release loop over every slot is free of double releases iff no stored pointer dangles. |
| MeshStore.DestroyBuffersAsWritten | cogs/Cogwheel/Cogwheel/Assets/Mesh.cpp:121-125 | Destroy's release as written: only the slot's pointers change, and they are left dangling. |
| MeshStore.DestroyThenDeallocateAsWritten | cogs/Cogwheel/Cogwheel/Assets/Mesh.cpp:47-57 | As written, destroying a created mesh and then deallocating releases its index buffer twice. |
| MeshStore.DestroyThenDeallocateCorrected | cogs/Cogwheel/Cogwheel/Assets/Mesh.cpp:118-131 | With the pointers nulled after the release, the later deallocation never double-releases. |
| MeshUtils.CombinedFlags | cogs/Cogwheel/Cogwheel/Assets/Mesh.cpp:162-164 | Each buffer flag is set iff both input meshes have that buffer. |
| MeshUtils.CombineIndices | cogs/Cogwheel/Cogwheel/Assets/Mesh.cpp:169-173 | The first mesh's triangles unchanged, then the second's offset by the first's vertex count (mod 2^32). |
| MeshUtils.MapConcat | cogs/Cogwheel/Cogwheel/Assets/Mesh.cpp:175-189 | The walking output pointer writes the first buffer's mapped elements, then the second's. |
| MeshUtils.FillCombined | cogs/Cogwheel/Cogwheel/Assets/Mesh.cpp:169-194 | The combined buffers: summed counts, offset indices, transformed positions and normals, and concatenated texture coordinates. |
| MeshUtils.Combine | cogs/Cogwheel/Cogwheel/Assets/Mesh.cpp:155-199 | Creates "Combined mesh" with the combined buffers and `Created` mask, and stores the fold of its positions as its bounds. The new id joins the changed list iff its old mask was `None`. Every other slot, the two inputs included, keeps its name, mesh, bounds and mask. |
| MeshModelStore.MeshModels.constructor | cogs/Cogwheel/Cogwheel/Assets/MeshModel.h:89-94 | Initially the store is unallocated, with capacity 0. |
| MeshModelStore.MeshModels.Allocate | cogs/Cogwheel/Cogwheel/Assets/MeshModel.h:49-50 | A no-op when allocated. Otherwise the requested capacity, with slot 0 holding the all-invalid record and empty lists. |
| MeshModelStore.MeshModels.Deallocate | apps/Tests/Assets/MeshModelTest.h:40-41 | The records are dropped and the capacity is 0, below any reserved value; the lists are empty. |
| MeshModelStore.MeshModels.ResizeTo | cogs/Cogwheel/Cogwheel/Assets/MeshModel.h:87 | Installs a larger generator and keeps every record. |
| MeshModelStore.MeshModels.Reserve | apps/Tests/Assets/MeshModelTest.h:30-38 | The capacity reaches the request and never decreases. A smaller request leaves it unchanged. Every record is kept. |
| MeshModelStore.MeshModels.SetModel | cogs/Cogwheel/Cogwheel/Assets/MeshModel.h:64-65 | `GetModel(id)` returns the record just set; every other record is unchanged. |
| MeshModelStore.MeshModels.Create | cogs/Cogwheel/Cogwheel/Assets/MeshModel.h:57 | The id is the generator's next one and is live. Its record holds the three references and no property. Other records are kept, and the id is appended to the created list. |
| MeshModelStore.MeshModels.Destroy | cogs/Cogwheel/Cogwheel/Assets/MeshModel.h:30-35 | Erases the id. Only if it was live, the id joins the destroyed list and its record gains the `Destroyed` property. The references stay readable. |
| MeshModelStore.MeshModels.ResetChangeNotifications | cogs/Cogwheel/Cogwheel/Assets/MeshModel.h:74-84 | Empties the created and destroyed lists and touches nothing else. |
| MeshModelStore.SentinelReadsInvalid | apps/Tests/Assets/MeshModelTest.h:44-52 | The sentinel id is not live, and its scene-node and mesh references read as invalid. |
| MeshModelStore.ResizingScenario | apps/Tests/Assets/MeshModelTest.h:30-42 | Reserving a larger capacity reaches it, and reserving 5 afterwards keeps it. After deallocation the capacity is below it. |
| MeshModelStore.CreateScenario | apps/Tests/Assets/MeshModelTest.h:54-66 | A created model is live and holds exactly the given node and mesh references. |
| Distributions.CDFOf | cogs/Cogwheel/Cogwheel/Math/Distribution1D.h:125-142 | The CDF has n+1 entries, starting at 0 and ending at 1. |
| Distributions.PrefixSumMonotone | cogs/Cogwheel/Cogwheel/Math/Distribution1D.h:129-131 | The running sums of a non-negative function do not decrease. |
| Distributions.CDFMonotone | cogs/Cogwheel/Cogwheel/Math/Distribution1D.h:125-142 | For a non-negative function with a positive sum, the CDF is non-decreasing and lies in [0, 1]. |
| Distributions.BinarySearch | cogs/Cogwheel/Cogwheel/Math/Distribution1D.h:76-88 | The search terminates with `i < n`. Both `cdf[i] <= u` (or `i == 0`) and `u < cdf[i+1]` (or `i == n-1`) hold. |
| Distributions.Distribution1D.constructor | cogs/Cogwheel/Cogwheel/Math/Distribution1D.h:44-47 | The CDF array is the CDF of the first `elementCount` values, and the integral is their mean. |
| Distributions.Distribution1D.ComputeCDF | cogs/Cogwheel/Cogwheel/Math/Distribution1D.h:125-142 | The two loops leave the normalised prefix sums in the array and return the sum over n. |
| Distributions.Distribution1D.GetCDFSize | cogs/Cogwheel/Cogwheel/Math/Distribution1D.h:45 | The reported size is the allocated length, `elementCount + 1`. |
| Distributions.Distribution1D.Evaluate | cogs/Cogwheel/Cogwheel/Math/Distribution1D.h:92-94 | `evaluate(i)` recovers the i-th function value exactly. |
| Distributions.Distribution1D.EvaluateRecovers | cogs/Cogwheel/Cogwheel/Math/Distribution1D.h:92-94 | The bin width, times n, times the integral, is the function value. |
| Distributions.Distribution1D.BinWidth | cogs/Cogwheel/Cogwheel/Math/Distribution1D.h:137-139 | A CDF bin is the function value over the total (a single bin is 1). |
| Distributions.Distribution1D.EvaluateAt | cogs/Cogwheel/Cogwheel/Math/Distribution1D.h:96-99 | The value at `u` in [0, 1) is that of bin floor(u*n). |
| Distributions.Distribution1D.SampleDiscrete | cogs/Cogwheel/Cogwheel/Math/Distribution1D.h:101-107 | The chosen bin brackets `u`. Its PDF is the bin width, and that is positive, so a zero-width bin is never chosen. |
| Distributions.Distribution1D.SampleContinuous | cogs/Cogwheel/Cogwheel/Math/Distribution1D.h:109-119 | The position lies in `[i/n, (i+1)/n)` of the bin that brackets `u`. Its PDF is the bin width times n, and interpolating the CDF at it gives `u` back. |
| Distributions.Distribution1D.InverseLerp | cogs/Cogwheel/Cogwheel/Math/Distribution1D.h:113-118 | The interpolation fraction lies in [0, 1), the position in its bin, and undoing the interpolation returns `u`. |
| MathUtils.CeilDivide | cogs/Cogwheel/Math/Utils.h:43-45 | Returns the least `q` with `q*b >= a`, and `q` never exceeds `a`. |
| MathUtils.CeilDivideExact | cogs/Cogwheel/Math/Utils.h:43-45 | Equals `a/b` exactly when b divides a, and `a/b + 1` otherwise. |
| MathUtils.Pow2RoundUpIsLeastPower | cogs/Cogwheel/Math/Utils.h:58-67 | For 1 <= x <= 2^31 the result is a power of two and at least x. Half of it is below x, and no smaller power of two reaches x. |
| MathUtils.Pow2RoundUpIdempotent | cogs/Cogwheel/Math/Utils.h:58-67 | Powers of two are fixed points, so rounding up twice equals rounding up once. |
| MathUtils.Pow2RoundUpWraps | cogs/Cogwheel/Math/Utils.h:59-67 | In 32-bit arithmetic 0 rounds up to 0, and every x above 2^31 wraps to 0. |
| Input.NextHalftaps | cogs/Cogwheel/Input/Mouse.h:43 | A tap flips the counter's parity, including the saturating step from 127 to 126. Below 127 it counts up by one. |
| Input.HalftapsCount | cogs/Cogwheel/Input/Mouse.h:20-26 | After n taps from 0 the counter has the parity of n, and equals n up to 127. The type keeps it in [0, 127]. |
| Input.Mouse.constructor | cogs/Cogwheel/Input/Mouse.h:28-29 | Stores the initial position. |
| Input.Mouse.SetPosition | cogs/Cogwheel/Input/Mouse.h:31-34 | Stores the position and accumulates the movement into the delta. It preserves delta == position - position at last reset. Buttons and scroll are untouched. |
| Input.Mouse.ButtonTapped | cogs/Cogwheel/Input/Mouse.h:39-44 | For `id < 4`: that button takes the pressed state and the next counter value. The other three buttons and every other field are unchanged. |
| Input.Mouse.PerFrameReset | cogs/Cogwheel/Input/Mouse.h:54-63 | Zeroes the delta, the four counters and the scroll. The position and every pressed state are kept, and delta tracking starts over. |
| EnvironmentConvolution.AtoiIntToString | apps/dev/EnvironmentConvolution/main.cpp:100 | `atoi` reads back any integer written in decimal. |
| EnvironmentConvolution.Parse | apps/dev/EnvironmentConvolution/main.cpp:88-104 | The loop computes `ParseFrom(args, 2, defaults)`. |
| EnvironmentConvolution.NoFlagsGiveDefaults | apps/dev/EnvironmentConvolution/main.cpp:89 | Without a recognised flag the options stay as they were; from the start, BSDF sampling with 256 samples. |
| EnvironmentConvolution.ParseAppend | apps/dev/EnvironmentConvolution/main.cpp:92-101 | Parsing more arguments continues from the options already parsed. |
| EnvironmentConvolution.LastMethodFlagWins | apps/dev/EnvironmentConvolution/main.cpp:93-98 | A trailing method flag sets the method and keeps the sample count. |
| EnvironmentConvolution.SampleCountFlag | apps/dev/EnvironmentConvolution/main.cpp:99-100 | `-s X` sets the count to `atoi(X)` and keeps the method. A trailing `-s` with nothing after it is a failure. |
| EnvironmentConvolution.UnknownArgumentIgnored | apps/dev/EnvironmentConvolution/main.cpp:92-101 | An unrecognised argument changes nothing. |
| EnvironmentConvolution.ToStringInjective | apps/dev/EnvironmentConvolution/main.cpp:106-115 | The printed description determines the method and the sample count. |
| EnvironmentConvolution.CheckFormat | apps/dev/EnvironmentConvolution/main.cpp:139-148 | A path is accepted iff it has at least four characters and its last four are a whitelisted extension; the verdict carries those four characters. |
| EnvironmentConvolution.MainOutcome | apps/dev/EnvironmentConvolution/main.cpp:132-150 | Usage (exit 0) exactly for no argument, `-h` or `--help`. An unsupported extension is not whitelisted. A convolution runs on an accepted path with the parsed options. |
| EnvironmentConvolution.UnsupportedExitsWithTwo | apps/dev/EnvironmentConvolution/main.cpp:139-148 | When usage is not shown, exit code 2 happens iff the path has at least four characters that are not a whitelisted extension. |
| EnvironmentConvolution.LastDot | apps/dev/EnvironmentConvolution/main.cpp:274 | Finds the last '.' (or reports that there is none). |
| EnvironmentConvolution.OutputKeepsExtension | apps/dev/EnvironmentConvolution/main.cpp:274-278 | For an accepted path the output name exists. It is the stem, "_roughness_", the roughness text, then the same extension, whose '.' is again the last one. |
| EnvironmentConvolution.MISSplit | apps/dev/EnvironmentConvolution/main.cpp:207-208 | The two counts sum to n. For n >= 0 the light count exceeds the BSDF count by 0 or 1; for negative n, C's truncating division gives -1 or 0. |
| EnvironmentConvolution.PixelOf | apps/dev/EnvironmentConvolution/main.cpp:196-197 | `x < w` and `x + y*w == i`. |
| EnvironmentConvolution.PixelOfInverse | apps/dev/EnvironmentConvolution/main.cpp:194-197 | Every pixel (x, y) of a w-by-h image is the decomposition of exactly one index `x + y*w < w*h`. |

## Left out

- The `Mesh` destructor (Mesh.h:72-77) is not modelled. `Mesh.cpp` is written for a plain `Mesh` without it: the header's own note asks for this (Mesh.h:21-24), `std::copy` and the copy at Mesh.cpp:157-167 need copy assignment, and the stores release buffers explicitly. Copies are therefore value copies, and only explicit `delete[]` releases buffers.
- Where `Mesh.h` and `Mesh.cpp` disagree, the model follows `Mesh.cpp`. This covers the index-count name, the four-argument `create` with a buffer bitmask, and the `m_changes` masks. The two-count constructor `NewMesh` follows `Mesh.h`.
- Assumed values:
  - The buffer flag values (position 1, normal 2, texcoords 4) and the mask values (`None` 0, `Created` 1, `Destroyed` 2) are not defined in the files shown.
  - Default-constructed buffer elements are taken as zero.
  - A default-constructed box is `DefaultBounds`.
  - `1e30f` is taken as the real 10^30.
- Uninitialised slots: the scene store's `new UID[capacity]` slots are left uninitialised by the source. The model fills them with the invalid id and the identity transform.
- `Scene.SceneNodes.Allocate`, `MeshStore.Meshes.Allocate`, `MeshModelStore.MeshModels.Allocate`: require capacity >= 1 on a first allocation. The unseen generator's rounding of the requested capacity is not modelled; the requested capacity is used as is.
- UID generator: `UniqueIDGenerator.h` is not part of this model. Its behaviour is an abstract set of live ids. It grows by doubling when every slot is used (to 2 from 0), and returns the smallest free id.
- Transforms: `Transform.h` is not part of this model. Transforms are free terms with no group laws.
  - Applying a transform to a position, or its rotation to a normal, is a parameter of `MeshUtils.Combine`.
  - `Scene.SceneNodes.GetLocalTransform` is the term `Delta(parent global, global)`, with no further contract.
- `AABB` and `apply_to_children_recursively` are not part of this model.
  - Boxes are exact-real boxes.
  - The descendant walk runs over the child chains, given a tree witness. Its acyclicity is a precondition, since `set_parent` guards only self-parenting.
  - The order of visits is not fixed: the transforms-changed list grows by the descendants as a multiset.
- `Scene.SceneNodes.SetParent` requires the walk from the old parent's first child to the node (the source's search loop does not stop otherwise).
- `Scene.SceneNodes.GetChildrenIDs`, `Scene.SceneNodes.HasChild`, `Scene.SceneNodes.GetSiblingIDs`: require a chain witness that reaches the invalid id.
- `MeshUtils.Combine` and `MeshStore.Meshes.ComputeBounds`: require owned positions and at least one vertex. These exclude only the source's crash paths: the unconditional position copy into a null buffer (Mesh.cpp:176-179), and the read of `positions[0]` from a null or empty buffer (Mesh.cpp:136).
- Floating point: everything is over exact reals. This covers `Distribution1D`, vectors, and the scroll delta. `Mouse::add_scroll_delta` (float accumulation) is not modelled.
- `Distributions.Distribution1D.constructor`: requires at least one element and, for two or more, a non-zero sum (`Normalizable`). The source divides by that sum.
  - The single-element case matches the source: the normalisation loop does not run and the last entry is set to 1.
  - For a single element, `Evaluate` recovers the value because the integral is that value.
- The `Distribution1D` converting constructor and the destructor are not modelled. The converting constructor refers to a member that does not exist (Distribution1D.h:50-55), and the destructor only frees memory.
- `Distributions.BinarySearch`: the midpoint `(lower + upper) / 2` is computed on unbounded integers, so `int` overflow is not modelled.
- `Distributions.Distribution1D.EvaluateAt`: requires `0 <= u < 1`. The source does not check the range, and reads outside the CDF otherwise.
- `EnvironmentConvolution.Atoi`: the C `atoi` on unbounded integers. Its undefined behaviour on overflow is not modelled.
- `EnvironmentConvolution.ParseFrom`: a trailing `-s` reads `argv[argc]` in the source. The model returns `Failure`.
- `Input.Mouse.constructor`: the source leaves the delta, the buttons and the scroll uninitialised, so the model constrains none of them. Delta tracking starts only at `PerFrameReset`.
- `Input.Vec2i` arithmetic is on unbounded integers, with no 32-bit overflow.
- `MeshUtils.Combine` and `MeshStore.Meshes.Create`: the index and vertex counts are unbounded `nat`s. The source sums them into `int` (Mesh.cpp:160-161) and passes them as `unsigned int`, so a wrapped or truncated count sum is not modelled. Only the offset indices are reduced mod 2^32.
- Image I/O, image loading, texture creation, light and GGX sampling, OpenMP loops and progress output in the environment convolution tool are not modelled. The roughness text of the output name (`ostream` float formatting) is an opaque string.
- MeshModel behaviour:
  - `MeshModel.cpp` is not part of this model. The behaviour of `create` (no properties set) and `destroy` (the 1 << 1 property set, the id listed) is taken from the header's comments, constants and the test.
  - The store's use of the mesh generator type (MeshModel.h:45) has no effect in the model.
  - The test's two-argument `create` and field names are matched by `MeshModelStore.CreateScenario` with the material id set to invalid.

## Findings

| source | as written | input that shows it | evidently intended | confidence | as-written member | corrected member |
|---|---|---|---|---|---|---|
| cogs/Cogwheel/Cogwheel/Assets/Mesh.cpp:118-131 | `destroy` calls `delete[]` on the four buffers of the stored mesh but leaves the pointers in `m_meshes[id]`. `deallocate` (Mesh.cpp:52-57) then calls `delete[]` on every slot's buffers again. | `allocate(2)`, `create("m", 1, 1, 7)` returning id 1, `destroy(1)`, `deallocate()`: the buffers of slot 1 are released twice. | After releasing, reset the pointers to null, as move construction does for a source. | not executed | MeshStore.DestroyThenDeallocateAsWritten | MeshStore.DestroyThenDeallocateCorrected |
