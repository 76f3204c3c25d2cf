# mpy core, modelled in Dafny

`mpy` wraps Autodesk Maya's dependency graph in Python classes: every Maya
node is reached through an `MPyNode` instance that a scene factory picks from
the node's type and plugin, and the node's behaviour comes from mixins
(`DependencyMixin`, `DagMixin`, `MeshMixin`, `ConstraintMixin`, ...). This
project models the bookkeeping beneath that layer once every host object is
replaced by plain state, and proves what that code promises:

- **Mesh components** (`mesh_components`, `mesh_topology`, `mesh_graph`,
  `mesh_consolidate`, `mesh_symmetry`): the ordered, duplicate-free element
  list of a `MeshComponent` with its occupancy table, the set operations, the
  conversions between vertices, edges and faces over an abstract adjacency,
  shell growth, loop retracing, edge boundaries, edge grouping and the cached
  vertex symmetry table.
- **Registries** (`class_registry`, `node_instances`, `object_wrapper`,
  `node_factory`): the class map of `AbstractFactory`, the `Singleton` and
  `MABCMeta` instance stores, the `MPyNode.__instances__` cache with its
  extension switches, the function-set cache of `MObjectWrapper`, and the
  factories' mixin and extension-class caches.
- **Naming** (`scene_naming`, `shape_utils`, `references`, `constraints`):
  unique names, shape-file names, default node names, namespace filters,
  `filterUserInput`, reference namespaces and the constraint naming and skip
  rules.
- **Node state** (`user_properties`, `mpy_attribute`, `node_extension`,
  `node_attributes`, `plug_flags`, `plug_tree`): the user-property map and its
  JSON buffer in `notes`, the `MPyAttribute` descriptor hooks, extension
  metadata, attribute and alias management, plug flags, and the connections a
  compound-aware `connectPlugs` / `disconnectPlugs` makes.
- **Slot arrays** (`slot_array`, `hyper_layout`, `container`,
  `display_layer`, `list_elements`): the sparse array plugs behind hyper
  layouts, published container nodes, display-layer membership and list
  controllers.
- **Walks and load state** (`hierarchy`, `anim_curve`, `references`): parent
  chains and breadth-first descendants, visible and intermediate shapes,
  animation-curve key filtering, removal, mirroring and infinity baking, and
  the load / unload state of a file reference.

Objects whose methods update their fields are classes with `modifies`
clauses (`UserProperties`, `ListNode`, `Layout`, `ContainerNode`,
`ReferenceNode`, ...); loops the source runs are `while` loops with their
invariants; comprehensions and recursions are functions, with lemmas relating
them. Maya's answers (plug values, connections, counts, function sets) are
state or parameters. Python exceptions are `Result` / `Status` values.

## Model

| member | source | states |
|---|---|---|
| AnimCurve.GetKeysSpec | builtins/animcurvemixin.py:211-220 | with no range every key is returned; with a range exactly the keys whose time lies in the inclusive range are kept, and time order is kept |
| AnimCurve.KeysWithin | builtins/animcurvemixin.py:215-216 | the comprehension keeps exactly the keys whose time lies in the inclusive range, never more keys than given |
| AnimCurve.KeysWithinSpec | builtins/animcurvemixin.py:215-216 | a key is kept iff it is one of the curve's keys and start ≤ time ≤ end; increasing times stay increasing |
| AnimCurve.IndicesWithin | builtins/animcurvemixin.py:140 | the listed indices are strictly increasing, each names an in-range key, and every in-range key's index is listed |
| AnimCurve.FloorDiv | builtins/animcurvemixin.py:247-248 | Python floor division: for d > 0, q·d ≤ a < q·d + d, and the mirror image for d < 0 |
| AnimCurve.Abs | builtins/animcurvemixin.py:247-248 | `abs` gives x or −x, never negative |
| AnimCurve.CycleKeysLength | builtins/animcurvemixin.py:265-274 | one cycle bakes every key except the first (for a cycle after the first, unaligned) and the last (for a cycle before the last, aligned) |
| AnimCurve.CyclesKeysLength | builtins/animcurvemixin.py:259-274 | c cycles over n keys give c·n − (c − 1) keys |
| AnimCurve.InfinityKeysLength | builtins/animcurvemixin.py:236-290 | with at least two keys and distinct end inputs the bake succeeds and returns cycles·n − (cycles − 1) keys, cycles = preCycles + 1 + postCycles |
| AnimCurve.CycleBounds | builtins/animcurvemixin.py:263-278 | a cycle's baked times increase and lie between its start and the next cycle's start; the skipped seam key makes one end strict |
| AnimCurve.CyclesKeysTimes | builtins/animcurvemixin.py:259-290 | the keys of the first c cycles have increasing times, none past the start of cycle c |
| AnimCurve.InfinityKeysIncreasing | builtins/animcurvemixin.py:236-292 | for strictly increasing input times the baked times are strictly increasing: no two keys share a time at a cycle seam |
| AnimCurve.CyclesKeysLast | builtins/animcurvemixin.py:259-290 | the last baked key is the last key, shifted into the last cycle |
| AnimCurve.BakeEnds | builtins/animcurvemixin.py:252-278 | the first baked time is the bake start and the last is the end of the last cycle |
| AnimCurve.BakeForCovers | builtins/animcurvemixin.py:244-253 | the pre- and post-cycle counts reach back to the start frame and forward to the end frame |
| AnimCurve.InfinityKeysCover | builtins/animcurvemixin.py:222-292 | the baked keys run from the bake start to the end of the last cycle; the first is at or before `startFrame` when `startFrame` is at or before the first key, and the last is at or after `endFrame` when `endFrame` is at or after the last key |
| AnimCurve.InfinityKeysEvaluated | builtins/animcurvemixin.py:279-283 | when values are not copied, every baked key's value is the curve evaluated at its new time |
| AnimCurve.MirroredSpec | builtins/animcurvemixin.py:351-359 | same length and times; value and both tangent y's negated exactly when the mirror flag is set, copied otherwise; mirroring twice restores the keys |
| AnimCurve.ClearKeys | builtins/animcurvemixin.py:404-425 | no inputs: nothing to do; the curve is deleted iff `delete` and the range (scene range when none) covers first..last input; otherwise the given range is cleared |
| AnimCurve.FindTime | builtins/animcurvemixin.py:121 | the first index whose key has the time, or None when no key has it |
| AnimCurve.KeysOutside | builtins/animcurvemixin.py:139-144 | what removing the in-range indices leaves: exactly the keys whose time lies outside the inclusive range |
| AnimCurve.Curve.RemoveRange | builtins/animcurvemixin.py:139-144 | deleting the in-range indices from the highest down leaves exactly the keys outside the range, in order |
| AnimCurve.Curve.Remove | builtins/animcurvemixin.py:89-148 | no argument removes the key at the current time; an index removes that key; a time removes the key found there, if any; two arguments remove the range; other types and more arguments raise TypeError with nothing removed |
| AnimCurve.Curve.RemoveIndex | builtins/animcurvemixin.py:104-108 | a valid index removes exactly that key; an invalid one is a RuntimeError from the host with nothing removed |
| AnimCurve.Curve.RemoveAtTime | builtins/animcurvemixin.py:117-129 | the first key at the time is removed; with none at that time nothing changes |
| AnimCurve.Curve.GetInfinityKeys | builtins/animcurvemixin.py:222-292 | fewer than two keys come back as they are; otherwise a missing `animationRange` raises TypeError at the unpacking, and a given range makes the loop over cycles and keys return the infinity-key specification |
| AnimCurve.Curve.MirrorKeys | builtins/animcurvemixin.py:331-359 | returns the keys of the range, mirrored by the flag |
| MeshComponents.AppendItemsSpec | builtins/meshmixin.py:343-366 | the append loop keeps the deque duplicate-free and in range, keeps the old elements as a prefix, adds exactly the int items, succeeds iff no item fails the occupancy lookup, and otherwise raises KeyError |
| MeshComponents.RemoveItemsSpec | builtins/meshmixin.py:300-323 | the remove loop keeps the deque duplicate-free and in range; when no lookup fails it leaves exactly the old elements not named by an int item, in their old relative order; a failed lookup is a KeyError |
| MeshComponents.RemoveFirstIsKeep | builtins/meshmixin.py:321 | on a duplicate-free deque, `deque.remove(x)` is the same as filtering x out |
| MeshComponents.KeepKeep | builtins/meshmixin.py:304-321 | removing one batch and then another is removing their union |
| MeshComponents.Unoccupied | builtins/meshmixin.py:585 | `dict.fromkeys(range(n), False)`: exactly the keys 0..n−1, all False |
| MeshComponents.AppendDistinct | builtins/meshmixin.py:139 | appending distinct in-range ints to an empty component gives exactly those ints in order, with no error |
| MeshComponents.AppendInRange | builtins/meshmixin.py:581-588 | appending in-range ints to an empty component succeeds and holds exactly those ints, once each |
| MeshComponents.SortedSeq | builtins/meshmixin.py:609 | `sorted`: ascending and a permutation of its input |
| MeshComponents.Component.AppendItemsLoop | builtins/meshmixin.py:347-366 | the loop over the items computes the append specification and keeps the occupancy map equal to deque membership |
| MeshComponents.Component.RemoveItemsLoop | builtins/meshmixin.py:304-323 | the loop over the items computes the remove specification and keeps the occupancy map equal to deque membership |
| MeshComponents.Component.Append | builtins/meshmixin.py:343-374 | a sequence is appended item by item, an int as a one-item list; any other type raises TypeError with nothing changed; in the older variant only mutable sequences and int arrays are accepted (nodetypes/meshmixin.py:296) |
| MeshComponents.Component.Extend | builtins/meshmixin.py:386-396 | as append, except that the older variant wraps an int in a tuple, which append then rejects with TypeError (nodetypes/meshmixin.py:337-339) |
| MeshComponents.Component.Insert | builtins/meshmixin.py:398-407 | the index is ignored and the element appended |
| MeshComponents.Component.Remove | builtins/meshmixin.py:290-331 | a sequence is removed item by item, an int as a singleton; any other type only logs a warning and changes nothing |
| MeshComponents.Component.SetItem | builtins/meshmixin.py:183-193 | item assignment changes nothing |
| MeshComponents.Component.SetElements | builtins/meshmixin.py:571-600 | the occupancy is reset and the argument appended to an empty deque; an int becomes a one-item array; any other type raises TypeError |
| MeshComponents.Component.Contains | builtins/meshmixin.py:205-225 | an int is present iff it is an element; a list/tuple/deque/array iff all its items are; any other type raises TypeError |
| MeshComponents.Component.Present | builtins/meshmixin.py:1119 | the argument's int items that are elements, duplicates and order included |
| MeshComponents.Component.Absent | builtins/meshmixin.py:1137 | the argument's int items that are in range and not elements; out-of-range ints appear in neither list |
| MeshComponents.Component.PresentOne | builtins/meshmixin.py:1119 | one argument item contributes its int exactly when that int is an element |
| MeshComponents.Component.PresentAppend | builtins/meshmixin.py:1119 | the comprehension keeps the argument's order and repeats: the query of a concatenation is the concatenation of the queries |
| MeshComponents.Component.AbsentOne | builtins/meshmixin.py:1137 | one argument item contributes its int exactly when that int is in range and not an element |
| MeshComponents.Component.AbsentAppend | builtins/meshmixin.py:1137 | the comprehension keeps the argument's order and repeats: the query of a concatenation is the concatenation of the queries |
| MeshComponents.Component.Intersection | builtins/meshmixin.py:1107-1123 | the present items for an accepted sequence type, TypeError otherwise |
| MeshComponents.Component.Difference | builtins/meshmixin.py:1125-1141 | the absent in-range items for an accepted sequence type, TypeError otherwise |
| MeshComponents.Component.Sorted | builtins/meshmixin.py:602-609 | the elements in ascending order, each once |
| MeshComponents.Component.Copy | builtins/meshmixin.py:139 | a new component over the same mesh with the same elements in the same order |
| MeshComponents.Component.Plus | builtins/meshmixin.py:131-140 | `__add__` appends to a fresh copy; this component is unchanged |
| MeshComponents.Component.Minus | builtins/meshmixin.py:152-161 | `__sub__` returns None exactly when `remove` rejects the argument type; otherwise a fresh copy with the items removed as `remove` does; this component is unchanged |
| MeshComponents.Component.Convert | builtins/meshmixin.py:861-887 | the same type gives a copy (the older variant returns the component itself, nodetypes/meshmixin.py:849-851); another mesh type gives the connected elements; a non-mesh type raises TypeError |
| MeshComponents.Component.Elements | builtins/meshmixin.py:562-569 | duplicate-free, and x is listed iff it is in range and occupied |
| MeshComponents.PresentAbsentSplit | builtins/meshmixin.py:1107-1141 | every in-range int item is in exactly one of intersection and difference |
| MeshComponents.Component.constructor | builtins/meshmixin.py:63-71 | an empty component of the given mesh and type whose occupancy table covers every element of that type, all unoccupied |
| MeshTopology.Gather | builtins/meshmixin.py:658-703 | every neighbour of every listed element is in the result |
| MeshTopology.GatherFrom | builtins/meshmixin.py:658-703 | every gathered index is a neighbour of some listed element |
| MeshTopology.GatherInRange | builtins/meshmixin.py:658-703 | on a well-formed mesh, in-range elements have in-range neighbours |
| MeshTopology.GatherAppend | builtins/meshmixin.py:661-697 | gathering from two lists one after the other is gathering from their concatenation |
| MeshTopology.GatherLoop | builtins/meshmixin.py:661-703 | the queue loop returns the neighbours of each index in queue order, i.e. the gather specification |
| PyValues.IntsOfInts | builtins/meshmixin.py:347-353 | skipping non-int items of a list of ints gives the ints back |
| MeshGraph.GrowOnce | builtins/meshmixin.py:1051-1057 | one growth step keeps the elements as a prefix; it adds elements when anything connected is missing, and reports 0 only when the component is closed under adjacency |
| MeshGraph.Shell | builtins/meshmixin.py:1021-1066 | an empty component is returned itself; otherwise a new component that starts with the original elements and is closed under adjacency, unless the iteration cap stopped the growth first |
| MeshGraph.OccupiedNeighbours | builtins/meshmixin.py:1231 | the neighbours of an element that are themselves elements |
| MeshGraph.Tips | builtins/meshmixin.py:1231-1232 | exactly the elements with one occupied neighbour |
| MeshGraph.Candidates | builtins/meshmixin.py:1247 | the next-step candidates: occupied neighbours of the previous element that are not yet in the walk |
| MeshGraph.RetraceStart | builtins/meshmixin.py:1234 | the first tip when there are exactly two tips; otherwise the first element |
| MeshGraph.RetraceElements | builtins/meshmixin.py:1221-1268 | an empty component fails on the index; a stuck walk returns False with the elements unchanged; success returns True with the elements reordered, a permutation that starts at the start element and steps between neighbours (the edge variant is the same walk, lines 1314-1358) |
| MeshGraph.RetraceElementsStrict | nodetypes/meshmixin.py:1199-1235 | anything but two tips fails the two-name unpacking (ValueError); a step without exactly one candidate raises RuntimeError with nothing changed; success walks from the first tip to the second between neighbours, without repeats (the edge variant is lines 1334-1370) |
| MeshGraph.ReorderKeepsOccupancy | nodetypes/meshmixin.py:1235 | when the walk covers every element, the occupancy still agrees with the new deque; when it is shorter, some occupied element has been dropped from the deque |
| MeshGraph.StrictWalk | nodetypes/meshmixin.py:1214-1231 | a completed walk runs from the start to the end between neighbours, duplicate-free, over elements only |
| MeshGraph.AddNew | builtins/meshmixin.py:1397-1405 | appending only the indices not yet listed keeps the list duplicate-free, keeps its prefix and adds exactly the new indices |
| MeshGraph.SwapFirstTwo | builtins/meshmixin.py:1394-1396 | swapping the first two vertices keeps the contents and the absence of duplicates |
| MeshGraph.AssociatedVerticesOrdered | builtins/meshmixin.py:1370-1407 | an empty component fails on the index; a failed retrace returns []; otherwise the duplicate-free vertices of the retraced edges, exactly the edges' end vertices |
| MeshGraph.CollectEnds | builtins/meshmixin.py:1382-1405 | the end vertices of the edges, each once, at least two for a non-empty component |
| MeshGraph.AssociatedVertices | builtins/meshmixin.py:1411-1422 | unordered: the set of end vertices of the edges |
| MeshGraph.CountContained | builtins/meshmixin.py:1513-1514 | the number of the edge's faces that belong to the component, zero iff none do |
| MeshGraph.GetEdgeBoundary | builtins/meshmixin.py:1487-1524 | an edge of the faces is kept, once, iff it touches exactly one face overall or exactly one face of the component |
| MeshGraph.BoundaryOf | builtins/meshmixin.py:1499-1522 | the loop over the edges keeps, without duplicates, exactly the edges on the boundary |
| MeshGraph.GetEdges | nodetypes/meshmixin.py:1398-1427 | the edges of the given faces, or of the component's faces when no indices are given |
| MeshGraph.GetVertices | builtins/meshmixin.py:1526-1555 | the vertices of the given faces, or of the component's faces when no indices are given |
| MeshGraph.GetVerticesLegacy | nodetypes/meshmixin.py:1429-1458 | as written: the vertices of the component's own faces, whatever indices are given |
| MeshGraph.GetVerticesIgnoresIndices | nodetypes/meshmixin.py:1447 | on a two-face mesh, asking for face 1 of a component holding face 0 returns face 0's vertex |
| MeshConsolidate.Unprocessed | nodetypes/meshmixin.py:1311 | the connected edges kept: those that are keys of `processed` and not yet marked |
| MeshConsolidate.MarkAll | nodetypes/meshmixin.py:1314 | `processed.update(...)`: the listed edges become marked and nothing else changes |
| MeshConsolidate.Grow | nodetypes/meshmixin.py:1300-1318 | the group starts at the seed and holds only keys that were unmarked at the start; every member but the seed is marked and is a neighbour of a member; marks only grow, and only for group members; when the loop stops, every key next to a group member is marked |
| MeshConsolidate.ConsolidateGroups | nodetypes/meshmixin.py:1287-1332 | every element lies in some group, groups hold only the component's elements, and each group is closed: an element next to group j lies in group j or an earlier one; with symmetric edge connectivity and distinct in-range elements, no element lies in two groups |
| MeshConsolidate.GrowthFresh | nodetypes/meshmixin.py:1294-1311 | with symmetric connectivity, a group grown from an unprocessed seed shares no element with the earlier groups |
| MeshConsolidate.SeedIsolated | nodetypes/meshmixin.py:1300-1314 | with symmetric connectivity, a seed the growth leaves unmarked has no neighbour among the component's elements |
| MeshConsolidate.ConsolidateElements | nodetypes/meshmixin.py:1276-1332 | one edge component per group, with exactly the group's edges; the groups cover the component, are closed and, with symmetric edge connectivity, pairwise disjoint; with `retraceElements` each is retraced, and a retrace error is passed on |
| MeshSymmetry.Position | nodetypes/meshmixin.py:2008 | Python indexing of the point list: a negative index counts from the end; the position is always in range |
| MeshSymmetry.Lookup | nodetypes/meshmixin.py:1972-1991 | int items found in the table are answered from it, the others are collected as missing; non-int items are skipped |
| MeshSymmetry.Resolve | nodetypes/meshmixin.py:2013-2021 | each missing index gets its nearest mirrored point, unless the search answers `numPoints` (no match), in which case it is dropped |
| MeshSymmetry.MirrorSelection | nodetypes/meshmixin.py:1959-2034 | the selection holds only int items of the argument; table hits come back as stored; a miss is present iff the nearest-point search found a match, and then maps to it |
| MeshSymmetry.MeshNode.SymmetryTable | nodetypes/meshmixin.py:1888-1910 | the stored table, created empty when the attribute is missing |
| MeshSymmetry.MeshNode.SetSymmetryTable | nodetypes/meshmixin.py:1912-1938 | a dict is stored; any other value raises TypeError with nothing written |
| MeshSymmetry.MeshNode.ResetSymmetryTable | nodetypes/meshmixin.py:1940-1947 | the table becomes empty |
| MeshSymmetry.MeshNode.MirrorVertexIndices | nodetypes/meshmixin.py:1949-2034 | returns the mirror specification; a non-collection raises TypeError with nothing written; the table gains the resolved pairs and is written back exactly once when something was missing, and not at all otherwise |
| SceneNaming.RStripDigits | mpyscene.py:508 | `name.rstrip(string.digits)`: the longest prefix that does not end in a digit; everything stripped is a digit |
| SceneNaming.NatToString | mpyscene.py:515 | the decimal form of the counter: non-empty, digits only |
| SceneNaming.NatToStringInjective | mpyscene.py:515 | different counters give different names |
| SceneNaming.CandidateInjective | mpyscene.py:515 | `stem + str(k)` is different for different k, so the loop tries a new name every time |
| SceneNaming.MakeNameUnique | mpyscene.py:500-518 | the result is never an existing name; an unused name is returned unchanged; otherwise it is stem + k for the smallest k ≥ 1 not in use |
| SceneNaming.ShapeFileNameRule | mpyscene.py:879-882 | the file name always ends in `.json`, a name that already does is kept, and applying the rule twice changes nothing more |
| SceneNaming.ShapeTemplateDoublesSuffix | mpyfactory.py:723-726 | the factory always appends `.json`, so a name that already ends in it gets a second one, five characters longer |
| SceneNaming.ShadingNodeName | mpyscene.py:968-972 | an empty or null name becomes `<typeName>1`; otherwise the name is kept (also mpyfactory.py:846-848) |
| SceneNaming.ShaderNames | mpyscene.py:1013-1023 | the shader is named as a shading node and its group is `<shader>SG` (also mpyfactory.py:887-897) |
| SceneNaming.DisplayLayerName | mpyscene.py:929-933 | an empty or null name becomes `layer1`; otherwise the name is kept (also mpyfactory.py:809-811) |
| SceneNaming.SearchNamespace | mpyscene.py:601-603 | a null or empty namespace becomes the root `:` (also mpyfactory.py:524-526) |
| SceneNaming.NodesInNamespace | mpyscene.py:590-611 | the nodes of the namespace when it exists, none otherwise |
| SceneNaming.ReferenceNodesFilter | mpyscene.py:693-711 | a reference node is skipped iff its name ends with `sharedReferenceNode` and skipShared is set; with skipShared false every node is kept, in order |
| SceneNaming.CreateNodePlanRules | mpyfactory.py:728-795 | no parent gives a dependency node and a parent a DAG node under it; a dict name is concatenated; the node is renamed iff the resulting name is a non-empty string; `skipSelect=False` selects it, replacing the selection |
| SceneNaming.Merge | mpyscene.py:816-819 | merging the current selection keeps the new selection as a prefix and adds the current nodes |
| SceneNaming.SetSelectionRules | mpyscene.py:801-836 | the scene accepts a selection list or a list, tuple or set and keeps the current selection unless replacing; the factory accepts only a selection list or list and raises TypeError for the rest (mpyfactory.py:692-713); both raise TypeError for other types |
| SceneNaming.ReferenceNodes | mpyscene.py:693-711 | the reference nodes yielded are never more than the scene's |
| ClassRegistry.PairsOf | abstract/abstractfactory.py:131-135 | a tuple or list key gives one (key, class) pair per item, in order |
| ClassRegistry.IterClassesMembers | abstract/abstractfactory.py:108-139 | a (key, class) pair is yielded iff some found class is that class and carries that key |
| ClassRegistry.IterClassesKeys | abstract/abstractfactory.py:123-125 | a class without the key attribute contributes no pair |
| ClassRegistry.ClassMap | abstract/abstractfactory.py:32 | the dict comprehension has exactly the keys of the pairs |
| ClassRegistry.ClassMapLastWins | abstract/abstractfactory.py:32 | for a repeated key the last pair wins |
| ClassRegistry.GetClass | abstract/abstractfactory.py:141-149 | `get(key, None)`: None iff the key is unknown, otherwise the stored class |
| ClassRegistry.GetClassUnknown | abstract/abstractfactory.py:32 | a key carried by no found class is unknown to the built class map |
| ClassRegistry.PairKeyFound | abstract/abstractfactory.py:108-139 | every yielded key comes from some found class |
| ClassRegistry.SingletonStore.constructor | abstract/singleton.py:18 | the shared instance store starts empty |
| ClassRegistry.SingletonStore.New | abstract/singleton.py:20-31 | an instance is created and stored only when the class name has none; otherwise the stored one is returned and nothing changes |
| ClassRegistry.SingletonStore.GetInstance | abstract/singleton.py:73-90 | the stored instance when there is one; otherwise one is created through the constructor and stored under the class name |
| NodeInstances.AnyHasFnExists | mpynode.py:111 | `any(hasFn(x) for x in ts)` holds iff some listed type is one of the node's function sets |
| NodeInstances.IsCompatible | mpynode.py:87-115 | TypeError iff the argument is not an MObject or the api type is neither an int nor a list/tuple; an int means `hasFn`, a list means any of them |
| NodeInstances.NodeRegistry.constructor | mpynode.py:25 | the registry starts empty |
| NodeInstances.NodeRegistry.NodeDeleted | mpynode.py:230-241 | deleting a node kills its instance and changes nothing else |
| NodeInstances.NodeRegistry.GetInstance | mpynode.py:118-162 | None for a dead handle; the registered instance while it is alive; a dead registered instance is evicted and a new live instance of the node's class registered under the hash code |
| NodeInstances.NodeRegistry.New | mpynode.py:27-62 | an accepted object goes through getInstance, a wrapper is returned as it is, an int is looked up, anything else raises TypeError; only the first changes the registry |
| NodeInstances.NodeRegistry.Registered | mpynode.py:58 | `__instances__.get(code, None)` |
| NodeInstances.NodeRegistry.AddExtension | mpynode.py:187-204 | nothing when the node has an extension; otherwise its class becomes the factory's extension class for (class, extension) |
| NodeInstances.NodeRegistry.RemoveExtension | mpynode.py:206-228 | nothing without an extension; otherwise the class is the factory's class for the node again, and a lookup error propagates with the class unchanged |
| NodeInstances.MetaRegistry.constructor | abstract/mabcmeta.py:20 | the shared registry starts empty |
| NodeInstances.MetaRegistry.GetInstance | abstract/mabcmeta.py:71-103 | the instance only for a live handle whose registered instance is alive; a dead registered instance is deleted and None returned |
| NodeInstances.MetaRegistry.Call | abstract/mabcmeta.py:22-67 | a wrapper is returned as it is; an accepted object gives the live registered instance, or a new one that gets `__post_init__` and is registered under its hash code; an int is looked up; anything else raises TypeError |
| ObjectWrapper.Lower | abstract/mobjectwrapper.py:67 | `str.lower` restricted to ASCII: each character is mapped on its own, `A`-`Z` to `a`-`z` and every other character unchanged, keeping the length |
| ObjectWrapper.Ne | abstract/mobjectwrapper.py:54-114 | `__ne__` is the exact negation of `__eq__`, and an unsupported value is unequal |
| ObjectWrapper.LowerIdempotent | abstract/mobjectwrapper.py:67 | lower-casing twice is lower-casing once |
| ObjectWrapper.NameMatchIgnoresCase | abstract/mobjectwrapper.py:65-67 | a string matches iff the lower-cased node name ends with it lower-cased, whatever the case of either side; a node matches its own name |
| ObjectWrapper.LastLongest | abstract/mobjectwrapper.py:306-310 | the chosen index has the greatest MRO length, and no later index has as great a one (the last after a stable sort) |
| ObjectWrapper.FunctionSetCache.constructor | abstract/mobjectwrapper.py:24 | the cache starts empty |
| ObjectWrapper.FunctionSetCache.Find | abstract/mobjectwrapper.py:287-312 | the cached set for a known api type; otherwise the compatible set of greatest MRO length, cached; IndexError when none is compatible |
| ObjectWrapper.Wrapped.constructor | abstract/mobjectwrapper.py:154-161 | a new wrapper is not initialised |
| ObjectWrapper.Wrapped.Init | abstract/mobjectwrapper.py:26-43 | nothing on an initialised wrapper; otherwise the handle is stored and the function set looked up, an IndexError leaving the handle set |
| NodeFactory.FullTypeName | mpyfactory.py:345 | `'{mixinName}+{extensionName}'`: for a '+'-free mixin name the first '+' of the key sits right after it, with the mixin name before and the extension name after |
| NodeFactory.FirstPlus | mpyfactory.py:345 | the position found holds the first '+' of the memo key |
| NodeFactory.FirstPlusAfter | mpyfactory.py:345 | in `<mixin>+<extension>` with a '+'-free mixin name the first '+' is right after the mixin name |
| NodeFactory.FullTypeNameInjective | mpyfactory.py:345 | two '+'-free mixin names give the same memo key only for the same (mixin, extension) pair, so the memo never confuses two combinations |
| NodeFactory.KeyOrder | abstract/abstractfactory.py:32 | the dict's keys in insertion order: each key once, exactly the keys of the pairs |
| NodeFactory.ValuesInOrder | mpyfactory.py:407 | `__classes__.values()`: one class per key, in key order |
| NodeFactory.Candidates | mpyfactory.py:407 | the comprehension keeps exactly the compatible classes without `__plugin__` |
| NodeFactory.FirstDeepest | mpyfactory.py:418-423 | `depths.index(max(depths))`: an index of maximal depth with every earlier one shallower |
| NodeFactory.MixinChoice | mpyfactory.py:387-431 | a class cached under the node's api type is returned as it is; TypeError only when nothing is cached and no candidate is found |
| NodeFactory.MixinChoiceSelects | mpyfactory.py:387-431 | without a cached api type: TypeError iff no class of the map is compatible and not a plugin; otherwise such a class, of maximal depth among the candidates and the first of that depth (also mpyscene.py:434-478) |
| NodeFactory.PluginChoice | mpyfactory.py:295-314 | the registered plugin class for the node's type name, and `getMixin`'s answer when there is none (also mpyscene.py:342-361) |
| NodeFactory.Factory.constructor | mpyscene.py:29-44 | the class map is built from the found classes, the plugin map from the plugin packages, and the extension cache is empty |
| NodeFactory.Factory.Initialise | mpyfactory.py:28-45 | the class map is rebuilt; plugins and extensions are reset only when no singleton instance exists yet |
| NodeFactory.Factory.GetMixin | mpyfactory.py:387-431 | the answer is `MixinChoice` of the old caches, and a found class is cached under the api type, appended to the key order (also mpyscene.py:434-478) |
| NodeFactory.Factory.CreateExtensionClass | mpyfactory.py:328-353 | TypeError unless both are classes; otherwise the class memoised under `<mixin>+<extension>`, created on first use only, so a repeated call returns the same class (also mpyscene.py:375-400) |
| NodeFactory.Factory.GetPlugin | mpyfactory.py:295-314 | the answer is `PluginChoice`, caching as `getMixin` does when it falls through |
| NodeFactory.Factory.GetExtensionMixin | mpyfactory.py:355-385 | TypeError without the extension attributes or with an empty class or module name; otherwise the memoised combination of the plugin/mixin class and the found extension class, an error of the mixin lookup propagating (also mpyscene.py:402-432) |
| NodeFactory.Factory.GetClassOf | mpyfactory.py:261-281 | plugin first, then extension, then mixin, each answer stated by the choice functions (also mpyscene.py:308-328) |
| Attribute.MPyAttribute.constructor | mpyattribute.py:28-55 | the descriptor keeps its name, default and hooks, with no change hook |
| Attribute.MPyAttribute.Get | mpyattribute.py:57-82 | the descriptor itself without an instance; TypeError from `plug` for a non-node; otherwise the plug value, passed through `fget` when there is one |
| Attribute.MPyAttribute.Set | mpyattribute.py:84-111 | nothing without an instance; otherwise `fset` rewrites the value, the plug is written (TypeError for a non-node after `fset` ran) and `fchange` receives the written value; reading back gives the written value through `fget` |
| Attribute.MPyAttribute.Delete | mpyattribute.py:113-133 | nothing without an instance; otherwise `fdel` runs and the plug is reset, so it reads its default |
| Attribute.MPyAttribute.ValidateAndGetValue | mpyattribute.py:153-167 | a callable becomes the getter, anything else is ignored; the descriptor is returned |
| Attribute.MPyAttribute.ValidateAndSetValue | mpyattribute.py:169-183 | a callable becomes the setter; the descriptor is returned |
| Attribute.MPyAttribute.ValidateAndResetValue | mpyattribute.py:185-199 | a callable becomes the deleter; the descriptor is returned |
| Attribute.MPyAttribute.Changed | mpyattribute.py:201-215 | a callable becomes the change hook; the descriptor is returned |
| Attribute.MPyAttribute.Notify | mpyattribute.py:217-227 | the change hook, when set, receives what `__get__` gives; no plug is written |
| NodeExtension.IterBases | mpynodeextension.py:61-70 | `reversed(getmro(cls))`: the same classes, the i-th from the end of the MRO at position i |
| NodeExtension.IterBasesEnds | mpynodeextension.py:64-65 | the root base comes first and the class itself last |
| NodeExtension.ChildDefinitionSpec | mpynodeextension.py:107-108 | both names are the attribute's name unless a constructor keyword overrides them; every constructor keyword is kept and nothing else is added |
| NodeExtension.DictChildrenSound | mpynodeextension.py:89-110 | every child comes from an MPyAttribute of the class with at least one constructor keyword |
| NodeExtension.DictChildrenComplete | mpynodeextension.py:89-110 | every MPyAttribute with constructor keywords gives a child |
| NodeExtension.DictChildrenSpec | mpynodeextension.py:89-110 | a child is in a class's list iff it is the definition of one of its MPyAttributes with constructors |
| NodeExtension.ClassesChildrenSplit | mpynodeextension.py:85-110 | the children of a run of classes are the children of each part, concatenated in class order |
| NodeExtension.OwnChildrenLast | mpynodeextension.py:85-110 | the class's own attributes close the children list, after all of its bases' |
| NodeExtension.GetUserAttributeDefinition | mpynodeextension.py:72-112 | the nested loops build the compound `metadata` definition whose children are exactly the class-by-class children over `iterBases` |
| NodeExtension.ExtensionNode.constructor | mpynodeextension.py:19-20 | a node starts with empty extension class and module fields and no added definition |
| NodeExtension.ExtensionNode.EnsureUserAttributes | mpynodeextension.py:114-129 | the definition is merged into the node, and the class and module fields name the last direct base of the node's class and its module |
| UserProps.ReloadRestores | collections/userproperties.py:231-252 | given a JSON pair that round-trips, reloading the text `invalidate` wrote for a non-empty map restores exactly that map, whatever is in memory |
| UserProps.DeleteLastResurrects | collections/userproperties.py:64-73 | deleting the last key leaves the notes text unchanged (`invalidate` skips an empty map), so a reload brings the deleted key back |
| UserProps.ReloadRestoresCorrected | collections/userproperties.py:240-252 | with an `invalidate` that also writes an empty map, reloading always restores the map in memory |
| UserProps.UserProperties.constructor | collections/userproperties.py:22-40 | an empty map, then `reload` from the node's notes |
| UserProps.UserProperties.Get | collections/userproperties.py:42-50 | the stored value iff the key is present, KeyError otherwise |
| UserProps.UserProperties.EnsureNotes | collections/userproperties.py:168-181 | afterwards the node has a notes attribute; nothing else changes |
| UserProps.UserProperties.Invalidate | collections/userproperties.py:240-252 | the notes are rewritten from a non-empty map and left as they were for an empty one |
| UserProps.UserProperties.Set | collections/userproperties.py:52-62 | the key is set and the notes hold the encoded map |
| UserProps.UserProperties.Delete | collections/userproperties.py:64-73 | KeyError with nothing changed for a missing key; otherwise the key is removed and the notes invalidated |
| UserProps.UserProperties.Update | collections/userproperties.py:157-166 | the items are merged over the map, then the notes invalidated |
| UserProps.UserProperties.Buffer | collections/userproperties.py:183-199 | the notes text, or '' when the attribute holds none |
| UserProps.UserProperties.SetBuffer | collections/userproperties.py:201-229 | nothing for ''; otherwise the decoded map, or {} for invalid JSON, then the notes invalidated |
| UserProps.UserProperties.Reload | collections/userproperties.py:231-238 | `setBuffer(buffer())` |
| ListElements.Upstream | plugins/listmixin.py:271-273 | for the active element every connected child is replaced by the plug connected into it, and an unconnected child stays unconnected |
| ListElements.SetSourceInputs | plugins/listmixin.py:289-307 | an empty source changes nothing; otherwise child c is connected to (or, for a null plug, disconnected like) `source[c]` and every later child keeps its input |
| ListElements.MoveSlotUniform | plugins/listmixin.py:101-119 | a move keeps one input per value child in every slot |
| ListElements.MovedLocal | plugins/listmixin.py:110-117 | the element a move writes depends only on its two slots |
| ListElements.ShiftDownSpec | plugins/listmixin.py:83-88 | moving the elements from the highest down means each slot index < m ≤ n ends up with the copy of the original slot m − 1, and every other slot is as it was |
| ListElements.ShiftDownStep | plugins/listmixin.py:86-88 | the top move followed by the moves below it gives the same slots as `ShiftDownSpec` states |
| ListElements.ListNode.constructor | plugins/listmixin.py:12-23 | the list node holds the given elements and active index |
| ListElements.ListNode.SetSource | plugins/listmixin.py:279-307 | a null or empty source changes nothing; otherwise the element's inputs become `SetSourceInputs` of the source, child by child |
| ListElements.ListNode.MoveElement | plugins/listmixin.py:101-119 | slot `newIndex` gets every field of slot `oldIndex` and its sources; nothing else changes |
| ListElements.ListNode.InsertElement | plugins/listmixin.py:68-99 | the elements from `index` on are shifted up one slot, highest first, and slot `index` then holds the given name, flag, weight, value and source; the returned element is `index` |
| ListElements.InsertShifts | plugins/listmixin.py:68-99 | on a list of n elements, inserting at index ≤ n keeps the elements below index, moves each later one up a slot with its name, value, weight and flag, and gives n + 1 elements |
| ListElements.MovedFields | plugins/listmixin.py:113-116 | a move copies name, value, weight and absolute flag of a present slot |
| ListElements.ShiftDownDense | plugins/listmixin.py:83-92 | shifting and filling slot `index` turns elements 0..n−1 into 0..n |
| ListElements.InsertAtEndShiftsNothing | plugins/listmixin.py:84 | inserting at or past the end moves nothing |
| ListElements.MoveIsCopy | plugins/listmixin.py:101-119 | a move is a copy: the source slot keeps its element, the target gets all its fields and its sources, later inputs kept |
| HyperLayout.Layout.constructor | builtins/hyperlayoutmixin.py:211-228 | a layout starts with no `hyperPosition` elements and no connections |
| HyperLayout.Layout.AddMember | builtins/hyperlayoutmixin.py:101-126 | False with nothing changed for a member or the layout itself; otherwise the node is connected at the next available element, becomes a member, and True is returned |
| HyperLayout.Layout.AddMembers | builtins/hyperlayoutmixin.py:128-138 | afterwards every given node is a member or is the layout, no earlier connection is lost, and every new connection comes from one of the given nodes |
| HyperLayout.Layout.RemoveMember | builtins/hyperlayoutmixin.py:140-166 | False with nothing changed for a non-member; otherwise its element is disconnected, it is no longer a member, and True is returned |
| HyperLayout.Layout.RemoveMembers | builtins/hyperlayoutmixin.py:168-178 | afterwards none of the given nodes is a member, no connection was added, and the connection of every member not among the given nodes is kept |
| HyperLayout.Layout.IterMembers | builtins/hyperlayoutmixin.py:80-99 | the loop yields the connected node of every element that has one, in physical order (`SlotArray.MembersOf`) |
| HyperLayout.Layout.ResetHyperPositions | builtins/hyperlayoutmixin.py:230-246 | every existing element is removed with its connection, so nothing is a member |
| SlotArray.IncreasingTail | builtins/hyperlayoutmixin.py:221-226 | after the first element of a list in physical order, the rest is still ascending and above it |
| SlotArray.InsertSorted | builtins/hyperlayoutmixin.py:117-125 | connecting at a new logical index adds exactly that index to the physical order, keeping it ascending; an existing index changes nothing |
| SlotArray.MemberIndex | builtins/hyperlayoutmixin.py:50-69 | `getMemberIndex`: an element whose connected node is the given one, or None when no element has it |
| SlotArray.MembersAgree | builtins/hyperlayoutmixin.py:31-48 | a node is listed by `members` iff `hasMember` finds its index |
| SlotArray.MembersCount | builtins/hyperlayoutmixin.py:80-99 | with distinct indices, `members` lists one node per connected element |
| SlotArray.ConnectKeepsWellFormed | builtins/hyperlayoutmixin.py:101-126 | connecting a non-member at a free element keeps the indices ascending and every node at one element at most |
| SlotArray.MemberIndexFinds | builtins/hyperlayoutmixin.py:50-69 | a node connected at some existing element is found |
| SlotArray.NotConnected | builtins/hyperlayoutmixin.py:153-156 | a node connected nowhere has no member index |
| SlotArray.MemberIndexUnique | builtins/hyperlayoutmixin.py:50-69 | in a well-formed layout the member index of a connected node is its one element |
| SlotArray.ConnectedCount | builtins/hyperlayoutmixin.py:41-48 | in a well-formed layout `members` has one entry per connection |
| Container.InfoIndices | nodetypes/containerbasemixin.py:522-553 | only indices of existing elements are yielded |
| Container.InfoIndicesAll | nodetypes/containerbasemixin.py:522-553 | without `skipEmptyElements` every element is yielded, in physical order |
| Container.InfoIndicesFiltered | nodetypes/containerbasemixin.py:545-549 | with `skipEmptyElements` exactly the elements holding a node are yielded |
| Container.InfoIndicesOrdered | nodetypes/containerbasemixin.py:536-541 | the yielded indices stay in ascending physical order |
| Container.NewIsUnpublished | nodetypes/containerbasemixin.py:248-266 | a node new to the container and named by no earlier entry is not published when its turn comes |
| Container.PublishStep | nodetypes/containerbasemixin.py:248-266 | one `publishNode(entry, index=i)` keeps the loop's three facts: new nodes at their indices, later elements untouched, nothing else published |
| Container.PlacedStep | nodetypes/containerbasemixin.py:248-266 | after entry i every new node of entries 0..i sits at its entry's index |
| Container.FromEntriesStep | nodetypes/containerbasemixin.py:248-266 | after entry i every published node was published before or is named by entries 0..i |
| Container.ContainerNode.constructor | nodetypes/containerbasemixin.py:39-46 | a container starts with no elements, no hyper layout and unlocked |
| Container.ContainerNode.GetPublishedNode | nodetypes/containerbasemixin.py:293-311 | the node at the element, None for an empty one |
| Container.ContainerNode.PublishNode | nodetypes/containerbasemixin.py:198-231 | False with nothing changed for a published node; otherwise it is connected at the given index (the next available one by default), its alias set when given, and True is returned |
| Container.ContainerNode.PublishNodes | nodetypes/containerbasemixin.py:233-270 | TypeError for anything but a list or dict; otherwise entry i is published at index i: a new node ends up there, with the alias of a tuple or dict entry, elements past the entries are untouched, and no other node is published |
| Container.ContainerNode.UnpublishNode | nodetypes/containerbasemixin.py:272-291 | nothing for an unpublished node; otherwise its element is emptied and it is no longer published; elements, aliases, layout, lock state and log are untouched |
| Container.ContainerNode.IterPublishedNodeInfo | nodetypes/containerbasemixin.py:522-553 | the loop yields `InfoIndices` of the elements |
| Container.ContainerNode.ResetPublishedNodeInfo | nodetypes/containerbasemixin.py:555-573 | nothing while a node is published; otherwise every element is removed; published nodes, aliases, layout, lock state and log are untouched |
| Container.ContainerNode.GetHyperLayout | nodetypes/containerbasemixin.py:87-106 | the attached layout, or a new empty one that is then attached |
| Container.ContainerNode.Contains | nodetypes/containerbasemixin.py:48-56 | a member of the hyper layout or a published node; only a missing layout is created (empty, as `getHyperLayout` does) and nothing else changes |
| Container.ContainerNode.DeleteMembers | nodetypes/containerbasemixin.py:173-196 | the container is locked, the layout's members (builtins/hyperlayoutmixin.py:180-200) and the layout itself deleted when there is one, and the container unlocked, whatever its earlier state |
| Container.Deletions | builtins/hyperlayoutmixin.py:189-200 | one deletion per member, in order |
| DisplayLayer.Without | builtins/displaylayermixin.py:149-152 | breaking the node's `drawOverride` input leaves exactly the other connections, each plug still with one source |
| DisplayLayer.NodesSpec | builtins/displaylayermixin.py:75-114 | a node is in `nodes()` iff a connection from the layer's `drawInfo` reaches it |
| DisplayLayer.NodesAppend | builtins/displaylayermixin.py:92-101 | the connection made last lists its node last |
| DisplayLayer.NodesEmpty | builtins/displaylayermixin.py:92-101 | a layer with no connection out of `drawInfo` has no nodes |
| DisplayLayer.Scene.constructor | builtins/displaylayermixin.py:85-114 | the scene holds the given connections and layer ids |
| DisplayLayer.Scene.GetItem | builtins/displaylayermixin.py:45-53 | `nodes()[index]`: a Python index, negative ones counting from the end, IndexError outside (also nodetypes/displaylayermixin.py:30-38) |
| DisplayLayer.Scene.IterNodes | builtins/displaylayermixin.py:85-105 | the loop yields the destinations of `drawInfo` in order, null nodes skipped |
| DisplayLayer.Scene.AddNode | builtins/displaylayermixin.py:116-127 | the forced connection makes the node the last member of this layer and a member of no other; nobody else's membership changes |
| DisplayLayer.Scene.RemoveNode | builtins/displaylayermixin.py:141-152 | nothing for a non-member; otherwise its input is broken so it is in no layer; nobody else's membership changes |
| DisplayLayer.Scene.AddNodes | builtins/displaylayermixin.py:129-139 | every given node ends up in the layer and no other node's membership changes |
| DisplayLayer.Scene.RemoveNodes | builtins/displaylayermixin.py:154-164 | none of the given nodes is then in the layer and no other node's membership changes |
| DisplayLayer.Scene.ClearNodes | builtins/displaylayermixin.py:166-177 | removing every member, last first, empties the layer and touches no non-member |
| DisplayLayer.Scene.Register | nodetypes/displaylayermixin.py:75-113 | nothing when already registered; otherwise the next available `displayLayerId` element (element count + 1 instead of the reserved 0) is set to its own index and connected |
| PlugTree.ConnectWithin | builtins/dependencymixin.py:1055-1115 | every host connection goes from a plug of the source tree to a plug of the destination tree |
| PlugTree.EqualArityNeverParents | builtins/dependencymixin.py:1080-1093 | for compounds of equal arity the parents are never connected, only plugs below them |
| PlugTree.From | builtins/dependencymixin.py:1107-1109 | one connection from the source to each given destination, in order, with `force` |
| PlugTree.FanOutReachesLeaves | builtins/dependencymixin.py:1101-1109 | a simple source is connected to every non-compound plug of the destination tree, depth first, and to nothing else |
| PlugTree.Connect | builtins/dependencymixin.py:1055-1115 | builtins `connectPlugs`: `force` reaches every host call, in the child-by-child recursion and the fan-out alike |
| PlugTree.Pairs | builtins/dependencymixin.py:1117-1166 | the plug pairs of a list of connections, in order |
| PlugTree.DisconnectMirrorsConnect | builtins/dependencymixin.py:1141-1166 | where connecting does not fan out, disconnecting undoes exactly the pairs connecting made, in the same order; compounds of different arity are handled once at parent level by both (1095-1099, 1156-1160) |
| PlugTree.LegacyDropsForce | nodetypes/dependencymixin.py:734-744 | a forced connection of two one-child compounds reaches the host unforced |
| PlugTree.LegacyConnect | nodetypes/dependencymixin.py:709-752 | nodetypes `connectPlugs` as written: a forced call reaches the host only as the single top-level connection; every call made through the compound recursion is unforced |
| PlugTree.DirectConnect | nodetypes/dependencymixin.py:709-752 | nodetypes `connectPlugs` with `force` passed down: every host call is forced when asked |
| PlugTree.Disconnect | builtins/dependencymixin.py:1117-1166 | builtins `disconnectPlugs`: every pair disconnected goes from a plug of the source tree to a plug of the destination tree |
| PlugTree.DirectAgreesWithoutFanOut | nodetypes/dependencymixin.py:746-752 | where the builtins version does not fan out it makes the same calls as the corrected nodetypes version; a simple source into a compound is one direct connection here |
| PlugTree.LegacyAgreesUnforced | nodetypes/dependencymixin.py:734-752 | unforced, the version as written and the corrected one make the same calls |
| PlugFlags.DirectIds | builtins/dependencymixin.py:640-642 | one plug id per argument, in order: the plugs the flag methods look up with `findPlug` |
| PlugFlags.AllTargetsAppend | builtins/dependencymixin.py:640-656 | the plugs a loop over `plugs + [p]` writes are those of `plugs` plus those `p` itself contributes (its children when compound, its elements for lock and unlock when it is a non-element array, else itself) |
| PlugFlags.UpdatedStep | builtins/dependencymixin.py:694-712 | writing one more plug's flag extends the set of written plugs by that plug and leaves every other flag as it was |
| PlugFlags.KeyAttr | builtins/dependencymixin.py:742-800 | succeeds exactly for one or two arguments, a keyable plug and a valid time (else TypeError); one argument keys the current value, two key the given one; no time keys the scene time in UI units |
| PlugFlags.DependencyNode.constructor | builtins/dependencymixin.py:525-544 | a node with the given plug values and no flag written yet |
| PlugFlags.DependencyNode.TryGetAttr | builtins/dependencymixin.py:525-544 | the plug's value when the node has it, otherwise the default |
| PlugFlags.DependencyNode.TrySetAttr | builtins/dependencymixin.py:580-599 | True exactly when the plug exists, in which case its value becomes the new one and `tryGetAttr` reads it back; otherwise nothing changes; no flag changes |
| PlugFlags.DependencyNode.SetFlags | builtins/dependencymixin.py:646-650 | each requested flag is set on exactly the given plugs and every other plug keeps its flags |
| PlugFlags.DependencyNode.SetOnAll | builtins/dependencymixin.py:640-656 | each requested flag is set on exactly the target plugs of all arguments and nowhere else |
| PlugFlags.DependencyNode.HideAttr | builtins/dependencymixin.py:631-656 | every target (children of a compound, else the plug) ends not keyable, out of the channel box and locked as `lock` says; all other flags and the values are untouched |
| PlugFlags.DependencyNode.ShowAttr | builtins/dependencymixin.py:658-684 | every target ends keyable as `keyable` says, in the channel box, and locked unless `unlock`; nothing else changes |
| PlugFlags.DependencyNode.LockAttr | builtins/dependencymixin.py:686-712 | every target (children of a compound, elements of a non-element array, else the plug) ends locked; keyable and channel-box flags are untouched |
| PlugFlags.DependencyNode.UnlockAttr | builtins/dependencymixin.py:714-740 | every target ends unlocked; keyable and channel-box flags are untouched |
| PlugFlags.CompoundParentUntouched | builtins/dependencymixin.py:644-650 | for a compound plug the parent itself is never written, each of its children is |
| PlugFlags.LeafTargetsItself | builtins/dependencymixin.py:652-656 | a plain plug is its own and only target |
| PlugFlags.ArrayTargetsDiffer | builtins/dependencymixin.py:640-656 | a non-element array plug is its own target for hide and show, but its elements are the targets for lock and unlock |
| NodeAttributes.PlugOf | nodetypes/dependencymixin.py:412-426 | a plug, a path or an attribute object names a plug; only any other argument names none |
| NodeAttributes.AttributeNode.constructor | nodetypes/dependencymixin.py:476-484 | a node with the given attributes and values and no aliases, whose alias map is well formed |
| NodeAttributes.AttributeNode.RemoveAttr | nodetypes/dependencymixin.py:364-400 | a present name or an attribute object removes exactly that attribute; a missing name or a non-attribute object changes nothing; any other argument raises TypeError; values and aliases are untouched |
| NodeAttributes.AttributeNode.GetAttr | nodetypes/dependencymixin.py:402-426 | the value of the plug the argument names, reached through the same dispatch for paths and attribute objects; TypeError exactly for an unsupported argument |
| NodeAttributes.AttributeNode.SetAttr | nodetypes/dependencymixin.py:448-474 | the named plug takes the value and `getAttr` then returns it; TypeError, with nothing changed, exactly for an unsupported argument |
| NodeAttributes.AttributeNode.PlugsAlias | nodetypes/dependencymixin.py:523-548 | the plug's alias when it has one, else the empty string |
| NodeAttributes.AttributeNode.RemovePlugAlias | nodetypes/dependencymixin.py:523-548 | True exactly when the plug had an alias; that alias is then held by no plug and only this plug's entry is gone; the alias map stays well formed |
| NodeAttributes.AttributeNode.RemoveAlias | nodetypes/dependencymixin.py:550-577 | None for the empty alias, False for an alias no plug holds, otherwise True with the alias removed from the one plug that held it |
| NodeAttributes.AttributeNode.SetAlias | nodetypes/dependencymixin.py:486-504 | succeeds exactly for a non-empty alias no other plug holds, and the plug then has it; with `replace` a failed call still leaves the plug's old alias removed; the alias map stays well formed |
| References.RStrip | builtins/referencemixin.py:228 | the result is a prefix of the name ending in no stripped character, and everything removed from the end is a stripped character |
| References.ReplaceRN | builtins/referencemixin.py:254 | `replace('RN', '')` never lengthens the name |
| References.ReplaceRNNoOccurrence | builtins/referencemixin.py:254 | a name without "RN" in it comes back unchanged |
| References.ReplaceRNSinglePass | builtins/referencemixin.py:254 | one left-to-right pass: "RRNN" becomes "RN", which still contains "RN" |
| References.UnloadedNamespace | builtins/referencemixin.py:228 | as written, `rstrip('RN')`: the longest prefix of the name not ending in R or N, with only R and N characters removed from its end |
| References.UnloadedNamespaceOverStrips | builtins/referencemixin.py:214-228 | as written, the unloaded fallback turns the node "BARRN" into the namespace "BA", not "BAR" |
| References.UnloadedNamespaceCorrected | builtins/referencemixin.py:214-228 | a name ending in "RN" loses exactly that suffix, and any other name is kept |
| References.UnloadedNamespaceRoundTrip | builtins/referencemixin.py:283 | the node named `<namespace>RN` by `setAssociatedNamespace` gives back `<namespace>` through the corrected fallback |
| References.InReference | builtins/referencemixin.py:144-145 | exactly the found nodes that belong to the reference, no more of them than were found |
| References.GetNodeByUuid | builtins/referencemixin.py:118-161 | a single node is returned; of several, none in the reference gives None, exactly one gives that node, more raise TypeError; anything else gives None |
| References.ReferenceNode.constructor | builtins/referencemixin.py:293-300 | an unloaded, unlocked reference with no edits and the given name, path, namespace and top-level flag |
| References.ReferenceNode.Load | builtins/referencemixin.py:311-329 | the reference ends loaded and nothing else changes, whether or not it was loaded before |
| References.ReferenceNode.Unload | builtins/referencemixin.py:331-347 | the reference ends unloaded and nothing else changes |
| References.ReferenceNode.Reload | builtins/referencemixin.py:349-361 | the reference ends loaded with its edits, path and name kept |
| References.ReferenceNode.ClearEdits | builtins/referencemixin.py:393-417 | the edits are gone and the load state is the one before the call |
| References.ReferenceNode.SetFilePath | builtins/referencemixin.py:176-212 | the path is the new one and the load state is kept; the edits are cleared exactly when asked |
| References.ReferenceNode.AssociatedNamespace | builtins/referencemixin.py:214-228 | the live namespace while loaded, and the name with trailing R and N characters stripped otherwise |
| References.ReferenceNode.SetAssociatedNamespace | builtins/referencemixin.py:230-291 | True exactly when loaded, top-level, the new namespace ("RN" removed) is non-empty and differs from the current one, the current one exists and the new one is free; then the namespace is renamed and the node is `<new>RN` and locked; otherwise nothing changes |
| Constraint.WeightNamesDistinct | builtins/constraintmixin.py:238 | two targets of one node at different indices never get the same `<node>W<index>` weight attribute |
| Constraint.PresentSpec | builtins/constraintmixin.py:83-90 | a pair is connected exactly when the source node has its source attribute and the constraint its destination attribute |
| Constraint.InputLinks | builtins/constraintmixin.py:83-101 | one connection per kept pair, in order, from the source attribute into the destination on the constraint (or inside `target[index]`), with the given `force` |
| Constraint.OutputLinks | builtins/constraintmixin.py:107-139 | exactly the (source, destination) outputs that neither the `skip<Parent>` nor the `skip<Name>` keyword skips are connected, unforced |
| Constraint.SkipAllSkipsEverything | builtins/constraintmixin.py:104-127 | with `skipAll` and no per-attribute keyword no output is connected |
| Constraint.NoOptionsConnectsAll | builtins/constraintmixin.py:104-139 | with no keywords every output is connected, in order |
| Constraint.ParentKeySkipsAxes | builtins/constraintmixin.py:111-119 | `skip<Parent>=True` skips the parent attribute and each of its X, Y and Z children |
| Constraint.ClearTargetsLeavesSparse | builtins/constraintmixin.py:330-339 | as written, `clearTargets` over `range(targetCount())` on targets 0 and 2 leaves target 2 in place |
| Constraint.ClearTargetsDense | builtins/constraintmixin.py:330-339 | when the targets are exactly 0..n-1 the as-written loop does remove them all |
| Constraint.RenameSource | builtins/constraintmixin.py:577-582 | every connection driven by the renamed weight attribute now starts at the new name; the others are unchanged |
| Constraint.TargetLinks | builtins/constraintmixin.py:211-252 | `addTarget` keeps every earlier connection, adds the target's present connections into `target[index]`, and ends with the weight attribute into `target[index].targetWeight` |
| Constraint.ConstraintNode.constructor | builtins/constraintmixin.py:184-192 | a constraint with no parent, targets, weights or connections, and a next-index choice that always picks a free element |
| Constraint.ConstraintNode.SetConstraintObject | builtins/constraintmixin.py:45-139 | nothing changes when the object already is the constraint object; otherwise the constraint is named `<node>_<type>1`, parented under it, force-connects the present inputs and connects the outputs not skipped |
| Constraint.ConstraintNode.TargetName | builtins/constraintmixin.py:540-555 | the target's driving weight attribute name, or '' when `targetWeight` has no driver |
| Constraint.ConstraintNode.AddTarget | builtins/constraintmixin.py:194-260 | the new index is the next free element; that target now exists, with a new weight attribute `<node>W<index>` holding the weight and driving it; the other targets are untouched |
| Constraint.ConstraintNode.AddTargets | builtins/constraintmixin.py:262-278 | one new, pairwise distinct index per target, in order; the targets grow by exactly those indices, each driven by its own target's `<target>W<index>` attribute; earlier drivers are unchanged and the earlier links stay as a prefix |
| Constraint.ConstraintNode.RemoveTarget | builtins/constraintmixin.py:290-328 | a missing index changes nothing; otherwise the element and every connection touching it are gone and its weight attribute is removed when it had a driver |
| Constraint.ConstraintNode.ClearTargets | builtins/constraintmixin.py:330-339 | as written, exactly the targets with logical index at or above the target count survive |
| Constraint.ConstraintNode.ClearTargetsCorrected | builtins/constraintmixin.py:330-339 | removing every existing logical index leaves no target and no driver |
| Constraint.ConstraintNode.SetTargetName | builtins/constraintmixin.py:557-582 | without a driver or with the same name nothing changes; otherwise the weight attribute is renamed, with its value and connections carried over |
| Constraint.ConstraintNode.ResetTargetName | builtins/constraintmixin.py:584-605 | a driven target's name becomes `<target>W<index>`; without a driver nothing changes |
| Hierarchy.Ancestors | nodetypes/pytreemixin.py:106-118 | empty exactly when the node has no parent; every ancestor ranks strictly above the node, so the walk ends |
| Hierarchy.AncestorsChain | nodetypes/pytreemixin.py:106-118 | the walk yields the parent first, each next node is the parent of the one before, and the last has no parent |
| Hierarchy.IterParents | nodetypes/pytreemixin.py:106-127 | the loop yields exactly the ancestor chain |
| Hierarchy.TopLevelParent | nodetypes/pytreemixin.py:129-146 | a node without a parent; the node itself when it has none, otherwise one of its ancestors |
| Hierarchy.OfType | nodetypes/pytreemixin.py:148-156 | exactly the listed nodes of the type, never more than were listed |
| Hierarchy.OfTypeAppend | nodetypes/pytreemixin.py:226-234 | filtering by type keeps traversal order: it distributes over concatenation |
| Hierarchy.FindAncestors | nodetypes/pytreemixin.py:148-156 | exactly the ancestors of the type; none for a node without a parent |
| Hierarchy.DagParent | nodetypes/dagmixin.py:270-288 | None exactly when the parent count is 0, otherwise the parent of the path's instance |
| Hierarchy.MatchingAncestors | nodetypes/dagmixin.py:325-347 | every parent yielded has the requested function set |
| Hierarchy.MatchingAncestorsPrefix | nodetypes/dagmixin.py:325-347 | the parents yielded are a prefix of the ancestor chain, and the first ancestor not yielded lacks the function set |
| Hierarchy.MatchingAncestorsStopEarly | nodetypes/dagmixin.py:336-347 | the walk breaks at the first ancestor of the wrong type: for 0 -> 1 -> 2 with only 2 of the type nothing is yielded |
| Hierarchy.IterDagParents | nodetypes/dagmixin.py:325-347 | the loop yields exactly the matching prefix of the ancestors |
| Hierarchy.DagTopLevelParent | nodetypes/dagmixin.py:349-366 | the node itself or an ancestor of the type, whose own parent is missing or not of the type |
| Hierarchy.DagScene.constructor | nodetypes/dagmixin.py:299-323 | a scene with the given parent links and DAG nodes |
| Hierarchy.DagScene.SetParent | nodetypes/dagmixin.py:299-323 | nothing changes for a non-DAG parent or the current parent; otherwise only the node's parent link becomes the new one |
| Hierarchy.ChildrenOf | nodetypes/pytreemixin.py:158-193 | exactly the nodes of the same plugin connected at their `parent` plug from this node's `message`, in order |
| Hierarchy.ChildrenOfAppend | nodetypes/pytreemixin.py:165-184 | the children of a concatenation of destinations are the children of each part, in order |
| Hierarchy.IterChildren | nodetypes/pytreemixin.py:158-184 | the loop yields exactly the child links' nodes |
| Hierarchy.Without | nodetypes/pytreemixin.py:204 | every element but the node itself |
| Hierarchy.Siblings | nodetypes/pytreemixin.py:195-208 | none without a parent; otherwise exactly the parent's children other than the node |
| Hierarchy.BfsShift | nodetypes/pytreemixin.py:210-224 | working through the queue `a + b` yields all of `a` before anything `a`'s children add |
| Hierarchy.BfsIsLevels | nodetypes/pytreemixin.py:210-224 | the deque walk is breadth-first: each whole level before the next |
| Hierarchy.IterDescendants | nodetypes/pytreemixin.py:210-224 | the loop yields the descendants level by level, starting with the children |
| Hierarchy.FindDescendants | nodetypes/pytreemixin.py:226-234 | exactly the descendants of the type |
| Hierarchy.ShapeNodes | nodetypes/dagmixin.py:400-407 | one node per shape child, in order |
| Hierarchy.Shapes | nodetypes/dagmixin.py:461-468 | exactly the shapes that are not intermediate objects |
| Hierarchy.IntermediateObjects | nodetypes/dagmixin.py:488-495 | exactly the shapes that are intermediate objects |
| Hierarchy.ShapesPartition | nodetypes/dagmixin.py:461-495 | the visible and intermediate shapes split the shapes between them, each shape in exactly one |
| Hierarchy.ShapeAt | nodetypes/dagmixin.py:443-459 | as written: None outside `0..count-1`; IndexError exactly for an index within the count but beyond the visible shapes; otherwise the index-th entry of `shapes()` |
| Hierarchy.ShapeAtIntermediateRaises | nodetypes/dagmixin.py:443-477 | with one visible and one intermediate shape and the count taken over both, `shape(1)` raises |
| Hierarchy.ShapeAtCorrected | nodetypes/dagmixin.py:443-459 | the index-th visible shape exactly when the index is within the visible shapes, else None |
| Hierarchy.ShapeAtAgrees | nodetypes/dagmixin.py:443-459 | where the count equals the visible shapes the as-written and corrected versions agree |
| ShapeUtils.KeepWordChars | utilities/shapeutils.py:634 | exactly the word characters of the input, never longer than it |
| ShapeUtils.KeepWordCharsAppend | utilities/shapeutils.py:634 | cleaning keeps character order: it distributes over concatenation |
| ShapeUtils.KeepWordCharsIdentity | utilities/shapeutils.py:634 | a string comes back unchanged exactly when every character is a word character |
| ShapeUtils.FilterUserInput | utilities/shapeutils.py:622-638 | "untitled" for the empty input, otherwise exactly its word characters, in order |
| ShapeUtils.FilterUserInputIdempotent | utilities/shapeutils.py:622-638 | cleaning a cleaned, non-empty name changes nothing |
| ShapeUtils.FilterUserInputCanBeEmpty | utilities/shapeutils.py:622-638 | spaces are dropped, and an input with no word character gives '' rather than "untitled" |
| ShapeUtils.SideTables | utilities/shapeutils.py:19-22 | every side table covers exactly sides 0 to 3, and side 3 repeats side 0 in the shading groups, colours and colour indices |
| ShapeUtils.SurfaceShaderNamesShadingGroup | utilities/shapeutils.py:20 | as written, side 3's surface shader has the name of a shading group, not side 0's shader |
| ShapeUtils.SurfaceShadersCorrectedDistinct | utilities/shapeutils.py:19-20 | corrected, no side's shader shares its shading group's name, side 3 repeats side 0, and sides 0 to 2 are as written |
| ShapeUtils.ShaderNodes | utilities/shapeutils.py:488-507 | as written, the side's entries of `SURFACE_SHADERS` and `SHADING_ENGINES` for a known side; KeyError for any other side |
| ShapeUtils.ShaderNodesSideThreeCollide | utilities/shapeutils.py:19-20 | as written, side 3 asks for a shader and a shading group both named `C_Controls_SG` |
| ShapeUtils.ShaderNodesCorrected | utilities/shapeutils.py:488-507 | with the corrected shader table, a shader whose name differs from its shading group's for every known side; KeyError for any other side |
| ShapeUtils.ShaderNodesCorrectedAgrees | utilities/shapeutils.py:19-20 | the correction changes only side 3's shader and never the shading group |
| ShapeUtils.RgbWritten | utilities/shapeutils.py:553-555 | as written, the three channels written are always equal |
| ShapeUtils.RgbWrittenKeepsGreysOnly | utilities/shapeutils.py:533-555 | as written, a colour arrives unchanged exactly when it is a grey |
| ShapeUtils.RgbWrittenLosesBlue | utilities/shapeutils.py:553-555 | as written, side 1's blue is written as black |
| ShapeUtils.ShapeNode.constructor | utilities/shapeutils.py:558-582 | a shape with overrides off and no shading group |
| ShapeUtils.ShapeNode.ApplyColorIndex | utilities/shapeutils.py:510-530 | overrides on, RGB colours off, and the colour index set; the rest untouched |
| ShapeUtils.ShapeNode.ApplyColorRGB | utilities/shapeutils.py:533-555 | as written, overrides and RGB colours on, with the red channel in all three channels |
| ShapeUtils.ShapeNode.ApplyColorRGBCorrected | utilities/shapeutils.py:533-555 | overrides and RGB colours on, and the override colour is the one given |
| ShapeUtils.ShapeNode.ApplyColorSide | utilities/shapeutils.py:558-582 | KeyError exactly for an unknown side; a shaded shape joins that side's shading group, any other shape gets the side's colour index |
| ShapeUtils.ShapeNode.ColorizeShape | utilities/shapeutils.py:590-619 | a colour index wins over an RGB colour, which wins over a side; with none of them nothing changes; as written an RGB colour is written as `RgbWritten` of it, the red channel three times |
| ShapeUtils.ShapeNode.ColorizeShapeCorrected | utilities/shapeutils.py:590-619 | the same priorities over the corrected `applyColorRGB`: an RGB colour arrives as given |
| ShapeUtils.AddShapeToTransform | utilities/shapeutils.py:795-853 | nothing when the shape file is missing; otherwise exactly the entries whose type has a creator give a shape, in file order |
| ShapeUtils.AllCreatableGetShapes | utilities/shapeutils.py:831-849 | a file whose every entry is creatable gives one shape per entry, in order |

## Left out

- ObjectWrapper.Lower: lower-cases only the ASCII letters `A`-`Z`; the other Unicode letters that Python's `str.lower` also lower-cases are left unchanged, so names matched with it ignore ASCII case only.
- AnimCurve.InfinityKeysCover: coverage of `startFrame` is proved only when it is at or before the first key, and of `endFrame` only when it is at or after the last key; a requested range that starts or ends inside the keyed range is not covered by the lemma.
- Maya itself: function sets, iterators, selection lists, DG and DAG modifiers, `maya.cmds` and the `dcc` helper modules are replaced by state (plug values, connection maps, flags, element counts) or by function parameters with stated assumptions.
- `plugutils.getNextAvailableConnection` / `getNextAvailableElement`: a parameter that is only promised to return an index with no element, which is all its documentation says.
- `stringutils.pascalize`: a function parameter; the skip keys are stated over whatever it returns.
- Python `json` in `UserProperties`: an abstract encode / decode pair with the round trip as a stated assumption, in the manner of RFC 8259 text.
- The nearest-point query of scipy's `cKDTree` in `mirrorVertexIndices`: a function parameter returning a point index or "no hit".
- Floating-point and matrix maths: rest matrices, `maintainOffset`, transforms, point positions, lengths and centres; colours are reals only as values copied into plugs.
- Animation-curve times are integer frames; the unit conversion of `MTime` is a tag on the key time.
- File system, imports and UI: loading, saving and dumping shape files, `getShapesDirectory`, package iteration, `icon()` and dialogs. `addShapeToTransform` takes the loaded entries as its input.
- ShapeUtils.AddShapeToTransform: does not model creating the parent transform, the shape nodes themselves or the per-shape `colorizeShape` call, which are host calls; it states which entries give shapes.
- `createShaderNetwork`: the shader and shading-group creation is host work. `ShaderNodes` states the names requested from the tables; the names the host actually gives the new nodes (it renames a node whose name is taken, as side 3's shading group would be after its shader took `C_Controls_SG`) are not modelled.
- `MObjectWrapper.__getattr__` delegation to the function set is host behaviour and is not modelled.
- `MPyNodeExtension.create` (`createNode` followed by `addExtension`) and `__post_init__` are compositions of modelled members, not separate members.
- The `ListElement` getters and setters for name, weight and values are plain field reads and writes of the `Element` record.
- ListElements.ListNode.SetSource: requires at most as many sources as the list has children, since the host raises on an extra element.
- Container `addMember` / `hasMember` / `members` / `removeMember(s)` delegate to the hyper layout returned by `getHyperLayout` and are covered by `HyperLayout.Layout`.
- Hyper-layout `deleteMembers` appears only inside `Container.ContainerNode.DeleteMembers`.
- nodetypes `disconnectPlugs` is one host call and is not modelled apart from the builtins recursion.
- `UserProperties.__len__`, `__iter__`, `keys`, `values` and `items` are views of the `properties` map.
- `getNodeByUuid` of the scene factories is a host lookup; only the reference filter of `ReferenceMixin.getNodeByUuid` is modelled.
- `iterNodesBy*` queries other than the namespace filter, and reference node lists other than the `sharedReferenceNode` filter, are host queries.
- `getEdits`, `removeEdits`, `delete`, `filePath`, `isValid` and `isAlive` of a reference are host queries or commands; edits are a list the model clears.
- `setAliases` and `getAliases` pass through to `plugutils`; `getAliases` is the alias map read backwards.
- NodeAttributes.AttributeNode.SetAlias: the host's acceptance rule for a new alias is taken to be "non-empty and held by no other plug".
- NodeAttributes.AttributeNode.RemovePlugAlias: the host's `setAlias(..., add=False)` is assumed to succeed.
- NodeAttributes.AttributeNode.GetAttr: requires the named plug to exist; `findPlug` on a missing plug is a host error.
- Constraint.ConstraintNode.AddTargets: does not state the attribute set, the weight values or the exact links added over the whole call, only that earlier links stay as a prefix; `AddTarget` states all of them for one call.
- Constraint targets are a set of logical indices; physical order is not modelled.
- `selectAncestorLogicalIndex` on array sources in `setConstraintObject` and `addTarget` is a host call; connections are by plug name.
- `enableRestPosition` and `restMatrix` of `setConstraintObject` are matrix work.
- `\w` in `filterUserInput` is modelled as the ASCII letters, digits and underscore; Unicode word characters are not modelled.
- Hierarchy walks require a rank map that decreases along parent links, so cyclic parent chains (which Maya does not allow) are excluded.
- DAG children are given as a map from a node to its children, and shapes as a list of `(node, intermediate)` entries.
- Instancing is reduced to the parent list of one path and its instance number.
- Hierarchy.DagScene.SetParent: the host's rejection of an invalid reparent (a cycle) is not modelled.
- MeshConsolidate.ConsolidateElements: pairwise disjointness of the groups is proved only for meshes whose edge connectivity is symmetric (`MeshTopology.Symmetric`), as the host's edge adjacency is; for an asymmetric connectivity relation the unmarked seed of a group can be picked up again by a later group.
- AnimCurve.Curve.RemoveIndex: the RuntimeError for an index past the last key is the host's, modelled as an error value.
- PyValues.PyValue: `Other` stands for every value that is neither an int nor one of the modelled collections. Python's bools and integral floats, which compare and hash like ints (so `True` finds element 1 in `occupied`), are not modelled as ints, and the TypeError an unhashable item raises in a dict lookup is not modelled.
- Constraint.ConstraintNode.ResetTargetName: the AttributeError the source raises when `targetObject()` is None is not modelled; the target's name is a parameter.
- Container.ContainerNode.DeleteMembers: a published member of the layout loses its `publishedNodeInfo` connection in the host when it is deleted; container publishing is not modelled.
- The DG context switching of `mpycontext.py` and the thin mixins that only declare attributes are not part of this model.

## Findings

| source | as written | input that shows it | evidently intended | confidence | as-written member | corrected member |
|---|---|---|---|---|---|---|
| collections/userproperties.py:240-252 | `invalidate` writes the notes only while the map is non-empty | set `k`, then delete it, then `reload`: the notes still hold `k`, so it comes back | the notes are rewritten for the empty map as well | high, not executed | UserProps.DeleteLastResurrects | UserProps.ReloadRestoresCorrected |
| builtins/constraintmixin.py:330-339 | `clearTargets` removes logical indices `targetCount()-1` down to 0 | targets at logical indices 0 and 2: target 2 survives | every existing target is removed | high, not executed | Constraint.ClearTargetsLeavesSparse | Constraint.ConstraintNode.ClearTargetsCorrected |
| utilities/shapeutils.py:553-555 | `applyColorRGB` writes `colorRGB[0]` to the R, G and B plugs | side 1's colour `[0.0, 0.0, 1.0]` is written as black | each channel takes its own component | high, not executed | ShapeUtils.RgbWrittenLosesBlue | ShapeUtils.ShapeNode.ColorizeShapeCorrected |
| utilities/shapeutils.py:20 | `SURFACE_SHADERS[3]` is `'C_Controls_SG'` | side 3: the surface shader gets the shading group's name | side 3 shares side 0's `'C_Controls_SS'`, as in the other tables | high, not executed | ShapeUtils.ShaderNodesSideThreeCollide | ShapeUtils.ShaderNodesCorrected |
| nodetypes/meshmixin.py:1447 | `getVertices` queues `self._elements` and ignores `indices` | a face component `[1]` asked for `indices=[0]` answers for face 1 | the vertices of the given indices | high, not executed | MeshGraph.GetVerticesIgnoresIndices | MeshGraph.GetVertices |
| nodetypes/dependencymixin.py:744 | the compound recursion of `connectPlugs` calls itself without `force` | two compounds of equal arity with `force=True`: the child connections are unforced | `force` is passed to the children, as the builtins version does | high, not executed | PlugTree.LegacyDropsForce | PlugTree.DirectConnect |
| builtins/referencemixin.py:228 | the unloaded fallback is `name.rstrip('RN')`, a character-set strip | the reference node `BARRN` gives the namespace `BA` | only the `RN` suffix is removed, giving `BAR` | high, not executed | References.UnloadedNamespaceOverStrips | References.UnloadedNamespaceRoundTrip |
| nodetypes/dagmixin.py:453 | `shape(index)` checks the index against `numberOfShapesDirectlyBelow` but indexes `shapes()`, which leaves out intermediate objects | one visible and one intermediate shape, `shape(1)` | None for an index beyond the visible shapes | medium (depends on the host counting intermediate shapes), not executed | Hierarchy.ShapeAtIntermediateRaises | Hierarchy.ShapeAtCorrected |
