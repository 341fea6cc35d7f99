# Conditions, geometry and identifiers of DD4hep, in Dafny

A model of the parts of DD4hep whose correctness rests on state, recursion or arithmetic, with
proofs of what those parts are relied on for. `dafny verify dfyconfig.toml` checks everything.

- **Derived conditions** (`Validity`, `DependencyEngine`, `DependencyRuns`, `DependencyInvariants`,
  `DependencyTheorems`, `DependencyExact`, `DependencyFailures`, `DependencyNarrowing`, `DependencyUnset`,
  `DependencyForgotten`, `DependencyLimits`, `DependencyBlocks`, `DependencyHandler`). A table of work
  items is created in a first pass and resolved in a second one, by user callbacks which call back into
  the engine. A callback is any finite list of accesses. The engine is written twice: as functions made
  of eleven elementary steps, and as the objects of the source, which are proved equal to the functions.
  Any property kept by each step is kept by every run (`RunKeeps`); the theorems about runs are step
  invariants.
- **Scanning a geometry** (`GeometryScan`): nodes by depth, volumes daughters-first, shapes
  operands-first.
- **Alignments** (`AlignmentOrder`, `AlignmentsCalculator`, `NominalTransforms`): which elements a set
  of deltas affects, in what order they are computed, and what they come out as, over any type of
  transformations.
- **Paths and trees** (`Paths`, `PlacementPaths`, `DetectorTree`, `DetElements`, `DetectorClone`):
  assembling, printing and finding placement paths; attaching detector elements, their cached paths
  and finding them again; deep copies.
- **Caches and keyed views** (`Conditions`, `ConditionsCache`, `ConditionsIOVPools`, `ConditionsMaps`, `NominalMap`):
  selection, ageing and cleaning of conditions pools; range scans; the overlay of nominal alignments.
- **Arithmetic** (`BitWords`, `IDDescriptor`, `MultipoleField`, `OverlayedField`): bit fields, the
  bounding-box pre-filter and the series of the multipole field, short cuts of combined fields.

Where the source raises an exception, the model returns `None`, `Thrown`, an error or `false`.
Objects are compared by address in the source; there the model uses numbers for addresses. Ghost
parameters (`rank`, `height`, `way`, `t`, `all`, the abstract states) are witnesses that a graph has no
cycle or that objects form a tree; the source has no counterpart to them.

## Assumptions

- `IOV::key_contains_range(a, b)` says that `a` covers `b` (DDCore/include/DD4hep/IOV.h:155-156).
- The detector key is the high word of a conditions key (DDCore/include/DD4hep/Conditions.h:298-313).
- Deltas are ordered by path with `std::string::operator<` (DDCore/include/DD4hep/AlignmentsCalculator.h:69-73).
- Keys given by hashes are different for different elements; a cached hash of a path is not zero.
- A left shift which overflows a signed 64-bit word wraps around (a field of width 63). The only field
  that reaches an undefined shift, all 64 bits from offset 0, is excluded; other widths of 64 and more
  are rejected before the shifts.
- Real arithmetic is exact, and the inverse of a transformation is a true inverse.
- The user pool does not change while the dependency engine runs; callbacks do not catch the errors
  of their accesses and register no conditions of their own.

## Where the code does less than one may expect

- A creation callback forgets what it reads before its validity is set, although the update context has
  narrowed it: the first intersection of the handler, or the end of the callback, overwrites it. Forgotten
  are exactly the accesses ahead of the first that finds a pool condition or a condition not `RESOLVED`
  (or, by detector or item, anything at all). The validity is that of the other accesses alone, and
  unlimited if there are none (`DependencyForgotten.CreationForgets`); a forgotten read limits it exactly
  when the others do so already (`DependencyForgotten.ForgottenRead`); all other reads through the context
  limit it (`DependencyForgotten.LaterReadsLimit`). In a run without cycles that holds for every read
  behind one of the pool, and for all reads of resolve callbacks
  (`DependencyTheorems.ReadBehindPoolIsContained`, `DependencyTheorems.AcyclicValidityIsContained`).
  `DependencyLimits.LaterReaderIsNotLimited` is a table of three items, without any cycle, where a
  condition ends with a wider validity than one it depends on.
- A gap among the alignment deltas (one below another, with none on the parent in between) makes an
  element be computed before its affected parent; exactly then the result can be wrong
  (`AlignmentsCalculator.NoGapAligns`, `AlignmentsCalculator.GapMisaligns`).
- An element whose path has been read before it is attached keeps that path: it and everything below
  it can then not be found by their paths, and their levels are too small (`DetectorTree.CachedIsExact`,
  `DetectorTree.PathFindsElement`, both exact). A failing `add` reads the path of the parent.
- `PROPAGATE_PARENT_ID` reaches direct children only (`DetectorClone.CloneIsIsomorphic`).
- Selecting pools together with their common validity gives that validity exactly when the interval is
  handed in without a type and any pool is collected, those handed in included, or else when the pools
  have no time in common (`ConditionsCache.PoolSelectionIsExact`).
- A range scan of the nominal overlay misses the default alignment exactly when its hash is zero, in
  the range and not overridden (`NominalMap.OverlaidIsComplete`).
- The tests for an unrotated or unmoved frame have a tolerance. A multipole field is that of its
  definition, for every volume, coefficients and position, exactly when the frame passes the tests without
  using it (`MultipoleField.AgreesIffExact`); for any other frame a volume, coefficients and a position
  with another field exist. `MultipoleField.ToleranceMatters` is an example.
- `electromagneticField` adds the magnetic components to whatever the caller had in entries 3 to 5
  (`OverlayedField.OverlayedFieldObject.ElectromagneticField`).

## Model

| member | source | states |
|---|---|---|
| Validity.IntersectionCovers | DDCore/src/IOV.cpp:95-102 | a typed interval after an intersection covers exactly the times both covered before |
| Validity.WithinIsPointwise | DDCore/include/DD4hep/IOV.h:152-156 | containment of keys is containment of the times covered, for an interval that spans something |
| Validity.IntervalOfValidity.Reset | DDCore/src/IOV.cpp:81-85 | leaves keys that cover nothing and keeps the type |
| Validity.IntervalOfValidity.Invert | DDCore/src/IOV.cpp:88-93 | swaps the two keys |
| Validity.IntervalOfValidity.Intersect | DDCore/src/IOV.cpp:95-102 | overwrites an untyped interval, otherwise takes the later start and the earlier end |
| Validity.IntervalOfValidity.IntersectKey | DDCore/src/IOV.cpp:104-109 | takes the later start and the earlier end whatever the type |
| Validity.IntervalOfValidity.Unite | DDCore/src/IOV.cpp:111-118 | overwrites an untyped interval, otherwise takes the earlier start and the later end |
| Validity.UnionIsHull | DDCore/src/IOV.cpp:111-118 | the union is the smallest interval around both, for a typed receiver; what is without a type is overwritten |
| DependencyEngine.Get | DDCond/src/ConditionsDependencyHandler.cpp:222-288 | an access that returns restores the work pointer, the callbacks in progress and all call counters, has been answered from the pool or by a derived condition that is RESOLVED, and terminates for any table; a condition found RESOLVED is returned with every item left as it was, and a missing one is an error exactly if it is required |
| DependencyEngine.Create | DDCond/src/ConditionsDependencyHandler.cpp:291-351 | a creation that returns was not in progress before and leaves its item CREATED; entered twice it throws the error about infinite recursion |
| DependencyEngine.Resolve | DDCond/src/ConditionsDependencyHandler.cpp:48-60 | a resolution that returns leaves its item RESOLVED, restores the work pointer and has passed the validity on to the reader |
| DependencyEngine.Run | DDCond/src/ConditionsDependencyHandler.cpp:94-157 | both passes end, for every table and every list of accesses, cyclic ones included; without an exception every item is RESOLVED and nothing is in progress |
| DependencyRuns.RunKeeps | DDCond/src/ConditionsDependencyHandler.cpp:94-157 | whatever each elementary step keeps holds at the end of every run that does not throw |
| DependencyTheorems.EachCallbackOnce | DDCond/src/ConditionsDependencyHandler.cpp:94-128 | a run that does not throw calls each creation callback and each resolve callback exactly once, resolves every item, and counts one callback for each item of the table |
| DependencyTheorems.CreationCycleThrows | DDCond/src/ConditionsDependencyHandler.cpp:291-310 | with a cycle of creation accesses among keys absent from the pool the first pass throws, whatever the order of the items |
| DependencyTheorems.CreationsFinishInOrder | DDCond/src/ConditionsDependencyHandler.cpp:242-248 | every creation finishes after each creation it asked for |
| DependencyTheorems.AcyclicRunCompletes | DDCond/src/ConditionsDependencyHandler.cpp:94-128 | if the combined access graph has no cycle and all required conditions exist, no exception is raised |
| DependencyTheorems.ValidityIsContained | DDCond/src/ConditionsDependencyHandler.cpp:227-248 | the final validity of an item lies inside that of every pool condition it read, by key, by detector or by item, and of every derived condition it read, unless a derived one was found RESOLVED by a creation callback that had read no pool condition before, or while its own callback was in progress, or without the update context |
| DependencyTheorems.AcyclicValidityIsContained | DDCond/src/ConditionsDependencyHandler.cpp:227-248 | without cycles the final validity lies inside that of every derived condition which a resolve callback reads through the context, or a creation callback behind a pool condition |
| DependencyTheorems.ReadBehindPoolIsContained | DDCond/src/ConditionsDependencyHandler.cpp:227-248 | the same by the places of the two accesses in the creation callback, for a table without cycles |
| DependencyTheorems.ValidityCovers | DDCond/src/ConditionsDependencyHandler.cpp:36-60 | a validity is narrowed by pool reads, reads that find INVALID or CREATED, and context reads only: it covers each time covered by what these lead to, cycles included; keys only read directly and found RESOLVED have no influence |
| DependencyExact.ValidityIsExact | DDCond/src/ConditionsDependencyHandler.cpp:36-60 | without cycles the final validity of an item is exactly the common part of the pool conditions it read, of the final validities of what it found INVALID or CREATED, and of what it read through the context with its own validity set |
| DependencyExact.OnlyReadsNarrow | DDCond/src/ConditionsDependencyHandler.cpp:227-248 | in any run, with cycles too, nothing else narrows; each narrowing by the context comes from an access through the context |
| DependencyFailures.AcyclicRunCompletesIff | DDCond/src/ConditionsDependencyHandler.cpp:94-128 | without a cycle a run completes exactly when no callback fails, no required condition is missing, and no access by detector or by item lies on the way of the first pass |
| DependencyFailures.UnprovidedThrows | DDCond/src/ConditionsDependencyHandler.cpp:270-351 | a failing callback or a missing required condition makes every run throw, with cycles too |
| DependencyFailures.BulkTooEarlyThrows | DDCond/src/ConditionsDependencyHandler.cpp:177-213 | so does access by detector or by item in a creation callback, or in a resolve callback that one leads to |
| DependencyNarrowing.RunNarrows | DDCond/src/ConditionsDependencyHandler.cpp:36-60 | a run that does not throw is a sequence of steps in which, from any state to any later one, those inside callbacks included, finished items keep their validities and the others, once set, only shrink (these if the validities are typed) |
| DependencyNarrowing.CallbackNarrows | DDCond/src/ConditionsDependencyHandler.cpp:36-60 | during any callback validities that are set only shrink and finished ones stay as they are |
| DependencyNarrowing.ComputeNarrows | DDCond/src/ConditionsDependencyHandler.cpp:94-106 | the same from any point of the first pass to its end |
| DependencyNarrowing.ResolvePassNarrows | DDCond/src/ConditionsDependencyHandler.cpp:109-128 | the same from any point of the second pass to its end |
| DependencyNarrowing.ComputedToEnd | DDCond/src/ConditionsDependencyHandler.cpp:94-128 | the same from the state after any number of items of the first pass to the end of the run |
| DependencyNarrowing.ResolvedToEnd | DDCond/src/ConditionsDependencyHandler.cpp:116-121 | after any number of items of the second pass these are finished, and their validities are the same at the end of the run |
| DependencyUnset.RunAllAlike | DDCond/src/ConditionsDependencyHandler.cpp:36-46 | what an item holds before its validity is set is never read: states that differ in that alone give the same results and errors |
| DependencyForgotten.CreationForgets | DDCond/src/ConditionsDependencyHandler.cpp:312-326 | from any state, the validity of a created condition is that of the accesses behind the longest prefix which finds everything RESOLVED or missing, and unlimited if there are none |
| DependencyForgotten.ForgottenRead | DDCore/src/ConditionDerived.cpp:69-92 | the validity lies inside that of a condition read in this prefix exactly when the other accesses alone give one inside it |
| DependencyForgotten.LaterReadsLimit | DDCond/src/ConditionsDependencyHandler.cpp:312-326 | every access by key behind this prefix to the pool, or to a derived condition through the context, contains the validity |
| DependencyForgotten.BulkReadsLimit | DDCore/src/ConditionDerived.cpp:35-50 | access by detector or by item is never forgotten: all it finds contains the validity of the created condition |
| DependencyForgotten.CreationPassesOn | DDCond/src/ConditionsDependencyHandler.cpp:312-326 | the end of a creation sets and narrows the validity of the item that has asked for it |
| DependencyLimits.LaterReaderIsNotLimited | DDCond/src/ConditionsDependencyHandler.cpp:236-238 | in a table of three items without cycles two items read the same condition, and the later one is not limited by it |
| DependencyBlocks.BlocksPartition | DDCond/src/ConditionsDependencyHandler.cpp:122-141 | every condition is in exactly one block, once; the key of the block is its validity; no block is empty; the sizes add up to the size of the table |
| DependencyBlocks.BlockKeys | DDCond/src/ConditionsDependencyHandler.cpp:122-141 | the keys of the blocks are the validities of the table |
| DependencyBlocks.BlocksInOrder | DDCond/src/ConditionsDependencyHandler.cpp:122-141 | each block lists its conditions in the order of the table |
| DependencyHandler.Work.DoIntersection | DDCond/src/ConditionsDependencyHandler.cpp:36-46 | the in-place intersection: a validity not set before is overwritten |
| DependencyHandler.Handler.constructor | DDCond/src/ConditionsDependencyHandler.cpp:63-79 | one item in the state INVALID for each dependency |
| DependencyHandler.Handler.Get | DDCond/src/ConditionsDependencyHandler.cpp:222-288 | the objects change as the function `Get` says, with the same error; if the key is found RESOLVED no object changes |
| DependencyHandler.Handler.Access | DDCore/src/ConditionDerived.cpp:35-92 | access through the update context: the validity is narrowed once more by what was found; a direct read of a RESOLVED condition changes no object; access by detector or by item is an error before the second pass |
| DependencyHandler.Handler.DoCallback | DDCond/src/ConditionsDependencyHandler.cpp:291-351 | the objects change as the function `Create` says, with the same error |
| DependencyHandler.Handler.Resolve | DDCond/src/ConditionsDependencyHandler.cpp:48-60 | the objects change as the function `Resolve` says, with the same error |
| DependencyHandler.Handler.Compute | DDCond/src/ConditionsDependencyHandler.cpp:94-106 | the first pass on the objects is the first pass of the functions |
| DependencyHandler.Handler.ResolveAll | DDCond/src/ConditionsDependencyHandler.cpp:109-157 | the second pass on the objects is the second pass of the functions, and the blocks are those of the final validities |
| DependencyHandler.Derive | DDCond/src/plugins/ConditionsUserPool.cpp:471-478 | both passes in a row: the error of the run, or the number of callbacks, equal to the size of the table, and blocks that partition it |
| GeometryScan.CollectIsExact | DDCore/src/GeoHandler.cpp:146-173 | each depth lists, once each, exactly the nodes that a chain of daughters of that length leads to |
| GeometryScan.DepthsAreContiguous | DDCore/src/GeoHandler.cpp:166-173 | the depths in use have no hole |
| GeometryScan.CollectWalks | DDCore/src/GeoHandler.cpp:146-173 | at each depth the nodes stand in the order of a walk that goes down before it goes on, each at its first occurrence |
| GeometryScan.VolumesAreOrdered | DDCore/src/GeoHandler.cpp:113-124 | each volume in the hierarchy is listed once, and all its daughters strictly before it |
| GeometryScan.CollectSolidKeeps | DDCore/src/GeoHandler.cpp:31-50 | each shape is listed once, list and set agree, both operands come before each composite, and the placements are listed in post-order with the names of the operands |
| GeometryScan.VisitLevelsSolids | DDCore/src/GeoHandler.cpp:113-141 | the same over the depths from any one down: operands before composites, and the set grows by exactly the shapes, operands included, of the nodes there |
| GeometryScan.SolidsAreOrdered | DDCore/src/GeoHandler.cpp:113-141 | each shape of a reachable volume, operands included, is listed once, and nothing else |
| GeometryScan.VisitLevelsScans | DDCore/src/GeoHandler.cpp:31-50 | over the nodes visited deepest first: the placements are those of the shapes by the name of the volume and of the nodes by their own, in order; volumes and shapes stand at their first occurrences, operands ahead |
| GeometryScan.GeometryInfo.CollectShape | DDCore/src/GeoHandler.cpp:31-50 | the in-place form of collecting one shape |
| GeometryScan.GeometryInfo.CollectLevels | DDCore/src/GeoHandler.cpp:113-142 | the loop over the depths, deepest first, on the object |
| GeometryScan.GeoHandler.ICollect | DDCore/src/GeoHandler.cpp:146-173 | the recursion in place; set and vector of each depth agree |
| GeometryScan.GeoHandler.CollectNodes | DDCore/src/GeoHandler.cpp:99-105 | after clearing, the nodes by depth, exactly and in order |
| GeometryScan.GeoHandler.CollectInfo | DDCore/src/GeoHandler.cpp:107-144 | from an empty info, exactly the reachable volumes daughters-first and exactly their shapes, operands included, operands-first, with all placements, in the order of the nodes visited |
| AlignmentOrder.EntriesAreAffected | DDCore/src/AlignmentsCalculator.cpp:193-211 | exactly the elements at or below a delta become entries, each once, the deltas in front |
| AlignmentOrder.ParentsFirstIffNoGap | DDCore/src/AlignmentsCalculator.cpp:222-234 | affected parents come before their children exactly when the deltas have no gap |
| AlignmentsCalculator.NoGapAligns | DDCore/src/AlignmentsCalculator.cpp:124-170 | without a gap, and for any transformations, each affected element gets the product of its parent's aligned, earlier or nominal world transformation, its nominal one and its delta, and nothing else changes |
| AlignmentsCalculator.GapMisaligns | DDCore/src/AlignmentsCalculator.cpp:124-170 | with a gap there are transformations for which some element comes out wrong |
| AlignmentsCalculator.IdentityDeltasAreNominal | DDCore/src/AlignmentsCalculator.cpp:160-161 | deltas that do nothing reproduce the nominal geometry |
| AlignmentsCalculator.Context.Insert | DDCore/src/AlignmentsCalculator.cpp:89-98 | an entry is appended and the element indexed |
| AlignmentsCalculator.Context.Resolve | DDCore/src/AlignmentsCalculator.cpp:193-199 | appends the subtree of an element as far as it has no entries yet |
| AlignmentsCalculator.Context.ComputeEntry | DDCore/src/AlignmentsCalculator.cpp:124-171 | an entry that is valid is skipped; otherwise the mapping gets its world transformation and it counts as computed |
| AlignmentsCalculator.ComputeAlignments | DDCore/src/AlignmentsCalculator.cpp:202-215 | the whole calculation in place: one transformation computed for each affected element, aligned if the deltas have no gap |
| NominalTransforms.ComputePlacementTrafo | DDCore/src/DetectorTools.cpp:323-332 | the product of the matrices of all nodes of a path but the last: applied to a point it is the matrix of the first node, then that of the second, and so on |
| NominalTransforms.PairHasMatrix | DDCore/src/DetectorTools.cpp:323-332 | the path of a node in its mother has the matrix of the node |
| NominalTransforms.NominalWorldIsPathProduct | DDCore/src/AlignmentTools.cpp:60-88 | the nominal world transformation, multiplied up from parent to child, is the product of the matrices along the whole assembled placement path, and exists exactly when that does; a point is carried by the matrix of the lowest node first |
| PlacementPaths.FindNodeLoop | DDCore/src/DetectorTools.cpp:335-382 | the loop of the lookup computes the recursive lookup |
| PlacementPaths.FindChildClimbs | DDCore/src/DetectorTools.cpp:100-128 | what is found climbs without a hole to a daughter of the parent and starts with a node of the name below it; nothing is found exactly if there is none |
| PlacementPaths.FindChildPrefers | DDCore/src/DetectorTools.cpp:100-128 | a daughter of the name goes before anything further down, the first one before the others |
| PlacementPaths.FindChildDescends | DDCore/src/DetectorTools.cpp:100-128 | without one, the first daughter with the name below it is searched further |
| PlacementPaths.FindChildByName | DDCore/src/DetectorTools.cpp:100-128 | the two loops and the recursion append what the function finds |
| PlacementPaths.MakePlacementPath | DDCore/src/DetectorTools.cpp:256-266 | the loop joins the parts; the exception leaves no result |
| PlacementPaths.MakeFails | DDCore/src/DetectorTools.cpp:256-266 | the exception is thrown exactly when the name of a placement is missing in the tree of the next one |
| PlacementPaths.PrintPlacementPath | DDCore/src/DetectorTools.cpp:290-301 | the loop prints the names from the last node to the first |
| PlacementPaths.FindNodePrinted | DDCore/src/DetectorTools.cpp:335-382 | looking up the printed form of a chain without holes leads to its lowest node |
| PlacementPaths.FindNodeSound | DDCore/src/DetectorTools.cpp:335-382 | whatever is found hangs on a chain from the top whose names the path spells, up to a slash at either end; a path that spells none finds nothing |
| PlacementPaths.ElementPathIs | DDCore/src/DetectorTools.cpp:176-184 | every placement on the way up that is not missing is there once, in its place |
| PlacementPaths.PathLeadsBack | DDCore/src/DetectorTools.cpp:256-301 | if each placement is the only node of its name below the next one, the path assembled from placements nested up to the top has no holes, and looking up what it prints leads back to the lowest placement, when the names of siblings differ and no name is empty or contains a slash |
| PlacementPaths.UniqueNamesFind | DDCore/src/DetectorTools.cpp:256-301 | names which no two nodes of the tree share differ between siblings and find each placement, for any placements |
| PlacementPaths.PrintedPath | DDCore/src/DetectorTools.cpp:283-287 | all of it for one element: collected without missing placements, assembled and printed, or the exception; under the same conditions the text leads back to the lowest placement |
| DetectorTree.StepKeeps | DDCore/src/DetElement.cpp:119-167 | creating, attaching and reading keep: parents and children agree by name, ways lead down from the tops, and each cached path and level belongs to the part of the way below the last element attached too late |
| DetectorTree.CreateMakes | DDCore/src/DetElement.cpp:46-56 | a new element has no parent, no children and nothing cached, and no other changes |
| DetectorTree.AddAttaches | DDCore/src/DetElement.cpp:258-263 | under a free name the child gets the parent and the parent the child under its name, and no other link, name or cache changes; the ways below the child are lengthened by that of the parent; the child is late exactly if it has a cached path |
| DetectorTree.AddRefused | DDCore/src/DetElement.cpp:258-271 | under a taken name no link, name or way changes; the path of the parent is read |
| DetectorTree.ReadCaches | DDCore/src/DetElement.cpp:119-167 | reading gives the element a path; what was cached stays, and each new path and level is made from that of the parent |
| DetectorTree.CachedIsExact | DDCore/src/DetElement.cpp:119-167 | in every run a cached path is the printed way from the top, and a cached level the depth, exactly when no element on the way had a cached path when it was attached |
| DetectorTree.PathFindsElement | DDCore/src/DetectorTools.cpp:221-254 | in every run, looking up the cached path of an element from anywhere in its tree gives the element back exactly under the same condition |
| DetectorTree.FindAbsolute | DDCore/src/DetectorTools.cpp:226-244 | the first name of an absolute path stands for the top whatever it is |
| DetElements.DetElement.MakePath | DDCore/src/DetElement.cpp:119-131 | the in-place form: path and level of the element and of uncached parents |
| DetElements.DetElement.Path | DDCore/src/DetElement.cpp:158-167 | returns the cached path, made first if need be |
| DetElements.DetElement.Level | DDCore/src/DetElement.cpp:146-155 | returns the cached level, made first if need be |
| DetElements.DetElement.Add | DDCore/src/DetElement.cpp:258-271 | attaches a child under a free name and writes nothing else; under a taken name no link changes and the path of the parent is read |
| DetElements.DetElement.FindDaughterElement | DDCore/src/DetectorTools.cpp:226-244 | the in-place form of the lookup |
| DetElements.DetElement.TopElement | DDCore/src/DetectorTools.cpp:247-254 | the element without a parent above this one |
| DetectorClone.DetElementObject.Clone | DDCore/src/DetectorInterna.cpp:100-136 | a tree of new objects, linked to the parents inside it, that copies the tree of this one, with key 0, level -1, no path, no flag and no alignments at the top; it fails exactly if two children of one element have the same name; nothing that existed changes |
| DetectorClone.DetElementObject.CloneNamed | DDCore/src/DetElement.cpp:274-292 | the same with a name and the title of the original |
| DetectorClone.CloneIsIsomorphic | DDCore/src/DetectorInterna.cpp:100-136 | a copy has the elements of the original at the same paths of names, each with key 0, level -1, no paths, flag 0 and no alignments, with type and hit flags of the original; placements are copied below the top, and at the top exactly with its flag; the new identifier reaches direct children exactly with its flag, and nothing further down |
| DetectorClone.NamedCanBeCopied | DDCore/src/DetectorInterna.cpp:119-134 | a tree built by attaching children under their names can be copied |
| ConditionsCache.SelectionIsExact | DDCond/src/ConditionsIOVPool.cpp:110-128 | the validity returned is the common part of the one handed in and of all pools selected |
| ConditionsCache.HitsJoin | DDCond/src/ConditionsIOVPool.cpp:110-128 | a selection lists every pool that contains the request as often as the cache does, in the same order |
| ConditionsCache.SelectionStaysGood | DDCond/src/ConditionsIOVPool.cpp:110-128 | it contains the request if the one handed in did, and a later request inside it selects at least the same pools |
| ConditionsCache.SelectionNests | DDCond/src/ConditionsIOVPool.cpp:110-128 | a later request inside it is answered with a validity inside it |
| ConditionsCache.PoolSelectionIsExact | DDCond/src/ConditionsIOVPool.cpp:153-162 | with inversion and reset the result covers what all pools collected cover exactly when it was handed in without a type and there is a pool, or when the pools have no time in common |
| ConditionsCache.SelectedHaveCommon | DDCond/src/ConditionsIOVPool.cpp:182-191 | pools selected for one request that spans something have a time in common, so that starting from no pools the type alone decides |
| ConditionsCache.KeepsExactly | DDCond/src/ConditionsIOVPool.cpp:76-107 | a cleanup keeps exactly the pools it does not ask to remove, and sizes add up |
| ConditionsCache.RunConserves | DDCond/src/ConditionsIOVPool.cpp:76-107 | over every run, what was inserted is either there or was counted by a cleanup |
| ConditionsCache.RunConservesConditions | DDCond/src/ConditionsIOVPool.cpp:76-107 | the same by the conditions themselves: each that was there or put in is there or was cleaned away, as often |
| ConditionsCache.PutIs | DDCond/src/Type1/Manager_Type1.cpp:216-235 | a condition goes to the end of the pool of its key, and no other pool changes |
| ConditionsCache.AgeNeverHit | DDCond/src/ConditionsIOVPool.cpp:110-128 | over every run, a pool that stays and is never hit ages by the number of ageing selections that miss it |
| ConditionsCache.AgeSinceHit | DDCond/src/ConditionsIOVPool.cpp:110-128 | over every run, the age of a pool that stays is the number of ageing selections that missed it since the last one that hit it |
| ConditionsCache.RecentlyUsedIsKept | DDCond/src/ConditionsIOVPool.cpp:93-107 | such a pool survives a cleanup with limit `n` exactly when fewer than `n` selections have missed it |
| ConditionsCache.RunKeepsSorted | DDCond/src/Type1/Manager_Type1.cpp:216-235 | the pools stay in the order of their keys, one for each key |
| ConditionsIOVPools.ConditionsIOVPool.Select | DDCond/src/ConditionsIOVPool.cpp:110-128 | in place: ages, validity, conditions collected and their number |
| ConditionsIOVPools.ConditionsIOVPool.SelectKey | DDCond/src/ConditionsIOVPool.cpp:41-54 | exactly the conditions of one key in all pools that contain the request, as often as they are there; nothing changes |
| ConditionsIOVPools.MatchingIs | DDCond/src/ConditionsIOVPool.cpp:41-54 | of the conditions of a pool exactly those with the hash are taken, as often as they are there and in their order |
| ConditionsIOVPools.ConditionsIOVPool.CollectPools | DDCond/src/ConditionsIOVPool.cpp:194-208 | exactly the pools that contain the request are appended, in their order, and counted; nothing changes |
| ConditionsIOVPools.ConditionsIOVPool.SelectPools | DDCond/src/ConditionsIOVPool.cpp:182-191 | the same with the validity of all pools collected, those handed in included, and exactly when that is their common part; no pool changes |
| ConditionsIOVPools.ConditionsIOVPool.Register | DDCond/src/Type1/Manager_Type1.cpp:216-235 | the pool of a key, entered empty and with age zero if there was none |
| ConditionsIOVPools.ConditionsIOVPool.Clean | DDCond/src/ConditionsIOVPool.cpp:93-107 | removes the pools of at least that age and returns the number of conditions removed |
| ConditionsIOVPools.ConditionsIOVPool.CleanBy | DDCond/src/ConditionsIOVPool.cpp:76-90 | the same for a policy |
| ConditionsMaps.RangeOfDetector | DDCore/include/DD4hep/Conditions.h:295-313 | the keys between the hashes of two items of a detector are those of the detector with items in between |
| ConditionsMaps.RangeScanIsFiltered | DDCore/src/ConditionsMap.cpp:119-132 | the scan from the lower bound visits what the filtered scan of everything visits, in the same order, exactly when no condition has a hash on another side of the range than its key |
| ConditionsMaps.RangeScanIsExact | DDCore/src/ConditionsMap.cpp:119-132 | each entry with its key in the range gives its condition once, in the order of the keys |
| ConditionsMaps.ScansAgree | DDCore/src/ConditionsMap.cpp:22-56 | with stored hashes equal to the keys both agree on every range, and visit exactly the conditions of the detector with items in the range |
| ConditionsMaps.InsertedSorted | DDCore/src/ConditionsMap.cpp:98-102 | insertion keeps the order of the keys |
| ConditionsMaps.ConditionsMapping.Insert | DDCore/src/ConditionsMap.cpp:98-102 | an entry is added unless the key is taken in a map; a multimap always adds |
| ConditionsMaps.ConditionsMapping.Get | DDCore/src/ConditionsMap.cpp:105-108 | a condition entered under the key, or none exactly if there is none |
| ConditionsMaps.ConditionsMapping.ScanRange | DDCore/src/ConditionsMap.cpp:119-132 | the loop from the lower bound is the range scan |
| ConditionsMaps.ConditionsMapping.GetRange | DDCore/src/ConditionsMap.cpp:59-94 | the scan of everything behind a filter on the stored hash |
| NominalMap.OverlaidIsLookup | DDCore/src/AlignmentNominalMap.cpp:82-108 | the range scan visits each key at most once, inside the range, with what the point lookup returns for it |
| NominalMap.OverlaidIsComplete | DDCore/src/AlignmentNominalMap.cpp:82-108 | it visits every key in the range that the point lookup knows, exactly unless the hash of the default alignment is zero, in the range and not overridden |
| NominalMap.AlignmentsNominalMap.Insert | DDCore/src/AlignmentNominalMap.cpp:29-34 | an entry is added unless the key is taken |
| NominalMap.AlignmentsNominalMap.Get | DDCore/src/AlignmentNominalMap.cpp:37-46 | the entry, or the nominal alignment for the alignment key |
| NominalMap.AlignmentsNominalMap.ScanRange | DDCore/src/AlignmentNominalMap.cpp:82-108 | the loop, with the cleared hash as its flag, visits the overlaid range |
| IDDescriptor.EncodeIs | DDCore/src/IDDescriptor.cpp:148-153 | encoding one value puts its lowest bits into the field and nothing anywhere else |
| IDDescriptor.FieldIsFirst | DDCore/src/IDDescriptor.cpp:95-104 | a name stands for the first field that has it |
| IDDescriptor.ValueInRange | DDCore/src/segmentations/BitFieldCoder.cpp:56-66 | whatever the word, the value of a field is in its signed or unsigned range |
| IDDescriptor.DecodeEncoded | DDCore/src/IDDescriptor.cpp:134-145 | decoding a field of an encoded word gives back the value supplied for it exactly if that is in the range of the field, and zero if none was supplied |
| IDDescriptor.EncodedInMask | DDCore/src/IDDescriptor.cpp:124-145 | an encoded word has no bit outside the mask of its identifiers |
| IDDescriptor.GetMask | DDCore/src/IDDescriptor.cpp:124-132 | the bits of the fields named, or the exception exactly for a name that is not known |
| IDDescriptor.Encode | DDCore/src/IDDescriptor.cpp:134-145 | the bits of all the encoded values, or the exception exactly for a name that is not known |
| IDDescriptor.DecodeFields | DDCore/src/IDDescriptor.cpp:164-171 | every field with its value, each in range |
| IDDescriptor.UsedBits | DDCore/src/segmentations/BitFieldCoder.cpp:145-167 | the test for bits in use finds exactly the fields that share a bit with an earlier one |
| IDDescriptor.BitFieldCoder.AddField | DDCore/src/segmentations/BitFieldCoder.cpp:145-167 | accepts exactly the fields that fit and share no bit, a width of zero included; then all fields are apart and the joined mask is theirs; a field with used bits has been appended when the exception is thrown |
| MultipoleField.AroundHolds | DDCore/src/FieldTypes.cpp:138-152 | the box computed in the world frame holds the image of every point of the local box |
| MultipoleField.AroundIsTight | DDCore/src/FieldTypes.cpp:138-152 | it is no larger than needed: points of the local box come to lie on each of its faces |
| MultipoleField.FilterAgrees | DDCore/src/FieldTypes.cpp:155-173 | the pre-filter rejects no position which the volume accepts: with it and without it the field is the same everywhere |
| MultipoleField.ShortCutsIffExact | DDCore/src/FieldTypes.cpp:155-165 | the short cuts for an unrotated or unmoved frame give the local position everywhere exactly when the tests leave no tolerance |
| MultipoleField.AgreesIffExact | DDCore/src/FieldTypes.cpp:116-173 | the field is that of the definition for every volume, coefficients and position exactly when the tests leave no tolerance |
| MultipoleField.ToleranceMatters | DDCore/src/FieldTypes.cpp:116-123 | an example: a shift below the tolerance gives another field at a position which the volume accepts |
| MultipoleField.MultipoleIsSeries | DDCore/src/FieldTypes.cpp:174-200 | By and Bx up to four orders are the real and imaginary parts of the complex power series of the coefficients and skews; more orders are an error |
| MultipoleField.FilteredIsSeries | DDCore/src/FieldTypes.cpp:155-206 | with exact tests, what is added where the volume accepts the position is the rotation of (Bx, By, Bz) with By and Bx from the series there, and nothing elsewhere |
| MultipoleField.MultipoleFieldObject.FieldComponents | DDCore/src/FieldTypes.cpp:110-206 | adds the filtered field to the first three entries and to nothing else, remembering the derived values at the first call; with exact tests that is the rotated series where the volume accepts the position, and nothing elsewhere |
| OverlayedField.StartMatters | DDCore/src/Fields.cpp:27-34 | components added to an array that was not cleared give a different field, exactly |
| OverlayedField.CombinedIsTotal | DDCore/src/Fields.cpp:27-34 | every component counts once, with its value at the position |
| OverlayedField.OverlayedFieldObject.Add | DDCore/src/Fields.cpp:113-140 | appends to the electric, the magnetic or both lists; the short cut is set exactly for a single component |
| OverlayedField.OverlayedFieldObject.MagneticField | DDCore/src/Fields.cpp:149-161 | the short cut gives the sum of all magnetic components |
| OverlayedField.OverlayedFieldObject.ElectromagneticField | DDCore/src/Fields.cpp:176-181 | the electric entries are the sum of the electric components, the magnetic ones that of the magnetic components exactly if they were zero before |

## Left out

- Grids, segmentations, readouts, persistency, XML, plugins, printing and user interfaces: foreign libraries, or calls handed on.
- Text repositories of conditions: writer and reader use different layouts, so that there is no round trip to prove.
- `AlignmentsCalib`, `TGeoPhysicalNode` alignment, survey alignments and the revalidation of placements: they act on objects of ROOT.
- The dependency engine: conditions registered by callbacks, callbacks that catch the exceptions of their accesses, a user pool that changes during a run, printouts and timing, and which of two nested exceptions is reported last. The condition object is reduced to its presence and its validity.
- `ConditionsIOVPool::selectRange`, and the overload of `select` with a predicate, whose loop differs from the one modelled only in what it counts.
- DependencyEngine.Get: what the user pool returns for access by detector or by item is a parameter of the access.
- GeometryScan.CollectIsExact: propagation of regions and limits, the table of daughters by node, materials and visualisation attributes are not modelled, nor is the renaming of shapes called `TGeo*`; a node without volume is excluded.
- GeometryScan.GeoHandler.CollectInfo: starts from an empty info.
- AlignmentsCalculator.ComputeAlignments: conditions flags and the counter of multiplications are not modelled, and the deltas are handed in by their order of paths.
- NominalTransforms.NominalWorldIsPathProduct: every element on the way to the top is placed; flags and cached inverse matrices are not modelled.
- PlacementPaths.PathLeadsBack: null handles, and `findChild` by address, which nothing calls.
- DetectorTree.StepKeeps: an element is attached once and not below itself, which the source does not check; renaming an element afterwards is not modelled, nor is a hash of a path that is zero, with which `key()` would make the path anew.
- DetectorClone.DetElementObject.Clone: user extensions and instance counts are not modelled; what the exception leaves allocated is not described.
- ConditionsCache.AgeSinceHit: ages are unbounded, without the wrap-around of a 32-bit counter.
- ConditionsIOVPools.ConditionsIOVPool.SelectPools: the overload which collects into a map, and there overwrites a pool handed in under the key of one found.
- ConditionsMaps.ConditionsMapping.ScanRange: the processor is a collector; over a hash map the scan is the filtered one, in the order of storage.
- The full scan of the nominal overlay, which visits overridden elements twice, and the vector access built on it.
- IDDescriptor.DecodeEncoded: parsing of descriptions, `set` with its range check on truncated limits, and the reversed encoding.
- MultipoleField.AgreesIffExact: rounding.
- Solenoid and dipole fields, and constant fields in a local frame: single formulas.
- Hash collisions, locks, instance counting and logging throughout.
