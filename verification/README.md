# Crossfire server core: a model and its proofs

Crossfire is a multi-player adventure game. This project models the parts of its server's common
library that keep the game world in order, and proves what they are relied on for:

- **Object store** (`ObjectStore`): free, used and active lists and the tag map through the same
  recycled cells, and owner pointers guarded by tags.
- **Inventories** (`Weights`, `Inventories`, `BulkWeights`, `WeightDrift`, `InventoryHeap`): objects inside
  objects, with `carrying` kept up to date along chains of holders, through containers that reduce
  weight and truncate; inserting, removing, merging, splitting and counting piles; by how much each of
  these gets `carrying` wrong, exactly; and the recomputation that `carrying` is to agree with. `Weights`
  and `Inventories` say on plain values what the pointer code of `InventoryHeap` does; every method
  there is tied to a step on values.
- **Key/value lists** (`KeyValues`): patched against an archetype, saved as differences, loaded again.
- **Map spaces** (`Things`, `FaceLayers`, `SpaceSums`, `MapSpaces`, `SpaceLaws`): a stack of objects and what is
  cached about it, with the decision when recomputing may be skipped, and the slots for the faces shown;
  `SpaceLaws` says all of it again of the things on the space and their flags.
- **Tiled maps** (`TileWorld`): coordinates carried across maps that are loaded and joined on demand,
  adjacency and distances.
- **Line of sight** (`LineOfSight`, `SightMarking`): the table of which space hides which, and the pass that
  marks what one player cannot see.
- **Self-contained parts**: path normalising in place (`Paths`, `PathBuffer`), the array heap
  (`MinHeaps`), artifact chances (`Artifacts`), levels and experience (`Experience`), shop lists
  (`ShopStrings`). `Sums` and `Common` hold what several modules need.

Where the source updates things in place, so do the classes here; their methods are tied to functions on
values, and the laws are proved of those. Random rolls are arguments. Where a property one might expect
is not quite true of the code, the exact condition is proved, with an example where it fails:

- A filled pile put into or taken out of a holder is booked without its contents, and a filled container
  put into a weight-reducing one is truncated once instead of once per object.
- A lone object (count 0) weighs as one but is booked by its count when the count changes, also by
  something merged into it, which loses one; splitting no units off a pile makes a lone copy, which
  adds one; merging on a map drops lone objects uncounted.
- The test that lets a map space keep its cache looks neither at the key that blocks prayer nor at light.
- Distances between objects of several parts take all parts to be on the first part's map.
- Relative paths that climb more than two levels come out wrong: a third ".." takes one away.
- The total chance of an artifact list is kept in 16 bits, and the closed form for an artifact's chance
  does not look at magic, difficulty or an illegal entry for no artifact.
- Empty values, and spaces at the ends of values, are lost when an object is saved and loaded.

Where a comment in the source promises more than the code does (keeping ".." at the beginning of relative
paths, common/path.cpp:121; the chance of an artifact, common/artifact.cpp:148-160), the model follows the
code.

## Model

| member | source | states |
|---|---|---|
| `LineOfSight.NearSightLineIsHalfSpaceDistance` | common/los.cpp:154-158 | the distance test, which the code writes with a square root and a quotient, holds exactly when four times the squared cross product is at most the squared distance; no rounding is involved |
| `LineOfSight.NearSightLineIff` | common/los.cpp:154-158 | for any two spaces, the test holds exactly when some point of the line through the further one and the viewer lies within half a space of the other |
| `LineOfSight.BlocksIff` | common/los.cpp:118-165 | in coordinates, a space off the border and not the viewer's hides another exactly when that is one further out, along one axis or both, and the first lies within half a space of the line from it to the viewer |
| `LineOfSight.BlocksMovesOutward` | common/los.cpp:125-165 | every recorded edge stays in the window, goes strictly away from the centre, and never ends on the viewer's space or next to it |
| `LineOfSight.SidewaysIsVisible` | common/los.cpp:125-158 | from a space on an axis of the window, the neighbour beside the axis passes the distance test for no window, so mirroring never records an edge twice |
| `LineOfSight.BlocksIsSymmetric` | common/los.cpp:138-165 | the block relation holds between two spaces exactly when it holds between their reflections in either axis |
| `LineOfSight.HiddenCandidates` | common/los.cpp:118-165 | a space hides at most three others, wherever it lies |
| `LineOfSight.EdgesOfCandidate` | common/los.cpp:138-165 | the up to four mirror images recorded along with a quadrant space are exactly the edges of the relation that fold onto it |
| `LineOfSight.BlockTable.RowFits` | common/los.cpp:52-57 | no row of the table ever holds more than three of its four slots |
| `LineOfSight.BlockTable.SetBlock` | common/los.cpp:79-96 | records an edge unless it is known already; all other rows stay as they are |
| `LineOfSight.BlockTable.RecordCandidate` | common/los.cpp:118-165 | one candidate adds exactly its mirror images to the table |
| `LineOfSight.BlockTable.constructor` | common/los.cpp:106-171 | init_block for every odd window size: each row holds, without duplicates, exactly the successors of its space in the block relation |
| `LineOfSight.BlockTable.RowIff` | common/los.cpp:106-171 | so the rows of the filled table hold exactly those |
| `SightMarking.View.ShadowIsLeastClosed` | common/los.cpp:188-222 | what is hidden by a set of walls is the least set of spaces of the view that holds the walls' block successors and is closed under the block relation |
| `SightMarking.View.ProgressAddsShadow` | common/los.cpp:199-221 | a marking walk that turns back at marked spaces still ends with exactly the shadow added, as long as what was marked before is closed |
| `SightMarking.TableGivesView` | common/los.cpp:106-171 | the table that init_block leaves behind meets everything the marking pass relies on |
| `SightMarking.StepIff` | common/los.cpp:188-199 | one step of marking, in the same coordinates |
| `SightMarking.InnerWallsIff` | common/los.cpp:529-532 | the walls looked at are those of the view, in its own coordinates, but for its border |
| `SightMarking.NeighboursStayVisible` | common/los.cpp:188-261 | whatever the walls are, the viewer's own space and its eight neighbours are never marked |
| `SightMarking.ShadowIsSymmetric` | common/los.cpp:188-261 | in an odd view, a space is hidden by some walls exactly when its reflection is hidden by the reflected walls |
| `SightMarking.HiddenBehindIsSymmetric` | common/los.cpp:188-222 | hiding through any number of spaces is symmetric under both reflections |
| `SightMarking.Sight.SetWall` | common/los.cpp:188-222 | the recursion marks only what is hidden behind the space, leaves nothing out, and keeps marked what was |
| `SightMarking.Sight.CheckWall` | common/los.cpp:235-261 | adds the shadow of an inner space that blocks the view or lies off the map, and nothing for any other |
| `SightMarking.Sight.ClearLos` | common/los.cpp:270-278 | nothing is marked afterwards |
| `SightMarking.Sight.UpdateLos` | common/los.cpp:509-532 | after the wall scan the marked spaces are exactly the shadow of the inner walls; a removed viewer's matrix is left alone and a wizard's is cleared |
| `MinHeaps.RootIsMinimal` | common/minheap.cpp:209-218 | the root of a heap measures no more than any element |
| `MinHeaps.SiftDownStep` | common/minheap.cpp:71-111 | exchanging an element with its smaller child moves the only possible disorder down to that child |
| `MinHeaps.PullDown` | common/minheap.cpp:184-198 | copying a parent into the hole below it keeps every other pair in order and, counting the hole as the new element, keeps the elements |
| `MinHeaps.TakeRoot` | common/minheap.cpp:209-218 | putting the last element in the place of the root takes exactly the root away |
| `MinHeaps.MovedIsHeapBelow` | common/minheap.cpp:209-218 | and leaves at most the root out of order |
| `MinHeaps.MinHeap.Init` | common/minheap.cpp:129-141 | an empty heap of the given capacity |
| `MinHeaps.MinHeap.InitStatic` | common/minheap.cpp:162-170 | the same in memory of the caller's |
| `MinHeaps.MinHeap.Normalize` | common/minheap.cpp:71-111 | from a heap with only the root out of place, a heap with the same elements |
| `MinHeaps.MinHeap.Insert` | common/minheap.cpp:184-198 | fails exactly when the heap is full, changing nothing; else the heap gains exactly the new element and stays a heap |
| `MinHeaps.MinHeap.Remove` | common/minheap.cpp:209-218 | nothing from an empty heap; else takes out one element that measures no more than any other, and leaves a heap of the rest |
| `MinHeaps.MinHeap.Drain` | test/unit/common/check_minheap.cpp:91-97 | taking out elements until none is left gives a sorted permutation of what was in the heap |
| `Weights.AlongStep` | common/object.cpp:1804-1810 | one round of the loop reduces the weight, books it on one holder and leaves the rest of the chain to do |
| `Weights.RemoveUndoesInsert` | common/object.cpp:1829-1924 | taking an object with all it holds out of where it was put gives the former arrangement back |
| `Weights.InsertUndoesRemove` | common/object.cpp:2853-2984 | and putting it back gives the arrangement before it was taken out |
| `Weights.InsertAdds` | common/object.cpp:2889-2911 | putting an object somewhere should add, to every holder, what the object and each thing inside it let through one by one, through every reducing container in between |
| `Weights.RemoveTakes` | common/object.cpp:1857-1864 | and taking it out should take as much off |
| `Weights.Recount` | common/object.cpp:2759-2813 | a new count changes what each holder carries by the weights of the old and the new count along the path |
| `Inventories.PutInIsOff` | common/object.cpp:2889-2911 | on any sums, right or wrong, putting an object in shifts the error of every holder by what its load brings there as a whole less what it and its contents bring one by one |
| `Inventories.TakeOutIsOff` | common/object.cpp:1857-1864 | taking it out shifts it back by the same |
| `Inventories.PutInIsExactIff` | common/object.cpp:2889-2911 | from right sums, for any object and any holders, all sums stay right exactly when the load reaches each holder the same as a whole and one by one |
| `Inventories.TakeOutIsExactIff` | common/object.cpp:1857-1864 | the same exact condition for taking out |
| `Inventories.TakeOutUndoesPutIn` | common/object.cpp:1829-1924 | taking an object out again gives arrangement and carrying back as they were, even where putting it in went wrong |
| `Inventories.EmptyIsMovable` | common/object.cpp:2889-2911 | an object that holds nothing always meets that condition |
| `Inventories.CountIsOff` | common/object.cpp:2759-2813 | a new count shifts the error by the weight of a single one when it was zero before, and back when it is zero after: a lone object weighs as one but is booked by its count |
| `Inventories.CountIsExactIff` | common/object.cpp:2759-2813 | so the sums stay right exactly when the object is a pile before and after, is none before and after, or its weight does not get out of its holder |
| `Inventories.StepIsOff` | common/object.cpp:1829-2984 | on any sums, each call of insert, remove, merge, decrease or split shifts the error of each holder by a stated amount |
| `Inventories.StepIsExactIff` | common/object.cpp:1829-2984 | from right sums, the sums are right after a call exactly when it moves what may be moved there, or merges into a pile or into something that weighs nothing where it is; decreasing and splitting always keep them |
| `Inventories.RunIsOff` | common/object.cpp:1829-2984 | over every run, the errors of the calls add up |
| `Inventories.RunIsExactIff` | common/object.cpp:1829-2984 | after any run at all, the sums are right exactly when the errors made on the way cancel out for every holder |
| `Inventories.RunIsExact` | common/object.cpp:1829-2984 | after any run of calls that keep the sums, carrying is, for every holder, the sum over everything inside it |
| `Inventories.HistoryDoesNotMatter` | common/object.cpp:1829-2984 | two such runs that end with the same arrangement end with the same carrying everywhere |
| `Inventories.StepConserves` | common/object.cpp:2047-2078 | moving, and merging into a pile, conserve how many things of each kind there are; a merge into a lone object loses one, decreasing takes what it says, and a split of no units out of a pile adds one, as a lone copy |
| `Inventories.RunConserves` | common/object.cpp:1829-2984 | runs that create and use up nothing conserve every kind |
| `Inventories.StepConservesWeight` | common/object.cpp:2047-2078 | what all things of a kind weigh together changes by just what is gained or lost in number, times the weight of the object the call works on: not at all by moves, merges into a pile and splits of at least one |
| `Inventories.RunConservesWeight` | common/object.cpp:1829-2984 | so runs that create and use up nothing conserve weight |
| `Inventories.SplitMakes` | common/object.cpp:2633-2656 | a split makes an object of the same weight, reduction and kind, nowhere and carrying nothing, with as many as were asked for, and takes as many off the first |
| `Inventories.StepLeavesAlone` | common/object.cpp:1829-2984 | no call changes the weight, reduction or kind of an object there is, nor the count of any but the one it works on and the one merged into, nor the place of any but the one and what it holds |
| `Inventories.CanMergeIff` | common/object.cpp:439-541 | just objects alike in all but place and count are merged, up to the limit on counts |
| `BulkWeights.PileExcess` | common/object.cpp:2896-2909 | a pile is booked without its contents: what is missing at a holder is exactly what the contents let through to it |
| `BulkWeights.PileIsMovableIff` | common/object.cpp:2896-2909 | so a pile may be moved exactly when nothing inside it gets past the first holder |
| `BulkWeights.UnreducedIsMovableIff` | common/object.cpp:2889-2911 | among holders that reduce nothing, only a pile that carries something may not be moved |
| `BulkWeights.SingleIsMovableIff` | common/object.cpp:2829-2837 | a single object may be moved exactly when at no container on the way the fractions cut off of its parts add up to a whole |
| `BulkWeights.SingleExcessIsBounded` | common/object.cpp:2829-2837 | its load as a whole never brings less than its parts, and at most one more, for every reducing container on the way, per part that weighs something but one |
| `BulkWeights.PutInIsWithinSlack` | common/object.cpp:2889-2911 | so, put in, it leaves no holder booked too low, and none too high by more than that |
| `BulkWeights.TakeOutIsWithinSlack` | common/object.cpp:1857-1864 | and, taken out, none too high, and none too low by more than that |
| `BulkWeights.BagIntoHalvingChest` | common/object.cpp:2889-2911 | a bag of two coins put into a chest that halves weights: wrong for coins of weight 1, right for coins of weight 100 |
| `BulkWeights.FilledPileIsForgotten` | common/object.cpp:2896-2909 | a filled bag with a count of its own, booked without the coins by a plain chest |
| `BulkWeights.LoneCoinCounted` | common/object.cpp:2759-2813 | a lone coin in a bag whose count is raised, after which the bag carries too much |
| `BulkWeights.LoneCoinJoined` | common/object.cpp:2900-2907 | three coins joining a lone one: the bag carries too much, and three of four are left |
| `BulkWeights.NoCoinsSplit` | common/object.cpp:2633-2656 | no coins split off three in a world of four: there are five |
| `WeightDrift.RecomputedSame` | common/object.cpp:557-569 | recomputing reads carrying only of objects that hold nothing |
| `WeightDrift.SumEachIs` | common/object.cpp:557-569 | whatever the order of the inventory, everything inside that holds something is recomputed once |
| `WeightDrift.SumWeightIsLoop` | common/object.cpp:557-569 | the loop over the inventory followed by the assignment computes the recursive sum |
| `WeightDrift.ArrivalsByChild` | common/object.cpp:1803-1811 | what arrives at a holder, object by object, is what its own children weigh and carry |
| `WeightDrift.ReduceMany` | common/object.cpp:557-569 | truncating every part loses at most one per part but one against truncating the whole |
| `WeightDrift.RecomputedIsWithinSlack` | common/object.cpp:557-569 | on sums that are right, recomputing never gives less than carrying, and at most one more per object but one for every reducing container in the tree |
| `WeightDrift.RecomputedAgrees` | common/object.cpp:557-569 | without reducing containers, recomputing changes no object's carrying in the whole tree |
| `WeightDrift.LeafPilesDrift` | common/object.cpp:557-569 | for a container of n leaf piles, n at least one, the difference is between 0 and n - 1 |
| `InventoryHeap.World.constructor` | common/object.cpp:331-357 | objects lying nowhere, holding nothing, are a world whose sums are right |
| `InventoryHeap.World.AddWeight` | common/object.cpp:2829-2837 | climbs the chain of holders and books the reduced weight on each |
| `InventoryHeap.World.SubWeight` | common/object.cpp:1803-1811 | climbs the chain of holders and takes the reduced weight off each |
| `InventoryHeap.World.Link` | common/object.cpp:2915-2933 | the object becomes the first of its holder's list, which stays a proper doubly linked list, and no other list changes |
| `InventoryHeap.World.Unlink` | common/object.cpp:1895-1922 | the object leaves its holder's list, its neighbours are joined, and no other list changes |
| `InventoryHeap.World.IncreaseNrof` | common/object.cpp:2759-2813 | changes the count and the holders' sums accordingly; right sums stay right exactly when the object is a pile, weighs nothing for its holder, or nothing is added |
| `InventoryHeap.World.ObjectRemove` | common/object.cpp:1857-1924 | removes any object with all it holds from its holder, leaving the order of the rest; right sums stay right exactly when it may be moved |
| `InventoryHeap.World.CanBeMerged` | common/object.cpp:439-541 | decides the merging of two objects that hold nothing |
| `InventoryHeap.World.FindTarget` | common/object.cpp:2890-2908 | finds the first object in the list that the object can merge with, pile or not, if there is any |
| `InventoryHeap.FirstTargetIff` | common/object.cpp:2890-2908 | that is, the first from the given place on that is another empty object of the same weight, reduction and kind, within the limit |
| `InventoryHeap.World.InsertInOb` | common/object.cpp:2853-2984 | a removed object joins the first that matches, or becomes the first of the inventory, whatever it holds; anything else is left alone; right sums stay right exactly as said for the call on values |
| `InventoryHeap.World.ObjectMerge` | common/object.cpp:2047-2078 | the pile is taken over by the first object that matches from the given place down and leaves the list, or nothing changes; right sums stay right exactly as said for the call on values |
| `InventoryHeap.World.DecreaseNrof` | common/object.cpp:2672-2747 | lowers the count, or removes and frees the object when nothing is left, which then leaves its list; right sums stay right |
| `InventoryHeap.World.ObjectSplit` | common/object.cpp:2633-2656 | refuses more than there is; otherwise a free copy with the original's weight, reduction and kind and the wanted count, and the rest stays or is used up and leaves its list; right sums stay right |
| `InventoryHeap.World.SumWeight` | common/object.cpp:557-569 | the recursion recomputes carrying for the object and everything inside that holds something |
| `ObjectStore.Store.constructor` | common/object.cpp:331-357 | all memory is on the free list, nothing is used, active or tagged |
| `ObjectStore.Store.Expand` | common/object.cpp:1225-1252 | a new block, all of it free; every object there was is untouched |
| `ObjectStore.Store.ObjectNew` | common/object.cpp:1267-1317 | the first free cell, or the first of a new block, becomes a used object with the next tag; lists, count of free objects, tag map and active list stay right |
| `ObjectStore.Store.ObjectFree` | common/object.cpp:1587-1739 | a used object leaves the used and the active list and the tag map and becomes the first free cell; freeing twice changes nothing |
| `ObjectStore.Store.UpdateSpeed` | common/object.cpp:1344-1373 | afterwards an object is on the active list exactly when its speed is past the least active one in either direction, at the front if it is new there; a freed one loses its speed and is left alone |
| `ObjectStore.Store.RemoveFromActiveList` | common/object.cpp:1387-1403 | takes an object out of the active list wherever it stands in it, and leaves the order of the others |
| `ObjectStore.Store.TakeCell` | common/object.cpp:1282-1313 | the first free cell goes to the front of the used list; both lists stay proper and together hold all memory |
| `ObjectStore.Store.ReturnCell` | common/object.cpp:1692-1737 | a used cell goes to the front of the free list from anywhere in the used list |
| `ObjectStore.Store.FindByTag` | common/object.cpp:715-726 | finds the used object with a tag, and nothing for a tag that is not current |
| `ObjectStore.Store.GetOwner` | common/object.cpp:798-809 | the owner that was set is given as long as the tag map holds it under the stored tag and it is not removed; otherwise nothing, and the link is dropped |
| `ObjectStore.Store.OwnerOfIff` | common/object.cpp:798-809 | an owner is reported exactly then |
| `ObjectStore.Store.OwnerIsFoundIff` | common/object.cpp:798-869 | after any run of creations and frees, an owner that was set is reported exactly if it was not freed on the way and is not removed now |
| `ObjectStore.Store.RootStep` | common/object.cpp:846-860 | the climb goes from an object to the owner that is reported for it, and ends where none is |
| `ObjectStore.Store.ClearOwner` | common/object.cpp:817-823 | no owner any more, and no cycles among the others |
| `ObjectStore.Store.Root` | common/object.cpp:846-860 | the climb over owners of owners ends, at an object without one |
| `ObjectStore.Store.SetOwner` | common/object.cpp:834-869 | the object is given to the end of the owner's own chain, unless that is the object itself, and the owner relation stays without cycles, links to removed objects included |
| `ObjectStore.TagsAreNotReused` | common/object.cpp:1293-1310 | over every run of creations and frees, a tag that was withdrawn never comes back, and a current one stays with its cell |
| `ObjectStore.TagStaysIff` | common/object.cpp:1293-1310 | a current tag stays current exactly until it is withdrawn |
| `ObjectStore.OwnerIsSameIncarnation` | common/object.cpp:798-809 | if a stored tag is still current after any run, the owner was at no time freed in between, so a recycled cell is never taken for it |
| `FaceLayers.SortIsStable` | common/map.cpp:2030-2057 | sorting by visibility keeps every class of equally visible things in stack order |
| `FaceLayers.StableSortIsUnique` | common/map.cpp:2030-2057 | and it is the only sorted arrangement that does |
| `FaceLayers.FeedIsTopOfSort` | common/map.cpp:2088-2112 | feeding a stack to k empty slots leaves the last k of its stable sort by visibility, in order |
| `FaceLayers.FeedIsTopOfStack` | common/map.cpp:2088-2095 | without regard to visibility it leaves the last k of the stack, in order |
| `FaceLayers.AddToPacked` | common/map.cpp:2058-2113 | one more thing keeps a group's slots filled from below and touches no other group |
| `FaceLayers.PushDown` | common/map.cpp:2098-2112 | in a full group the thing takes the highest place it may and the lowest is lost |
| `FaceLayers.BubbleDown` | common/map.cpp:2071-2083 | one pass of exchanges below the first free slot |
| `FaceLayers.AddFaceLayer` | common/map.cpp:2058-2113 | the array version does what the one on values does, on any contents of the slots |
| `SpaceSums.TotalOfInsert` | common/map.cpp:2142-2205 | the masks, flags and light of a stack do not depend on where in it a thing is |
| `SpaceSums.FacesAreVisible` | common/map.cpp:2162-2184 | group by group, a space shows above its highest floor the most visible things with ties to the higher ones, or for ground objects the top of the stack; for a group in the middle of which no layer is set, whatever the others hold |
| `SpaceSums.FloorIsTopFloor` | common/map.cpp:2162-2184 | the lowest face is always the highest floor |
| `SpaceSums.FacesAreOfTheirGroup` | common/map.cpp:2030-2113 | whatever layers things are set to, every face above it is of a thing of that group from above the highest floor, and of nothing hidden |
| `SpaceLaws.MasksIff` | common/map.cpp:2142-2220 | at all times, a way of moving is blocked exactly if something on the space blocks it and nothing allows it, and has effects on entering or leaving or is slowed exactly if of something |
| `SpaceLaws.FlagsIff` | common/map.cpp:2142-2225 | and the view is blocked, magic forbidden, the space alive or a player's exactly if of something on it that is no hidden dungeon master; the player is the highest |
| `SpaceLaws.PrayerAndLightIff` | common/map.cpp:2142-2215 | unless an update is called for, prayer is blocked exactly if something is damned or blocks it, and the light is that of the brightest thing |
| `SpaceLaws.NeedsUpdateIff` | common/object.cpp:1461-1487 | while all is right, a new object has the space recomputed exactly if it is a player, the first to block the view, forbid magic, be damned or be alive, or changes something for a way of moving |
| `SpaceLaws.FaceBelongs` | common/map.cpp:2162-2184 | for every stack, a slot above the floor shows only what can be seen, lies above every floor, and has its layer set to that group or, without a layer, flies (8-9), else is alive or moves (6-7), else is no floor and fixed (1-2) or not (3-5) |
| `SpaceLaws.FloorIsShownIff` | common/map.cpp:2173-2176 | slot 0 shows the highest thing that can be seen and, without a layer, is a floor and neither flies nor lives; nothing exactly if there is none |
| `SpaceLaws.FirstChoiceIsShown` | common/map.cpp:2030-2113 | of the things of a group above every floor, the most visible and among equals the highest is shown, or on the ground the highest; for groups without a layer set to their middle |
| `SpaceLaws.SlotsAreFilled` | common/map.cpp:2030-2113 | such a group fills its slots from below, one per thing, up to two, or three for items |
| `SpaceLaws.SetLayerIsTaken` | common/map.cpp:2163-2165 | a thing set to a layer takes that very slot while it and those above it in the group are free |
| `MapSpaces.BlockingSkips` | common/object.cpp:1481-1482 | blocking is not a sum, as objects may allow what others block; still, where the test finds no change there is none |
| `MapSpaces.SkipIsSound` | common/object.cpp:1461-1487 | when the test of object_update says that nothing need be recomputed, the cached blocking, move and slow masks and the alive, no-magic, blocks-view and player flags are right for the stack with the new object, wherever it was put |
| `MapSpaces.SkipIsExactIff` | common/object.cpp:1461-1487 | after such a skip the no-cleric flag is right exactly when the object blocks no prayer or the flag was set, and the light exactly when the object glows no brighter |
| `MapSpaces.PrayerAndLightAreSkipped` | common/object.cpp:1461-1487 | something that glows and blocks prayer, put on an empty space: neither is noticed |
| `MapSpaces.InsertAtKeepsSpellsOnTopIff` | common/object.cpp:2293-2327 | at any place, spells stay above all else exactly when a spell goes in no lower than they begin and anything else no higher |
| `MapSpaces.InsertKeepsSpellsOnTopIff` | common/object.cpp:2293-2327 | plain insertion always keeps them there; on top it does exactly for a spell or without spells; above the floor exactly if the lowest spell is no floor overlay or, for a spell, if there is nothing below, or that or the lowest spell is the floor |
| `MapSpaces.PutAboveFloor` | common/object.cpp:2293-2327 | above the floor only means directly on the highest floor or overlay up to the lowest spell, or at the bottom |
| `MapSpaces.PutBelow` | common/object.cpp:2490-2502 | a new object lies directly below the one it is to go below; all others stay in order |
| `MapSpaces.WhatIsPut` | common/object.cpp:2446-2477 | it is the object itself, with the number it has grown to; only a lamp is still applied |
| `MapSpaces.AbsorbKeepsCount` | common/object.cpp:2446-2456 | merging on insertion conserves the counts; no lone object is gained |
| `MapSpaces.AbsorbLoses` | common/object.cpp:2446-2456 | counting a lone object as one, what is lost is exactly the number of lone objects on the space that the new one can be merged with |
| `MapSpaces.AbsorbKeepsAllIff` | common/object.cpp:2446-2456 | so nothing is lost exactly when there is none |
| `MapSpaces.LoneOneDisappears` | common/object.cpp:2446-2456 | five put where a lone one lies: five are left of six |
| `MapSpaces.AbsorbIsComplete` | common/object.cpp:2446-2456 | afterwards nothing is left on the space that the object could still merge with |
| `MapSpaces.CanMergeIff` | common/object.cpp:439-541 | things are merged that agree in kind, flags, ways of moving and layer, are not applied, and stay within the limit on counts |
| `MapSpaces.MapSpace.UpdatePosition` | common/map.cpp:2127-2234 | everything cached becomes what a walk over the stack finds, unless no update was called for |
| `MapSpaces.MapSpace.ReadyIsExact` | common/map.cpp:2127-2234 | whatever has been done to a space, when it asks for no update all that is cached is right, faces included |
| `MapSpaces.MapSpace.Update` | common/object.cpp:1429-1538 | recomputes after removals, changes and insertions that the test asks for; otherwise only marks the space |
| `MapSpaces.MapSpace.RemoveAt` | common/object.cpp:1926-2032 | takes one object off the stack; afterwards everything cached is right, except on a map that is being saved |
| `MapSpaces.MapSpace.Change` | common/object.cpp:1493-1520 | a changed object: everything cached is right; a changed face: the masks and flags stay right and the space is marked |
| `MapSpaces.MapSpace.MergeSpots` | common/object.cpp:2446-2456 | takes up everything on the space that the object can merge with, from the bottom |
| `MapSpaces.MapSpace.FindInsertPos` | common/object.cpp:2293-2327 | how many objects stay below a new one: all, those below the lowest spell, or those up to the last floor |
| `MapSpaces.MapSpace.Insert` | common/object.cpp:2433-2557 | the stack with the merged object in its place, and the cache sound for it on every map that is not being saved |
| `TileWorld.NormalPathsLeadHome` | common/map.cpp:2268-2288 | a full path in normal form leads to itself from every map, exactly when it fits the buffer |
| `TileWorld.TilePathLeads` | common/map.cpp:2268-2288 | a tile path that begins with neither slash nor tilde leads where it leads from the map's directory, if the whole fits the buffer |
| `TileWorld.NormalNamesAreWellIff` | common/map.cpp:2268-2288 | so maps stored under full, normal paths can all be found through tile paths exactly when every path fits the buffer |
| `TileWorld.LocateKeepsPosition` | common/map.cpp:2331-2410 | on a consistently laid out world, the coordinates found are in range and at the same absolute position |
| `TileWorld.LocateFindsTheMap` | common/map.cpp:2331-2410 | where maps do not overlap, the map found is the only one at that place |
| `TileWorld.LocateIff` | common/map.cpp:2331-2410 | on any tile graph, a place is found exactly if crossing edge after edge, sideways before up and down, leads onto a map, and nothing is exactly if it leads to an edge without a map beyond |
| `TileWorld.FoundIff` | common/map.cpp:2331-2410 | in a consistent layout where something beyond an edge means a map to cross to, a place is found exactly if some map covers it |
| `TileWorld.LocateIsTheMap` | common/map.cpp:2331-2410 | and without overlaps it is that map, at the coordinates on it |
| `TileWorld.GridHasNoGaps` | common/map.cpp:2331-2410 | a full grid of maps of one size is such a layout |
| `TileWorld.LoadAndLink` | common/map.cpp:2268-2288 | joins the map that the tile path leads to, and that one back at the opposite edge if it names this map there; forgets a path that leads nowhere |
| `TileWorld.GetMapFromCoord` | common/map.cpp:2331-2410 | ends on every tile graph with positive sizes, and gives the same answer whatever has been loaded, joined or forgotten before |
| `TileWorld.AdjacentIsDistance` | common/map.cpp:2425-2473 | in a consistent layout every distance given is exactly the difference of the two maps' corners |
| `TileWorld.AdjacentIff` | common/map.cpp:2425-2473 | maps count as adjacent exactly when they are the same, joined at an edge, or joined around a corner in either order |
| `TileWorld.GetRangeVector` | common/map.cpp:2502-2548 | the vector from the first of the parts that seem nearest when all are taken to be on the first part's map, or from the object itself if asked so; fixed values when the maps are not adjacent |
| `TileWorld.RangeIsDisplacementIff` | common/map.cpp:2530-2541 | the vector from a part is its displacement in the world exactly when that part's map has the same corner as the first part's; so it always is for the object itself |
| `TileWorld.AlwaysRightIff` | common/map.cpp:2502-2548 | for every target there can be, the part picked is nearest in the world and the vector the way from it, exactly when each part is stood for by one whose map has the first part's corner: one on the same spot, and the first with the same coordinates |
| `TileWorld.SpreadOutIsRightIff` | common/map.cpp:2502-2548 | so, for an object whose parts are on different spots, exactly when all its parts' maps have the first part's corner |
| `TileWorld.RightOnSpacesIff` | common/map.cpp:2502-2548 | the same with targets on spaces of maps only, while the parts are on spaces of maps adjacent to the first part's: a target on the spot of a part on another map goes wrong |
| `TileWorld.PartsOnTwoMaps` | common/map.cpp:2502-2548 | a call that goes wrong, for an object lying across the edge of two maps: it gives the second part and no distance, where that part is 20 away and the first 19 |
| `KeyValues.PatchReads` | common/object.cpp:4412-4473 | a value that is set reads back, every other key reads as before, and a null is kept only over a key of the archetype |
| `KeyValues.PatchKeepsPatched` | common/object.cpp:4412-4473 | keys stay unique, the archetype's keys present, and nulls only over those |
| `KeyValues.RunKeepsPatched` | common/object.cpp:4412-4473 | over every run, starting from a copy of the archetype's list |
| `KeyValues.LineRoundTripIff` | common/loader.l:264-323 | a field survives being written and read exactly when its value is null or has neither length zero nor spaces at its ends |
| `KeyValues.DiffIff` | common/object.cpp:4998-5015 | each field that differs from the archetype's has its line, the key, a space and the value, and no other has |
| `KeyValues.DiffLength` | common/object.cpp:4998-5015 | one line each |
| `KeyValues.NothingSavedIff` | common/object.cpp:4998-5015 | nothing is saved exactly if all fields are the archetype's |
| `KeyValues.LoadOfDiffIff` | common/object.cpp:4998-5015 | saving the differences from the archetype and loading them over a copy of it gives all values back exactly when the values saved are null or clean in that sense |
| `KeyValues.RunIsSavedWholeIff` | common/object.cpp:4998-5015 | and so after every run of settings |
| `KeyValues.EmptyValueIsLost` | common/loader.l:264-298 | an empty value set over one of the archetype comes back as no value |
| `KeyValues.SpacesAreLost` | common/loader.l:264-323 | spaces around a value do not come back |
| `KeyValues.Bearer.constructor` | common/object.cpp:1138-1164 | the copied list has the archetype's fields in order |
| `KeyValues.Bearer.SetValue` | common/object.cpp:4412-4473 | the linked list becomes what the setting of the value makes of it; the result says whether the key was there or may be added |
| `KeyValues.Bearer.GetValue` | common/object.cpp:4342-4366 | the value of a key, none for a null |
| `KeyValues.Bearer.GetDiff` | common/object.cpp:4998-5015 | a line for every field that differs from the archetype's, in list order |
| `Artifacts.LegalArtifactCombination` | common/artifact.cpp:252-281 | the first rule that matches decides; with no match it is enough that some rule excludes others; no rules allow all |
| `Artifacts.OneRuleIff` | common/artifact.cpp:252-281 | an artifact made for one name is legal for just the items called so, themselves or their archetype, and one made for all but one name for just the others |
| `Artifacts.MoreRulesIff` | common/artifact.cpp:252-281 | one more rule in front lets in or keeps out just those items |
| `Artifacts.HitsAreChances` | common/artifact.cpp:188-197 | of the rolls below the sum, exactly as many land on a set of entries as their chances add up to |
| `Artifacts.EntryIsHitByItsChance` | common/artifact.cpp:188-197 | each entry is hit by exactly its chance of rolls |
| `Artifacts.EntriesGetTheirChancesIff` | common/artifact.cpp:680-688 | with the total kept in 16 bits, all entries get their chances exactly when the sum fits |
| `Artifacts.SumPastSixteenBits` | common/artifact.cpp:680-688 | two entries of 40000: the total is 14464 and no roll gets to the second |
| `Artifacts.RollEntry` | common/artifact.cpp:189-197 | taking chances off the roll stops at the entry the roll lands on |
| `Artifacts.PickIff` | common/artifact.cpp:188-197 | entries take up the numbers from zero in order, each as many as its chance |
| `Artifacts.TwoRollsIff` | common/artifact.cpp:177-221 | two rolls give an entry exactly if it asks for no more magic in either direction and difficulty than there is and is legal, and the first lands on it, or the second does after the first was wasted on one that is not so; the entry for no artifact ends the rolling |
| `Artifacts.TitleIs` | common/artifact.cpp:230-235 | the title is the name after "of", cut at 255 characters |
| `Artifacts.Item.GenerateArtifact` | common/artifact.cpp:177-221 | the item gets the name and title of the entry that its two rolls end with, if any, and is otherwise unchanged |
| `Artifacts.ComputeChance` | common/artifact.cpp:133-164 | the closed form, with the chances of illegal entries summed; the denominator is never zero |
| `Artifacts.PairsAre` | common/artifact.cpp:177-221 | how many pairs of rolls end with an entry: those that hit it at once, and those that hit it after a wasted roll |
| `Artifacts.NumeratorCountsPairsIff` | common/artifact.cpp:148-163 | while the sum fits, the numerator counts those pairs exactly when the entry has no chance, or can win and the entries rolled for again weigh as much as the illegal ones |
| `Artifacts.NumeratorIsRightWhen` | common/artifact.cpp:148-163 | so it does where magic and difficulty suffice for all entries and the one for no artifact is legal |
| `Artifacts.MagicIsNotCounted` | common/artifact.cpp:133-164 | where one of two entries wants more magic than the item has, or is too difficult, the other gets three pairs, where the numerator is two |
| `Artifacts.IllegalNoneIsCounted` | common/artifact.cpp:133-164 | an illegal entry for no artifact: two pairs, where the numerator is three |
| `Artifacts.DenominatorFitsIff` | common/artifact.cpp:162-163 | the denominator stays within 32 bits exactly up to a total of 46340 |
| `Artifacts.NumeratorsFitIff` | common/artifact.cpp:162-163 | the numerators do, over all items and lists of a total, exactly up to a total of 32767 |
| `Paths.NormalizeIsIdempotent` | common/path.cpp:85-156 | normalising twice is normalising once, for every path |
| `Paths.NormalizeIsNotLonger` | common/path.cpp:82-83 | normalising never makes a path longer |
| `Paths.NormalizeKeepsAbsolute` | common/path.cpp:85-156 | a normalised absolute path leads to the same directory, has no ".", ".." or empty component, and names each directory once |
| `Paths.SlashVanishes` | common/path.cpp:85-156 | in characters: a slash at the end makes no difference to the normal form |
| `Paths.DotVanishes` | common/path.cpp:85-156 | nor does a single dot |
| `Paths.UpCancels` | common/path.cpp:119-132 | two dots take back the name before them, in full and in relative paths |
| `Paths.UpAtRoot` | common/path.cpp:119-132 | at the root they do nothing |
| `Paths.NameIsAdded` | common/path.cpp:133-150 | any other name is added to a full path |
| `Paths.NormalizeKeepsRelativeIff` | common/path.cpp:119-132 | a relative path keeps its meaning from every directory deep enough exactly when it climbs at most two levels |
| `Paths.ThreeUpsAreMiscounted` | common/path.cpp:119-132 | "../../.." comes out as ".." |
| `Paths.CombineIsWalk` | common/path.cpp:34-75 | from an absolute source, the normalised combined path leads where the destination leads from the source's directory |
| `Paths.WhereItLeads` | common/path.cpp:34-75 | in characters: a destination that begins with a slash or a tilde stands alone; any other is put after the source's last slash and walked from there |
| `Paths.CombineFitsIff` | common/path.cpp:51-75 | cutting to the buffer does no harm exactly when the whole combined path fits |
| `PathBuffer.SlashStep` | common/path.cpp:100-105 | a slash that is written completes the last component; one that is left out was there |
| `PathBuffer.WhatIsWritten` | common/path.cpp:119-126 | the three tests on the written part recognise exactly the states they are meant for |
| `PathBuffer.StepBack` | common/path.cpp:127-132 | goes back over exactly one component |
| `PathBuffer.UpComponent` | common/path.cpp:119-132 | ".." is kept, ignored or takes a component away, with the write position at or behind the read position |
| `PathBuffer.NormalizeInPlace` | common/path.cpp:85-156 | the buffer ends up holding the normal form of what it held, and nothing beyond the old end is touched |
| `PathBuffer.CombineInto` | common/path.cpp:51-75 | the combined path cut to the buffer, terminated; only a buffer of one character, for a path from the root, is left without terminator |
| `PathBuffer.CombineAndNormalize` | common/path.cpp:172-176 | in a buffer with room, the normal form of the combined path |
| `Experience.LevelIsUnique` | common/living.cpp:1830-1891 | there is only one level for an amount of experience and a factor, so that player_lvl_adj and exp_level agree for a factor of one |
| `Experience.MatchesIff` | common/living.cpp:1830-1891 | the level is the last whose entry, times the factor, the experience reaches, all rounded down |
| `Experience.ExpLevel` | common/living.cpp:1897-1902 | the level that belongs to an amount of experience for a factor of one |
| `Experience.Learner.AdjustLevel` | common/living.cpp:1830-1874 | up or down to the one level that belongs to the experience |
| `Experience.Learner.CalcPermExp` | common/living.cpp:1914-1923 | the total ends within its cap and at least at any experience there can be, and stays as it is if it was |
| `Experience.LimitsAre` | include/global.h:236-237 | the most experience is the table's last entry, which gives the last level, and totals may grow as long as their permanent part is no more |
| `Experience.GainKeepsBound` | common/living.cpp:2036-2046 | gains keep the permanent part of a skill's total at most its experience, and that at most the table's last entry, also at the caps |
| `Experience.LossKeepsBound` | common/living.cpp:2077-2090 | losses keep the permanent part as well |
| `Experience.CheckExpLoss` | common/living.cpp:2077-2090 | never more than wanted, than there is, or than half of what is not permanent |
| `Experience.LossIsLargest` | common/living.cpp:2077-2090 | what is lost is the largest amount that is wanted, that there is, and that is half of what is not permanent |
| `Experience.DeathLossIsLargest` | common/living.cpp:2250-2262 | a death takes the largest amount within the given part that leaves what the given number of levels lower needs |
| `Experience.GainLimitIsHalf` | common/living.cpp:2009-2034 | a gain is limited to half the step to the next level, or half of all at the last |
| `Experience.ScaledIsProportional` | common/living.cpp:2052-2056 | a skill's gain counts for the player in proportion, rounded down |
| `Experience.ShareIsProportional` | common/living.cpp:2131-2150 | a skill's share of a loss is to the loss as the skill is to the player, rounded down |
| `Experience.DeathLossIsNotNegative` | common/living.cpp:2250-2262 | a death takes between nothing and all of the experience before the permanent part is looked at |
| `Experience.Player.AddExp` | common/living.cpp:1971-2060 | one skill, which may be given just then, gains within the limits and the player what came of it, or the player alone; every skill keeps its bounds and its level |
| `Experience.Player.SubtractExp` | common/living.cpp:2131-2156 | one skill loses, or each its share and the player all; every skill keeps its bounds and its level |
| `Experience.Player.ApplyDeathPenalty` | common/living.cpp:2244-2277 | every skill and the player lose the smaller penalty as far as allowed; every skill keeps its bounds and its level |
| `ShopStrings.EntryRoundTrip` | common/map.cpp:885-913 | an entry for a known type, or for everything else, reads back with its type and strength |
| `ShopStrings.NumberReads` | common/map.cpp:885-896 | an entry given as a number reads as the type of that number, if there is one, with its strength |
| `ShopStrings.PluralReads` | common/item.cpp:344-360 | a plural reads as its type unless some type is called so; an unknown name reads as none |
| `ShopStrings.StrengthWraps` | common/map.cpp:881-883 | a strength keeps the last eight bits of its number |
| `ShopStrings.StrippedIs` | common/utils.cpp:320-326 | one newline at the end goes, unless it is all there is |
| `ShopStrings.ShopRoundTrip` | common/map.cpp:854-959 | a list of known entries reads back with the same types, strengths and number of entries, with or without the newline of a file |
| `ShopStrings.PrintFitsIff` | common/map.cpp:935-959 | the whole list is printed exactly when the buffer holds it with its last semicolon |
| `ShopStrings.AtoiOfSigned` | common/map.cpp:942-949 | a printed number reads back |
| `ShopStrings.ParseShopString` | common/map.cpp:854-922 | the entries between semicolons, and their number |
| `ShopStrings.PrintShopString` | common/map.cpp:935-959 | what is left in a buffer of the given size |

## Left out

- Weight times count, tags and object counts are unbounded here; the source keeps them in 32 bits.
- Coordinates are unbounded; the source keeps them in 16 bits.
- InventoryHeap.World.CanBeMerged: does not merge objects that hold something, for which the code compares the first objects inside in turn; using up and splitting objects that hold something, which drops or copies their inventories, is left out too.
- InventoryHeap.World.ObjectRemove: asks that the load of the object is not negative, which can happen only where carrying has gone wrong before; the same holds for the other calls that move an object without a count.
- Weight reduction of more than all or less than none, and an archetype that carries something by itself.
- What else two objects must have in common to merge is one number, their kind; an object too fast to merge is taken to have a kind that no other has.
- Insertion of SKILL objects, which adds a different weight than removal takes off.
- ObjectStore.Store.ObjectFree: does not cover objects with an inventory or further parts, which are freed or dropped one by one by the same steps.
- ObjectStore.Store.SetOwner: does not store the owner's current skill and weapon, which nothing here reads.
- Copying into an object that is in use (object_copy), which can break the owner relation, and object_merge_spell.
- Objects of several parts: inserting and removing treat one part; the others follow by the same calls.
- MapSpaces.MapSpace.Insert: models the `above` and `below` pointers of a map's stack as a sequence; the same kind of list is modelled with its pointers for inventories.
- The callbacks when something moves onto or off an object, event hooks, and the messages to clients.
- MapSpaces.MapSpace.RemoveAt: promises nothing about what is cached while a map is being saved, as the code then leaves it alone.
- SightMarking.Sight.UpdateLos: ends with the wall scan; the widening of sight by light, blindness and X-ray vision that may follow are not modelled.
- TileWorld.GetRangeVector: gives no rounded distance and no compass direction, which are computed from the vector by functions that are not part of this model.
- TileWorld.LoadAndLink: takes loading a file as finding a map by its path; what the loader reads is not modelled, and joining is the only trace a map's own loading leaves.
- TileWorld.Locate: requires that every map there is has been given a full, normal path, as maps are stored under it.
- KeyValues.LoadOfDiffIff: takes keys to be plain words that the loader does not read as a field of its own or as a comment, and values to hold no newline.
- Artifacts.Item.GenerateArtifact: gives the item its title and artifact name only; the abilities that come with it are not modelled, and the list's total must not be zero, as the code divides by it.
- Experience.Player.AddExp: computes the player's share of a gain, and what half of the lost experience is, without the rounding of floating point numbers; the same holds for the shares of Experience.Player.SubtractExp, which also asks for a player with some experience where all skills lose and any has some, as the code divides by it.
- The permanent part of the player's own total, which may exceed the player's experience once a skill is at its cap.
- Experience.Learner.AdjustLevel: does not roll hit points or recompute abilities at a new level; experience of monsters and weapons is left out.
- ShopStrings.PrintShopString: takes entries to be shorter than the 256 characters that the code formats one in.
- ShopStrings.ParseShopString: keeps the number of entries once, where the source stores it with every item.
- PathBuffer.CombineAndNormalize: takes a buffer of at least two characters when the path starts from the root, as one of a single character is left without a terminator.
- SpaceSums.FacesAreVisible: says which things a group shows only if no layer is set to the middle of that group.
- PathBuffer.CombineInto: takes the buffer to be distinct from the two paths, and its size not to be zero.
- Everything else in the server: text, images, regions, the network, and setup from files.
