# Geometric search, enumeration and field files of Allpix Squared

A model of the algorithms behind the mesh converter of Allpix Squared and of a few
self-contained algorithms beside it, with proofs of what they promise:

- the in-place enumeration of combinations and permutations over discontinuous
  ranges, and the functions that count them on bounded integers
  (`Slots`, `Rotations`, `Arrangements`, `Functors`, `Enumeration`, `Choices`,
  `Coverage`, `ReversibleCoverage`, `ForEach`, `Positions`, `Counting`, `CallCounts`);
- the octree that relinks one successor array so that every octant is a stretch of
  a single linked list, and its radius and nearest-neighbour queries
  (`Geometry`, `Octants`, `Relinking`, `Bounds`, `Queries`, `Octree`);
- the interpolation of a mesh on a regular grid on top of both
  (`Simplex`, `Barycentric`, `MeshElement`, `Tuples`, `MeshSearch`, `MeshConverter`);
- the INIT field file (`FieldSlots`, `FieldParser`, `FieldFaults`, `FieldLayout`, `FieldReader`,
  `FieldWriter`), shared pointers and versions in archives (`Archives`), the clustering
  of pixel hits (`Clustering`), and the clipping of a line against a box (`LiangBarsky`).

`dafny verify dfyconfig.toml` checks everything.

Numbers are exact: reals for floating point, unbounded integers for indices. Integer
types matter where overflow is part of the promise: the counting functions take the
maximum of their type, pointer ids and pixel distances are 32-bit.

How the pieces fit. `Enumeration` is the state of one run: the array, the user's
callback, which answers from the history of what it has seen, and that history. Its
methods are the algorithms; each is specified by the list of array contents at which
the functor is called (`Visits` for a functor object, `Combos` and `Perms` for the
order), and by what the array holds afterwards. The theorems about these lists say
that nothing is missed or repeated and in which order it comes.

`Octree` has the successor array as its only mutable structure. `Built` says what an
octant holds: a stretch of the ghost list `order`, all of it in its cube, its children
consecutive stretches of it. Termination of the construction is not assumed: the
precondition `Divisible` is the condition under which it terminates, and
`SubdivisionEnds` proves that it is exact.

`MeshSearch.Search` calls both. A tuple of points is `Good` when the functor accepts
it; `FlatPass` says that it is rejected for its result only, which leaves the functor
valid. `Ended` describes a whole search by the lists of neighbours, one for each radius
tried; `Holds` says that a ball holds a good tuple, and `FoundHolds` and `FailsIff` say
what a search tells about balls.

Where a method and its specification share a definition, lemmas say what that definition
means without naming it: the distances along the axes (`AlongAxis`, `PartsAddUp`,
`GreatestPart`), the size of a volume (`CornerVolume`, `VolumeMoved`, `VolumeStretched`,
`CutDecides`), the cells of the grid (`FitGrid`, `CentresTile`), the data of the field
(`Flatten`), and the files and streams token by token (`FieldLayout`, `StreamWritten`,
`StreamRead`).

Where the code and its documentation differ, the model follows the code:

- The documentation of findNeighbor promises a distance greater than minDistance; the
  code compares with the squared minDistance under the Euclidean distance.
  `Queries.LeastExact` says when the two agree, `Queries.Disagreed` gives a point
  where they do not.
- The search loop remembers the number of neighbours of the last radius, but only ever
  updates it while it is zero; an invariant of `Search` is that it stays zero, so no
  radius with new neighbours is skipped.

Where the code does less than one may expect, there is a lemma with an input that shows
it, and one that says exactly when it happens:

| what goes wrong | exactly when | an input |
|---|---|---|
| the radius query misses points | `Queries.QueryExact`, `Geometry.OverlapsExact` | `Queries.MissingTree` |
| the links of a list with repeated indices do not lead along it | `Octants.LinksExact` | `Octants.RepeatedIndex` |
| the construction of the tree does not end (if minExtent is 0, in exact arithmetic only: the extent of the source underflows to 0, which ends the recursion) | `Octants.SubdivisionEnds` | `Octants.CrowdNeverFinishes` |
| a file with a fault is not rejected | `FieldFaults.ParsedIff`, `FieldFaults.CutFile` | `FieldFaults.CutOffUnnoticed`, `FieldFaults.ZeroFiles` |
| clusters are not those of the 8-neighbourhood | `Clustering.ClustersExact`, `Clustering.NearExact` | `Clustering.SplitAtZero` |
| shared pointers lose their identity | `Archives.IdsExact`, `Archives.RecognisedAgain` | `Archives.IdsRunOut`, `Archives.AliasLost` |
| a functor is valid without having accepted | `Tuples.FlatPassIff`, with `MeshSearch.Combination.Call` | `Tuples.FlatInput` |
| the search ends without a finite value | `MeshSearch.TryCombinations`, with `Tuples.FlatPassIff` | `MeshSearch.FlatRun` |

## Model

| member | source | states |
|---|---|---|
| Enumerations.Enumeration.RotateDiscontinuous | 3rdparty/combinations/combinations.h:39-55 | both branches exchange two ranges across a gap: the joined content is rotated, nothing else changes |
| Enumerations.Enumeration.RotateDiscontinuous3 | 3rdparty/combinations/combinations.h:59-77 | the same for a range against two discontinuous ranges |
| Rotations.RotateShort | 3rdparty/combinations/combinations.h:47-48 | swapping the short range in and rotating the tail is the rotation of the joined ranges |
| Rotations.RotateLong | 3rdparty/combinations/combinations.h:49-54 | so is swapping from the back and rotating the first range |
| Enumerations.Enumeration.CombineDiscontinuous | 3rdparty/combinations/combinations.h:86-121 | calls the functor for the content of every combination, in the order of Combos, stops at the first acceptance, and otherwise restores the ranges at depth 0 and leaves them as e1..ek, e0, rest at a greater depth |
| Arrangements.CombosStep | 3rdparty/combinations/combinations.h:105-113 | the loop over the second range passes from one leading element to the next |
| Arrangements.PassedTail | 3rdparty/combinations/combinations.h:114-119 | the rotation by one less at depth > 0 leaves what the caller at depth - 1 continues with |
| Enumerations.Enumeration.CombineDiscontinuous3 | 3rdparty/combinations/combinations.h:143-218 | the same over three ranges, including the different order in which the case of one element visits the third range |
| Enumerations.Enumeration.PermuteReversing | 3rdparty/combinations/combinations.h:221-265 | permute_ shows every permutation in the order of Perms and leaves the range reversed |
| Enumerations.Enumeration.PermuteAll | 3rdparty/combinations/combinations.h:270-325 | permute shows the same and restores the range |
| Enumerations.Enumeration.PermuteBoth | 3rdparty/combinations/combinations.h:622-631 | combine_discontinuous over two ranges with a rev2: shows what Pair visits, and restores the ranges when it is not stopped |
| Coverage.In2 | 3rdparty/combinations/combinations.h:542-563 | a rev2 visits exactly the contents with each of its two ranges permuted in itself |
| Coverage.Once2 | 3rdparty/combinations/combinations.h:542-563 | and each once |
| Enumerations.Enumeration.PermuteThrice | 3rdparty/combinations/combinations.h:659-672 | combine_discontinuous3 over three ranges with a rev3: the same |
| Coverage.In3 | 3rdparty/combinations/combinations.h:565-600 | a rev3 visits exactly the contents with each of its three ranges permuted in itself |
| Coverage.Once3 | 3rdparty/combinations/combinations.h:565-600 | and each once |
| Enumerations.Enumeration.HoldEach | 3rdparty/combinations/combinations.h:627-632 | the loop that holds the first element at each place of the first half |
| Enumerations.Enumeration.HoldMiddle | 3rdparty/combinations/combinations.h:633-683 | the even, length-three and odd endings, each restoring the range |
| Enumerations.Enumeration.HoldBothEach | 3rdparty/combinations/combinations.h:661-682 | the loop that holds a second element before the middle one |
| Enumerations.Enumeration.ReversiblePermutation | 3rdparty/combinations/combinations.h:604-685 | reversible_permutation as a whole: what it shows and that it restores the range |
| Enumerations.Enumeration.Call | 3rdparty/combinations/combinations.h:123-140 | a functor object, bound to its ranges, does what its algorithm does; dispatches to permute, combine, circular and reversible functors |
| Enumerations.Enumeration.ForEachCombination | 3rdparty/combinations/combinations.h:358-363 | offers the combinations one after the other until one is accepted; the first range then holds the accepted one, otherwise everything is restored |
| Enumerations.Enumeration.ForEachPermutation | 3rdparty/combinations/combinations.h:413-423 | the same for permutations of combinations |
| Enumerations.Enumeration.ForEachCircularPermutation | 3rdparty/combinations/combinations.h:449-472 | the same for circular permutations |
| Enumerations.Enumeration.ForEachReversiblePermutation | 3rdparty/combinations/combinations.h:689-694 | the same for reversible permutations |
| Enumerations.Enumeration.ForEachReversibleCircularPermutation | 3rdparty/combinations/combinations.h:733-760 | the same for reversible circular permutations |
| Choices.CombosCover | 3rdparty/combinations/combinations.h:79-121 | every choice of k elements appears |
| Choices.CombosDistinct | 3rdparty/combinations/combinations.h:79-121 | no choice of k distinct elements appears twice |
| Choices.Combos3Cover | 3rdparty/combinations/combinations.h:201-204 | the three-range enumeration misses no choice |
| Choices.Combos3Distinct | 3rdparty/combinations/combinations.h:201-204 | and repeats none |
| Choices.PermsCover | 3rdparty/combinations/combinations.h:267-325 | every order appears |
| Choices.PermsDistinct | 3rdparty/combinations/combinations.h:267-325 | no order of distinct elements appears twice |
| Positions.CombinationOrder | 3rdparty/combinations/combinations.h:79-121 | combinations come in strictly increasing lexicographic order of original positions, both parts in their original order |
| Positions.CombinationShown | 3rdparty/combinations/combinations.h:79-121 | every increasing choice of positions is shown |
| Positions.PermutationOrder | 3rdparty/combinations/combinations.h:267-325 | permutations come in strictly increasing lexicographic order of original positions |
| Coverage.InPair | 3rdparty/combinations/combinations.h:622-631 | combine_discontinuous with a rev2 visits exactly the arrangements of two ranges |
| Coverage.OncePair | 3rdparty/combinations/combinations.h:622-631 | and each once |
| Coverage.InThree | 3rdparty/combinations/combinations.h:659-672 | combine_discontinuous3 with a rev3 visits exactly the arrangements of three ranges |
| Coverage.OnceThree | 3rdparty/combinations/combinations.h:659-672 | and each once |
| ReversibleCoverage.InReversible | 3rdparty/combinations/combinations.h:604-685 | an arrangement is visited if and only if it qualifies, in all three cases of the length |
| ReversibleCoverage.OneOfEach | 3rdparty/combinations/combinations.h:604-685 | of an arrangement and its reversal exactly one qualifies |
| ReversibleCoverage.OnceReversible | 3rdparty/combinations/combinations.h:604-685 | nothing is visited twice |
| ForEach.PermutationsSeen | 3rdparty/combinations/combinations.h:409-423 | for_each_permutation shows exactly the arrangements of k of the elements, each once |
| ForEach.CircularsSeen | 3rdparty/combinations/combinations.h:446-472 | of all rotations of an arrangement of any k >= 0 of the elements for_each_circular_permutation shows exactly one, once |
| ForEach.ReversiblesSeen | 3rdparty/combinations/combinations.h:602-694 | for_each_reversible_permutation shows exactly one of each arrangement and its reversal, once |
| ForEach.ReversibleCircularsSeen | 3rdparty/combinations/combinations.h:730-760 | of all rotations of an arrangement of any k >= 0 of the elements and of its reversal for_each_reversible_circular_permutation shows exactly one, once |
| Counting.Gcd | 3rdparty/combinations/combinations.h:365-372 | the loop computes the greatest common divisor |
| Counting.GcdIsGreatest | 3rdparty/combinations/combinations.h:365-372 | its result divides both arguments and is divided by every common divisor |
| Counting.QuotientExact | 3rdparty/combinations/combinations.h:394-400 | what is left of k after taking out the common factor divides n: no truncation |
| Counting.ReducedStep | 3rdparty/combinations/combinations.h:393-401 | one step of the loop goes from one binomial coefficient to the next |
| Counting.ChooseGrows | 3rdparty/combinations/combinations.h:384-401 | in the lower half binomials grow, so an intermediate overflow is a final one |
| Counting.CountEachCombination | 3rdparty/combinations/combinations.h:382-403 | exactly the binomial coefficient, overflow exactly if it does not fit the type, and the rejection of negative arguments |
| Counting.CountEachPermutation | 3rdparty/combinations/combinations.h:425-438 | exactly (d1+d2)!/d2!, overflow exactly if it does not fit |
| Counting.CountEachCircularPermutation | 3rdparty/combinations/combinations.h:474-508 | exactly the circular count on both branches, overflow exactly if it does not fit |
| Counting.SlowerBranch | 3rdparty/combinations/combinations.h:480-490 | the branch for d1 <= d2 multiplies up to the circular count |
| Counting.FasterBranch | 3rdparty/combinations/combinations.h:491-506 | the other branch computes the same number |
| Counting.CountEachReversiblePermutation | 3rdparty/combinations/combinations.h:696-722 | exactly the reversible count, overflow exactly if it does not fit |
| Counting.FirstFactors | 3rdparty/combinations/combinations.h:703-715 | halving the even one of two consecutive factors is exact |
| Counting.CountEachReversibleCircularPermutation | 3rdparty/combinations/combinations.h:762-779 | exactly the reversible circular count, overflow exactly if it does not fit |
| Counting.ClosedForms | 3rdparty/combinations/combinations.h:426-763 | the four counts satisfy the closed forms that the comments state |
| CallCounts.CallsOfCombination | 3rdparty/combinations/combinations.h:79-121 | for_each_combination makes as many calls as count_each_combination says |
| CallCounts.CallsOfPermutation | 3rdparty/combinations/combinations.h:413-438 | for_each_permutation makes as many as count_each_permutation |
| CallCounts.CallsOfCircular | 3rdparty/combinations/combinations.h:449-508 | the same for circular permutations |
| CallCounts.CallsOfReversible | 3rdparty/combinations/combinations.h:604-722 | the same for reversible permutations |
| CallCounts.CallsOfReversibleCircular | 3rdparty/combinations/combinations.h:733-779 | the same for reversible circular permutations |
| Geometry.SqrtInverse | 3rdparty/octree/Octree.hpp:61-136 | sqr and sqrt of each distance are inverse on non-negative numbers |
| Geometry.NormMonotone | 3rdparty/octree/Octree.hpp:70-136 | each norm grows with each coordinate |
| Geometry.NormBounds | 3rdparty/octree/Octree.hpp:70-136 | each norm is bounded below by sqr of each coordinate |
| Geometry.ComputeIsNorm | 3rdparty/octree/Octree.hpp:70-136 | compute is the norm of the coordinate differences |
| Geometry.AlongAxis | 3rdparty/octree/Octree.hpp:70-136 | along each of the axes compute is the difference of the coordinates, squared under the Euclidean distance, and so is sqr of it |
| Geometry.PartsAddUp | 3rdparty/octree/Octree.hpp:70-105 | the first and the second distance add up what a way along the axes contributes |
| Geometry.GreatestPart | 3rdparty/octree/Octree.hpp:104-136 | the third takes the greatest part of such a way |
| Geometry.SubHas | 3rdparty/octree/Octree.hpp:506-541 | a point lies in the sub-cube that its Morton code names |
| Geometry.SubApart | 3rdparty/octree/Octree.hpp:506-541 | and not in the interior of any other |
| Geometry.OctantOrder | 3rdparty/octree/Octree.hpp:507-516 | the Morton codes number the octants by z, then y, then x, the lower half first |
| Octants.DividedIff | 3rdparty/octree/Octree.hpp:492-544 | an octant is divided if and only if it holds more points than a bucket and its children, half as large, exceed the least extent |
| Geometry.ContainsSound | 3rdparty/octree/Octree.hpp:725-743 | where contains holds, every point of the cube is within the radius |
| Geometry.OverlapsSound | 3rdparty/octree/Octree.hpp:688-723 | where overlaps fails, none is closer than the radius, even for an outdated squared radius |
| Geometry.InsideSound | 3rdparty/octree/Octree.hpp:825-849 | where inside holds, no point outside the interior is closer than the radius |
| Geometry.OverlapsExact | 3rdparty/octree/Octree.hpp:688-723 | no rejected cube holds a point closer than the radius, for any query, if and only if the radius is not negative or the distance is not Euclidean |
| Octants.SubdivisionEnds | 3rdparty/octree/Octree.hpp:491-544 | the subdivision terminates if and only if minExtent is positive, no location holds more points than a bucket, or the root is not divided |
| Octants.CrowdNeverFinishes | 3rdparty/octree/Octree.hpp:491-544 | a location with more points than a bucket is divided for ever when minExtent is not positive |
| Octants.SeparationExists | 3rdparty/octree/Octree.hpp:491-544 | finitely many points are separated by a positive distance, which bounds the depth |
| Octants.PartsRearrange | 3rdparty/octree/Octree.hpp:500-528 | the eight parts of a list together hold each index once |
| Octrees.Octree.Relink | 3rdparty/octree/Octree.hpp:500-528 | the relinking loop leaves the eight parts linked and described, and touches only its own indices |
| Relinking.PartedStep | 3rdparty/octree/Octree.hpp:503-528 | one point is appended to its part |
| Relinking.Hooked | 3rdparty/octree/Octree.hpp:546-555 | linking the end of the last child to the start of the next joins their lists |
| Relinking.Complete | 3rdparty/octree/Octree.hpp:530-560 | after the eighth child the octant holds its points as consecutive stretches of one list |
| Octrees.Octree.AppendChild | 3rdparty/octree/Octree.hpp:539-556 | one child is created, linked on and entered |
| Octrees.Octree.CreateChildren | 3rdparty/octree/Octree.hpp:530-557 | all children are created; the parts still to come stay linked |
| Octrees.Octree.CreateOctant | 3rdparty/octree/Octree.hpp:472-561 | builds the octant and everything below it over exactly its points, changing successors only at its own indices |
| Queries.DescendantWalk | 3rdparty/octree/Octree.hpp:472-561 | from the start of any octant, size - 1 successors lead through exactly its points, each once, to its end |
| Bounds.RootCube | 3rdparty/octree/Octree.hpp:373-385 | the root cube holds all points, and is a single location exactly if they all coincide |
| Octrees.Octree.Initialize | 3rdparty/octree/Octree.hpp:324-386 | builds a valid tree over all points |
| Octrees.Octree.InitializeFrom | 3rdparty/octree/Octree.hpp:388-460 | builds a valid tree over the listed points, none for an empty list |
| Octants.LinksExact | 3rdparty/octree/Octree.hpp:411-450 | the links written for a list lead along it if and only if no index is followed by two different ones |
| Octants.RepeatedIndex | 3rdparty/octree/Octree.hpp:411-450 | of two lists that repeat an index, one is of that kind and one is not |
| Octrees.Octree.Clear | 3rdparty/octree/Octree.hpp:462-470 | empties the tree |
| Queries.NearHas | 3rdparty/octree/Octree.hpp:565-607 | the filtered list holds exactly the points closer than the squared radius |
| Queries.NearNoDup | 3rdparty/octree/Octree.hpp:565-607 | and none twice |
| Octrees.Octree.NeighborsBelow | 3rdparty/octree/Octree.hpp:563-607 | the recursive query appends Answer for its octant, for any radius |
| Queries.AnswerIsNear | 3rdparty/octree/Octree.hpp:563-607 | Answer holds nothing that is not close enough and nothing twice; it is the whole filtered list, in its order, unless the radius is negative under the Euclidean distance |
| Queries.QueryExact | 3rdparty/octree/Octree.hpp:563-607 | the query finds all points that are close enough, in every tree, if and only if the radius is not negative or the distance is not Euclidean |
| Queries.MissingTree | 3rdparty/octree/Octree.hpp:600-606 | a tree of two points that misses one at distance zero, for each negative radius |
| Octrees.Octree.RadiusNeighbors | 3rdparty/octree/Octree.hpp:658-670 | returns points closer than the radius only, none twice; all of them, in list order, unless the radius is negative under the Euclidean distance |
| Queries.ExclusiveChild | 3rdparty/octree/Octree.hpp:821-849 | points of the tree outside a child are not in the interior of its cube |
| Queries.PrunedUnbeaten | 3rdparty/octree/Octree.hpp:802-815 | skipping a child by the stale squared bound loses no closer point |
| Queries.InsideUnbeaten | 3rdparty/octree/Octree.hpp:779-781 | stopping early loses no closer point |
| Octrees.Octree.NearestInLeaf | 3rdparty/octree/Octree.hpp:764-782 | the leaf loop improves the bound by its points |
| Octrees.Octree.NearestInOthers | 3rdparty/octree/Octree.hpp:802-819 | the sibling loop with its stale bound |
| Octrees.Octree.NearestBelow | 3rdparty/octree/Octree.hpp:759-823 | the recursive search improves the bound by everything in its octant |
| Octrees.Octree.FindNeighbor | 3rdparty/octree/Octree.hpp:745-757 | -1 exactly if no point is farther than minDistance, otherwise a nearest one of those |
| Queries.LeastExact | 3rdparty/octree/Octree.hpp:203-206 | the documented comparison with minDistance is what the code does if and only if the distance is not Euclidean or minDistance is not positive or one |
| Queries.Disagreed | 3rdparty/octree/Octree.hpp:768 | otherwise, a point on which they disagree |
| Simplex.Cramer4 | tools/mesh_converter/MeshElement.cpp:44-90 | the sub-volumes reproduce the point, coordinate by coordinate (tetrahedron) |
| Simplex.Cramer3 | tools/mesh_converter/MeshElement.cpp:44-90 | the same for the triangle |
| Simplex.CornerVolume | tools/mesh_converter/MeshElement.cpp:29-42 | the volume is a sixth of the product of the legs along the axes, for triangles half of it |
| Simplex.VolumeMoved | tools/mesh_converter/MeshElement.cpp:29-42 | it does not change when the whole element is moved |
| Simplex.VolumeStretched | tools/mesh_converter/MeshElement.cpp:29-42 | and scales with an edge when a vertex is moved along it |
| MeshElements.SubVolumesSum | tools/mesh_converter/MeshElement.cpp:29-90 | the sub-volumes sum to the volume |
| Barycentric.WeightsRepresent | tools/mesh_converter/MeshElement.cpp:119-131 | sub-volume over volume are weights with sum one that represent the point |
| Barycentric.WeightsUnique | tools/mesh_converter/MeshElement.cpp:119-131 | and there are no other such weights |
| MeshElements.MeshElement.CalculateVolume | tools/mesh_converter/MeshElement.cpp:29-42 | the determinant of the matrix is the signed volume |
| MeshElements.MeshElement.GetSubVolume | tools/mesh_converter/MeshElement.cpp:44-90 | each matrix gives the volume with that vertex replaced; other indices are a logic error |
| MeshElements.MeshElement.IsValid | tools/mesh_converter/MeshElement.cpp:96-117 | the early exits and the loop decide Passes |
| MeshElements.PassesIff | tools/mesh_converter/MeshElement.cpp:96-117 | with a cut: valid if and only if the volume passes the cuts and the point is in the closed simplex; without: also every flat element |
| MeshElements.CutDecides | tools/mesh_converter/MeshElement.cpp:96-107 | with legs along the axes and the point inside: valid if and only if there is no cut, or a sixth of the product of the legs is at least 1e-12 and greater than the cut |
| MeshElements.UnitTetrahedron | tools/mesh_converter/MeshElement.cpp:96-117 | the unit simplex is valid exactly for cuts below 1/6 and points between the axes and the plane through its tips |
| MeshElements.UnitTriangle | tools/mesh_converter/MeshElement.cpp:96-117 | the unit triangle exactly for cuts below 1/2 and points in its closed projection |
| MeshElements.MeshElement.GetObservable | tools/mesh_converter/MeshElement.cpp:119-131 | the loop accumulates the weighted mean of the values at the vertices |
| MeshElements.ObservableBetween | tools/mesh_converter/MeshElement.cpp:119-131 | an interpolated component lies between the least and the greatest value at the vertices |
| MeshElements.ObservableAffine | tools/mesh_converter/MeshElement.cpp:119-131 | an affine field is reproduced |
| Tuples.OrderIndependent | tools/mesh_converter/MeshElement.cpp:96-131 | for every order of the vertices, each with its value, the element is valid or not alike and the interpolated value is the same |
| MeshSearch.Combination.Call | tools/mesh_converter/MeshElement.hpp:143-167 | for any cut: true exactly for a tuple that passes and has a volume, whose value is kept; a flat one that passes is rejected but leaves the functor valid with a result that is not finite |
| Tuples.GoodIff | tools/mesh_converter/MeshElement.cpp:96-117 | the functor accepts a tuple if and only if it is large enough for the cut, has a volume, and its closed simplex holds the point |
| Tuples.FlatPassIff | tools/mesh_converter/MeshElement.cpp:96-117 | a tuple passes with a flat element if and only if there is no cut and the element is flat, wherever the point is |
| Tuples.FlatInput | tools/mesh_converter/MeshElement.cpp:96-117 | three points on a line that do so |
| Tuples.GoodPermuted | tools/mesh_converter/MeshElement.hpp:143-167 | tuples of the same points, in any order, are good together |
| Tuples.FirstAccepted | tools/mesh_converter/MeshConverter.cpp:436-446 | the first combination accepted is the lexicographically first good tuple of positions |
| Tuples.LastFront | tools/mesh_converter/MeshConverter.cpp:436-446 | the combination that comes last consists of the farthest neighbours |
| Tuples.NoneGood | tools/mesh_converter/MeshConverter.cpp:436-446 | when no combination is accepted, no tuple of the neighbours is good, in any order |
| MeshSearch.RunCombinations | tools/mesh_converter/MeshConverter.cpp:438-442 | for any cut: the run calls the functor with tuples that are not good until the first good one; without one, it ends at the farthest neighbours |
| MeshSearch.CallEach | tools/mesh_converter/MeshElement.hpp:143-167 | called with these tuples in order, the functor answers alike and ends in the state of its last call, for any cut |
| MeshSearch.TryCombinations | tools/mesh_converter/MeshConverter.cpp:438-446 | together: the first good tuple and its value; without one, the functor is valid with a result that is not finite if and only if the farthest neighbours make a flat element that passes |
| MeshSearch.FlatRun | tools/mesh_converter/MeshConverter.cpp:438-446 | three neighbours on a line, without a cut: nothing is accepted, and the functor is left valid |
| MeshSearch.SortByDistance | tools/mesh_converter/MeshConverter.cpp:431-434 | an ascending arrangement of the neighbours |
| MeshSearch.RadiusExceeds | tools/mesh_converter/MeshConverter.cpp:389-449 | with a positive step the maximum radius is exceeded after finitely many steps |
| MeshSearch.RadiusLinear | tools/mesh_converter/MeshConverter.cpp:387-448 | the radius after n steps is the initial one plus n times the step |
| MeshSearch.Search | tools/mesh_converter/MeshConverter.cpp:384-450 | terminates for all options with a positive step; ends at the first radius that shows a good tuple, with the lexicographically first one of the sorted neighbours, or whose last combination is a flat one that passes, with a result that is not finite; fails when there is no such radius |
| MeshSearch.FoundHolds | tools/mesh_converter/MeshConverter.cpp:384-450 | among the radii tried, the ball holds a good tuple under the cut of that radius if and only if it is the last one and a value was found |
| MeshSearch.FailsIff | tools/mesh_converter/MeshConverter.cpp:452-458 | with a cut and without decay: fails if and only if no ball of a radius up to the maximum holds a good tuple, and finds a value otherwise |
| MeshSearch.FiniteWithCut | tools/mesh_converter/MeshConverter.cpp:420-427 | a result that is not finite needs a cut that is not positive, or the decay |
| MeshSearch.DecayLasts | tools/mesh_converter/MeshConverter.cpp:420-441 | the flag of the decay, kept from radius to radius, only says that the present one shows more than 100 points; the cut is then 0, and the configured one otherwise |
| MeshSearch.LargestDecides | tools/mesh_converter/MeshConverter.cpp:389-450 | the ball of the largest radius tried decides about failure |
| MeshConverter.CellValue | tools/mesh_converter/MeshConverter.cpp:371-464 | one cell: nearest value, interpolation, a value that is not finite, zero, or the exception, each as the options say; with a cut and without decay the exception exactly if no ball tried holds a good tuple |
| MeshConverter.MeshSection | tools/mesh_converter/MeshConverter.cpp:364-474 | the slice over (x, y) holds the value of each cell centre, whose z is min + (k + 1/2) * step |
| MeshConverter.MergedAt | tools/mesh_converter/MeshConverter.cpp:504-508 | cell k of slice s is at s * nz + k of the merged mesh |
| MeshConverter.Walk | tools/mesh_converter/MeshConverter.cpp:491-508 | the grid walk and merge put the value of each cell at its row-major slot |
| MeshConverter.Flatten | tools/mesh_converter/MeshConverter.cpp:526-551 | a vector field is stored as x, y and z of each cell, a scalar field as the coordinate that its axis names, times the units |
| MeshConverter.FitGrid | tools/mesh_converter/MeshConverter.cpp:298-311 | the bounds are the least and greatest coordinates of the mesh; along each axis, as many steps as there are cells lead from the one to the other, in x to 1 for a two-dimensional mesh |
| MeshConverter.CentreInside | tools/mesh_converter/MeshConverter.cpp:298-385 | the centre of every cell lies in the box of the mesh |
| MeshConverter.CentresTile | tools/mesh_converter/MeshConverter.cpp:370-501 | the cells lie side by side with their centres in the middle, from the lower bound to the upper one; x is 0 in two dimensions |
| MeshConverter.SlotIndex | tools/mesh_converter/MeshConverter.cpp:527-530 | the flat index of the code is the slot of the cell |
| MeshConverter.Convert | tools/mesh_converter/MeshConverter.cpp:298-553 | from mesh points to data: the grid that covers the mesh, every cell stored at its slot, or some cell whose search failed |
| MeshConverter.EndToEnd | tools/mesh_converter/MeshConverter.cpp:359-553 | if the component that is stored is affine in the mesh points, its unit-converted value is stored at the centre of each cell whose value is finite; with a cut and without decay all are |
| MeshConverter.ThroughFile | src/tools/field_parser.h:331-545 | and comes back from the INIT file at the same cell and component |
| FieldSlots.SlotFormula | src/tools/field_parser.h:397 | the flat index of the code is the row-major slot |
| FieldSlots.SlotUnique | src/tools/field_parser.h:397 | no two components share a slot |
| FieldSlots.SlotCovered | src/tools/field_parser.h:397 | every slot below X*Y*Z*N belongs to a component |
| FieldWriter.WriteInit | src/tools/field_parser.h:439-545 | writes, token by token, the header and a line for each cell in row-major order, or rejects data of the wrong size |
| FieldReader.ParseInit | src/tools/field_parser.h:331-407 | reads header and data from where they stand in the file; reads a file exactly if its header and all its lines are good, rejects it exactly if the header cannot be read or some line stops the loop, and goes on with a fault in all other cases |
| FieldReader.ReadBlock | src/tools/field_parser.h:370-399 | the loop over the data lines, which reads on behind an index zero |
| FieldReader.ReadComponents | src/tools/field_parser.h:391-398 | the loop over the components of a line stores them at the slots of its cell |
| FieldReader.SkipComponents | src/tools/field_parser.h:391-398 | behind an index zero the components are read like all others |
| FieldParser.BlockParses | src/tools/field_parser.h:370-399 | parsing a block of proper lines stores each of them |
| FieldParser.OrderIrrelevant | src/tools/field_parser.h:370-399 | the order of the data lines does not matter |
| FieldParser.RoundTrip | src/tools/field_parser.h:331-545 | parsing what was written gives back header, dimensions, size, norm and every component |
| FieldLayout.ReadFrom | src/tools/field_parser.h:331-404 | in a file that is read: the norm at token 1, the size at 8 to 10 in the order z, x, y, the dimensions at 15 to 17, the lines from 19 on; the last line of a cell gives its components, times the factor |
| FieldLayout.LastStored | src/tools/field_parser.h:370-398 | of several lines for one cell the last one counts |
| FieldLayout.RejectedIff | src/tools/field_parser.h:359-389 | which files are rejected and which are read, token by token |
| FieldLayout.WrittenTo | src/tools/field_parser.h:501-545 | in a file that is written: the same positions, constants in between, and line CellNumber for each cell, divided by the factor |
| FieldFaults.BlockRead | src/tools/field_parser.h:370-399 | a block of lines with indices from one to the size and all components is read, and each line stored |
| FieldFaults.GoesIff | src/tools/field_parser.h:376-386 | the loop goes through to the end if and only if no line stops it: one without its three indices, with an index above the size, or incomplete and not the last |
| FieldFaults.BadIff | src/tools/field_parser.h:376-386 | and a block is rejected if and only if it does not go through |
| FieldFaults.BlockIff | src/tools/field_parser.h:370-399 | exactly which blocks are rejected (some line stops the loop), read (all lines are good), and pass with a fault (no line stops the loop, but some line has an index zero or the last one is incomplete) |
| FieldFaults.ParsedIff | src/tools/field_parser.h:331-407 | the same three equivalences for whole files |
| FieldFaults.CutBlock | src/tools/field_parser.h:376-398 | a block cut off anywhere is rejected, unless only components of its last line are missing |
| FieldFaults.CutFile | src/tools/field_parser.h:331-407 | the same for any written file cut off anywhere |
| FieldFaults.CutOffUnnoticed | src/tools/field_parser.h:391-398 | a written file whose cut is not noticed |
| FieldFaults.ZeroUnnoticed | src/tools/field_parser.h:384-389 | an index zero is not noticed as long as no line stops the loop |
| FieldFaults.ZeroFiles | src/tools/field_parser.h:384-389 | a file with one that is rejected for a later line, and one that passes |
| FieldFaults.WrappedInside | src/tools/field_parser.h:387-397 | the slot of a wrapped index is inside the field if and only if it is not negative before it wraps around |
| Archives.IdTells | 3rdparty/cereal/cereal.hpp:398-415 | the most significant bit of the id is set exactly if the pointer is neither null nor known, so exactly if it is saved in full; otherwise only the id is written and nothing changes |
| Archives.StreamWritten | 3rdparty/cereal/types/memory.hpp:260-276 | token by token: 0 for null, the id of a known pointer; for a new one the next number with the most significant bit, the version if the class is new, the value, and the members in their order |
| Archives.StreamRead | 3rdparty/cereal/types/memory.hpp:321-343 | and what is made of such tokens |
| Archives.RecognisedAgain | 3rdparty/cereal/cereal.hpp:398-415 | met again, a pointer is recognised if and only if its number leaves the most significant bit free |
| Archives.RegisteredEach | 3rdparty/cereal/cereal.hpp:398-415 | distinct pointers get consecutive numbers from one on, in a 32-bit counter |
| Archives.IdsExact | 3rdparty/cereal/cereal.hpp:398-415 | all of n distinct pointers are recognised again if and only if n is less than 2^31 |
| Archives.VersionsInLockstep | 3rdparty/cereal/cereal.hpp:596-608 | over any run of classes, one version is written for each class that is new, each load is given the version of its class, and the stream behind is untouched |
| Archives.OutputArchive.SavePointer | 3rdparty/cereal/types/memory.hpp:260-276 | the id and, the first time, what the pointer points to |
| Archives.LoadOld | 3rdparty/cereal/cereal.hpp:793-802 | what is written for null or a known pointer is loaded as null or as the object that was loaded for it |
| Archives.StepNew | 3rdparty/cereal/cereal.hpp:811-815 | after registering a new pointer on both sides its id leads to the new object, and all earlier ids to theirs |
| Archives.InputArchive.LoadPointer | 3rdparty/cereal/types/memory.hpp:321-343 | a new object is registered before its content is read; otherwise the pointer is looked up |
| Archives.RoundTrip | 3rdparty/cereal/types/memory.hpp:260-343 | from any stream that goes on after it, load reads back what save has written, the archives stay in step and what was saved is rebuilt |
| Archives.StepVersion | 3rdparty/cereal/cereal.hpp:1014-1030 | version tokens are written and read in lockstep |
| Archives.GraphSurvives | 3rdparty/cereal/types/memory.hpp:260-343 | a graph of shared pointers, with sharing and cycles and fewer than 2^31 reachable objects, is rebuilt up to addresses, each object with the version it was saved with; what is saved is what can be reached |
| Archives.IdsRunOut | 3rdparty/cereal/cereal.hpp:409-411 | 2^31 distinct pointers, the last of which is not recognised again |
| Archives.SavePlainIs | 3rdparty/cereal/types/memory.hpp:260-276 | saving by the most significant bit of the id is what Save does, as long as the ids last |
| Archives.AliasLost | 3rdparty/cereal/types/memory.hpp:260-343 | from there on an object that two pointers share is written twice, and is loaded as two objects |
| Clustering.Touching | tools/root_analysis_macros/etaCorrectionResiduals.C:81-93 | a hit touches the cluster if it is near one of its hits |
| Clustering.DistanceExact | tools/root_analysis_macros/etaCorrectionResiduals.C:85 | the unsigned distance of two signed indices is right but for -1 and 0, and for the two ends of the type |
| Clustering.NearExact | tools/root_analysis_macros/etaCorrectionResiduals.C:85-90 | exactly for which hits near means the 8-neighbourhood |
| Clustering.PairExact | tools/root_analysis_macros/etaCorrectionResiduals.C:64-111 | two hits alone are clustered right if and only if they are not astray |
| Clustering.NotFar | tools/root_analysis_macros/etaCorrectionResiduals.C:81-93 | connected hits are no further apart than there are hits |
| Clustering.AstrayApart | tools/root_analysis_macros/etaCorrectionResiduals.C:81-93 | two hits that are astray are connected under one of the two relations only, whatever the other hits are |
| Clustering.ClustersExact | tools/root_analysis_macros/etaCorrectionResiduals.C:64-111 | clusters of all hits are those of the 8-neighbourhood if and only if no two hits are astray, for fewer than 2^32 hits |
| Clustering.SplitAtZero | tools/root_analysis_macros/etaCorrectionResiduals.C:85-90 | two adjacent hits on both sides of zero make two clusters |
| Clustering.NearIsNeighbour | tools/root_analysis_macros/etaCorrectionResiduals.C:85-90 | indices that are not negative always meet it |
| Clustering.GrowCluster | tools/root_analysis_macros/etaCorrectionResiduals.C:77-107 | the restarting scan terminates with a connected cluster that no unused hit touches |
| Clustering.ClosedIsComponent | tools/root_analysis_macros/etaCorrectionResiduals.C:95-107 | such a cluster is a connected component |
| Clustering.DoClustering | tools/root_analysis_macros/etaCorrectionResiduals.C:64-111 | the clusters are the connected components of the hits under the distance of the code, each once; under the 8-neighbourhood if and only if no two hits are astray, so if no index is negative |
| LiangBarsky.Clip | src/tools/liang_barsky.h:44-64 | cuts the interval down to its part in a half-space, or reports that nothing is left |
| LiangBarsky.SlabsMakeBox | src/tools/liang_barsky.h:68-73 | the six half-spaces together are the box |
| LiangBarsky.LineIs | src/tools/liang_barsky.h:90-112 | the line starts at the position and goes on by the direction |
| LiangBarsky.BoxIs | src/tools/liang_barsky.h:68-73 | the box is symmetric about the origin and as wide as given |
| LiangBarsky.IntersectionDistances | src/tools/liang_barsky.h:40-79 | the interval returned is exactly the set of parameters in the box, nothing is returned exactly if it is empty |
| LiangBarsky.ClosestIntersection | src/tools/liang_barsky.h:90-112 | the entry point from outside, the exit point from inside, nothing exactly if no positive parameter is in the box |

## Left out

- Floating-point rounding, infinities and NaN: reals are exact, the infinite distance at which findNeighbor starts is a separate value.
- Octant objects: octants are values that are put together when their children are done, not heap objects with child pointers; nothing changes an octant after it is built, and freeing the tree is not modelled.
- Copying the points into the octree (copyPoints): the model always keeps the sequence it was given.
- The radius query that also returns distances: it walks the tree exactly like the one that does not.
- Octrees.Octree.FindNeighbor: returns an unbounded index; the conversion of indices above 2^31 to a negative 32-bit number is not modelled.
- Octrees.Octree.InitializeFrom: asks for a list without repeated indices, a precondition of the proof; `Octants.LinksExact` says which other lists can be linked, what the subdivision makes of them is not modelled.
- Callbacks that change the range while they run, and functors with effects other than their answer: the callback is a function of what it has seen.
- Moving and copying of functor objects, and the difference type of iterators: ranges are natural numbers.
- MeshSearch.TryCombinations: the callback of the run is the answer of the functor as a function of the tuple; the functor object itself is called with the same tuples afterwards, and `CallEach` proves that it answers the same.
- MeshSearch.Search: asks for a positive radius step; with another one the loop of the code need not end. The search calls a value not finite exactly for a division by the volume zero; that finite doubles can overflow is not modelled.
- MeshSearch.SortByDistance: stands for std::sort; only its contract is used, any ascending arrangement will do.
- MeshConverter.Convert: the numbers of cells and the options come as parameters, with default axes and a fixed component for scalar fields; a grid without cells has steps of zero, where the code divides by zero and does not use the result; reading the configuration, the axis permutations and inversions, and the thread pool are not modelled, futures are taken in order. The tree must be finite in exact arithmetic (`Divisible`): with more than 32 points at one location it is so only in the source, whose extent underflows to 0.
- MeshConverter.ThroughFile: asks for data that are all finite, as `MeshConverter.EndToEnd` proves for a positive cut without decay; how a value that is not finite is written as text is not modelled.
- MeshElements.MeshElement.GetObservable: is called only with a volume other than zero; a value divided by zero is represented by its not being finite.
- Dimensions other than two and three, for which the volume stays zero.
- FieldReader.ReadBlock: does not follow where an index zero writes after it has wrapped around: the file is reported as unchecked. A write outside the field is undefined behaviour in the source; `FieldFaults.WrappedInside` says which are inside.
- FieldReader.ParseInit: works on tokens; text rendering of numbers, and reading an integer from a number with a fraction, are not modelled. The cache of parsed files and the binary format are left out.
- Archives.RoundTrip: an object is one value and its pointer members, in this order; containers, unique pointers and polymorphic types, which use the same ids, are left out.
- Overload selection and encodings of the archives: template machinery.
- The Cluster class is not part of this model; a cluster is a set of hits, and a hit is identified with its pointer.
- LiangBarsky.IntersectionDistances: the bounds of the number type are parameters.
- Physics models, data objects, the Runge-Kutta integrator, histograms and the application itself: closed formulas or input and output.
