# tolmap, proved

A Dafny model of the parts of tolmap whose results other parts rely on without
looking at them again, and proofs of what those parts promise:

- the outlines of map regions (`src/blobs.rs`): a raster mask becomes directed
  cell sides, the sides are peeled into closed contours, and the contours fill
  back to the mask; the two-pass blur in front of it is a convolution;
- the exact geometry of the audit (`eval/symbol_stats.py`): convex hull, convex
  clipping, even-odd containment, area;
- the change check (`src/check.rs`): modularity at a fixed partition, placement
  of new files, and the comparison of two graphs through a rename map;
- district matching (`eval/remote_build_result.py`), the definition of the
  parity gate;
- the comparison cache (`src/comparison.rs`, `src/access.rs`) as a transition
  system of many requests in many processes, with failing file operations,
  crashes, a moving clock, and a policy and maps that change between steps;
- the layout and the symbols of a map (`src/geometry.rs`): district classes, the
  two offshore rings, and the search for the file that defines a used name;
- the index ingest (`eval/scip_ingest.py`): the table of innermost symbols and
  the walk over a Protocol Buffers message;
- the blended, pruned graph of the churn study (`eval/scip_churn.py`).

Code that changes things step by step is a method with loops, or a class whose
methods change its fields, proved against a specification; the promises are
lemmas about that specification, and what they assume of a result is what the
method that computes it ensures. Numbers the code keeps as `f64` are `real`
here; the lattice coordinates and the points of the hull are `int`.

## Layout

Shared: `Wrappers`, `Sums`, `SetSums`, `RangeSums`, `Sorting`, `Rings`, `Points`,
`Polygons`, `Rounding`. Region outlines: `RasterSides`, `EdgeMaps`,
`OutlineTrace`, `MarchingSquares`, `ContourOrder`, `RasterRoundTrip`, `GaussianBlur`. Audit:
`TurnOrder`, `ConvexHull`, `ClipConvex`, `ClipWinding`. Check: `Modularity`,
`ModularityForms`, `ChangeCheck`, `ReportInFields`, `RenameInvariance`,
`DistrictMatching`, `MatchingInNumbers`. Comparison cache:
`Access`, `ComparisonProtocol`, `ComparisonSafety`, `ComparisonRuns`,
`ComparisonAnswers`, `ComparisonProgress`. Layout: `DistrictClasses`,
`OffshoreRings`, `RingsInFields`, `DefinitionSites`. Studies: `SpanTable`,
`WireFormat`, `BlendPrune`, `BlendInNumbers`.

## Findings

- `src/geometry.rs:264`: the radius of the island ring leaves out the reach of the
  islands themselves. Around a single mainland district an island clears it exactly
  when the island reaches less than the margin of 0.5 (`OneMainland`); an island of
  three quarters of the files would not (`LargeIslandOverlaps`). With the classes of
  `classify_districts` an island stays below one percent, and below the margin
  (`SmallReach`), so the rings clear each other (`ClassesNeverOverlap`).
- `eval/scip_ingest.py:149-157`: `iter_index` does not notice every message that is
  cut off. A cut in the last field is noticed exactly when it falls inside the key,
  the length, or a varint, and not when it falls into a payload or a fixed-width
  value (`CutOffMessage`, `CutOffExamples`). A walk that finishes at exactly the end
  of the buffer has read a buffer of complete fields, and every such buffer is read
  that way (`WholeMessage`), so comparing the two offsets is the check to add.
- `eval/scip_ingest.py:121-130`: `_varint` reads numbers that were not written in the
  fewest bytes (`OverlongExample`); `ShortestSpelling` says exactly which.
- `eval/symbol_stats.py:299-317`: clipping is exact away from the lines of the clipper
  for any subject ring, convex or not, self-crossing or not (`ClipIsIntersection`).

## Model

| member | source | states |
|---|---|---|
| MarchingSquares.CollectSides | src/blobs.rs:549-581 | the map of target lists holds each exposed side of the mask exactly once |
| RasterSides.ExposedSidesCount | src/blobs.rs:559-581 | a directed side is emitted once if the cell on its right is filled and the one on its left is not, and otherwise never |
| RasterSides.ExposedSidesBalanced | src/blobs.rs:559-581 | every lattice point, saddles included, has as many sides leaving as arriving |
| EdgeMaps.PopRepresents | src/blobs.rs:582-602 | popping a target list sorted in descending order takes the least remaining side out of that point and nothing else |
| MarchingSquares.WalkContinues | src/blobs.rs:594-605 | a walk that has not come back to its start always finds a next side, so neither early `break` is ever taken |
| MarchingSquares.ClosedWalkLength | src/blobs.rs:607-609 | a closed walk has at least four sides, so the length filter drops nothing |
| MarchingSquares.PeelContour | src/blobs.rs:591-609 | one round takes exactly one closed walk out of the remaining sides and leaves the rest in balance |
| MarchingSquares.MarchingSquares | src/blobs.rs:548-612 | the contours are a trace of the exposed sides: every side lies on exactly one contour exactly once, in the order of least remaining starts and steps |
| OutlineTrace.TraceUnique | src/blobs.rs:587-611 | a trace is determined by the set of sides alone |
| MarchingSquares.ContoursUnique | src/blobs.rs:548-612 | the contours, their order, their starts and the turn at every saddle are determined by the mask |
| ContourOrder.StartsInOrder | src/blobs.rs:587-593 | a contour starts at its leftmost vertex, the upper one of two, and no later contour has a vertex before that |
| ContourOrder.TurnsInOrder | src/blobs.rs:582-602 | where contours pass a point again, saddles included, they leave it for the leftmost vertex first, and the upper one of two |
| RasterRoundTrip.ContoursWinding | src/blobs.rs:548-612 | every cell centre of the plane is wound around once if its cell is filled and not at all if it is empty |
| RasterRoundTrip.FillingGivesMaskBack | src/blobs.rs:548-612 | even-odd filling of the contours gives back the mask, cell by cell |
| RasterRoundTrip.ContoursArea | src/blobs.rs:559-610 | the signed areas of all contours add up to the number of filled cells, holes subtracting |
| GaussianBlur.Normalise | src/blobs.rs:512-515 | each weight is divided by the sum of all of them: times that sum it is what it was |
| GaussianBlur.Blur | src/blobs.rs:507-543 | the result is the zero-padded convolution with the product of the normalised kernel, and a non-negative raster never gains mass |
| GaussianBlur.TwoPassesAreConvolution | src/blobs.rs:516-542 | for any kernel, a row pass followed by a column pass computes the direct two-dimensional form |
| GaussianBlur.NormalisedAverages | src/blobs.rs:509-515 | a kernel of positive values, normalised, is non-negative and adds up to one |
| GaussianBlur.PassKeepsMass | src/blobs.rs:516-528 | one pass along a line never adds mass |
| GaussianBlur.BlurKeepsMass | src/blobs.rs:516-542 | both passes together never add mass |
| GaussianBlur.PointSpreads | src/blobs.rs:516-542 | a single cell spreads as the kernel says, across and down |
| Polygons.Contains | eval/symbol_stats.py:461-468 | the flag that flips at each crossing is the parity of the crossings of the ray |
| Polygons.InsideByWinding | eval/symbol_stats.py:465-467 | the even-odd rule says inside exactly when the winding number is odd |
| Polygons.Area | eval/symbol_stats.py:521-525 | half the absolute value of the signed sum over all rings |
| ConvexHull.HalfHull | eval/symbol_stats.py:179-187 | a half hull runs from the first to the last point through input points, turns strictly left, and has every point on or left of each of its edges |
| ConvexHull.ChainExtends | eval/symbol_stats.py:180-183 | popping and pushing keeps all of that when a point is added |
| ConvexHull.Hull | eval/symbol_stats.py:171-188 | fewer than three distinct points come back sorted; else the vertices are input points including both lexicographic extremes, every point lies on or left of every edge, and the ring is strictly convex, or the two extremes if all points are collinear |
| ConvexHull.HullConvex | eval/symbol_stats.py:179-188 | points that are not collinear give at least three vertices with a left turn at each, at the joints too |
| ConvexHull.CollinearHull | eval/symbol_stats.py:179-188 | collinear points leave only the two extremes |
| ConvexHull.HullDistinct | eval/symbol_stats.py:188 | no vertex is listed twice |
| ConvexHull.HullStartsInCoordinates | eval/symbol_stats.py:171-188 | the hull starts at the leftmost point, the lower one of two |
| ConvexHull.HullEnclosesInCoordinates | eval/symbol_stats.py:176-188 | every point lies on or left of every edge |
| ConvexHull.HullTurnsInCoordinates | eval/symbol_stats.py:176-188 | points that are not on one line give at least three vertices, each visited once, with a left turn at each |
| ConvexHull.HullOfLine | eval/symbol_stats.py:176-188 | points on one line give the first and the last of them |
| ConvexHull.SortedInCoordinates | eval/symbol_stats.py:172-174 | fewer than three distinct points come back from left to right, and from below |
| ClipConvex.ClipConvex | eval/symbol_stats.py:299-317 | clipping edge by edge with an early exit is clipping against every half-plane in turn |
| ClipConvex.CutOnLine | eval/symbol_stats.py:314-316 | the division is never by zero, the parameter lies between 0 and 1, and the cut point is exactly on the line |
| ClipConvex.OutputWithinClipper | eval/symbol_stats.py:302-316 | after every stage all vertices lie in every half-plane already processed |
| ClipConvex.OutputWithinSubject | eval/symbol_stats.py:302-316 | a half-plane that holds the subject holds the output |
| ClipWinding.ClippedWinding | eval/symbol_stats.py:310-316 | one clip keeps the winding number of every point strictly inside the half-plane, for any subject ring |
| ClipWinding.ClipKeepsInside | eval/symbol_stats.py:302-316 | strictly inside all half-planes, the output winds as the subject does; an edge of no length clips nothing |
| ClipWinding.ClipDropsOutside | eval/symbol_stats.py:302-316 | strictly outside one of them, the output does not wind at all |
| ClipWinding.ClipIsIntersection | eval/symbol_stats.py:299-317 | off the clipper's lines a point is inside the output exactly when it is inside the subject and in every half-plane, whatever the two rings are |
| ClipWinding.InsideVertexStays | eval/symbol_stats.py:310-313 | a subject vertex on or left of every clipper edge is a vertex of the output |
| ClipWinding.ClipIdempotent | eval/symbol_stats.py:299-317 | clipping once more changes nothing |
| Modularity.FixedPartitionModularity | src/check.rs:393-421 | the running maps compute the share of inner weight less the resolution times the squared shares of degree; nodes without membership drop out with their edges |
| Modularity.DegreesSum | src/check.rs:401-411 | the community degrees add up to twice the total weight |
| Modularity.QualityAtMost | src/check.rs:412-420 | at most 1 less the resolution over the number of communities touched |
| Modularity.QualityAtLeast | src/check.rs:412-420 | at least minus half the resolution, for resolutions up to two |
| Modularity.QualityAtBuildResolution | src/check.rs:67 | at the build's resolution 1.1: from -0.55 to below 1 |
| ModularityForms.QualityByEdges | src/check.rs:398-420 | without communities: the weight inside, less the resolution times the weight of all pairs of edge ends in one community, as shares of all there are |
| ModularityForms.CountedSum | src/check.rs:401-404 | what counts is what is left of all edges when those with an end out of range or without membership are dropped |
| ModularityForms.OneEdge | src/check.rs:412-420 | at 1.1, one edge has quality -0.1 inside a community and -0.55 across two |
| ModularityForms.TwoEdges | src/check.rs:412-420 | at 1.1, two equal edges in two communities have quality 0.45 |
| ChangeCheck.Place | src/check.rs:427-439 | the heaviest district of positive weight, the lowest id among equals, none only if no weight is positive |
| ChangeCheck.PlacementUnique | src/check.rs:423-426 | the answer does not depend on the order of iteration |
| ChangeCheck.HeadDistricts | src/check.rs:496-543 | a file the base map holds keeps its district; any other is placed by its imports of files that do |
| ChangeCheck.ImportWeightsSum | src/check.rs:520-538 | the weight of a district for a new file is the sum of the pair weights of its imports of files that inherit that district, and there is one exactly if there is such an import |
| ChangeCheck.CollectCrossEdges | src/check.rs:743-779 | one entry for each pair of identities, made by the first crossing edge with that pair |
| ChangeCheck.CrossKeys | src/check.rs:749-769 | a pair is listed exactly when an edge with that pair crosses districts |
| ChangeCheck.CrossEdgeFirst | src/check.rs:761-776 | an entry is the first crossing edge with its pair, from importer to target if one end imports the other, else in path order |
| ChangeCheck.ListEdges | src/check.rs:590-603 | the crossing edges whose pair does not cross on the other side, each once, heaviest first and then by path |
| ChangeCheck.CrossedByChange | src/check.rs:643-648 | a district is crossed exactly when it is the district of some change |
| ChangeCheck.Compare | src/check.rs:466-737 | the whole report: districts, rounded qualities and their difference, added and removed edges, districts crossed, and a failure exactly when a threshold is exceeded |
| ReportInFields.PathLeIsOrder | src/check.rs:756-766 | paths are compared character by character, a prefix first |
| ReportInFields.IdentityInFields | src/check.rs:472-495 | a head file is known by the base path of the last rename to it, and else by its own |
| ReportInFields.HeadDistrictsInFields | src/check.rs:496-543 | a known file keeps its base district; a new one goes to the district with the greatest sum of pair weights over its imports, the lowest id among equals, or to none |
| ReportInFields.BaseDistrictsInFields | src/check.rs:545-566 | a base file counts in its base district exactly if it is still there at head |
| ReportInFields.CrossedInFields | src/check.rs:605-660 | a district is crossed exactly when a change has its base path there, deletes included, or, without one on the map and unless it deletes, its head path |
| ReportInFields.OrientedDescribes | src/check.rs:756-776 | a reported edge runs from importer to imported file if that is only one way, else in path order, with its weight to a millionth |
| ReportInFields.ListingInFields | src/check.rs:588-603 | the list has one entry for every first crossing edge of two files between which none crosses on the other side, the heaviest first, then by source and by target |
| ReportInFields.CompareInFields | src/check.rs:466-737 | the whole report on the fields of its inputs: all of the above, both qualities at 1.1 and their difference to a millionth, and a failure exactly when a threshold is exceeded |
| RenameInvariance.SameQuality | src/check.rs:545-586 | two sides that agree up to names, node numbers, edge order and edge direction have the same quality |
| RenameInvariance.SameCrossings | src/check.rs:588-603 | and the same pairs cross on both |
| RenameInvariance.FollowedBack | src/check.rs:472-495 | an injective renaming that is listed is followed back to the base path |
| RenameInvariance.RenamedIsSame | src/check.rs:472-495 | renaming injectively with the renames listed, and renumbering, gives a side that agrees up to names |
| RenameInvariance.RenamesChangeNothing | src/check.rs:466-737 | then the difference of quality is 0, no edge is added or removed, every district is inherited, and only the number of districts can fail the check |
| RenameInvariance.RenamingChangesNothing | src/check.rs:466-737 | the same said of an injective renaming that the diff lists: the report changes nothing, and every file is in the district its base file had |
| RenameInvariance.NoRenameChangesNothing | src/check.rs:466-737 | a diff without renames that leaves the graph as it was changes nothing either |
| Rounding.RoundTiesEven | src/extract.rs:6980-6983 | the nearest integer, the even one of two equally near |
| Rounding.RoundIsRounded | src/check.rs:441-449 | a whole number of millionths, at most half a millionth away, the even one of two equally near |
| DistrictMatching.MembershipByLastRow | eval/remote_build_result.py:84-85 | a file is in the district of its last row that has a node, and no other file is in any |
| DistrictMatching.CollectPairs | eval/remote_build_result.py:98-108 | exactly the pairs of districts that share a common file, with their Jaccard index |
| DistrictMatching.MatchSorted | eval/remote_build_result.py:110-118 | the greedy pass is one-to-one, stays above the floor of 0.35, and leaves a pair out only for a match of one of its ends that comes first |
| DistrictMatching.MatchDistricts | eval/remote_build_result.py:98-118 | the same over all pairs that share a file, whatever order they were met in |
| DistrictMatching.MatchingUnique | eval/remote_build_result.py:109-118 | there is only one such matching |
| MatchingInNumbers.MatchingIsGreedy | eval/remote_build_result.py:97-118 | in numbers of files: matches are one to one and overlap by at least 0.35, and any other such pair is beaten by a match of one of its districts that overlaps more, or as much with the higher candidate id, or then the higher reference id |
| MatchingInNumbers.OverlapIsJaccard | eval/remote_build_result.py:99-108 | the index of a pair is the number of common files in both districts over that in either |
| DistrictMatching.MajorityMatched | eval/remote_build_result.py:113-118 | a pair with a Jaccard index above one half is always matched |
| DistrictMatching.Placement | eval/remote_build_result.py:88-121 | the fraction of common files whose district is matched to their district, 0 without common files, 1 exactly when both maps group the common files alike, and the absolute difference of quality |
| DistrictMatching.FullPlacement | eval/remote_build_result.py:119-120 | every common file is placed exactly when both maps group the common files alike, whatever the districts are called |
| DistrictMatching.FractionOne | eval/remote_build_result.py:119-120 | the fraction lies between 0 and 1 and is 1 exactly when every common file is placed |
| Access.Enforce | src/access.rs:44-51 | the action's value exactly when the policy allows the request |
| ComparisonSafety.InitialInv | src/comparison.rs:119-156 | the invariant holds of an empty cache |
| ComparisonSafety.NextInv | src/comparison.rs:84-244 | every step of every request, failure, crash and change outside keeps the invariant and everything published |
| ComparisonRuns.PublishedForever | src/comparison.rs:231-241 | a published comparison is whole, was computed for its key, and is the same at every later moment |
| ComparisonRuns.SameKeySameEnvelope | src/comparison.rs:233-241 | all calls with one key return one envelope, creation time included |
| ComparisonRuns.ReportOfHashedBytes | src/comparison.rs:136-230 | the report was computed from the very map bytes whose hash is in the key and the envelope |
| ComparisonRuns.NoPartialRead | src/comparison.rs:229-263 | no call ever fails because the file at the final path is missing or partly written |
| ComparisonRuns.OneComputation | src/comparison.rs:157-160 | at most one request of a process computes at a time |
| ComparisonRuns.DomainsNeverShare | src/comparison.rs:140-151 | a returned envelope was created by a request of the same access domain and repository |
| ComparisonRuns.Authority | src/comparison.rs:84-113 | a protected call that succeeds matched the repository and was allowed to read base and then head before any cache access, and base and then head again once it held the very result it returns |
| ComparisonAnswers.ThresholdsInFields | src/check.rs:121-154 | refused exactly for report-only with a threshold or a negative drop; else no thresholds for report-only, 4 and 0.0001 if none is named, and the named ones to a millionth |
| ComparisonAnswers.MapRead | src/comparison.rs:135-137 | what a request works on it read from the path of its map, and its query was not to be refused |
| ComparisonAnswers.MadeAt | src/comparison.rs:220-230 | an envelope carries the clock of a moment at which it was made |
| ComparisonAnswers.AnswerInFields | src/comparison.rs:119-244 | the answer to a request, on the fields of its call: the report of a check with the thresholds asked for, on the map read, by this version and revision, and everything the envelope says of that |
| ComparisonAnswers.SameIdSameQuestion | src/comparison.rs:138-151 | two answers under one id are to one question: same repository, sides, program, domain, map and report-only, same number of districts, and the same drop to a millionth |
| ComparisonAnswers.RunTidy | src/comparison.rs:157-243 | a permit belongs to a request that is computing, and a staging directory to such a one or to one that crashed |
| ComparisonAnswers.WhyFailed | src/comparison.rs:84-263 | a request that fails was denied by the policy of that moment, asked for what is refused, met another computation of its process, found another report version, or met a failure of the system |
| ComparisonAnswers.ComputesOnlyWhenMissing | src/comparison.rs:153-160 | a request computes only if nothing was published under its id when it looked |
| ComparisonProgress.HitSucceeds | src/comparison.rs:84-156 | left alone, an allowed request for a published comparison returns it, whoever holds the permit |
| ComparisonProgress.MissSucceeds | src/comparison.rs:84-244 | left alone, an allowed request for an unpublished one computes, publishes and returns it, and leaves no permit or staging directory behind |
| ComparisonProgress.DeniedFails | src/comparison.rs:97-109 | left alone, a request for another repository, or one the policy does not let read a side, is denied with the cache untouched |
| ComparisonProgress.RefusedFails | src/comparison.rs:135 | an admitted request whose thresholds are refused ends as a bad input |
| ComparisonProgress.NoMapFails | src/comparison.rs:136 | one whose map is not there ends as unavailable |
| ComparisonProgress.BusyFails | src/comparison.rs:153-160 | one for an unpublished comparison, while its process computes, ends as busy |
| ComparisonProgress.OutdatedFails | src/comparison.rs:154-156 | one for a comparison published with another report version ends as that |
| ComparisonProgress.CheckFails | src/comparison.rs:170-243 | one whose check fails ends as that, with nothing published and no permit or staging directory left |
| DistrictClasses.ClassifyDistricts | src/geometry.rs:91-128 | mainland from one percent of all files, below that an island if a file of it takes part in an import, else unconnected |
| DistrictClasses.SizesSum | src/geometry.rs:106-111 | the sizes of all districts add up to the number of files |
| DistrictClasses.CountInNumbers | src/geometry.rs:106-108 | a size is the number of files in the district |
| DistrictClasses.ClassInNumbers | src/geometry.rs:91-128 | the classes with the one percent written out and imports read file by file |
| OffshoreRings.Layout.PlaceRing | src/geometry.rs:299-321 | the members of one class move onto the circle in id order; every other entry and every size stays |
| OffshoreRings.Layout.MainlandCenter | src/geometry.rs:235-248 | the size-weighted mean of the mainland centroids, or the fallback |
| OffshoreRings.Layout.RelocateOffshore | src/geometry.rs:218-290 | islands and then unconnected districts are placed on their two rings around the mainland as it was |
| OffshoreRings.CenterAmongMainland | src/geometry.rs:235-248 | the centre lies in the convex hull of the mainland centroids |
| RingsInFields.CenterBalances | src/geometry.rs:235-248 | the moments of the mainland about the centre, weighted with the sizes, cancel |
| RingsInFields.LargeDistrictOutweighs | src/geometry.rs:232-248 | nine files at 0 and one at 10 have their centre at 1 |
| RingsInFields.CenterWithoutFiles | src/geometry.rs:232-248 | without a mainland the centre is (0.5, 0.5), and the origin if the mainland holds no file |
| RingsInFields.ReachInNumbers | src/geometry.rs:139-144 | a reach squared is 3.9 squared times the share of all files |
| RingsInFields.RelocationInNumbers | src/geometry.rs:218-321 | the island ring is 0.5 wider than the mainland reaches from the centre, the outer one by the widest island, 0.5 and the widest unconnected district more; each offshore district sits at the place of its rank among its class, and nothing else moves |
| OffshoreRings.OnItsRing | src/geometry.rs:264-289 | mainland centroids are unchanged; any other district is at exactly its ring's radius from the centre |
| OffshoreRings.OffshoreClearance | src/geometry.rs:249-289 | an island is at least reach + 0.5 from a mainland district; an unconnected one at least both reaches + 1 from mainland and both reaches + 0.5 from islands |
| OffshoreRings.OneMainland | src/geometry.rs:249-271 | around a single mainland district an island is at exactly that reach + 0.5, so it clears it exactly when its own reach is below 0.5 |
| OffshoreRings.LargeIslandOverlaps | src/geometry.rs:264 | an island of three quarters of the files overlaps the mainland |
| OffshoreRings.SmallReach | src/geometry.rs:139-148 | a district below one percent reaches less than the margin |
| OffshoreRings.ClassesNeverOverlap | src/geometry.rs:139-290 | with the classes of `classify_districts`, no two districts of different classes reach each other |
| DefinitionSites.SymbolTable | src/geometry.rs:848-853 | every full name and every last part of a name leads to the earliest symbol that answers to it |
| DefinitionSites.BaseName | src/geometry.rs:851 | the part after the last dot, or the whole name |
| DefinitionSites.DefineSite | src/geometry.rs:888-916 | the search that skips files it has seen finds what a search of all chains of uses, level by level, finds first |
| DefinitionSites.SeenChangesNothing | src/geometry.rs:895-910 | skipping seen files changes neither whether nor where a definition is found |
| DefinitionSites.DefinitionSiteIsNearest | src/geometry.rs:888-916 | the answer defines the name the fewest uses away, and there is none exactly when no file within the bound defines it |
| DefinitionSites.DefinitionSiteIsLeast | src/geometry.rs:895-910 | of several nearest definitions it is the one at the end of the chain of uses that goes to the lowest files first |
| DefinitionSites.LeastUnique | src/geometry.rs:895-910 | that leaves no choice |
| DefinitionSites.CompactUses | src/geometry.rs:839-886 | the memo table changes nothing: each use is listed under the site that an uncached search finds for it, and only there |
| DefinitionSites.ListsOrdered | src/geometry.rs:876-885 | lists are ascending, never empty, and never name the defining file |
| DefinitionSites.ListedUses | src/geometry.rs:863-881 | a listed file has a use whose nearest definition within four hops is that symbol |
| DefinitionSites.ListedExactly | src/geometry.rs:867-881 | a file is listed for a site exactly when a search from one of its uses finds that site, in another file |
| DefinitionSites.UsesListed | src/geometry.rs:863-881 | said without the search: a file is listed for a site exactly if it is another file and has a use whose name is defined there, at most four uses away, nearest, and at the end of the least chain |
| DefinitionSites.LeadsSomewhere | src/geometry.rs:867-869 | a use leads to such a site exactly if some file at most four uses away defines its name |
| SpanTable.Spans.OwnerTable | eval/scip_ingest.py:203-217 | a table, cached or painted, that is right for every line; none for a file without symbols |
| SpanTable.PaintTable | eval/scip_ingest.py:207-215 | painting larger spans first leaves the innermost symbol on every line |
| SpanTable.Spans.Innermost | eval/scip_ingest.py:219-223 | the symbol that spans the line with the smallest extent, then the greatest depth, then the largest index, or -1 if none does |
| SpanTable.InnermostUnique | eval/scip_ingest.py:209-212 | that leaves no choice |
| SpanTable.InnermostInFields | eval/scip_ingest.py:203-223 | on the fields of the rows: the fewest lines, then the most ancestors, then the last row |
| SpanTable.Depths | eval/scip_ingest.py:194-200 | each depth is the number of ancestors |
| SpanTable.Spans.IsSelfOrAncestor | eval/scip_ingest.py:225-230 | true exactly when following parents from the owner meets the target |
| SpanTable.NoDescendantCovers | eval/scip_ingest.py:180-187 | no symbol nested in the answer spans the line as well |
| SpanTable.CoversIffAncestor | eval/scip_ingest.py:219-230 | where spans are nested or disjoint, the symbols that span a line are exactly the answer and its ancestors |
| WireFormat.ReadVarint | eval/scip_ingest.py:121-130 | shifting and adding seven bits at a time reads the base 128 number and the offset behind it |
| WireFormat.VarintRoundTrip | eval/scip_ingest.py:121-130 | an encoded number reads back, with the exact next offset |
| WireFormat.VarintCutOff | eval/scip_ingest.py:125 | a number cut off before its last byte runs out of bytes |
| WireFormat.ShortestSpelling | eval/scip_ingest.py:121-130 | what was read is the encoding of its value exactly when it is one byte long or does not end in a zero byte |
| WireFormat.IterIndex | eval/scip_ingest.py:133-159 | hands out the length-delimited fields in order, up to the end or the first error; a loop that finishes does so at the last offset of the walk |
| WireFormat.FieldRoundTrip | eval/scip_ingest.py:146-157 | a field of any of the four wire types reads back, wherever it stands |
| WireFormat.WalkRoundTrip | eval/scip_ingest.py:144-159 | an encoded message walks back to its fields and finishes at its end |
| WireFormat.PayloadsInOrder | eval/scip_ingest.py:149-157 | what is handed out is the number and payload of each length-delimited field, in order, and nothing for any other |
| WireFormat.UnsupportedField | eval/scip_ingest.py:146-159 | a field of any other wire type stops the walk with that type, right behind its key |
| WireFormat.WireExamples | eval/scip_ingest.py:144-157 | one message of each wire type, byte by byte |
| WireFormat.CutOffMessage | eval/scip_ingest.py:144-159 | cut anywhere in its last field, a message walks to the fields before it, and finishes exactly when nothing of the field is there or all of its header is; else it runs out of bytes |
| WireFormat.CutOffExamples | eval/scip_ingest.py:149-157 | a lone key of an eight-byte field finishes, and so does a payload of five bytes of which one is there |
| WireFormat.OverlongExample | eval/scip_ingest.py:121-130 | a zero in two bytes is read as zero |
| WireFormat.WholeMessage | eval/scip_ingest.py:144-157 | a walk finishes with these fields and stops at exactly the end of the buffer if and only if the buffer is these complete fields, one after another |
| WireFormat.EncodedIsMessage | eval/scip_ingest.py:144-157 | an encoded message is made of complete fields |
| BlendPrune.WeighEdges | eval/scip_churn.py:260-261 | each edge's sum of signals, each at its share over its mass |
| BlendInNumbers.RawInNumbers | eval/scip_churn.py:76-82 | 45, 35, 8 and 12 percent of the four signals, each as a share of its sum |
| BlendInNumbers.RescaledInNumbers | eval/scip_churn.py:262-263 | the weights are the blended ones over the greatest of them |
| BlendPrune.SignalShare | eval/scip_churn.py:260-261 | before rescaling a signal contributes exactly its share in total, or nothing if it has no mass |
| BlendPrune.TotalShare | eval/scip_churn.py:260-261 | the total weight before rescaling is one when every signal has mass |
| BlendPrune.Rescaled | eval/scip_churn.py:262-263 | with non-negative signals all weights lie between 0 and 1, one is 1, and the division fails exactly when every signal is zero |
| BlendPrune.CollectEnds | eval/scip_churn.py:264-269 | each file's edges in order, and the largest of their weights |
| BlendPrune.Prune | eval/scip_churn.py:270-276 | an edge survives exactly when one of its ends keeps it |
| BlendPrune.TopIffOutranked | eval/scip_churn.py:272-274 | a file considers an edge exactly when fewer than fourteen of its others are heavier, or as heavy and earlier |
| BlendInNumbers.SurvivesInNumbers | eval/scip_churn.py:270-276 | an edge survives exactly when at one of its files fewer than fourteen others are heavier, or as heavy and earlier, and it weighs at least two percent of each of them |
| BlendPrune.KeepsStrongest | eval/scip_churn.py:271-276 | a file itself keeps one of its strongest edges exactly when their weight is not negative |
| BlendPrune.NeverIsolates | eval/scip_churn.py:270-277 | in the result, a file has one of its strongest edges exactly when their weight is not negative, and is an end of some edge exactly then |
| BlendPrune.NoFileLost | eval/scip_churn.py:258-277 | with non-negative signals every file with an edge has one of its strongest edges in the result |
| BlendPrune.NegativeSignalIsolates | eval/scip_churn.py:258-277 | with a negative signal two files of a four-file graph lose their only edge |
| BlendPrune.Blended | eval/scip_churn.py:258-277 | the surviving edges with their weights, or the failure on no edges or on a zero maximum |

## Left out

- Float rounding: `f64` arithmetic is modelled by reals; only `round_to` is modelled as a rounding. NaN weights and negative zero have no counterpart.
- Square roots, sines, cosines and exponentials are parameters: a root that squares back, unit vectors for the places on a ring, positive kernel values. Equal spacing on a ring and the kernel's shape are not stated.
- SHA-256 is taken to be injective, and a staging directory's random name to be fresh.
- Git, the file system, JSON and the command line appear only as steps of the comparison protocol, each of which may fail; `check::run` is a function of its inputs there, and `outside_graph` and the other descriptive parts of the provenance are not modelled.
- Two builds with the same version and revision are the same code in the protocol; the fallback revision "development" does not guarantee that.
- The protocol has no fairness: nothing is said about when a request finishes among others; `ComparisonProgress` speaks of one that is left alone.
- The pruned graphs and the mass-normalised weights that `compare` starts from are inputs; `src/pipeline.rs` is not part of this model.
- ChangeCheck.Compare: does not model the rows of changed files, unplaced files, district names and touched landmarks, nor the check of the map's arrays, because they are listings of the inputs; nor the text format.
- Access.Enforce: does not say that the action does not run on a denial, because a function has no effects to observe; `ComparisonRuns.Authority` says it of the protocol, where the action is the steps that follow.
- Rename sets in which a renamed-away path also exists at the head: the rename theorem asks for an injective renaming.
- `ClipIsIntersection` speaks of points off the lines of the clipper; on a line the even-odd rule depends on which side a crossing is counted.
- Two islands on one ring, or two unconnected districts, may reach each other; the code leaves that to `relax`, which is not part of this model.
- Simplifying, smoothing and packing of contours (`contours`, `chaikin`, `pack`, `relax`), the force layout, naming, parcels and symbol cards.
- `compact_uses` names a site by the text "file:symbol"; here it is the pair.
- The bits of a varint are put together by addition; the source uses a bitwise or of disjoint bits.
- Library sorts are modelled by a stable insertion sort.
- SpanTable.Spans.OwnerTable: the cache holds a copy of the painted array, so sharing of the array with callers is not modelled.
- The rest of the repository: detection, extraction, the service, the viewer, and the report scripts are mostly input, output and tables.
