# DfsBinaryGroupFinder in Dafny

A model of the connected-group finder of the centroid-finder project
(`src/DfsBinaryGroupFinder.java`).  The finder takes a binary image, a
rectangular grid of ints, and reports every 4-connected group of pixels equal
to 1.  Each group is reported as a `Group`: its pixel count and its centroid,
the per-axis mean of the pixel coordinates with Java's truncating integer
division.  The list is returned in descending order of size, then centroid x,
then centroid y.

The model follows the Java code's own shape:

- `DfsBinaryGroupFinder.FindConnectedGroups` is the row-major double loop over
  an `array2<int>`.  At each cell still equal to 1 it runs the flood fill and
  appends the group.  It then sorts the list and reverses it.
- `DfsBinaryGroupFinder.DfsIterative` is the stack-driven flood fill.  The
  `Stack<Coordinate>` is a `seq` (push appends, pop takes the last element).
  The `HashMap` of three counters is three integer results.  Each popped cell
  equal to 1 is overwritten with 2 in place and counted.
  `DfsBinaryGroupFinder.PushNeighbours` is the inner loop over the four
  direction offsets, with its bounds check.
- `Groups.Sort` and `Groups.Reversed` stand for `Collections.sort` and
  `Collections.reverse`.  The sort is an insertion sort by `Groups.CompareTo`
  (size, then centroid x, then centroid y).

What a correct answer is comes from definitions, not from the code:

- `Connectivity.Component(on, seed)` is the set of on cells reachable from the
  seed through edge-sharing on cells.
- `CellSums.Sum` adds up one coordinate over a set of cells, in no particular
  order.
- `Groups.Summarize` is a set's size and truncated mean position.
- `Partition.IsGroupListOf(on, groups)` says that `groups` is descending and,
  as a multiset, is the summaries of a partition of the on cells into their
  connected groups.

The finder is proved to return such a list and to leave the grid with every 1
turned into 2.  The lemmas in `Partition` then show three things about any
such list.  Every group has at least one pixel.  The sizes add up to the
number of on cells.  The list is unique, so the answer does not depend on the
order in which groups or cells are visited.  `TestGrids` calls the finder on
the four grids of `src/DfsBinaryGroupFinderTest.java`, and the verifier
proves that each call returns the exact list the test expects.

The flood fill's loop invariant is written in two predicates, `Frontier` and
`Tallied`.  Each is wrapped in an always-true trigger, `Unfold`, and small
lemmas open it.  This keeps each proof obligation small.  The ghost parameter
`on` of `DfsIterative` is the set of cells equal to 1 when it is called.

The documentation of `findConnectedGroups` (`src/DfsBinaryGroupFinder.java:16-19`)
asks for a non-empty rectangular array holding only 0s and 1s, and promises an
`IllegalArgumentException` for any other input.  The code checks none of
this, and the model follows the code:

- Any cell value other than 1 counts as off and is left unchanged.
- A grid with no rows gives the empty list.
- Each visited 1 is overwritten with 2 in the caller's grid, and
  `FindConnectedGroups` states the whole grid afterwards.

The comment in `src/DfsBinaryGroupFinderTest.java:83-86` works the full 3×3
case out as six pixels.  The assertion itself expects `(9,(1,1))`, and that
is what is proved.

## Model

| member | source | states |
|---|---|---|
| DfsBinaryGroupFinder.DfsIterative | src/DfsBinaryGroupFinder.java:89-116 | the three counters are the size, column sum and row sum of exactly the seed's 4-connected group of 1-cells; afterwards the cells of that group hold 2 and every other cell is unchanged; every access is in bounds |
| DfsBinaryGroupFinder.PushNeighbours | src/DfsBinaryGroupFinder.java:106-112 | keeps the stack as a prefix and pushes only in-bounds 1-cells adjacent to the current cell; every in-bounds adjacent 1-cell is pushed |
| DfsBinaryGroupFinder.FrontierVisit | src/DfsBinaryGroupFinder.java:99-112 | painting a popped 1-cell and pushing its on neighbours keeps the traversal invariant: painted and stacked cells lie in the seed's group, and every on neighbour of a painted cell is painted or stacked |
| DfsBinaryGroupFinder.FrontierSkip | src/DfsBinaryGroupFinder.java:95-99 | popping a cell that is no longer 1 keeps the traversal invariant |
| DfsBinaryGroupFinder.FrontierDone | src/DfsBinaryGroupFinder.java:94-114 | when the stack is empty the painted cells are exactly the seed's group |
| DfsBinaryGroupFinder.TallyVisit | src/DfsBinaryGroupFinder.java:100-104 | counting a newly painted cell keeps the counters equal to the size and coordinate sums of the painted cells |
| DfsBinaryGroupFinder.FoundAppend | src/DfsBinaryGroupFinder.java:49-58 | a cell still equal to 1 during the scan starts a group not found before; its group among the remaining 1-cells is its group in the original grid; appending it keeps the found groups a disjoint list of whole groups whose summaries are the list built so far |
| DfsBinaryGroupFinder.DiscoveredAll | src/DfsBinaryGroupFinder.java:46-62 | after the full scan every 1-cell was visited, and the groups found partition the 1-cells into connected groups |
| DfsBinaryGroupFinder.FindConnectedGroups | src/DfsBinaryGroupFinder.java:41-66 | the result is, as a multiset, the summaries of the connected groups of the input's 1-cells, in descending order; afterwards every cell that was 1 holds 2 and every other cell is unchanged |
| Connectivity.DirectionsAreNeighbours | src/DfsBinaryGroupFinder.java:90 | the four offsets reach exactly the edge-sharing neighbours of a cell (no diagonal), and no two of them reach the same cell |
| Connectivity.ComponentRestrict | src/DfsBinaryGroupFinder.java:49-54 | removing whole groups from the on cells leaves the group of any other seed unchanged, so painting earlier groups does not change later ones |
| Connectivity.ComponentOfMember | src/DfsBinaryGroupFinder.java:49-54 | any member of a group has that same group, so groups never overlap partially |
| CellSums.SumAdd | src/DfsBinaryGroupFinder.java:102-104 | adding a cell to the visited set adds its coordinate to the sum, whatever the order of visits |
| Groups.CompareTo | src/DfsBinaryGroupFinder.java:35 | the ranking of groups is zero exactly on equal groups |
| Groups.CompareToKeys | src/DfsBinaryGroupFinderTest.java:40-45 | a group ranks above another exactly when it is larger, or equal in size with larger centroid x, or equal in both with larger centroid y (the key order also noted at line 34 of the same test file) |
| Groups.CompareToIsTotalOrder | src/DfsBinaryGroupFinder.java:35 | the ranking is antisymmetric in sign, transitive and total |
| Groups.Sort | src/DfsBinaryGroupFinder.java:63 | the result is in ascending rank and is a permutation of the input |
| Groups.Reversed | src/DfsBinaryGroupFinder.java:64 | the result holds the input's elements in reverse order and is a permutation of it |
| Groups.ReversedAscending | src/DfsBinaryGroupFinder.java:63-64 | reversing an ascending list gives a descending one |
| Groups.DescendingUnique | src/DfsBinaryGroupFinder.java:35 | two descending lists holding the same groups are equal |
| Groups.Quotient | src/DfsBinaryGroupFinder.java:56 | Java's integer division by a positive divisor: truncates toward zero for either sign of the dividend |
| Groups.Summarize | src/DfsBinaryGroupFinder.java:56-57 | a group's size is its pixel count, which is at least one |
| Groups.CentroidIsTruncatedMean | src/DfsBinaryGroupFinder.java:26-33 | each centroid coordinate is the largest integer whose product with the size does not exceed the coordinate sum |
| Groups.TotalSizePermutation | src/DfsBinaryGroupFinder.java:63-64 | sorting and reversing do not change the total of the sizes |
| Partition.PartitionsAgree | src/DfsBinaryGroupFinder.java:46-62 | two partitions of the same on cells into connected groups hold the same groups |
| Partition.DisjointSizes | src/DfsBinaryGroupFinder.java:46-62 | the sizes of disjoint non-empty groups add up to the size of their union |
| Partition.GroupListMembers | src/DfsBinaryGroupFinder.java:49-57 | every group of a correct result has size at least one and summarises one connected group, so the division is never by zero |
| Partition.GroupListTotal | src/DfsBinaryGroupFinder.java:46-62 | the sizes of a correct result add up to the number of 1-cells |
| Partition.GroupListUnique | src/DfsBinaryGroupFinder.java:35 | a correct result is unique: it does not depend on discovery or traversal order |
| Partition.NoOnCellsNoGroups | src/DfsBinaryGroupFinder.java:46-49 | a grid with no 1-cells has the empty list as its only correct result |
| TestGrids.MultipleGroupsList | src/DfsBinaryGroupFinderTest.java:20-45 | the 4×5 test grid's correct result is (4,(1,0)), (2,(4,0)), (2,(3,3)), (1,(0,3)) |
| TestGrids.MultipleGroupsAndSortsCorrectly | src/DfsBinaryGroupFinderTest.java:18-53 | the finder returns exactly that list on the 4×5 test grid |
| TestGrids.NoGroupsFound | src/DfsBinaryGroupFinderTest.java:58-72 | the finder returns the empty list on the all-zero 3×3 grid |
| TestGrids.SingleLargeList | src/DfsBinaryGroupFinderTest.java:78-87 | the full 3×3 grid's correct result is the single group (9,(1,1)) |
| TestGrids.SingleLargeGroupFound | src/DfsBinaryGroupFinderTest.java:76-95 | the finder returns exactly [(9,(1,1))] on the full 3×3 grid |
| TestGrids.ComplexShapeList | src/DfsBinaryGroupFinderTest.java:102-111 | the U-shaped grid's correct result is the single group (7,(1,1)) |
| TestGrids.ComplexShapeFound | src/DfsBinaryGroupFinderTest.java:100-118 | the finder returns exactly [(7,(1,1))] on the U-shaped grid |

## Left out

- The recursive `dfs` (`src/DfsBinaryGroupFinder.java:68-87`) is never called.  It is not modelled.
- Null handling is not modelled.  A null image or null row makes the Java code throw `NullPointerException`.  Dafny arrays are never null.
- Jagged rows are not modelled.  The code takes every row's width from row 0, and an `array2` is always rectangular.
- Rows that are the same array object are not modelled.  In Java an `int[][]` may hold one row array twice; painting a cell then paints that column in every row sharing the array, so the groups and sizes found differ.  The rows of an `array2` are always distinct cells.
- The `IllegalArgumentException` promised in the method's documentation is not modelled.  No code throws it.
- Java `int` overflow of the size and coordinate sums is not modelled.  Counters and sums are unbounded integers.
- The `HashMap<String, Integer>` keyed by "size", "maxX" and "maxY" is not modelled as a map.  It becomes three counters returned by the flood fill.
- The source of `Group`, `Coordinate` and `Group.compareTo` is not among the modelled files.  They are defined here as datatypes.  The key order (size, then centroid x, then centroid y) comes from `src/DfsBinaryGroupFinderTest.java:34` and `src/DfsBinaryGroupFinderTest.java:40-45`.
- `Groups.Sort`: stability of `Collections.sort` is not stated.  It cannot matter, because groups of equal rank are equal values.
- `DfsBinaryGroupFinder.FindConnectedGroups`: its `ensures` does not repeat "every size is at least one" and "the sizes add up to the number of 1-cells".  They follow from its result being a correct list, through `Partition.GroupListMembers` and `Partition.GroupListTotal`.
- The binarizer, the colour distance and their tests are not part of this model.  They are outside the group finder and rest on floating point and `BufferedImage`.
