/**
 * The grids of the finder's own unit tests, with the answers those tests
 * expect.  Each answer is proved to be the one correct group list for its
 * grid, and the finder, called on the grid, is proved to return exactly it.
 */
module TestGrids {
  import opened Connectivity
  import opened CellSums
  import opened Groups
  import opened Partition
  import opened DfsBinaryGroupFinder

  /** No cell is visited twice. */
  predicate Distinct(p: seq<Coordinate>) {
    forall i, j :: 0 <= i < j < |p| ==> p[i] != p[j]
  }

  /** A walk through on cells that visits exactly a closed set visits exactly the group of its first cell. */
  lemma WalkComponent(on: set<Coordinate>, p: seq<Coordinate>, s: set<Coordinate>)
    requires IsPath(on, p) && Closed(on, s)
    requires forall x :: x in s <==> x in p
    ensures Component(on, p[0]) == s
  {
    ComponentWithin(on, p[0], s);
    forall x | x in s
      ensures x in Component(on, p[0])
    {
      var i :| 0 <= i < |p| && p[i] == x;
      var q := p[..i + 1];
      assert IsPath(on, q) && q[0] == p[0] && q[|q| - 1] == x;
    }
  }

  /** One coordinate added up along a walk from its `i`-th cell on. */
  function WalkSum(p: seq<Coordinate>, axis: Axis, i: nat): int
    requires i <= |p|
    decreases |p| - i
  {
    if i == |p| then 0 else Along(p[i], axis) + WalkSum(p, axis, i + 1)
  }

  /** Taking the first remaining cell off the set of a walk's remaining cells leaves the cells after it. */
  lemma WalkRest(p: seq<Coordinate>, s: set<Coordinate>, i: nat)
    requires Distinct(p) && i < |p|
    requires forall x :: x in s <==> x in p[i..]
    ensures p[i] in s
    ensures forall x :: x in s - {p[i]} <==> x in p[i + 1..]
  {
    assert p[i..] == [p[i]] + p[i + 1..];
    assert p[i] !in p[i + 1..] by {
      assert forall j :: i + 1 <= j < |p| ==> p[j] != p[i];
    }
  }

  /** A walk without repeats covers as many cells as it has, and their sums are the walk's sums. */
  lemma {:induction false} WalkCells(p: seq<Coordinate>, s: set<Coordinate>, i: nat)
    requires Distinct(p) && i <= |p|
    requires forall x :: x in s <==> x in p[i..]
    ensures |s| == |p| - i
    ensures Sum(s, X) == WalkSum(p, X, i) && Sum(s, Y) == WalkSum(p, Y, i)
    decreases |p| - i
  {
    if i == |p| {
      assert s == {};
    } else {
      var rest := s - {p[i]};
      WalkRest(p, s, i);
      WalkCells(p, rest, i + 1);
      assert s == rest + {p[i]};
      SumAdd(rest, p[i], X);
      SumAdd(rest, p[i], Y);
    }
  }

  /** The summary of the cells of a walk without repeats: its length and the truncated means of its sums. */
  lemma WalkSummary(p: seq<Coordinate>, s: set<Coordinate>)
    requires p != [] && Distinct(p)
    requires forall x :: x in s <==> x in p
    ensures s != {}
    ensures Summarize(s) == Group(|p|, Coordinate(Quotient(WalkSum(p, X, 0), |p|), Quotient(WalkSum(p, Y, 0), |p|)))
  {
    assert p[0..] == p;
    WalkCells(p, s, 0);
    assert p[0] in s;
  }

  /** When the whole on set is one group, the list of its summary alone is the correct result. */
  lemma OneGroupList(on: set<Coordinate>, seed: Coordinate, g: Group)
    requires seed in on && Component(on, seed) == on
    requires Summarize(on) == g
    ensures IsGroupListOf(on, [g])
  {
    var parts := [on];
    assert IsComponentOf(on, parts[0]);
    assert Union(parts) == on by {
      UnionAppend([], on);
      assert parts == [] + [on];
    }
    assert Summaries(parts) == [g];
    assert ComponentPartition(on, parts);
  }

  /** Allocates an image holding the rows of a rectangular int[][] literal. */
  method FromRows(rows: seq<seq<int>>) returns (image: array2<int>)
    requires |rows| > 0 && forall i :: 0 <= i < |rows| ==> |rows[i]| == |rows[0]|
    ensures fresh(image) && image.Length0 == |rows| && image.Length1 == |rows[0]|
    ensures forall r, c :: 0 <= r < |rows| && 0 <= c < |rows[0]| ==> image[r, c] == rows[r][c]
  {
    image := new int[|rows|, |rows[0]|]((r, c) requires 0 <= r < |rows| && 0 <= c < |rows[0]| => rows[r][c]);
  }

  // ---------------------------------------------------------------------
  // Four groups, sorted by size, then x, then y, all descending.

  const MultipleGroupsRows: seq<seq<int>> := [
    [1, 1, 0, 0, 1],
    [0, 1, 1, 0, 1],
    [0, 0, 0, 0, 0],
    [1, 0, 0, 1, 1]
  ]

  const MultipleGroupsExpected: seq<Group> := [
    Group(4, Coordinate(1, 0)),
    Group(2, Coordinate(4, 0)),
    Group(2, Coordinate(3, 3)),
    Group(1, Coordinate(0, 3))
  ]

  const TopLeft: seq<Coordinate> := [Coordinate(0, 0), Coordinate(1, 0), Coordinate(1, 1), Coordinate(2, 1)]
  const TopRight: seq<Coordinate> := [Coordinate(4, 0), Coordinate(4, 1)]
  const BottomRight: seq<Coordinate> := [Coordinate(3, 3), Coordinate(4, 3)]
  const BottomLeft: seq<Coordinate> := [Coordinate(0, 3)]

  const TopLeftCells: set<Coordinate> := {Coordinate(0, 0), Coordinate(1, 0), Coordinate(1, 1), Coordinate(2, 1)}
  const TopRightCells: set<Coordinate> := {Coordinate(4, 0), Coordinate(4, 1)}
  const BottomRightCells: set<Coordinate> := {Coordinate(3, 3), Coordinate(4, 3)}
  const BottomLeftCells: set<Coordinate> := {Coordinate(0, 3)}

  const MultipleGroupsOn: set<Coordinate> := TopLeftCells + TopRightCells + BottomRightCells + BottomLeftCells
  const MultipleGroupsParts: seq<set<Coordinate>> := [TopLeftCells, TopRightCells, BottomRightCells, BottomLeftCells]

  /** Each walk of the four-group grid covers one whole group; its summary is the expected entry. */
  lemma TopLeftGroup()
    ensures Component(MultipleGroupsOn, TopLeft[0]) == TopLeftCells
  {
    WalkComponent(MultipleGroupsOn, TopLeft, TopLeftCells);
  }

  lemma TopLeftSummary()
    ensures TopLeftCells != {} && Summarize(TopLeftCells) == MultipleGroupsExpected[0]
  {
    WalkSummary(TopLeft, TopLeftCells);
  }

  lemma TopRightGroup()
    ensures Component(MultipleGroupsOn, TopRight[0]) == TopRightCells
  {
    WalkComponent(MultipleGroupsOn, TopRight, TopRightCells);
  }

  lemma TopRightSummary()
    ensures TopRightCells != {} && Summarize(TopRightCells) == MultipleGroupsExpected[1]
  {
    WalkSummary(TopRight, TopRightCells);
  }

  lemma BottomRightGroup()
    ensures Component(MultipleGroupsOn, BottomRight[0]) == BottomRightCells
  {
    WalkComponent(MultipleGroupsOn, BottomRight, BottomRightCells);
  }

  lemma BottomRightSummary()
    ensures BottomRightCells != {} && Summarize(BottomRightCells) == MultipleGroupsExpected[2]
  {
    WalkSummary(BottomRight, BottomRightCells);
  }

  lemma BottomLeftGroup()
    ensures Component(MultipleGroupsOn, BottomLeft[0]) == BottomLeftCells
  {
    WalkComponent(MultipleGroupsOn, BottomLeft, BottomLeftCells);
  }

  lemma BottomLeftSummary()
    ensures BottomLeftCells != {} && Summarize(BottomLeftCells) == MultipleGroupsExpected[3]
  {
    WalkSummary(BottomLeft, BottomLeftCells);
  }

  /** Each of the four parts is a connected group of the grid. */
  lemma MultipleGroupsComponents()
    ensures forall i :: 0 <= i < |MultipleGroupsParts| ==> IsComponentOf(MultipleGroupsOn, MultipleGroupsParts[i])
  {
    var on, parts := MultipleGroupsOn, MultipleGroupsParts;
    TopLeftGroup();
    TopRightGroup();
    BottomRightGroup();
    BottomLeftGroup();
    assert IsComponentOf(on, parts[0]) && IsComponentOf(on, parts[1]);
    assert IsComponentOf(on, parts[2]) && IsComponentOf(on, parts[3]);
  }

  /** The four parts are non-empty, pairwise disjoint and together hold every on cell. */
  lemma MultipleGroupsCover()
    ensures forall i :: 0 <= i < |MultipleGroupsParts| ==> MultipleGroupsParts[i] != {}
    ensures forall i, j :: 0 <= i < j < |MultipleGroupsParts| ==> MultipleGroupsParts[i] !! MultipleGroupsParts[j]
    ensures Union(MultipleGroupsParts) == MultipleGroupsOn
  {
    var parts := MultipleGroupsParts;
    UnionAppend([], TopLeftCells);
    UnionAppend([TopLeftCells], TopRightCells);
    UnionAppend([TopLeftCells, TopRightCells], BottomRightCells);
    UnionAppend([TopLeftCells, TopRightCells, BottomRightCells], BottomLeftCells);
    assert parts == [TopLeftCells, TopRightCells, BottomRightCells] + [BottomLeftCells];
    assert [TopLeftCells, TopRightCells, BottomRightCells] == [TopLeftCells, TopRightCells] + [BottomRightCells];
    assert [TopLeftCells, TopRightCells] == [TopLeftCells] + [TopRightCells];
    assert [TopLeftCells] == [] + [TopLeftCells];
  }

  /** The four walks split the grid's on cells into its connected groups. */
  lemma MultipleGroupsPartition()
    ensures ComponentPartition(MultipleGroupsOn, MultipleGroupsParts)
  {
    MultipleGroupsComponents();
    MultipleGroupsCover();
  }

  /** The summaries of the four groups, in walk order, are the list the test expects. */
  lemma MultipleGroupsSummaries()
    ensures forall i :: 0 <= i < |MultipleGroupsParts| ==> MultipleGroupsParts[i] != {}
    ensures Summaries(MultipleGroupsParts) == MultipleGroupsExpected
  {
    TopLeftSummary();
    TopRightSummary();
    BottomRightSummary();
    BottomLeftSummary();
  }

  /** The expected list of the four-group test is in descending order. */
  lemma MultipleGroupsDescending()
    ensures Descending(MultipleGroupsExpected)
  {
  }

  /** The expected list of the four-group test is the correct result for its grid. */
  lemma MultipleGroupsList()
    ensures IsGroupListOf(MultipleGroupsOn, MultipleGroupsExpected)
  {
    MultipleGroupsPartition();
    MultipleGroupsSummaries();
    MultipleGroupsDescending();
  }

  /** Calls the finder on the four-group grid; the verifier proves it returns the list the test expects. */
  method MultipleGroupsAndSortsCorrectly() returns (groups: seq<Group>)
    ensures groups == MultipleGroupsExpected
  {
    var image := FromRows(MultipleGroupsRows);
    assert OnCells(image) == MultipleGroupsOn by {
      forall p | IsOn(image, p)
        ensures p in MultipleGroupsOn
      {
        assert p.y == 0 || p.y == 1 || p.y == 2 || p.y == 3;
      }
    }
    groups := FindConnectedGroups(image);
    MultipleGroupsList();
    GroupListUnique(MultipleGroupsOn, groups, MultipleGroupsExpected);
  }

  // ---------------------------------------------------------------------
  // No on cells at all.

  const NoGroupsRows: seq<seq<int>> := [
    [0, 0, 0],
    [0, 0, 0],
    [0, 0, 0]
  ]

  /** Calls the finder on an all-zero grid; the verifier proves it returns the empty list. */
  method NoGroupsFound() returns (groups: seq<Group>)
    ensures groups == []
  {
    var image := FromRows(NoGroupsRows);
    assert OnCells(image) == {} by {
      forall p | InImage(image, p)
        ensures !IsOn(image, p)
      {
        assert p.y == 0 || p.y == 1 || p.y == 2;
      }
    }
    groups := FindConnectedGroups(image);
    NoOnCellsNoGroups({}, groups);
  }

  // ---------------------------------------------------------------------
  // One group that fills the whole grid.

  const SingleLargeRows: seq<seq<int>> := [
    [1, 1, 1],
    [1, 1, 1],
    [1, 1, 1]
  ]

  /** A walk that snakes through every cell of the 3 by 3 grid. */
  const Snake: seq<Coordinate> := [
    Coordinate(0, 0), Coordinate(1, 0), Coordinate(2, 0),
    Coordinate(2, 1), Coordinate(1, 1), Coordinate(0, 1),
    Coordinate(0, 2), Coordinate(1, 2), Coordinate(2, 2)
  ]

  const SingleLargeOn: set<Coordinate> := {
    Coordinate(0, 0), Coordinate(1, 0), Coordinate(2, 0),
    Coordinate(0, 1), Coordinate(1, 1), Coordinate(2, 1),
    Coordinate(0, 2), Coordinate(1, 2), Coordinate(2, 2)
  }

  /** The walk visits every on cell of the grid once. */
  lemma SnakeCells()
    ensures Distinct(Snake)
    ensures forall x :: x in SingleLargeOn <==> x in Snake
  {
  }

  lemma SnakeSums()
    ensures WalkSum(Snake, X, 0) == 9 && WalkSum(Snake, Y, 0) == 9
  {
  }

  const SingleLargeExpected: seq<Group> := [Group(9, Coordinate(1, 1))]

  /** The whole grid is one group. */
  lemma SingleLargeGroup()
    ensures Component(SingleLargeOn, Snake[0]) == SingleLargeOn
  {
    SnakeCells();
    WalkComponent(SingleLargeOn, Snake, SingleLargeOn);
  }

  /** Nine cells with column and row sums 9 give the centroid (1, 1). */
  lemma SingleLargeSummary()
    ensures SingleLargeOn != {} && Summarize(SingleLargeOn) == SingleLargeExpected[0]
  {
    SnakeCells();
    SnakeSums();
    WalkSummary(Snake, SingleLargeOn);
  }

  /** The expected list of the single-group test is the correct result for its grid. */
  lemma SingleLargeList()
    ensures IsGroupListOf(SingleLargeOn, SingleLargeExpected)
  {
    SingleLargeGroup();
    SingleLargeSummary();
    OneGroupList(SingleLargeOn, Snake[0], SingleLargeExpected[0]);
  }

  /** Calls the finder on the full grid; the verifier proves it returns the single group the test expects. */
  method SingleLargeGroupFound() returns (groups: seq<Group>)
    ensures groups == SingleLargeExpected
  {
    var image := FromRows(SingleLargeRows);
    assert OnCells(image) == SingleLargeOn by {
      forall p | IsOn(image, p)
        ensures p in SingleLargeOn
      {
        assert p.y == 0 || p.y == 1 || p.y == 2;
      }
    }
    groups := FindConnectedGroups(image);
    SingleLargeList();
    GroupListUnique(SingleLargeOn, groups, SingleLargeExpected);
  }

  // ---------------------------------------------------------------------
  // One U-shaped group: the two arms join only through the bottom row.

  const ComplexShapeRows: seq<seq<int>> := [
    [1, 0, 1],
    [1, 0, 1],
    [1, 1, 1]
  ]

  /** A walk down the left arm, along the bottom and up the right arm. */
  const UWalk: seq<Coordinate> := [
    Coordinate(0, 0), Coordinate(0, 1), Coordinate(0, 2), Coordinate(1, 2),
    Coordinate(2, 2), Coordinate(2, 1), Coordinate(2, 0)
  ]

  const ComplexShapeOn: set<Coordinate> := {
    Coordinate(0, 0), Coordinate(2, 0),
    Coordinate(0, 1), Coordinate(2, 1),
    Coordinate(0, 2), Coordinate(1, 2), Coordinate(2, 2)
  }

  /** The walk visits every on cell of the grid once. */
  lemma UWalkCells()
    ensures Distinct(UWalk)
    ensures forall x :: x in ComplexShapeOn <==> x in UWalk
  {
  }

  lemma UWalkSums()
    ensures WalkSum(UWalk, X, 0) == 7 && WalkSum(UWalk, Y, 0) == 8
  {
  }

  const ComplexShapeExpected: seq<Group> := [Group(7, Coordinate(1, 1))]

  /** The U shape is one group. */
  lemma ComplexShapeGroup()
    ensures Component(ComplexShapeOn, UWalk[0]) == ComplexShapeOn
  {
    UWalkCells();
    WalkComponent(ComplexShapeOn, UWalk, ComplexShapeOn);
  }

  /** Seven cells with column sum 7 and row sum 8 give the centroid (1, 1): 8 / 7 truncates to 1. */
  lemma ComplexShapeSummary()
    ensures ComplexShapeOn != {} && Summarize(ComplexShapeOn) == ComplexShapeExpected[0]
  {
    UWalkCells();
    UWalkSums();
    WalkSummary(UWalk, ComplexShapeOn);
  }

  /** The expected list of the U-shape test is the correct result for its grid. */
  lemma ComplexShapeList()
    ensures IsGroupListOf(ComplexShapeOn, ComplexShapeExpected)
  {
    ComplexShapeGroup();
    ComplexShapeSummary();
    OneGroupList(ComplexShapeOn, UWalk[0], ComplexShapeExpected[0]);
  }

  /** Calls the finder on the U-shaped grid; the verifier proves it returns the single group the test expects. */
  method ComplexShapeFound() returns (groups: seq<Group>)
    ensures groups == ComplexShapeExpected
  {
    var image := FromRows(ComplexShapeRows);
    assert OnCells(image) == ComplexShapeOn by {
      forall p | IsOn(image, p)
        ensures p in ComplexShapeOn
      {
        assert p.y == 0 || p.y == 1 || p.y == 2;
      }
    }
    groups := FindConnectedGroups(image);
    ComplexShapeList();
    GroupListUnique(ComplexShapeOn, groups, ComplexShapeExpected);
  }
}
