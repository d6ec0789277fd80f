/**
 * The connected-group finder.  The image is a rectangular grid of ints whose
 * cells equal to 1 are "on"; every other value is "off".  The scan walks the
 * grid in row-major order and, at each cell still equal to 1, runs a
 * stack-driven flood fill that overwrites the cells of that cell's group with
 * 2 while counting them and adding up their columns and rows.  Each group
 * becomes a Group of its size and truncated centroid, and the list is sorted
 * and then reversed into descending order.
 */
module DfsBinaryGroupFinder {
  import opened Connectivity
  import opened CellSums
  import opened Groups
  import opened Partition

  /** `p` names a cell of the image: its row is below Length0 and its column below Length1. */
  predicate InImage(image: array2<int>, p: Coordinate) {
    0 <= p.y < image.Length0 && 0 <= p.x < image.Length1
  }

  /** The cell `p` lies in the image and currently equals 1. */
  predicate IsOn(image: array2<int>, p: Coordinate)
    reads image
  {
    InImage(image, p) && image[p.y, p.x] == 1
  }

  /** The cells of the image currently equal to 1. */
  ghost function OnCells(image: array2<int>): (on: set<Coordinate>)
    reads image
    ensures forall p :: p in on <==> IsOn(image, p)
  {
    set r, c | 0 <= r < image.Length0 && 0 <= c < image.Length1 && image[r, c] == 1 :: Coordinate(c, r)
  }

  /**
   * A trigger that always holds.  A predicate written
   * `forall k {:trigger Unfold(k)} :: Unfold(k) ==> P` is equivalent to `P`,
   * but the solver looks inside it only where a proof mentions `Unfold`: the
   * flood fill's loop carries its bookkeeping in this form and the lemmas
   * below open it, which keeps the loop's own proof small.
   */
  predicate Unfold(k: int) { true }

  /**
   * The traversal's bookkeeping: every cell painted so far and every cell
   * on the stack belongs to the group of `point`, and each on neighbour of a
   * painted cell is painted or waiting on the stack.
   */
  ghost predicate Explored(on: set<Coordinate>, point: Coordinate, marked: set<Coordinate>, stack: seq<Coordinate>) {
    && marked <= Component(on, point)
    && (forall i :: 0 <= i < |stack| ==> stack[i] == point || stack[i] in Component(on, point))
    && (forall a, b {:trigger Adjacent(a, b)} :: a in marked && b in on && Adjacent(a, b) ==> b in marked || b in stack)
    && (point in on ==> point in marked || point in stack)
  }

  /** Explored, behind the Unfold trigger. */
  ghost predicate Frontier(on: set<Coordinate>, point: Coordinate, marked: set<Coordinate>, stack: seq<Coordinate>) {
    forall k {:trigger Unfold(k)} :: Unfold(k) ==> Explored(on, point, marked, stack)
  }

  /** The counters are the size and coordinate sums of the painted cells, behind the Unfold trigger. */
  ghost predicate Tallied(marked: set<Coordinate>, size: int, sumX: int, sumY: int) {
    forall k {:trigger Unfold(k)} :: Unfold(k) ==> size == |marked| && sumX == Sum(marked, X) && sumY == Sum(marked, Y)
  }

  /** Painted cells and stacked cells other than the seed are on cells. */
  lemma FrontierCells(on: set<Coordinate>, point: Coordinate, marked: set<Coordinate>, stack: seq<Coordinate>)
    requires Frontier(on, point, marked, stack)
    ensures marked <= on
    ensures forall i :: 0 <= i < |stack| ==> stack[i] == point || stack[i] in on
  {
    assert Unfold(0);
  }

  /** Once the stack is empty the painted cells are exactly the group of `point`. */
  lemma FrontierDone(on: set<Coordinate>, point: Coordinate, marked: set<Coordinate>)
    requires Frontier(on, point, marked, [])
    ensures marked == Component(on, point)
  {
    assert Unfold(0);
    if point in on {
      ComponentWithin(on, point, marked);
    }
  }

  /** Painting one more cell adds one to the size and its column and row to the sums. */
  lemma TallyVisit(marked: set<Coordinate>, size: int, sumX: int, sumY: int, cur: Coordinate)
    requires Tallied(marked, size, sumX, sumY) && cur !in marked
    ensures Tallied(marked + {cur}, size + 1, sumX + cur.x, sumY + cur.y)
  {
    assert Unfold(0);
    SumAdd(marked, cur, X);
    SumAdd(marked, cur, Y);
  }

  lemma TallyDone(marked: set<Coordinate>, size: int, sumX: int, sumY: int)
    requires Tallied(marked, size, sumX, sumY)
    ensures size == |marked| && sumX == Sum(marked, X) && sumY == Sum(marked, Y)
  {
    assert Unfold(0);
  }

  /** Popping a cell that is off or already painted keeps the bookkeeping. */
  lemma FrontierSkip(on: set<Coordinate>, point: Coordinate, marked: set<Coordinate>,
                     rest: seq<Coordinate>, cur: Coordinate)
    requires Frontier(on, point, marked, rest + [cur])
    requires cur in on ==> cur in marked
    ensures Frontier(on, point, marked, rest)
  {
    assert Unfold(0);
    var stack := rest + [cur];
    forall i | 0 <= i < |rest|
      ensures rest[i] == point || rest[i] in Component(on, point)
    {
      assert rest[i] == stack[i];
    }
    forall a, b | a in marked && b in on && Adjacent(a, b)
      ensures b in marked || b in rest
    {
      if b !in marked {
        assert b in stack && b != cur;
      }
    }
    assert point in on ==> point in marked || point in rest;
  }

  /**
   * Painting the popped cell `cur` and pushing its unpainted on neighbours
   * keeps the bookkeeping.
   */
  lemma FrontierVisit(on: set<Coordinate>, point: Coordinate, marked: set<Coordinate>,
                      rest: seq<Coordinate>, cur: Coordinate, stack: seq<Coordinate>)
    requires Frontier(on, point, marked, rest + [cur])
    requires cur in on && cur !in marked
    requires rest <= stack
    requires forall i :: |rest| <= i < |stack| ==> stack[i] in on && Adjacent(cur, stack[i])
    requires forall b :: b in on && b !in marked && b != cur && Adjacent(cur, b) ==> b in stack
    ensures cur in Component(on, point)
    ensures Frontier(on, point, marked + {cur}, stack)
  {
    assert Unfold(0);
    var before := rest + [cur];
    assert before[|rest|] == cur;
    if cur == point {
      ComponentSeed(on, point);
    }
    forall i | 0 <= i < |stack|
      ensures stack[i] == point || stack[i] in Component(on, point)
    {
      if i < |rest| {
        assert stack[i] == before[i];
      } else {
        ComponentStep(on, point, cur, stack[i]);
      }
    }
    forall a, b | a in marked + {cur} && b in on && Adjacent(a, b)
      ensures b in marked + {cur} || b in stack
    {
      if b !in marked + {cur} && a != cur {
        assert b in before;
        assert b in rest;
      }
    }
    if point in on && point !in marked && point != cur {
      assert point in before;
      assert point in rest;
    }
  }

  lemma SubsetSize(a: set<Coordinate>, b: set<Coordinate>)
    requires a <= b
    ensures |a| <= |b|
  {
    assert b == a + (b - a);
  }

  /**
   * Flood-fills the group of `point` with 2, using an explicit stack of
   * coordinates and the four direction offsets.  The counters are the number
   * of cells of the group and the sums of their columns and of their rows; a
   * point that is not 1 leaves everything as it was and counts nothing.
   * The ghost parameter `on` names the image's on cells at the call.
   */
  method DfsIterative(image: array2<int>, point: Coordinate, ghost on: set<Coordinate>) returns (size: int, sumX: int, sumY: int)
    requires InImage(image, point)
    requires forall p :: p in on <==> IsOn(image, p)
    modifies image
    ensures var group := Component(on, point);
      && size == |group|
      && sumX == Sum(group, X)
      && sumY == Sum(group, Y)
    ensures forall r, c {:trigger image[r, c]} :: 0 <= r < image.Length0 && 0 <= c < image.Length1 ==>
      image[r, c] == if Coordinate(c, r) in Component(on, point) then 2 else old(image[r, c])
  {
    ghost var marked: set<Coordinate> := {};
    ComponentSeed(on, point);
    assert Unfold(0);
    size, sumX, sumY := 0, 0, 0;
    var stack := [point];
    while stack != []
      invariant forall r, c {:trigger image[r, c]} :: 0 <= r < image.Length0 && 0 <= c < image.Length1 ==>
        image[r, c] == if Coordinate(c, r) in marked then 2 else old(image[r, c])
      invariant Frontier(on, point, marked, stack)
      invariant Tallied(marked, size, sumX, sumY)
      invariant |marked| <= |on|
      decreases |on| - |marked|, |stack|
    {
      ghost var popped := stack;
      FrontierCells(on, point, marked, stack);
      var cur := stack[|stack| - 1];
      stack := stack[..|stack| - 1];
      assert popped == stack + [cur];
      var r, c := cur.y, cur.x;
      assert cur == Coordinate(c, r);
      if image[r, c] != 1 {
        FrontierSkip(on, point, marked, stack, cur);
        continue;
      }
      ghost var markedBefore := marked;
      image[r, c] := 2;
      TallyVisit(marked, size, sumX, sumY, cur);
      marked := marked + {cur};
      SubsetSize(marked, on);
      size := size + 1;
      sumX := sumX + c;
      sumY := sumY + r;
      ghost var rest := stack;
      stack := PushNeighbours(image, cur, stack);
      assert forall b :: IsOn(image, b) <==> b in on && b !in marked;
      FrontierVisit(on, point, markedBefore, rest, cur, stack);
    }
    FrontierDone(on, point, marked);
    TallyDone(marked, size, sumX, sumY);
  }

  /**
   * The inner loop of the traversal: walks the direction table and pushes
   * each of the four neighbours of `cur` that lies in the image and equals 1.
   */
  method PushNeighbours(image: array2<int>, cur: Coordinate, stack: seq<Coordinate>) returns (pushed: seq<Coordinate>)
    ensures stack <= pushed
    ensures forall i :: |stack| <= i < |pushed| ==> IsOn(image, pushed[i]) && Adjacent(cur, pushed[i])
    ensures forall b :: IsOn(image, b) && Adjacent(cur, b) ==> b in pushed[|stack|..]
  {
    pushed := stack;
    var r, c := cur.y, cur.x;
    for k := 0 to |Directions|
      invariant stack <= pushed
      invariant forall i :: |stack| <= i < |pushed| ==> IsOn(image, pushed[i]) && Adjacent(cur, pushed[i])
      invariant forall j :: 0 <= j < k && IsOn(image, Step(cur, Directions[j])) ==>
        Step(cur, Directions[j]) in pushed[|stack|..]
    {
      var newR := r + Directions[k].0;
      var newC := c + Directions[k].1;
      assert Coordinate(newC, newR) == Step(cur, Directions[k]);
      if newR >= 0 && newR < image.Length0 && newC >= 0 && newC < image.Length1 && image[newR, newC] == 1 {
        var next := Coordinate(newC, newR);
        DirectionsAreNeighbours(cur, next);
        ghost var before := pushed;
        pushed := pushed + [next];
        assert pushed[|stack|..] == before[|stack|..] + [next];
      }
    }
    forall b | IsOn(image, b) && Adjacent(cur, b)
      ensures b in pushed[|stack|..]
    {
      DirectionsAreNeighbours(cur, b);
    }
  }

  /** The scan's bookkeeping: the groups found so far are the summaries of whole, disjoint groups. */
  ghost predicate Found(on: set<Coordinate>, parts: seq<set<Coordinate>>, marked: set<Coordinate>, groups: seq<Group>) {
    && (forall i :: 0 <= i < |parts| ==> parts[i] != {} && IsComponentOf(on, parts[i]))
    && (forall i, j :: 0 <= i < j < |parts| ==> parts[i] !! parts[j])
    && Union(parts) == marked
    && marked <= on
    && Closed(on, marked)
    && groups == Summaries(parts)
  }

  /** Found, behind the Unfold trigger. */
  ghost predicate Discovered(on: set<Coordinate>, parts: seq<set<Coordinate>>, marked: set<Coordinate>, groups: seq<Group>) {
    forall k {:trigger Unfold(k)} :: Unfold(k) ==> Found(on, parts, marked, groups)
  }

  /** The group of an on cell outside a closed set lies outside it and is the same group in what is left. */
  lemma GroupOutside(on: set<Coordinate>, marked: set<Coordinate>, seed: Coordinate)
    requires marked <= on && Closed(on, marked)
    requires seed in on && seed !in marked
    ensures seed in Component(on, seed) && Component(on, seed) !! marked
    ensures Component(on - marked, seed) == Component(on, seed)
    ensures IsComponentOf(on, Component(on, seed))
    ensures Closed(on, marked + Component(on, seed))
  {
    ComponentSeed(on, seed);
    ComponentClosed(on, seed);
    ComponentRestrict(on, marked, seed);
    ClosedUnion(on, marked, Component(on, seed));
  }

  /** Appending a group disjoint from the union of disjoint groups keeps them disjoint. */
  lemma PartsAppend(on: set<Coordinate>, parts: seq<set<Coordinate>>, part: set<Coordinate>)
    requires forall i :: 0 <= i < |parts| ==> parts[i] != {} && IsComponentOf(on, parts[i])
    requires forall i, j :: 0 <= i < j < |parts| ==> parts[i] !! parts[j]
    requires part != {} && IsComponentOf(on, part) && part !! Union(parts)
    ensures forall i :: 0 <= i < |parts + [part]| ==> (parts + [part])[i] != {} && IsComponentOf(on, (parts + [part])[i])
    ensures forall i, j :: 0 <= i < j < |parts + [part]| ==> (parts + [part])[i] !! (parts + [part])[j]
    ensures Union(parts + [part]) == Union(parts) + part
  {
    forall i | 0 <= i < |parts|
      ensures parts[i] !! part
    {
      forall c | c in parts[i]
        ensures c in Union(parts)
      {
        InUnion(parts, c);
      }
    }
    UnionAppend(parts, part);
  }

  /** Appending a whole group that is disjoint from those already found keeps the bookkeeping. */
  lemma FoundAppend(on: set<Coordinate>, parts: seq<set<Coordinate>>, marked: set<Coordinate>,
                    groups: seq<Group>, seed: Coordinate)
    requires Found(on, parts, marked, groups)
    requires seed in on && seed !in marked
    ensures seed in Component(on, seed)
    ensures Component(on - marked, seed) == Component(on, seed)
    ensures Found(on, parts + [Component(on, seed)], marked + Component(on, seed),
                  groups + [Summarize(Component(on, seed))])
  {
    var part := Component(on, seed);
    GroupOutside(on, marked, seed);
    PartsAppend(on, parts, part);
    SummariesAppend(parts, [part]);
    assert Summaries([part]) == [Summarize(part)];
  }

  /** FoundAppend, for the bookkeeping behind the Unfold trigger. */
  lemma DiscoveredAppend(on: set<Coordinate>, parts: seq<set<Coordinate>>, marked: set<Coordinate>,
                         groups: seq<Group>, seed: Coordinate)
    requires Discovered(on, parts, marked, groups)
    requires seed in on && seed !in marked
    ensures seed in Component(on, seed)
    ensures Component(on - marked, seed) == Component(on, seed)
    ensures Discovered(on, parts + [Component(on, seed)], marked + Component(on, seed),
                       groups + [Summarize(Component(on, seed))])
  {
    assert Unfold(0);
    FoundAppend(on, parts, marked, groups, seed);
  }

  /** Once every on cell has been reached, the groups found partition the on cells. */
  lemma DiscoveredAll(on: set<Coordinate>, parts: seq<set<Coordinate>>, marked: set<Coordinate>, found: seq<Group>)
    requires Discovered(on, parts, marked, found)
    requires forall p :: p in on ==> p in marked
    ensures marked == on
    ensures ComponentPartition(on, parts) && found == Summaries(parts)
  {
    assert Unfold(0);
  }

  /**
   * Finds every 4-connected group of cells equal to 1 and returns their
   * summaries in descending order.  Afterwards every cell that was 1 holds 2
   * and every other cell is unchanged.
   */
  method FindConnectedGroups(image: array2<int>) returns (groupList: seq<Group>)
    modifies image
    ensures IsGroupListOf(old(OnCells(image)), groupList)
    ensures forall r, c {:trigger image[r, c]} :: 0 <= r < image.Length0 && 0 <= c < image.Length1 ==>
      image[r, c] == if old(image[r, c]) == 1 then 2 else old(image[r, c])
  {
    ghost var on := OnCells(image);
    ghost var parts: seq<set<Coordinate>> := [];
    ghost var marked: set<Coordinate> := {};
    groupList := [];
    for r := 0 to image.Length0
      invariant forall i, j {:trigger image[i, j]} :: 0 <= i < image.Length0 && 0 <= j < image.Length1 ==>
        image[i, j] == if Coordinate(j, i) in marked then 2 else old(image[i, j])
      invariant forall p :: p in on && p.y < r ==> p in marked
      invariant Discovered(on, parts, marked, groupList)
    {
      for c := 0 to image.Length1
        invariant forall i, j {:trigger image[i, j]} :: 0 <= i < image.Length0 && 0 <= j < image.Length1 ==>
          image[i, j] == if Coordinate(j, i) in marked then 2 else old(image[i, j])
        invariant forall p :: p in on && (p.y < r || (p.y == r && p.x < c)) ==> p in marked
        invariant Discovered(on, parts, marked, groupList)
      {
        ghost var seed := Coordinate(c, r);
        if image[r, c] == 1 {
          assert forall p :: p in on - marked <==> IsOn(image, p);
          DiscoveredAppend(on, parts, marked, groupList, seed);
          ghost var group := Component(on, seed);
          var size, sumX, sumY := DfsIterative(image, Coordinate(c, r), on - marked);
          var centroid := Coordinate(Quotient(sumX, size), Quotient(sumY, size));
          var island := Group(size, centroid);
          groupList := groupList + [island];
          parts := parts + [group];
          marked := marked + group;
        } else {
          assert seed in on ==> seed in marked;
        }
      }
    }
    assert forall p :: p in on ==> p in marked;
    DiscoveredAll(on, parts, marked, groupList);
    groupList := Sort(groupList);
    ReversedAscending(groupList);
    groupList := Reversed(groupList);
    assert multiset(groupList) == multiset(Summaries(parts));
  }
}
