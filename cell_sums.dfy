/**
 * Coordinate sums over a set of cells: the "sum of x" and "sum of y" counters
 * that the traversal accumulates, stated independently of visiting order.
 */
module CellSums {
  import opened Connectivity

  /** Which coordinate a sum adds up. */
  datatype Axis = X | Y

  function Along(c: Coordinate, axis: Axis): int {
    match axis
    case X => c.x
    case Y => c.y
  }

  /** The sum of one coordinate over every cell of `s`, in no particular order. */
  ghost function Sum(s: set<Coordinate>, axis: Axis): int
    decreases s
  {
    if s == {} then 0
    else
      var c :| c in s;
      Along(c, axis) + Sum(s - {c}, axis)
  }

  /** Any member can be taken out first: the sum does not depend on the order of visits. */
  lemma {:induction false} SumRemove(s: set<Coordinate>, c: Coordinate, axis: Axis)
    requires c in s
    ensures Sum(s, axis) == Along(c, axis) + Sum(s - {c}, axis)
    decreases s
  {
    var d :| d in s && Sum(s, axis) == Along(d, axis) + Sum(s - {d}, axis);
    if d != c {
      SumRemove(s - {d}, c, axis);
      SumRemove(s - {c}, d, axis);
      assert s - {d} - {c} == s - {c} - {d};
    }
  }

  /** Visiting one more cell adds its coordinate to the running sum. */
  lemma SumAdd(s: set<Coordinate>, c: Coordinate, axis: Axis)
    requires c !in s
    ensures Sum(s + {c}, axis) == Sum(s, axis) + Along(c, axis)
  {
    SumRemove(s + {c}, c, axis);
    assert s + {c} - {c} == s;
  }

  /** Cells with non-negative coordinates have a non-negative sum. */
  lemma {:induction false} SumNonNegative(s: set<Coordinate>, axis: Axis)
    requires forall c :: c in s ==> Along(c, axis) >= 0
    ensures Sum(s, axis) >= 0
    decreases s
  {
    if s != {} {
      var c :| c in s && Sum(s, axis) == Along(c, axis) + Sum(s - {c}, axis);
      SumNonNegative(s - {c}, axis);
    }
  }
}
