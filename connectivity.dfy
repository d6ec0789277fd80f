/**
 * Cells of a binary image and 4-connectivity between them.
 *
 * A cell is named by a Coordinate whose x is the column and whose y is the
 * row (row r, column c is Coordinate(c, r)).  The "on" cells of an image form
 * a set, and a connected group is the set of on cells reachable from a seed
 * through on cells that share an edge (never a corner).
 */
module Connectivity {

  /** An immutable (x, y) pair: x is the column, y is the row. */
  datatype Coordinate = Coordinate(x: int, y: int)

  /** Two cells are 4-neighbours when they differ by one in exactly one axis. */
  predicate Adjacent(a: Coordinate, b: Coordinate) {
    || (a.x == b.x && (a.y == b.y + 1 || a.y + 1 == b.y))
    || (a.y == b.y && (a.x == b.x + 1 || a.x + 1 == b.x))
  }

  /** The traversal's direction table, as (row offset, column offset) pairs. */
  const Directions: seq<(int, int)> := [(-1, 0), (1, 0), (0, -1), (0, 1)]

  /** The cell reached from `a` by one entry of the direction table. */
  function Step(a: Coordinate, d: (int, int)): Coordinate {
    Coordinate(a.x + d.1, a.y + d.0)
  }

  /** The four direction offsets reach exactly the 4-neighbours: no diagonal, no cell twice. */
  lemma DirectionsAreNeighbours(a: Coordinate, b: Coordinate)
    ensures Adjacent(a, b) <==> exists k :: 0 <= k < |Directions| && b == Step(a, Directions[k])
    ensures forall j, k :: 0 <= j < k < |Directions| ==> Step(a, Directions[j]) != Step(a, Directions[k])
  {
    if Adjacent(a, b) {
      if b.y + 1 == a.y {
        assert b == Step(a, Directions[0]);
      } else if b.y == a.y + 1 {
        assert b == Step(a, Directions[1]);
      } else if b.x + 1 == a.x {
        assert b == Step(a, Directions[2]);
      } else {
        assert b == Step(a, Directions[3]);
      }
    }
  }

  /** `p` is a walk of at least one cell, every cell on, consecutive cells adjacent. */
  ghost predicate IsPath(on: set<Coordinate>, p: seq<Coordinate>) {
    && |p| > 0
    && (forall i :: 0 <= i < |p| ==> p[i] in on)
    && (forall i :: 0 <= i < |p| - 1 ==> Adjacent(p[i], p[i + 1]))
  }

  /** `b` can be reached from `a` through on cells. */
  ghost predicate Connected(on: set<Coordinate>, a: Coordinate, b: Coordinate) {
    exists p {:trigger IsPath(on, p)} :: IsPath(on, p) && p[0] == a && p[|p| - 1] == b
  }

  /** The connected group of `seed`: every on cell reachable from it (empty when the seed is off). */
  ghost function Component(on: set<Coordinate>, seed: Coordinate): (comp: set<Coordinate>)
    ensures comp <= on
  {
    set c | c in on && Connected(on, seed, c)
  }

  /** No on cell next to a member of `s` lies outside `s`. */
  ghost predicate Closed(on: set<Coordinate>, s: set<Coordinate>) {
    forall a, b {:trigger Adjacent(a, b)} :: a in s && b in on && Adjacent(a, b) ==> b in s
  }

  /** An on seed belongs to its own group; an off seed has an empty group. */
  lemma ComponentSeed(on: set<Coordinate>, seed: Coordinate)
    ensures seed in on <==> seed in Component(on, seed)
    ensures seed !in on ==> Component(on, seed) == {}
  {
    if seed in on {
      assert IsPath(on, [seed]);
    }
    if c :| c in Component(on, seed) {
      var p :| IsPath(on, p) && p[0] == seed && p[|p| - 1] == c;
      assert p[0] in on;
    }
  }

  /** The union of two closed sets is closed. */
  lemma ClosedUnion(on: set<Coordinate>, s: set<Coordinate>, t: set<Coordinate>)
    requires Closed(on, s) && Closed(on, t)
    ensures Closed(on, s + t)
  {
    forall a, b | a in s + t && b in on && Adjacent(a, b)
      ensures b in s + t
    {
      if a in s {
        assert b in s;
      } else {
        assert b in t;
      }
    }
  }

  /** A group is closed under stepping to an adjacent on cell. */
  lemma ComponentStep(on: set<Coordinate>, seed: Coordinate, a: Coordinate, b: Coordinate)
    requires a in Component(on, seed) && b in on && Adjacent(a, b)
    ensures b in Component(on, seed)
  {
    var p :| IsPath(on, p) && p[0] == seed && p[|p| - 1] == a;
    var q := p + [b];
    assert IsPath(on, q) && q[0] == seed && q[|q| - 1] == b;
  }

  /** Every group is a closed set. */
  lemma ComponentClosed(on: set<Coordinate>, seed: Coordinate)
    ensures Closed(on, Component(on, seed))
  {
    forall a, b | a in Component(on, seed) && b in on && Adjacent(a, b)
      ensures b in Component(on, seed)
    {
      ComponentStep(on, seed, a, b);
    }
  }

  /** A path that starts inside a closed set never leaves it. */
  lemma {:induction false} PathWithin(on: set<Coordinate>, s: set<Coordinate>, p: seq<Coordinate>)
    requires IsPath(on, p) && p[0] in s && Closed(on, s)
    ensures forall i :: 0 <= i < |p| ==> p[i] in s
  {
    if |p| > 1 {
      var q := p[..|p| - 1];
      assert IsPath(on, q);
      PathWithin(on, s, q);
      assert p[|p| - 2] == q[|q| - 1];
    }
  }

  /** The group of `seed` is the least closed set holding the seed. */
  lemma {:induction false} ComponentWithin(on: set<Coordinate>, seed: Coordinate, s: set<Coordinate>)
    requires seed in s && Closed(on, s)
    ensures Component(on, seed) <= s
  {
    forall c | c in Component(on, seed)
      ensures c in s
    {
      var p :| IsPath(on, p) && p[0] == seed && p[|p| - 1] == c;
      PathWithin(on, s, p);
    }
  }

  /** Removing a union of whole groups (a closed set) leaves every other group as it was. */
  lemma ComponentRestrict(on: set<Coordinate>, done: set<Coordinate>, seed: Coordinate)
    requires done <= on && Closed(on, done) && seed !in done
    ensures Component(on - done, seed) == Component(on, seed)
  {
    var rest := Component(on - done, seed);
    forall c | c in rest
      ensures c in Component(on, seed)
    {
      var p :| IsPath(on - done, p) && p[0] == seed && p[|p| - 1] == c;
      assert IsPath(on, p);
    }
    if seed in on {
      ComponentSeed(on - done, seed);
      forall a, b | a in rest && b in on && Adjacent(a, b)
        ensures b in rest
      {
        if b in done {
          assert Adjacent(b, a);
          assert false;
        } else {
          ComponentStep(on - done, seed, a, b);
        }
      }
      ComponentWithin(on, seed, rest);
    } else {
      ComponentSeed(on, seed);
    }
  }

  /** Reachability is symmetric: a path walked backwards is a path. */
  lemma ConnectedSymmetric(on: set<Coordinate>, a: Coordinate, b: Coordinate)
    requires Connected(on, a, b)
    ensures Connected(on, b, a)
  {
    var p :| IsPath(on, p) && p[0] == a && p[|p| - 1] == b;
    var q := seq(|p|, i requires 0 <= i < |p| => p[|p| - 1 - i]);
    forall i | 0 <= i < |q| - 1
      ensures Adjacent(q[i], q[i + 1])
    {
      assert Adjacent(p[|p| - 2 - i], p[|p| - 1 - i]);
    }
    assert IsPath(on, q) && q[0] == b && q[|q| - 1] == a;
  }

  /** Any member of a group has that same group: groups never overlap partially. */
  lemma ComponentOfMember(on: set<Coordinate>, seed: Coordinate, t: Coordinate)
    requires t in Component(on, seed)
    ensures Component(on, t) == Component(on, seed)
  {
    ComponentClosed(on, seed);
    ComponentWithin(on, t, Component(on, seed));
    ConnectedSymmetric(on, seed, t);
    assert seed in Component(on, t);
    ComponentClosed(on, t);
    ComponentWithin(on, seed, Component(on, t));
  }
}
