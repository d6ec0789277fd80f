/**
 * Groups of connected pixels: a size and a centroid, their ranking order, the
 * truncating centroid, and the sort-then-reverse that puts a list of groups in
 * descending rank.
 */
module Groups {
  import opened Connectivity
  import opened CellSums

  /** A value record: the number of pixels in a group and its centroid. */
  datatype Group = Group(size: int, centroid: Coordinate)

  function CompareInts(a: int, b: int): (r: int)
    ensures r == 0 <==> a == b
    ensures r < 0 <==> a < b
  {
    if a < b then -1 else if a > b then 1 else 0
  }

  /**
   * The natural order of groups: by size, then by centroid x, then by
   * centroid y.  Negative, zero or positive as `a` ranks below, equal to or
   * above `b`.
   */
  function CompareTo(a: Group, b: Group): (r: int)
    ensures r == 0 <==> a == b
  {
    if a.size != b.size then CompareInts(a.size, b.size)
    else if a.centroid.x != b.centroid.x then CompareInts(a.centroid.x, b.centroid.x)
    else CompareInts(a.centroid.y, b.centroid.y)
  }

  /** CompareTo is a total order: antisymmetric in sign and transitive. */
  lemma CompareToIsTotalOrder(a: Group, b: Group, c: Group)
    ensures CompareTo(a, b) < 0 <==> CompareTo(b, a) > 0
    ensures CompareTo(a, b) <= 0 && CompareTo(b, c) <= 0 ==> CompareTo(a, c) <= 0
    ensures CompareTo(a, b) <= 0 || CompareTo(b, a) <= 0
  {
  }

  /** CompareTo ranks larger groups first, then larger x, then larger y. */
  lemma CompareToKeys(a: Group, b: Group)
    ensures CompareTo(a, b) > 0 <==>
      || a.size > b.size
      || (a.size == b.size && a.centroid.x > b.centroid.x)
      || (a.size == b.size && a.centroid.x == b.centroid.x && a.centroid.y > b.centroid.y)
  {
  }

  ghost predicate Ascending(s: seq<Group>) {
    forall i, j :: 0 <= i < j < |s| ==> CompareTo(s[i], s[j]) <= 0
  }

  ghost predicate Descending(s: seq<Group>) {
    forall i, j :: 0 <= i < j < |s| ==> CompareTo(s[i], s[j]) >= 0
  }

  /** Inserts `g` into an ascending list in front of the first element it does not exceed. */
  function Insert(g: Group, s: seq<Group>): (r: seq<Group>)
    ensures multiset(r) == multiset(s) + multiset{g}
  {
    if s == [] then [g]
    else if CompareTo(g, s[0]) <= 0 then [g] + s
    else
      assert s == [s[0]] + s[1..];
      [s[0]] + Insert(g, s[1..])
  }

  /** The head of an ascending list ranks no higher than any of its elements. */
  lemma AscendingHead(s: seq<Group>, x: Group)
    requires Ascending(s) && x in s
    ensures CompareTo(s[0], x) <= 0
  {
    var i :| 0 <= i < |s| && s[i] == x;
    if i == 0 {
      assert CompareTo(x, x) == 0;
    }
  }

  /** A list led by `h` is ascending when its tail is and `h` ranks no higher than the tail. */
  lemma AscendingCons(h: Group, t: seq<Group>)
    requires Ascending(t)
    requires forall x :: x in t ==> CompareTo(h, x) <= 0
    ensures Ascending([h] + t)
  {
    var r := [h] + t;
    forall i, j | 0 <= i < j < |r|
      ensures CompareTo(r[i], r[j]) <= 0
    {
      assert r[j] == t[j - 1];
      if i > 0 {
        assert r[i] == t[i - 1];
      }
    }
  }

  /** Insertion keeps an ascending list ascending. */
  lemma {:induction false} InsertAscending(g: Group, s: seq<Group>)
    requires Ascending(s)
    ensures Ascending(Insert(g, s))
  {
    if s == [] {
    } else if CompareTo(g, s[0]) <= 0 {
      forall x | x in s
        ensures CompareTo(g, x) <= 0
      {
        AscendingHead(s, x);
        CompareToIsTotalOrder(g, s[0], x);
      }
      AscendingCons(g, s);
    } else {
      var rest := Insert(g, s[1..]);
      assert Ascending(s[1..]);
      InsertAscending(g, s[1..]);
      forall x | x in rest
        ensures CompareTo(s[0], x) <= 0
      {
        assert x in multiset(rest);
        if x == g {
          CompareToIsTotalOrder(g, s[0], g);
        } else {
          assert x in multiset(s[1..]);
          assert x in s;
          AscendingHead(s, x);
        }
      }
      AscendingCons(s[0], rest);
    }
  }

  /** The ascending sort of the list (the model of the library's sort by CompareTo). */
  method Sort(list: seq<Group>) returns (sorted: seq<Group>)
    ensures Ascending(sorted)
    ensures multiset(sorted) == multiset(list)
  {
    sorted := [];
    for i := 0 to |list|
      invariant Ascending(sorted)
      invariant multiset(sorted) == multiset(list[..i])
    {
      assert list[..i + 1] == list[..i] + [list[i]];
      InsertAscending(list[i], sorted);
      sorted := Insert(list[i], sorted);
    }
    assert list[..|list|] == list;
  }

  /** The list in reverse order (the model of the library's reverse). */
  function Reversed(s: seq<Group>): (r: seq<Group>)
    ensures |r| == |s|
    ensures forall i :: 0 <= i < |s| ==> r[i] == s[|s| - 1 - i]
    ensures multiset(r) == multiset(s)
  {
    if s == [] then []
    else
      assert s == [s[0]] + s[1..];
      Reversed(s[1..]) + [s[0]]
  }

  /** Reversing an ascending list gives a descending one. */
  lemma ReversedAscending(s: seq<Group>)
    requires Ascending(s)
    ensures Descending(Reversed(s))
  {
    var r := Reversed(s);
    forall i, j | 0 <= i < j < |r|
      ensures CompareTo(r[i], r[j]) >= 0
    {
      CompareToIsTotalOrder(r[j], r[i], r[j]);
    }
  }

  /** The head of a descending list ranks no lower than any of its elements. */
  lemma DescendingHead(s: seq<Group>, x: Group)
    requires Descending(s) && x in s
    ensures CompareTo(s[0], x) >= 0
  {
    var i :| 0 <= i < |s| && s[i] == x;
    if i == 0 {
      assert CompareTo(x, x) == 0;
    }
  }

  /** Two descending lists holding the same groups are the same list. */
  lemma {:induction false} DescendingUnique(a: seq<Group>, b: seq<Group>)
    requires Descending(a) && Descending(b)
    requires multiset(a) == multiset(b)
    ensures a == b
  {
    if a == [] {
      assert |multiset(b)| == 0;
    } else {
      assert a[0] in multiset(b);
      assert b != [];
      assert b[0] in multiset(a);
      DescendingHead(a, b[0]);
      DescendingHead(b, a[0]);
      CompareToIsTotalOrder(a[0], b[0], a[0]);
      assert a[0] == b[0];
      assert a == [a[0]] + a[1..];
      assert b == [b[0]] + b[1..];
      assert multiset(a) == multiset{a[0]} + multiset(a[1..]);
      assert multiset(b) == multiset{b[0]} + multiset(b[1..]);
      assert multiset(a[1..]) == multiset(a) - multiset{a[0]};
      assert multiset(b[1..]) == multiset(b) - multiset{b[0]};
      assert Descending(a[1..]);
      assert Descending(b[1..]);
      DescendingUnique(a[1..], b[1..]);
    }
  }

  /** Java's `/` on int, which truncates toward zero. */
  function Quotient(a: int, b: int): (q: int)
    requires b > 0
    ensures 0 <= a ==> q * b <= a < q * b + b
    ensures a < 0 ==> q * b - b < a <= q * b
  {
    if a >= 0 then a / b else -((-a) / b)
  }

  /** The group summarising a non-empty set of cells: its size and truncated mean position. */
  ghost function Summarize(cells: set<Coordinate>): (g: Group)
    requires cells != {}
    ensures g.size == |cells| >= 1
  {
    Group(|cells|, Coordinate(Quotient(Sum(cells, X), |cells|), Quotient(Sum(cells, Y), |cells|)))
  }

  /**
   * The centroid is the mean position rounded down: the largest coordinate
   * whose multiple by the size does not exceed the coordinate sum.
   */
  lemma CentroidIsTruncatedMean(cells: set<Coordinate>)
    requires cells != {}
    requires forall c :: c in cells ==> c.x >= 0 && c.y >= 0
    ensures var g := Summarize(cells);
      && g.centroid.x * |cells| <= Sum(cells, X) < (g.centroid.x + 1) * |cells|
      && g.centroid.y * |cells| <= Sum(cells, Y) < (g.centroid.y + 1) * |cells|
  {
    SumNonNegative(cells, X);
    SumNonNegative(cells, Y);
  }

  /** The summary of each set of cells, in the same order. */
  ghost function Summaries(parts: seq<set<Coordinate>>): (r: seq<Group>)
    requires forall i :: 0 <= i < |parts| ==> parts[i] != {}
  {
    seq(|parts|, i requires 0 <= i < |parts| => Summarize(parts[i]))
  }

  /** The sizes of the groups added up. */
  function TotalSize(s: seq<Group>): int {
    if s == [] then 0 else TotalSize(s[..|s| - 1]) + s[|s| - 1].size
  }

  lemma {:induction false} TotalSizeAppend(s: seq<Group>, t: seq<Group>)
    ensures TotalSize(s + t) == TotalSize(s) + TotalSize(t)
    decreases |t|
  {
    if t != [] {
      assert (s + t)[..|s + t| - 1] == s + t[..|t| - 1];
      TotalSizeAppend(s, t[..|t| - 1]);
    } else {
      assert s + t == s;
    }
  }

  /** Taking one group out of the list takes its size off the total. */
  lemma TotalSizeRemove(t: seq<Group>, j: int)
    requires 0 <= j < |t|
    ensures TotalSize(t) == TotalSize(t[..j] + t[j + 1..]) + t[j].size
  {
    assert t == t[..j] + ([t[j]] + t[j + 1..]);
    TotalSizeAppend(t[..j], [t[j]] + t[j + 1..]);
    TotalSizeAppend([t[j]], t[j + 1..]);
    TotalSizeAppend(t[..j], t[j + 1..]);
    assert TotalSize([t[j]]) == t[j].size by {
      assert [t[j]][..0] == [];
    }
  }

  /** Taking the element at `j` out of a list takes one copy of it out of the list's multiset. */
  lemma MultisetRemove<T>(s: seq<T>, j: int)
    requires 0 <= j < |s|
    ensures multiset(s[..j] + s[j + 1..]) == multiset(s) - multiset{s[j]}
  {
    assert s == s[..j] + [s[j]] + s[j + 1..];
  }

  /** The total size does not depend on the order of the list. */
  lemma {:induction false} TotalSizePermutation(s: seq<Group>, t: seq<Group>)
    requires multiset(s) == multiset(t)
    ensures TotalSize(s) == TotalSize(t)
    decreases |s|
  {
    if s == [] {
      assert |multiset(t)| == 0;
    } else {
      var n := |s| - 1;
      assert s[n] in multiset(t) by {
        assert s[n] in multiset(s);
      }
      var j :| 0 <= j < |t| && t[j] == s[n];
      MultisetRemove(s, n);
      MultisetRemove(t, j);
      TotalSizePermutation(s[..n] + s[n + 1..], t[..j] + t[j + 1..]);
      TotalSizeRemove(s, n);
      TotalSizeRemove(t, j);
    }
  }
}
