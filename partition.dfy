/**
 * What a correct answer is.  The on cells of a grid split into their
 * connected groups; a correct result lists one summary per group, ranked in
 * descending order.  The lemmas show that such a list has only groups of size
 * at least one, that the sizes add up to the number of on cells, and that
 * there is only one such list: the answer does not depend on the order in
 * which the groups are discovered or traversed.
 */
module Partition {
  import opened Connectivity
  import opened Groups

  /** Every cell that lies in some part. */
  ghost function Union(parts: seq<set<Coordinate>>): set<Coordinate> {
    if parts == [] then {} else Union(parts[..|parts| - 1]) + parts[|parts| - 1]
  }

  /** Adding a part adds its cells to the union. */
  lemma UnionAppend(parts: seq<set<Coordinate>>, part: set<Coordinate>)
    ensures Union(parts + [part]) == Union(parts) + part
  {
    assert (parts + [part])[..|parts|] == parts;
  }

  /** A cell is in the union exactly when it is in one of the parts. */
  lemma {:induction false} InUnion(parts: seq<set<Coordinate>>, c: Coordinate)
    ensures c in Union(parts) <==> exists i :: 0 <= i < |parts| && c in parts[i]
    decreases |parts|
  {
    if parts != [] {
      var front := parts[..|parts| - 1];
      InUnion(front, c);
      if c in Union(front) {
        var i :| 0 <= i < |front| && c in front[i];
        assert parts[i] == front[i];
      }
      if i :| 0 <= i < |parts| && c in parts[i] {
        if i < |front| {
          assert front[i] == parts[i];
        }
      }
    }
  }

  /** `part` is the connected group of some on cell. */
  ghost predicate IsComponentOf(on: set<Coordinate>, part: set<Coordinate>) {
    exists seed {:trigger Component(on, seed)} :: seed in on && part == Component(on, seed)
  }

  /** `parts` lists connected groups of `on` that cover every on cell exactly once. */
  ghost predicate ComponentPartition(on: set<Coordinate>, parts: seq<set<Coordinate>>) {
    && (forall i :: 0 <= i < |parts| ==> parts[i] != {} && IsComponentOf(on, parts[i]))
    && (forall i, j :: 0 <= i < j < |parts| ==> parts[i] !! parts[j])
    && Union(parts) == on
  }

  /** `groups` summarises the connected groups of `on`, one entry each, largest-ranked first. */
  ghost predicate IsGroupListOf(on: set<Coordinate>, groups: seq<Group>) {
    && Descending(groups)
    && exists parts :: ComponentPartition(on, parts) && multiset(groups) == multiset(Summaries(parts))
  }

  /** Disjoint parts: their sizes add up to the size of their union. */
  lemma {:induction false} DisjointSizes(parts: seq<set<Coordinate>>)
    requires forall i :: 0 <= i < |parts| ==> parts[i] != {}
    requires forall i, j :: 0 <= i < j < |parts| ==> parts[i] !! parts[j]
    ensures TotalSize(Summaries(parts)) == |Union(parts)|
    decreases |parts|
  {
    if parts != [] {
      var n := |parts| - 1;
      var front := parts[..n];
      assert parts == front + [parts[n]];
      DisjointSizes(front);
      forall c | c in Union(front)
        ensures c !in parts[n]
      {
        InUnion(front, c);
        var i :| 0 <= i < |front| && c in front[i];
        assert parts[i] !! parts[n];
      }
      assert Summaries(parts)[..n] == Summaries(front);
    }
  }

  /** Parts that are pairwise disjoint and non-empty occur at most once each. */
  lemma {:induction false} DisjointCounts(parts: seq<set<Coordinate>>, part: set<Coordinate>)
    requires forall i :: 0 <= i < |parts| ==> parts[i] != {}
    requires forall i, j :: 0 <= i < j < |parts| ==> parts[i] !! parts[j]
    ensures multiset(parts)[part] == if part in parts then 1 else 0
    decreases |parts|
  {
    if parts != [] {
      var n := |parts| - 1;
      var front := parts[..n];
      assert parts == front + [parts[n]];
      DisjointCounts(front, part);
      if part == parts[n] && part in front {
        assert false;
      }
    }
  }

  /** Two partitions of the same on cells into connected groups hold the same groups. */
  lemma PartitionsAgree(on: set<Coordinate>, a: seq<set<Coordinate>>, b: seq<set<Coordinate>>)
    requires ComponentPartition(on, a) && ComponentPartition(on, b)
    ensures multiset(a) == multiset(b)
  {
    forall part | part in a
      ensures part in b
    {
      PartOfOther(on, a, b, part);
    }
    forall part | part in b
      ensures part in a
    {
      PartOfOther(on, b, a, part);
    }
    forall part
      ensures multiset(a)[part] == multiset(b)[part]
    {
      DisjointCounts(a, part);
      DisjointCounts(b, part);
    }
  }

  /** A part of one component partition is also a part of any other one. */
  lemma PartOfOther(on: set<Coordinate>, a: seq<set<Coordinate>>, b: seq<set<Coordinate>>, part: set<Coordinate>)
    requires ComponentPartition(on, a) && ComponentPartition(on, b) && part in a
    ensures part in b
  {
    var i :| 0 <= i < |a| && a[i] == part;
    var seed :| seed in on && part == Component(on, seed);
    ComponentSeed(on, seed);
    InUnion(b, seed);
    var j :| 0 <= j < |b| && seed in b[j];
    var other :| other in on && b[j] == Component(on, other);
    ComponentOfMember(on, other, seed);
    assert b[j] == part;
  }

  lemma SummariesAppend(a: seq<set<Coordinate>>, b: seq<set<Coordinate>>)
    requires forall i :: 0 <= i < |a| ==> a[i] != {}
    requires forall i :: 0 <= i < |b| ==> b[i] != {}
    ensures Summaries(a + b) == Summaries(a) + Summaries(b)
  {
  }

  /** Taking one part out of the list takes its summary out of the summaries. */
  lemma SummariesRemove(b: seq<set<Coordinate>>, j: int)
    requires forall i :: 0 <= i < |b| ==> b[i] != {}
    requires 0 <= j < |b|
    ensures multiset(Summaries(b)) == multiset(Summaries(b[..j] + b[j + 1..])) + multiset{Summarize(b[j])}
  {
    assert b == b[..j] + [b[j]] + b[j + 1..];
    SummariesAppend(b[..j], [b[j]]);
    SummariesAppend(b[..j] + [b[j]], b[j + 1..]);
    SummariesAppend(b[..j], b[j + 1..]);
    assert Summaries([b[j]]) == [Summarize(b[j])];
  }

  /** Summaries of two lists holding the same parts hold the same groups. */
  lemma {:induction false} SummariesPermutation(a: seq<set<Coordinate>>, b: seq<set<Coordinate>>)
    requires forall i :: 0 <= i < |a| ==> a[i] != {}
    requires forall i :: 0 <= i < |b| ==> b[i] != {}
    requires multiset(a) == multiset(b)
    ensures multiset(Summaries(a)) == multiset(Summaries(b))
    decreases |a|
  {
    if a == [] {
      assert |multiset(b)| == 0;
    } else {
      var n := |a| - 1;
      assert a[n] in multiset(b) by {
        assert a[n] in multiset(a);
      }
      var j :| 0 <= j < |b| && b[j] == a[n];
      MultisetRemove(a, n);
      MultisetRemove(b, j);
      SummariesPermutation(a[..n] + a[n + 1..], b[..j] + b[j + 1..]);
      SummariesRemove(a, n);
      SummariesRemove(b, j);
    }
  }

  /** Every group of a correct result summarises one connected group and has at least one pixel. */
  lemma GroupListMembers(on: set<Coordinate>, groups: seq<Group>, g: Group)
    requires IsGroupListOf(on, groups) && g in groups
    ensures g.size >= 1
    ensures exists part :: part != {} && IsComponentOf(on, part) && g == Summarize(part)
  {
    var parts :| ComponentPartition(on, parts) && multiset(groups) == multiset(Summaries(parts));
    assert g in multiset(Summaries(parts));
    var i :| 0 <= i < |parts| && Summaries(parts)[i] == g;
    assert parts[i] != {} && IsComponentOf(on, parts[i]) && g == Summarize(parts[i]);
  }

  /** The sizes of a correct result add up to the number of on cells. */
  lemma GroupListTotal(on: set<Coordinate>, groups: seq<Group>)
    requires IsGroupListOf(on, groups)
    ensures TotalSize(groups) == |on|
  {
    var parts :| ComponentPartition(on, parts) && multiset(groups) == multiset(Summaries(parts));
    DisjointSizes(parts);
    TotalSizePermutation(groups, Summaries(parts));
  }

  /** There is exactly one correct result: any two agree element by element. */
  lemma GroupListUnique(on: set<Coordinate>, groups: seq<Group>, others: seq<Group>)
    requires IsGroupListOf(on, groups) && IsGroupListOf(on, others)
    ensures groups == others
  {
    var a :| ComponentPartition(on, a) && multiset(groups) == multiset(Summaries(a));
    var b :| ComponentPartition(on, b) && multiset(others) == multiset(Summaries(b));
    PartitionsAgree(on, a, b);
    SummariesPermutation(a, b);
    DescendingUnique(groups, others);
  }

  /** A grid without on cells has no groups. */
  lemma NoOnCellsNoGroups(on: set<Coordinate>, groups: seq<Group>)
    requires on == {} && IsGroupListOf(on, groups)
    ensures groups == []
  {
    var parts :| ComponentPartition(on, parts) && multiset(groups) == multiset(Summaries(parts));
    if parts != [] {
      assert false;
    }
    assert |multiset(groups)| == 0;
  }
}
