/**
 * Portfolio projects and the order in which the homepage lists them.
 *
 * The project file is a JSON object mapping an arbitrary key to a project.
 * Once parsed, its entries are visited in the map's iteration order, the keys
 * are dropped, the values are sorted by rank with a stable descending sort,
 * and the result is reversed.  This module defines that order as functions
 * on sequences and proves what it means: a permutation of the collected
 * values, ascending by rank, with projects of equal rank in the reverse of
 * the order in which they were collected.
 */
module Projects {

  /** One portfolio entry, as stored in the project file. */
  datatype Project = Project(
    name: string,
    language: seq<string>,
    description: string,
    implementation: string,
    link: string,
    image: string,
    rank: nat)

  /** A (key, project) pair, as yielded by iterating the parsed map. */
  type Entry = (string, Project)

  // ---------------------------------------------------------------------
  // The parsed map and its iteration

  /** The set of keys met while iterating `entries`. */
  function KeysOf(entries: seq<Entry>): (r: set<string>)
    ensures forall key :: key in r <==> exists i :: 0 <= i < |entries| && entries[i].0 == key
  {
    if entries == [] then {}
    else
      var init := entries[..|entries| - 1];
      assert forall i :: 0 <= i < |init| ==> init[i] == entries[i];
      KeysOf(init) + {entries[|entries| - 1].0}
  }

  /** No key is yielded twice. */
  ghost predicate DistinctKeys(entries: seq<Entry>) {
    forall i, j :: 0 <= i < j < |entries| ==> entries[i].0 != entries[j].0
  }

  /** `entries` is one iteration of the map `m`: every key of `m` exactly once, with its value. */
  ghost predicate IsIterationOf(entries: seq<Entry>, m: map<string, Project>) {
    && DistinctKeys(entries)
    && (forall i :: 0 <= i < |entries| ==> entries[i].0 in m && m[entries[i].0] == entries[i].1)
    && (forall key :: key in m ==> key in KeysOf(entries))
  }

  /** The projects of `entries` in iteration order; the keys are dropped. */
  function Values(entries: seq<Entry>): (r: seq<Project>)
    ensures |r| == |entries|
    ensures forall i :: 0 <= i < |entries| ==> r[i] == entries[i].1
  {
    seq(|entries|, i requires 0 <= i < |entries| => entries[i].1)
  }

  lemma {:induction false} DistinctKeysCount(entries: seq<Entry>)
    requires DistinctKeys(entries)
    ensures |KeysOf(entries)| == |entries|
    decreases |entries|
  {
    if entries != [] {
      var init := entries[..|entries| - 1];
      var last := entries[|entries| - 1];
      assert DistinctKeys(init) by {
        forall i, j | 0 <= i < j < |init| ensures init[i].0 != init[j].0 {
          assert init[i] == entries[i] && init[j] == entries[j];
        }
      }
      DistinctKeysCount(init);
      assert forall i :: 0 <= i < |init| ==> init[i].0 != last.0 by {
        forall i | 0 <= i < |init| ensures init[i].0 != last.0 {
          assert init[i] == entries[i];
        }
      }
      assert last.0 !in KeysOf(init);
    }
  }

  /** Collecting the values of one iteration of a map yields exactly one
      project per entry of the map, and exactly the map's values. */
  lemma MapValuesCollected(entries: seq<Entry>, m: map<string, Project>)
    requires IsIterationOf(entries, m)
    ensures |Values(entries)| == |m|
    ensures forall p :: p in Values(entries) <==> p in m.Values
  {
    assert KeysOf(entries) == m.Keys by {
      forall key | key in KeysOf(entries) ensures key in m {
        var i :| 0 <= i < |entries| && entries[i].0 == key;
      }
    }
    DistinctKeysCount(entries);
    assert |m| == |m.Keys|;
    var vs := Values(entries);
    forall p ensures p in vs <==> p in m.Values {
      if p in vs {
        var i :| 0 <= i < |vs| && vs[i] == p;
        assert m[entries[i].0] == p;
      }
      if p in m.Values {
        var key :| key in m && m[key] == p;
        var i :| 0 <= i < |entries| && entries[i].0 == key;
        assert vs[i] == p;
      }
    }
  }

  // ---------------------------------------------------------------------
  // Orders by rank

  predicate RankAscending(s: seq<Project>) {
    forall i, j :: 0 <= i < j < |s| ==> s[i].rank <= s[j].rank
  }

  predicate RankDescending(s: seq<Project>) {
    forall i, j :: 0 <= i < j < |s| ==> s[i].rank >= s[j].rank
  }

  /** The projects of `s` whose rank is `k`, in the order of `s`. */
  function WithRank(s: seq<Project>, k: nat): (r: seq<Project>)
    ensures |r| <= |s|
  {
    if s == [] then []
    else
      var init := s[..|s| - 1];
      assert s == init + [s[|s| - 1]];
      WithRank(init, k) + (if s[|s| - 1].rank == k then [s[|s| - 1]] else [])
  }

  /** The projects picked for rank `k` are exactly those of `s` with that rank. */
  lemma {:induction false} WithRankMembers(s: seq<Project>, k: nat)
    ensures forall p :: p in WithRank(s, k) <==> p in s && p.rank == k
    decreases |s|
  {
    if s != [] {
      var init := s[..|s| - 1];
      WithRankMembers(init, k);
      assert s == init + [s[|s| - 1]];
    }
  }

  lemma {:induction false} WithRankConcat(a: seq<Project>, b: seq<Project>, k: nat)
    ensures WithRank(a + b, k) == WithRank(a, k) + WithRank(b, k)
    decreases |b|
  {
    if b == [] {
      assert a + b == a;
    } else {
      var init := b[..|b| - 1];
      assert (a + b)[..|a + b| - 1] == a + init;
      assert (a + b)[|a + b| - 1] == b[|b| - 1];
      WithRankConcat(a, init, k);
    }
  }

  // ---------------------------------------------------------------------
  // Stable sort by descending rank

  /** Inserts `x` into `t` behind every project whose rank is at least
      `x.rank`; on a sequence sorted by descending rank this is the step of a
      stable insertion sort. */
  function InsertByRankDesc(t: seq<Project>, x: Project): (r: seq<Project>)
    ensures |r| == |t| + 1
    decreases |t|
  {
    if t == [] || t[|t| - 1].rank >= x.rank then t + [x]
    else
      var init := t[..|t| - 1];
      assert t == init + [t[|t| - 1]];
      InsertByRankDesc(init, x) + [t[|t| - 1]]
  }

  /** Stable insertion sort by descending rank, taking the projects of `s`
      from left to right. */
  function StableSortDesc(s: seq<Project>): (r: seq<Project>)
    ensures |r| == |s|
  {
    if s == [] then []
    else
      var init := s[..|s| - 1];
      assert s == init + [s[|s| - 1]];
      InsertByRankDesc(StableSortDesc(init), s[|s| - 1])
  }

  /** Insertion adds exactly `x`. */
  lemma {:induction false} InsertMultiset(t: seq<Project>, x: Project)
    ensures multiset(InsertByRankDesc(t, x)) == multiset(t) + multiset{x}
    decreases |t|
  {
    if !(t == [] || t[|t| - 1].rank >= x.rank) {
      var init := t[..|t| - 1];
      InsertMultiset(init, x);
      assert t == init + [t[|t| - 1]];
    }
  }

  /** The sort is a permutation of its input. */
  lemma {:induction false} StableSortMultiset(s: seq<Project>)
    ensures multiset(StableSortDesc(s)) == multiset(s)
    decreases |s|
  {
    if s != [] {
      var init := s[..|s| - 1];
      StableSortMultiset(init);
      InsertMultiset(StableSortDesc(init), s[|s| - 1]);
      assert s == init + [s[|s| - 1]];
    }
  }

  lemma {:induction false} InsertKeepsDescending(t: seq<Project>, x: Project)
    requires RankDescending(t)
    ensures RankDescending(InsertByRankDesc(t, x))
    decreases |t|
  {
    if t == [] || t[|t| - 1].rank >= x.rank {
      var r := t + [x];
      forall i, j | 0 <= i < j < |r| ensures r[i].rank >= r[j].rank {
        if j == |t| && i < |t| - 1 {
          assert t[i].rank >= t[|t| - 1].rank;
        }
      }
    } else {
      var init := t[..|t| - 1];
      var last := t[|t| - 1];
      assert RankDescending(init) by {
        forall i, j | 0 <= i < j < |init| ensures init[i].rank >= init[j].rank {
          assert init[i] == t[i] && init[j] == t[j];
        }
      }
      InsertKeepsDescending(init, x);
      var r' := InsertByRankDesc(init, x);
      InsertMultiset(init, x);
      forall i | 0 <= i < |r'| ensures r'[i].rank >= last.rank {
        var p := r'[i];
        assert p in multiset(r');
        if p != x {
          assert p in multiset(init);
          var m :| 0 <= m < |init| && init[m] == p;
          assert t[m] == p;
        }
      }
      var r := r' + [last];
      forall i, j | 0 <= i < j < |r| ensures r[i].rank >= r[j].rank {
        assert r[i] == r'[i];
        if j < |r'| {
          assert r[j] == r'[j];
        }
      }
    }
  }

  lemma {:induction false} StableSortIsDescending(s: seq<Project>)
    ensures RankDescending(StableSortDesc(s))
    decreases |s|
  {
    if s != [] {
      StableSortIsDescending(s[..|s| - 1]);
      InsertKeepsDescending(StableSortDesc(s[..|s| - 1]), s[|s| - 1]);
    }
  }

  lemma InsertBehindLast(t: seq<Project>, x: Project)
    requires t != [] && t[|t| - 1].rank < x.rank
    ensures InsertByRankDesc(t, x) == InsertByRankDesc(t[..|t| - 1], x) + [t[|t| - 1]]
  {
  }

  /** Appending a project whose rank differs from that of `x` to both sides
      keeps `x` last among the projects of its rank. */
  lemma AppendOtherWithRank(r: seq<Project>, init: seq<Project>, last: Project, x: Project, k: nat)
    requires last.rank != x.rank
    requires WithRank(r, k) == WithRank(init, k) + (if x.rank == k then [x] else [])
    ensures WithRank(r + [last], k) == WithRank(init + [last], k) + (if x.rank == k then [x] else [])
  {
    WithRankConcat(r, [last], k);
    WithRankConcat(init, [last], k);
    WithRankSingleton(last, k);
  }

  lemma {:induction false} InsertWithRank(t: seq<Project>, x: Project, k: nat)
    ensures WithRank(InsertByRankDesc(t, x), k) == WithRank(t, k) + (if x.rank == k then [x] else [])
    decreases |t|
  {
    if t == [] || t[|t| - 1].rank >= x.rank {
      WithRankConcat(t, [x], k);
      WithRankSingleton(x, k);
    } else {
      var init, last := t[..|t| - 1], t[|t| - 1];
      InsertBehindLast(t, x);
      InsertWithRank(init, x, k);
      AppendOtherWithRank(InsertByRankDesc(init, x), init, last, x, k);
      assert init + [last] == t;
    }
  }

  /** The sort is stable: the projects of each rank keep their relative order. */
  lemma {:induction false} StableSortWithRank(s: seq<Project>, k: nat)
    ensures WithRank(StableSortDesc(s), k) == WithRank(s, k)
    decreases |s|
  {
    if s != [] {
      var init := s[..|s| - 1];
      StableSortWithRank(init, k);
      InsertWithRank(StableSortDesc(init), s[|s| - 1], k);
    }
  }

  // ---------------------------------------------------------------------
  // Reversal

  function Reversed<T>(s: seq<T>): (r: seq<T>)
    ensures |r| == |s|
    ensures forall i :: 0 <= i < |s| ==> r[i] == s[|s| - 1 - i]
  {
    if s == [] then [] else [s[|s| - 1]] + Reversed(s[..|s| - 1])
  }

  lemma {:induction false} ReversedMultiset<T>(s: seq<T>)
    ensures multiset(Reversed(s)) == multiset(s)
    decreases |s|
  {
    if s != [] {
      var init := s[..|s| - 1];
      ReversedMultiset(init);
      assert s == init + [s[|s| - 1]];
    }
  }

  lemma ReversedConcat<T>(a: seq<T>, b: seq<T>)
    ensures Reversed(a + b) == Reversed(b) + Reversed(a)
  {
    var l, r := Reversed(a + b), Reversed(b) + Reversed(a);
    forall i | 0 <= i < |l| ensures l[i] == r[i] {
      if i < |b| {
        assert r[i] == Reversed(b)[i];
      } else {
        assert r[i] == Reversed(a)[i - |b|];
      }
    }
  }

  lemma ReversedTwice<T>(s: seq<T>)
    ensures Reversed(Reversed(s)) == s
  {
    var r := Reversed(Reversed(s));
    forall i | 0 <= i < |s| ensures r[i] == s[i] {
      assert r[i] == Reversed(s)[|s| - 1 - i];
    }
  }

  lemma WithRankSingleton(p: Project, k: nat)
    ensures WithRank([p], k) == if p.rank == k then [p] else []
  {
    assert [p][..0] == [];
  }

  lemma {:induction false} ReversedWithRank(s: seq<Project>, k: nat)
    ensures WithRank(Reversed(s), k) == Reversed(WithRank(s, k))
    decreases |s|
  {
    if s != [] {
      var init := s[..|s| - 1];
      var last := s[|s| - 1];
      var tail := if last.rank == k then [last] else [];
      calc {
        WithRank(Reversed(s), k);
        { assert Reversed(s) == [last] + Reversed(init); }
        WithRank([last] + Reversed(init), k);
        { WithRankConcat([last], Reversed(init), k); WithRankSingleton(last, k); }
        tail + WithRank(Reversed(init), k);
        { ReversedWithRank(init, k); }
        tail + Reversed(WithRank(init, k));
        { ReversedConcat(WithRank(init, k), tail); assert Reversed(tail) == tail; }
        Reversed(WithRank(init, k) + tail);
      }
    }
  }

  lemma ReversedDescendingIsAscending(s: seq<Project>)
    requires RankDescending(s)
    ensures RankAscending(Reversed(s))
  {
    var r := Reversed(s);
    forall i, j | 0 <= i < j < |r| ensures r[i].rank <= r[j].rank {
      assert r[i] == s[|s| - 1 - i] && r[j] == s[|s| - 1 - j];
    }
  }

  // ---------------------------------------------------------------------
  // The homepage order

  /** Stable descending sort by rank, then reversal of the whole sequence. */
  function ProjectOrder(s: seq<Project>): (r: seq<Project>)
    ensures |r| == |s|
  {
    Reversed(StableSortDesc(s))
  }

  /** The listed projects are exactly the collected ones: same count, same multiset. */
  lemma ProjectOrderIsPermutation(s: seq<Project>)
    ensures |ProjectOrder(s)| == |s|
    ensures multiset(ProjectOrder(s)) == multiset(s)
  {
    ReversedMultiset(StableSortDesc(s));
    StableSortMultiset(s);
  }

  /** The listed projects are in non-decreasing order of rank. */
  lemma ProjectOrderAscending(s: seq<Project>)
    ensures RankAscending(ProjectOrder(s))
  {
    StableSortIsDescending(s);
    ReversedDescendingIsAscending(StableSortDesc(s));
  }

  /** Projects of equal rank are listed in the reverse of their collected order. */
  lemma ProjectOrderTiesReversed(s: seq<Project>)
    ensures forall k: nat :: WithRank(ProjectOrder(s), k) == Reversed(WithRank(s, k))
  {
    forall k: nat ensures WithRank(ProjectOrder(s), k) == Reversed(WithRank(s, k)) {
      ReversedWithRank(StableSortDesc(s), k);
      StableSortWithRank(s, k);
    }
  }

  lemma LastHasRank(s: seq<Project>)
    ensures s != [] ==> s[|s| - 1] in WithRank(s, s[|s| - 1].rank)
  {
  }

  lemma AscendingInit(t: seq<Project>)
    requires t != [] && RankAscending(t)
    ensures RankAscending(t[..|t| - 1])
  {
    var init := t[..|t| - 1];
    forall i, j | 0 <= i < j < |init| ensures init[i].rank <= init[j].rank {
      assert init[i] == t[i] && init[j] == t[j];
    }
  }

  lemma AscendingLastIsTop(t: seq<Project>, p: Project)
    requires t != [] && RankAscending(t) && p in t
    ensures p.rank <= t[|t| - 1].rank
  {
    var m :| 0 <= m < |t| && t[m] == p;
  }

  /** Sequences ascending by rank with equal per-rank subsequences end
      with the same project. */
  lemma SameRanksSameLast(t1: seq<Project>, t2: seq<Project>)
    requires t1 != [] && t2 != []
    requires RankAscending(t1) && RankAscending(t2)
    requires forall k: nat :: WithRank(t1, k) == WithRank(t2, k)
    ensures t1[|t1| - 1].rank == t2[|t2| - 1].rank
  {
    var last1, last2 := t1[|t1| - 1], t2[|t2| - 1];
    LastHasRank(t1);
    LastHasRank(t2);
    assert last1 in WithRank(t2, last1.rank);
    assert last2 in WithRank(t1, last2.rank);
    WithRankMembers(t1, last2.rank);
    WithRankMembers(t2, last1.rank);
    AscendingLastIsTop(t2, last1);
    AscendingLastIsTop(t1, last2);
  }

  /** Removing the last project of two sequences that end with the same
      project keeps their per-rank subsequences equal. */
  lemma SameRanksInit(t1: seq<Project>, t2: seq<Project>, init1: seq<Project>, init2: seq<Project>)
    requires t1 != [] && t2 != []
    requires init1 == t1[..|t1| - 1] && init2 == t2[..|t2| - 1]
    requires t1[|t1| - 1].rank == t2[|t2| - 1].rank
    requires forall k: nat :: WithRank(t1, k) == WithRank(t2, k)
    ensures t1[|t1| - 1] == t2[|t2| - 1]
    ensures forall k: nat :: WithRank(init1, k) == WithRank(init2, k)
  {
    var top := t1[|t1| - 1].rank;
    var w1, w2 := WithRank(t1, top), WithRank(t2, top);
    assert w1 == WithRank(init1, top) + [t1[|t1| - 1]];
    assert w2 == WithRank(init2, top) + [t2[|t2| - 1]];
    assert WithRank(init1, top) == w1[..|w1| - 1];
    assert WithRank(init2, top) == w2[..|w2| - 1];
    forall k: nat ensures WithRank(init1, k) == WithRank(init2, k) {
      if k != top {
        assert WithRank(t1, k) == WithRank(init1, k);
        assert WithRank(t2, k) == WithRank(init2, k);
      }
    }
  }

  lemma SameRanksBothEmpty(t1: seq<Project>, t2: seq<Project>)
    requires forall k: nat :: WithRank(t1, k) == WithRank(t2, k)
    ensures t1 == [] <==> t2 == []
  {
    LastHasRank(t1);
    LastHasRank(t2);
  }

  /** A sequence ascending by rank is determined by its per-rank subsequences. */
  lemma {:induction false} RankOrderUnique(t1: seq<Project>, t2: seq<Project>)
    requires RankAscending(t1) && RankAscending(t2)
    requires forall k: nat :: WithRank(t1, k) == WithRank(t2, k)
    ensures t1 == t2
    decreases |t1|
  {
    SameRanksBothEmpty(t1, t2);
    if t1 != [] {
      var init1, init2 := t1[..|t1| - 1], t2[..|t2| - 1];
      SameRanksSameLast(t1, t2);
      SameRanksInit(t1, t2, init1, init2);
      AscendingInit(t1);
      AscendingInit(t2);
      RankOrderUnique(init1, init2);
      assert t1 == init1 + [t1[|t1| - 1]];
      assert t2 == init2 + [t2[|t2| - 1]];
    }
  }

  /** `t` is ascending by rank and lists the projects of each rank in the
      reverse of their order in `s`. */
  ghost predicate ListedInHomepageOrder(s: seq<Project>, t: seq<Project>) {
    RankAscending(t) && forall k: nat :: WithRank(t, k) == Reversed(WithRank(s, k))
  }

  /** The homepage order is the one and only sequence that is ascending by
      rank and lists each rank's projects in reverse collected order. */
  lemma ProjectOrderCharacterized(s: seq<Project>, t: seq<Project>)
    ensures t == ProjectOrder(s) <==> ListedInHomepageOrder(s, t)
  {
    var o := ProjectOrder(s);
    ProjectOrderAscending(s);
    ProjectOrderTiesReversed(s);
    if ListedInHomepageOrder(s, t) {
      forall k: nat ensures WithRank(t, k) == WithRank(o, k) {
        assert WithRank(t, k) == Reversed(WithRank(s, k));
        assert WithRank(o, k) == Reversed(WithRank(s, k));
      }
      RankOrderUnique(t, o);
    }
  }

  /** Every stable descending sort by rank gives the same result as
      StableSortDesc, whatever algorithm it uses. */
  lemma StableSortUnique(s: seq<Project>, t: seq<Project>)
    requires RankDescending(t)
    requires forall k: nat :: WithRank(t, k) == WithRank(s, k)
    ensures t == StableSortDesc(s)
  {
    var d := StableSortDesc(s);
    StableSortIsDescending(s);
    ReversedDescendingIsAscending(t);
    ReversedDescendingIsAscending(d);
    forall k: nat ensures WithRank(Reversed(t), k) == WithRank(Reversed(d), k) {
      ReversedWithRank(t, k);
      ReversedWithRank(d, k);
      StableSortWithRank(s, k);
    }
    RankOrderUnique(Reversed(t), Reversed(d));
    ReversedTwice(t);
    ReversedTwice(d);
  }

  /** Two projects under keys "a" (rank 2) and "b" (rank 1): "b" is listed first. */
  lemma TwoProjectsExample(a: Project, b: Project)
    requires a.rank == 2 && b.rank == 1
    ensures ProjectOrder(Values([("a", a), ("b", b)])) == [b, a]
  {
    var s := Values([("a", a), ("b", b)]);
    assert s == [a, b];
    assert s[..1] == [a];
    assert [a][..0] == [];
    assert StableSortDesc([a]) == [a];
    assert StableSortDesc(s) == [a, b];
    assert Reversed([a, b]) == [b, a];
  }
}
