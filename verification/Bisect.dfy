/**
 The choice of a commit to test next (bisect.c). Commits are numbers, every parent
 smaller than its child.
 */
module Bisect {

  datatype Graph = Graph(parents: seq<seq<nat>>, uninteresting: seq<bool>, treesame: seq<bool>) {
    predicate Valid() {
      && |parents| == |uninteresting| == |treesame|
      && forall c, i :: 0 <= c < |parents| && 0 <= i < |parents[c]| ==> parents[c][i] < c
    }

    predicate Has(c: nat) {
      c < |parents|
    }

    /** The commits reached from a commit: itself and what its parents reach, down to uninteresting ones */
    ghost function Reach(c: nat): set<nat>
      requires Valid() && Has(c)
      decreases c, 0
    {
      if uninteresting[c] then {} else {c} + ReachAny(c, parents[c])
    }

    ghost function ReachAny(c: nat, ps: seq<nat>): set<nat>
      requires Valid() && Has(c) && forall i :: 0 <= i < |ps| ==> ps[i] < c
      decreases c - 1, |ps| + 1
    {
      if ps == [] then {} else Reach(ps[0]) + ReachAny(c, ps[1..])
    }

    lemma {:induction false} ReachParent(c: nat, ps: seq<nat>, i: nat)
      requires Valid() && Has(c) && (forall j :: 0 <= j < |ps| ==> ps[j] < c) && i < |ps|
      ensures Reach(ps[i]) <= ReachAny(c, ps)
      decreases |ps|
    {
      if i > 0 {
        ReachParent(c, ps[1..], i - 1);
      }
    }

    lemma {:induction false} ReachAnyFrom(c: nat, ps: seq<nat>, x: nat)
      requires Valid() && Has(c) && (forall j :: 0 <= j < |ps| ==> ps[j] < c) && x in ReachAny(c, ps)
      ensures exists i :: 0 <= i < |ps| && x in Reach(ps[i])
      decreases |ps|
    {
      if x !in Reach(ps[0]) {
        ReachAnyFrom(c, ps[1..], x);
        var i :| 0 <= i < |ps[1..]| && x in Reach(ps[1..][i]);
        assert x in Reach(ps[i + 1]);
      }
    }

    /** What is reached is not after the commit, is interesting, and reaches nothing more. */
    lemma {:induction false} ReachClosed(c: nat, x: nat)
      requires Valid() && Has(c) && x in Reach(c)
      ensures x <= c && !uninteresting[x] && Reach(x) <= Reach(c)
      decreases c
    {
      if x != c {
        ReachAnyFrom(c, parents[c], x);
        var i :| 0 <= i < |parents[c]| && x in Reach(parents[c][i]);
        ReachClosed(parents[c][i], x);
        ReachParent(c, parents[c], i);
      }
    }

    /** The commits of a set that change the tree */
    ghost function Changing(s: set<nat>): set<nat> {
      set x | x in s && x < |treesame| && !treesame[x]
    }

    ghost function Count(s: set<nat>): nat {
      |Changing(s)|
    }

    lemma CountOne(s: set<nat>, c: nat)
      requires c !in s && c < |treesame|
      ensures Count(s + {c}) == Count(s) + if treesame[c] then 0 else 1
    {
      if treesame[c] {
        assert Changing(s + {c}) == Changing(s);
      } else {
        assert Changing(s + {c}) == Changing(s) + {c};
      }
    }
  }

  /** What of a set can be reached from a commit has been gone through, but for some still open. */
  ghost predicate Through(g: Graph, s: set<nat>, c: nat, open: set<nat>)
    requires g.Valid() && g.Has(c)
  {
    forall x :: x in s && x in g.Reach(c) ==> Closed(g, s, x) || x in open
  }

  ghost predicate Closed(g: Graph, s: set<nat>, x: nat)
    requires g.Valid()
  {
    g.Has(x) && g.Reach(x) <= s
  }

  /** What is open is after the parent, so the parent does not reach it. */
  lemma ThroughParent(g: Graph, s: set<nat>, start: nat, p: nat, open: set<nat>)
    requires g.Valid() && g.Has(start) && g.Has(p) && Through(g, s, start, open) && g.Reach(p) <= g.Reach(start)
    requires forall x :: x in open ==> x > p
    ensures Through(g, s, p, {})
  {
    forall x | x in s && x in g.Reach(p) ensures Closed(g, s, x) {
      g.ReachClosed(p, x);
    }
  }

  lemma ThroughMore(g: Graph, s: set<nat>, start: nat, p: nat, open: set<nat>)
    requires g.Valid() && g.Has(start) && g.Has(p) && Through(g, s, start, open)
    ensures Through(g, s + g.Reach(p), start, open)
  {
    var t := s + g.Reach(p);
    forall x | x in t && x in g.Reach(start) ensures Closed(g, t, x) || x in open {
      if x in g.Reach(p) {
        g.ReachClosed(p, x);
      }
    }
  }

  /** The graph with first parents only */
  function FirstOnly(g: Graph): (h: Graph)
    requires g.Valid()
    ensures h.Valid() && |h.parents| == |g.parents|
  {
    g.(parents := seq(|g.parents|, c requires 0 <= c < |g.parents| =>
                                     if g.parents[c] == [] then [] else [g.parents[c][0]]))
  }

  /** How many of the parents are interesting */
  function Interesting(g: Graph, ps: seq<nat>): nat
    requires g.Valid() && forall i :: 0 <= i < |ps| ==> ps[i] < |g.parents|
  {
    if ps == [] then 0 else (if g.uninteresting[ps[0]] then 0 else 1) + Interesting(g, ps[1..])
  }

  lemma {:induction false} NoneInteresting(g: Graph, c: nat, ps: seq<nat>)
    requires g.Valid() && g.Has(c) && forall i :: 0 <= i < |ps| ==> ps[i] < c
    ensures Interesting(g, ps) == 0 <==> forall i :: 0 <= i < |ps| ==> g.uninteresting[ps[i]]
    ensures Interesting(g, ps) == 0 ==> g.ReachAny(c, ps) == {}
    decreases |ps|
  {
    if ps != [] {
      NoneInteresting(g, c, ps[1..]);
      assert ps == [ps[0]] + ps[1..];
    }
  }

  /** With a single interesting parent a commit reaches what that one does and itself. */
  lemma {:induction false} OneInteresting(g: Graph, c: nat, ps: seq<nat>, i: nat)
    requires g.Valid() && g.Has(c) && (forall j :: 0 <= j < |ps| ==> ps[j] < c) && i < |ps|
    requires Interesting(g, ps) == 1 && !g.uninteresting[ps[i]]
    ensures g.ReachAny(c, ps) == g.Reach(ps[i])
    decreases |ps|
  {
    NoneInteresting(g, c, ps[1..]);
    if i > 0 {
      assert ps[1..][i - 1] == ps[i];
      assert g.uninteresting[ps[0]];
      OneInteresting(g, c, ps[1..], i - 1);
    }
  }

  // ---------- Weights ----------

  /** What a list of commits to choose from is: interesting, each once, with their interesting parents. */
  ghost predicate IsList(g: Graph, list: seq<nat>) {
    && g.Valid() && (forall i :: 0 <= i < |list| ==> g.Has(list[i]) && !g.uninteresting[list[i]])
    && (forall i, j :: 0 <= i < j < |list| ==> list[i] != list[j])
    && (forall i, k :: 0 <= i < |list| && 0 <= k < |g.parents[list[i]]| && !g.uninteresting[g.parents[list[i]][k]] ==>
          g.parents[list[i]][k] in list)
  }

  /** A weight is the number of commits reached that change the tree, or says how many parents there are. */
  ghost predicate WeightOk(g: Graph, weight: seq<int>, c: nat)
    requires g.Valid() && g.Has(c) && |weight| == |g.parents|
  {
    if weight[c] >= 0 then weight[c] == g.Count(g.Reach(c))
    else if weight[c] == -1 then Interesting(g, g.parents[c]) == 1
    else weight[c] == -2 && Interesting(g, g.parents[c]) >= 2
  }

  ghost predicate WeightsOk(g: Graph, list: seq<nat>, weight: seq<int>) {
    IsList(g, list) && |weight| == |g.parents| && forall i :: 0 <= i < |list| ==> WeightOk(g, weight, list[i])
  }

  /** The weight of a commit with one interesting parent follows from that of the parent. */
  lemma WeightFromParent(g: Graph, c: nat, i: nat)
    requires g.Valid() && g.Has(c) && !g.uninteresting[c] && i < |g.parents[c]| && !g.uninteresting[g.parents[c][i]]
    requires Interesting(g, g.parents[c]) == 1
    ensures g.Count(g.Reach(c)) == g.Count(g.Reach(g.parents[c][i])) + if g.treesame[c] then 0 else 1
  {
    hide Graph.Count;
    OneInteresting(g, c, g.parents[c], i);
    var r := g.Reach(g.parents[c][i]);
    if c in r {
      g.ReachClosed(g.parents[c][i], c);
      assert false;
    }
    g.CountOne(r, c);
    assert g.Reach(c) == r + {c};
  }

  lemma WeightOfRoot(g: Graph, c: nat)
    requires g.Valid() && g.Has(c) && !g.uninteresting[c] && Interesting(g, g.parents[c]) == 0
    ensures g.Count(g.Reach(c)) == if g.treesame[c] then 0 else 1
  {
    NoneInteresting(g, c, g.parents[c]);
    g.CountOne({}, c);
    assert g.Reach(c) == {} + {c};
    assert g.Changing({}) == {};
  }

  ghost function Items(list: seq<nat>): set<nat> {
    set c | c in list
  }

  /** The commits of a list whose weight is known */
  ghost function Known(list: seq<nat>, weight: seq<int>): set<nat> {
    set c | c in list && c < |weight| && weight[c] >= 0
  }

  ghost function NotKnown(list: seq<nat>, weight: seq<int>): set<nat> {
    set c | c in list && c < |weight| && weight[c] < 0
  }

  /** A weight that becomes known */
  lemma KnownOne(g: Graph, list: seq<nat>, weight: seq<int>, c: nat, w: int)
    requires c in list && c < |weight| == |g.treesame| && weight[c] < 0 <= w
    ensures Known(list, weight[c := w]) == Known(list, weight) + {c}
    ensures g.Count(Known(list, weight[c := w])) == g.Count(Known(list, weight)) + if g.treesame[c] then 0 else 1
    ensures |NotKnown(list, weight[c := w])| == |NotKnown(list, weight)| - 1
  {
    hide Graph.Count;
    assert Known(list, weight[c := w]) == Known(list, weight) + {c};
    g.CountOne(Known(list, weight), c);
    assert NotKnown(list, weight[c := w]) == NotKnown(list, weight) - {c};
  }

  /** A list has all that its commits reach. */
  lemma {:induction false} ReachInList(g: Graph, list: seq<nat>, c: nat)
    requires IsList(g, list) && c in list
    ensures g.Reach(c) <= Items(list)
    decreases c
  {
    forall x | x in g.Reach(c) ensures x in list {
      if x != c {
        g.ReachAnyFrom(c, g.parents[c], x);
        var i :| 0 <= i < |g.parents[c]| && x in g.Reach(g.parents[c][i]);
        var k :| 0 <= k < |list| && list[k] == c;
        assert g.parents[list[k]][i] in list;
        ReachInList(g, list, g.parents[c][i]);
      }
    }
  }

  /** Close enough to the middle for the search to stop; never for a commit that does not change the tree. */
  function ApproxHalfway(treesame: bool, w: int, nr: int): bool {
    var diff := 2 * w - nr;
    !treesame && (-1 <= diff <= 1 || (if diff < 0 then -diff else diff) < nr / 1024)
  }

  function Distance(w: int, nr: int): int {
    if nr - w < w then nr - w else w
  }

  datatype Option<T> = None | Some(value: T)

  /** Every merge changes the tree. */
  ghost predicate MergesCount(g: Graph, list: seq<nat>)
    requires IsList(g, list)
  {
    forall i :: 0 <= i < |list| && Interesting(g, g.parents[list[i]]) >= 2 ==> !g.treesame[list[i]]
  }

  /** The number counted is at least that of the commits that change the tree and have a weight. */
  ghost predicate CountedOk(g: Graph, list: seq<nat>, weight: seq<int>, counted: nat) {
    && WeightsOk(g, list, weight) && counted >= g.Count(Known(list, weight))
    && (MergesCount(g, list) ==> counted == g.Count(Known(list, weight)))
  }

  ghost predicate NoMerges(list: seq<nat>, weight: seq<int>) {
    forall i :: 0 <= i < |list| && list[i] < |weight| ==> weight[list[i]] != -2
  }

  lemma SetWeight(g: Graph, list: seq<nat>, weight: seq<int>, counted: nat, c: nat, w: nat, plus: nat)
    requires CountedOk(g, list, weight, counted) && c in list && weight[c] < 0 && w == g.Count(g.Reach(c))
    requires plus == 1 || (plus == 0 && g.treesame[c])
    requires plus == 1 && g.treesame[c] ==> weight[c] == -2
    ensures CountedOk(g, list, weight[c := w], counted + plus)
    ensures |NotKnown(list, weight[c := w])| < |NotKnown(list, weight)|
  {
    hide Graph.Count;
    hide Interesting;
    KnownOne(g, list, weight, c, w);
    var after := weight[c := w];
    forall i | 0 <= i < |list| ensures WeightOk(g, after, list[i]) {
      assert WeightOk(g, weight, list[i]);
    }
    if plus == 1 && g.treesame[c] {
      var i :| 0 <= i < |list| && list[i] == c;
      assert WeightOk(g, weight, list[i]);
      assert !MergesCount(g, list);
    }
  }

  /** The commits of a list that are merges, and those without interesting parents */
  ghost function Merges(g: Graph, list: seq<nat>): set<nat>
    requires IsList(g, list)
  {
    set c | c in list && Interesting(g, g.parents[c]) >= 2
  }

  ghost function Roots(g: Graph, list: seq<nat>): set<nat>
    requires IsList(g, list)
  {
    set c | c in list && Interesting(g, g.parents[c]) == 0
  }

  /** What is counted before weights are filled in: merges count even if they do not change the tree. */
  ghost function CountedFirst(g: Graph, list: seq<nat>): nat
    requires IsList(g, list)
  {
    g.Count(Roots(g, list)) + |Merges(g, list)|
  }

  /** Parents come before their children. */
  ghost predicate OldestFirst(g: Graph, list: seq<nat>)
    requires IsList(g, list)
  {
    forall i, k :: 0 <= i < |list| && 0 <= k < |g.parents[list[i]]| && !g.uninteresting[g.parents[list[i]][k]] ==>
      g.parents[list[i]][k] in list[..i]
  }

  /** Weights are known of the commits without interesting parents, and of no others. */
  ghost predicate JustRoots(g: Graph, list: seq<nat>, weight: seq<int>)
    requires IsList(g, list) && |weight| == |g.parents|
  {
    forall c :: c in list ==> (weight[c] >= 0 <==> Interesting(g, g.parents[c]) == 0)
  }

  /** Weights are known of the commits that do not have one interesting parent. */
  ghost predicate NoneFilled(g: Graph, list: seq<nat>, weight: seq<int>)
    requires IsList(g, list) && |weight| == |g.parents|
  {
    forall c :: c in list ==> (weight[c] >= 0 <==> Interesting(g, g.parents[c]) != 1)
  }

  /** The weight a commit starts with */
  ghost predicate StartsAs(g: Graph, w: int, c: nat)
    requires g.Valid() && g.Has(c)
  {
    var n := Interesting(g, g.parents[c]);
    if n == 0 then w == g.Count(g.Reach(c)) else w == if n == 1 then -1 else -2
  }

  lemma StartsRight(g: Graph, c: nat)
    requires g.Valid() && g.Has(c) && !g.uninteresting[c]
    ensures StartsAs(g, match Interesting(g, g.parents[c]) case 0 => (if g.treesame[c] then 0 else 1) case 1 => -1
                     case _ => -2, c)
  {
    hide Graph.Count;
    if Interesting(g, g.parents[c]) == 0 {
      WeightOfRoot(g, c);
    }
  }

  lemma StartedWell(g: Graph, list: seq<nat>, weight: seq<int>)
    requires IsList(g, list) && |weight| == |g.parents|
    requires forall j :: 0 <= j < |list| ==> StartsAs(g, weight[list[j]], list[j])
    ensures WeightsOk(g, list, weight) && JustRoots(g, list, weight)
  {
    hide Graph.Count;
    hide Interesting;
    forall c | c in list ensures WeightOk(g, weight, c) && (weight[c] >= 0 <==> Interesting(g, g.parents[c]) == 0) {
      var j :| 0 <= j < |list| && list[j] == c;
      assert StartsAs(g, weight[list[j]], list[j]);
    }
  }

  lemma RootsKnown(g: Graph, list: seq<nat>, weight: seq<int>)
    requires WeightsOk(g, list, weight) && JustRoots(g, list, weight)
    ensures Known(list, weight) == Roots(g, list)
    ensures forall c :: c in list ==> (weight[c] == -2 <==> c in Merges(g, list))
  {
    hide Interesting;
    forall c | c in list ensures WeightOk(g, weight, c) {
      var i :| 0 <= i < |list| && list[i] == c;
      assert WeightOk(g, weight, list[i]);
    }
  }

  /** In a list that is in order, the first commit without a weight has a parent with one. */
  lemma NextHasParent(g: Graph, list: seq<nat>, weight: seq<int>, i: nat)
    requires WeightsOk(g, list, weight) && NoMerges(list, weight) && OldestFirst(g, list)
    requires i < |list| && weight[list[i]] < 0 && forall j :: 0 <= j < i ==> weight[list[j]] >= 0
    ensures exists k ::
              0 <= k < |g.parents[list[i]]| && !g.uninteresting[g.parents[list[i]][k]]
              && weight[g.parents[list[i]][k]] >= 0
  {
    var c := list[i];
    assert WeightOk(g, weight, list[i]);
    NoneInteresting(g, c, g.parents[c]);
    var k :| 0 <= k < |g.parents[c]| && !g.uninteresting[g.parents[c][k]];
    assert g.parents[list[i]][k] in list[..i];
  }

  /**
   A root, three merges that do not change the tree, and three commits in a row: the merges are counted, so the
   weights of the row are not filled in, and the root is chosen though the first of the row is closer to the middle.
   */
  lemma CrowdedOut() returns (g: Graph, list: seq<nat>)
    ensures g == CrowdedGraph() && list == [0, 1, 2, 3, 4, 5, 6, 7]
    ensures IsList(g, list) && OldestFirst(g, list) && g.Count(Items(list)) == 4 == CountedFirst(g, list)
    ensures forall c :: c in list && !g.treesame[c] && Interesting(g, g.parents[c]) != 1 ==> c == 0
    ensures 0 in list && !g.treesame[0] && Interesting(g, g.parents[0]) == 0
    ensures 5 in list && !g.treesame[5] && Interesting(g, g.parents[5]) == 1
    ensures Distance(g.Count(g.Reach(0)), 4) < Distance(g.Count(g.Reach(5)), 4)
  {
    g := CrowdedGraph();
    list := [0, 1, 2, 3, 4, 5, 6, 7];
    CrowdedList(g, list);
    CrowdedParents(g);
    CrowdedItems(g, list);
    assert g.parents[5] == [0] && !g.treesame[5] && !g.treesame[0];
    hide IsCrowded;
    hide IsList;
    hide OldestFirst;
    hide Interesting;
    hide Graph.Count;
    hide CountedFirst;
    CrowdedCounts(g, list);
    WeightOfRoot(g, 0);
    WeightFromParent(g, 5, 0);
  }

  function CrowdedGraph(): Graph {
    Graph([[], [0], [0, 1], [0, 2], [0, 3], [0], [5], [6]], seq(8, _ => false),
          [false, true, true, true, true, false, false, false])
  }

  lemma CrowdedItems(g: Graph, list: seq<nat>)
    requires IsCrowded(g) && list == [0, 1, 2, 3, 4, 5, 6, 7]
    ensures forall c :: c in list <==> 0 <= c < 8
    ensures forall c :: 0 <= c < 8 ==> (g.treesame[c] <==> 1 <= c <= 4)
  {
    forall c | 0 <= c < 8 ensures c in list {
      assert list[c] == c;
    }
  }

  lemma CrowdedCounts(g: Graph, list: seq<nat>)
    requires IsList(g, list) && |g.treesame| == 8
    requires forall c :: c in list <==> 0 <= c < 8
    requires forall c :: 0 <= c < 8 ==> (g.treesame[c] <==> 1 <= c <= 4)
    requires forall c :: 0 <= c < 8 ==>
               Interesting(g, g.parents[c]) == if c == 0 then 0 else if 2 <= c <= 4 then 2 else 1
    ensures g.Count(Items(list)) == 4 == CountedFirst(g, list)
  {
    hide Interesting;
    assert g.Changing(Items(list)) == {0, 5, 6, 7};
    assert Roots(g, list) == {0} && g.Changing({0}) == {0};
    assert Merges(g, list) == {2, 3, 4};
  }

  ghost predicate IsCrowded(g: Graph) {
    && g.parents == [[], [0], [0, 1], [0, 2], [0, 3], [0], [5], [6]]
    && g.treesame == [false, true, true, true, true, false, false, false]
    && |g.uninteresting| == 8 && forall c :: 0 <= c < 8 ==> !g.uninteresting[c]
  }

  lemma CrowdedList(g: Graph, list: seq<nat>)
    requires IsCrowded(g) && list == [0, 1, 2, 3, 4, 5, 6, 7]
    ensures IsList(g, list) && OldestFirst(g, list)
  {
    forall i | 0 <= i < 8 ensures list[i] == i {
    }
    forall i, k | 0 <= i < 8 && 0 <= k < |g.parents[list[i]]| ensures g.parents[list[i]][k] < i {
    }
    forall i, k | 0 <= i < 8 && 0 <= k < |g.parents[list[i]]| ensures g.parents[list[i]][k] in list[..i] {
      var p := g.parents[list[i]][k];
      assert list[..i][p] == p;
    }
  }

  lemma CrowdedParents(g: Graph)
    requires IsCrowded(g) && g.Valid()
    ensures forall c :: 0 <= c < 8 ==>
      Interesting(g, g.parents[c]) == if c == 0 then 0 else if 2 <= c <= 4 then 2 else 1
  {
    forall c | 0 <= c < 8 ensures Interesting(g, g.parents[c]) == if c == 0 then 0 else if 2 <= c <= 4 then 2 else 1 {
      var ps := g.parents[c];
      if |ps| == 1 {
        assert ps[1..] == [];
      } else if |ps| == 2 {
        assert ps[1..] == [ps[1]] && ps[1..][1..] == [];
      }
    }
  }

  class Bisection {
    const g: Graph
    const firstParent: bool
    var flagged: set<nat>
    var weight: seq<int>

    /** The graph that counts */
    ghost function V(): Graph
      requires g.Valid()
    {
      if firstParent then FirstOnly(g) else g
    }

    constructor (g: Graph, firstParent: bool)
      requires g.Valid()
      ensures this.g == g && this.firstParent == firstParent && flagged == {}
    {
      this.g, this.firstParent := g, firstParent;
      flagged, weight := {}, [];
    }

    /** Counts from all parents of a commit but the first. */
    method CountOthers(entry: nat, ghost start: nat, ghost open: set<nat>) returns (nr: int)
      requires g.Valid() && g.Has(start) && entry <= start && g.Reach(entry) <= g.Reach(start)
               && !g.uninteresting[entry]
      requires Through(g, flagged, start, open) && (forall x :: x in open ==> x >= entry) && g.parents[entry] != []
      modifies this`flagged
      ensures old(flagged) <= flagged <= old(flagged) + g.Reach(entry) && Through(g, flagged, start, open)
      ensures g.ReachAny(entry, g.parents[entry][1..]) <= flagged
      ensures nr == g.Count(flagged) - g.Count(old(flagged))
      decreases entry, 0
    {
      hide Through;
      hide Graph.Count;
      nr := 0;
      var ps := g.parents[entry];
      var k := 1;
      ghost var before := flagged;
      assert ps[|ps|..] == [];
      while k < |ps|
        invariant 1 <= k <= |ps| && before <= flagged <= before + g.Reach(entry) && Through(g, flagged, start, open)
        invariant nr == g.Count(flagged) - g.Count(before)
        invariant g.ReachAny(entry, ps[1..]) <= flagged + g.ReachAny(entry, ps[k..])
      {
        g.ReachParent(entry, ps, k);
        ThroughParent(g, flagged, start, ps[k], open);
        ThroughMore(g, flagged, start, ps[k], open);
        assert ps[k..][1..] == ps[k + 1..];
        var more := CountDistance(ps[k]);
        nr := nr + more;
        k := k + 1;
      }
    }

    /** Flags what a commit reaches, and counts those commits not flagged before that change the tree. */
    method CountDistance(start: nat) returns (nr: int)
      requires g.Valid() && g.Has(start) && Through(g, flagged, start, {})
      modifies this`flagged
      ensures flagged == old(flagged) + g.Reach(start) && nr == g.Count(flagged) - g.Count(old(flagged))
      decreases start, 1
    {
      nr := 0;
      var entry: nat := start;
      ghost var open: set<nat>, before := {}, flagged;
      while true
        invariant entry <= start && g.Reach(entry) <= g.Reach(start)
        invariant before <= flagged <= before + g.Reach(start) && g.Reach(start) <= flagged + g.Reach(entry)
        invariant nr == g.Count(flagged) - g.Count(before)
        invariant Through(g, flagged, start, open) && forall x :: x in open ==> x > entry
        decreases entry
      {
        hide Graph.Count;
        if g.uninteresting[entry] || entry in flagged {
          if entry in flagged && !g.uninteresting[entry] {
            assert Closed(g, flagged, entry);
          }
          return;
        }
        g.CountOne(flagged, entry);
        if !g.treesame[entry] {
          nr := nr + 1;
        }
        ThroughOpen(g, flagged, start, entry, open);
        flagged := flagged + {entry};
        open := open + {entry};
        var ps := g.parents[entry];
        if ps == [] {
          return;
        }
        var more := CountOthers(entry, start, open);
        nr := nr + more;
        g.ReachParent(entry, ps, 0);
        entry := ps[0];
      }
    }

    method CountInterestingParents(c: nat) returns (count: nat)
      requires g.Valid() && g.Has(c)
      ensures count == Interesting(V(), V().parents[c])
    {
      var ps := g.parents[c];
      count := 0;
      var i := 0;
      assert ps[0..] == ps;
      while i < |ps|
        invariant i <= |ps| && (firstParent ==> i == 0)
        invariant count + Interesting(g, ps[i..]) == Interesting(g, ps)
        invariant i == 0 ==> count == 0
      {
        assert ps[i..][1..] == ps[i + 1..];
        if !g.uninteresting[ps[i]] {
          count := count + 1;
        }
        if firstParent {
          FirstCounts(g, c);
          return;
        }
        i := i + 1;
      }
    }

    /** Gives commits without interesting parents their weight, and the others the kind they are of. */
    method Initialize(list: seq<nat>) returns (counted: nat)
      requires g.Valid() && IsList(V(), list)
      modifies this`weight
      ensures WeightsOk(V(), list, weight) && counted == V().Count(Known(list, weight)) && JustRoots(V(), list, weight)
    {
      hide Graph.Count;
      hide Interesting;
      hide StartsAs;
      weight := seq(|g.parents|, _ => 0);
      counted := 0;
      ghost var v := V();
      assert list[..0] == [];
      assert Known(list[..0], weight) == {};
      CountNone(v);
      var i := 0;
      while i < |list|
        invariant i <= |list| && |weight| == |g.parents| && forall j :: i <= j < |list| ==> weight[list[j]] == 0
        invariant forall j :: 0 <= j < i ==> StartsAs(v, weight[list[j]], list[j])
        invariant counted == v.Count(Known(list[..i], weight))
      {
        var c := list[i];
        var n := CountInterestingParents(c);
        StartsRight(v, c);
        ghost var before := weight;
        if n == 0 {
          if !g.treesame[c] {
            weight := weight[c := 1];
            counted := counted + 1;
          }
        } else if n == 1 {
          weight := weight[c := -1];
        } else {
          weight := weight[c := -2];
        }
        KnownNext(v, list, before, weight, i);
        i := i + 1;
      }
      assert list[..i] == list;
      StartedWell(v, list, weight);
    }

    /** Takes the flags off the commits of a list. */
    method ClearDistance(list: seq<nat>)
      modifies this`flagged
      ensures flagged == old(flagged) - Items(list)
    {
      var i := 0;
      while i < |list|
        invariant i <= |list| && flagged == old(flagged) - Items(list[..i])
      {
        assert Items(list[..i + 1]) == Items(list[..i]) + {list[i]};
        flagged := flagged - {list[i]};
        i := i + 1;
      }
      assert list[..i] == list;
    }

    /** Counts what one merge reaches. */
    method CountMerge(list: seq<nat>, c: nat, ghost counted: nat)
      requires g.Valid() && CountedOk(V(), list, weight, counted) && flagged == {} && c in list && weight[c] == -2
      modifies this`weight, this`flagged
      ensures CountedOk(V(), list, weight, counted + 1) && flagged == {}
      ensures |weight| == |old(weight)| && weight == old(weight)[c := weight[c]] && weight[c] >= 0
    {
      hide Graph.Count;
      hide Interesting;
      ghost var v := V();
      ghost var i :| 0 <= i < |list| && list[i] == c;
      assert WeightOk(v, weight, list[i]);
      NoMergeInFirst(g, c, firstParent);
      var n := CountDistance(c);
      CountNone(g);
      assert flagged == g.Reach(c);
      ReachInList(g, list, c);
      SetWeight(v, list, weight, counted, c, n, 1);
      weight := weight[c := n];
      ClearDistance(list);
    }

    /** Counts the merges one by one, unless one is close enough to the middle. */
    method CountMerges(list: seq<nat>, nr: nat, counted0: nat) returns (counted: nat, found: Option<nat>)
      requires g.Valid() && CountedOk(V(), list, weight, counted0) && flagged == {} && JustRoots(V(), list, weight)
      modifies this`weight, this`flagged
      ensures CountedOk(V(), list, weight, counted) && flagged == {}
      ensures found.None? ==>
        NoMerges(list, weight) && NoneFilled(V(), list, weight) && counted == counted0 + |Merges(V(), list)|
      ensures forall c :: c in list && Interesting(V(), V().parents[c]) == 1 ==> weight[c] < 0
      ensures found.Some? ==>
                found.value in list && weight[found.value] >= 0
                && ApproxHalfway(g.treesame[found.value], weight[found.value], nr)
    {
      hide Graph.Count;
      hide Interesting;
      hide WeightOk;
      hide ApproxHalfway;
      counted, found := counted0, None;
      ghost var v := V();
      ghost var merges, start := Merges(v, list), weight;
      RootsKnown(v, list, weight);
      ghost var left := merges;
      var i := 0;
      while i < |list|
        invariant i <= |list| && CountedOk(v, list, weight, counted) && flagged == {}
        invariant left <= merges && counted + |left| == counted0 + |merges|
        invariant forall j :: 0 <= j < i ==> list[j] !in left
        invariant forall c :: c in list ==> if c in merges - left then weight[c] >= 0 else weight[c] == start[c]
      {
        var c := list[i];
        assert c in left <==> weight[c] == -2;
        if weight[c] == -2 {
          CountMerge(list, c, counted);
          if ApproxHalfway(g.treesame[c], weight[c], nr) {
            return counted + 1, Some(c);
          }
          counted := counted + 1;
          left := left - {c};
        }
        i := i + 1;
      }
      assert left == {};
    }

    /** A parent whose weight is known, if there is one. */
    method KnownParent(list: seq<nat>, c: nat) returns (q: Option<nat>)
      requires g.Valid() && WeightsOk(V(), list, weight) && c in list
      ensures q.Some? ==> exists i ::
                0 <= i < |V().parents[c]| && V().parents[c][i] == q.value
                && !g.uninteresting[q.value] && weight[q.value] >= 0
      ensures q.None? ==> forall i :: 0 <= i < |V().parents[c]| && !g.uninteresting[V().parents[c][i]] ==>
              weight[V().parents[c][i]] < 0
    {
      hide WeightOk;
      var ps := g.parents[c];
      var i := 0;
      while i < |ps|
        invariant i <= |ps|
        invariant forall k :: 0 <= k < i && !g.uninteresting[ps[k]] ==> weight[ps[k]] < 0
        invariant firstParent ==> i == 0
      {
        if !g.uninteresting[ps[i]] && 0 <= weight[ps[i]] {
          assert V().parents[c][i] == ps[i];
          return Some(ps[i]);
        }
        if firstParent {
          return None;
        }
        i := i + 1;
      }
      return None;
    }

    /** Gives a commit a weight if it has none and a parent has. */
    method FillOne(list: seq<nat>, c: nat, counted0: nat) returns (counted: nat)
      requires g.Valid() && CountedOk(V(), list, weight, counted0) && NoMerges(list, weight) && c in list
               && weight[c] < 0
      modifies this`weight
      ensures CountedOk(V(), list, weight, counted) && NoMerges(list, weight)
      ensures |weight| == |old(weight)| && forall x :: 0 <= x < |weight| && x != c ==> weight[x] == old(weight)[x]
      ensures if weight[c] >= 0 then |NotKnown(list, weight)| < |NotKnown(list, old(weight))| else unchanged(this)
      ensures (exists i ::
                0 <= i < |V().parents[c]| && !g.uninteresting[V().parents[c][i]]
                && old(weight)[V().parents[c][i]] >= 0) ==> weight[c] >= 0
    {
      hide Graph.Count;
      hide Interesting;
      hide WeightOk;
      hide IsList;
      counted := counted0;
      ghost var v := V();
      ListInside(v, list, weight);
      var q := KnownParent(list, c);
      if q.Some? {
        ghost var k :| 0 <= k < |v.parents[c]| && v.parents[c][k] == q.value && !g.uninteresting[q.value]
          && weight[q.value] >= 0;
        ParentWeight(v, list, weight, c, k);
        if !g.treesame[c] {
          SetWeight(v, list, weight, counted, c, weight[q.value] + 1, 1);
          weight := weight[c := weight[q.value] + 1];
          counted := counted + 1;
        } else {
          SetWeight(v, list, weight, counted, c, weight[q.value], 0);
          weight := weight[c := weight[q.value]];
        }
      }
    }

    /** One pass over the list that gives commits a weight from a parent's; the first of those without is among them. */
    method FillPass(list: seq<nat>, nr: nat, counted0: nat, ghost first: nat) returns (counted: nat, found: Option<nat>)
      requires g.Valid() && CountedOk(V(), list, weight, counted0) && NoMerges(list, weight)
      requires first in list && weight[first] < 0 && forall c :: c in list && c < first ==> weight[c] >= 0
      modifies this`weight
      ensures CountedOk(V(), list, weight, counted) && NoMerges(list, weight)
      ensures found.None? ==> |NotKnown(list, weight)| < |NotKnown(list, old(weight))|
      ensures found.None? && OldestFirst(V(), list) ==> forall c :: c in list ==> weight[c] >= 0
      ensures found.Some? ==>
                found.value in list && weight[found.value] >= 0
                && ApproxHalfway(g.treesame[found.value], weight[found.value], nr)
    {
      hide Graph.Count;
      hide Interesting;
      hide WeightOk;
      hide ApproxHalfway;
      hide OldestFirst;
      hide NotKnown;
      hide Known;
      counted, found := counted0, None;
      ghost var v, before := V(), weight;
      var i := 0;
      while i < |list|
        invariant i <= |list| && CountedOk(v, list, weight, counted) && NoMerges(list, weight)
        invariant |weight| == |before| && forall c :: c in list && c < first ==> weight[c] >= 0
        invariant forall j :: 0 <= j < i && list[j] == first ==> weight[first] >= 0
        invariant OldestFirst(v, list) ==> forall j :: 0 <= j < i ==> weight[list[j]] >= 0
        invariant if weight[first] >= 0 then |NotKnown(list, weight)| < |NotKnown(list, before)|
                  else |NotKnown(list, weight)| <= |NotKnown(list, before)|
      {
        var c := list[i];
        if weight[c] < 0 {
          if c == first {
            FirstHasParent(v, list, weight, first);
          }
          if OldestFirst(v, list) {
            NextHasParent(v, list, weight, i);
          }
          counted := FillOne(list, c, counted);
          if weight[c] >= 0 && ApproxHalfway(g.treesame[c], weight[c], nr) {
            return counted, Some(c);
          }
        }
        i := i + 1;
      }
    }

    /** Fills in weights until all that count have one; there is always one to fill in. */
    method FillBlanks(list: seq<nat>, nr: nat, counted0: nat) returns (counted: nat, found: Option<nat>)
      requires g.Valid() && CountedOk(V(), list, weight, counted0) && NoMerges(list, weight)
               && nr == V().Count(Items(list))
      modifies this`weight
      ensures CountedOk(V(), list, weight, counted)
      ensures found.None? ==> counted >= nr
      ensures counted0 >= nr ==> found.None? && unchanged(this)
      ensures found.None? && counted0 < nr && OldestFirst(V(), list) ==> forall c :: c in list ==> weight[c] >= 0
      ensures found.Some? ==>
                found.value in list && weight[found.value] >= 0
                && ApproxHalfway(g.treesame[found.value], weight[found.value], nr)
    {
      hide WeightOk;
      counted, found := counted0, None;
      while counted < nr
        invariant CountedOk(V(), list, weight, counted) && NoMerges(list, weight) && found.None?
        invariant (counted == counted0 && weight == old(weight)) ||
          (counted0 < nr && (OldestFirst(V(), list) ==> forall c :: c in list ==> weight[c] >= 0))
        decreases |NotKnown(list, weight)|
      {
        ghost var first := FirstUnknown(V(), list, weight);
        counted, found := FillPass(list, nr, counted, first);
        if found.Some? {
          return;
        }
      }
    }

    /** The commit farthest from both ends among those whose weight is known */
    method BestBisection(list: seq<nat>, nr: nat) returns (best: nat)
      requires list != [] && |g.treesame| == |weight|
      requires forall i :: 0 <= i < |list| ==> list[i] < |weight| && weight[list[i]] <= nr
      ensures best in list
      ensures forall c :: c in list && !g.treesame[c] && weight[c] >= 0 ==>
        !g.treesame[best] && weight[best] >= 0 && Distance(weight[best], nr) >= Distance(weight[c], nr)
    {
      best := list[0];
      var bestDistance := -1;
      var i := 0;
      while i < |list|
        invariant i <= |list| && best in list && bestDistance >= -1
        invariant bestDistance >= 0 ==>
                    !g.treesame[best] && weight[best] >= 0 && bestDistance == Distance(weight[best], nr)
        invariant forall c :: c in list[..i] && !g.treesame[c] && weight[c] >= 0 ==>
                  bestDistance >= Distance(weight[c], nr) >= 0
      {
        var c := list[i];
        if !g.treesame[c] {
          var distance := weight[c];
          if nr - distance < distance {
            distance := nr - distance;
          }
          if distance > bestDistance {
            best, bestDistance := c, distance;
          }
        }
        assert list[..i + 1] == list[..i] + [c];
        i := i + 1;
      }
      assert list[..i] == list;
    }

    /**
     The commit found is close enough to the middle, or no commit whose weight was found is closer. If every
     merge changes the tree, that is every commit that does. In a list in order it is so exactly when there is
     something left to count after the merges, or nothing left that changes the tree. When nothing is left to count
     no commit with one interesting parent gets a weight, and none is chosen if another commit changes the tree.
     */
    method DoFindBisection(list: seq<nat>, nr: nat) returns (best: nat)
      requires g.Valid() && IsList(V(), list) && list != [] && flagged == {} && nr == V().Count(Items(list))
      modifies this`weight, this`flagged
      ensures best in list && WeightsOk(V(), list, weight)
      ensures
        || (weight[best] >= 0 && ApproxHalfway(g.treesame[best], weight[best], nr))
        || ((forall c :: c in list && !g.treesame[c] && weight[c] >= 0 ==>
              !g.treesame[best] && weight[best] >= 0 && Distance(weight[best], nr) >= Distance(weight[c], nr))
            && (MergesCount(V(), list) ==> forall c :: c in list && !g.treesame[c] ==> weight[c] >= 0)
            && (OldestFirst(V(), list) ==> ((forall c :: c in list && !g.treesame[c] ==> weight[c] >= 0) <==>
                  CountedFirst(V(), list) < nr || forall c :: c in list && !g.treesame[c] ==>
                    Interesting(V(), V().parents[c]) != 1)))
      ensures CountedFirst(V(), list) >= nr ==>
        && (forall c :: c in list && Interesting(V(), V().parents[c]) == 1 ==> weight[c] < 0)
        && ((exists c :: c in list && !g.treesame[c] && Interesting(V(), V().parents[c]) != 1) ==>
              !g.treesame[best] && Interesting(V(), V().parents[best]) != 1)
    {
      hide Graph.Count;
      hide WeightOk;
      hide Interesting;
      var counted := Initialize(list);
      RootsKnown(V(), list, weight);
      var found;
      counted, found := CountMerges(list, nr, counted);
      if found.Some? {
        return found.value;
      }
      counted, found := FillBlanks(list, nr, counted);
      if found.Some? {
        return found.value;
      }
      WeightsBounded(V(), list, weight);
      AllKnown(V(), list, weight, counted);
      best := BestBisection(list, nr);
    }

    /** Reverses the list without the uninteresting commits, and counts those that change the tree. */
    method Reverse(commits: seq<nat>) returns (list: seq<nat>, nr: nat)
      requires g.Valid() && AreCommits(V(), commits)
      ensures IsList(V(), list) && nr == V().Count(Items(list))
      ensures forall c :: c in list <==> c in commits && g.Has(c) && !g.uninteresting[c]
    {
      hide Graph.Count;
      list, nr := [], 0;
      ghost var v := V();
      CountNone(v);
      var i := 0;
      assert Items([]) == {};
      while i < |commits|
        invariant i <= |commits| && nr == v.Count(Items(list))
        invariant forall c :: c in list <==> c in commits[..i] && g.Has(c) && !g.uninteresting[c]
        invariant forall a, b :: 0 <= a < b < |list| ==> list[a] != list[b]
      {
        var c := commits[i];
        assert commits[..i + 1] == commits[..i] + [c];
        if !g.uninteresting[c] {
          assert c !in list;
          v.CountOne(Items(list), c);
          assert Items([c] + list) == Items(list) + {c};
          list := [c] + list;
          if !g.treesame[c] {
            nr := nr + 1;
          }
        }
        i := i + 1;
      }
      assert commits[..i] == commits;
      forall a | 0 <= a < |list| ensures g.Has(list[a]) && !g.uninteresting[list[a]] && ParentsIn(v, list[a], commits) {
        assert list[a] in list;
        var j :| 0 <= j < |commits| && commits[j] == list[a];
      }
    }

    /** all is the number of commits that change the tree, and reaches that of those the commit found reaches. */
    method FindBisection(commits: seq<nat>) returns (best: Option<nat>, reaches: int, all: nat)
      requires g.Valid() && flagged == {} && AreCommits(V(), commits)
      modifies this`weight, this`flagged
      ensures best.None? <==> forall c :: c in commits ==> g.Has(c) && g.uninteresting[c]
      ensures best.Some? ==>
        && best.value in commits && g.Has(best.value) && !g.uninteresting[best.value]
        && (reaches >= 0 ==> reaches == V().Count(V().Reach(best.value)))
        && (ApproxHalfway(g.treesame[best.value], reaches, all)
            || forall c ::
                 c in commits && g.Has(c) && !g.uninteresting[c] && !g.treesame[c] && TreesCount(V(), commits) ==>
                   && !g.treesame[best.value] && reaches >= 0
                   && Distance(reaches, all) >= Distance(V().Count(V().Reach(c)), all))
    {
      hide Graph.Count;
      var list;
      list, all := Reverse(commits);
      if list == [] {
        assert forall c :: c in commits ==> g.Has(c) && (g.uninteresting[c] || c in list);
        return None, 0, all;
      }
      assert list[0] in list;
      var b := DoFindBisection(list, all);
      WeightsMean(V(), list, weight, commits);
      best, reaches := Some(b), weight[b];
    }
  }

  /** Each commit once, with the interesting parents of those that are interesting. */
  ghost predicate AreCommits(g: Graph, commits: seq<nat>) {
    && g.Valid() && (forall i :: 0 <= i < |commits| ==> g.Has(commits[i]))
    && (forall i, j :: 0 <= i < j < |commits| ==> commits[i] != commits[j])
    && (forall i :: 0 <= i < |commits| ==> ParentsIn(g, commits[i], commits))
  }

  ghost predicate ParentsIn(g: Graph, c: nat, commits: seq<nat>)
    requires g.Valid()
  {
    g.Has(c) && !g.uninteresting[c] ==>
      forall k :: 0 <= k < |g.parents[c]| && !g.uninteresting[g.parents[c][k]] ==> g.parents[c][k] in commits
  }

  /** Every merge among the commits changes the tree. */
  ghost predicate TreesCount(g: Graph, commits: seq<nat>)
    requires g.Valid()
  {
    forall c :: c in commits && g.Has(c) && !g.uninteresting[c] && Interesting(g, g.parents[c]) >= 2 ==> !g.treesame[c]
  }

  /** In the history of CrowdedOut the root is chosen. */
  method ChooseInCrowd() returns (best: nat)
    ensures best == 0
  {
    hide CrowdedGraph;
    hide IsList;
    hide OldestFirst;
    hide MergesCount;
    hide WeightOk;
    hide Interesting;
    hide Graph.Count;
    hide CountedFirst;
    hide Distance;
    var list: seq<nat> := [0, 1, 2, 3, 4, 5, 6, 7];
    ghost var g, _ := CrowdedOut();
    assert g.Valid() by { ListIsValid(g, list); }
    var b := new Bisection(CrowdedGraph(), false);
    assert 0 in list && !g.treesame[0] && Interesting(g, g.parents[0]) != 1;
    best := b.DoFindBisection(list, 4);
  }

  lemma ListIsValid(g: Graph, list: seq<nat>)
    requires IsList(g, list)
    ensures g.Valid()
  {
  }

  lemma WeightsMean(g: Graph, list: seq<nat>, weight: seq<int>, commits: seq<nat>)
    requires WeightsOk(g, list, weight) && forall c :: c in list ==> c in commits
    ensures forall c :: c in list && weight[c] >= 0 ==> weight[c] == g.Count(g.Reach(c))
    ensures TreesCount(g, commits) ==> MergesCount(g, list)
  {
    hide Graph.Count;
    hide Interesting;
    forall c | c in list && weight[c] >= 0 ensures weight[c] == g.Count(g.Reach(c)) {
      var i :| 0 <= i < |list| && list[i] == c;
      assert WeightOk(g, weight, list[i]);
    }
  }

  lemma ListInside(g: Graph, list: seq<nat>, weight: seq<int>)
    requires WeightsOk(g, list, weight)
    ensures g.Valid() && |weight| == |g.parents| && forall i :: 0 <= i < |list| ==> list[i] < |weight|
    ensures forall i :: 0 <= i < |list| ==> !g.uninteresting[list[i]]
  {
    hide WeightOk;
  }

  /** The first commit without a weight has one interesting parent, and that has a weight. */
  lemma FirstHasParent(g: Graph, list: seq<nat>, weight: seq<int>, c: nat)
    requires WeightsOk(g, list, weight) && NoMerges(list, weight) && c in list && weight[c] < 0
    requires forall x :: x in list && x < c ==> weight[x] >= 0
    ensures exists i :: 0 <= i < |g.parents[c]| && !g.uninteresting[g.parents[c][i]] && weight[g.parents[c][i]] >= 0
  {
    var k :| 0 <= k < |list| && list[k] == c;
    assert WeightOk(g, weight, list[k]);
    NoneInteresting(g, c, g.parents[c]);
    var i :| 0 <= i < |g.parents[c]| && !g.uninteresting[g.parents[c][i]];
    assert g.parents[list[k]][i] in list;
  }

  lemma ParentWeight(g: Graph, list: seq<nat>, weight: seq<int>, c: nat, i: nat)
    requires WeightsOk(g, list, weight) && NoMerges(list, weight) && c in list && weight[c] < 0
    requires i < |g.parents[c]| && !g.uninteresting[g.parents[c][i]] && weight[g.parents[c][i]] >= 0
    ensures g.Count(g.Reach(c)) == weight[g.parents[c][i]] + if g.treesame[c] then 0 else 1
  {
    hide Graph.Count;
    var k :| 0 <= k < |list| && list[k] == c;
    assert WeightOk(g, weight, list[k]);
    WeightFromParent(g, c, i);
    var q := g.parents[c][i];
    assert g.parents[list[k]][i] in list;
    var m :| 0 <= m < |list| && list[m] == q;
    assert WeightOk(g, weight, list[m]);
  }

  /** If not all that count are counted, some commit has no weight; one of these is the first. */
  lemma FirstUnknown(g: Graph, list: seq<nat>, weight: seq<int>) returns (first: nat)
    requires WeightsOk(g, list, weight) && g.Count(Known(list, weight)) < g.Count(Items(list))
    ensures first in list && weight[first] < 0 && forall c :: c in list && c < first ==> weight[c] >= 0
  {
    assert (forall c :: c in list ==> weight[c] >= 0) ==> Known(list, weight) == Items(list);
    var c :| c in list && weight[c] < 0;
    first := c;
    while exists x :: x in list && x < first && weight[x] < 0
      invariant first in list && weight[first] < 0
      decreases first
    {
      var x :| x in list && x < first && weight[x] < 0;
      first := x;
    }
  }

  lemma AllKnown(g: Graph, list: seq<nat>, weight: seq<int>, counted: nat)
    requires CountedOk(g, list, weight, counted) && counted >= g.Count(Items(list))
    ensures MergesCount(g, list) ==> forall c :: c in list && !g.treesame[c] ==> weight[c] >= 0
  {
    hide WeightOk;
    if MergesCount(g, list) {
      var k, all := g.Changing(Known(list, weight)), g.Changing(Items(list));
      assert k <= all && |k| >= |all|;
      SubsetOfSameSize(k, all);
      forall c | c in list && !g.treesame[c] ensures weight[c] >= 0 {
        assert c in all;
      }
    }
  }

  lemma SubsetOfSameSize(a: set<nat>, b: set<nat>)
    requires a <= b && |a| >= |b|
    ensures a == b
  {
    assert b == a + (b - a);
    assert |b| == |a| + |b - a|;
  }

  lemma WeightsBounded(g: Graph, list: seq<nat>, weight: seq<int>)
    requires WeightsOk(g, list, weight)
    ensures forall i :: 0 <= i < |list| ==> weight[list[i]] <= g.Count(Items(list))
  {
    forall i | 0 <= i < |list| ensures weight[list[i]] <= g.Count(Items(list)) {
      assert WeightOk(g, weight, list[i]);
      ReachInList(g, list, list[i]);
      CountSubset(g, g.Reach(list[i]), Items(list));
    }
  }

  lemma CountSubset(g: Graph, a: set<nat>, b: set<nat>)
    requires a <= b
    ensures g.Count(a) <= g.Count(b)
  {
    var x, y := g.Changing(a), g.Changing(b);
    assert x <= y;
    assert y == x + (y - x);
    assert |y| == |x| + |y - x|;
  }

  lemma NoMergeInFirst(g: Graph, c: nat, firstParent: bool)
    requires g.Valid() && g.Has(c)
    requires firstParent ==> Interesting(FirstOnly(g), FirstOnly(g).parents[c]) >= 2
    ensures !firstParent
  {
    if firstParent && g.parents[c] != [] {
      FirstCounts(g, c);
    }
  }

  lemma CountNone(g: Graph)
    ensures g.Count({}) == 0
  {
    assert g.Changing({}) == {};
  }

  lemma KnownNext(g: Graph, list: seq<nat>, before: seq<int>, weight: seq<int>, i: nat)
    requires IsList(g, list) && i < |list| && |before| == |weight| == |g.treesame|
             && weight == before[list[i] := weight[list[i]]]
    ensures g.Count(Known(list[..i + 1], weight)) ==
            g.Count(Known(list[..i], before)) + if weight[list[i]] >= 0 && !g.treesame[list[i]] then 1 else 0
  {
    hide Graph.Count;
    var c := list[i];
    var was, now := Known(list[..i], before), Known(list[..i + 1], weight);
    if weight[c] >= 0 {
      assert now == was + {c};
      g.CountOne(was, c);
    } else {
      assert now == was;
    }
  }

  lemma FirstCounts(g: Graph, c: nat)
    requires g.Valid() && g.Has(c) && g.parents[c] != []
    ensures Interesting(FirstOnly(g), FirstOnly(g).parents[c]) == if g.uninteresting[g.parents[c][0]] then 0 else 1
  {
    assert FirstOnly(g).parents[c] == [g.parents[c][0]];
    assert [g.parents[c][0]][1..] == [];
  }

  lemma ThroughOpen(g: Graph, s: set<nat>, start: nat, entry: nat, open: set<nat>)
    requires g.Valid() && g.Has(start) && Through(g, s, start, open)
    ensures Through(g, s + {entry}, start, open + {entry})
  {
    forall x | x in s + {entry} && x in g.Reach(start) ensures Closed(g, s + {entry}, x) || x in open + {entry} {
      assert x in s ==> Closed(g, s, x) || x in open;
    }
  }
}
