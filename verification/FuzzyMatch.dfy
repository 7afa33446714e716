/**
 The fuzzy line matcher of blame.c: a divide-and-conquer search that matches the
 lines of a target chunk (B) with lines of a parent chunk (A), remembering
 similarities and certainties between steps.

 A fingerprint is a multiset of byte pairs, as blame.c documents it.
 */
module FuzzyMatch {

  type Fingerprint = multiset<nat>

  const NOTHING_MATCHES := -2
  const NOT_CALCULATED := -1

  function Abs(x: int): nat {
    if x < 0 then -x else x
  }

  /** Where a line of B is looked for in A, and where the similarity of a pair is remembered. */
  datatype Search = Search(distance: nat, closest: int -> int, slot: (int, int) -> int) {

    /** Lines a and b are close enough to be compared. */
    predicate Near(a: int, b: int) {
      Abs(a - closest(b)) <= distance
    }

    /** Lines of B more than w apart are compared with disjoint, ordered stretches of A. */
    ghost predicate Wide(w: int) {
      && 0 <= w
      && distance < 1000
      && forall b1, b2 :: b1 + w < b2 ==> closest(b1) + 2 * distance < closest(b2)
    }

    /** Lines [s, e) of B have rows of their own in an array of n similarities. */
    ghost predicate Rows(n: int, s: int, e: int) {
      && (forall a, b :: s <= b < e && Near(a, b) ==> 0 <= slot(a, b) < n)
      && (forall a, b, a', b' ::
            s <= b < e && s <= b' < e && Near(a, b) && Near(a', b') && slot(a, b) == slot(a', b') ==>
              a == a' && b == b')
    }
  }

  /** The scaled similarity of a line of A and a line of B. */
  function Score(g: Search, fa: seq<Fingerprint>, fb: seq<Fingerprint>, a: int, b: int): int
    requires 0 <= a < |fa| && 0 <= b < |fb|
  {
    |fb[b] * fa[a]| * (1000 - Abs(a - g.closest(b)))
  }

  // ---------- Reference: a search that remembers nothing ----------

  datatype Top = Top(best: int, bestAt: int, second: int, secondAt: int) {
    function Add(score: int, a: int): Top {
      if score > best then Top(score, a, best, bestAt)
      else if score > second then Top(best, bestAt, score, a)
      else this
    }

    function Certainty(): int {
      if best == 0 then NOTHING_MATCHES else best * 2 - second
    }

    function Match(): int {
      if best == 0 then -1 else bestAt
    }
  }

  function From(g: Search, lo: int, b: int): int {
    if g.closest(b) - g.distance < lo then lo else g.closest(b) - g.distance
  }

  function Limit(g: Search, hi: int, b: int): int {
    if g.closest(b) + g.distance + 1 > hi then hi else g.closest(b) + g.distance + 1
  }

  /** The two best lines of A among [from, limit) for line b; none found is Top(0, lo, 0, lo). */
  function Scan(g: Search, fa: seq<Fingerprint>, fb: seq<Fingerprint>, lo: int, from: int, limit: int, b: int): Top
    requires 0 <= from && limit <= |fa| && 0 <= b < |fb|
    decreases limit - from
  {
    if limit <= from then Top(0, lo, 0, lo)
    else Scan(g, fa, fb, lo, from, limit - 1, b).Add(Score(g, fa, fb, limit - 1, b), limit - 1)
  }

  /** What a fresh search for line b over lines [lo, hi) of A finds. */
  function Fresh(g: Search, fa: seq<Fingerprint>, fb: seq<Fingerprint>, lo: int, hi: int, b: int): Top
    requires 0 <= lo && hi <= |fa| && 0 <= b < |fb|
  {
    Scan(g, fa, fb, lo, From(g, lo, b), Limit(g, hi, b), b)
  }

  /** The first line of B in [s, e) that matches with the greatest certainty, or -1. */
  function MostCertain(g: Search, fa: seq<Fingerprint>, fb: seq<Fingerprint>, lo: int, hi: int, s: int,
                       e: int): (m: int)
    requires 0 <= lo && hi <= |fa| && 0 <= s <= e <= |fb|
    ensures m == -1 || s <= m < e
    ensures m != -1 ==> Fresh(g, fa, fb, lo, hi, m).Certainty() > -1
    decreases e - s
  {
    if s == e then -1
    else
      var m := MostCertain(g, fa, fb, lo, hi, s, e - 1);
      var best := if m == -1 then -1 else Fresh(g, fa, fb, lo, hi, m).Certainty();
      if Fresh(g, fa, fb, lo, hi, e - 1).Certainty() > best then e - 1 else m
  }

  /** No line of B in [s, e) is more certain, and none before it is as certain. */
  lemma {:induction false} FirstMostCertain(g: Search, fa: seq<Fingerprint>, fb: seq<Fingerprint>, lo: int, hi: int,
                                            s: int, e: int, b: int)
    requires 0 <= lo && hi <= |fa| && 0 <= s <= b < e <= |fb|
    ensures var m, certainty := MostCertain(g, fa, fb, lo, hi, s, e), Fresh(g, fa, fb, lo, hi, b).Certainty();
            if m == -1 then certainty <= -1
            else
              var most := Fresh(g, fa, fb, lo, hi, m).Certainty();
              if b < m then certainty < most else certainty <= most
    decreases e
  {
    hide Fresh;
    if b < e - 1 {
      FirstMostCertain(g, fa, fb, lo, hi, s, e - 1, b);
    }
  }

  lemma {:induction false} NoneCertain(g: Search, fa: seq<Fingerprint>, fb: seq<Fingerprint>, lo: int, hi: int, s: int,
                                       e: int, b: int)
    requires 0 <= lo && hi <= |fa| && 0 <= s <= b < e <= |fb|
    requires MostCertain(g, fa, fb, lo, hi, s, e) == -1
    ensures Fresh(g, fa, fb, lo, hi, b).Match() == -1
    decreases e
  {
    hide Fresh;
    FreshInRange(g, fa, fb, lo, hi, e - 1);
    if b < e - 1 {
      NoneCertain(g, fa, fb, lo, hi, s, e - 1, b);
    }
  }

  datatype Outcome = Outcome(matches: seq<int>, fa: seq<Fingerprint>)

  /** The divide and conquer with every search made afresh. */
  function Naive(g: Search, fa: seq<Fingerprint>, fb: seq<Fingerprint>, lo: int, hi: int, s: int, e: int): (o: Outcome)
    requires 0 <= lo <= hi <= |fa| && 0 <= s <= e <= |fb|
    ensures |o.matches| == e - s && |o.fa| == |fa|
    decreases e - s
  {
    var m := MostCertain(g, fa, fb, lo, hi, s, e);
    if m == -1 then
      Outcome(seq(e - s, _ => -1), fa)
    else
      FreshInRange(g, fa, fb, lo, hi, m);
      var a := Fresh(g, fa, fb, lo, hi, m).bestAt;
      var first := Naive(g, Subtract(fa, a, fb[m]), fb, lo, a + 1, s, m);
      var second := Naive(g, first.fa, fb, a, hi, m + 1, e);
      Outcome(first.matches + [a] + second.matches, second.fa)
  }

  lemma NaiveStep(g: Search, fa: seq<Fingerprint>, fb: seq<Fingerprint>, lo: int, hi: int, s: int, e: int)
    requires 0 <= lo <= hi <= |fa| && 0 <= s <= e <= |fb|
    ensures var m := MostCertain(g, fa, fb, lo, hi, s, e);
            var o := Naive(g, fa, fb, lo, hi, s, e);
            if m == -1 then o.fa == fa
            else
              var a := Fresh(g, fa, fb, lo, hi, m).bestAt;
              && lo <= a < hi
              && var first := Naive(g, Subtract(fa, a, fb[m]), fb, lo, a + 1, s, m);
                 var second := Naive(g, first.fa, fb, a, hi, m + 1, e);
                 o == Outcome(first.matches + [a] + second.matches, second.fa)
  {
    hide MostCertain;
    hide Fresh;
    var m := MostCertain(g, fa, fb, lo, hi, s, e);
    if m != -1 {
      FreshInRange(g, fa, fb, lo, hi, m);
    }
  }

  function Subtract(fa: seq<Fingerprint>, a: int, f: Fingerprint): (ga: seq<Fingerprint>)
    requires 0 <= a < |fa|
    ensures |ga| == |fa|
  {
    fa[a := fa[a] - f]
  }

  /** ga is fa with byte pairs taken away from lines [lo, hi) only. */
  ghost predicate Lowered(fa: seq<Fingerprint>, ga: seq<Fingerprint>, lo: int, hi: int) {
    && |ga| == |fa|
    && (forall a :: 0 <= a < |fa| ==> ga[a] <= fa[a])
    && (forall a :: 0 <= a < |fa| && !(lo <= a < hi) ==> ga[a] == fa[a])
  }

  // ---------- What a search finds, said without its steps ----------

  ghost predicate IsTop(g: Search, fa: seq<Fingerprint>, fb: seq<Fingerprint>, lo: int, from: int, limit: int, b: int,
                        t: Top)
    requires 0 <= from && limit <= |fa| && 0 <= b < |fb|
  {
    && 0 <= t.second <= t.best
    && (forall a :: from <= a < limit ==> Score(g, fa, fb, a, b) <= t.best)
    && (forall a :: from <= a < limit && a != t.bestAt ==> Score(g, fa, fb, a, b) <= t.second)
    && (if t.best == 0 then t.bestAt == lo else
          && from <= t.bestAt < limit
          && Score(g, fa, fb, t.bestAt, b) == t.best
          && (forall a :: from <= a < t.bestAt ==> Score(g, fa, fb, a, b) < t.best))
    && (if t.second == 0 then t.secondAt == lo else
          && from <= t.secondAt < limit && t.secondAt != t.bestAt
          && Score(g, fa, fb, t.secondAt, b) == t.second
          && (forall a :: from <= a < t.secondAt && a != t.bestAt ==> Score(g, fa, fb, a, b) < t.second))
  }

  lemma {:induction false} ScanIsTop(g: Search, fa: seq<Fingerprint>, fb: seq<Fingerprint>, lo: int, from: int,
                                     limit: int, b: int)
    requires 0 <= from && limit <= |fa| && 0 <= b < |fb|
    ensures IsTop(g, fa, fb, lo, from, limit, b, Scan(g, fa, fb, lo, from, limit, b))
    decreases limit - from
  {
    if from < limit {
      ScanIsTop(g, fa, fb, lo, from, limit - 1, b);
    }
  }

  /** The two best lines are determined. */
  lemma TopUnique(g: Search, fa: seq<Fingerprint>, fb: seq<Fingerprint>, lo: int, from: int, limit: int, b: int, t: Top,
                  u: Top)
    requires 0 <= from && limit <= |fa| && 0 <= b < |fb|
    requires IsTop(g, fa, fb, lo, from, limit, b, t) && IsTop(g, fa, fb, lo, from, limit, b, u)
    ensures t == u
  {
  }

  lemma FreshInRange(g: Search, fa: seq<Fingerprint>, fb: seq<Fingerprint>, lo: int, hi: int, b: int)
    requires 0 <= lo && hi <= |fa| && 0 <= b < |fb|
    ensures var t := Fresh(g, fa, fb, lo, hi, b);
            && 0 <= t.second <= t.best
            && (t.best != 0 ==> lo <= t.bestAt < hi && g.Near(t.bestAt, b) && t.Certainty() > 0)
            && (t.second != 0 ==> lo <= t.secondAt < hi && g.Near(t.secondAt, b))
            && (t.second == 0 ==> t.secondAt == lo)
  {
    ScanIsTop(g, fa, fb, lo, From(g, lo, b), Limit(g, hi, b), b);
  }

  // ---------- Subtraction only lowers scores ----------

  lemma LessSimilar(x: Fingerprint, y: Fingerprint, z: Fingerprint, k: nat)
    requires x <= y
    ensures 0 <= |z * x| * k <= |z * y| * k
  {
    assert z * y == z * x + (z * y - z * x);
    assert |z * x| <= |z * y|;
  }

  lemma LowerScore(g: Search, fa: seq<Fingerprint>, ga: seq<Fingerprint>, fb: seq<Fingerprint>, a: int, b: int)
    requires |fa| == |ga| && g.distance < 1000
    requires 0 <= a < |fa| && 0 <= b < |fb| && ga[a] <= fa[a] && g.Near(a, b)
    ensures 0 <= Score(g, ga, fb, a, b) <= Score(g, fa, fb, a, b)
  {
    LessSimilar(ga[a], fa[a], fb[b], 1000 - Abs(a - g.closest(b)));
  }

  /**
   A search over a part [lo2, hi2) of [lo, hi), after line x lost some byte pairs, finds what the
   search over [lo, hi) found, unless that was at x or outside the part.
   */
  lemma FreshStable(g: Search, fa: seq<Fingerprint>, ga: seq<Fingerprint>, fb: seq<Fingerprint>,
                    lo: int, hi: int, lo2: int, hi2: int, x: int, b: int)
    requires g.distance < 1000 && |fa| == |ga| && 0 <= b < |fb|
    requires 0 <= lo <= lo2 && hi2 <= hi <= |fa|
    requires forall a :: lo2 <= a < hi2 ==> ga[a] <= fa[a] && (a == x || ga[a] == fa[a])
    requires var t := Fresh(g, fa, fb, lo, hi, b);
             && (t.best != 0 ==> lo2 <= t.bestAt < hi2 && t.bestAt != x)
             && (t.second != 0 ==> lo2 <= t.secondAt < hi2 && t.secondAt != x)
    ensures var t, u := Fresh(g, fa, fb, lo, hi, b), Fresh(g, ga, fb, lo2, hi2, b);
            && u.best == t.best && u.second == t.second && u.Match() == t.Match()
            && (t.second != 0 ==> u.secondAt == t.secondAt)
  {
    var t := Fresh(g, fa, fb, lo, hi, b);
    var from, limit := From(g, lo2, b), Limit(g, hi2, b);
    ScanIsTop(g, fa, fb, lo, From(g, lo, b), Limit(g, hi, b), b);
    forall a | from <= a < limit ensures 0 <= Score(g, ga, fb, a, b) <= Score(g, fa, fb, a, b) {
      LowerScore(g, fa, ga, fb, a, b);
    }
    var v := Top(t.best, if t.best == 0 then lo2 else t.bestAt, t.second, if t.second == 0 then lo2 else t.secondAt);
    assert IsTop(g, ga, fb, lo2, from, limit, b, v);
    ScanIsTop(g, ga, fb, lo2, from, limit, b);
    TopUnique(g, ga, fb, lo2, from, limit, b, v, Fresh(g, ga, fb, lo2, hi2, b));
  }

  /** The reference changes only lines [lo, hi) of A, and only takes byte pairs away. */
  lemma {:induction false} NaiveLowers(g: Search, fa: seq<Fingerprint>, fb: seq<Fingerprint>, lo: int, hi: int, s: int,
                                       e: int)
    requires 0 <= lo <= hi <= |fa| && 0 <= s <= e <= |fb|
    ensures Lowered(fa, Naive(g, fa, fb, lo, hi, s, e).fa, lo, hi)
    decreases e - s
  {
    hide Fresh;
    hide MostCertain;
    hide Subtract;
    var m := MostCertain(g, fa, fb, lo, hi, s, e);
    if m != -1 {
      FreshInRange(g, fa, fb, lo, hi, m);
      var a := Fresh(g, fa, fb, lo, hi, m).bestAt;
      var f1 := Subtract(fa, a, fb[m]);
      NaiveLowers(g, f1, fb, lo, a + 1, s, m);
      var f2 := Naive(g, f1, fb, lo, a + 1, s, m).fa;
      NaiveLowers(g, f2, fb, a, hi, m + 1, e);
      SubtractLowers(fa, a, fb[m], lo, hi);
      LoweredTwice(fa, f1, f2, lo, hi);
      LoweredTwice(fa, f2, Naive(g, f2, fb, a, hi, m + 1, e).fa, lo, hi);
    }
  }

  lemma SubtractLowers(fa: seq<Fingerprint>, a: int, f: Fingerprint, lo: int, hi: int)
    requires 0 <= a < |fa| && lo <= a < hi
    ensures Lowered(fa, Subtract(fa, a, f), lo, hi)
  {
  }

  lemma LoweredTwice(f0: seq<Fingerprint>, f1: seq<Fingerprint>, f2: seq<Fingerprint>, lo: int, hi: int)
    requires Lowered(f0, f1, lo, hi) && Lowered(f1, f2, lo, hi)
    ensures Lowered(f0, f2, lo, hi)
  {
    forall a | 0 <= a < |f0| ensures f2[a] <= f0[a] {
      assert f2[a] <= f1[a] <= f0[a];
    }
  }

  /** Matches, ignoring the unmatched, are in line order and inside [lo, hi). */
  ghost predicate Ordered(matches: seq<int>, lo: int, hi: int) {
    && (forall i :: 0 <= i < |matches| ==> matches[i] == -1 || lo <= matches[i] < hi)
    && (forall i, j :: 0 <= i < j < |matches| && matches[i] != -1 && matches[j] != -1 ==> matches[i] <= matches[j])
  }

  lemma OrderedJoin(r1: seq<int>, a: int, r2: seq<int>, lo: int, hi: int)
    requires Ordered(r1, lo, a + 1) && Ordered(r2, a, hi) && lo <= a < hi
    ensures Ordered(r1 + [a] + r2, lo, hi)
  {
    var r := r1 + [a] + r2;
    forall i | 0 <= i < |r|
      ensures r[i] == if i < |r1| then r1[i] else if i == |r1| then a else r2[i - |r1| - 1]
    {
    }
  }

  lemma {:induction false} NaiveOrdered(g: Search, fa: seq<Fingerprint>, fb: seq<Fingerprint>, lo: int, hi: int, s: int,
                                        e: int)
    requires 0 <= lo <= hi <= |fa| && 0 <= s <= e <= |fb|
    ensures Ordered(Naive(g, fa, fb, lo, hi, s, e).matches, lo, hi)
    decreases e - s
  {
    hide Fresh;
    hide MostCertain;
    hide Subtract;
    var m := MostCertain(g, fa, fb, lo, hi, s, e);
    if m != -1 {
      FreshInRange(g, fa, fb, lo, hi, m);
      var a := Fresh(g, fa, fb, lo, hi, m).bestAt;
      var f1 := Subtract(fa, a, fb[m]);
      NaiveOrdered(g, f1, fb, lo, a + 1, s, m);
      var first := Naive(g, f1, fb, lo, a + 1, s, m);
      NaiveOrdered(g, first.fa, fb, a, hi, m + 1, e);
      OrderedJoin(first.matches, a, Naive(g, first.fa, fb, a, hi, m + 1, e).matches, lo, hi);
    }
  }

  // ---------- What may be remembered ----------

  /** What is remembered about line b is what a fresh search over [lo, hi) would find. */
  ghost predicate LineOk(g: Search, fa: seq<Fingerprint>, fb: seq<Fingerprint>, lo: int, hi: int, b: int,
                         certainty: int, second: int, result: int)
    requires 0 <= lo && hi <= |fa| && 0 <= b < |fb|
  {
    var t := Fresh(g, fa, fb, lo, hi, b);
    && certainty == t.Certainty()
    && result == t.Match()
    && (t.best != 0 ==> if t.second == 0 then second <= lo else second == t.secondAt)
  }

  /** The test that makes a remembered match be forgotten. */
  predicate Crosses(result: int, second: int, x: int, before: bool) {
    if before then result >= x || second >= x else result <= x || second <= x
  }

  /** The part of a remembered line that outlives a choice of line x of A: nothing in it is on the far side of x. */
  ghost predicate Survives(g: Search, fa: seq<Fingerprint>, fb: seq<Fingerprint>, lo: int, hi: int, b: int, x: int,
                           before: bool)
    requires 0 <= lo && hi <= |fa| && 0 <= b < |fb|
  {
    var t := Fresh(g, fa, fb, lo, hi, b);
    && (t.best != 0 ==> if before then t.bestAt < x else x < t.bestAt)
    && (t.second != 0 ==> if before then t.secondAt < x else x < t.secondAt)
  }

  lemma SurvivorOk(g: Search, fa: seq<Fingerprint>, ga: seq<Fingerprint>, fb: seq<Fingerprint>, lo: int, hi: int,
                   x: int, before: bool,
                   b: int, certainty: int, second: int, result: int)
    requires g.distance < 1000 && 0 <= lo <= x < hi <= |fa| && 0 <= b < |fb|
    requires LineOk(g, fa, fb, lo, hi, b, certainty, second, result)
    requires Survives(g, fa, fb, lo, hi, b, x, before)
    requires |ga| == |fa|
    requires if before then Lowered(fa, ga, x, x + 1) else Lowered(fa, ga, lo, x + 1)
    ensures if before then LineOk(g, ga, fb, lo, x + 1, b, certainty, second, result)
            else LineOk(g, ga, fb, x, hi, b, certainty, second, result)
  {
    hide Scan;
    FreshInRange(g, fa, fb, lo, hi, b);
    if before {
      FreshStable(g, fa, ga, fb, lo, hi, lo, x + 1, x, b);
    } else {
      FreshStable(g, fa, ga, fb, lo, hi, x, hi, x, b);
    }
  }

  /** Lines of B beyond the window survive the choice of lines x and m. */
  lemma FarSurvives(g: Search, window: nat, fa: seq<Fingerprint>, fb: seq<Fingerprint>, lo: int, hi: int, b: int,
                    x: int, m: int)
    requires g.Wide(window) && 0 <= lo && hi <= |fa| && 0 <= b < |fb|
    requires g.Near(x, m) && (b < m - window || m + window < b)
    ensures Survives(g, fa, fb, lo, hi, b, x, b < m)
  {
    hide Scan;
    FreshInRange(g, fa, fb, lo, hi, b);
  }

  /** What is still remembered after the choice of lines x and m survives it. */
  lemma UncrossedSurvives(g: Search, window: nat, fa: seq<Fingerprint>, fb: seq<Fingerprint>, lo: int, hi: int, m: int,
                          x: int,
                          b: int, certainty: int, second: int, result: int)
    requires g.Wide(window) && 0 <= lo <= x < hi <= |fa| && 0 <= b < |fb| && b != m && g.Near(x, m)
    requires LineOk(g, fa, fb, lo, hi, b, certainty, second, result)
    requires m - window <= b <= m + window ==> certainty < 0 || !Crosses(result, second, x, b < m)
    ensures Survives(g, fa, fb, lo, hi, b, x, b < m)
  {
    hide Scan;
    FreshInRange(g, fa, fb, lo, hi, b);
    if b < m - window || m + window < b {
      FarSurvives(g, window, fa, fb, lo, hi, b, x, m);
    }
  }

  lemma SplitSlice(r: seq<int>, i: int, j: int, k: int)
    requires 0 <= i <= j < k <= |r|
    ensures r[i..k] == r[i..j] + [r[j]] + r[j + 1..k]
  {
  }

  // ---------- The matcher ----------

  class Matcher {
    const g: Search
    const window: nat
    const base: nat
    const fb: seq<Fingerprint>
    const fa: array<Fingerprint>
    const similarities: array<int>
    const certainties: array<int>
    const secondBest: array<int>
    const result: array<int>

    constructor (c: Chunk, fa: array<Fingerprint>, fb: seq<Fingerprint>)
      requires c.Valid() && 0 <= c.startB && c.startB + c.lengthB <= |fb|
      requires 0 <= c.Window() && c.Geometry().Wide(c.Window())
      requires c.Geometry().Rows(c.lengthB * c.Width(), c.startB, c.startB + c.lengthB)
      ensures Valid() && g == c.Geometry() && base == c.startB && result.Length == c.lengthB
      ensures this.fa == fa && this.fb == fb
      ensures fresh(similarities) && fresh(certainties) && fresh(secondBest) && fresh(result)
      ensures forall i :: 0 <= i < similarities.Length ==> similarities[i] == -1
      ensures forall i :: 0 <= i < certainties.Length ==> certainties[i] == NOT_CALCULATED
    {
      assert 0 <= c.lengthB * c.Width();
      this.g, this.window, this.base := c.Geometry(), c.Window(), c.startB;
      this.fa, this.fb := fa, fb;
      this.similarities := new int[c.lengthB * c.Width()](_ => -1);
      this.certainties := new int[c.lengthB](_ => NOT_CALCULATED);
      this.secondBest := new int[c.lengthB](_ => -1);
      this.result := new int[c.lengthB](_ => -1);
    }

    ghost predicate Valid() {
      && g.Wide(window)
      && base + result.Length <= |fb|
      && certainties.Length == secondBest.Length == result.Length
      && g.Rows(similarities.Length, base, base + result.Length)
      && similarities != certainties && similarities != secondBest && similarities != result
      && certainties != secondBest && certainties != result && secondBest != result
    }

    /** Lines [s, e) of B belong to this matcher. */
    ghost predicate InB(s: int, e: int) {
      base <= s <= e <= base + result.Length
    }

    /** Line b is either still to be searched for or remembered as a fresh search would find it. */
    ghost predicate Remembered(f: seq<Fingerprint>, lo: int, hi: int, b: int)
      requires Valid() && 0 <= lo && hi <= |f| && InB(b, b + 1)
      reads certainties, secondBest, result
    {
      certainties[b - base] == NOT_CALCULATED || Known(f, lo, hi, b)
    }

    ghost predicate Known(f: seq<Fingerprint>, lo: int, hi: int, b: int)
      requires Valid() && 0 <= lo && hi <= |f| && InB(b, b + 1)
      reads certainties, secondBest, result
    {
      LineOk(g, f, fb, lo, hi, b, certainties[b - base], secondBest[b - base], result[b - base])
    }

    ghost predicate SimsOk(f: seq<Fingerprint>, lo: int, hi: int, s: int, e: int)
      requires Valid() && 0 <= lo && hi <= |f| && InB(s, e)
      reads similarities
    {
      forall a, b :: lo <= a < hi && s <= b < e && g.Near(a, b) ==>
        similarities[g.slot(a, b)] == -1 || similarities[g.slot(a, b)] == Score(g, f, fb, a, b)
    }

    /** Nothing about a line of B outside [s, e) has changed. */
    twostate predicate OthersKept(s: int, e: int)
      requires Valid() && InB(s, e)
      reads similarities, certainties, secondBest, result
    {
      && (forall i :: 0 <= i < result.Length && !(s <= base + i < e) ==>
            certainties[i] == old(certainties[i]) && secondBest[i] == old(secondBest[i]) && result[i] == old(result[i]))
      && (forall a, b :: base <= b < base + result.Length && !(s <= b < e) && g.Near(a, b) ==>
            similarities[g.slot(a, b)] == old(similarities[g.slot(a, b)]))
    }

    /** The similarity of lines a and b, calculated unless it is remembered. */
    method Similarity(lo: int, hi: int, a: int, b: int) returns (similarity: int)
      requires Valid() && 0 <= lo <= a < hi <= fa.Length && InB(b, b + 1) && g.Near(a, b)
      requires SimsOk(fa[..], lo, hi, b, b + 1)
      modifies similarities
      ensures similarity == Score(g, fa[..], fb, a, b)
      ensures SimsOk(fa[..], lo, hi, b, b + 1)
      ensures OthersKept(b, b + 1)
    {
      if similarities[g.slot(a, b)] == -1 {
        similarities[g.slot(a, b)] := |fb[b] * fa[a]| * (1000 - Abs(a - g.closest(b)));
      }
      similarity := similarities[g.slot(a, b)];
    }

    /** The search loop of find_best_line_matches. */
    method BestTwo(lo: int, hi: int, b: int) returns (t: Top)
      requires Valid() && 0 <= lo && hi <= fa.Length && InB(b, b + 1)
      requires SimsOk(fa[..], lo, hi, b, b + 1)
      modifies similarities
      ensures SimsOk(fa[..], lo, hi, b, b + 1)
      ensures OthersKept(b, b + 1)
      ensures t == Fresh(g, fa[..], fb, lo, hi, b)
    {
      hide Score;
      ghost var f := fa[..];
      var searchStart, searchEnd := From(g, lo, b), Limit(g, hi, b);
      t := Top(0, lo, 0, lo);
      var i := searchStart;
      while i < searchEnd
        invariant searchStart <= i && (i <= searchEnd || i == searchStart)
        invariant fa[..] == f
        invariant t == if i <= searchEnd then Scan(g, f, fb, lo, searchStart, i, b) else Top(0, lo, 0, lo)
        invariant SimsOk(f, lo, hi, b, b + 1)
        invariant OthersKept(b, b + 1)
      {
        var similarity := Similarity(lo, hi, i, b);
        assert fa[..] == f;
        if similarity > t.best {
          t := Top(similarity, i, t.best, t.bestAt);
        } else if similarity > t.second {
          t := t.(second := similarity, secondAt := i);
        }
        i := i + 1;
      }
    }

    /** find_best_line_matches */
    method FindBestLineMatches(lo: int, hi: int, b: int)
      requires Valid() && 0 <= lo && hi <= fa.Length && InB(b, b + 1)
      requires SimsOk(fa[..], lo, hi, b, b + 1)
      requires Remembered(fa[..], lo, hi, b)
      modifies similarities, certainties, secondBest, result
      ensures SimsOk(fa[..], lo, hi, b, b + 1)
      ensures certainties[b - base] != NOT_CALCULATED && Known(fa[..], lo, hi, b)
      ensures OthersKept(b, b + 1)
    {
      hide Scan;
      ghost var f := fa[..];
      FreshInRange(g, f, fb, lo, hi, b);
      if certainties[b - base] != NOT_CALCULATED {
        return;
      }
      var t := BestTwo(lo, hi, b);
      assert fa[..] == f;
      if t.best == 0 {
        certainties[b - base] := NOTHING_MATCHES;
        result[b - base] := -1;
      } else {
        certainties[b - base] := t.best * 2 - t.second;
        result[b - base] := t.bestAt;
        secondBest[b - base] := t.secondAt;
      }
      assert fa[..] == f;
    }

    /** The first loop of fuzzy_find_matching_lines_recurse. */
    method FindMostCertain(lo: int, hi: int, s: int, e: int) returns (m: int)
      requires Valid() && 0 <= lo && hi <= fa.Length && InB(s, e)
      requires SimsOk(fa[..], lo, hi, s, e)
      requires forall b :: s <= b < e ==> Remembered(fa[..], lo, hi, b)
      modifies similarities, certainties, secondBest, result
      ensures SimsOk(fa[..], lo, hi, s, e)
      ensures forall b :: s <= b < e ==> Known(fa[..], lo, hi, b)
      ensures OthersKept(s, e)
      ensures m == MostCertain(g, fa[..], fb, lo, hi, s, e)
    {
      hide Fresh;
      ghost var f := fa[..];
      m := -1;
      var certainty := -1;
      var b := s;
      while b < e
        invariant s <= b <= e
        invariant fa[..] == f
        invariant SimsOk(f, lo, hi, s, e)
        invariant forall b' :: s <= b' < b ==> Known(f, lo, hi, b')
        invariant forall b' :: b <= b' < e ==> Remembered(f, lo, hi, b')
        invariant OthersKept(s, e)
        invariant m == MostCertain(g, f, fb, lo, hi, s, b)
        invariant certainty == if m == -1 then -1 else Fresh(g, f, fb, lo, hi, m).Certainty()
      {
        label before:
        FindBestLineMatches(lo, hi, b);
        assert fa[..] == f;
        forall b' | s <= b' < b ensures Known(f, lo, hi, b') {
          assert old@before(Known(f, lo, hi, b'));
          assert certainties[b' - base] == old@before(certainties[b' - base]);
        }
        forall b' | b < b' < e ensures Remembered(f, lo, hi, b') {
          assert old@before(Remembered(f, lo, hi, b'));
          assert certainties[b' - base] == old@before(certainties[b' - base]);
        }
        if certainties[b - base] > certainty {
          certainty := certainties[b - base];
          m := b;
        }
        b := b + 1;
      }
    }

    /** The similarities of line x of A, whose fingerprint has changed, are forgotten. */
    method ForgetSimilarities(s: int, e: int, m: int, x: int)
      requires Valid() && InB(s, e) && s <= m < e && g.Near(x, m)
      modifies similarities
      ensures forall a, b :: base <= b < base + result.Length && g.Near(a, b) && !(a == x && s <= b < e) ==>
                similarities[g.slot(a, b)] == old(similarities[g.slot(a, b)])
      ensures forall b :: s <= b < e && g.Near(x, b) ==> similarities[g.slot(x, b)] == -1
    {
      var first := if m - window < s then s else m - window;
      var limit := if m + window + 1 > e then e else m + window + 1;
      var i := first;
      while i < limit
        invariant first <= i <= limit
        invariant forall a, b :: base <= b < base + result.Length && g.Near(a, b) && !(a == x && first <= b < i) ==>
                    similarities[g.slot(a, b)] == old(similarities[g.slot(a, b)])
        invariant forall b :: first <= b < i && g.Near(x, b) ==> similarities[g.slot(x, b)] == -1
      {
        if Abs(x - g.closest(i)) <= g.distance {
          assert g.Near(x, i);
          similarities[g.slot(x, i)] := -1;
        }
        i := i + 1;
      }
      forall b | s <= b < e && g.Near(x, b) ensures first <= b < limit {
      }
    }

    /** Remembered matches that the choice of lines x and m may affect are forgotten. */
    method ForgetMatches(s: int, e: int, m: int, x: int)
      requires Valid() && InB(s, e) && s <= m < e
      modifies certainties
      ensures forall i :: 0 <= i < certainties.Length ==>
                certainties[i] == old(certainties[i]) || (s <= base + i < e && certainties[i] == NOT_CALCULATED)
      ensures forall i :: 0 <= i < certainties.Length && s <= base + i < m && m - window <= base + i ==>
                certainties[i] < 0 || !Crosses(result[i], secondBest[i], x, true)
      ensures forall i :: 0 <= i < certainties.Length && m < base + i < e && base + i <= m + window ==>
                certainties[i] < 0 || !Crosses(result[i], secondBest[i], x, false)
    {
      var first := if m - window < s then s else m - window;
      var limit := if m + window + 1 > e then e else m + window + 1;
      var b := m - 1;
      while b >= first
        invariant first - 1 <= b <= m - 1
        invariant forall i :: 0 <= i < certainties.Length ==>
                    certainties[i] == old(certainties[i]) || (s <= base + i < e && certainties[i] == NOT_CALCULATED)
        invariant forall i :: 0 <= i < certainties.Length && b < base + i < m ==>
                    certainties[i] < 0 || !Crosses(result[i], secondBest[i], x, true)
      {
        if certainties[b - base] >= 0 && (result[b - base] >= x || secondBest[b - base] >= x) {
          certainties[b - base] := NOT_CALCULATED;
        }
        b := b - 1;
      }
      b := m + 1;
      while b < limit
        invariant m + 1 <= b && (b <= limit || b == m + 1)
        invariant forall i :: 0 <= i < certainties.Length ==>
                    certainties[i] == old(certainties[i]) || (s <= base + i < e && certainties[i] == NOT_CALCULATED)
        invariant forall i :: 0 <= i < certainties.Length && first <= base + i < m ==>
                    certainties[i] < 0 || !Crosses(result[i], secondBest[i], x, true)
        invariant forall i :: 0 <= i < certainties.Length && m < base + i < b ==>
                    certainties[i] < 0 || !Crosses(result[i], secondBest[i], x, false)
      {
        if certainties[b - base] >= 0 && (result[b - base] <= x || secondBest[b - base] <= x) {
          certainties[b - base] := NOT_CALCULATED;
        }
        b := b + 1;
      }
    }

    lemma NothingMatches(f: seq<Fingerprint>, lo: int, hi: int, s: int, e: int)
      requires Valid() && 0 <= lo <= hi <= |f| && InB(s, e)
      requires MostCertain(g, f, fb, lo, hi, s, e) == -1
      requires forall b :: s <= b < e ==> Known(f, lo, hi, b)
      ensures result[s - base..e - base] == Naive(g, f, fb, lo, hi, s, e).matches
    {
      hide Fresh;
      forall i | s - base <= i < e - base ensures result[i] == -1 {
        assert Known(f, lo, hi, i + base);
        NoneCertain(g, f, fb, lo, hi, s, e, i + base);
      }
    }

    /** Line b is forgotten or survives the choice of line x. */
    ghost predicate Waiting(f: seq<Fingerprint>, lo: int, hi: int, x: int, b: int, before: bool)
      requires Valid() && 0 <= lo && hi <= |f| && InB(b, b + 1)
      reads certainties, secondBest, result
    {
      certainties[b - base] == NOT_CALCULATED || (Known(f, lo, hi, b) && Survives(g, f, fb, lo, hi, b, x, before))
    }

    lemma StartFirstHalf(f: seq<Fingerprint>, h: seq<Fingerprint>, lo: int, hi: int, x: int, limit: int, s: int, m: int)
      requires Valid() && 0 <= lo <= x < limit == x + 1 <= hi <= |f| && InB(s, m)
      requires Lowered(f, h, x, limit)
      requires forall b :: s <= b < m ==> Waiting(f, lo, hi, x, b, true)
      ensures forall b :: s <= b < m ==> Remembered(h, lo, limit, b)
    {
      hide Fresh;
      forall b | s <= b < m ensures Remembered(h, lo, limit, b) {
        assert Waiting(f, lo, hi, x, b, true);
        if certainties[b - base] != NOT_CALCULATED {
          SurvivorOk(g, f, h, fb, lo, hi, x, true, b, certainties[b - base], secondBest[b - base], result[b - base]);
        }
      }
    }

    lemma StartSecondHalf(f: seq<Fingerprint>, h: seq<Fingerprint>, lo: int, hi: int, x: int, s: int, e: int)
      requires Valid() && 0 <= lo <= x < hi <= |f| && InB(s, e)
      requires Lowered(f, h, lo, x + 1)
      requires forall b :: s <= b < e ==> Waiting(f, lo, hi, x, b, false)
      ensures forall b :: s <= b < e ==> Remembered(h, x, hi, b)
    {
      hide Fresh;
      forall b | s <= b < e ensures Remembered(h, x, hi, b) {
        assert Waiting(f, lo, hi, x, b, false);
        if certainties[b - base] != NOT_CALCULATED {
          SurvivorOk(g, f, h, fb, lo, hi, x, false, b, certainties[b - base], secondBest[b - base], result[b - base]);
        }
      }
    }

    /** The part of fuzzy_find_matching_lines_recurse that precedes its recursive calls. */
    method Choose(lo: int, hi: int, s: int, e: int) returns (m: int, x: int)
      requires Valid() && 0 <= lo <= hi <= fa.Length && InB(s, e)
      requires SimsOk(fa[..], lo, hi, s, e)
      requires forall b :: s <= b < e ==> Remembered(fa[..], lo, hi, b)
      modifies fa, similarities, certainties, secondBest, result
      ensures OthersKept(s, e)
      ensures m == MostCertain(g, old(fa[..]), fb, lo, hi, s, e)
      ensures m == -1 ==>
                fa[..] == old(fa[..]) && result[s - base..e - base] == Naive(g, old(fa[..]), fb, lo, hi, s, e).matches
      ensures m != -1 ==>
                && x == Fresh(g, old(fa[..]), fb, lo, hi, m).bestAt == result[m - base]
                && lo <= x < hi
                && fa[..] == Subtract(old(fa[..]), x, fb[m])
                && SimsOk(fa[..], lo, hi, s, e)
                && (forall b :: s <= b < e && g.Near(x, b) ==> similarities[g.slot(x, b)] == -1)
                && (forall b :: s <= b < m ==> Waiting(old(fa[..]), lo, hi, x, b, true))
                && (forall b :: m < b < e ==> Waiting(old(fa[..]), lo, hi, x, b, false))
    {
      hide Scan;
      hide MostCertain;
      ghost var f0 := fa[..];
      m := FindMostCertain(lo, hi, s, e);
      x := -1;
      assert fa[..] == f0;
      if m == -1 {
        NothingMatches(f0, lo, hi, s, e);
        return;
      }
      assert Known(f0, lo, hi, m);
      FreshInRange(g, f0, fb, lo, hi, m);
      x := result[m - base];
      label chosen:
      fa[x] := fa[x] - fb[m];
      assert fa[..] == Subtract(f0, x, fb[m]);
      ForgetSimilarities(s, e, m, x);
      ForgetMatches(s, e, m, x);
      forall b, before | s <= b < e && b != m && before == (b < m) ensures Waiting(f0, lo, hi, x, b, before) {
        assert old@chosen(Known(f0, lo, hi, b));
        if certainties[b - base] != NOT_CALCULATED {
          assert certainties[b - base] == old@chosen(certainties[b - base]);
          UncrossedSurvives(g, window, f0, fb, lo, hi, m, x, b, certainties[b - base], secondBest[b - base],
                            result[b - base]);
        }
      }
    }

    /** The first recursive call, which leaves what the second one needs. */
    method FirstHalf(ghost f: seq<Fingerprint>, lo: int, hi: int, s: int, e: int, m: int, x: int)
      requires Valid() && 0 <= lo <= x < hi <= |f| == fa.Length && InB(s, e) && s <= m < e
      requires fa[..] == Subtract(f, x, fb[m])
      requires SimsOk(fa[..], lo, hi, s, e)
      requires forall b :: s <= b < e && g.Near(x, b) ==> similarities[g.slot(x, b)] == -1
      requires forall b :: s <= b < m ==> Waiting(f, lo, hi, x, b, true)
      requires forall b :: m < b < e ==> Waiting(f, lo, hi, x, b, false)
      modifies fa, similarities, certainties, secondBest, result
      ensures OthersKept(s, m)
      ensures var o := Naive(g, old(fa[..]), fb, lo, x + 1, s, m);
              fa[..] == o.fa && result[s - base..m - base] == o.matches
      ensures SimsOk(fa[..], x, hi, m + 1, e)
      ensures forall b :: m + 1 <= b < e ==> Remembered(fa[..], x, hi, b)
      decreases e - s, 0
    {
      hide Fresh;
      hide MostCertain;
      hide Survives;
      hide Naive;
      ghost var f1 := fa[..];
      SubtractLowers(f, x, fb[m], x, x + 1);
      StartFirstHalf(f, f1, lo, hi, x, x + 1, s, m);
      Recurse(lo, x + 1, s, m);
      NaiveLowers(g, f1, fb, lo, x + 1, s, m);
      LoweredTwice(f, f1, fa[..], lo, x + 1);
      forall b | m + 1 <= b < e ensures Waiting(f, lo, hi, x, b, false) {
        assert old(Waiting(f, lo, hi, x, b, false));
        assert certainties[b - base] == old(certainties[b - base]);
      }
      StartSecondHalf(f, fa[..], lo, hi, x, m + 1, e);
    }

    /** fuzzy_find_matching_lines_recurse */
    method Recurse(lo: int, hi: int, s: int, e: int)
      requires Valid() && 0 <= lo <= hi <= fa.Length && InB(s, e)
      requires SimsOk(fa[..], lo, hi, s, e)
      requires forall b :: s <= b < e ==> Remembered(fa[..], lo, hi, b)
      modifies fa, similarities, certainties, secondBest, result
      ensures OthersKept(s, e)
      ensures var o := Naive(g, old(fa[..]), fb, lo, hi, s, e);
              fa[..] == o.fa && result[s - base..e - base] == o.matches
      decreases e - s, 1
    {
      hide Fresh;
      hide MostCertain;
      hide Waiting;
      hide Remembered;
      hide Naive;
      hide SimsOk;
      ghost var f := fa[..];
      var m, x := Choose(lo, hi, s, e);
      NaiveStep(g, f, fb, lo, hi, s, e);
      if m == -1 {
        return;
      }
      FirstHalf(f, lo, hi, s, e, m, x);
      ghost var r1 := result[s - base..m - base];
      Recurse(x, hi, m + 1, e);
      assert result[s - base..m - base] == r1;
      SplitSlice(result[..], s - base, m - base, e - base);
    }
  }

  // ---------- The chunk ----------

  datatype Option<+T> = None | Some(value: T)

  /** The two halves of a diff chunk, and the linear map between them. */
  datatype Chunk = Chunk(startA: int, lengthA: int, startB: int, lengthB: int) {

    ghost predicate Valid() {
      0 < lengthA && 0 < lengthB
    }

    ghost predicate Fits(fa: seq<Fingerprint>, fb: seq<Fingerprint>) {
      Valid() && 0 <= startA && startA + lengthA <= |fa| && 0 <= startB && startB + lengthB <= |fb|
    }

    /** max_search_distance_a */
    function Distance(): nat
      requires 0 < lengthA
    {
      if 10 < lengthA then 10 else lengthA - 1
    }

    function Width(): nat
      requires 0 < lengthA
    {
      2 * Distance() + 1
    }

    /** max_search_distance_b */
    function Window(): int
      requires 0 < lengthA
    {
      (Width() * lengthB - 1) / lengthA
    }

    /** map_line_number from B to A */
    function Closest(b: int): int
      requires 0 < lengthB
    {
      ((b - startB) * 2 + 1) * lengthA / (lengthB * 2) + startA
    }

    /** get_similarity, as an index into the array of the whole chunk */
    function Slot(a: int, b: int): int
      requires 0 < lengthA && 0 < lengthB
    {
      a - Closest(b) + Distance() + (b - startB) * Width()
    }

    function Geometry(): Search
      requires 0 < lengthA && 0 < lengthB
    {
      Search(Distance(), b => Closest(b), (a, b) => Slot(a, b))
    }
  }

  lemma MulLe(x: int, y: int, n: int)
    requires x <= y && 0 <= n
    ensures x * n <= y * n
  {
  }

  lemma DivShift(u: int, v: int, k: int, n: int)
    requires 0 < n && u + k * n <= v
    ensures u / n + k <= v / n
  {
    var p, q := u / n, v / n;
    assert u == p * n + u % n;
    assert v == q * n + v % n;
    assert (p + k) * n == p * n + k * n;
    assert (q + 1) * n == q * n + n;
    if q + 1 <= p + k {
      MulLe(q + 1, p + k, n);
      assert false;
    }
  }

  /** The bound behind max_search_distance_b. */
  lemma WindowBound(la: int, lb: int, w: int, x: int, y: int)
    requires 0 < la && 0 < lb && x + (w * lb - 1) / la < y
    ensures (x * 2 + 1) * la / (lb * 2) + w <= (y * 2 + 1) * la / (lb * 2)
  {
    var n := w * lb;
    assert n - 1 == (n - 1) / la * la + (n - 1) % la;
    MulLe((n - 1) / la + 1, y - x, la);
    assert ((n - 1) / la + 1) * la == (n - 1) / la * la + la;
    assert (y * 2 + 1) * la == (x * 2 + 1) * la + 2 * ((y - x) * la);
    assert w * (lb * 2) == 2 * n;
    DivShift((x * 2 + 1) * la, (y * 2 + 1) * la, w, lb * 2);
  }

  /** Lines of B further apart than the window map to lines of A more than twice the search distance apart. */
  lemma WindowIsWide(c: Chunk, b1: int, b2: int)
    requires c.Valid() && b1 + c.Window() < b2
    ensures c.Closest(b1) + 2 * c.Distance() < c.Closest(b2)
  {
    WindowBound(c.lengthA, c.lengthB, c.Width(), b1 - c.startB, b2 - c.startB);
  }

  /** Two lines of B that reach a common or crossing line of A are within the window. */
  lemma CrossingIsInWindow(c: Chunk, b1: int, a1: int, b2: int, a2: int)
    requires c.Valid() && c.Geometry().Near(a1, b1) && c.Geometry().Near(a2, b2)
    requires b1 <= b2 && a2 <= a1
    ensures b2 - b1 <= c.Window()
  {
    if b1 + c.Window() < b2 {
      WindowIsWide(c, b1, b2);
    }
  }

  lemma ChunkIsWide(c: Chunk)
    requires c.Valid()
    ensures 0 <= c.Window() && c.Geometry().Wide(c.Window())
  {
    assert 0 < c.Width() * c.lengthB;
    forall b1, b2 | b1 + c.Window() < b2
      ensures c.Geometry().closest(b1) + 2 * c.Distance() < c.Geometry().closest(b2)
    {
      WindowIsWide(c, b1, b2);
    }
  }

  lemma RowBounds(i: int, j: int, w: int)
    requires 0 < w && i < j
    ensures i * w + w <= j * w
  {
    MulLe(i + 1, j, w);
    assert (i + 1) * w == i * w + w;
  }

  lemma ChunkHasRows(c: Chunk)
    requires c.Valid()
    ensures c.Geometry().Rows(c.lengthB * c.Width(), c.startB, c.startB + c.lengthB)
  {
    hide Chunk.Closest;
    var g, w := c.Geometry(), c.Width();
    forall a, b | c.startB <= b < c.startB + c.lengthB && g.Near(a, b)
      ensures 0 <= g.slot(a, b) < c.lengthB * w
    {
      RowBounds(b - c.startB, c.lengthB, w);
      assert 0 <= (b - c.startB) * w;
    }
    forall a, b, a', b' | g.Near(a, b) && g.Near(a', b') && g.slot(a, b) == g.slot(a', b') ensures a == a' && b == b' {
      if b < b' {
        RowBounds(b - c.startB, b' - c.startB, w);
      } else if b' < b {
        RowBounds(b' - c.startB, b - c.startB, w);
      }
    }
  }

  /** The matches of a chunk by the divide and conquer that remembers nothing. */
  function ReferenceMatches(c: Chunk, fa: seq<Fingerprint>, fb: seq<Fingerprint>): Outcome
    requires c.Fits(fa, fb)
  {
    Naive(c.Geometry(), fa, fb, c.startA, c.startA + c.lengthA, c.startB, c.startB + c.lengthB)
  }

  /** fuzzy_find_matching_lines, once the parent's half of the chunk is known not to be empty */
  method MatchChunk(c: Chunk, fa: array<Fingerprint>, fb: seq<Fingerprint>) returns (matches: seq<int>)
    requires c.Fits(fa[..], fb)
    modifies fa
    ensures Outcome(matches, fa[..]) == ReferenceMatches(c, old(fa[..]), fb)
  {
    hide Fresh;
    hide Score;
    hide LineOk;
    hide Naive;
    hide Chunk.Geometry;
    hide Chunk.Window;
    ChunkIsWide(c);
    ChunkHasRows(c);
    var matcher := new Matcher(c, fa, fb);
    matcher.Recurse(c.startA, c.startA + c.lengthA, c.startB, c.startB + c.lengthB);
    matches := matcher.result[0..c.lengthB];
  }

  /** The matches keep line order and stay inside the parent's half of the chunk. */
  lemma ReferenceOrdered(c: Chunk, fa: seq<Fingerprint>, fb: seq<Fingerprint>)
    requires c.Fits(fa, fb)
    ensures |ReferenceMatches(c, fa, fb).matches| == c.lengthB
    ensures Ordered(ReferenceMatches(c, fa, fb).matches, c.startA, c.startA + c.lengthA)
  {
    hide Naive;
    hide Ordered;
    NaiveOrdered(c.Geometry(), fa, fb, c.startA, c.startA + c.lengthA, c.startB, c.startB + c.lengthB);
  }

  /** fuzzy_find_matching_lines; no result when the parent's half of the chunk is empty */
  method FuzzyFindMatchingLines(fa: array<Fingerprint>, fb: seq<Fingerprint>, tlno: nat, parentStart: nat, same: nat,
                                parentLength: int)
    returns (matches: Option<seq<int>>)
    requires tlno < same <= |fb| && parentStart + parentLength <= fa.Length
    modifies fa
    ensures matches.None? <==> parentLength <= 0
    ensures matches.None? ==> fa[..] == old(fa[..])
    ensures matches.Some? ==>
              && Ordered(matches.value, parentStart, parentStart + parentLength)
              && Outcome(matches.value, fa[..]) ==
                 ReferenceMatches(Chunk(parentStart, parentLength, tlno, same - tlno), old(fa[..]), fb)
  {
    if parentLength <= 0 {
      return None;
    }
    hide ReferenceMatches;
    hide Ordered;
    var c := Chunk(parentStart, parentLength, tlno, same - tlno);
    var result := MatchChunk(c, fa, fb);
    ReferenceOrdered(c, old(fa[..]), fb);
    matches := Some(result);
  }
}
