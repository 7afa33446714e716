/**
 The blame engine of blame.c: entries, runs of lines of the final image with the
 lines of a suspect's file they came from, are passed from a commit to its
 scapegoats until nobody else can be blamed.
 */
module Blame {

  datatype Option<+T> = None | Some(value: T)

  datatype Origin = Origin(commit: nat, path: string)

  /**
   Lines lno .. lno + num of the final image are lines sLno .. sLno + num of the suspect's file. ignored says that they
   are there by a guess, made to pass blame over an ignored commit, and unblamable that no guess could be made.
   */
  datatype Entry = Entry(lno: int, num: int, suspect: Origin, sLno: int, ignored: bool, unblamable: bool)

  /** One line of the final image and the suspect's line it came from, with the marks of its entry. */
  datatype Line = Line(lno: int, sLno: int, ignored: bool, unblamable: bool)

  // ---------- Lines of entries ----------

  /** The sum of f over the lines of an entry. */
  function Lines<T>(e: Entry, f: Line -> multiset<T>): multiset<T>
    decreases e.num
  {
    if e.num <= 0 then multiset{}
    else Lines(e.(num := e.num - 1), f) + f(NthLine(e, e.num - 1))
  }

  function NthLine(e: Entry, i: int): Line {
    Line(e.lno + i, e.sLno + i, e.ignored, e.unblamable)
  }

  function Sum<T>(list: seq<Entry>, f: Line -> multiset<T>): multiset<T> {
    if list == [] then multiset{} else Lines(list[0], f) + Sum(list[1..], f)
  }

  function Itself(): Line -> multiset<Line> {
    (l: Line) => multiset{l}
  }

  function Number(): Line -> multiset<int> {
    (l: Line) => multiset{l.lno}
  }

  lemma {:induction false} SumConcat<T>(a: seq<Entry>, b: seq<Entry>, f: Line -> multiset<T>)
    ensures Sum(a + b, f) == Sum(a, f) + Sum(b, f)
  {
    if a == [] {
      assert a + b == b;
    } else {
      assert (a + b)[1..] == a[1..] + b;
      SumConcat(a[1..], b, f);
    }
  }

  lemma SumSnoc<T>(a: seq<Entry>, e: Entry, f: Line -> multiset<T>)
    ensures Sum(a + [e], f) == Sum(a, f) + Lines(e, f)
  {
    SumConcat(a, [e], f);
    assert [e][1..] == [];
  }

  /** split_blame_at: the lines from the len'th on; the entry itself keeps the first len */
  function SplitBlameAt(e: Entry, len: int, newSuspect: Origin): Entry {
    e.(lno := e.lno + len, num := e.num - len, suspect := newSuspect, sLno := e.sLno + len)
  }

  lemma {:induction false} SplitKeepsLines<T>(e: Entry, len: nat, o: Origin, f: Line -> multiset<T>)
    requires len <= e.num
    ensures Lines(e, f) == Lines(e.(num := len), f) + Lines(SplitBlameAt(e, len, o), f)
    decreases e.num
  {
    hide Lines;
    var n := SplitBlameAt(e, len, o);
    LastLine(n, f);
    if len < e.num {
      SplitKeepsLines(e.(num := e.num - 1), len, o, f);
      LastLine(e, f);
    }
  }

  // ---------- Diffs ----------

  /** Lines startB .. startB + countB of the target replace lines startA .. startA + countA of the parent. */
  datatype Hunk = Hunk(startA: int, countA: int, startB: int, countB: int) {
    function EndA(): int { startA + countA }
    function EndB(): int { startB + countB }
  }

  /** What is added to a target line number after the first k hunks. */
  function Offset(hunks: seq<Hunk>, k: int): int
    requires 0 <= k <= |hunks|
  {
    if k == 0 then 0 else hunks[k - 1].EndA() - hunks[k - 1].EndB()
  }

  function GapStart(hunks: seq<Hunk>, k: int): int
    requires 0 <= k <= |hunks|
  {
    if k == 0 then 0 else hunks[k - 1].EndB()
  }

  /** The stretch before the k'th hunk, or after the last, ends here. */
  function GapEnd(hunks: seq<Hunk>, k: int, length: int): int
    requires 0 <= k <= |hunks|
  {
    if k == |hunks| then length else hunks[k].startB
  }

  ghost predicate GapOk(hunks: seq<Hunk>, k: int, length: int)
    requires 0 <= k <= |hunks|
  {
    && 0 <= GapStart(hunks, k) <= GapEnd(hunks, k, length) <= length
    && (k < |hunks| ==>
          && 0 <= hunks[k].countA && 0 <= hunks[k].countB && hunks[k].EndB() <= length
          && hunks[k].startA - hunks[k].startB == Offset(hunks, k))
  }

  /** The lines before the k'th hunk are the same on both sides. */
  ghost predicate GapSame(hunks: seq<Hunk>, k: int, parent: seq<string>, target: seq<string>)
    requires 0 <= k <= |hunks|
  {
    forall s :: GapStart(hunks, k) <= s < GapEnd(hunks, k, |target|) && 0 <= s < |target| ==>
      0 <= s + Offset(hunks, k) < |parent| && parent[s + Offset(hunks, k)] == target[s]
  }

  /** Ordered hunks from parent to target, with equal lines between them. */
  ghost predicate IsDiff(hunks: seq<Hunk>, parent: seq<string>, target: seq<string>) {
    forall k :: 0 <= k <= |hunks| ==> GapOk(hunks, k, |target|) && GapSame(hunks, k, parent, target)
  }

  /** The target line lies in some hunk. */
  predicate InHunk(hunks: seq<Hunk>, s: int) {
    exists k :: 0 <= k < |hunks| && hunks[k].startB <= s < hunks[k].EndB()
  }

  /** What is added to the number of a target line that lies in no hunk. */
  function Shift(hunks: seq<Hunk>, s: int): int {
    if hunks == [] then 0
    else if hunks[|hunks| - 1].EndB() <= s then Offset(hunks, |hunks|)
    else Shift(hunks[..|hunks| - 1], s)
  }

  /** Whether a target line in a hunk is looked for in the parent, and the line it is guessed to come from. */
  datatype Guess = NotAsked | NoneFound | From(line: int)

  type Guesses = int -> Guess

  function NoGuess(): Guesses {
    (s: int) => NotAsked
  }

  /** The line, if it stays with the target; it is marked if it was looked for. */
  function Kept(hunks: seq<Hunk>, guess: Guesses): Line -> multiset<Line> {
    (l: Line) => if !InHunk(hunks, l.sLno) then multiset{}
                 else match guess(l.sLno)
                      case NotAsked => multiset{l}
                      case NoneFound => multiset{l.(unblamable := true)}
                      case From(_) => multiset{}
  }

  /** The line as it is passed to the parent, if it is; it is marked if that is a guess. */
  function Passed(hunks: seq<Hunk>, guess: Guesses): Line -> multiset<Line> {
    (l: Line) => if !InHunk(hunks, l.sLno) then multiset{l.(sLno := l.sLno + Shift(hunks, l.sLno))}
                 else if guess(l.sLno).From? then multiset{l.(sLno := guess(l.sLno).line, ignored := true)}
                 else multiset{}
  }

  /** The predicate holds of every line of the entries. */
  ghost predicate Every(list: seq<Entry>, ok: Line -> bool) {
    forall e, i :: e in list && 0 <= i < e.num ==> ok(NthLine(e, i))
  }

  function Unblamable(): Line -> bool {
    (l: Line) => l.unblamable
  }

  function Within(hunks: seq<Hunk>): Line -> bool {
    (l: Line) => InHunk(hunks, l.sLno)
  }

  lemma {:induction false} LineInSum(list: seq<Entry>, e: Entry, i: int)
    requires e in list && 0 <= i < e.num
    ensures NthLine(e, i) in Sum(list, Itself())
  {
    if list[0] == e {
      LineInLines(e, i);
    } else {
      LineInSum(list[1..], e, i);
    }
  }

  lemma {:induction false} LineInLines(e: Entry, i: int)
    requires 0 <= i < e.num
    ensures NthLine(e, i) in Lines(e, Itself())
    decreases e.num
  {
    if i < e.num - 1 {
      LineInLines(e.(num := e.num - 1), i);
    }
  }

  lemma LastLine<T>(e: Entry, f: Line -> multiset<T>)
    ensures if e.num <= 0 then Lines(e, f) == multiset{}
            else Lines(e, f) == Lines(e.(num := e.num - 1), f) + f(NthLine(e, e.num - 1))
  {
  }

  lemma {:induction false} LineFrom<T>(e: Entry, f: Line -> multiset<T>, m: T) returns (i: int)
    requires m in Lines(e, f)
    ensures 0 <= i < e.num && m in f(NthLine(e, i))
    decreases e.num
  {
    hide Lines;
    LastLine(e, f);
    if m in f(NthLine(e, e.num - 1)) {
      i := e.num - 1;
    } else {
      i := LineFrom(e.(num := e.num - 1), f, m);
    }
  }

  lemma {:induction false} LineFromSum<T>(list: seq<Entry>, f: Line -> multiset<T>, m: T) returns (e: Entry, i: int)
    requires m in Sum(list, f)
    ensures e in list && 0 <= i < e.num && m in f(NthLine(e, i))
  {
    if m in Lines(list[0], f) {
      e := list[0];
      i := LineFrom(e, f, m);
    } else {
      e, i := LineFromSum(list[1..], f, m);
    }
  }

  /** What f makes of lines that satisfy one predicate satisfies another. */
  ghost predicate Carries(f: Line -> multiset<Line>, ok: Line -> bool, after: Line -> bool) {
    forall l, m :: ok(l) && m in f(l) ==> after(m)
  }

  /** If the lines of one list are what f makes of those of another, they satisfy what f carries over. */
  lemma EveryCarried(list: seq<Entry>, result: seq<Entry>, f: Line -> multiset<Line>, ok: Line -> bool,
                     after: Line -> bool)
    requires Every(list, ok) && Sum(result, Itself()) == Sum(list, f) && Carries(f, ok, after)
    ensures Every(result, after)
  {
    hide Sum;
    forall e, i | e in result && 0 <= i < e.num ensures after(NthLine(e, i)) {
      LineInSum(result, e, i);
      var d, j := LineFromSum(list, f, NthLine(e, i));
    }
  }

  /** The predicate does not depend on marks. */
  ghost predicate Unmindful(ok: Line -> bool) {
    forall l :: ok(l) ==> ok(l.(unblamable := true))
  }

  /** The lines that stay are lines there were before, each in a hunk. */
  lemma KeptEvery(list: seq<Entry>, kept: seq<Entry>, hunks: seq<Hunk>, guess: Guesses, ok: Line -> bool)
    requires Every(list, ok) && Unmindful(ok) && Sum(kept, Itself()) == Sum(list, Kept(hunks, guess))
    ensures Every(kept, ok) && Every(kept, Within(hunks))
  {
    hide Sum;
    hide InHunk;
    EveryCarried(list, kept, Kept(hunks, guess), ok, ok);
    EveryCarried(list, kept, Kept(hunks, guess), ok, Within(hunks));
  }

  lemma {:induction false} GapsOrdered(hunks: seq<Hunk>, parent: seq<string>, target: seq<string>, j: int, k: int)
    requires IsDiff(hunks, parent, target) && 0 <= j <= k <= |hunks|
    ensures GapStart(hunks, j) <= GapStart(hunks, k)
    ensures j < k ==> GapEnd(hunks, j, |target|) <= GapStart(hunks, k)
    decreases k - j
  {
    if j < k {
      GapsOrdered(hunks, parent, target, j + 1, k);
      assert GapOk(hunks, j, |target|);
    }
  }

  /** A line of the k'th stretch is in no hunk and is shifted by that stretch's offset. */
  lemma GapLine(hunks: seq<Hunk>, parent: seq<string>, target: seq<string>, k: int, s: int)
    requires IsDiff(hunks, parent, target) && 0 <= k <= |hunks|
    requires GapStart(hunks, k) <= s && (k < |hunks| ==> s < hunks[k].startB)
    ensures !InHunk(hunks, s) && Shift(hunks, s) == Offset(hunks, k)
  {
    forall j | 0 <= j < |hunks| ensures !(hunks[j].startB <= s < hunks[j].EndB()) {
      if j < k {
        GapsOrdered(hunks, parent, target, j + 1, k);
      } else if k < j {
        GapsOrdered(hunks, parent, target, k, j);
        assert GapOk(hunks, j, |target|);
      }
    }
    ShiftIs(hunks, parent, target, |hunks|, k, s);
    assert hunks[..|hunks|] == hunks;
  }

  lemma {:induction false} ShiftIs(hunks: seq<Hunk>, parent: seq<string>, target: seq<string>, n: int, k: int, s: int)
    requires IsDiff(hunks, parent, target) && 0 <= k <= n <= |hunks|
    requires GapStart(hunks, k) <= s && (k < |hunks| ==> s < hunks[k].startB)
    ensures Shift(hunks[..n], s) == Offset(hunks, k)
    decreases n
  {
    if k < n {
      GapsOrdered(hunks, parent, target, k, n);
      assert hunks[..n][..n - 1] == hunks[..n - 1];
      ShiftIs(hunks, parent, target, n - 1, k, s);
    }
  }

  lemma {:induction false} LinesAlike<T>(e: Entry, f: Line -> multiset<T>, d: Entry, g: Line -> multiset<T>)
    requires e.num == d.num
    requires forall i :: 0 <= i < e.num ==> f(NthLine(e, i)) == g(NthLine(d, i))
    ensures Lines(e, f) == Lines(d, g)
    decreases e.num
  {
    if e.num > 0 {
      var e', d' := e.(num := e.num - 1), d.(num := d.num - 1);
      forall i | 0 <= i < e'.num ensures f(NthLine(e', i)) == g(NthLine(d', i)) {
        assert f(NthLine(e, i)) == g(NthLine(d, i));
      }
      LinesAlike(e', f, d', g);
      assert f(NthLine(e, e.num - 1)) == g(NthLine(d, d.num - 1));
    }
  }

  lemma {:induction false} LinesNone<T>(e: Entry, f: Line -> multiset<T>)
    requires forall i :: 0 <= i < e.num ==> f(NthLine(e, i)) == multiset{}
    ensures Lines(e, f) == multiset{}
    decreases e.num
  {
    if e.num > 0 {
      var e' := e.(num := e.num - 1);
      forall i | 0 <= i < e'.num ensures f(NthLine(e', i)) == multiset{} {
        assert f(NthLine(e, i)) == multiset{};
      }
      LinesNone(e', f);
      assert f(NthLine(e, e.num - 1)) == multiset{};
    }
  }

  /** An entry inside the k'th stretch is passed as a whole. */
  lemma GapEntry(hunks: seq<Hunk>, guess: Guesses, parent: seq<string>, target: seq<string>, k: int, e: Entry,
                 o: Origin)
    requires IsDiff(hunks, parent, target) && 0 <= k <= |hunks|
    requires GapStart(hunks, k) <= e.sLno && (k < |hunks| ==> e.sLno + e.num <= hunks[k].startB)
    ensures Lines(e, Kept(hunks, guess)) == multiset{}
    ensures Lines(e, Passed(hunks, guess)) == Lines(e.(suspect := o, sLno := e.sLno + Offset(hunks, k)), Itself())
  {
    hide InHunk;
    hide Shift;
    hide Lines;
    var d := e.(suspect := o, sLno := e.sLno + Offset(hunks, k));
    forall i | 0 <= i < e.num
      ensures Kept(hunks, guess)(NthLine(e, i)) == multiset{}
              && Passed(hunks, guess)(NthLine(e, i)) == Itself()(NthLine(d, i))
    {
      GapLine(hunks, parent, target, k, e.sLno + i);
    }
    LinesNone(e, Kept(hunks, guess));
    LinesAlike(e, Passed(hunks, guess), d, Itself());
  }

  /** An entry inside the k'th hunk stays as a whole. */
  lemma HunkEntry(hunks: seq<Hunk>, k: int, e: Entry)
    requires 0 <= k < |hunks|
    requires hunks[k].startB <= e.sLno && e.sLno + e.num <= hunks[k].EndB()
    ensures Lines(e, Kept(hunks, NoGuess())) == Lines(e, Itself())
    ensures Lines(e, Passed(hunks, NoGuess())) == multiset{}
  {
    hide Lines;
    hide Shift;
    forall i | 0 <= i < e.num ensures InHunk(hunks, NthLine(e, i).sLno) {
      assert hunks[k].startB <= e.sLno + i < hunks[k].EndB();
    }
    LinesAlike(e, Kept(hunks, NoGuess()), e, Itself());
    LinesNone(e, Passed(hunks, NoGuess()));
  }

  // ---------- One hunk ----------

  /**
   The entry's lines exist, and are the same in the suspect's file and in the final image, unless by a guess.
   */
  ghost predicate Good(e: Entry, file: seq<string>, image: seq<string>) {
    && 0 < e.num && 0 <= e.lno && e.lno + e.num <= |image| && 0 <= e.sLno && e.sLno + e.num <= |file|
    && (!e.ignored ==> file[e.sLno..e.sLno + e.num] == image[e.lno..e.lno + e.num])
  }

  /** Entries of one suspect that show the lines they should, in the order of their first line in the suspect's file. */
  ghost predicate Proper(list: seq<Entry>, o: Origin, file: seq<string>, image: seq<string>, lo: int, hi: int) {
    && (forall i :: 0 <= i < |list| ==> list[i].suspect == o && Good(list[i], file, image) && lo <= list[i].sLno <= hi)
    && (forall i, j :: 0 <= i < j < |list| ==> list[i].sLno <= list[j].sLno)
  }

  ghost predicate InOrder(list: seq<Entry>) {
    forall i, j :: 0 <= i < j < |list| ==> list[i].sLno <= list[j].sLno
  }

  lemma ProperConcat(a: seq<Entry>, b: seq<Entry>, o: Origin, file: seq<string>, image: seq<string>, lo: int, mid: int,
                     hi: int)
    requires Proper(a, o, file, image, lo, mid) && Proper(b, o, file, image, mid, hi) && lo <= mid <= hi
    ensures Proper(a + b, o, file, image, lo, hi)
  {
    hide Good;
  }

  lemma ProperOne(e: Entry, o: Origin, file: seq<string>, image: seq<string>, lo: int, hi: int)
    requires e.suspect == o && Good(e, file, image) && lo <= e.sLno <= hi
    ensures Proper([e], o, file, image, lo, hi)
  {
    hide Good;
  }

  lemma ProperSnoc(a: seq<Entry>, e: Entry, o: Origin, file: seq<string>, image: seq<string>, lo: int, mid: int,
                   hi: int)
    requires Proper(a, o, file, image, lo, mid) && lo <= mid <= hi
    requires e.suspect == o && Good(e, file, image) && mid <= e.sLno <= hi
    ensures Proper(a + [e], o, file, image, lo, hi)
  {
    ProperOne(e, o, file, image, mid, hi);
    ProperConcat(a, [e], o, file, image, lo, mid, hi);
  }

  lemma ProperWiden(a: seq<Entry>, o: Origin, file: seq<string>, image: seq<string>, lo: int, hi: int, lo2: int,
                    hi2: int)
    requires Proper(a, o, file, image, lo, hi) && lo2 <= lo && hi <= hi2
    ensures Proper(a, o, file, image, lo2, hi2)
  {
    hide Good;
  }

  lemma ProperRaise(a: seq<Entry>, o: Origin, file: seq<string>, image: seq<string>, lo: int, hi: int, m: int)
    requires Proper(a, o, file, image, lo, hi) && (a != [] ==> m <= a[0].sLno)
    ensures Proper(a, o, file, image, m, hi)
  {
    hide Good;
  }

  lemma ProperHead(a: seq<Entry>, o: Origin, file: seq<string>, image: seq<string>, lo: int, hi: int)
    requires Proper(a, o, file, image, lo, hi) && a != []
    ensures a[0].suspect == o && Good(a[0], file, image) && lo <= a[0].sLno <= hi
    ensures Proper(a[1..], o, file, image, a[0].sLno, hi)
  {
    hide Good;
  }

  /** The lines of x in the suspect's file are lines of e. */
  predicate Part(x: Entry, e: Entry) {
    e.sLno <= x.sLno && x.sLno + x.num <= e.sLno + e.num
  }

  /** The entry's lines are in the k'th hunk. */
  predicate InsideOf(hunks: seq<Hunk>, k: int, e: Entry) {
    0 <= k < |hunks| && hunks[k].startB <= e.sLno && e.sLno + e.num <= hunks[k].EndB()
  }

  /** Every entry's lines are in one hunk. */
  ghost predicate AllInside(hunks: seq<Hunk>, list: seq<Entry>) {
    forall x :: x in list ==> exists k :: InsideOf(hunks, k, x)
  }

  lemma InsideSnoc(hunks: seq<Hunk>, list: seq<Entry>, k: int, x: Entry)
    requires AllInside(hunks, list) && InsideOf(hunks, k, x)
    ensures AllInside(hunks, list + [x])
  {
  }

  /** Parts of entries in one hunk are in one hunk. */
  lemma PartsInside(hunks: seq<Hunk>, list: seq<Entry>, all: seq<Entry>)
    requires AllInside(hunks, all) && Parts(list, all)
    ensures AllInside(hunks, list)
  {
    forall x | x in list ensures exists k :: InsideOf(hunks, k, x) {
      var e :| e in all && Part(x, e);
      var k :| InsideOf(hunks, k, e);
      assert InsideOf(hunks, k, x);
    }
  }

  lemma InsideWithin(hunks: seq<Hunk>, list: seq<Entry>)
    requires AllInside(hunks, list)
    ensures Every(list, Within(hunks))
  {
    forall e, i | e in list && 0 <= i < e.num ensures Within(hunks)(NthLine(e, i)) {
      var k :| InsideOf(hunks, k, e);
      assert hunks[k].startB <= e.sLno + i < hunks[k].EndB();
    }
  }

  ghost predicate Parts(list: seq<Entry>, all: seq<Entry>) {
    forall x :: x in list ==> exists e :: e in all && Part(x, e)
  }

  lemma PartsReplaced(before: seq<Entry>, e: Entry, after: seq<Entry>, all: seq<Entry>, n: seq<Entry>)
    requires Parts(before + [e] + after, all) && forall x :: x in n ==> Part(x, e)
    ensures Parts(before + n + after, all)
  {
    var list := before + [e] + after;
    assert list[|before|] == e && e in list;
    var d :| d in all && Part(e, d);
    forall x | x in before + n + after ensures exists f :: f in all && Part(x, f) {
      if x in n {
        assert Part(x, e) && Part(x, d);
      } else {
        assert x in list;
      }
    }
  }

  lemma PartsSnoc(list: seq<Entry>, p: Entry, whole: seq<Entry>, e: Entry, all: seq<Entry>)
    requires Parts(list, all) && Parts(whole, all) && e in whole && Part(p, e)
    ensures Parts(list + [p], all)
  {
    var d :| d in all && Part(e, d);
    assert Part(p, d);
  }

  /** The diff of a target's file against a parent's, both compared with the final image. */
  datatype Comparison = Comparison(parent: Origin, target: Origin, hunks: seq<Hunk>, guess: Guesses,
                                   parentFile: seq<string>, targetFile: seq<string>, image: seq<string>) {
    ghost predicate Valid() {
      IsDiff(hunks, parentFile, targetFile)
    }

    /** What went to the parent, what stays, and what is still to be looked at make up what there was. */
    ghost predicate Balanced(dst: seq<Entry>, kept: seq<Entry>, rest: seq<Entry>, all: seq<Entry>) {
      && Sum(kept, Itself()) + Sum(rest, Kept(hunks, guess)) == Sum(all, Kept(hunks, guess))
      && Sum(dst, Itself()) + Sum(rest, Passed(hunks, guess)) == Sum(all, Passed(hunks, guess))
      && Sum(dst, Number()) + Sum(kept, Number()) + Sum(rest, Number()) == Sum(all, Number())
      && Parts(kept, all) && Parts(rest, all)
    }

    ghost predicate ForParent(list: seq<Entry>, lo: int, hi: int) {
      Proper(list, parent, parentFile, image, lo, hi)
    }

    ghost predicate ForTarget(list: seq<Entry>, lo: int, hi: int) {
      Proper(list, target, targetFile, image, lo, hi)
    }
  }

  lemma SumMiddle<T>(a: seq<Entry>, b: seq<Entry>, c: seq<Entry>, f: Line -> multiset<T>)
    ensures Sum(a + b + c, f) == Sum(a, f) + Sum(b, f) + Sum(c, f)
  {
    SumConcat(a, b, f);
    SumConcat(a + b, c, f);
  }

  lemma SumOne<T>(e: Entry, f: Line -> multiset<T>)
    ensures Sum([e], f) == Lines(e, f)
  {
    assert [e][1..] == [];
  }

  /** Replacing an entry of what is left by a passed part and a part still left. */
  lemma BalancedPass(c: Comparison, dst: seq<Entry>, kept: seq<Entry>, before: seq<Entry>, e: Entry, after: seq<Entry>,
                     all: seq<Entry>, p: Entry, n: seq<Entry>)
    requires c.Balanced(dst, kept, before + [e] + after, all)
    requires Lines(e, Kept(c.hunks, c.guess)) == Sum(n, Kept(c.hunks, c.guess))
    requires Lines(e, Passed(c.hunks, c.guess)) == Lines(p, Itself()) + Sum(n, Passed(c.hunks, c.guess))
    requires (forall x :: x in n ==> Part(x, e))
    requires Lines(e, Number()) == Lines(p, Number()) + Sum(n, Number())
    ensures c.Balanced(dst + [p], kept, before + n + after, all)
  {
    hide Sum;
    hide Lines;
    hide Parts;
    PartsReplaced(before, e, after, all, n);
    SumMiddle(before, [e], after, Kept(c.hunks, c.guess));
    SumMiddle(before, [e], after, Passed(c.hunks, c.guess));
    SumMiddle(before, [e], after, Number());
    SumMiddle(before, n, after, Kept(c.hunks, c.guess));
    SumMiddle(before, n, after, Passed(c.hunks, c.guess));
    SumMiddle(before, n, after, Number());
    SumOne(e, Kept(c.hunks, c.guess));
    SumOne(e, Passed(c.hunks, c.guess));
    SumOne(e, Number());
    SumSnoc(dst, p, Itself());
    SumSnoc(dst, p, Number());
  }

  /** Replacing an entry of what is left by a part that stays and a part still left. */
  lemma BalancedKeep(c: Comparison, dst: seq<Entry>, kept: seq<Entry>, before: seq<Entry>, e: Entry, after: seq<Entry>,
                     all: seq<Entry>, p: Entry, n: seq<Entry>)
    requires c.Balanced(dst, kept, before + [e] + after, all)
    requires Lines(e, Kept(c.hunks, c.guess)) == Lines(p, Itself()) + Sum(n, Kept(c.hunks, c.guess))
    requires Lines(e, Passed(c.hunks, c.guess)) == Sum(n, Passed(c.hunks, c.guess))
    requires (forall x :: x in n ==> Part(x, e)) && Part(p, e)
    requires Lines(e, Number()) == Lines(p, Number()) + Sum(n, Number())
    ensures c.Balanced(dst, kept + [p], before + n + after, all)
  {
    hide Sum;
    hide Lines;
    hide Parts;
    PartsReplaced(before, e, after, all, n);
    assert (before + [e] + after)[|before|] == e;
    PartsSnoc(kept, p, before + [e] + after, e, all);
    SumMiddle(before, [e], after, Kept(c.hunks, c.guess));
    SumMiddle(before, [e], after, Passed(c.hunks, c.guess));
    SumMiddle(before, [e], after, Number());
    SumMiddle(before, n, after, Kept(c.hunks, c.guess));
    SumMiddle(before, n, after, Passed(c.hunks, c.guess));
    SumMiddle(before, n, after, Number());
    SumOne(e, Kept(c.hunks, c.guess));
    SumOne(e, Passed(c.hunks, c.guess));
    SumOne(e, Number());
    SumSnoc(kept, p, Itself());
    SumSnoc(kept, p, Number());
  }

  lemma SliceOfSlice(s: seq<string>, a: int, n: int, from: int, len: int)
    requires 0 <= a && a + n <= |s| && 0 <= from && 0 <= len && from + len <= n
    ensures s[a + from..a + from + len] == s[a..a + n][from..from + len]
  {
    var x, y := s[a + from..a + from + len], s[a..a + n][from..from + len];
    forall i | 0 <= i < len ensures x[i] == y[i] {
      assert y[i] == s[a..a + n][from + i] == s[a + (from + i)];
    }
  }

  lemma GoodPart(e: Entry, file: seq<string>, image: seq<string>, from: int, len: int, o: Origin)
    requires Good(e, file, image) && 0 <= from && 0 < len && from + len <= e.num
    ensures Good(e.(lno := e.lno + from, num := len, suspect := o, sLno := e.sLno + from), file, image)
  {
    SliceOfSlice(file, e.sLno, e.num, from, len);
    SliceOfSlice(image, e.lno, e.num, from, len);
  }

  lemma SameLine(c: Comparison, k: int, s: int)
    requires c.Valid() && 0 <= k <= |c.hunks|
    requires GapStart(c.hunks, k) <= s < GapEnd(c.hunks, k, |c.targetFile|)
    ensures 0 <= s < |c.targetFile| && 0 <= s + Offset(c.hunks, k) < |c.parentFile|
    ensures c.parentFile[s + Offset(c.hunks, k)] == c.targetFile[s]
  {
    assert GapOk(c.hunks, k, |c.targetFile|) && GapSame(c.hunks, k, c.parentFile, c.targetFile);
    assert c.targetFile[s] == c.targetFile[s];
  }

  /** An entry of the k'th stretch shows the same lines in the parent's file. */
  lemma GoodShifted(c: Comparison, k: int, e: Entry)
    requires c.Valid() && 0 <= k <= |c.hunks| && Good(e, c.targetFile, c.image)
    requires GapStart(c.hunks, k) <= e.sLno && e.sLno + e.num <= GapEnd(c.hunks, k, |c.targetFile|)
    ensures Good(e.(suspect := c.parent, sLno := e.sLno + Offset(c.hunks, k)), c.parentFile, c.image)
  {
    hide IsDiff;
    var off := Offset(c.hunks, k);
    SameLine(c, k, e.sLno);
    SameLine(c, k, e.sLno + e.num - 1);
    var from := e.sLno + off;
    var x, y := c.parentFile[from..from + e.num], c.targetFile[e.sLno..e.sLno + e.num];
    forall i | 0 <= i < e.num ensures x[i] == y[i] {
      SameLine(c, k, e.sLno + i);
    }
    assert x == y;
  }

  const INT_MAX := 0x7FFF_FFFF

  /** tlno and same of the k'th call of blame_chunk, the last being for what follows every hunk */
  function ChunkStart(hunks: seq<Hunk>, k: int): int
    requires 0 <= k <= |hunks|
  {
    if k == |hunks| then INT_MAX else hunks[k].startB
  }

  function ChunkEnd(hunks: seq<Hunk>, k: int): int
    requires 0 <= k <= |hunks|
  {
    if k == |hunks| then INT_MAX else hunks[k].EndB()
  }

  /** The second part of an entry cut after len lines, if any. */
  function Tail(e: Entry, len: int): seq<Entry> {
    if len == e.num then [] else [SplitBlameAt(e, len, e.suspect)]
  }

  lemma CutKeepsLines<T>(e: Entry, len: nat, f: Line -> multiset<T>)
    requires len <= e.num
    ensures Lines(e, f) == Lines(e.(num := len), f) + Sum(Tail(e, len), f)
  {
    if len < e.num {
      SplitKeepsLines(e, len, e.suspect, f);
      SumOne(SplitBlameAt(e, len, e.suspect), f);
    } else {
      assert e.(num := len) == e;
    }
  }

  lemma CutGood(e: Entry, file: seq<string>, image: seq<string>, len: int)
    requires Good(e, file, image) && 0 < len <= e.num
    ensures Good(e.(num := len), file, image)
    ensures len < e.num ==> Good(SplitBlameAt(e, len, e.suspect), file, image)
  {
    GoodPart(e, file, image, 0, len, e.suspect);
    if len < e.num {
      GoodPart(e, file, image, len, e.num - len, e.suspect);
    }
  }

  lemma PassedLines(c: Comparison, k: int, e: Entry, len: int)
    requires c.Valid() && 0 <= k <= |c.hunks| && 0 <= len <= e.num
    requires GapStart(c.hunks, k) <= e.sLno && (k < |c.hunks| ==> e.sLno + len <= c.hunks[k].startB)
    ensures var p := e.(num := len, suspect := c.parent, sLno := e.sLno + Offset(c.hunks, k));
            && Lines(e, Kept(c.hunks, c.guess)) == Sum(Tail(e, len), Kept(c.hunks, c.guess))
            && Lines(e, Passed(c.hunks, c.guess)) == Lines(p, Itself()) + Sum(Tail(e, len), Passed(c.hunks, c.guess))
  {
    hide Lines;
    hide Sum;
    hide Tail;
    hide IsDiff;
    GapEntry(c.hunks, c.guess, c.parentFile, c.targetFile, k, e.(num := len), c.parent);
    CutKeepsLines(e, len, Kept(c.hunks, c.guess));
    CutKeepsLines(e, len, Passed(c.hunks, c.guess));
  }

  lemma PassedNumbers(e: Entry, len: int, o: Origin, s: int)
    requires 0 <= len <= e.num
    ensures Lines(e, Number()) == Lines(e.(num := len, suspect := o, sLno := s), Number()) + Sum(Tail(e, len), Number())
  {
    hide Lines;
    hide Sum;
    hide Tail;
    LinesAlike(e.(num := len), Number(), e.(num := len, suspect := o, sLno := s), Number());
    CutKeepsLines(e, len, Number());
  }

  /** What passing an entry that starts in the k'th stretch does to its lines. */
  lemma PassedEntry(c: Comparison, k: int, e: Entry, len: int)
    requires c.Valid() && 0 <= k <= |c.hunks| && Good(e, c.targetFile, c.image) && |c.targetFile| < INT_MAX
    requires GapStart(c.hunks, k) <= e.sLno < ChunkStart(c.hunks, k)
    requires len == if e.sLno + e.num > ChunkStart(c.hunks, k) then ChunkStart(c.hunks, k) - e.sLno else e.num
    ensures var p := e.(num := len, suspect := c.parent, sLno := e.sLno + Offset(c.hunks, k));
            && Good(p, c.parentFile, c.image)
            && (len < e.num ==> Good(SplitBlameAt(e, len, e.suspect), c.targetFile, c.image))
            && Lines(e, Kept(c.hunks, c.guess)) == Sum(Tail(e, len), Kept(c.hunks, c.guess))
            && Lines(e, Passed(c.hunks, c.guess)) == Lines(p, Itself()) + Sum(Tail(e, len), Passed(c.hunks, c.guess))
            && Lines(e, Number()) == Lines(p, Number()) + Sum(Tail(e, len), Number())
  {
    hide Good;
    hide Lines;
    hide Sum;
    hide Tail;
    hide IsDiff;
    hide InHunk;
    GoodBounds(e, c.targetFile, c.image);
    CutGood(e, c.targetFile, c.image, len);
    GoodShifted(c, k, e.(num := len));
    PassedLines(c, k, e, len);
    PassedNumbers(e, len, c.parent, e.sLno + Offset(c.hunks, k));
  }

  lemma GoodBounds(e: Entry, file: seq<string>, image: seq<string>)
    requires Good(e, file, image)
    ensures 0 < e.num && 0 <= e.sLno && e.sLno + e.num <= |file|
  {
  }

  /** What keeping an entry that starts in the k'th hunk does to its lines. */
  lemma KeptEntry(c: Comparison, k: int, e: Entry, len: int)
    requires c.Valid() && 0 <= k < |c.hunks| && Good(e, c.targetFile, c.image) && c.guess == NoGuess()
    requires c.hunks[k].startB <= e.sLno < c.hunks[k].EndB()
    requires len == if e.sLno + e.num > c.hunks[k].EndB() then c.hunks[k].EndB() - e.sLno else e.num
    ensures var p := e.(num := len);
            && Good(p, c.targetFile, c.image)
            && (len < e.num ==> Good(SplitBlameAt(e, len, e.suspect), c.targetFile, c.image))
            && Lines(e, Kept(c.hunks, c.guess)) == Lines(p, Itself()) + Sum(Tail(e, len), Kept(c.hunks, c.guess))
            && Lines(e, Passed(c.hunks, c.guess)) == Sum(Tail(e, len), Passed(c.hunks, c.guess))
            && Lines(e, Number()) == Lines(p, Number()) + Sum(Tail(e, len), Number())
  {
    hide Lines;
    hide Sum;
    hide Tail;
    hide IsDiff;
    hide InHunk;
    var p := e.(num := len);
    GoodPart(e, c.targetFile, c.image, 0, len, e.suspect);
    HunkEntry(c.hunks, k, p);
    CutKeepsLines(e, len, Kept(c.hunks, c.guess));
    CutKeepsLines(e, len, Passed(c.hunks, c.guess));
    CutKeepsLines(e, len, Number());
    if len < e.num {
      GoodPart(e, c.targetFile, c.image, len, e.num - len, e.suspect);
    }
  }

  lemma ChunkOrder(c: Comparison, k: int)
    requires c.Valid() && |c.targetFile| < INT_MAX && 0 <= k <= |c.hunks|
    ensures 0 <= GapStart(c.hunks, k) <= ChunkStart(c.hunks, k) <= ChunkEnd(c.hunks, k) <= INT_MAX
  {
    assert GapOk(c.hunks, k, |c.targetFile|);
  }

  /** The first loop of blame_chunk: entries that start before the hunk go to the parent, up to the hunk. */
  method PassBefore(c: Comparison, dst: seq<Entry>, src: seq<Entry>, tlno: int, offset: int,
                    ghost k: int, ghost kept: seq<Entry>, ghost all: seq<Entry>)
    returns (passed: seq<Entry>, rest: seq<Entry>)
    requires c.Valid() && |c.targetFile| < INT_MAX && 0 <= k <= |c.hunks|
    requires tlno == ChunkStart(c.hunks, k) && offset == Offset(c.hunks, k)
    requires c.ForTarget(src, GapStart(c.hunks, k), INT_MAX)
    requires c.ForParent(dst, 0, GapStart(c.hunks, k) + offset) && 0 <= GapStart(c.hunks, k) + offset
    requires c.Balanced(dst, kept, src, all)
    ensures c.Balanced(passed, kept, rest, all)
    ensures c.ForTarget(rest, tlno, INT_MAX)
    ensures c.ForParent(passed, 0, tlno + offset)
  {
    hide Sum;
    hide Lines;
    hide Proper;
    hide Good;
    hide Comparison.Balanced;
    ChunkOrder(c, k);
    passed := dst;
    var diff: seq<Entry> := [];
    var left := src;
    ghost var cur := GapStart(c.hunks, k);
    EmptyProper(c.target, c.targetFile, c.image, tlno, tlno);
    assert src == diff + left;
    while left != [] && left[0].sLno < tlno
      invariant GapStart(c.hunks, k) <= cur <= tlno
      invariant c.Balanced(passed, kept, diff + left, all)
      invariant c.ForTarget(diff, tlno, tlno) && c.ForTarget(left, cur, INT_MAX)
      invariant c.ForParent(passed, 0, cur + offset)
      decreases |left|
    {
      var e, before := left[0], diff;
      ProperHead(left, c.target, c.targetFile, c.image, cur, INT_MAX);
      var len := e.num;
      if e.sLno + e.num > tlno {
        len := tlno - e.sLno;
        diff := diff + [SplitBlameAt(e, len, e.suspect)];
      }
      PassedEntry(c, k, e, len);
      var p := e.(num := len, suspect := c.parent, sLno := e.sLno + offset);
      ghost var n := Tail(e, len);
      if len < e.num {
        ProperSnoc(before, n[0], c.target, c.targetFile, c.image, tlno, tlno, tlno);
      }
      assert before + left == before + [e] + left[1..];
      BalancedPass(c, passed, kept, before, e, left[1..], all, p, n);
      assert before + n == diff;
      ProperSnoc(passed, p, c.parent, c.parentFile, c.image, 0, cur + offset, e.sLno + offset);
      passed := passed + [p];
      left := left[1..];
      cur := e.sLno;
    }
    ProperRaise(left, c.target, c.targetFile, c.image, cur, INT_MAX, tlno);
    ProperConcat(diff, left, c.target, c.targetFile, c.image, tlno, tlno, INT_MAX);
    ProperWiden(passed, c.parent, c.parentFile, c.image, 0, cur + offset, 0, tlno + offset);
    rest := diff + left;
  }

  lemma EmptyProper(o: Origin, file: seq<string>, image: seq<string>, lo: int, hi: int)
    ensures Proper([], o, file, image, lo, hi)
  {
  }

  /** The second loop of blame_chunk: entries that start in the hunk stay with the target, up to its end. */
  method KeepInside(c: Comparison, kept: seq<Entry>, src: seq<Entry>, same: int,
                    ghost k: int, ghost dst: seq<Entry>, ghost all: seq<Entry>)
    returns (after: seq<Entry>, rest: seq<Entry>)
    requires c.Valid() && c.guess == NoGuess() && |c.targetFile| < INT_MAX && 0 <= k <= |c.hunks|
             && same == ChunkEnd(c.hunks, k)
    requires c.ForTarget(src, ChunkStart(c.hunks, k), INT_MAX)
    requires c.ForTarget(kept, 0, GapStart(c.hunks, k)) && AllInside(c.hunks, kept)
    requires c.Balanced(dst, kept, src, all)
    ensures c.Balanced(dst, after, rest, all)
    ensures c.ForTarget(rest, same, INT_MAX)
    ensures c.ForTarget(after, 0, same) && AllInside(c.hunks, after)
  {
    hide Sum;
    hide Lines;
    hide Proper;
    hide Good;
    hide Comparison.Balanced;
    hide AllInside;
    ChunkOrder(c, k);
    after := kept;
    var more: seq<Entry> := [];
    var left := src;
    ghost var cur := ChunkStart(c.hunks, k);
    EmptyProper(c.target, c.targetFile, c.image, same, same);
    ProperWiden(kept, c.target, c.targetFile, c.image, 0, GapStart(c.hunks, k), 0, cur);
    assert src == more + left;
    while left != [] && left[0].sLno < same
      invariant ChunkStart(c.hunks, k) <= cur <= same
      invariant c.Balanced(dst, after, more + left, all)
      invariant c.ForTarget(more, same, same) && c.ForTarget(left, cur, INT_MAX)
      invariant c.ForTarget(after, 0, cur) && AllInside(c.hunks, after)
      decreases |left|
    {
      var e, before := left[0], more;
      ProperHead(left, c.target, c.targetFile, c.image, cur, INT_MAX);
      var len := e.num;
      if e.sLno + e.num > same {
        len := same - e.sLno;
        more := more + [SplitBlameAt(e, len, e.suspect)];
      }
      KeptEntry(c, k, e, len);
      var p := e.(num := len);
      ghost var n := Tail(e, len);
      if len < e.num {
        ProperSnoc(before, n[0], c.target, c.targetFile, c.image, same, same, same);
      }
      assert before + left == before + [e] + left[1..];
      InsideSnoc(c.hunks, after, k, p);
      BalancedKeep(c, dst, after, before, e, left[1..], all, p, n);
      assert before + n == more;
      ProperSnoc(after, p, c.target, c.targetFile, c.image, 0, cur, e.sLno);
      after := after + [p];
      left := left[1..];
      cur := e.sLno;
    }
    ProperRaise(left, c.target, c.targetFile, c.image, cur, INT_MAX, same);
    ProperConcat(more, left, c.target, c.targetFile, c.image, same, same, INT_MAX);
    ProperWiden(after, c.target, c.targetFile, c.image, 0, cur, 0, same);
    rest := more + left;
  }

  lemma NothingAtEnd(c: Comparison, rest: seq<Entry>)
    requires |c.targetFile| < INT_MAX && c.ForTarget(rest, INT_MAX, INT_MAX)
    ensures rest == []
  {
    if rest != [] {
      ProperHead(rest, c.target, c.targetFile, c.image, INT_MAX, INT_MAX);
      assert false;
    }
  }

  /** pass_blame_to_parent: lines in no hunk go to the parent at their shifted numbers, the others stay. */
  method Divide(c: Comparison, suspects: seq<Entry>) returns (dst: seq<Entry>, kept: seq<Entry>)
    requires c.Valid() && c.guess == NoGuess() && |c.targetFile| < INT_MAX && |c.parentFile| < INT_MAX
    requires c.ForTarget(suspects, 0, INT_MAX)
    ensures Sum(kept, Itself()) == Sum(suspects, Kept(c.hunks, c.guess))
    ensures Sum(dst, Itself()) == Sum(suspects, Passed(c.hunks, c.guess))
    ensures Sum(dst, Number()) + Sum(kept, Number()) == Sum(suspects, Number())
    ensures c.ForParent(dst, 0, INT_MAX) && c.ForTarget(kept, 0, INT_MAX)
    ensures AllInside(c.hunks, kept) && Parts(kept, suspects)
  {
    hide Proper;
    hide Good;
    hide Comparison.Balanced;
    dst, kept := [], [];
    var rest, k, offset := suspects, 0, 0;
    EmptyProper(c.parent, c.parentFile, c.image, 0, 0);
    EmptyProper(c.target, c.targetFile, c.image, 0, 0);
    StartBalanced(c, suspects);
    while k < |c.hunks|
      invariant 0 <= k <= |c.hunks| && offset == Offset(c.hunks, k)
      invariant c.Balanced(dst, kept, rest, suspects)
      invariant c.ForTarget(rest, GapStart(c.hunks, k), INT_MAX)
      invariant 0 <= GapStart(c.hunks, k) + offset && c.ForParent(dst, 0, GapStart(c.hunks, k) + offset)
      invariant c.ForTarget(kept, 0, GapStart(c.hunks, k)) && AllInside(c.hunks, kept)
    {
      var h := c.hunks[k];
      ChunkOrder(c, k);
      assert GapOk(c.hunks, k, |c.targetFile|);
      dst, rest := PassBefore(c, dst, rest, h.startB, h.startA - h.startB, k, kept, suspects);
      kept, rest := KeepInside(c, kept, rest, h.EndB(), k, dst, suspects);
      ProperWiden(dst, c.parent, c.parentFile, c.image, 0, h.startA, 0, h.EndA());
      offset := h.EndA() - h.EndB();
      k := k + 1;
    }
    dst, rest := PassBefore(c, dst, rest, INT_MAX, offset, k, kept, suspects);
    kept, rest := KeepInside(c, kept, rest, INT_MAX, k, dst, suspects);
    NothingAtEnd(c, rest);
    EndBalanced(c, dst, kept, suspects);
    ProperBound(dst, c.parent, c.parentFile, c.image, INT_MAX + offset);
  }

  lemma StartBalanced(c: Comparison, all: seq<Entry>)
    ensures c.Balanced([], [], all, all)
  {
  }

  lemma EndBalanced(c: Comparison, dst: seq<Entry>, kept: seq<Entry>, all: seq<Entry>)
    requires c.Balanced(dst, kept, [], all)
    ensures Sum(kept, Itself()) == Sum(all, Kept(c.hunks, c.guess))
    ensures Sum(dst, Itself()) == Sum(all, Passed(c.hunks, c.guess))
    ensures Sum(dst, Number()) + Sum(kept, Number()) == Sum(all, Number())
    ensures Parts(kept, all)
  {
  }

  lemma ProperBound(a: seq<Entry>, o: Origin, file: seq<string>, image: seq<string>, hi: int)
    requires Proper(a, o, file, image, 0, hi) && |file| < INT_MAX
    ensures Proper(a, o, file, image, 0, INT_MAX)
  {
    forall i | 0 <= i < |a| ensures a[i].sLno <= INT_MAX {
      assert Good(a[i], file, image);
    }
  }

  /** merged, p1 and p2 together have the lines of list1 and list2. */
  ghost predicate Shared(merged: seq<Entry>, p1: seq<Entry>, p2: seq<Entry>, list1: seq<Entry>, list2: seq<Entry>) {
    && Sum(merged, Number()) + Sum(p1, Number()) + Sum(p2, Number()) == Sum(list1, Number()) + Sum(list2, Number())
    && Sum(merged, Itself()) + Sum(p1, Itself()) + Sum(p2, Itself()) == Sum(list1, Itself()) + Sum(list2, Itself())
    && |merged| + |p1| + |p2| == |list1| + |list2|
  }

  lemma TakeFirst(merged: seq<Entry>, p1: seq<Entry>, p2: seq<Entry>, list1: seq<Entry>, list2: seq<Entry>)
    requires Shared(merged, p1, p2, list1, list2) && p1 != []
    ensures Shared(merged + [p1[0]], p1[1..], p2, list1, list2)
  {
    hide Lines;
    SumSnoc(merged, p1[0], Number());
    SumSnoc(merged, p1[0], Itself());
  }

  lemma TakeSecond(merged: seq<Entry>, p1: seq<Entry>, p2: seq<Entry>, list1: seq<Entry>, list2: seq<Entry>)
    requires Shared(merged, p1, p2, list1, list2) && p2 != []
    ensures Shared(merged + [p2[0]], p1, p2[1..], list1, list2)
  {
    hide Lines;
    SumSnoc(merged, p2[0], Number());
    SumSnoc(merged, p2[0], Itself());
  }

  lemma TakeRest(merged: seq<Entry>, p1: seq<Entry>, p2: seq<Entry>, list1: seq<Entry>, list2: seq<Entry>,
                 all: seq<Entry>)
    requires Shared(merged, p1, p2, list1, list2) && all == merged + (p1 + p2)
    ensures Sum(all, Number()) == Sum(list1, Number()) + Sum(list2, Number())
    ensures Sum(all, Itself()) == Sum(list1, Itself()) + Sum(list2, Itself())
    ensures |all| == |list1| + |list2|
  {
    hide Sum;
    SumConcat(p1, p2, Number());
    SumConcat(p1, p2, Itself());
    SumConcat(merged, p1 + p2, Number());
    SumConcat(merged, p1 + p2, Itself());
  }

  /** blame_merge: two lists in order of first line become one */
  method BlameMerge(list1: seq<Entry>, list2: seq<Entry>, ghost o: Origin, ghost file: seq<string>,
                    ghost image: seq<string>)
    returns (merged: seq<Entry>)
    requires Proper(list1, o, file, image, 0, INT_MAX) && Proper(list2, o, file, image, 0, INT_MAX)
    ensures Proper(merged, o, file, image, 0, INT_MAX)
    ensures Sum(merged, Number()) == Sum(list1, Number()) + Sum(list2, Number())
    ensures Sum(merged, Itself()) == Sum(list1, Itself()) + Sum(list2, Itself())
    ensures |merged| == |list1| + |list2|
  {
    hide Good;
    hide Proper;
    hide Sum;
    hide Shared;
    var p1, p2 := list1, list2;
    merged := [];
    ghost var cur := 0;
    EmptyProper(o, file, image, 0, 0);
    NothingShared(list1, list2);
    while p1 != [] && p2 != []
      invariant 0 <= cur <= INT_MAX
      invariant Proper(merged, o, file, image, 0, cur)
      invariant Proper(p1, o, file, image, cur, INT_MAX) && Proper(p2, o, file, image, cur, INT_MAX)
      invariant Shared(merged, p1, p2, list1, list2)
      decreases |p1| + |p2|
    {
      ProperHead(p1, o, file, image, cur, INT_MAX);
      ProperHead(p2, o, file, image, cur, INT_MAX);
      var e;
      if p1[0].sLno <= p2[0].sLno {
        TakeFirst(merged, p1, p2, list1, list2);
        e, p1 := p1[0], p1[1..];
        ProperRaise(p2, o, file, image, cur, INT_MAX, e.sLno);
      } else {
        TakeSecond(merged, p1, p2, list1, list2);
        e, p2 := p2[0], p2[1..];
        ProperRaise(p1, o, file, image, cur, INT_MAX, e.sLno);
      }
      ProperSnoc(merged, e, o, file, image, 0, cur, e.sLno);
      cur := e.sLno;
      merged := merged + [e];
    }
    TakeRest(merged, p1, p2, list1, list2, merged + (p1 + p2));
    assert p1 + p2 == if p1 == [] then p2 else p1;
    ProperConcat(merged, p1 + p2, o, file, image, 0, cur, INT_MAX);
    merged := merged + (p1 + p2);
  }

  lemma NothingShared(list1: seq<Entry>, list2: seq<Entry>)
    ensures Shared([], list1, list2, list1, list2)
  {
  }
}
