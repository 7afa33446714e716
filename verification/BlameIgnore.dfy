/**
 Passing blame over an ignored commit, in blame.c: each line the commit changed is
 guessed to come from a similar line of the parent, and stays only if none is similar.
 */
module BlameIgnore {
  import opened Blame
  import opened BlameMove
  import FuzzyMatch

  type Fingerprint = FuzzyMatch.Fingerprint

  const FINGERPRINT_FILE_THRESHOLD := 10

  // ---------- Guesses ----------

  /** A line of the target that is looked for in the parent: its fingerprint and its number */
  datatype Wanted = Wanted(line: Fingerprint, at: int) {
    /** fingerprint_similarity */
    function Similar(p: Fingerprint): nat {
      |line * p|
    }

    function Away(p: int): nat {
      FuzzyMatch.Abs(p - at)
    }

    /**
     Line p of the parent is a better guess than line r: more similar, or as similar and closer, or as close and later.
     */
    predicate Better(fa: seq<Fingerprint>, p: int, r: int)
      requires 0 <= p < |fa| && 0 <= r < |fa|
    {
      || Similar(fa[p]) > Similar(fa[r])
      || (Similar(fa[p]) == Similar(fa[r]) && (Away(p) < Away(r) || (Away(p) == Away(r) && p > r)))
    }

    predicate Eligible(fa: seq<Fingerprint>, p: int)
      requires 0 <= p < |fa|
    {
      Similar(fa[p]) >= FINGERPRINT_FILE_THRESHOLD
    }

    /** No eligible line from lo to hi is better than r, which is one of them, or there is none and r is -1. */
    ghost predicate IsBest(fa: seq<Fingerprint>, lo: int, hi: int, r: int)
      requires 0 <= lo <= hi <= |fa|
    {
      && (r == -1 || (lo <= r < hi && Eligible(fa, r)))
      && forall p :: lo <= p < hi && Eligible(fa, p) ==> r != -1 && !Better(fa, p, r)
    }

    /** The best guess of lines lo to hi of the parent, or -1. */
    function Best(fa: seq<Fingerprint>, lo: int, hi: int): (r: int)
      requires 0 <= lo <= hi <= |fa|
      ensures IsBest(fa, lo, hi, r)
      decreases hi - lo
    {
      if lo == hi then -1 else
      var r := Best(fa, lo, hi - 1);
      if Eligible(fa, hi - 1) && (r == -1 || Better(fa, hi - 1, r)) then hi - 1 else r
    }

    lemma BestIsOne(fa: seq<Fingerprint>, lo: int, hi: int, r: int)
      requires 0 <= lo <= hi <= |fa| && IsBest(fa, lo, hi, r)
      ensures r == Best(fa, lo, hi)
    {
    }
  }

  /** scan_parent_range */
  method ScanParentRange(fa: array<Fingerprint>, t: Wanted, lo: nat, count: nat) returns (best: int)
    requires lo + count <= fa.Length
    ensures t.IsBest(fa[..], lo, lo + count, best)
  {
    var bestValue := FINGERPRINT_FILE_THRESHOLD;
    best := -1;
    var p := lo;
    while p < lo + count
      invariant lo <= p <= lo + count && t.IsBest(fa[..], lo, p, best)
      invariant bestValue == if best == -1 then FINGERPRINT_FILE_THRESHOLD else t.Similar(fa[best])
    {
      var similarity := t.Similar(fa[p]);
      if similarity >= bestValue && !(similarity == bestValue && best != -1 && t.Away(best) < t.Away(p)) {
        bestValue := similarity;
        best := p;
      }
      p := p + 1;
    }
  }

  /** The hunk is about lines of files of the given lengths. */
  predicate HunkFits(h: Hunk, a: nat, b: nat) {
    && 0 <= h.startA && 0 <= h.countA && h.EndA() <= a
    && 0 <= h.startB && 0 <= h.countB && h.EndB() <= b
  }

  /**
   The matches of the hunk's lines among the parent's lines of the hunk, and the parent's fingerprints without what has
   been matched
   */
  function MatchHunk(h: Hunk, fa: seq<Fingerprint>, fb: seq<Fingerprint>): (o: FuzzyMatch.Outcome)
    requires HunkFits(h, |fa|, |fb|)
    ensures |o.matches| == h.countB && |o.fa| == |fa|
  {
    if h.countA == 0 || h.countB == 0 then FuzzyMatch.Outcome(seq(h.countB, _ => -1), fa)
    else FuzzyMatch.ReferenceMatches(FuzzyMatch.Chunk(h.startA, h.countA, h.startB, h.countB), fa, fb)
  }

  /**
   The i'th line of a hunk goes to its match in the hunk, or else to the best of the whole parent, if there is any.
   */
  function GuessInHunk(h: Hunk, fa: seq<Fingerprint>, fb: seq<Fingerprint>, i: int): (g: Guess)
    requires HunkFits(h, |fa|, |fb|) && 0 <= i < h.countB
    ensures g != NotAsked
  {
    var o := MatchHunk(h, fa, fb);
    var s := h.startB + i;
    var r := if o.matches[i] >= 0 then o.matches[i] else Wanted(fb[s], s).Best(o.fa, 0, |o.fa|);
    if r >= 0 then From(r) else NoneFound
  }

  lemma GuessInRange(h: Hunk, fa: seq<Fingerprint>, fb: seq<Fingerprint>, i: int)
    requires HunkFits(h, |fa|, |fb|) && 0 <= i < h.countB
    ensures var g := GuessInHunk(h, fa, fb, i); g.From? ==> 0 <= g.line < |fa|
  {
    if 0 < h.countA {
      FuzzyMatch.ReferenceOrdered(FuzzyMatch.Chunk(h.startA, h.countA, h.startB, h.countB), fa, fb);
    }
  }

  /** blame_line_tracker */
  datatype Tracker = Tracker(isParent: bool, sLno: int)

  function Track(guess: Guess, s: int): Tracker {
    if guess.From? then Tracker(true, guess.line) else Tracker(false, s)
  }

  /** are_lines_adjacent */
  predicate AreLinesAdjacent(first: Tracker, second: Tracker) {
    first.isParent == second.isParent && first.sLno + 1 == second.sLno
  }

  /** guess_line_blames */
  method GuessLineBlames(fa: array<Fingerprint>, fb: seq<Fingerprint>, h: Hunk) returns (trackers: seq<Tracker>)
    requires HunkFits(h, fa.Length, |fb|) && 0 < h.countB
    modifies fa
    ensures fa[..] == MatchHunk(h, old(fa[..]), fb).fa
    ensures |trackers| == h.countB
    ensures forall i :: 0 <= i < h.countB ==> trackers[i] == Track(GuessInHunk(h, old(fa[..]), fb, i), h.startB + i)
  {
    hide FuzzyMatch.ReferenceMatches;
    hide FuzzyMatch.Ordered;
    hide Wanted.IsBest;
    var matches := FuzzyMatch.FuzzyFindMatchingLines(fa, fb, h.startB, h.startA, h.EndB(), h.countA);
    ghost var o := MatchHunk(h, old(fa[..]), fb);
    assert fa[..] == o.fa && (matches.Some? ==> matches.value == o.matches);
    trackers := [];
    while |trackers| < h.countB
      invariant |trackers| <= h.countB && fa[..] == o.fa
      invariant forall i :: 0 <= i < |trackers| ==>
                trackers[i] == Track(GuessInHunk(h, old(fa[..]), fb, i), h.startB + i)
    {
      var i, s, best := |trackers|, h.startB + |trackers|, -1;
      if matches.Some? && matches.value[i] >= 0 {
        best := matches.value[i];
      } else {
        var t := Wanted(fb[s], s);
        best := ScanParentRange(fa, t, 0, fa.Length);
        t.BestIsOne(fa[..], 0, fa.Length, best);
      }
      trackers := trackers + [if best >= 0 then Tracker(true, best) else Tracker(false, s)];
    }
  }

  // ---------- Guesses for a whole diff ----------

  predicate HunksFit(hunks: seq<Hunk>, a: nat, b: nat) {
    forall k :: 0 <= k < |hunks| ==> HunkFits(hunks[k], a, b)
  }

  /** The parent's fingerprints once the first k hunks have been matched. */
  function After(hunks: seq<Hunk>, fa: seq<Fingerprint>, fb: seq<Fingerprint>, k: int): (r: seq<Fingerprint>)
    requires HunksFit(hunks, |fa|, |fb|) && 0 <= k <= |hunks|
    ensures |r| == |fa|
  {
    if k == 0 then fa else MatchHunk(hunks[k - 1], After(hunks, fa, fb, k - 1), fb).fa
  }

  function GuessFrom(hunks: seq<Hunk>, fa: seq<Fingerprint>, fb: seq<Fingerprint>, n: int, s: int): (g: Guess)
    requires HunksFit(hunks, |fa|, |fb|) && 0 <= n <= |hunks|
  {
    if n == 0 then NotAsked
    else if hunks[n - 1].startB <= s < hunks[n - 1].EndB() then
      GuessInHunk(hunks[n - 1], After(hunks, fa, fb, n - 1), fb, s - hunks[n - 1].startB)
    else GuessFrom(hunks, fa, fb, n - 1, s)
  }

  /** The guesses of a whole diff, hunk by hunk. */
  function GuessesOf(hunks: seq<Hunk>, fa: seq<Fingerprint>, fb: seq<Fingerprint>): Guesses {
    (s: int) => if HunksFit(hunks, |fa|, |fb|) then GuessFrom(hunks, fa, fb, |hunks|, s) else NotAsked
  }

  lemma {:induction false} GuessFromAt(hunks: seq<Hunk>, fa: seq<Fingerprint>, fb: seq<Fingerprint>,
                                       parent: seq<string>, target: seq<string>, n: int, k: int, s: int)
    requires HunksFit(hunks, |fa|, |fb|) && IsDiff(hunks, parent, target) && 0 <= k < n <= |hunks|
    requires hunks[k].startB <= s < hunks[k].EndB()
    ensures GuessFrom(hunks, fa, fb, n, s) == GuessInHunk(hunks[k], After(hunks, fa, fb, k), fb, s - hunks[k].startB)
    decreases n
  {
    hide GuessInHunk;
    hide IsDiff;
    hide After;
    hide HunkFits;
    if k < n - 1 {
      GapsOrdered(hunks, parent, target, k + 1, n - 1);
      GapBefore(hunks, parent, target, n - 1);
      GuessFromAt(hunks, fa, fb, parent, target, n - 1, k, s);
    }
  }

  lemma GapBefore(hunks: seq<Hunk>, parent: seq<string>, target: seq<string>, k: int)
    requires IsDiff(hunks, parent, target) && 0 <= k < |hunks|
    ensures GapStart(hunks, k) <= hunks[k].startB
  {
    assert GapOk(hunks, k, |target|);
  }

  /** A comparison whose guesses are those that the fingerprints give. */
  ghost predicate Guessing(c: Comparison, fa: seq<Fingerprint>, fb: seq<Fingerprint>) {
    && c.Valid() && |fa| == |c.parentFile| && |fb| == |c.targetFile| && HunksFit(c.hunks, |fa|, |fb|)
    && c.guess == GuessesOf(c.hunks, fa, fb)
  }

  /** The tracker of a target line in a hunk is the guess for it. */
  ghost predicate TrackerFor(c: Comparison, s: int, t: Tracker) {
    InHunk(c.hunks, s) && c.guess(s) != NotAsked && t == Track(c.guess(s), s)
      && (t.isParent ==> 0 <= t.sLno < |c.parentFile|)
  }

  /** Each line of the hunk has its tracker. */
  ghost predicate Tracking(c: Comparison, h: Hunk, trackers: seq<Tracker>) {
    |trackers| == h.countB && forall i :: 0 <= i < h.countB ==> TrackerFor(c, h.startB + i, trackers[i])
  }

  lemma IsTracking(c: Comparison, fa: seq<Fingerprint>, fb: seq<Fingerprint>, k: int, trackers: seq<Tracker>)
    requires Guessing(c, fa, fb) && 0 <= k < |c.hunks| && |trackers| == c.hunks[k].countB
    requires var h, before := c.hunks[k], After(c.hunks, fa, fb, k);
             forall i :: 0 <= i < h.countB ==> trackers[i] == Track(GuessInHunk(h, before, fb, i), h.startB + i)
    ensures Tracking(c, c.hunks[k], trackers)
  {
    hide GuessInHunk;
    hide IsDiff;
    hide After;
    var h := c.hunks[k];
    forall i | 0 <= i < h.countB ensures TrackerFor(c, h.startB + i, trackers[i]) {
      GuessFromAt(c.hunks, fa, fb, c.parentFile, c.targetFile, |c.hunks|, k, h.startB + i);
      GuessInRange(h, After(c.hunks, fa, fb, k), fb, i);
    }
  }

  // ---------- Carving an entry ----------

  /** Each line of the entry has its tracker. */
  ghost predicate Tracked(c: Comparison, e: Entry, trackers: seq<Tracker>) {
    |trackers| == e.num && forall i :: 0 <= i < e.num ==> TrackerFor(c, e.sLno + i, trackers[i])
  }

  /** Each of the first len trackers is adjacent to the next. */
  ghost predicate Run(trackers: seq<Tracker>, len: int)
    requires 0 < len <= |trackers|
  {
    forall i :: 0 <= i < len ==>
      trackers[i].isParent == trackers[0].isParent && trackers[i].sLno == trackers[0].sLno + i
  }

  /** The first len lines of an entry as they are put on a list. */
  function Piece(e: Entry, len: int, first: Tracker, parent: Origin): Entry {
    if first.isParent then e.(num := len, ignored := true, suspect := parent, sLno := first.sLno)
    else e.(num := len, unblamable := true)
  }

  lemma PieceGoes(c: Comparison, e: Entry, trackers: seq<Tracker>, len: int, i: int)
    requires 0 <= i < len <= e.num && Tracked(c, e, trackers) && Run(trackers, len)
    ensures var p, l := Piece(e, len, trackers[0], c.parent), NthLine(e, i);
            if trackers[0].isParent then
              Kept(c.hunks, c.guess)(l) == multiset{} && Passed(c.hunks, c.guess)(l) == Itself()(NthLine(p, i))
            else
              Kept(c.hunks, c.guess)(l) == Itself()(NthLine(p, i)) && Passed(c.hunks, c.guess)(l) == multiset{}
  {
    hide InHunk;
    hide Shift;
    assert TrackerFor(c, e.sLno + i, trackers[i]);
  }

  lemma PieceLines(c: Comparison, e: Entry, trackers: seq<Tracker>, len: int)
    requires 0 < len <= e.num == |trackers| && Tracked(c, e, trackers) && Run(trackers, len)
    ensures var p, d := Piece(e, len, trackers[0], c.parent), e.(num := len);
            if trackers[0].isParent then
              Lines(d, Kept(c.hunks, c.guess)) == multiset{} && Lines(d, Passed(c.hunks, c.guess)) == Lines(p, Itself())
            else
              Lines(d, Kept(c.hunks, c.guess)) == Lines(p, Itself()) && Lines(d, Passed(c.hunks, c.guess)) == multiset{}
  {
    hide InHunk;
    hide Shift;
    hide Lines;
    hide Tracked;
    hide Run;
    hide Kept;
    hide Passed;
    hide Itself;
    var p, d := Piece(e, len, trackers[0], c.parent), e.(num := len);
    forall i | 0 <= i < len
      ensures var l := NthLine(d, i);
              if trackers[0].isParent then
                Kept(c.hunks, c.guess)(l) == multiset{} && Passed(c.hunks, c.guess)(l) == Itself()(NthLine(p, i))
              else
                Kept(c.hunks, c.guess)(l) == Itself()(NthLine(p, i)) && Passed(c.hunks, c.guess)(l) == multiset{}
    {
      PieceGoes(c, e, trackers, len, i);
    }
    if trackers[0].isParent {
      LinesNone(d, Kept(c.hunks, c.guess));
      LinesAlike(d, Passed(c.hunks, c.guess), p, Itself());
    } else {
      LinesAlike(d, Kept(c.hunks, c.guess), p, Itself());
      LinesNone(d, Passed(c.hunks, c.guess));
    }
  }

  lemma PieceGood(c: Comparison, e: Entry, trackers: seq<Tracker>, len: int)
    requires 0 < len <= e.num && Tracked(c, e, trackers) && Run(trackers, len)
    requires Good(e, c.targetFile, c.image)
    ensures var p := Piece(e, len, trackers[0], c.parent);
            Good(p, if trackers[0].isParent then c.parentFile else c.targetFile, c.image)
    ensures len < e.num ==> Good(SplitBlameAt(e, len, e.suspect), c.targetFile, c.image)
  {
    hide InHunk;
    CutGood(e, c.targetFile, c.image, len);
    assert trackers[len - 1].sLno == trackers[0].sLno + (len - 1);
    assert TrackerFor(c, e.sLno + 0, trackers[0]) && TrackerFor(c, e.sLno + (len - 1), trackers[len - 1]);
  }

  lemma PieceNumbers(e: Entry, len: int, first: Tracker, parent: Origin)
    requires 0 < len <= e.num
    ensures Lines(e, Number()) == Lines(Piece(e, len, first, parent), Number()) + Sum(Tail(e, len), Number())
  {
    hide Lines;
    hide Sum;
    hide Tail;
    CutKeepsLines(e, len, Number());
    NumbersOf(e.(num := len), Piece(e, len, first, parent));
  }

  lemma TailTracked(c: Comparison, e: Entry, trackers: seq<Tracker>, len: int)
    requires 0 < len < e.num && Tracked(c, e, trackers)
    ensures Tracked(c, SplitBlameAt(e, len, e.suspect), trackers[len..])
  {
    hide TrackerFor;
    var n, rest := SplitBlameAt(e, len, e.suspect), trackers[len..];
    forall i | 0 <= i < n.num ensures TrackerFor(c, n.sLno + i, rest[i]) {
      assert TrackerFor(c, e.sLno + (len + i), trackers[len + i]);
    }
  }

  lemma PiecePart(e: Entry, len: int, first: Tracker, parent: Origin)
    requires 0 < len <= e.num
    ensures forall x :: x in Tail(e, len) ==> Part(x, e)
    ensures !first.isParent ==> Part(Piece(e, len, first, parent), e)
  {
  }

  /** The lists and what is left, once the first len lines of an entry have been put on one of the lists. */
  lemma PieceBalanced(c: Comparison, dst: seq<Entry>, kept: seq<Entry>, before: seq<Entry>, e: Entry, after: seq<Entry>,
                      all: seq<Entry>, trackers: seq<Tracker>, len: int)
    requires 0 < len <= e.num == |trackers| && Tracked(c, e, trackers) && Run(trackers, len)
    requires c.Balanced(dst, kept, before + [e] + after, all)
    ensures var p := Piece(e, len, trackers[0], c.parent);
            if trackers[0].isParent then c.Balanced(dst + [p], kept, before + Tail(e, len) + after, all)
            else c.Balanced(dst, kept + [p], before + Tail(e, len) + after, all)
  {
    hide Lines;
    hide Sum;
    hide Tail;
    hide Run;
    hide Tracked;
    hide Comparison.Balanced;
    var p, n := Piece(e, len, trackers[0], c.parent), Tail(e, len);
    PieceLines(c, e, trackers, len);
    PieceNumbers(e, len, trackers[0], c.parent);
    CutKeepsLines(e, len, Kept(c.hunks, c.guess));
    CutKeepsLines(e, len, Passed(c.hunks, c.guess));
    PiecePart(e, len, trackers[0], c.parent);
    if trackers[0].isParent {
      BalancedPass(c, dst, kept, before, e, after, all, p, n);
    } else {
      BalancedKeep(c, dst, kept, before, e, after, all, p, n);
    }
  }

  // ---------- What stays ----------

  /** The number of lines at the start of an entry that no guess is made for. */
  function Staying(e: Entry, g: Guesses): (n: int)
    ensures 0 <= n && (0 <= e.num ==> n <= e.num)
    ensures forall s :: e.sLno <= s < e.sLno + n ==> !g(s).From?
    ensures n < e.num ==> g(e.sLno + n).From?
    decreases e.num
  {
    if e.num <= 0 || g(e.sLno).From? then 0 else 1 + Staying(SplitBlameAt(e, 1, e.suspect), g)
  }

  /** The entries that stay of an entry: the longest runs of lines that no guess is made for. */
  function Stays(e: Entry, g: Guesses): seq<Entry>
    decreases e.num
  {
    if e.num <= 0 then []
    else if g(e.sLno).From? then Stays(SplitBlameAt(e, 1, e.suspect), g)
    else
      var n := Staying(e, g);
      [e.(num := n, unblamable := true)] + Stays(SplitBlameAt(e, n, e.suspect), g)
  }

  lemma {:induction false} StaysAfter(e: Entry, g: Guesses, len: int)
    requires 0 <= len <= e.num && forall s :: e.sLno <= s < e.sLno + len ==> g(s).From?
    ensures Stays(e, g) == Stays(SplitBlameAt(e, len, e.suspect), g)
    decreases len
  {
    if len == 0 {
      assert SplitBlameAt(e, 0, e.suspect) == e;
    } else {
      var n := SplitBlameAt(e, 1, e.suspect);
      StaysAfter(n, g, len - 1);
      assert SplitBlameAt(n, len - 1, n.suspect) == SplitBlameAt(e, len, e.suspect);
    }
  }

  lemma StayingIs(e: Entry, g: Guesses, len: int)
    requires 0 < len <= e.num && (forall s :: e.sLno <= s < e.sLno + len ==> !g(s).From?)
    requires len < e.num ==> g(e.sLno + len).From?
    ensures Staying(e, g) == len
    ensures Stays(e, g) == [e.(num := len, unblamable := true)] + Stays(SplitBlameAt(e, len, e.suspect), g)
  {
    var n := Staying(e, g);
    if n < len {
      assert false;
    }
    assert !g(e.sLno).From?;
  }

  /** One run of an entry, when it cannot be made longer. */
  lemma PieceStays(c: Comparison, e: Entry, trackers: seq<Tracker>, len: int)
    requires 0 < len <= e.num == |trackers| && Tracked(c, e, trackers) && Run(trackers, len)
    requires len < e.num ==> !AreLinesAdjacent(trackers[len - 1], trackers[len])
    ensures var p, rest := Piece(e, len, trackers[0], c.parent), Stays(SplitBlameAt(e, len, e.suspect), c.guess);
            Stays(e, c.guess) == if trackers[0].isParent then rest else [p] + rest
  {
    hide InHunk;
    hide Stays;
    forall s | e.sLno <= s < e.sLno + len ensures c.guess(s).From? == trackers[0].isParent {
      assert TrackerFor(c, e.sLno + (s - e.sLno), trackers[s - e.sLno]);
    }
    if trackers[0].isParent {
      StaysAfter(e, c.guess, len);
    } else {
      if len < e.num {
        assert TrackerFor(c, e.sLno + (len - 1), trackers[len - 1]) && TrackerFor(c, e.sLno + len, trackers[len]);
      }
      StayingIs(e, c.guess, len);
    }
  }

  /** The line starts a run of an entry's lines that no guess is made for. */
  ghost predicate Starts(e: Entry, g: Guesses, s: int) {
    e.sLno <= s < e.sLno + e.num && !g(s).From? && (s == e.sLno || g(s - 1).From?)
  }

  lemma {:induction false} StaysStart(e: Entry, g: Guesses)
    ensures forall x :: x in Stays(e, g) ==> Starts(e, g, x.sLno)
    ensures InOrder(Stays(e, g))
    decreases e.num
  {
    if e.num <= 0 {
    } else if g(e.sLno).From? {
      StaysStart(SplitBlameAt(e, 1, e.suspect), g);
    } else {
      var n := Staying(e, g);
      var rest := SplitBlameAt(e, n, e.suspect);
      StaysStart(rest, g);
      assert n < e.num ==> g(rest.sLno).From?;
      forall x | x in Stays(rest, g) ensures Starts(e, g, x.sLno) {
        assert Starts(rest, g, x.sLno);
      }
    }
  }

  lemma {:induction false} StartStays(e: Entry, g: Guesses, s: int) returns (x: Entry)
    requires Starts(e, g, s)
    ensures x in Stays(e, g) && x.sLno == s
    decreases e.num
  {
    if g(e.sLno).From? {
      x := StartStays(SplitBlameAt(e, 1, e.suspect), g, s);
    } else {
      var n := Staying(e, g);
      if s == e.sLno {
        x := e.(num := n, unblamable := true);
      } else {
        assert s < e.sLno + n ==> !g(s - 1).From?;
        x := StartStays(SplitBlameAt(e, n, e.suspect), g, s);
      }
    }
  }

  /** What stays of two entries is in order whatever the guesses, if they share no more than two lines. */
  lemma StaysInOrder(e: Entry, d: Entry, g: Guesses)
    requires e.sLno <= d.sLno && e.sLno + e.num <= d.sLno + 2
    ensures InOrder(Stays(e, g) + Stays(d, g))
  {
    StaysStart(e, g);
    StaysStart(d, g);
    forall x, y | x in Stays(e, g) && y in Stays(d, g) ensures x.sLno <= y.sLno {
      assert Starts(e, g, x.sLno) && Starts(d, g, y.sLno);
    }
  }

  /** Otherwise there are guesses that leave it out of order. */
  lemma StaysOutOfOrder(e: Entry, d: Entry) returns (g: Guesses)
    requires e.sLno <= d.sLno && e.sLno + e.num > d.sLno + 2 && 0 < d.num
    ensures !InOrder(Stays(e, g) + Stays(d, g))
  {
    g := (s: int) => if s == d.sLno + 1 then From(0) else NoneFound;
    var x := StartStays(e, g, d.sLno + 2);
    var y := StartStays(d, g, d.sLno);
    var i :| 0 <= i < |Stays(e, g)| && Stays(e, g)[i] == x;
    var j :| 0 <= j < |Stays(d, g)| && Stays(d, g)[j] == y;
    var both := Stays(e, g) + Stays(d, g);
    assert both[i] == x && both[|Stays(e, g)| + j] == y;
  }

  lemma AllOfSnoc(list: seq<Entry>, e: Entry, o: Origin, file: seq<string>, image: seq<string>)
    requires AllOf(list, o, file, image) && e.suspect == o && Good(e, file, image)
    ensures AllOf(list + [e], o, file, image)
  {
    hide Good;
  }

  lemma RunNext(trackers: seq<Tracker>, len: int)
    requires 0 < len < |trackers| && Run(trackers, len) && AreLinesAdjacent(trackers[len - 1], trackers[len])
    ensures Run(trackers, len + 1)
  {
  }

  lemma RunOne(trackers: seq<Tracker>)
    requires 0 < |trackers|
    ensures Run(trackers, 1)
  {
  }

  /** The lists an ignored commit's entries are put on: those of the parent, and those that stay. */
  ghost predicate Placed(c: Comparison, dst: seq<Entry>, kept: seq<Entry>) {
    AllOf(dst, c.parent, c.parentFile, c.image) && AllOf(kept, c.target, c.targetFile, c.image)
  }

  lemma PiecePlaced(c: Comparison, dst: seq<Entry>, kept: seq<Entry>, e: Entry, trackers: seq<Tracker>, len: int)
    requires 0 < len <= e.num == |trackers| && Tracked(c, e, trackers) && Run(trackers, len)
    requires e.suspect == c.target && Good(e, c.targetFile, c.image) && Placed(c, dst, kept)
    ensures var p := Piece(e, len, trackers[0], c.parent);
            if trackers[0].isParent then Placed(c, dst + [p], kept) else Placed(c, dst, kept + [p])
  {
    hide Good;
    hide AllOf;
    hide Tracked;
    hide Run;
    var p := Piece(e, len, trackers[0], c.parent);
    PieceGood(c, e, trackers, len);
    if trackers[0].isParent {
      AllOfSnoc(dst, p, c.parent, c.parentFile, c.image);
    } else {
      AllOfSnoc(kept, p, c.target, c.targetFile, c.image);
    }
  }

  /** ignore_blame_entry: runs of adjacent lines go to the parent or stay, as their guesses say. */
  method IgnoreBlameEntry(c: Comparison, dst0: seq<Entry>, kept0: seq<Entry>, entry: Entry, trackers: seq<Tracker>,
                          ghost before: seq<Entry>, ghost after: seq<Entry>, ghost all: seq<Entry>)
    returns (dst: seq<Entry>, kept: seq<Entry>)
    requires entry.suspect == c.target && Good(entry, c.targetFile, c.image)
    requires |trackers| == entry.num && Tracked(c, entry, trackers) && Placed(c, dst0, kept0)
    requires c.Balanced(dst0, kept0, before + [entry] + after, all)
    ensures Placed(c, dst, kept) && kept == kept0 + Stays(entry, c.guess)
    ensures c.Balanced(dst, kept, before + after, all)
  {
    hide Good;
    hide Tracked;
    hide Run;
    hide Placed;
    hide Stays;
    hide Comparison.Balanced;
    dst, kept := dst0, kept0;
    var e, len, i := entry, 1, 0;
    ghost var rest := trackers;
    GoodBounds(entry, c.targetFile, c.image);
    RunOne(rest);
    while i < |trackers|
      invariant 0 <= i <= |trackers| && 0 < len && Placed(c, dst, kept)
      invariant i < |trackers| ==>
                  && len <= i + 1 && rest == trackers[i + 1 - len..] && Run(rest, len)
                  && e.suspect == c.target && e.num == |rest| && Good(e, c.targetFile, c.image) && Tracked(c, e, rest)
                  && c.Balanced(dst, kept, before + [e] + after, all)
                  && kept + Stays(e, c.guess) == kept0 + Stays(entry, c.guess)
      invariant i == |trackers| ==> c.Balanced(dst, kept, before + after, all) && kept == kept0 + Stays(entry, c.guess)
    {
      if i + 1 < |trackers| && AreLinesAdjacent(trackers[i], trackers[i + 1]) {
        RunNext(rest, len);
        len := len + 1;
      } else {
        RunKind(rest, len);
        PiecePlaced(c, dst, kept, e, rest, len);
        PieceBalanced(c, dst, kept, before, e, after, all, rest, len);
        PieceStays(c, e, rest, len);
        if trackers[i].isParent {
          dst := dst + [e.(num := len, ignored := true, suspect := c.parent, sLno := trackers[i + 1 - len].sLno)];
        } else {
          kept := kept + [e.(num := len, unblamable := true)];
        }
        if i + 1 < |trackers| {
          PieceGood(c, e, rest, len);
          TailTracked(c, e, rest, len);
          e, rest := SplitBlameAt(e, len, e.suspect), rest[len..];
          RunOne(rest);
        } else {
          NothingStays(SplitBlameAt(e, len, e.suspect), c.guess);
          assert before + [] + after == before + after;
        }
        len := 1;
      }
      i := i + 1;
    }
  }

  lemma NothingStays(e: Entry, g: Guesses)
    requires e.num == 0
    ensures Stays(e, g) == []
  {
  }

  lemma RunKind(trackers: seq<Tracker>, len: int)
    requires 0 < len <= |trackers| && Run(trackers, len)
    ensures trackers[len - 1].isParent == trackers[0].isParent
  {
  }

  // ---------- One hunk, and a whole diff ----------

  /** Every entry is in one hunk, and none starts before the hunk of one that comes earlier in the list. */
  ghost predicate ByHunk(hunks: seq<Hunk>, list: seq<Entry>) {
    && AllInside(hunks, list)
    && forall i, j, k :: 0 <= i < j < |list| && InsideOf(hunks, k, list[i]) ==> hunks[k].startB <= list[j].sLno
  }

  /** Every entry is in the k'th hunk or a later one. */
  ghost predicate NotBefore(hunks: seq<Hunk>, k: int, list: seq<Entry>) {
    forall x :: x in list ==> exists m :: k <= m && InsideOf(hunks, m, x)
  }

  ghost predicate NoneEmpty(list: seq<Entry>) {
    forall x :: x in list ==> 0 < x.num
  }

  lemma HunksOrdered(hunks: seq<Hunk>, parent: seq<string>, target: seq<string>, j: int, k: int)
    requires IsDiff(hunks, parent, target) && 0 <= j < k < |hunks|
    ensures hunks[j].EndB() <= hunks[k].startB
  {
    GapsOrdered(hunks, parent, target, j + 1, k);
    GapBefore(hunks, parent, target, k);
  }

  /** An entry is in one hunk only. */
  lemma OneHunk(hunks: seq<Hunk>, parent: seq<string>, target: seq<string>, x: Entry, j: int, k: int)
    requires IsDiff(hunks, parent, target) && 0 < x.num && InsideOf(hunks, j, x) && InsideOf(hunks, k, x)
    ensures j == k
  {
    hide IsDiff;
    if j < k {
      HunksOrdered(hunks, parent, target, j, k);
    } else if k < j {
      HunksOrdered(hunks, parent, target, k, j);
    }
  }

  /** In order of first lines and each in one hunk, the entries are in order of hunks. */
  lemma OrderedByHunk(hunks: seq<Hunk>, list: seq<Entry>)
    requires AllInside(hunks, list) && InOrder(list)
    ensures ByHunk(hunks, list)
  {
  }

  /** The first entry left is in the hunk at hand if it starts before its end. */
  lemma NextInside(hunks: seq<Hunk>, parent: seq<string>, target: seq<string>, list: seq<Entry>, n: nat, k: int)
    requires IsDiff(hunks, parent, target) && 0 <= k < |hunks| && n < |list| && NotBefore(hunks, k, list[n..])
    requires list[n].sLno < hunks[k].EndB() && 0 < list[n].num
    ensures InsideOf(hunks, k, list[n])
  {
    hide IsDiff;
    assert list[n..][0] == list[n] && list[n] in list[n..];
    var m :| k <= m && InsideOf(hunks, m, list[n]);
    if k < m {
      HunksOrdered(hunks, parent, target, k, m);
    }
  }

  /** When none left starts before the end of the hunk at hand, all are in later ones. */
  lemma HunkDone(hunks: seq<Hunk>, parent: seq<string>, target: seq<string>, list: seq<Entry>, n: nat, k: int)
    requires IsDiff(hunks, parent, target) && 0 <= k < |hunks| && n <= |list| && NotBefore(hunks, k, list[n..])
    requires ByHunk(hunks, list) && NoneEmpty(list) && (n < |list| ==> hunks[k].EndB() <= list[n].sLno)
    ensures NotBefore(hunks, k + 1, list[n..])
  {
    hide IsDiff;
    forall x | x in list[n..] ensures exists m :: k + 1 <= m && InsideOf(hunks, m, x) {
      var i :| n <= i < |list| && list[i] == x;
      var first := list[n..][0];
      assert first == list[n] && first in list[n..] && first in list && x in list;
      var m :| k <= m && InsideOf(hunks, m, x);
      var f :| k <= f && InsideOf(hunks, f, first);
      assert k < f;
      HunksOrdered(hunks, parent, target, k, f);
      assert hunks[f].startB <= x.sLno;
    }
  }

  lemma NothingLeft(hunks: seq<Hunk>, list: seq<Entry>)
    requires NotBefore(hunks, |hunks|, list)
    ensures list == []
  {
    HasFirst(list);
  }

  lemma HasFirst(list: seq<Entry>)
    ensures list == [] || list[0] in list
  {
  }

  lemma AllLeft(hunks: seq<Hunk>, list: seq<Entry>)
    requires AllInside(hunks, list)
    ensures NotBefore(hunks, 0, list)
  {
    forall x | x in list ensures exists m :: 0 <= m && InsideOf(hunks, m, x) {
      var m :| InsideOf(hunks, m, x);
    }
  }

  // ---------- The order of what stays ----------

  /** What stays of the entries of a list */
  function StaysAll(list: seq<Entry>, g: Guesses): seq<Entry> {
    if list == [] then [] else StaysAll(list[..|list| - 1], g) + Stays(list[|list| - 1], g)
  }

  lemma {:induction false} StaysParts(e: Entry, g: Guesses)
    ensures forall x :: x in Stays(e, g) ==> Part(x, e) && 0 < x.num
    decreases e.num
  {
    if e.num > 0 {
      var n := if g(e.sLno).From? then 1 else Staying(e, g);
      var rest := SplitBlameAt(e, n, e.suspect);
      StaysParts(rest, g);
      forall x | x in Stays(e, g) ensures Part(x, e) && 0 < x.num {
        assert x in Stays(rest, g) ==> Part(x, rest);
      }
    }
  }

  lemma {:induction false} StaysFrom(list: seq<Entry>, g: Guesses, x: Entry) returns (i: nat)
    requires x in StaysAll(list, g)
    ensures i < |list| && Part(x, list[i]) && 0 < x.num
  {
    var n := |list| - 1;
    if x in Stays(list[n], g) {
      StaysParts(list[n], g);
      i := n;
    } else {
      i := StaysFrom(list[..n], g, x);
    }
  }

  /** One more entry of the list: what stays of those before it is in no later hunk. */
  lemma StaysBefore(hunks: seq<Hunk>, parent: seq<string>, target: seq<string>, list: seq<Entry>, g: Guesses, x: Entry,
                    k: int)
    requires IsDiff(hunks, parent, target) && ByHunk(hunks, list) && list != []
    requires x in StaysAll(list[..|list| - 1], g) && InsideOf(hunks, k, x)
    ensures hunks[k].startB <= list[|list| - 1].sLno
  {
    hide IsDiff;
    var i := StaysFrom(list[..|list| - 1], g, x);
    assert list[i] in list;
    var m :| InsideOf(hunks, m, list[i]);
    assert InsideOf(hunks, m, x);
    OneHunk(hunks, parent, target, x, k, m);
  }

  lemma {:induction false} ByHunkInit(hunks: seq<Hunk>, list: seq<Entry>, n: nat)
    requires ByHunk(hunks, list) && n <= |list|
    ensures ByHunk(hunks, list[..n])
  {
    forall x | x in list[..n] ensures exists k :: InsideOf(hunks, k, x) {
      assert x in list;
    }
  }

  lemma PartsByHunk(hunks: seq<Hunk>, parent: seq<string>, target: seq<string>, e: Entry, k: int, a: seq<Entry>,
                    b: seq<Entry>)
    requires IsDiff(hunks, parent, target) && InsideOf(hunks, k, e) && ByHunk(hunks, a)
    requires forall x, m :: x in a && InsideOf(hunks, m, x) ==> hunks[m].startB <= e.sLno
    requires forall x :: x in b ==> Part(x, e) && 0 < x.num
    ensures ByHunk(hunks, a + b)
  {
    hide IsDiff;
    var list := a + b;
    forall x | x in list ensures exists m :: InsideOf(hunks, m, x) {
      if x in b {
        assert InsideOf(hunks, k, x);
      }
    }
    forall i, j, m | 0 <= i < j < |list| && InsideOf(hunks, m, list[i]) ensures hunks[m].startB <= list[j].sLno {
      if |a| <= j {
        assert list[j] in b && Part(list[j], e);
        if |a| <= i {
          assert list[i] in b && InsideOf(hunks, k, list[i]);
          OneHunk(hunks, parent, target, list[i], m, k);
        } else {
          assert list[i] in a;
        }
      } else {
        assert list[i] == a[i] && list[j] == a[j];
      }
    }
  }

  /** What stays is in order of the hunks of any comparison that the entries are in order of. */
  lemma {:induction false} StaysByHunk(hunks: seq<Hunk>, parent: seq<string>, target: seq<string>, list: seq<Entry>,
                                       g: Guesses)
    requires IsDiff(hunks, parent, target) && ByHunk(hunks, list)
    ensures ByHunk(hunks, StaysAll(list, g))
  {
    hide IsDiff;
    if list != [] {
      var n := |list| - 1;
      var e, a := list[n], StaysAll(list[..n], g);
      ByHunkInit(hunks, list, n);
      StaysByHunk(hunks, parent, target, list[..n], g);
      forall x, m | x in a && InsideOf(hunks, m, x) ensures hunks[m].startB <= e.sLno {
        StaysBefore(hunks, parent, target, list, g, x, m);
      }
      StaysParts(e, g);
      assert e in list;
      var k :| InsideOf(hunks, k, e);
      PartsByHunk(hunks, parent, target, e, k, a, Stays(e, g));
    }
  }

  lemma EntryTracked(c: Comparison, h: Hunk, trackers: seq<Tracker>, e: Entry)
    requires Tracking(c, h, trackers) && 0 <= e.num && h.startB <= e.sLno && e.sLno + e.num <= h.EndB()
    ensures var from := e.sLno - h.startB; Tracked(c, e, trackers[from..from + e.num])
  {
    hide TrackerFor;
    var from := e.sLno - h.startB;
    var own := trackers[from..from + e.num];
    forall i | 0 <= i < e.num ensures TrackerFor(c, e.sLno + i, own[i]) {
      assert TrackerFor(c, h.startB + (from + i), trackers[from + i]);
    }
  }

  /**
   The loops of blame_chunk when the changes are ignored. The entries left are in the k'th hunk or later ones, so none
   starts before it; those that start in it are carved, and none of them reaches beyond its end.
   */
  method IgnoreInside(c: Comparison, dst0: seq<Entry>, kept0: seq<Entry>, list: seq<Entry>, from: nat, k: nat,
                      trackers: seq<Tracker>)
    returns (dst: seq<Entry>, kept: seq<Entry>, n: nat)
    requires c.Valid() && k < |c.hunks| && |trackers| == c.hunks[k].countB && Tracking(c, c.hunks[k], trackers)
    requires AllOf(list, c.target, c.targetFile, c.image) && ByHunk(c.hunks, list)
    requires from <= |list| && NotBefore(c.hunks, k, list[from..])
    requires Placed(c, dst0, kept0) && kept0 == StaysAll(list[..from], c.guess)
    requires c.Balanced(dst0, kept0, list[from..], list)
    ensures from <= n <= |list| && NotBefore(c.hunks, k + 1, list[n..])
    ensures Placed(c, dst, kept) && kept == StaysAll(list[..n], c.guess)
    ensures c.Balanced(dst, kept, list[n..], list)
  {
    hide Good;
    hide AllOf;
    hide IsDiff;
    hide Placed;
    hide Tracking;
    hide Tracked;
    hide Stays;
    hide ByHunk;
    hide NotBefore;
    hide Comparison.Balanced;
    dst, kept, n := dst0, kept0, from;
    var h := c.hunks[k];
    AllHaveLines(list, c.target, c.targetFile, c.image);
    while n < |list| && list[n].sLno < h.EndB()
      invariant from <= n <= |list| && NotBefore(c.hunks, k, list[n..])
      invariant Placed(c, dst, kept) && kept == StaysAll(list[..n], c.guess)
      invariant c.Balanced(dst, kept, list[n..], list)
    {
      var e := list[n];
      EntryOf(list, n, c.target, c.targetFile, c.image);
      NextInside(c.hunks, c.parentFile, c.targetFile, list, n, k);
      EntryTracked(c, h, trackers, e);
      var at := e.sLno - h.startB;
      assert list[n..] == [] + [e] + list[n + 1..];
      dst, kept := IgnoreBlameEntry(c, dst, kept, e, trackers[at..at + e.num], [], list[n + 1..], list);
      assert [] + list[n + 1..] == list[n + 1..];
      assert list[..n + 1][..n] == list[..n] && list[..n + 1][n] == e;
      FewerLeft(c.hunks, k, list, n);
      n := n + 1;
    }
    HunkDone(c.hunks, c.parentFile, c.targetFile, list, n, k);
  }

  lemma AllHaveLines(list: seq<Entry>, o: Origin, file: seq<string>, image: seq<string>)
    requires AllOf(list, o, file, image)
    ensures NoneEmpty(list)
  {
    forall x | x in list ensures 0 < x.num {
      var i :| 0 <= i < |list| && list[i] == x;
      assert Good(list[i], file, image);
    }
  }

  lemma EntryOf(list: seq<Entry>, n: nat, o: Origin, file: seq<string>, image: seq<string>)
    requires AllOf(list, o, file, image) && n < |list|
    ensures list[n].suspect == o && Good(list[n], file, image) && 0 < list[n].num
  {
  }

  lemma FewerLeft(hunks: seq<Hunk>, k: int, list: seq<Entry>, n: nat)
    requires n < |list| && NotBefore(hunks, k, list[n..])
    ensures NotBefore(hunks, k, list[n + 1..])
  {
    var rest := list[n + 1..];
    forall x | x in rest ensures exists m :: k <= m && InsideOf(hunks, m, x) {
      assert x in list[n..];
    }
  }

  lemma NoMatches(h: Hunk, fa: seq<Fingerprint>, fb: seq<Fingerprint>)
    requires HunkFits(h, |fa|, |fb|) && h.countB == 0
    ensures MatchHunk(h, fa, fb).fa == fa
  {
  }

  /**
   pass_blame_to_parent when the target's changes are ignored, up to the sorting of what the parent gets. What stays is
   left in the order it comes in, which is still the order of hunks.
   */
  method DivideIgnoring(c: Comparison, fa: array<Fingerprint>, fb: seq<Fingerprint>, suspects: seq<Entry>)
    returns (dst: seq<Entry>, kept: seq<Entry>)
    requires Guessing(c, fa[..], fb)
    requires AllOf(suspects, c.target, c.targetFile, c.image) && ByHunk(c.hunks, suspects)
    modifies fa
    ensures Sum(kept, Itself()) == Sum(suspects, Kept(c.hunks, c.guess))
    ensures Sum(dst, Itself()) == Sum(suspects, Passed(c.hunks, c.guess))
    ensures Numbers(dst) + Numbers(kept) == Numbers(suspects)
    ensures Placed(c, dst, kept) && kept == StaysAll(suspects, c.guess)
  {
    hide Good;
    hide AllOf;
    hide Placed;
    hide Tracking;
    hide MatchHunk;
    hide GuessInHunk;
    hide IsDiff;
    hide ByHunk;
    hide NotBefore;
    hide Stays;
    hide Comparison.Balanced;
    dst, kept := [], [];
    var n, k := 0, 0;
    ghost var prints := fa[..];
    NonePlaced(c);
    StartBalanced(c, suspects);
    StartByHunk(c.hunks, suspects);
    assert suspects[0..] == suspects && suspects[..0] == [];
    while k < |c.hunks|
      invariant 0 <= k <= |c.hunks| && n <= |suspects| && NotBefore(c.hunks, k, suspects[n..])
      invariant fa[..] == After(c.hunks, prints, fb, k)
      invariant c.Balanced(dst, kept, suspects[n..], suspects)
      invariant Placed(c, dst, kept) && kept == StaysAll(suspects[..n], c.guess)
    {
      var h := c.hunks[k];
      var trackers: seq<Tracker> := [];
      ghost var before := fa[..];
      if 0 < h.countB {
        trackers := GuessLineBlames(fa, fb, h);
      } else {
        NoMatches(h, before, fb);
      }
      assert fa[..] == MatchHunk(h, before, fb).fa;
      IsTracking(c, prints, fb, k, trackers);
      dst, kept, n := IgnoreInside(c, dst, kept, suspects, n, k, trackers);
      k := k + 1;
    }
    NothingLeft(c.hunks, suspects[n..]);
    assert suspects[..n] == suspects;
    EndBalanced(c, dst, kept, suspects);
  }

  lemma StartByHunk(hunks: seq<Hunk>, list: seq<Entry>)
    requires ByHunk(hunks, list)
    ensures NotBefore(hunks, 0, list)
  {
    AllLeft(hunks, list);
  }

  lemma NonePlaced(c: Comparison)
    ensures Placed(c, [], [])
  {
  }
}
