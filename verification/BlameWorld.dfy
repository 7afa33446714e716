/**
 What a blame run is about: the history, the files and their diffs, and the ways a line of the final image can be passed
 from one origin to another. Where a line ends, and with which marks, is explained by a trail of such steps.
 */
module BlameWorld {
  import opened Blame
  import opened BlameMove
  import opened BlameIgnore

  /** A line of the final image, the origin it is blamed on and its line there, with its marks */
  datatype At = At(o: Origin, l: Line)

  /**
   What pass_blame finds in the scapegoats: the very same file, or the files to compare with, in order of scapegoats
   */
  datatype Search = Whole(p: Origin) | Files(found: seq<Option<Origin>>)

  /**
   What does not change during a run. `final` is the origin whose file is the final image. Scapegoats are parents, or
   children when blaming in reverse; the rank falls from a commit to its scapegoats. `find` stands for find_origin
   (pass 0) and find_rename (pass 1). `moves` says whether moved lines are looked for, and `copies` whether lines are
   looked for in `others`, the other files of a scapegoat; `part` then compares the lines of an entry with a whole file.
   `stop` tells the commits that are uninteresting at the outset, or too old,
     and `ignored` those whose changes are to be
   looked through; `prints` has a fingerprint for every line of a file.
   */
  datatype World = World(image: seq<string>, final: Origin, file: Origin -> seq<string>, scapegoats: nat -> seq<nat>,
                         rank: nat -> nat, diff: (seq<string>, seq<string>) -> seq<Hunk>,
                         find: (Origin, nat, nat) -> Option<Origin>,
                         moves: bool, part: Origin -> Entry -> seq<Hunk>, score: Entry -> nat, moveScore: nat,
                         copies: bool, others: (Origin, nat, Option<Origin>) -> seq<Origin>, copyScore: nat,
                         reverse: bool, stop: nat -> bool, ancestors: nat -> set<nat>,
                         ignored: nat -> bool, prints: Origin -> seq<Fingerprint>) {
    ghost predicate Valid() {
      && file(final) == image
      && (forall o :: |file(o)| < INT_MAX)
      && (forall c, i :: 0 <= i < |scapegoats(c)| ==> rank(scapegoats(c)[i]) < rank(c))
      && (forall o, c, pass :: find(o, c, pass).Some? ==> find(o, c, pass).value.commit == c)
      && (forall o, c, q, p :: p in others(o, c, q) ==> p.commit == c)
      && (forall a, b :: IsDiff(diff(a, b), a, b) && HunksFit(diff(a, b), |a|, |b|))
      && (forall p, e: Entry :: 0 <= e.lno <= e.lno + e.num <= |image| ==>
          IsDiff(part(p)(e), file(p), image[e.lno..e.lno + e.num]))
      && (forall c, d, m :: c in ancestors(d) && m in ancestors(c) ==> m in ancestors(d))
      && (forall o :: |prints(o)| == |file(o)|)
    }

    /** The file an origin had in another commit, under its own name or as a rename. */
    function Counterpart(o: Origin, c: nat): Option<Origin> {
      if find(o, c, 0).Some? then find(o, c, 0) else find(o, c, 1)
    }

    /** One of the two searches finds the other origin in a scapegoat. */
    ghost predicate IsCounterpart(o: Origin, p: Origin) {
      exists i, pass :: 0 <= i < |scapegoats(o.commit)| && find(o, scapegoats(o.commit)[i], pass) == Some(p)
    }

    /** The other origin is one of the other files of a scapegoat. */
    ghost predicate IsOther(o: Origin, p: Origin) {
      exists i, q :: 0 <= i < |scapegoats(o.commit)| && p in others(o, scapegoats(o.commit)[i], q)
    }

    /** Lines are looked for in the other origin's whole file. */
    ghost predicate IsSearched(o: Origin, p: Origin) {
      (moves && IsCounterpart(o, p)) || (copies && IsOther(o, p))
    }

    /** The line is not one that the file has from a counterpart, which would make the counterpart the one to blame. */
    predicate ChangedFrom(o: Origin, p: Option<Origin>, s: int) {
      p.Some? ==> file(p.value) != file(o) && InHunk(diff(file(p.value), file(o)), s)
    }

    /** The lines of an origin's file that differ from its counterparts in all scapegoats. */
    function Changed(o: Origin): Line -> bool {
      (l: Line) => forall i :: 0 <= i < |scapegoats(o.commit)| ==>
        ChangedFrom(o, Counterpart(o, scapegoats(o.commit)[i]), l.sLno)
    }

    /** The commit is one to stop at, or an ancestor of one. */
    ghost predicate Outside(c: nat) {
      !reverse && exists d :: stop(d) && (c == d || c in ancestors(d))
    }

    /** Blame is passed over the origin's commit, which is ignored, to a counterpart. */
    predicate PassedOver(o: Origin) {
      ignored(o.commit) && exists i :: 0 <= i < |scapegoats(o.commit)| && Counterpart(o, scapegoats(o.commit)[i]).Some?
    }

    /** What an origin keeps: lines changed from all counterparts, and only unblamable ones if it is passed over. */
    ghost function Owned(o: Origin): Line -> bool {
      (l: Line) => Changed(o)(l) && (PassedOver(o) ==> l.unblamable) && (Plain() ==> Next(At(o, l)) == At(o, l))
    }

    /** The entry is part of one that shows the lines it should. */
    ghost predicate PartOf(e: Entry, f: Entry) {
      IsPartOf(e, f) && Good(f, file(f.suspect), image)
    }

    ghost predicate Tiny(e: Entry, min: nat) {
      exists f :: PartOf(e, f) && score(f) <= min
    }

    /** The entry is part of one of which nothing that scores enough was found in the counterpart. */
    ghost predicate NotMoved(p: Origin, e: Entry) {
      exists f :: PartOf(e, f) && NothingMoved(Between(e.suspect, p, []), f, part(p)(f), score, moveScore)
    }

    /** The entry is part of one of which nothing that scores enough was found in the other files of a scapegoat. */
    ghost predicate NotCopied(c: nat, q: Option<Origin>, e: Entry) {
      exists f :: PartOf(e, f)
        && NothingCopied(Among(e.suspect, others(e.suspect, c, q), []), part, f, score, copyScore)
    }

    /** Moved lines have been looked for in the first n files found, unless the entry is too small. */
    ghost predicate MovesSought(found: seq<Option<Origin>>, n: int, e: Entry)
      requires n <= |found|
    {
      Tiny(e, moveScore) || forall i :: 0 <= i < n && found[i].Some? ==> NotMoved(found[i].value, e)
    }

    /** Copied lines have been looked for in the first n scapegoats, unless the entry is too small. */
    ghost predicate CopiesSought(found: seq<Option<Origin>>, n: int, e: Entry)
      requires n <= |found| == |scapegoats(e.suspect.commit)|
    {
      Tiny(e, copyScore) || forall i :: 0 <= i < n ==> NotCopied(scapegoats(e.suspect.commit)[i], found[i], e)
    }

    /** No scapegoat has the suspect's file as it is, and the lines of the entry have been looked for elsewhere. */
    ghost predicate Sought(e: Entry) {
      match Found(e.suspect)
      case Whole(_) => false
      case Files(found) =>
        (moves ==> MovesSought(found, |found|, e)) && (copies ==> CopiesSought(found, |found|, e))
    }

    /** The suspect of the entry made its lines what they are, or lies outside the history asked about. */
    ghost predicate Settled(e: Entry) {
      Outside(e.suspect.commit) || (Every([e], Owned(e.suspect)) && Sought(e))
    }

    function Compare(p: Origin, o: Origin): Comparison {
      Comparison(p, o, diff(file(p), file(o)), NoGuess(), file(p), file(o), image)
    }

    function CompareIgnoring(p: Origin, o: Origin): Comparison {
      Compare(p, o).(guess := GuessesOf(diff(file(p), file(o)), prints(p), prints(o)))
    }

    // ---------- Trails ----------

    /** A line that the counterpart has keeps its marks; its number is shifted, or the same if the whole file is. */
    ghost predicate Same(a: At, b: At) {
      var hunks := diff(file(b.o), file(a.o));
      && IsCounterpart(a.o, b.o)
      && (|| (file(b.o) == file(a.o) && b.l == a.l)
          || (!InHunk(hunks, a.l.sLno) && b.l == a.l.(sLno := a.l.sLno + Shift(hunks, a.l.sLno))))
    }

    /** A line that an ignored commit changed is guessed to come from a line of the counterpart, and marked so. */
    ghost predicate Guessed(a: At, b: At) {
      && ignored(a.o.commit) && Changed(a.o)(a.l) && IsCounterpart(a.o, b.o)
      && CompareIgnoring(b.o, a.o).guess(a.l.sLno) == From(b.l.sLno) && b.l == a.l.(sLno := b.l.sLno, ignored := true)
    }

    /** A line that an ignored commit changed is like none of a counterpart, and marked so. */
    ghost predicate Unguessed(a: At, b: At) {
      && ignored(a.o.commit) && Changed(a.o)(a.l) && b == a.(l := a.l.(unblamable := true))
      && exists p :: IsCounterpart(a.o, p) && CompareIgnoring(p, a.o).guess(a.l.sLno) == NoneFound
    }

    /** A changed line is found elsewhere in the counterpart, or in another file, and keeps its marks. */
    ghost predicate Moved(a: At, b: At) {
      && Changed(a.o)(a.l) && IsSearched(a.o, b.o) && b.l == a.l.(sLno := b.l.sLno)
      && 0 <= b.l.lno < |image| && 0 <= b.l.sLno < |file(b.o)| && file(b.o)[b.l.sLno] == image[b.l.lno]
    }

    ghost predicate Step(a: At, b: At) {
      Same(a, b) || Guessed(a, b) || Unguessed(a, b) || Moved(a, b)
    }

    /** A line of the final image, unmarked, followed step by step. */
    ghost predicate IsTrail(t: seq<At>) {
      && t != [] && t[0] == StartOf(t[0].l.lno) && 0 <= t[0].l.lno < |image|
      && forall k :: 0 < k < |t| ==> Step(t[k - 1], t[k])
    }

    ghost predicate GuessedAt(t: seq<At>, k: int) {
      0 < k < |t| && Guessed(t[k - 1], t[k])
    }

    ghost predicate UnguessedAt(t: seq<At>, k: int) {
      0 < k < |t| && Unguessed(t[k - 1], t[k])
    }

    ghost predicate Reached(a: At) {
      exists t :: IsTrail(t) && t[|t| - 1] == a
    }

    /**
     There is a trail to the line, and if blame is determined by the history it leads where the line's start leads.
     */
    ghost function Traced(o: Origin): Line -> bool {
      (l: Line) => Reached(At(o, l)) && Bound(At(o, l))
    }

    // ---------- Where blame goes when nothing else has a say ----------

    /** No lines are looked for elsewhere, and no commit stops the search. */
    ghost predicate Plain() {
      !moves && !copies && (reverse || forall c :: !stop(c))
    }

    /** One of the first n found has the same file. */
    predicate Like(found: seq<Option<Origin>>, n: int, p: Origin)
      requires n <= |found|
    {
      exists j :: 0 <= j < n && found[j].Some? && file(found[j].value) == file(p)
    }

    /** The rest of the passes over the scapegoats, given what has been found. */
    function Look(o: Origin, pass: nat, i: nat, found: seq<Option<Origin>>): (r: Search)
      requires |found| == |scapegoats(o.commit)|
      ensures r.Files? ==> |r.found| == |found|
      decreases 2 - pass, |found| - i
    {
      if pass >= 2 then Files(found)
      else if i >= |found| then Look(o, pass + 1, 0, found)
      else if found[i].Some? || find(o, scapegoats(o.commit)[i], pass).None? then Look(o, pass, i + 1, found)
      else
        var p := find(o, scapegoats(o.commit)[i], pass).value;
        if file(p) == file(o) then Whole(p)
        else Look(o, pass, i + 1, if Like(found, i, p) then found else found[i := Some(p)])
    }

    function Found(o: Origin): (r: Search)
      ensures r.Files? ==> |r.found| == |scapegoats(o.commit)|
    {
      Look(o, 0, 0, seq(|scapegoats(o.commit)|, _ => None))
    }

    /** The first file found that has the line, from the j'th on, or their number */
    function FirstSame(o: Origin, found: seq<Option<Origin>>, j: nat, s: int): (k: nat)
      requires j <= |found|
      ensures j <= k <= |found|
      ensures forall m :: j <= m < k && found[m].Some? ==> InHunk(Compare(found[m].value, o).hunks, s)
      ensures k < |found| ==> found[k].Some? && !InHunk(Compare(found[k].value, o).hunks, s)
      decreases |found| - j
    {
      if j < |found| && (found[j].None? || InHunk(Compare(found[j].value, o).hunks, s))
         then FirstSame(o, found, j + 1, s)
      else j
    }

    /** The first file found that a guess for the line is made in, from the j'th on, or their number */
    function FirstGuess(o: Origin, found: seq<Option<Origin>>, j: nat, s: int): (k: nat)
      requires j <= |found|
      ensures j <= k <= |found|
      ensures forall m :: j <= m < k && found[m].Some? ==> !CompareIgnoring(found[m].value, o).guess(s).From?
      ensures k < |found| ==> found[k].Some? && CompareIgnoring(found[k].value, o).guess(s).From?
      decreases |found| - j
    {
      if j < |found| && (found[j].None? || !CompareIgnoring(found[j].value, o).guess(s).From?)
      then FirstGuess(o, found, j + 1, s)
      else j
    }

    predicate AnyBefore(found: seq<Option<Origin>>, n: int)
      requires n <= |found|
    {
      exists j :: 0 <= j < n && found[j].Some?
    }

    function ShiftedTo(p: Origin, o: Origin, l: Line): Line {
      l.(sLno := l.sLno + Shift(Compare(p, o).hunks, l.sLno))
    }

    /** Where a line that is blamed on an origin goes next, or the line as it stays there */
    function Next(a: At): At {
      match Found(a.o)
      case Whole(p) => At(p, a.l)
      case Files(found) =>
        var k := FirstSame(a.o, found, 0, a.l.sLno);
        if k < |found| then At(found[k].value, ShiftedTo(found[k].value, a.o, a.l))
        else if !ignored(a.o.commit) then a
        else
          var g := FirstGuess(a.o, found, 0, a.l.sLno);
          var l := if AnyBefore(found, g) then a.l.(unblamable := true) else a.l;
          if g < |found| then
            At(found[g].value, l.(sLno := CompareIgnoring(found[g].value, a.o).guess(l.sLno).line, ignored := true))
          else At(a.o, l)
    }

    /** Where it ends */
    function Follow(a: At): At
      decreases rank(a.o.commit)
    {
      var b := Next(a);
      if rank(b.o.commit) < rank(a.o.commit) then Follow(b) else b
    }

    function StartOf(n: int): At {
      At(final, Line(n, n, false, false))
    }

    ghost predicate Bound(a: At) {
      Plain() ==> Follow(a) == Follow(StartOf(a.l.lno))
    }

    /** A line that the counterpart has goes there. */
    ghost function GoesTo(o: Origin, p: Origin): Line -> bool {
      (l: Line) => Plain() && !InHunk(Compare(p, o).hunks, l.sLno) ==> Next(At(o, l)) == At(p, ShiftedTo(p, o, l))
    }

    /** A line that is guessed to come from the counterpart goes there; one that is not may as well be marked. */
    ghost predicate GuessGoes(o: Origin, p: Origin, l: Line) {
      && InHunk(Compare(p, o).hunks, l.sLno)
      && match CompareIgnoring(p, o).guess(l.sLno)
         case NotAsked => true
         case NoneFound => Next(At(o, l)) == Next(At(o, l.(unblamable := true)))
         case From(s) => Next(At(o, l)) == At(p, l.(sLno := s, ignored := true))
    }

    ghost function GoesByGuess(o: Origin, p: Origin): Line -> bool {
      (l: Line) => Plain() ==> GuessGoes(o, p, l)
    }

    /** Entries of one suspect that show the lines they should, and how they came to. */
    ghost predicate Fine(list: seq<Entry>, o: Origin) {
      AllOf(list, o, file(o), image) && Every(list, Traced(o))
    }

    function Between(o: Origin, p: Origin, ghost src: seq<Entry>): Place {
      Place(o, file(o), p, file(p), image, And(Traced(o), Owned(o)), src)
    }

    function Among(o: Origin, candidates: seq<Origin>, ghost src: seq<Entry>): seq<Place> {
      seq(|candidates|, (i: nat) requires i < |candidates| => Between(o, candidates[i], src))
    }
  }

  lemma ReachStart(w: World, n: int)
    requires 0 <= n < |w.image|
    ensures w.Traced(w.final)(Line(n, n, false, false))
  {
    hide World.Step;
    hide World.Follow;
    assert w.IsTrail([w.StartOf(n)]);
  }

  /** A step along which blame is bound to go the same way */
  lemma TracedStep(w: World, a: At, b: At)
    requires w.Traced(a.o)(a.l) && w.Step(a, b) && (w.Plain() ==> w.Follow(a) == w.Follow(b))
    ensures w.Traced(b.o)(b.l)
  {
    hide World.Step;
    hide World.Follow;
    hide World.Reached;
    hide World.Plain;
    ReachStep(w, a, b);
    StepMarks(w, a, b);
  }

  lemma FollowNext(w: World, a: At, b: At)
    requires w.Valid() && w.IsCounterpart(a.o, b.o) && w.Next(a) == b
    ensures w.Follow(a) == w.Follow(b)
  {
    hide World.Next;
    LowerRank(w, a.o, b.o);
  }

  lemma ReachStep(w: World, a: At, b: At)
    requires w.Reached(a) && w.Step(a, b)
    ensures w.Reached(b)
  {
    hide World.Step;
    var t :| w.IsTrail(t) && t[|t| - 1] == a;
    var u := t + [b];
    forall k | 0 < k < |u| ensures w.Step(u[k - 1], u[k]) {
      if k < |t| {
        assert w.Step(t[k - 1], t[k]);
      }
    }
    assert w.IsTrail(u);
  }

  /**
   A step leads from a commit to one of lower rank, or adds a mark where it is; the line of the image stays the same.
   */
  lemma StepFalls(w: World, a: At, b: At)
    requires w.Valid() && w.Step(a, b)
    ensures b.l.lno == a.l.lno && (a.l.ignored ==> b.l.ignored) && (a.l.unblamable ==> b.l.unblamable)
    ensures w.rank(b.o.commit) < w.rank(a.o.commit) || b == a.(l := a.l.(unblamable := true))
  {
    if w.IsCounterpart(a.o, b.o) {
      LowerRank(w, a.o, b.o);
    } else if w.IsOther(a.o, b.o) {
      OtherIsLower(w, a.o, b.o);
    }
  }

  lemma LowerRank(w: World, o: Origin, p: Origin)
    requires w.Valid() && w.IsCounterpart(o, p)
    ensures w.rank(p.commit) < w.rank(o.commit)
  {
  }

  lemma OtherIsLower(w: World, o: Origin, p: Origin)
    requires w.Valid() && w.IsOther(o, p)
    ensures w.rank(p.commit) < w.rank(o.commit)
  {
  }

  lemma StepMarks(w: World, a: At, b: At)
    requires w.Step(a, b)
    ensures b.l.lno == a.l.lno
    ensures b.l.ignored <==> a.l.ignored || w.Guessed(a, b)
    ensures b.l.unblamable <==> a.l.unblamable || w.Unguessed(a, b)
  {
    hide World.Changed;
    hide World.CompareIgnoring;
    hide World.IsCounterpart;
  }

  /** A line is marked exactly if its trail has a step that marks it. */
  lemma {:induction false} Marks(w: World, t: seq<At>)
    requires w.IsTrail(t)
    ensures var l := t[|t| - 1].l;
            && l.lno == t[0].l.lno
            && (l.ignored <==> exists k :: w.GuessedAt(t, k))
            && (l.unblamable <==> exists k :: w.UnguessedAt(t, k))
    decreases |t|
  {
    hide World.Step;
    hide World.Guessed;
    hide World.Unguessed;
    var n := |t| - 1;
    if n > 0 {
      var u := t[..n];
      forall k | 0 < k < n ensures w.Step(u[k - 1], u[k]) {
        assert w.Step(t[k - 1], t[k]);
      }
      Marks(w, u);
      StepMarks(w, t[n - 1], t[n]);
      assert w.GuessedAt(t, n) <==> w.Guessed(t[n - 1], t[n]);
      assert w.UnguessedAt(t, n) <==> w.Unguessed(t[n - 1], t[n]);
      forall k ensures w.GuessedAt(t, k) <==> w.GuessedAt(u, k) || (k == n && w.Guessed(t[n - 1], t[n])) {
      }
      forall k ensures w.UnguessedAt(t, k) <==> w.UnguessedAt(u, k) || (k == n && w.Unguessed(t[n - 1], t[n])) {
      }
    }
  }

  /** A trail through no ignored commit leaves the line unmarked. */
  lemma NotIgnored(w: World, t: seq<At>)
    requires w.IsTrail(t) && forall k :: 0 <= k < |t| ==> !w.ignored(t[k].o.commit)
    ensures !t[|t| - 1].l.ignored && !t[|t| - 1].l.unblamable
  {
    Marks(w, t);
  }

  // ---------- What the passes do to lines ----------

  function And(f: Line -> bool, g: Line -> bool): Line -> bool {
    (l: Line) => f(l) && g(l)
  }

  lemma EveryAnd(list: seq<Entry>, f: Line -> bool, g: Line -> bool)
    ensures Every(list, And(f, g)) <==> Every(list, f) && Every(list, g)
  {
    if Every(list, And(f, g)) {
      forall e, i | e in list && 0 <= i < e.num ensures f(NthLine(e, i)) && g(NthLine(e, i)) {
        assert And(f, g)(NthLine(e, i));
      }
    }
  }

  lemma SameLine(w: World, p: Origin, o: Origin, l: Line, m: Line)
    requires w.Valid() && w.IsCounterpart(o, p) && w.Traced(o)(l) && w.GoesTo(o, p)(l)
    requires var c := w.Compare(p, o); m in Passed(c.hunks, c.guess)(l)
    ensures w.Traced(p)(m)
  {
    hide InHunk;
    hide Shift;
    hide World.Valid;
    hide World.Traced;
    hide World.IsCounterpart;
    hide World.Plain;
    hide World.Next;
    hide World.Follow;
    assert w.Same(At(o, l), At(p, m));
    if w.Plain() {
      FollowNext(w, At(o, l), At(p, m));
    }
    TracedStep(w, At(o, l), At(p, m));
  }

  /** Lines passed to a counterpart that has them, and lines that stay because it has not */
  lemma PassedTraced(w: World, p: Origin, o: Origin, list: seq<Entry>, dst: seq<Entry>, kept: seq<Entry>)
    requires w.Valid() && w.IsCounterpart(o, p) && Every(list, w.Traced(o)) && Every(list, w.GoesTo(o, p))
    requires var c := w.Compare(p, o);
             && Sum(dst, Itself()) == Sum(list, Passed(c.hunks, c.guess))
             && Sum(kept, Itself()) == Sum(list, Kept(c.hunks, c.guess))
    ensures Every(dst, w.Traced(p)) && Every(kept, w.Traced(o))
  {
    hide Sum;
    hide Every;
    hide InHunk;
    hide Passed;
    hide World.Valid;
    hide World.Traced;
    hide World.GoesTo;
    hide World.IsCounterpart;
    var c, known := w.Compare(p, o), And(w.Traced(o), w.GoesTo(o, p));
    EveryAnd(list, w.Traced(o), w.GoesTo(o, p));
    forall l, m | known(l) && m in Passed(c.hunks, c.guess)(l) ensures w.Traced(p)(m) {
      SameLine(w, p, o, l, m);
    }
    EveryCarried(list, dst, Passed(c.hunks, c.guess), known, w.Traced(p));
    EveryCarried(list, kept, Kept(c.hunks, c.guess), w.Traced(o), w.Traced(o));
  }

  /** Every line in a hunk is looked for when the commit is ignored. */
  lemma Asked(w: World, p: Origin, o: Origin, s: int)
    requires w.Valid() && InHunk(w.CompareIgnoring(p, o).hunks, s)
    ensures w.CompareIgnoring(p, o).guess(s) != NotAsked
  {
    hide GuessInHunk;
    hide IsDiff;
    hide After;
    var c := w.CompareIgnoring(p, o);
    var k :| 0 <= k < |c.hunks| && c.hunks[k].startB <= s < c.hunks[k].EndB();
    GuessFromAt(c.hunks, w.prints(p), w.prints(o), c.parentFile, c.targetFile, |c.hunks|, k, s);
  }

  lemma GuessedLine(w: World, p: Origin, o: Origin, l: Line, m: Line)
    requires w.Valid() && w.IsCounterpart(o, p) && w.ignored(o.commit) && w.Traced(o)(l) && w.Changed(o)(l)
    requires w.GoesByGuess(o, p)(l)
    requires var c := w.CompareIgnoring(p, o); m in Passed(c.hunks, c.guess)(l)
    ensures w.Traced(p)(m)
  {
    hide InHunk;
    hide Shift;
    hide GuessesOf;
    hide World.Valid;
    hide World.Traced;
    hide World.Plain;
    hide World.Next;
    hide World.Follow;
    hide World.IsCounterpart;
    hide World.Changed;
    if InHunk(w.CompareIgnoring(p, o).hunks, l.sLno) {
      assert w.Guessed(At(o, l), At(p, m));
    } else {
      assert w.Same(At(o, l), At(p, m));
    }
    if w.Plain() {
      FollowNext(w, At(o, l), At(p, m));
    }
    TracedStep(w, At(o, l), At(p, m));
  }

  lemma UnguessedLine(w: World, p: Origin, o: Origin, l: Line, m: Line)
    requires w.Valid() && w.IsCounterpart(o, p) && w.ignored(o.commit) && w.Traced(o)(l) && w.Changed(o)(l)
    requires w.GoesByGuess(o, p)(l)
    requires var c := w.CompareIgnoring(p, o); m in Kept(c.hunks, c.guess)(l)
    ensures w.Traced(o)(m) && m == l.(unblamable := true)
  {
    hide InHunk;
    hide GuessesOf;
    hide World.Valid;
    hide World.Traced;
    hide World.Plain;
    hide World.Next;
    hide World.IsCounterpart;
    hide World.Changed;
    Asked(w, p, o, l.sLno);
    assert w.Unguessed(At(o, l), At(o, m));
    TracedStep(w, At(o, l), At(o, m));
  }

  lemma MarkStays(w: World, o: Origin, l: Line)
    requires w.Changed(o)(l)
    ensures w.Changed(o)(l.(unblamable := true))
  {
    hide World.ChangedFrom;
  }

  /** Lines of an ignored commit that are guessed to come from a counterpart, and lines that are not */
  lemma GuessedTraced(w: World, p: Origin, o: Origin, list: seq<Entry>, dst: seq<Entry>, kept: seq<Entry>)
    requires w.Valid() && w.IsCounterpart(o, p) && w.ignored(o.commit)
    requires Every(list, w.Traced(o)) && Every(list, w.Changed(o)) && Every(list, w.GoesByGuess(o, p))
    requires var c := w.CompareIgnoring(p, o);
             && Sum(dst, Itself()) == Sum(list, Passed(c.hunks, c.guess))
             && Sum(kept, Itself()) == Sum(list, Kept(c.hunks, c.guess))
    ensures Every(dst, w.Traced(p)) && Every(kept, w.Traced(o)) && Every(kept, w.Changed(o))
    ensures Every(kept, Unblamable())
  {
    hide Sum;
    hide Every;
    hide Kept;
    hide Passed;
    hide World.CompareIgnoring;
    hide World.Valid;
    hide World.Traced;
    hide World.IsCounterpart;
    hide World.Changed;
    hide World.GoesByGuess;
    var c, known := w.CompareIgnoring(p, o), And(And(w.Traced(o), w.Changed(o)), w.GoesByGuess(o, p));
    EveryAnd(list, w.Traced(o), w.Changed(o));
    EveryAnd(list, And(w.Traced(o), w.Changed(o)), w.GoesByGuess(o, p));
    forall l, m | known(l) && m in Passed(c.hunks, c.guess)(l) ensures w.Traced(p)(m) {
      GuessedLine(w, p, o, l, m);
    }
    EveryCarried(list, dst, Passed(c.hunks, c.guess), known, w.Traced(p));
    forall l, m | known(l) && m in Kept(c.hunks, c.guess)(l)
      ensures w.Traced(o)(m) && w.Changed(o)(m) && Unblamable()(m)
    {
      UnguessedLine(w, p, o, l, m);
      MarkStays(w, o, l);
    }
    EveryCarried(list, kept, Kept(c.hunks, c.guess), known, w.Traced(o));
    EveryCarried(list, kept, Kept(c.hunks, c.guess), known, w.Changed(o));
    EveryCarried(list, kept, Kept(c.hunks, c.guess), known, Unblamable());
  }

  lemma MovedLine(w: World, p: Origin, o: Origin, l: Line)
    requires w.IsSearched(o, p) && w.Between(o, p, []).CameFrom(l)
    ensures w.Traced(p)(l)
  {
    hide World.Traced;
    hide World.IsCounterpart;
    hide World.IsOther;
    hide World.Changed;
    var s :| w.Between(o, p, []).known(l.(sLno := s));
    var m := l.(sLno := s);
    assert w.Traced(o)(m) && w.Changed(o)(m);
    assert w.Moved(At(o, m), At(p, l));
    TracedStep(w, At(o, m), At(p, l));
  }

  /** Lines found elsewhere in a counterpart, or in another file */
  lemma MovedTraced(w: World, p: Origin, o: Origin, blamed: seq<Entry>, src: seq<Entry>)
    requires w.IsSearched(o, p) && w.Between(o, p, src).AllTheirs(blamed)
    ensures w.Fine(blamed, p)
  {
    hide Good;
    hide World.Traced;
    hide World.IsSearched;
    hide World.ChangedFrom;
    forall e, i | e in blamed && 0 <= i < e.num ensures w.Traced(p)(NthLine(e, i)) {
      assert w.Between(o, p, src).CameFrom(NthLine(e, i));
      MovedLine(w, p, o, NthLine(e, i));
    }
  }

  /** The lines of a file that a counterpart has as it is */
  lemma WholeTraced(w: World, p: Origin, o: Origin, l: Line)
    requires w.Valid() && w.IsCounterpart(o, p) && w.file(p) == w.file(o) && w.Traced(o)(l)
    requires w.Found(o) == Whole(p)
    ensures w.Traced(p)(l)
  {
    hide World.Valid;
    hide World.Traced;
    hide World.IsCounterpart;
    hide World.Found;
    hide World.Follow;
    assert w.Same(At(o, l), At(p, l));
    FollowNext(w, At(o, l), At(p, l));
    TracedStep(w, At(o, l), At(p, l));
  }

  // ---------- The files found, in turn ----------

  /** A line in hunks of the first i files found goes to the i'th if that has it. */
  lemma GoesToFirst(w: World, o: Origin, found: seq<Option<Origin>>, i: nat, l: Line)
    requires w.Found(o) == Files(found) && i < |found| && found[i].Some?
    requires forall j :: 0 <= j < i && found[j].Some? ==> InHunk(w.Compare(found[j].value, o).hunks, l.sLno)
    ensures w.GoesTo(o, found[i].value)(l)
  {
    hide InHunk;
    hide Shift;
    hide World.Found;
    hide World.Compare;
    hide World.Plain;
    if !InHunk(w.Compare(found[i].value, o).hunks, l.sLno) {
      assert w.FirstSame(o, found, 0, l.sLno) == i;
    }
  }

  /** The line is in a hunk of every comparison, and no guess for it is made in the first i files found. */
  ghost function Unclaimed(w: World, o: Origin, found: seq<Option<Origin>>, i: nat): Line -> bool
    requires i <= |found|
  {
    (l: Line) =>
      && (forall j :: 0 <= j < |found| && found[j].Some? ==> InHunk(w.Compare(found[j].value, o).hunks, l.sLno))
      && (forall j :: 0 <= j < i && found[j].Some? ==> !w.CompareIgnoring(found[j].value, o).guess(l.sLno).From?)
      && (w.AnyBefore(found, i) ==> l.unblamable)
  }

  lemma GoesToGuess(w: World, o: Origin, found: seq<Option<Origin>>, i: nat, l: Line)
    requires w.Found(o) == Files(found) && i < |found| && found[i].Some? && w.ignored(o.commit)
    requires Unclaimed(w, o, found, i)(l)
    ensures w.GoesByGuess(o, found[i].value)(l)
  {
    hide InHunk;
    hide World.Found;
    hide World.Compare;
    hide World.CompareIgnoring;
    hide World.Plain;
    var guess := w.CompareIgnoring(found[i].value, o).guess(l.sLno);
    assert w.FirstSame(o, found, 0, l.sLno) == |found|;
    var g := w.FirstGuess(o, found, 0, l.sLno);
    if guess.From? {
      assert g == i;
      assert w.AnyBefore(found, i) ==> l.(unblamable := true) == l;
    } else {
      assert i < g && w.AnyBefore(found, g);
    }
  }

  /** A line that no file found has or is guessed to be the source of stays. */
  lemma StaysPut(w: World, o: Origin, found: seq<Option<Origin>>, l: Line)
    requires w.Found(o) == Files(found) && Unclaimed(w, o, found, if w.ignored(o.commit) then |found| else 0)(l)
    ensures w.Next(At(o, l)) == At(o, l)
  {
    hide InHunk;
    hide World.Found;
    hide World.Compare;
    hide World.CompareIgnoring;
    assert w.FirstSame(o, found, 0, l.sLno) == |found|;
    if w.ignored(o.commit) {
      assert w.FirstGuess(o, found, 0, l.sLno) == |found|;
    }
  }
}
