/**
 Finding moved and copied lines (blame.c, -M and -C): an entry that no scapegoat's diff took is compared with a whole
 file of a scapegoat, and the part of it that is found there is passed on.
 */
module BlameMove {
  import opened Blame

  /** An entry in three: what comes before a chunk found in the parent, the chunk, and what comes after. */
  datatype Split = Split(before: Option<Entry>, chunk: Option<Entry>, after: Option<Entry>)

  const NO_SPLIT := Split(None, None, None)

  function AsList(e: Option<Entry>): seq<Entry> {
    if e.Some? then [e.value] else []
  }

  function Numbers(list: seq<Entry>): multiset<int> {
    Sum(list, Number())
  }

  /** The first entry is a part of the second. */
  ghost predicate IsPartOf(e: Entry, f: Entry) {
    && f.lno <= e.lno && e.lno + e.num <= f.lno + f.num && e.sLno - f.sLno == e.lno - f.lno
    && e.suspect == f.suspect && e.ignored == f.ignored && e.unblamable == f.unblamable
  }

  ghost predicate PartOfSome(e: Entry, src: seq<Entry>) {
    exists f :: f in src && IsPartOf(e, f)
  }

  /** The files that entries of a target are compared in, what is known of the target's lines, and the entries */
  datatype Place = Place(target: Origin, targetFile: seq<string>, parent: Origin, parentFile: seq<string>,
                         image: seq<string>, ghost known: Line -> bool, ghost src: seq<Entry>) {
    ghost predicate Mine(e: Entry) {
      e.suspect == target && Good(e, targetFile, image) && Known(e)
    }

    ghost predicate Known(e: Entry) {
      (forall i :: 0 <= i < e.num ==> known(NthLine(e, i))) && PartOfSome(e, src)
    }

    ghost predicate Theirs(e: Entry) {
      e.suspect == parent && Good(e, parentFile, image) && forall i :: 0 <= i < e.num ==> CameFrom(NthLine(e, i))
    }

    /**
     A line of the parent's file that is the line of the image, and was a line of the target's with the same marks.
     */
    ghost predicate CameFrom(l: Line) {
      && 0 <= l.lno < |image| && 0 <= l.sLno < |parentFile| && parentFile[l.sLno] == image[l.lno]
      && exists s :: known(l.(sLno := s))
    }

    ghost predicate AllMine(list: seq<Entry>) {
      forall i :: 0 <= i < |list| ==> Mine(list[i])
    }

    ghost predicate AllTheirs(list: seq<Entry>) {
      forall i :: 0 <= i < |list| ==> Theirs(list[i])
    }

    /** The three parts are the entry, and each shows the right lines. */
    ghost predicate IsSplit(s: Split, e: Entry) {
      && s.chunk.Some? && Theirs(s.chunk.value)
      && AllMine(AsList(s.before)) && AllMine(AsList(s.after))
      && Numbers([e]) == Numbers(AsList(s.before)) + Numbers(AsList(s.chunk)) + Numbers(AsList(s.after))
    }

    /** Lines tlno to same of the target's file, as far as they are the entry's, are lines plno on of the parent's. */
    ghost predicate Matches(e: Entry, tlno: int, plno: int, same: int) {
      && tlno < same && tlno < e.sLno + e.num && e.sLno < same
      && forall s :: tlno <= s < same && e.sLno <= s < e.sLno + e.num ==> LineMatches(e, tlno, plno, s)
    }

    ghost predicate LineMatches(e: Entry, tlno: int, plno: int, s: int) {
      && 0 <= plno + s - tlno < |parentFile| && 0 <= e.lno + s - e.sLno < |image|
      && parentFile[plno + s - tlno] == image[e.lno + s - e.sLno]
    }
  }

  lemma PartKnown(p: Place, e: Entry, d: Entry)
    requires p.Known(e) && IsPartOf(d, e)
    ensures p.Known(d)
  {
    var n := d.lno - e.lno;
    var f :| f in p.src && IsPartOf(e, f);
    assert IsPartOf(d, f);
    forall i | 0 <= i < d.num ensures p.known(NthLine(d, i)) {
      assert NthLine(d, i) == NthLine(e, n + i);
    }
  }

  /** The lines of the entry between tlno and same, as lines of the parent's file from plno on */
  function Overlap(p: Place, e: Entry, tlno: int, plno: int, same: int): Entry {
    var i, j := if e.sLno < tlno then tlno - e.sLno else 0, if same < e.sLno + e.num then same - e.sLno else e.num;
    e.(lno := e.lno + i, num := j - i, suspect := p.parent, sLno := plno + e.sLno + i - tlno)
  }

  lemma ThreeParts(e: Entry, i: int, j: int, o: Origin)
    requires 0 <= i < j <= e.num
    ensures
      var chunk := SplitBlameAt(e, i, o).(num := j - i);
      Lines(e, Number()) == Lines(e.(num := i), Number()) + Lines(chunk, Number())
        + Lines(SplitBlameAt(e, j, o), Number())
  {
    hide Lines;
    SplitKeepsLines(e, i, o, Number());
    var rest := SplitBlameAt(e, i, o);
    SplitKeepsLines(rest, j - i, o, Number());
    assert SplitBlameAt(rest, j - i, o) == SplitBlameAt(e, j, o);
  }

  /** Where the chunk shows lines of the parent's file does not matter to their numbers. */
  lemma NumbersOf(e: Entry, d: Entry)
    requires e.lno == d.lno && e.num == d.num
    ensures Lines(e, Number()) == Lines(d, Number())
  {
    hide Lines;
    forall i | 0 <= i < e.num ensures Number()(NthLine(e, i)) == Number()(NthLine(d, i)) {
    }
    LinesAlike(e, Number(), d, Number());
  }

  lemma ChunkLine(p: Place, e: Entry, tlno: int, plno: int, same: int, k: int)
    requires p.Known(e) && p.Matches(e, tlno, plno, same) && 0 <= k < Overlap(p, e, tlno, plno, same).num
    ensures p.CameFrom(NthLine(Overlap(p, e, tlno, plno, same), k))
  {
    var i := if e.sLno < tlno then tlno - e.sLno else 0;
    assert p.LineMatches(e, tlno, plno, e.sLno + i + k);
    assert p.known(NthLine(e, i + k));
  }

  lemma ChunkIsGood(p: Place, e: Entry, tlno: int, plno: int, same: int)
    requires p.Known(e) && p.Matches(e, tlno, plno, same) && 0 < e.num
    ensures p.Theirs(Overlap(p, e, tlno, plno, same))
  {
    hide Place.Known;
    var chunk := Overlap(p, e, tlno, plno, same);
    forall k | 0 <= k < chunk.num ensures p.CameFrom(NthLine(chunk, k)) {
      ChunkLine(p, e, tlno, plno, same, k);
    }
    LinesShow(p, chunk);
  }

  lemma LinesShow(p: Place, e: Entry)
    requires 0 < e.num && forall k :: 0 <= k < e.num ==> p.CameFrom(NthLine(e, k))
    ensures Good(e, p.parentFile, p.image)
  {
    assert p.CameFrom(NthLine(e, 0)) && p.CameFrom(NthLine(e, e.num - 1));
    var x, y := p.parentFile[e.sLno..e.sLno + e.num], p.image[e.lno..e.lno + e.num];
    forall k | 0 <= k < e.num ensures x[k] == y[k] {
      assert p.CameFrom(NthLine(e, k));
    }
    assert x == y;
  }

  /** The chunk is all of the entry that the stretch has, and the rest of the entry lies around it. */
  method SplitOverlap(p: Place, e: Entry, tlno: int, plno: int, same: int) returns (split: Split)
    requires p.Mine(e) && p.Matches(e, tlno, plno, same)
    ensures p.IsSplit(split, e) && split.chunk == Some(Overlap(p, e, tlno, plno, same))
  {
    hide Good;
    hide Place.Known;
    hide Sum;
    hide Lines;
    hide Place.Matches;
    var before, after: Option<Entry> := None, None;
    var chunk := e.(num := 0, suspect := p.parent, sLno := plno + (e.sLno - tlno));
    if e.sLno < tlno {
      before := Some(e.(num := tlno - e.sLno));
      chunk := e.(lno := e.lno + tlno - e.sLno, num := 0, suspect := p.parent, sLno := plno);
    }
    var chunkEnd := e.lno + e.num;
    if same < e.sLno + e.num {
      after := Some(e.(lno := e.lno + (same - e.sLno), num := e.sLno + e.num - same, sLno := e.sLno + (same - e.sLno)));
      chunkEnd := after.value.lno;
    }
    chunk := chunk.(num := chunkEnd - chunk.lno);
    SplitIs(p, e, tlno, plno, same, before, chunk, after);
    split := Split(before, Some(chunk), after);
  }

  lemma SplitIs(p: Place, e: Entry, tlno: int, plno: int, same: int, before: Option<Entry>, chunk: Entry,
                after: Option<Entry>)
    requires p.Mine(e) && p.Matches(e, tlno, plno, same) && chunk == Overlap(p, e, tlno, plno, same)
    requires
      var i, j := if e.sLno < tlno then tlno - e.sLno else 0, if same < e.sLno + e.num then same - e.sLno else e.num;
      && before == (if i > 0 then Some(e.(num := i)) else None)
      && after == (if j < e.num then Some(SplitBlameAt(e, j, e.suspect)) else None)
    ensures chunk.num > 0 && p.IsSplit(Split(before, Some(chunk), after), e)
  {
    var i, j := if e.sLno < tlno then tlno - e.sLno else 0, if same < e.sLno + e.num then same - e.sLno else e.num;
    hide Sum;
    hide Lines;
    hide Place.Known;
    ChunkIsGood(p, e, tlno, plno, same);
    SplitNumbers(e, i, j, chunk, before, after);
    if i > 0 {
      GoodPart(e, p.targetFile, p.image, 0, i, e.suspect);
      PartKnown(p, e, before.value);
    }
    if j < e.num {
      GoodPart(e, p.targetFile, p.image, j, e.num - j, e.suspect);
      PartKnown(p, e, after.value);
    }
  }

  lemma SplitNumbers(e: Entry, i: int, j: int, chunk: Entry, before: Option<Entry>, after: Option<Entry>)
    requires 0 <= i < j <= e.num && chunk.lno == e.lno + i && chunk.num == j - i
    requires before == (if i > 0 then Some(e.(num := i)) else None)
    requires after == (if j < e.num then Some(SplitBlameAt(e, j, e.suspect)) else None)
    ensures Numbers([e]) == Numbers(AsList(before)) + Numbers([chunk]) + Numbers(AsList(after))
  {
    hide Sum;
    hide Lines;
    ThreeParts(e, i, j, e.suspect);
    NumbersOf(chunk, SplitBlameAt(e, i, e.suspect).(num := j - i));
    OneEntry(e);
    OneEntry(chunk);
    OneEntry(e.(num := i));
    OneEntry(SplitBlameAt(e, j, e.suspect));
    NoEntries(e);
    NoEntries(SplitBlameAt(e, j, e.suspect));
  }

  lemma OneEntry(e: Entry)
    ensures Numbers([e]) == Lines(e, Number())
  {
    SumOne(e, Number());
  }

  lemma NoEntries(e: Entry)
    ensures Numbers([]) == multiset{} == Lines(e.(num := 0), Number())
  {
  }

  // ---------- The best split ----------

  ghost predicate SplitOrNone(p: Place, s: Split, e: Entry) {
    s == NO_SPLIT || p.IsSplit(s, e)
  }

  /** The split whose chunk scores higher, the later of two that score the same */
  method CopySplitIfBetter(best: Split, potential: Split, score: Entry -> nat) returns (r: Split)
    ensures r == best || r == potential
    ensures potential.chunk.Some? ==> r.chunk.Some? && score(r.chunk.value) >= score(potential.chunk.value)
    ensures best.chunk.Some? ==> r.chunk.Some? && score(r.chunk.value) >= score(best.chunk.value)
  {
    r := best;
    if potential.chunk.None? || (best.chunk.Some? && score(potential.chunk.value) < score(best.chunk.value)) {
      return;
    }
    r := potential;
  }

  /** The split's chunk scores no lower than the entry. */
  predicate Beats(score: Entry -> nat, s: Split, e: Entry) {
    s.chunk.Some? && score(s.chunk.value) >= score(e)
  }

  /** As far as they are the entry's, lines tlno to same of the target's file are lines plno on of the parent's. */
  ghost predicate SameStretch(p: Place, e: Entry, tlno: int, plno: int, same: int) {
    forall s :: tlno <= s < same && e.sLno <= s < e.sLno + e.num ==> p.LineMatches(e, tlno, plno, s)
  }

  /** tlno and same count from the entry's first line. */
  method HandleSplit(p: Place, e: Entry, tlno: int, plno: int, same: int, split: Split, score: Entry -> nat)
    returns (r: Split)
    requires p.Mine(e) && SplitOrNone(p, split, e) && 0 <= tlno && SameStretch(p, e, tlno + e.sLno, plno, same + e.sLno)
    ensures SplitOrNone(p, r, e)
    ensures tlno < same && tlno < e.num ==>
              && Beats(score, r, Overlap(p, e, tlno + e.sLno, plno, same + e.sLno))
              && (split.chunk.Some? ==> Beats(score, r, split.chunk.value))
    ensures r == split || (tlno < same && tlno < e.num
                           && r.chunk == Some(Overlap(p, e, tlno + e.sLno, plno, same + e.sLno)))
  {
    hide Place.IsSplit;
    hide Place.LineMatches;
    hide Place.Known;
    hide Overlap;
    r := split;
    if e.num <= tlno {
      return;
    }
    if tlno < same {
      var potential := SplitOverlap(p, e, tlno + e.sLno, plno, same + e.sLno);
      r := CopySplitIfBetter(split, potential, score);
    }
  }

  function TextOf(p: Place, e: Entry): seq<string>
    requires 0 <= e.lno <= e.lno + e.num <= |p.image|
  {
    p.image[e.lno..e.lno + e.num]
  }

  lemma GapIsSame(p: Place, e: Entry, hunks: seq<Hunk>, k: nat)
    requires p.Mine(e) && IsDiff(hunks, p.parentFile, TextOf(p, e)) && k <= |hunks|
    ensures 0 <= GapStart(hunks, k)
    ensures SameStretch(p, e, GapStart(hunks, k) + e.sLno, GapStart(hunks, k) + Offset(hunks, k),
                        GapEnd(hunks, k, e.num) + e.sLno)
  {
    var text := TextOf(p, e);
    assert GapOk(hunks, k, |text|) && GapSame(hunks, k, p.parentFile, text);
    var start, plno, same := GapStart(hunks, k) + e.sLno, GapStart(hunks, k) + Offset(hunks, k),
      GapEnd(hunks, k, e.num) + e.sLno;
    hide GapOk;
    forall s | start <= s < same && e.sLno <= s < e.sLno + e.num ensures p.LineMatches(e, start, plno, s) {
      assert text[s - e.sLno] == p.image[e.lno + (s - e.sLno)];
    }
  }

  /** Between the hunks before it and the k'th hunk, the entry has lines that the parent's file has. */
  predicate HasStretch(e: Entry, hunks: seq<Hunk>, k: int) {
    0 <= k <= |hunks| && GapStart(hunks, k) < GapEnd(hunks, k, e.num)
  }

  /** Those lines, blamed on the parent */
  function Stretch(p: Place, e: Entry, hunks: seq<Hunk>, k: int): Entry
    requires 0 <= k <= |hunks|
  {
    var start := GapStart(hunks, k);
    e.(lno := e.lno + start, num := GapEnd(hunks, k, e.num) - start, suspect := p.parent,
       sLno := start + Offset(hunks, k))
  }

  /** Of the first n stretches, the split takes one that scores as high as any. */
  ghost predicate BestOf(p: Place, e: Entry, hunks: seq<Hunk>, n: int, s: Split, score: Entry -> nat) {
    && (s.chunk.Some? ==> exists k :: 0 <= k < n && HasStretch(e, hunks, k) && s.chunk.value == Stretch(p, e, hunks, k))
    && (forall k :: 0 <= k < n && HasStretch(e, hunks, k) ==> Beats(score, s, Stretch(p, e, hunks, k)))
  }

  lemma OverlapIsStretch(p: Place, e: Entry, hunks: seq<Hunk>, k: int)
    requires p.Mine(e) && IsDiff(hunks, p.parentFile, TextOf(p, e)) && 0 <= k <= |hunks|
    ensures var start, same := GapStart(hunks, k), GapEnd(hunks, k, e.num);
            && start <= same <= e.num
            && (start < same ==>
                Overlap(p, e, start + e.sLno, start + Offset(hunks, k), same + e.sLno) == Stretch(p, e, hunks, k))
  {
    hide GapSame;
    assert GapOk(hunks, k, |TextOf(p, e)|);
  }

  /** One more stretch, and what handle_split makes of it. */
  lemma BestOfMore(p: Place, e: Entry, hunks: seq<Hunk>, k: int, s: Split, r: Split, score: Entry -> nat)
    requires 0 <= k <= |hunks| && BestOf(p, e, hunks, k, s, score)
    requires HasStretch(e, hunks, k) ==>
               && Beats(score, r, Stretch(p, e, hunks, k)) && (s.chunk.Some? ==> Beats(score, r, s.chunk.value))
               && (r == s || r.chunk == Some(Stretch(p, e, hunks, k)))
    requires !HasStretch(e, hunks, k) ==> r == s
    ensures BestOf(p, e, hunks, k + 1, r, score)
  {
    hide Stretch;
    hide HasStretch;
  }

  /** The best of the stretches of an entry that are in the parent's file, given how the two differ */
  method FindCopyInBlob(p: Place, e: Entry, hunks: seq<Hunk>, score: Entry -> nat) returns (split: Split)
    requires p.Mine(e) && IsDiff(hunks, p.parentFile, TextOf(p, e))
    ensures SplitOrNone(p, split, e) && BestOf(p, e, hunks, |hunks| + 1, split, score)
  {
    hide Place.IsSplit;
    hide Place.LineMatches;
    hide Place.Known;
    hide IsDiff;
    hide BestOf;
    hide Overlap;
    hide Stretch;
    hide Beats;
    assert BestOf(p, e, hunks, 0, NO_SPLIT, score) by { BestOfNone(p, e, hunks, score); }
    split := NO_SPLIT;
    var plno, tlno, k := 0, 0, 0;
    while k < |hunks|
      invariant k <= |hunks| && SplitOrNone(p, split, e) && BestOf(p, e, hunks, k, split, score)
      invariant tlno == GapStart(hunks, k) && plno == GapStart(hunks, k) + Offset(hunks, k)
    {
      GapIsSame(p, e, hunks, k);
      OverlapIsStretch(p, e, hunks, k);
      ghost var s := split;
      split := HandleSplit(p, e, tlno, plno, hunks[k].startB, split, score);
      BestOfMore(p, e, hunks, k, s, split, score);
      plno, tlno := hunks[k].EndA(), hunks[k].EndB();
      k := k + 1;
    }
    GapIsSame(p, e, hunks, k);
    OverlapIsStretch(p, e, hunks, k);
    ghost var s := split;
    split := HandleSplit(p, e, tlno, plno, e.num, split, score);
    BestOfMore(p, e, hunks, k, s, split, score);
  }

  lemma BestOfNone(p: Place, e: Entry, hunks: seq<Hunk>, score: Entry -> nat)
    ensures BestOf(p, e, hunks, 0, NO_SPLIT, score)
  {
  }

  /** No stretch of the entry in the parent's file scores more than the minimum. */
  ghost predicate NothingMoved(p: Place, e: Entry, hunks: seq<Hunk>, score: Entry -> nat, min: nat) {
    forall k :: 0 <= k <= |hunks| && HasStretch(e, hunks, k) ==> score(Stretch(p, e, hunks, k)) <= min
  }

  // ---------- Lists ----------

  /** The chunk goes to one list, and what is around it to the other. */
  method SplitBlame(p: Place, blamed: seq<Entry>, unblamed: seq<Entry>, split: Split, ghost e: Entry)
    returns (blamed': seq<Entry>, unblamed': seq<Entry>)
    requires p.IsSplit(split, e) && p.AllTheirs(blamed) && p.AllMine(unblamed)
    ensures p.AllTheirs(blamed') && p.AllMine(unblamed')
    ensures Numbers(blamed') + Numbers(unblamed') == Numbers(blamed) + Numbers(unblamed) + Numbers([e])
    ensures |Numbers(unblamed')| < |Numbers(unblamed)| + |Numbers([e])|
    ensures blamed' == blamed + [split.chunk.value]
  {
    hide Good;
    hide Sum;
    hide Place.Known;
    blamed', unblamed' := blamed, unblamed;
    if split.before.Some? {
      unblamed' := unblamed' + [split.before.value];
    }
    if split.after.Some? {
      unblamed' := unblamed' + [split.after.value];
    }
    blamed' := blamed' + [split.chunk.value];
    SplitAdds(p, blamed, unblamed, split, e);
    assert unblamed + AsList(split.before) + AsList(split.after) == unblamed';
  }

  lemma SplitAdds(p: Place, blamed: seq<Entry>, unblamed: seq<Entry>, split: Split, e: Entry)
    requires p.IsSplit(split, e) && p.AllTheirs(blamed) && p.AllMine(unblamed)
    ensures
      var blamed', unblamed' := blamed + [split.chunk.value], unblamed + AsList(split.before) + AsList(split.after);
      && p.AllTheirs(blamed') && p.AllMine(unblamed')
      && Numbers(blamed') + Numbers(unblamed') == Numbers(blamed) + Numbers(unblamed) + Numbers([e])
      && |Numbers(unblamed')| < |Numbers(unblamed)| + |Numbers([e])|
  {
    var chunk := split.chunk.value;
    HasLine(chunk);
    SplitAddsGood(p, blamed, unblamed, split, e);
    hide Good;
    hide Sum;
    hide Place.AllMine;
    hide Place.AllTheirs;
    SumConcat(blamed, [chunk], Number());
    SumMiddle(unblamed, AsList(split.before), AsList(split.after), Number());
    assert AsList(split.chunk) == [chunk];
    AddUp(Numbers(blamed), Numbers(unblamed), Numbers(AsList(split.before)), Numbers([chunk]),
          Numbers(AsList(split.after)));
  }

  lemma SplitAddsGood(p: Place, blamed: seq<Entry>, unblamed: seq<Entry>, split: Split, e: Entry)
    requires p.IsSplit(split, e) && p.AllTheirs(blamed) && p.AllMine(unblamed)
    ensures p.AllTheirs(blamed + [split.chunk.value])
            && p.AllMine(unblamed + AsList(split.before) + AsList(split.after))
  {
    hide Good;
    hide Sum;
  }

  lemma AddUp(b: multiset<int>, u: multiset<int>, x: multiset<int>, c: multiset<int>, y: multiset<int>)
    requires |c| > 0
    ensures (b + c) + (u + x + y) == b + u + (x + c + y)
    ensures |u + x + y| < |u| + |x + c + y|
  {
  }

  lemma HasLine(e: Entry)
    requires e.num > 0
    ensures |Numbers([e])| > 0
  {
    OneEntry(e);
    assert Lines(e, Number()) == Lines(e.(num := e.num - 1), Number()) + multiset{NthLine(e, e.num - 1).lno};
  }

  /** Takes out the entries that do not score more than a minimum. */
  method FilterSmall(p: Place, list: seq<Entry>, score: Entry -> nat, min: nat)
    returns (small: seq<Entry>, rest: seq<Entry>)
    requires p.AllMine(list)
    ensures p.AllMine(small) && p.AllMine(rest)
    ensures Numbers(small) + Numbers(rest) == Numbers(list)
    ensures forall i :: 0 <= i < |rest| ==> score(rest[i]) > min
    ensures forall i :: 0 <= i < |small| ==> score(small[i]) <= min
  {
    hide Good;
    hide Sum;
    small, rest := [], [];
    var i := 0;
    NoEntries(Entry(0, 0, p.target, 0, false, false));
    assert list[..0] == [];
    while i < |list|
      invariant i <= |list| && p.AllMine(small) && p.AllMine(rest)
      invariant Numbers(small) + Numbers(rest) == Numbers(list[..i])
      invariant forall j :: 0 <= j < |rest| ==> score(rest[j]) > min
      invariant forall j :: 0 <= j < |small| ==> score(small[j]) <= min
    {
      var e := list[i];
      assert list[..i + 1] == list[..i] + [e];
      SumConcat(list[..i], [e], Number());
      if score(e) <= min {
        SumConcat(small, [e], Number());
        AddFirst(Numbers(small), Numbers(rest), Numbers([e]));
        small := small + [e];
      } else {
        SumConcat(rest, [e], Number());
        AddSecond(Numbers(small), Numbers(rest), Numbers([e]));
        rest := rest + [e];
      }
      i := i + 1;
    }
    assert list[..i] == list;
  }

  lemma AddFirst(a: multiset<int>, b: multiset<int>, c: multiset<int>)
    ensures (a + c) + b == a + b + c
  {
  }

  lemma AddSecond(a: multiset<int>, b: multiset<int>, c: multiset<int>)
    ensures a + (b + c) == a + b + c
  {
  }

  /**
   One pass over the entries not tried yet: parts found in the parent are blamed on it, and what is around them is tried
   again.
   */
  method TryAll(p: Place, unblamed: seq<Entry>, blamed0: seq<Entry>, leftover0: seq<Entry>, diffOf: Entry -> seq<Hunk>,
                score: Entry -> nat, min: nat)
    returns (blamed: seq<Entry>, again: seq<Entry>, leftover: seq<Entry>)
    requires p.AllMine(unblamed) && p.AllTheirs(blamed0) && p.AllMine(leftover0)
    requires forall e :: p.Mine(e) ==> IsDiff(diffOf(e), p.parentFile, TextOf(p, e))
    ensures p.AllTheirs(blamed) && p.AllMine(again) && p.AllMine(leftover)
    ensures Numbers(blamed) + Numbers(again) + Numbers(leftover) ==
            Numbers(blamed0) + Numbers(leftover0) + Numbers(unblamed)
    ensures unblamed != [] ==> |Numbers(again)| < |Numbers(unblamed)|
    ensures forall e :: e in blamed ==> e in blamed0 || score(e) > min
    ensures forall e :: e in leftover ==> e in leftover0 || NothingMoved(p, e, diffOf(e), score, min)
  {
    hide Good;
    hide Sum;
    hide IsDiff;
    hide Place.IsSplit;
    hide Place.Known;
    hide NothingMoved;
    hide BestOf;
    blamed, again, leftover := blamed0, [], leftover0;
    NoEntries(Entry(0, 0, p.target, 0, false, false));
    assert unblamed[..0] == [];
    var i := 0;
    while i < |unblamed|
      invariant i <= |unblamed| && p.AllTheirs(blamed) && p.AllMine(again) && p.AllMine(leftover)
      invariant Numbers(blamed) + Numbers(again) + Numbers(leftover) ==
                Numbers(blamed0) + Numbers(leftover0) + Numbers(unblamed[..i])
      invariant if i == 0 then again == [] else |Numbers(again)| < |Numbers(unblamed[..i])|
      invariant forall e :: e in blamed ==> e in blamed0 || score(e) > min
      invariant forall e :: e in leftover ==> e in leftover0 || NothingMoved(p, e, diffOf(e), score, min)
    {
      var e := unblamed[i];
      assert p.Mine(e);
      assert unblamed[..i + 1] == unblamed[..i] + [e];
      SumConcat(unblamed[..i], [e], Number());
      ghost var b, a, l, all := Numbers(blamed), Numbers(again), Numbers(leftover),
        Numbers(blamed0) + Numbers(leftover0);
      var split := FindCopyInBlob(p, e, diffOf(e), score);
      MineHasLine(p, e);
      if split.chunk.Some? && min < score(split.chunk.value) {
        blamed, again := SplitBlame(p, blamed, again, split, e);
        Move(b, a, l, all, Numbers(unblamed[..i]), Numbers([e]), Numbers(blamed), Numbers(again));
      } else {
        SumConcat(leftover, [e], Number());
        Leave(b, a, l, all, Numbers(unblamed[..i]), Numbers([e]));
        BestIsLow(p, e, diffOf(e), split, score, min);
        leftover := leftover + [e];
      }
      i := i + 1;
    }
    assert unblamed[..i] == unblamed;
  }

  lemma BestIsLow(p: Place, e: Entry, hunks: seq<Hunk>, s: Split, score: Entry -> nat, min: nat)
    requires BestOf(p, e, hunks, |hunks| + 1, s, score) && (s.chunk.Some? ==> score(s.chunk.value) <= min)
    ensures NothingMoved(p, e, hunks, score, min)
  {
    hide Stretch;
    hide HasStretch;
  }

  lemma MineHasLine(p: Place, e: Entry)
    requires p.Mine(e)
    ensures |Numbers([e])| > 0
  {
    HasLine(e);
  }

  lemma Move(b: multiset<int>, a: multiset<int>, l: multiset<int>, all: multiset<int>, u: multiset<int>,
             e: multiset<int>, b': multiset<int>, a': multiset<int>)
    requires b + a + l == all + u && b' + a' == b + a + e && |a| <= |u| && |a'| < |a| + |e|
    ensures b' + a' + l == all + (u + e) && |a'| < |u + e|
  {
    assert b' + a' + l == b + a + l + e;
    assert all + (u + e) == all + u + e;
  }

  lemma Leave(b: multiset<int>, a: multiset<int>, l: multiset<int>, all: multiset<int>, u: multiset<int>,
              e: multiset<int>)
    requires b + a + l == all + u && |a| <= |u| && |e| > 0
    ensures b + a + (l + e) == all + (u + e) && |a| < |u + e|
  {
    assert b + a + (l + e) == b + a + l + e;
    assert all + (u + e) == all + u + e;
  }

  /**
   Passes to a parent the parts of entries that are found in its file. It ends, because every pass leaves
   fewer lines to try. Every line is blamed, left over, with nothing in the parent's file that scores enough,
   or set aside as too small itself.
   */
  method FindMoveInParent(p: Place, suspects: seq<Entry>, diffOf: Entry -> seq<Hunk>, score: Entry -> nat, min: nat)
    returns (blamed: seq<Entry>, leftover: seq<Entry>, small: seq<Entry>)
    requires p.AllMine(suspects) && forall e :: p.Mine(e) ==> IsDiff(diffOf(e), p.parentFile, TextOf(p, e))
    ensures p.AllTheirs(blamed) && p.AllMine(leftover) && p.AllMine(small)
    ensures Numbers(blamed) + Numbers(leftover) + Numbers(small) == Numbers(suspects)
    ensures forall e :: e in blamed ==> score(e) > min
    ensures forall e :: e in leftover ==> NothingMoved(p, e, diffOf(e), score, min)
    ensures forall e :: e in small ==> score(e) <= min
  {
    hide Good;
    hide Sum;
    hide IsDiff;
    hide Place.Known;
    hide NothingMoved;
    blamed, leftover, small := [], [], [];
    NoEntries(Entry(0, 0, p.target, 0, false, false));
    var unblamed := suspects;
    while unblamed != []
      invariant p.AllTheirs(blamed) && p.AllMine(leftover) && p.AllMine(small) && p.AllMine(unblamed)
      invariant Numbers(blamed) + Numbers(leftover) + Numbers(small) + Numbers(unblamed) == Numbers(suspects)
      invariant forall e :: e in blamed ==> score(e) > min
      invariant forall e :: e in leftover ==> NothingMoved(p, e, diffOf(e), score, min)
      invariant forall e :: e in small ==> score(e) <= min
      decreases |Numbers(unblamed)|
    {
      ghost var b, l, s, u := Numbers(blamed), Numbers(leftover), Numbers(small), Numbers(unblamed);
      var again;
      blamed, again, leftover := TryAll(p, unblamed, blamed, leftover, diffOf, score, min);
      var less;
      less, unblamed := FilterSmall(p, again, score, min);
      SumConcat(less, small, Number());
      Again(b, l, s, u, Numbers(suspects), Numbers(blamed), Numbers(leftover), Numbers(again), Numbers(less),
            Numbers(unblamed));
      small := less + small;
    }
  }

  lemma Again(b: multiset<int>, l: multiset<int>, s: multiset<int>, u: multiset<int>, all: multiset<int>,
              b': multiset<int>, l': multiset<int>, a: multiset<int>, less: multiset<int>, u': multiset<int>)
    requires b + l + s + u == all && b' + a + l' == b + l + u && less + u' == a
    ensures b' + l' + (less + s) + u' == all && |u'| <= |a|
  {
    assert b' + l' + (less + s) + u' == b' + (less + u') + l' + s;
    assert b + l + u + s == all;
  }

  // ---------- Several files at once ----------

  /** The target's entries are compared with the files of several places. */
  ghost predicate Alike(here: Place, places: seq<Place>) {
    forall i :: 0 <= i < |places| ==>
      places[i] == here.(parent := places[i].parent, parentFile := places[i].parentFile)
  }

  lemma MineAlike(here: Place, places: seq<Place>, i: nat, list: seq<Entry>)
    requires Alike(here, places) && i < |places|
    ensures places[i].AllMine(list) <==> here.AllMine(list)
    ensures forall e :: places[i].Mine(e) <==> here.Mine(e)
  {
    hide Good;
  }

  ghost predicate SomeTheirs(places: seq<Place>, e: Entry) {
    exists i :: 0 <= i < |places| && places[i].Theirs(e)
  }

  ghost predicate AllSomeTheirs(places: seq<Place>, list: seq<Entry>) {
    forall e :: e in list ==> SomeTheirs(places, e)
  }

  /** The entries are compared with each place's file. */
  ghost predicate Compared(here: Place, places: seq<Place>, part: Origin -> Entry -> seq<Hunk>) {
    && Alike(here, places)
    && forall i, e :: 0 <= i < |places| && here.Mine(e) ==>
         IsDiff(part(places[i].parent)(e), places[i].parentFile, TextOf(places[i], e))
  }

  /** The split is one of the first n places, or none. */
  ghost predicate SplitOf(places: seq<Place>, n: nat, s: Split, e: Entry)
    requires n <= |places|
  {
    s == NO_SPLIT || exists i :: 0 <= i < n && places[i].IsSplit(s, e)
  }

  /** Of the stretches in the first n places, the split takes one that scores as high as any. */
  ghost predicate BestIn(places: seq<Place>, part: Origin -> Entry -> seq<Hunk>, n: nat, e: Entry, s: Split,
                         score: Entry -> nat)
    requires n <= |places|
  {
    forall i :: 0 <= i < n ==> BeatsAll(places[i], e, part(places[i].parent)(e), s, score)
  }

  ghost predicate BeatsAll(p: Place, e: Entry, hunks: seq<Hunk>, s: Split, score: Entry -> nat) {
    forall k :: 0 <= k <= |hunks| && HasStretch(e, hunks, k) ==> Beats(score, s, Stretch(p, e, hunks, k))
  }

  /** The better of the best so far and the best of one more place */
  lemma BestInMore(places: seq<Place>, part: Origin -> Entry -> seq<Hunk>, n: nat, e: Entry, s: Split, t: Split,
                   r: Split,
                   score: Entry -> nat)
    requires n < |places| && SplitOf(places, n, s, e) && BestIn(places, part, n, e, s, score)
    requires SplitOrNone(places[n], t, e) && BestOf(places[n], e, part(places[n].parent)(e),
                                                    |part(places[n].parent)(e)| + 1, t, score)
    requires r == s || r == t
    requires t.chunk.Some? ==> Beats(score, r, t.chunk.value)
    requires s.chunk.Some? ==> Beats(score, r, s.chunk.value)
    ensures SplitOf(places, n + 1, r, e) && BestIn(places, part, n + 1, e, r, score)
  {
    hide Stretch;
    hide HasStretch;
    hide Place.IsSplit;
  }

  /** For each entry the best of its stretches in any of the files, file by file */
  method BestSplits(here: Place, places: seq<Place>, part: Origin -> Entry -> seq<Hunk>, ents: seq<Entry>,
                    score: Entry -> nat)
    returns (splits: seq<Split>)
    requires Compared(here, places, part) && here.AllMine(ents)
    ensures |splits| == |ents|
    ensures forall j :: 0 <= j < |ents| ==>
      SplitOf(places, |places|, splits[j], ents[j]) && BestIn(places, part, |places|, ents[j], splits[j], score)
  {
    hide SplitOf;
    hide BestIn;
    hide BestOf;
    hide SplitOrNone;
    hide IsDiff;
    splits := seq(|ents|, _ => NO_SPLIT);
    forall j | 0 <= j < |ents| ensures SplitOf(places, 0, splits[j], ents[j])
      ensures BestIn(places, part, 0, ents[j], splits[j], score)
    {
      NoPlaces(places, part, ents[j], score);
    }
    var i := 0;
    while i < |places|
      invariant i <= |places| && |splits| == |ents|
      invariant forall j :: 0 <= j < |ents| ==>
        SplitOf(places, i, splits[j], ents[j]) && BestIn(places, part, i, ents[j], splits[j], score)
    {
      splits := BetterSplits(here, places, part, i, ents, splits, score);
      i := i + 1;
    }
  }

  method BetterSplits(here: Place, places: seq<Place>, part: Origin -> Entry -> seq<Hunk>, i: nat, ents: seq<Entry>,
                      splits0: seq<Split>, score: Entry -> nat)
    returns (splits: seq<Split>)
    requires Compared(here, places, part) && here.AllMine(ents) && i < |places| && |splits0| == |ents|
    requires forall j :: 0 <= j < |ents| ==>
      SplitOf(places, i, splits0[j], ents[j]) && BestIn(places, part, i, ents[j], splits0[j], score)
    ensures |splits| == |ents|
    ensures forall j :: 0 <= j < |ents| ==>
      SplitOf(places, i + 1, splits[j], ents[j]) && BestIn(places, part, i + 1, ents[j], splits[j], score)
  {
    hide SplitOf;
    hide BestIn;
    hide BestOf;
    hide SplitOrNone;
    hide IsDiff;
    hide Place.Mine;
    splits := [];
    MineAlike(here, places, i, ents);
    while |splits| < |ents|
      invariant |splits| <= |ents|
      invariant forall j :: 0 <= j < |splits| ==>
        SplitOf(places, i + 1, splits[j], ents[j]) && BestIn(places, part, i + 1, ents[j], splits[j], score)
    {
      var e := ents[|splits|];
      assert here.Mine(e);
      var potential := FindCopyInBlob(places[i], e, part(places[i].parent)(e), score);
      var best := CopySplitIfBetter(splits0[|splits|], potential, score);
      BestInMore(places, part, i, e, splits0[|splits|], potential, best, score);
      splits := splits + [best];
    }
  }

  lemma NoPlaces(places: seq<Place>, part: Origin -> Entry -> seq<Hunk>, e: Entry, score: Entry -> nat)
    ensures SplitOf(places, 0, NO_SPLIT, e) && BestIn(places, part, 0, e, NO_SPLIT, score)
  {
  }

  /** No stretch of the entry in any of the files scores more than the minimum. */
  ghost predicate NothingCopied(places: seq<Place>, part: Origin -> Entry -> seq<Hunk>, e: Entry, score: Entry -> nat,
                                min: nat)
  {
    forall i :: 0 <= i < |places| ==> NothingMoved(places[i], e, part(places[i].parent)(e), score, min)
  }

  lemma BestIsLowIn(places: seq<Place>, part: Origin -> Entry -> seq<Hunk>, e: Entry, s: Split, score: Entry -> nat,
                    min: nat)
    requires BestIn(places, part, |places|, e, s, score)
    requires s.chunk.Some? ==> score(s.chunk.value) <= min
    ensures NothingCopied(places, part, e, score, min)
  {
    hide Stretch;
    hide HasStretch;
    forall i | 0 <= i < |places| ensures NothingMoved(places[i], e, part(places[i].parent)(e), score, min) {
      assert BeatsAll(places[i], e, part(places[i].parent)(e), s, score);
    }
  }

  /** The chunk goes to the place it was found in, and what is around it is tried again. */
  lemma SplitGoes(here: Place, places: seq<Place>, blamed: seq<Entry>, unblamed: seq<Entry>, s: Split, e: Entry)
    requires Alike(here, places) && s.chunk.Some? && SplitOf(places, |places|, s, e)
    requires AllSomeTheirs(places, blamed) && here.AllMine(unblamed)
    ensures
      var blamed', unblamed' := blamed + [s.chunk.value], unblamed + AsList(s.before) + AsList(s.after);
      && AllSomeTheirs(places, blamed') && here.AllMine(unblamed')
      && Numbers(blamed') + Numbers(unblamed') == Numbers(blamed) + Numbers(unblamed) + Numbers([e])
      && |Numbers(unblamed')| < |Numbers(unblamed)| + |Numbers([e])|
  {
    hide Sum;
    hide Good;
    var i :| 0 <= i < |places| && places[i].IsSplit(s, e);
    MineAlike(here, places, i, unblamed);
    SplitAdds(places[i], [], unblamed, s, e);
    MineAlike(here, places, i, unblamed + AsList(s.before) + AsList(s.after));
    hide Place.IsSplit;
    hide Place.Theirs;
    assert ([] + [s.chunk.value])[0] == s.chunk.value;
    SumConcat(blamed, [s.chunk.value], Number());
    assert [] + [s.chunk.value] == [s.chunk.value];
    NoEntries(e);
    Regrouped(Numbers(blamed), Numbers([s.chunk.value]), Numbers(unblamed + AsList(s.before) + AsList(s.after)),
              Numbers(unblamed), Numbers([e]));
  }

  lemma Regrouped(b: multiset<int>, c: multiset<int>, u': multiset<int>, u: multiset<int>, e: multiset<int>)
    requires c + u' == u + e
    ensures (b + c) + u' == b + u + e
  {
    assert (b + c) + u' == b + (c + u');
    assert b + u + e == b + (u + e);
  }

  /** One round of find_copy_in_parent */
  method TryCopies(here: Place, places: seq<Place>, part: Origin -> Entry -> seq<Hunk>, unblamed: seq<Entry>,
                   blamed0: seq<Entry>, leftover0: seq<Entry>, score: Entry -> nat, min: nat)
    returns (blamed: seq<Entry>, again: seq<Entry>, leftover: seq<Entry>)
    requires Compared(here, places, part)
    requires here.AllMine(unblamed) && AllSomeTheirs(places, blamed0) && here.AllMine(leftover0)
    ensures AllSomeTheirs(places, blamed) && here.AllMine(again) && here.AllMine(leftover)
    ensures Numbers(blamed) + Numbers(again) + Numbers(leftover) ==
            Numbers(blamed0) + Numbers(leftover0) + Numbers(unblamed)
    ensures unblamed != [] ==> |Numbers(again)| < |Numbers(unblamed)|
    ensures forall e :: e in blamed ==> e in blamed0 || score(e) > min
    ensures forall e :: e in leftover ==> e in leftover0 || NothingCopied(places, part, e, score, min)
  {
    hide Sum;
    hide SplitOf;
    hide BestIn;
    hide Alike;
    hide IsDiff;
    hide AllSomeTheirs;
    hide NothingCopied;
    hide Place.Mine;
    var splits := BestSplits(here, places, part, unblamed, score);
    blamed, again, leftover := blamed0, [], leftover0;
    NoEntries(Entry(0, 0, here.target, 0, false, false));
    assert unblamed[..0] == [];
    var j := 0;
    while j < |unblamed|
      invariant j <= |unblamed| && AllSomeTheirs(places, blamed) && here.AllMine(again) && here.AllMine(leftover)
      invariant Numbers(blamed) + Numbers(again) + Numbers(leftover) ==
                Numbers(blamed0) + Numbers(leftover0) + Numbers(unblamed[..j])
      invariant if j == 0 then again == [] else |Numbers(again)| < |Numbers(unblamed[..j])|
      invariant forall e :: e in blamed ==> e in blamed0 || score(e) > min
      invariant forall e :: e in leftover ==> e in leftover0 || NothingCopied(places, part, e, score, min)
    {
      var e, split := unblamed[j], splits[j];
      assert unblamed[..j + 1] == unblamed[..j] + [e];
      SumConcat(unblamed[..j], [e], Number());
      ghost var b, a, l, all := Numbers(blamed), Numbers(again), Numbers(leftover),
        Numbers(blamed0) + Numbers(leftover0);
      if split.chunk.Some? && min < score(split.chunk.value) {
        SplitGoes(here, places, blamed, again, split, e);
        blamed := blamed + [split.chunk.value];
        again := again + AsList(split.before) + AsList(split.after);
        Move(b, a, l, all, Numbers(unblamed[..j]), Numbers([e]), Numbers(blamed), Numbers(again));
      } else {
        assert here.Mine(e);
        MineHasLine(here, e);
        SumConcat(leftover, [e], Number());
        Leave(b, a, l, all, Numbers(unblamed[..j]), Numbers([e]));
        BestIsLowIn(places, part, e, split, score, min);
        leftover := leftover + [e];
      }
      j := j + 1;
    }
    assert unblamed[..j] == unblamed;
  }

  /**
   Passes to a parent commit the parts of entries that are found in other files of it. Every line is blamed, left over,
   with nothing in any of the files that scores enough, or set aside as too small itself.
   */
  method FindCopyInParent(here: Place, places: seq<Place>, part: Origin -> Entry -> seq<Hunk>, suspects: seq<Entry>,
                          score: Entry -> nat, min: nat)
    returns (blamed: seq<Entry>, leftover: seq<Entry>, small: seq<Entry>)
    requires Compared(here, places, part) && here.AllMine(suspects)
    ensures AllSomeTheirs(places, blamed) && here.AllMine(leftover) && here.AllMine(small)
    ensures Numbers(blamed) + Numbers(leftover) + Numbers(small) == Numbers(suspects)
    ensures forall e :: e in blamed ==> score(e) > min
    ensures forall e :: e in leftover ==> NothingCopied(places, part, e, score, min)
    ensures forall e :: e in small ==> score(e) <= min
  {
    hide Sum;
    hide Alike;
    hide IsDiff;
    hide AllSomeTheirs;
    hide NothingCopied;
    hide Place.Mine;
    blamed, leftover, small := [], [], [];
    NoEntries(Entry(0, 0, here.target, 0, false, false));
    NoneBlamed(places);
    var unblamed := suspects;
    while unblamed != []
      invariant AllSomeTheirs(places, blamed)
      invariant here.AllMine(leftover) && here.AllMine(small) && here.AllMine(unblamed)
      invariant Numbers(blamed) + Numbers(leftover) + Numbers(small) + Numbers(unblamed) == Numbers(suspects)
      invariant forall e :: e in blamed ==> score(e) > min
      invariant forall e :: e in leftover ==> NothingCopied(places, part, e, score, min)
      invariant forall e :: e in small ==> score(e) <= min
      decreases |Numbers(unblamed)|
    {
      ghost var b, l, s, u := Numbers(blamed), Numbers(leftover), Numbers(small), Numbers(unblamed);
      var again;
      blamed, again, leftover := TryCopies(here, places, part, unblamed, blamed, leftover, score, min);
      var less;
      less, unblamed := FilterSmall(here, again, score, min);
      SumConcat(less, small, Number());
      Again(b, l, s, u, Numbers(suspects), Numbers(blamed), Numbers(leftover), Numbers(again), Numbers(less),
            Numbers(unblamed));
      small := less + small;
    }
  }

  lemma NoneBlamed(places: seq<Place>)
    ensures AllSomeTheirs(places, [])
  {
  }

  // ---------- Handing out what was found ----------

  /** Entries of one suspect, all showing the right lines */
  ghost predicate AllOf(list: seq<Entry>, o: Origin, file: seq<string>, image: seq<string>) {
    forall i :: 0 <= i < |list| ==> list[i].suspect == o && Good(list[i], file, image)
  }

  /** Sorts entries by the line of the suspect's file they start at. */
  method SortEntries(list: seq<Entry>, ghost o: Origin, ghost file: seq<string>, ghost image: seq<string>)
    returns (sorted: seq<Entry>)
    requires AllOf(list, o, file, image) && |file| < INT_MAX
    ensures Proper(sorted, o, file, image, 0, INT_MAX)
    ensures Numbers(sorted) == Numbers(list) && Sum(sorted, Itself()) == Sum(list, Itself())
    ensures forall e :: e in sorted ==> e in list
  {
    hide Good;
    hide Sum;
    sorted := [];
    var i := 0;
    assert list[..0] == [];
    while i < |list|
      invariant i <= |list| && Proper(sorted, o, file, image, 0, INT_MAX)
      invariant Numbers(sorted) == Numbers(list[..i]) && Sum(sorted, Itself()) == Sum(list[..i], Itself())
      invariant forall e :: e in sorted ==> e in list
    {
      var e := list[i];
      assert list[..i + 1] == list[..i] + [e];
      SumConcat(list[..i], [e], Number());
      SumConcat(list[..i], [e], Itself());
      sorted := Insert(sorted, e, o, file, image);
      i := i + 1;
    }
    assert list[..i] == list;
  }

  method Insert(sorted: seq<Entry>, e: Entry, ghost o: Origin, ghost file: seq<string>, ghost image: seq<string>)
    returns (r: seq<Entry>)
    requires Proper(sorted, o, file, image, 0, INT_MAX) && e.suspect == o && Good(e, file, image) && |file| < INT_MAX
    ensures Proper(r, o, file, image, 0, INT_MAX) && Numbers(r) == Numbers(sorted) + Numbers([e])
    ensures Sum(r, Itself()) == Sum(sorted, Itself()) + Sum([e], Itself())
    ensures forall x :: x in r ==> x in sorted || x == e
  {
    hide Sum;
    hide Good;
    hide Proper;
    var k := 0;
    while k < |sorted| && sorted[k].sLno <= e.sLno
      invariant k <= |sorted| && forall j :: 0 <= j < k ==> sorted[j].sLno <= e.sLno
    {
      k := k + 1;
    }
    InsertProper(sorted, k, e, o, file, image);
    InsertSum(sorted, k, e, Number());
    InsertSum(sorted, k, e, Itself());
    r := sorted[..k] + [e] + sorted[k..];
  }

  lemma InsertProper(sorted: seq<Entry>, k: nat, e: Entry, o: Origin, file: seq<string>, image: seq<string>)
    requires Proper(sorted, o, file, image, 0, INT_MAX) && e.suspect == o && Good(e, file, image) && |file| < INT_MAX
    requires k <= |sorted| && (forall j :: 0 <= j < k ==> sorted[j].sLno <= e.sLno)
             && (k < |sorted| ==> e.sLno < sorted[k].sLno)
    ensures Proper(sorted[..k] + [e] + sorted[k..], o, file, image, 0, INT_MAX)
  {
    assert 0 <= e.sLno <= INT_MAX;
    hide Good;
    var s := e.sLno;
    assert Proper(sorted[..k], o, file, image, 0, s);
    assert Proper(sorted[k..], o, file, image, s, INT_MAX);
    hide Proper;
    ProperSnoc(sorted[..k], e, o, file, image, 0, s, s);
    ProperConcat(sorted[..k] + [e], sorted[k..], o, file, image, 0, s, INT_MAX);
  }

  lemma InsertSum<T>(sorted: seq<Entry>, k: nat, e: Entry, f: Line -> multiset<T>)
    requires k <= |sorted|
    ensures Sum(sorted[..k] + [e] + sorted[k..], f) == Sum(sorted, f) + Sum([e], f)
  {
    hide Sum;
    SumMiddle(sorted[..k], [e], sorted[k..], f);
    assert sorted == sorted[..k] + sorted[k..];
    SumConcat(sorted[..k], sorted[k..], f);
  }

  /** The entries of one suspect, and the others */
  method TakeGroup(blamed: seq<Entry>, o: Origin) returns (group: seq<Entry>, rest: seq<Entry>)
    ensures Numbers(group) + Numbers(rest) == Numbers(blamed) && |group| + |rest| == |blamed|
    ensures forall e :: e in group ==> e in blamed && e.suspect == o
    ensures forall e :: e in rest ==> e in blamed && e.suspect != o
    ensures blamed != [] && blamed[0].suspect == o ==> group != []
  {
    hide Sum;
    group, rest := [], [];
    var i := 0;
    NoEntries(Entry(0, 0, o, 0, false, false));
    assert blamed[..0] == [];
    while i < |blamed|
      invariant i <= |blamed| && |group| + |rest| == i && Numbers(group) + Numbers(rest) == Numbers(blamed[..i])
      invariant forall e :: e in group ==> e in blamed && e.suspect == o
      invariant forall e :: e in rest ==> e in blamed && e.suspect != o
      invariant forall j :: 0 <= j < i && blamed[j].suspect == o ==> group != []
    {
      var e := blamed[i];
      assert blamed[..i + 1] == blamed[..i] + [e];
      SumConcat(blamed[..i], [e], Number());
      if e.suspect == o {
        SumConcat(group, [e], Number());
        AddFirst(Numbers(group), Numbers(rest), Numbers([e]));
        group := group + [e];
      } else {
        SumConcat(rest, [e], Number());
        AddSecond(Numbers(group), Numbers(rest), Numbers([e]));
        rest := rest + [e];
      }
      i := i + 1;
    }
    assert blamed[..i] == blamed;
  }
}
