/**
 The hunks of one file as add-patch.c keeps them: splitting one, merging those that
 overlap again, and writing and applying the patch of the hunks taken.
 */
module AddPatch {

  import opened Image
  import opened Apply
  import opened Hunks
  import opened SplitHunk

  /** use_all takes every hunk. */
  function Chosen(hunks: seq<Hunk>, useAll: bool): seq<Hunk> {
    if useAll then seq(|hunks|, i requires 0 <= i < |hunks| => hunks[i].(use := Take)) else hunks
  }

  lemma ChosenConsistent(d: Diff, useAll: bool)
    requires d.Consistent()
    ensures d.(hunks := Chosen(d.hunks, useAll)).Consistent()
  {
    hide Side;
    hide WellFormed;
    hide HasChange;
    hide Runs;
    hide AllContext;
    var e := d.(hunks := Chosen(d.hunks, useAll));
    forall i | 0 <= i < |e.hunks| ensures HunkOk(e.a, e.plain, e.hunks[i]) {
      assert HunkOk(d.a, d.plain, d.hunks[i]);
    }
    forall i | 0 <= i < |e.hunks| ensures e.LinkedAt(i) {
      assert d.LinkedAt(i);
    }
  }

  /** Hunks that overlap have together as many lines as from where the first starts to where the last ends. */
  lemma {:induction false} GroupCounts(d: Diff, i: nat, j: nat)
    requires d.Consistent() && d.Chained(i, j)
    ensures d.hunks[i].start < d.hunks[j].end <= |d.plain| && (i < j ==> d.hunks[i].start < d.hunks[j].start)
    ensures
      var h, g, body := d.hunks[i].header, d.hunks[j].header, d.plain[d.hunks[i].start..d.hunks[j].end];
      && h.oldOffset + |Side(body, '-')| == g.oldOffset + g.oldCount
      && h.newOffset + |Side(body, '+')| == g.newOffset + g.newCount
      && (i < j ==> h.newOffset < g.newOffset)
    decreases j - i
  {
    hide Side;
    hide WellFormed;
    hide HasChange;
    hide Runs;
    hide AllContext;
    assert HunkOk(d.a, d.plain, d.hunks[i]);
    if i < j {
      GroupCounts(d, i + 1, j);
      var h, g := d.hunks[i], d.hunks[i + 1];
      SideSplit(d.plain, h.start, g.start, d.hunks[j].end, '-');
      SideSplit(d.plain, h.start, g.start, d.hunks[j].end, '+');
    }
  }

  /** The test on offsets by which merging stops finds the hunks that join. */
  lemma TestFindsOverlap(d: Diff, i: nat, j: nat)
    requires d.Consistent() && d.Chained(i, j) && j + 1 < |d.hunks|
    ensures Joins(d.plain, d.hunks[j], d.hunks[j + 1]) <==>
      var h, g, next := d.hunks[i].header, d.hunks[j].header, d.hunks[j + 1].header;
      h.newOffset < next.newOffset <= g.newOffset + g.newCount
  {
    hide Side;
    hide AllContext;
    hide WellFormed;
    hide HasChange;
    hide Runs;
    GroupCounts(d, i, j);
    d.ChainedOrder(i, j);
    assert d.LinkedAt(j);
    assert HunkOk(d.a, d.plain, d.hunks[j]);
    if Overlap(d.plain, d.hunks[j], d.hunks[j + 1]) {
      if i < j {
        d.LaterContext(j);
        ContextJoins(d.plain, d.hunks[j], d.hunks[j + 1]);
      }
      SideSplit(d.plain, d.hunks[j].start, d.hunks[j + 1].start, d.hunks[j].end, '+');
    }
  }

  /**
   For any two hunks that overlap, the strict test finds it exactly when some line of the first before
   the second is in the new file. A hunk that starts with removed lines has none there, so it is not merged
   with what was split off it.
   */
  lemma StrictTest(plain: seq<PatchLine>, h: Hunk, g: Hunk)
    requires Overlap(plain, h, g) && h.header.newCount == |Side(plain[h.start..h.end], '+')|
    ensures h.header.newOffset < g.header.newOffset <= h.header.newOffset + h.header.newCount <==>
            exists i :: h.start <= i < g.start && plain[i].On('+') != []
  {
    hide AllContext;
    hide PatchLine.On;
    var part := plain[h.start..g.start];
    NewLines(part);
    assert forall i :: 0 <= i < |part| ==> part[i] == plain[h.start + i];
    assert (exists i :: 0 <= i < |part| && part[i].On('+') != []) <==>
           (exists i :: h.start <= i < g.start && plain[i].On('+') != []) by {
      if i :| h.start <= i < g.start && plain[i].On('+') != [] {
        assert part[i - h.start].On('+') != [];
      }
    }
    hide Side;
    SideSplit(plain, h.start, g.start, h.end, '+');
  }

  lemma {:induction false} NewLines(body: seq<PatchLine>)
    ensures |Side(body, '+')| > 0 <==> exists i :: 0 <= i < |body| && body[i].On('+') != []
  {
    if body != [] {
      var init := body[..|body| - 1];
      NewLines(init);
      assert body == init + [body[|body| - 1]];
    }
  }

  /** A hunk "-a", " b", "-c", split, stays in two: the first two lines and the last two. */
  lemma StrictTestMisses()
    ensures
      var plain := [PatchLine('-', "a\n"), PatchLine(' ', "b\n"), PatchLine('-', "c\n")];
      var h, g := Hunk(0, 2, Header(1, 2, 1, 1), 1, Take), Hunk(1, 3, Header(2, 2, 1, 1), 1, Take);
      Overlap(plain, h, g) && !(h.header.newOffset < g.header.newOffset <= h.header.newOffset + h.header.newCount)
  {
    var plain := [PatchLine('-', "a\n"), PatchLine(' ', "b\n"), PatchLine('-', "c\n")];
    assert plain[0..1][..0] == [] && Side(plain[0..1][..0], '-') == [] && Side(plain[0..1][..0], '+') == [];
    assert Side(plain[0..1], '-') == ["a\n"] && Side(plain[0..1], '+') == [];
    assert plain[1..2] == [PatchLine(' ', "b\n")];
  }

  lemma {:induction false} ChainedSnoc(d: Diff, i: nat, j: nat)
    requires d.Chained(i, j) && j + 1 < |d.hunks| && Joins(d.plain, d.hunks[j], d.hunks[j + 1])
    ensures d.Chained(i, j + 1)
    decreases j - i
  {
    hide Joins;
    if i < j {
      ChainedSnoc(d, i + 1, j);
    }
  }

  /** Hunks that overlap and are taken are merged as far as that goes. */
  lemma {:induction false} GroupEndIs(d: Diff, i: nat, j: nat)
    requires d.Chained(i, j) && forall k :: i < k <= j ==> d.hunks[k].use == Take
    requires j + 1 < |d.hunks| && d.hunks[j + 1].use == Take ==> !Joins(d.plain, d.hunks[j], d.hunks[j + 1])
    ensures i <= j < |d.hunks| && d.GroupEnd(i) == j
    decreases j - i
  {
    hide Joins;
    if i < j {
      GroupEndIs(d, i + 1, j);
    }
  }

  lemma {:induction false} DeltaGroup(d: Diff, i: nat, j: nat)
    requires i <= j <= |d.hunks| && forall k :: i <= k < j ==> d.hunks[k].use == Take
    ensures d.Delta(j) == d.Delta(i)
  {
    if i < j {
      DeltaGroup(d, i, j - 1);
    }
  }

  // ---------- Splitting ----------

  /** The first piece starts where the hunk does, and the last ends where it ends. */
  lemma PieceEnds(a: seq<string>, plain: seq<PatchLine>, h: Hunk, x: Hunk)
    requires HunkOk(a, plain, h) && IsPiece(plain, h, x)
    ensures x.start == h.start ==> x.header.oldOffset == h.header.oldOffset && x.header.newOffset == h.header.newOffset
    ensures x.end == h.end ==>
      && x.header.oldOffset + x.header.oldCount == h.header.oldOffset + h.header.oldCount
      && x.header.newOffset + x.header.newCount == h.header.newOffset + h.header.newCount
  {
    hide Runs;
    hide HasChange;
    hide IsLine;
    assert plain[h.start..h.start] == [];
    assert Side(plain[h.start..h.start], '-') == Side(plain[h.start..h.start], '+') == [];
    hide Side;
    SideSplit(plain, h.start, x.start, h.end, '-');
    SideSplit(plain, h.start, x.start, h.end, '+');
  }

  lemma MiddlePart<T>(s: seq<T>, i: nat, x: seq<T>, y: seq<T>, z: seq<T>)
    requires i + |x| + |y| + |z| <= |s| && s[i..i + |x| + |y| + |z|] == x + (y + z)
    ensures s[i + |x|..i + |x| + |y|] == y
  {
    var w := s[i..i + |x| + |y| + |z|];
    forall j | 0 <= j < |y| ensures s[i + |x| + j] == y[j] {
      assert w[|x| + j] == y[j];
    }
  }

  lemma PieceText(plain: seq<PatchLine>, i: nat, j: nat, k: nat, l: nat, side: char)
    requires i <= j <= k <= l <= |plain| && IsText(Side(plain[i..l], side))
    ensures IsText(Side(plain[j..k], side))
  {
    hide Side;
    hide IsPart;
    hide IsLine;
    SideSplit(plain, i, j, l, side);
    SideSplit(plain, j, k, l, side);
    var all, before, part := Side(plain[i..l], side), Side(plain[i..j], side), Side(plain[j..k], side);
    assert forall m :: 0 <= m < |part| ==> part[m] == all[|before| + m];
  }

  lemma PieceIsHunk(a: seq<string>, plain: seq<PatchLine>, h: Hunk, x: Hunk)
    requires HunkOk(a, plain, h) && IsPiece(plain, h, x)
    ensures HunkOk(a, plain, x)
  {
    hide Side;
    hide Runs;
    hide HasChange;
    hide IsText;
    PieceEnds(a, plain, h, x);
    PieceText(plain, h.start, x.start, x.end, h.end, '-');
    PieceText(plain, h.start, x.start, x.end, h.end, '+');
    var s, t := h.header.oldOffset - 1, x.header.oldOffset - 1;
    SideSplit(plain, h.start, x.start, h.end, '-');
    SideSplit(plain, x.start, x.end, h.end, '-');
    MiddlePart(a, s, Side(plain[h.start..x.start], '-'), Side(plain[x.start..x.end], '-'),
               Side(plain[x.end..h.end], '-'));
    var body, part := plain[h.start..h.end], plain[x.start..x.end];
    assert forall i :: 0 <= i < |part| ==> part[i] == body[x.start - h.start + i];
    if x.end < h.end {
      EndsWithContext(part);
    }
  }

  lemma EndsWithContext(body: seq<PatchLine>)
    requires body != [] && body[|body| - 1].IsContext()
    ensures |Side(body, '-')| > 0 && |Side(body, '+')| > 0
  {
  }

  /** Splitting keeps the hunks consistent. */
  lemma SplitConsistent(d: Diff, k: nat, pieces: seq<Hunk>)
    requires d.Consistent() && k < |d.hunks| && |pieces| == d.hunks[k].splittableInto >= 2
    requires ArePieces(d.plain, d.hunks[k], pieces) && pieces[|pieces| - 1].end == d.hunks[k].end
    ensures d.(hunks := d.hunks[..k] + pieces + d.hunks[k + 1..]).Consistent()
  {
    hide Side;
    hide Runs;
    hide HunkOk;
    hide IsPiece;
    var h, m, e := d.hunks[k], |pieces|, d.(hunks := d.hunks[..k] + pieces + d.hunks[k + 1..]);
    assert HunkOk(d.a, d.plain, h);
    PieceEnds(d.a, d.plain, h, pieces[0]);
    PieceEnds(d.a, d.plain, h, pieces[m - 1]);
    forall i | 0 <= i < |e.hunks| ensures HunkOk(e.a, e.plain, e.hunks[i]) {
      if k <= i < k + m {
        PieceIsHunk(d.a, d.plain, h, pieces[i - k]);
      } else {
        assert e.hunks[i] == d.hunks[if i < k then i else i - m + 1];
      }
    }
    forall i | 0 <= i < |e.hunks| ensures e.LinkedAt(i) {
      SplitLinked(d, e, k, pieces, i);
    }
  }

  lemma SplitLinked(d: Diff, e: Diff, k: nat, pieces: seq<Hunk>, i: nat)
    requires d.Consistent() && k < |d.hunks| && |pieces| == d.hunks[k].splittableInto >= 2
    requires ArePieces(d.plain, d.hunks[k], pieces) && pieces[|pieces| - 1].end == d.hunks[k].end
    requires e == d.(hunks := d.hunks[..k] + pieces + d.hunks[k + 1..])
    ensures e.LinkedAt(i)
  {
    hide Side;
    hide Runs;
    hide HunkOk;
    hide IsPiece;
    hide AllContext;
    var h, m := d.hunks[k], |pieces|;
    assert HunkOk(d.a, d.plain, h);
    if i + 1 < |e.hunks| {
      if i + 1 < k || i >= k + m {
        assert d.LinkedAt(if i < k then i else i - m + 1);
      } else if i + 1 == k {
        assert d.LinkedAt(i);
        PieceEnds(d.a, d.plain, h, pieces[0]);
      } else if i == k + m - 1 {
        assert d.LinkedAt(k);
        PieceEnds(d.a, d.plain, h, pieces[m - 1]);
      } else {
        assert OverlapAt(d.plain, pieces, i - k);
      }
    }
  }

  lemma {:induction false} PiecesChained(c: Diff, k: nat, i: nat, pieces: seq<Hunk>)
    requires i < |pieces| && k + |pieces| <= |c.hunks|
    requires forall j :: 0 <= j < |pieces| - 1 ==> OverlapAt(c.plain, pieces, j)
    requires forall j :: 0 <= j < |pieces| ==> c.hunks[k + j] == pieces[j].(use := Take)
    requires forall j :: i <= j < |pieces| - 1 ==> JoinsAt(c.plain, pieces, j)
    ensures c.Chained(k + i, k + |pieces| - 1)
    decreases |pieces| - i
  {
    hide Side;
    if i + 1 < |pieces| {
      assert JoinsAt(c.plain, pieces, i);
      assert c.hunks[k + i] == pieces[i].(use := Take) && c.hunks[k + (i + 1)] == pieces[i + 1].(use := Take);
      PiecesChained(c, k, i + 1, pieces);
    }
  }

  ghost predicate JoinsAt(plain: seq<PatchLine>, pieces: seq<Hunk>, i: nat)
    requires i + 1 < |pieces|
  {
    Joins(plain, pieces[i], pieces[i + 1])
  }

  /** Pieces after the first begin with context, so they join. */
  lemma LaterJoin(plain: seq<PatchLine>, h: Hunk, pieces: seq<Hunk>)
    requires ArePieces(plain, h, pieces)
    ensures forall j :: 0 < j < |pieces| - 1 ==> JoinsAt(plain, pieces, j)
  {
    hide Side;
    hide Runs;
    hide HasChange;
    hide HeaderOf;
    forall j | 0 < j < |pieces| - 1 ensures JoinsAt(plain, pieces, j) {
      assert OverlapAt(plain, pieces, j - 1) && OverlapAt(plain, pieces, j);
      ContextRange(plain, pieces[j].start, pieces[j - 1].end, pieces[j].start);
      ContextJoins(plain, pieces[j], pieces[j + 1]);
    }
  }

  /**
   If every hunk is taken, the pieces of a hunk are merged, and nothing else with them, unless the first has no line of
   the new file before the second.
   */
  lemma SplitMergesBack(d: Diff, k: nat, pieces: seq<Hunk>)
    requires d.Consistent() && k < |d.hunks| && |pieces| == d.hunks[k].splittableInto >= 2
    requires ArePieces(d.plain, d.hunks[k], pieces) && pieces[|pieces| - 1].end == d.hunks[k].end
    ensures d.(hunks := Chosen(d.hunks[..k] + pieces + d.hunks[k + 1..], true)).GroupEnd(k) ==
            if JoinsAt(d.plain, pieces, 0) then k + |pieces| - 1 else k
  {
    hide Side;
    hide OverlapAt;
    hide IsPiece;
    hide JoinsAt;
    NextIsApart(d, k);
    ChosenAt(d.hunks, k, pieces);
    LaterJoin(d.plain, d.hunks[k], pieces);
    MergesBack(d.(hunks := Chosen(d.hunks[..k] + pieces + d.hunks[k + 1..], true)), k, pieces);
  }

  lemma MergesBack(c: Diff, k: nat, pieces: seq<Hunk>)
    requires |pieces| >= 2 && k + |pieces| <= |c.hunks|
    requires forall j :: 0 <= j < |pieces| - 1 ==> OverlapAt(c.plain, pieces, j)
    requires forall j :: 0 < j < |pieces| - 1 ==> JoinsAt(c.plain, pieces, j)
    requires forall j :: 0 <= j < |pieces| ==> c.hunks[k + j] == pieces[j].(use := Take)
    requires forall j :: 0 <= j < |c.hunks| ==> c.hunks[j].use == Take
    requires k + |pieces| < |c.hunks| ==> pieces[|pieces| - 1].end <= c.hunks[k + |pieces|].start
    ensures c.GroupEnd(k) == if JoinsAt(c.plain, pieces, 0) then k + |pieces| - 1 else k
  {
    hide OverlapAt;
    hide Overlap;
    var m := |pieces|;
    assert c.hunks[k + 0] == pieces[0].(use := Take) && c.hunks[k + 1] == pieces[1].(use := Take);
    assert c.hunks[k + (m - 1)] == pieces[m - 1].(use := Take);
    if JoinsAt(c.plain, pieces, 0) {
      PiecesChained(c, k, 0, pieces);
      if k + m < |c.hunks| {
        NoOverlapAfter(c.plain, c.hunks[k + m - 1], c.hunks[k + m]);
      }
      GroupEndIs(c, k, k + m - 1);
    } else {
      assert !Joins(c.plain, c.hunks[k], c.hunks[k + 1]) by {
        SameJoins(c.plain, pieces[0], pieces[1]);
      }
      GroupEndIs(c, k, k);
    }
  }

  lemma SameJoins(plain: seq<PatchLine>, h: Hunk, g: Hunk)
    ensures Joins(plain, h.(use := Take), g.(use := Take)) <==> Joins(plain, h, g)
  {
  }

  lemma ChosenAt(hunks: seq<Hunk>, k: nat, pieces: seq<Hunk>)
    requires k < |hunks|
    ensures
      var m, c := |pieces|, Chosen(hunks[..k] + pieces + hunks[k + 1..], true);
      && |c| == |hunks| + m - 1 && (forall j :: 0 <= j < |c| ==> c[j].use == Take)
      && (forall j :: 0 <= j < m ==> c[k + j] == pieces[j].(use := Take))
      && (k + 1 < |hunks| ==> c[k + m] == hunks[k + 1].(use := Take))
  {
  }

  lemma NextIsApart(d: Diff, k: nat)
    requires d.Consistent() && k < |d.hunks| && d.hunks[k].splittableInto >= 2
    ensures k + 1 < |d.hunks| ==> d.hunks[k].end <= d.hunks[k + 1].start
  {
    hide HunkOk;
    hide Side;
    assert d.LinkedAt(k);
  }

  lemma NoOverlapAfter(plain: seq<PatchLine>, h: Hunk, g: Hunk)
    requires h.end <= g.start
    ensures !Overlap(plain, h, g)
  {
  }

  lemma FirstJoins(plain: seq<PatchLine>, h: Hunk, pieces: seq<Hunk>)
    requires ArePieces(plain, h, pieces) && |pieces| >= 2 && h.start < |plain|
    ensures plain[h.start].IsContext() ==> JoinsAt(plain, pieces, 0)
  {
    hide Side;
    hide IsPiece;
    assert OverlapAt(plain, pieces, 0);
    if plain[h.start].IsContext() {
      ContextJoins(plain, pieces[0], pieces[1]);
    }
  }

  lemma SplitFacts(d: Diff, k: nat, pieces: seq<Hunk>)
    requires d.Consistent() && k < |d.hunks| && |pieces| == d.hunks[k].splittableInto >= 2
    requires ArePieces(d.plain, d.hunks[k], pieces)
    ensures
      var h := d.hunks[k];
      && h.start < h.end <= |d.plain|
      && (forall i :: 0 <= i < |pieces| ==> pieces[i].use == Undecided && pieces[i].splittableInto == 1)
      && pieces[0].start == h.start && pieces[0].header.oldOffset == h.header.oldOffset
      && pieces[0].header.newOffset == h.header.newOffset
      && h.header.oldCount == |Side(d.plain[h.start..h.end], '-')|
      && h.header.newCount == |Side(d.plain[h.start..h.end], '+')|
      && (d.plain[h.start].IsContext() ==> JoinsAt(d.plain, pieces, 0))
  {
    hide Side;
    hide Runs;
    hide HasChange;
    hide WellFormed;
    hide OverlapAt;
    hide JoinsAt;
    hide HeaderOf;
    var h := d.hunks[k];
    assert HunkOk(d.a, d.plain, h);
    PieceEnds(d.a, d.plain, h, pieces[0]);
    FirstJoins(d.plain, h, pieces);
  }

  // ---------- Reading hunks ----------

  /** A hunk as it is in the text of a diff, markers and all */
  datatype HunkText = HunkText(header: Header, lines: seq<PatchLine>)

  /** The hunk when its lines start at a position */
  function HunkAt(t: HunkText, start: nat): Hunk {
    var body := Attach(t.lines);
    Hunk(start, start + |body|, t.header, Runs(body, false), Undecided)
  }

  /** The hunks of a diff one after the other */
  function Laid(a: seq<string>, texts: seq<HunkText>): Diff {
    if texts == [] then Diff(a, [], [])
    else
      var n := |texts| - 1;
      var d := Laid(a, texts[..n]);
      Diff(a, d.plain + Attach(texts[n].lines), d.hunks + [HunkAt(texts[n], |d.plain|)])
  }

  lemma LaidNone(a: seq<string>, texts: seq<HunkText>)
    ensures Laid(a, texts[..0]) == Diff(a, [], [])
  {
  }

  lemma LaidNext(a: seq<string>, texts: seq<HunkText>, k: nat)
    requires k < |texts|
    ensures
      var d, body := Laid(a, texts[..k]), Attach(texts[k].lines);
      Laid(a, texts[..k + 1]) == Diff(a, d.plain + body, d.hunks + [HunkAt(texts[k], |d.plain|)])
  {
    assert texts[..k + 1][..k] == texts[..k];
  }

  /** One more line starts a run if it is a change after none. */
  lemma {:induction false} RunsSnoc(body: seq<PatchLine>, l: PatchLine, inRun: bool)
    ensures
      var after := if body == [] then inRun else !body[|body| - 1].IsContext();
      Runs(body + [l], inRun) == Runs(body, inRun) + if l.IsContext() || after then 0 else 1
  {
    if body == [] {
      assert [l][1..] == [];
    } else {
      assert (body + [l])[1..] == body[1..] + [l] && (body + [l])[0] == body[0];
      RunsSnoc(body[1..], l, !body[0].IsContext());
    }
  }

  lemma {:induction false} KindsRuns(b: seq<PatchLine>, c: seq<PatchLine>, inRun: bool)
    requires SameKinds(b, c)
    ensures Runs(b, inRun) == Runs(c, inRun)
  {
    if b != [] {
      KindsRuns(b[1..], c[1..], !b[0].IsContext());
    }
  }

  predicate IsChange(marker: char) {
    marker == '-' || marker == '+'
  }

  /** What the counter has to do with the lines counted so far */
  ghost predicate Counting(body: seq<PatchLine>, marker: char, n: nat) {
    && Runs(body, false) == n + (if IsChange(marker) then 1 else 0)
    && (IsChange(marker) <==> body != [] && !body[|body| - 1].IsContext())
  }

  lemma CountingNext(lines: seq<PatchLine>, i: nat, marker: char, n: nat, ch: char)
    requires i < |lines| && Counting(Attach(lines[..i]), marker, n)
    requires ch == if lines[i].IsContext() then ' ' else lines[i].first
    requires lines[i].IsContext() || IsChange(ch) || IsMarker(lines[i])
    ensures Counting(Attach(lines[..i + 1]), if ch == '\\' then marker else ch,
                     if IsChange(marker) && ch == ' ' then n + 1 else n)
  {
    hide Attach;
    hide Runs;
    AttachNext(lines, i);
    var body, more := Attach(lines[..i]), Attach(lines[..i + 1]);
    if IsMarker(lines[i]) {
      KindsRuns(body, more, false);
    } else {
      RunsSnoc(body, lines[i], false);
    }
  }

  /** Counts into how many hunks one can be split: the times context follows a change, and once more if none follows. */
  method CountRuns(lines: seq<PatchLine>) returns (n: nat)
    requires forall i :: 0 <= i < |lines| ==> lines[i].IsContext() || IsChange(lines[i].first) || IsMarker(lines[i])
    ensures n == Runs(Attach(lines), false)
  {
    n := 0;
    var marker, i := '@', 0;
    assert Counting(Attach(lines[..0]), marker, n);
    while i < |lines|
      invariant i <= |lines| && Counting(Attach(lines[..i]), marker, n)
    {
      hide Counting;
      hide Attach;
      var ch := if lines[i].IsContext() then ' ' else lines[i].first;
      CountingNext(lines, i, marker, n, ch);
      if IsChange(marker) && ch == ' ' {
        n := n + 1;
      }
      if ch != '\\' {
        marker := ch;
      }
      i := i + 1;
    }
    assert lines[..i] == lines;
    if IsChange(marker) {
      n := n + 1;
    }
  }

  class FileDiff {
    var plain: seq<PatchLine>
    var hunks: seq<Hunk>
    ghost var a: seq<string>

    /** Reads the hunks of a file's diff, which say how they differ from the file. */
    constructor (texts: seq<HunkText>, ghost a: seq<string>)
      requires Laid(a, texts).Consistent()
      requires forall k, i :: 0 <= k < |texts| && 0 <= i < |texts[k].lines| ==>
        var l := texts[k].lines[i]; l.IsContext() || IsChange(l.first) || IsMarker(l)
      ensures Valid() && View() == Laid(a, texts)
    {
      hide Attach;
      hide Runs;
      hide Laid;
      hide Diff.Consistent;
      var all, parsed: seq<Hunk>, k := [], [], 0;
      LaidNone(a, texts);
      while k < |texts|
        invariant k <= |texts| && Diff(a, all, parsed) == Laid(a, texts[..k])
      {
        LaidNext(a, texts, k);
        var t := texts[k];
        var n := CountRuns(t.lines);
        var body := Attach(t.lines);
        parsed := parsed + [Hunk(|all|, |all| + |body|, t.header, n, Undecided)];
        all := all + body;
        k := k + 1;
      }
      assert texts[..k] == texts;
      plain, hunks, this.a := all, parsed, a;
    }

    ghost function View(): Diff
      reads this
    {
      Diff(a, plain, hunks)
    }

    ghost predicate Valid()
      reads this
    {
      View().Consistent()
    }

    ghost function ChosenView(useAll: bool): Diff
      reads this
    {
      Diff(a, plain, Chosen(hunks, useAll))
    }

    /**
     Splits a hunk into as many as it has runs of changes. Merging them all gives the hunk back, the same lines and the
     same header, unless the first piece has no line of the new file before the second; then it is not merged at all.
     */
    method Split(k: nat)
      requires Valid() && k < |hunks|
      modifies this`hunks
      ensures Valid()
      ensures old(hunks)[k].splittableInto < 2 ==> unchanged(this)
      ensures old(hunks)[k].splittableInto >= 2 ==>
        var h, m := old(hunks)[k], old(hunks)[k].splittableInto;
        && |hunks| == |old(hunks)| + m - 1
        && hunks[..k] == old(hunks)[..k] && hunks[k + m..] == old(hunks)[k + 1..]
        && (forall i :: k <= i < k + m ==> hunks[i].use == Undecided && hunks[i].splittableInto == 1)
        && ChosenView(true).GroupEnd(k) == (if Joins(plain, hunks[k], hunks[k + 1]) then k + m - 1 else k)
        && (plain[h.start].IsContext() ==> Joins(plain, hunks[k], hunks[k + 1]))
        && hunks[k].start == h.start && hunks[k + m - 1].end == h.end <= |plain| && h.start < h.end
        && hunks[k].header.oldOffset == h.header.oldOffset && h.header.oldCount == |Side(plain[h.start..h.end], '-')|
        && hunks[k].header.newOffset == h.header.newOffset && h.header.newCount == |Side(plain[h.start..h.end], '+')|
    {
      hide Side;
      hide Runs;
      hide Joins;
      hide HunkOk;
      hide ArePieces;
      var h := hunks[k];
      if h.splittableInto < 2 {
        return;
      }
      hide Diff.Chained;
      hide Diff.GroupEnd;
      assert HunkOk(a, plain, h);
      var pieces := SplitBody(plain, h, a);
      SplitConsistent(View(), k, pieces);
      SplitMergesBack(View(), k, pieces);
      SplitFacts(View(), k, pieces);
      hide Diff.Consistent;
      hunks := hunks[..k] + pieces + hunks[k + 1..];
    }

    /** Merges hunk i with those taken after it as long as they overlap. */
    method MergeHunks(i: nat, useAll: bool) returns (last: nat, merged: Hunk)
      requires Valid() && i < |hunks| && (useAll || hunks[i].use == Take)
      ensures ChosenView(useAll).Consistent() && last == ChosenView(useAll).GroupEnd(i)
      ensures IsMerged(ChosenView(useAll), i, merged)
      ensures merged.start == hunks[i].start < hunks[last].end == merged.end <= |plain|
      ensures merged.header.oldOffset == hunks[i].header.oldOffset
              && merged.header.newOffset == hunks[i].header.newOffset
      ensures merged.header.oldCount == |Side(plain[merged.start..merged.end], '-')|
      ensures merged.header.newCount == |Side(plain[merged.start..merged.end], '+')|
    {
      hide HunkOk;
      hide Side;
      hide Overlap;
      hide Diff.Consistent;
      ghost var d := ChosenView(useAll);
      ChosenConsistent(View(), useAll);
      last, merged := i, hunks[i];
      GroupCounts(d, i, i);
      while last + 1 < |hunks|
        invariant i <= last < |hunks| && d.Chained(i, last) && forall k :: i < k <= last ==> d.hunks[k].use == Take
        invariant merged.start == hunks[i].start < hunks[last].end == merged.end <= |plain|
        invariant merged.header.oldOffset == hunks[i].header.oldOffset
                  && merged.header.newOffset == hunks[i].header.newOffset
        invariant merged.header.oldCount == |Side(plain[merged.start..merged.end], '-')|
        invariant merged.header.newCount == |Side(plain[merged.start..merged.end], '+')|
      {
        var hunk := hunks[last + 1];
        var header, next := merged.header, hunk.header;
        GroupCounts(d, i, last);
        TestFindsOverlap(d, i, last);
        if (!useAll && hunk.use != Take) || header.newOffset >= next.newOffset
           || header.newOffset + header.newCount < next.newOffset {
          break;
        }
        ChainedSnoc(d, i, last);
        GroupCounts(d, i, last + 1);
        OverlapInText(d, last);
        assert merged.start < hunk.start && merged.end > hunk.start;
        merged := merged.(end := hunk.end, header := header.(
                            oldCount := next.oldOffset + next.oldCount - header.oldOffset,
                            newCount := next.newOffset + next.newCount - header.newOffset));
        last := last + 1;
      }
      GroupEndIs(d, i, last);
    }

    /**
     Writes a hunk, or several merged, with the header shifted by what hunks before it that are not taken would have
     added. It then says where its lines are in the two files the patch is between.
     */
    method RenderHunk(h: Hunk, delta: int, reverse: bool, ghost d: Diff, ghost i: nat) returns (f: Fragment)
      requires d.Consistent() && d.plain == plain && i < |d.hunks| && IsMerged(d, i, h) && delta == d.Delta(i)
      ensures f.body == plain[h.start..h.end]
      ensures f.oldpos == d.From(i, d.OldPick(reverse)) + d.Gap(i) + 1
      ensures f.newpos == d.From(i, d.NewPick(reverse)) + d.Gap(i) + 1
      ensures f == d.Piece(i, reverse)
    {
      hide Side;
      hide Diff.Consistent;
      hide Diff.From;
      hide Diff.Gap;
      hide Diff.Delta;
      hide Diff.GroupEnd;
      d.OffsetsAreRight(i, reverse);
      var header := h.header;
      if reverse {
        header := header.(oldOffset := header.oldOffset - delta);
      } else {
        header := header.(newOffset := header.newOffset + delta);
      }
      f := AsFragment(header, plain[h.start..h.end]);
    }

    /** The patch of the hunks taken: a diff between two files that differ in exactly those. */
    method ReassemblePatch(reverse: bool, useAll: bool) returns (out: seq<Fragment>)
      requires Valid()
      ensures ChosenView(useAll).Consistent() && out == ChosenView(useAll).Emitted(0, reverse)
    {
      hide Side;
      hide Overlap;
      hide HunkOk;
      hide Diff.Consistent;
      hide Diff.Piece;
      hide Diff.Delta;
      hide Diff.Emitted;
      hide Diff.From;
      hide Diff.Gap;
      hide Diff.OldPick;
      hide Diff.NewPick;
      hide Diff.GroupEnd;
      hide AsFragment;
      hide IsMerged;
      ghost var d := ChosenView(useAll);
      ChosenConsistent(View(), useAll);
      var delta, i := 0, 0;
      out := [];
      assert d.Delta(0) == 0 by {
        DeltaNext(d, 0);
      }
      while i < |hunks|
        invariant i <= |hunks| && d.Consistent() && delta == d.Delta(i)
        invariant out + d.Emitted(i, reverse) == d.Emitted(0, reverse)
      {
        var hunk := hunks[i];
        DeltaNext(d, i);
        EmittedNext(d, i, reverse);
        if !useAll && hunk.use != Take {
          delta := delta + hunk.header.oldCount - hunk.header.newCount;
          i := i + 1;
        } else {
          var last, merged := MergeHunks(i, useAll);
          var f := RenderHunk(merged, delta, reverse, d, i);
          out := out + [f];
          DeltaGroup(d, i, last + 1);
          i := last + 1;
        }
      }
      EmittedNext(d, i, reverse);
    }

    /**
     Applies the patch of the hunks taken, once it has been written and read again, or in reverse mode takes them back
     out of the file that has the changes of every hunk. If hunks taken that overlap have been merged it succeeds, and
     the file then has the changes it should have and no others.
     */
    method ApplySelection(img: Image, reverse: bool) returns (ok: bool)
      requires Valid() && img.Valid() && Unpatched(img.line)
      requires img.text == View().Result(if reverse then View().NewPick(true) else View().OldPick(false))
      modifies img
      ensures img.Valid()
      ensures View().Mergeable() ==>
        ok && img.text == View().Result(if reverse then View().OldPick(true) else View().NewPick(false))
    {
      hide Side;
      hide Overlap;
      hide HunkOk;
      hide Diff.Consistent;
      hide Diff.Mergeable;
      hide Diff.Emitted;
      hide Diff.Result;
      hide Diff.OldPick;
      hide Diff.NewPick;
      hide IsDiff;
      hide IsBody;
      hide Parsed;
      hide Fits;
      hide Flat;
      ghost var d := View();
      var taken := false;
      for i := 0 to |hunks|
        invariant taken <==> exists k :: 0 <= k < i && hunks[k].use == Take
      {
        taken := taken || hunks[i].use == Take;
      }
      ghost var x, y := d.Result(d.OldPick(reverse)), d.Result(d.NewPick(reverse));
      if !taken {
        NoneTaken(d, reverse);
        return true;
      }
      var out := ReassemblePatch(reverse, false);
      EmittedRead(d, 0, reverse);
      out := ReadPatch(out);
      var o := Options(false, false, false, false, false, 0xFFFF_FFFF);
      if d.Mergeable() {
        d.SelectionIsDiff(reverse, o);
      }
      var patch := new Patch(out);
      if reverse {
        patch.Reverse(x, y, o);
        ReversedParsed(out);
        o := o.(reverse := true);
      }
      ok := patch.Apply(img, o, if reverse then x else y);
    }
  }

  /** What is written for a selection is hunks with right counts. */
  lemma {:induction false} EmittedRead(d: Diff, i: nat, reverse: bool)
    requires d.Consistent() && i <= |d.hunks|
    ensures forall k :: 0 <= k < |d.Emitted(i, reverse)| ==>
      var f := d.Emitted(i, reverse)[k]; Parsed(f) && IsBody(f.body, f.oldlines, f.newlines)
    decreases |d.hunks| - i
  {
    hide Diff.Consistent;
    hide Diff.Piece;
    hide Diff.GroupEnd;
    hide IsBody;
    hide Parsed;
    if i < |d.hunks| {
      if d.hunks[i].use == Take {
        PieceRead(d, i, reverse);
        EmittedRead(d, d.GroupEnd(i) + 1, reverse);
      } else {
        EmittedRead(d, i + 1, reverse);
      }
    }
  }

  lemma PieceRead(d: Diff, i: nat, reverse: bool)
    requires d.Consistent() && i < |d.hunks|
    ensures var f := d.Piece(i, reverse); Parsed(f) && IsBody(f.body, f.oldlines, f.newlines)
  {
    hide Diff.Consistent;
    hide Diff.From;
    hide Diff.Gap;
    hide Diff.OldPick;
    hide Diff.NewPick;
    hide Side;
    hide WellFormed;
    hide HasChange;
    hide Leading;
    hide Trailing;
    d.GroupBody(i, d.GroupEnd(i));
    d.PieceIsMerged(i, reverse);
  }

  lemma ReversedParsed(frags: seq<Fragment>)
    requires forall k :: 0 <= k < |frags| ==> Parsed(frags[k])
    ensures forall k :: 0 <= k < |AllReversed(frags)| ==> Parsed(AllReversed(frags)[k])
  {
  }

  /** Without any hunk taken the two files are the same. */
  lemma NoneTaken(d: Diff, reverse: bool)
    requires d.Consistent() && forall k :: 0 <= k < |d.hunks| ==> d.hunks[k].use != Take
    ensures d.OldPick(reverse) == d.NewPick(reverse)
  {
  }

  lemma EmittedNext(d: Diff, i: nat, reverse: bool)
    requires d.Consistent() && i <= |d.hunks|
    ensures i == |d.hunks| ==> d.Emitted(i, reverse) == []
    ensures i < |d.hunks| && d.hunks[i].use != Take ==> d.Emitted(i, reverse) == d.Emitted(i + 1, reverse)
    ensures i < |d.hunks| && d.hunks[i].use == Take ==>
      d.Emitted(i, reverse) == [d.Piece(i, reverse)] + d.Emitted(d.GroupEnd(i) + 1, reverse)
  {
    hide Diff.Consistent;
    hide Diff.Piece;
    hide Diff.GroupEnd;
  }

  lemma DeltaNext(d: Diff, i: nat)
    requires i <= |d.hunks|
    ensures d.Delta(0) == 0
    ensures i < |d.hunks| ==> d.Delta(i + 1) == d.Delta(i) - if d.hunks[i].use == Take then 0 else d.hunks[i].Grows()
  {
  }

  /** The hunk is what merging hunk i with those after it gives. */
  ghost predicate IsMerged(d: Diff, i: nat, h: Hunk)
    requires i < |d.hunks|
  {
    && h.start == d.hunks[i].start < d.hunks[d.GroupEnd(i)].end == h.end <= |d.plain|
    && h.header.oldOffset == d.hunks[i].header.oldOffset && h.header.newOffset == d.hunks[i].header.newOffset
    && h.header.oldCount == |Side(d.plain[h.start..h.end], '-')|
    && h.header.newCount == |Side(d.plain[h.start..h.end], '+')|
  }

  lemma OverlapInText(d: Diff, j: nat)
    requires j + 1 < |d.hunks| && Overlap(d.plain, d.hunks[j], d.hunks[j + 1])
    ensures d.hunks[j + 1].start < d.hunks[j].end
  {
  }
}
