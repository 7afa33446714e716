/** Splitting a hunk at the context between its runs of changes (split_hunk of add-patch.c) */
module SplitHunk {

  import opened Image
  import opened Apply
  import opened Hunks

  ghost predicate AllChange(body: seq<PatchLine>) {
    forall i :: 0 <= i < |body| ==> !body[i].IsContext()
  }

  lemma {:induction false} RunsSkipContext(body: seq<PatchLine>, n: nat)
    requires n <= |body| && AllContext(body[..n])
    ensures Runs(body, false) == Runs(body[n..], false)
    ensures n > 0 ==> Runs(body, true) == Runs(body[n..], false)
  {
    if n > 0 {
      assert body[0] == body[..n][0];
      assert body[1..][..n - 1] == body[..n][1..];
      RunsSkipContext(body[1..], n - 1);
      assert body[1..][n - 1..] == body[n..];
    }
  }

  lemma {:induction false} RunsSkipChange(body: seq<PatchLine>, n: nat)
    requires 0 < n <= |body| && AllChange(body[..n])
    ensures Runs(body, false) == 1 + Runs(body[n..], true) && Runs(body, true) == Runs(body[n..], true)
  {
    assert body[0] == body[..n][0];
    if n > 1 {
      assert body[1..][..n - 1] == body[..n][1..];
      RunsSkipChange(body[1..], n - 1);
      assert body[1..][n - 1..] == body[n..];
    } else {
      assert body[n..] == body[1..];
    }
  }

  lemma RunsOverContext(plain: seq<PatchLine>, i: nat, j: nat, k: nat)
    requires i <= j <= k <= |plain| && AllContext(plain[i..j])
    ensures Runs(plain[i..k], false) == Runs(plain[j..k], false)
    ensures i < j ==> Runs(plain[i..k], true) == Runs(plain[j..k], false)
  {
    hide Runs;
    var body := plain[i..k];
    assert body[..j - i] == plain[i..j] && body[j - i..] == plain[j..k];
    RunsSkipContext(body, j - i);
  }

  lemma RunsOverChange(plain: seq<PatchLine>, i: nat, j: nat, k: nat)
    requires i < j <= k <= |plain| && AllChange(plain[i..j])
    ensures Runs(plain[i..k], false) == 1 + Runs(plain[j..k], true)
  {
    hide Runs;
    var body := plain[i..k];
    assert body[..j - i] == plain[i..j] && body[j - i..] == plain[j..k];
    RunsSkipChange(body, j - i);
  }

  /** Context, changes and context are one run. */
  lemma OneRun(plain: seq<PatchLine>, i: nat, j: nat, k: nat, l: nat)
    requires i <= j < k <= l <= |plain|
    requires AllContext(plain[i..j]) && AllChange(plain[j..k]) && AllContext(plain[k..l])
    ensures Runs(plain[i..l], false) == 1 && HasChange(plain[i..l])
  {
    hide Runs;
    RunsOverContext(plain, i, j, l);
    RunsOverChange(plain, j, k, l);
    RunsOfContext(plain[k..l]);
    assert plain[j] == plain[j..k][0];
    ChangeInside(plain, i, j, l);
  }

  lemma RunsOfContext(body: seq<PatchLine>)
    requires AllContext(body)
    ensures Runs(body, false) == Runs(body, true) == 0
  {
    assert body[..|body|] == body && body[|body|..] == [];
    RunsSkipContext(body, |body|);
  }

  /** The offsets and counts of a header are those of the lines of a part of a hunk. */
  ghost predicate HeaderOf(plain: seq<PatchLine>, h: Hunk, header: Header, start: nat, end: nat)
    requires h.start <= start <= end <= |plain|
  {
    && header.oldOffset == h.header.oldOffset + |Side(plain[h.start..start], '-')|
    && header.newOffset == h.header.newOffset + |Side(plain[h.start..start], '+')|
    && header.oldCount == |Side(plain[start..end], '-')|
    && header.newCount == |Side(plain[start..end], '+')|
  }

  ghost predicate IsPiece(plain: seq<PatchLine>, h: Hunk, x: Hunk) {
    && h.start <= x.start < x.end <= h.end <= |plain| && (plain[x.start].IsContext() || x.start == h.start)
    && HasChange(plain[x.start..x.end]) && x.splittableInto == 1 == Runs(plain[x.start..x.end], false)
    && HeaderOf(plain, h, x.header, x.start, x.end)
    && (x.end < h.end ==> plain[x.end - 1].IsContext())
  }

  /** Pieces of a hunk from its start on, each overlapping the next. */
  ghost predicate ArePieces(plain: seq<PatchLine>, h: Hunk, pieces: seq<Hunk>) {
    && (forall i :: 0 <= i < |pieces| ==> IsPiece(plain, h, pieces[i]) && pieces[i].use == Undecided)
    && (forall i :: 0 <= i < |pieces| - 1 ==> OverlapAt(plain, pieces, i))
    && (pieces != [] ==> pieces[0].start == h.start)
  }

  ghost predicate OverlapAt(plain: seq<PatchLine>, pieces: seq<Hunk>, i: nat)
    requires i + 1 < |pieces|
  {
    Overlap(plain, pieces[i], pieces[i + 1])
  }

  /** Two pieces of a hunk that share context overlap. */
  lemma PiecesOverlap(plain: seq<PatchLine>, h: Hunk, x: Hunk, y: Hunk)
    requires IsPiece(plain, h, x) && IsPiece(plain, h, y)
    requires x.start < y.start < x.end <= y.end && AllContext(plain[y.start..x.end])
    ensures Overlap(plain, x, y)
  {
    hide Side;
    hide Runs;
    SideSplit(plain, h.start, x.start, y.start, '-');
    SideSplit(plain, h.start, x.start, y.start, '+');
  }

  /**
   Where the scan of a hunk is: at line current, after context lines of context; the changes of the
   piece being read start at run.
   */
  datatype Scan = Scan(pieces: seq<Hunk>, start: nat, header: Header, current: nat, context: nat, left: nat)

  ghost predicate Scanned(plain: seq<PatchLine>, h: Hunk, s: Scan, run: nat) {
    && ArePieces(plain, h, s.pieces) && |s.pieces| + s.left == h.splittableInto
    && h.start <= s.start <= run && s.current <= h.end <= |plain| && s.context <= s.current
    && run <= s.current - s.context && (s.pieces != [] ==> s.start < run)
    && AllContext(plain[s.start..run]) && AllChange(plain[run..s.current - s.context])
    && AllContext(plain[s.current - s.context..s.current])
    && HeaderOf(plain, h, s.header, s.start, s.current - s.context)
    && Runs(plain[s.current..h.end], s.context == 0) + 1 == s.left
    && (if s.pieces == [] then s.start == h.start
        else var last := s.pieces[|s.pieces| - 1]; last.start < s.start && last.end == run)
    && (run == s.current - s.context ==> s.context == 0 && s.current < h.end && !plain[s.current].IsContext())
  }

  lemma RunsNext(plain: seq<PatchLine>, i: nat, j: nat, inRun: bool)
    requires i < j <= |plain|
    ensures Runs(plain[i..j], inRun) ==
            if plain[i].IsContext() then Runs(plain[i + 1..j], false)
               else (if inRun then 0 else 1) + Runs(plain[i + 1..j], true)
  {
    assert plain[i..j][1..] == plain[i + 1..j];
  }

  lemma SideOne(plain: seq<PatchLine>, i: nat, j: nat, side: char)
    requires i <= j < |plain|
    ensures Side(plain[i..j + 1], side) == Side(plain[i..j], side) + plain[j].On(side)
  {
    assert plain[i..j + 1][..j - i] == plain[i..j];
  }

  /** A header after one more changed line */
  function Counted(header: Header, ch: char): Header {
    if ch == '-' then header.(oldCount := header.oldCount + 1) else header.(newCount := header.newCount + 1)
  }

  /** One more line of context */
  lemma ScanContext(plain: seq<PatchLine>, h: Hunk, s: Scan, run: nat)
    requires Scanned(plain, h, s, run) && s.current < h.end && plain[s.current].IsContext()
    ensures Scanned(plain, h, s.(current := s.current + 1, context := s.context + 1), run)
  {
    hide Side;
    hide Runs;
    hide ArePieces;
    RunsNext(plain, s.current, h.end, s.context == 0);
    var t := s.current + 1;
    assert plain[s.current - s.context..t] == plain[s.current - s.context..s.current] + [plain[s.current]];
  }

  /** One more changed line of the piece's run */
  lemma ScanChange(plain: seq<PatchLine>, h: Hunk, s: Scan, run: nat)
    requires Scanned(plain, h, s, run) && s.current < h.end && !plain[s.current].IsContext() && s.context == 0
    requires WellFormed(plain[h.start..h.end])
    ensures plain[s.current].first == '-' || plain[s.current].first == '+'
    ensures Scanned(plain, h, s.(current := s.current + 1, header := Counted(s.header, plain[s.current].first)), run)
  {
    hide Side;
    hide Runs;
    hide ArePieces;
    assert plain[s.current] == plain[h.start..h.end][s.current - h.start];
    RunsNext(plain, s.current, h.end, true);
    assert plain[run..s.current + 1] == plain[run..s.current] + [plain[s.current]];
    SideOne(plain, s.start, s.current, '-');
    SideOne(plain, s.start, s.current, '+');
  }

  /** The piece that ends where the next run starts */
  function Finished(s: Scan): Hunk {
    Hunk(s.start, s.current, s.header.(oldCount := s.header.oldCount + s.context,
                                       newCount := s.header.newCount + s.context), 1, Undecided)
  }

  /** The scan of the next piece, which starts with the context that the finished one ends with */
  function Started(s: Scan): Scan
    requires s.context <= s.current && s.left > 0
  {
    var header := Header(s.header.oldOffset + s.header.oldCount, s.context, s.header.newOffset + s.header.newCount,
                         s.context);
    Scan(s.pieces + [Finished(s)], s.current - s.context, header, s.current, 0, s.left - 1)
  }

  lemma FinishedIsPiece(plain: seq<PatchLine>, h: Hunk, s: Scan, run: nat)
    requires Scanned(plain, h, s, run) && s.context > 0
    ensures IsPiece(plain, h, Finished(s))
  {
    hide Side;
    hide Runs;
    hide ArePieces;
    hide HasChange;
    var k := s.current - s.context;
    assert s.start < run ==> plain[s.start] == plain[s.start..run][0];
    assert plain[s.current - 1] == plain[k..s.current][s.context - 1];
    OneRun(plain, s.start, run, k, s.current);
    SideSplit(plain, s.start, k, s.current, '-');
    SideSplit(plain, s.start, k, s.current, '+');
    ContextSides(plain[k..s.current], '-', '+');
  }

  lemma StartedHeader(plain: seq<PatchLine>, h: Hunk, s: Scan, run: nat)
    requires Scanned(plain, h, s, run)
    ensures HeaderOf(plain, h, Started(s).header, s.current - s.context, s.current)
  {
    hide Runs;
    hide ArePieces;
    hide Side;
    var k := s.current - s.context;
    SideSplit(plain, h.start, s.start, k, '-');
    SideSplit(plain, h.start, s.start, k, '+');
    ContextSides(plain[k..s.current], '-', '+');
  }

  lemma PiecesSnoc(plain: seq<PatchLine>, h: Hunk, pieces: seq<Hunk>, x: Hunk)
    requires ArePieces(plain, h, pieces) && IsPiece(plain, h, x) && x.use == Undecided
    requires if pieces == [] then x.start == h.start
             else
               var last := pieces[|pieces| - 1];
               last.start < x.start < last.end <= x.end && AllContext(plain[x.start..last.end])
    ensures ArePieces(plain, h, pieces + [x])
  {
    hide IsPiece;
    hide Overlap;
    var all := pieces + [x];
    if pieces != [] {
      PiecesOverlap(plain, h, pieces[|pieces| - 1], x);
    }
    forall i | 0 <= i < |all| - 1 ensures OverlapAt(plain, all, i) {
      assert i < |pieces| - 1 ==> OverlapAt(plain, pieces, i);
    }
  }

  /** The next run starts: the piece being read is finished. */
  lemma ScanFinish(plain: seq<PatchLine>, h: Hunk, s: Scan, run: nat)
    requires Scanned(plain, h, s, run) && s.context > 0
    requires s.current < h.end && !plain[s.current].IsContext()
    ensures Scanned(plain, h, Started(s), s.current) && s.left > 1
  {
    hide Side;
    hide Runs;
    hide HeaderOf;
    hide IsPiece;
    FinishedIsPiece(plain, h, s, run);
    PiecesSnoc(plain, h, s.pieces, Finished(s));
    StartedHeader(plain, h, s, run);
    RunsNext(plain, s.current, h.end, false);
    RunsNext(plain, s.current, h.end, true);
  }

  /** The runs from the piece being read to the end of the hunk are those left. */
  lemma ScanRuns(plain: seq<PatchLine>, h: Hunk, s: Scan, run: nat)
    requires Scanned(plain, h, s, run)
    ensures Runs(plain[s.start..h.end], false) == s.left
  {
    hide Side;
    hide Runs;
    hide ArePieces;
    hide AllChange;
    hide AllContext;
    hide HeaderOf;
    var k := s.current - s.context;
    RunsOverContext(plain, s.start, run, h.end);
    if run < k {
      RunsOverChange(plain, run, k, h.end);
      RunsOverContext(plain, k, s.current, h.end);
    } else {
      RunsNext(plain, s.current, h.end, false);
      RunsNext(plain, s.current, h.end, true);
    }
  }

  function Rest(h: Hunk, s: Scan, oldCount: nat, newCount: nat): Hunk {
    Hunk(s.start, h.end, s.header.(oldCount := oldCount, newCount := newCount), 1, Undecided)
  }

  lemma RestIsPiece(a: seq<string>, plain: seq<PatchLine>, h: Hunk, s: Scan, run: nat, oldCount: int, newCount: int)
    requires HunkOk(a, plain, h) && Scanned(plain, h, s, run) && s.left == 1 && run == s.current
    requires oldCount == h.header.oldCount - |Side(plain[h.start..s.start], '-')|
    requires newCount == h.header.newCount - |Side(plain[h.start..s.start], '+')|
    ensures oldCount >= 0 && newCount >= 0 && IsPiece(plain, h, Rest(h, s, oldCount, newCount))
  {
    hide Side;
    hide Runs;
    hide HasChange;
    hide WellFormed;
    hide ArePieces;
    ScanRuns(plain, h, s, run);
    SideSplit(plain, h.start, s.start, h.end, '-');
    SideSplit(plain, h.start, s.start, h.end, '+');
    assert s.start < run ==> plain[s.start] == plain[s.start..run][0];
    ChangeInside(plain, s.start, s.current, h.end);
  }

  /** The last piece gets the rest. */
  lemma ScanLast(a: seq<string>, plain: seq<PatchLine>, h: Hunk, s: Scan, run: nat, oldCount: nat, newCount: nat)
    requires HunkOk(a, plain, h) && Scanned(plain, h, s, run) && s.left == 1 && run == s.current
    requires oldCount == h.header.oldCount - |Side(plain[h.start..s.start], '-')|
    requires newCount == h.header.newCount - |Side(plain[h.start..s.start], '+')|
    ensures ArePieces(plain, h, s.pieces + [Rest(h, s, oldCount, newCount)])
  {
    hide Side;
    hide Runs;
    hide HunkOk;
    hide HeaderOf;
    hide IsPiece;
    hide ArePieces;
    RestIsPiece(a, plain, h, s, run, oldCount, newCount);
    PiecesSnoc(plain, h, s.pieces, Rest(h, s, oldCount, newCount));
  }

  /** Before the first change: only context has been seen. */
  lemma ScanFirst(plain: seq<PatchLine>, h: Hunk, current: nat)
    requires h.start <= current < h.end <= |plain| && AllContext(plain[h.start..current]) && !plain[current].IsContext()
    requires h.splittableInto == Runs(plain[h.start..h.end], false)
    ensures var n := current - h.start;
            Scanned(plain, h, Scan([], h.start, h.header.(oldCount := n, newCount := n), current, 0, h.splittableInto),
                    current)
  {
    hide Runs;
    RunsOverContext(plain, h.start, current, h.end);
    RunsNext(plain, current, h.end, false);
    RunsNext(plain, current, h.end, true);
    ContextSides(plain[h.start..current], '-', '+');
    assert plain[h.start..h.start] == [];
  }

  /** There is a change before the end of a hunk that has runs left. */
  lemma ScanGoesOn(plain: seq<PatchLine>, h: Hunk, current: nat)
    requires h.start <= current <= h.end <= |plain| && AllContext(plain[h.start..current])
             && Runs(plain[h.start..h.end], false) > 0
    ensures current < h.end
  {
    if current == h.end {
      RunsOfContext(plain[h.start..h.end]);
      assert false;
    }
  }

  lemma ChangeInside(plain: seq<PatchLine>, i: nat, j: nat, k: nat)
    requires i <= j < k <= |plain| && !plain[j].IsContext()
    ensures HasChange(plain[i..k])
  {
    assert plain[i..k][j - i] == plain[j];
  }

  lemma ChangeMarker(plain: seq<PatchLine>, h: Hunk, i: nat)
    requires h.start <= i < h.end <= |plain| && WellFormed(plain[h.start..h.end])
    ensures plain[i].IsContext() || plain[i].first == '-' || plain[i].first == '+'
  {
    assert plain[i] == plain[h.start..h.end][i - h.start];
  }

  lemma NoContext(plain: seq<PatchLine>, i: nat)
    requires i <= |plain|
    ensures AllContext(plain[i..i])
  {
  }

  lemma MoreContext(plain: seq<PatchLine>, i: nat, j: nat)
    requires i <= j < |plain| && AllContext(plain[i..j]) && plain[j].IsContext()
    ensures AllContext(plain[i..j + 1])
  {
    assert plain[i..j + 1] == plain[i..j] + [plain[j]];
  }

  lemma ScanMore(plain: seq<PatchLine>, h: Hunk, s: Scan, run: nat)
    requires Scanned(plain, h, s, run) && s.left > 1
    ensures s.current < h.end
  {
    hide Side;
  }

  lemma StartOffsets(plain: seq<PatchLine>, h: Hunk, s: Scan, run: nat)
    requires Scanned(plain, h, s, run)
    ensures s.header.oldOffset == h.header.oldOffset + |Side(plain[h.start..s.start], '-')|
    ensures s.header.newOffset == h.header.newOffset + |Side(plain[h.start..s.start], '+')|
    ensures |s.pieces| + s.left == h.splittableInto
  {
    hide Side;
    hide Runs;
  }

  /** What is left of the hunk's lines is no less than the lines of the piece. */
  lemma CountsLeft(a: seq<string>, plain: seq<PatchLine>, h: Hunk, s: Scan, run: nat)
    requires HunkOk(a, plain, h) && Scanned(plain, h, s, run)
    ensures s.header.oldOffset + s.header.oldCount <= h.header.oldOffset + h.header.oldCount
    ensures s.header.newOffset + s.header.newCount <= h.header.newOffset + h.header.newCount
  {
    hide Side;
    hide Runs;
    hide HasChange;
    hide WellFormed;
    hide ArePieces;
    var k := s.current - s.context;
    SideSplit(plain, h.start, s.start, h.end, '-');
    SideSplit(plain, h.start, s.start, h.end, '+');
    SideSplit(plain, s.start, k, h.end, '-');
    SideSplit(plain, s.start, k, h.end, '+');
  }

  lemma {:induction false} RunNeeds(body: seq<PatchLine>, inRun: bool)
    requires Runs(body, inRun) > 0
    ensures HasChange(body) && (inRun ==> exists i :: 0 <= i < |body| && body[i].IsContext())
  {
    if body[0].IsContext() {
      RunNeeds(body[1..], false);
    } else if inRun {
      RunNeeds(body[1..], true);
    }
    assert forall i :: 0 <= i < |body| - 1 ==> body[1..][i] == body[i + 1];
  }

  lemma SideHas(plain: seq<PatchLine>, i: nat, j: nat, k: nat, side: char)
    requires i <= j < k <= |plain| && plain[j].On(side) != []
    ensures Side(plain[i..k], side) != []
  {
    hide PatchLine.On;
    SideSplit(plain, i, j, k, side);
    SideSplit(plain, j, j + 1, k, side);
    SideOne(plain, j, j, side);
  }

  lemma SideAround(plain: seq<PatchLine>, i: nat, j: nat, k: nat, side: char)
    requires i <= j < k <= |plain|
    ensures Side(plain[i..k], side) == Side(plain[i..j], side) + plain[j].On(side) + Side(plain[j + 1..k], side)
  {
    hide PatchLine.On;
    SideSplit(plain, i, j + 1, k, side);
    SideOne(plain, i, j, side);
  }

  lemma TextMiddle(before: seq<string>, x: seq<string>, after: seq<string>)
    requires IsText(before + x + after) && x != [] && after != []
    ensures IsLine(x[0])
  {
    hide IsLine;
    hide IsPart;
    assert (before + x + after)[|before|] == x[0];
  }

  /** A line with another after it on the same side has its LF. */
  lemma NotLastOnSide(plain: seq<PatchLine>, i: nat, j: nat, k: nat, l: nat, side: char)
    requires i <= j < l < k <= |plain| && plain[j].On(side) != [] && plain[l].On(side) != []
    requires IsText(Side(plain[i..k], side))
    ensures plain[j].first == '\n' || IsLine(plain[j].rest)
  {
    hide Side;
    hide IsText;
    SideHas(plain, j + 1, l, k, side);
    SideAround(plain, i, j, k, side);
    TextMiddle(Side(plain[i..j], side), plain[j].On(side), Side(plain[j + 1..k], side));
  }

  /**
   A line after which another run starts has its LF, so there is no marker after it. These are the lines the scan of a
   hunk goes past: it reads no markers, which it would count like lines.
   */
  lemma ReadsNoMarker(a: seq<string>, plain: seq<PatchLine>, h: Hunk, i: nat)
    requires HunkOk(a, plain, h) && h.start <= i < h.end && Runs(plain[i + 1..h.end], !plain[i].IsContext()) > 0
    ensures EndsInLf(plain[i]) || plain[i].first == '\n'
  {
    hide Side;
    hide Runs;
    hide IsText;
    var rest := plain[i + 1..h.end];
    RunNeeds(rest, !plain[i].IsContext());
    ChangeMarker(plain, h, i);
    var m :| 0 <= m < |rest| && !rest[m].IsContext();
    ChangeMarker(plain, h, i + 1 + m);
    if plain[i].IsContext() {
      NotLastOnSide(plain, h.start, i, h.end, i + 1 + m, plain[i + 1 + m].first);
    } else {
      var c :| 0 <= c < |rest| && rest[c].IsContext();
      NotLastOnSide(plain, h.start, i, h.end, i + 1 + c, plain[i].first);
    }
  }

  lemma HunkInText(a: seq<string>, plain: seq<PatchLine>, h: Hunk)
    requires HunkOk(a, plain, h)
    ensures h.start < h.end <= |plain|
  {
  }

  /** One step of the scan; before the first change only context has been seen. */
  lemma Advance(a: seq<string>, plain: seq<PatchLine>, h: Hunk, s: Scan, run: nat, first: bool)
    returns (t: Scan, run': nat)
    requires HunkOk(a, plain, h) && s.left > 1
    requires first ==>
      && s.pieces == [] && s.left == h.splittableInto && s.start == h.start
      && s.header == h.header.(oldCount := 0, newCount := 0)
      && h.start <= s.current <= h.end && s.context == s.current - h.start && AllContext(plain[h.start..s.current])
    requires !first ==> Scanned(plain, h, s, run)
    ensures h.start <= s.current < h.end
    ensures plain[s.current].IsContext() || plain[s.current].first == '-' || plain[s.current].first == '+'
    ensures first && plain[s.current].IsContext() ==> AllContext(plain[h.start..s.current + 1])
    ensures !(first && plain[s.current].IsContext()) ==> Scanned(plain, h, t, run')
    ensures !first && plain[s.current].IsContext() ==> t == s.(current := s.current + 1, context := s.context + 1)
    ensures !first && !plain[s.current].IsContext() ==>
      if s.context == 0 then t == s.(current := s.current + 1, header := Counted(s.header, plain[s.current].first))
      else
        && s.context <= s.current && t == Started(s) && run' == s.current
        && s.header.oldOffset + s.header.oldCount <= h.header.oldOffset + h.header.oldCount
        && s.header.newOffset + s.header.newCount <= h.header.newOffset + h.header.newCount
    ensures t.current == s.current + 1 || (first && plain[s.current].IsContext()) ==>
      EndsInLf(plain[s.current]) || plain[s.current].first == '\n'
    ensures first && !plain[s.current].IsContext() ==>
      var header := Counted(s.header.(oldCount := s.context, newCount := s.context), plain[s.current].first);
      t == s.(current := s.current + 1, header := header, context := 0)
  {
    hide Side;
    hide Runs;
    hide HasChange;
    hide WellFormed;
    hide AllContext;
    hide ArePieces;
    hide HeaderOf;
    t, run' := s, run;
    if first {
      ScanGoesOn(plain, h, s.current);
      RunsOverContext(plain, h.start, s.current, h.end);
      RunsNext(plain, s.current, h.end, false);
      ReadsNoMarker(a, plain, h, s.current);
      ChangeMarker(plain, h, s.current);
      if plain[s.current].IsContext() {
        MoreContext(plain, h.start, s.current);
      } else {
        ScanFirst(plain, h, s.current);
        run' := s.current;
        t := s.(header := s.header.(oldCount := s.context, newCount := s.context), context := 0);
        ScanChange(plain, h, t, run');
        t := t.(current := s.current + 1, header := Counted(t.header, plain[s.current].first));
      }
    } else {
      ScanMore(plain, h, s, run);
      ChangeMarker(plain, h, s.current);
      RunsNext(plain, s.current, h.end, s.context == 0);
      if plain[s.current].IsContext() || s.context == 0 {
        ReadsNoMarker(a, plain, h, s.current);
      }
      if plain[s.current].IsContext() {
        ScanContext(plain, h, s, run);
        t := s.(current := s.current + 1, context := s.context + 1);
      } else if s.context == 0 {
        ScanChange(plain, h, s, run);
        t := s.(current := s.current + 1, header := Counted(s.header, plain[s.current].first));
      } else {
        ScanFinish(plain, h, s, run);
        CountsLeft(a, plain, h, s, run);
        run' := s.current;
        t := Started(s);
      }
    }
  }

  /** The pieces of a hunk that can be split, as many as it has runs of changes */
  method SplitBody(plain: seq<PatchLine>, h: Hunk, ghost a: seq<string>) returns (pieces: seq<Hunk>)
    requires HunkOk(a, plain, h) && h.splittableInto >= 2
    ensures |pieces| == h.splittableInto && ArePieces(plain, h, pieces) && pieces[|pieces| - 1].end == h.end
  {
    hide Side;
    hide Runs;
    hide HasChange;
    hide WellFormed;
    hide AllContext;
    hide ArePieces;
    hide Scanned;
    hide HunkOk;
    var left: nat, remaining := h.splittableInto, h.header;
    var start: nat, header, nextStart: nat := h.start, h.header.(oldCount := 0, newCount := 0), h.start;
    var current: nat, context: nat, marker, first := h.start, 0, '\0', true;
    pieces := [];
    ghost var run := 0;
    HunkInText(a, plain, h);
    NoContext(plain, h.start);
    while left > 1
      invariant h.start <= current <= h.end && left >= 1
      invariant first && marker != '-' && marker != '+' ==>
        && pieces == [] && left == h.splittableInto && start == h.start && remaining == h.header
        && header == h.header.(oldCount := 0, newCount := 0)
        && context == current - h.start && AllContext(plain[h.start..current])
        && marker == (if context == 0 then '\0' else ' ')
      invariant !first || marker == '-' || marker == '+' ==>
        && Scanned(plain, h, Scan(pieces, start, header, current, context, left), run)
        && remaining.oldOffset == header.oldOffset && remaining.newOffset == header.newOffset
        && remaining.oldOffset + remaining.oldCount == h.header.oldOffset + h.header.oldCount
        && remaining.newOffset + remaining.newCount == h.header.newOffset + h.header.newCount
        && (if context > 0 then marker == ' ' && nextStart == current - context else marker == '-' || marker == '+')
        && (left == 1 ==> run == current)
      decreases h.end - current, left
    {
      ghost var s := Scan(pieces, start, header, current, context, left);
      ghost var t;
      t, run := Advance(a, plain, h, s, run, first && marker != '-' && marker != '+');
      var ch := if plain[current].IsContext() then ' ' else plain[current].first;
      if (marker == '-' || marker == '+') && ch == ' ' {
        first := false;
        nextStart := current;
        context := 0;
      }
      if marker != ' ' || (ch != '-' && ch != '+') {
        if ch == ' ' {
          context := context + 1;
        } else {
          header := Counted(header, ch);
        }
        marker := ch;
        current := current + 1;
      } else if first {
        header := Counted(header.(oldCount := context, newCount := context), ch);
        context := 0;
        first := false;
        marker := ch;
        current := current + 1;
      } else {
        remaining := Header(remaining.oldOffset + header.oldCount, remaining.oldCount - header.oldCount,
                            remaining.newOffset + header.newCount, remaining.newCount - header.newCount);
        var next := Header(header.oldOffset + header.oldCount, context, header.newOffset + header.newCount, context);
        var counted := header.(oldCount := header.oldCount + context, newCount := header.newCount + context);
        pieces := pieces + [Hunk(start, current, counted, 1, Undecided)];
        start, header, context := nextStart, next, 0;
        left := left - 1;
        marker := ch;
      }
      assert (first && marker == ' ') || t == Scan(pieces, start, header, current, context, left);
    }
    assert header.oldOffset == remaining.oldOffset && header.newOffset == remaining.newOffset;
    ghost var s := Scan(pieces, start, header, current, context, left);
    StartOffsets(plain, h, s, run);
    ScanLast(a, plain, h, s, run, remaining.oldCount, remaining.newCount);
    pieces := pieces + [Hunk(start, h.end, header.(oldCount := remaining.oldCount, newCount := remaining.newCount), 1,
                             Undecided)];
  }
}
