/**
 Splitting, selecting and reassembling the hunks of a diff (add-patch.c). The text of
 the diff is a list of lines, and a hunk is a range of it with a header; the file the
 diff starts from is a.
 */
module Hunks {

  import opened Image
  import opened Apply

  datatype Header = Header(oldOffset: nat, oldCount: nat, newOffset: nat, newCount: nat)

  datatype Use = Undecided | Skip | Take

  datatype Hunk = Hunk(start: nat, end: nat, header: Header, splittableInto: nat, use: Use) {
    function Grows(): int {
      header.newCount - header.oldCount
    }
  }

  /** The number of runs of changed lines; a run may have begun before the first line. */
  function Runs(body: seq<PatchLine>, inRun: bool): nat {
    if body == [] then 0
    else if body[0].IsContext() then Runs(body[1..], false)
    else (if inRun then 0 else 1) + Runs(body[1..], true)
  }

  ghost predicate AllContext(body: seq<PatchLine>) {
    forall i :: 0 <= i < |body| ==> body[i].IsContext()
  }

  lemma ContextRange(plain: seq<PatchLine>, i: nat, j: nat, k: nat)
    requires i <= j <= |plain| && AllContext(plain[i..j])
    ensures i <= k < j ==> plain[k].IsContext()
  {
    assert i <= k < j ==> plain[k] == plain[i..j][k - i];
  }

  /** Context is the same on both sides. */
  lemma {:induction false} ContextSides(body: seq<PatchLine>, side: char, other: char)
    requires AllContext(body)
    ensures Side(body, side) == Side(body, other) && |Side(body, side)| == |body|
  {
    if body != [] {
      ContextSides(body[..|body| - 1], side, other);
    }
  }

  lemma SideSplit(plain: seq<PatchLine>, i: nat, j: nat, k: nat, side: char)
    requires i <= j <= k <= |plain|
    ensures Side(plain[i..k], side) == Side(plain[i..j], side) + Side(plain[j..k], side)
  {
    assert plain[i..k] == plain[i..j] + plain[j..k];
    SideConcat(plain[i..j], plain[j..k], side);
  }

  lemma SkipPart<T>(r: seq<T>, f: nat, s: seq<T>, t: seq<T>)
    requires f <= |r| && r[f..] == s + t
    ensures f + |s| <= |r| && r[f + |s|..] == t
  {
    assert r[f + |s|..] == r[f..][|s|..];
  }

  lemma ThreeParts<T>(s: seq<T>, i: nat, j: nat, k: nat)
    requires i <= j <= k <= |s|
    ensures s[i..] == s[i..j] + (s[j..k] + s[k..])
  {
  }

  lemma JoinBodies(plain: seq<PatchLine>, i: nat, j: nat, k: nat, l: nat)
    requires i <= j <= k <= l <= |plain| && WellFormed(plain[i..k]) && WellFormed(plain[j..l]) && HasChange(plain[i..k])
    ensures WellFormed(plain[i..l]) && HasChange(plain[i..l])
  {
    var body, mine, rest := plain[i..l], plain[i..k], plain[j..l];
    forall m | 0 <= m < |body| ensures body[m] == if m < k - i then mine[m] else rest[m - (j - i)] {
    }
    var c :| 0 <= c < |mine| && !mine[c].IsContext();
    assert body[c] == mine[c];
  }

  /**
   The lines of a hunk are in the file where its header says, it has context except at the beginning and at the end of
   the file, and only the last line of a file may lack its LF.
   */
  ghost predicate HunkOk(a: seq<string>, plain: seq<PatchLine>, h: Hunk) {
    && h.start < h.end <= |plain|
    && var body := plain[h.start..h.end];
       var s := h.header.oldOffset - 1;
    && WellFormed(body) && HasChange(body) && h.splittableInto == Runs(body, false)
    && 0 <= s && s + h.header.oldCount <= |a| && a[s..s + h.header.oldCount] == Side(body, '-')
    && h.header.newCount == |Side(body, '+')| && IsText(Side(body, '-')) && IsText(Side(body, '+'))
    && (plain[h.start].IsContext() || (s == 0 && h.header.oldCount > 0 && h.header.newCount > 0))
    && (plain[h.end - 1].IsContext() || s + h.header.oldCount == |a|)
  }

  /** The second hunk was split off the first; the context between their changes is in both. */
  ghost predicate Overlap(plain: seq<PatchLine>, h: Hunk, g: Hunk) {
    && h.start < g.start < h.end <= g.end <= |plain| && AllContext(plain[g.start..h.end])
    && h.splittableInto == g.splittableInto == 1
    && g.header.oldOffset == h.header.oldOffset + |Side(plain[h.start..g.start], '-')|
    && g.header.newOffset == h.header.newOffset + |Side(plain[h.start..g.start], '+')|
  }

  /** Hunks that overlap, with a line of the new file in the first before the second. */
  ghost predicate Joins(plain: seq<PatchLine>, h: Hunk, g: Hunk) {
    Overlap(plain, h, g) && |Side(plain[h.start..g.start], '+')| > 0
  }

  /** A hunk that begins with context joins any that overlaps it. */
  lemma ContextJoins(plain: seq<PatchLine>, h: Hunk, g: Hunk)
    requires Overlap(plain, h, g) && plain[h.start].IsContext()
    ensures Joins(plain, h, g)
  {
    hide AllContext;
    var part := plain[h.start..g.start];
    assert part[0] == plain[h.start];
    assert Leading(part) > 0;
    hide Side;
    SideAtLeast(part, '+');
  }

  /** There are lines in between that are in neither. */
  ghost predicate Apart(h: Hunk, g: Hunk) {
    && h.end <= g.start && h.header.oldOffset + h.header.oldCount < g.header.oldOffset
    && g.header.newOffset - g.header.oldOffset == h.header.newOffset - h.header.oldOffset + h.Grows()
  }

  ghost predicate Linked(plain: seq<PatchLine>, h: Hunk, g: Hunk) {
    Overlap(plain, h, g) || Apart(h, g)
  }

  lemma OldLines(a: seq<string>, plain: seq<PatchLine>, h: Hunk)
    requires HunkOk(a, plain, h)
    ensures var s := h.header.oldOffset - 1;
            && h.start < h.end <= |plain| && 0 <= s && s + h.header.oldCount <= |a|
            && a[s..s + h.header.oldCount] == Side(plain[h.start..h.end], '-')
  {
  }

  lemma ChangeOf(a: seq<string>, plain: seq<PatchLine>, h: Hunk) returns (i: nat)
    requires HunkOk(a, plain, h)
    ensures h.start <= i < h.end <= |plain| && !plain[i].IsContext()
  {
    hide Side;
    hide Runs;
    hide WellFormed;
    var body := plain[h.start..h.end];
    var k :| 0 <= k < |body| && !body[k].IsContext();
    i := h.start + k;
  }

  datatype Diff = Diff(a: seq<string>, plain: seq<PatchLine>, hunks: seq<Hunk>) {

    ghost predicate LinkedAt(i: nat) {
      i + 1 < |hunks| ==> Linked(plain, hunks[i], hunks[i + 1])
    }

    ghost predicate Consistent() {
      && (forall i :: 0 <= i < |hunks| ==> HunkOk(a, plain, hunks[i]))
      && (forall i :: 0 <= i < |hunks| ==> LinkedAt(i))
      && (hunks != [] ==> hunks[0].header.newOffset == hunks[0].header.oldOffset)
    }

    /** Where the lines of hunk i that no later hunk shares end. */
    ghost function OwnEnd(i: nat): nat
      requires i < |hunks|
    {
      if i + 1 < |hunks| && hunks[i + 1].start < hunks[i].end then hunks[i + 1].start else hunks[i].end
    }

    /** One side of the lines that are hunk i's own */
    ghost function Own(i: nat, side: char): seq<string>
      requires Consistent() && i < |hunks|
    {
      OwnOk(i);
      Side(plain[hunks[i].start..OwnEnd(i)], side)
    }

    lemma OwnOk(i: nat)
      requires Consistent() && i < |hunks|
      ensures hunks[i].start < OwnEnd(i) <= hunks[i].end <= |plain|
      ensures AllContext(plain[OwnEnd(i)..hunks[i].end])
    {
      hide Side;
      assert HunkOk(a, plain, hunks[i]) && LinkedAt(i);
    }

    lemma OwnSides(i: nat)
      requires Consistent() && i < |hunks|
      ensures |Own(i, '+')| - |Own(i, '-')| == hunks[i].Grows()
      ensures |Own(i, '-')| == hunks[i].header.oldCount - (hunks[i].end - OwnEnd(i))
    {
      hide AllContext;
      OwnOk(i);
      var h := hunks[i];
      assert HunkOk(a, plain, h);
      hide HunkOk;
      hide Side;
      SideSplit(plain, h.start, OwnEnd(i), h.end, '-');
      SideSplit(plain, h.start, OwnEnd(i), h.end, '+');
      ContextSides(plain[OwnEnd(i)..h.end], '-', '+');
    }

    /** How far into the file hunks before the i-th reach with lines of their own. */
    ghost function Reached(i: nat): nat
      requires Consistent() && i <= |hunks|
    {
      if i == 0 then 0
      else
        assert HunkOk(a, plain, hunks[i - 1]);
        hunks[i - 1].header.oldOffset - 1 + |Own(i - 1, '-')|
    }

    ghost function First(i: nat): nat
      requires Consistent() && i < |hunks|
    {
      assert HunkOk(a, plain, hunks[i]);
      hunks[i].header.oldOffset - 1
    }

    lemma ReachedOk(i: nat)
      requires Consistent() && i <= |hunks|
      ensures Reached(i) <= |a|
      ensures i < |hunks| ==> Reached(i) <= First(i) <= |a|
      ensures i < |hunks| && i > 0 && Overlap(plain, hunks[i - 1], hunks[i]) ==>
                First(i) == Reached(i) && OwnEnd(i - 1) == hunks[i].start
      ensures i > 0 && (i == |hunks| || Apart(hunks[i - 1], hunks[i])) ==> OwnEnd(i - 1) == hunks[i - 1].end
    {
      hide AllContext;
      hide WellFormed;
      hide HasChange;
      hide Runs;
      hide Side;
      if i < |hunks| {
        assert HunkOk(a, plain, hunks[i]);
      }
      if i > 0 {
        assert HunkOk(a, plain, hunks[i - 1]);
        OwnSides(i - 1);
        assert LinkedAt(i - 1);
      }
    }

    /** The file from hunk i on, with the changes of the hunks picked */
    ghost function Out(i: nat, pick: seq<bool>): seq<string>
      requires Consistent() && i <= |hunks| == |pick|
      decreases |hunks| - i
    {
      if i == |hunks| then GapLines(i) else GapLines(i) + (Own(i, if pick[i] then '+' else '-') + Out(i + 1, pick))
    }

    /** The lines of the file before hunk i that are no hunk's */
    ghost function GapLines(i: nat): seq<string>
      requires Consistent() && i <= |hunks|
    {
      ReachedOk(i);
      if i == |hunks| then a[Reached(i)..] else a[Reached(i)..First(i)]
    }

    /** The file with the changes of the hunks picked and no others */
    ghost function Result(pick: seq<bool>): seq<string>
      requires Consistent() && |hunks| == |pick|
    {
      Out(0, pick)
    }

    /** Where in the result what comes of hunk i on begins. */
    ghost function From(i: nat, pick: seq<bool>): nat
      requires Consistent() && i <= |hunks| == |pick|
    {
      if i == 0 then 0 else From(i - 1, pick) + Gap(i - 1) + |Own(i - 1, if pick[i - 1] then '+' else '-')|
    }

    ghost function Gap(i: nat): nat
      requires Consistent() && i < |hunks|
    {
      ReachedOk(i);
      First(i) - Reached(i)
    }

    lemma {:induction false} ResultFrom(i: nat, pick: seq<bool>)
      requires Consistent() && i <= |hunks| == |pick|
      ensures From(i, pick) <= |Result(pick)| && Result(pick)[From(i, pick)..] == Out(i, pick)
      decreases i
    {
      hide Consistent;
      hide Own;
      hide GapLines;
      hide Gap;
      if i > 0 {
        ResultFrom(i - 1, pick);
        GapLength(i - 1);
        var own, r, f := Own(i - 1, if pick[i - 1] then '+' else '-'), Result(pick), From(i - 1, pick);
        hide Result;
        SkipPart(r, f, GapLines(i - 1), own + Out(i, pick));
        SkipPart(r, f + Gap(i - 1), own, Out(i, pick));
      }
    }

    lemma GapLength(i: nat)
      requires Consistent() && i < |hunks|
      ensures |GapLines(i)| == Gap(i)
    {
      hide Consistent;
      ReachedOk(i);
    }

    /** Without any change picked the result is the file itself. */
    lemma {:induction false} OutNone(i: nat, pick: seq<bool>)
      requires Consistent() && i <= |hunks| == |pick| && forall k :: 0 <= k < |pick| ==> !pick[k]
      ensures Reached(i) <= |a| && Out(i, pick) == a[Reached(i)..]
      decreases |hunks| - i
    {
      hide Consistent;
      hide Reached;
      hide Own;
      ReachedOk(i);
      if i < |hunks| {
        OutNone(i + 1, pick);
        GapAndOwn(i);
      }
    }

    lemma GapAndOwn(i: nat)
      requires Consistent() && i < |hunks|
      ensures Reached(i) <= |a| && Reached(i + 1) <= |a|
      ensures a[Reached(i)..] == GapLines(i) + (Own(i, '-') + a[Reached(i + 1)..])
    {
      hide Consistent;
      hide Reached;
      hide Own;
      hide First;
      ReachedOk(i);
      ReachedOk(i + 1);
      OwnAt(i);
      ThreeParts(a, Reached(i), First(i), Reached(i + 1));
    }

    /** A hunk's own old lines are in the file where it says. */
    lemma OwnAt(i: nat)
      requires Consistent() && i < |hunks|
      ensures First(i) + |Own(i, '-')| <= |a| && a[First(i)..First(i) + |Own(i, '-')|] == Own(i, '-')
      ensures Reached(i + 1) == First(i) + |Own(i, '-')|
    {
      hide HunkOk;
      hide Side;
      hide AllContext;
      OwnOk(i);
      var h := hunks[i];
      OldLines(a, plain, h);
      SideSplit(plain, h.start, OwnEnd(i), h.end, '-');
      var s, n := First(i), |Own(i, '-')|;
      assert a[s..s + n] == a[s..s + h.header.oldCount][..n];
    }

    // ---------- Hunks that overlap ----------

    /** Hunks i to j join each the next. */
    ghost predicate Chained(i: nat, j: nat)
      decreases j - i
    {
      i <= j < |hunks| && (i < j ==> Joins(plain, hunks[i], hunks[i + 1]) && Chained(i + 1, j))
    }

    /** The context a hunk shares with the next ends before the changes of the next do. */
    lemma SharedEnds(j: nat)
      requires Consistent() && j + 1 < |hunks| && Overlap(plain, hunks[j], hunks[j + 1])
      ensures hunks[j].end <= OwnEnd(j + 1)
    {
      hide Side;
      hide HunkOk;
      hide AllContext;
      var h, g := hunks[j], hunks[j + 1];
      var i := ChangeOf(a, plain, g);
      ContextRange(plain, g.start, h.end, i);
      OwnOk(j + 1);
      ContextRange(plain, OwnEnd(j + 1), g.end, i);
    }

    /** What a hunk shares with the next is in the result right after its own lines, whatever is picked. */
    lemma SharedAt(j: nat, pick: seq<bool>, side: char)
      requires Consistent() && j < |hunks| == |pick|
      ensures OwnEnd(j) <= hunks[j].end <= |plain|
      ensures Side(plain[OwnEnd(j)..hunks[j].end], side) <= Out(j + 1, pick)
      ensures |Side(plain[OwnEnd(j)..hunks[j].end], side)| == hunks[j].end - OwnEnd(j)
    {
      hide AllContext;
      hide HunkOk;
      hide Side;
      OwnOk(j);
      ContextSides(plain[OwnEnd(j)..hunks[j].end], side, side);
      if OwnEnd(j) < hunks[j].end {
        assert LinkedAt(j);
        ReachedOk(j + 1);
        SharedEnds(j);
        OwnOk(j + 1);
        var x := if pick[j + 1] then '+' else '-';
        SideSplit(plain, OwnEnd(j), hunks[j].end, OwnEnd(j + 1), x);
        ContextSides(plain[OwnEnd(j)..hunks[j].end], side, x);
        assert Out(j + 1, pick) == [] + (Own(j + 1, x) + Out(j + 2, pick));
      }
    }

    /** The lines of hunks that overlap are in the result where those of the first are. */
    lemma {:induction false} GroupAt(i: nat, j: nat, pick: seq<bool>, side: char)
      requires Consistent() && |hunks| == |pick| && Chained(i, j)
      requires forall k :: i <= k <= j ==> side == if pick[k] then '+' else '-'
      ensures hunks[i].start < hunks[j].end <= |plain|
      ensures var group := Side(plain[hunks[i].start..hunks[j].end], side);
              && group <= Own(i, side) + Out(i + 1, pick)
              && |group| == From(j + 1, pick) - From(i, pick) - Gap(i) + hunks[j].end - OwnEnd(j)
      decreases j - i
    {
      hide Consistent;
      hide Side;
      hide Overlap;
      hide Out;
      hide Reached;
      hide First;
      if i == j {
        OwnThenShared(j, pick, side);
      } else {
        GroupAt(i + 1, j, pick, side);
        OwnThenNext(i, pick, side);
        SideSplit(plain, hunks[i].start, hunks[i + 1].start, hunks[j].end, side);
      }
    }

    lemma OwnThenShared(j: nat, pick: seq<bool>, side: char)
      requires Consistent() && j < |hunks| == |pick|
      ensures hunks[j].start < hunks[j].end <= |plain|
      ensures var mine := Side(plain[hunks[j].start..hunks[j].end], side);
              mine <= Own(j, side) + Out(j + 1, pick) && |mine| == |Own(j, side)| + hunks[j].end - OwnEnd(j)
    {
      hide Consistent;
      hide Side;
      hide Out;
      OwnOk(j);
      SharedAt(j, pick, side);
      SideSplit(plain, hunks[j].start, OwnEnd(j), hunks[j].end, side);
    }

    lemma OwnThenNext(i: nat, pick: seq<bool>, side: char)
      requires Consistent() && i + 1 < |hunks| == |pick| && Overlap(plain, hunks[i], hunks[i + 1])
      ensures hunks[i].start < hunks[i + 1].start <= |plain|
              && Own(i, side) == Side(plain[hunks[i].start..hunks[i + 1].start], side)
      ensures Gap(i + 1) == 0 && Out(i + 1, pick) == Own(i + 1, if pick[i + 1] then '+' else '-') + Out(i + 2, pick)
    {
      hide Consistent;
      hide Side;
      hide Reached;
      OwnOk(i);
      ReachedOk(i + 1);
      assert GapLines(i + 1) == [];
    }

    // ---------- The patch of a selection ----------

    /** What the hunks picked before the i-th add to the number of lines */
    ghost function Shift(i: nat, pick: seq<bool>): int
      requires i <= |hunks| == |pick|
    {
      if i == 0 then 0 else Shift(i - 1, pick) + if pick[i - 1] then hunks[i - 1].Grows() else 0
    }

    lemma {:induction false} FromIsShifted(i: nat, pick: seq<bool>)
      requires Consistent() && i <= |hunks| == |pick|
      ensures From(i, pick) == Reached(i) + Shift(i, pick)
    {
      hide Consistent;
      hide Own;
      if i > 0 {
        FromIsShifted(i - 1, pick);
        OwnSides(i - 1);
      }
    }

    /** The headers of a diff say where the new lines are when every hunk is applied. */
    lemma {:induction false} OffsetsAgree(i: nat, all: seq<bool>)
      requires Consistent() && i < |hunks| == |all| && forall k :: 0 <= k < |all| ==> all[k]
      ensures hunks[i].header.newOffset - hunks[i].header.oldOffset == Shift(i, all)
    {
      hide Side;
      hide AllContext;
      hide HunkOk;
      if i > 0 {
        OffsetsAgree(i - 1, all);
        assert LinkedAt(i - 1);
        OwnSides(i - 1);
        ReachedOk(i);
      }
    }

    lemma PosAt(i: nat, pick: seq<bool>)
      requires Consistent() && i < |hunks| == |pick|
      ensures From(i, pick) + Gap(i) <= |Result(pick)|
      ensures Result(pick)[From(i, pick) + Gap(i)..] == Own(i, if pick[i] then '+' else '-') + Out(i + 1, pick)
    {
      hide Consistent;
      hide Own;
      hide From;
      hide Result;
      hide GapLines;
      hide Gap;
      ResultFrom(i, pick);
      GapLength(i);
      SkipPart(Result(pick), From(i, pick), GapLines(i), Own(i, if pick[i] then '+' else '-') + Out(i + 1, pick));
    }

    /** The lines of hunks that overlap are in the result at the place the first starts at. */
    lemma GroupInResult(i: nat, j: nat, pick: seq<bool>, side: char)
      requires Consistent() && |hunks| == |pick| && Chained(i, j)
      requires forall k :: i <= k <= j ==> side == if pick[k] then '+' else '-'
      ensures hunks[i].start < hunks[j].end <= |plain|
      ensures var group := Side(plain[hunks[i].start..hunks[j].end], side);
              var pos := From(i, pick) + Gap(i);
              && OwnEnd(j) <= hunks[j].end && pos + |group| ==
                From(j + 1, pick) + hunks[j].end - OwnEnd(j) <= |Result(pick)|
              && Result(pick)[pos..pos + |group|] == group
    {
      hide Consistent;
      hide Own;
      hide Out;
      hide From;
      hide Gap;
      hide Chained;
      hide Result;
      hide Side;
      ChainedOrder(i, j);
      GroupAt(i, j, pick, side);
      PosAt(i, pick);
      OwnOk(j);
      var r, pos, group := Result(pick), From(i, pick) + Gap(i), Side(plain[hunks[i].start..hunks[j].end], side);
      assert r[pos..pos + |group|] == r[pos..][..|group|];
    }

    lemma ChainedOrder(i: nat, j: nat)
      requires Chained(i, j)
      ensures i <= j < |hunks|
    {
    }

    /** The lines of hunks that overlap are the lines of a hunk. */
    lemma {:induction false} GroupBody(i: nat, j: nat)
      requires Consistent() && Chained(i, j)
      ensures hunks[i].start < hunks[j].end <= |plain| && hunks[i].end <= hunks[j].end
      ensures WellFormed(plain[hunks[i].start..hunks[j].end]) && HasChange(plain[hunks[i].start..hunks[j].end])
      decreases j - i
    {
      hide Side;
      hide AllContext;
      hide Runs;
      hide WellFormed;
      hide HasChange;
      assert HunkOk(a, plain, hunks[i]);
      if i < j {
        GroupBody(i + 1, j);
        JoinBodies(plain, hunks[i].start, hunks[i + 1].start, hunks[i].end, hunks[j].end);
      }
    }

    /** The old and the new file differ in exactly the hunks taken. */
    ghost predicate Between(p: seq<bool>, q: seq<bool>) {
      && |p| == |q| == |hunks|
      && forall i :: 0 <= i < |hunks| ==> if hunks[i].use == Take then !p[i] && q[i] else p[i] == q[i]
    }

    /** The hunk written for hunks i to j merged. */
    ghost function Merged(i: nat, j: nat, oldpos: nat, newpos: nat): Fragment
      requires i <= j < |hunks| && hunks[i].start <= hunks[j].end <= |plain|
    {
      var body := plain[hunks[i].start..hunks[j].end];
      AsFragment(Header(oldpos, |Side(body, '-')|, newpos, |Side(body, '+')|), body)
    }

    /** It is a hunk from the one file to the other. */
    lemma MergedIsHunk(i: nat, j: nat, p: seq<bool>, q: seq<bool>, o: Options, last: bool)
      requires Consistent() && Between(p, q) && Chained(i, j) && forall k :: i <= k <= j ==> hunks[k].use == Take
      requires !o.reverse && !o.noAdd && (j + 1 == |hunks| ==> last)
      ensures hunks[i].start < hunks[j].end <= |plain| && i <= j
      ensures var f := Merged(i, j, From(i, p) + Gap(i) + 1, From(i, q) + Gap(i) + 1);
              && IsHunk(Result(p), Result(q), f, o, i == 0, last) && f.oldlines > 0 && f.newlines > 0
              && From(i, p) + Gap(i) + f.oldlines == From(j + 1, p) + hunks[j].end - OwnEnd(j)
              && From(i, q) + Gap(i) + f.newlines == From(j + 1, q) + hunks[j].end - OwnEnd(j)
    {
      hide Consistent;
      hide Own;
      hide From;
      hide Gap;
      hide Result;
      hide Side;
      hide WellFormed;
      hide HasChange;
      hide OwnEnd;
      GroupBody(i, j);
      GroupInResult(i, j, p, '-');
      GroupInResult(i, j, q, '+');
      ChainedOrder(i, j);
      hide Chained;
      GroupContext(i, j, p);
      GroupSize(i, j);
      var body := plain[hunks[i].start..hunks[j].end];
      SideAtLeast(body, '-');
      SideAtLeast(body, '+');
      hide Leading;
      hide Trailing;
    }

    /** Hunks that overlap begin with context except at the beginning of the file, and end with it except at its end. */
    lemma GroupContext(i: nat, j: nat, p: seq<bool>)
      requires Consistent() && i <= j < |hunks| == |p| && hunks[i].start < hunks[j].end <= |plain|
      ensures Leading(plain[hunks[i].start..hunks[j].end]) > 0 || (i == 0 && From(i, p) + Gap(i) == 0)
      ensures
        || Trailing(plain[hunks[i].start..hunks[j].end]) > 0
        || (j + 1 == |hunks| && OwnEnd(j) == hunks[j].end && From(j + 1, p) == |Result(p)|)
    {
      hide Result;
      hide OwnEnd;
      hide Side;
      hide Runs;
      hide WellFormed;
      hide HasChange;
      var body := plain[hunks[i].start..hunks[j].end];
      assert HunkOk(a, plain, hunks[i]);
      assert body[0] == plain[hunks[i].start] && body[|body| - 1] == plain[hunks[j].end - 1];
      if i > 0 {
        LaterContext(i);
      }
      if !body[|body| - 1].IsContext() {
        NothingAfter(j, p);
      }
    }

    /** They have lines on both sides. */
    lemma GroupSize(i: nat, j: nat)
      requires Consistent() && i <= j < |hunks| && hunks[i].start < hunks[i].end <= hunks[j].end <= |plain|
      ensures |Side(plain[hunks[i].start..hunks[j].end], '-')| > 0
              && |Side(plain[hunks[i].start..hunks[j].end], '+')| > 0
    {
      hide Runs;
      hide WellFormed;
      hide HasChange;
      hide IsText;
      var h, body := hunks[i], plain[hunks[i].start..hunks[i].end];
      assert HunkOk(a, plain, h);
      if plain[h.start].IsContext() {
        assert body[0] == plain[h.start] && Leading(body) > 0;
      }
      hide Side;
      SideAtLeast(body, '-');
      SideAtLeast(body, '+');
      SideSplit(plain, h.start, h.end, hunks[j].end, '-');
      SideSplit(plain, h.start, h.end, hunks[j].end, '+');
    }

    /** A hunk that does not end with context is the last, and ends where the file does. */
    lemma NothingAfter(j: nat, p: seq<bool>)
      requires Consistent() && j < |hunks| == |p| && !plain[hunks[j].end - 1].IsContext()
      ensures j + 1 == |hunks| && OwnEnd(j) == hunks[j].end && From(j + 1, p) == |Result(p)|
    {
      hide Own;
      hide From;
      hide Result;
      hide Side;
      hide Runs;
      assert HunkOk(a, plain, hunks[j]) && LinkedAt(j);
      if j + 1 < |hunks| {
        assert HunkOk(a, plain, hunks[j + 1]);
        if Overlap(plain, hunks[j], hunks[j + 1]) {
          ContextRange(plain, hunks[j + 1].start, hunks[j].end, hunks[j].end - 1);
        }
        assert false;
      }
      OwnSides(j);
      ResultFrom(j + 1, p);
    }

    // ---------- What is written for a selection ----------

    ghost function Picks(f: Hunk -> bool): (p: seq<bool>)
      ensures |p| == |hunks| && forall i :: 0 <= i < |hunks| ==> p[i] == f(hunks[i])
    {
      seq(|hunks|, i requires 0 <= i < |hunks| => f(hunks[i]))
    }

    /** The hunks whose changes the file has to which the patch applies. */
    ghost function OldPick(reverse: bool): (p: seq<bool>)
      ensures |p| == |hunks|
    {
      if reverse then Picks((h: Hunk) => h.use != Take) else Picks(_ => false)
    }

    /** The hunks whose changes the file has that the patch makes. */
    ghost function NewPick(reverse: bool): (p: seq<bool>)
      ensures |p| == |hunks|
    {
      if reverse then Picks(_ => true) else Picks((h: Hunk) => h.use == Take)
    }

    lemma PicksBetween(reverse: bool)
      ensures Between(OldPick(reverse), NewPick(reverse))
    {
    }

    /** The running delta of reassemble_patch when it gets to hunk i */
    ghost function Delta(i: nat): int
      requires i <= |hunks|
    {
      if i == 0 then 0 else Delta(i - 1) - if hunks[i - 1].use == Take then 0 else hunks[i - 1].Grows()
    }

    /** The offsets that render_hunk writes for hunk i */
    ghost function Offsets(i: nat, reverse: bool): (int, int)
      requires i < |hunks|
    {
      var h := hunks[i].header;
      (if reverse then h.oldOffset - Delta(i) else h.oldOffset, if reverse then h.newOffset else h.newOffset + Delta(i))
    }

    lemma {:induction false} ShiftsAdd(i: nat, reverse: bool)
      requires i <= |hunks|
      ensures Shift(i, OldPick(reverse)) == (if reverse then -Delta(i) else 0)
      ensures Shift(i, NewPick(reverse)) == Shift(i, NewPick(true)) + (if reverse then 0 else Delta(i))
    {
      if i > 0 {
        ShiftsAdd(i - 1, reverse);
      }
    }

    /**
     The offsets written are where the lines are: what the hunks written before it add is
     the difference of the two, whichever file the patch is for.
     */
    lemma OffsetsAreRight(i: nat, reverse: bool)
      requires Consistent() && i < |hunks|
      ensures Offsets(i, reverse).0 == From(i, OldPick(reverse)) + Gap(i) + 1
      ensures Offsets(i, reverse).1 == From(i, NewPick(reverse)) + Gap(i) + 1
      ensures Offsets(i, reverse).1 - Offsets(i, reverse).0 == Shift(i, Picks((h: Hunk) => h.use == Take))
    {
      hide Consistent;
      hide From;
      hide Shift;
      hide Delta;
      ReachedOk(i);
      FromIsShifted(i, OldPick(reverse));
      FromIsShifted(i, NewPick(reverse));
      OffsetsAgree(i, NewPick(true));
      ShiftsAdd(i, reverse);
      ShiftsAdd(i, false);
    }

    /** The last of the hunks that are merged with hunk i */
    ghost function GroupEnd(i: nat): (j: nat)
      requires i < |hunks|
      ensures i <= j < |hunks| && Chained(i, j) && forall k :: i < k <= j ==> hunks[k].use == Take
      ensures j + 1 < |hunks| && hunks[j + 1].use == Take ==> !Joins(plain, hunks[j], hunks[j + 1])
      decreases |hunks| - i
    {
      if i + 1 < |hunks| && hunks[i + 1].use == Take && Joins(plain, hunks[i], hunks[i + 1]) then GroupEnd(i + 1) else i
    }

    /** Hunks taken that overlap join. */
    ghost predicate Mergeable() {
      forall i :: 0 <= i < |hunks| - 1 ==> MergeableAt(i)
    }

    ghost predicate MergeableAt(i: nat)
      requires i + 1 < |hunks|
    {
      hunks[i].use == Take && hunks[i + 1].use == Take && Overlap(plain, hunks[i], hunks[i + 1]) ==>
        Joins(plain, hunks[i], hunks[i + 1])
    }

    /** Only the first hunk may begin without context. */
    lemma LaterContext(i: nat)
      requires Consistent() && 0 < i < |hunks|
      ensures plain[hunks[i].start].IsContext()
    {
      hide Side;
      hide Runs;
      hide WellFormed;
      hide HasChange;
      assert LinkedAt(i - 1) && HunkOk(a, plain, hunks[i]) && HunkOk(a, plain, hunks[i - 1]);
      if Overlap(plain, hunks[i - 1], hunks[i]) {
        ContextRange(plain, hunks[i].start, hunks[i - 1].end, hunks[i].start);
      }
    }

    /** So only the first two hunks can fail to. */
    lemma MergeableIs()
      requires Consistent()
      ensures Mergeable() <==> (|hunks| >= 2 ==> MergeableAt(0))
    {
      hide HunkOk;
      hide Overlap;
      hide Joins;
      forall i | 0 < i < |hunks| - 1 ensures MergeableAt(i) {
        LaterContext(i);
        if Overlap(plain, hunks[i], hunks[i + 1]) {
          ContextJoins(plain, hunks[i], hunks[i + 1]);
        }
      }
    }

    /** The hunk that is written for hunk i and those merged with it */
    ghost function Piece(i: nat, reverse: bool): Fragment
      requires Consistent() && i < |hunks|
    {
      GroupBody(i, GroupEnd(i));
      OffsetsAreRight(i, reverse);
      Merged(i, GroupEnd(i), Offsets(i, reverse).0, Offsets(i, reverse).1)
    }

    /** What is written for hunk i and those after it */
    ghost function Emitted(i: nat, reverse: bool): seq<Fragment>
      requires Consistent() && i <= |hunks|
      decreases |hunks| - i
    {
      if i == |hunks| then []
      else if hunks[i].use != Take then Emitted(i + 1, reverse)
      else [Piece(i, reverse)] + Emitted(GroupEnd(i) + 1, reverse)
    }

    lemma FromGrows(i: nat, pick: seq<bool>)
      requires Consistent() && i < |hunks| == |pick|
      ensures From(i, pick) <= From(i + 1, pick)
    {
      hide Consistent;
      hide Gap;
      hide Own;
    }

    /** A hunk that is not taken, and what is before it, is the same in both files. */
    lemma SameUntaken(i: nat, p: seq<bool>, q: seq<bool>, skip: nat)
      requires Consistent() && Between(p, q) && i < |hunks| && hunks[i].use != Take
      requires skip <= From(i + 1, p) - From(i, p)
      ensures From(i, p) <= From(i + 1, p) <= |Result(p)| && From(i, q) <= From(i + 1, q) <= |Result(q)|
      ensures Result(p)[From(i, p) + skip..From(i + 1, p)] == Result(q)[From(i, q) + skip..From(i + 1, q)]
    {
      hide Consistent;
      hide Own;
      hide Result;
      hide GapLines;
      hide Gap;
      ResultFrom(i, p);
      ResultFrom(i, q);
      ResultFrom(i + 1, p);
      ResultFrom(i + 1, q);
      GapLength(i);
      var own := GapLines(i) + Own(i, if p[i] then '+' else '-');
      TakePart(Result(p), From(i, p), own, Out(i + 1, p), skip);
      TakePart(Result(q), From(i, q), own, Out(i + 1, q), skip);
    }

    lemma SharedWithin(j: nat, pick: seq<bool>)
      requires Consistent() && j + 1 < |hunks| == |pick| && OwnEnd(j) < hunks[j].end
      ensures Overlap(plain, hunks[j], hunks[j + 1])
      ensures hunks[j].end - OwnEnd(j) <= From(j + 2, pick) - From(j + 1, pick)
    {
      hide AllContext;
      hide HunkOk;
      hide Side;
      hide Gap;
      assert LinkedAt(j);
      OwnOk(j);
      OwnOk(j + 1);
      SharedEnds(j);
      ReachedOk(j + 1);
      var x := if pick[j + 1] then '+' else '-';
      SideSplit(plain, OwnEnd(j), hunks[j].end, OwnEnd(j + 1), x);
      ContextSides(plain[OwnEnd(j)..hunks[j].end], x, x);
      assert |Own(j + 1, x)| >= hunks[j].end - OwnEnd(j);
    }

    lemma GapSame(i: nat, p: seq<bool>, q: seq<bool>)
      requires Consistent() && |p| == |q| == |hunks| && i < |hunks|
      ensures From(i, p) + Gap(i) <= |Result(p)| && From(i, q) + Gap(i) <= |Result(q)|
      ensures Result(p)[From(i, p)..From(i, p) + Gap(i)] == Result(q)[From(i, q)..From(i, q) + Gap(i)]
    {
      hide Consistent;
      hide Own;
      hide Result;
      hide GapLines;
      hide Gap;
      hide From;
      ResultFrom(i, p);
      ResultFrom(i, q);
      GapLength(i);
      TakePart(Result(p), From(i, p), GapLines(i), Own(i, if p[i] then '+' else '-') + Out(i + 1, p), 0);
      TakePart(Result(q), From(i, q), GapLines(i), Own(i, if q[i] then '+' else '-') + Out(i + 1, q), 0);
    }

    /** What is written for hunk i on takes the one file from there on to the other. */
    lemma {:induction false} EmittedIsDiff(i: nat, reverse: bool, o: Options)
      requires Consistent() && Mergeable() && i <= |hunks| && !o.reverse && !o.noAdd
      ensures var p, q := OldPick(reverse), NewPick(reverse);
              IsDiff(Result(p), Result(q), From(i, p), From(i, q), Emitted(i, reverse), o, i == 0)
      decreases |hunks| - i, 1
    {
      hide Consistent;
      hide Mergeable;
      hide Own;
      hide Result;
      hide From;
      hide IsHunk;
      hide OldPick;
      hide NewPick;
      hide Piece;
      PicksBetween(reverse);
      var p, q := OldPick(reverse), NewPick(reverse);
      if i == |hunks| {
        ResultFrom(i, p);
        ResultFrom(i, q);
      } else if hunks[i].use != Take {
        EmittedIsDiff(i + 1, reverse, o);
        FromGrows(i, p);
        SameUntaken(i, p, q, 0);
        DiffWiden(Result(p), Result(q), From(i, p), From(i, q), From(i + 1, p), From(i + 1, q), Emitted(i, reverse), o,
                  false);
        DiffFirst(Result(p), Result(q), From(i, p), From(i, q), Emitted(i, reverse), o);
      } else {
        GroupIsDiff(i, reverse, o);
      }
    }

    lemma GroupIsDiff(i: nat, reverse: bool, o: Options)
      requires Consistent() && Mergeable() && i < |hunks| && hunks[i].use == Take && !o.reverse && !o.noAdd
      ensures var p, q := OldPick(reverse), NewPick(reverse);
              IsDiff(Result(p), Result(q), From(i, p), From(i, q), Emitted(i, reverse), o, i == 0)
      decreases |hunks| - i, 0
    {
      hide Consistent;
      hide Mergeable;
      hide Own;
      hide Result;
      hide From;
      hide Gap;
      hide IsHunk;
      hide OldPick;
      hide NewPick;
      hide Between;
      hide Chained;
      hide OwnEnd;
      hide Offsets;
      hide Side;
      hide Piece;
      hide Merged;
      hide IsDiff;
      hide HunkOk;
      hide Overlap;
      hide GroupEnd;
      hide Joins;
      hide Emitted;
      hide Leading;
      hide Trailing;
      PicksBetween(reverse);
      var p, q, j := OldPick(reverse), NewPick(reverse), GroupEnd(i);
      var rest := Emitted(j + 1, reverse);
      EmittedTaken(i, reverse);
      NotJoined(j);
      GroupRest(j, reverse, o);
      MergedIsHunk(i, j, p, q, o, |rest| == 0);
      PieceIsMerged(i, reverse);
      GapSame(i, p, q);
      DiffCons(Result(p), Result(q), From(i, p), From(i, q), Piece(i, reverse), rest, o, i == 0);
    }

    lemma EmittedTaken(i: nat, reverse: bool)
      requires Consistent() && i < |hunks| && hunks[i].use == Take
      ensures Emitted(i, reverse) == [Piece(i, reverse)] + Emitted(GroupEnd(i) + 1, reverse)
      ensures GroupEnd(i) + 1 == |hunks| ==> Emitted(GroupEnd(i) + 1, reverse) == []
    {
      hide Consistent;
      hide Piece;
      hide GroupEnd;
    }

    lemma NotJoined(j: nat)
      requires Mergeable() && j < |hunks| && hunks[j].use == Take
      requires j + 1 < |hunks| && hunks[j + 1].use == Take ==> !Joins(plain, hunks[j], hunks[j + 1])
      ensures j + 1 < |hunks| && hunks[j + 1].use == Take ==> !Overlap(plain, hunks[j], hunks[j + 1])
    {
      hide Overlap;
      hide Joins;
      assert j + 1 < |hunks| ==> MergeableAt(j);
    }

    lemma PieceIsMerged(i: nat, reverse: bool)
      requires Consistent() && i < |hunks|
      ensures var p, q, f := OldPick(reverse), NewPick(reverse), Piece(i, reverse);
              && hunks[i].start < hunks[GroupEnd(i)].end <= |plain|
              && f == Merged(i, GroupEnd(i), From(i, p) + Gap(i) + 1, From(i, q) + Gap(i) + 1)
              && f.oldpos == From(i, p) + Gap(i) + 1 && f.newpos == From(i, q) + Gap(i) + 1
    {
      hide Consistent;
      hide From;
      hide Gap;
      hide OldPick;
      hide NewPick;
      hide Offsets;
      hide Side;
      hide Chained;
      GroupBody(i, GroupEnd(i));
      OffsetsAreRight(i, reverse);
    }

    lemma GroupRest(j: nat, reverse: bool, o: Options)
      requires Consistent() && Mergeable() && j < |hunks| && !o.reverse && !o.noAdd
      requires j + 1 < |hunks| && hunks[j + 1].use == Take ==> !Overlap(plain, hunks[j], hunks[j + 1])
      ensures OwnEnd(j) <= hunks[j].end
      ensures var p, q, k := OldPick(reverse), NewPick(reverse), hunks[j].end - OwnEnd(j);
              IsDiff(Result(p), Result(q), From(j + 1, p) + k, From(j + 1, q) + k, Emitted(j + 1, reverse), o, false)
      decreases |hunks| - j - 1, 2
    {
      hide Consistent;
      hide Mergeable;
      hide Own;
      hide Result;
      hide From;
      hide IsHunk;
      hide OldPick;
      hide NewPick;
      hide Piece;
      hide Overlap;
      PicksBetween(reverse);
      var p, q, k := OldPick(reverse), NewPick(reverse), hunks[j].end - OwnEnd(j);
      OwnOk(j);
      if k == 0 {
        EmittedIsDiff(j + 1, reverse, o);
      } else {
        SharedWithin(j, p);
        EmittedIsDiff(j + 2, reverse, o);
        SameUntaken(j + 1, p, q, k);
        SharedWithin(j, q);
        DiffWiden(Result(p), Result(q), From(j + 1, p) + k, From(j + 1, q) + k, From(j + 2, p), From(j + 2, q),
                  Emitted(j + 1, reverse), o, false);
      }
    }

    /**
     The patch written for a selection is a diff between two files that differ in exactly the
     hunks taken: from the file without any change to the one with those taken, or in reverse
     mode from the one with those not taken to the one with all.
     */
    lemma SelectionIsDiff(reverse: bool, o: Options)
      requires Consistent() && Mergeable() && !o.reverse && !o.noAdd
      ensures IsDiff(Result(OldPick(reverse)), Result(NewPick(reverse)), 0, 0, Emitted(0, reverse), o, true)
      ensures !reverse ==> Result(OldPick(reverse)) == a
    {
      hide Consistent;
      EmittedIsDiff(0, reverse, o);
      if !reverse {
        OutNone(0, OldPick(reverse));
        assert Result(OldPick(reverse)) == a[0..];
      }
    }

    /** If hunks taken overlap and do not join, the lines they share are in both hunks written, which is no diff. */
    lemma NotMergeable(reverse: bool, o: Options)
      requires Consistent() && !Mergeable()
      ensures !IsDiff(Result(OldPick(reverse)), Result(NewPick(reverse)), 0, 0, Emitted(0, reverse), o, true)
    {
      hide Consistent;
      hide Result;
      hide From;
      hide Gap;
      hide IsDiff;
      hide Overlap;
      hide OldPick;
      hide NewPick;
      hide Side;
      hide Emitted;
      hide Piece;
      hide Chained;
      MergeableIs();
      PicksBetween(reverse);
      var p, q, j := OldPick(reverse), NewPick(reverse), GroupEnd(1);
      assert GroupEnd(0) == 0;
      EmittedTaken(0, reverse);
      EmittedTaken(1, reverse);
      PieceIsMerged(0, reverse);
      PieceIsMerged(1, reverse);
      SharedLines(p);
      GroupBody(1, j);
      OwnOk(0);
      OwnOk(1);
      GroupSize(0, 0);
      GroupSize(1, j);
      RangesOverlap(Result(p), Result(q), 0, 0, Emitted(0, reverse), o, true);
    }

    lemma SharedLines(p: seq<bool>)
      requires Consistent() && |hunks| >= 2 && |p| == |hunks| && Overlap(plain, hunks[0], hunks[1]) && !p[0]
      ensures hunks[0].start < hunks[0].end <= |plain|
      ensures From(0, p) + Gap(0) + |Side(plain[hunks[0].start..hunks[0].end], '-')| > From(1, p) + Gap(1)
    {
      hide Side;
      OwnThenShared(0, p, '-');
      ReachedOk(1);
    }
  }

  lemma RangesOverlap(a: seq<string>, b: seq<string>, na: nat, nb: nat, frags: seq<Fragment>, o: Options, first: bool)
    requires |frags| >= 2 && frags[0].oldlines > 0 && frags[1].oldlines > 0
    requires frags[0].oldpos + frags[0].oldlines > frags[1].oldpos
    ensures !IsDiff(a, b, na, nb, frags, o, first)
  {
    hide IsHunk;
    assert frags[1..][0] == frags[1];
  }

  lemma DiffCons(a: seq<string>, b: seq<string>, na: nat, nb: nat, f: Fragment, rest: seq<Fragment>, o: Options,
                 first: bool)
    requires IsHunk(a, b, f, o, first, |rest| == 0) && f.oldlines > 0 && f.newlines > 0 && f.oldpos > 0 && f.newpos > 0
    requires na <= f.oldpos - 1 <= |a| && nb <= f.newpos - 1 <= |b| && a[na..f.oldpos - 1] == b[nb..f.newpos - 1]
    requires IsDiff(a, b, f.oldpos - 1 + f.oldlines, f.newpos - 1 + f.newlines, rest, o, false)
    ensures IsDiff(a, b, na, nb, [f] + rest, o, first)
  {
    hide IsHunk;
    assert ([f] + rest)[1..] == rest;
  }

  lemma DiffFirst(a: seq<string>, b: seq<string>, na: nat, nb: nat, frags: seq<Fragment>, o: Options)
    requires IsDiff(a, b, na, nb, frags, o, false)
    ensures IsDiff(a, b, na, nb, frags, o, true)
  {
    hide Side;
  }

  lemma TakePart<T>(r: seq<T>, f: nat, s: seq<T>, t: seq<T>, skip: nat)
    requires f <= |r| && r[f..] == s + t && skip <= |s|
    ensures f + |s| <= |r| && r[f + skip..f + |s|] == s[skip..]
  {
    assert r[f + skip..f + |s|] == r[f..][skip..|s|];
  }

  /** A diff starts as well further up, where both files are the same. */
  lemma DiffWiden(a: seq<string>, b: seq<string>, na: nat, nb: nat, x: nat, y: nat, frags: seq<Fragment>, o: Options,
                  first: bool)
    requires IsDiff(a, b, x, y, frags, o, first) && na <= x && nb <= y && a[na..x] == b[nb..y]
    ensures IsDiff(a, b, na, nb, frags, o, first)
  {
    hide IsHunk;
    if frags == [] {
      assert a[na..] == a[na..x] + a[x..] && b[nb..] == b[nb..y] + b[y..];
    } else {
      var f := frags[0];
      var s, t := RangeStart(f.oldpos, f.oldlines), RangeStart(f.newpos, f.newlines);
      assert s <= |a| && t <= |b| by {
        HunkInside(a, b, f, o, first, |frags| == 1);
      }
      assert a[na..s] == a[na..x] + a[x..s] && b[nb..t] == b[nb..y] + b[y..t];
    }
  }

  lemma HunkInside(a: seq<string>, b: seq<string>, f: Fragment, o: Options, first: bool, last: bool)
    requires IsHunk(a, b, f, o, first, last)
    ensures 0 <= RangeStart(f.oldpos, f.oldlines) && RangeStart(f.oldpos, f.oldlines) + f.oldlines <= |a|
    ensures 0 <= RangeStart(f.newpos, f.newlines) && RangeStart(f.newpos, f.newlines) + f.newlines <= |b|
  {
  }

  /** A hunk as it will be read again: its context is counted when it is parsed. */
  function AsFragment(h: Header, body: seq<PatchLine>): Fragment {
    Fragment(h.oldOffset, h.oldCount, h.newOffset, h.newCount, Leading(body), Trailing(body), body, false)
  }
}
