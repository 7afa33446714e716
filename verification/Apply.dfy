/**
 Applying the hunks of a text patch to a file image, forwards and in reverse
 (apply.c). A hunk's body is a list of lines, each its first character and the rest.
 A line that the patch marks as the last of a file, without a LF, comes without it.
 */
module Apply {

  import opened Image

  // ---------- Hunks ----------

  /** rest ends with the LF of the line, if the line has one, and is empty if the LF is all there is. */
  datatype PatchLine = PatchLine(first: char, rest: string) {
    predicate IsContext() {
      first == ' ' || first == '\n'
    }

    /** The line as it is in the old file, for '-', or in the new one, for '+'. */
    function On(side: char): seq<string> {
      if first == '\n' then ["\n"] else if first == ' ' || first == side then [rest] else []
    }
  }

  predicate Known(first: char) {
    first == '\n' || first == ' ' || first == '-' || first == '+' || first == '@'
  }

  /** One side of a hunk's body */
  function Side(body: seq<PatchLine>, side: char): seq<string> {
    if body == [] then [] else Side(body[..|body| - 1], side) + body[|body| - 1].On(side)
  }

  /** The body is lines of a unified diff. */
  predicate WellFormed(body: seq<PatchLine>) {
    forall i :: 0 <= i < |body| ==> Known(body[i].first) && body[i].first != '@'
  }

  lemma {:induction false} SideConcat(a: seq<PatchLine>, b: seq<PatchLine>, side: char)
    ensures Side(a + b, side) == Side(a, side) + Side(b, side)
  {
    if b == [] {
      assert a + b == a;
    } else {
      var n := |b| - 1;
      var ab := a + b;
      assert ab[..|ab| - 1] == a + b[..n] && ab[|ab| - 1] == b[n];
      assert Side(ab, side) == Side(a + b[..n], side) + b[n].On(side);
      assert Side(b, side) == Side(b[..n], side) + b[n].On(side);
      hide Side;
      hide PatchLine.On;
      SideConcat(a, b[..n], side);
    }
  }

  lemma SideNext(body: seq<PatchLine>, i: nat, side: char)
    requires i < |body|
    ensures Side(body[..i + 1], side) == Side(body[..i], side) + body[i].On(side)
  {
    assert body[..i + 1][..i] == body[..i];
  }

  /** How many lines of context a body starts with */
  function Leading(body: seq<PatchLine>): (n: nat)
    ensures n <= |body|
  {
    if body == [] || !body[0].IsContext() then 0 else 1 + Leading(body[1..])
  }

  function Trailing(body: seq<PatchLine>): (n: nat)
    ensures n <= |body|
  {
    if body == [] || !body[|body| - 1].IsContext() then 0 else 1 + Trailing(body[..|body| - 1])
  }

  predicate HasChange(body: seq<PatchLine>) {
    exists i :: 0 <= i < |body| && !body[i].IsContext()
  }

  lemma {:induction false} LeadingInit(body: seq<PatchLine>)
    requires body != []
    ensures Leading(body) == Leading(body[..|body| - 1])
            || (!HasChange(body) && Leading(body) == |body| == Leading(body[..|body| - 1]) + 1)
  {
    if |body| > 1 && body[0].IsContext() {
      assert body[..|body| - 1][1..] == body[1..][..|body| - 2];
      LeadingInit(body[1..]);
      assert body == [body[0]] + body[1..];
    }
  }

  /** Context lines are on both sides. */
  lemma {:induction false} SideAtLeast(body: seq<PatchLine>, side: char)
    ensures |Side(body, side)| >= Leading(body) && |Side(body, side)| >= Trailing(body)
    ensures HasChange(body) ==> |Side(body, side)| >= Leading(body) + Trailing(body)
  {
    if body != [] {
      var init := body[..|body| - 1];
      SideAtLeast(init, side);
      LeadingInit(body);
      assert body == init + [body[|body| - 1]];
    }
  }

  datatype Fragment = Fragment(oldpos: nat, oldlines: nat, newpos: nat, newlines: nat, leading: nat, trailing: nat,
                               body: seq<PatchLine>, rejected: bool)

  datatype Options = Options(reverse: bool, unidiffZero: bool, allowOverlap: bool, noAdd: bool, withReject: bool,
                             context: nat)

  /** First characters of the lines a hunk removes and adds, as it is applied. */
  function Removed(o: Options): char {
    if o.reverse then '+' else '-'
  }

  function Added(o: Options): char {
    if o.noAdd then ' ' else if o.reverse then '-' else '+'
  }

  function AtBeginning(f: Fragment, o: Options): bool {
    f.oldpos == 0 || (f.oldpos == 1 && !o.unidiffZero)
  }

  function AtEnd(f: Fragment, o: Options): bool {
    !o.unidiffZero && f.trailing == 0
  }

  // ---------- Reading a hunk ----------

  datatype Option<T> = None | Some(value: T)

  /** The lines are a hunk with these numbers of lines on its two sides, and change something. */
  ghost predicate IsBody(body: seq<PatchLine>, oldlines: nat, newlines: nat) {
    WellFormed(body) && HasChange(body) && |Side(body, '-')| == oldlines && |Side(body, '+')| == newlines
  }

  /** What is known of a body after one more line */
  lemma CountsNext(before: seq<PatchLine>, l: PatchLine)
    ensures
      var after := before + [l];
      && (HasChange(after) <==> HasChange(before) || !l.IsContext())
      && Leading(after) == (if l.IsContext() && !HasChange(before) then Leading(before) + 1 else Leading(before))
      && Trailing(after) == (if l.IsContext() then Trailing(before) + 1 else 0)
      && Side(after, '-') == Side(before, '-') + l.On('-') && Side(after, '+') == Side(before, '+') + l.On('+')
  {
    var after := before + [l];
    assert after[..|after| - 1] == before && after[|after| - 1] == l;
    assert !l.IsContext() ==> HasChange(after);
    assert HasChange(after) ==> HasChange(before) || !l.IsContext();
    LeadingInit(after);
    AllLeading(before);
    AllLeading(after);
  }

  lemma {:induction false} AllLeading(body: seq<PatchLine>)
    ensures !HasChange(body) <==> Leading(body) == |body|
  {
    if body != [] {
      AllLeading(body[1..]);
      assert body == [body[0]] + body[1..];
    }
  }

  // ---------- Lines without a LF ----------

  /** In the text of a patch, the line says that the one before it has no LF. */
  predicate IsMarker(l: PatchLine) {
    l.first == '\\'
  }

  function Shortened(l: PatchLine): PatchLine {
    if l.rest == "" then l else l.(rest := l.rest[..|l.rest| - 1])
  }

  /** The lines of a patch's text, with what markers say about them. */
  function Attach(lines: seq<PatchLine>): (body: seq<PatchLine>)
    ensures lines != [] && !IsMarker(lines[|lines| - 1]) ==> body != []
  {
    if lines == [] then []
    else
      var n := |lines| - 1;
      var before := Attach(lines[..n]);
      if !IsMarker(lines[n]) then before + [lines[n]]
      else if n == 0 || IsMarker(lines[n - 1]) then before
      else before[..|before| - 1] + [Shortened(before[|before| - 1])]
  }

  /** A line of a hunk, or a marker: at least twelve characters, the second a space. */
  predicate Readable(l: PatchLine) {
    && EndsInLf(l)
    && (WellFormed([l]) || (IsMarker(l) && 1 + |l.rest| >= 12 && l.rest[0] == ' '))
  }

  predicate EndsInLf(l: PatchLine) {
    if l.rest == "" then l.first == '\n' else l.rest[|l.rest| - 1] == '\n'
  }

  /** The text of a hunk with these numbers of lines on its two sides, that changes something. */
  ghost predicate IsHunkText(lines: seq<PatchLine>, oldlines: nat, newlines: nat) {
    (forall i :: 0 <= i < |lines| ==> Readable(lines[i])) && IsBody(Attach(lines), oldlines, newlines)
  }

  ghost predicate SameKinds(a: seq<PatchLine>, b: seq<PatchLine>) {
    |a| == |b| && forall i :: 0 <= i < |a| ==> a[i].first == b[i].first
  }

  /** Only the first characters of lines are counted. */
  lemma KindsCount(a: seq<PatchLine>, b: seq<PatchLine>)
    requires SameKinds(a, b)
    ensures |Side(a, '-')| == |Side(b, '-')| && |Side(a, '+')| == |Side(b, '+')| && (HasChange(a) <==> HasChange(b))
    ensures Trailing(a) == Trailing(b) && (WellFormed(a) <==> WellFormed(b))
  {
    KindsChange(a, b);
    KindsSide(a, b, '-');
    KindsSide(a, b, '+');
    KindsTrail(a, b);
  }

  lemma {:induction false} KindsSide(a: seq<PatchLine>, b: seq<PatchLine>, side: char)
    requires SameKinds(a, b)
    ensures |Side(a, side)| == |Side(b, side)|
  {
    if a != [] {
      KindsSide(a[..|a| - 1], b[..|b| - 1], side);
    }
  }

  lemma {:induction false} KindsTrail(a: seq<PatchLine>, b: seq<PatchLine>)
    requires SameKinds(a, b)
    ensures Trailing(a) == Trailing(b)
  {
    if a != [] {
      KindsTrail(a[..|a| - 1], b[..|b| - 1]);
    }
  }

  lemma KindsChange(a: seq<PatchLine>, b: seq<PatchLine>)
    requires SameKinds(a, b)
    ensures HasChange(a) <==> HasChange(b)
  {
  }

  lemma {:induction false} KindsLead(a: seq<PatchLine>, b: seq<PatchLine>)
    requires SameKinds(a, b)
    ensures Leading(a) == Leading(b)
  {
    if a != [] {
      KindsLead(a[1..], b[1..]);
    }
  }

  /** One more line of text: a line of the hunk, or nothing that is counted */
  lemma AttachNext(lines: seq<PatchLine>, i: nat)
    requires i < |lines|
    ensures
      var before, after := Attach(lines[..i]), Attach(lines[..i + 1]);
      if IsMarker(lines[i]) then SameKinds(before, after) else after == before + [lines[i]]
  {
    assert lines[..i + 1][..i] == lines[..i];
  }

  /** Further lines are counted, unless they are all markers. */
  lemma {:induction false} AttachGrows(lines: seq<PatchLine>, i: nat, k: nat)
    requires i <= k <= |lines| && forall j :: i <= j < k ==> Readable(lines[j])
    ensures
      var before, after := Attach(lines[..i]), Attach(lines[..k]);
      || |Side(before, '-')| + |Side(before, '+')| < |Side(after, '-')| + |Side(after, '+')|
      || (|Side(before, '-')| == |Side(after, '-')| && |Side(before, '+')| == |Side(after, '+')|
          && HasChange(before) == HasChange(after))
    decreases k
  {
    if i < k {
      AttachGrows(lines, i, k - 1);
      hide Side;
      hide HasChange;
      hide Attach;
      hide Leading;
      hide Trailing;
      AttachNext(lines, k - 1);
      var before, after := Attach(lines[..k - 1]), Attach(lines[..k]);
      if IsMarker(lines[k - 1]) {
        KindsCount(before, after);
      } else {
        CountsNext(before, lines[k - 1]);
        assert WellFormed([lines[k - 1]]) && [lines[k - 1]][0] == lines[k - 1];
      }
    }
  }

  /** The first n lines are the text of a hunk, or such a text and a marker. */
  ghost predicate EndsAt(lines: seq<PatchLine>, n: nat, oldlines: nat, newlines: nat)
    requires n <= |lines|
  {
    IsHunkText(lines[..n], oldlines, newlines)
    || (n > 0 && IsMarker(lines[n - 1]) && IsHunkText(lines[..n - 1], oldlines, newlines))
  }

  function Size(lines: seq<PatchLine>): nat {
    if lines == [] then 0 else 1 + |lines[0].rest| + Size(lines[1..])
  }

  /**
   Reads the lines of one hunk, as many as its header says, and counts its context. Lines beyond the hunk may follow;
   a hunk is found if any number of the lines makes one. n is that number; a marker after the last line is among them.
   */
  method ParseFragment(header: Fragment, lines: seq<PatchLine>) returns (r: Option<Fragment>, ghost n: nat)
    ensures n <= |lines|
    ensures r.Some? ==>
      && Parsed(r.value) && r.value.body == Attach(lines[..n]) && IsBody(r.value.body, header.oldlines, header.newlines)
      && r.value == header.(body := r.value.body, leading := r.value.leading, trailing := r.value.trailing)
      && (n < |lines| && Readable(lines[n]) && IsMarker(lines[n]) && Size(lines[n..]) > 12 ==>
            n > 0 && IsMarker(lines[n - 1]))
    ensures r.None? ==> forall k :: 0 <= k <= |lines| ==> !IsHunkText(lines[..k], header.oldlines, header.newlines)
    ensures r.Some? ==> EndsAt(lines, n, header.oldlines, header.newlines)
  {
    hide Attach;
    hide Side;
    hide Leading;
    hide Trailing;
    hide HasChange;
    hide WellFormed;
    n := 0;
    var oldlines: int, newlines: int := header.oldlines, header.newlines;
    var leading, trailing, added, deleted := 0, 0, 0, 0;
    var i := 0;
    var body := [];
    Nothing(lines);
    while i < |lines| && (oldlines != 0 || newlines != 0)
      invariant i <= |lines| && body == Attach(lines[..i]) && WellFormed(body)
      invariant oldlines == header.oldlines - |Side(body, '-')| && newlines == header.newlines - |Side(body, '+')|
      invariant leading == Leading(body) && trailing == Trailing(body)
      invariant 0 <= added && 0 <= deleted && (HasChange(body) <==> added + deleted > 0)
      invariant forall k :: 0 <= k < i ==> !IsHunkText(lines[..k], header.oldlines, header.newlines)
      invariant AllReadable(lines, i)
    {
      var l := lines[i];
      var ok := IsRead(l);
      if !ok {
        BadLine(lines, i, header);
        return None, 0;
      }
      AttachNext(lines, i);
      if IsMarker(l) {
        KindsCount(body, Attach(lines[..i + 1]));
        KindsLead(body, Attach(lines[..i + 1]));
      } else {
        CountsNext(body, l);
        FormedNext(body, l);
        if l.IsContext() {
          oldlines, newlines := oldlines - 1, newlines - 1;
          if deleted == 0 && added == 0 {
            leading := leading + 1;
          }
          trailing := trailing + 1;
        } else if l.first == '-' {
          deleted, oldlines, trailing := deleted + 1, oldlines - 1, 0;
        } else {
          added, newlines, trailing := added + 1, newlines - 1, 0;
        }
      }
      i := i + 1;
      body := Attach(lines[..i]);
    }
    if oldlines != 0 || newlines != 0 {
      return None, 0;
    }
    if deleted == 0 && added == 0 {
      NoChange(lines, i, header);
      return None, 0;
    }
    if i < |lines| {
      MarkerBegins(lines[i]);
    }
    var end := i;
    if Size(lines[i..]) > 12 && IsMarker(lines[i]) && lines[i].rest != "" && lines[i].rest[0] == ' ' {
      AttachNext(lines, i);
      KindsCount(body, Attach(lines[..i + 1]));
      KindsLead(body, Attach(lines[..i + 1]));
      end := i + 1;
    }
    TextIs(lines, i, header);
    n := end;
    r := Some(header.(body := Attach(lines[..end]), leading := leading, trailing := trailing));
  }

  ghost predicate AllReadable(lines: seq<PatchLine>, n: nat)
    requires n <= |lines|
  {
    forall i :: 0 <= i < n ==> Readable(lines[i])
  }

  lemma TextIs(lines: seq<PatchLine>, n: nat, header: Fragment)
    requires n <= |lines| && AllReadable(lines, n) && IsBody(Attach(lines[..n]), header.oldlines, header.newlines)
    ensures IsHunkText(lines[..n], header.oldlines, header.newlines)
  {
    hide Readable;
    hide IsBody;
    forall i | 0 <= i < n ensures Readable(lines[..n][i]) {
      assert lines[..n][i] == lines[i];
    }
  }

  lemma Nothing(lines: seq<PatchLine>)
    ensures Attach(lines[..0]) == [] && WellFormed([]) && !HasChange([]) && Leading([]) == Trailing([]) == 0
    ensures Side([], '-') == Side([], '+') == []
  {
  }

  lemma MarkerBegins(l: PatchLine)
    ensures Readable(l) && IsMarker(l) ==> l.rest != "" && l.rest[0] == ' '
  {
    assert [l][0] == l;
  }

  lemma FormedNext(body: seq<PatchLine>, l: PatchLine)
    requires WellFormed(body) && WellFormed([l])
    ensures WellFormed(body + [l])
  {
    assert [l][0] == l;
  }

  lemma BadLine(lines: seq<PatchLine>, i: nat, header: Fragment)
    requires i < |lines| && !Readable(lines[i])
    ensures forall k :: i < k <= |lines| ==> !IsHunkText(lines[..k], header.oldlines, header.newlines)
  {
    hide Readable;
    forall k | i < k <= |lines| ensures !IsHunkText(lines[..k], header.oldlines, header.newlines) {
      assert lines[..k][i] == lines[i];
    }
  }

  /** Once the numbers of lines are reached without a change, no more lines make a hunk. */
  lemma NoChange(lines: seq<PatchLine>, i: nat, header: Fragment)
    requires i <= |lines| && !HasChange(Attach(lines[..i]))
    requires |Side(Attach(lines[..i]), '-')| == header.oldlines && |Side(Attach(lines[..i]), '+')| == header.newlines
    ensures forall k :: i <= k <= |lines| ==> !IsHunkText(lines[..k], header.oldlines, header.newlines)
  {
    hide Readable;
    hide Attach;
    hide Side;
    hide HasChange;
    forall k | i <= k <= |lines| ensures !IsHunkText(lines[..k], header.oldlines, header.newlines) {
      if IsHunkText(lines[..k], header.oldlines, header.newlines) {
        forall j | i <= j < k ensures Readable(lines[j]) {
          assert lines[..k][j] == lines[j];
        }
        AttachGrows(lines, i, k);
      }
    }
  }

  // ---------- Writing a hunk and reading it back ----------

  const MARKER := PatchLine('\\', " No newline at end of file\n")

  /** The lines of a body as they are written, a marker after each that has no LF */
  function Detach(body: seq<PatchLine>): seq<PatchLine> {
    if body == [] then []
    else
      var n := |body| - 1;
      var l := body[n];
      Detach(body[..n]) + if EndsInLf(l) then [l] else [l.(rest := l.rest + "\n"), MARKER]
  }

  /** No two markers in a row, none at the start, and none so short that it is not taken for one at the end */
  ghost predicate WellMarked(text: seq<PatchLine>) {
    forall i :: 0 <= i < |text| && IsMarker(text[i]) ==>
      Size(text[i..]) > 12 && i > 0 && !IsMarker(text[i - 1])
  }

  lemma AttachLine(text: seq<PatchLine>, l: PatchLine)
    requires !IsMarker(l)
    ensures Attach(text + [l]) == Attach(text) + [l]
  {
    assert (text + [l])[..|text|] == text;
  }

  lemma AttachMarked(text: seq<PatchLine>, l: PatchLine, m: PatchLine)
    requires !IsMarker(l) && IsMarker(m)
    ensures Attach(text + [l, m]) == Attach(text) + [Shortened(l)]
  {
    AttachLine(text, l);
    assert (text + [l, m])[..|text| + 1] == text + [l];
  }

  /** What is written reads as the body. */
  lemma {:induction false} DetachAttach(body: seq<PatchLine>)
    requires WellFormed(body)
    ensures Attach(Detach(body)) == body
    ensures forall i :: 0 <= i < |Detach(body)| ==> Readable(Detach(body)[i])
  {
    hide Attach;
    hide Readable;
    if body == [] {
      NoText();
    } else {
      var n := |body| - 1;
      var l, before := body[n], Detach(body[..n]);
      DetachAttach(body[..n]);
      assert body == body[..n] + [l];
      LineWritten(l, before);
    }
  }

  lemma NoText()
    ensures Attach([]) == []
  {
  }

  lemma LineWritten(l: PatchLine, before: seq<PatchLine>)
    requires Known(l.first) && l.first != '@'
    ensures var written := if EndsInLf(l) then [l] else [l.(rest := l.rest + "\n"), MARKER];
            Attach(before + written) == Attach(before) + [l] && forall i :: 0 <= i < |written| ==> Readable(written[i])
  {
    assert [l][0] == l;
    var whole := l.(rest := l.rest + "\n");
    assert [whole][0] == whole && Shortened(whole) == l;
    hide Attach;
    if EndsInLf(l) {
      AttachLine(before, l);
    } else {
      AttachMarked(before, whole, MARKER);
    }
  }

  lemma {:induction false} DetachMarked(body: seq<PatchLine>)
    requires WellFormed(body)
    ensures WellMarked(Detach(body))
  {
    if body != [] {
      var n := |body| - 1;
      var l, before, text := body[n], Detach(body[..n]), Detach(body);
      DetachMarked(body[..n]);
      assert Size([MARKER]) > 12 by {
        assert [MARKER][1..] == [];
      }
      forall i | 0 <= i < |text| && IsMarker(text[i]) ensures Size(text[i..]) > 12 && i > 0 && !IsMarker(text[i - 1]) {
        if i < |before| {
          assert before[i] == text[i] && (i > 0 ==> before[i - 1] == text[i - 1]);
          assert text[i..] == before[i..] + text[|before|..];
          SizeAdds(before[i..], text[|before|..]);
        } else {
          assert text[i..] == [MARKER];
        }
      }
    }
  }

  lemma {:induction false} SizeAdds(a: seq<PatchLine>, b: seq<PatchLine>)
    ensures Size(a + b) == Size(a) + Size(b)
  {
    if a == [] {
      assert a + b == b;
    } else {
      assert (a + b)[1..] == a[1..] + b;
      SizeAdds(a[1..], b);
    }
  }

  /** Lines that add nothing to either side are all markers. */
  lemma {:induction false} OnlyMarkers(lines: seq<PatchLine>, i: nat, k: nat, j: nat)
    requires i <= j < k <= |lines| && forall m :: i <= m < k ==> Readable(lines[m])
    requires |Side(Attach(lines[..i]), '-')| == |Side(Attach(lines[..k]), '-')|
    requires |Side(Attach(lines[..i]), '+')| == |Side(Attach(lines[..k]), '+')|
    ensures IsMarker(lines[j])
  {
    hide Side;
    hide Attach;
    hide Readable;
    hide HasChange;
    hide Leading;
    hide Trailing;
    AttachGrows(lines, i, j);
    AttachGrows(lines, j + 1, k);
    AttachNext(lines, j);
    if !IsMarker(lines[j]) {
      CountsNext(Attach(lines[..j]), lines[j]);
      LineCounts(lines[j]);
    }
  }

  lemma LineCounts(l: PatchLine)
    requires Readable(l) && !IsMarker(l)
    ensures |l.On('-')| + |l.On('+')| > 0
  {
    assert [l][0] == l;
  }

  lemma ReadableIn(lines: seq<PatchLine>, k: nat, oldlines: nat, newlines: nat)
    requires k <= |lines| && IsHunkText(lines[..k], oldlines, newlines)
    ensures forall m :: 0 <= m < k ==> Readable(lines[m])
    ensures |Side(Attach(lines[..k]), '-')| == oldlines && |Side(Attach(lines[..k]), '+')| == newlines
  {
    hide Readable;
    hide Attach;
    forall m | 0 <= m < k ensures Readable(lines[m]) {
      assert lines[..k][m] == lines[m];
    }
  }

  /** Reading stops at the end of the text of a hunk, if what follows is not a marker. */
  lemma StopsThere(text: seq<PatchLine>, rest: seq<PatchLine>, n: nat, oldlines: nat, newlines: nat)
    requires IsHunkText(text, oldlines, newlines) && WellMarked(text) && (rest != [] ==> !IsMarker(rest[0]))
    requires n <= |text + rest| && EndsAt(text + rest, n, oldlines, newlines)
    requires var lines := text + rest;
             n < |lines| && Readable(lines[n]) && IsMarker(lines[n]) && Size(lines[n..]) > 12 ==>
               n > 0 && IsMarker(lines[n - 1])
    ensures n == |text|
  {
    hide Readable;
    hide Side;
    hide Attach;
    hide IsHunkText;
    hide Size;
    var lines := text + rest;
    assert lines[..|text|] == text;
    ReadableIn(lines, |text|, oldlines, newlines);
    var m := if IsHunkText(lines[..n], oldlines, newlines) then n else n - 1;
    ReadableIn(lines, m, oldlines, newlines);
    assert rest != [] ==> lines[|text|] == rest[0];
    assert forall i :: 0 <= i < |text| ==> lines[i] == text[i];
    if m < |text| {
      OnlyMarkers(lines, m, |text|, m);
      if n == m {
        assert lines[n..] == text[n..] + rest;
        SizeAdds(text[n..], rest);
      } else if n < |text| {
        OnlyMarkers(lines, m, |text|, n);
      }
    } else if m > |text| {
      OnlyMarkers(lines, |text|, m, |text|);
    }
  }

  /** The text of a hunk, with more after it, is read as the hunk. */
  method ReadBack(f: Fragment, text: seq<PatchLine>, rest: seq<PatchLine>) returns (r: Option<Fragment>)
    requires Parsed(f) && Attach(text) == f.body && IsHunkText(text, f.oldlines, f.newlines)
    requires WellMarked(text) && (rest != [] ==> !IsMarker(rest[0]))
    ensures r == Some(f)
  {
    hide Attach;
    hide IsHunkText;
    hide IsBody;
    hide WellMarked;
    hide EndsAt;
    hide Size;
    hide Readable;
    ghost var n;
    assert (text + rest)[..|text|] == text;
    r, n := ParseFragment(f, text + rest);
    StopsThere(text, rest, n, f.oldlines, f.newlines);
  }

  /** The lines after the headers of the hunks from the k'th on, each header standing for itself */
  function TextFrom(frags: seq<Fragment>, k: nat): seq<PatchLine>
    decreases |frags| - k
  {
    if k >= |frags| then [] else [PatchLine('@', "")] + Detach(frags[k].body) + TextFrom(frags, k + 1)
  }

  /** Writes hunks one after the other, and reads them back. */
  method ReadPatch(frags: seq<Fragment>) returns (read: seq<Fragment>)
    requires forall k :: 0 <= k < |frags| ==>
      Parsed(frags[k]) && IsBody(frags[k].body, frags[k].oldlines, frags[k].newlines)
    ensures read == frags
  {
    hide Attach;
    hide Detach;
    hide Readable;
    hide Side;
    hide HasChange;
    hide Leading;
    hide Trailing;
    read := [];
    while |read| < |frags|
      invariant |read| <= |frags| && read == frags[..|read|]
    {
      var f := frags[|read|];
      var text := Detach(f.body);
      DetachAttach(f.body);
      DetachMarked(f.body);
      var r := ReadBack(f, text, TextFrom(frags, |read| + 1));
      read := read + [r.value];
    }
  }

  /** Whether a line is one of a hunk's, or a marker, and ends with a LF. */
  method IsRead(l: PatchLine) returns (ok: bool)
    ensures ok <==> Readable(l)
    ensures ok && !IsMarker(l) ==> WellFormed([l]) && (l.IsContext() || l.first == '-' || l.first == '+')
  {
    var line := [l.first] + l.rest;
    if line[|line| - 1] != '\n' {
      return false;
    }
    assert [l][0] == l;
    if l.first == '\\' {
      return |line| >= 12 && line[1] == ' ';
    }
    ok := l.first == '\n' || l.first == ' ' || l.first == '-' || l.first == '+';
  }

  /** The character that decides what is done with a line */
  function Turned(first: char, o: Options): char {
    if o.reverse && first == '-' then '+' else if o.reverse && first == '+' then '-' else first
  }

  lemma OnSides(l: PatchLine, o: Options)
    ensures
      var first := Turned(l.first, o);
      var text, common := if first == '\n' then "\n" else l.rest, first == '\n' || first == ' ';
      && l.On(Removed(o)) == (if common || first == '-' then [text] else [])
      && l.On(Added(o)) == (if common || (first == '+' && !o.noAdd) then [text] else [])
  {
  }

  method AppendIf(img: Image, there: bool, text: string, common: bool)
    requires img.Valid()
    modifies img
    ensures img.Valid() && img.text == old(img.text) + (if there then [text] else [])
    ensures Unpatched(old(img.line)) ==> Unpatched(img.line)
  {
    if there {
      img.Append(text, common);
    }
  }

  method ReadLine(l: PatchLine, o: Options, pre: Image, post: Image) returns (ok: bool)
    requires pre.Valid() && post.Valid() && pre != post
    modifies pre, post
    ensures pre.Valid() && post.Valid()
    ensures ok <==> Known(l.first)
    ensures ok ==> pre.text == old(pre.text) + l.On(Removed(o)) && post.text == old(post.text) + l.On(Added(o))
    ensures Unpatched(old(post.line)) ==> Unpatched(post.line)
  {
    hide Unpatched;
    hide Flat;
    hide Describes;
    hide PatchLine.On;
    hide Removed;
    hide Added;
    OnSides(l, o);
    var first := Turned(l.first, o);
    var text := if first == '\n' then "\n" else l.rest;
    var common := first == '\n' || first == ' ';
    ok := Known(first);
    if ok {
      AppendIf(pre, common || first == '-', text, common);
      AppendIf(post, common || (first == '+' && !o.noAdd), text, common);
    }
  }

  /** The preimage and postimage of a hunk, or none if a line of it starts with another character. */
  method ReadBody(body: seq<PatchLine>, o: Options) returns (ok: bool, pre: Image, post: Image)
    ensures fresh(pre) && fresh(post) && pre != post
    ensures ok <==> forall i :: 0 <= i < |body| ==> Known(body[i].first)
    ensures ok ==>
              pre.Valid() && post.Valid() && pre.text == Side(body, Removed(o)) && post.text == Side(body, Added(o))
    ensures ok ==> Unpatched(post.line)
  {
    hide HashLine;
    pre := new Image.Empty();
    post := new Image.Empty();
    var i := 0;
    while i < |body|
      invariant i <= |body| && forall j :: 0 <= j < i ==> Known(body[j].first)
      invariant pre.Valid() && pre.text == Side(body[..i], Removed(o))
      invariant post.Valid() && post.text == Side(body[..i], Added(o))
      invariant Unpatched(post.line)
    {
      hide Unpatched;
      hide Side;
      hide Flat;
      hide Describes;
      hide PatchLine.On;
      hide Removed;
      hide Added;
      hide Known;
      SideNext(body, i, Removed(o));
      SideNext(body, i, Added(o));
      ok := ReadLine(body[i], o, pre, post);
      if !ok {
        return;
      }
      i := i + 1;
    }
    assert body[..i] == body;
    ok := true;
  }

  // ---------- Applying one hunk ----------

  function Expected(f: Fragment): nat {
    if f.newpos == 0 then 0 else f.newpos - 1
  }

  /** Whether the hunk must match at the beginning of a file of so many lines. */
  function Beginning(f: Fragment, o: Options, lines: nat, preLines: nat): bool {
    AtBeginning(f, o) && !(o.allowOverlap && AtEnd(f, o) && lines != preLines)
  }

  ghost predicate FitsAt(f: Fragment, o: Options, text: seq<string>, table: seq<LineInfo>, pos: nat)
    requires |table| == |text|
  {
    var pre := Side(f.body, Removed(o));
    Fits(text, table, pre, pos, Beginning(f, o, |text|, |pre|), AtEnd(f, o))
  }

  /** Where the search for the hunk starts. */
  ghost function SearchStart(f: Fragment, o: Options, lines: nat): nat {
    var pre := Side(f.body, Removed(o));
    StartLine(lines, |pre|, Expected(f), Beginning(f, o, lines, |pre|), AtEnd(f, o))
  }

  function Trimmed<T>(s: seq<T>, a: nat, b: nat): (t: seq<T>)
    requires a + b <= |s|
    ensures |t| == |s| - a - b
  {
    s[a..|s| - b]
  }

  /** n lines of a table were replaced by m new ones, and these alone are marked. */
  ghost predicate Replaced(before: seq<LineInfo>, after: seq<LineInfo>, pos: nat, n: nat, m: nat, patched: bool) {
    && pos + n <= |before| && |after| == |before| - n + m
    && after[..pos] == before[..pos] && after[pos + m..] == before[pos + n..]
    && forall i :: pos <= i < pos + m ==> after[i].patched == patched
  }

  /** What parse_fragment guarantees of the fragments it reads */
  ghost predicate Parsed(f: Fragment) {
    HasChange(f.body) && f.leading == Leading(f.body) && f.trailing == Trailing(f.body)
  }

  /** The hunk, less a lines of context at its start and b at its end, was found at pos and replaced. */
  ghost predicate Done(f: Fragment, o: Options, text: seq<string>, table: seq<LineInfo>, pos: nat, a: nat, b: nat,
                       text': seq<string>, table': seq<LineInfo>)
    requires |table| == |text|
  {
    var pre, post := Side(f.body, Removed(o)), Side(f.body, Added(o));
    && a + b <= |pre| && a + b <= |post| && a <= f.leading && b <= f.trailing
    && Fits(text, table, Trimmed(pre, a, b), pos, false, false)
    && text' == Spliced(text, pos, |pre| - a - b, Trimmed(post, a, b))
    && Replaced(table, table', pos, |pre| - a - b, |post| - a - b, !o.allowOverlap)
  }

  lemma TrimFirst<T>(s: seq<T>, a: nat, b: nat)
    requires a + b < |s|
    ensures Trimmed(s, a, b)[1..] == Trimmed(s, a + 1, b)
  {
  }

  lemma TrimLast<T>(s: seq<T>, a: nat, b: nat)
    requires a + b < |s|
    ensures Trimmed(s, a, b)[..|s| - a - b - 1] == Trimmed(s, a, b + 1)
  {
  }

  method DropFirst(img: Image, ghost s: seq<string>, ghost a: nat, ghost b: nat)
    requires img.Valid() && a + b < |s| && img.text == Trimmed(s, a, b)
    modifies img
    ensures img.Valid() && img.text == Trimmed(s, a + 1, b)
    ensures Unpatched(old(img.line)) ==> Unpatched(img.line)
  {
    TrimFirst(s, a, b);
    img.RemoveFirstLine();
  }

  method DropLast(img: Image, ghost s: seq<string>, ghost a: nat, ghost b: nat)
    requires img.Valid() && a + b < |s| && img.text == Trimmed(s, a, b)
    modifies img
    ensures img.Valid() && img.text == Trimmed(s, a, b + 1)
    ensures Unpatched(old(img.line)) ==> Unpatched(img.line)
  {
    TrimLast(s, a, b);
    img.RemoveLastLine();
  }

  // ---------- Less context ----------

  /** One line less of the longer context, or of both if they are as long */
  function Cut(l: nat, t: nat): (nat, nat)
    requires l > 0 || t > 0
  {
    (if l >= t then l - 1 else l, if t >= l then t - 1 else t)
  }

  /** The lengths of leading and trailing context tried, from the full ones down to those always kept */
  function Cuts(l: nat, t: nat, context: nat): (cuts: seq<(nat, nat)>)
    ensures cuts != [] && cuts[0] == (l, t)
    ensures forall k :: 0 <= k < |cuts| ==> cuts[k].0 <= l && cuts[k].1 <= t
    decreases l + t
  {
    if l <= context && t <= context then [(l, t)] else [(l, t)] + Cuts(Cut(l, t).0, Cut(l, t).1, context)
  }

  lemma {:induction false} CutsNext(l: nat, t: nat, context: nat, k: nat)
    requires k < |Cuts(l, t, context)|
    ensures
      var cuts := Cuts(l, t, context);
      if cuts[k].0 <= context && cuts[k].1 <= context then k == |cuts| - 1
      else k + 1 < |cuts| && cuts[k + 1] == Cut(cuts[k].0, cuts[k].1)
    decreases l + t
  {
    if l > context || t > context {
      if k > 0 {
        CutsNext(Cut(l, t).0, Cut(l, t).1, context, k - 1);
      }
    }
  }

  /** With the k'th of the lengths of context, the hunk fits nowhere. */
  ghost predicate Nowhere(f: Fragment, o: Options, text: seq<string>, table: seq<LineInfo>, p: seq<string>, k: nat)
    requires |table| == |text| && k < |Cuts(f.leading, f.trailing, o.context)| && f.leading + f.trailing <= |p|
  {
    var cut := Cuts(f.leading, f.trailing, o.context)[k];
    FitsNowhere(text, table, Trimmed(p, f.leading - cut.0, f.trailing - cut.1))
  }

  ghost predicate FitsNowhere(text: seq<string>, table: seq<LineInfo>, pre: seq<string>)
    requires |table| == |text|
  {
    forall q: nat :: !Fits(text, table, pre, q, false, false)
  }

  /** The lengths of context left are the first with which the hunk fits anywhere, the k'th. */
  ghost predicate FirstCut(f: Fragment, o: Options, text: seq<string>, table: seq<LineInfo>, p: seq<string>, a: nat,
                           b: nat, k: nat)
    requires |table| == |text| && f.leading + f.trailing <= |p|
  {
    && k < |Cuts(f.leading, f.trailing, o.context)|
    && Cuts(f.leading, f.trailing, o.context)[k] == (f.leading - a, f.trailing - b)
    && forall j :: 0 <= j < k ==> Nowhere(f, o, text, table, p, j)
  }

  ghost predicate NoCut(f: Fragment, o: Options, text: seq<string>, table: seq<LineInfo>, p: seq<string>)
    requires |table| == |text| && f.leading + f.trailing <= |p|
  {
    forall j :: 0 <= j < |Cuts(f.leading, f.trailing, o.context)| ==> Nowhere(f, o, text, table, p, j)
  }

  lemma FirstCutNext(f: Fragment, o: Options, text: seq<string>, table: seq<LineInfo>, p: seq<string>, a: nat, b: nat,
                     k: nat)
    requires |table| == |text| && f.leading + f.trailing <= |p| && a <= f.leading && b <= f.trailing
    requires FirstCut(f, o, text, table, p, a, b, k) && FitsNowhere(text, table, Trimmed(p, a, b))
    ensures
      var l, t := f.leading - a, f.trailing - b;
      if l <= o.context && t <= o.context then NoCut(f, o, text, table, p)
      else FirstCut(f, o, text, table, p, f.leading - Cut(l, t).0, f.trailing - Cut(l, t).1, k + 1)
  {
    hide Trimmed;
    hide FitsNowhere;
    hide Cuts;
    CutsNext(f.leading, f.trailing, o.context, k);
  }

  /** Takes one line of the longer context, or of both if they are as long, from both images. */
  method DropContext(leading: nat, trailing: nat, pre: Image, post: Image, ghost p: seq<string>, ghost q: seq<string>,
                     ghost a: nat, ghost b: nat)
    returns (l: nat, t: nat)
    requires pre.Valid() && post.Valid() && pre != post && (leading > 0 || trailing > 0) && Unpatched(post.line)
    requires a + b + leading + trailing <= |p| && a + b + leading + trailing <= |q|
    requires pre.text == Trimmed(p, a, b) && post.text == Trimmed(q, a, b)
    modifies pre, post
    ensures pre.Valid() && post.Valid() && Unpatched(post.line) && (l, t) == Cut(leading, trailing)
    ensures pre.text == Trimmed(p, a + leading - l, b + trailing - t)
            && post.text == Trimmed(q, a + leading - l, b + trailing - t)
  {
    hide Trimmed;
    hide Flat;
    hide Unpatched;
    l, t := leading, trailing;
    if l >= t {
      DropFirst(pre, p, a, b);
      DropFirst(post, q, a, b);
      l := l - 1;
    }
    if t > l {
      DropLast(pre, p, a + leading - l, b);
      DropLast(post, q, a + leading - l, b);
      t := t - 1;
    }
  }

  /** Looks for the preimage with less and less context, until the context allowed is reached. */
  method Reduce(img: Image, f: Fragment, o: Options, pre: Image, post: Image, ghost p: seq<string>,
                ghost q: seq<string>)
    returns (at: int, ghost a: nat, ghost b: nat, ghost k: nat)
    requires img.Valid() && pre.Valid() && post.Valid() && img != pre && img != post && pre != post
    requires pre.text == p && post.text == q && f.leading + f.trailing <= |p| && f.leading + f.trailing <= |q|
    requires f.leading > o.context || f.trailing > o.context
    requires Unpatched(post.line)
    requires !AtBeginning(f, o) && !AtEnd(f, o) ==> FitsNowhere(img.text, img.line, p)
    modifies pre, post
    ensures pre.Valid() && post.Valid() && -1 <= at <= |img.line| && a <= f.leading && b <= f.trailing
    ensures pre.text == Trimmed(p, a, b) && post.text == Trimmed(q, a, b) && Unpatched(post.line)
    ensures at >= 0 ==> Fits(img.text, img.line, pre.text, at, false, false)
    ensures at >= 0 ==> FirstCut(f, o, img.text, img.line, p, a, b, k)
    ensures at < 0 ==> NoCut(f, o, img.text, img.line, p)
  {
    hide Flat;
    hide Fits;
    hide HashLine;
    hide Trimmed;
    hide Unpatched;
    hide Cuts;
    hide NoCut;
    TrimNone(p);
    TrimNone(q);
    a, b, k := 0, 0, 0;
    assert FirstCut(f, o, img.text, img.line, p, 0, 0, 0);
    hide FirstCut;
    var leading: nat, trailing: nat, line: int := f.leading, f.trailing, Expected(f);
    var dropped := !AtBeginning(f, o) && !AtEnd(f, o);
    at := -1;
    while at < 0 && (leading > o.context || trailing > o.context)
      invariant pre.Valid() && post.Valid() && Unpatched(post.line)
      invariant a == f.leading - leading && b == f.trailing - trailing && leading <= f.leading && trailing <= f.trailing
      invariant pre.text == Trimmed(p, a, b) && post.text == Trimmed(q, a, b)
      invariant -1 <= at <= |img.line| && (at >= 0 ==> Fits(img.text, img.line, pre.text, at, false, false))
      invariant FirstCut(f, o, img.text, img.line, p, a, b, k)
                && (at < 0 && dropped ==> FitsNowhere(img.text, img.line, pre.text))
      invariant leading > o.context || trailing > o.context || dropped
      decreases leading + trailing, !dropped, at < 0
    {
      if !dropped {
        dropped := true;
      } else {
        FirstCutNext(f, o, img.text, img.line, p, a, b, k);
        var l, t := DropContext(leading, trailing, pre, post, p, q, a, b);
        a, b, k := f.leading - l, f.trailing - t, k + 1;
        line, leading, trailing := line - (leading - l), l, t;
      }
      at := img.FindPos(pre, line, false, false, o.allowOverlap);
    }
    if at < 0 {
      FirstCutNext(f, o, img.text, img.line, p, a, b, k);
    }
  }

  lemma TrimNone<T>(s: seq<T>)
    ensures Trimmed(s, 0, 0) == s
  {
  }

  ghost predicate Unpatched(table: seq<LineInfo>) {
    forall i :: 0 <= i < |table| ==> !table[i].patched
  }

  /** Looks for the preimage as the header says, and then with less context. */
  method Search(img: Image, f: Fragment, o: Options, pre: Image, post: Image)
    returns (at: int, ghost a: nat, ghost b: nat, ghost k: nat)
    requires img.Valid() && pre.Valid() && post.Valid() && img != pre && img != post && pre != post && Parsed(f)
    requires pre.text == Side(f.body, Removed(o)) && post.text == Side(f.body, Added(o)) && Unpatched(post.line)
    modifies pre, post
    ensures pre.Valid() && post.Valid() && -1 <= at <= |img.line| && a <= f.leading && b <= f.trailing
    ensures a + b <= |old(pre.text)| && a + b <= |old(post.text)|
    ensures pre.text == Trimmed(old(pre.text), a, b) && post.text == Trimmed(old(post.text), a, b)
            && Unpatched(post.line)
    ensures at >= 0 ==> Fits(img.text, img.line, pre.text, at, false, false)
    ensures f.leading <= o.context && f.trailing <= o.context ==> a == b == 0
    ensures FitsAt(f, o, img.text, img.line, SearchStart(f, o, |img.line|)) ==>
              a == b == 0 && at == SearchStart(f, o, |img.line|)
    ensures f.leading + f.trailing <= |old(pre.text)|
    ensures at >= 0 ==> FirstCut(f, o, img.text, img.line, old(pre.text), a, b, k)
    ensures at < 0 ==> forall q: nat :: !FitsAt(f, o, img.text, img.line, q)
    ensures at < 0 && (f.leading > o.context || f.trailing > o.context) ==>
            NoCut(f, o, img.text, img.line, old(pre.text))
  {
    hide Flat;
    hide Fits;
    hide HashLine;
    hide Side;
    hide Leading;
    hide Trailing;
    hide HasChange;
    hide Cuts;
    SideAtLeast(f.body, Removed(o));
    SideAtLeast(f.body, Added(o));
    a, b, k := 0, 0, 0;
    TrimNone(pre.text);
    at := img.FindPos(pre, Expected(f), AtBeginning(f, o), AtEnd(f, o), o.allowOverlap);
    if at >= 0 {
      FitsAnywhere(img.text, img.line, pre.text, at, Beginning(f, o, |img.line|, |pre.line|), AtEnd(f, o));
    } else if f.leading > o.context || f.trailing > o.context {
      at, a, b, k := Reduce(img, f, o, pre, post, pre.text, post.text);
    }
  }

  lemma ReplacedBySplice(table: seq<LineInfo>, pos: nat, n: nat, lines: seq<LineInfo>, allowOverlap: bool)
    requires pos + n <= |table| && Unpatched(lines)
    ensures Replaced(table, Spliced(table, pos, n, Marked(lines, allowOverlap)), pos, n, |lines|, !allowOverlap)
  {
  }

  /**
   Replaces a hunk's old lines by its new ones at the place found, with as little context left out as the search
   needs. It fails only if the hunk fits nowhere, with any of the lengths of context allowed.
   */
  method ApplyOneFragment(img: Image, f: Fragment, o: Options)
    returns (ok: bool, ghost pos: nat, ghost a: nat, ghost b: nat)
    requires img.Valid() && Parsed(f)
    modifies img
    ensures img.Valid()
    ensures ok ==> Done(f, o, old(img.text), old(img.line), pos, a, b, img.text, img.line)
    ensures ok && f.leading <= o.context && f.trailing <= o.context ==> a == b == 0
    ensures !ok ==> unchanged(img)
    ensures WellFormed(f.body) && FitsAt(f, o, old(img.text), old(img.line), SearchStart(f, o, |old(img.line)|)) ==>
      ok && a == b == 0 && pos == SearchStart(f, o, |old(img.line)|)
    ensures WellFormed(f.body) && !ok ==> forall q: nat :: !FitsAt(f, o, old(img.text), old(img.line), q)
    ensures f.leading + f.trailing <= |Side(f.body, Removed(o))|
    ensures ok ==> exists k :: FirstCut(f, o, old(img.text), old(img.line), Side(f.body, Removed(o)), a, b, k)
    ensures WellFormed(f.body) && !ok && (f.leading > o.context || f.trailing > o.context) ==>
      NoCut(f, o, old(img.text), old(img.line), Side(f.body, Removed(o)))
  {
    SideAtLeast(f.body, Removed(o));
    hide FirstCut;
    hide NoCut;
    hide Flat;
    hide Fits;
    hide FitsAt;
    hide HashLine;
    hide Side;
    hide Leading;
    hide Trailing;
    hide HasChange;
    hide SearchStart;
    hide Replaced;
    hide Unpatched;
    hide Spliced;
    hide Marked;
    pos, a, b := 0, 0, 0;
    var readable, pre, post := ReadBody(f.body, o);
    if !readable {
      return false, 0, 0, 0;
    }
    var at;
    ghost var k;
    at, a, b, k := Search(img, f, o, pre, post);
    ok := at >= 0;
    if ok {
      FitsInside(img.text, img.line, pre.text, at, false, false);
      ReplacedBySplice(img.line, at, |pre.line|, post.line, o.allowOverlap);
      img.Update(at, pre, post, o.allowOverlap);
      pos := at;
    }
  }

  // ---------- Whole patches ----------

  /** The line a range of a header starts at; a range of no lines names the line before it. */
  function RangeStart(pos: nat, lines: nat): int {
    if lines == 0 then pos else pos - 1
  }

  /** The hunk takes a[s..] to b[t..], and has context wherever it does not reach an end of the file. */
  ghost predicate IsHunk(a: seq<string>, b: seq<string>, f: Fragment, o: Options, first: bool, last: bool) {
    var s, t := RangeStart(f.oldpos, f.oldlines), RangeStart(f.newpos, f.newlines);
    && Parsed(f) && WellFormed(f.body)
    && 0 <= s && s + f.oldlines <= |a| && a[s..s + f.oldlines] == Side(f.body, Removed(o))
    && 0 <= t && t + f.newlines <= |b| && b[t..t + f.newlines] == Side(f.body, Added(o))
    && (f.leading > 0 || (first && s == 0)) && (f.trailing > 0 || (last && s + f.oldlines == |a|))
  }

  /**
   The fragments are a contextual diff from a[na..] to b[nb..]: their two sides are in
   a and b where their headers say, and what is between them is the same in both.
   */
  ghost predicate IsDiff(a: seq<string>, b: seq<string>, na: nat, nb: nat, frags: seq<Fragment>, o: Options,
                         first: bool)
    decreases |frags|
  {
    && na <= |a| && nb <= |b|
    && if frags == [] then a[na..] == b[nb..]
       else
         var f := frags[0];
         var s, t := RangeStart(f.oldpos, f.oldlines), RangeStart(f.newpos, f.newlines);
         && IsHunk(a, b, f, o, first, |frags| == 1)
         && na <= s && nb <= t && a[na..s] == b[nb..t]
         && IsDiff(a, b, s + f.oldlines, t + f.newlines, frags[1..], o, false)
  }

  function Reversed(f: Fragment): Fragment {
    f.(oldpos := f.newpos, newpos := f.oldpos, oldlines := f.newlines, newlines := f.oldlines)
  }

  function AllReversed(frags: seq<Fragment>): seq<Fragment> {
    seq(|frags|, i requires 0 <= i < |frags| => Reversed(frags[i]))
  }

  lemma ReverseIsHunk(a: seq<string>, b: seq<string>, f: Fragment, o: Options, first: bool, last: bool)
    requires IsHunk(a, b, f, o, first, last) && !o.noAdd
    requires first ==> RangeStart(f.oldpos, f.oldlines) == RangeStart(f.newpos, f.newlines)
    requires last ==>
               |a| - RangeStart(f.oldpos, f.oldlines) - f.oldlines ==
               |b| - RangeStart(f.newpos, f.newlines) - f.newlines
    ensures IsHunk(b, a, Reversed(f), o.(reverse := !o.reverse), first, last)
  {
    hide Side;
    hide WellFormed;
  }

  /** Exchanging the ranges of a diff from a to b, and reading it in reverse, gives a diff from b to a. */
  lemma {:induction false} ReverseIsDiff(a: seq<string>, b: seq<string>, na: nat, nb: nat, frags: seq<Fragment>,
                                         o: Options, first: bool)
    requires IsDiff(a, b, na, nb, frags, o, first) && !o.noAdd && (first ==> na == nb == 0)
    ensures IsDiff(b, a, nb, na, AllReversed(frags), o.(reverse := !o.reverse), first)
    decreases |frags|
  {
    hide IsHunk;
    hide AllReversed;
    AllReversedRest(frags);
    if frags != [] {
      var f := frags[0];
      var s, t := RangeStart(f.oldpos, f.oldlines), RangeStart(f.newpos, f.newlines);
      assert s - na == |a[na..s]| && t - nb == |b[nb..t]|;
      assert |frags| == 1 ==> |a[s + f.oldlines..]| == |b[t + f.newlines..]|;
      ReverseIsHunk(a, b, f, o, first, |frags| == 1);
      ReverseIsDiff(a, b, s + f.oldlines, t + f.newlines, frags[1..], o, false);
    }
  }

  lemma AllReversedRest(frags: seq<Fragment>)
    ensures |AllReversed(frags)| == |frags|
    ensures frags != [] ==>
              AllReversed(frags)[0] == Reversed(frags[0]) && AllReversed(frags)[1..] == AllReversed(frags[1..])
  {
  }

  /** After some hunks the file is the new one up to there and the old one from there on. */
  lemma HalfWay<T>(a: seq<T>, b: seq<T>, na: nat, nb: nat, s: nat, t: nat, n: nat, text: seq<T>)
    requires na <= s && s + n <= |a| && nb <= t <= |b| && a[na..s] == b[nb..t]
    requires text == b[..nb] + a[na..]
    ensures t + n <= |text| && |text| - t - n == |a| - s - n && text[t..t + n] == a[s..s + n]
    ensures text[..t] == b[..t] && text[t + n..] == a[s + n..]
  {
    assert s - na == |a[na..s]| && t - nb == |b[nb..t]|;
    var d := t - nb;
    assert text[nb..] == a[na..];
    assert text[t..] == text[nb..][d..] == a[na..][d..] == a[s..];
    assert text[t..t + n] == text[t..][..n] && a[s..s + n] == a[s..][..n];
    assert text[t + n..] == text[t..][n..] && a[s + n..] == a[s..][n..];
    assert text[..t] == text[..nb] + text[nb..][..d];
    assert text[nb..][..d] == a[na..][..d] == a[na..s];
    assert b[..t] == b[..nb] + b[nb..t];
  }

  lemma HunkStart(a: seq<string>, b: seq<string>, na: nat, nb: nat, f: Fragment, o: Options, first: bool, last: bool,
                  lines: nat)
    requires IsHunk(a, b, f, o, first, last) && !o.unidiffZero
    requires first ==> RangeStart(f.oldpos, f.oldlines) == RangeStart(f.newpos, f.newlines)
    requires !first ==> 0 < na <= RangeStart(f.oldpos, f.oldlines)
    requires RangeStart(f.newpos, f.newlines) + |a| - RangeStart(f.oldpos, f.oldlines) == lines
    ensures SearchStart(f, o, lines) == RangeStart(f.newpos, f.newlines)
    ensures Beginning(f, o, lines, f.oldlines) ==> RangeStart(f.newpos, f.newlines) == 0
    ensures AtEnd(f, o) ==> RangeStart(f.oldpos, f.oldlines) + f.oldlines == |a|
  {
    hide Side;
    hide WellFormed;
    hide HasChange;
    SideAtLeast(f.body, Removed(o));
    SideAtLeast(f.body, Added(o));
  }

  lemma HunkFits(a: seq<string>, b: seq<string>, na: nat, nb: nat, f: Fragment, o: Options, first: bool, last: bool,
                 text: seq<string>, table: seq<LineInfo>)
    requires IsHunk(a, b, f, o, first, last) && !o.unidiffZero
    requires
      var s, t := RangeStart(f.oldpos, f.oldlines), RangeStart(f.newpos, f.newlines);
      na <= s && nb <= t && a[na..s] == b[nb..t]
    requires if first then na == nb == 0 else na > 0
    requires nb <= |b| && text == b[..nb] + a[na..] && |table| == |text|
    requires forall i :: nb <= i < |table| ==> !table[i].patched
    ensures
      var s, t := RangeStart(f.oldpos, f.oldlines), RangeStart(f.newpos, f.newlines);
      && SearchStart(f, o, |text|) == t && FitsAt(f, o, text, table, t)
      && Spliced(text, t, f.oldlines, Side(f.body, Added(o))) == b[..t + f.newlines] + a[s + f.oldlines..]
  {
    hide Side;
    hide Flat;
    hide SearchStart;
    hide Fits;
    hide Parsed;
    hide WellFormed;
    hide Beginning;
    hide AtEnd;
    var s, t := RangeStart(f.oldpos, f.oldlines), RangeStart(f.newpos, f.newlines);
    assert s - na == |a[na..s]| && t - nb == |b[nb..t]|;
    HalfWay(a, b, na, nb, s, t, f.oldlines, text);
    HunkStart(a, b, na, nb, f, o, first, last, |text|);
    var pre := Side(f.body, Removed(o));
    EqualFits(text, table, pre, t, Beginning(f, o, |text|, |pre|), AtEnd(f, o));
    assert b[..t + f.newlines] == b[..t] + b[t..t + f.newlines];
  }

  lemma ReplacedBeyond(before: seq<LineInfo>, after: seq<LineInfo>, pos: nat, n: nat, m: nat, patched: bool, from: nat)
    requires Replaced(before, after, pos, n, m, patched) && from <= pos
    requires forall i :: from <= i < |before| ==> !before[i].patched
    ensures forall i :: pos + m <= i < |after| ==> !after[i].patched
  {
    forall i | pos + m <= i < |after| ensures !after[i].patched {
      assert after[i] == after[pos + m..][i - pos - m] == before[pos + n..][i - pos - m];
    }
  }

  lemma NextFits(a: seq<string>, b: seq<string>, na: nat, nb: nat, frags: seq<Fragment>, k: nat, o: Options,
                 text: seq<string>, table: seq<LineInfo>)
    requires k < |frags| && HasApplied(a, b, na, nb, frags, k, o, text, table)
    ensures WellFormed(frags[k].body) && FitsAt(frags[k], o, text, table, SearchStart(frags[k], o, |text|))
  {
    hide Side;
    hide FitsAt;
    hide SearchStart;
    HunkFits(a, b, na, nb, frags[k], o, k == 0, k == |frags| - 1, text, table);
  }

  lemma NextApplied(a: seq<string>, b: seq<string>, na: nat, nb: nat, frags: seq<Fragment>, k: nat, o: Options,
                    text: seq<string>, table: seq<LineInfo>, text': seq<string>, table': seq<LineInfo>)
    requires k < |frags| && HasApplied(a, b, na, nb, frags, k, o, text, table)
    requires Done(frags[k], o, text, table, SearchStart(frags[k], o, |text|), 0, 0, text', table')
             && |table'| == |text'|
    ensures
      var f := frags[k];
      var na', nb' := RangeStart(f.oldpos, f.oldlines) + f.oldlines, RangeStart(f.newpos, f.newlines) + f.newlines;
      na' >= 0 && nb' >= 0 && HasApplied(a, b, na', nb', frags, k + 1, o, text', table')
  {
    hide Side;
    hide FitsAt;
    hide SearchStart;
    hide Fits;
    hide Replaced;
    var f := frags[k];
    HunkFits(a, b, na, nb, f, o, k == 0, k == |frags| - 1, text, table);
    var pre, post := Side(f.body, Removed(o)), Side(f.body, Added(o));
    TrimNone(post);
    var t := RangeStart(f.newpos, f.newlines);
    ReplacedBeyond(table, table', t, |pre|, |post|, !o.allowOverlap, nb);
    SideAtLeast(f.body, Removed(o));
    assert frags[k..][1..] == frags[k + 1..];
  }

  lemma AllApplied(a: seq<string>, b: seq<string>, na: nat, nb: nat, frags: seq<Fragment>, o: Options,
                   text: seq<string>, table: seq<LineInfo>)
    requires HasApplied(a, b, na, nb, frags, |frags|, o, text, table)
    ensures text == b
  {
    assert frags[|frags|..] == [];
    assert b == b[..nb] + b[nb..];
  }

  // ---------- What hunks wrote stays ----------

  /** The lines of a file that hunks have written */
  ghost function Written(text: seq<string>, table: seq<LineInfo>): seq<string>
    requires |table| == |text|
  {
    if text == [] then []
    else
      var n := |text| - 1;
      Written(text[..n], table[..n]) + if table[n].patched then [text[n]] else []
  }

  ghost function WrittenBag(text: seq<string>, table: seq<LineInfo>): multiset<string>
    requires |table| == |text|
  {
    multiset(Written(text, table))
  }

  lemma {:induction false} WrittenConcat(s: seq<string>, t: seq<string>, ts: seq<LineInfo>, tt: seq<LineInfo>)
    requires |ts| == |s| && |tt| == |t|
    ensures Written(s + t, ts + tt) == Written(s, ts) + Written(t, tt)
  {
    if t == [] {
      assert s + t == s && ts + tt == ts;
    } else {
      var n := |t| - 1;
      assert (s + t)[..|s| + n] == s + t[..n] && (ts + tt)[..|s| + n] == ts + tt[..n];
      WrittenConcat(s, t[..n], ts, tt[..n]);
    }
  }

  lemma {:induction false} WrittenAllOrNone(text: seq<string>, table: seq<LineInfo>, patched: bool)
    requires |table| == |text| && forall i :: 0 <= i < |table| ==> table[i].patched == patched
    ensures Written(text, table) == if patched then text else []
  {
    if text != [] {
      var n := |text| - 1;
      WrittenAllOrNone(text[..n], table[..n], patched);
      assert text == text[..n] + [text[n]];
    }
  }

  lemma WrittenParts(text: seq<string>, table: seq<LineInfo>, i: nat, j: nat)
    requires |table| == |text| && i <= j <= |text|
    ensures Written(text, table) == Written(text[..i], table[..i]) + Written(text[i..j], table[i..j])
            + Written(text[j..], table[j..])
  {
    hide Written;
    WrittenConcat(text[..i], text[i..j], table[..i], table[i..j]);
    assert text[..i] + text[i..j] == text[..j] && table[..i] + table[i..j] == table[..j];
    WrittenConcat(text[..j], text[j..], table[..j], table[j..]);
    assert text == text[..j] + text[j..] && table == table[..j] + table[j..];
  }

  lemma ReplaceKeepsWritten(text: seq<string>, table: seq<LineInfo>, pos: nat, n: nat, post: seq<string>,
                            table': seq<LineInfo>)
    requires |table| == |text| && Replaced(table, table', pos, n, |post|, true)
    requires forall i :: pos <= i < pos + n ==> !table[i].patched
    ensures WrittenBag(Spliced(text, pos, n, post), table') == WrittenBag(text, table) + multiset(post)
  {
    hide Written;
    var text', m := Spliced(text, pos, n, post), |post|;
    WrittenParts(text, table, pos, pos + n);
    WrittenParts(text', table', pos, pos + m);
    WrittenAllOrNone(text[pos..pos + n], table[pos..pos + n], false);
    assert text'[pos..pos + m] == post;
    WrittenAllOrNone(post, table'[pos..pos + m], true);
    assert text'[..pos] == text[..pos];
    assert text'[pos + m..] == text[pos + n..];
  }

  /** A hunk adds what it writes to what earlier ones wrote, and takes none of that away. */
  lemma DoneKeepsWritten(f: Fragment, o: Options, text: seq<string>, table: seq<LineInfo>, pos: nat, a: nat, b: nat,
                         text': seq<string>, table': seq<LineInfo>)
    requires |table| == |text| && |table'| == |text'| && !o.allowOverlap
             && Done(f, o, text, table, pos, a, b, text', table')
    ensures a + b <= |Side(f.body, Added(o))|
    ensures WrittenBag(text', table') == WrittenBag(text, table) + multiset(Trimmed(Side(f.body, Added(o)), a, b))
  {
    hide WrittenBag;
    hide Side;
    hide Flat;
    hide Fits;
    hide Replaced;
    hide Spliced;
    hide Trimmed;
    FitsUnpatched(text, table, Trimmed(Side(f.body, Removed(o)), a, b), pos, false, false);
    var n, post := |Side(f.body, Removed(o))| - a - b, Trimmed(Side(f.body, Added(o)), a, b);
    ReplaceKeepsWritten(text, table, pos, n, post, table');
  }

  /** The lines that the fragments not rejected write */
  ghost function Output(frags: seq<Fragment>, o: Options): multiset<string> {
    if frags == [] then multiset{}
    else
      var f := frags[|frags| - 1];
      Output(frags[..|frags| - 1], o) + if f.rejected then multiset{} else multiset(Side(f.body, Added(o)))
  }

  class Patch {
    var fragments: seq<Fragment>

    constructor (fragments: seq<Fragment>)
      ensures this.fragments == fragments
    {
      this.fragments := fragments;
    }

    /** reverse_patches, as far as it concerns the fragments */
    method Reverse(ghost a: seq<string>, ghost b: seq<string>, ghost o: Options)
      requires !o.noAdd
      modifies this
      ensures fragments == AllReversed(old(fragments))
      ensures IsDiff(a, b, 0, 0, old(fragments), o, true) ==>
        IsDiff(b, a, 0, 0, fragments, o.(reverse := !o.reverse), true)
    {
      hide IsDiff;
      if IsDiff(a, b, 0, 0, fragments, o, true) {
        ReverseIsDiff(a, b, 0, 0, fragments, o, true);
      }
      var i := 0;
      while i < |fragments|
        invariant i <= |fragments| == |old(fragments)|
        invariant forall j :: 0 <= j < |fragments| ==>
                  fragments[j] == if j < i then Reversed(old(fragments)[j]) else old(fragments)[j]
      {
        var f := fragments[i];
        fragments := fragments[i := f.(newpos := f.oldpos, oldpos := f.newpos, newlines := f.oldlines,
                                       oldlines := f.newlines)];
        i := i + 1;
      }
      assert fragments == AllReversed(old(fragments));
    }

    /**
     Applies the hunks one after the other. A contextual diff applies where it says
     and gives the new file, b.
     */
    method Apply(img: Image, o: Options, ghost b: seq<string>) returns (ok: bool)
      requires img.Valid() && forall i :: 0 <= i < |fragments| ==> Parsed(fragments[i])
      modifies this, img
      ensures img.Valid()
      ensures |fragments| == |old(fragments)|
      ensures !o.withReject ==> unchanged(this)
      ensures Applies(old(img.text), old(img.line), b, old(fragments), o) ==>
        ok && img.text == b && img.buf == Flat(b) && unchanged(this)
      ensures ok && NoOverlap(old(fragments), o) ==>
        WrittenBag(img.text, img.line) == WrittenBag(old(img.text), old(img.line)) + Output(fragments, o)
    {
      hide Flat;
      hide Side;
      hide IsHunk;
      hide Fits;
      hide FitsAt;
      hide SearchStart;
      hide Parsed;
      hide WellFormed;
      hide Replaced;
      hide Done;
      hide HashLine;
      hide HasApplied;
      hide Applies;
      hide WrittenBag;
      hide Output;
      hide KeptSoFar;
      hide NoOverlap;
      ghost var exact := Applies(img.text, img.line, b, fragments, o);
      ghost var separate, written := NoOverlap(fragments, o), WrittenBag(img.text, img.line);
      NoneApplied(img.text, img.line, b, fragments, o);
      ghost var a: seq<string>, na: nat, nb: nat := img.text, 0, 0;
      var k := 0;
      while k < |fragments|
        invariant k <= |fragments| == |old(fragments)| && img.Valid()
        invariant forall i :: 0 <= i < |fragments| ==> Parsed(fragments[i])
        invariant !o.withReject ==> unchanged(this)
        invariant exact ==> HasApplied(a, b, na, nb, fragments, k, o, img.text, img.line) && unchanged(this)
        invariant separate ==> KeptSoFar(written, fragments, k, o, img.text, img.line)
      {
        var f := fragments[k];
        ghost var text, table := img.text, img.line;
        if exact {
          NextFits(a, b, na, nb, fragments, k, o, text, table);
        }
        var done, pos, x, y := ApplyOneFragment(img, f, o);
        if exact {
          NextApplied(a, b, na, nb, fragments, k, o, text, table, img.text, img.line);
          na, nb := RangeStart(f.oldpos, f.oldlines) + f.oldlines, RangeStart(f.newpos, f.newlines) + f.newlines;
        }
        ghost var before := fragments;
        if !done {
          if !o.withReject {
            return false;
          }
          RejectedParsed(f);
          fragments := fragments[k := f.(rejected := true)];
        }
        if separate {
          KeptNext(written, before, k, o, text, table, done, pos, x, y, img.text, img.line);
        }
        k := k + 1;
      }
      ok := true;
      if separate {
        KeptAtEnd(written, fragments, o, img.text, img.line);
      }
      if exact {
        AllApplied(a, b, na, nb, fragments, o, img.text, img.line);
      }
    }
  }

  /** Hunks do not overlap and keep all of their context. */
  ghost predicate NoOverlap(frags: seq<Fragment>, o: Options) {
    && !o.allowOverlap
    && forall i :: 0 <= i < |frags| ==>
         !frags[i].rejected && frags[i].leading <= o.context && frags[i].trailing <= o.context
  }

  lemma OutputNext(frags: seq<Fragment>, k: nat, o: Options)
    requires k < |frags|
    ensures Output(frags[..k + 1], o) == Output(frags[..k], o) +
            if frags[k].rejected then multiset{} else multiset(Side(frags[k].body, Added(o)))
  {
    assert frags[..k + 1][..k] == frags[..k];
  }

  /** What hunks before the k-th wrote is what the file's patched lines are, beside those at the start. */
  ghost predicate KeptSoFar(written: multiset<string>, frags: seq<Fragment>, k: nat, o: Options, text: seq<string>,
                            table: seq<LineInfo>)
    requires k <= |frags|
  {
    && |table| == |text| && NoOverlap(frags[k..], o)
    && WrittenBag(text, table) == written + Output(frags[..k], o)
  }

  lemma NoneApplied(text: seq<string>, table: seq<LineInfo>, b: seq<string>, frags: seq<Fragment>, o: Options)
    requires |table| == |text|
    ensures Applies(text, table, b, frags, o) ==> HasApplied(text, b, 0, 0, frags, 0, o, text, table)
    ensures NoOverlap(frags, o) ==> KeptSoFar(WrittenBag(text, table), frags, 0, o, text, table)
  {
    hide IsHunk;
    assert frags[0..] == frags;
    assert b[..0] + text[0..] == text;
  }

  lemma KeptNext(written: multiset<string>, frags: seq<Fragment>, k: nat, o: Options, text: seq<string>,
                 table: seq<LineInfo>,
                 done: bool, pos: nat, a: nat, b: nat, text': seq<string>, table': seq<LineInfo>)
    requires k < |frags| && KeptSoFar(written, frags, k, o, text, table) && |table'| == |text'|
    requires if done then Done(frags[k], o, text, table, pos, a, b, text', table') else text' == text && table' == table
    requires done && frags[k].leading <= o.context && frags[k].trailing <= o.context ==> a == b == 0
    ensures KeptSoFar(written, if done then frags else frags[k := frags[k].(rejected := true)], k + 1, o, text', table')
  {
    hide WrittenBag;
    hide Output;
    hide Done;
    hide Side;
    var f := frags[k];
    assert f == frags[k..][0];
    if done {
      DoneKeepsWritten(f, o, text, table, pos, a, b, text', table');
      TrimNone(Side(f.body, Added(o)));
      OutputNext(frags, k, o);
      assert frags[k + 1..] == frags[k..][1..];
    } else {
      var after := frags[k := f.(rejected := true)];
      OutputNext(after, k, o);
      assert after[..k] == frags[..k];
      assert after[k + 1..] == frags[k..][1..];
    }
  }

  lemma KeptAtEnd(written: multiset<string>, frags: seq<Fragment>, o: Options, text: seq<string>, table: seq<LineInfo>)
    requires KeptSoFar(written, frags, |frags|, o, text, table)
    ensures |table| == |text| && WrittenBag(text, table) == written + Output(frags, o)
  {
    assert frags[..|frags|] == frags;
  }

  lemma RejectedParsed(f: Fragment)
    ensures Parsed(f.(rejected := true)) <==> Parsed(f)
  {
  }

  /** A file with no lines patched yet, and a diff from it to b. */
  ghost predicate Applies(text: seq<string>, table: seq<LineInfo>, b: seq<string>, frags: seq<Fragment>, o: Options) {
    && !o.noAdd && !o.unidiffZero && Unpatched(table) && |table| == |text|
    && IsDiff(text, b, 0, 0, frags, o, true)
  }

  /** The first k fragments have been applied. */
  ghost predicate HasApplied(a: seq<string>, b: seq<string>, na: nat, nb: nat, frags: seq<Fragment>, k: nat, o: Options,
                             text: seq<string>, table: seq<LineInfo>)
    requires k <= |frags|
  {
    && !o.noAdd && !o.unidiffZero && |table| == |text|
    && IsDiff(a, b, na, nb, frags[k..], o, k == 0) && (if k == 0 then na == nb == 0 else k == |frags| || na > 0)
    && text == b[..nb] + a[na..] && forall i :: nb <= i < |table| ==> !table[i].patched
  }
}
