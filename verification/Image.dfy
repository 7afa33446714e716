/**
 The file image that apply.c patches: the bytes of the file beside a table with the
 length, hash and flags of each line. The ghost text is the file as a list of lines.
 */
module Image {

  // ---------- Lines ----------

  predicate IsPart(l: string) {
    |l| > 0 && forall i :: 0 <= i < |l| - 1 ==> l[i] != '\n'
  }

  /** A complete line: its only LF is its last character. */
  predicate IsLine(l: string) {
    IsPart(l) && l[|l| - 1] == '\n'
  }

  ghost predicate Complete(text: seq<string>) {
    forall i :: 0 <= i < |text| ==> IsLine(text[i])
  }

  /** Lines, the last of which may lack its LF. */
  ghost predicate IsText(text: seq<string>) {
    forall i :: 0 <= i < |text| ==> IsPart(text[i]) && (i < |text| - 1 ==> IsLine(text[i]))
  }

  function Flat(text: seq<string>): string {
    if text == [] then "" else text[0] + Flat(text[1..])
  }

  lemma {:induction false} FlatConcat(a: seq<string>, b: seq<string>)
    ensures Flat(a + b) == Flat(a) + Flat(b)
  {
    if a == [] {
      assert a + b == b;
    } else {
      assert (a + b)[1..] == a[1..] + b;
      FlatConcat(a[1..], b);
    }
  }

  lemma FlatSnoc(a: seq<string>, l: string)
    ensures Flat(a + [l]) == Flat(a) + l
  {
    FlatConcat(a, [l]);
    assert Flat([l]) == l + Flat([]);
  }

  lemma FlatNext(text: seq<string>, i: nat)
    requires i < |text|
    ensures Flat(text[..i + 1]) == Flat(text[..i]) + text[i]
  {
    assert text[..i + 1] == text[..i] + [text[i]];
    FlatSnoc(text[..i], text[i]);
  }

  lemma FlatAt(text: seq<string>, i: nat)
    requires i <= |text|
    ensures |Flat(text[..i])| <= |Flat(text)| && Flat(text)[|Flat(text[..i])|..] == Flat(text[i..])
    ensures Flat(text)[..|Flat(text[..i])|] == Flat(text[..i])
  {
    assert text == text[..i] + text[i..];
    FlatConcat(text[..i], text[i..]);
  }

  lemma FirstLine(x: string, y: string, s: string, t: string)
    requires IsLine(x) && IsLine(y) && x + s <= y + t
    ensures x == y && s <= t
  {
    var xs, yt := x + s, y + t;
    assert forall i :: 0 <= i < |xs| ==> xs[i] == yt[i];
    assert |x| <= |y| ==> xs[|x| - 1] == x[|x| - 1] && yt[|x| - 1] == y[|x| - 1];
    assert |y| <= |x| ==> xs[|y| - 1] == x[|y| - 1] && yt[|y| - 1] == y[|y| - 1];
    assert |x| == |y|;
    assert x == xs[..|x|] && y == yt[..|y|] && xs[..|x|] == yt[..|x|];
    assert s == xs[|x|..] && t == yt[|y|..];
  }

  /** Bytes that begin with complete lines begin with those lines. */
  lemma {:induction false} LinesFromBytes(pre: seq<string>, text: seq<string>)
    requires Complete(pre) && Complete(text) && Flat(pre) <= Flat(text)
    ensures |pre| <= |text| && text[..|pre|] == pre
  {
    if pre != [] {
      assert text != [];
      FirstLine(pre[0], text[0], Flat(pre[1..]), Flat(text[1..]));
      LinesFromBytes(pre[1..], text[1..]);
      assert text[..|pre|] == [text[0]] + text[1..][..|pre| - 1];
    }
  }

  lemma BytesFromLines(pre: seq<string>, text: seq<string>)
    requires |pre| <= |text| && text[..|pre|] == pre
    ensures Flat(pre) <= Flat(text) && (|pre| == |text| ==> Flat(pre) == Flat(text))
  {
    FlatAt(text, |pre|);
    assert text[..|text|] == text;
  }

  /** isspace() of git-compat-util.h */
  predicate IsSpace(c: char) {
    c == ' ' || c == '\t' || c == '\n' || c == '\r'
  }

  /** The hash of a line ignores white space; 24 bits of it are kept. */
  function HashLine(l: string): nat {
    if l == "" then 0
    else
      var h := HashLine(l[..|l| - 1]);
      if IsSpace(l[|l| - 1]) then h else (h * 3 + l[|l| - 1] as nat % 0x100) % 0x100_0000
  }

  datatype LineInfo = LineInfo(len: nat, hash: nat, common: bool, patched: bool)

  ghost predicate Describes(table: seq<LineInfo>, text: seq<string>) {
    && |table| == |text|
    && forall i :: 0 <= i < |table| ==> table[i].len == |text[i]| && table[i].hash == HashLine(text[i])
  }

  // ---------- Where a hunk fits ----------

  /** What match_fragment tests when white space is neither corrected nor ignored */
  ghost predicate Fits(text: seq<string>, table: seq<LineInfo>, pre: seq<string>, pos: nat, beginning: bool, end: bool)
    requires |table| == |text|
  {
    && pos + |pre| <= |text|
    && (end ==> pos + |pre| == |text|)
    && (beginning ==> pos == 0)
    && (forall i :: pos <= i < pos + |pre| ==> !table[i].patched && HashLine(text[i]) == HashLine(pre[i - pos]))
    && Flat(pre) <= Flat(text[pos..])
    && (end ==> |Flat(pre)| == |Flat(text[pos..])|)
  }

  /** On complete lines the hunk fits exactly where its lines are and no earlier hunk has been. */
  lemma FitsIsEqual(text: seq<string>, table: seq<LineInfo>, pre: seq<string>, pos: nat, beginning: bool, end: bool)
    requires |table| == |text| && Complete(text) && Complete(pre)
    ensures Fits(text, table, pre, pos, beginning, end) <==>
      && pos + |pre| <= |text| && text[pos..pos + |pre|] == pre
      && (forall i :: pos <= i < pos + |pre| ==> !table[i].patched)
      && (end ==> pos + |pre| == |text|) && (beginning ==> pos == 0)
  {
    if pos + |pre| <= |text| {
      var rest := text[pos..];
      assert rest[..|pre|] == text[pos..pos + |pre|];
      if Fits(text, table, pre, pos, beginning, end) {
        LinesFromBytes(pre, rest);
      }
      if rest[..|pre|] == pre && (forall i :: pos <= i < pos + |pre| ==> !table[i].patched)
        && (end ==> pos + |pre| == |text|) && (beginning ==> pos == 0) {
        EqualFits(text, table, pre, pos, beginning, end);
      }
    }
  }

  /** Whatever the lines, a hunk fits where its lines are, if no earlier hunk has been there. */
  lemma EqualFits(text: seq<string>, table: seq<LineInfo>, pre: seq<string>, pos: nat, beginning: bool, end: bool)
    requires |table| == |text| && pos + |pre| <= |text| && text[pos..pos + |pre|] == pre
    requires forall i :: pos <= i < pos + |pre| ==> !table[i].patched
    requires (end ==> pos + |pre| == |text|) && (beginning ==> pos == 0)
    ensures Fits(text, table, pre, pos, beginning, end)
  {
    var rest := text[pos..];
    assert rest[..|pre|] == text[pos..pos + |pre|];
    BytesFromLines(pre, rest);
    assert forall i :: pos <= i < pos + |pre| ==> text[i] == pre[i - pos];
  }

  lemma FitsInside(text: seq<string>, table: seq<LineInfo>, pre: seq<string>, pos: nat, beginning: bool, end: bool)
    requires |table| == |text| && Fits(text, table, pre, pos, beginning, end)
    ensures pos + |pre| <= |text|
  {
  }

  lemma FitsAnywhere(text: seq<string>, table: seq<LineInfo>, pre: seq<string>, pos: nat, beginning: bool, end: bool)
    requires |table| == |text| && Fits(text, table, pre, pos, beginning, end)
    ensures Fits(text, table, pre, pos, false, false)
  {
  }

  /** The line at which the search starts. A negative one goes to the end of the file. */
  function StartLine(lines: nat, preLines: nat, line: int, beginning: bool, end: bool): (start: nat)
    ensures start <= lines
    ensures !beginning && !end && line < 0 ==> start == lines
    ensures !beginning && !end && 0 <= line <= lines ==> start == line
  {
    var l := if beginning then 0 else if end then lines - preLines else line;
    if l < 0 || l > lines then lines else l
  }

  /** Closer to the start; the later one if both are as close. */
  predicate Sooner(start: int, p: int, q: int) {
    var dp, dq := if p < start then start - p else p - start, if q < start then start - q else q - start;
    dp < dq || (dp == dq && p >= q)
  }

  function Spliced<T>(s: seq<T>, pos: nat, limit: nat, t: seq<T>): seq<T>
    requires pos + limit <= |s|
  {
    s[..pos] + t + s[pos + limit..]
  }

  /** Lines that a hunk wrote are not to be matched by a later one, unless overlap is allowed. */
  function Marked(table: seq<LineInfo>, allowOverlap: bool): (r: seq<LineInfo>)
    ensures |r| == |table|
    ensures forall i :: 0 <= i < |r| ==> r[i].len == table[i].len && r[i].hash == table[i].hash
  {
    seq(|table|, i requires 0 <= i < |table| => table[i].(patched := table[i].patched || !allowOverlap))
  }

  lemma SplicedFlat(text: seq<string>, pos: nat, limit: nat, post: seq<string>)
    requires pos + limit <= |text|
    ensures |Flat(text[..pos])| <= |Flat(text)| && |Flat(text[..pos + limit])| <= |Flat(text)|
    ensures Flat(Spliced(text, pos, limit, post)) ==
            Flat(text)[..|Flat(text[..pos])|] + Flat(post) + Flat(text)[|Flat(text[..pos + limit])|..]
  {
    hide Flat;
    FlatAt(text, pos);
    FlatAt(text, pos + limit);
    FlatConcat(text[..pos] + post, text[pos + limit..]);
    FlatConcat(text[..pos], post);
  }

  lemma SplicedDescribes(table: seq<LineInfo>, text: seq<string>, pos: nat, limit: nat, lines: seq<LineInfo>,
                         post: seq<string>, allowOverlap: bool)
    requires Describes(table, text) && Describes(lines, post) && pos + limit <= |text|
    ensures Describes(Spliced(table, pos, limit, Marked(lines, allowOverlap)), Spliced(text, pos, limit, post))
  {
    hide HashLine;
  }

  lemma FitsUnpatched(text: seq<string>, table: seq<LineInfo>, pre: seq<string>, pos: nat, beginning: bool, end: bool)
    requires |table| == |text| && Fits(text, table, pre, pos, beginning, end)
    ensures pos + |pre| <= |text| && forall i :: pos <= i < pos + |pre| ==> !table[i].patched
  {
  }

  /** Which side the search has looked further on, before step i. */
  predicate Turn(i: nat, start: int, back: int, forth: int, lines: int) {
    var db, df := start - back, forth - start;
    if i % 2 == 0 then (df <= db || back == 0) && (db <= df || forth == lines)
    else (df <= db + 1 || back == 0) && (db < df || forth == lines)
  }

  class Image {
    var buf: string
    var line: seq<LineInfo>
    ghost var text: seq<string>

    ghost predicate Valid()
      reads this
    {
      buf == Flat(text) && Describes(line, text)
    }

    constructor Empty()
      ensures Valid() && text == [] && line == []
    {
      buf, line, text := "", [], [];
    }

    /** Splits the bytes after each LF; a last line without one is a line too. */
    constructor Prepare(buf: string)
      ensures Valid() && this.buf == buf && IsText(text)
      ensures buf != "" && buf[|buf| - 1] == '\n' ==> Complete(text)
      ensures forall i :: 0 <= i < |line| ==> !line[i].patched
    {
      this.buf, line, text := buf, [], [];
      new;
      var cp := 0;
      while cp < |buf|
        invariant cp <= |buf| && this.buf == buf
        invariant Describes(line, text) && Flat(text) == buf[..cp]
        invariant IsText(text) && (cp < |buf| || (cp > 0 && buf[cp - 1] == '\n') ==> Complete(text))
        invariant forall i :: 0 <= i < |line| ==> !line[i].patched
      {
        hide HashLine;
        hide Flat;
        hide IsLine;
        hide IsPart;
        var next := EndOfLine(buf, cp);
        AddLine(buf[cp..next], false);
        FlatSnoc(text, buf[cp..next]);
        text := text + [buf[cp..next]];
        assert buf[..next] == buf[..cp] + buf[cp..next];
        cp := next;
      }
      assert buf[..cp] == buf;
    }

    static method EndOfLine(buf: string, cp: nat) returns (next: nat)
      requires cp < |buf|
      ensures cp < next <= |buf|
      ensures IsPart(buf[cp..next])
      ensures next < |buf| || buf[next - 1] == '\n' ==> IsLine(buf[cp..next])
    {
      next := cp;
      while next < |buf| && buf[next] != '\n'
        invariant cp <= next <= |buf|
        invariant forall i :: cp <= i < next ==> buf[i] != '\n'
      {
        next := next + 1;
      }
      if next < |buf| {
        next := next + 1;
      }
    }

    /** An entry in the table; the bytes are added apart. */
    method AddLine(bol: string, common: bool)
      modifies this`line
      ensures line == old(line) + [LineInfo(|bol|, HashLine(bol), common, false)]
    {
      line := line + [LineInfo(|bol|, HashLine(bol), common, false)];
    }

    /** A line with its bytes. */
    method Append(bol: string, common: bool)
      requires Valid()
      modifies this
      ensures Valid() && text == old(text) + [bol]
      ensures line == old(line) + [LineInfo(|bol|, HashLine(bol), common, false)]
    {
      hide HashLine;
      hide Flat;
      buf := buf + bol;
      AddLine(bol, common);
      FlatSnoc(text, bol);
      text := text + [bol];
    }

    method MatchFragment(pre: Image, current: nat, lno: nat, beginning: bool, end: bool) returns (ok: bool)
      requires Valid() && pre.Valid() && lno <= |text| && current == |Flat(text[..lno])|
      ensures ok <==> Fits(text, line, pre.text, lno, beginning, end)
    {
      hide Flat;
      hide HashLine;
      FlatAt(text, lno);
      if lno + |pre.line| > |line| || (end && lno + |pre.line| != |line|) || (beginning && lno != 0) {
        return false;
      }
      var i := 0;
      while i < |pre.line|
        invariant i <= |pre.line|
        invariant forall j :: lno <= j < lno + i ==>
                    !line[j].patched && HashLine(text[j]) == HashLine(pre.text[j - lno])
      {
        if line[lno + i].patched || pre.line[i].hash != line[lno + i].hash {
          return false;
        }
        i := i + 1;
      }
      var size := current + |pre.buf|;
      ok := (if end then size == |buf| else size <= |buf|) && buf[current..size] == pre.buf;
      SliceIsPrefix(buf, current, pre.buf);
    }

    static lemma SliceIsPrefix(s: string, at: nat, t: string)
      requires at <= |s|
      ensures t <= s[at..] <==> at + |t| <= |s| && s[at..at + |t|] == t
    {
      if at + |t| <= |s| {
        assert s[at..at + |t|] == s[at..][..|t|];
      }
    }

    /** The sum of the lengths of the lines before one is its offset in the bytes. */
    method Offset(lno: nat) returns (current: nat)
      requires Valid() && lno <= |line|
      ensures current == |Flat(text[..lno])|
    {
      hide Flat;
      hide HashLine;
      current := 0;
      assert Flat(text[..0]) == "" by {
        FlatAt(text, 0);
        FlatConcat(text[..0], text[..0]);
        assert text[..0] + text[..0] == text[..0];
      }
      for i := 0 to lno
        invariant current == |Flat(text[..i])|
      {
        FlatNext(text, i);
        current := current + line[i].len;
      }
    }

    method FindPos(pre: Image, line0: int, beginning0: bool, end: bool, allowOverlap: bool) returns (pos: int)
      requires Valid() && pre.Valid()
      ensures -1 <= pos <= |text|
      ensures
        var beginning := beginning0 && !(allowOverlap && end && |line| != |pre.line|);
        var start := StartLine(|line|, |pre.line|, line0, beginning, end);
        && (pos >= 0 ==> Fits(text, line, pre.text, pos, beginning, end))
        && (forall q: nat :: Fits(text, line, pre.text, q, beginning, end) ==> pos >= 0 && Sooner(start, pos, q))
    {
      hide Flat;
      hide HashLine;
      hide Fits;
      var beginning := beginning0 && !(allowOverlap && end && |line| != |pre.line|);
      var start := StartLine(|line|, |pre.line|, line0, beginning, end);
      forall q: nat | Fits(text, line, pre.text, q, beginning, end) ensures q <= |line| {
        FitsInside(text, line, pre.text, q, beginning, end);
      }
      var current := Offset(start);
      var backwards, forwards := current, current;
      var b, f, lno := start, start, start;
      var i := 0;
      while true
        invariant 0 <= b <= start <= f <= |line| && b <= lno <= f
        invariant current == |Flat(text[..lno])| && backwards == |Flat(text[..b])| && forwards == |Flat(text[..f])|
        invariant forall q :: b <= q <= f && q != lno ==> !Fits(text, line, pre.text, q, beginning, end)
        invariant lno == f || lno == b
        invariant Turn(i, start, b, f, |line|) && forall q :: 0 <= q <= |line| && (q < b || q > f) ==>
                  Sooner(start, lno, q)
        decreases |line| - (f - b)
      {
        var ok := MatchFragment(pre, current, lno, beginning, end);
        if ok {
          return lno;
        }
        if b == 0 && f == |line| {
          return -1;
        }
        if (i % 2 == 1 && b == 0) || (i % 2 == 0 && f == |line|) {
          i := i + 1;
        }
        if i % 2 == 1 {
          b := b - 1;
          FlatNext(text, b);
          backwards := backwards - line[b].len;
          current, lno := backwards, b;
        } else {
          FlatNext(text, f);
          forwards := forwards + line[f].len;
          f := f + 1;
          current, lno := forwards, f;
        }
        i := i + 1;
      }
    }

    /** Replaces the lines that the preimage matched by those of the postimage. */
    method Update(pos: nat, pre: Image, post: Image, allowOverlap: bool)
      requires Valid() && pre.Valid() && post.Valid() && pos <= |line| && post != this && pre != this
      modifies this
      ensures Valid()
      ensures
        var limit := if |pre.line| > |old(line)| - pos then |old(line)| - pos else |pre.line|;
        && text == Spliced(old(text), pos, limit, post.text)
        && line == Spliced(old(line), pos, limit, Marked(post.line, allowOverlap))
    {
      hide Flat;
      hide HashLine;
      var limit := |pre.line|;
      if limit > |line| - pos {
        limit := |line| - pos;
      }
      var appliedAt := Offset(pos);
      var removed := 0;
      for i := 0 to limit
        invariant unchanged(this) && appliedAt + removed == |Flat(text[..pos + i])|
      {
        FlatNext(text, pos + i);
        removed := removed + line[pos + i].len;
      }
      SplicedFlat(text, pos, limit, post.text);
      SplicedDescribes(line, text, pos, limit, post.line, post.text, allowOverlap);
      hide Describes;
      buf := buf[..appliedAt] + post.buf + buf[appliedAt + removed..];
      line := line[..pos] + Marked(post.line, allowOverlap) + line[pos + limit..];
      text := Spliced(text, pos, limit, post.text);
    }

    method RemoveFirstLine()
      requires Valid() && line != []
      modifies this
      ensures Valid() && text == old(text)[1..] && line == old(line)[1..]
    {
      hide HashLine;
      assert Flat(text) == text[0] + Flat(text[1..]);
      buf := buf[line[0].len..];
      line := line[1..];
      text := text[1..];
    }

    method RemoveLastLine()
      requires Valid() && line != []
      modifies this
      ensures Valid() && text == old(text)[..|old(text)| - 1] && line == old(line)[..|old(line)| - 1]
    {
      hide HashLine;
      hide Flat;
      var last := |line| - 1;
      FlatNext(text, last);
      assert text[..last + 1] == text;
      buf := buf[..|buf| - line[last].len];
      line := line[..last];
      text := text[..last];
    }
  }
}
