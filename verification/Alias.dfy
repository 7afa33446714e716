/** Quoting and splitting of command lines (alias.c) */
module Alias {

  datatype Error = BadEnding | UnclosedQuote | TooMany

  datatype Result<T> = Ok(value: T) | Err(error: Error)

  const INT_MAX := 0x7FFF_FFFF

  predicate IsSpace(c: char) {
    c == ' ' || c == '\t' || c == '\n' || c == '\r'
  }

  function SkipSpace(s: string, i: nat): (j: nat)
    requires i <= |s|
    ensures i <= j <= |s| && (j < |s| ==> !IsSpace(s[j])) && forall k :: i <= k < j ==> IsSpace(s[k])
    decreases |s| - i
  {
    if i < |s| && IsSpace(s[i]) then SkipSpace(s, i + 1) else i
  }

  /** What a command line means, from a place in it on; quoted is the open quote, or NUL. */
  function Parse(s: string, i: nat, quoted: char, done: seq<string>, cur: string): Result<seq<string>>
    requires i <= |s|
    decreases |s| - i
  {
    if i == |s| then
      if quoted != '\0' then Err(UnclosedQuote) else if |done| + 1 >= INT_MAX then Err(TooMany) else Ok(done + [cur])
    else
      var c := s[i];
      if quoted == '\0' && IsSpace(c) then Parse(s, SkipSpace(s, i + 1), quoted, done + [cur], "")
      else if quoted == '\0' && (c == '\'' || c == '"') then Parse(s, i + 1, c, done, cur)
      else if c == quoted then Parse(s, i + 1, '\0', done, cur)
      else if c == '\\' && quoted != '\'' then
        if i + 1 == |s| then Err(BadEnding) else Parse(s, i + 2, quoted, done, cur + [s[i + 1]])
      else Parse(s, i + 1, quoted, done, cur + [c])
  }

  // ---------- Quoting ----------

  function Escape(c: char): string {
    if c == '"' || c == '\\' then ['\\', c] else [c]
  }

  function Escaped(s: string): string {
    if s == "" then "" else Escaped(s[..|s| - 1]) + Escape(s[|s| - 1])
  }

  function Quoted(args: seq<string>): string {
    if args == [] then ""
    else
      var init := args[..|args| - 1];
      Quoted(init) + (if init == [] then "" else " ") + ['"'] + Escaped(args[|args| - 1]) + ['"']
  }

  method QuoteCmdline(args: seq<string>) returns (buf: string)
    ensures buf == Quoted(args)
  {
    buf := "";
    var i := 0;
    while i < |args|
      invariant i <= |args| && buf == Quoted(args[..i])
    {
      assert args[..i + 1][..i] == args[..i];
      ghost var start := buf;
      if i != 0 {
        buf := buf + " ";
      }
      buf := buf + ['"'];
      ghost var open := buf;
      var j := 0;
      while j < |args[i]|
        invariant j <= |args[i]| && buf == open + Escaped(args[i][..j])
      {
        var c := args[i][j];
        assert args[i][..j + 1][..j] == args[i][..j];
        if c == '"' || c == '\\' {
          buf := buf + ['\\'];
        }
        buf := buf + [c];
        j := j + 1;
      }
      assert args[i][..j] == args[i];
      buf := buf + ['"'];
      i := i + 1;
    }
    assert args[..i] == args;
  }

  ghost predicate At(s: string, i: nat, t: string) {
    i + |t| <= |s| && s[i..i + |t|] == t
  }

  lemma AtParts(s: string, i: nat, t: string, u: string)
    requires At(s, i, t + u)
    ensures At(s, i, t) && At(s, i + |t|, u)
  {
    var w := s[i..i + |t| + |u|];
    assert s[i..i + |t|] == w[..|t|] && s[i + |t|..i + |t| + |u|] == w[|t|..];
  }

  lemma AtInside(s: string, i: nat, t: string)
    requires At(s, i, t)
    ensures i + |t| <= |s|
  {
  }

  lemma AtChar(s: string, i: nat, t: string, k: nat)
    requires At(s, i, t) && k < |t|
    ensures s[i + k] == t[k]
  {
    assert s[i + k] == s[i..i + |t|][k];
  }

  /** An argument that was quoted is read as it was. */
  lemma {:induction false} ParseEscaped(s: string, i: nat, arg: string, done: seq<string>, cur: string)
    requires At(s, i, Escaped(arg)) && forall k :: 0 <= k < |arg| ==> arg[k] != '\0'
    ensures i + |Escaped(arg)| <= |s|
    ensures Parse(s, i, '"', done, cur) == Parse(s, i + |Escaped(arg)|, '"', done, cur + arg)
  {
    hide At;
    hide Escape;
    hide Parse;
    AtInside(s, i, Escaped(arg));
    if arg == "" {
      assert cur + arg == cur;
    } else {
      var init, c := arg[..|arg| - 1], arg[|arg| - 1];
      var e := Escaped(init);
      assert Escaped(arg) == e + Escape(c);
      hide Escaped;
      AtParts(s, i, e, Escape(c));
      ParseEscaped(s, i, init, done, cur);
      ParseChar(s, i + |e|, c, done, cur + init);
      assert cur + init + [c] == cur + arg;
    }
  }

  lemma ParseChar(s: string, j: nat, c: char, done: seq<string>, cur: string)
    requires c != '\0' && At(s, j, Escape(c))
    ensures j + |Escape(c)| <= |s| && Parse(s, j, '"', done, cur) == Parse(s, j + |Escape(c)|, '"', done, cur + [c])
  {
    hide At;
    AtInside(s, j, Escape(c));
    AtChar(s, j, Escape(c), 0);
    AtChar(s, j, Escape(c), |Escape(c)| - 1);
  }

  ghost predicate NulFree(args: seq<string>) {
    forall i, k :: 0 <= i < |args| && 0 <= k < |args[i]| ==> args[i][k] != '\0'
  }

  /** A quoted argument, quotes and all, is read from outside quotes to outside quotes. */
  lemma ParseArgument(s: string, i: nat, arg: string, done: seq<string>)
    requires forall k :: 0 <= k < |arg| ==> arg[k] != '\0'
    requires At(s, i, ['"'] + Escaped(arg) + ['"'])
    ensures i + |Escaped(arg)| + 2 <= |s|
    ensures Parse(s, i, '\0', done, "") == Parse(s, i + |Escaped(arg)| + 2, '\0', done, arg)
  {
    hide Parse;
    hide Escaped;
    var e := Escaped(arg);
    var q := ['"'] + e;
    AtParts(s, i, q, ['"']);
    AtParts(s, i, ['"'], e);
    AtChar(s, i, ['"'], 0);
    AtChar(s, i + |q|, ['"'], 0);
    ParseStep(s, i, '\0', done, "");
    ParseStep(s, i + 1 + |e|, '"', done, arg);
    ParseEscaped(s, i + 1, arg, done, "");
    assert "" + arg == arg;
  }

  lemma {:induction false} ParseQuoted(s: string, args: seq<string>, n: nat)
    requires 0 < n <= |args| && NulFree(args) && At(s, 0, Quoted(args[..n]))
    ensures |Quoted(args[..n])| <= |s|
    ensures Parse(s, 0, '\0', [], "") == Parse(s, |Quoted(args[..n])|, '\0', args[..n - 1], args[n - 1])
    decreases n
  {
    hide Parse;
    hide Escaped;
    hide At;
    var before, arg := Quoted(args[..n - 1]), args[n - 1];
    assert args[..n][..n - 1] == args[..n - 1];
    var q := ['"'] + Escaped(arg) + ['"'];
    if n == 1 {
      assert Quoted(args[..n]) == q;
      ParseArgument(s, 0, arg, []);
    } else {
      assert Quoted(args[..n]) == before + (" " + q);
      hide Quoted;
      AtParts(s, 0, before, " " + q);
      ParseQuoted(s, args, n - 1);
      var p := |before|;
      AtChar(s, p, " " + q, 0);
      AtChar(s, p, " " + q, 1);
      AtParts(s, p, " ", q);
      AtInside(s, p, " " + q);
      ParseBlank(s, p, args[..n - 2], args[n - 2]);
      assert args[..n - 2] + [args[n - 2]] == args[..n - 1];
      ParseArgument(s, p + 1, arg, args[..n - 1]);
    }
  }

  lemma ParseBlank(s: string, p: nat, done: seq<string>, cur: string)
    requires p + 1 < |s| && s[p] == ' ' && !IsSpace(s[p + 1])
    ensures Parse(s, p, '\0', done, cur) == Parse(s, p + 1, '\0', done + [cur], "")
  {
  }

  /** Splitting what was quoted gives the arguments back. */
  lemma RoundTrip(args: seq<string>)
    requires 0 < |args| < INT_MAX && NulFree(args)
    ensures Parse(Quoted(args), 0, '\0', [], "") == Ok(args)
  {
    hide Quoted;
    var n, s := |args|, Quoted(args);
    assert args[..n] == args;
    assert args[..n - 1] + [args[n - 1]] == args;
    assert Parse(s, |s|, '\0', args[..n - 1], args[n - 1]) == Ok(args);
    hide Parse;
    assert s[0..0 + |s|] == s;
    ParseQuoted(s, args, n);
  }

  // ---------- Splitting in place ----------

  /** Strings one after the other, each with its NUL */
  function Joined(args: seq<string>): string {
    if args == [] then "" else Joined(args[..|args| - 1]) + args[|args| - 1] + ['\0']
  }

  /** The places at which the strings start */
  function Starts(args: seq<string>): seq<nat> {
    if args == [] then [] else Starts(args[..|args| - 1]) + [|Joined(args[..|args| - 1])|]
  }

  lemma {:induction false} StartsLength(args: seq<string>)
    ensures |Starts(args)| == |args|
  {
    if args != [] {
      StartsLength(args[..|args| - 1]);
    }
  }

  lemma OneMore(args: seq<string>, cur: string)
    ensures Joined(args + [cur]) == Joined(args) + cur + ['\0']
    ensures Starts(args + [cur]) == Starts(args) + [|Joined(args)|]
  {
    assert (args + [cur])[..|args|] == args;
  }

  /** One step of the reading of a line */
  lemma ParseStep(s: string, i: nat, quoted: char, done: seq<string>, cur: string)
    requires i <= |s|
    ensures i == |s| ==>
      Parse(s, i, quoted, done, cur) ==
        if quoted != '\0' then Err(UnclosedQuote) else if |done| + 1 >= INT_MAX then Err(TooMany) else Ok(done + [cur])
    ensures i < |s| ==>
      var c := s[i];
      Parse(s, i, quoted, done, cur) ==
        if quoted == '\0' && IsSpace(c) then Parse(s, SkipSpace(s, i + 1), quoted, done + [cur], "")
        else if quoted == '\0' && (c == '\'' || c == '"') then Parse(s, i + 1, c, done, cur)
        else if c == quoted then Parse(s, i + 1, '\0', done, cur)
        else if c == '\\' && quoted != '\'' then
          if i + 1 == |s| then Err(BadEnding) else Parse(s, i + 2, quoted, done, cur + [s[i + 1]])
        else Parse(s, i + 1, quoted, done, cur + [c])
  {
  }

  /** What is left of the line is still in the buffer, and what was read is at its start. */
  ghost predicate Reading(buffer: string, s: string, src: int, dst: int, args: seq<string>, cur: string) {
    && 0 <= dst <= src <= |s| && |buffer| == |s| + 1 && (forall k :: src <= k < |s| ==> buffer[k] == s[k])
    && buffer[|s|] == '\0'
    && buffer[..dst] == Joined(args) + cur
  }

  /** A character written where the line has been read already */
  lemma ReadingWrite(buffer: string, s: string, src: int, dst: int, args: seq<string>, cur: string, c: char)
    requires Reading(buffer, s, src, dst, args, cur) && src < |s|
    ensures Reading(buffer[dst := c], s, src + 1, dst + 1, args, cur + [c])
    ensures c == '\0' ==> Reading(buffer[dst := c], s, src + 1, dst + 1, args + [cur], "")
  {
    hide Joined;
    OneMore(args, cur);
    var b := buffer[dst := c];
    assert b[..dst + 1] == buffer[..dst] + [c];
    assert Joined(args) + cur + [c] == Joined(args) + (cur + [c]);
    assert Joined(args + [cur]) + "" == Joined(args + [cur]);
  }

  lemma ReadingOn(buffer: string, s: string, src: int, dst: int, args: seq<string>, cur: string, next: int)
    requires Reading(buffer, s, src, dst, args, cur) && src <= next <= |s|
    ensures Reading(buffer, s, next, dst, args, cur)
  {
  }

  /** The buffer from the cursor on is the line, and its NUL. */
  lemma ReadingAt(buffer: string, s: string, src: int, dst: int, args: seq<string>, cur: string)
    requires Reading(buffer, s, src, dst, args, cur)
    ensures 0 <= dst <= src <= |s| && |buffer| == |s| + 1 && buffer[src] == (if src < |s| then s[src] else '\0')
    ensures src < |s| ==> buffer[src + 1] == (if src + 1 < |s| then s[src + 1] else '\0')
  {
  }

  lemma ReadingEnds(buffer: string, s: string, src: int, dst: int, args: seq<string>, cur: string)
    requires Reading(buffer, s, src, dst, args, cur)
    ensures Joined(args + [cur]) <= buffer[dst := '\0']
  {
    hide Joined;
    OneMore(args, cur);
    assert buffer[dst := '\0'][..dst + 1] == buffer[..dst] + ['\0'];
  }

  /** Goes past further white space. */
  method SkipBlank(cmdline: array<char>, at: nat, ghost s: string) returns (src: nat)
    requires at <= |s| && cmdline.Length == |s| + 1 && (forall k :: at <= k < |s| ==> cmdline[k] == s[k])
             && cmdline[|s|] == '\0'
    requires forall k :: 0 <= k < |s| ==> s[k] != '\0'
    ensures src == SkipSpace(s, at)
  {
    src := at;
    while cmdline[src] != '\0' && IsSpace(cmdline[src])
      invariant at <= src <= |s| && SkipSpace(s, src) == SkipSpace(s, at)
      decreases |s| - src
    {
      src := src + 1;
    }
  }

  lemma ReadingRest(buffer: string, s: string, src: int, dst: int, args: seq<string>, cur: string)
    requires Reading(buffer, s, src, dst, args, cur)
    ensures |buffer| == |s| + 1 && (forall k :: src <= k < |s| ==> buffer[k] == s[k]) && buffer[|s|] == '\0'
  {
  }

  /** Ends an argument with a NUL and goes past the white space after it. */
  method EndArgument(cmdline: array<char>, dst: nat, src: nat, ghost s: string, ghost args: seq<string>,
                     ghost cur: string)
    returns (dst': nat, src': nat)
    requires src < |s| && Reading(cmdline[..], s, src, dst, args, cur) && forall k :: 0 <= k < |s| ==> s[k] != '\0'
    modifies cmdline
    ensures dst' == dst + 1 && src' == SkipSpace(s, src + 1) && Reading(cmdline[..], s, src', dst', args + [cur], "")
  {
    hide Reading;
    ghost var buffer := cmdline[..];
    ReadingAt(buffer, s, src, dst, args, cur);
    ReadingWrite(buffer, s, src, dst, args, cur, '\0');
    cmdline[dst] := '\0';
    assert cmdline[..] == buffer[dst := '\0'];
    dst' := dst + 1;
    ReadingRest(cmdline[..], s, src + 1, dst', args + [cur], "");
    src' := SkipBlank(cmdline, src + 1, s);
    ReadingOn(cmdline[..], s, src + 1, dst', args + [cur], "", src');
  }

  /** Adds a character to the argument, the next one if it is a backslash that counts. */
  method TakeChar(cmdline: array<char>, dst: nat, src: nat, quoted: char, ghost s: string, ghost args: seq<string>,
                  ghost cur: string)
    returns (ended: bool, src': nat, c: char)
    requires src < |s| && Reading(cmdline[..], s, src, dst, args, cur) && (forall k :: 0 <= k < |s| ==> s[k] != '\0')
    requires s[src] != quoted && (quoted == '\0' ==> !IsSpace(s[src]) && s[src] != '\'' && s[src] != '"')
    modifies cmdline
    ensures ended ==> Parse(s, src, quoted, args, cur) == Err(BadEnding)
    ensures !ended ==>
      && src < src' <= |s| && Reading(cmdline[..], s, src', dst + 1, args, cur + [c])
      && Parse(s, src, quoted, args, cur) == Parse(s, src', quoted, args, cur + [c])
  {
    hide Reading;
    hide Parse;
    ghost var buffer := cmdline[..];
    ReadingAt(buffer, s, src, dst, args, cur);
    ParseStep(s, src, quoted, args, cur);
    src' := src;
    c := cmdline[src'];
    if c == '\\' && quoted != '\'' {
      src' := src' + 1;
      c := cmdline[src'];
      if c == '\0' {
        return true, src', c;
      }
      ReadingOn(buffer, s, src, dst, args, cur, src');
    }
    ReadingWrite(buffer, s, src', dst, args, cur, c);
    cmdline[dst] := c;
    assert cmdline[..] == buffer[dst := c];
    ended, src' := false, src' + 1;
  }

  /**
   Splits the line in the buffer that it is in. The buffer is written only where it has been read:
   dst never overtakes src. On success it starts with the arguments, each ended by a NUL, and argv
   is where they start.
   */
  method SplitCmdline(cmdline: array<char>) returns (r: Result<seq<nat>>, ghost args: seq<string>)
    requires cmdline.Length > 0 && cmdline[cmdline.Length - 1] == '\0'
    requires forall i :: 0 <= i < cmdline.Length - 1 ==> cmdline[i] != '\0'
    modifies cmdline
    ensures
      match Parse(old(cmdline[..cmdline.Length - 1]), 0, '\0', [], "")
      case Err(e) => r == Err(e)
      case Ok(a) => args == a && r == Ok(Starts(args)) && Joined(args) <= cmdline[..]
  {
    hide Parse;
    ghost var s := cmdline[..cmdline.Length - 1];
    var src, dst, quoted := 0, 0, '\0';
    var argv: seq<nat> := [0];
    args := [];
    ghost var cur := "";
    assert Joined([]) == "" && Starts([]) == [];
    hide Joined;
    hide Starts;
    assert Reading(cmdline[..], s, 0, 0, [], "");
    hide Reading;
    ReadingAt(cmdline[..], s, src, dst, args, cur);
    while cmdline[src] != '\0'
      invariant 0 <= dst <= src <= |s| && Reading(cmdline[..], s, src, dst, args, cur)
      invariant argv == Starts(args) + [|Joined(args)|] && dst == |Joined(args)| + |cur|
      invariant Parse(s, src, quoted, args, cur) == Parse(s, 0, '\0', [], "")
      invariant cmdline[src] == if src < |s| then s[src] else '\0'
      decreases |s| - src
    {
      var c := cmdline[src];
      ParseStep(s, src, quoted, args, cur);
      if quoted == '\0' && IsSpace(c) {
        OneMore(args, cur);
        dst, src := EndArgument(cmdline, dst, src, s, args, cur);
        args := args + [cur];
        cur := "";
        argv := argv + [dst];
      } else if (quoted == '\0' && (c == '\'' || c == '"')) || c == quoted {
        ReadingOn(cmdline[..], s, src, dst, args, cur, src + 1);
        quoted := if c == quoted then '\0' else c;
        src := src + 1;
      } else {
        var ended;
        ended, src, c := TakeChar(cmdline, dst, src, quoted, s, args, cur);
        if ended {
          return Err(BadEnding), [];
        }
        cur := cur + [c];
        dst := dst + 1;
      }
      ReadingAt(cmdline[..], s, src, dst, args, cur);
    }
    ParseStep(s, src, quoted, args, cur);
    ReadingEnds(cmdline[..], s, src, dst, args, cur);
    ReadingAt(cmdline[..], s, src, dst, args, cur);
    ghost var buffer := cmdline[..];
    cmdline[dst] := '\0';
    assert cmdline[..] == buffer[dst := '\0'];
    if quoted != '\0' {
      return Err(UnclosedQuote), [];
    }
    StartsLength(args);
    OneMore(args, cur);
    args := args + [cur];
    if |argv| >= INT_MAX {
      return Err(TooMany), args;
    }
    r := Ok(argv);
  }
}
