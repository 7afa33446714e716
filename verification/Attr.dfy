/**
 Attribute lookup (attr.c): a stack of attribute files that is kept from one path to
 the next, and the filling in of attribute values with macro expansion.
 */
module Attr {

  datatype Option<T> = None | Some(value: T)

  datatype Value = Unknown | True | False | Unset | Text(text: string)

  /** One item of a line: attribute number and what it is set to. */
  datatype State = State(attr: nat, setto: Value)

  /** A line of an attribute file: a pattern with its states, or the definition of a macro. */
  datatype Rule = Rule(macro: Option<nat>, pattern: string, states: seq<State>)

  datatype Frame = Frame(origin: Option<string>, rules: seq<Rule>)

  // ---------- The simple scan ----------

  function Unknowns(values: seq<Value>): nat {
    if values == [] then 0 else Unknowns(values[..|values| - 1]) + if values[|values| - 1] == Unknown then 1 else 0
  }

  lemma {:induction false} SetOne(values: seq<Value>, i: nat, v: Value)
    requires i < |values| && values[i] == Unknown && v != Unknown
    ensures Unknowns(values[i := v]) == Unknowns(values) - 1
  {
    var n := |values| - 1;
    if i < n {
      SetOne(values[..n], i, v);
      assert values[i := v][..n] == values[..n][i := v];
    } else {
      assert values[i := v][..n] == values[..n];
    }
  }

  lemma {:induction false} NoneUnknown(values: seq<Value>, i: nat)
    requires i < |values| && Unknowns(values) == 0
    ensures values[i] != Unknown
  {
    var n := |values| - 1;
    if i < n {
      NoneUnknown(values[..n], i);
    }
  }

  predicate StatesOk(states: seq<State>, n: nat) {
    forall i :: 0 <= i < |states| ==> states[i].attr < n && states[i].setto != Unknown
  }

  predicate MacrosOk(macros: seq<Option<Rule>>) {
    forall i :: 0 <= i < |macros| && macros[i].Some? ==> StatesOk(macros[i].value.states, |macros|)
  }

  function Reversed<T>(s: seq<T>): (r: seq<T>)
    ensures |r| == |s| && forall i :: 0 <= i < |s| ==> r[i] == s[|s| - 1 - i]
  {
    if s == [] then [] else [s[|s| - 1]] + Reversed(s[..|s| - 1])
  }

  function Expansion(macros: seq<Option<Rule>>, s: State): seq<State>
    requires s.attr < |macros|
  {
    if s.setto == True && macros[s.attr].Some? then Reversed(macros[s.attr].value.states) else []
  }

  /**
   The first setting of an attribute wins. One that sets a macro is followed by the settings the macro
   stands for, the last first.
   */
  function Scan(work: seq<State>, values: seq<Value>, macros: seq<Option<Rule>>): (r: seq<Value>)
    requires |macros| == |values| && StatesOk(work, |values|) && MacrosOk(macros)
    ensures |r| == |values|
    decreases Unknowns(values), |work|
  {
    if work == [] then values
    else if values[work[0].attr] != Unknown then Scan(work[1..], values, macros)
    else
      SetOne(values, work[0].attr, work[0].setto);
      Scan(Expansion(macros, work[0]) + work[1..], values[work[0].attr := work[0].setto], macros)
  }

  lemma {:induction false} ScanConcat(a: seq<State>, b: seq<State>, values: seq<Value>, macros: seq<Option<Rule>>)
    requires |macros| == |values| && StatesOk(a, |values|) && StatesOk(b, |values|) && MacrosOk(macros)
    ensures Scan(a + b, values, macros) == Scan(b, Scan(a, values, macros), macros)
    decreases Unknowns(values), |a|
  {
    if a == [] {
      assert a + b == b;
    } else {
      assert (a + b)[1..] == a[1..] + b;
      if values[a[0].attr] != Unknown {
        ScanConcat(a[1..], b, values, macros);
      } else {
        SetOne(values, a[0].attr, a[0].setto);
        var e := Expansion(macros, a[0]);
        assert e + (a + b)[1..] == (e + a[1..]) + b;
        ScanConcat(e + a[1..], b, values[a[0].attr := a[0].setto], macros);
      }
    }
  }

  /** Once every attribute is set nothing changes: it is safe to stop. */
  lemma {:induction false} ScanDone(work: seq<State>, values: seq<Value>, macros: seq<Option<Rule>>)
    requires |macros| == |values| && StatesOk(work, |values|) && MacrosOk(macros) && Unknowns(values) == 0
    ensures Scan(work, values, macros) == values
  {
    if work != [] {
      NoneUnknown(values, work[0].attr);
      ScanDone(work[1..], values, macros);
    }
  }

  /** What is set stays, and every attribute that has a setting is set in the end. */
  lemma {:induction false} ScanSets(work: seq<State>, values: seq<Value>, macros: seq<Option<Rule>>, i: nat)
    requires |macros| == |values| && StatesOk(work, |values|) && MacrosOk(macros) && i < |values|
    ensures values[i] != Unknown ==> Scan(work, values, macros)[i] == values[i]
    ensures forall j :: 0 <= j < |work| && work[j].attr == i ==> Scan(work, values, macros)[i] != Unknown
    decreases Unknowns(values), |work|
  {
    if work != [] {
      if values[work[0].attr] != Unknown {
        ScanSets(work[1..], values, macros, i);
        assert forall j :: 0 < j < |work| ==> work[j] == work[1..][j - 1];
      } else {
        SetOne(values, work[0].attr, work[0].setto);
        var next := Expansion(macros, work[0]) + work[1..];
        ScanSets(next, values[work[0].attr := work[0].setto], macros, i);
        var k := |Expansion(macros, work[0])|;
        assert forall j :: 0 < j < |work| ==> work[j] == next[k + j - 1];
      }
    }
  }

  function FirstSetting(work: seq<State>, i: nat): Value {
    if work == [] then Unknown else if work[0].attr == i then work[0].setto else FirstSetting(work[1..], i)
  }

  lemma {:induction false} FirstSettingConcat(a: seq<State>, b: seq<State>, i: nat)
    requires forall j :: 0 <= j < |a| ==> a[j].attr != i
    ensures FirstSetting(a + b, i) == FirstSetting(b, i)
  {
    if a == [] {
      assert a + b == b;
    } else {
      assert (a + b)[1..] == a[1..] + b;
      FirstSettingConcat(a[1..], b, i);
    }
  }

  /** No macro says anything of the attribute. */
  ghost predicate Apart(macros: seq<Option<Rule>>, i: nat) {
    forall m :: 0 <= m < |macros| && macros[m].Some? ==> NotSet(macros[m].value.states, i)
  }

  ghost predicate NotSet(states: seq<State>, i: nat) {
    forall j :: 0 <= j < |states| ==> states[j].attr != i
  }

  lemma ExpansionApart(macros: seq<Option<Rule>>, s: State, i: nat)
    requires Apart(macros, i) && s.attr < |macros|
    ensures NotSet(Expansion(macros, s), i)
  {
  }

  /** An attribute that no macro sets has the value of its first setting. */
  lemma {:induction false} FirstWins(work: seq<State>, values: seq<Value>, macros: seq<Option<Rule>>, i: nat)
    requires |macros| == |values| && StatesOk(work, |values|) && MacrosOk(macros) && i < |values|
             && values[i] == Unknown
    requires Apart(macros, i)
    ensures Scan(work, values, macros)[i] == FirstSetting(work, i)
    decreases Unknowns(values), |work|
  {
    hide Apart;
    hide Reversed;
    if work != [] {
      if values[work[0].attr] != Unknown {
        FirstWins(work[1..], values, macros, i);
      } else {
        SetOne(values, work[0].attr, work[0].setto);
        var e, v := Expansion(macros, work[0]), values[work[0].attr := work[0].setto];
        if work[0].attr == i {
          ScanSets(e + work[1..], v, macros, i);
        } else {
          FirstWins(e + work[1..], v, macros, i);
          ExpansionApart(macros, work[0], i);
          FirstSettingConcat(e, work[1..], i);
        }
      }
    }
  }

  /** A macro that ends up set has had its attributes set. */
  ghost predicate Expanded(values: seq<Value>, macros: seq<Option<Rule>>, m: nat)
    requires m < |values| == |macros|
  {
    values[m] == True && macros[m].Some? ==>
      forall j :: 0 <= j < |macros[m].value.states| ==>
        macros[m].value.states[j].attr < |values| ==> values[macros[m].value.states[j].attr] != Unknown
  }

  lemma {:induction false} ScanExpands(work: seq<State>, values: seq<Value>, macros: seq<Option<Rule>>, m: nat)
    requires |macros| == |values| && StatesOk(work, |values|) && MacrosOk(macros) && m < |values|
             && values[m] == Unknown
    ensures Expanded(Scan(work, values, macros), macros, m)
    decreases Unknowns(values), |work|
  {
    if work != [] {
      if values[work[0].attr] != Unknown {
        ScanExpands(work[1..], values, macros, m);
      } else {
        SetOne(values, work[0].attr, work[0].setto);
        var next, v := Expansion(macros, work[0]) + work[1..], values[work[0].attr := work[0].setto];
        if work[0].attr != m {
          ScanExpands(next, v, macros, m);
        } else {
          ScanSets(next, v, macros, m);
          if work[0].setto == True && macros[m].Some? {
            var states := macros[m].value.states;
            forall j | 0 <= j < |states| ensures Scan(next, v, macros)[states[j].attr] != Unknown {
              ScanSets(next, v, macros, states[j].attr);
              assert next[|states| - 1 - j] == states[j];
            }
          }
        }
      }
    }
  }

  // ---------- The stack ----------

  /** Attribute files that do not change, and the matching of a pattern against a path from a directory. */
  datatype World = World(base: seq<Frame>, read: string -> seq<Rule>, info: seq<Rule>,
                         matches: (string, string, string) -> bool)

  /** The directory that a directory is in: what is before its last slash */
  function Parent(dir: string): (p: string)
    requires dir != ""
    ensures p < dir && (forall k :: |p| < k < |dir| ==> dir[k] != '/') && (p != "" ==> dir[|p|] == '/')
  {
    var n := |dir| - 1;
    if dir[n] == '/' || n == 0 then dir[..n] else Parent(dir[..n])
  }

  function DirFrame(w: World, dir: string): Frame {
    Frame(Some(dir), w.read(dir))
  }

  /** The frames of the directories above a directory, and its own */
  function Dirs(w: World, dir: string): seq<Frame>
    decreases |dir|
  {
    if dir == "" then [] else Dirs(w, Parent(dir)) + [DirFrame(w, dir)]
  }

  function Fixed(w: World): seq<Frame> {
    w.base + [DirFrame(w, "")]
  }

  /** The stack for a directory, built from nothing; the top is at the end. */
  function Fresh(w: World, dir: string): seq<Frame> {
    Fixed(w) + Dirs(w, dir) + [Frame(None, w.info)]
  }

  /** A directory found by going on to the end of the next component is in the one that was gone on from. */
  lemma NextIsChild(goal: string, len: nat, e: nat)
    requires len < e <= |goal| && (len == 0 || goal[len] == '/') && forall k :: len < k < e ==> goal[k] != '/'
    ensures Parent(goal[..e]) == goal[..len]
  {
    var dir, p := goal[..e], Parent(goal[..e]);
    assert forall k :: 0 <= k < e ==> dir[k] == goal[k];
    assert |p| == len;
  }

  // ---------- What a stack says of a path ----------

  predicate RulesOk(rules: seq<Rule>, n: nat) {
    forall i :: 0 <= i < |rules| ==> StatesOk(rules[i].states, n) && (rules[i].macro.Some? ==> rules[i].macro.value < n)
  }

  predicate FramesOk(stack: seq<Frame>, n: nat) {
    forall i :: 0 <= i < |stack| ==> RulesOk(stack[i].rules, n)
  }

  /** Every attribute in the files has been given a number below n. */
  ghost predicate WorldOk(w: World, n: nat) {
    FramesOk(w.base, n) && RulesOk(w.info, n) && forall dir :: RulesOk(w.read(dir), n)
  }

  lemma {:induction false} DirsOk(w: World, dir: string, n: nat)
    requires WorldOk(w, n)
    ensures FramesOk(Dirs(w, dir), n)
    decreases |dir|
  {
    hide RulesOk;
    if dir != "" {
      DirsOk(w, Parent(dir), n);
    }
  }

  lemma FreshOk(w: World, dir: string, n: nat)
    requires WorldOk(w, n)
    ensures FramesOk(Fresh(w, dir), n)
  {
    hide RulesOk;
    hide Dirs;
    DirsOk(w, dir, n);
  }

  function Base(f: Frame): string {
    if f.origin.Some? then f.origin.value else ""
  }

  /** The settings of the rules that match, the last rule and the last setting first */
  function RulesWork(w: World, path: string, base: string, rules: seq<Rule>): seq<State> {
    if rules == [] then []
    else
      var r := rules[|rules| - 1];
      (if r.macro.None? && w.matches(path, base, r.pattern) then Reversed(r.states) else [])
      + RulesWork(w, path, base, rules[..|rules| - 1])
  }

  /** The settings for a path, the top frame first */
  function StackWork(w: World, path: string, stack: seq<Frame>): seq<State> {
    if stack == [] then []
    else
      var top := stack[|stack| - 1];
      RulesWork(w, path, Base(top), top.rules) + StackWork(w, path, stack[..|stack| - 1])
  }

  lemma {:induction false} RulesWorkOk(w: World, path: string, base: string, rules: seq<Rule>, n: nat)
    requires RulesOk(rules, n)
    ensures StatesOk(RulesWork(w, path, base, rules), n)
  {
    if rules != [] {
      RulesWorkOk(w, path, base, rules[..|rules| - 1], n);
      assert StatesOk(rules[|rules| - 1].states, n);
    }
  }

  lemma {:induction false} StackWorkOk(w: World, path: string, stack: seq<Frame>, n: nat)
    requires FramesOk(stack, n)
    ensures StatesOk(StackWork(w, path, stack), n)
  {
    hide RulesOk;
    if stack != [] {
      RulesWorkOk(w, path, Base(stack[|stack| - 1]), stack[|stack| - 1].rules, n);
      StackWorkOk(w, path, stack[..|stack| - 1], n);
    }
  }

  function MacroInRules(rules: seq<Rule>, m: nat): Option<Rule> {
    if rules == [] then None
    else if rules[|rules| - 1].macro == Some(m) then Some(rules[|rules| - 1])
    else MacroInRules(rules[..|rules| - 1], m)
  }

  /** The last definition of a macro in the topmost frame that has one */
  function MacroIn(stack: seq<Frame>, m: nat): Option<Rule> {
    if stack == [] then None
    else
      var here := MacroInRules(stack[|stack| - 1].rules, m);
      if here.Some? then here else MacroIn(stack[..|stack| - 1], m)
  }

  function MacroTable(stack: seq<Frame>, n: nat): (t: seq<Option<Rule>>)
    ensures |t| == n
  {
    seq(n, m requires 0 <= m < n => MacroIn(stack, m))
  }

  lemma {:induction false} MacroInOk(stack: seq<Frame>, m: nat, n: nat)
    requires FramesOk(stack, n)
    ensures MacroIn(stack, m).Some? ==> StatesOk(MacroIn(stack, m).value.states, n)
  {
    hide StatesOk;
    if stack != [] {
      MacroInRulesOk(stack[|stack| - 1].rules, m, n);
      MacroInOk(stack[..|stack| - 1], m, n);
    }
  }

  lemma {:induction false} MacroInRulesOk(rules: seq<Rule>, m: nat, n: nat)
    requires RulesOk(rules, n)
    ensures MacroInRules(rules, m).Some? ==> StatesOk(MacroInRules(rules, m).value.states, n)
  {
    hide StatesOk;
    if rules != [] {
      MacroInRulesOk(rules[..|rules| - 1], m, n);
    }
  }

  lemma MacroTableOk(stack: seq<Frame>, n: nat)
    requires FramesOk(stack, n)
    ensures MacrosOk(MacroTable(stack, n))
  {
    hide FramesOk;
    forall m | 0 <= m < n ensures MacroIn(stack, m).Some? ==> StatesOk(MacroIn(stack, m).value.states, n) {
      MacroInOk(stack, m, n);
    }
  }

  function NoValues(n: nat): seq<Value> {
    seq(n, _ => Unknown)
  }

  /** Length of the directory part of a path; a slash at the end of it does not count. */
  function DirLength(path: string, i: nat): (d: nat)
    requires i <= |path|
    ensures d <= |path| && (d > 0 ==> d < |path| && path[d] == '/')
  {
    if i == 0 then 0 else if path[i - 1] == '/' && i < |path| then i - 1 else DirLength(path, i - 1)
  }

  /** The values of all attributes for a path: the simple scan of a stack built from nothing */
  ghost function Reference(w: World, path: string, n: nat): seq<Value>
    requires WorldOk(w, n)
  {
    var stack := Fresh(w, path[..DirLength(path, |path|)]);
    FreshOk(w, path[..DirLength(path, |path|)], n);
    StackWorkOk(w, path, stack, n);
    MacroTableOk(stack, n);
    Scan(StackWork(w, path, stack), NoValues(n), MacroTable(stack, n))
  }

  class Check {
    const w: World
    var stack: seq<Frame>
    var values: seq<Value>
    var macros: seq<Option<Rule>>
    ghost var dir: string

    /** The stack is empty or is what it would be if built for some directory. */
    ghost predicate Valid()
      reads this
    {
      stack == [] || stack == Fresh(w, dir)
    }

    constructor (w: World)
      ensures Valid() && this.w == w
    {
      this.w := w;
      stack, values, macros, dir := [], [], [], "";
    }

    method Bootstrap()
      requires Valid()
      modifies this`stack, this`dir
      ensures Valid() && stack != []
    {
      if stack != [] {
        return;
      }
      stack := w.base;
      stack := stack + [Frame(Some(""), w.read(""))];
      stack := stack + [Frame(None, w.info)];
      dir := "";
    }

    /** Pops the frames of directories that the path is not in, and says which directory is then on top. */
    method PopFrames(path: string, dirlen: nat) returns (len: nat)
      requires dirlen <= |path| && (dirlen > 0 ==> dirlen < |path| && path[dirlen] == '/')
      requires stack == Fixed(w) + Dirs(w, dir)
      modifies this`stack
      ensures len <= dirlen && (len == 0 || path[len] == '/') && stack == Fixed(w) + Dirs(w, path[..len])
    {
      ghost var d := dir;
      while stack[|stack| - 1].origin.Some?
        invariant stack == Fixed(w) + Dirs(w, d)
        decreases |stack|
      {
        var origin := stack[|stack| - 1].origin.value;
        assert origin == d;
        if |origin| <= dirlen && origin == path[..|origin|] && (|origin| == 0 || path[|origin|] == '/') {
          return |origin|;
        }
        stack := stack[..|stack| - 1];
        d := Parent(d);
      }
    }

    /** Skips a separator and goes on to the next one. */
    static method EndOfComponent(path: string, at: nat, dirlen: nat) returns (len: nat)
      requires at < dirlen <= |path|
      ensures at < len <= dirlen && (len < dirlen ==> path[len] == '/') && forall k :: at < k < len ==> path[k] != '/'
    {
      len := at;
      if path[len] == '/' {
        len := len + 1;
      }
      while len < dirlen && path[len] != '/'
        invariant at <= len <= dirlen && (len == at ==> path[at] != '/')
        invariant forall k :: at < k < len ==> path[k] != '/'
      {
        len := len + 1;
      }
    }

    /** Makes the stack the one for the directory, whatever directory it was for before. */
    method Prepare(path: string, dirlen: nat)
      requires Valid() && dirlen <= |path| && (dirlen > 0 ==> dirlen < |path| && path[dirlen] == '/')
      modifies this`stack, this`dir
      ensures stack == Fresh(w, path[..dirlen]) && dir == path[..dirlen]
    {
      Bootstrap();
      var info := stack[|stack| - 1];
      stack := stack[..|stack| - 1];
      var at := PopFrames(path, dirlen);
      while at < dirlen
        invariant at <= dirlen && (at == 0 || path[at] == '/') && stack == Fixed(w) + Dirs(w, path[..at])
      {
        var len := EndOfComponent(path, at, dirlen);
        NextIsChild(path, at, len);
        stack := stack + [Frame(Some(path[..len]), w.read(path[..len]))];
        at := len;
      }
      stack := stack + [info];
      dir := path[..dirlen];
    }

    // ---------- Filling in ----------

    ghost predicate Counted(rem: nat)
      reads this
    {
      |macros| == |values| && MacrosOk(macros) && rem == Unknowns(values)
    }

    /** The settings of one rule, the last first; rem is the number of attributes not set yet. */
    method FillOne(a: Rule, rem0: nat) returns (rem: nat)
      requires Counted(rem0) && StatesOk(a.states, |values|)
      modifies this`values
      ensures Counted(rem) && rem <= rem0 && |values| == |old(values)|
              && values == Scan(Reversed(a.states), old(values), macros)
      decreases rem0, 1
    {
      hide Unknowns;
      hide MacrosOk;
      hide Expansion;
      rem := rem0;
      var i := |a.states|;
      ghost var before, work := values, Reversed(a.states);
      ghost var done: seq<State> := [];
      assert Scan(done, before, macros) == before;
      hide Scan;
      assert a.states[..i] == a.states;
      while rem > 0 && i > 0
        invariant i <= |a.states| && rem <= rem0 && Counted(rem) && |values| == |before|
        invariant StatesOk(done, |before|) && values == Scan(done, before, macros)
                  && work == done + Reversed(a.states[..i])
      {
        var s := a.states[i - 1];
        ScanNext(done, s, before, macros);
        if values[s.attr] == Unknown {
          SetOne(values, s.attr, s.setto);
          values := values[s.attr := s.setto];
          rem := rem - 1;
          rem := MacroExpandOne(s.attr, rem, s);
        }
        assert a.states[..i][..i - 1] == a.states[..i - 1];
        done := done + [s];
        i := i - 1;
      }
      ScanConcat(done, Reversed(a.states[..i]), before, macros);
      if i > 0 {
        ScanDone(Reversed(a.states[..i]), values, macros);
      }
    }

    method MacroExpandOne(attr: nat, rem0: nat, ghost s: State) returns (rem: nat)
      requires Counted(rem0) && attr == s.attr < |values| && values[attr] == s.setto
      modifies this`values
      ensures Counted(rem) && rem <= rem0 && |values| == |old(values)|
              && values == Scan(Expansion(macros, s), old(values), macros)
      decreases rem0, 2
    {
      rem := rem0;
      if macros[attr].Some? && values[attr] == True {
        rem := FillOne(macros[attr].value, rem0);
      }
    }

    /** The rules of one frame, the last first */
    method FillFrame(path: string, frame: Frame, rem0: nat) returns (rem: nat)
      requires Counted(rem0) && RulesOk(frame.rules, |values|)
      modifies this`values
      ensures |values| == |old(values)| && StatesOk(RulesWork(w, path, Base(frame), frame.rules), |values|)
      ensures Counted(rem) && values == Scan(RulesWork(w, path, Base(frame), frame.rules), old(values), macros)
    {
      hide Unknowns;
      hide StatesOk;
      hide MacrosOk;
      hide RulesOk;
      hide RulesWork;
      hide Reversed;
      rem := rem0;
      var i := |frame.rules|;
      var base, rules := Base(frame), frame.rules;
      ghost var before, all := values, RulesWork(w, path, base, rules);
      RulesWorkOk(w, path, base, rules, |values|);
      assert rules[..i] == rules;
      while rem > 0 && i > 0
        invariant i <= |rules| && Counted(rem) && |values| == |before|
        invariant StatesOk(RulesWork(w, path, base, rules[..i]), |values|)
        invariant Scan(RulesWork(w, path, base, rules[..i]), values, macros) == Scan(all, before, macros)
        decreases i
      {
        var a := rules[i - 1];
        ghost var rest := RulesWork(w, path, base, rules[..i - 1]);
        RulesWorkNext(w, path, base, rules, i, |values|);
        if a.macro.None? && w.matches(path, base, a.pattern) {
          ScanConcat(Reversed(a.states), rest, values, macros);
          rem := FillOne(a, rem);
        }
        i := i - 1;
      }
      if i > 0 {
        ScanDone(RulesWork(w, path, base, rules[..i]), values, macros);
      }
      RulesWorkNext(w, path, base, rules, 0, |values|);
    }

    /** The frames, the top first */
    method Fill(path: string, rem0: nat)
      requires Counted(rem0) && FramesOk(stack, |values|)
      modifies this`values
      ensures StatesOk(StackWork(w, path, stack), |old(values)|) && |macros| == |old(values)| && MacrosOk(macros)
      ensures values == Scan(StackWork(w, path, stack), old(values), macros)
    {
      hide Unknowns;
      hide StatesOk;
      hide RulesOk;
      hide MacrosOk;
      hide StackWork;
      hide RulesWork;
      hide Base;
      var rem, i := rem0, |stack|;
      ghost var before, all := values, StackWork(w, path, stack);
      StackWorkOk(w, path, stack, |values|);
      assert stack[..i] == stack;
      while rem > 0 && i > 0
        invariant i <= |stack| && Counted(rem) && |values| == |before|
        invariant StatesOk(StackWork(w, path, stack[..i]), |values|)
        invariant Scan(StackWork(w, path, stack[..i]), values, macros) == Scan(all, before, macros)
        decreases i
      {
        var frame := stack[i - 1];
        ghost var rest := stack[..i - 1];
        StackWorkNext(w, path, stack, i);
        StackWorkOk(w, path, rest, |values|);
        RulesWorkOk(w, path, Base(frame), frame.rules, |values|);
        ScanConcat(RulesWork(w, path, Base(frame), frame.rules), StackWork(w, path, rest), values, macros);
        rem := FillFrame(path, frame, rem);
        i := i - 1;
      }
      if i > 0 {
        ScanDone(StackWork(w, path, stack[..i]), values, macros);
      }
      StackWorkNext(w, path, stack, 0);
    }

    /** Marks the attributes that are macros. */
    method DetermineMacros()
      requires FramesOk(stack, |macros|) && forall m :: 0 <= m < |macros| ==> macros[m] == None
      modifies this`macros
      ensures macros == MacroTable(stack, |old(macros)|)
    {
      hide MacroInRules;
      hide StatesOk;
      ghost var n := |macros|;
      var i := |stack|;
      assert stack[..i] == stack;
      while i > 0
        invariant i <= |stack| && |macros| == n
        invariant forall m :: 0 <= m < n ==> MacroIn(stack, m) == Or(macros[m], MacroIn(stack[..i], m))
      {
        var rules := stack[i - 1].rules;
        assert stack[..i][..i - 1] == stack[..i - 1];
        var j := |rules|;
        assert rules[..j] == rules;
        while j > 0
          invariant j <= |rules| && |macros| == n
          invariant forall m :: 0 <= m < n ==>
            MacroIn(stack, m) == Or(macros[m], Or(MacroInRules(rules[..j], m), MacroIn(stack[..i - 1], m)))
        {
          hide MacroIn;
          var ma := rules[j - 1];
          assert RulesOk(rules, n);
          forall m | 0 <= m < n
            ensures MacroInRules(rules[..j], m) ==
                    if ma.macro == Some(m) then Some(ma) else MacroInRules(rules[..j - 1], m)
          {
            MacroInNext(rules, j, m);
          }
          if ma.macro.Some? {
            var m := ma.macro.value;
            if macros[m].None? {
              macros := macros[m := Some(ma)];
            }
          }
          j := j - 1;
        }
        forall m | 0 <= m < n ensures MacroInRules(rules[..0], m) == None {
          NoMacro(rules, m);
        }
        i := i - 1;
      }
      assert macros == MacroTable(stack, n);
    }

    /** The values of all attributes for a path, whatever paths were asked for before. */
    method Collect(path: string, n: nat)
      requires Valid() && WorldOk(w, n)
      modifies this
      ensures Valid() && values == Reference(w, path, n)
    {
      hide Dirs;
      hide Scan;
      hide StackWork;
      hide MacroTable;
      hide RulesOk;
      hide FramesOk;
      hide Unknowns;
      var dirlen := LastSlash(path);
      Prepare(path, dirlen);
      values := NoValues(n);
      macros := seq(n, _ => None);
      FreshOk(w, path[..dirlen], n);
      DetermineMacros();
      MacroTableOk(stack, n);
      AllUnknown(n);
      Fill(path, n);
    }

    static method LastSlash(path: string) returns (dirlen: nat)
      ensures dirlen == DirLength(path, |path|)
    {
      var cp := 0;
      dirlen := 0;
      while cp < |path|
        invariant cp <= |path| && dirlen == DirLength(path, cp)
      {
        if path[cp] == '/' && cp + 1 < |path| {
          dirlen := cp;
        }
        cp := cp + 1;
      }
    }
  }

  lemma RulesWorkNext(w: World, path: string, base: string, rules: seq<Rule>, i: nat, n: nat)
    requires i <= |rules| && RulesOk(rules, n)
    ensures RulesWork(w, path, base, rules[..0]) == []
    ensures i > 0 ==>
      var a, rest := rules[i - 1], RulesWork(w, path, base, rules[..i - 1]);
      && StatesOk(a.states, n) && StatesOk(Reversed(a.states), n) && StatesOk(rest, n)
      && RulesWork(w, path, base, rules[..i]) ==
           if a.macro.None? && w.matches(path, base, a.pattern) then Reversed(a.states) + rest else rest
  {
    if i > 0 {
      assert rules[..i][..i - 1] == rules[..i - 1];
      RulesWorkOk(w, path, base, rules[..i - 1], n);
    }
  }

  lemma StackWorkNext(w: World, path: string, stack: seq<Frame>, i: nat)
    requires i <= |stack|
    ensures StackWork(w, path, stack[..0]) == []
    ensures i > 0 ==>
      StackWork(w, path, stack[..i]) == RulesWork(w, path, Base(stack[i - 1]), stack[i - 1].rules)
        + StackWork(w, path, stack[..i - 1])
  {
    if i > 0 {
      assert stack[..i][..i - 1] == stack[..i - 1];
    }
  }

  function Or<T>(a: Option<T>, b: Option<T>): Option<T> {
    if a.Some? then a else b
  }

  lemma MacroInNext(rules: seq<Rule>, j: nat, m: nat)
    requires 0 < j <= |rules|
    ensures MacroInRules(rules[..j], m) == if rules[j - 1].macro == Some(m) then Some(rules[j - 1])
            else MacroInRules(rules[..j - 1], m)
  {
    assert rules[..j][..j - 1] == rules[..j - 1];
  }

  lemma NoMacro(rules: seq<Rule>, m: nat)
    ensures MacroInRules(rules[..0], m) == None
  {
  }

  lemma {:induction false} AllUnknown(n: nat)
    ensures Unknowns(NoValues(n)) == n
  {
    if n > 0 {
      AllUnknown(n - 1);
      assert NoValues(n)[..n - 1] == NoValues(n - 1);
    }
  }

  /** Scanning one more setting is scanning it and what it stands for. */
  lemma ScanNext(done: seq<State>, s: State, values: seq<Value>, macros: seq<Option<Rule>>)
    requires |macros| == |values| && StatesOk(done, |values|) && MacrosOk(macros) && s.attr < |values|
             && s.setto != Unknown
    ensures
      var now := Scan(done, values, macros);
      Scan(done + [s], values, macros) ==
        if now[s.attr] != Unknown then now else Scan(Expansion(macros, s), now[s.attr := s.setto], macros)
  {
    ScanConcat(done, [s], values, macros);
    var now := Scan(done, values, macros);
    assert [s][1..] == [];
    assert [s][0] == s;
    if now[s.attr] == Unknown {
      assert Expansion(macros, s) + [] == Expansion(macros, s);
    }
  }
}
