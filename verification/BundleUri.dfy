/**
 Fetching bundles (bundle-uri.c): the walk over bundles by creation token, and the
 application of bundles in any order. What downloading and unbundling lead to is any sequence of outcomes.
 */
module BundleUri {

  datatype Option<T> = None | Some(value: T)

  /** unbundled says not to try again: it was applied, or could not be downloaded. */
  datatype Bundle = Bundle(token: nat, file: bool, unbundled: bool)

  function Unmarked(items: seq<Bundle>): nat {
    if items == [] then 0 else Unmarked(items[..|items| - 1]) + if items[|items| - 1].unbundled then 0 else 1
  }

  lemma {:induction false} MarkOne(items: seq<Bundle>, i: nat, b: Bundle)
    requires i < |items|
    ensures Unmarked(items[i := b]) == Unmarked(items)
            + (if b.unbundled then 0 else 1) - (if items[i].unbundled then 0 else 1)
  {
    var n := |items| - 1;
    if i < n {
      MarkOne(items[..n], i, b);
      assert items[i := b][..n] == items[..n][i := b];
    } else {
      assert items[i := b][..n] == items[..n];
    }
  }

  ghost predicate Sorted(items: seq<Bundle>) {
    forall i, j :: 0 <= i < j < |items| ==> items[i].token >= items[j].token
  }

  /** The largest token among bundles applied, or 0 */
  ghost predicate IsLargest(items: seq<Bundle>, applied: set<nat>, token: nat) {
    && (forall i :: i in applied ==> i < |items| && items[i].token <= token)
    && (if applied == {} then token == 0 else exists i :: i in applied && i < |items| && items[i].token == token)
  }

  lemma LargestWith(items: seq<Bundle>, applied: set<nat>, token: nat, i: nat)
    requires IsLargest(items, applied, token) && i < |items|
    ensures IsLargest(items, applied + {i}, if items[i].token > token then items[i].token else token)
  {
    var more := applied + {i};
    assert i in more;
    if items[i].token <= token && applied != {} {
      var k :| k in applied && k < |items| && items[k].token == token;
      assert k in more;
    }
  }

  /** Only the marks of a bundle change. */
  ghost predicate SameTokens(before: seq<Bundle>, after: seq<Bundle>) {
    |before| == |after| && forall i :: 0 <= i < |before| ==> after[i].token == before[i].token
  }

  lemma LargestIsOne(items: seq<Bundle>, applied: set<nat>, token: nat)
    requires IsLargest(items, applied, token) && applied != {}
    ensures exists i :: i in applied && i < |items| && items[i].token == token
  {
  }

  lemma LargestOfNone(items: seq<Bundle>)
    ensures IsLargest(items, {}, 0)
  {
  }

  lemma LargestSame(before: seq<Bundle>, after: seq<Bundle>, applied: set<nat>, token: nat)
    requires SameTokens(before, after) && IsLargest(before, applied, token)
    ensures IsLargest(after, applied, token)
  {
  }

  /** The newest bundles, newer than the token before, have been looked at, and some of them applied. */
  ghost predicate Looked(start: seq<Bundle>, items: seq<Bundle>, seen: nat, applied: set<nat>, newMax: nat,
                         maxToken: nat) {
    && SameTokens(start, items) && seen <= |items|
    && (forall i :: seen <= i < |items| ==> items[i] == start[i])
    && (forall i :: 0 <= i < seen ==> items[i].token > maxToken)
    && (forall i :: i in applied ==> i < seen && items[i].file && items[i].unbundled)
    && IsLargest(items, applied, newMax)
  }

  /**
   Everything looked at and not before the cursor is marked while it goes on to older bundles, and everything
   after it while it comes back, which it does only after one was applied.
   */
  ghost predicate Marked(items: seq<Bundle>, cur: int, move: int, seen: nat, applied: set<nat>)
    requires seen <= |items|
  {
    && -1 <= cur <= seen && (move == 0 || move == 1 || move == -1)
    && (move == 0 ==> cur == seen == 0)
    && (move == 1 ==> 0 <= cur && forall i :: cur <= i < seen ==> items[i].unbundled)
    && (move == -1 ==> applied != {} && forall i :: 0 <= i && cur < i < seen ==> items[i].unbundled)
  }

  lemma LookedNext(start: seq<Bundle>, items: seq<Bundle>, cur: nat, seen: nat, applied: set<nat>, newMax: nat,
                   maxToken: nat,
                   b: Bundle, applies: bool)
    requires Looked(start, items, seen, applied, newMax, maxToken) && cur <= seen && cur < |items|
             && items[cur].token > maxToken
    requires b.token == items[cur].token && (items[cur].unbundled ==> b.unbundled) && (items[cur].file ==> b.file)
    requires applies ==> b.unbundled && b.file
    ensures
      var applied' := if applies then applied + {cur} else applied;
      var newMax' := if applies && b.token > newMax then b.token else newMax;
      Looked(start, items[cur := b], if cur == seen then cur + 1 else seen, applied', newMax', maxToken)
  {
    hide IsLargest;
    if applies {
      LargestWith(items, applied, newMax, cur);
    }
    LargestSame(items, items[cur := b], if applies then applied + {cur} else applied,
                if applies && b.token > newMax then b.token else newMax);
  }

  lemma MarkedNext(items: seq<Bundle>, cur: nat, move: int, seen: nat, applied: set<nat>, b: Bundle, next: int,
                   applies: bool)
    requires seen <= |items| && Marked(items, cur, move, seen, applied) && cur < |items|
             && (items[cur].unbundled ==> b.unbundled)
    requires move == 0 ==> !items[cur].unbundled
    requires applies ==> next == -1 && !items[cur].unbundled && b.unbundled
    requires !applies ==> next == 1 || (next == move && items[cur].unbundled)
    ensures Marked(items[cur := b], cur + next, next, if cur == seen then cur + 1 else seen,
                   if applies then applied + {cur} else applied)
    ensures var after := items[cur := b];
            Unmarked(after) < Unmarked(items) || (Unmarked(after) == Unmarked(items)
                                                  && (next == 1 || (next == move && move != 0)))
  {
    MarkOne(items, cur, b);
    hide Unmarked;
    assert applies ==> cur in applied + {cur};
  }

  // ---------- Runs ----------

  /** What the attempts made on one visit lead to. left says whether a failed download leaves a file. */
  datatype Outcome = Outcome(downloaded: bool, left: bool, isBundle: bool, unbundles: bool)

  datatype Event = Failed | NotBundle | Refused | Applied | Skipped

  /** Whatever an attempt would lead to counts only if the attempt is made. */
  function EventOf(b: Bundle, o: Outcome): Event {
    if !b.file && !o.downloaded then Failed
    else if !b.file && !o.isBundle then NotBundle
    else if b.unbundled then Skipped
    else if o.unbundles then Applied
    else Refused
  }

  function After(b: Bundle, o: Outcome): Bundle {
    match EventOf(b, o)
    case Failed => b.(file := o.left, unbundled := true)
    case Applied => b.(file := true, unbundled := true)
    case _ => b.(file := true)
  }

  function Direction(e: Event, move: int): int {
    match e
    case Failed => 1
    case Refused => 1
    case Applied => -1
    case NotBundle => 0
    case Skipped => move
  }

  /** A walk over bundles: where it starts, what its attempts lead to, and the token to stay above */
  datatype Course = Course(start: seq<Bundle>, env: nat -> Outcome, maxToken: nat) {

    /** The bundles after visits to these, in turn */
    function Items(log: seq<nat>): (items: seq<Bundle>)
      ensures |items| == |start|
    {
      if log == [] then start
      else
        var n := |log| - 1;
        var items, last := Items(log[..n]), log[n];
        if last < |items| then items[last := After(items[last], env(n))] else items
    }

    /** What happened on the last visit */
    function Last(log: seq<nat>): Event
      requires log != [] && log[|log| - 1] < |start|
    {
      var n := |log| - 1;
      EventOf(Items(log[..n])[log[n]], env(n))
    }

    function Move(log: seq<nat>): int {
      if log == [] || log[|log| - 1] >= |start| then 0 else Direction(Last(log), Move(log[..|log| - 1]))
    }

    /** Where the walk is after these visits */
    function Position(log: seq<nat>): int {
      if log == [] then 0 else log[|log| - 1] + Move(log)
    }

    /** The last file downloaded is not a bundle. */
    predicate Stuck(log: seq<nat>) {
      log != [] && log[|log| - 1] < |start| && Last(log) == NotBundle
    }

    predicate Ended(log: seq<nat>) {
      || Stuck(log)
      || !(0 <= Position(log) < |start|) || start[Position(log)].token <= maxToken
    }

    /** Every visit is to where the walk was, and none is made after its end. */
    predicate IsRun(log: seq<nat>) {
      log == [] || var n := |log| - 1; IsRun(log[..n]) && !Ended(log[..n]) && log[n] == Position(log[..n])
    }

    /** The bundles with such an event */
    function With(log: seq<nat>, e: Event): set<nat> {
      if log == [] then {}
      else
        var n := |log| - 1;
        With(log[..n], e) + if log[n] < |start| && Last(log) == e then {log[n]} else {}
    }

    /** How many bundles, from the newest on, have been visited */
    function Seen(log: seq<nat>): nat {
      if log == [] then 0
      else var n := |log| - 1; var seen := Seen(log[..n]); if log[n] >= seen then log[n] + 1 else seen
    }

    lemma Start()
      ensures IsRun([]) && Items([]) == start && Move([]) == Position([]) == 0 && !Stuck([])
    {
    }

    lemma Step(log: seq<nat>)
      requires IsRun(log) && !Ended(log)
      ensures
        var i, n := Position(log), |log|;
        var b, more := Items(log)[i], log + [i];
        var e := EventOf(b, env(n));
        && 0 <= i < |start| && start[i].token > maxToken && IsRun(more) && (Stuck(more) <==> e == NotBundle)
        && Items(more) == Items(log)[i := After(b, env(n))] && Last(more) == e
        && Move(more) == Direction(e, Move(log)) && Position(more) == i + Move(more)
        && Seen(more) == (if i >= Seen(log) then i + 1 else Seen(log))
        && With(more, Applied) == With(log, Applied) + (if e == Applied then {i} else {})
        && With(more, Failed) == With(log, Failed) + (if e == Failed then {i} else {})
    {
      assert (log + [Position(log)])[..|log|] == log;
    }
  }

  /** What is marked was applied, could not be downloaded, or was marked at the start. */
  ghost predicate Accounted(start: seq<Bundle>, items: seq<Bundle>, applied: set<nat>, failed: set<nat>) {
    forall i :: 0 <= i < |items| && i < |start| && items[i].unbundled ==>
        i in applied || i in failed || start[i].unbundled
  }

  /** The walk does not start at a bundle that is new and marked. */
  ghost predicate CanStart(items: seq<Bundle>, maxToken: nat) {
    items != [] && items[0].token > maxToken ==> !items[0].unbundled
  }

  /** If it did, it would stay there for ever, once there is a file. */
  lemma {:induction false} StaysForever(c: Course, log: seq<nat>)
    requires !CanStart(c.start, c.maxToken)
    requires c.start[0].file || (c.env(0).downloaded && c.env(0).isBundle)
    requires forall k :: 0 <= k < |log| ==> log[k] == 0
    ensures c.IsRun(log) && !c.Ended(log) && c.Position(log) == c.Move(log) == 0
    ensures c.Items(log)[0] == if log == [] then c.start[0] else c.start[0].(file := true)
  {
    hide Course.IsRun;
    hide Course.Items;
    hide Course.Move;
    hide Course.With;
    hide Course.Seen;
    hide Course.Stuck;
    c.Start();
    if log != [] {
      var before := log[..|log| - 1];
      StaysForever(c, before);
      assert log == before + [0];
      c.Step(before);
    }
  }

  /** The walk keeps all this, wherever it is. */
  ghost predicate Kept(c: Course, log: seq<nat>, newMax: nat) {
    && c.IsRun(log) && CanStart(c.start, c.maxToken)
    && Looked(c.start, c.Items(log), c.Seen(log), c.With(log, Applied), newMax, c.maxToken)
    && Accounted(c.start, c.Items(log), c.With(log, Applied), c.With(log, Failed))
    && (!c.Stuck(log) ==>
          Marked(c.Items(log), c.Position(log), c.Move(log), c.Seen(log), c.With(log, Applied)))
  }

  lemma KeptAtStart(c: Course)
    requires CanStart(c.start, c.maxToken)
    ensures Kept(c, [], 0) && c.Items([]) == c.start && c.Position([]) == c.Move([]) == 0 && !c.Stuck([])
  {
    LargestOfNone(c.start);
  }

  /** One visit, and by how much it brings the end nearer */
  lemma KeptNext(c: Course, log: seq<nat>, newMax: nat)
    requires Kept(c, log, newMax) && !c.Ended(log)
    ensures 0 <= c.Position(log) < |c.start| && -1 <= c.Move(log) <= 1 && c.IsRun(log)
    ensures
      var i, before := c.Position(log), c.Items(log);
      var more := log + [i];
      var after, e := c.Items(more), EventOf(before[i], c.env(|log|));
      && Kept(c, more, if e == Applied && after[i].token > newMax then after[i].token else newMax)
      && (e != NotBundle ==>
            || Unmarked(after) < Unmarked(before)
            || (Unmarked(after) == Unmarked(before)
                && (c.Move(more) == 1 || (c.Move(more) == c.Move(log) && c.Move(log) != 0))))
  {
    hide Looked;
    hide Marked;
    hide IsLargest;
    hide Course.IsRun;
    hide Course.Items;
    hide Course.Move;
    hide Course.With;
    hide Course.Seen;
    c.Step(log);
    var i, before, seen, applied := c.Position(log), c.Items(log), c.Seen(log), c.With(log, Applied);
    var b, e := After(before[i], c.env(|log|)), EventOf(before[i], c.env(|log|));
    Within(c.start, before, i, c.Move(log), seen, applied, newMax, c.maxToken);
    MovesOne(before, i, c.Move(log), seen, applied);
    LookedNext(c.start, before, i, seen, applied, newMax, c.maxToken, b, e == Applied);
    assert c.Last(log + [i]) == e;
    if e != NotBundle {
      MarkedNext(before, i, c.Move(log), seen, applied, b, c.Move(log + [i]), e == Applied);
    }
    assert if e == Applied then true else applied + {} == applied;
  }

  /** How far a walk is from its end, unless it halts */
  function Rank(move: int): nat {
    if move == 0 then 2 else if move == -1 then 1 else 0
  }

  function Ahead(move: int, cur: int, n: nat): int {
    if move == -1 then cur + 1 else n - cur
  }

  /** The walk comes to an end. */
  ghost predicate Ends(c: Course) {
    exists log :: c.IsRun(log) && c.Ended(log)
  }

  lemma {:induction false} RunsOut(c: Course, log: seq<nat>, newMax: nat)
    requires Kept(c, log, newMax)
    ensures Ends(c)
    decreases Unmarked(c.Items(log)), Rank(c.Move(log)), Ahead(c.Move(log), c.Position(log), |c.start|)
  {
    hide Looked;
    hide Marked;
    hide Accounted;
    hide Course.Items;
    hide Course.With;
    hide Course.Seen;
    hide Course.IsRun;
    hide Course.Move;
    hide Course.Position;
    if c.Ended(log) {
      assert c.IsRun(log);
    } else {
      KeptNext(c, log, newMax);
      c.Step(log);
      var i := c.Position(log);
      var more, e := log + [i], EventOf(c.Items(log)[i], c.env(|log|));
      if e == NotBundle {
        assert c.IsRun(more) && c.Ended(more);
      } else {
        RunsOut(c, more, if e == Applied && c.Items(more)[i].token > newMax then c.Items(more)[i].token else newMax);
      }
    }
  }

  lemma {:induction false} NeverEnds(c: Course, log: seq<nat>)
    requires !CanStart(c.start, c.maxToken) && (c.start[0].file || (c.env(0).downloaded && c.env(0).isBundle))
    requires c.IsRun(log)
    ensures !c.Ended(log) && forall k :: 0 <= k < |log| ==> log[k] == 0
  {
    if log != [] {
      var n := |log| - 1;
      NeverEnds(c, log[..n]);
      StaysForever(c, log[..n]);
    }
    StaysForever(c, log);
  }

  /** The walk ends whatever its attempts lead to exactly if it does not start at a bundle that is new and marked. */
  lemma EndsIff(start: seq<Bundle>, maxToken: nat)
    ensures (forall env :: Ends(Course(start, env, maxToken))) <==> CanStart(start, maxToken)
  {
    hide Course.IsRun;
    hide Course.Ended;
    if CanStart(start, maxToken) {
      forall env: nat -> Outcome ensures Ends(Course(start, env, maxToken)) {
        var c := Course(start, env, maxToken);
        KeptAtStart(c);
        RunsOut(c, [], 0);
      }
    } else {
      var c := Course(start, _ => Outcome(true, true, true, true), maxToken);
      forall log | c.IsRun(log) ensures !c.Ended(log) {
        NeverEnds(c, log);
      }
    }
  }

  lemma MovesOne(items: seq<Bundle>, cur: int, move: int, seen: nat, applied: set<nat>)
    requires seen <= |items| && Marked(items, cur, move, seen, applied)
    ensures -1 <= move <= 1
  {
  }

  lemma KeptAtEnd(c: Course, log: seq<nat>, newMax: nat)
    requires Kept(c, log, newMax)
    ensures c.IsRun(log) && Looked(c.start, c.Items(log), c.Seen(log), c.With(log, Applied), newMax, c.maxToken)
    ensures c.Seen(log) <= |c.start|
    ensures c.Position(log) < 0 ==>
      && c.With(log, Applied) != {}
      && forall i :: 0 <= i < c.Seen(log) ==>
          i in c.With(log, Applied) || i in c.With(log, Failed) || c.start[i].unbundled
  {
    hide IsLargest;
    hide Course.Items;
    hide Course.Seen;
    hide Course.With;
    hide Course.IsRun;
  }

  lemma Within(start: seq<Bundle>, items: seq<Bundle>, cur: nat, move: int, seen: nat, applied: set<nat>, newMax: nat,
               maxToken: nat)
    requires Looked(start, items, seen, applied, newMax, maxToken) && Marked(items, cur, move, seen, applied)
             && cur < |items|
    requires CanStart(start, maxToken) && start[cur].token > maxToken
    ensures cur <= seen <= |items| && items[cur].token > maxToken && (move == 0 ==> !items[cur].unbundled)
  {
  }

  class BundleList {
    var items: seq<Bundle>

    /** Downloads a bundle if it has no file yet, and applies it if it is not marked; says where to go next. */
    method Visit(cur: nat, move: int, o: Outcome) returns (halt: bool, next: int, applies: bool)
      requires cur < |items|
      modifies this
      ensures items == old(items)[cur := After(old(items)[cur], o)]
      ensures halt <==> EventOf(old(items)[cur], o) == NotBundle
      ensures applies <==> EventOf(old(items)[cur], o) == Applied
      ensures !halt ==> next == Direction(EventOf(old(items)[cur], o), move)
    {
      halt, next, applies := false, move, false;
      if !items[cur].file {
        if !o.downloaded {
          items := items[cur := items[cur].(file := o.left, unbundled := true)];
          return false, 1, false;
        }
        items := items[cur := items[cur].(file := true)];
        if !o.isBundle {
          return true, move, false;
        }
      }
      if !items[cur].unbundled {
        if o.unbundles {
          items := items[cur := items[cur].(unbundled := true)];
          return false, -1, true;
        }
        next := 1;
      }
    }

    /**
     Downloads newer bundles first, and deeper ones as long as they do not apply; once one applies, goes back to
     those that did not. The visits made are a run, to its end, whatever the attempts lead to. It succeeds exactly
     if it comes back above the newest bundle; then every bundle visited was applied or could not be downloaded
     (or was marked so before), and what is stored is the largest token of those applied.
     */
    method FetchByToken(config: Option<nat>, env: nat -> Outcome)
      returns (failed: bool, stored: Option<nat>, ghost log: seq<nat>)
      requires Sorted(items) && CanStart(items, if config.Some? then config.value else 0)
      modifies this
      ensures
        var c := Course(old(items), env, if config.Some? then config.value else 0);
        && c.Seen(log) <= |c.start| == |items|
        && (if c.start == [] || (config.Some? && forall i :: 0 <= i < |c.start| ==> c.start[i].token <= config.value)
            then log == [] && !failed && stored == None
            else
              && c.IsRun(log) && c.Ended(log) && (failed <==> c.Position(log) >= 0) && (failed ==> stored == None)
              && (!failed ==>
                    && (forall i :: 0 <= i < c.Seen(log) ==>
                          i in c.With(log, Applied) || i in c.With(log, Failed) || c.start[i].unbundled)
                    && c.With(log, Applied) != {} && stored.Some?
                    && IsLargest(items, c.With(log, Applied), stored.value)
                    && (config.Some? ==> stored.value > config.value)))
        && items == c.Items(log) && SameTokens(old(items), items)
        && (forall i :: c.Seen(log) <= i < |items| ==> items[i] == old(items)[i])
        && (forall i :: 0 <= i < c.Seen(log) ==> items[i].token > c.maxToken)
    {
      hide IsLargest;
      log, stored, failed := [], None, false;
      if items == [] {
        return;
      }
      var maxToken := 0;
      if config.Some? {
        maxToken := config.value;
        if items[0].token <= maxToken {
          return;
        }
      }
      var cur, newMax;
      cur, newMax, log := Walk(maxToken, env);
      if cur < 0 {
        stored := Some(newMax);
        LargestIsOne(items, Course(old(items), env, maxToken).With(log, Applied), newMax);
      }
      failed := cur >= 0;
    }

    method Walk(maxToken: nat, env: nat -> Outcome) returns (cur: int, newMax: nat, ghost log: seq<nat>)
      requires CanStart(items, maxToken)
      modifies this
      ensures
        var c := Course(old(items), env, maxToken);
        && c.IsRun(log) && c.Ended(log) && cur == c.Position(log) && items == c.Items(log) && c.Seen(log) <= |c.start|
        && Looked(old(items), items, c.Seen(log), c.With(log, Applied), newMax, maxToken)
        && (cur < 0 ==>
              && c.With(log, Applied) != {}
              && forall i :: 0 <= i < c.Seen(log) ==>
                   i in c.With(log, Applied) || i in c.With(log, Failed) || c.start[i].unbundled)
    {
      hide Looked;
      hide Marked;
      hide Accounted;
      hide Course.IsRun;
      hide Course.Items;
      hide Course.Move;
      hide Course.Seen;
      hide Course.With;
      hide Kept;
      hide Course.Stuck;
      ghost var c := Course(items, env, maxToken);
      KeptAtStart(c);
      cur, newMax, log := 0, 0, [];
      var move, visits, halt := 0, 0, false;
      while 0 <= cur < |items|
        invariant Kept(c, log, newMax) && items == c.Items(log) && visits == |log|
        invariant cur == c.Position(log) && move == c.Move(log) && SameTokens(c.start, items) && !c.Stuck(log)
        decreases Unmarked(items), (if move == 0 then 2 else if move == -1 then 1 else 0), if move == -1 then cur + 1
          else |items| - cur
      {
        if items[cur].token <= maxToken {
          break;
        }
        KeptNext(c, log, newMax);
        c.Step(log);
        var next, applies;
        halt, next, applies := Visit(cur, move, env(visits));
        log, visits := log + [cur], visits + 1;
        if applies && items[cur].token > newMax {
          newMax := items[cur].token;
        }
        if halt {
          break;
        }
        move := next;
        cur := cur + move;
      }
      KeptAtEnd(c, log, newMax);
    }

    /**
     Applies what can be applied until nothing more can. applies says whether a bundle applies once others
     have been. If having more never hurts, what is applied is the least set that leaves nothing to apply:
     it is within any such set, closed.
     */
    method UnbundleAll(applies: (set<nat>, nat) -> bool, ghost closed: set<nat>) returns (ghost have: set<nat>)
      modifies this
      ensures SameFiles(old(items), items) && have == Have(items) && Have(old(items)) <= have
      ensures Settled(items, applies, have)
      ensures Monotone(applies) && Have(old(items)) <= closed && Settled(items, applies, closed) ==> have <= closed
    {
      have := Have(items);
      var had := Have(items);
      ghost var start := items;
      while true
        invariant SameFiles(start, items) && had == have == Have(items) && Have(start) <= have
        invariant Monotone(applies) && Have(start) <= closed && Settled(items, applies, closed) ==> have <= closed
        decreases Unmarked(items)
      {
        var i := 0;
        while i < |items| && !(items[i].file && !items[i].unbundled && applies(had, i))
          invariant i <= |items|
          invariant forall j :: 0 <= j < i && items[j].file && !items[j].unbundled ==> !applies(have, j)
        {
          i := i + 1;
        }
        if i == |items| {
          return;
        }
        MarkOne(items, i, items[i].(unbundled := true));
        ghost var before := items;
        items := items[i := items[i].(unbundled := true)];
        had := had + {i};
        have := have + {i};
        assert Have(items) == have;
        assert Settled(items, applies, closed) <==> Settled(before, applies, closed);
      }
    }
  }

  /** The bundles that have been applied */
  function Have(items: seq<Bundle>): set<nat> {
    set i: nat | i < |items| && items[i].unbundled
  }

  ghost predicate SameFiles(before: seq<Bundle>, after: seq<Bundle>) {
    |before| == |after| && forall i :: 0 <= i < |before| ==> after[i].file == before[i].file
  }

  /** With these applied, no other downloaded bundle applies. */
  ghost predicate Settled(items: seq<Bundle>, applies: (set<nat>, nat) -> bool, have: set<nat>) {
    forall i :: 0 <= i < |items| && items[i].file && applies(have, i) ==> i in have
  }

  ghost predicate Monotone(applies: (set<nat>, nat) -> bool) {
    forall a: set<nat>, b: set<nat>, i: nat :: a <= b && applies(a, i) ==> applies(b, i)
  }
}
