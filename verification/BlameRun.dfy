/**
 The main loop of blame.c: commits with suspects are taken from a queue, and
 what they are suspected of is passed to their scapegoats or stays with them.
 */
module BlameRun {
  import opened Blame
  import opened BlameMove
  import opened BlameIgnore
  import opened BlameWorld

  type Lists = map<Origin, seq<Entry>>

  ghost predicate Distinct(origins: seq<Origin>) {
    forall i, j :: 0 <= i < j < |origins| ==> origins[i] != origins[j]
  }

  /** The line numbers all origins together are suspected of. */
  function Pending(origins: seq<Origin>, m: Lists): multiset<int>
    requires forall o :: o in origins ==> o in m
  {
    if origins == [] then multiset{} else Numbers(m[origins[0]]) + Pending(origins[1..], m)
  }

  function Cost(w: World, o: Origin, list: seq<Entry>): nat {
    |Numbers(list)| * (w.rank(o.commit) + 1)
  }

  /** The sum over pending lines of one more than the rank of the commit suspected. */
  function Weight(w: World, origins: seq<Origin>, m: Lists): nat
    requires forall o :: o in origins ==> o in m
  {
    if origins == [] then 0 else Cost(w, origins[0], m[origins[0]]) + Weight(w, origins[1..], m)
  }

  lemma Cancel(a: multiset<int>, b: multiset<int>, c: multiset<int>)
    requires a + c == b + c
    ensures a == b
  {
    forall x ensures a[x] == b[x] {
      assert (a + c)[x] == (b + c)[x];
    }
  }

  lemma Regroup(n: multiset<int>, a: multiset<int>, b: multiset<int>, c: multiset<int>, d: multiset<int>)
    requires a + b == c + d
    ensures n + a + b == n + c + d
  {
    assert n + a + b == n + (a + b);
    assert n + c + d == n + (c + d);
  }

  lemma {:induction false} PendingElsewhere(w: World, origins: seq<Origin>, m: Lists, o: Origin, list: seq<Entry>)
    requires o !in origins && forall p :: p in origins ==> p in m
    ensures Pending(origins, m[o := list]) == Pending(origins, m)
    ensures Weight(w, origins, m[o := list]) == Weight(w, origins, m)
  {
    if origins != [] {
      PendingElsewhere(w, origins[1..], m, o, list);
    }
  }

  lemma {:induction false} PendingUpdate(w: World, origins: seq<Origin>, m: Lists, o: Origin, list: seq<Entry>)
    requires Distinct(origins) && o in origins && forall p :: p in origins ==> p in m
    ensures Pending(origins, m[o := list]) + Numbers(m[o]) == Pending(origins, m) + Numbers(list)
    ensures Weight(w, origins, m[o := list]) + Cost(w, o, m[o]) == Weight(w, origins, m) + Cost(w, o, list)
  {
    hide Numbers;
    hide Cost;
    if origins[0] == o {
      PendingElsewhere(w, origins[1..], m, o, list);
    } else {
      var first, rest := origins[0], origins[1..];
      assert o in rest;
      PendingUpdate(w, rest, m, o, list);
      assert m[o := list][first] == m[first];
      Regroup(Numbers(m[first]), Pending(rest, m[o := list]), Numbers(m[o]), Pending(rest, m), Numbers(list));
    }
  }

  lemma {:induction false} PendingNew(w: World, origins: seq<Origin>, m: Lists, o: Origin)
    requires o !in origins && forall p :: p in origins ==> p in m
    ensures Pending(origins + [o], m[o := []]) == Pending(origins, m)
    ensures Weight(w, origins + [o], m[o := []]) == Weight(w, origins, m)
  {
    if origins == [] {
      assert (origins + [o])[1..] == [];
    } else {
      assert (origins + [o])[1..] == origins[1..] + [o];
      PendingNew(w, origins[1..], m, o);
    }
  }

  lemma CostAdds(w: World, o: Origin, a: seq<Entry>, b: seq<Entry>, c: seq<Entry>)
    requires Numbers(c) == Numbers(a) + Numbers(b)
    ensures Cost(w, o, c) == Cost(w, o, a) + Cost(w, o, b)
  {
    hide Numbers;
    var r := w.rank(o.commit) + 1;
    assert (|Numbers(a)| + |Numbers(b)|) * r == |Numbers(a)| * r + |Numbers(b)| * r;
  }

  lemma NoNumbers()
    ensures Numbers([]) == multiset{}
  {
  }

  lemma HasLines(list: seq<Entry>, o: Origin, file: seq<string>, image: seq<string>)
    requires AllOf(list, o, file, image) && list != []
    ensures 0 < |Numbers(list)|
  {
    var e := list[0];
    assert Lines(e, Number()) == Lines(e.(num := e.num - 1), Number()) + multiset{NthLine(e, e.num - 1).lno};
  }

  ghost predicate EachFine(w: World, ent: seq<Entry>) {
    forall e :: e in ent ==> w.Fine([e], e.suspect)
  }

  ghost predicate EachSettled(w: World, ent: seq<Entry>) {
    forall e :: e in ent ==> w.Settled(e)
  }

  class Scoreboard {
    const w: World
    /** The final image's line numbers asked about. */
    ghost const asked: multiset<int>
    var origins: seq<Origin>
    var suspects: Lists
    var commits: seq<nat>
    var ent: seq<Entry>
    /** The commits marked so during the run. */
    var uninteresting: set<nat>

    /** A scoreboard that suspects the final origin of the given ranges of lines. */
    constructor (w: World, ranges: seq<Entry>)
      requires w.Valid() && AllOf(ranges, w.final, w.image, w.image) && InOrder(ranges)
      requires forall e :: e in ranges ==> e.sLno == e.lno && !e.ignored && !e.unblamable
      ensures Valid() && Just() && Queued(None) && Sorted(None) && this.w == w && asked == Numbers(ranges)
      ensures suspects == map[w.final := ranges] && ent == [] && uninteresting == {}
    {
      hide World.Valid;
      hide World.Fine;
      hide AllOf;
      hide InOrder;
      hide Sum;
      this.w := w;
      this.asked := Numbers(ranges);
      origins := [w.final];
      suspects := map[w.final := ranges];
      commits := [w.final.commit];
      ent := [];
      uninteresting := {};
      new;
      StartTraced(w, ranges);
      assert origins[1..] == [];
      assert Pending(origins[1..], suspects) == multiset{};
      NoNumbers();
    }

    ghost predicate Known()
      reads this`origins, this`suspects
    {
      Distinct(origins) && forall o :: o in origins <==> o in suspects
    }

    /** Every line asked about is in exactly one place, with a trail that leads there. */
    ghost predicate Valid()
      reads this`origins, this`suspects, this`ent
    {
      && w.Valid() && Known()
      && (forall o :: o in suspects ==> w.Fine(suspects[o], o))
      && EachFine(w, ent)
      && Pending(origins, suspects) + Numbers(ent) == asked
    }

    /** The final entries are settled. */
    ghost predicate Just()
      reads this`ent, this`uninteresting
    {
      EachSettled(w, ent) && forall c :: c in uninteresting ==> w.Outside(c)
    }

    lemma Holds()
      requires Valid()
      ensures w.Valid() && Known()
    {
    }

    /** Every commit with suspects is in the queue or is the one at hand. */
    ghost predicate Queued(current: Option<nat>)
      reads this`suspects, this`commits
    {
      forall o :: o in suspects && suspects[o] != [] ==> o.commit in commits || current == Some(o.commit)
    }

    /** The entries of every suspect are in order, except those of the suspect at hand. */
    ghost predicate Sorted(busy: Option<Origin>)
      reads this`suspects
    {
      forall o :: o in suspects && busy != Some(o) ==> InOrder(suspects[o])
    }

    ghost function Left(): nat
      requires Known()
      reads this`origins, this`suspects
    {
      Weight(w, origins, suspects)
    }

    /** get_origin */
    method GetOrigin(o: Origin, ghost current: Option<nat>, ghost busy: Option<Origin>)
      requires Valid() && Queued(current) && Sorted(busy)
      modifies this`origins, this`suspects
      ensures Valid() && Known() && Queued(current) && Sorted(busy) && o in suspects
      ensures forall p :: p in old(suspects) ==> p in suspects && suspects[p] == old(suspects[p])
      ensures Left() == old(Left())
    {
      hide AllOf;
      hide Every;
      hide World.Valid;
      hide Sum;
      hide Pending;
      hide Weight;
      if o !in suspects {
        PendingNew(w, origins, suspects, o);
        NothingFine(w, o);
        origins := origins + [o];
        suspects := suspects[o := []];
      }
    }

    /**
     The commit of an origin that is given entries is put in the queue, unless it is there for this or another origin.
     */
    method Enqueue(o: Origin, ghost current: Option<nat>)
      requires Known() && o in suspects && Queued(current)
      modifies this`commits
      ensures Queued(current) && (o.commit in commits || current == Some(o.commit))
      ensures forall c :: c in commits ==> c in old(commits) || c == o.commit
    {
      if suspects[o] == [] {
        var waiting := exists p :: p in origins && p.commit == o.commit && suspects[p] != [];
        if !waiting {
          commits := commits + [o.commit];
        }
      }
    }

    /** queue_blames */
    method QueueBlames(o: Origin, sorted: seq<Entry>, ghost current: Option<nat>, ghost busy: Option<Origin>)
      requires w.Valid() && Known() && o in suspects && Queued(current)
      requires forall p :: p in suspects ==> w.Fine(suspects[p], p)
      requires w.Fine(sorted, o) && InOrder(sorted) && Sorted(busy) && busy != Some(o)
      modifies this`suspects, this`commits
      ensures Known() && Queued(current) && Sorted(busy)
      ensures suspects.Keys == old(suspects.Keys)
      ensures forall p :: p in suspects ==> w.Fine(suspects[p], p)
      ensures forall p :: p in suspects && p != o ==> suspects[p] == old(suspects[p])
      ensures Sum(suspects[o], Itself()) == old(Sum(suspects[o], Itself())) + Sum(sorted, Itself())
      ensures Pending(origins, suspects) == old(Pending(origins, suspects)) + Numbers(sorted)
      ensures Left() == old(Left()) + Cost(w, o, sorted)
    {
      hide Numbers;
      hide World.Fine;
      hide InOrder;
      hide World.Valid;
      hide Cost;
      hide Pending;
      hide Weight;
      hide Sum;
      ghost var m := suspects;
      var list := Together(o, sorted);
      Enqueue(o, current);
      suspects := suspects[o := list];
      PendingUpdate(w, origins, m, o, list);
      CostAdds(w, o, m[o], sorted, list);
      Added(Pending(origins, m), Pending(origins, suspects), Numbers(m[o]), Numbers(sorted));
    }

    /** The entries a suspect has and those it is given; the lists are merged unless it has none. */
    method Together(o: Origin, sorted: seq<Entry>) returns (list: seq<Entry>)
      requires w.Valid() && o in suspects && w.Fine(suspects[o], o) && w.Fine(sorted, o)
      requires InOrder(suspects[o]) && InOrder(sorted)
      ensures w.Fine(list, o) && InOrder(list) && Numbers(list) == Numbers(suspects[o]) + Numbers(sorted)
      ensures Sum(list, Itself()) == Sum(suspects[o], Itself()) + Sum(sorted, Itself())
    {
      hide Proper;
      hide AllOf;
      hide Every;
      hide Sum;
      hide InOrder;
      hide World.Traced;
      FilesAreShort(w, o);
      hide World.Valid;
      if suspects[o] != [] {
        InOrderProper(suspects[o], o, w.file(o), w.image);
        InOrderProper(sorted, o, w.file(o), w.image);
        list := BlameMerge(suspects[o], sorted, o, w.file(o), w.image);
        ProperInOrder(list, o, w.file(o), w.image);
        MergedEvery(suspects[o], sorted, list, w.Traced(o));
      } else {
        NoNumbers();
        NoLines([], NoGuess());
        list := sorted;
      }
    }

    /** What handing blame from one origin to another of lower rank keeps, and by how much it lowers what is left. */
    twostate predicate Handed(from: Origin, current: Option<nat>)
      requires old(Known()) && old(from in suspects)
      reads this
    {
      && Valid() && Queued(current) && Sorted(Some(from))
      && (forall o :: o in old(suspects) ==> o in suspects)
      && Left() + |old(Numbers(suspects[from]))| <= old(Left()) + |Numbers(suspects[from])|
      && ent == old(ent)
    }

    /** The common part of pass_blame_to_parent and pass_whole_blame: from keeps kept, and parent gets given. */
    method Hand(from: Origin, parent: Origin, given: seq<Entry>, kept: seq<Entry>, ghost current: Option<nat>)
      requires Valid() && Queued(current) && from in suspects && parent in suspects
      requires w.rank(parent.commit) < w.rank(from.commit)
      requires suspects[from] != []
      requires Numbers(given) + Numbers(kept) == Numbers(suspects[from])
      requires w.Fine(given, parent) && w.Fine(kept, from) && InOrder(given) && Sorted(Some(from))
      modifies this`suspects, this`commits
      ensures Handed(from, current)
      ensures suspects[from] == kept
      ensures Sum(suspects[parent], Itself()) == old(Sum(suspects[parent], Itself())) + Sum(given, Itself())
    {
      hide Numbers;
      hide World.Fine;
      hide InOrder;
      hide World.Valid;
      hide Sum;
      hide Cost;
      hide Pending;
      hide Weight;
      ghost var m0, p0 := suspects, Pending(origins, suspects);
      ghost var src := suspects[from];
      PendingUpdate(w, origins, suspects, from, kept);
      CostAdds(w, from, given, kept, src);
      CostFalls(w, from, parent, given);
      suspects := suspects[from := kept];
      ghost var p1 := Pending(origins, suspects);
      QueueBlames(parent, given, current, Some(from));
      Settle(p0, p1, Numbers(src), Numbers(kept), Numbers(given));
      assert Pending(origins, suspects) == p0;
      assert |Numbers(src)| == |Numbers(given)| + |Numbers(kept)|;
    }

    /** pass_blame_to_parent */
    method PassBlameToParent(target: Origin, parent: Origin, ghost current: Option<nat>)
      requires Valid() && Queued(current) && target in suspects && parent in suspects && w.IsCounterpart(target, parent)
      requires Sorted(Some(target)) && InOrder(suspects[target]) && Every(suspects[target], w.GoesTo(target, parent))
      modifies this`suspects, this`commits
      ensures Handed(target, current) && InOrder(suspects[target])
      ensures var c := w.Compare(parent, target);
              && AllInside(c.hunks, suspects[target]) && Parts(suspects[target], old(suspects[target]))
              && Sum(suspects[target], Itself()) == Sum(old(suspects[target]), Kept(c.hunks, c.guess))
              && Sum(suspects[parent], Itself()) ==
                 old(Sum(suspects[parent], Itself())) + Sum(old(suspects[target]), Passed(c.hunks, c.guess))
    {
      hide Proper;
      hide AllOf;
      hide Every;
      hide InOrder;
      hide Sum;
      hide Pending;
      hide Weight;
      hide IsDiff;
      hide AllInside;
      hide Parts;
      hide World.Traced;
      hide World.IsCounterpart;
      var c := w.Compare(parent, target);
      NothingInside(c.hunks);
      if suspects[target] == [] {
        NoLines(c.hunks, c.guess);
        return;
      }
      LowerRank(w, target, parent);
      InOrderProper(suspects[target], target, w.file(target), w.image);
      var dst, kept := Divide(c, suspects[target]);
      ProperInOrder(dst, parent, w.file(parent), w.image);
      ProperInOrder(kept, target, w.file(target), w.image);
      PassedTraced(w, parent, target, suspects[target], dst, kept);
      Hand(target, parent, dst, kept, current);
    }

    /** pass_whole_blame */
    method PassWholeBlame(origin: Origin, porigin: Origin, ghost current: Option<nat>)
      requires Valid() && Queued(current) && origin in suspects && porigin in suspects
      requires w.IsCounterpart(origin, porigin) && w.file(porigin) == w.file(origin)
      requires w.Found(origin) == Whole(porigin)
      requires Sorted(Some(origin)) && InOrder(suspects[origin])
      modifies this`suspects, this`commits
      ensures Handed(origin, current)
      ensures suspects[origin] == []
      ensures Sum(suspects[porigin], Itself()) ==
              old(Sum(suspects[porigin], Itself())) + old(Sum(suspects[origin], Itself()))
    {
      hide Pending;
      hide Weight;
      hide Sum;
      hide Good;
      hide World.Valid;
      hide World.Settled;
      hide World.Outside;
      hide World.IsCounterpart;
      hide World.Traced;
      LowerRank(w, origin, porigin);
      if suspects[origin] == [] {
        NoLines([], NoGuess());
        return;
      }
      var list := suspects[origin];
      var given: seq<Entry> := [];
      var i := 0;
      while i < |list|
        invariant 0 <= i <= |list| && |given| == i
        invariant forall j :: 0 <= j < i ==> given[j] == list[j].(suspect := porigin)
      {
        given := given + [list[i].(suspect := porigin)];
        i := i + 1;
      }
      Redirected(w, list, given, origin, porigin);
      NothingFine(w, origin);
      NoNumbers();
      Hand(origin, porigin, given, [], current);
    }

    /** One scapegoat in one pass: is its version of the file the same, new, or like one found already? */
    method TryScapegoat(origin: Origin, i: nat, pass: nat, found0: seq<Option<Origin>>, ghost current: Option<nat>)
      returns (whole: Option<Origin>, found: seq<Option<Origin>>)
      requires Valid() && Known() && Queued(current) && Sorted(None) && pass < 2 && i < |w.scapegoats(origin.commit)|
      requires Progress(w, origin, pass, i, found0)
      modifies this`origins, this`suspects
      ensures Valid() && Known() && Queued(current) && Sorted(None) && Left() == old(Left())
      ensures forall o :: o in old(suspects) ==> o in suspects && suspects[o] == old(suspects[o])
      ensures whole.Some? ==> Scapegoat(origin, whole.value) && w.file(whole.value) == w.file(origin)
      ensures found == found0 || (i < |found0| && exists o :: Scapegoat(origin, o) && found == found0[i := Some(o)])
      ensures whole.None? ==> Progress(w, origin, pass, i + 1, found)
      ensures |found0| == |found| == |w.scapegoats(origin.commit)|
      ensures w.Look(origin, pass, i, found0) ==
              if whole.Some? then Whole(whole.value) else w.Look(origin, pass, i + 1, found)
    {
      hide World.Valid;
      Holds();
      hide Scoreboard.Valid;
      hide Scoreboard.Queued;
      hide Scoreboard.Sorted;
      hide Scoreboard.Left;
      hide Known;
      hide Proper;
      hide Represented;
      hide Looked;
      hide Good;
      hide Pending;
      hide World.Settled;
      hide World.Outside;
      hide World.Changed;
      hide Weight;
      hide Progress;
      hide World.Like;
      var c := w.scapegoats(origin.commit)[i];
      whole, found := None, found0;
      ProgressSkips(w, origin, pass, i, found0);
      if found[i].None? && w.find(origin, c, pass).Some? {
        var porigin := w.find(origin, c, pass).value;
        FoundIsLower(w, origin, i, pass);
        GetOrigin(porigin, current, None);
        if w.file(porigin) == w.file(origin) {
          return Some(porigin), found;
        }
        if w.Like(found, i, porigin) {
          LikeEarlier(w, found, i, porigin);
        } else {
          found := found[i := Some(porigin)];
          LikeItself(w, found, i);
        }
        ProgressFinds(w, origin, pass, i, found0, found);
      }
    }

    /** One pass over the scapegoats. */
    method TryScapegoats(origin: Origin, pass: nat, found0: seq<Option<Origin>>, ghost current: Option<nat>)
      returns (whole: Option<Origin>, found: seq<Option<Origin>>)
      requires Valid() && Known() && Queued(current) && Sorted(None) && pass < 2
      requires AllScapegoats(origin, found0) && Progress(w, origin, pass, 0, found0)
      modifies this`origins, this`suspects
      ensures Valid() && Known() && Queued(current) && Sorted(None) && Left() == old(Left())
      ensures forall o :: o in old(suspects) ==> o in suspects && suspects[o] == old(suspects[o])
      ensures whole.Some? ==> Scapegoat(origin, whole.value) && w.file(whole.value) == w.file(origin)
      ensures AllScapegoats(origin, found) && (whole.None? ==> Progress(w, origin, pass + 1, 0, found))
      ensures |found0| == |found| == |w.scapegoats(origin.commit)|
      ensures w.Look(origin, pass, 0, found0) ==
              if whole.Some? then Whole(whole.value) else w.Look(origin, pass + 1, 0, found)
    {
      hide Scoreboard.Valid;
      hide Scoreboard.Queued;
      hide Scoreboard.Sorted;
      hide Scoreboard.Known;
      hide Scoreboard.Left;
      hide Progress;
      hide World.Look;
      whole, found := None, found0;
      ProgressLength(w, origin, pass, 0, found0);
      var i := 0;
      while i < |w.scapegoats(origin.commit)|
        invariant 0 <= i <= |w.scapegoats(origin.commit)| && whole.None?
        invariant Valid() && Known() && Queued(current) && Sorted(None) && Left() == old(Left())
        invariant forall o :: o in old(suspects) ==> o in suspects && suspects[o] == old(suspects[o])
        invariant AllScapegoats(origin, found) && Progress(w, origin, pass, i, found)
        invariant |found0| == |found| == |w.scapegoats(origin.commit)|
        invariant w.Look(origin, pass, 0, found0) == w.Look(origin, pass, i, found)
      {
        whole, found := TryScapegoat(origin, i, pass, found, current);
        if whole.Some? {
          return;
        }
        i := i + 1;
      }
      ProgressNext(w, origin, pass, found);
      LookNext(w, origin, pass, found);
    }

    /** The passes of pass_blame that look for the suspects' counterparts in the scapegoats. */
    method FindScapegoats(origin: Origin, ghost current: Option<nat>)
      returns (whole: Option<Origin>, found: seq<Option<Origin>>)
      requires Valid() && Known() && Queued(current) && Sorted(None) && origin in suspects
      modifies this`origins, this`suspects
      ensures Valid() && Known() && Queued(current) && Sorted(None) && Left() == old(Left())
      ensures forall o :: o in old(suspects) ==> o in suspects && suspects[o] == old(suspects[o])
      ensures whole.Some? ==> Scapegoat(origin, whole.value) && w.file(whole.value) == w.file(origin)
      ensures AllScapegoats(origin, found)
      ensures w.Found(origin) == if whole.Some? then Whole(whole.value) else Files(found)
      ensures whole.None? ==> forall c :: c in w.scapegoats(origin.commit) ==>
              Represented(w, origin, w.Counterpart(origin, c), found)
    {
      hide Scoreboard.Valid;
      hide Scoreboard.Queued;
      hide Scoreboard.Sorted;
      hide Scoreboard.Known;
      hide Scoreboard.Left;
      hide Scoreboard.Scapegoat;
      hide Progress;
      hide World.Look;
      hide Represented;
      whole := None;
      found := seq(|w.scapegoats(origin.commit)|, _ => None);
      ProgressStarts(w, origin, found);
      var pass := 0;
      while pass < 2
        invariant 0 <= pass <= 2 && whole.None?
        invariant Valid() && Known() && Queued(current) && Sorted(None) && Left() == old(Left())
        invariant forall o :: o in old(suspects) ==> o in suspects && suspects[o] == old(suspects[o])
        invariant AllScapegoats(origin, found) && Progress(w, origin, pass, 0, found)
        invariant |found| == |w.scapegoats(origin.commit)| && w.Found(origin) == w.Look(origin, pass, 0, found)
      {
        whole, found := TryScapegoats(origin, pass, found, current);
        if whole.Some? {
          return;
        }
        pass := pass + 1;
      }
      ProgressEnds(w, origin, found);
      LookEnds(w, origin, found);
    }

    ghost predicate AllScapegoats(origin: Origin, found: seq<Option<Origin>>)
      reads this
    {
      forall i :: 0 <= i < |found| && found[i].Some? ==> Scapegoat(origin, found[i].value)
    }

    ghost predicate Scapegoat(origin: Origin, o: Origin)
      reads this
    {
      Lower(origin, o) && w.IsCounterpart(origin, o)
    }

    ghost predicate Lower(origin: Origin, o: Origin)
      reads this
    {
      o in suspects && w.rank(o.commit) < w.rank(origin.commit)
    }

    ghost predicate Given(origin: Origin, blamed: seq<Entry>)
      reads this
    {
      forall e :: e in blamed ==> Lower(origin, e.suspect) && w.Fine([e], e.suspect)
    }

    /**
     What is found in the scapegoats' files of the entries an origin is left with, what is not, and what is too small
     */
    method CollectMoves(origin: Origin, found: seq<Option<Origin>>, list: seq<Entry>)
      returns (blamed: seq<Entry>, rest: seq<Entry>, small: seq<Entry>)
      requires w.Valid() && w.moves && Own(w, origin, list) && AllScapegoats(origin, found)
      ensures Given(origin, blamed) && Own(w, origin, rest) && Own(w, origin, small)
      ensures Numbers(blamed) + Numbers(rest) + Numbers(small) == Numbers(list)
      ensures AllMovesSought(w, found, |found|, rest) && AllTiny(w, small, w.moveScore)
    {
      hide Sum;
      hide Own;
      hide AllParts;
      hide AllMovesSought;
      hide AllTiny;
      hide World.Fine;
      hide World.NotMoved;
      hide World.IsCounterpart;
      small, rest := SetSmallAside(w, origin, list, w.moveScore);
      blamed := [];
      NoNumbers();
      NoMovesYet(w, found, rest);
      var i := 0;
      while i < |found| && rest != []
        invariant i <= |found| && Given(origin, blamed) && Own(w, origin, rest) && Own(w, origin, small)
        invariant Numbers(blamed) + Numbers(rest) + Numbers(small) == Numbers(list)
        invariant AllMovesSought(w, found, i, rest) && AllTiny(w, small, w.moveScore)
      {
        ghost var before := rest;
        if found[i].Some? {
          ghost var b, s := Numbers(blamed), Numbers(small);
          var more, less;
          more, rest, less := MovesIn(w, origin, found[i].value, rest);
          MoreGiven(origin, blamed, more, found[i].value);
          OwnTogether(w, origin, less, small, w.moveScore);
          SumConcat(blamed, more, Number());
          SumConcat(less, small, Number());
          Found(b, Numbers(before), s, Numbers(more), Numbers(rest), Numbers(less));
          blamed := blamed + more;
          small := less + small;
        } else {
          PartsThemselves(rest);
        }
        MoreMovesSought(w, found, i, before, rest);
        i := i + 1;
      }
      if rest == [] {
        NoneSought(w, found);
      }
    }

    /** The other files of a scapegoat become origins. */
    method GetOrigins(list: seq<Origin>, ghost current: Option<nat>, ghost busy: Option<Origin>)
      requires Valid() && Known() && Queued(current) && Sorted(busy)
      modifies this`origins, this`suspects
      ensures Valid() && Known() && Queued(current) && Sorted(busy) && Left() == old(Left())
      ensures forall p :: p in old(suspects) ==> p in suspects && suspects[p] == old(suspects[p])
      ensures forall p :: p in list ==> p in suspects
    {
      hide Scoreboard.Valid;
      hide Scoreboard.Queued;
      hide Scoreboard.Sorted;
      hide Scoreboard.Left;
      var i := 0;
      while i < |list|
        invariant i <= |list| && Valid() && Known() && Queued(current) && Sorted(busy) && Left() == old(Left())
        invariant forall p :: p in old(suspects) ==> p in suspects && suspects[p] == old(suspects[p])
        invariant forall p :: p in list[..i] ==> p in suspects
      {
        GetOrigin(list[i], current, busy);
        assert list[..i + 1] == list[..i] + [list[i]];
        i := i + 1;
      }
      assert list[..i] == list;
    }

    /**
     What of the rest is found in other files of the scapegoats, what is not, and what is too small. What was too small
     to be looked for before is taken up again if copies may be smaller.
     */
    method CollectCopies(origin: Origin, found: seq<Option<Origin>>, blamed0: seq<Entry>, rest0: seq<Entry>,
                         small0: seq<Entry>, ghost current: Option<nat>)
      returns (blamed: seq<Entry>, rest: seq<Entry>, small: seq<Entry>)
      requires Valid() && Known() && Queued(current) && Sorted(Some(origin)) && w.copies
      requires |found| == |w.scapegoats(origin.commit)|
      requires Given(origin, blamed0) && Own(w, origin, rest0) && Own(w, origin, small0)
      requires AllTiny(w, small0, w.moveScore)
      modifies this`origins, this`suspects
      ensures Valid() && Known() && Queued(current) && Sorted(Some(origin)) && Left() == old(Left())
      ensures forall p :: p in old(suspects) ==> p in suspects && suspects[p] == old(suspects[p])
      ensures Given(origin, blamed) && Own(w, origin, rest) && Own(w, origin, small)
      ensures Numbers(blamed) + Numbers(rest) + Numbers(small) == Numbers(blamed0) + Numbers(rest0) + Numbers(small0)
      ensures AllCopiesSought(w, origin, found, |found|, rest) && AllTiny(w, small, w.copyScore)
      ensures AllParts(rest, small0 + rest0) && AllParts(small, small0 + rest0)
    {
      hide Scoreboard.Valid;
      hide Scoreboard.Known;
      hide Scoreboard.Queued;
      hide Scoreboard.Sorted;
      hide Scoreboard.Left;
      hide Sum;
      hide Own;
      hide AllParts;
      hide AllCopiesSought;
      hide AllTiny;
      hide World.Fine;
      hide World.NotCopied;
      blamed := blamed0;
      small, rest := CopyCandidates(w, origin, rest0, small0);
      ghost var list := small0 + rest0;
      NoCopiesYet(w, origin, found, rest);
      ghost var all := Numbers(blamed0) + Numbers(rest0) + Numbers(small0);
      assert Numbers(blamed) + Numbers(rest) + Numbers(small) == all by {
        Regroup3(Numbers(blamed0), Numbers(rest), Numbers(small), Numbers(rest0), Numbers(small0));
      }
      var i := 0;
      while i < |found| && rest != []
        invariant i <= |found| && Valid() && Known() && Queued(current) && Sorted(Some(origin)) && Left() == old(Left())
        invariant forall p :: p in old(suspects) ==> p in suspects && suspects[p] == old(suspects[p])
        invariant Given(origin, blamed) && Own(w, origin, rest) && Own(w, origin, small)
        invariant Numbers(blamed) + Numbers(rest) + Numbers(small) == all
        invariant AllCopiesSought(w, origin, found, i, rest) && AllTiny(w, small, w.copyScore)
        invariant AllParts(rest, list) && AllParts(small, list)
      {
        var c := w.scapegoats(origin.commit)[i];
        GetOrigins(w.others(origin, c, found[i]), current, Some(origin));
        Holds();
        ghost var b, s, before := Numbers(blamed), Numbers(small), rest;
        var more, less;
        more, rest, less := CopiesIn(w, origin, i, found[i], rest);
        MoreCopied(origin, i, found[i], blamed, more);
        OwnTogether(w, origin, less, small, w.copyScore);
        PartsOfParts(rest, before, list);
        PartsOfParts(less, before, list);
        PartsTogether(less, small, list);
        SumConcat(blamed, more, Number());
        SumConcat(less, small, Number());
        Found(b, Numbers(before), s, Numbers(more), Numbers(rest), Numbers(less));
        blamed := blamed + more;
        small := less + small;
        MoreCopiesSought(w, origin, found, i, before, rest);
        i := i + 1;
      }
      if rest == [] {
        NoneCopied(w, origin, found);
      }
    }

    lemma MoreGiven(origin: Origin, blamed: seq<Entry>, more: seq<Entry>, o: Origin)
      requires Given(origin, blamed) && Lower(origin, o) && w.Fine(more, o)
      ensures Given(origin, blamed + more)
    {
      hide Good;
      hide World.Traced;
    }

    lemma MoreCopied(origin: Origin, i: nat, q: Option<Origin>, blamed: seq<Entry>, more: seq<Entry>)
      requires w.Valid() && Given(origin, blamed) && i < |w.scapegoats(origin.commit)|
      requires forall p :: p in w.others(origin, w.scapegoats(origin.commit)[i], q) ==> p in suspects
      requires Copied(w, w.others(origin, w.scapegoats(origin.commit)[i], q), more)
      ensures Given(origin, blamed + more)
    {
      hide World.Fine;
      forall e | e in blamed + more ensures Lower(origin, e.suspect) && w.Fine([e], e.suspect) {
        if e in more {
          assert e.suspect in w.others(origin, w.scapegoats(origin.commit)[i], q);
          OtherIsLower(w, origin, e.suspect);
        }
      }
    }

    method GiveGroup(ghost origin: Origin, porigin: Origin, group: seq<Entry>, ghost current: Option<nat>)
      requires w.Valid() && Known() && Queued(current) && origin in suspects && Lower(origin, porigin)
      requires w.Fine(group, porigin) && Sorted(Some(origin))
      requires forall p :: p in suspects ==> w.Fine(suspects[p], p)
      modifies this`suspects, this`commits
      ensures Known() && Queued(current) && Sorted(Some(origin)) && suspects.Keys == old(suspects.Keys)
              && suspects[origin] == old(suspects[origin])
      ensures forall p :: p in suspects ==> w.Fine(suspects[p], p)
      ensures Pending(origins, suspects) == old(Pending(origins, suspects)) + Numbers(group)
      ensures Left() + |Numbers(group)| <= old(Left()) + Cost(w, origin, group)
    {
      hide Numbers;
      hide Good;
      hide Proper;
      hide Every;
      hide AllOf;
      hide InOrder;
      hide Sum;
      hide World.Traced;
      hide World.IsCounterpart;
      hide Cost;
      hide Pending;
      hide Weight;
      hide World.Valid;
      FilesAreShort(w, porigin);
      var sorted := SortEntries(group, porigin, w.file(porigin), w.image);
      ProperInOrder(sorted, porigin, w.file(porigin), w.image);
      StillEvery(group, sorted, w.Traced(porigin));
      CostFalls(w, origin, porigin, group);
      CostSame(w, porigin, sorted, group);
      QueueBlames(porigin, sorted, current, Some(origin));
    }

    /** Gives every suspect its entries, sorted. */
    method DistributeBlame(origin: Origin, blamed0: seq<Entry>, ghost current: Option<nat>)
      requires w.Valid() && Known() && Queued(current) && origin in suspects && Given(origin, blamed0)
      requires Sorted(Some(origin)) && forall p :: p in suspects ==> w.Fine(suspects[p], p)
      modifies this`suspects, this`commits
      ensures Known() && Queued(current) && Sorted(Some(origin)) && suspects.Keys == old(suspects.Keys)
              && suspects[origin] == old(suspects[origin])
      ensures forall p :: p in suspects ==> w.Fine(suspects[p], p)
      ensures Pending(origins, suspects) == old(Pending(origins, suspects)) + Numbers(blamed0)
      ensures Left() + |Numbers(blamed0)| <= old(Left()) + Cost(w, origin, blamed0)
    {
      hide Numbers;
      hide Sum;
      hide Good;
      hide Scoreboard.Sorted;
      hide World.Fine;
      hide World.IsCounterpart;
      hide Cost;
      hide Pending;
      hide Weight;
      hide World.Valid;
      var blamed := blamed0;
      ghost var p0, l0 := Pending(origins, suspects), Left();
      while blamed != []
        invariant Known() && Queued(current) && Sorted(Some(origin)) && suspects.Keys == old(suspects.Keys)
                  && suspects[origin] == old(suspects[origin])
        invariant (forall p :: p in suspects ==> w.Fine(suspects[p], p)) && Given(origin, blamed)
        invariant Pending(origins, suspects) + Numbers(blamed) == p0 + Numbers(blamed0)
        invariant Left() + Cost(w, origin, blamed) + |Numbers(blamed0)| <= l0 + Cost(w, origin, blamed0)
                  + |Numbers(blamed)|
        decreases |blamed|
      {
        var porigin := blamed[0].suspect;
        var group, rest := TakeGroup(blamed, porigin);
        assert Lower(origin, porigin);
        ghost var before := Pending(origins, suspects);
        GroupFine(w, group, porigin);
        GiveGroup(origin, porigin, group, current);
        CostAdds(w, origin, group, rest, blamed);
        Spread(before, Numbers(blamed), Numbers(group), Numbers(rest), p0 + Numbers(blamed0));
        blamed := rest;
      }
      NoNumbers();
      FreeOfCost(w, origin);
    }

    /** The origin keeps kept, and what was found elsewhere is handed out. */
    method HandMoved(origin: Origin, blamed: seq<Entry>, kept: seq<Entry>, ghost current: Option<nat>)
      requires Valid() && Queued(current) && Sorted(Some(origin)) && origin in suspects
      requires suspects[origin] != [] && Given(origin, blamed) && w.Fine(kept, origin)
      requires Numbers(blamed) + Numbers(kept) == Numbers(suspects[origin])
      modifies this`suspects, this`commits
      ensures Handed(origin, current) && suspects[origin] == kept
    {
      hide Numbers;
      hide Sum;
      hide InOrder;
      hide Cost;
      hide Pending;
      hide Weight;
      hide World.Valid;
      hide World.Fine;
      hide World.IsCounterpart;
      ghost var src, p0 := suspects[origin], Pending(origins, suspects);
      PendingUpdate(w, origins, suspects, origin, kept);
      CostAdds(w, origin, blamed, kept, src);
      suspects := suspects[origin := kept];
      ghost var p1 := Pending(origins, suspects);
      DistributeBlame(origin, blamed, current);
      Settle(p0, p1, Numbers(src), Numbers(kept), Numbers(blamed));
      assert |Numbers(src)| == |Numbers(blamed)| + |Numbers(kept)|;
    }

    /** What is found elsewhere of the entries an origin is left with, and what it keeps */
    method CollectElsewhere(origin: Origin, found: seq<Option<Origin>>, ghost current: Option<nat>)
      returns (blamed: seq<Entry>, kept: seq<Entry>)
      requires Valid() && Known() && Queued(current) && Sorted(Some(origin)) && origin in suspects
      requires Own(w, origin, suspects[origin]) && AllScapegoats(origin, found) && w.Found(origin) == Files(found)
      modifies this`origins, this`suspects
      ensures Valid() && Known() && Queued(current) && Sorted(Some(origin)) && Left() == old(Left())
      ensures forall p :: p in old(suspects) ==> p in suspects && suspects[p] == old(suspects[p])
      ensures Given(origin, blamed) && Own(w, origin, kept) && AllSought(w, kept)
      ensures Numbers(blamed) + Numbers(kept) == Numbers(suspects[origin])
    {
      hide Scoreboard.Queued;
      hide Scoreboard.Sorted;
      hide Scoreboard.Known;
      hide Scoreboard.Left;
      hide Scoreboard.AllScapegoats;
      hide Sum;
      hide Own;
      hide AllParts;
      hide AllMovesSought;
      hide AllCopiesSought;
      hide AllTiny;
      hide AllSought;
      hide World.Found;
      Holds();
      hide Scoreboard.Valid;
      hide World.Valid;
      var list := suspects[origin];
      var rest, small := list, [];
      blamed := [];
      NoNumbers();
      NoneOwn(w, origin, w.moveScore);
      if w.moves {
        blamed, rest, small := CollectMoves(origin, found, list);
        AllTinySought(w, found, small);
        MovesSoughtTogether(w, found, small, rest);
      }
      ghost var tried := small + rest;
      PartsOfBoth(small, rest);
      if w.copies {
        blamed, rest, small := CollectCopies(origin, found, blamed, rest, small, current);
        AllTinyCopies(w, origin, found, small);
        CopiesSoughtTogether(w, origin, found, small, rest);
      }
      kept := small + rest;
      PartsTogether(small, rest, tried);
      if w.moves {
        PartsSought(w, found, |found|, tried, kept);
      }
      OwnAll(w, origin, small, rest);
      AllSoughtIs(w, origin, found, kept);
      SumConcat(small, rest, Number());
      assert Numbers(blamed) + (Numbers(small) + Numbers(rest)) == Numbers(blamed) + Numbers(rest) + Numbers(small);
    }

    /** The part of pass_blame that looks for moved and copied lines */
    method FindElsewhere(origin: Origin, found: seq<Option<Origin>>, ghost current: Option<nat>)
      requires Valid() && Known() && Queued(current) && Sorted(Some(origin)) && origin in suspects
      requires suspects[origin] != [] && Every(suspects[origin], w.Owned(origin))
      requires AllScapegoats(origin, found) && w.Found(origin) == Files(found)
      modifies this`origins, this`suspects, this`commits
      ensures Handed(origin, current) && Every(suspects[origin], w.Owned(origin)) && AllSought(w, suspects[origin])
    {
      hide Scoreboard.Queued;
      hide Scoreboard.Sorted;
      hide Scoreboard.Valid;
      hide Scoreboard.Known;
      hide Scoreboard.Left;
      hide Scoreboard.AllScapegoats;
      hide Scoreboard.Given;
      hide Sum;
      hide Every;
      hide AllSought;
      hide World.Found;
      hide World.Fine;
      hide World.Owned;
      FineAt(origin);
      var blamed, kept := CollectElsewhere(origin, found, current);
      HandMoved(origin, blamed, kept, current);
    }

    /** A line that one of the files found has goes to the first that has it; a line that none has stays. */
    method PassToScapegoats(origin: Origin, found: seq<Option<Origin>>, ghost current: Option<nat>)
      requires Valid() && Known() && Queued(current) && Sorted(None) && origin in suspects
      requires AllScapegoats(origin, found) && w.Found(origin) == Files(found)
      modifies this`suspects, this`commits
      ensures Handed(origin, current) && AllScapegoats(origin, found)
      ensures InOrder(suspects[origin])
      ensures suspects[origin] == [] || InHunks(w, origin, found, |found|, suspects[origin])
    {
      hide Scoreboard.Valid;
      hide Scoreboard.Queued;
      hide Scoreboard.Known;
      hide Scoreboard.Left;
      hide World.Compare;
      hide World.IsCounterpart;
      hide World.Found;
      hide World.GoesTo;
      hide Every;
      hide Numbers;
      hide Sum;
      hide InHunks;
      hide InOrder;
      hide AllInside;
      hide Parts;
      var i := 0;
      InNoHunks(w, origin, found, suspects[origin]);
      while i < |found| && suspects[origin] != []
        invariant 0 <= i <= |found|
        invariant Known() && Handed(origin, current) && AllScapegoats(origin, found)
        invariant InOrder(suspects[origin]) && InHunks(w, origin, found, i, suspects[origin])
      {
        ghost var list := suspects[origin];
        if found[i].Some? {
          InHunksGo(w, origin, found, i, list);
          PassBlameToParent(origin, found[i].value, current);
          Holds();
        }
        InMoreHunks(w, origin, found, i, list, suspects[origin]);
        i := i + 1;
      }
    }

    /** pass_blame_to_parent for an ignored commit. What stays is left as it comes, in order of hunks. */
    method PassIgnoredToParent(target: Origin, parent: Origin, ghost current: Option<nat>)
      requires Valid() && Queued(current) && Sorted(Some(target)) && target in suspects && parent in suspects
      requires w.IsCounterpart(target, parent) && w.ignored(target.commit) && Every(suspects[target], w.Changed(target))
      requires ByHunk(w.CompareIgnoring(parent, target).hunks, suspects[target])
      requires Every(suspects[target], w.GoesByGuess(target, parent))
      modifies this`suspects, this`commits
      ensures Handed(target, current)
      ensures Every(suspects[target], w.Changed(target)) && Every(suspects[target], Unblamable())
      ensures var c := w.CompareIgnoring(parent, target);
              && suspects[target] == StaysAll(old(suspects[target]), c.guess)
              && Sum(suspects[target], Itself()) == Sum(old(suspects[target]), Kept(c.hunks, c.guess))
              && Sum(suspects[parent], Itself()) ==
                 old(Sum(suspects[parent], Itself())) + Sum(old(suspects[target]), Passed(c.hunks, c.guess))
    {
      hide Proper;
      hide AllOf;
      hide Every;
      hide Sum;
      hide Good;
      hide InOrder;
      hide Pending;
      hide Weight;
      hide IsDiff;
      hide ByHunk;
      hide StaysAll;
      hide World.Traced;
      hide World.IsCounterpart;
      hide World.Changed;
      hide GuessesOf;
      var c := w.CompareIgnoring(parent, target);
      if suspects[target] == [] {
        NoLines(c.hunks, c.guess);
        NothingEvery(w.Changed(target));
        NothingEvery(Unblamable());
        NoneStay(c.guess);
        return;
      }
      LowerRank(w, target, parent);
      FilesAreShort(w, parent);
      var prints := w.prints(parent);
      var fa := new Fingerprint[|prints|](i requires 0 <= i < |prints| => prints[i]);
      assert fa[..] == prints;
      var dst, kept := DivideIgnoring(c, fa, w.prints(target), suspects[target]);
      var given := SortEntries(dst, parent, w.file(parent), w.image);
      ProperInOrder(given, parent, w.file(parent), w.image);
      GuessedTraced(w, parent, target, suspects[target], given, kept);
      Hand(target, parent, given, kept, current);
    }

    /** The part of pass_blame that passes what an ignored commit is left with to its scapegoats all the same. */
    method PassIgnored(origin: Origin, found: seq<Option<Origin>>, ghost current: Option<nat>)
      requires Valid() && Known() && Queued(current) && Sorted(Some(origin)) && origin in suspects
      requires AllScapegoats(origin, found) && InHunkOrder(w, origin, found, suspects[origin])
      requires w.ignored(origin.commit) && Every(suspects[origin], w.Changed(origin))
      requires w.Found(origin) == Files(found) && Every(suspects[origin], Unclaimed(w, origin, found, 0))
      modifies this`suspects, this`commits
      ensures Handed(origin, current) && AllScapegoats(origin, found)
      ensures Every(suspects[origin], w.Changed(origin))
      ensures Every(suspects[origin], Unclaimed(w, origin, found, |found|))
    {
      hide Scoreboard.Valid;
      hide Scoreboard.Queued;
      hide Scoreboard.Sorted;
      hide Scoreboard.Known;
      hide Scoreboard.Left;
      hide World.Valid;
      hide World.CompareIgnoring;
      hide World.IsCounterpart;
      hide World.Changed;
      hide Numbers;
      hide Sum;
      hide Every;
      hide InHunkOrder;
      hide StaysAll;
      hide Unclaimed;
      hide World.Found;
      hide World.GoesByGuess;
      hide Kept;
      hide Passed;
      Holds();
      NothingEvery(Unclaimed(w, origin, found, |found|));
      var i := 0;
      while i < |found| && suspects[origin] != []
        invariant 0 <= i <= |found|
        invariant Known() && Handed(origin, current) && AllScapegoats(origin, found)
        invariant Every(suspects[origin], w.Changed(origin)) && InHunkOrder(w, origin, found, suspects[origin])
        invariant Every(suspects[origin], Unclaimed(w, origin, found, if suspects[origin] == [] then |found| else i))
      {
        ghost var list := suspects[origin];
        if found[i].Some? {
          UnclaimedGo(w, origin, found, i, list);
          HunkOrderOf(w, origin, found, list, i);
          PassIgnoredToParent(origin, found[i].value, current);
          StillInHunkOrder(w, origin, found, list, w.CompareIgnoring(found[i].value, origin).guess);
          Holds();
        }
        StillUnclaimed(w, origin, found, i, list, suspects[origin]);
        i := i + 1;
      }
    }

    /** pass_blame */
    method PassBlame(origin: Origin, ghost current: Option<nat>)
      requires Valid() && Known() && Queued(current) && Sorted(None) && origin in suspects
      modifies this`origins, this`suspects, this`commits
      ensures Handed(origin, current) && Every(suspects[origin], w.Owned(origin)) && AllSought(w, suspects[origin])
    {
      hide Scoreboard.Valid;
      hide Scoreboard.Queued;
      hide Scoreboard.Known;
      hide Scoreboard.Left;
      hide Numbers;
      hide World.Sought;
      hide World.Changed;
      hide World.Owned;
      hide World.Compare;
      hide World.IsCounterpart;
      hide World.PassedOver;
      hide Represented;
      hide Unclaimed;
      hide World.Found;
      hide InHunks;
      hide InHunkOrder;
      hide InOrder;
      hide Every;
      var whole, found := FindScapegoats(origin, current);
      NothingEvery(w.Owned(origin));
      if whole.Some? {
        PassWholeBlame(origin, whole.value, current);
        return;
      }
      PassToScapegoats(origin, found, current);
      if suspects[origin] == [] {
        return;
      }
      ChangedFromAll(w, origin, suspects[origin], found);
      UnclaimedYet(w, origin, found, suspects[origin]);
      FoundIfAny(w, origin, found);
      if w.ignored(origin.commit) {
        Holds();
        HunkOrderStarts(w, origin, found, suspects[origin]);
        PassIgnored(origin, found, current);
        Holds();
        if suspects[origin] == [] {
          return;
        }
      }
      OwnedIs(w, origin, found, suspects[origin]);
      Holds();
      ghost var left, n := Left(), |Numbers(suspects[origin])|;
      FindElsewhere(origin, found, current);
      Holds();
      assert Left() + n <= left + |Numbers(suspects[origin])|;
    }

    method TakeResponsibility(origin: Origin, current: nat)
      requires Valid() && Queued(Some(current)) && Sorted(Some(origin)) && origin in suspects
      requires Just() && EachSettled(w, suspects[origin])
      modifies this`suspects, this`ent
      ensures Valid() && Just() && Queued(Some(current)) && Sorted(None)
      ensures suspects == old(suspects)[origin := []]
      ensures Left() + Cost(w, origin, old(suspects[origin])) == old(Left())
      ensures ent == old(suspects[origin]) + old(ent)
    {
      hide Pending;
      hide Weight;
      hide Cost;
      hide World.Valid;
      hide World.Fine;
      hide InOrder;
      hide EachFine;
      hide EachSettled;
      hide Sum;
      hide World.Settled;
      hide World.Outside;
      PendingUpdate(w, origins, suspects, origin, []);
      NothingFine(w, origin);
      SumConcat(suspects[origin], ent, Number());
      FreeOfCost(w, origin);
      NoNumbers();
      SettledTogether(w, suspects[origin], ent);
      FineTogether(w, suspects[origin], origin, ent);
      ghost var n, e0 := Numbers(suspects[origin]), Numbers(ent);
      ent := suspects[origin] + ent;
      suspects := suspects[origin := []];
      assert Pending(origins, suspects) + (n + e0) == Pending(origins, suspects) + n + e0;
    }

    /** One suspect at hand: what it does not pass on is its own. */
    method BreakDown(o: Origin, commit: nat)
      requires Valid() && Known() && Just() && Queued(Some(commit)) && Sorted(None)
      requires o in suspects && o.commit == commit && suspects[o] != []
      modifies this
      ensures Valid() && Known() && Just() && Queued(Some(commit)) && Sorted(None) && Left() < old(Left())
    {
      hide World.Fine;
      hide Weight;
      hide Sum;
      hide World.Valid;
      hide World.Settled;
      hide World.Owned;
      hide World.Outside;
      hide Every;
      hide EachFine;
      hide EachSettled;
      hide Scoreboard.Queued;
      FineAt(o);
      FineHasLines(w, suspects[o], o);
      hide Scoreboard.Valid;
      if w.reverse || (commit !in uninteresting && !w.stop(commit)) {
        PassBlame(o, Some(commit));
      } else {
        var marked :| marked <= w.ancestors(commit);
        AllOutside(w, commit, commit in uninteresting, marked);
        uninteresting := uninteresting + {commit} + marked;
      }
      Holds();
      FineAt(o);
      ghost var kept := suspects[o];
      SettledAll(w, o, kept);
      TakeResponsibility(o, commit);
      Holds();
      CostAtLeast(w, o, kept);
    }

    lemma FineAt(o: Origin)
      requires Valid() && o in suspects
      ensures w.Valid() && w.Fine(suspects[o], o)
    {
    }

    /**
     assign_blame: whatever the order of the queue, everything asked about ends with somebody who made it what it
     is, or who is outside the history asked about.
     */
    method AssignBlame()
      requires Valid() && Just() && Queued(None) && Sorted(None)
      modifies this
      ensures Valid() && Just() && commits == []
      ensures forall o :: o in suspects ==> suspects[o] == []
      ensures Numbers(ent) == asked
    {
      hide World.Fine;
      hide Pending;
      hide Weight;
      hide Sum;
      hide World.Valid;
      hide Scoreboard.Just;
      var commit := NextCommit();
      while commit.Some?
        invariant Valid() && Just() && Queued(commit) && Sorted(None) && (commit.None? ==> commits == [])
        decreases Left(), |commits| + (if commit.Some? then 1 else 0)
      {
        if o :| o in origins && o.commit == commit.value && suspects[o] != [] {
          BreakDown(o, commit.value);
        } else {
          commit := NextCommit();
        }
      }
      AllGone(origins, suspects);
    }

    /**
     How a line of a final entry came to its suspect: by the steps of a trail,
       which are the reason for its marks. A line
     that is not there by a guess is the line of the final image.
     */
    lemma Explained(e: Entry, i: int) returns (t: seq<At>)
      requires Valid() && e in ent && 0 <= i < e.num
      ensures w.IsTrail(t) && t[|t| - 1] == At(e.suspect, NthLine(e, i)) && t[0].l.lno == e.lno + i
      ensures e.ignored <==> exists k :: w.GuessedAt(t, k)
      ensures e.unblamable <==> exists k :: w.UnguessedAt(t, k)
      ensures (forall k :: 0 <= k < |t| ==> !w.ignored(t[k].o.commit)) ==> !e.ignored && !e.unblamable
      ensures 0 <= e.lno + i < |w.image| && 0 <= e.sLno + i < |w.file(e.suspect)|
      ensures !e.ignored ==> w.file(e.suspect)[e.sLno + i] == w.image[e.lno + i]
    {
      hide World.Step;
      hide World.GuessedAt;
      hide World.UnguessedAt;
      hide World.Valid;
      hide Pending;
      LineShows(w, e, i);
      assert w.Reached(At(e.suspect, NthLine(e, i)));
      t :| w.IsTrail(t) && t[|t| - 1] == At(e.suspect, NthLine(e, i));
      Marks(w, t);
      if forall k :: 0 <= k < |t| ==> !w.ignored(t[k].o.commit) {
        NotIgnored(w, t);
      }
    }

    /**
     When no lines are looked for elsewhere and nothing stops the search, every line ends where the history alone says,
     whatever the order of the queue and however lines are grouped in entries.
     */
    lemma Determined(e: Entry, i: int)
      requires Valid() && Just() && e in ent && 0 <= i < e.num && w.Plain()
      ensures At(e.suspect, NthLine(e, i)) == w.Follow(w.StartOf(e.lno + i))
    {
      hide World.Follow;
      hide World.Next;
      hide World.Valid;
      hide World.Reached;
      hide Pending;
      assert e in [e];
      assert w.Fine([e], e.suspect) && w.Settled(e);
      assert w.Traced(e.suspect)(NthLine(e, i)) && w.Owned(e.suspect)(NthLine(e, i));
      FollowStays(w, At(e.suspect, NthLine(e, i)));
    }

    /** prio_queue_get, for any priority */
    method NextCommit() returns (commit: Option<nat>)
      requires Valid() && forall o :: o in suspects && suspects[o] != [] ==> o.commit in commits
      modifies this`commits
      ensures Valid() && Queued(commit)
      ensures old(commits) == [] ==> commit == None && commits == []
      ensures old(commits) != [] ==> commit.Some? && |commits| == |old(commits)| - 1
    {
      if commits == [] {
        return None;
      }
      var k :| 0 <= k < |commits|;
      commit := Some(commits[k]);
      commits := commits[..k] + commits[k + 1..];
    }
  }

  /** The counterpart, if there is one, is another file, and a file like it is among those found. */
  ghost predicate Represented(w: World, origin: Origin, p: Option<Origin>, found: seq<Option<Origin>>) {
    p.Some? ==> w.file(p.value) != w.file(origin) && w.Like(found, |found|, p.value)
  }

  lemma LikeItself(w: World, found: seq<Option<Origin>>, i: nat)
    requires i < |found| && found[i].Some?
    ensures w.Like(found, |found|, found[i].value)
  {
  }

  lemma LikeEarlier(w: World, found: seq<Option<Origin>>, i: nat, p: Origin)
    requires i <= |found| && w.Like(found, i, p)
    ensures w.Like(found, |found|, p)
  {
  }

  /** What has been found of the origin in a commit after some passes over the scapegoats. */
  ghost predicate Looked(w: World, origin: Origin, c: nat, passes: nat, found: seq<Option<Origin>>) {
    && (passes >= 1 ==> Represented(w, origin, w.find(origin, c, 0), found))
    && (passes >= 2 && w.find(origin, c, 0).None? ==> Represented(w, origin, w.find(origin, c, 1), found))
  }

  /**
   Where the passes stand before scapegoat i: those before it have been looked at once more than the others, and
   what has been found for those to come was found in the first pass.
   */
  ghost predicate Progress(w: World, origin: Origin, pass: nat, i: nat, found: seq<Option<Origin>>) {
    var sg := w.scapegoats(origin.commit);
    && |found| == |sg|
    && (forall j :: 0 <= j < |sg| ==> Looked(w, origin, sg[j], if j < i then pass + 1 else pass, found))
    && (pass < 2 ==> forall j :: i <= j < |sg| && found[j].Some? ==> 0 < pass && w.find(origin, sg[j], 0).Some?)
    && (pass == 0 ==> forall j :: 0 <= j < i && j < |sg| && found[j].Some? ==> w.find(origin, sg[j], 0).Some?)
  }

  lemma ProgressStarts(w: World, origin: Origin, found: seq<Option<Origin>>)
    requires |found| == |w.scapegoats(origin.commit)| && forall j :: 0 <= j < |found| ==> found[j] == None
    ensures Progress(w, origin, 0, 0, found)
  {
  }

  /** A scapegoat with a file already, or without a counterpart, is passed over. */
  lemma ProgressSkips(w: World, origin: Origin, pass: nat, i: nat, found: seq<Option<Origin>>)
    requires pass < 2 && i < |w.scapegoats(origin.commit)| && Progress(w, origin, pass, i, found)
    ensures |found| == |w.scapegoats(origin.commit)|
    ensures found[i].Some? || w.find(origin, w.scapegoats(origin.commit)[i], pass).None? ==>
            Progress(w, origin, pass, i + 1, found)
  {
    hide Represented;
    var sg := w.scapegoats(origin.commit);
    if found[i].Some? || w.find(origin, sg[i], pass).None? {
      NothingFound(w, origin, found);
      forall j | 0 <= j < |sg| ensures Looked(w, origin, sg[j], if j < i + 1 then pass + 1 else pass, found) {
        assert Looked(w, origin, sg[j], if j < i then pass + 1 else pass, found);
      }
    }
  }

  /** A counterpart is noted, unless a file like it has been found already. */
  lemma ProgressFinds(w: World, origin: Origin, pass: nat, i: nat, found0: seq<Option<Origin>>,
                      found: seq<Option<Origin>>)
    requires pass < 2 && i < |w.scapegoats(origin.commit)| && Progress(w, origin, pass, i, found0)
    requires var p := w.find(origin, w.scapegoats(origin.commit)[i], pass);
             && found0[i].None? && p.Some? && (found == found0 || found == found0[i := p])
             && w.file(p.value) != w.file(origin)
             && w.Like(found, |found|, p.value)
    ensures Progress(w, origin, pass, i + 1, found)
  {
    hide Represented;
    var sg := w.scapegoats(origin.commit);
    var p := w.find(origin, sg[i], pass);
    FoundOne(w, origin, p.value, found);
    forall j | 0 <= j < |sg| ensures Looked(w, origin, sg[j], if j < i + 1 then pass + 1 else pass, found) {
      assert Looked(w, origin, sg[j], if j < i then pass + 1 else pass, found0);
      StillRepresented(w, origin, w.find(origin, sg[j], 0), found0, i, p.value);
      StillRepresented(w, origin, w.find(origin, sg[j], 1), found0, i, p.value);
    }
  }

  lemma ProgressLength(w: World, origin: Origin, pass: nat, i: nat, found: seq<Option<Origin>>)
    requires Progress(w, origin, pass, i, found)
    ensures |found| == |w.scapegoats(origin.commit)|
  {
  }

  lemma LookNext(w: World, origin: Origin, pass: nat, found: seq<Option<Origin>>)
    requires |found| == |w.scapegoats(origin.commit)| && pass < 2
    ensures w.Look(origin, pass, |found|, found) == w.Look(origin, pass + 1, 0, found)
  {
  }

  lemma LookEnds(w: World, origin: Origin, found: seq<Option<Origin>>)
    requires |found| == |w.scapegoats(origin.commit)|
    ensures w.Look(origin, 2, 0, found) == Files(found)
  {
  }

  lemma ProgressNext(w: World, origin: Origin, pass: nat, found: seq<Option<Origin>>)
    requires pass < 2 && Progress(w, origin, pass, |w.scapegoats(origin.commit)|, found)
    ensures Progress(w, origin, pass + 1, 0, found)
  {
    hide Looked;
    var sg := w.scapegoats(origin.commit);
    forall j | 0 <= j < |sg| ensures Looked(w, origin, sg[j], pass + 1, found) {
      var passes := if j < |sg| then pass + 1 else pass;
      assert Looked(w, origin, sg[j], passes, found);
    }
  }

  lemma ProgressEnds(w: World, origin: Origin, found: seq<Option<Origin>>)
    requires Progress(w, origin, 2, 0, found)
    ensures forall c :: c in w.scapegoats(origin.commit) ==> Represented(w, origin, w.Counterpart(origin, c), found)
  {
    hide Represented;
    var sg := w.scapegoats(origin.commit);
    forall c | c in sg ensures Represented(w, origin, w.Counterpart(origin, c), found) {
      var j :| 0 <= j < |sg| && sg[j] == c;
      assert Looked(w, origin, sg[j], 2, found);
    }
  }

  lemma StillRepresented(w: World, origin: Origin, p: Option<Origin>, found: seq<Option<Origin>>, i: nat, o: Origin)
    requires i < |found| && found[i].None?
    ensures Represented(w, origin, p, found) ==> Represented(w, origin, p, found[i := Some(o)])
  {
    if Represented(w, origin, p, found) && p.Some? {
      var j :| 0 <= j < |found| && found[j].Some? && w.file(found[j].value) == w.file(p.value);
      assert found[i := Some(o)][j] == found[j];
    }
  }

  lemma FoundOne(w: World, origin: Origin, p: Origin, found: seq<Option<Origin>>)
    requires w.file(p) != w.file(origin) && w.Like(found, |found|, p)
    ensures Represented(w, origin, Some(p), found)
  {
  }

  lemma NothingFound(w: World, origin: Origin, found: seq<Option<Origin>>)
    ensures Represented(w, origin, None, found)
  {
  }

  lemma FoundIsLower(w: World, origin: Origin, i: nat, pass: nat)
    requires w.Valid() && i < |w.scapegoats(origin.commit)|
             && w.find(origin, w.scapegoats(origin.commit)[i], pass).Some?
    ensures var p := w.find(origin, w.scapegoats(origin.commit)[i], pass).value;
            w.IsCounterpart(origin, p) && w.rank(p.commit) < w.rank(origin.commit)
  {
  }

  /** Entries in a hunk of the comparison with each file found are changed from all counterparts. */
  lemma ChangedFromAll(w: World, origin: Origin, list: seq<Entry>, found: seq<Option<Origin>>)
    requires forall c :: c in w.scapegoats(origin.commit) ==> Represented(w, origin, w.Counterpart(origin, c), found)
    requires InHunks(w, origin, found, |found|, list)
    ensures Every(list, w.Changed(origin))
  {
    hide InHunk;
    hide AllInside;
    var sg := w.scapegoats(origin.commit);
    forall e, i | e in list && 0 <= i < e.num ensures w.Changed(origin)(NthLine(e, i)) {
      var l := NthLine(e, i);
      forall k | 0 <= k < |sg| ensures w.ChangedFrom(origin, w.Counterpart(origin, sg[k]), l.sLno) {
        var p := w.Counterpart(origin, sg[k]);
        assert Represented(w, origin, p, found);
        if p.Some? {
          var j :| 0 <= j < |found| && found[j].Some? && w.file(found[j].value) == w.file(p.value);
          InsideWithin(w.Compare(found[j].value, origin).hunks, list);
          assert Within(w.Compare(found[j].value, origin).hunks)(l);
        }
      }
    }
  }

  /** Every entry is in one hunk of each of the first i comparisons with files found. */
  ghost predicate InHunks(w: World, origin: Origin, found: seq<Option<Origin>>, i: nat, list: seq<Entry>)
    requires i <= |found|
  {
    forall j :: 0 <= j < i && found[j].Some? ==> AllInside(w.Compare(found[j].value, origin).hunks, list)
  }

  /** The entries are in order of the hunks of every comparison with a file found. */
  ghost predicate InHunkOrder(w: World, origin: Origin, found: seq<Option<Origin>>, list: seq<Entry>) {
    forall j :: 0 <= j < |found| && found[j].Some? ==> ByHunk(w.Compare(found[j].value, origin).hunks, list)
  }

  lemma HunkOrderStarts(w: World, origin: Origin, found: seq<Option<Origin>>, list: seq<Entry>)
    requires InHunks(w, origin, found, |found|, list) && InOrder(list)
    ensures InHunkOrder(w, origin, found, list)
  {
    hide AllInside;
    hide InOrder;
    hide ByHunk;
    forall j | 0 <= j < |found| && found[j].Some? ensures ByHunk(w.Compare(found[j].value, origin).hunks, list) {
      OrderedByHunk(w.Compare(found[j].value, origin).hunks, list);
    }
  }

  lemma HunkOrderOf(w: World, origin: Origin, found: seq<Option<Origin>>, list: seq<Entry>, i: nat)
    requires InHunkOrder(w, origin, found, list) && i < |found| && found[i].Some?
    ensures ByHunk(w.CompareIgnoring(found[i].value, origin).hunks, list)
  {
    hide ByHunk;
  }

  /** What no guess is made for stays in order of the hunks of all comparisons, also those still to come. */
  lemma StillInHunkOrder(w: World, origin: Origin, found: seq<Option<Origin>>, list: seq<Entry>, g: Guesses)
    requires w.Valid() && InHunkOrder(w, origin, found, list)
    ensures InHunkOrder(w, origin, found, StaysAll(list, g))
  {
    hide ByHunk;
    hide StaysAll;
    hide IsDiff;
    forall j | 0 <= j < |found| && found[j].Some?
      ensures ByHunk(w.Compare(found[j].value, origin).hunks, StaysAll(list, g))
    {
      var p := found[j].value;
      StaysByHunk(w.Compare(p, origin).hunks, w.file(p), w.file(origin), list, g);
    }
  }

  /** Some file is found for an origin that has counterparts. */
  lemma FoundIfAny(w: World, origin: Origin, found: seq<Option<Origin>>)
    requires forall c :: c in w.scapegoats(origin.commit) ==> Represented(w, origin, w.Counterpart(origin, c), found)
    ensures w.PassedOver(origin) ==> w.ignored(origin.commit) && exists i :: 0 <= i < |found| && found[i].Some?
  {
  }

  lemma InNoHunks(w: World, origin: Origin, found: seq<Option<Origin>>, list: seq<Entry>)
    ensures InHunks(w, origin, found, 0, list)
  {
  }

  /** What stays after the i'th comparison is in a hunk of it and of those before. */
  lemma InMoreHunks(w: World, origin: Origin, found: seq<Option<Origin>>, i: nat, list: seq<Entry>, kept: seq<Entry>)
    requires i < |found| && InHunks(w, origin, found, i, list)
    requires if found[i].Some? then AllInside(w.Compare(found[i].value, origin).hunks, kept) && Parts(kept, list)
             else kept == list
    ensures InHunks(w, origin, found, i + 1, kept)
  {
    hide World.Compare;
    hide AllInside;
    hide Parts;
    if found[i].Some? {
      forall j | 0 <= j < i && found[j].Some? ensures AllInside(w.Compare(found[j].value, origin).hunks, kept) {
        PartsInside(w.Compare(found[j].value, origin).hunks, kept, list);
      }
    }
  }

  lemma OwnedIs(w: World, o: Origin, found: seq<Option<Origin>>, list: seq<Entry>)
    requires w.Found(o) == Files(found) && Every(list, w.Changed(o))
    requires Every(list, Unclaimed(w, o, found, if w.ignored(o.commit) then |found| else 0))
    requires w.PassedOver(o) ==> w.ignored(o.commit) && exists i :: 0 <= i < |found| && found[i].Some?
    ensures Every(list, w.Owned(o))
  {
    hide World.Changed;
    hide World.PassedOver;
    hide World.Found;
    hide World.Next;
    hide World.Plain;
    hide World.Compare;
    hide World.CompareIgnoring;
    forall e, i | e in list && 0 <= i < e.num ensures w.Owned(o)(NthLine(e, i)) {
      var l := NthLine(e, i);
      assert w.Changed(o)(l) && Unclaimed(w, o, found, if w.ignored(o.commit) then |found| else 0)(l);
      StaysPut(w, o, found, l);
    }
  }

  /** Entries in one hunk of each of the first i comparisons */
  lemma InHunksGo(w: World, o: Origin, found: seq<Option<Origin>>, i: nat, list: seq<Entry>)
    requires i < |found| && found[i].Some? && w.Found(o) == Files(found) && InHunks(w, o, found, i, list)
    ensures Every(list, w.GoesTo(o, found[i].value))
  {
    hide InHunk;
    hide AllInside;
    hide World.Compare;
    hide World.Found;
    hide World.GoesTo;
    forall j | 0 <= j < i && found[j].Some? ensures Every(list, Within(w.Compare(found[j].value, o).hunks)) {
      InsideWithin(w.Compare(found[j].value, o).hunks, list);
    }
    forall e, n | e in list && 0 <= n < e.num ensures w.GoesTo(o, found[i].value)(NthLine(e, n)) {
      forall j | 0 <= j < i && found[j].Some? ensures InHunk(w.Compare(found[j].value, o).hunks, NthLine(e, n).sLno) {
        assert Within(w.Compare(found[j].value, o).hunks)(NthLine(e, n));
      }
      GoesToFirst(w, o, found, i, NthLine(e, n));
    }
  }

  lemma UnclaimedYet(w: World, o: Origin, found: seq<Option<Origin>>, list: seq<Entry>)
    requires InHunks(w, o, found, |found|, list)
    ensures Every(list, Unclaimed(w, o, found, 0))
  {
    hide InHunk;
    hide AllInside;
    hide Unclaimed;
    hide World.Compare;
    forall j | 0 <= j < |found| && found[j].Some? ensures Every(list, Within(w.Compare(found[j].value, o).hunks)) {
      InsideWithin(w.Compare(found[j].value, o).hunks, list);
    }
    forall e, n | e in list && 0 <= n < e.num ensures Unclaimed(w, o, found, 0)(NthLine(e, n)) {
      var l := NthLine(e, n);
      forall j | 0 <= j < |found| && found[j].Some? ensures InHunk(w.Compare(found[j].value, o).hunks, l.sLno) {
        assert Within(w.Compare(found[j].value, o).hunks)(l);
      }
      UnclaimedFirst(w, o, found, l);
    }
  }

  lemma UnclaimedFirst(w: World, o: Origin, found: seq<Option<Origin>>, l: Line)
    requires forall j :: 0 <= j < |found| && found[j].Some? ==> InHunk(w.Compare(found[j].value, o).hunks, l.sLno)
    ensures Unclaimed(w, o, found, 0)(l)
  {
    hide InHunk;
    hide World.Compare;
    hide World.CompareIgnoring;
  }

  lemma UnclaimedGo(w: World, o: Origin, found: seq<Option<Origin>>, i: nat, list: seq<Entry>)
    requires w.Found(o) == Files(found) && i < |found| && found[i].Some? && w.ignored(o.commit)
    requires Every(list, Unclaimed(w, o, found, i))
    ensures Every(list, w.GoesByGuess(o, found[i].value))
  {
    hide Unclaimed;
    hide World.Found;
    hide World.GoesByGuess;
    forall e, n | e in list && 0 <= n < e.num ensures w.GoesByGuess(o, found[i].value)(NthLine(e, n)) {
      assert Unclaimed(w, o, found, i)(NthLine(e, n));
      GoesToGuess(w, o, found, i, NthLine(e, n));
    }
  }

  /** What stays after the i'th file found has been asked for */
  lemma StillUnclaimed(w: World, o: Origin, found: seq<Option<Origin>>, i: nat, list: seq<Entry>, kept: seq<Entry>)
    requires w.Valid() && i < |found| && Every(list, Unclaimed(w, o, found, i))
    requires if found[i].None? then kept == list
             else
               var c := w.CompareIgnoring(found[i].value, o);
               Sum(kept, Itself()) == Sum(list, Kept(c.hunks, c.guess))
    ensures Every(kept, Unclaimed(w, o, found, i + 1))
    ensures kept == [] ==> Every(kept, Unclaimed(w, o, found, |found|))
  {
    hide Sum;
    hide Every;
    hide Unclaimed;
    hide World.Valid;
    hide World.CompareIgnoring;
    hide Kept;
    NothingEvery(Unclaimed(w, o, found, |found|));
    var before, after := Unclaimed(w, o, found, i), Unclaimed(w, o, found, i + 1);
    if found[i].None? {
      forall l, m | before(l) && m in Itself()(l) ensures after(m) {
        UnclaimedSkip(w, o, found, i, l);
      }
      EveryCarried(list, kept, Itself(), before, after);
    } else {
      var c := w.CompareIgnoring(found[i].value, o);
      forall l, m | before(l) && m in Kept(c.hunks, c.guess)(l) ensures after(m) {
        UnclaimedNext(w, o, found, i, l, m);
      }
      EveryCarried(list, kept, Kept(c.hunks, c.guess), before, after);
    }
  }

  lemma UnclaimedSkip(w: World, o: Origin, found: seq<Option<Origin>>, i: nat, l: Line)
    requires i < |found| && found[i].None? && Unclaimed(w, o, found, i)(l)
    ensures Unclaimed(w, o, found, i + 1)(l)
  {
    hide InHunk;
    hide World.Compare;
    hide World.CompareIgnoring;
  }

  lemma UnclaimedNext(w: World, o: Origin, found: seq<Option<Origin>>, i: nat, l: Line, m: Line)
    requires w.Valid() && i < |found| && found[i].Some? && Unclaimed(w, o, found, i)(l)
    requires var c := w.CompareIgnoring(found[i].value, o); m in Kept(c.hunks, c.guess)(l)
    ensures Unclaimed(w, o, found, i + 1)(m)
  {
    hide InHunk;
    hide World.Valid;
    hide World.Compare;
    hide World.CompareIgnoring;
    KeptMarked(w, found[i].value, o, l, m);
  }

  lemma KeptMarked(w: World, p: Origin, o: Origin, l: Line, m: Line)
    requires w.Valid() && var c := w.CompareIgnoring(p, o); m in Kept(c.hunks, c.guess)(l)
    ensures m == l.(unblamable := true) && !w.CompareIgnoring(p, o).guess(l.sLno).From?
  {
    hide InHunk;
    hide GuessesOf;
    hide World.Valid;
    Asked(w, p, o, l.sLno);
  }

  lemma StillEvery(list: seq<Entry>, part: seq<Entry>, ok: Line -> bool)
    requires Every(list, ok) && forall e :: e in part ==> e in list
    ensures Every(part, ok)
  {
  }

  lemma NothingEvery(ok: Line -> bool)
    ensures Every([], ok)
  {
  }

  lemma NoneStay(g: Guesses)
    ensures StaysAll([], g) == []
  {
  }

  lemma NothingInside(hunks: seq<Hunk>)
    ensures AllInside(hunks, []) && Parts([], [])
  {
  }

  lemma NothingFine(w: World, o: Origin)
    ensures w.Fine([], o) && InOrder([])
  {
  }

  lemma FineHasLines(w: World, list: seq<Entry>, o: Origin)
    requires w.Fine(list, o) && list != []
    ensures 0 < |Numbers(list)|
  {
    HasLines(list, o, w.file(o), w.image);
  }

  lemma FinalImage(w: World)
    requires w.Valid()
    ensures w.file(w.final) == w.image
  {
  }

  lemma StartTraced(w: World, ranges: seq<Entry>)
    requires w.Valid() && AllOf(ranges, w.final, w.image, w.image)
    requires forall e :: e in ranges ==> e.sLno == e.lno && !e.ignored && !e.unblamable
    ensures w.Fine(ranges, w.final)
  {
    hide World.Traced;
    hide World.Valid;
    FinalImage(w);
    forall e, i | e in ranges && 0 <= i < e.num ensures w.Traced(w.final)(NthLine(e, i)) {
      var k :| 0 <= k < |ranges| && ranges[k] == e;
      assert Good(ranges[k], w.image, w.image);
      ReachStart(w, e.lno + i);
    }
  }

  lemma InOrderProper(list: seq<Entry>, o: Origin, file: seq<string>, image: seq<string>)
    requires AllOf(list, o, file, image) && InOrder(list) && |file| < INT_MAX
    ensures Proper(list, o, file, image, 0, INT_MAX)
  {
    forall i | 0 <= i < |list| ensures 0 <= list[i].sLno <= INT_MAX {
      assert Good(list[i], file, image);
    }
  }

  lemma ProperInOrder(list: seq<Entry>, o: Origin, file: seq<string>, image: seq<string>)
    requires Proper(list, o, file, image, 0, INT_MAX)
    ensures AllOf(list, o, file, image) && InOrder(list)
  {
    hide Good;
  }

  lemma MergedEvery(a: seq<Entry>, b: seq<Entry>, merged: seq<Entry>, ok: Line -> bool)
    requires Every(a, ok) && Every(b, ok) && Sum(merged, Itself()) == Sum(a, Itself()) + Sum(b, Itself())
    ensures Every(merged, ok)
  {
    hide Sum;
    forall e, i | e in merged && 0 <= i < e.num ensures ok(NthLine(e, i)) {
      LineInSum(merged, e, i);
      if NthLine(e, i) in Sum(a, Itself()) {
        var d, j := LineFromSum(a, Itself(), NthLine(e, i));
      } else {
        var d, j := LineFromSum(b, Itself(), NthLine(e, i));
      }
    }
  }

  // ---------- Looking for lines elsewhere ----------

  /** Entries of an origin whose lines are its own */
  ghost predicate Own(w: World, o: Origin, list: seq<Entry>) {
    w.Fine(list, o) && Every(list, w.Owned(o))
  }

  ghost predicate AllParts(list: seq<Entry>, src: seq<Entry>) {
    forall e :: e in list ==> PartOfSome(e, src)
  }

  ghost predicate AllTiny(w: World, list: seq<Entry>, min: nat) {
    forall e :: e in list ==> w.Tiny(e, min)
  }

  ghost predicate AllMovesSought(w: World, found: seq<Option<Origin>>, n: int, list: seq<Entry>)
    requires n <= |found|
  {
    forall e :: e in list ==> w.MovesSought(found, n, e)
  }

  ghost predicate AllCopiesSought(w: World, o: Origin, found: seq<Option<Origin>>, n: int, list: seq<Entry>)
    requires n <= |found| == |w.scapegoats(o.commit)|
  {
    forall e :: e in list ==> e.suspect == o && w.CopiesSought(found, n, e)
  }

  ghost predicate AllSought(w: World, list: seq<Entry>) {
    forall e :: e in list ==> w.Sought(e)
  }

  /** Entries found in one of several files */
  ghost predicate Copied(w: World, candidates: seq<Origin>, list: seq<Entry>) {
    forall e :: e in list ==> e.suspect in candidates && w.Fine([e], e.suspect)
  }

  /** The entries of an origin are those a place knows. */
  lemma AllKnown(w: World, o: Origin, p: Origin, list: seq<Entry>, src: seq<Entry>)
    ensures w.Between(o, p, src).AllMine(list) <==> Own(w, o, list) && AllParts(list, src)
  {
    hide Good;
    hide World.Traced;
    hide World.Owned;
    hide PartOfSome;
    var place := w.Between(o, p, src);
    EveryAnd(list, w.Traced(o), w.Owned(o));
    if place.AllMine(list) {
      forall e, i | e in list && 0 <= i < e.num ensures And(w.Traced(o), w.Owned(o))(NthLine(e, i)) {
        assert place.Mine(e);
      }
    } else if Own(w, o, list) && AllParts(list, src) {
      forall k | 0 <= k < |list| ensures place.Mine(list[k]) {
        assert list[k] in list;
      }
    }
  }

  lemma PartsThemselves(list: seq<Entry>)
    ensures AllParts(list, list)
  {
    forall e | e in list ensures PartOfSome(e, list) {
      assert IsPartOf(e, e);
    }
  }

  lemma PartsOfBoth(a: seq<Entry>, b: seq<Entry>)
    ensures AllParts(a, a + b) && AllParts(b, a + b)
  {
    forall e | e in a || e in b ensures PartOfSome(e, a + b) {
      assert e in a + b && IsPartOf(e, e);
    }
  }

  lemma PartsOfParts(a: seq<Entry>, b: seq<Entry>, c: seq<Entry>)
    requires AllParts(a, b) && AllParts(b, c)
    ensures AllParts(a, c)
  {
    hide IsPartOf;
    forall e | e in a ensures PartOfSome(e, c) {
      var f :| f in b && IsPartOf(e, f);
      assert PartOfSome(f, c);
      var g :| g in c && IsPartOf(f, g);
      PartOfPart(e, f, g);
    }
  }

  lemma PartOfPart(e: Entry, f: Entry, g: Entry)
    requires IsPartOf(e, f) && IsPartOf(f, g)
    ensures IsPartOf(e, g)
  {
  }

  lemma PartsTogether(a: seq<Entry>, b: seq<Entry>, c: seq<Entry>)
    requires AllParts(a, c) && AllParts(b, c)
    ensures AllParts(a + b, c)
  {
    hide PartOfSome;
  }

  lemma NoneOwn(w: World, o: Origin, min: nat)
    ensures Own(w, o, []) && AllTiny(w, [], min)
  {
  }

  lemma OwnAll(w: World, o: Origin, a: seq<Entry>, b: seq<Entry>)
    requires Own(w, o, a) && Own(w, o, b)
    ensures Own(w, o, a + b)
  {
    hide Good;
    hide World.Traced;
    hide World.Owned;
  }

  lemma OwnTogether(w: World, o: Origin, a: seq<Entry>, b: seq<Entry>, min: nat)
    requires Own(w, o, a) && Own(w, o, b) && AllTiny(w, a, min) && AllTiny(w, b, min)
    ensures Own(w, o, a + b) && AllTiny(w, a + b, min)
  {
    OwnAll(w, o, a, b);
    hide Own;
    hide World.Tiny;
  }

  /** Entries that show the lines they should are parts of themselves. */
  lemma PartOfItself(w: World, o: Origin, list: seq<Entry>, e: Entry)
    requires w.Fine(list, o) && e in list
    ensures w.PartOf(e, e) && e.suspect == o
  {
    hide World.Traced;
  }

  /** filter_small */
  method SetSmallAside(w: World, o: Origin, list: seq<Entry>, min: nat) returns (small: seq<Entry>, rest: seq<Entry>)
    requires Own(w, o, list)
    ensures Own(w, o, small) && Own(w, o, rest) && AllTiny(w, small, min)
    ensures AllParts(small, list) && AllParts(rest, list)
    ensures Numbers(small) + Numbers(rest) == Numbers(list)
  {
    hide Sum;
    hide World.Fine;
    hide Every;
    hide AllParts;
    hide World.PartOf;
    hide Place.AllMine;
    PartsThemselves(list);
    AllKnown(w, o, o, list, list);
    small, rest := FilterSmall(w.Between(o, o, list), list, w.score, min);
    AllKnown(w, o, o, small, list);
    AllKnown(w, o, o, rest, list);
    forall e | e in small ensures w.Tiny(e, min) {
      PartOfItself(w, o, small, e);
    }
  }

  /** find_move_in_parent */
  method MovesIn(w: World, o: Origin, p: Origin, list: seq<Entry>)
    returns (more: seq<Entry>, rest: seq<Entry>, less: seq<Entry>)
    requires w.Valid() && w.moves && w.IsCounterpart(o, p) && Own(w, o, list)
    ensures w.Fine(more, p) && Own(w, o, rest) && Own(w, o, less) && AllTiny(w, less, w.moveScore)
    ensures AllParts(rest, list) && forall e :: e in rest ==> w.NotMoved(p, e)
    ensures Numbers(more) + Numbers(rest) + Numbers(less) == Numbers(list)
  {
    hide Sum;
    hide IsDiff;
    hide World.Fine;
    hide World.IsCounterpart;
    hide Every;
    hide AllParts;
    hide NothingMoved;
    hide World.PartOf;
    hide Place.AllMine;
    hide Place.Mine;
    hide Place.AllTheirs;
    PartsThemselves(list);
    AllKnown(w, o, p, list, list);
    PartsCompared(w, o, p, list);
    more, rest, less := FindMoveInParent(w.Between(o, p, list), list, w.part(p), w.score, w.moveScore);
    MovedTraced(w, p, o, more, list);
    AllKnown(w, o, p, rest, list);
    AllKnown(w, o, p, less, list);
    forall e | e in less ensures w.Tiny(e, w.moveScore) {
      PartOfItself(w, o, less, e);
    }
    forall e | e in rest ensures w.NotMoved(p, e) {
      PartOfItself(w, o, rest, e);
      SameMoves(w, o, p, list, e);
    }
  }

  lemma SameMoves(w: World, o: Origin, p: Origin, src: seq<Entry>, e: Entry)
    requires NothingMoved(w.Between(o, p, src), e, w.part(p)(e), w.score, w.moveScore)
    ensures NothingMoved(w.Between(o, p, []), e, w.part(p)(e), w.score, w.moveScore)
  {
    hide HasStretch;
  }

  lemma PartsCompared(w: World, o: Origin, q: Origin, src: seq<Entry>)
    requires w.Valid()
    ensures var p := w.Between(o, q, src); forall e :: p.Mine(e) ==> IsDiff(w.part(q)(e), p.parentFile, TextOf(p, e))
  {
    hide IsDiff;
    hide World.Traced;
  }

  /** find_copy_in_parent */
  method CopiesIn(w: World, o: Origin, i: nat, q: Option<Origin>, list: seq<Entry>)
    returns (more: seq<Entry>, rest: seq<Entry>, less: seq<Entry>)
    requires w.Valid() && w.copies && i < |w.scapegoats(o.commit)| && Own(w, o, list)
    ensures Copied(w, w.others(o, w.scapegoats(o.commit)[i], q), more)
    ensures Own(w, o, rest) && Own(w, o, less) && AllTiny(w, less, w.copyScore)
    ensures AllParts(rest, list) && AllParts(less, list)
    ensures forall e :: e in rest ==> w.NotCopied(w.scapegoats(o.commit)[i], q, e)
    ensures Numbers(more) + Numbers(rest) + Numbers(less) == Numbers(list)
  {
    hide Sum;
    hide Compared;
    hide World.Fine;
    hide Every;
    hide AllParts;
    hide NothingCopied;
    hide World.PartOf;
    hide Place.AllMine;
    hide Place.Mine;
    hide AllSomeTheirs;
    hide Copied;
    var c := w.scapegoats(o.commit)[i];
    var candidates := w.others(o, c, q);
    var here, places := w.Between(o, o, list), w.Among(o, candidates, list);
    PartsThemselves(list);
    AllKnown(w, o, o, list, list);
    AllCompared(w, o, candidates, list);
    more, rest, less := FindCopyInParent(here, places, w.part, list, w.score, w.copyScore);
    CopiedTraced(w, o, i, q, more, list);
    AllKnown(w, o, o, rest, list);
    AllKnown(w, o, o, less, list);
    forall e | e in less ensures w.Tiny(e, w.copyScore) {
      PartOfItself(w, o, less, e);
    }
    forall e | e in rest ensures w.NotCopied(c, q, e) {
      PartOfItself(w, o, rest, e);
      SameCopies(w, o, candidates, list, e);
    }
  }

  lemma AllCompared(w: World, o: Origin, candidates: seq<Origin>, src: seq<Entry>)
    requires w.Valid()
    ensures Compared(w.Between(o, o, src), w.Among(o, candidates, src), w.part)
  {
    hide IsDiff;
    hide World.Traced;
    hide World.Owned;
  }

  lemma SameCopies(w: World, o: Origin, candidates: seq<Origin>, src: seq<Entry>, e: Entry)
    requires NothingCopied(w.Among(o, candidates, src), w.part, e, w.score, w.copyScore)
    ensures NothingCopied(w.Among(o, candidates, []), w.part, e, w.score, w.copyScore)
  {
    hide HasStretch;
    var all, none := w.Among(o, candidates, src), w.Among(o, candidates, []);
    forall i | 0 <= i < |none| ensures NothingMoved(none[i], e, w.part(none[i].parent)(e), w.score, w.copyScore) {
      assert NothingMoved(all[i], e, w.part(all[i].parent)(e), w.score, w.copyScore);
    }
  }

  lemma CopiedTraced(w: World, o: Origin, i: nat, q: Option<Origin>, more: seq<Entry>, src: seq<Entry>)
    requires w.copies && i < |w.scapegoats(o.commit)|
    requires AllSomeTheirs(w.Among(o, w.others(o, w.scapegoats(o.commit)[i], q), src), more)
    ensures Copied(w, w.others(o, w.scapegoats(o.commit)[i], q), more)
  {
    hide World.Fine;
    hide Place.Theirs;
    var candidates := w.others(o, w.scapegoats(o.commit)[i], q);
    var places := w.Among(o, candidates, src);
    forall e | e in more ensures e.suspect in candidates && w.Fine([e], e.suspect) {
      assert SomeTheirs(places, e);
      var k :| 0 <= k < |places| && places[k].Theirs(e);
      OneCopied(w, o, candidates[k], e, src);
    }
  }

  lemma OneCopied(w: World, o: Origin, p: Origin, e: Entry, src: seq<Entry>)
    requires w.copies && w.IsOther(o, p) && w.Between(o, p, src).Theirs(e)
    ensures e.suspect == p && w.Fine([e], p)
  {
    hide World.Fine;
    hide Good;
    MovedTraced(w, p, o, [e], src);
  }

  /** What copies are looked for in, given what is too small to have been moved */
  method CopyCandidates(w: World, o: Origin, rest0: seq<Entry>, small0: seq<Entry>)
    returns (small: seq<Entry>, rest: seq<Entry>)
    requires Own(w, o, rest0) && Own(w, o, small0) && AllTiny(w, small0, w.moveScore)
    ensures Own(w, o, rest) && Own(w, o, small) && AllTiny(w, small, w.copyScore)
    ensures AllParts(rest, small0 + rest0) && AllParts(small, small0 + rest0)
    ensures Numbers(rest) + Numbers(small) == Numbers(rest0) + Numbers(small0)
  {
    hide Sum;
    hide Own;
    hide AllParts;
    hide AllTiny;
    small, rest := small0, rest0;
    PartsOfBoth(small0, rest0);
    if w.copyScore > w.moveScore {
      var less;
      less, rest := SetSmallAside(w, o, rest, w.copyScore);
      StillTiny(w, small0, w.moveScore, w.copyScore);
      OwnTogether(w, o, less, small0, w.copyScore);
      PartsOfParts(less, rest0, small0 + rest0);
      PartsOfParts(rest, rest0, small0 + rest0);
      PartsTogether(less, small0, small0 + rest0);
      SumConcat(less, small0, Number());
      Regroup2(Numbers(less), Numbers(rest), Numbers(rest0), Numbers(small0));
      small := less + small0;
    } else if w.copyScore < w.moveScore {
      OwnAll(w, o, small0, rest0);
      SumConcat(small0, rest0, Number());
      small, rest := SetSmallAside(w, o, small0 + rest0, w.copyScore);
      assert Numbers(rest) + Numbers(small) == Numbers(small) + Numbers(rest);
      assert Numbers(small0) + Numbers(rest0) == Numbers(rest0) + Numbers(small0);
    }
  }

  lemma StillTiny(w: World, list: seq<Entry>, a: nat, b: nat)
    requires AllTiny(w, list, a) && a <= b
    ensures AllTiny(w, list, b)
  {
    hide World.PartOf;
  }

  lemma Regroup2(less: multiset<int>, rest: multiset<int>, rest0: multiset<int>, small0: multiset<int>)
    requires less + rest == rest0
    ensures rest + (less + small0) == rest0 + small0
  {
  }

  lemma Regroup3(b: multiset<int>, r: multiset<int>, s: multiset<int>, r0: multiset<int>, s0: multiset<int>)
    requires r + s == r0 + s0
    ensures b + r + s == b + r0 + s0
  {
    assert b + r + s == b + (r + s);
    assert b + r0 + s0 == b + (r0 + s0);
  }

  /** A part of an entry that was looked for has been looked for. */
  lemma PartSought(w: World, e: Entry, f: Entry)
    requires IsPartOf(e, f)
    ensures forall min :: w.Tiny(f, min) ==> w.Tiny(e, min)
    ensures forall p :: w.NotMoved(p, f) ==> w.NotMoved(p, e)
    ensures forall c, q :: w.NotCopied(c, q, f) ==> w.NotCopied(c, q, e)
  {
    hide Good;
    hide NothingMoved;
    hide NothingCopied;
    hide World.Among;
    hide World.Between;
    forall g | w.PartOf(f, g) ensures w.PartOf(e, g) {
      PartOfPart(e, f, g);
    }
  }

  lemma PartsSought(w: World, found: seq<Option<Origin>>, n: nat, list: seq<Entry>, parts: seq<Entry>)
    requires n <= |found| && AllMovesSought(w, found, n, list) && AllParts(parts, list)
    ensures AllMovesSought(w, found, n, parts)
  {
    hide World.Tiny;
    hide World.NotMoved;
    hide World.NotCopied;
    hide IsPartOf;
    forall e | e in parts ensures w.MovesSought(found, n, e) {
      assert PartOfSome(e, list);
      var f :| f in list && IsPartOf(e, f);
      PartSought(w, e, f);
      assert w.MovesSought(found, n, f);
    }
  }

  lemma NoMovesYet(w: World, found: seq<Option<Origin>>, list: seq<Entry>)
    ensures AllMovesSought(w, found, 0, list)
  {
  }

  lemma MoreMovesSought(w: World, found: seq<Option<Origin>>, i: nat, list: seq<Entry>, rest: seq<Entry>)
    requires i < |found| && AllMovesSought(w, found, i, list) && AllParts(rest, list)
    requires found[i].Some? ==> forall e :: e in rest ==> w.NotMoved(found[i].value, e)
    ensures AllMovesSought(w, found, i + 1, rest)
  {
    PartsSought(w, found, i, list, rest);
    hide World.Tiny;
    hide World.NotMoved;
    hide AllParts;
  }

  lemma NoneSought(w: World, found: seq<Option<Origin>>)
    ensures AllMovesSought(w, found, |found|, [])
  {
  }

  lemma AllTinySought(w: World, found: seq<Option<Origin>>, list: seq<Entry>)
    requires AllTiny(w, list, w.moveScore)
    ensures AllMovesSought(w, found, |found|, list)
  {
    hide World.Tiny;
    hide World.NotMoved;
  }

  lemma MovesSoughtTogether(w: World, found: seq<Option<Origin>>, a: seq<Entry>, b: seq<Entry>)
    requires AllMovesSought(w, found, |found|, a) && AllMovesSought(w, found, |found|, b)
    ensures AllMovesSought(w, found, |found|, a + b)
  {
    hide World.MovesSought;
  }

  lemma NoCopiesYet(w: World, o: Origin, found: seq<Option<Origin>>, list: seq<Entry>)
    requires |found| == |w.scapegoats(o.commit)| && Own(w, o, list)
    ensures AllCopiesSought(w, o, found, 0, list)
  {
    hide Good;
    hide Every;
    hide World.Tiny;
  }

  lemma MoreCopiesSought(w: World, o: Origin, found: seq<Option<Origin>>, i: nat, list: seq<Entry>, rest: seq<Entry>)
    requires i < |found| == |w.scapegoats(o.commit)|
    requires AllCopiesSought(w, o, found, i, list) && AllParts(rest, list)
    requires forall e :: e in rest ==> w.NotCopied(w.scapegoats(o.commit)[i], found[i], e)
    ensures AllCopiesSought(w, o, found, i + 1, rest)
  {
    hide World.Tiny;
    hide World.NotMoved;
    hide World.NotCopied;
    hide IsPartOf;
    forall e | e in rest ensures e.suspect == o && w.CopiesSought(found, i + 1, e) {
      assert PartOfSome(e, list);
      var f :| f in list && IsPartOf(e, f);
      PartSought(w, e, f);
      SameSuspect(e, f);
      assert w.CopiesSought(found, i, f);
    }
  }

  lemma SameSuspect(e: Entry, f: Entry)
    requires IsPartOf(e, f)
    ensures e.suspect == f.suspect
  {
  }

  lemma NoneCopied(w: World, o: Origin, found: seq<Option<Origin>>)
    requires |found| == |w.scapegoats(o.commit)|
    ensures AllCopiesSought(w, o, found, |found|, [])
  {
  }

  lemma AllTinyCopies(w: World, o: Origin, found: seq<Option<Origin>>, list: seq<Entry>)
    requires |found| == |w.scapegoats(o.commit)| && Own(w, o, list) && AllTiny(w, list, w.copyScore)
    ensures AllCopiesSought(w, o, found, |found|, list)
  {
    hide Good;
    hide Every;
    hide World.Tiny;
    hide World.NotCopied;
  }

  lemma CopiesSoughtTogether(w: World, o: Origin, found: seq<Option<Origin>>, a: seq<Entry>, b: seq<Entry>)
    requires |found| == |w.scapegoats(o.commit)|
    requires AllCopiesSought(w, o, found, |found|, a) && AllCopiesSought(w, o, found, |found|, b)
    ensures AllCopiesSought(w, o, found, |found|, a + b)
  {
    hide World.CopiesSought;
  }

  lemma AllSoughtIs(w: World, o: Origin, found: seq<Option<Origin>>, list: seq<Entry>)
    requires w.Found(o) == Files(found) && Own(w, o, list)
    requires w.moves ==> AllMovesSought(w, found, |found|, list)
    requires w.copies ==> AllCopiesSought(w, o, found, |found|, list)
    ensures AllSought(w, list)
  {
    hide World.Found;
    hide World.MovesSought;
    hide World.CopiesSought;
    hide Good;
    hide Every;
  }

  lemma GroupFine(w: World, group: seq<Entry>, o: Origin)
    requires forall e :: e in group ==> e.suspect == o && w.Fine([e], o)
    ensures w.Fine(group, o)
  {
    hide Good;
    hide World.Traced;
    forall i | 0 <= i < |group| ensures Good(group[i], w.file(o), w.image) {
      assert group[i] in group;
      assert [group[i]][0] == group[i];
    }
    forall e, i | e in group && 0 <= i < e.num ensures w.Traced(o)(NthLine(e, i)) {
      assert e in [e];
    }
  }

  lemma FineTogether(w: World, list: seq<Entry>, o: Origin, ent: seq<Entry>)
    requires w.Fine(list, o) && EachFine(w, ent)
    ensures EachFine(w, list + ent)
  {
    hide Good;
    hide World.Traced;
  }

  lemma LineShows(w: World, e: Entry, i: int)
    requires w.Fine([e], e.suspect) && 0 <= i < e.num
    ensures w.Reached(At(e.suspect, NthLine(e, i)))
    ensures 0 <= e.lno + i < |w.image| && 0 <= e.sLno + i < |w.file(e.suspect)|
    ensures !e.ignored ==> w.file(e.suspect)[e.sLno + i] == w.image[e.lno + i]
  {
    hide World.Reached;
    hide World.Bound;
    assert [e][0] == e && e in [e];
    var file := w.file(e.suspect);
    assert w.Traced(e.suspect)(NthLine(e, i));
    if !e.ignored {
      assert file[e.sLno..e.sLno + e.num][i] == w.image[e.lno..e.lno + e.num][i];
    }
  }

  lemma FollowStays(w: World, a: At)
    requires w.Next(a) == a
    ensures w.Follow(a) == a
  {
    hide World.Next;
  }

  lemma SettledTogether(w: World, list: seq<Entry>, ent: seq<Entry>)
    requires EachSettled(w, list) && EachSettled(w, ent)
    ensures EachSettled(w, list + ent)
  {
    hide World.Settled;
  }

  lemma SettledAll(w: World, origin: Origin, list: seq<Entry>)
    requires w.Fine(list, origin)
    requires w.Outside(origin.commit) || (Every(list, w.Owned(origin)) && AllSought(w, list))
    ensures EachSettled(w, list)
  {
    hide World.Sought;
    hide World.Outside;
    hide World.Owned;
    hide World.Traced;
    hide Good;
  }

  /** What is marked along with a commit to stop at lies outside too. */
  lemma AllOutside(w: World, c: nat, known: bool, marked: set<nat>)
    requires w.Valid() && !w.reverse && marked <= w.ancestors(c)
    requires if known then w.Outside(c) else w.stop(c)
    ensures w.Outside(c) && forall m :: m in marked ==> w.Outside(m)
  {
    var d :| w.stop(d) && (c == d || c in w.ancestors(d));
  }

  lemma FilesAreShort(w: World, o: Origin)
    requires w.Valid()
    ensures |w.file(o)| < INT_MAX
  {
  }

  lemma Found(b: multiset<int>, r: multiset<int>, s: multiset<int>, more: multiset<int>, rest: multiset<int>,
              less: multiset<int>)
    requires more + rest + less == r
    ensures (b + more) + rest + (less + s) == b + r + s
  {
  }

  lemma Added(before: multiset<int>, after: multiset<int>, had: multiset<int>, more: multiset<int>)
    requires after + had == before + (had + more)
    ensures after == before + more
  {
    assert before + (had + more) == before + more + had;
    Cancel(after, before + more, had);
  }

  lemma Spread(before: multiset<int>, blamed: multiset<int>, group: multiset<int>, rest: multiset<int>,
               all: multiset<int>)
    requires before + blamed == all && group + rest == blamed
    ensures (before + group) + rest == all
  {
  }

  lemma CostSame(w: World, o: Origin, a: seq<Entry>, b: seq<Entry>)
    requires Numbers(a) == Numbers(b)
    ensures Cost(w, o, a) == Cost(w, o, b)
  {
    hide Numbers;
  }

  /** Two entries that blame_coalesce makes one. */
  predicate Adjoining(e: Entry, next: Entry) {
    && e.suspect == next.suspect && e.sLno + e.num == next.sLno && e.lno + e.num == next.lno
    && e.ignored == next.ignored && e.unblamable == next.unblamable
  }

  lemma SliceJoin(s: seq<string>, a: int, n: int, m: int)
    requires 0 <= a && 0 <= n && 0 <= m && a + n + m <= |s|
    ensures s[a..a + (n + m)] == s[a..a + n] + s[a + n..a + n + m]
  {
  }

  lemma JoinEntries(e: Entry, next: Entry, file: seq<string>, image: seq<string>)
    requires Adjoining(e, next) && Good(e, file, image) && Good(next, file, image)
    ensures Good(e.(num := e.num + next.num), file, image)
    ensures Lines(e.(num := e.num + next.num), Itself()) == Lines(e, Itself()) + Lines(next, Itself())
  {
    hide Lines;
    var both := e.(num := e.num + next.num);
    SplitKeepsLines(both, e.num, e.suspect, Itself());
    assert both.(num := e.num) == e;
    assert SplitBlameAt(both, e.num, e.suspect) == next;
    SliceJoin(file, e.sLno, e.num, next.num);
    SliceJoin(image, e.lno, e.num, next.num);
  }

  ghost predicate AllGood(w: World, list: seq<Entry>) {
    forall i :: 0 <= i < |list| ==> Good(list[i], w.file(list[i].suspect), w.image)
  }

  ghost predicate NoneAdjoin(list: seq<Entry>) {
    forall i :: 0 <= i < |list| - 1 ==> !Adjoining(list[i], list[i + 1])
  }

  /** blame_coalesce */
  method BlameCoalesce(w: World, list: seq<Entry>) returns (ent: seq<Entry>)
    requires AllGood(w, list)
    ensures AllGood(w, ent) && NoneAdjoin(ent)
    ensures Sum(ent, Itself()) == Sum(list, Itself())
  {
    hide Good;
    hide Sum;
    hide Lines;
    if list == [] {
      return [];
    }
    var done: seq<Entry> := [];
    var cur, rest := list[0], list[1..];
    assert done + [cur] + rest == list;
    while rest != []
      invariant AllGood(w, done) && AllGood(w, [cur]) && AllGood(w, rest)
      invariant Sum(done + [cur] + rest, Itself()) == Sum(list, Itself())
      invariant NoneAdjoin(done) && (done != [] ==> !Adjoining(done[|done| - 1], cur))
      decreases |rest|
    {
      var next := rest[0];
      assert [cur][0] == cur;
      assert done + [cur] + rest == done + [cur, next] + rest[1..];
      if Adjoining(cur, next) {
        JoinEntries(cur, next, w.file(cur.suspect), w.image);
        var both := cur.(num := cur.num + next.num);
        Coalesced(done, cur, next, rest[1..], both);
        cur := both;
      } else {
        assert done + [cur, next] + rest[1..] == done + [cur] + [next] + rest[1..];
        done := done + [cur];
        cur := next;
      }
      rest := rest[1..];
    }
    ent := done + [cur];
    assert done + [cur] + [] == ent;
  }

  lemma Coalesced(a: seq<Entry>, e: Entry, next: Entry, b: seq<Entry>, both: Entry)
    requires Lines(both, Itself()) == Lines(e, Itself()) + Lines(next, Itself())
    ensures Sum(a + [both] + b, Itself()) == Sum(a + [e, next] + b, Itself())
  {
    hide Sum;
    hide Lines;
    SumMiddle(a, [both], b, Itself());
    SumMiddle(a, [e, next], b, Itself());
    SumOne(both, Itself());
    SumOne(e, Itself());
    SumOne(next, Itself());
    SumConcat([e], [next], Itself());
    assert [e, next] == [e] + [next];
  }

  lemma {:induction false} AllGone(origins: seq<Origin>, m: Lists)
    requires forall o :: o in origins ==> o in m && m[o] == []
    ensures Pending(origins, m) == multiset{}
  {
    if origins != [] {
      AllGone(origins[1..], m);
    }
  }

  lemma FreeOfCost(w: World, o: Origin)
    ensures Cost(w, o, []) == 0
  {
  }

  lemma CostAtLeast(w: World, o: Origin, list: seq<Entry>)
    ensures |Numbers(list)| <= Cost(w, o, list)
  {
    hide Numbers;
  }

  lemma NoLines(hunks: seq<Hunk>, guess: Guesses)
    ensures Sum([], Itself()) == Sum([], Kept(hunks, guess)) == Sum([], Passed(hunks, guess)) == multiset{}
  {
  }

  /** The same entries with another suspect, whose file is the same. */
  lemma Redirected(w: World, list: seq<Entry>, given: seq<Entry>, o: Origin, p: Origin)
    requires |given| == |list| && forall j :: 0 <= j < |list| ==> given[j] == list[j].(suspect := p)
    requires w.Valid() && w.Fine(list, o) && InOrder(list) && w.IsCounterpart(o, p) && w.file(p) == w.file(o)
    requires w.Found(o) == Whole(p)
    ensures w.Fine(given, p) && InOrder(given)
    ensures Numbers(given) == Numbers(list) && Sum(given, Itself()) == Sum(list, Itself())
  {
    hide World.Traced;
    hide World.IsCounterpart;
    hide Sum;
    hide Good;
    SameLines(list, given, p, Number());
    SameLines(list, given, p, Itself());
    RedirectedTraced(w, list, given, o, p);
    forall j | 0 <= j < |given| ensures Good(given[j], w.file(p), w.image) {
      SameGood(list[j], p, w.file(o), w.image);
    }
  }

  lemma RedirectedTraced(w: World, list: seq<Entry>, given: seq<Entry>, o: Origin, p: Origin)
    requires |given| == |list| && forall j :: 0 <= j < |list| ==> given[j] == list[j].(suspect := p)
    requires w.Valid() && Every(list, w.Traced(o)) && w.IsCounterpart(o, p) && w.file(p) == w.file(o)
    requires w.Found(o) == Whole(p)
    ensures Every(given, w.Traced(p))
  {
    hide World.Traced;
    hide World.IsCounterpart;
    forall e, i | e in given && 0 <= i < e.num ensures w.Traced(p)(NthLine(e, i)) {
      var j :| 0 <= j < |given| && given[j] == e;
      assert list[j] in list && NthLine(e, i) == NthLine(list[j], i);
      WholeTraced(w, p, o, NthLine(e, i));
    }
  }

  lemma SameGood(e: Entry, p: Origin, file: seq<string>, image: seq<string>)
    requires Good(e, file, image)
    ensures Good(e.(suspect := p), file, image)
  {
  }

  lemma {:induction false} SameLines<T>(list: seq<Entry>, given: seq<Entry>, p: Origin, f: Line -> multiset<T>)
    requires |given| == |list| && forall j :: 0 <= j < |list| ==> given[j] == list[j].(suspect := p)
    ensures Sum(given, f) == Sum(list, f)
  {
    hide Lines;
    if list != [] {
      LinesAlike(given[0], f, list[0], f);
      SameLines(list[1..], given[1..], p, f);
    }
  }

  lemma CostFalls(w: World, from: Origin, parent: Origin, list: seq<Entry>)
    requires w.rank(parent.commit) < w.rank(from.commit)
    ensures Cost(w, parent, list) + |Numbers(list)| <= Cost(w, from, list)
  {
    hide Numbers;
    OneLess(|Numbers(list)|, w.rank(parent.commit), w.rank(from.commit));
  }

  lemma {:induction false} OneLess(n: nat, q: nat, r: nat)
    requires q < r
    ensures n * (q + 1) + n <= n * (r + 1)
    decreases r
  {
    if q + 1 < r {
      OneLess(n, q, r - 1);
      assert n * (r + 1) == n * r + n;
    } else {
      assert n * (r + 1) == n * (q + 1) + n;
    }
  }

  lemma Settle(p0: multiset<int>, p1: multiset<int>, src: multiset<int>, kept: multiset<int>, given: multiset<int>)
    requires p1 + src == p0 + kept && given + kept == src
    ensures p1 + given == p0
  {
    forall x ensures (p1 + given)[x] == p0[x] {
      assert (p1 + src)[x] == (p0 + kept)[x];
      assert (given + kept)[x] == src[x];
    }
  }
}
