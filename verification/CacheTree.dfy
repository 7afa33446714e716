/**
 The cache-tree of cache-tree.c: a tree of remembered tree-object names over the
 sorted index, invalidated along edited paths and brought up to date bottom-up.
 */
module CacheTree {

  // ---------- Names and their order ----------

  /** The byte order of index entries. */
  predicate Less(x: string, y: string) {
    if y == [] then false
    else if x == [] then true
    else if x[0] != y[0] then x[0] < y[0]
    else Less(x[1..], y[1..])
  }

  lemma {:induction false} LessTransitive(x: string, y: string, z: string)
    requires Less(x, y) && Less(y, z)
    ensures Less(x, z)
  {
    if x != [] && x[0] == y[0] == z[0] {
      LessTransitive(x[1..], y[1..], z[1..]);
    }
  }

  lemma {:induction false} LessIrreflexive(x: string)
    ensures !Less(x, x)
  {
    if x != [] {
      LessIrreflexive(x[1..]);
    }
  }

  lemma {:induction false} LessTotal(x: string, y: string)
    ensures Less(x, y) || x == y || Less(y, x)
  {
    if x != [] && y != [] && x[0] == y[0] {
      LessTotal(x[1..], y[1..]);
      assert x == [x[0]] + x[1..] && y == [y[0]] + y[1..];
    }
  }

  /** Names with a common prefix are contiguous. */
  lemma {:induction false} PrefixContiguous(p: string, x: string, y: string, z: string)
    requires p <= x && p <= z && (Less(x, y) || x == y) && (Less(y, z) || y == z)
    ensures p <= y
  {
    if p != [] && x != y && y != z {
      assert y != [] && x[0] == p[0] == z[0];
      assert y[0] == p[0];
      PrefixContiguous(p[1..], x[1..], y[1..], z[1..]);
      assert y == [y[0]] + y[1..] && p == [p[0]] + p[1..];
    }
  }

  /** A proper prefix comes first. */
  lemma {:induction false} PrefixLess(p: string, x: string)
    requires p < x
    ensures Less(p, x)
  {
    if p != [] {
      PrefixLess(p[1..], x[1..]);
    }
  }

  /** Where the first '/' is, or the length if there is none (strchrnul). */
  function Slash(s: string): (n: nat)
    ensures n <= |s| && (n < |s| ==> s[n] == '/')
    ensures forall i :: 0 <= i < n ==> s[i] != '/'
  {
    if s == [] || s[0] == '/' then 0 else 1 + Slash(s[1..])
  }

  // ---------- Objects and the index ----------

  const DIRECTORY := 0x4000
  const GITLINK := 0xE000

  /** Object names; a tree's name is its content, so names of different trees differ. */
  datatype Oid = Null | Blob(id: nat) | Tree(items: seq<Item>)
  datatype Item = Item(mode: nat, name: string, oid: Oid)

  datatype Entry = Entry(name: string, mode: nat, oid: Oid)

  predicate ValidName(name: string) {
    name != [] && name[|name| - 1] != '/'
  }

  ghost predicate ValidIndex(cache: seq<Entry>) {
    && (forall i :: 0 <= i < |cache| ==> ValidName(cache[i].name))
    && (forall i, j :: 0 <= i < j < |cache| ==> Less(cache[i].name, cache[j].name))
  }

  /** The entry lies strictly below the directory whose name, with its final '/', is base. */
  predicate IsUnder(base: string, e: Entry) {
    Below(base, e.name)
  }

  predicate Below(base: string, path: string) {
    |base| < |path| && base == path[..|base|]
  }

  /** How many leading entries lie below base. */
  function RunLength(es: seq<Entry>, base: string): (n: nat)
    ensures n <= |es|
    ensures forall i :: 0 <= i < n ==> IsUnder(base, es[i])
    ensures n < |es| ==> !IsUnder(base, es[n])
  {
    if es == [] || !IsUnder(base, es[0]) then 0 else 1 + RunLength(es[1..], base)
  }

  /** The entries below base, in index order. */
  function Under(cache: seq<Entry>, base: string): (r: seq<Entry>)
    ensures forall e :: e in r ==> e in cache && IsUnder(base, e)
  {
    if cache == [] then []
    else (if IsUnder(base, cache[0]) then [cache[0]] else []) + Under(cache[1..], base)
  }

  ghost predicate Level(es: seq<Entry>, base: string) {
    forall i :: 0 <= i < |es| ==> IsUnder(base, es[i]) && ValidName(es[i].name)
  }

  /** The first component below base of an entry's name. */
  function Component(base: string, e: Entry): string
    requires IsUnder(base, e)
  {
    e.name[|base|..][..Slash(e.name[|base|..])]
  }

  predicate InSubtree(base: string, e: Entry)
    requires IsUnder(base, e)
  {
    Slash(e.name[|base|..]) < |e.name| - |base|
  }

  function Child(base: string, name: string): string {
    base + name + "/"
  }

  lemma UnderChild(base: string, e: Entry)
    requires IsUnder(base, e) && InSubtree(base, e) && ValidName(e.name)
    ensures IsUnder(Child(base, Component(base, e)), e)
  {
    var n := Slash(e.name[|base|..]);
    assert e.name[..|base| + n + 1] == Child(base, Component(base, e));
  }

  /** Reference: the content of the tree object of a directory, from its index entries alone. */
  function Build(es: seq<Entry>, base: string): seq<Item>
    requires Level(es, base)
    decreases |es|, if es == [] then 0 else |es[0].name| - |base|
  {
    if es == [] then []
    else if !InSubtree(base, es[0]) then
      [Item(es[0].mode, es[0].name[|base|..], es[0].oid)] + Build(es[1..], base)
    else
      var name := Component(base, es[0]);
      UnderChild(base, es[0]);
      var n := RunLength(es, Child(base, name));
      [Item(DIRECTORY, name, Tree(Build(es[..n], Child(base, name))))] + Build(es[n..], base)
  }

  // ---------- Runs of entries ----------

  lemma {:induction false} UnderConcat(a: seq<Entry>, b: seq<Entry>, base: string)
    ensures Under(a + b, base) == Under(a, base) + Under(b, base)
  {
    if a == [] {
      assert a + b == b;
    } else {
      assert (a + b)[1..] == a[1..] + b;
      UnderConcat(a[1..], b, base);
    }
  }

  lemma {:induction false} UnderNone(es: seq<Entry>, base: string)
    requires forall i :: 0 <= i < |es| ==> !IsUnder(base, es[i])
    ensures Under(es, base) == []
  {
    if es != [] {
      UnderNone(es[1..], base);
    }
  }

  lemma {:induction false} UnderAll(es: seq<Entry>, base: string)
    requires forall i :: 0 <= i < |es| ==> IsUnder(base, es[i])
    ensures Under(es, base) == es
  {
    if es != [] {
      UnderAll(es[1..], base);
    }
  }

  lemma UnderMiddle(before: seq<Entry>, run: seq<Entry>, after: seq<Entry>, base: string)
    requires forall i :: 0 <= i < |before| ==> !IsUnder(base, before[i])
    requires forall i :: 0 <= i < |run| ==> IsUnder(base, run[i])
    requires forall i :: 0 <= i < |after| ==> !IsUnder(base, after[i])
    ensures Under(before + (run + after), base) == run
  {
    hide Under;
    hide IsUnder;
    UnderNone(before, base);
    UnderAll(run, base);
    UnderNone(after, base);
    UnderConcat(run, after, base);
    UnderConcat(before, run + after, base);
  }

  /** Between two entries below a directory everything is below it. */
  lemma BetweenIsUnder(cache: seq<Entry>, i: int, j: int, k: int, base: string)
    requires ValidIndex(cache) && 0 <= i <= j <= k < |cache|
    requires IsUnder(base, cache[i]) && IsUnder(base, cache[k])
    ensures IsUnder(base, cache[j])
  {
    var x, y, z := cache[i].name, cache[j].name, cache[k].name;
    PrefixContiguous(base, x, y, z);
    if |base| == |y| {
      assert i < j && y == base;
      PrefixLess(base, x);
      LessTransitive(y, x, y);
      LessIrreflexive(y);
      assert false;
    }
  }

  lemma SplitThree<T>(s: seq<T>, p: nat, q: nat)
    requires p <= q <= |s|
    ensures s == s[..p] + (s[p..q] + s[q..])
  {
  }

  /** In a sorted index the entries below a directory are one run. */
  lemma OneRun(cache: seq<Entry>, p: nat, n: nat, base: string)
    requires ValidIndex(cache) && p + n <= |cache| && (n == 0 ==> p == |cache|)
    requires forall j :: 0 <= j < p ==> !IsUnder(base, cache[j])
    requires forall j :: p <= j < p + n ==> IsUnder(base, cache[j])
    requires p + n < |cache| ==> !IsUnder(base, cache[p + n])
    ensures Under(cache, base) == cache[p..p + n]
    ensures forall j :: p + n <= j < |cache| ==> !IsUnder(base, cache[j])
  {
    hide IsUnder;
    hide Under;
    hide ValidName;
    hide Less;
    forall j | p + n <= j < |cache| ensures !IsUnder(base, cache[j]) {
      if IsUnder(base, cache[j]) {
        BetweenIsUnder(cache, p, p + n, j, base);
        assert false;
      }
    }
    UnderMiddle(cache[..p], cache[p..p + n], cache[p + n..], base);
    SplitThree(cache, p, p + n);
  }

  /** The run of entries at p, in indices of the whole index. */
  lemma RunIsUnder(cache: seq<Entry>, p: nat, base: string)
    requires ValidIndex(cache) && p <= |cache|
    requires forall j :: 0 <= j < p ==> !IsUnder(base, cache[j])
    requires p < |cache| ==> IsUnder(base, cache[p])
    ensures var n := RunLength(cache[p..], base);
            && Under(cache, base) == cache[p..p + n]
            && forall j :: p + n <= j < |cache| ==> !IsUnder(base, cache[j])
  {
    hide IsUnder;
    hide Under;
    hide ValidIndex;
    var n := RunLength(cache[p..], base);
    assert p + n < |cache| ==> cache[p..][n] == cache[p + n];
    assert p < |cache| ==> cache[p..][0] == cache[p];
    forall j | p <= j < p + n ensures IsUnder(base, cache[j]) {
      assert IsUnder(base, cache[p..][j - p]);
    }
    OneRun(cache, p, n, base);
  }

  // ---------- The tree ----------

  datatype Node = Node(entryCount: int, oid: Oid, down: seq<Sub>)
  datatype Sub = Sub(name: string, tree: Node, count: int, used: bool)

  /** subtree_name_cmp: shorter names first */
  predicate NameLess(x: string, y: string) {
    |x| < |y| || (|x| == |y| && Less(x, y))
  }

  ghost predicate SortedSubs(down: seq<Sub>) {
    forall i, j :: 0 <= i < j < |down| ==> NameLess(down[i].name, down[j].name)
  }

  /** Names in order, and no node that records an empty directory. */
  ghost predicate WellFormed(node: Node) {
    && SortedSubs(node.down)
    && forall i :: 0 <= i < |node.down| ==> node.down[i].tree.entryCount != 0 && WellFormed(node.down[i].tree)
  }

  predicate NoSlash(name: string) {
    forall i :: 0 <= i < |name| ==> name[i] != '/'
  }

  function Find(down: seq<Sub>, name: string): (i: int)
    ensures i == -1 ==> forall j :: 0 <= j < |down| ==> down[j].name != name
    ensures i != -1 ==> 0 <= i < |down| && down[i].name == name
  {
    if down == [] then -1
    else if down[|down| - 1].name == name then |down| - 1
    else Find(down[..|down| - 1], name)
  }

  lemma SubsDistinct(down: seq<Sub>, i: int, j: int)
    requires SortedSubs(down) && 0 <= i < |down| && 0 <= j < |down| && down[i].name == down[j].name
    ensures i == j
  {
    LessIrreflexive(down[i].name);
  }

  /** cache_tree_subtree_pos */
  method SubtreePos(down: seq<Sub>, name: string) returns (pos: int)
    requires SortedSubs(down)
    ensures 0 <= pos ==> pos == Find(down, name)
    ensures pos < 0 ==>
              && Find(down, name) == -1 && -pos - 1 <= |down|
              && (forall i :: 0 <= i < -pos - 1 ==> NameLess(down[i].name, name))
              && (forall i :: -pos - 1 <= i < |down| ==> NameLess(name, down[i].name))
  {
    var lo, hi := 0, |down|;
    while lo < hi
      invariant 0 <= lo <= hi <= |down|
      invariant forall i :: 0 <= i < lo ==> NameLess(down[i].name, name)
      invariant forall i :: hi <= i < |down| ==> NameLess(name, down[i].name)
    {
      var mi := lo + (hi - lo) / 2;
      var mdl := down[mi].name;
      LessTotal(name, mdl);
      if name == mdl {
        SubsDistinct(down, mi, Find(down, name));
        return mi;
      }
      if NameLess(name, mdl) {
        forall i | mi <= i < |down| ensures NameLess(name, down[i].name) {
          NameLessTransitive(name, mdl, down[i].name);
        }
        hi := mi;
      } else {
        forall i | 0 <= i <= mi ensures NameLess(down[i].name, name) {
          NameLessTransitive(down[i].name, mdl, name);
        }
        lo := mi + 1;
      }
    }
    LessIrreflexive(name);
    return -lo - 1;
  }

  lemma NameLessTransitive(x: string, y: string, z: string)
    requires (x == y || NameLess(x, y)) && (y == z || NameLess(y, z)) && !(x == y == z)
    ensures NameLess(x, z)
  {
    if x != y && y != z && |x| == |y| == |z| {
      LessTransitive(x, y, z);
    }
  }

  /** What invalidating a path leaves: every node on the path forgets its count, and a subtree of that name goes. */
  function Invalidate(node: Node, path: string): Node
    decreases |path|
  {
    var n := Slash(path);
    var i := Find(node.down, path[..n]);
    if n == |path| then
      node.(entryCount := -1, down := if i == -1 then node.down else node.down[..i] + node.down[i + 1..])
    else if i == -1 then
      node.(entryCount := -1)
    else
      var sub := node.down[i];
      node.(entryCount := -1, down := node.down[i := sub.(tree := Invalidate(sub.tree, path[n + 1..]))])
  }

  /** do_invalidate_path */
  method DoInvalidatePath(it: Node, path: string) returns (after: Node)
    requires WellFormed(it)
    ensures after == Invalidate(it, path)
    decreases |path|
  {
    hide Find;
    hide Slash;
    hide Less;
    var n := Slash(path);
    after := it.(entryCount := -1);
    if n == |path| {
      var pos := SubtreePos(it.down, path);
      assert path[..n] == path;
      if 0 <= pos {
        after := after.(down := it.down[..pos] + it.down[pos + 1..]);
      }
      return;
    }
    var pos := SubtreePos(it.down, path[..n]);
    if 0 <= pos {
      var sub := it.down[pos];
      var tree := DoInvalidatePath(sub.tree, path[n + 1..]);
      after := after.(down := it.down[pos := sub.(tree := tree)]);
    }
  }

  // ---------- Agreement with the index ----------

  ghost function EntriesUnder(cache: seq<Entry>, base: string): (es: seq<Entry>)
    requires ValidIndex(cache)
    ensures Level(es, base)
  {
    Under(cache, base)
  }

  predicate HasValidChild(down: seq<Sub>, name: string) {
    exists sub :: sub in down && sub.name == name && 0 <= sub.tree.entryCount
  }

  /** The node holds what a rebuild from the index gives, and its subdirectories' nodes are valid. */
  ghost predicate Agrees(node: Node, cache: seq<Entry>, base: string)
    requires ValidIndex(cache)
  {
    var es := EntriesUnder(cache, base);
    && node.entryCount == |es|
    && node.oid == Tree(Build(es, base))
    && forall i :: 0 <= i < |es| && InSubtree(base, es[i]) ==> HasValidChild(node.down, Component(base, es[i]))
  }

  /** Every node of the tree that is marked valid agrees with the index. */
  ghost predicate Coherent(node: Node, cache: seq<Entry>, base: string)
    requires ValidIndex(cache)
    decreases node
  {
    && SortedSubs(node.down)
    && (forall i :: 0 <= i < |node.down| ==>
          && NoSlash(node.down[i].name) && node.down[i].tree.entryCount != 0
          && Coherent(node.down[i].tree, cache, Child(base, node.down[i].name)))
    && (0 <= node.entryCount ==> Agrees(node, cache, base))
  }

  lemma {:induction false} CoherentIsWellFormed(node: Node, cache: seq<Entry>, base: string)
    requires ValidIndex(cache) && Coherent(node, cache, base)
    ensures WellFormed(node)
    decreases node
  {
    forall i | 0 <= i < |node.down| ensures WellFormed(node.down[i].tree) {
      CoherentIsWellFormed(node.down[i].tree, cache, Child(base, node.down[i].name));
    }
  }

  // ---------- Edits ----------

  /** An edit of one path: the entries of that name, none or one, are replaced. */
  datatype Edit = Edit(before: seq<Entry>, was: seq<Entry>, becomes: seq<Entry>, after: seq<Entry>, path: string) {
    function Old(): seq<Entry> { before + (was + after) }
    function New(): seq<Entry> { before + (becomes + after) }

    ghost predicate Valid() {
      && ValidIndex(Old()) && ValidIndex(New())
      && (forall i :: 0 <= i < |was| ==> was[i].name == path)
      && (forall i :: 0 <= i < |becomes| ==> becomes[i].name == path)
    }
  }

  lemma EditKeepsOthers(ed: Edit, base: string)
    requires ed.Valid() && !Below(base, ed.path)
    ensures Under(ed.Old(), base) == Under(ed.New(), base)
  {
    hide Under;
    UnderNone(ed.was, base);
    UnderNone(ed.becomes, base);
    UnderConcat(ed.was, ed.after, base);
    UnderConcat(ed.becomes, ed.after, base);
    UnderConcat(ed.before, ed.was + ed.after, base);
    UnderConcat(ed.before, ed.becomes + ed.after, base);
  }

  /** Nodes of directories the edited path does not lie below are not affected. */
  lemma {:induction false} CoherentElsewhere(node: Node, ed: Edit, base: string)
    requires ed.Valid() && Coherent(node, ed.Old(), base)
    requires !Below(base, ed.path)
    ensures Coherent(node, ed.New(), base)
    decreases node
  {
    EditKeepsOthers(ed, base);
    forall i | 0 <= i < |node.down| ensures Coherent(node.down[i].tree, ed.New(), Child(base, node.down[i].name)) {
      var child := Child(base, node.down[i].name);
      assert child[..|base|] == base;
      CoherentElsewhere(node.down[i].tree, ed, child);
    }
  }

  lemma OtherChild(base: string, path: string, name: string)
    requires NoSlash(name) && name != path[..Slash(path)]
    ensures !Below(Child(base, name), base + path)
  {
    if Below(Child(base, name), base + path) {
      BelowChild(base, path, name);
      assert false;
    }
  }

  lemma BelowChild(base: string, path: string, name: string)
    requires NoSlash(name) && Below(Child(base, name), base + path)
    ensures name == path[..Slash(path)] && |name| < |path|
  {
    hide Slash;
    var child, full, n := Child(base, name), base + path, |name|;
    forall i | 0 <= i < n ensures path[i] == name[i] {
      assert full[|base| + i] == child[|base| + i];
    }
    assert path[n] == '/' by {
      assert full[|base| + n] == child[|base| + n];
    }
    assert Slash(path) == n;
  }

  /** An edit followed by the invalidation of its path leaves every valid node in agreement with the new index. */
  lemma {:induction false} EditThenInvalidate(node: Node, ed: Edit, base: string, path: string)
    requires ed.Valid() && Coherent(node, ed.Old(), base) && ed.path == base + path
    ensures Coherent(Invalidate(node, path), ed.New(), base)
    decreases |path|
  {
    hide Find;
    hide Slash;
    hide Agrees;
    var n := Slash(path);
    var i := Find(node.down, path[..n]);
    var after := Invalidate(node, path);
    forall j | 0 <= j < |node.down| && j != i
      ensures Coherent(node.down[j].tree, ed.New(), Child(base, node.down[j].name))
    {
      if node.down[j].name == path[..n] {
        SubsDistinct(node.down, i, j);
        assert false;
      }
      OtherChild(base, path, node.down[j].name);
      CoherentElsewhere(node.down[j].tree, ed, Child(base, node.down[j].name));
    }
    if n < |path| && i != -1 {
      var child := Child(base, path[..n]);
      assert path == path[..n] + "/" + path[n + 1..];
      assert child + path[n + 1..] == base + path;
      EditThenInvalidate(node.down[i].tree, ed, child, path[n + 1..]);
    }
  }

  // ---------- Groups of entries of one subdirectory ----------

  /** No subdirectory of base has entries on both sides of i. */
  ghost predicate Boundary(cache: seq<Entry>, start: nat, i: nat, base: string) {
    forall j, k ::
      start <= j < i <= k < |cache| && IsUnder(base, cache[j]) && IsUnder(base, cache[k]) &&
      InSubtree(base, cache[j]) && InSubtree(base, cache[k]) ==>
        Component(base, cache[j]) != Component(base, cache[k])
  }

  lemma UnderChildOnly(base: string, name: string, e: Entry)
    requires NoSlash(name) && IsUnder(Child(base, name), e)
    ensures IsUnder(base, e) && InSubtree(base, e) && Component(base, e) == name
  {
    hide Slash;
    var rest := e.name[|base|..];
    assert base == Child(base, name)[..|base|] == e.name[..|base|];
    assert e.name == base + rest;
    BelowChild(base, rest, name);
  }

  lemma ComponentNoSlash(base: string, e: Entry)
    requires IsUnder(base, e)
    ensures NoSlash(Component(base, e))
  {
  }

  /** base has its entries at [start, start + n), and nowhere else. */
  ghost predicate Extent(cache: seq<Entry>, start: nat, n: nat, base: string) {
    && start + n <= |cache|
    && forall j :: 0 <= j < |cache| ==> (IsUnder(base, cache[j]) <==> start <= j < start + n)
  }

  lemma ExtentOfRun(cache: seq<Entry>, start: nat, base: string)
    requires ValidIndex(cache) && start <= |cache|
    requires forall j :: 0 <= j < start ==> !IsUnder(base, cache[j])
    requires start < |cache| ==> IsUnder(base, cache[start])
    ensures var n := RunLength(cache[start..], base);
            && (start < |cache| ==> 0 < n)
            && Extent(cache, start, n, base)
            && EntriesUnder(cache, base) == cache[start..start + n]
  {
    hide Under;
    hide IsUnder;
    RunIsUnder(cache, start, base);
    var n := RunLength(cache[start..], base);
    assert start < |cache| ==> cache[start..][0] == cache[start];
    forall j | start <= j < start + n ensures IsUnder(base, cache[j]) {
      assert IsUnder(base, cache[start..][j - start]);
    }
  }

  /** The entries of the subdirectory that starts at i. */
  lemma GroupAt(cache: seq<Entry>, start: nat, n: nat, i: nat, base: string)
    requires ValidIndex(cache) && Extent(cache, start, n, base) && start <= i < start + n
    requires Boundary(cache, start, i, base) && InSubtree(base, cache[i])
    ensures var child := Child(base, Component(base, cache[i]));
            var m := RunLength(cache[i..], child);
            && 0 < m && i + m <= start + n
            && Extent(cache, i, m, child)
            && EntriesUnder(cache, child) == cache[i..i + m]
  {
    hide Slash;
    hide Less;
    hide Under;
    var name := Component(base, cache[i]);
    var child := Child(base, name);
    ComponentNoSlash(base, cache[i]);
    UnderChild(base, cache[i]);
    forall j | 0 <= j < i ensures !IsUnder(child, cache[j]) {
      if IsUnder(child, cache[j]) {
        UnderChildOnly(base, name, cache[j]);
        assert false;
      }
    }
    ExtentOfRun(cache, i, child);
    var m := RunLength(cache[i..], child);
    UnderChildOnly(base, name, cache[i + m - 1]);
  }

  lemma BoundaryAfter(cache: seq<Entry>, start: nat, i: nat, m: nat, base: string, name: string)
    requires start <= i && Boundary(cache, start, i, base) && NoSlash(name)
    requires Extent(cache, i, m, Child(base, name))
    requires forall j :: 0 <= j < |cache| ==> ValidName(cache[j].name)
    ensures Boundary(cache, start, i + m, base)
  {
    hide Slash;
    hide InSubtree;
    hide Component;
    hide ValidName;
    var child := Child(base, name);
    forall j | i <= j < i + m
      ensures IsUnder(base, cache[j]) && InSubtree(base, cache[j]) && Component(base, cache[j]) == name
    {
      UnderChildOnly(base, name, cache[j]);
    }
    forall k | i + m <= k < |cache| && IsUnder(base, cache[k]) && InSubtree(base, cache[k])
      ensures Component(base, cache[k]) != name
    {
      UnderChild(base, cache[k]);
    }
  }

  /** A plain file never belongs to a subdirectory. */
  lemma BoundaryAfterFile(cache: seq<Entry>, start: nat, i: nat, base: string)
    requires start <= i < |cache| && Boundary(cache, start, i, base)
    requires IsUnder(base, cache[i]) && !InSubtree(base, cache[i])
    ensures Boundary(cache, start, i + 1, base)
  {
  }

  lemma {:induction false} RunLengthOfPart(es: seq<Entry>, k: nat, base: string)
    requires RunLength(es, base) <= k <= |es|
    ensures RunLength(es[..k], base) == RunLength(es, base)
  {
    if es != [] && k > 0 && IsUnder(base, es[0]) {
      assert es[..k][1..] == es[1..][..k - 1];
      RunLengthOfPart(es[1..], k - 1, base);
    }
  }

  lemma LevelOfExtent(cache: seq<Entry>, start: nat, n: nat, i: nat, base: string)
    requires ValidIndex(cache) && Extent(cache, start, n, base) && start <= i <= start + n
    ensures Level(cache[i..start + n], base)
  {
  }

  lemma BuildStep(es: seq<Entry>, base: string)
    requires Level(es, base) && es != [] && InSubtree(base, es[0])
    ensures var name := Component(base, es[0]);
            var n := RunLength(es, Child(base, name));
            && 0 < n && Level(es[..n], Child(base, name)) && Level(es[n..], base)
            && Build(es, base) ==
               [Item(DIRECTORY, name, Tree(Build(es[..n], Child(base, name))))] + Build(es[n..], base)
  {
    hide InSubtree;
    hide Component;
    hide Child;
    UnderChild(base, es[0]);
  }

  /** What a subdirectory's entries, starting at i, add to the tree object of base. */
  lemma BuildSubtree(cache: seq<Entry>, start: nat, n: nat, i: nat, base: string)
    requires ValidIndex(cache) && Extent(cache, start, n, base) && start <= i < start + n
    requires Boundary(cache, start, i, base) && InSubtree(base, cache[i])
    ensures var name := Component(base, cache[i]);
            var m := RunLength(cache[i..], Child(base, name));
            && 0 < m && i + m <= start + n
            && Level(cache[i..start + n], base) && Level(cache[i + m..start + n], base)
            && Build(cache[i..start + n], base) ==
               [Item(DIRECTORY, name, Tree(Build(EntriesUnder(cache, Child(base, name)), Child(base, name))))] +
               Build(cache[i + m..start + n], base)
  {
    hide Build;
    hide RunLength;
    hide Under;
    hide IsUnder;
    hide InSubtree;
    hide Component;
    hide ValidName;
    hide Child;
    hide Boundary;
    var es := cache[i..start + n];
    var child := Child(base, Component(base, cache[i]));
    var m := RunLength(cache[i..], child);
    GroupAt(cache, start, n, i, base);
    LevelOfExtent(cache, start, n, i, base);
    LevelOfExtent(cache, start, n, i + m, base);
    assert cache[i..][..start + n - i] == es;
    RunLengthOfPart(cache[i..], start + n - i, child);
    assert es[..m] == cache[i..i + m];
    assert es[m..] == cache[i + m..start + n];
    BuildStep(es, base);
  }

  lemma BuildFile(cache: seq<Entry>, start: nat, n: nat, i: nat, base: string)
    requires ValidIndex(cache) && Extent(cache, start, n, base) && start <= i < start + n
    requires !InSubtree(base, cache[i])
    ensures && Level(cache[i..start + n], base) && Level(cache[i + 1..start + n], base)
            && Build(cache[i..start + n], base) ==
               [Item(cache[i].mode, cache[i].name[|base|..], cache[i].oid)] + Build(cache[i + 1..start + n], base)
  {
    LevelOfExtent(cache, start, n, i, base);
    LevelOfExtent(cache, start, n, i + 1, base);
    assert cache[i..start + n][1..] == cache[i + 1..start + n];
  }

  // ---------- Lists of subtrees ----------

  function NewSub(name: string): Sub {
    Sub(name, Node(-1, Null, []), 0, false)
  }

  /** Names in order and every child coherent. */
  ghost predicate Children(down: seq<Sub>, cache: seq<Entry>, base: string)
    requires ValidIndex(cache)
  {
    && SortedSubs(down)
    && forall sub :: sub in down ==>
         NoSlash(sub.name) && sub.tree.entryCount != 0 && Coherent(sub.tree, cache, Child(base, sub.name))
  }

  /** Subtrees found in this pass are valid, counted and stored. */
  ghost predicate Ready(down: seq<Sub>, store: set<Oid>, dryRun: bool) {
    forall sub :: sub in down && sub.used ==> 0 <= sub.tree.entryCount == sub.count && (dryRun || sub.tree.oid in store)
  }

  ghost predicate HasUsed(down: seq<Sub>, name: string) {
    exists sub :: sub in down && sub.name == name && sub.used
  }

  /** after is down with sub in place of whatever had its name. */
  ghost predicate Placed(down: seq<Sub>, sub: Sub, after: seq<Sub>) {
    && SortedSubs(after)
    && sub in after
    && (forall s :: s in after ==> s == sub || (s in down && s.name != sub.name))
    && (forall s :: s in down && s.name != sub.name ==> s in after)
  }

  lemma FindIs(down: seq<Sub>, i: int)
    requires SortedSubs(down) && 0 <= i < |down|
    ensures Find(down, down[i].name) == i
  {
    SubsDistinct(down, i, Find(down, down[i].name));
  }

  /** find_subtree, asked to create what it does not find */
  method FindSubtree(down: seq<Sub>, name: string) returns (after: seq<Sub>, pos: nat)
    requires SortedSubs(down)
    ensures pos < |after| && after[pos].name == name
    ensures Placed(down, after[pos], after)
    ensures if Find(down, name) == -1 then after[pos] == NewSub(name) else after[pos] == down[Find(down, name)]
  {
    hide Find;
    var p := SubtreePos(down, name);
    LessIrreflexive(name);
    if 0 <= p {
      after, pos := down, p;
      forall s | s in down && s != down[p] ensures s.name != name {
        var k :| 0 <= k < |down| && down[k] == s;
        if s.name == name {
          SubsDistinct(down, k, p);
          assert false;
        }
      }
      return;
    }
    pos := -p - 1;
    after := down[..pos] + [NewSub(name)] + down[pos..];
    forall i, j | 0 <= i < j < |after| ensures NameLess(after[i].name, after[j].name) {
      assert after[i] == if i < pos then down[i] else if i == pos then NewSub(name) else down[i - 1];
      assert after[j] == if j < pos then down[j] else if j == pos then NewSub(name) else down[j - 1];
    }
    assert after[pos] == NewSub(name);
    forall s | s in down ensures s in after && s.name != name {
      var k :| 0 <= k < |down| && down[k] == s;
      assert after[if k < pos then k else k + 1] == s;
    }
  }

  lemma ReplaceInPlace(down: seq<Sub>, pos: nat, sub: Sub)
    requires SortedSubs(down) && pos < |down| && sub.name == down[pos].name
    ensures Placed(down, sub, down[pos := sub])
  {
    var after := down[pos := sub];
    assert after[pos] == sub;
    forall s | s in after && s != sub ensures s in down && s.name != sub.name {
      var k :| 0 <= k < |after| && after[k] == s;
      if s.name == sub.name {
        SubsDistinct(down, k, pos);
        assert false;
      }
    }
    forall s | s in down && s.name != sub.name ensures s in after {
      var k :| 0 <= k < |down| && down[k] == s;
      assert after[k] == s;
    }
  }

  /** discard_unused_subtrees */
  method DiscardUnused(down: seq<Sub>) returns (after: seq<Sub>)
    requires SortedSubs(down)
    ensures SortedSubs(after)
    ensures forall s :: s in after <==> s in down && s.used
  {
    after := [];
    var src := 0;
    while src < |down|
      invariant 0 <= src <= |down|
      invariant SortedSubs(after)
      invariant forall s :: s in after <==> s in down[..src] && s.used
      invariant forall i, j :: 0 <= i < |after| && src <= j < |down| ==> NameLess(after[i].name, down[j].name)
    {
      if down[src].used {
        after := after + [down[src]];
      }
      src := src + 1;
    }
    assert down[..|down|] == down;
  }

  method ClearUsed(down: seq<Sub>) returns (after: seq<Sub>)
    ensures |after| == |down|
    ensures forall i :: 0 <= i < |down| ==> after[i] == down[i].(used := false)
  {
    after := down;
    for i := 0 to |down|
      invariant |after| == |down|
      invariant forall j :: 0 <= j < i ==> after[j] == down[j].(used := false)
      invariant forall j :: i <= j < |down| ==> after[j] == down[j]
    {
      after := after[i := after[i].(used := false)];
    }
  }

  // ---------- Updating ----------

  datatype Flags = Flags(missingOk: bool, dryRun: bool)

  predicate Present(mode: nat, oid: Oid, store: set<Oid>, flags: Flags) {
    oid != Null && (mode == GITLINK || flags.missingOk || oid in store)
  }

  ghost predicate AllPresent(es: seq<Entry>, store: set<Oid>, flags: Flags) {
    forall i :: 0 <= i < |es| ==> Present(es[i].mode, es[i].oid, store, flags)
  }

  ghost predicate ItemsPresent(items: seq<Item>, store: set<Oid>, flags: Flags) {
    forall k :: 0 <= k < |items| ==> Present(items[k].mode, items[k].oid, store, flags)
  }

  /** Only trees have been added to the object store, none of them naming a missing object. */
  ghost predicate WritesWhole(odb: set<Oid>, store: set<Oid>, flags: Flags) {
    && odb <= store && (flags.dryRun ==> store == odb)
    && forall t :: t in store && t !in odb ==> t.Tree? && ItemsPresent(t.items, store, flags)
  }

  lemma WritesTwice(a: set<Oid>, b: set<Oid>, c: set<Oid>, flags: Flags)
    requires WritesWhole(a, b, flags) && WritesWhole(b, c, flags)
    ensures WritesWhole(a, c, flags)
  {
    forall t | t in c && t !in a ensures t.Tree? && ItemsPresent(t.items, c, flags) {
      if t in b {
        assert ItemsPresent(t.items, b, flags);
      }
    }
  }

  lemma WritesOne(odb: set<Oid>, store: set<Oid>, items: seq<Item>, flags: Flags)
    requires WritesWhole(odb, store, flags) && ItemsPresent(items, store, flags) && !flags.dryRun
    ensures WritesWhole(odb, store + {Tree(items)}, flags)
  {
    var more := store + {Tree(items)};
    forall t | t in more && t !in odb ensures t.Tree? && ItemsPresent(t.items, more, flags) {
      if t in store {
        assert ItemsPresent(t.items, store, flags);
      }
    }
  }

  /** Every tree in the store has what it names, submodules aside, in the store. */
  ghost predicate Connected(store: set<Oid>) {
    forall t :: t in store && t.Tree? ==> ItemsPresent(t.items, store, Flags(false, false))
  }

  /** Unless missing objects are allowed, writing trees keeps the store connected. */
  lemma StaysConnected(odb: set<Oid>, store: set<Oid>, flags: Flags)
    requires Connected(odb) && WritesWhole(odb, store, flags) && !flags.missingOk
    ensures Connected(store)
  {
    forall t | t in store && t.Tree? ensures ItemsPresent(t.items, store, Flags(false, false)) {
      if t in odb {
        assert ItemsPresent(t.items, odb, Flags(false, false));
      } else {
        assert ItemsPresent(t.items, store, flags);
      }
    }
  }

  /** Subtrees valid before are valid still. */
  ghost predicate KeepsValid(down: seq<Sub>, after: seq<Sub>) {
    forall sub :: sub in down && 0 <= sub.tree.entryCount ==> HasValidChild(after, sub.name)
  }

  lemma PlacedKeeps(down: seq<Sub>, sub: Sub, after: seq<Sub>, orig: seq<Sub>)
    requires Placed(down, sub, after) && KeepsValid(orig, down)
    requires HasValidChild(down, sub.name) ==> 0 <= sub.tree.entryCount
    ensures KeepsValid(orig, after)
  {
    forall s | s in orig && 0 <= s.tree.entryCount ensures HasValidChild(after, s.name) {
      var t :| t in down && t.name == s.name && 0 <= t.tree.entryCount;
      if t.name == sub.name {
        assert HasValidChild(down, sub.name);
        assert sub in after;
      } else {
        assert t in after;
      }
    }
  }

  lemma PlacedChildren(down: seq<Sub>, sub: Sub, after: seq<Sub>, cache: seq<Entry>, base: string)
    requires ValidIndex(cache) && Children(down, cache, base) && Placed(down, sub, after)
    requires NoSlash(sub.name) && sub.tree.entryCount != 0 && Coherent(sub.tree, cache, Child(base, sub.name))
    ensures Children(after, cache, base)
  {
  }

  lemma CoherentFromChildren(node: Node, cache: seq<Entry>, base: string)
    requires ValidIndex(cache) && Children(node.down, cache, base)
    requires 0 <= node.entryCount ==> Agrees(node, cache, base)
    ensures Coherent(node, cache, base)
  {
  }

  /** A failed update may have changed children, but a valid node still agrees. */
  lemma AgreesStill(node: Node, down: seq<Sub>, cache: seq<Entry>, base: string)
    requires ValidIndex(cache) && Agrees(node, cache, base) && KeepsValid(node.down, down)
    ensures Agrees(node.(down := down), cache, base)
  {
    var es := EntriesUnder(cache, base);
    forall i | 0 <= i < |es| && InSubtree(base, es[i]) ensures HasValidChild(down, Component(base, es[i])) {
      assert HasValidChild(node.down, Component(base, es[i]));
    }
  }

  ghost predicate KeepsUsed(down: seq<Sub>, after: seq<Sub>) {
    forall sub :: sub in down && sub.used ==> HasUsed(after, sub.name)
  }

  lemma KeepsUsedName(down: seq<Sub>, after: seq<Sub>, name: string)
    requires KeepsUsed(down, after) && HasUsed(down, name)
    ensures HasUsed(after, name)
  {
    var sub :| sub in down && sub.name == name && sub.used;
  }

  lemma KeepsValidTwice(a: seq<Sub>, b: seq<Sub>, c: seq<Sub>)
    requires KeepsValid(a, b) && KeepsValid(b, c)
    ensures KeepsValid(a, c)
  {
    forall s | s in a && 0 <= s.tree.entryCount ensures HasValidChild(c, s.name) {
      var t :| t in b && t.name == s.name && 0 <= t.tree.entryCount;
    }
  }

  lemma PresentPart(cache: seq<Entry>, start: nat, n: nat, i: nat, m: nat, store: set<Oid>, flags: Flags)
    requires start <= i && i + m <= start + n <= |cache|
    ensures AllPresent(cache[start..start + n], store, flags) ==> AllPresent(cache[i..i + m], store, flags)
  {
    hide Present;
    if AllPresent(cache[start..start + n], store, flags) {
      var es, part := cache[start..start + n], cache[i..i + m];
      forall k | 0 <= k < m ensures Present(part[k].mode, part[k].oid, store, flags) {
        assert es[i - start + k] == part[k];
      }
    }
  }

  /** What find_subtree finds or creates is coherent, and valid if a subtree of that name was. */
  lemma FoundIsCoherent(down: seq<Sub>, name: string, sub: Sub, cache: seq<Entry>, base: string)
    requires ValidIndex(cache) && Children(down, cache, base) && sub.name == name
    requires if Find(down, name) == -1 then sub == NewSub(name) else sub == down[Find(down, name)]
    ensures Coherent(sub.tree, cache, Child(base, name)) && sub.tree.entryCount != 0
    ensures HasValidChild(down, name) ==> 0 <= sub.tree.entryCount
    ensures forall s :: s in down && s.name == name ==> s == sub
  {
    forall s | s in down && s.name == name ensures s == sub {
      var k :| 0 <= k < |down| && down[k] == s;
      FindIs(down, k);
    }
  }

  lemma PlacedSorted(down: seq<Sub>, sub: Sub, after: seq<Sub>)
    requires Placed(down, sub, after)
    ensures SortedSubs(after)
  {
  }

  lemma PlacedTwice(a: seq<Sub>, x: Sub, b: seq<Sub>, y: Sub, c: seq<Sub>)
    requires Placed(a, x, b) && Placed(b, y, c) && x.name == y.name
    ensures Placed(a, y, c)
  {
    hide SortedSubs;
  }

  lemma PlacedReady(down: seq<Sub>, sub: Sub, after: seq<Sub>, odb: set<Oid>, store: set<Oid>, dryRun: bool)
    requires Placed(down, sub, after) && Ready(down, odb, dryRun) && odb <= store
    requires sub.used && 0 <= sub.tree.entryCount == sub.count && (dryRun || sub.tree.oid in store)
    ensures Ready(after, store, dryRun) && HasUsed(after, sub.name) && KeepsUsed(down, after)
  {
    hide SortedSubs;
    forall s | s in down && s.used ensures HasUsed(after, s.name) {
      assert s.name == sub.name || s in after;
    }
  }

  lemma CoherentCount(node: Node, cache: seq<Entry>, base: string)
    requires ValidIndex(cache) && Coherent(node, cache, base) && 0 <= node.entryCount
    ensures node.entryCount == |EntriesUnder(cache, base)|
    ensures node.oid == Tree(Build(EntriesUnder(cache, base), base))
  {
  }

  /** One turn of the first loop of update_one: the subdirectory whose entries start at i. */
  method UpdateSubtree(down: seq<Sub>, cache: seq<Entry>, i: nat, base: string, odb: set<Oid>, flags: Flags,
                       ghost start: nat, ghost n: nat)
    returns (count: int, after: seq<Sub>, store: set<Oid>)
    requires ValidIndex(cache) && start <= i < start + n && Extent(cache, start, n, base)
    requires Boundary(cache, start, i, base) && InSubtree(base, cache[i])
    requires Children(down, cache, base) && Ready(down, odb, flags.dryRun)
    ensures WritesWhole(odb, store, flags)
    ensures Children(after, cache, base) && KeepsValid(down, after)
    ensures AllPresent(cache[start..start + n], odb, flags) && (!flags.dryRun || flags.missingOk) ==> 0 <= count
    ensures 0 <= count ==>
              && count == RunLength(cache[i..], Child(base, Component(base, cache[i])))
              && Ready(after, store, flags.dryRun)
              && HasUsed(after, Component(base, cache[i])) && KeepsUsed(down, after)
    decreases |cache| - i, |cache[i].name| - |base|, 0
  {
    hide Less;
    hide Slash;
    hide Under;
    hide Build;
    hide RunLength;
    hide InSubtree;
    hide Component;
    hide Find;
    hide Placed;
    hide Coherent;
    hide SortedSubs;
    var name := Component(base, cache[i]);
    GroupAt(cache, start, n, i, base);
    ComponentNoSlash(base, cache[i]);
    var found, pos := FindSubtree(down, name);
    FoundIsCoherent(down, name, found[pos], cache, base);
    ghost var m := RunLength(cache[i..], Child(base, name));
    PresentPart(cache, start, n, i, m, odb, flags);
    var tree;
    count, tree, store := UpdateOne(found[pos].tree, cache, i, Child(base, name), odb, flags);
    var sub := if count < 0 then found[pos].(tree := tree) else Sub(name, tree, count, true);
    after := found[pos := sub];
    PlacedSorted(down, found[pos], found);
    ReplaceInPlace(found, pos, sub);
    PlacedTwice(down, found[pos], found, sub, after);
    PlacedChildren(down, sub, after, cache, base);
    PlacedKeeps(down, sub, after, down);
    if 0 <= count {
      PlacedReady(down, sub, after, odb, store, flags.dryRun);
      CoherentCount(tree, cache, Child(base, name));
    }
  }

  lemma ClearedChildren(down: seq<Sub>, after: seq<Sub>, cache: seq<Entry>, base: string, store: set<Oid>, dryRun: bool)
    requires ValidIndex(cache) && Children(down, cache, base)
    requires |after| == |down| && forall i :: 0 <= i < |down| ==> after[i] == down[i].(used := false)
    ensures Children(after, cache, base) && KeepsValid(down, after) && Ready(after, store, dryRun)
  {
    forall s | s in after
      ensures NoSlash(s.name) && Coherent(s.tree, cache, Child(base, s.name)) && !s.used && s.tree.entryCount != 0
    {
      var k :| 0 <= k < |after| && after[k] == s;
      assert down[k] in down;
    }
    forall s | s in down && 0 <= s.tree.entryCount ensures HasValidChild(after, s.name) {
      var k :| 0 <= k < |down| && down[k] == s;
      assert after[k] in after;
    }
  }

  /** The first loop of update_one: bring every subdirectory up to date. */
  method UpdateSubtrees(it: Node, cache: seq<Entry>, start: nat, base: string, odb: set<Oid>, flags: Flags,
                        ghost n: nat)
    returns (ok: bool, down: seq<Sub>, store: set<Oid>)
    requires ValidIndex(cache) && start <= |cache|
    requires start < |cache| ==> IsUnder(base, cache[start])
    requires Extent(cache, start, n, base)
    requires Children(it.down, cache, base)
    ensures WritesWhole(odb, store, flags)
    ensures Children(down, cache, base) && KeepsValid(it.down, down)
    ensures AllPresent(cache[start..start + n], odb, flags) && (!flags.dryRun || flags.missingOk) ==> ok
    ensures ok ==>
              && Ready(down, store, flags.dryRun)
              && forall j :: start <= j < start + n && InSubtree(base, cache[j]) ==>
                HasUsed(down, Component(base, cache[j]))
    decreases |cache| - start, if start < |cache| then |cache[start].name| - |base| else 0, 1
  {
    hide Less;
    hide Slash;
    hide Under;
    hide Build;
    hide RunLength;
    hide Below;
    hide InSubtree;
    hide Component;
    hide Find;
    hide Coherent;
    hide SortedSubs;
    store := odb;
    down := ClearUsed(it.down);
    ClearedChildren(it.down, down, cache, base, store, flags.dryRun);
    ok := true;
    var i := start;
    while i < |cache|
      invariant start <= i <= start + n
      invariant Children(down, cache, base) && KeepsValid(it.down, down)
      invariant Ready(down, store, flags.dryRun) && WritesWhole(odb, store, flags)
      invariant Boundary(cache, start, i, base)
      invariant forall j :: start <= j < i && InSubtree(base, cache[j]) ==> HasUsed(down, Component(base, cache[j]))
    {
      if !IsUnder(base, cache[i]) {
        break;
      }
      if !InSubtree(base, cache[i]) {
        BoundaryAfterFile(cache, start, i, base);
        i := i + 1;
        continue;
      }
      var count, after;
      ghost var before := store;
      count, after, store := UpdateSubtree(down, cache, i, base, store, flags, start, n);
      WritesTwice(odb, before, store, flags);
      KeepsValidTwice(it.down, down, after);
      if count < 0 {
        return false, after, store;
      }
      GroupAt(cache, start, n, i, base);
      ComponentNoSlash(base, cache[i]);
      forall j | start <= j < i + count && InSubtree(base, cache[j]) ensures HasUsed(after, Component(base, cache[j])) {
        if j < i {
          KeepsUsedName(down, after, Component(base, cache[j]));
        } else {
          GroupNames(cache, start, n, i, j, base);
        }
      }
      BoundaryAfter(cache, start, i, count, base, Component(base, cache[i]));
      down := after;
      i := i + count;
    }
  }

  lemma GroupNames(cache: seq<Entry>, start: nat, n: nat, i: nat, j: nat, base: string)
    requires ValidIndex(cache) && Extent(cache, start, n, base) && start <= i < start + n
    requires Boundary(cache, start, i, base) && InSubtree(base, cache[i])
    requires i <= j < i + RunLength(cache[i..], Child(base, Component(base, cache[i])))
    ensures IsUnder(base, cache[j]) && Component(base, cache[j]) == Component(base, cache[i])
  {
    GroupAt(cache, start, n, i, base);
    ComponentNoSlash(base, cache[i]);
    UnderChildOnly(base, Component(base, cache[i]), cache[j]);
  }

  lemma BuildNothing(base: string)
    ensures Build([], base) == []
  {
  }

  /** The second loop of update_one: the content of the tree object, unless an object is missing. */
  method WriteTree(down: seq<Sub>, cache: seq<Entry>, start: nat, base: string, store: set<Oid>, flags: Flags,
                   ghost n: nat)
    returns (ok: bool, i: nat, buffer: seq<Item>)
    requires ValidIndex(cache) && start <= |cache| && Extent(cache, start, n, base)
    requires Children(down, cache, base) && Ready(down, store, flags.dryRun)
    requires forall sub :: sub in down ==> sub.used
    requires forall j :: start <= j < start + n && InSubtree(base, cache[j]) ==>
             HasUsed(down, Component(base, cache[j]))
    ensures AllPresent(cache[start..start + n], store, flags) && (!flags.dryRun || flags.missingOk) ==> ok
    ensures ok ==>
              i == start + n && Level(cache[start..start + n], base) && buffer == Build(cache[start..start + n], base)
    ensures ok ==> ItemsPresent(buffer, store, flags)
  {
    hide Less;
    hide Slash;
    hide Under;
    hide Build;
    hide RunLength;
    hide InSubtree;
    hide Component;
    hide Find;
    hide Coherent;
    hide SortedSubs;
    ok := true;
    buffer := [];
    i := start;
    LevelOfExtent(cache, start, n, start, base);
    BuildNothing(base);
    while i < |cache|
      invariant start <= i <= start + n && Level(cache[i..start + n], base)
      invariant Boundary(cache, start, i, base)
      invariant buffer + Build(cache[i..start + n], base) == Build(cache[start..start + n], base)
      invariant ItemsPresent(buffer, store, flags)
    {
      if !IsUnder(base, cache[i]) {
        break;
      }
      var item;
      if InSubtree(base, cache[i]) {
        item, i := SubtreeItem(down, cache, i, base, start, n);
      } else {
        BuildFile(cache, start, n, i, base);
        BoundaryAfterFile(cache, start, i, base);
        item := Item(cache[i].mode, cache[i].name[|base|..], cache[i].oid);
        assert cache[i] == cache[start..start + n][i - start];
        i := i + 1;
      }
      if !Present(item.mode, item.oid, store, flags) {
        return false, i, buffer;
      }
      buffer := buffer + [item];
    }
    assert i == start + n && cache[i..start + n] == [];
  }

  method SubtreeItem(down: seq<Sub>, cache: seq<Entry>, i: nat, base: string, ghost start: nat, ghost n: nat)
    returns (item: Item, next: nat)
    requires ValidIndex(cache) && start <= i < start + n && Extent(cache, start, n, base)
    requires Boundary(cache, start, i, base) && InSubtree(base, cache[i])
    requires Children(down, cache, base)
    requires forall sub :: sub in down ==> sub.used && 0 <= sub.tree.entryCount == sub.count
    requires HasUsed(down, Component(base, cache[i]))
    ensures i < next <= start + n && Boundary(cache, start, next, base)
    ensures Level(cache[i..start + n], base) && Level(cache[next..start + n], base)
    ensures Build(cache[i..start + n], base) == [item] + Build(cache[next..start + n], base)
    ensures item.mode == DIRECTORY && item.oid.Tree? && exists sub :: sub in down && sub.tree.oid == item.oid
  {
    hide Less;
    hide Slash;
    hide Under;
    hide Build;
    hide RunLength;
    hide Below;
    hide InSubtree;
    hide Component;
    hide Find;
    var name := Component(base, cache[i]);
    BuildSubtree(cache, start, n, i, base);
    GroupAt(cache, start, n, i, base);
    ComponentNoSlash(base, cache[i]);
    BoundaryAfter(cache, start, i, RunLength(cache[i..], Child(base, name)), base, name);
    var pos := SubtreePos(down, name);
    var sub := down[pos];
    assert Coherent(sub.tree, cache, Child(base, name));
    item := Item(DIRECTORY, name, sub.tree.oid);
    next := i + sub.count;
  }

  /** update_one */
  method UpdateOne(it: Node, cache: seq<Entry>, start: nat, base: string, odb: set<Oid>, flags: Flags)
    returns (count: int, after: Node, store: set<Oid>)
    requires ValidIndex(cache) && start <= |cache|
    requires start < |cache| ==> IsUnder(base, cache[start])
    requires forall j :: 0 <= j < start ==> !IsUnder(base, cache[j])
    requires Coherent(it, cache, base)
    ensures WritesWhole(odb, store, flags)
    ensures Coherent(after, cache, base)
    ensures 0 <= it.entryCount ==> 0 <= after.entryCount
    ensures AllPresent(EntriesUnder(cache, base), odb, flags) && (!flags.dryRun || flags.missingOk) ==> 0 <= count
    ensures 0 <= count ==> count == after.entryCount && (flags.dryRun || after.oid in store)
    ensures start < |cache| && it.entryCount != 0 ==> after.entryCount != 0
    decreases |cache| - start, if start < |cache| then |cache[start].name| - |base| else 0, 2
  {
    hide Less;
    hide Slash;
    hide Under;
    hide Build;
    hide RunLength;
    hide Below;
    hide InSubtree;
    hide Component;
    hide Find;
    if 0 <= it.entryCount && it.oid in odb {
      return it.entryCount, it, odb;
    }
    ghost var n := RunLength(cache[start..], base);
    ExtentOfRun(cache, start, base);
    var ok, down;
    ok, down, store := UpdateSubtrees(it, cache, start, base, odb, flags, n);
    after := it.(down := down);
    count := -1;
    if !ok {
      FailedUpdate(it, down, cache, base);
      return;
    }
    var used := DiscardUnused(down);
    DiscardedKeepsUsed(down, used);
    forall j | start <= j < start + n && InSubtree(base, cache[j]) ensures HasUsed(used, Component(base, cache[j])) {
      KeepsUsedName(down, used, Component(base, cache[j]));
    }
    UsedCovers(used, cache, start, n, base, store, flags.dryRun);
    after := it.(down := used);
    var i, buffer;
    ok, i, buffer := WriteTree(used, cache, start, base, store, flags, n);
    if !ok {
      if 0 <= it.entryCount {
        CoherentCount(it, cache, base);
        AgreesIfCovered(after, cache, start, n, base);
      } else {
        CoherentFromChildren(after, cache, base);
      }
      return;
    }
    after := Node(i - start, Tree(buffer), used);
    AgreesIfCovered(after, cache, start, n, base);
    if !flags.dryRun {
      WritesOne(odb, store, buffer, flags);
      store := store + {after.oid};
    }
    count := i - start;
  }

  /** Every subdirectory of base has a valid node. */
  ghost predicate Covered(down: seq<Sub>, cache: seq<Entry>, start: nat, n: nat, base: string)
    requires Extent(cache, start, n, base)
  {
    forall j :: start <= j < start + n && InSubtree(base, cache[j]) ==> HasValidChild(down, Component(base, cache[j]))
  }

  lemma UsedCovers(down: seq<Sub>, cache: seq<Entry>, start: nat, n: nat, base: string, store: set<Oid>, dryRun: bool)
    requires Extent(cache, start, n, base) && Ready(down, store, dryRun)
    requires forall j :: start <= j < start + n && InSubtree(base, cache[j]) ==>
             HasUsed(down, Component(base, cache[j]))
    ensures Covered(down, cache, start, n, base)
  {
    hide InSubtree;
    hide Component;
    forall j | start <= j < start + n && InSubtree(base, cache[j])
      ensures HasValidChild(down, Component(base, cache[j]))
    {
      var sub :| sub in down && sub.name == Component(base, cache[j]) && sub.used;
    }
  }

  lemma DiscardedKeepsUsed(down: seq<Sub>, after: seq<Sub>)
    requires forall s :: s in after <==> s in down && s.used
    ensures KeepsUsed(down, after)
  {
  }

  lemma AgreesIfCovered(node: Node, cache: seq<Entry>, start: nat, n: nat, base: string)
    requires ValidIndex(cache) && Extent(cache, start, n, base) && EntriesUnder(cache, base) == cache[start..start + n]
    requires Children(node.down, cache, base) && Covered(node.down, cache, start, n, base)
    requires node.entryCount == n && node.oid == Tree(Build(EntriesUnder(cache, base), base))
    ensures Coherent(node, cache, base)
  {
    hide InSubtree;
    hide Component;
    hide Build;
    hide Under;
    var es := EntriesUnder(cache, base);
    forall i | 0 <= i < |es| && InSubtree(base, es[i]) ensures HasValidChild(node.down, Component(base, es[i])) {
      assert es[i] == cache[start + i];
    }
    CoherentFromChildren(node, cache, base);
  }

  lemma FailedUpdate(it: Node, down: seq<Sub>, cache: seq<Entry>, base: string)
    requires ValidIndex(cache) && Coherent(it, cache, base) && Children(down, cache, base)
    requires 0 <= it.entryCount ==> KeepsValid(it.down, down)
    ensures Coherent(it.(down := down), cache, base)
  {
    if 0 <= it.entryCount {
      AgreesStill(it, down, cache, base);
    }
    CoherentFromChildren(it.(down := down), cache, base);
  }

  // ---------- Verifying ----------

  /** index_name_pos */
  method NamePos(cache: seq<Entry>, name: string) returns (pos: int)
    requires ValidIndex(cache)
    ensures 0 <= pos ==> pos < |cache| && cache[pos].name == name
    ensures pos < 0 ==>
              && -pos - 1 <= |cache|
              && (forall i :: 0 <= i < -pos - 1 ==> Less(cache[i].name, name))
              && (forall i :: -pos - 1 <= i < |cache| ==> Less(name, cache[i].name))
  {
    var first, last := 0, |cache|;
    while first < last
      invariant 0 <= first <= last <= |cache|
      invariant forall i :: 0 <= i < first ==> Less(cache[i].name, name)
      invariant forall i :: last <= i < |cache| ==> Less(name, cache[i].name)
    {
      var next := first + (last - first) / 2;
      LessTotal(name, cache[next].name);
      if name == cache[next].name {
        return next;
      }
      if Less(name, cache[next].name) {
        forall i | next <= i < |cache| ensures Less(name, cache[i].name) {
          if next < i {
            LessTransitive(name, cache[next].name, cache[i].name);
          }
        }
        last := next;
      } else {
        forall i | 0 <= i <= next ensures Less(cache[i].name, name) {
          if i < next {
            LessTransitive(cache[i].name, cache[next].name, name);
          }
        }
        first := next + 1;
      }
    }
    return -first - 1;
  }

  /** A directory's entries start where its name, with the final '/', would be inserted. */
  lemma StartOfDirectory(cache: seq<Entry>, pos: nat, base: string)
    requires ValidIndex(cache) && pos <= |cache|
    requires forall i :: 0 <= i < pos ==> Less(cache[i].name, base)
    requires forall i :: pos <= i < |cache| ==> Less(base, cache[i].name)
    ensures Extent(cache, pos, |EntriesUnder(cache, base)|, base)
    ensures EntriesUnder(cache, base) == cache[pos..pos + |EntriesUnder(cache, base)|]
  {
    hide Under;
    forall i | 0 <= i < pos ensures !IsUnder(base, cache[i]) {
      if IsUnder(base, cache[i]) {
        PrefixLess(base, cache[i].name);
        LessTransitive(base, cache[i].name, base);
        LessIrreflexive(base);
        assert false;
      }
    }
    if pos < |cache| && !IsUnder(base, cache[pos]) {
      forall i | pos <= i < |cache| ensures !IsUnder(base, cache[i]) {
        if IsUnder(base, cache[i]) {
          PrefixContiguous(base, base, cache[pos].name, cache[i].name);
          assert cache[pos].name == base;
          LessIrreflexive(base);
          assert false;
        }
      }
      UnderNone(cache, base);
    } else {
      ExtentOfRun(cache, pos, base);
    }
  }

  /** The node's entries are the index entries [pos, pos + entryCount), and its children are coherent. */
  ghost predicate Located(cache: seq<Entry>, it: Node, path: string, pos: nat)
    requires ValidIndex(cache)
  {
    && 0 <= it.entryCount && Children(it.down, cache, path)
    && Extent(cache, pos, it.entryCount, path)
    && EntriesUnder(cache, path) == cache[pos..pos + it.entryCount]
  }

  /** The entry is a file, or its subdirectory has a valid node. */
  ghost predicate HasNode(cache: seq<Entry>, it: Node, path: string, pos: nat, j: nat)
    requires ValidIndex(cache) && Located(cache, it, path, pos) && pos <= j < pos + it.entryCount
  {
    InSubtree(path, cache[j]) ==> HasValidChild(it.down, Component(path, cache[j]))
  }

  lemma LocatedChild(cache: seq<Entry>, it: Node, path: string, pos: nat, j: nat)
    requires ValidIndex(cache) && Located(cache, it, path, pos) && pos <= j < pos + it.entryCount
    requires Agrees(it, cache, path)
    ensures HasNode(cache, it, path, pos, j)
  {
    hide InSubtree;
    hide Component;
    hide Build;
    hide Under;
    hide Children;
    assert EntriesUnder(cache, path)[j - pos] == cache[j];
  }

  lemma LocatedAgrees(cache: seq<Entry>, it: Node, path: string, pos: nat)
    requires ValidIndex(cache) && Located(cache, it, path, pos)
    requires forall j :: pos <= j < pos + it.entryCount ==> HasNode(cache, it, path, pos, j)
    requires it.oid == Tree(Build(EntriesUnder(cache, path), path))
    ensures Agrees(it, cache, path)
  {
    hide InSubtree;
    hide Component;
    hide Build;
    hide Under;
    hide Children;
    hide HasValidChild;
    var es := EntriesUnder(cache, path);
    forall i | 0 <= i < |es| && InSubtree(path, es[i]) ensures HasValidChild(it.down, Component(path, es[i])) {
      assert es[i] == cache[pos + i];
      assert HasNode(cache, it, path, pos, pos + i);
    }
  }

  /** What the loop of verify_one keeps when it has got to entry i. */
  ghost predicate GotTo(cache: seq<Entry>, it: Node, path: string, pos: nat, i: nat)
    requires ValidIndex(cache)
  {
    Located(cache, it, path, pos) && pos <= i < pos + it.entryCount && Boundary(cache, pos, i, path)
  }

  /** The item is what the entries [i, next) add to the tree object of the path. */
  ghost predicate Adds(cache: seq<Entry>, it: Node, path: string, pos: nat, i: nat, item: Item, next: nat)
    requires ValidIndex(cache) && Located(cache, it, path, pos) && pos <= i
  {
    var end := pos + it.entryCount;
    && i < next <= end && Boundary(cache, pos, next, path)
    && Level(cache[i..end], path) && Level(cache[next..end], path)
    && Build(cache[i..end], path) == [item] + Build(cache[next..end], path)
    && forall j :: i <= j < next ==> HasNode(cache, it, path, pos, j)
  }

  /** All the entries of a subdirectory have its node. */
  lemma GroupHasNode(cache: seq<Entry>, it: Node, path: string, pos: nat, i: nat, m: nat, name: string)
    requires ValidIndex(cache) && Located(cache, it, path, pos) && pos <= i && i + m <= pos + it.entryCount
    requires NoSlash(name) && Extent(cache, i, m, Child(path, name)) && HasValidChild(it.down, name)
    ensures forall j :: i <= j < i + m ==> HasNode(cache, it, path, pos, j)
  {
    hide HasValidChild;
    hide InSubtree;
    hide Component;
    hide Children;
    hide NoSlash;
    hide Under;
    hide IsUnder;
    forall j | i <= j < i + m ensures HasNode(cache, it, path, pos, j) {
      UnderChildOnly(path, name, cache[j]);
    }
  }

  lemma AddsSubtree(cache: seq<Entry>, it: Node, path: string, pos: nat, i: nat, p: nat)
    requires ValidIndex(cache) && GotTo(cache, it, path, pos, i) && InSubtree(path, cache[i])
    requires p < |it.down| && it.down[p].name == Component(path, cache[i]) && 0 <= it.down[p].tree.entryCount
    ensures var tree := it.down[p].tree;
            Adds(cache, it, path, pos, i, Item(DIRECTORY, it.down[p].name, tree.oid), i + tree.entryCount)
  {
    hide Build;
    hide RunLength;
    hide Under;
    hide IsUnder;
    hide InSubtree;
    hide Component;
    hide ValidName;
    hide Child;
    hide Agrees;
    hide Boundary;
    hide HasNode;
    var sub := it.down[p];
    assert sub in it.down;
    BuildSubtree(cache, pos, it.entryCount, i, path);
    GroupAt(cache, pos, it.entryCount, i, path);
    BoundaryAfter(cache, pos, i, RunLength(cache[i..], Child(path, sub.name)), path, sub.name);
    CoherentCount(sub.tree, cache, Child(path, sub.name));
    GroupHasNode(cache, it, path, pos, i, sub.tree.entryCount, sub.name);
  }

  lemma AddsFile(cache: seq<Entry>, it: Node, path: string, pos: nat, i: nat)
    requires ValidIndex(cache) && GotTo(cache, it, path, pos, i) && !InSubtree(path, cache[i])
    ensures Adds(cache, it, path, pos, i, Item(cache[i].mode, cache[i].name[|path|..], cache[i].oid), i + 1)
  {
    hide Build;
    BuildFile(cache, pos, it.entryCount, i, path);
    BoundaryAfterFile(cache, pos, i, path);
  }

  /** A valid child of the name is the one the search finds. */
  lemma ChildFound(down: seq<Sub>, name: string)
    requires SortedSubs(down)
    ensures HasValidChild(down, name) <==> 0 <= Find(down, name) && 0 <= down[Find(down, name)].tree.entryCount
  {
    hide Find;
    if HasValidChild(down, name) {
      var sub :| sub in down && sub.name == name && 0 <= sub.tree.entryCount;
      var k :| 0 <= k < |down| && down[k] == sub;
      FindIs(down, k);
    }
  }

  /** What an entry adds to a tree and which entry comes next, read with the nodes there are */
  datatype Part = Missing | Part(item: Item, next: nat)

  function PartAt(down: seq<Sub>, cache: seq<Entry>, base: string, i: nat): Part
    requires i < |cache|
  {
    var ce := cache[i];
    if |ce.name| < |base| then Missing
    else
      var name := ce.name[|base|..];
      var n := Slash(name);
      if n == |name| then Part(Item(ce.mode, name, ce.oid), i + 1)
      else
        var p := Find(down, name[..n]);
        if p < 0 || down[p].tree.entryCount < 0 then Missing
        else Part(Item(DIRECTORY, name[..n], down[p].tree.oid), i + down[p].tree.entryCount)
  }

  datatype Reading = Unreadable | Items(items: seq<Item>) {
    function After(before: seq<Item>): Reading {
      if Unreadable? then Unreadable else Items(before + items)
    }
  }

  /** The tree read from a stretch of the index, subdirectories taken as long as their nodes say they are */
  function Read(down: seq<Sub>, cache: seq<Entry>, base: string, i: nat, end: nat): Reading
    requires end <= |cache|
    decreases end - i
  {
    if i >= end then Items([])
    else
      match PartAt(down, cache, base, i)
      case Missing => Unreadable
      case Part(item, next) => if next <= i then Unreadable else Read(down, cache, base, next, end).After([item])
  }

  /** The node's object is the tree read from as many entries from pos on as it counts. */
  predicate ReadsAs(node: Node, cache: seq<Entry>, base: string, pos: nat) {
    && 0 <= node.entryCount && pos + node.entryCount <= |cache|
    && var r := Read(node.down, cache, base, pos, pos + node.entryCount);
       r.Items? && Tree(r.items) == node.oid
  }

  /** How many entries come before a name */
  function InsertAt(cache: seq<Entry>, name: string): (pos: nat)
    ensures pos <= |cache|
  {
    if cache == [] || !Less(cache[0].name, name) then 0 else 1 + InsertAt(cache[1..], name)
  }

  lemma {:induction false} InsertAtIs(cache: seq<Entry>, name: string, pos: nat)
    requires pos <= |cache| && (forall i :: 0 <= i < pos ==> Less(cache[i].name, name))
    requires forall i :: pos <= i < |cache| ==> Less(name, cache[i].name)
    ensures InsertAt(cache, name) == pos
  {
    if pos > 0 {
      InsertAtIs(cache[1..], name, pos - 1);
    } else if cache != [] && Less(cache[0].name, name) {
      LessTransitive(name, cache[0].name, name);
      LessIrreflexive(name);
      assert false;
    }
  }

  /** Every valid node reads as its object, whatever entries it counts. */
  predicate Accepted(node: Node, cache: seq<Entry>, base: string)
    decreases node
  {
    && (forall i :: 0 <= i < |node.down| ==> Accepted(node.down[i].tree, cache, Child(base, node.down[i].name)))
    && (0 <= node.entryCount ==> ReadsAs(node, cache, base, InsertAt(cache, base)))
  }

  /** Entries "a/x" and "a/y", and a node for "a" that counts one entry and has the tree of "x" alone: accepted. */
  lemma CountOnTrust() returns (cache: seq<Entry>, root: Node)
    ensures ValidIndex(cache) && WellFormed(root) && Accepted(root, cache, "") && !Coherent(root, cache, "")
  {
    cache := [Entry("a/x", 0x81A4, Blob(1)), Entry("a/y", 0x81A4, Blob(2))];
    var child := Node(1, Tree([Item(0x81A4, "x", Blob(1))]), []);
    root := Node(-1, Null, [Sub("a", child, 0, false)]);
    var base := Child("", "a");
    TwoFiles(cache);
    FirstOnly(cache, child);
    assert base == "a/" && root.down[0].name == "a";
    hide ReadsAs;
    hide Less;
    hide Agrees;
    if Coherent(root, cache, "") {
      CoherentCount(root.down[0].tree, cache, Child("", root.down[0].name));
    }
  }

  lemma TwoFiles(cache: seq<Entry>)
    requires cache == [Entry("a/x", 0x81A4, Blob(1)), Entry("a/y", 0x81A4, Blob(2))]
    ensures ValidIndex(cache) && EntriesUnder(cache, "a/") == cache
  {
    assert "a/x"[1..] == "/x" && "/x"[1..] == "x" && "a/y"[1..] == "/y" && "/y"[1..] == "y";
    assert Less("a/x", "a/y");
    assert "a/x"[..2] == "a/" && "a/y"[..2] == "a/";
    UnderAll(cache, "a/");
  }

  lemma FirstOnly(cache: seq<Entry>, child: Node)
    requires cache == [Entry("a/x", 0x81A4, Blob(1)), Entry("a/y", 0x81A4, Blob(2))]
    requires child == Node(1, Tree([Item(0x81A4, "x", Blob(1))]), [])
    ensures InsertAt(cache, "a/") == 0 && ReadsAs(child, cache, "a/", 0)
  {
    assert "a/x"[1..] == "/x" && "a/"[1..] == "/" && "/x"[1..] == "x" && "/"[1..] == "";
    assert !Less("a/x", "a/");
    assert "a/x"[2..] == "x" && Slash("x") == 1;
    assert PartAt([], cache, "a/", 0) == Part(Item(0x81A4, "x", Blob(1)), 1);
    assert Read([], cache, "a/", 1, 1) == Items([]);
    assert Read([], cache, "a/", 0, 1) == Items([Item(0x81A4, "x", Blob(1))]);
  }

  /** One turn of the loop of verify_one; not ok exactly when the subtree is missing or not valid. */
  method VerifyEntry(cache: seq<Entry>, it: Node, path: string, i: nat, ghost pos: nat)
    returns (ok: bool, item: Item, next: nat)
    requires ValidIndex(cache) && WellFormed(it) && i < |cache|
    ensures ok ==> i < next
    ensures PartAt(it.down, cache, path, i) == if ok then Part(item, next) else Missing
    ensures GotTo(cache, it, path, pos, i) ==> (ok <==> HasNode(cache, it, path, pos, i))
    ensures GotTo(cache, it, path, pos, i) && ok ==> Adds(cache, it, path, pos, i, item, next)
  {
    hide Less;
    hide Build;
    hide Find;
    hide Slash;
    hide Adds;
    hide Boundary;
    hide HasValidChild;
    hide Children;
    ghost var good := GotTo(cache, it, path, pos, i);
    var ce := cache[i];
    item, next, ok := Item(0, "", Null), i, false;
    if |ce.name| < |path| {
      return;
    }
    var name := ce.name[|path|..];
    var n := Slash(name);
    if n == |name| {
      if good {
        AddsFile(cache, it, path, pos, i);
      }
      return true, Item(ce.mode, name, ce.oid), i + 1;
    }
    var p := SubtreePos(it.down, name[..n]);
    ChildFound(it.down, name[..n]);
    if p < 0 || it.down[p].tree.entryCount < 0 {
      return;
    }
    if good {
      AddsSubtree(cache, it, path, pos, i, p);
    }
    return true, Item(DIRECTORY, name[..n], it.down[p].tree.oid), i + it.down[p].tree.entryCount;
  }

  /** The loop of verify_one, and its comparison of object names. */
  method VerifyContent(cache: seq<Entry>, it: Node, path: string, pos: nat) returns (ret: int)
    requires ValidIndex(cache) && WellFormed(it) && 0 <= it.entryCount && pos + it.entryCount <= |cache|
    ensures ret == 0 <==> ReadsAs(it, cache, path, pos)
    ensures Located(cache, it, path, pos) ==> (ret == 0 <==> Agrees(it, cache, path))
  {
    hide PartAt;
    hide Under;
    hide Build;
    hide RunLength;
    hide IsUnder;
    hide WellFormed;
    hide HasNode;
    hide Children;
    hide Boundary;
    ghost var end := pos + it.entryCount;
    ghost var good := Located(cache, it, path, pos);
    var buffer: seq<Item> := [];
    var i := pos;
    if good {
      LevelOfExtent(cache, pos, it.entryCount, pos, path);
      BuildNothing(path);
      assert Boundary(cache, pos, pos, path) by { NothingBefore(cache, pos, path); }
    }
    ghost var all := Read(it.down, cache, path, pos, end);
    while i < pos + it.entryCount
      invariant pos <= i && all == Read(it.down, cache, path, i, end).After(buffer)
      invariant good ==>
                  && i <= end && Boundary(cache, pos, i, path)
                  && Level(cache[i..end], path) && Level(cache[pos..end], path)
                  && buffer + Build(cache[i..end], path) == Build(cache[pos..end], path)
                  && forall j :: pos <= j < i ==> HasNode(cache, it, path, pos, j)
      decreases pos + it.entryCount - i
    {
      var ok, item, next := VerifyEntry(cache, it, path, i, pos);
      if !ok {
        if good && Agrees(it, cache, path) {
          LocatedChild(cache, it, path, pos, i);
          assert false;
        }
        return -1;
      }
      AfterBoth(buffer, [item], Read(it.down, cache, path, next, end));
      buffer := buffer + [item];
      i := next;
    }
    if good {
      assert cache[i..end] == [];
      if Tree(buffer) == it.oid {
        LocatedAgrees(cache, it, path, pos);
      }
    }
    return if Tree(buffer) == it.oid then 0 else -1;
  }

  lemma AfterBoth(a: seq<Item>, b: seq<Item>, r: Reading)
    ensures r.After(b).After(a) == r.After(a + b)
  {
    if r.Items? {
      assert a + (b + r.items) == (a + b) + r.items;
    }
  }

  lemma NothingBefore(cache: seq<Entry>, pos: nat, path: string)
    ensures Boundary(cache, pos, pos, path)
  {
  }

  /** What verify_one takes on trust: names of one component, and the entry counts of valid nodes. */
  ghost predicate Counted(node: Node, cache: seq<Entry>, base: string)
    requires ValidIndex(cache)
    decreases node
  {
    && (forall i :: 0 <= i < |node.down| ==>
          NoSlash(node.down[i].name) && Counted(node.down[i].tree, cache, Child(base, node.down[i].name)))
    && (0 <= node.entryCount ==> node.entryCount == |EntriesUnder(cache, base)|)
  }

  /** verify_one: 0 when the tree is accepted, -1 otherwise */
  method VerifyOne(cache: seq<Entry>, it: Node, path: string) returns (ret: int)
    requires ValidIndex(cache) && WellFormed(it)
    requires path != [] ==> path[|path| - 1] == '/'
    ensures ret == 0 <==> Accepted(it, cache, path)
    ensures Coherent(it, cache, path) <==> ret == 0 && Counted(it, cache, path)
    decreases it
  {
    hide Read;
    hide InsertAt;
    hide Less;
    hide Under;
    hide Build;
    hide Find;
    hide Agrees;
    var k := 0;
    while k < |it.down|
      invariant 0 <= k <= |it.down|
      invariant forall i :: 0 <= i < k ==> Accepted(it.down[i].tree, cache, Child(path, it.down[i].name))
      invariant forall i :: 0 <= i < k ==>
                  (Coherent(it.down[i].tree, cache, Child(path, it.down[i].name)) <==>
                   Counted(it.down[i].tree, cache, Child(path, it.down[i].name)))
    {
      ret := VerifyOne(cache, it.down[k].tree, Child(path, it.down[k].name));
      if ret != 0 {
        return;
      }
      k := k + 1;
    }
    if it.entryCount < 0 {
      return 0;
    }
    var pos := 0;
    if path != [] {
      pos := NamePos(cache, path);
      if 0 <= pos {
        return -1;
      }
      pos := -pos - 1;
    }
    EmptyIsLess(cache, path);
    StartOfDirectory(cache, pos, path);
    InsertAtIs(cache, path, pos);
    if Coherent(it, cache, path) {
      CoherentCount(it, cache, path);
    }
    if it.entryCount + pos > |cache| {
      return -1;
    }
    ret := VerifyContent(cache, it, path, pos);
  }

  lemma EmptyIsLess(cache: seq<Entry>, path: string)
    requires ValidIndex(cache)
    ensures path == [] ==> forall i :: 0 <= i < |cache| ==> Less(path, cache[i].name)
  {
  }

  // ---------- A file and a directory of one name ----------

  /** Name y lies in the directory called x. */
  predicate Clash(x: string, y: string) {
    |x| < |y| && y[|x|] == '/' && x == y[..|x|]
  }

  /** Name y sorts between x and the names in the directory called x. */
  predicate Shadows(x: string, y: string) {
    |x| < |y| && y[|x|] < '/' && x == y[..|x|]
  }

  ghost predicate NoNeighboursClash(cache: seq<Entry>) {
    forall i :: 0 <= i < |cache| - 1 ==> !Clash(cache[i].name, cache[i + 1].name)
  }

  ghost predicate NoneClash(cache: seq<Entry>) {
    forall i, j :: 0 <= i < |cache| && 0 <= j < |cache| ==> !Clash(cache[i].name, cache[j].name)
  }

  /** verify_cache, for an index without unmerged entries */
  method VerifyCache(cache: seq<Entry>) returns (ret: int)
    ensures ret == 0 || ret == -1
    ensures ret == 0 <==> NoNeighboursClash(cache)
  {
    var funny, i := 0, 0;
    while i + 1 < |cache|
      invariant 0 <= i && 0 <= funny <= 10
      invariant funny == 0 ==> forall j :: 0 <= j < i && j < |cache| - 1 ==> !Clash(cache[j].name, cache[j + 1].name)
      invariant funny != 0 ==> exists j :: 0 <= j < |cache| - 1 && Clash(cache[j].name, cache[j + 1].name)
    {
      if Clash(cache[i].name, cache[i + 1].name) {
        funny := funny + 1;
        if 10 < funny {
          return -1;
        }
      }
      i := i + 1;
    }
    return if funny != 0 then -1 else 0;
  }

  lemma {:induction false} LessAt(x: string, y: string, n: nat)
    requires Less(x, y) && n < |x| && n < |y| && x[..n] == y[..n]
    ensures x[n] <= y[n]
  {
    if n > 0 {
      assert x[0] == x[..n][0] == y[..n][0] == y[0];
      assert x[1..][..n - 1] == x[..n][1..] && y[1..][..n - 1] == y[..n][1..];
      LessAt(x[1..], y[1..], n - 1);
    }
  }

  /** After a file that clashes with some later entry comes an entry that clashes too, or one that hides it. */
  lemma NextClashesOrShadows(cache: seq<Entry>, i: nat, j: nat)
    requires ValidIndex(cache) && i < |cache| && j < |cache| && Clash(cache[i].name, cache[j].name)
    ensures i < j
    ensures Clash(cache[i].name, cache[i + 1].name) || Shadows(cache[i].name, cache[i + 1].name)
  {
    var x, z := cache[i].name, cache[j].name;
    PrefixLess(x, z);
    LessIrreflexive(x);
    if j <= i {
      if j < i {
        LessTransitive(z, x, z);
      }
      LessIrreflexive(z);
      assert false;
    }
    var y := cache[i + 1].name;
    PrefixContiguous(x, x, y, z);
    if i + 1 < j {
      assert y != x;
      LessAt(y, z, |x|);
    }
  }

  /** verify_cache accepts exactly when every clash is hidden by the entry after the file. */
  lemma WhatVerifyCacheMisses(cache: seq<Entry>)
    requires ValidIndex(cache)
    ensures NoNeighboursClash(cache) <==>
            (forall i, j :: 0 <= i < |cache| && 0 <= j < |cache| && Clash(cache[i].name, cache[j].name) ==>
               i + 1 < |cache| && Shadows(cache[i].name, cache[i + 1].name))
  {
    forall i, j | 0 <= i < |cache| && 0 <= j < |cache| && Clash(cache[i].name, cache[j].name)
      ensures i < j && (Clash(cache[i].name, cache[i + 1].name) || Shadows(cache[i].name, cache[i + 1].name))
    {
      NextClashesOrShadows(cache, i, j);
    }
  }

  /** When no file is followed by an entry that sorts before its directory, verify_cache finds every clash. */
  lemma VerifyCacheComplete(cache: seq<Entry>)
    requires ValidIndex(cache)
    requires forall i :: 0 <= i < |cache| - 1 ==> !Shadows(cache[i].name, cache[i + 1].name)
    ensures NoNeighboursClash(cache) <==> NoneClash(cache)
  {
    if NoNeighboursClash(cache) {
      forall i, j | 0 <= i < |cache| && 0 <= j < |cache| ensures !Clash(cache[i].name, cache[j].name) {
        if Clash(cache[i].name, cache[j].name) {
          NextClashesOrShadows(cache, i, j);
          assert false;
        }
      }
    }
  }

  /** The file "a" and the directory "a" with "a-b" between them: not found. */
  lemma ClashNotFound() returns (cache: seq<Entry>)
    ensures ValidIndex(cache) && |cache| == 3
    ensures Clash(cache[0].name, cache[2].name)
    ensures NoNeighboursClash(cache)
  {
    cache := [Entry("a", 0x81A4, Blob(1)), Entry("a-b", 0x81A4, Blob(2)), Entry("a/c", 0x81A4, Blob(3))];
    assert "a"[1..] == "" && "a-b"[1..] == "-b" && "a/c"[1..] == "/c";
    assert Less("a", "a-b") && Less("a-b", "a/c") && Less("a", "a/c");
  }

  // ---------- The index and its cache-tree ----------

  lemma AllUnderRoot(cache: seq<Entry>)
    requires ValidIndex(cache)
    ensures EntriesUnder(cache, "") == cache
  {
    UnderAll(cache, "");
  }

  class IndexState {
    var cache: seq<Entry>
    var tree: Node
    var objects: set<Oid>

    /** Every node marked valid agrees with a rebuild from the index. */
    ghost predicate Valid()
      reads this
    {
      ValidIndex(cache) && Coherent(tree, cache, "")
    }

    constructor (entries: seq<Entry>, objects: set<Oid>)
      requires ValidIndex(entries)
      ensures Valid() && cache == entries && this.objects == objects && tree.entryCount == -1
    {
      this.cache := entries;
      this.objects := objects;
      this.tree := Node(-1, Null, []);
    }

    /** One entry is added, replaced or removed, and its path invalidated (cache_tree_invalidate_path). */
    method EditEntry(ed: Edit)
      requires Valid() && ed.Valid() && ed.Old() == cache
      modifies this
      ensures Valid() && cache == ed.New() && objects == old(objects)
      ensures tree == Invalidate(old(tree), ed.path)
    {
      CoherentIsWellFormed(tree, cache, "");
      EditThenInvalidate(tree, ed, "", ed.path);
      tree := DoInvalidatePath(tree, ed.path);
      cache := ed.New();
    }

    /** cache_tree_update */
    method Update(flags: Flags) returns (ret: int)
      requires Valid()
      modifies this
      ensures Valid() && cache == old(cache) && WritesWhole(old(objects), objects, flags)
      ensures 0 <= ret ==> tree.entryCount == |cache| && tree.oid == Tree(Build(EntriesUnder(cache, ""), ""))
      ensures 0 <= ret && !flags.dryRun ==> tree.oid in objects
      ensures AllPresent(cache, old(objects), flags) && NoNeighboursClash(cache) ==>
                (!flags.dryRun || flags.missingOk ==> ret == 0)
    {
      ret := VerifyCache(cache);
      if ret != 0 {
        return;
      }
      AllUnderRoot(cache);
      var count;
      count, tree, objects := UpdateOne(tree, cache, 0, "", objects, flags);
      if count < 0 {
        return count;
      }
      CoherentCount(tree, cache, "");
      return 0;
    }

    /** cache_tree_verify: it accepts every state the operations above can reach, and with the counts right no other. */
    method Verify() returns (ret: int)
      requires ValidIndex(cache) && WellFormed(tree)
      ensures Valid() <==> ret == 0 && Counted(tree, cache, "")
    {
      ret := VerifyOne(cache, tree, "");
    }
  }
}
