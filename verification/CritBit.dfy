/**
 The crit-bit tree of cbtree.c. Nodes are embedded in the caller's objects and a
 node serves twice, as a leaf with its key and as the inner node made when it
 was inserted; a pointer's low bit says which. Here memory is a map from node
 addresses to nodes, and a pointer is an address with its tag.
 */
module CritBit {

  type Key = seq<bv8>

  // ---------- Bits of keys ----------

  /** otherbits of a critical bit: every bit but that one */
  predicate OneBitClear(bits: bv8) {
    bits == 0x7F || bits == 0xBF || bits == 0xDF || bits == 0xEF || bits == 0xF7 || bits == 0xFB || bits == 0xFD
      || bits == 0xFE
  }

  /** (1 + (otherbits | c)) >> 8 */
  function Direction(bits: bv8, c: bv8): bv16 {
    (1 + ((bits | c) as bv16)) >> 8
  }

  lemma DirectionIsBit(bits: bv8, c: bv8)
    ensures Direction(bits, c) == if bits | c == 0xFF then 1 else 0
  {
  }

  /** The two bytes have the same bits above the critical one. */
  predicate SameAbove(bits: bv8, c: bv8, d: bv8) {
    (c ^ d) & (bits & !(!bits - 1)) == 0
  }

  /** The computation of otherbits from two different bytes in cb_insert */
  function NewOtherbits(c: bv8, d: bv8): bv8 {
    var x0 := c ^ d;
    var x1 := x0 | (x0 >> 1);
    var x2 := x1 | (x1 >> 2);
    var x3 := x2 | (x2 >> 4);
    (x3 & !(x3 >> 1)) ^ 0xFF
  }

  /** It clears exactly the highest bit in which they differ. */
  lemma NewOtherbitsIsFirstDifference(c: bv8, d: bv8)
    requires c != d
    ensures OneBitClear(NewOtherbits(c, d))
    ensures SameAbove(NewOtherbits(c, d), c, d)
    ensures (NewOtherbits(c, d) | c == 0xFF) != (NewOtherbits(c, d) | d == 0xFF)
  {
  }

  lemma SameAboveDown(hi: bv8, lo: bv8, c: bv8, d: bv8)
    requires OneBitClear(hi) && OneBitClear(lo) && hi < lo && SameAbove(lo, c, d)
    ensures SameAbove(hi, c, d) && ((hi | c == 0xFF) <==> (hi | d == 0xFF))
  {
  }

  lemma SameAboveOrder(bits: bv8, c: bv8, d: bv8)
    requires OneBitClear(bits) && SameAbove(bits, c, d) && bits | c != 0xFF && bits | d == 0xFF
    ensures c < d
  {
  }

  lemma SameAboveSelf(bits: bv8, c: bv8)
    ensures SameAbove(bits, c, c)
  {
  }

  lemma SameAboveTransitive(bits: bv8, c: bv8, d: bv8, e: bv8)
    requires SameAbove(bits, c, d) && SameAbove(bits, d, e)
    ensures SameAbove(bits, c, e)
  {
  }

  // ---------- Positions in keys ----------

  datatype Pos = Pos(byte: nat, bits: bv8) {
    predicate Valid(n: nat) {
      byte < n && OneBitClear(bits)
    }

    predicate Before(p: Pos) {
      byte < p.byte || (byte == p.byte && bits < p.bits)
    }

    /** The critical bit of a key. */
    predicate Side(k: Key) {
      byte < |k| && bits | k[byte] == 0xFF
    }

    /** Two keys have the same bits before this position. */
    predicate Agree(k: Key, l: Key) {
      byte < |k| && byte < |l| && k[..byte] == l[..byte] && SameAbove(bits, k[byte], l[byte])
    }
  }

  /** Ascending byte order. */
  predicate Less(k: Key, l: Key) {
    if l == [] then false
    else if k == [] then true
    else k[0] < l[0] || (k[0] == l[0] && Less(k[1..], l[1..]))
  }

  lemma {:induction false} LessAfterCommon(k: Key, l: Key, n: nat)
    requires n < |k| && n < |l| && k[..n] == l[..n] && k[n] < l[n]
    ensures Less(k, l)
  {
    if n > 0 {
      assert k[0] == k[..n][0] == l[..n][0] == l[0];
      assert k[1..][..n - 1] == k[..n][1..] && l[1..][..n - 1] == l[..n][1..];
      LessAfterCommon(k[1..], l[1..], n - 1);
    }
  }

  lemma {:induction false} LessTransitive(x: Key, y: Key, z: Key)
    requires Less(x, y) && Less(y, z)
    ensures Less(x, z)
  {
    if x != [] && x[0] == y[0] == z[0] {
      LessTransitive(x[1..], y[1..], z[1..]);
    }
  }

  lemma {:induction false} LessIrreflexive(x: Key)
    ensures !Less(x, x)
  {
    if x != [] {
      LessIrreflexive(x[1..]);
    }
  }

  lemma PrefixSame<T>(k: seq<T>, l: seq<T>, i: nat, j: nat)
    requires i < j <= |k| && j <= |l| && k[..j] == l[..j]
    ensures k[i] == l[i] && k[..i] == l[..i]
  {
    assert k[i] == k[..j][i] && l[i] == l[..j][i];
    assert k[..i] == k[..j][..i] && l[..i] == l[..j][..i];
  }

  lemma AgreeEarlierByte(p: Pos, q: Pos, k: Key, l: Key)
    requires p.byte < q.byte && q.Agree(k, l)
    ensures p.Agree(k, l) && (p.Side(k) <==> p.Side(l))
  {
    hide SameAbove;
    PrefixSame(k, l, p.byte, q.byte);
    SameAboveSelf(p.bits, k[p.byte]);
  }

  lemma AgreeEarlierBit(p: Pos, q: Pos, k: Key, l: Key)
    requires OneBitClear(p.bits) && OneBitClear(q.bits) && p.byte == q.byte && p.bits < q.bits && q.Agree(k, l)
    ensures p.Agree(k, l) && (p.Side(k) <==> p.Side(l))
  {
    SameAboveDown(p.bits, q.bits, k[p.byte], l[p.byte]);
  }

  /** Keys that agree before a position agree before, and at, every earlier position. */
  lemma AgreeEarlier(p: Pos, q: Pos, n: nat, k: Key, l: Key)
    requires p.Valid(n) && q.Valid(n) && p.Before(q) && q.Agree(k, l)
    ensures p.Agree(k, l) && (p.Side(k) <==> p.Side(l))
  {
    hide Pos.Agree;
    hide Pos.Side;
    if p.byte < q.byte {
      AgreeEarlierByte(p, q, k, l);
    } else {
      AgreeEarlierBit(p, q, k, l);
    }
  }

  lemma AgreeTransitive(p: Pos, k: Key, l: Key, m: Key)
    requires p.Agree(k, l) && p.Agree(l, m)
    ensures p.Agree(k, m)
  {
    SameAboveTransitive(p.bits, k[p.byte], l[p.byte], m[p.byte]);
  }

  lemma AgreeSymmetric(p: Pos, k: Key, l: Key)
    requires p.Agree(k, l)
    ensures p.Agree(l, k)
  {
    assert k[p.byte] ^ l[p.byte] == l[p.byte] ^ k[p.byte];
  }

  lemma AgreeSelf(p: Pos, k: Key)
    requires p.byte < |k|
    ensures p.Agree(k, k)
  {
    SameAboveSelf(p.bits, k[p.byte]);
  }

  lemma SideOrder(p: Pos, n: nat, k: Key, l: Key)
    requires p.Valid(n) && p.Agree(k, l) && !p.Side(k) && p.Side(l)
    ensures Less(k, l)
  {
    hide SameAbove;
    hide OneBitClear;
    hide Less;
    SameAboveOrder(p.bits, k[p.byte], l[p.byte]);
    LessAfterCommon(k, l, p.byte);
  }

  // ---------- The shape of a tree ----------

  datatype Tree = Leaf(id: nat, key: Key) | Inner(id: nat, pos: Pos, left: Tree, right: Tree)

  function Keys(t: Tree): set<Key> {
    match t
    case Leaf(_, k) => {k}
    case Inner(_, _, l, r) => Keys(l) + Keys(r)
  }

  /** The crit-bit invariant, for keys of n bytes. */
  ghost predicate Ok(t: Tree, n: nat) {
    match t
    case Leaf(_, k) => |k| == n
    case Inner(_, p, l, r) =>
      && p.Valid(n) && Ok(l, n) && Ok(r, n)
      && (l.Inner? ==> p.Before(l.pos)) && (r.Inner? ==> p.Before(r.pos))
      && (forall k :: k in Keys(l) ==> !p.Side(k)) && (forall k :: k in Keys(r) ==> p.Side(k))
      && (forall k, l :: k in Keys(t) && l in Keys(t) ==> p.Agree(k, l))
  }

  /** cb_internal_best_match, as a walk down the shape */
  function Best(t: Tree, k: Key): (b: Tree)
    ensures b.Leaf? && b.key in Keys(t)
  {
    match t
    case Leaf(_, _) => t
    case Inner(_, p, l, r) => if p.Side(k) then Best(r, k) else Best(l, k)
  }

  lemma {:induction false} KeysHaveLength(t: Tree, n: nat, k: Key)
    requires Ok(t, n) && k in Keys(t)
    ensures |k| == n
  {
    if t.Inner? {
      if k in Keys(t.left) {
        KeysHaveLength(t.left, n, k);
      } else {
        KeysHaveLength(t.right, n, k);
      }
    }
  }

  /** A key is in the tree exactly when the best match is the key itself. */
  lemma {:induction false} BestFinds(t: Tree, n: nat, k: Key)
    requires Ok(t, n)
    ensures k in Keys(t) <==> Best(t, k).key == k
  {
    if t.Inner? {
      BestFinds(t.left, n, k);
      BestFinds(t.right, n, k);
    }
  }

  // ---------- Insertion ----------

  /** The tree with a leaf for k, and an inner node at p above the subtree that p belongs to. */
  function Graft(t: Tree, p: Pos, id: nat, k: Key): Tree {
    if t.Leaf? || p.Before(t.pos) then
      if p.Side(k) then Inner(id, p, t, Leaf(id, k)) else Inner(id, p, Leaf(id, k), t)
    else if t.pos.Side(k) then t.(right := Graft(t.right, p, id, k))
    else t.(left := Graft(t.left, p, id, k))
  }

  lemma {:induction false} GraftKeys(t: Tree, p: Pos, id: nat, k: Key)
    ensures Keys(Graft(t, p, id, k)) == Keys(t) + {k}
    ensures var g := Graft(t, p, id, k); g.Inner? && (g.pos == p || (t.Inner? && g.pos == t.pos))
  {
    if t.Inner? && !p.Before(t.pos) {
      GraftKeys(t.left, p, id, k);
      GraftKeys(t.right, p, id, k);
    }
  }

  /** Where k and the tree's best match for it first differ. */
  ghost predicate Parts(p: Pos, t: Tree, n: nat, k: Key) {
    var b := Best(t, k).key;
    p.Valid(n) && p.Agree(b, k) && p.Side(b) != p.Side(k)
  }

  lemma PosTotal(p: Pos, q: Pos)
    ensures p.Before(q) || p == q || q.Before(p)
  {
  }

  /** An inner node at which k and its best match part is never the place where they differ. */
  lemma {:induction false} BestSides(t: Tree, n: nat, k: Key)
    requires Ok(t, n) && t.Inner?
    ensures t.pos.Side(Best(t, k).key) <==> t.pos.Side(k)
  {
    if t.pos.Side(k) {
      assert Best(t, k) == Best(t.right, k);
    } else {
      assert Best(t, k) == Best(t.left, k);
    }
  }

  /** All keys of a subtree below p relate to k at p as the best match does. */
  lemma Separated(t: Tree, p: Pos, n: nat, k: Key, a: Key)
    requires Ok(t, n) && Parts(p, t, n, k) && (t.Inner? ==> p.Before(t.pos)) && a in Keys(t)
    ensures p.Agree(a, k) && (p.Side(a) != p.Side(k))
  {
    hide Pos.Agree;
    hide Pos.Side;
    var b := Best(t, k).key;
    if t.Inner? {
      AgreeEarlier(p, t.pos, n, a, b);
      AgreeTransitive(p, a, b, k);
    }
  }

  lemma AgreeAmong(p: Pos, keys: set<Key>, k: Key)
    requires p.byte < |k| && forall a :: a in keys ==> p.Agree(a, k)
    ensures forall a, b :: a in keys + {k} && b in keys + {k} ==> p.Agree(a, b)
  {
    hide Pos.Agree;
    AgreeSelf(p, k);
    forall a, b | a in keys + {k} && b in keys + {k} ensures p.Agree(a, b) {
      AgreeSymmetric(p, b, k);
      AgreeTransitive(p, a, k, b);
    }
  }

  lemma GraftHere(t: Tree, p: Pos, n: nat, id: nat, k: Key)
    requires Ok(t, n) && |k| == n && Parts(p, t, n, k) && (t.Inner? ==> p.Before(t.pos))
    ensures Ok(Graft(t, p, id, k), n)
  {
    hide Pos.Agree;
    hide Pos.Side;
    hide Pos.Before;
    forall a | a in Keys(t) ensures p.Agree(a, k) && p.Side(a) != p.Side(k) {
      Separated(t, p, n, k, a);
    }
    AgreeAmong(p, Keys(t), k);
    assert Keys(Leaf(id, k)) == {k};
  }

  lemma AgreesAbove(t: Tree, p: Pos, n: nat, k: Key)
    requires Ok(t, n) && |k| == n && Parts(p, t, n, k) && t.Inner? && t.pos.Before(p)
    ensures forall a, b :: a in Keys(t) + {k} && b in Keys(t) + {k} ==> t.pos.Agree(a, b)
    ensures t.pos.Side(Best(t, k).key) <==> t.pos.Side(k)
  {
    hide Pos.Agree;
    hide Pos.Side;
    hide Pos.Before;
    var b := Best(t, k).key;
    AgreeEarlier(t.pos, p, n, b, k);
    forall a | a in Keys(t) ensures t.pos.Agree(a, k) {
      AgreeTransitive(t.pos, a, b, k);
    }
    AgreeAmong(t.pos, Keys(t), k);
  }

  /** Inserting at the first difference from the best match keeps the crit-bit invariant. */
  lemma {:induction false} GraftOk(t: Tree, p: Pos, n: nat, id: nat, k: Key)
    requires Ok(t, n) && |k| == n && Parts(p, t, n, k)
    ensures Ok(Graft(t, p, id, k), n)
  {
    hide Pos.Agree;
    hide Pos.Side;
    hide Pos.Before;
    hide Pos.Valid;
    if t.Leaf? || p.Before(t.pos) {
      GraftHere(t, p, n, id, k);
    } else {
      BestSides(t, n, k);
      PosTotal(p, t.pos);
      AgreesAbove(t, p, n, k);
      var child := if t.pos.Side(k) then t.right else t.left;
      assert Best(child, k) == Best(t, k);
      GraftOk(child, p, n, id, k);
      GraftKeys(child, p, id, k);
    }
  }

  // ---------- Iteration ----------

  function InOrder(t: Tree): seq<Key> {
    match t
    case Leaf(_, k) => [k]
    case Inner(_, _, l, r) => InOrder(l) + InOrder(r)
  }

  ghost predicate Ascending(s: seq<Key>) {
    forall i, j :: 0 <= i < j < |s| ==> Less(s[i], s[j])
  }

  lemma {:induction false} InOrderKeys(t: Tree, k: Key)
    ensures k in InOrder(t) <==> k in Keys(t)
  {
    if t.Inner? {
      InOrderKeys(t.left, k);
      InOrderKeys(t.right, k);
    }
  }

  /** Left to right is ascending byte order, each key once. */
  lemma {:induction false} InOrderAscending(t: Tree, n: nat)
    requires Ok(t, n)
    ensures Ascending(InOrder(t))
  {
    hide Pos.Agree;
    hide Pos.Side;
    hide Less;
    if t.Inner? {
      InOrderAscending(t.left, n);
      InOrderAscending(t.right, n);
      var a, b := InOrder(t.left), InOrder(t.right);
      forall i, j | 0 <= i < |a| && 0 <= j < |b| ensures Less(a[i], b[j]) {
        InOrderKeys(t.left, a[i]);
        InOrderKeys(t.right, b[j]);
        SideOrder(t.pos, n, a[i], b[j]);
      }
    }
  }

  /** The subtree cb_each iterates over: as deep as the prefix's own bytes decide. */
  function Top(t: Tree, prefix: Key): Tree {
    if t.Leaf? || |prefix| <= t.pos.byte then t
    else if t.pos.Side(prefix) then Top(t.right, prefix)
    else Top(t.left, prefix)
  }

  predicate HasPrefix(k: Key, prefix: Key) {
    |prefix| <= |k| && k[..|prefix|] == prefix
  }

  lemma {:induction false} TopOk(t: Tree, n: nat, prefix: Key)
    requires Ok(t, n)
    ensures Ok(Top(t, prefix), n) && Keys(Top(t, prefix)) <= Keys(t)
    ensures Top(t, prefix).Inner? ==> |prefix| <= Top(t, prefix).pos.byte
  {
    if t.Inner? && t.pos.byte < |prefix| {
      TopOk(t.left, n, prefix);
      TopOk(t.right, n, prefix);
    }
  }

  lemma PrefixSide(p: Pos, prefix: Key, k: Key)
    requires p.byte < |prefix| && HasPrefix(k, prefix)
    ensures p.Side(prefix) <==> p.Side(k)
  {
    assert k[p.byte] == k[..|prefix|][p.byte];
  }

  /** Every key with the prefix is below the top. */
  lemma {:induction false} TopHasAll(t: Tree, n: nat, prefix: Key, k: Key)
    requires Ok(t, n) && k in Keys(t) && HasPrefix(k, prefix)
    ensures k in Keys(Top(t, prefix))
  {
    hide Pos.Side;
    hide Pos.Agree;
    hide HasPrefix;
    if t.Inner? && t.pos.byte < |prefix| {
      PrefixSide(t.pos, prefix, k);
      if t.pos.Side(prefix) {
        TopHasAll(t.right, n, prefix, k);
      } else {
        TopHasAll(t.left, n, prefix, k);
      }
    }
  }

  /** The keys below the top have the prefix all together or none does. */
  lemma TopTogether(t: Tree, n: nat, prefix: Key, k: Key, l: Key)
    requires Ok(t, n) && k in Keys(Top(t, prefix)) && l in Keys(Top(t, prefix))
    ensures HasPrefix(k, prefix) <==> HasPrefix(l, prefix)
  {
    hide SameAbove;
    TopOk(t, n, prefix);
    var top := Top(t, prefix);
    if top.Inner? {
      assert top.pos.Agree(k, l);
      SamePrefix(k, l, |prefix|, top.pos.byte);
    }
  }

  lemma SamePrefix<T>(k: seq<T>, l: seq<T>, i: nat, j: nat)
    requires i <= j <= |k| && j <= |l| && k[..j] == l[..j]
    ensures k[..i] == l[..i]
  {
    assert k[..i] == k[..j][..i] && l[..i] == l[..j][..i];
  }

  /** The walk of cb_each below the top goes left, as the best match for the prefix alone does. */
  lemma {:induction false} BestBelowTop(t: Tree, prefix: Key)
    ensures Best(t, prefix) == Best(Top(t, prefix), prefix)
  {
    if t.Inner? && t.pos.byte < |prefix| {
      BestBelowTop(t.left, prefix);
      BestBelowTop(t.right, prefix);
    }
  }

  /** The keys with a prefix, ascending; what cb_each visits if nothing stops it. */
  ghost predicate IsPrefixList(t: Tree, prefix: Key, visited: seq<Key>) {
    Ascending(visited) && forall k :: k in visited <==> k in Keys(t) && HasPrefix(k, prefix)
  }

  lemma TopListsPrefix(t: Tree, n: nat, prefix: Key)
    requires Ok(t, n)
    ensures var found := HasPrefix(Best(t, prefix).key, prefix);
            IsPrefixList(t, prefix, if found then InOrder(Top(t, prefix)) else [])
  {
    var top, b := Top(t, prefix), Best(t, prefix).key;
    TopOk(t, n, prefix);
    BestBelowTop(t, prefix);
    InOrderAscending(top, n);
    forall k ensures k in InOrder(top) <==> k in Keys(top) {
      InOrderKeys(top, k);
    }
    forall k | k in Keys(top) ensures HasPrefix(k, prefix) <==> HasPrefix(b, prefix) {
      TopTogether(t, n, prefix, k, b);
    }
    forall k | k in Keys(t) && HasPrefix(k, prefix) ensures k in Keys(top) {
      TopHasAll(t, n, prefix, k);
    }
  }

  // ---------- Memory ----------

  /** The direction taken at an inner node; past the end of the key its byte reads as 0. */
  function Goes(k: Key, byte: nat, bits: bv8): (right: bool)
    requires OneBitClear(bits)
    ensures right <==> Pos(byte, bits).Side(k)
  {
    var c := if byte < |k| then k[byte] else 0;
    DirectionIsBit(bits, c);
    Direction(bits, c) == 1
  }

  /** A pointer: to a node as a leaf, or tagged, to a node as an inner node. */
  datatype Ptr = Null | External(id: nat) | Internal(id: nat)

  datatype Node = Node(key: Key, byte: nat, bits: bv8, child0: Ptr, child1: Ptr) {
    function Child(right: bool): Ptr {
      if right then child1 else child0
    }

    function WithChild(right: bool, p: Ptr): Node {
      if right then this.(child1 := p) else this.(child0 := p)
    }
  }

  type Memory = map<nat, Node>

  /** The pointer leads to a tree of this shape. */
  ghost predicate Reflects(mem: Memory, ptr: Ptr, t: Tree)
    decreases t
  {
    match t
    case Leaf(id, k) => ptr == External(id) && id in mem && mem[id].key == k
    case Inner(id, pos, l, r) =>
      && ptr == Internal(id) && id in mem && Pos(mem[id].byte, mem[id].bits) == pos
      && Reflects(mem, mem[id].child0, l) && Reflects(mem, mem[id].child1, r)
  }

  function Inners(t: Tree): set<nat> {
    match t
    case Leaf(_, _) => {}
    case Inner(id, _, l, r) => {id} + Inners(l) + Inners(r)
  }

  function Leaves(t: Tree): set<nat> {
    match t
    case Leaf(id, _) => {id}
    case Inner(_, _, l, r) => Leaves(l) + Leaves(r)
  }

  /** No node is an inner node twice. */
  ghost predicate Once(t: Tree) {
    t.Inner? ==>
      && t.id !in Inners(t.left) && t.id !in Inners(t.right) && Inners(t.left) !! Inners(t.right)
      && Once(t.left) && Once(t.right)
  }

  lemma {:induction false} ReflectsStill(mem: Memory, after: Memory, ptr: Ptr, t: Tree)
    requires Reflects(mem, ptr, t)
    requires forall i :: i in Inners(t) && i in mem ==> i in after && after[i] == mem[i]
    requires forall i :: i in Leaves(t) && i in mem ==> i in after && after[i].key == mem[i].key
    ensures Reflects(after, ptr, t)
    decreases t
  {
    if t.Inner? {
      ReflectsStill(mem, after, mem[t.id].child0, t.left);
      ReflectsStill(mem, after, mem[t.id].child1, t.right);
    }
  }

  /** The search for the place of insertion stops here. */
  predicate StopsAt(t: Tree, p: Pos) {
    t.Leaf? || p.Before(t.pos)
  }

  /** Where *wherep is when the search stops: a child of an inner node, unless it stops at once. */
  datatype Slot = Root | ChildOf(id: nat, right: bool)

  function Where(t: Tree, p: Pos, k: Key, here: Slot): Slot {
    if StopsAt(t, p) then here
    else if t.pos.Side(k) then Where(t.right, p, k, ChildOf(t.id, true))
    else Where(t.left, p, k, ChildOf(t.id, false))
  }

  function At(mem: Memory, root: Ptr, slot: Slot): Ptr {
    match slot
    case Root => root
    case ChildOf(id, right) => if id in mem then mem[id].Child(right) else Null
  }

  lemma {:induction false} WhereIsInside(t: Tree, p: Pos, k: Key, here: Slot)
    ensures var slot := Where(t, p, k, here);
            if StopsAt(t, p) then slot == here else slot.ChildOf? && slot.id in Inners(t)
  {
    if !StopsAt(t, p) {
      if t.pos.Side(k) {
        WhereIsInside(t.right, p, k, ChildOf(t.id, true));
      } else {
        WhereIsInside(t.left, p, k, ChildOf(t.id, false));
      }
    }
  }

  /** The node made inner at p above the tree the pointer leads to. */
  function Joined(k: Key, id: nat, p: Pos, below: Ptr): Node {
    if p.Side(k) then Node(k, p.byte, p.bits, below, External(id)) else Node(k, p.byte, p.bits, External(id), below)
  }

  /** Memory after the writes of cb_insert; a write of the root is not in it. */
  function Written(mem: Memory, id: nat, joined: Node, slot: Slot): Memory {
    var m := mem[id := joined];
    match slot
    case Root => m
    case ChildOf(q, right) => if q in m then m[q := m[q].WithChild(right, Internal(id))] else m
  }

  /** The writes change the new node, one child of the node the slot is in, and nothing else. */
  lemma WrittenAt(mem: Memory, id: nat, joined: Node, slot: Slot, i: nat)
    requires i in mem && i != id
    ensures var after := Written(mem, id, joined, slot);
            && i in after && after[i].key == mem[i].key
            && (slot.Root? || slot.id != i ==> after[i] == mem[i])
            && (slot.ChildOf? && slot.id == i ==> after[i] == mem[i].WithChild(slot.right, Internal(id)))
  {
  }

  lemma WrittenNew(mem: Memory, id: nat, joined: Node, slot: Slot)
    requires slot.ChildOf? ==> slot.id != id
    ensures id in Written(mem, id, joined, slot) && Written(mem, id, joined, slot)[id] == joined
  {
  }

  /** A subtree that has neither the new node nor the slot in it is as it was. */
  lemma ReflectsApart(mem: Memory, id: nat, joined: Node, slot: Slot, ptr: Ptr, t: Tree)
    requires Reflects(mem, ptr, t) && id !in Inners(t) && id !in Leaves(t)
    requires slot.ChildOf? ==> slot.id !in Inners(t)
    ensures Reflects(Written(mem, id, joined, slot), ptr, t)
  {
    hide Written;
    var after := Written(mem, id, joined, slot);
    forall i | i in mem && i != id
      ensures i in after && after[i].key == mem[i].key && (slot.Root? || slot.id != i ==> after[i] == mem[i])
    {
      WrittenAt(mem, id, joined, slot, i);
    }
    ReflectsStill(mem, after, ptr, t);
  }

  lemma ReflectsInner(mem: Memory, id: nat, p: Pos, left: Tree, right: Tree)
    requires id in mem && mem[id].byte == p.byte && mem[id].bits == p.bits
    requires Reflects(mem, mem[id].child0, left) && Reflects(mem, mem[id].child1, right)
    ensures Reflects(mem, Internal(id), Inner(id, p, left, right))
  {
  }

  lemma ReflectsJoined(mem: Memory, ptr: Ptr, t: Tree, p: Pos, id: nat, k: Key, slot: Slot)
    requires Reflects(mem, ptr, t) && id !in Inners(t) && id !in Leaves(t)
    requires slot.ChildOf? ==> slot.id !in Inners(t) && slot.id != id
    requires StopsAt(t, p)
    ensures Reflects(Written(mem, id, Joined(k, id, p, ptr), slot), Internal(id), Graft(t, p, id, k))
  {
    hide Pos.Side;
    hide Pos.Before;
    hide Written;
    var joined := Joined(k, id, p, ptr);
    var leaf := Leaf(id, k);
    assert Graft(t, p, id, k) == if p.Side(k) then Inner(id, p, t, leaf) else Inner(id, p, leaf, t);
    hide Graft;
    ReflectsApart(mem, id, joined, slot, ptr, t);
    WrittenNew(mem, id, joined, slot);
    var after := Written(mem, id, joined, slot);
    assert Reflects(after, External(id), leaf);
    if p.Side(k) {
      ReflectsInner(after, id, p, t, leaf);
    } else {
      ReflectsInner(after, id, p, leaf, t);
    }
  }

  /** The writes of cb_insert make the shape that grafting describes. */
  lemma {:induction false} GraftReflects(mem: Memory, ptr: Ptr, t: Tree, p: Pos, id: nat, k: Key, here: Slot,
                                         below: Ptr)
    requires Reflects(mem, ptr, t) && Once(t) && id !in Inners(t) && id !in Leaves(t)
    requires here.ChildOf? ==> here.id !in Inners(t) && here.id != id
    requires below == if StopsAt(t, p) then ptr else At(mem, Null, Where(t, p, k, here))
    ensures var after := Written(mem, id, Joined(k, id, p, below), Where(t, p, k, here));
            Reflects(after, if StopsAt(t, p) then Internal(id) else ptr, Graft(t, p, id, k))
    decreases t
  {
    hide Pos.Side;
    hide Pos.Before;
    hide Written;
    hide Joined;
    if StopsAt(t, p) {
      ReflectsJoined(mem, ptr, t, p, id, k, here);
    } else {
      var joined, slot := Joined(k, id, p, below), Where(t, p, k, here);
      var right := t.pos.Side(k);
      var child, other := if right then t.right else t.left, if right then t.left else t.right;
      var down := ChildOf(t.id, right);
      WhereIsInside(child, p, k, down);
      GraftReflects(mem, mem[t.id].Child(right), child, p, id, k, down, below);
      ReflectsApart(mem, id, joined, slot, mem[t.id].Child(!right), other);
      WrittenAt(mem, id, joined, slot, t.id);
    }
  }

  /** The new node as cb_insert fills it in is the one that joins it with the subtree below. */
  lemma WrittenIs(mem: Memory, id: nat, k: Key, p: Pos, newdirection: bool, below: Ptr, slot: Slot)
    requires id in mem && mem[id].key == k && mem[id].byte == p.byte && mem[id].bits == p.bits
    requires mem[id].Child(!newdirection) == External(id) && newdirection != p.Side(k)
    requires slot.ChildOf? ==> slot.id in mem && slot.id != id
    ensures var m := mem[id := mem[id].WithChild(newdirection, below)];
            Written(mem, id, Joined(k, id, p, below), slot) ==
            if slot.Root? then m else m[slot.id := m[slot.id].WithChild(slot.right, Internal(id))]
  {
    hide Pos.Side;
    assert mem[id].WithChild(newdirection, below) == Joined(k, id, p, below);
  }

  lemma {:induction false} InnersInMemory(mem: Memory, ptr: Ptr, t: Tree, id: nat)
    requires Reflects(mem, ptr, t) && id in Inners(t)
    ensures id in mem
    decreases t
  {
    if t.Inner? && id != t.id {
      if id in Inners(t.left) {
        InnersInMemory(mem, mem[t.id].child0, t.left, id);
      } else {
        InnersInMemory(mem, mem[t.id].child1, t.right, id);
      }
    }
  }

  /** Every inner node is a leaf of the tree too. */
  lemma {:induction false} GraftIds(t: Tree, p: Pos, id: nat, k: Key)
    requires Once(t) && id !in Inners(t)
    ensures var g := Graft(t, p, id, k);
            Once(g) && Inners(g) == Inners(t) + {id} && Leaves(g) == Leaves(t) + {id}
  {
    hide Pos.Side;
    hide Pos.Before;
    if !StopsAt(t, p) {
      GraftIds(if t.pos.Side(k) then t.right else t.left, p, id, k);
    }
  }

  lemma {:induction false} LeafHasKey(mem: Memory, ptr: Ptr, t: Tree, id: nat)
    requires Reflects(mem, ptr, t) && id in Leaves(t)
    ensures id in mem && mem[id].key in Keys(t)
    decreases t
  {
    if t.Inner? {
      if id in Leaves(t.left) {
        LeafHasKey(mem, mem[t.id].child0, t.left, id);
      } else {
        LeafHasKey(mem, mem[t.id].child1, t.right, id);
      }
    }
  }

  lemma {:induction false} BestIsLeaf(t: Tree, k: Key)
    ensures Best(t, k).id in Leaves(t)
  {
    if t.Inner? {
      BestIsLeaf(t.left, k);
      BestIsLeaf(t.right, k);
    }
  }

  /** What a callback sees: a list up to and including the first element at which it says stop. */
  ghost predicate Visits(all: seq<Key>, stop: seq<Key> -> bool, visited: seq<Key>) {
    && visited <= all
    && (forall i :: 0 < i < |visited| ==> !stop(visited[..i]))
    && (visited == all || (visited != [] && stop(visited)))
  }

  lemma VisitsJoin(seen: seq<Key>, a: seq<Key>, first: seq<Key>, b: seq<Key>, visited: seq<Key>)
    requires first == seen + a && first <= visited && visited[|first|..] <= b
    ensures seen <= visited && visited[|seen|..] <= a + b && visited[..|first|] == first
    ensures visited == first + b ==> visited == seen + (a + b)
  {
    assert visited[|seen|..] == a + visited[|first|..];
  }

  datatype Shape = Empty | Filled(tree: Tree)

  class CbTree {
    const n: nat
    var root: Ptr
    var mem: Memory
    ghost var shape: Shape

    ghost predicate Valid()
      reads this
    {
      match shape
      case Empty => root == Null
      case Filled(t) => Reflects(mem, root, t) && Ok(t, n) && Once(t) && Inners(t) <= Leaves(t)
    }

    ghost function Contents(): set<Key>
      reads this
    {
      if shape.Empty? then {} else Keys(shape.tree)
    }

    /** Addresses of the nodes inserted */
    ghost function Nodes(): set<nat>
      reads this
    {
      if shape.Empty? then {} else Leaves(shape.tree)
    }

    constructor (n: nat, mem: Memory)
      ensures Valid() && Contents() == {} && this.n == n && this.mem == mem
    {
      this.n := n;
      this.mem := mem;
      root := Null;
      shape := Empty;
    }

    method BestMatch(start: Ptr, k: Key, ghost t: Tree) returns (p: Ptr)
      requires Reflects(mem, start, t) && Ok(t, n)
      ensures p == External(Best(t, k).id)
      ensures p.id in mem && mem[p.id].key == Best(t, k).key
    {
      hide Pos.Side;
      hide Pos.Agree;
      hide Pos.Before;
      p := start;
      ghost var cur := t;
      while p.Internal?
        invariant Reflects(mem, p, cur) && Ok(cur, n) && Best(cur, k) == Best(t, k)
        decreases cur
      {
        var right := Goes(k, mem[p.id].byte, mem[p.id].bits);
        p := mem[p.id].Child(right);
        cur := if right then cur.right else cur.left;
      }
    }

    /** The null root has no match. */
    method Lookup(k: Key) returns (p: Ptr)
      requires Valid() && |k| <= n
      ensures p != Null ==> p.External? && p.id in Nodes() && p.id in mem && HasPrefix(mem[p.id].key, k)
      ensures p == Null ==> forall l :: l in Contents() ==> !HasPrefix(l, k)
    {
      hide Ok;
      hide Once;
      hide HasPrefix;
      if root == Null {
        return Null;
      }
      p := BestMatch(root, k, shape.tree);
      BestIsLeaf(shape.tree, k);
      TopListsPrefix(shape.tree, n, k);
      if !HasPrefix(mem[p.id].key, k) {
        p := Null;
      }
    }

    /** The first byte in which a key differs from its best match, and the critical bit in it. */
    method FirstDifferent(b: Key, k: Key) returns (same: bool, p: Pos)
      requires |b| == |k|
      ensures same <==> b == k
      ensures !same ==> p.Valid(|k|) && p.Agree(b, k) && p.Side(b) != p.Side(k)
    {
      var newbyte := 0;
      while newbyte < |k|
        invariant newbyte <= |k| && b[..newbyte] == k[..newbyte]
      {
        if b[newbyte] != k[newbyte] {
          p := Pos(newbyte, NewOtherbits(b[newbyte], k[newbyte]));
          NewOtherbitsIsFirstDifference(b[newbyte], k[newbyte]);
          return false, p;
        }
        newbyte := newbyte + 1;
      }
      return true, Pos(0, 0);
    }

    /** The slot that *wherep ends up being */
    method FindPlace(p: Pos, k: Key, ghost t: Tree) returns (slot: Slot)
      requires Reflects(mem, root, t) && Ok(t, n)
      ensures slot == Where(t, p, k, Root)
    {
      hide Pos.Side;
      hide Pos.Agree;
      hide Pos.Before;
      slot := Root;
      ghost var cur := t;
      while true
        invariant Reflects(mem, At(mem, root, slot), cur) && Ok(cur, n)
        invariant Where(cur, p, k, slot) == Where(t, p, k, Root)
        decreases cur
      {
        var q := At(mem, root, slot);
        if !q.Internal? || p.Before(Pos(mem[q.id].byte, mem[q.id].bits)) {
          return;
        }
        var right := Goes(k, mem[q.id].byte, mem[q.id].bits);
        slot := ChildOf(q.id, right);
        cur := if right then cur.right else cur.left;
      }
    }

    /** Null if the node was inserted, the node with the same key if there is one. */
    method Insert(id: nat) returns (existing: Ptr)
      requires Valid() && id in mem && |mem[id].key| == n
      modifies this
      ensures Valid()
      ensures mem.Keys == old(mem.Keys) && forall i :: i in mem ==> mem[i].key == old(mem)[i].key
      ensures Contents() == old(Contents()) + {mem[id].key}
      ensures existing == Null <==> mem[id].key !in old(Contents())
      ensures existing == Null ==> Nodes() == old(Nodes()) + {id}
      ensures existing != Null ==>
        && existing.External? && existing.id in Nodes() && existing.id in mem && mem[existing.id].key == mem[id].key
        && unchanged(this)
    {
      hide Pos.Side;
      hide Pos.Agree;
      hide Pos.Before;
      var k := mem[id].key;
      if root == Null {
        root := External(id);
        shape := Filled(Leaf(id, k));
        return Null;
      }
      ghost var t := shape.tree;
      var b := BestMatch(root, k, t);
      BestFinds(t, n, k);
      BestIsLeaf(t, k);
      KeysHaveLength(t, n, Best(t, k).key);
      var same, p := FirstDifferent(mem[b.id].key, k);
      if same {
        return b;
      }
      if id in Leaves(t) {
        LeafHasKey(mem, root, t, id);
        assert false;
      }
      var newdirection := Goes(mem[b.id].key, p.byte, p.bits);
      Join(id, p, newdirection, t);
      GraftOk(t, p, n, id, k);
      GraftKeys(t, p, id, k);
      GraftIds(t, p, id, k);
      shape := Filled(Graft(t, p, id, k));
      return Null;
    }

    /** The writes of an insertion: the other child of the new node is what was at the slot. */
    method Join(id: nat, p: Pos, newdirection: bool, ghost t: Tree)
      requires Reflects(mem, root, t) && Ok(t, n) && Once(t) && id in mem && id !in Inners(t) && id !in Leaves(t)
      requires newdirection != p.Side(mem[id].key)
      modifies this`root, this`mem
      ensures mem.Keys == old(mem.Keys) && forall i :: i in mem ==> mem[i].key == old(mem)[i].key
      ensures Reflects(mem, root, Graft(t, p, id, mem[id].key))
    {
      hide Pos.Side;
      hide Pos.Before;
      hide Reflects;
      hide Ok;
      hide Once;
      hide Graft;
      hide Where;
      hide Inners;
      hide Leaves;
      hide Joined;
      hide Written;
      ghost var before := mem;
      var k := mem[id].key;
      var node := mem[id].(byte := p.byte, bits := p.bits).WithChild(!newdirection, External(id));
      mem := mem[id := node];
      ReflectsStill(before, mem, root, t);
      var slot := FindPlace(p, k, t);
      WhereIsInside(t, p, k, Root);
      if slot.ChildOf? {
        InnersInMemory(mem, root, t, slot.id);
      }
      ghost var marked := mem;
      var below := At(mem, root, slot);
      GraftReflects(marked, root, t, p, id, k, Root, below);
      WrittenIs(marked, id, k, p, newdirection, below, slot);
      mem := mem[id := node.WithChild(newdirection, below)];
      if slot.Root? {
        root := Internal(id);
      } else {
        mem := mem[slot.id := mem[slot.id].WithChild(slot.right, Internal(id))];
      }
    }

    /** Calls the callback on the leaves from left to right until it says to stop. */
    method Descend(p: Ptr, stop: seq<Key> -> bool, seen: seq<Key>, ghost t: Tree)
      returns (visited: seq<Key>, stopped: bool)
      requires Reflects(mem, p, t)
      ensures seen <= visited && visited[|seen|..] <= InOrder(t) && |seen| < |visited|
      ensures forall i :: |seen| < i < |visited| ==> !stop(visited[..i])
      ensures stopped == stop(visited)
      ensures !stopped ==> visited == seen + InOrder(t)
      decreases t
    {
      if p.Internal? {
        visited, stopped := Descend(mem[p.id].child0, stop, seen, t.left);
        if !stopped {
          var first := visited;
          visited, stopped := Descend(mem[p.id].child1, stop, first, t.right);
          VisitsJoin(seen, InOrder(t.left), first, InOrder(t.right), visited);
          forall i | |seen| < i <= |first| ensures !stop(visited[..i]) {
            assert visited[..i] == first[..i];
          }
        }
      } else {
        visited := seen + [mem[p.id].key];
        stopped := stop(visited);
      }
    }

    /** The keys that have the prefix, in ascending order */
    ghost function With(prefix: Key): seq<Key>
      reads this
    {
      if shape.Filled? && HasPrefix(Best(shape.tree, prefix).key, prefix) then InOrder(Top(shape.tree, prefix)) else []
    }

    /** Visits the keys that have the prefix, ascending, each once, until the callback stops it. */
    method Each(prefix: Key, stop: seq<Key> -> bool) returns (visited: seq<Key>)
      requires Valid() && |prefix| <= n
      ensures Ascending(With(prefix)) && forall k :: k in With(prefix) <==> k in Contents() && HasPrefix(k, prefix)
      ensures Visits(With(prefix), stop, visited)
    {
      hide Pos.Side;
      hide Pos.Agree;
      if root == Null {
        return [];
      }
      ghost var t := shape.tree;
      var p, top := root, root;
      ghost var cur, above := t, t;
      while p.Internal?
        invariant Reflects(mem, p, cur) && Ok(cur, n) && Best(cur, prefix) == Best(t, prefix)
        invariant Reflects(mem, top, above) && Top(above, prefix) == Top(t, prefix)
        invariant cur == above || (above.Inner? && |prefix| <= above.pos.byte
                                   && (cur.Inner? ==> |prefix| <= cur.pos.byte))
        decreases cur
      {
        var q := mem[p.id];
        var right := Goes(prefix, q.byte, q.bits);
        p := q.Child(right);
        cur := if right then cur.right else cur.left;
        if q.byte < |prefix| {
          top := p;
          above := cur;
        }
      }
      TopListsPrefix(t, n, prefix);
      if !HasPrefix(mem[p.id].key, prefix) {
        return [];
      }
      var stopped;
      visited, stopped := Descend(top, stop, [], above);
    }
  }
}
