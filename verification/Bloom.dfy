/** Changed-path Bloom filters (bloom.c) */
module Bloom {

  type Path = seq<bv8>

  // ---------- Hashing ----------

  function RotateLeft(value: bv32, count: nat): bv32
    requires 0 < count < 32
  {
    (value << count) | (value >> (32 - count))
  }

  /** A byte as the hash reads it: version 1 takes it as signed. */
  function Widen(version: nat, b: bv8): bv32 {
    if version != 2 && b >= 0x80 then 0xFFFF_FF00 | (b as bv32) else b as bv32
  }

  function Scramble(k: bv32): bv32 {
    RotateLeft(k * 0xCC9E_2D51, 15) * 0x1B87_3593
  }

  function Four(w: seq<bv32>, i: nat): bv32
    requires i + 4 <= |w|
  {
    w[i] | (w[i + 1] << 8) | (w[i + 2] << 16) | (w[i + 3] << 24)
  }

  function Blend(seed: bv32, k: bv32): bv32 {
    RotateLeft(seed ^ Scramble(k), 13) * 5 + 0xE654_6B64
  }

  /** The seed after n groups of four */
  function Blocks(seed: bv32, w: seq<bv32>, n: nat): bv32
    requires 4 * n <= |w|
  {
    if n == 0 then seed else Blend(Blocks(seed, w, n - 1), Four(w, 4 * (n - 1)))
  }

  function Tail(w: seq<bv32>, at: nat): bv32
    requires at <= |w| < at + 4
  {
    var k2 := if |w| > at + 2 then 0 ^ (w[at + 2] << 16) else 0;
    var k1 := if |w| > at + 1 then k2 ^ (w[at + 1] << 8) else k2;
    if |w| > at then k1 ^ w[at] else k1
  }

  function Finish(seed: bv32, len: bv32): bv32 {
    var s0 := seed ^ len;
    var s1 := (s0 ^ (s0 >> 16)) * 0x85EB_CA6B;
    var s2 := (s1 ^ (s1 >> 13)) * 0xC2B2_AE35;
    s2 ^ (s2 >> 16)
  }

  function Length32(n: nat): bv32 {
    (n % 0x1_0000_0000) as bv32
  }

  function Widened(version: nat, data: Path): (w: seq<bv32>)
    ensures |w| == |data|
  {
    seq(|data|, i requires 0 <= i < |data| => Widen(version, data[i]))
  }

  function Hash(version: nat, seed: bv32, data: Path): bv32 {
    var w, n := Widened(version, data), |data| / 4;
    var s := Blocks(seed, w, n);
    Finish(if |data| % 4 == 0 then s else s ^ Scramble(Tail(w, 4 * n)), Length32(|data|))
  }

  predicate Ascii(data: Path) {
    forall i :: 0 <= i < |data| ==> data[i] < 0x80
  }

  /** The two variants of the hash agree where no byte has its high bit set. */
  lemma VersionsAgree(seed: bv32, data: Path, version: nat, other: nat)
    requires Ascii(data)
    ensures Hash(version, seed, data) == Hash(other, seed, data)
  {
    hide Finish;
    hide Scramble;
    hide Blocks;
    hide Tail;
    hide Length32;
    assert Widened(version, data) == Widened(other, data);
  }

  method Murmur3(version: nat, seed0: bv32, data: Path) returns (seed: bv32)
    ensures seed == Hash(version, seed0, data)
  {
    hide Scramble;
    hide Blend;
    hide Finish;
    hide Four;
    hide Tail;
    seed := seed0;
    ghost var w := Widened(version, data);
    var len4 := |data| / 4;
    var i := 0;
    while i < len4
      invariant i <= len4 && seed == Blocks(seed0, w, i)
    {
      var k := Word(version, data, 4 * i);
      seed := Blend(seed, k);
      i := i + 1;
    }
    if |data| % 4 != 0 {
      var k1 := TailOf(version, data, 4 * len4);
      seed := seed ^ Scramble(k1);
    }
    seed := Finish(seed, Length32(|data|));
  }

  /** Four bytes as one word */
  method Word(version: nat, data: Path, at: nat) returns (k: bv32)
    requires at + 4 <= |data|
    ensures k == Four(Widened(version, data), at)
  {
    var byte1, byte2 := Widen(version, data[at]), Widen(version, data[at + 1]) << 8;
    var byte3, byte4 := Widen(version, data[at + 2]) << 16, Widen(version, data[at + 3]) << 24;
    k := byte1 | byte2 | byte3 | byte4;
  }

  method TailOf(version: nat, data: Path, at: nat) returns (k1: bv32)
    requires at <= |data| < at + 4
    ensures k1 == Tail(Widened(version, data), at)
  {
    hide Widen;
    k1 := 0;
    if |data| > at + 2 {
      k1 := k1 ^ (Widen(version, data[at + 2]) << 16);
    }
    if |data| > at + 1 {
      k1 := k1 ^ (Widen(version, data[at + 1]) << 8);
    }
    if |data| > at {
      k1 := k1 ^ Widen(version, data[at]);
    }
  }

  // ---------- Keys and filters ----------

  const BITS_PER_WORD := 8
  const SEED0: bv32 := 0x293A_E76F
  const SEED1: bv32 := 0x7E64_6E2C

  datatype Settings = Settings(hashVersion: nat, numHashes: nat, bitsPerEntry: nat, maxChangedPaths: nat)

  function KeyHash(h0: bv32, h1: bv32, i: nat): bv32 {
    h0 + Length32(i) * h1
  }

  function Key(settings: Settings, path: Path): (key: seq<bv32>)
    ensures |key| == settings.numHashes
  {
    var h0, h1 := Hash(settings.hashVersion, SEED0, path), Hash(settings.hashVersion, SEED1, path);
    seq(settings.numHashes, i requires 0 <= i < settings.numHashes => KeyHash(h0, h1, i))
  }

  method KeyFill(settings: Settings, path: Path) returns (hashes: seq<bv32>)
    ensures hashes == Key(settings, path)
  {
    hide Hash;
    hide KeyHash;
    var hash0 := Murmur3(settings.hashVersion, SEED0, path);
    var hash1 := Murmur3(settings.hashVersion, SEED1, path);
    hashes := [];
    while |hashes| < settings.numHashes
      invariant |hashes| <= settings.numHashes
      invariant forall k :: 0 <= k < |hashes| ==> hashes[k] == KeyHash(hash0, hash1, k)
    {
      hashes := hashes + [KeyHash(hash0, hash1, |hashes|)];
    }
  }

  function AsNumber(h: bv32): nat {
    h as nat
  }

  function Remainder(n: nat, m: nat): (r: nat)
    requires m > 0
    ensures r < m
  {
    n % m
  }

  /** The bit of a filter that a hash stands for */
  function BitOf(h: bv32, words: nat): (bit: nat)
    requires words > 0
    ensures bit < words * BITS_PER_WORD
  {
    Remainder(AsNumber(h), words * BITS_PER_WORD)
  }

  function WordOf(h: bv32, words: nat): (word: nat)
    requires words > 0
    ensures word < words
  {
    BitOf(h, words) / BITS_PER_WORD
  }

  function Mask(bit: nat): bv8 {
    1 << (bit % 8)
  }

  function MaskOf(h: bv32, words: nat): bv8
    requires words > 0
  {
    Mask(BitOf(h, words))
  }

  predicate On(word: bv8, mask: bv8) {
    word & mask != 0
  }

  function Set(word: bv8, mask: bv8): bv8 {
    word | mask
  }

  predicate Has(data: seq<bv8>, h: bv32) {
    |data| > 0 && On(data[WordOf(h, |data|)], MaskOf(h, |data|))
  }

  predicate HasKey(data: seq<bv8>, key: seq<bv32>) {
    forall i :: 0 <= i < |key| ==> Has(data, key[i])
  }

  lemma MaskSets(x: bv8, bit: nat)
    ensures On(Set(x, Mask(bit)), Mask(bit))
  {
    var k := bit % 8;
    assert k == 0 || k == 1 || k == 2 || k == 3 || k == 4 || k == 5 || k == 6 || k == 7;
  }

  lemma SetKeeps(x: bv8, y: bv8, m: bv8)
    requires On(x, m)
    ensures On(Set(x, y), m)
  {
  }

  function With(data: seq<bv8>, h: bv32): (after: seq<bv8>)
    requires |data| > 0
    ensures |after| == |data|
  {
    data[WordOf(h, |data|) := Set(data[WordOf(h, |data|)], MaskOf(h, |data|))]
  }

  /** Setting a bit keeps the others. */
  lemma WithHas(data: seq<bv8>, h: bv32, g: bv32)
    requires |data| > 0
    ensures Has(With(data, h), h) && (Has(data, g) ==> Has(With(data, h), g))
  {
    hide WordOf;
    hide On;
    hide Set;
    hide Mask;
    hide BitOf;
    MaskSets(data[WordOf(h, |data|)], BitOf(h, |data|));
    if Has(data, g) {
      SetKeeps(data[WordOf(g, |data|)], MaskOf(h, |data|), MaskOf(g, |data|));
    }
  }

  /** The bit is set in the filter's words. */
  predicate BitSet(data: seq<bv8>, bit: nat) {
    bit < |data| * BITS_PER_WORD && On(data[bit / BITS_PER_WORD], Mask(bit))
  }

  predicate InKey(key: seq<bv32>, words: nat, bit: nat)
    requires words > 0
  {
    exists i :: 0 <= i < |key| && BitOf(key[i], words) == bit
  }

  lemma MaskIs(bit: nat)
    ensures Mask(bit) == match bit % 8 case 0 => 1 case 1 => 2 case 2 => 4 case 3 => 8 case 4 => 16 case 5 => 32
            case 6 => 64 case _ => 128
  {
    var k := bit % 8;
    assert k == 0 || k == 1 || k == 2 || k == 3 || k == 4 || k == 5 || k == 6 || k == 7;
  }

  predicate OneBit(m: bv8) {
    m == 1 || m == 2 || m == 4 || m == 8 || m == 16 || m == 32 || m == 64 || m == 128
  }

  lemma MasksDiffer(bit: nat, other: nat)
    ensures OneBit(Mask(bit)) && (Mask(bit) == Mask(other) <==> bit % 8 == other % 8)
  {
    hide Mask;
    MaskIs(bit);
    MaskIs(other);
  }

  lemma SetOnly(x: bv8, m: bv8, n: bv8)
    requires OneBit(m) && OneBit(n)
    ensures On(Set(x, m), n) <==> On(x, n) || m == n
  {
  }

  lemma InKeyNext(key: seq<bv32>, i: nat, words: nat, bit: nat)
    requires i < |key| && words > 0
    ensures InKey(key[..i + 1], words, bit) <==> InKey(key[..i], words, bit) || BitOf(key[i], words) == bit
  {
    hide BitOf;
    if InKey(key[..i], words, bit) {
      var j :| 0 <= j < i && BitOf(key[..i][j], words) == bit;
      assert key[..i + 1][j] == key[..i][j];
    }
    assert key[..i + 1][i] == key[i];
  }

  /** Setting the bit of a hash sets that bit and no other. */
  lemma WithSets(data: seq<bv8>, h: bv32, bit: nat)
    requires |data| > 0
    ensures BitSet(With(data, h), bit) <==> BitSet(data, bit) || bit == BitOf(h, |data|)
  {
    hide On;
    hide Set;
    hide Mask;
    hide OneBit;
    var b := BitOf(h, |data|);
    if bit < |data| * BITS_PER_WORD && bit / BITS_PER_WORD == b / BITS_PER_WORD {
      MasksDiffer(bit, b);
      MasksDiffer(b, bit);
      SetOnly(data[bit / BITS_PER_WORD], Mask(b), Mask(bit));
    }
  }

  class Filter {
    var data: array<bv8>
    var version: nat

    constructor (data: array<bv8>, version: nat)
      ensures this.data == data && this.version == version
    {
      this.data, this.version := data, version;
    }

    method AddKey(key: seq<bv32>)
      requires data.Length > 0
      modifies data
      ensures HasKey(data[..], key)
      ensures forall g :: Has(old(data[..]), g) ==> Has(data[..], g)
      ensures forall bit: nat :: BitSet(data[..], bit) <==> BitSet(old(data[..]), bit) || InKey(key, data.Length, bit)
    {
      hide Has;
      hide MaskOf;
      hide WordOf;
      hide BitOf;
      hide BitSet;
      ghost var start := data[..];
      var i := 0;
      while i < |key|
        invariant i <= |key|
        invariant forall k :: 0 <= k < i ==> Has(data[..], key[k])
        invariant forall g :: Has(start, g) ==> Has(data[..], g)
        invariant forall bit: nat :: BitSet(data[..], bit) <==> BitSet(start, bit) || InKey(key[..i], data.Length, bit)
      {
        ghost var now := data[..];
        forall g ensures Has(With(now, key[i]), key[i]) && (Has(now, g) ==> Has(With(now, key[i]), g)) {
          WithHas(now, key[i], g);
        }
        forall bit: nat
          ensures BitSet(With(now, key[i]), bit) <==> BitSet(start, bit) || InKey(key[..i + 1], data.Length, bit)
        {
          WithSets(now, key[i], bit);
          InKeyNext(key, i, data.Length, bit);
        }
        var word := WordOf(key[i], data.Length);
        data[word] := Set(data[word], MaskOf(key[i], data.Length));
        assert data[..] == With(now, key[i]);
        i := i + 1;
      }
      assert key[..i] == key;
    }

    /** -1 for a filter without data, 1 if every bit of the key is set, 0 otherwise */
    method Contains(key: seq<bv32>) returns (r: int)
      ensures r == if data.Length == 0 then -1 else if HasKey(data[..], key) then 1 else 0
    {
      hide MaskOf;
      hide WordOf;
      hide On;
      if data.Length == 0 {
        return -1;
      }
      var i := 0;
      while i < |key|
        invariant i <= |key| && forall k :: 0 <= k < i ==> Has(data[..], key[k])
      {
        if !On(data[WordOf(key[i], data.Length)], MaskOf(key[i], data.Length)) {
          assert !Has(data[..], key[i]);
          return 0;
        }
        assert Has(data[..], key[i]);
        i := i + 1;
      }
      r := 1;
    }

    /** 1 if every key is contained, and otherwise what the first that is not says */
    method ContainsVec(vec: seq<seq<bv32>>) returns (r: int)
      requires vec != []
      ensures r == if data.Length == 0 then -1
                   else if forall k :: 0 <= k < |vec| ==> HasKey(data[..], vec[k]) then 1 else 0
    {
      hide HasKey;
      r := 1;
      var nr := 0;
      while r > 0 && nr < |vec|
        invariant nr <= |vec| && (r == 1 || r == 0 || r == -1)
        invariant r == 1 ==> forall k :: 0 <= k < nr ==> HasKey(data[..], vec[k])
        invariant r == 0 ==> data.Length > 0 && nr > 0 && !HasKey(data[..], vec[nr - 1])
        invariant if r == -1 then data.Length == 0 else nr > 0 ==> data.Length > 0
        decreases r, |vec| - nr
      {
        r := Contains(vec[nr]);
        nr := nr + 1;
      }
    }
  }

  // ---------- Paths ----------

  const SLASH: bv8 := 0x2F

  function LastSlash(path: Path): (i: int)
    ensures -1 <= i < |path| && (i >= 0 ==> path[i] == SLASH) && forall k :: i < k < |path| ==> path[k] != SLASH
  {
    if path == [] then -1 else if path[|path| - 1] == SLASH then |path| - 1 else LastSlash(path[..|path| - 1])
  }

  /** A path and its leading directories */
  function Leading(path: Path): set<Path>
    decreases |path|
  {
    var i := LastSlash(path);
    {path} + if i <= 0 then {} else Leading(path[..i])
  }

  lemma {:induction false} LeadingInside(path: Path, d: Path)
    requires d in Leading(path)
    ensures d <= path && Leading(d) <= Leading(path)
    decreases |path|
  {
    if d != path {
      LeadingInside(path[..LastSlash(path)], d);
    }
  }

  /** The leading directories end before the slashes. */
  lemma {:induction false} LeadingIs(path: Path, d: Path)
    ensures d in Leading(path) <==> d == path || (d <= path && 0 < |d| < |path| && path[|d|] == SLASH)
    decreases |path|
  {
    var i := LastSlash(path);
    if i > 0 {
      var p := path[..i];
      LeadingIs(p, d);
      assert d <= path && 0 < |d| < |path| && path[|d|] == SLASH ==> |d| <= i && d <= p;
      assert d <= path && |d| == i ==> d == p;
    }
  }

  /** The directories that end before a slash below p, from the last on */
  function DirsBelow(path: Path, p: nat): seq<Path>
    requires p <= |path|
  {
    if p <= 1 then [] else (if path[p - 1] == SLASH then [path[..p - 1]] else []) + DirsBelow(path, p - 1)
  }

  lemma {:induction false} DirsBelowIs(path: Path, p: nat, d: Path)
    requires p <= |path|
    ensures d in DirsBelow(path, p) <==> d <= path && 0 < |d| < p && path[|d|] == SLASH
  {
    if p > 1 {
      DirsBelowIs(path, p - 1, d);
      assert d <= path && |d| == p - 1 ==> d == path[..p - 1];
    }
  }

  function Slashes(path: Path): nat {
    if path == [] then 0 else Slashes(path[..|path| - 1]) + if path[|path| - 1] == SLASH then 1 else 0
  }

  /** There is a directory for every slash but one at the very beginning. */
  lemma {:induction false} DirsBelowCount(path: Path, p: nat)
    requires p <= |path|
    ensures |DirsBelow(path, p)| + (if p > 0 && path[0] == SLASH then 1 else 0) == Slashes(path[..p])
  {
    if p > 0 {
      assert path[..p][..p - 1] == path[..p - 1];
      DirsBelowCount(path, p - 1);
    }
  }

  /** So there are as many directories as slashes exactly when the path does not begin with one. */
  lemma EnoughSlashes(path: Path)
    ensures |DirsBelow(path, |path|)| == Slashes(path) <==> (path != [] ==> path[0] != SLASH)
  {
    assert path[..|path|] == path;
    DirsBelowCount(path, |path|);
  }

  /** The path "/a" has a slash and no directory. */
  lemma TooManySlashes() returns (path: Path)
    ensures path == [SLASH, 0x61] && Slashes(path) == 1 && DirsBelow(path, |path|) == []
  {
    path := [SLASH, 0x61];
    assert path[..1] == [SLASH] && [SLASH][..0] == [];
    assert Slashes([SLASH]) == 1;
    DirsBelowNext(path, 2);
    DirsBelowNext(path, 1);
  }

  function Keys(settings: Settings, paths: seq<Path>): (keys: seq<seq<bv32>>)
    ensures |keys| == |paths| && forall i :: 0 <= i < |paths| ==> keys[i] == Key(settings, paths[i])
  {
    seq(|paths|, i requires 0 <= i < |paths| => Key(settings, paths[i]))
  }

  /**
   The keys of a path and its leading directories, the path first. filled is what is asserted at the end: that the
   space counted beforehand, one key for each slash and one, is filled.
   */
  method KeyVec(settings: Settings, path: Path) returns (vec: seq<seq<bv32>>, filled: bool)
    ensures vec == Keys(settings, [path] + DirsBelow(path, |path|)) && |vec| <= 1 + Slashes(path)
    ensures filled <==> (path != [] ==> path[0] != SLASH)
    ensures filled <==> |vec| == 1 + Slashes(path)
  {
    hide Key;
    hide DirsBelow;
    var nr := CountSlashes(path);
    nr := nr + 1;
    var first := KeyFill(settings, path);
    vec := [first];
    ghost var done := [path];
    assert vec == Keys(settings, done);
    hide Keys;
    var p := |path| - 1;
    while p > 0
      invariant -1 <= p < |path| && vec == Keys(settings, done)
      invariant done + DirsBelow(path, p + 1) == [path] + DirsBelow(path, |path|)
    {
      DirsBelowNext(path, p + 1);
      if path[p] == SLASH {
        var key := KeyFill(settings, path[..p]);
        KeysSnoc(settings, done, path[..p]);
        Regroup(done, [path[..p]], DirsBelow(path, p));
        vec := vec + [key];
        done := done + [path[..p]];
      }
      p := p - 1;
    }
    assert path[..|path|] == path;
    DirsBelowNext(path, p + 1);
    assert done == [path] + DirsBelow(path, |path|);
    DirsBelowCount(path, |path|);
    filled := |vec| == nr;
  }

  lemma KeysSnoc(settings: Settings, paths: seq<Path>, path: Path)
    ensures Keys(settings, paths + [path]) == Keys(settings, paths) + [Key(settings, path)]
  {
    hide Key;
  }

  lemma DirsBelowNext(path: Path, p: nat)
    requires p <= |path|
    ensures p <= 1 ==> DirsBelow(path, p) == []
    ensures p > 1 && path[p - 1] == SLASH ==> DirsBelow(path, p) == [path[..p - 1]] + DirsBelow(path, p - 1)
    ensures p > 1 && path[p - 1] != SLASH ==> DirsBelow(path, p) == DirsBelow(path, p - 1)
  {
  }

  lemma Regroup<T>(a: seq<T>, b: seq<T>, c: seq<T>)
    ensures a + (b + c) == a + b + c
  {
  }

  method CountSlashes(path: Path) returns (nr: nat)
    ensures nr == Slashes(path)
  {
    nr := 0;
    var q := 0;
    while q < |path|
      invariant q <= |path| && nr == Slashes(path[..q])
    {
      assert path[..q + 1][..q] == path[..q];
      if path[q] == SLASH {
        nr := nr + 1;
      }
      q := q + 1;
    }
    assert path[..q] == path;
  }

  /** A path and its leading directories are what the keys of a path are for. */
  lemma VecIsLeading(path: Path, d: Path)
    ensures d in [path] + DirsBelow(path, |path|) <==> d in Leading(path)
  {
    LeadingIs(path, d);
    DirsBelowIs(path, |path|, d);
  }

  // ---------- Computing a filter ----------

  ghost predicate Covers(data: seq<bv8>, settings: Settings, paths: set<Path>) {
    |data| > 0 && forall d :: d in paths ==> HasKey(data, Key(settings, d))
  }

  function AllLeading(changed: seq<Path>): set<Path> {
    if changed == [] then {} else AllLeading(changed[..|changed| - 1]) + Leading(changed[|changed| - 1])
  }

  /** The changed paths and their leading directories, each once */
  method CollectPaths(changed: seq<Path>) returns (pathmap: set<Path>)
    ensures pathmap == AllLeading(changed)
  {
    pathmap := {};
    var i := 0;
    while i < |changed|
      invariant i <= |changed| && pathmap == AllLeading(changed[..i])
    {
      assert changed[..i + 1][..i] == changed[..i];
      ghost var before := pathmap;
      var path, more := changed[i], true;
      while more
        invariant more ==> before + Leading(changed[i]) == pathmap + Leading(path)
        invariant !more ==> pathmap == before + Leading(changed[i])
        decreases more, |path|
      {
        pathmap := pathmap + {path};
        var last := LastSlash(path);
        path := if last < 0 then [] else path[..last];
        more := path != [];
      }
      i := i + 1;
    }
    assert changed[..i] == changed;
  }

  lemma TruncatedHas(h: bv32)
    ensures Has([0xFF], h)
  {
    MaskSets(0, BitOf(h, 1));
    AllOnes(Mask(BitOf(h, 1)));
  }

  lemma AllOnes(m: bv8)
    ensures On(Set(0, m), m) ==> On(0xFF, m)
  {
  }

  method Truncated(settings: Settings) returns (filter: Filter)
    ensures fresh(filter) && fresh(filter.data) && filter.version == settings.hashVersion
    ensures filter.data[..] == [0xFF]
  {
    var data := new bv8[1];
    data[0] := 0xFF;
    filter := new Filter(data, settings.hashVersion);
  }

  ghost predicate InSomeKey(settings: Settings, paths: set<Path>, words: nat, bit: nat)
    requires words > 0
  {
    exists d :: d in paths && InKey(Key(settings, d), words, bit)
  }

  lemma InSomeKeyMore(settings: Settings, paths: set<Path>, path: Path, words: nat, bit: nat)
    requires words > 0
    ensures InSomeKey(settings, paths + {path}, words, bit) <==>
            InSomeKey(settings, paths, words, bit) || InKey(Key(settings, path), words, bit)
  {
    hide InKey;
    hide Key;
  }

  /** All zeros but for the bits of the paths, in as many words as the settings give them. */
  ghost predicate IsFilterOf(data: seq<bv8>, settings: Settings, paths: set<Path>) {
    && |data| == Words(|paths| * settings.bitsPerEntry)
    && forall bit: nat :: BitSet(data, bit) <==> InSomeKey(settings, paths, |data|, bit)
  }

  lemma ZerosAreClear(data: seq<bv8>, settings: Settings, bit: nat)
    requires |data| > 0 && forall i :: 0 <= i < |data| ==> data[i] == 0
    ensures !BitSet(data, bit) && !InSomeKey(settings, {}, |data|, bit)
  {
    if bit < |data| * BITS_PER_WORD {
      ZeroIsClear(Mask(bit));
    }
  }

  lemma ZeroIsClear(m: bv8)
    ensures !On(0, m)
  {
  }

  /**
   The filter for the paths a commit changed: it has every one of them and of their leading directories, and
   unless there are too many it has no bit that is not one of theirs.
   */
  method Compute(settings: Settings, changed: seq<Path>) returns (filter: Filter)
    ensures fresh(filter) && filter.version == settings.hashVersion
    ensures Covers(filter.data[..], settings, AllLeading(changed))
    ensures if |changed| > settings.maxChangedPaths || |AllLeading(changed)| > settings.maxChangedPaths
            then filter.data[..] == [0xFF] else IsFilterOf(filter.data[..], settings, AllLeading(changed))
  {
    hide HasKey;
    hide BitSet;
    hide InKey;
    hide InSomeKey;
    hide Key;
    hide AllLeading;
    if |changed| > settings.maxChangedPaths {
      TruncatedCovers(settings, AllLeading(changed));
      filter := Truncated(settings);
      return;
    }
    var pathmap := CollectPaths(changed);
    if |pathmap| > settings.maxChangedPaths {
      TruncatedCovers(settings, AllLeading(changed));
      filter := Truncated(settings);
      return;
    }
    var len := Words(|pathmap| * settings.bitsPerEntry);
    var data := new bv8[len](_ => 0);
    filter := new Filter(data, settings.hashVersion);
    forall bit: nat ensures BitSet(data[..], bit) <==> InSomeKey(settings, {}, len, bit) {
      ZerosAreClear(data[..], settings, bit);
    }
    assert pathmap - pathmap == {};
    var rest := pathmap;
    while rest != {}
      invariant filter.data == data && filter.version == settings.hashVersion && data.Length == len && rest <= pathmap
      invariant forall d :: d in pathmap && d !in rest ==> HasKey(data[..], Key(settings, d))
      invariant forall bit: nat :: BitSet(data[..], bit) <==> InSomeKey(settings, pathmap - rest, len, bit)
      decreases |rest|
    {
      var path :| path in rest;
      var key := KeyFill(settings, path);
      ghost var before := data[..];
      filter.AddKey(key);
      forall d | d in pathmap && d !in rest ensures HasKey(data[..], Key(settings, d)) {
        KeyStays(before, data[..], Key(settings, d));
      }
      forall bit: nat ensures BitSet(data[..], bit) <==> InSomeKey(settings, (pathmap - rest) + {path}, len, bit) {
        InSomeKeyMore(settings, pathmap - rest, path, len, bit);
      }
      assert (pathmap - rest) + {path} == pathmap - (rest - {path});
      rest := rest - {path};
    }
    assert pathmap - rest == pathmap;
  }

  /** Words for so many bits, at least one */
  function Words(bits: nat): (n: nat)
    ensures n > 0
  {
    var n := (bits + BITS_PER_WORD - 1) / BITS_PER_WORD;
    if n == 0 then 1 else n
  }

  lemma KeyStays(before: seq<bv8>, after: seq<bv8>, key: seq<bv32>)
    requires HasKey(before, key) && forall g :: Has(before, g) ==> Has(after, g)
    ensures HasKey(after, key)
  {
    hide Has;
  }

  lemma TruncatedHasKey(key: seq<bv32>)
    ensures HasKey([0xFF], key)
  {
    hide Has;
    forall i | 0 <= i < |key| ensures Has([0xFF], key[i]) {
      TruncatedHas(key[i]);
    }
  }

  lemma TruncatedCovers(settings: Settings, paths: set<Path>)
    ensures Covers([0xFF], settings, paths)
  {
    hide HasKey;
    hide Key;
    forall d | d in paths ensures HasKey([0xFF], Key(settings, d)) {
      TruncatedHasKey(Key(settings, d));
    }
  }

  /**
   No false negatives: a filter that covers changed paths contains every key of the vector for any of
   them, or for any of their leading directories.
   */
  lemma NoFalseNegatives(data: seq<bv8>, settings: Settings, changed: seq<Path>, i: nat, path: Path, k: nat)
    requires Covers(data, settings, AllLeading(changed)) && i < |changed| && path in Leading(changed[i])
    requires k < |[path] + DirsBelow(path, |path|)|
    ensures HasKey(data, Keys(settings, [path] + DirsBelow(path, |path|))[k])
  {
    hide HasKey;
    hide Key;
    var d := ([path] + DirsBelow(path, |path|))[k];
    VecIsLeading(path, d);
    LeadingInside(changed[i], path);
    InAllLeading(changed, i, d);
  }

  /** A filter made for changed paths and asked for one of them, or for a directory above one, says maybe. */
  method ComputeAndAsk(settings: Settings, changed: seq<Path>, path: Path) returns (r: int)
    ensures r == 0 || r == 1
    ensures path in AllLeading(changed) ==> r == 1
  {
    hide HasKey;
    hide Key;
    hide Leading;
    hide AllLeading;
    var filter := Compute(settings, changed);
    var vec, _ := KeyVec(settings, path);
    r := filter.ContainsVec(vec);
    if path in AllLeading(changed) {
      var i := FromAllLeading(changed, path);
      forall k | 0 <= k < |vec| ensures HasKey(filter.data[..], vec[k]) {
        NoFalseNegatives(filter.data[..], settings, changed, i, path, k);
      }
    }
  }

  lemma {:induction false} InAllLeading(changed: seq<Path>, i: nat, d: Path)
    requires i < |changed| && d in Leading(changed[i])
    ensures d in AllLeading(changed)
  {
    hide Leading;
    if i < |changed| - 1 {
      InAllLeading(changed[..|changed| - 1], i, d);
    }
  }

  lemma {:induction false} FromAllLeading(changed: seq<Path>, d: Path) returns (i: nat)
    requires d in AllLeading(changed)
    ensures i < |changed| && d in Leading(changed[i])
  {
    hide Leading;
    if d in Leading(changed[|changed| - 1]) {
      i := |changed| - 1;
    } else {
      i := FromAllLeading(changed[..|changed| - 1], d);
    }
  }

  // ---------- Upgrading ----------

  datatype Option<T> = None | Some(value: T)

  /** A tree object: names, and the trees of those that are directories */
  datatype Tree = Tree(entries: seq<Entry>)

  datatype Entry = Entry(name: Path, sub: Option<Tree>)

  predicate HighBits(t: Tree) {
    exists i :: 0 <= i < |t.entries| && EntryHighBits(t, i)
  }

  predicate EntryHighBits(t: Tree, i: nat)
    requires i < |t.entries|
  {
    !Ascii(t.entries[i].name) || (t.entries[i].sub.Some? && HighBits(t.entries[i].sub.value))
  }

  /** A path leads to an entry of a tree. */
  ghost predicate InTree(t: Tree, path: Path)
    decreases t, 1
  {
    exists i :: 0 <= i < |t.entries| && InEntry(t, i, path)
  }

  ghost predicate InEntry(t: Tree, i: nat, path: Path)
    requires i < |t.entries|
    decreases t, 0
  {
    var e := t.entries[i];
    || path == e.name
    || (e.sub.Some? && |path| > |e.name| && path[..|e.name|] == e.name && path[|e.name|] == SLASH
        && InTree(e.sub.value, path[|e.name| + 1..]))
  }

  /** In a tree without high bits every path is without. */
  lemma {:induction false} NoHighBits(t: Tree, path: Path)
    requires !HighBits(t) && InTree(t, path)
    ensures Ascii(path)
  {
    var i :| 0 <= i < |t.entries| && InEntry(t, i, path);
    var e := t.entries[i];
    assert !EntryHighBits(t, i);
    if path != e.name {
      var rest := path[|e.name| + 1..];
      NoHighBits(e.sub.value, rest);
      forall k | 0 <= k < |path| ensures path[k] < 0x80 {
        if k < |e.name| {
          assert path[k] == path[..|e.name|][k];
        } else if k > |e.name| {
          assert path[k] == rest[k - |e.name| - 1];
        }
      }
    }
  }

  lemma AsciiPrefix(path: Path, d: Path)
    requires Ascii(path) && d <= path
    ensures Ascii(d)
  {
    assert forall k :: 0 <= k < |d| ==> d[k] == path[k];
  }

  lemma KeysAgree(settings: Settings, other: Settings, path: Path)
    requires Ascii(path) && other == settings.(hashVersion := other.hashVersion)
    ensures Key(settings, path) == Key(other, path)
  {
    hide Hash;
    hide KeyHash;
    VersionsAgree(SEED0, path, settings.hashVersion, other.hashVersion);
    VersionsAgree(SEED1, path, settings.hashVersion, other.hashVersion);
  }

  /** A filter may be relabelled: it covers the same paths under the other version, if no path has a high bit. */
  lemma UpgradeCovers(data: seq<bv8>, settings: Settings, other: Settings, changed: seq<Path>)
    requires Covers(data, other, AllLeading(changed)) && other == settings.(hashVersion := other.hashVersion)
    requires forall i :: 0 <= i < |changed| ==> Ascii(changed[i])
    ensures Covers(data, settings, AllLeading(changed))
  {
    hide HasKey;
    hide Key;
    hide Ascii;
    hide AllLeading;
    hide Leading;
    forall d | d in AllLeading(changed) ensures HasKey(data, Key(settings, d)) {
      var i := FromAllLeading(changed, d);
      LeadingInside(changed[i], d);
      AsciiPrefix(changed[i], d);
      KeysAgree(settings, other, d);
    }
  }

  /** Relabels a filter with another version if neither the commit's tree nor its first parent's has high bits. */
  method Upgrade(filter: Filter, tree: Tree, parent: Option<Tree>, settings: Settings, ghost changed: seq<Path>)
    returns (ok: bool)
    requires Covers(filter.data[..], settings.(hashVersion := filter.version), AllLeading(changed))
    requires forall i :: 0 <= i < |changed| ==>
               InTree(tree, changed[i]) || (parent.Some? && InTree(parent.value, changed[i]))
    modifies filter`version
    ensures ok <==> !HighBits(tree) && (parent.Some? ==> !HighBits(parent.value))
    ensures filter.version == if ok then settings.hashVersion else old(filter.version)
    ensures ok ==> Covers(filter.data[..], settings, AllLeading(changed))
  {
    hide Covers;
    hide InTree;
    hide Ascii;
    if HighBits(tree) {
      return false;
    }
    if parent.Some? && HighBits(parent.value) {
      return false;
    }
    forall i | 0 <= i < |changed| ensures Ascii(changed[i]) {
      if InTree(tree, changed[i]) {
        NoHighBits(tree, changed[i]);
      } else {
        NoHighBits(parent.value, changed[i]);
      }
    }
    UpgradeCovers(filter.data[..], settings, settings.(hashVersion := filter.version), changed);
    filter.version := settings.hashVersion;
    ok := true;
  }
}
