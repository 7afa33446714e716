/** The blocked output of tar archives and the records of pax extended headers (archive-tar.c) */
module Tar {

  type Byte = bv8

  const RECORDSIZE := 512
  const BLOCKSIZE := 10240

  function Zeros(n: nat): (z: seq<Byte>)
    ensures |z| == n
  {
    seq(n, _ => 0)
  }

  /** The zeros that fill up a record */
  function Missing(n: nat): nat {
    if n % RECORDSIZE == 0 then 0 else RECORDSIZE - n % RECORDSIZE
  }

  function Padded(data: seq<Byte>): (p: seq<Byte>)
    ensures |p| % RECORDSIZE == 0 && data <= p && |p| < |data| + RECORDSIZE
  {
    data + Zeros(Missing(|data|))
  }

  lemma Regroup(a: seq<Byte>, b: seq<Byte>, c: seq<Byte>)
    ensures a + b + c == a + (b + c)
  {
  }

  lemma NoZeros()
    ensures Zeros(0) == [] && forall s: seq<Byte> :: s + [] == s
  {
  }

  lemma WholeBlocks(n: nat)
    requires n >= BLOCKSIZE && (n - BLOCKSIZE) % BLOCKSIZE == 0
    ensures n % BLOCKSIZE == 0
  {
  }

  /** Whole records before do not change what is missing from the last. */
  lemma InRecords(n: nat, m: nat)
    requires n % RECORDSIZE == 0 || n % BLOCKSIZE == 0
    ensures (n + m) % RECORDSIZE == m % RECORDSIZE && Missing(n + m) == Missing(m)
  {
    if n % BLOCKSIZE == 0 {
      assert n == n / BLOCKSIZE * 20 * RECORDSIZE;
    }
    var k := n / RECORDSIZE;
    assert n == k * RECORDSIZE;
    assert (k * RECORDSIZE + m) % RECORDSIZE == m % RECORDSIZE;
  }

  lemma MissingAfter(n: nat, m: nat)
    requires n % RECORDSIZE == 0
    ensures Missing(n + m) == Missing(m)
  {
    InRecords(n, m);
  }

  lemma RoomInBlock(offset: nat)
    requires offset < BLOCKSIZE && offset % RECORDSIZE != 0
    ensures offset + RECORDSIZE - offset % RECORDSIZE <= BLOCKSIZE
  {
    var k := offset / RECORDSIZE;
    assert offset == k * RECORDSIZE + offset % RECORDSIZE && k <= 19;
  }

  class Archive {
    const block: array<Byte>
    var offset: nat
    var written: seq<Byte>

    /** What has been written out is whole blocks; the buffer is never full. */
    ghost predicate Valid()
      reads this
    {
      block.Length == BLOCKSIZE && offset < BLOCKSIZE && |written| % BLOCKSIZE == 0
    }

    /** All that was queued so far */
    ghost function Stream(): seq<Byte>
      reads this, block
      requires Valid()
    {
      written + block[..offset]
    }

    constructor ()
      ensures Valid() && Stream() == [] && fresh(block)
    {
      block := new Byte[BLOCKSIZE];
      offset, written := 0, [];
    }

    /** A block that has been filled goes out, and the next starts empty; otherwise nothing happens. */
    method WriteIfNeeded()
      requires block.Length == BLOCKSIZE && offset <= BLOCKSIZE && |written| % BLOCKSIZE == 0
      modifies this
      ensures Valid() && Stream() == old(written + block[..offset])
      ensures offset == if old(offset) == BLOCKSIZE then 0 else old(offset)
    {
      if offset == BLOCKSIZE {
        written := written + block[..];
        offset := 0;
        assert block[..] == block[..BLOCKSIZE];
      }
    }

    /** memcpy into the block at the offset, and moving the offset on */
    method Copy(data: seq<Byte>)
      requires block.Length == BLOCKSIZE && offset + |data| <= BLOCKSIZE
      modifies this`offset, block
      ensures offset == old(offset) + |data| && block[..offset] == old(block[..offset]) + data
      ensures block[offset..] == old(block[..])[offset..]
    {
      ghost var start, all := block[..offset], block[..];
      var i := 0;
      while i < |data|
        invariant i <= |data| && offset == old(offset) && block[..offset + i] == start + data[..i]
        invariant block[offset + i..] == all[offset + i..]
      {
        block[offset + i] := data[i];
        i := i + 1;
      }
      offset := offset + |data|;
      assert data[..i] == data;
    }

    method DoWriteBlocked(data: seq<Byte>)
      requires Valid()
      modifies this, block
      ensures Valid() && Stream() == old(Stream()) + data
    {
      var at := 0;
      ghost var start := Stream();
      if offset != 0 {
        var chunk := BLOCKSIZE - offset;
        if |data| < chunk {
          chunk := |data|;
        }
        ghost var before := block[..offset];
        Copy(data[..chunk]);
        at := chunk;
        Regroup(written, before, data[..at]);
        WriteIfNeeded();
      }
      assert offset == 0 ==> block[..offset] == [];
      while |data| - at >= BLOCKSIZE
        invariant at <= |data| && Valid() && Stream() == start + data[..at] && (offset == 0 || at == |data|)
      {
        var next := data[at..at + BLOCKSIZE];
        assert data[..at + BLOCKSIZE] == data[..at] + next;
        assert written == start + data[..at];
        Regroup(start, data[..at], next);
        written := written + next;
        WholeBlocks(|written|);
        at := at + BLOCKSIZE;
        assert block[..offset] == [];
      }
      assert data == data[..at] + data[at..];
      if at < |data| {
        ghost var before := block[..offset];
        Copy(data[at..]);
        Regroup(written, before, data[at..]);
        Regroup(start, data[..at], data[at..]);
      }
    }

    method FinishRecord()
      requires Valid()
      modifies this, block
      ensures Valid() && Stream() == old(Stream()) + Zeros(Missing(|old(Stream())|))
    {
      hide Zeros;
      var tail := offset % RECORDSIZE;
      InRecords(|written|, offset);
      ghost var before := block[..offset];
      if tail != 0 {
        RoomInBlock(offset);
        Copy(Zeros(RECORDSIZE - tail));
        Regroup(written, before, Zeros(RECORDSIZE - tail));
      } else {
        NoZeros();
      }
      WriteIfNeeded();
    }

    method WriteBlocked(data: seq<Byte>)
      requires Valid() && |Stream()| % RECORDSIZE == 0
      modifies this, block
      ensures Valid() && Stream() == old(Stream()) + Padded(data)
    {
      hide Zeros;
      hide Missing;
      ghost var before := Stream();
      DoWriteBlocked(data);
      MissingAfter(|before|, |data|);
      Regroup(before, data, Zeros(Missing(|data|)));
      FinishRecord();
    }

    /** Ends the archive with at least two records of zeros, and fills up the block. */
    method WriteTrailer()
      requires Valid()
      modifies this, block
      ensures |written| % BLOCKSIZE == 0
      ensures |old(Stream())| + 2 * RECORDSIZE <= |written| < |old(Stream())| + 2 * RECORDSIZE + BLOCKSIZE
      ensures written == old(Stream()) + Zeros(|written| - |old(Stream())|)
    {
      var start := offset;
      var tail := BLOCKSIZE - offset;
      ghost var stream, before := Stream(), block[..offset];
      Copy(Zeros(tail));
      assert block[..] == before + Zeros(tail);
      Regroup(written, before, Zeros(tail));
      written := written + block[..];
      WholeBlocks(|written|);
      if tail < 2 * RECORDSIZE {
        offset := 0;
        Copy(Zeros(start));
        assert block[..] == Zeros(BLOCKSIZE);
        Regroup(stream, Zeros(tail), Zeros(BLOCKSIZE));
        assert Zeros(tail) + Zeros(BLOCKSIZE) == Zeros(tail + BLOCKSIZE);
        written := written + block[..];
        WholeBlocks(|written|);
      }
    }

    /** A whole archive: every payload in whole records, one after the other, and the trailer */
    method WriteArchive(payloads: seq<seq<Byte>>)
      requires Valid() && Stream() == []
      modifies this, block
      ensures |written| % BLOCKSIZE == 0 && |written| >= |Payloads(payloads)| + 2 * RECORDSIZE
      ensures written == Payloads(payloads) + Zeros(|written| - |Payloads(payloads)|)
    {
      var i := 0;
      while i < |payloads|
        invariant i <= |payloads| && Valid() && Stream() == Payloads(payloads[..i]) && |Stream()| % RECORDSIZE == 0
      {
        assert payloads[..i + 1][..i] == payloads[..i];
        InRecords(|Stream()|, |Padded(payloads[i])|);
        WriteBlocked(payloads[i]);
        i := i + 1;
      }
      assert payloads[..i] == payloads;
      WriteTrailer();
    }
  }

  function Payloads(payloads: seq<seq<Byte>>): seq<Byte> {
    if payloads == [] then [] else Payloads(payloads[..|payloads| - 1]) + Padded(payloads[|payloads| - 1])
  }

  // ---------- Pax extended headers ----------

  function Decimal(n: nat): (s: string)
    ensures |s| > 0
  {
    if n < 10 then [('0' as nat + n) as char] else Decimal(n / 10) + [('0' as nat + n % 10) as char]
  }

  function Pow10(k: nat): (p: nat)
    ensures p > 0
  {
    if k == 0 then 1 else 10 * Pow10(k - 1)
  }

  lemma {:induction false} DecimalLength(n: nat, k: nat)
    requires n < Pow10(k + 1) && (k > 0 ==> Pow10(k) <= n)
    ensures |Decimal(n)| == k + 1
  {
    if k > 0 {
      assert Pow10(k) == 10 * Pow10(k - 1) && Pow10(k + 1) == 10 * Pow10(k);
      assert n >= 10;
      assert Pow10(k) > n / 10 && (k > 1 ==> Pow10(k - 1) <= n / 10);
      DecimalLength(n / 10, k - 1);
    }
  }

  /** A record starts with its own length in decimal, digits of the length included. */
  method AppendExtHeader(keyword: string, value: string) returns (record: string)
    ensures record == Decimal(|record|) + " " + keyword + "=" + value + "\n"
  {
    var len := 1 + 1 + |keyword| + 1 + |value| + 1;
    ghost var base, k := len, 0;
    var tmp := 1;
    while len / 10 >= tmp
      invariant tmp == Pow10(k) && len == base + k
      invariant k > 0 ==> Pow10(k) <= len
      decreases base - 9 * k
    {
      assert Pow10(k + 1) == 10 * Pow10(k);
      BelowPow10(k);
      len := len + 1;
      tmp := tmp * 10;
      k := k + 1;
    }
    DecimalLength(len, k);
    record := Decimal(len) + " " + keyword + "=" + value + "\n";
    assert |record| == len;
  }

  lemma {:induction false} BelowPow10(k: nat)
    ensures 9 * k < Pow10(k)
  {
    if k > 0 {
      BelowPow10(k - 1);
    }
  }
}
