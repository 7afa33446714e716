/** Base 85 encoding of binary patches (base85.c) */
module Base85 {

  type Byte = x: nat | x < 256

  datatype Error = Alphabet | Sequence

  datatype Result<T> = Ok(value: T) | Err(error: Error)

  const TWO32 := 0x1_0000_0000
  const P85_2 := 7225
  const P85_3 := 614125
  const P85_4 := 52200625

  const SPECIALS := "!#$%&()*+-;<=>?@^_`{|}~"

  /** en85: the character for a digit */
  function En(v: nat): char
    requires v < 85
  {
    if v < 10 then ('0' as nat + v) as char
    else if v < 36 then ('A' as nat + v - 10) as char
    else if v < 62 then ('a' as nat + v - 36) as char
    else SPECIALS[v - 62]
  }

  /** de85: one more than the digit of a character, or 0 */
  function De(c: char): (d: nat)
    ensures d <= 85
  {
    if '0' <= c <= '9' then c as nat - '0' as nat + 1
    else if 'A' <= c <= 'Z' then c as nat - 'A' as nat + 11
    else if 'a' <= c <= 'z' then c as nat - 'a' as nat + 37
    else Special(c, 0)
  }

  function Special(c: char, i: nat): (d: nat)
    requires i <= 23
    ensures d <= 85
    decreases 23 - i
  {
    if i == 23 then 0 else if SPECIALS[i] == c then 63 + i else Special(c, i + 1)
  }

  lemma {:induction false} SpecialAt(i: nat, j: nat)
    requires j <= i < 23
    ensures Special(SPECIALS[i], j) == 63 + i
    decreases 23 - j
  {
    if j < i {
      Ascending(j, i);
      SpecialAt(i, j + 1);
    }
  }

  lemma {:induction false} Ascending(j: nat, i: nat)
    requires j < i < 23
    ensures SPECIALS[j] < SPECIALS[i]
  {
    if j + 1 < i {
      Ascending(j, i - 1);
    }
  }

  lemma {:induction false} NotAlphanumeric(i: nat)
    requires i < 23
    ensures var c := SPECIALS[i]; !('0' <= c <= '9') && !('A' <= c <= 'Z') && !('a' <= c <= 'z')
  {
  }

  lemma DeEn(v: nat)
    requires v < 85
    ensures De(En(v)) == v + 1
  {
    if v >= 62 {
      NotAlphanumeric(v - 62);
      SpecialAt(v - 62, 0);
    }
  }

  lemma {:induction false} SpecialIs(c: char, i: nat)
    requires i <= 23 && Special(c, i) > 0
    ensures 63 + i <= Special(c, i) < 86 && SPECIALS[Special(c, i) - 63] == c
    decreases 23 - i
  {
    if SPECIALS[i] != c {
      SpecialIs(c, i + 1);
    }
  }

  lemma EnDe(c: char)
    requires De(c) > 0
    ensures En(De(c) - 1) == c
  {
    if !('0' <= c <= '9') && !('A' <= c <= 'Z') && !('a' <= c <= 'z') {
      SpecialIs(c, 0);
    }
  }

  /** Fills the table of the digits of characters. */
  method PrepBase85(de: array<nat>)
    requires de.Length == 256 && forall i :: 0 <= i < 256 ==> de[i] == 0
    modifies de
    ensures forall c: char :: c as nat < 256 ==> de[c as nat] == De(c)
  {
    hide De;
    hide En;
    var i := 0;
    while i < 85
      invariant i <= 85
      invariant forall c: char :: c as nat < 256 ==> de[c as nat] == if De(c) <= i then De(c) else 0
    {
      var ch := En(i);
      DeEn(i);
      EnSmall(i);
      forall c: char | De(c) == i + 1 ensures c == ch {
        EnDe(c);
      }
      de[ch as nat] := i + 1;
      i := i + 1;
    }
  }

  lemma EnSmall(v: nat)
    requires v < 85
    ensures En(v) as nat < 256
  {
    if v >= 62 {
      SmallSpecials(v - 62);
    }
  }

  lemma SmallSpecials(i: nat)
    requires i < 23
    ensures SPECIALS[i] as nat < 256
  {
  }

  // ---------- Words ----------

  function ByteAt(d: seq<Byte>, i: nat): (b: nat)
    ensures b < 256
  {
    if i < |d| then d[i] else 0
  }

  /** The number that up to four bytes are, as if zeros followed */
  function Word(d: seq<Byte>): (w: nat)
    ensures w < TWO32
  {
    ByteAt(d, 0) * 0x100_0000 + ByteAt(d, 1) * 0x1_0000 + ByteAt(d, 2) * 0x100 + ByteAt(d, 3)
  }

  /** The four bytes of a number */
  function Bytes(w: nat): (d: seq<Byte>)
    requires w < TWO32
    ensures |d| == 4
  {
    [w / 0x100_0000, w / 0x1_0000 % 0x100, w / 0x100 % 0x100, w % 0x100]
  }

  lemma BytesOfWord(d: seq<Byte>)
    requires |d| <= 4
    ensures Bytes(Word(d))[..|d|] == d
  {
    var a, b, c, e := ByteAt(d, 0), ByteAt(d, 1), ByteAt(d, 2), ByteAt(d, 3);
    FourBytes(a, b, c, e);
  }

  lemma FourBytes(a: nat, b: nat, c: nat, e: nat)
    requires a < 256 && b < 256 && c < 256 && e < 256
    ensures Bytes(a * 0x100_0000 + b * 0x1_0000 + c * 0x100 + e) == [a, b, c, e]
  {
    var w := a * 0x100_0000 + b * 0x1_0000 + c * 0x100 + e;
    assert w / 0x100_0000 == a;
    assert w / 0x1_0000 == a * 0x100 + b;
    assert w / 0x100 == a * 0x1_0000 + b * 0x100 + c;
  }

  /** The value of five digits, the first the highest */
  function Value(a: nat, b: nat, c: nat, d: nat, e: nat): nat {
    (((a * 85 + b) * 85 + c) * 85 + d) * 85 + e
  }

  function Chars(w: nat): (s: string)
    requires w < TWO32
    ensures |s| == 5
  {
    [En(w / P85_4), En(w / P85_3 % 85), En(w / P85_2 % 85), En(w / 85 % 85), En(w % 85)]
  }

  lemma ValueOfChars(w: nat)
    requires w < TWO32
    ensures Value(w / P85_4, w / P85_3 % 85, w / P85_2 % 85, w / 85 % 85, w % 85) == w
  {
    var x1 := w / 85;
    assert w == x1 * 85 + w % 85;
    var x2 := x1 / 85;
    assert x1 == x2 * 85 + x1 % 85 && x2 == w / P85_2;
    var x3 := x2 / 85;
    assert x2 == x3 * 85 + x2 % 85 && x3 == w / P85_3;
    var x4 := x3 / 85;
    assert x3 == x4 * 85 + x3 % 85 && x4 == w / P85_4;
  }

  // ---------- Encoding and decoding ----------

  function Min(a: nat, b: nat): nat {
    if a < b then a else b
  }

  function Enc(data: seq<Byte>): string {
    if data == [] then ""
    else
      var n := Min(|data|, 4);
      Chars(Word(data[..n])) + Enc(data[n..])
  }

  /** Whether the first five characters are digits. */
  predicate AllDigits(buffer: string) {
    |buffer| >= 5 && De(buffer[0]) > 0 && De(buffer[1]) > 0 && De(buffer[2]) > 0 && De(buffer[3]) > 0
      && De(buffer[4]) > 0
  }

  function FirstValue(buffer: string): nat
    requires AllDigits(buffer)
  {
    Value(De(buffer[0]) - 1, De(buffer[1]) - 1, De(buffer[2]) - 1, De(buffer[3]) - 1, De(buffer[4]) - 1)
  }

  /** Five digits at a time; a value that does not fit in 32 bits is refused. */
  function Dec(buffer: string, len: nat): Result<seq<Byte>>
    decreases len
  {
    if len == 0 then Ok([])
    else if !AllDigits(buffer) then Err(Alphabet)
    else if FirstValue(buffer) >= TWO32 then Err(Sequence)
    else
      var n := Min(len, 4);
      match Dec(buffer[5..], len - n)
      case Err(e) => Err(e)
      case Ok(rest) => Ok(Bytes(FirstValue(buffer))[..n] + rest)
  }

  lemma FirstOfChars(w: nat, rest: string)
    requires w < TWO32
    ensures AllDigits(Chars(w) + rest) && FirstValue(Chars(w) + rest) == w
  {
    hide De;
    hide En;
    DeEn(w / P85_4);
    DeEn(w / P85_3 % 85);
    DeEn(w / P85_2 % 85);
    DeEn(w / 85 % 85);
    DeEn(w % 85);
    ValueOfChars(w);
  }

  /** Decoding what was encoded, given its length, gives it back, for every length. */
  lemma {:induction false} RoundTrip(data: seq<Byte>)
    ensures Dec(Enc(data), |data|) == Ok(data)
    decreases |data|
  {
    hide Chars;
    hide Word;
    hide Bytes;
    hide FirstValue;
    hide AllDigits;
    if data != [] {
      var n := Min(|data|, 4);
      var w, rest := Word(data[..n]), Enc(data[n..]);
      assert Enc(data) == Chars(w) + rest;
      hide Enc;
      FirstOfChars(w, rest);
      assert (Chars(w) + rest)[5..] == rest;
      RoundTrip(data[n..]);
      BytesOfWord(data[..n]);
      FiveMore(Chars(w) + rest);
      DecStep(Chars(w) + rest, |data|, data[n..]);
      assert data == data[..n] + data[n..];
    }
  }

  lemma DecStep(buffer: string, len: nat, rest: seq<Byte>)
    requires len > 0 && AllDigits(buffer) && FirstValue(buffer) < TWO32
             && Dec(buffer[5..], len - Min(len, 4)) == Ok(rest)
    ensures Dec(buffer, len) == Ok(Bytes(FirstValue(buffer))[..Min(len, 4)] + rest)
  {
  }

  function Shift(k: nat): nat {
    if k == 0 then 0x100_0000 else if k == 1 then 0x1_0000 else if k == 2 then 0x100 else 1
  }

  lemma WordNext(d: seq<Byte>, b: Byte)
    requires |d| < 4
    ensures Word(d + [b]) == Word(d) + b as nat * Shift(|d|)
  {
  }

  /** Up to four bytes as one number; ch << cnt is a multiplication, and the bits do not overlap. */
  method ReadWord(data: seq<Byte>) returns (acc: nat, n: nat)
    requires data != []
    ensures n == Min(|data|, 4) && acc == Word(data[..n])
  {
    hide Word;
    acc, n := 0, 0;
    assert Word(data[..0]) == 0 by {
      NoBytes(data);
    }
    while n < 4
      invariant n <= 4 && n < |data| && acc == Word(data[..n])
      decreases 4 - n
    {
      WordNext(data[..n], data[n]);
      assert data[..n + 1] == data[..n] + [data[n]];
      acc := acc + data[n] as nat * Shift(n);
      n := n + 1;
      if n == |data| {
        break;
      }
    }
  }

  lemma NoBytes(data: seq<Byte>)
    ensures Word(data[..0]) == 0
  {
  }

  /** The five digits of a number, the last first */
  method WriteDigits(w: nat) returns (buf: string)
    requires w < TWO32
    ensures buf == Chars(w)
  {
    hide En;
    var group := new char[5];
    var acc, cnt := w, 4;
    Powers(w);
    while cnt >= 0
      invariant -1 <= cnt <= 4
      invariant acc == (if cnt == 4 then w else if cnt == 3 then w / 85 else if cnt == 2 then w / P85_2
                        else if cnt == 1 then w / P85_3 else if cnt == 0 then w / P85_4 else 0)
      invariant cnt < 4 ==> group[4] == En(w % 85)
      invariant cnt < 3 ==> group[3] == En(w / 85 % 85)
      invariant cnt < 2 ==> group[2] == En(w / P85_2 % 85)
      invariant cnt < 1 ==> group[1] == En(w / P85_3 % 85)
      invariant cnt < 0 ==> group[0] == En(w / P85_4)
    {
      group[cnt] := En(acc % 85);
      acc := acc / 85;
      cnt := cnt - 1;
    }
    buf := group[..];
  }

  lemma Powers(w: nat)
    requires w < TWO32
    ensures w / 85 / 85 == w / P85_2 && w / P85_2 / 85 == w / P85_3 && w / P85_3 / 85 == w / P85_4 && w / P85_4 < 85
  {
  }

  method Encode(data: seq<Byte>) returns (buf: string)
    ensures buf == Enc(data)
  {
    hide Chars;
    hide Word;
    buf := "";
    var rest := data;
    while rest != []
      invariant buf + Enc(rest) == Enc(data)
      decreases |rest|
    {
      var acc, n := ReadWord(rest);
      var digits := WriteDigits(acc);
      assert buf + (digits + Enc(rest[n..])) == buf + digits + Enc(rest[n..]);
      buf := buf + digits;
      rest := rest[n..];
    }
  }

  /**
   Reads five digits. Nothing wraps around in 32 bits: after four digits the accumulator is below 85 to the
   fourth, and it is multiplied again only after the first of the two tests. The two tests refuse exactly
   the values that do not fit.
   */
  method ReadValue(buffer: string) returns (r: Result<nat>)
    ensures
      if !AllDigits(buffer) then r == Err(Alphabet)
      else if FirstValue(buffer) >= TWO32 then r == Err(Sequence) else r == Ok(FirstValue(buffer))
  {
    hide De;
    var acc: nat, i: nat := 0, 0;
    while i < 4
      invariant i <= 4 && i <= |buffer| && forall k :: 0 <= k < i ==> De(buffer[k]) > 0
      invariant acc < TWO32
      invariant i == 0 ==> acc == 0
      invariant i == 1 ==> acc == De(buffer[0]) - 1
      invariant i == 2 ==> acc == (De(buffer[0]) - 1) * 85 + (De(buffer[1]) - 1)
      invariant i == 3 ==> acc == ((De(buffer[0]) - 1) * 85 + (De(buffer[1]) - 1)) * 85 + (De(buffer[2]) - 1)
      invariant i == 4 ==>
                  acc == (((De(buffer[0]) - 1) * 85 + (De(buffer[1]) - 1)) * 85 + (De(buffer[2]) - 1)) * 85
                  + (De(buffer[3]) - 1)
    {
      if i == |buffer| || De(buffer[i]) == 0 {
        return Err(Alphabet);
      }
      acc := acc * 85 + (De(buffer[i]) - 1);
      i := i + 1;
    }
    if |buffer| == 4 || De(buffer[4]) == 0 {
      return Err(Alphabet);
    }
    var de := De(buffer[4]) - 1;
    if 0xFFFF_FFFF / 85 < acc {
      return Err(Sequence);
    }
    acc := acc * 85;
    assert acc < TWO32;
    if 0xFFFF_FFFF - de < acc {
      return Err(Sequence);
    }
    r := Ok(acc + de);
  }

  /** Rotates the number left by a byte for each byte taken from its top. */
  method TakeBytes(w: nat, n: nat) returns (d: seq<Byte>)
    requires w < TWO32 && n <= 4
    ensures d == Bytes(w)[..n]
  {
    var acc := w;
    d := [];
    var i := 0;
    while i < n
      invariant i <= n && acc < TWO32 && d == Bytes(w)[..i]
      invariant i == 0 ==> acc == w
      invariant i == 1 ==>
                  acc / 0x100_0000 == w / 0x1_0000 % 0x100 && acc / 0x1_0000 % 0x100 == w / 0x100 % 0x100
                  && acc / 0x100 % 0x100 == w % 0x100
      invariant i == 2 ==> acc / 0x100_0000 == w / 0x100 % 0x100 && acc / 0x1_0000 % 0x100 == w % 0x100
      invariant i == 3 ==> acc / 0x100_0000 == w % 0x100
    {
      Rotate(acc);
      acc := acc % 0x100_0000 * 0x100 + acc / 0x100_0000;
      d := d + [acc % 0x100];
      i := i + 1;
    }
  }

  lemma Rotate(w: nat)
    requires w < TWO32
    ensures
      var r := w % 0x100_0000 * 0x100 + w / 0x100_0000;
      && r < TWO32 && r % 0x100 == w / 0x100_0000 && r / 0x100_0000 == w / 0x1_0000 % 0x100
      && r / 0x1_0000 % 0x100 == w / 0x100 % 0x100 && r / 0x100 % 0x100 == w % 0x100
  {
    SplitBytes(w);
    RotatedBytes(w / 0x100_0000, w / 0x1_0000 % 0x100, w / 0x100 % 0x100, w % 0x100);
  }

  lemma SplitBytes(w: nat)
    requires w < TWO32
    ensures w / 0x100_0000 < 256 && w % 0x100_0000 ==
            w / 0x1_0000 % 0x100 * 0x1_0000 + w / 0x100 % 0x100 * 0x100 + w % 0x100
  {
  }

  lemma RotatedBytes(a: nat, b: nat, c: nat, e: nat)
    requires a < 256 && b < 256 && c < 256 && e < 256
    ensures
      var r := (b * 0x1_0000 + c * 0x100 + e) * 0x100 + a;
      && r < TWO32 && r % 0x100 == a && r / 0x100_0000 == b && r / 0x1_0000 % 0x100 == c && r / 0x100 % 0x100 == e
  {
    FourBytes(b, c, e, a);
  }

  function After(done: seq<Byte>, r: Result<seq<Byte>>): Result<seq<Byte>> {
    match r
    case Err(e) => r
    case Ok(d) => Ok(done + d)
  }

  method Decode(buffer: string, len: nat) returns (r: Result<seq<Byte>>)
    ensures r == Dec(buffer, len)
  {
    hide AllDigits;
    hide FirstValue;
    hide Bytes;
    var rest, left: nat, done: seq<Byte> := buffer, len, [];
    assert Dec(rest, left).Ok? ==> [] + Dec(rest, left).value == Dec(rest, left).value;
    while left != 0
      invariant Dec(buffer, len) == After(done, Dec(rest, left))
    {
      var v := ReadValue(rest);
      if v.Err? {
        return Err(v.error);
      }
      var n := if left < 4 then left else 4;
      var d := TakeBytes(v.value, n);
      FiveMore(rest);
      ghost var more := Dec(rest[5..], left - n);
      assert more.Ok? ==> done + (d + more.value) == done + d + more.value;
      done := done + d;
      rest, left := rest[5..], left - n;
    }
    assert done + [] == done;
    r := Ok(done);
  }

  lemma FiveMore(buffer: string)
    ensures AllDigits(buffer) ==> |buffer| >= 5
  {
  }
}
