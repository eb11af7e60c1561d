/** The Base64 codec of the auth agent: an encoder over a three-byte buffer, and a decoder
    over a 32-bit shift accumulator that is never masked (RFC 4648, section 4). */
module Base64 {
  import opened Base64Tables
  import opened Powers

  // ---- Encoding -------------------------------------------------------------------

  /** The four characters of a full group. */
  function Group(a: Byte, b: Byte, c: Byte): string {
    [Letter(a / 4), Letter(a % 4 * 16 + b / 16), Letter(b % 16 * 4 + c / 64), Letter(c % 64)]
  }

  function Encode(data: seq<Byte>): string {
    if |data| == 0 then []
    else if |data| == 1 then [Letter(data[0] / 4), Letter(data[0] % 4 * 16), '=', '=']
    else if |data| == 2 then
      [Letter(data[0] / 4), Letter(data[0] % 4 * 16 + data[1] / 16), Letter(data[1] % 16 * 4), '=']
    else Group(data[0], data[1], data[2]) + Encode(data[3..])
  }

  lemma High6(a: bv8) ensures ((a & 0xfc) >> 2) as int == a as int / 4 {}
  lemma Low2(a: bv8) ensures ((a & 0x03) << 4) as int == a as int % 4 * 16 && ((a & 0x03) << 4) < 64 {}
  lemma High4(a: bv8) ensures ((a & 0xf0) >> 4) as int == a as int / 16 && ((a & 0xf0) >> 4) < 64 {}
  lemma Low4(a: bv8) ensures ((a & 0x0f) << 2) as int == a as int % 16 * 4 && ((a & 0x0f) << 2) < 64 {}
  lemma High2(a: bv8) ensures ((a & 0xc0) >> 6) as int == a as int / 64 && ((a & 0xc0) >> 6) < 64 {}
  lemma Low6(a: bv8) ensures (a & 0x3f) as int == a as int % 64 {}
  function Sum(x: bv8, y: bv8): bv8 {
    x + y
  }

  function Val(x: bv8): int {
    x as int
  }

  lemma Successor(x: bv8)
    requires x < 128
    ensures Val(Sum(x, 1)) == Val(x) + 1
  {}

  lemma NoSummand(x: bv8)
    ensures Sum(x, 0) == x
  {}

  lemma ValOfZero()
    ensures Val(0) == 0
  {}

  lemma LessOne(x: bv8, y: bv8, z: bv8)
    requires x < 64 && 0 < y < 64 && z == y - 1
    ensures z < y && z < 64 && Sum(x, z) < 128 && Sum(x, y) == Sum(Sum(x, z), 1) && y == Sum(z, 1)
  {}

  /** Two numbers below 64 add up within a byte. */
  lemma {:induction false} NoCarry(x: bv8, y: bv8)
    requires x < 64 && y < 64
    ensures Val(Sum(x, y)) == Val(x) + Val(y)
    decreases y
  {
    hide *;
    if y == 0 {
      NoSummand(x);
      ValOfZero();
    } else {
      var z := y - 1;
      LessOne(x, y, z);
      NoCarry(x, z);
      Successor(Sum(x, z));
      Successor(z);
    }
  }

  lemma SecondIndex(x: bv8, y: bv8, p: bv8, q: bv8)
    requires p == (x & 0x03) << 4 && q == (y & 0xf0) >> 4
    ensures Val(Sum(p, q)) == Val(x) % 4 * 16 + Val(y) / 16
  {
    Low2(x);
    High4(y);
    hide Sum;
    NoCarry(p, q);
  }

  lemma ThirdIndex(x: bv8, y: bv8, p: bv8, q: bv8)
    requires p == (x & 0x0f) << 2 && q == (y & 0xc0) >> 6
    ensures Val(Sum(p, q)) == Val(x) % 16 * 4 + Val(y) / 64
  {
    Low4(x);
    High2(y);
    hide Sum;
    NoCarry(p, q);
  }

  lemma PushBit(x: bv8, y: bv8, bit: bv8)
    requires x < 128 && bit <= 1 && y == (x << 1) | bit
    ensures y as int == 2 * (x as int) + bit as int
  {}

  lemma Smaller(x: bv8)
    requires x as int < 128
    ensures x < 128
  {}

  /** The bit pattern of a byte. */
  function Bits(a: Byte): (x: bv8)
    ensures x as int == a
  {
    if a == 0 then 0
    else
      var high := Bits(a / 2);
      var bit: bv8 := if a % 2 == 1 then 1 else 0;
      Smaller(high);
      PushBit(high, (high << 1) | bit, bit);
      (high << 1) | bit
  }

  method First(a: Byte) returns (c: char)
    ensures c == Letter(a / 4)
  {
    hide Bits, Letter, Alphabet;
    var x := Bits(a);
    High6(x);
    AlphabetIsStandard(a / 4);
    return Alphabet[((x & 0xfc) >> 2) as int];
  }

  method Second(a: Byte, b: Byte) returns (c: char)
    ensures c == Letter(a % 4 * 16 + b / 16)
  {
    hide Bits, Letter, Alphabet;
    var x, y := Bits(a), Bits(b);
    var high, low := (x & 0x03) << 4, (y & 0xf0) >> 4;
    SecondIndex(x, y, high, low);
    AlphabetIsStandard(a % 4 * 16 + b / 16);
    return Alphabet[(high + low) as int];
  }

  method Third(b: Byte, c: Byte) returns (r: char)
    ensures r == Letter(b % 16 * 4 + c / 64)
  {
    hide Bits, Letter, Alphabet;
    var x, y := Bits(b), Bits(c);
    var high, low := (x & 0x0f) << 2, (y & 0xc0) >> 6;
    ThirdIndex(x, y, high, low);
    AlphabetIsStandard(b % 16 * 4 + c / 64);
    return Alphabet[(high + low) as int];
  }

  method Fourth(c: Byte) returns (r: char)
    ensures r == Letter(c % 64)
  {
    hide Bits, Letter, Alphabet;
    var x := Bits(c);
    Low6(x);
    AlphabetIsStandard(c % 64);
    return Alphabet[(x & 0x3f) as int];
  }

  method EncodeFull(a3: array<Byte>) returns (r: string)
    requires a3.Length == 3
    ensures r == Group(a3[0], a3[1], a3[2])
  {
    hide Letter, Alphabet;
    var c0 := First(a3[0]);
    var c1 := Second(a3[0], a3[1]);
    var c2 := Third(a3[1], a3[2]);
    var c3 := Fourth(a3[2]);
    return [c0, c1, c2, c3];
  }

  /** The padded group of the last one or two bytes. */
  method EncodeRest(a3: array<Byte>, i: nat) returns (r: string)
    requires a3.Length == 3 && 0 < i < 3
    modifies a3
    ensures r == Encode(old(a3[..i]))
  {
    hide Letter, Alphabet;
    for j := i to 3
      invariant a3[..i] == old(a3[..i])
      invariant forall k :: i <= k < j ==> a3[k] == 0
    {
      a3[j] := 0;
    }
    ghost var rest := old(a3[..i]);
    assert a3[..i] == rest;
    var c0 := First(a3[0]);
    var c1 := Second(a3[0], a3[1]);
    if i == 2 {
      var c2 := Third(a3[1], a3[2]);
      return [c0, c1, c2, '='];
    } else {
      return [c0, c1, '=', '='];
    }
  }

  lemma EncodePrefix(data: seq<Byte>)
    requires |data| >= 3
    ensures Encode(data) == Group(data[0], data[1], data[2]) + Encode(data[3..])
    ensures |Group(data[0], data[1], data[2])| == 4
  {}

  lemma Regroup(a: string, b: string, c: string)
    ensures a + (b + c) == a + b + c
  {}

  lemma NextThree(data: seq<Byte>, n: nat)
    requires 2 <= n < |data|
    ensures Encode(data[n - 2..]) == Group(data[n - 2], data[n - 1], data[n]) + Encode(data[n + 1..])
  {
    hide Encode, Group;
    var rest := data[n - 2..];
    EncodePrefix(rest);
    assert rest[3..] == data[n + 1..];
  }

  /** The next group of an encoding whose first `n + 1` bytes end in a full buffer. */
  lemma NextGroup(data: seq<Byte>, n: nat, done: string)
    requires 2 <= n < |data| && done + Encode(data[n - 2..]) == Encode(data)
    ensures done + Group(data[n - 2], data[n - 1], data[n]) + Encode(data[n + 1..]) == Encode(data)
  {
    hide Encode, Group;
    NextThree(data, n);
    Regroup(done, Group(data[n - 2], data[n - 1], data[n]), Encode(data[n + 1..]));
  }

  lemma NothingLeft(data: seq<Byte>, result: string)
    ensures result + Encode(data[|data|..]) == result
  {
    assert data[|data|..] == [];
  }

  method Base64Encode(data: seq<Byte>) returns (result: string)
    ensures result == Encode(data)
  {
    hide Group, Encode;
    result := [];
    var i := 0;
    var a3 := new Byte[3];
    for n := 0 to |data|
      invariant 0 <= i < 3 && i <= n
      invariant forall k :: 0 <= k < i ==> a3[k] == data[n - i + k]
      invariant result + Encode(data[n - i..]) == Encode(data)
    {
      a3[i] := data[n];
      i := i + 1;
      if i == 3 {
        NextGroup(data, n, result);
        var group := EncodeFull(a3);
        result := result + group;
        i := 0;
      }
    }
    if i > 0 {
      assert a3[..i] == data[|data| - i..];
      var rest := EncodeRest(a3, i);
      result := result + rest;
    } else {
      NothingLeft(data, result);
    }
  }

  lemma EncodeNothing()
    ensures Encode([]) == []
  {}

  // ---- Decoding -------------------------------------------------------------------

  /** The value of a 32-bit two's complement integer that computes `x`. */
  function Wrap32(x: int): int {
    (x + 0x8000_0000) % 0x1_0000_0000 - 0x8000_0000
  }

  /** The bit counts the decoder holds between two characters. */
  type BitCount = k: int | k in {-8, -6, -4, -2} witness -8

  /** An arithmetic shift right by `k`, cut to a byte. */
  function ByteAt(val: int, k: nat): Byte {
    val / Pow2(k) % 256
  }

  /** What the decoder emits for `s` from accumulator `val` and bit count `valb`. */
  function DecodeFrom(s: string, val: int, valb: BitCount): seq<Byte>
    decreases |s|
  {
    if s == [] then []
    else if !InAlphabet(s[0]) then DecodeFrom(s[1..], val, valb)
    else
      var val := Wrap32(Wrap32(val * 64) + Value(s[0]));
      if valb + 6 >= 0 then [ByteAt(val, valb + 6)] + DecodeFrom(s[1..], val, valb + 6 - 8)
      else DecodeFrom(s[1..], val, valb + 6)
  }

  function Decode(s: string): seq<Byte> {
    DecodeFrom(s, 0, -8)
  }

  method Base64Decode(data: string) returns (result: seq<Byte>)
    ensures result == Decode(data)
  {
    hide DecodeTable, ValueOf, Wrap32, ByteAt;
    result := [];
    var val, valb := 0, -8;
    for i := 0 to |data|
      invariant valb in {-8, -6, -4, -2}
      invariant result + DecodeFrom(data[i..], val, valb) == Decode(data)
    {
      var c := data[i];
      DecodeTableIsStandard(c);
      assert data[i..][1..] == data[i + 1..];
      if c as int >= 128 || DecodeTable[c as int] == 64 {
        continue;
      }
      val := Wrap32(Wrap32(val * 64) + DecodeTable[c as int]);
      valb := valb + 6;
      if valb >= 0 {
        result := result + [ByteAt(val, valb)];
        valb := valb - 8;
      }
    }
  }

  /** The values of the letters of the alphabet in `s`; other characters do not occur. */
  function Sextets(s: string): seq<Sextet> {
    if s == [] then []
    else (if InAlphabet(s[0]) then [Value(s[0])] else []) + Sextets(s[1..])
  }

  /** The decoder with an accumulator that never overflows. */
  function Emit(x: seq<Sextet>, acc: int, valb: BitCount): seq<Byte>
    decreases |x|
  {
    if x == [] then []
    else
      var acc := acc * 64 + x[0];
      if valb + 6 >= 0 then [ByteAt(acc, valb + 6)] + Emit(x[1..], acc, valb + 6 - 8)
      else Emit(x[1..], acc, valb + 6)
  }

  function Turns(x: int): int {
    (x + 0x8000_0000) / 0x1_0000_0000
  }

  lemma WrapIs(x: int)
    ensures Wrap32(x) == x - Turns(x) * 0x1_0000_0000
    ensures -0x8000_0000 <= Wrap32(x) < 0x8000_0000
  {}

  lemma WrapShift(x: int, q: int)
    ensures Wrap32(x + q * 0x1_0000_0000) == Wrap32(x)
  {
    var y := x + q * 0x1_0000_0000;
    WrapIs(x);
    WrapIs(y);
    hide Wrap32, Turns;
    assert Turns(y) == Turns(x) + q;
  }

  lemma WrapStep(acc: int, v: Sextet)
    ensures Wrap32(Wrap32(Wrap32(acc) * 64) + v) == Wrap32(acc * 64 + v)
  {
    hide Wrap32, Turns;
    WrapIs(acc);
    WrapIs(Wrap32(acc) * 64);
    WrapShift(acc * 64 + v, -(64 * Turns(acc) + Turns(Wrap32(acc) * 64)));
  }

  /** The byte a shift by 0, 2 or 4 leaves of `high` full turns of it above `low`. */
  lemma ByteIs(x: int, k: nat, high: int, low: int, rest: int)
    requires k in {0, 2, 4}
    requires x == (high * 256 + low) * (if k == 0 then 1 else if k == 2 then 4 else 16) + rest
    requires 0 <= low < 256 && 0 <= rest < if k == 0 then 1 else if k == 2 then 4 else 16
    ensures ByteAt(x, k) == low
  {
    SmallPowers();
    if k == 0 {
      ByteRemainder(x, high, low);
    } else if k == 2 {
      assert x / 4 == high * 256 + low by {
        QuotientBy4(x, high * 256 + low, rest);
      }
      ByteRemainder(x / 4, high, low);
    } else {
      assert x / 16 == high * 256 + low by {
        QuotientBy16(x, high * 256 + low, rest);
      }
      ByteRemainder(x / 16, high, low);
    }
  }

  lemma SmallPowers()
    ensures Pow2(0) == 1 && Pow2(2) == 4 && Pow2(4) == 16
  {}

  lemma QuotientBy4(x: int, q: int, r: int)
    requires x == 4 * q + r && 0 <= r < 4
    ensures x / 4 == q
  {}

  lemma QuotientBy16(x: int, q: int, r: int)
    requires x == 16 * q + r && 0 <= r < 16
    ensures x / 16 == q
  {}

  lemma ByteRemainder(x: int, q: int, r: int)
    requires x == q * 256 + r && 0 <= r < 256
    ensures x % 256 == r
  {
    var q', r' := x / 256, x % 256;
    assert x == q' * 256 + r' && 0 <= r' < 256;
    assert q == q';
  }

  /** Every number is turns of a byte, the byte at `k`, and the bits below. */
  lemma ByteSplits(x: int, k: nat) returns (high: int, rest: int)
    requires k in {0, 2, 4}
    ensures x == (high * 256 + ByteAt(x, k)) * (if k == 0 then 1 else if k == 2 then 4 else 16) + rest
    ensures 0 <= rest < if k == 0 then 1 else if k == 2 then 4 else 16
  {
    SmallPowers();
    high := x / Pow2(k) / 256;
    rest := x - x / Pow2(k) * Pow2(k);
  }

  /** The emitted byte lies far below the bits that wrap. */
  lemma WrapIsInvisible(x: int, k: nat)
    requires k in {0, 2, 4}
    ensures ByteAt(Wrap32(x), k) == ByteAt(x, k)
  {
    hide Wrap32, Turns, ByteAt;
    WrapIs(x);
    var high, rest := ByteSplits(x, k);
    var q := if k == 0 then 0x100_0000 else if k == 2 then 0x40_0000 else 0x10_0000;
    ByteIs(Wrap32(x), k, high - Turns(x) * q, ByteAt(x, k), rest);
  }

  /** For every input and every accumulator: the wrapping decoder emits what the unbounded
      one emits for the letters of the alphabet alone. */
  lemma {:induction false} DecoderIsUnbounded(s: string, acc: int, valb: BitCount)
    ensures DecodeFrom(s, Wrap32(acc), valb) == Emit(Sextets(s), acc, valb)
    decreases |s|
  {
    hide Wrap32, ByteAt, ValueOf;
    if s != [] {
      if !InAlphabet(s[0]) {
        assert Sextets(s) == Sextets(s[1..]);
        DecoderIsUnbounded(s[1..], acc, valb);
      } else {
        var acc' := acc * 64 + Value(s[0]);
        WrapStep(acc, Value(s[0]));
        assert Sextets(s)[1..] == Sextets(s[1..]);
        if valb + 6 >= 0 {
          WrapIsInvisible(acc', valb + 6);
          DecoderIsUnbounded(s[1..], acc', valb + 6 - 8);
        } else {
          DecoderIsUnbounded(s[1..], acc', valb + 6);
        }
      }
    }
  }

  function Byte0(a: int, b: int): int {
    a * 4 + b / 16
  }

  function Byte1(b: int, c: int): int {
    b % 16 * 16 + c / 4
  }

  function Byte2(c: int, d: int): int {
    c % 4 * 64 + d
  }

  /** Four values carry three bytes; a rest of three carries two, of two one, of one none. */
  function FromSextets(x: seq<Sextet>): seq<Byte> {
    if |x| < 2 then []
    else if |x| == 2 then [Byte0(x[0], x[1])]
    else if |x| == 3 then [Byte0(x[0], x[1]), Byte1(x[1], x[2])]
    else [Byte0(x[0], x[1]), Byte1(x[1], x[2]), Byte2(x[2], x[3])] + FromSextets(x[4..])
  }

  lemma HalvesOf(b: Sextet, c: Sextet)
    ensures b == b / 16 * 16 + b % 16 && 0 <= b / 16 < 4
    ensures c == c / 4 * 4 + c % 4 && 0 <= c / 4 < 16
  {}

  /** What accumulated before a group leaves no trace in the bytes of the group. */
  lemma StaleBitsAreInvisible(acc: int, a: Sextet, b: Sextet, c: Sextet, d: Sextet)
    ensures ByteAt((acc * 64 + a) * 64 + b, 4) == Byte0(a, b)
    ensures ByteAt(((acc * 64 + a) * 64 + b) * 64 + c, 2) == Byte1(b, c)
    ensures ByteAt((((acc * 64 + a) * 64 + b) * 64 + c) * 64 + d, 0) == Byte2(c, d)
  {
    hide ByteAt;
    HalvesOf(b, c);
    ByteIs((acc * 64 + a) * 64 + b, 4, acc, Byte0(a, b), b % 16);
    ByteIs(((acc * 64 + a) * 64 + b) * 64 + c, 2, (acc * 64 + a) * 4 + b / 16, Byte1(b, c), c % 4);
    ByteIs((((acc * 64 + a) * 64 + b) * 64 + c) * 64 + d, 0, ((acc * 64 + a) * 64 + b) * 16 + c / 4, Byte2(c, d), 0);
  }

  lemma {:induction false} EmitIsGroups(x: seq<Sextet>, acc: int)
    ensures Emit(x, acc, -8) == FromSextets(x)
    decreases |x|
  {
    hide ByteAt;
    if |x| == 1 {
      assert Emit(x[1..], acc * 64 + x[0], -2) == [];
    } else if |x| >= 2 {
      var acc2 := (acc * 64 + x[0]) * 64 + x[1];
      var c, d := if |x| > 2 then x[2] else 0, if |x| > 3 then x[3] else 0;
      StaleBitsAreInvisible(acc, x[0], x[1], c, d);
      assert x[1..][1..] == x[2..];
      assert Emit(x, acc, -8) == [ByteAt(acc2, 4)] + Emit(x[2..], acc2, -4);
      if |x| >= 3 {
        var acc3 := acc2 * 64 + x[2];
        assert x[2..][1..] == x[3..];
        assert Emit(x[2..], acc2, -4) == [ByteAt(acc3, 2)] + Emit(x[3..], acc3, -6);
        if |x| >= 4 {
          var acc4 := acc3 * 64 + x[3];
          assert x[3..][1..] == x[4..];
          assert Emit(x[3..], acc3, -6) == [ByteAt(acc4, 0)] + Emit(x[4..], acc4, -8);
          EmitIsGroups(x[4..], acc4);
        }
      }
    }
  }

  /** The decoder regroups the values of the letters, whatever else the input contains. */
  lemma DecodeRegroups(s: string)
    ensures Decode(s) == FromSextets(Sextets(s))
  {
    assert Wrap32(0) == 0;
    DecoderIsUnbounded(s, 0, -8);
    EmitIsGroups(Sextets(s), 0);
  }
}
