/** The portable population count of 64-bit words, against counting the bits one by one. */
module Popcount64 {
  type Word = bv64

  /** The number of set bits. */
  ghost function Ones(x: Word): nat
    decreases x
  {
    if x == 0 then 0 else (if x & 1 == 1 then 1 else 0) + Ones(x >> 1)
  }

  // Operations named so that a proof can keep them folded.

  function Nat(x: Word): nat {
    x as nat
  }

  function Plus(a: Word, b: Word): Word {
    a + b
  }

  function Byte(y: Word, j: nat): Word
    requires j < 8
  {
    match j
    case 0 => y & 0xFF
    case 1 => (y >> 8) & 0xFF
    case 2 => (y >> 16) & 0xFF
    case 3 => (y >> 24) & 0xFF
    case 4 => (y >> 32) & 0xFF
    case 5 => (y >> 40) & 0xFF
    case 6 => (y >> 48) & 0xFF
    case _ => (y >> 56) & 0xFF
  }

  // ---- Counting by nibbles and bytes ----------------------------------------------

  function BitAt(x: Word, k: nat): nat
    requires k < 4
  {
    match k
    case 0 => if x & 1 == 1 then 1 else 0
    case 1 => if (x >> 1) & 1 == 1 then 1 else 0
    case 2 => if (x >> 2) & 1 == 1 then 1 else 0
    case _ => if (x >> 3) & 1 == 1 then 1 else 0
  }

  function Nibble(x: Word): Word {
    (x & 1) + ((x >> 1) & 1) + ((x >> 2) & 1) + ((x >> 3) & 1)
  }

  function Drop4(x: Word): Word {
    x >> 4
  }

  function Drop8(x: Word): Word {
    x >> 8
  }

  function ByteCount(x: Word): Word {
    Plus(Nibble(x), Nibble(Drop4(x)))
  }

  function Half(x: Word): Word {
    x >> 1
  }

  lemma HalfBits(x: Word)
    ensures BitAt(x, 1) == BitAt(Half(x), 0) && BitAt(x, 2) == BitAt(Half(Half(x)), 0)
    ensures BitAt(x, 3) == BitAt(Half(Half(Half(x))), 0) && Drop4(x) == Half(Half(Half(Half(x))))
  {}

  lemma OneBit(x: Word)
    ensures Ones(x) == BitAt(x, 0) + Ones(Half(x))
  {}

  lemma OneNibble(x: Word)
    ensures Ones(x) == BitAt(x, 0) + BitAt(x, 1) + BitAt(x, 2) + BitAt(x, 3) + Ones(Drop4(x))
  {
    hide *;
    HalfBits(x);
    OneBit(x);
    OneBit(Half(x));
    OneBit(Half(Half(x)));
    OneBit(Half(Half(Half(x))));
  }

  lemma NibbleAdds(x: Word)
    ensures Nat(Nibble(x)) == BitAt(x, 0) + BitAt(x, 1) + BitAt(x, 2) + BitAt(x, 3)
  {}

  lemma NibbleBound(x: Word)
    ensures Nibble(x) <= 4
  {}

  lemma Successor(s: Word)
    requires s < 64
    ensures Nat(Plus(s, 1)) == Nat(s) + 1
  {}

  lemma LessOne(s: Word, t: Word, u: Word)
    requires s <= 32 && 0 < t <= 32 && u == t - 1
    ensures u < t && u <= 32 && Plus(s, u) < 64 && Plus(s, t) == Plus(Plus(s, u), 1) && t == Plus(u, 1)
  {}

  lemma PlusZero(s: Word)
    ensures Plus(s, 0) == s
  {}

  lemma NatOfZero()
    ensures Nat(0) == 0
  {}

  /** Small counts add up without a carry out of the word. */
  lemma {:induction false} Add(s: Word, t: Word)
    requires s <= 32 && t <= 32
    ensures Nat(Plus(s, t)) == Nat(s) + Nat(t)
    decreases t
  {
    hide Nat, Plus;
    if t == 0 {
      PlusZero(s);
      NatOfZero();
    } else {
      var u := t - 1;
      LessOne(s, t, u);
      Add(s, u);
      Successor(Plus(s, u));
      Successor(u);
    }
  }

  lemma AddBound(s: Word, t: Word, bound: Word)
    requires s <= bound && t <= bound && bound <= 32
    ensures Plus(s, t) <= bound + bound
  {}

  lemma ShiftByte(x: Word)
    ensures Drop4(Drop4(x)) == Drop8(x)
  {}

  lemma OneByte(x: Word)
    ensures Ones(x) == Nat(ByteCount(x)) + Ones(Drop8(x))
    ensures ByteCount(x) <= 8
  {
    hide Ones, Nibble, BitAt, Nat, Plus, Drop4, Drop8;
    var y := Drop4(x);
    ShiftByte(x);
    OneNibble(x);
    OneNibble(y);
    NibbleAdds(x);
    NibbleAdds(y);
    NibbleBound(x);
    NibbleBound(y);
    Add(Nibble(x), Nibble(y));
    AddBound(Nibble(x), Nibble(y), 4);
  }

  // ---- Counting in parallel -------------------------------------------------------

  /** Each two-bit field holds the count of its two bits. */
  function Pairs(x: Word): Word {
    (x & 0x5555555555555555) + ((x >> 1) & 0x5555555555555555)
  }

  function Fours(p: Word): Word {
    (p & 0x3333333333333333) + ((p >> 2) & 0x3333333333333333)
  }

  function Eights(q: Word): Word {
    (q + (q >> 4)) & 0x0F0F0F0F0F0F0F0F
  }

  function Reduced(x: Word): Word {
    x - ((x >> 1) & 0x5555555555555555)
  }

  lemma PairsAndOdds(x: Word)
    ensures Pairs(x) + ((x >> 1) & 0x5555555555555555) == x
  {}

  lemma Difference(x: Word, p: Word)
    requires p + ((x >> 1) & 0x5555555555555555) == x
    ensures Reduced(x) == p
  {}

  /** Subtracting the odd bits leaves the counts of the pairs. */
  lemma SubtractOdds(x: Word)
    ensures Reduced(x) == Pairs(x)
  {
    hide Pairs, Reduced;
    PairsAndOdds(x);
    Difference(x, Pairs(x));
  }

  function Parallel(x: Word): Word {
    Eights(Fours(Pairs(x)))
  }

  lemma ParallelMask(x: Word)
    ensures Parallel(x) & 0x0F0F0F0F0F0F0F0F == Parallel(x)
  {}

  lemma Field0(x: Word)
    ensures Byte(Parallel(x), 0) == ByteCount(x)
  {}

  lemma Field1(x: Word)
    ensures Byte(Parallel(x), 1) == ByteCount(Drop8(x))
  {}

  lemma Field2(x: Word)
    ensures Byte(Parallel(x), 2) == ByteCount(Drop8(Drop8(x)))
  {}

  lemma Field3(x: Word)
    ensures Byte(Parallel(x), 3) == ByteCount(Drop8(Drop8(Drop8(x))))
  {}

  lemma Field4(x: Word)
    ensures Byte(Parallel(x), 4) == ByteCount(Drop8(Drop8(Drop8(Drop8(x)))))
  {}

  lemma Field5(x: Word)
    ensures Byte(Parallel(x), 5) == ByteCount(Drop8(Drop8(Drop8(Drop8(Drop8(x))))))
  {}

  lemma Field6(x: Word)
    ensures Byte(Parallel(x), 6) == ByteCount(Drop8(Drop8(Drop8(Drop8(Drop8(Drop8(x)))))))
  {}

  lemma Field7(x: Word)
    ensures Byte(Parallel(x), 7) == ByteCount(Drop8(Drop8(Drop8(Drop8(Drop8(Drop8(Drop8(x))))))))
  {}

  function Gathered(y: Word): Word {
    (y * 0x0101010101010101) >> 56
  }

  // Multiplying by the constant is multiplying by three factors, each of which adds the
  // bytes of one half to the bytes of the other.

  function Times8(y: Word): Word {
    y * 0x101
  }

  function Times16(z: Word): Word {
    z * 0x10001
  }

  function Times32(w: Word): Word {
    w * 0x1_0000_0001
  }

  function AddShifted8(y: Word): Word {
    y + (y << 8)
  }

  function AddShifted16(z: Word): Word {
    z + (z << 16)
  }

  function AddShifted32(w: Word): Word {
    w + (w << 32)
  }

  lemma Times8IsAddShifted(y: Word)
    ensures Times8(y) == AddShifted8(y)
  {}

  lemma AddShifted16IsProduct(z: Word)
    ensures AddShifted16(z) == z * 0x10001
  {}

  lemma Times16IsAddShifted(z: Word)
    ensures Times16(z) == AddShifted16(z)
  {
    hide AddShifted16;
    AddShifted16IsProduct(z);
  }

  lemma AddShifted32IsProduct(w: Word)
    ensures AddShifted32(w) == w * 0x1_0000_0001
  {}

  lemma Times32IsAddShifted(w: Word)
    ensures Times32(w) == AddShifted32(w)
  {
    hide AddShifted32;
    AddShifted32IsProduct(w);
  }

  function Top(v: Word): Word {
    v >> 56
  }

  lemma AddTwoMask(y: Word)
    requires y & 0x0F0F0F0F0F0F0F0F == y
    ensures AddShifted8(y) & 0x1F1F1F1F1F1F1F1F == AddShifted8(y)
  {}

  lemma AddTwo1(y: Word)
    requires y & 0x0F0F0F0F0F0F0F0F == y
    ensures Byte(AddShifted8(y), 1) == Plus(Byte(y, 1), Byte(y, 0))
  {}

  lemma AddTwo3(y: Word)
    requires y & 0x0F0F0F0F0F0F0F0F == y
    ensures Byte(AddShifted8(y), 3) == Plus(Byte(y, 3), Byte(y, 2))
  {}

  lemma AddTwo5(y: Word)
    requires y & 0x0F0F0F0F0F0F0F0F == y
    ensures Byte(AddShifted8(y), 5) == Plus(Byte(y, 5), Byte(y, 4))
  {}

  lemma AddTwo7(y: Word)
    requires y & 0x0F0F0F0F0F0F0F0F == y
    ensures Byte(AddShifted8(y), 7) == Plus(Byte(y, 7), Byte(y, 6))
  {}

  lemma AddFourMask(z: Word)
    requires z & 0x1F1F1F1F1F1F1F1F == z
    ensures AddShifted16(z) & 0x3F3F3F3F3F3F3F3F == AddShifted16(z)
  {}

  lemma AddFour3(z: Word)
    requires z & 0x1F1F1F1F1F1F1F1F == z
    ensures Byte(AddShifted16(z), 3) == Plus(Byte(z, 3), Byte(z, 1))
  {}

  lemma AddFour7(z: Word)
    requires z & 0x1F1F1F1F1F1F1F1F == z
    ensures Byte(AddShifted16(z), 7) == Plus(Byte(z, 7), Byte(z, 5))
  {}

  lemma AddEight(w: Word)
    requires w & 0x3F3F3F3F3F3F3F3F == w
    ensures Top(AddShifted32(w)) == Plus(Byte(w, 7), Byte(w, 3))
  {}

  lemma FirstFactor(y: Word)
    ensures Times8(y) == y * 0x101
  {}

  lemma SecondFactor(y: Word, z: Word)
    requires z == y * 0x101
    ensures Times16(z) == y * 0x1010101
  {}

  lemma ThirdFactor(y: Word, w: Word)
    requires w == y * 0x1010101
    ensures Top(Times32(w)) == Gathered(y)
  {}

  lemma Factors(y: Word)
    ensures Gathered(y) == Top(Times32(Times16(Times8(y))))
  {
    hide *;
    FirstFactor(y);
    SecondFactor(y, Times8(y));
    ThirdFactor(y, Times16(Times8(y)));
  }

  /** The multiplication adds the eight bytes into the highest one. */
  lemma Gather(y: Word)
    requires y & 0x0F0F0F0F0F0F0F0F == y
    ensures Gathered(y) == Plus(Plus(Plus(Byte(y, 7), Byte(y, 6)), Plus(Byte(y, 5), Byte(y, 4))),
                                Plus(Plus(Byte(y, 3), Byte(y, 2)), Plus(Byte(y, 1), Byte(y, 0))))
  {
    hide *;
    Factors(y);
    var z := AddShifted8(y);
    var w := AddShifted16(z);
    Times8IsAddShifted(y);
    Times16IsAddShifted(z);
    Times32IsAddShifted(w);
    AddTwoMask(y);
    AddTwo1(y);
    AddTwo3(y);
    AddTwo5(y);
    AddTwo7(y);
    AddFourMask(z);
    AddFour3(z);
    AddFour7(z);
    AddEight(w);
  }

  lemma Sum2(a: Word, b: Word, bound: Word)
    requires a <= bound && b <= bound && bound <= 32
    ensures Nat(Plus(a, b)) == Nat(a) + Nat(b) && Plus(a, b) <= bound + bound
  {
    Add(a, b);
    AddBound(a, b, bound);
  }

  lemma Sum4(a: Word, b: Word, c: Word, d: Word)
    requires a <= 8 && b <= 8 && c <= 8 && d <= 8
    ensures Nat(Plus(Plus(a, b), Plus(c, d))) == Nat(a) + Nat(b) + Nat(c) + Nat(d)
    ensures Plus(Plus(a, b), Plus(c, d)) <= 32
  {
    hide Nat, Plus;
    Sum2(a, b, 8);
    Sum2(c, d, 8);
    Sum2(Plus(a, b), Plus(c, d), 16);
  }

  lemma Sum8(a: Word, b: Word, c: Word, d: Word, e: Word, f: Word, g: Word, h: Word)
    requires a <= 8 && b <= 8 && c <= 8 && d <= 8 && e <= 8 && f <= 8 && g <= 8 && h <= 8
    ensures Nat(Plus(Plus(Plus(a, b), Plus(c, d)), Plus(Plus(e, f), Plus(g, h))))
         == Nat(a) + Nat(b) + Nat(c) + Nat(d) + Nat(e) + Nat(f) + Nat(g) + Nat(h)
  {
    hide Nat, Plus;
    Sum4(a, b, c, d);
    Sum4(e, f, g, h);
    Sum2(Plus(Plus(a, b), Plus(c, d)), Plus(Plus(e, f), Plus(g, h)), 32);
  }

  lemma NothingLeft(x: Word)
    ensures Drop8(Drop8(Drop8(Drop8(Drop8(Drop8(Drop8(Drop8(x)))))))) == 0
  {}

  lemma NoOnes()
    ensures Ones(0) == 0
  {}

  lemma OnesByBytes(x: Word)
    ensures Ones(x) == Nat(ByteCount(x)) + Nat(ByteCount(Drop8(x))) + Nat(ByteCount(Drop8(Drop8(x)))) + Nat(ByteCount(Drop8(Drop8(Drop8(x))))) + Nat(ByteCount(Drop8(Drop8(Drop8(Drop8(x)))))) + Nat(ByteCount(Drop8(Drop8(Drop8(Drop8(Drop8(x))))))) + Nat(ByteCount(Drop8(Drop8(Drop8(Drop8(Drop8(Drop8(x)))))))) + Nat(ByteCount(Drop8(Drop8(Drop8(Drop8(Drop8(Drop8(Drop8(x)))))))))
    ensures ByteCount(x) <= 8
    ensures ByteCount(Drop8(x)) <= 8
    ensures ByteCount(Drop8(Drop8(x))) <= 8
    ensures ByteCount(Drop8(Drop8(Drop8(x)))) <= 8
    ensures ByteCount(Drop8(Drop8(Drop8(Drop8(x))))) <= 8
    ensures ByteCount(Drop8(Drop8(Drop8(Drop8(Drop8(x)))))) <= 8
    ensures ByteCount(Drop8(Drop8(Drop8(Drop8(Drop8(Drop8(x))))))) <= 8
    ensures ByteCount(Drop8(Drop8(Drop8(Drop8(Drop8(Drop8(Drop8(x)))))))) <= 8
  {
    hide Ones, ByteCount, Nat, Drop8;
    NothingLeft(x);
    NoOnes();
    OneByte(x);
    OneByte(Drop8(x));
    OneByte(Drop8(Drop8(x)));
    OneByte(Drop8(Drop8(Drop8(x))));
    OneByte(Drop8(Drop8(Drop8(Drop8(x)))));
    OneByte(Drop8(Drop8(Drop8(Drop8(Drop8(x))))));
    OneByte(Drop8(Drop8(Drop8(Drop8(Drop8(Drop8(x)))))));
    OneByte(Drop8(Drop8(Drop8(Drop8(Drop8(Drop8(Drop8(x))))))));
  }

  lemma Counted(x: Word)
    ensures Nat(Gathered(Parallel(x))) == Ones(x)
  {
    hide Ones, Parallel, Gathered, Plus, Byte, ByteCount, Nat, Drop8;
    ParallelMask(x);
    Gather(Parallel(x));
    Field0(x);
    Field1(x);
    Field2(x);
    Field3(x);
    Field4(x);
    Field5(x);
    Field6(x);
    Field7(x);
    OnesByBytes(x);
    Sum8(ByteCount(Drop8(Drop8(Drop8(Drop8(Drop8(Drop8(Drop8(x)))))))), ByteCount(Drop8(Drop8(Drop8(Drop8(Drop8(Drop8(x))))))), ByteCount(Drop8(Drop8(Drop8(Drop8(Drop8(x)))))), ByteCount(Drop8(Drop8(Drop8(Drop8(x))))), ByteCount(Drop8(Drop8(Drop8(x)))), ByteCount(Drop8(Drop8(x))), ByteCount(Drop8(x)), ByteCount(x));
  }

  /** What the four statements of the implementation compute, one by one. */
  lemma Statements(x: Word)
    ensures x - ((x >> 1) & 0x5555555555555555) == Reduced(x)
    ensures (x & 0x3333333333333333) + ((x >> 2) & 0x3333333333333333) == Fours(x)
    ensures (x + (x >> 4)) & 0x0F0F0F0F0F0F0F0F == Eights(x)
    ensures (x * 0x0101010101010101) >> 56 == Gathered(x)
    ensures x as nat == Nat(x)
  {}

  /** The shifts, the masks and the final multiplication count the set bits of every word. */
  method PopcountImpl(word: Word) returns (r: nat)
    ensures r == Ones(word)
  {
    hide Ones, Reduced, Pairs, Fours, Eights, Gathered, Nat;
    var x := word;
    Statements(x);
    x := x - ((x >> 1) & 0x5555555555555555);
    Statements(x);
    x := (x & 0x3333333333333333) + ((x >> 2) & 0x3333333333333333);
    Statements(x);
    x := (x + (x >> 4)) & 0x0F0F0F0F0F0F0F0F;
    Statements(x);
    x := (x * 0x0101010101010101) >> 56;
    Statements(x);
    r := x as nat;
    SubtractOdds(word);
    Counted(word);
  }
}
