/** The portable population count of 32-bit words, against counting the bits one by one. */
module Popcount32 {
  type Word = bv32

  /** The number of set bits. */
  ghost function Ones(x: Word): nat
    decreases x
  {
    if x == 0 then 0 else (if x & 1 == 1 then 1 else 0) + Ones(x >> 1)
  }

  // Operations named so that a proof can keep them folded.

  function Nat(x: Word): nat {
    x as nat
  }

  function Plus(a: Word, b: Word): Word {
    a + b
  }

  function Byte(y: Word, j: nat): Word
    requires j < 4
  {
    match j
    case 0 => y & 0xFF
    case 1 => (y >> 8) & 0xFF
    case 2 => (y >> 16) & 0xFF
    case _ => (y >> 24) & 0xFF
  }

  // ---- Counting by nibbles and bytes ----------------------------------------------

  function BitAt(x: Word, k: nat): nat
    requires k < 4
  {
    match k
    case 0 => if x & 1 == 1 then 1 else 0
    case 1 => if (x >> 1) & 1 == 1 then 1 else 0
    case 2 => if (x >> 2) & 1 == 1 then 1 else 0
    case _ => if (x >> 3) & 1 == 1 then 1 else 0
  }

  function Nibble(x: Word): Word {
    (x & 1) + ((x >> 1) & 1) + ((x >> 2) & 1) + ((x >> 3) & 1)
  }

  function Drop4(x: Word): Word {
    x >> 4
  }

  function Drop8(x: Word): Word {
    x >> 8
  }

  function ByteCount(x: Word): Word {
    Plus(Nibble(x), Nibble(Drop4(x)))
  }

  function Half(x: Word): Word {
    x >> 1
  }

  lemma HalfBits(x: Word)
    ensures BitAt(x, 1) == BitAt(Half(x), 0) && BitAt(x, 2) == BitAt(Half(Half(x)), 0)
    ensures BitAt(x, 3) == BitAt(Half(Half(Half(x))), 0) && Drop4(x) == Half(Half(Half(Half(x))))
  {}

  lemma OneBit(x: Word)
    ensures Ones(x) == BitAt(x, 0) + Ones(Half(x))
  {}

  lemma OneNibble(x: Word)
    ensures Ones(x) == BitAt(x, 0) + BitAt(x, 1) + BitAt(x, 2) + BitAt(x, 3) + Ones(Drop4(x))
  {
    hide *;
    HalfBits(x);
    OneBit(x);
    OneBit(Half(x));
    OneBit(Half(Half(x)));
    OneBit(Half(Half(Half(x))));
  }

  lemma NibbleAdds(x: Word)
    ensures Nat(Nibble(x)) == BitAt(x, 0) + BitAt(x, 1) + BitAt(x, 2) + BitAt(x, 3)
  {}

  lemma NibbleBound(x: Word)
    ensures Nibble(x) <= 4
  {}

  lemma Successor(s: Word)
    requires s < 64
    ensures Nat(Plus(s, 1)) == Nat(s) + 1
  {}

  lemma LessOne(s: Word, t: Word, u: Word)
    requires s <= 32 && 0 < t <= 32 && u == t - 1
    ensures u < t && u <= 32 && Plus(s, u) < 64 && Plus(s, t) == Plus(Plus(s, u), 1) && t == Plus(u, 1)
  {}

  lemma PlusZero(s: Word)
    ensures Plus(s, 0) == s
  {}

  lemma NatOfZero()
    ensures Nat(0) == 0
  {}

  /** Small counts add up without a carry out of the word. */
  lemma {:induction false} Add(s: Word, t: Word)
    requires s <= 32 && t <= 32
    ensures Nat(Plus(s, t)) == Nat(s) + Nat(t)
    decreases t
  {
    hide Nat, Plus;
    if t == 0 {
      PlusZero(s);
      NatOfZero();
    } else {
      var u := t - 1;
      LessOne(s, t, u);
      Add(s, u);
      Successor(Plus(s, u));
      Successor(u);
    }
  }

  lemma AddBound(s: Word, t: Word, bound: Word)
    requires s <= bound && t <= bound && bound <= 32
    ensures Plus(s, t) <= bound + bound
  {}

  lemma ShiftByte(x: Word)
    ensures Drop4(Drop4(x)) == Drop8(x)
  {}

  lemma OneByte(x: Word)
    ensures Ones(x) == Nat(ByteCount(x)) + Ones(Drop8(x))
    ensures ByteCount(x) <= 8
  {
    hide Ones, Nibble, BitAt, Nat, Plus, Drop4, Drop8;
    var y := Drop4(x);
    ShiftByte(x);
    OneNibble(x);
    OneNibble(y);
    NibbleAdds(x);
    NibbleAdds(y);
    NibbleBound(x);
    NibbleBound(y);
    Add(Nibble(x), Nibble(y));
    AddBound(Nibble(x), Nibble(y), 4);
  }

  // ---- Counting in parallel -------------------------------------------------------

  /** Each two-bit field holds the count of its two bits. */
  function Pairs(x: Word): Word {
    (x & 0x55555555) + ((x >> 1) & 0x55555555)
  }

  function Fours(p: Word): Word {
    (p & 0x33333333) + ((p >> 2) & 0x33333333)
  }

  function Eights(q: Word): Word {
    (q + (q >> 4)) & 0x0F0F0F0F
  }

  function Reduced(x: Word): Word {
    x - ((x >> 1) & 0x55555555)
  }

  lemma PairsAndOdds(x: Word)
    ensures Pairs(x) + ((x >> 1) & 0x55555555) == x
  {}

  lemma Difference(x: Word, p: Word)
    requires p + ((x >> 1) & 0x55555555) == x
    ensures Reduced(x) == p
  {}

  /** Subtracting the odd bits leaves the counts of the pairs. */
  lemma SubtractOdds(x: Word)
    ensures Reduced(x) == Pairs(x)
  {
    hide Pairs, Reduced;
    PairsAndOdds(x);
    Difference(x, Pairs(x));
  }

  function Parallel(x: Word): Word {
    Eights(Fours(Pairs(x)))
  }

  lemma ParallelMask(x: Word)
    ensures Parallel(x) & 0x0F0F0F0F == Parallel(x)
  {}

  lemma Field0(x: Word)
    ensures Byte(Parallel(x), 0) == ByteCount(x)
  {}

  lemma Field1(x: Word)
    ensures Byte(Parallel(x), 1) == ByteCount(Drop8(x))
  {}

  lemma Field2(x: Word)
    ensures Byte(Parallel(x), 2) == ByteCount(Drop8(Drop8(x)))
  {}

  lemma Field3(x: Word)
    ensures Byte(Parallel(x), 3) == ByteCount(Drop8(Drop8(Drop8(x))))
  {}

  function Gathered(y: Word): Word {
    (y * 0x01010101) >> 24
  }

  /** The multiplication adds the four bytes into the highest one. */
  lemma Gather(y: Word)
    requires y & 0x0F0F0F0F == y
    ensures Gathered(y) == Plus(Plus(Byte(y, 0), Byte(y, 1)), Plus(Byte(y, 2), Byte(y, 3)))
  {}

  lemma Sum2(a: Word, b: Word, bound: Word)
    requires a <= bound && b <= bound && bound <= 32
    ensures Nat(Plus(a, b)) == Nat(a) + Nat(b) && Plus(a, b) <= bound + bound
  {
    Add(a, b);
    AddBound(a, b, bound);
  }

  lemma Sum4(a: Word, b: Word, c: Word, d: Word)
    requires a <= 8 && b <= 8 && c <= 8 && d <= 8
    ensures Nat(Plus(Plus(a, b), Plus(c, d))) == Nat(a) + Nat(b) + Nat(c) + Nat(d)
    ensures Plus(Plus(a, b), Plus(c, d)) <= 32
  {
    hide Nat, Plus;
    Sum2(a, b, 8);
    Sum2(c, d, 8);
    Sum2(Plus(a, b), Plus(c, d), 16);
  }

  lemma NothingLeft(x: Word)
    ensures Drop8(Drop8(Drop8(Drop8(x)))) == 0
  {}

  lemma NoOnes()
    ensures Ones(0) == 0
  {}

  lemma OnesByBytes(x: Word)
    ensures Ones(x) == Nat(ByteCount(x)) + Nat(ByteCount(Drop8(x))) + Nat(ByteCount(Drop8(Drop8(x)))) + Nat(ByteCount(Drop8(Drop8(Drop8(x)))))
    ensures ByteCount(x) <= 8
    ensures ByteCount(Drop8(x)) <= 8
    ensures ByteCount(Drop8(Drop8(x))) <= 8
    ensures ByteCount(Drop8(Drop8(Drop8(x)))) <= 8
  {
    hide Ones, ByteCount, Nat, Drop8;
    NothingLeft(x);
    NoOnes();
    OneByte(x);
    OneByte(Drop8(x));
    OneByte(Drop8(Drop8(x)));
    OneByte(Drop8(Drop8(Drop8(x))));
  }

  lemma Counted(x: Word)
    ensures Nat(Gathered(Parallel(x))) == Ones(x)
  {
    hide Ones, Parallel, Gathered, Plus, Byte, ByteCount, Nat, Drop8;
    ParallelMask(x);
    Gather(Parallel(x));
    Field0(x);
    Field1(x);
    Field2(x);
    Field3(x);
    OnesByBytes(x);
    Sum4(ByteCount(x), ByteCount(Drop8(x)), ByteCount(Drop8(Drop8(x))), ByteCount(Drop8(Drop8(Drop8(x)))));
  }

  /** What the four statements of the implementation compute, one by one. */
  lemma Statements(x: Word)
    ensures x - ((x >> 1) & 0x55555555) == Reduced(x)
    ensures (x & 0x33333333) + ((x >> 2) & 0x33333333) == Fours(x)
    ensures (x + (x >> 4)) & 0x0F0F0F0F == Eights(x)
    ensures (x * 0x01010101) >> 24 == Gathered(x)
    ensures x as nat == Nat(x)
  {}

  /** The shifts, the masks and the final multiplication count the set bits of every word. */
  method PopcountImpl(word: Word) returns (r: nat)
    ensures r == Ones(word)
  {
    hide Ones, Reduced, Pairs, Fours, Eights, Gathered, Nat;
    var x := word;
    Statements(x);
    x := x - ((x >> 1) & 0x55555555);
    Statements(x);
    x := (x & 0x33333333) + ((x >> 2) & 0x33333333);
    Statements(x);
    x := (x + (x >> 4)) & 0x0F0F0F0F;
    Statements(x);
    x := (x * 0x01010101) >> 24;
    Statements(x);
    r := x as nat;
    SubtractOdds(word);
    Counted(word);
  }
}
