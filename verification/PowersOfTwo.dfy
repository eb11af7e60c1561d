/** Powers of two near a word: bit_width, bit_floor, bit_ceil and has_single_bit. */
module PowersOfTwo {
  import opened Powers
  import opened ZeroCounts

  ghost predicate IsPower(n: nat) {
    exists k: nat :: n == Pow2(k)
  }

  /** `p` is the greatest power of two that is at most `n`. */
  ghost predicate PowerBelow(p: nat, n: nat) {
    IsPower(p) && p <= n && forall q: nat | IsPower(q) && q <= n :: q <= p
  }

  /** `p` is the least power of two that is at least `n`. */
  ghost predicate PowerAbove(p: nat, n: nat) {
    IsPower(p) && n <= p && forall q: nat | IsPower(q) && n <= q :: p <= q
  }

  /** `w` is the position above the highest set bit of `n`. */
  ghost predicate IsWidth(w: nat, n: nat) {
    n < Pow2(w) && (w > 0 ==> Pow2(w - 1) <= n)
  }

  lemma WidthPicksFloor(w: nat, n: nat)
    requires IsWidth(w, n) && n > 0
    ensures w > 0 && PowerBelow(Pow2(w - 1), n)
  {
    assert w > 0;
    assert IsPower(Pow2(w - 1));
    forall q: nat | IsPower(q) && q <= n
      ensures q <= Pow2(w - 1)
    {
      var k: nat :| q == Pow2(k);
      if k >= w {
        PowerMonotone(w, k);
      } else {
        PowerMonotone(k, w - 1);
      }
    }
  }

  lemma WidthPicksCeiling(w: nat, n: nat)
    requires n > 0 && IsWidth(w, n - 1)
    ensures PowerAbove(Pow2(w), n)
  {
    assert IsPower(Pow2(w));
    forall q: nat | IsPower(q) && n <= q
      ensures Pow2(w) <= q
    {
      var k: nat :| q == Pow2(k);
      if k < w {
        PowerMonotone(k, w - 1);
      } else {
        PowerMonotone(w, k);
      }
    }
  }

  lemma ZeroIsNoPower()
    ensures !IsPower(0)
  {
  }

  lemma PowerOfHalf(n: nat)
    ensures IsPower(2 * n) <==> IsPower(n)
    ensures IsPower(2 * n + 1) <==> n == 0
  {
    assert Pow2(0) == 1;
    if IsPower(2 * n) {
      var k: nat :| 2 * n == Pow2(k);
      assert k > 0 && n == Pow2(k - 1);
    }
    if IsPower(n) {
      var k: nat :| n == Pow2(k);
      assert 2 * n == Pow2(k + 1);
    }
    if IsPower(2 * n + 1) {
      var k: nat :| 2 * n + 1 == Pow2(k);
      assert k == 0;
    }
  }

  lemma ZeroWidth()
    ensures Wide(0) == 0 && Width(0) == 0 && Pow2(0) == 1
  {}

  // ---- 32 bits ----------------------------------------------------------------------

  lemma HalfShape32(x: bv32)
    ensures Half(x) < 0x8000_0000
    ensures x & 1 == 1 ==> x == (Half(x) << 1) | 1
    ensures x & 1 != 1 ==> x == Half(x) << 1
  {}

  lemma HalfNat32(x: bv32)
    ensures 2 * Nat(Half(x)) <= Nat(x) <= 2 * Nat(Half(x)) + 1
    ensures Nat(0) == 0 && (x != 0 ==> Nat(x) > 0)
  {
    ZeroNat32(x);
    hide *;
    ParityOf32(x);
  }

  lemma ParityOf32(x: bv32)
    ensures Nat(x) == 2 * Nat(Half(x)) + if x & 1 == 1 then 1 else 0
  {
    hide Nat, Half;
    HalfShape32(x);
    if x & 1 == 1 {
      PushOne(Half(x), x);
    } else {
      Double(Half(x), x);
    }
  }

  lemma ZeroNat32(x: bv32)
    ensures Nat(0) == 0 && (x != 0 ==> Nat(x) > 0)
  {}

  lemma {:induction false} WidthBrackets32(x: bv32)
    ensures IsWidth(Width(Wide(x)), Nat(x))
    decreases Width(Wide(x))
  {
    hide Nat, Half, Wide, Width;
    HalfNat32(x);
    if x == 0 {
      ZeroWidth();
    } else {
      WidthHalf(x);
      WidthBrackets32(Half(x));
    }
  }

  /** The value of a single bit at place `k`. */
  function Place32(k: nat): nat
    requires k <= 32
  {
    ((1 as bv32) << k) as nat
  }

  lemma LowPlaces32()
    ensures Place32(0) == 1
    ensures Place32(1) == 2 * Place32(0) && Place32(2) == 2 * Place32(1) && Place32(3) == 2 * Place32(2)
    ensures Place32(4) == 2 * Place32(3) && Place32(5) == 2 * Place32(4) && Place32(6) == 2 * Place32(5)
    ensures Place32(7) == 2 * Place32(6) && Place32(8) == 2 * Place32(7) && Place32(9) == 2 * Place32(8)
    ensures Place32(10) == 2 * Place32(9) && Place32(11) == 2 * Place32(10) && Place32(12) == 2 * Place32(11)
    ensures Place32(13) == 2 * Place32(12) && Place32(14) == 2 * Place32(13) && Place32(15) == 2 * Place32(14)
    ensures Place32(16) == 2 * Place32(15)
  {}

  lemma HighPlaces32()
    ensures Place32(17) == 2 * Place32(16) && Place32(18) == 2 * Place32(17) && Place32(19) == 2 * Place32(18)
    ensures Place32(20) == 2 * Place32(19) && Place32(21) == 2 * Place32(20) && Place32(22) == 2 * Place32(21)
    ensures Place32(23) == 2 * Place32(22) && Place32(24) == 2 * Place32(23) && Place32(25) == 2 * Place32(24)
    ensures Place32(26) == 2 * Place32(25) && Place32(27) == 2 * Place32(26) && Place32(28) == 2 * Place32(27)
    ensures Place32(29) == 2 * Place32(28) && Place32(30) == 2 * Place32(29) && Place32(31) == 2 * Place32(30)
  {}

  lemma NextPlace32(k: nat)
    requires 0 < k < 32
    ensures Place32(k) == 2 * Place32(k - 1)
  {
    hide *;
    if k <= 16 {
      LowPlaces32();
    } else {
      HighPlaces32();
    }
  }

  lemma {:induction false} PlaceIsPower32(k: nat)
    requires k < 32
    ensures Place32(k) == Pow2(k)
  {
    hide Place32;
    if k == 0 {
      LowPlaces32();
    } else {
      PlaceIsPower32(k - 1);
      NextPlace32(k);
    }
  }

  method BitWidth32(x: bv32) returns (r: int)
    ensures r >= 0 && IsWidth(r, x as nat)
  {
    WidthBrackets32(x);
    hide Width, IsWidth;
    r := CountlImpl32(x);
    r := 32 - r;
  }

  lemma WidthFits32(w: nat, n: nat)
    requires IsWidth(w, n) && n < Pow2(32)
    ensures w <= 32
  {
    if w > 32 {
      PowerMonotone(32, w - 1);
    }
  }

  lemma FloorPlace32(w: int, n: nat)
    requires w >= 0 && IsWidth(w, n) && 0 < n < 0x1_0000_0000
    ensures 0 < w <= 32 && PowerBelow(Place32(w - 1), n)
  {
    hide Place32, IsPower, PowerBelow;
    Powers32();
    WidthFits32(w, n);
    WidthPicksFloor(w, n);
    PlaceIsPower32(w - 1);
  }

  /** Zero for zero, otherwise the greatest power of two up to `x`. */
  method BitFloor32(x: bv32) returns (r: bv32)
    ensures x == 0 ==> r == 0
    ensures x != 0 ==> PowerBelow(r as nat, x as nat)
  {
    hide IsWidth, IsPower, PowerBelow;
    if x == 0 {
      return 0;
    }
    var width := BitWidth32(x);
    FloorPlace32(width, x as nat);
    return (1 as bv32) << (width - 1);
  }

  lemma Powers32()
    ensures Pow2(31) == 0x8000_0000 && Pow2(32) == 0x1_0000_0000
  {
    assert Pow2(8) == 0x100;
    assert Pow2(16) == 0x1_0000;
    assert Pow2(24) == 0x100_0000;
    assert Pow2(31) == 0x8000_0000;
  }

  /** A power of two at least `n` fits in 32 bits exactly when `n` is at most the greatest one. */
  lemma CeilingFits32(n: nat)
    ensures (exists p: nat :: IsPower(p) && n <= p < 0x1_0000_0000) <==> n <= 0x8000_0000
  {
    Powers32();
    assert IsPower(0x8000_0000) by {
      assert 0x8000_0000 == Pow2(31);
    }
    forall p: nat | IsPower(p) && p < 0x1_0000_0000
      ensures p <= 0x8000_0000
    {
      var k: nat :| p == Pow2(k);
      if k >= 32 {
        PowerMonotone(32, k);
      } else {
        PowerMonotone(k, 31);
      }
    }
  }

  function Next32(x: bv32): bv32 {
    x + 1
  }

  lemma NextOfHalf32(x: bv32)
    requires Next32(x) != 0
    ensures x & 1 != 1 ==> Half(Next32(x)) == Half(x) && Next32(x) & 1 == 1
    ensures x & 1 == 1 ==> Half(Next32(x)) == Next32(Half(x)) && Next32(x) & 1 != 1 && x != 0
    ensures Next32(Half(x)) != 0
  {}

  lemma {:induction false} NextNat32(x: bv32)
    requires Next32(x) != 0
    ensures Nat(Next32(x)) == Nat(x) + 1
    decreases Width(Wide(x))
  {
    hide *;
    NextOfHalf32(x);
    ParityOf32(x);
    ParityOf32(Next32(x));
    if x & 1 == 1 {
      WidthHalf(x);
      NextNat32(Half(x));
    }
  }

  lemma Ends32(x: bv32)
    ensures Nat(x) < 0x1_0000_0000 && Nat(0) == 0
    ensures Next32(x) == 0 ==> Nat(x) == 0x1_0000_0000 - 1
  {}

  lemma Predecessor32(x: bv32, y: bv32)
    requires x != 0 && y == x - 1
    ensures Nat(y) == Nat(x) - 1 && Nat(x) < 0x1_0000_0000
  {
    hide Nat;
    assert x == Next32(y);
    Ends32(x);
    NextNat32(y);
  }

  lemma Successor32(x: bv32, y: bv32)
    requires y == x + 1
    ensures y == 0 ==> Nat(x) == 0x1_0000_0000 - 1
    ensures y != 0 ==> Nat(y) == Nat(x) + 1 < 0x1_0000_0000
    ensures Nat(0) == 0
  {
    hide Nat;
    assert y == Next32(x);
    Ends32(x);
    Ends32(y);
    if y != 0 {
      NextNat32(x);
    }
  }

  lemma CeilingOf32(x: bv32, y: bv32, r: bv32)
    requires x != 0 && y == x - 1 && r == Smear(y) + 1
    ensures Nat(x) <= 0x8000_0000 ==> PowerAbove(Nat(r), Nat(x))
    ensures Nat(x) > 0x8000_0000 ==> r == 0
  {
    hide Nat, Smear, Wide, Width, IsPower, PowerAbove;
    Predecessor32(x, y);
    Successor32(Smear(y), r);
    var w := Width(Wide(y));
    WidthBrackets32(y);
    WidthPicksCeiling(w, Nat(x));
    SmearFills(y);
    Powers32();
    if Nat(x) > 0x8000_0000 {
      CeilingBig32(w, Nat(x));
    } else {
      CeilingSmall32(w, Nat(x));
    }
  }

  function Ceiling32(x: bv32): bv32 {
    Smear(x - 1) + 1
  }

  lemma CeilingIs32(x: bv32)
    requires x != 0
    ensures CeilingOrZero32(Ceiling32(x), x)
  {
    hide Nat, Smear, IsPower, PowerAbove;
    CeilingOf32(x, x - 1, Ceiling32(x));
  }

  lemma CeilingBig32(w: nat, n: nat)
    requires 0x8000_0000 < n && IsWidth(w, n - 1)
    ensures Pow2(w) >= 0x1_0000_0000
  {
    Powers32();
    if w < 32 {
      PowerMonotone(w, 31);
    } else {
      PowerMonotone(32, w);
    }
  }

  lemma CeilingSmall32(w: nat, n: nat)
    requires 0 < n <= 0x8000_0000 && IsWidth(w, n - 1)
    ensures Pow2(w) < 0x1_0000_0000
  {
    Powers32();
    if w >= 32 {
      PowerMonotone(31, w - 1);
    } else {
      PowerMonotone(w, 31);
    }
  }

  /** Zero for zero, the least power of two from `word` up when one fits, zero when none does. */
  ghost predicate CeilingOrZero32(x: bv32, word: bv32) {
    && (word == 0 ==> x == 0)
    && (0 < Nat(word) <= 0x8000_0000 ==> PowerAbove(Nat(x), Nat(word)))
    && (Nat(word) > 0x8000_0000 ==> x == 0)
  }

  lemma CeilingOfZero32()
    ensures CeilingOrZero32(0, 0)
  {}

  method BitCeilImpl32(word: bv32) returns (x: bv32)
    ensures CeilingOrZero32(x, word)
  {
    hide CeilingOrZero32;
    if word == 0 {
      CeilingOfZero32();
      return 0;
    }
    CeilingIs32(word);
    x := word - 1;
    x := x | (x >> 1);
    x := x | (x >> 2);
    x := x | (x >> 4);
    x := x | (x >> 8);
    x := x | (x >> 16);
    x := x + 1;
    assert x == Ceiling32(word);
  }

  predicate HasSingleBit32(x: bv32) {
    x != 0 && x & (x - 1) == 0
  }

  predicate Odd32(x: bv32) {
    x & 1 == 1
  }

  lemma SingleBitOfHalf32(x: bv32)
    ensures HasSingleBit32(x) <==> if Odd32(x) then Half(x) == 0 else HasSingleBit32(Half(x))
  {}

  lemma PowerOfHalf32(x: bv32)
    ensures IsPower(Nat(x)) <==> if Odd32(x) then Half(x) == 0 else IsPower(Nat(Half(x)))
  {
    ParityOf32(x);
    hide Nat, Half, IsPower;
    PowerOfHalf(Nat(Half(x)));
    ZeroNat32(Half(x));
  }

  lemma NoBits32()
    ensures !HasSingleBit32(0) && Nat(0) == 0
  {}

  /** A word has a single bit exactly when it is a power of two. */
  lemma {:induction false} SingleBitIffPower32(x: bv32)
    ensures HasSingleBit32(x) <==> IsPower(Nat(x))
    decreases Width(Wide(x))
  {
    hide *;
    if x == 0 {
      NoBits32();
      ZeroIsNoPower();
    } else {
      WidthHalf(x);
      SingleBitIffPower32(Half(x));
      SingleBitOfHalf32(x);
      PowerOfHalf32(x);
    }
  }

  // ---- 64 bits ----------------------------------------------------------------------

  function Nat64(x: bv64): nat {
    x as nat
  }

  /** `x |= x >> k`. */
  function Spill(x: bv64, k: bv64): bv64
    requires k <= 32
  {
    x | (x >> k)
  }

  function Smear64(x: bv64): bv64 {
    Spill(Spill(Spill(Spill(Spill(Spill(x, 1), 2), 4), 8), 16), 32)
  }

  lemma SmearHalf64(x: bv64)
    requires x != 0
    ensures Smear64(Shift1(x)) < 0x8000_0000_0000_0000 && Smear64(x) == (Smear64(Shift1(x)) << 1) | 1
  {}

  lemma PushOne64(m: bv64, y: bv64)
    requires m < 0x8000_0000_0000_0000 && y == (m << 1) | 1
    ensures Nat64(y) == 2 * Nat64(m) + 1
  {}

  lemma Double64(m: bv64, y: bv64)
    requires m < 0x8000_0000_0000_0000 && y == m << 1
    ensures Nat64(y) == 2 * Nat64(m)
  {}

  lemma SmearNat64(x: bv64)
    requires x != 0
    ensures Nat64(Smear64(x)) == 2 * Nat64(Smear64(Shift1(x))) + 1
  {
    hide *;
    SmearHalf64(x);
    PushOne64(Smear64(Shift1(x)), Smear64(x));
  }

  lemma SmearOfZero64()
    ensures Nat64(Smear64(0)) == 0 && Width(0) == 0
  {}

  lemma {:induction false} SmearFills64(x: bv64)
    ensures Nat64(Smear64(x)) == Pow2(Width(x)) - 1
    decreases Width(x)
  {
    hide Smear64, Nat64, Shift1, Width;
    if x == 0 {
      SmearOfZero64();
    } else {
      WidthOfNonZero(x);
      SmearFills64(Shift1(x));
      SmearNat64(x);
    }
  }

  lemma HalfShape64(x: bv64)
    ensures Shift1(x) < 0x8000_0000_0000_0000
    ensures x & 1 == 1 ==> x == (Shift1(x) << 1) | 1
    ensures x & 1 != 1 ==> x == Shift1(x) << 1
  {}

  lemma HalfNat64(x: bv64)
    ensures 2 * Nat64(Shift1(x)) <= Nat64(x) <= 2 * Nat64(Shift1(x)) + 1
    ensures Nat64(0) == 0 && (x != 0 ==> Nat64(x) > 0)
  {
    ZeroNat64(x);
    hide *;
    ParityOf64(x);
  }

  lemma ParityOf64(x: bv64)
    ensures Nat64(x) == 2 * Nat64(Shift1(x)) + if x & 1 == 1 then 1 else 0
  {
    hide Nat64, Shift1;
    HalfShape64(x);
    if x & 1 == 1 {
      PushOne64(Shift1(x), x);
    } else {
      Double64(Shift1(x), x);
    }
  }

  lemma ZeroNat64(x: bv64)
    ensures Nat64(0) == 0 && (x != 0 ==> Nat64(x) > 0)
  {}

  lemma {:induction false} WidthBrackets64(x: bv64)
    ensures IsWidth(Width(x), Nat64(x))
    decreases Width(x)
  {
    hide Nat64, Shift1, Width;
    HalfNat64(x);
    if x == 0 {
      ZeroWidth();
    } else {
      WidthOfNonZero(x);
      WidthBrackets64(Shift1(x));
    }
  }

  /** The value of a single bit at place `k`. */
  function Place64(k: nat): nat
    requires k <= 64
  {
    ((1 as bv64) << k) as nat
  }

  lemma LowPlaces64()
    ensures Place64(0) == 1
    ensures Place64(1) == 2 * Place64(0) && Place64(2) == 2 * Place64(1) && Place64(3) == 2 * Place64(2)
    ensures Place64(4) == 2 * Place64(3) && Place64(5) == 2 * Place64(4) && Place64(6) == 2 * Place64(5)
    ensures Place64(7) == 2 * Place64(6) && Place64(8) == 2 * Place64(7) && Place64(9) == 2 * Place64(8)
    ensures Place64(10) == 2 * Place64(9) && Place64(11) == 2 * Place64(10) && Place64(12) == 2 * Place64(11)
    ensures Place64(13) == 2 * Place64(12) && Place64(14) == 2 * Place64(13) && Place64(15) == 2 * Place64(14)
    ensures Place64(16) == 2 * Place64(15) && Place64(17) == 2 * Place64(16) && Place64(18) == 2 * Place64(17)
    ensures Place64(19) == 2 * Place64(18) && Place64(20) == 2 * Place64(19) && Place64(21) == 2 * Place64(20)
    ensures Place64(22) == 2 * Place64(21) && Place64(23) == 2 * Place64(22) && Place64(24) == 2 * Place64(23)
    ensures Place64(25) == 2 * Place64(24) && Place64(26) == 2 * Place64(25) && Place64(27) == 2 * Place64(26)
    ensures Place64(28) == 2 * Place64(27) && Place64(29) == 2 * Place64(28) && Place64(30) == 2 * Place64(29)
    ensures Place64(31) == 2 * Place64(30) && Place64(32) == 2 * Place64(31)
  {}

  lemma HighPlaces64()
    ensures Place64(33) == 2 * Place64(32) && Place64(34) == 2 * Place64(33) && Place64(35) == 2 * Place64(34)
    ensures Place64(36) == 2 * Place64(35) && Place64(37) == 2 * Place64(36) && Place64(38) == 2 * Place64(37)
    ensures Place64(39) == 2 * Place64(38) && Place64(40) == 2 * Place64(39) && Place64(41) == 2 * Place64(40)
    ensures Place64(42) == 2 * Place64(41) && Place64(43) == 2 * Place64(42) && Place64(44) == 2 * Place64(43)
    ensures Place64(45) == 2 * Place64(44) && Place64(46) == 2 * Place64(45) && Place64(47) == 2 * Place64(46)
    ensures Place64(48) == 2 * Place64(47) && Place64(49) == 2 * Place64(48) && Place64(50) == 2 * Place64(49)
    ensures Place64(51) == 2 * Place64(50) && Place64(52) == 2 * Place64(51) && Place64(53) == 2 * Place64(52)
    ensures Place64(54) == 2 * Place64(53) && Place64(55) == 2 * Place64(54) && Place64(56) == 2 * Place64(55)
    ensures Place64(57) == 2 * Place64(56) && Place64(58) == 2 * Place64(57) && Place64(59) == 2 * Place64(58)
    ensures Place64(60) == 2 * Place64(59) && Place64(61) == 2 * Place64(60) && Place64(62) == 2 * Place64(61)
    ensures Place64(63) == 2 * Place64(62)
  {}

  lemma NextPlace64(k: nat)
    requires 0 < k < 64
    ensures Place64(k) == 2 * Place64(k - 1)
  {
    hide *;
    if k <= 32 {
      LowPlaces64();
    } else {
      HighPlaces64();
    }
  }

  lemma {:induction false} PlaceIsPower64(k: nat)
    requires k < 64
    ensures Place64(k) == Pow2(k)
  {
    hide Place64;
    if k == 0 {
      LowPlaces64();
    } else {
      PlaceIsPower64(k - 1);
      NextPlace64(k);
    }
  }

  method BitWidth64(x: bv64) returns (r: int)
    ensures r >= 0 && IsWidth(r, x as nat)
  {
    WidthBrackets64(x);
    hide Width, IsWidth;
    r := CountlImpl64(x);
    r := 64 - r;
  }

  lemma WidthFits64(w: nat, n: nat)
    requires IsWidth(w, n) && n < Pow2(64)
    ensures w <= 64
  {
    if w > 64 {
      PowerMonotone(64, w - 1);
    }
  }

  lemma FloorPlace64(w: int, n: nat)
    requires w >= 0 && IsWidth(w, n) && 0 < n < 0x1_0000_0000_0000_0000
    ensures 0 < w <= 64 && PowerBelow(Place64(w - 1), n)
  {
    hide Place64, IsPower, PowerBelow;
    Powers64();
    WidthFits64(w, n);
    WidthPicksFloor(w, n);
    PlaceIsPower64(w - 1);
  }

  /** Zero for zero, otherwise the greatest power of two up to `x`. */
  method BitFloor64(x: bv64) returns (r: bv64)
    ensures x == 0 ==> r == 0
    ensures x != 0 ==> PowerBelow(r as nat, x as nat)
  {
    hide IsWidth, IsPower, PowerBelow;
    if x == 0 {
      return 0;
    }
    var width := BitWidth64(x);
    FloorPlace64(width, x as nat);
    return (1 as bv64) << (width - 1);
  }

  lemma Powers64()
    ensures Pow2(63) == 0x8000_0000_0000_0000 && Pow2(64) == 0x1_0000_0000_0000_0000
  {
    assert Pow2(8) == 0x100;
    assert Pow2(16) == 0x1_0000;
    assert Pow2(24) == 0x100_0000;
    assert Pow2(31) == 0x8000_0000;
    assert Pow2(40) == 0x100_0000_0000;
    assert Pow2(48) == 0x1_0000_0000_0000;
    assert Pow2(56) == 0x100_0000_0000_0000;
    assert Pow2(63) == 0x8000_0000_0000_0000;
  }

  /** A power of two at least `n` fits in 64 bits exactly when `n` is at most the greatest one. */
  lemma CeilingFits64(n: nat)
    ensures (exists p: nat :: IsPower(p) && n <= p < 0x1_0000_0000_0000_0000) <==> n <= 0x8000_0000_0000_0000
  {
    Powers64();
    assert IsPower(0x8000_0000_0000_0000) by {
      assert 0x8000_0000_0000_0000 == Pow2(63);
    }
    forall p: nat | IsPower(p) && p < 0x1_0000_0000_0000_0000
      ensures p <= 0x8000_0000_0000_0000
    {
      var k: nat :| p == Pow2(k);
      if k >= 64 {
        PowerMonotone(64, k);
      } else {
        PowerMonotone(k, 63);
      }
    }
  }

  function Next64(x: bv64): bv64 {
    x + 1
  }

  lemma NextOfHalf64(x: bv64)
    requires Next64(x) != 0
    ensures x & 1 != 1 ==> Shift1(Next64(x)) == Shift1(x) && Next64(x) & 1 == 1
    ensures x & 1 == 1 ==> Shift1(Next64(x)) == Next64(Shift1(x)) && Next64(x) & 1 != 1 && x != 0
    ensures Next64(Shift1(x)) != 0
  {}

  lemma {:induction false} NextNat64(x: bv64)
    requires Next64(x) != 0
    ensures Nat64(Next64(x)) == Nat64(x) + 1
    decreases Width(x)
  {
    hide *;
    NextOfHalf64(x);
    ParityOf64(x);
    ParityOf64(Next64(x));
    if x & 1 == 1 {
      WidthOfNonZero(x);
      NextNat64(Shift1(x));
    }
  }

  lemma Ends64(x: bv64)
    ensures Nat64(x) < 0x1_0000_0000_0000_0000 && Nat64(0) == 0
    ensures Next64(x) == 0 ==> Nat64(x) == 0x1_0000_0000_0000_0000 - 1
  {}

  lemma Predecessor64(x: bv64, y: bv64)
    requires x != 0 && y == x - 1
    ensures Nat64(y) == Nat64(x) - 1 && Nat64(x) < 0x1_0000_0000_0000_0000
  {
    hide Nat64;
    assert x == Next64(y);
    Ends64(x);
    NextNat64(y);
  }

  lemma Successor64(x: bv64, y: bv64)
    requires y == x + 1
    ensures y == 0 ==> Nat64(x) == 0x1_0000_0000_0000_0000 - 1
    ensures y != 0 ==> Nat64(y) == Nat64(x) + 1 < 0x1_0000_0000_0000_0000
    ensures Nat64(0) == 0
  {
    hide Nat64;
    assert y == Next64(x);
    Ends64(x);
    Ends64(y);
    if y != 0 {
      NextNat64(x);
    }
  }

  lemma CeilingOf64(x: bv64, y: bv64, r: bv64)
    requires x != 0 && y == x - 1 && r == Smear64(y) + 1
    ensures Nat64(x) <= 0x8000_0000_0000_0000 ==> PowerAbove(Nat64(r), Nat64(x))
    ensures Nat64(x) > 0x8000_0000_0000_0000 ==> r == 0
  {
    hide Nat64, Smear64, Width, IsPower, PowerAbove;
    Predecessor64(x, y);
    Successor64(Smear64(y), r);
    var w := Width(y);
    WidthBrackets64(y);
    WidthPicksCeiling(w, Nat64(x));
    SmearFills64(y);
    Powers64();
    if Nat64(x) > 0x8000_0000_0000_0000 {
      CeilingBig64(w, Nat64(x));
    } else {
      CeilingSmall64(w, Nat64(x));
    }
  }

  function Ceiling64(x: bv64): bv64 {
    Smear64(x - 1) + 1
  }

  lemma CeilingIs64(x: bv64)
    requires x != 0
    ensures CeilingOrZero64(Ceiling64(x), x)
  {
    hide Nat64, Smear64, IsPower, PowerAbove;
    CeilingOf64(x, x - 1, Ceiling64(x));
  }

  lemma CeilingBig64(w: nat, n: nat)
    requires 0x8000_0000_0000_0000 < n && IsWidth(w, n - 1)
    ensures Pow2(w) >= 0x1_0000_0000_0000_0000
  {
    Powers64();
    if w < 64 {
      PowerMonotone(w, 63);
    } else {
      PowerMonotone(64, w);
    }
  }

  lemma CeilingSmall64(w: nat, n: nat)
    requires 0 < n <= 0x8000_0000_0000_0000 && IsWidth(w, n - 1)
    ensures Pow2(w) < 0x1_0000_0000_0000_0000
  {
    Powers64();
    if w >= 64 {
      PowerMonotone(63, w - 1);
    } else {
      PowerMonotone(w, 63);
    }
  }

  /** Zero for zero, the least power of two from `word` up when one fits, zero when none does. */
  ghost predicate CeilingOrZero64(x: bv64, word: bv64) {
    && (word == 0 ==> x == 0)
    && (0 < Nat64(word) <= 0x8000_0000_0000_0000 ==> PowerAbove(Nat64(x), Nat64(word)))
    && (Nat64(word) > 0x8000_0000_0000_0000 ==> x == 0)
  }

  lemma CeilingOfZero64()
    ensures CeilingOrZero64(0, 0)
  {}

  method BitCeilImpl64(word: bv64) returns (x: bv64)
    ensures CeilingOrZero64(x, word)
  {
    hide CeilingOrZero64, Spill;
    if word == 0 {
      CeilingOfZero64();
      return 0;
    }
    CeilingIs64(word);
    x := word - 1;
    x := Spill(x, 1);
    x := Spill(x, 2);
    x := Spill(x, 4);
    x := Spill(x, 8);
    x := Spill(x, 16);
    x := Spill(x, 32);
    x := x + 1;
    assert x == Ceiling64(word);
  }

  predicate HasSingleBit64(x: bv64) {
    x != 0 && x & (x - 1) == 0
  }

  predicate Odd64(x: bv64) {
    x & 1 == 1
  }

  lemma SingleBitOfHalf64(x: bv64)
    ensures HasSingleBit64(x) <==> if Odd64(x) then Shift1(x) == 0 else HasSingleBit64(Shift1(x))
  {}

  lemma PowerOfHalf64(x: bv64)
    ensures IsPower(Nat64(x)) <==> if Odd64(x) then Shift1(x) == 0 else IsPower(Nat64(Shift1(x)))
  {
    ParityOf64(x);
    hide Nat64, Shift1, IsPower;
    PowerOfHalf(Nat64(Shift1(x)));
    ZeroNat64(Shift1(x));
  }

  lemma NoBits64()
    ensures !HasSingleBit64(0) && Nat64(0) == 0
  {}

  /** A word has a single bit exactly when it is a power of two. */
  lemma {:induction false} SingleBitIffPower64(x: bv64)
    ensures HasSingleBit64(x) <==> IsPower(Nat64(x))
    decreases Width(x)
  {
    hide *;
    if x == 0 {
      NoBits64();
      ZeroIsNoPower();
    } else {
      WidthOfNonZero(x);
      SingleBitIffPower64(Shift1(x));
      SingleBitOfHalf64(x);
      PowerOfHalf64(x);
    }
  }
}
