/** Leading and trailing zero counts by a perfect hash modulo 37, against counting the zeros
    one by one. */
module ZeroCounts {
  import opened Powers

  /** The position above the highest set bit. */
  ghost function Width(x: bv64): nat
    decreases x
  {
    if x == 0 then 0 else 1 + Width(x >> 1)
  }

  /** The number of leading zeros of a word of `digits` bits. */
  ghost function LeadingZeros(x: bv64, digits: nat): int {
    digits - Width(x)
  }

  /** The number of zeros below the lowest set bit of a word of `digits` bits. */
  ghost function TrailingZeros(x: bv64, digits: nat): nat
    decreases x
  {
    if x == 0 then digits else if x & 1 == 1 then 0 else 1 + TrailingZeros(x >> 1, digits)
  }

  const LeadingTable: seq<int> := [
    32, 31,  6, 30,  9,  5,  0, 29, 16,  8,  2,  4, 21,  0, 19, 28, 25, 15,  0,
     7, 10,  1, 17,  3, 22, 20, 26,  0, 11, 18, 23, 27, 12, 24, 13, 14,  0]

  const TrailingTable: seq<int> := [
    32,  0,  1, 26,  2, 23, 27,  0,  3, 16, 24, 30, 28, 11,  0, 13,  4,  7, 17,
     0, 25, 22, 31, 15, 29, 10, 12,  6,  0, 21, 14,  9,  5, 20,  8, 19, 18]

  // ---- The hash -------------------------------------------------------------------

  /** The powers of two modulo 37; they are all different. */
  const Residues: seq<int> := [
    1, 2, 4, 8, 16, 32, 27, 17, 34, 31, 25, 13, 26, 15, 30, 23, 9,
    18, 36, 35, 33, 29, 21, 5, 10, 20, 3, 6, 12, 24, 11, 22, 7]

  lemma NextResidue(k: nat)
    requires k < 32
    ensures |Residues| == 33 && Residues[k + 1] == 2 * Residues[k] % 37
  {}

  lemma RemainderIs(x: int, q: int, r: int)
    requires x == 37 * q + r && 0 <= r < 37
    ensures x % 37 == r
  {
    var q', r' := x / 37, x % 37;
    assert x == 37 * q' + r' && 0 <= r' < 37;
    assert q == q';
  }

  lemma DoubleModulo(p: nat)
    ensures 2 * p % 37 == 2 * (p % 37) % 37
  {
    var q, r := p / 37, p % 37;
    if 2 * r < 37 {
      RemainderIs(2 * p, 2 * q, 2 * r);
      RemainderIs(2 * r, 0, 2 * r);
    } else {
      RemainderIs(2 * p, 2 * q + 1, 2 * r - 37);
      RemainderIs(2 * r, 1, 2 * r - 37);
    }
  }

  lemma PredecessorModulo(p: nat)
    requires p > 0
    ensures (p - 1) % 37 == (p % 37 + 36) % 37
  {
    var q, r := p / 37, p % 37;
    if r == 0 {
      RemainderIs(p - 1, q - 1, 36);
      RemainderIs(36, 0, 36);
    } else {
      RemainderIs(p - 1, q, r - 1);
      RemainderIs(r + 36, 1, r - 1);
    }
  }

  lemma {:induction false} PowerResidue(k: nat)
    requires k <= 32
    ensures |Residues| == 33 && Pow2(k) % 37 == Residues[k]
  {
    if k > 0 {
      PowerResidue(k - 1);
      NextResidue(k - 1);
      hide Residues;
      DoubleModulo(Pow2(k - 1));
    }
  }

  lemma ResidueValues()
    ensures |Residues| == 33
    ensures Residues[0] == 1 && Residues[1] == 2 && Residues[2] == 4 && Residues[3] == 8 && Residues[4] == 16 && Residues[5] == 32
    ensures Residues[6] == 27 && Residues[7] == 17 && Residues[8] == 34 && Residues[9] == 31 && Residues[10] == 25 && Residues[11] == 13
    ensures Residues[12] == 26 && Residues[13] == 15 && Residues[14] == 30 && Residues[15] == 23 && Residues[16] == 9 && Residues[17] == 18
    ensures Residues[18] == 36 && Residues[19] == 35 && Residues[20] == 33 && Residues[21] == 29 && Residues[22] == 21 && Residues[23] == 5
    ensures Residues[24] == 10 && Residues[25] == 20 && Residues[26] == 3 && Residues[27] == 6 && Residues[28] == 12 && Residues[29] == 24
    ensures Residues[30] == 11 && Residues[31] == 22 && Residues[32] == 7
  {}

  lemma LeadingValuesOfLow()
    ensures |LeadingTable| == 37
    ensures LeadingTable[0] == 32 && LeadingTable[1] == 31 && LeadingTable[3] == 30 && LeadingTable[7] == 29 && LeadingTable[15] == 28
    ensures LeadingTable[31] == 27 && LeadingTable[26] == 26 && LeadingTable[16] == 25 && LeadingTable[33] == 24 && LeadingTable[30] == 23
    ensures LeadingTable[24] == 22
  {}

  lemma LeadingValuesOfMiddle()
    ensures |LeadingTable| == 37
    ensures LeadingTable[12] == 21 && LeadingTable[25] == 20 && LeadingTable[14] == 19 && LeadingTable[29] == 18 && LeadingTable[22] == 17
    ensures LeadingTable[8] == 16 && LeadingTable[17] == 15 && LeadingTable[35] == 14 && LeadingTable[34] == 13 && LeadingTable[32] == 12
    ensures LeadingTable[28] == 11
  {}

  lemma LeadingValuesOfHigh()
    ensures |LeadingTable| == 37
    ensures LeadingTable[20] == 10 && LeadingTable[4] == 9 && LeadingTable[9] == 8 && LeadingTable[19] == 7 && LeadingTable[2] == 6
    ensures LeadingTable[5] == 5
  {}

  lemma LeadingValuesOfTop()
    ensures |LeadingTable| == 37
    ensures LeadingTable[11] == 4 && LeadingTable[23] == 3 && LeadingTable[10] == 2 && LeadingTable[21] == 1 && LeadingTable[6] == 0
  {}

  lemma LeadingEntry(k: nat)
    requires k <= 32
    ensures |LeadingTable| == 37 && |Residues| == 33 && 0 <= Residues[k] < 37
    ensures LeadingTable[(Residues[k] + 36) % 37] == 32 - k
  {
    hide *;
    ResidueValues();
    LeadingValuesOfLow();
    LeadingValuesOfMiddle();
    LeadingValuesOfHigh();
    LeadingValuesOfTop();
  }

  lemma TrailingEntry(k: nat)
    requires k < 32
    ensures |TrailingTable| == 37 && |Residues| == 33 && 0 <= Residues[k] < 37
    ensures TrailingTable[Residues[k]] == k
  {}

  lemma LeadingHash(k: nat)
    requires k <= 32
    ensures |LeadingTable| == 37 && LeadingTable[(Pow2(k) - 1) % 37] == 32 - k
  {
    hide *;
    LeadingEntry(k);
    PowerResidue(k);
    PredecessorModulo(Pow2(k));
  }

  lemma TrailingHash(k: nat)
    requires k < 32
    ensures |TrailingTable| == 37 && TrailingTable[Pow2(k) % 37] == k
  {
    hide *;
    TrailingEntry(k);
    PowerResidue(k);
  }

  /** The remainder of 2^k - 1 leads to 32 - k, the remainder of 2^k to k. */
  lemma HashIsPerfect(k: nat)
    requires k <= 32
    ensures |LeadingTable| == 37 && |TrailingTable| == 37
    ensures LeadingTable[(Pow2(k) - 1) % 37] == 32 - k
    ensures k < 32 ==> TrailingTable[Pow2(k) % 37] == k
    ensures TrailingTable[0] == 32
  {
    hide *;
    LeadingHash(k);
    TrailingSize();
    if k < 32 {
      TrailingHash(k);
    }
  }

  lemma TrailingSize()
    ensures |TrailingTable| == 37 && TrailingTable[0] == 32
  {}

  // ---- Leading zeros --------------------------------------------------------------

  function Smear(x: bv32): bv32 {
    var x := x | (x >> 1);
    var x := x | (x >> 2);
    var x := x | (x >> 4);
    var x := x | (x >> 8);
    x | (x >> 16)
  }

  function Nat(x: bv32): nat {
    x as nat
  }

  function Half(x: bv32): bv32 {
    x >> 1
  }

  function Wide(x: bv32): bv64 {
    x as bv64
  }

  lemma SmearHalf(x: bv32)
    requires x != 0
    ensures Smear(Half(x)) < 0x8000_0000 && Smear(x) == (Smear(Half(x)) << 1) | 1
  {}

  lemma PushOne(m: bv32, y: bv32)
    requires m < 0x8000_0000 && y == (m << 1) | 1
    ensures Nat(y) == 2 * Nat(m) + 1
  {}

  lemma WideHalf(x: bv32)
    ensures Wide(Half(x)) == Wide(x) >> 1
    ensures Wide(x) == 0 <==> x == 0
  {}

  lemma SmearNat(x: bv32)
    requires x != 0
    ensures Nat(Smear(x)) == 2 * Nat(Smear(Half(x))) + 1
  {
    hide Smear, Nat, Half;
    SmearHalf(x);
    PushOne(Smear(Half(x)), Smear(x));
  }

  lemma SmearOfZero()
    ensures Nat(Smear(0)) == 0 && Wide(0) == 0 && Width(0) == 0
  {}

  lemma WidthHalf(x: bv32)
    requires x != 0
    ensures Width(Wide(x)) == 1 + Width(Wide(Half(x)))
  {
    hide Wide, Half;
    WideHalf(x);
  }

  /** Smearing fills every bit below the highest set one. */
  lemma {:induction false} SmearFills(x: bv32)
    ensures Nat(Smear(x)) == Pow2(Width(Wide(x))) - 1
    decreases Width(Wide(x))
  {
    hide Smear, Nat, Half, Wide, Width;
    if x == 0 {
      SmearOfZero();
    } else {
      WidthHalf(x);
      SmearFills(Half(x));
      SmearNat(x);
    }
  }

  lemma {:induction false} PowerMonotone(j: nat, k: nat)
    requires j <= k
    ensures Pow2(j) <= Pow2(k)
    decreases k
  {
    if j < k {
      PowerMonotone(j, k - 1);
    }
  }

  lemma BigPowers()
    ensures Pow2(32) == 0x1_0000_0000 && Pow2(33) > 0x1_0000_0000
  {
    assert Pow2(8) == 256;
    assert Pow2(16) == 0x1_0000;
    assert Pow2(24) == 0x100_0000;
    assert Pow2(32) == 0x1_0000_0000;
  }

  lemma NatBound(x: bv32)
    ensures Nat(x) < 0x1_0000_0000
  {}

  lemma WidthBound(x: bv32)
    ensures Width(Wide(x)) <= 32
  {
    hide Smear, Nat, Wide, Width, Pow2;
    SmearFills(x);
    NatBound(Smear(x));
    if Width(Wide(x)) > 32 {
      PowerMonotone(33, Width(Wide(x)));
      BigPowers();
    }
  }

  lemma SmearedLookup(x: bv32)
    ensures |LeadingTable| == 37
    ensures LeadingTable[Nat(Smear(x)) % 37] == LeadingZeros(Wide(x), 32)
    ensures 0 <= LeadingZeros(Wide(x), 32) <= 32
  {
    hide Smear, Pow2, LeadingTable, TrailingTable, Width, Nat, Wide;
    SmearFills(x);
    WidthBound(x);
    HashIsPerfect(Width(Wide(x)));
  }

  method CountlImpl32(word: bv32) returns (r: nat)
    ensures r == LeadingZeros(word as bv64, 32)
  {
    SmearedLookup(word);
    hide LeadingZeros, LeadingTable;
    var x := word;
    x := x | (x >> 1);
    x := x | (x >> 2);
    x := x | (x >> 4);
    x := x | (x >> 8);
    x := x | (x >> 16);
    return LeadingTable[x as nat % 37];
  }

  // ---- Trailing zeros -------------------------------------------------------------

  /** The lowest set bit. */
  function Isolate(x: bv32): bv32 {
    (0 - x) & x
  }

  lemma IsolateOdd(x: bv32)
    requires x & 1 == 1
    ensures Nat(Isolate(x)) == 1 && Wide(x) & 1 == 1
  {}

  lemma IsolateEven(x: bv32)
    requires x & 1 != 1 && x != 0
    ensures Isolate(Half(x)) < 0x8000_0000 && Isolate(x) == Isolate(Half(x)) << 1
    ensures Half(x) != 0
  {}

  lemma Double(m: bv32, y: bv32)
    requires m < 0x8000_0000 && y == m << 1
    ensures Nat(y) == 2 * Nat(m)
  {}

  lemma IsolateNat(x: bv32)
    requires x & 1 != 1 && x != 0
    ensures Nat(Isolate(x)) == 2 * Nat(Isolate(Half(x))) && Half(x) != 0
  {
    hide Isolate, Nat, Half;
    IsolateEven(x);
    Double(Isolate(Half(x)), Isolate(x));
  }

  lemma TrailingEven(x: bv32, digits: nat)
    requires x & 1 != 1 && x != 0
    ensures TrailingZeros(Wide(x), digits) == 1 + TrailingZeros(Wide(Half(x)), digits)
  {
    WideHalf(x);
    WideEven(x);
    hide Wide, Half;
  }

  lemma WideEven(x: bv32)
    ensures Wide(x) & 1 == 1 <==> x & 1 == 1
  {}

  lemma {:induction false} IsolateIsPower(x: bv32, digits: nat)
    requires x != 0
    ensures Nat(Isolate(x)) == Pow2(TrailingZeros(Wide(x), digits))
    decreases Width(Wide(x))
  {
    hide Isolate, Nat, Half, Wide, Width, TrailingZeros;
    if x & 1 == 1 {
      IsolateOdd(x);
      TrailingOdd(Wide(x), digits);
    } else {
      IsolateNat(x);
      TrailingEven(x, digits);
      WidthHalf(x);
      IsolateIsPower(Half(x), digits);
    }
  }

  lemma TrailingOdd(x: bv64, digits: nat)
    requires x & 1 == 1
    ensures TrailingZeros(x, digits) == 0
  {}

  lemma IsolatedLookup(x: bv32)
    ensures |TrailingTable| == 37
    ensures TrailingTable[Nat(Isolate(x)) % 37] == TrailingZeros(Wide(x), 32)
  {
    hide Isolate, Pow2, LeadingTable, TrailingTable, Width, Nat, Wide;
    if x == 0 {
      IsolateOfZero();
      HashIsPerfect(0);
    } else {
      var k := TrailingZeros(Wide(x), 32);
      IsolateIsPower(x, 32);
      NatBound(Isolate(x));
      if k > 31 {
        PowerMonotone(32, k);
        BigPowers();
      }
      HashIsPerfect(k);
    }
  }

  lemma IsolateOfZero()
    ensures Nat(Isolate(0)) == 0 && Wide(0) == 0
  {}

  method CountrImpl32(x: bv32) returns (r: nat)
    ensures r == TrailingZeros(x as bv64, 32)
  {
    IsolatedLookup(x);
    hide TrailingZeros, TrailingTable;
    return TrailingTable[((0 - x) & x) as nat % 37];
  }

  // ---- Other widths ---------------------------------------------------------------

  function Shift1(x: bv64): bv64 { x >> 1 }
  function Shift2(x: bv64): bv64 { x >> 2 }
  function Shift4(x: bv64): bv64 { x >> 4 }
  function Shift8(x: bv64): bv64 { x >> 8 }
  function Shift16(x: bv64): bv64 { x >> 16 }
  function Shift32(x: bv64): bv64 { x >> 32 }

  lemma Shift2Is(x: bv64) ensures Shift2(x) == Shift1(Shift1(x)) {}
  lemma Shift4Is(x: bv64) ensures Shift4(x) == Shift2(Shift2(x)) {}
  lemma Shift8Is(x: bv64) ensures Shift8(x) == Shift4(Shift4(x)) {}
  lemma Shift16Is(x: bv64) ensures Shift16(x) == Shift8(Shift8(x)) {}
  lemma Shift32Is(x: bv64) ensures Shift32(x) == Shift16(Shift16(x)) {}

  lemma Shifts(x: bv64)
    ensures Shift2(x) == Shift1(Shift1(x)) && Shift4(x) == Shift2(Shift2(x)) && Shift8(x) == Shift4(Shift4(x))
    ensures Shift16(x) == Shift8(Shift8(x)) && Shift32(x) == Shift16(Shift16(x))
  {
    hide *;
    Shift2Is(x);
    Shift4Is(x);
    Shift8Is(x);
    Shift16Is(x);
    Shift32Is(x);
  }

  lemma ShiftsOfZero()
    ensures Shift1(0) == 0 && Shift2(0) == 0 && Shift4(0) == 0 && Shift8(0) == 0 && Shift16(0) == 0
  {}

  lemma Width1(x: bv64)
    requires Shift1(x) != 0
    ensures Width(x) == 1 + Width(Shift1(x))
  {}

  lemma Width4(x: bv64)
    requires Shift4(x) != 0
    ensures Width(x) == 4 + Width(Shift4(x))
  {
    hide *;
    ShiftsOfZero();
    Shifts(x);
    Shifts(Shift2(x));
    Width1(x);
    Width1(Shift1(x));
    Width1(Shift2(x));
    Width1(Shift1(Shift2(x)));
  }

  lemma Width32(x: bv64)
    requires Shift32(x) != 0
    ensures Width(x) == 32 + Width(Shift32(x))
  {
    hide *;
    ShiftsOfZero();
    Shifts(x);
    Width16(x);
    Width16(Shift16(x));
  }

  lemma Width16(x: bv64)
    requires Shift16(x) != 0
    ensures Width(x) == 16 + Width(Shift16(x))
  {
    hide *;
    ShiftsOfZero();
    Shifts(x);
    Shifts(Shift8(x));
    Width4(x);
    Width4(Shift4(x));
    Width4(Shift8(x));
    Width4(Shift4(Shift8(x)));
  }

  function High(x: bv64): bv32 {
    (x >> 32) as bv32
  }

  function Low(x: bv64): bv32 {
    (x & 0xFFFF_FFFF) as bv32
  }

  lemma WideHigh(x: bv64)
    ensures Wide(High(x)) == Shift32(x)
  {}

  lemma HighIsZero(x: bv64)
    ensures High(x) == 0 <==> Shift32(x) == 0
  {}

  lemma NoHigh(x: bv64)
    requires High(x) == 0
    ensures Wide(Low(x)) == x
  {}

  method CountlImpl64(x: bv64) returns (r: nat)
    ensures r == LeadingZeros(x, 64)
  {
    hide *;
    LeadingByHalves(x);
    if (x >> 32) as bv32 != 0 {
      r := CountlImpl32((x >> 32) as bv32);
    } else {
      r := CountlImpl32((x & 0xFFFF_FFFF) as bv32);
      r := r + 32;
    }
  }

  lemma LeadingByHalves(x: bv64)
    ensures LeadingZeros(x, 64) ==
            if (x >> 32) as bv32 != 0 then LeadingZeros((x >> 32) as bv32 as bv64, 32)
            else LeadingZeros((x & 0xFFFF_FFFF) as bv32 as bv64, 32) + 32
  {
    hide Width, Shift32;
    WideHigh(x);
    HighIsZero(x);
    if High(x) != 0 {
      Width32(x);
    } else {
      NoHigh(x);
    }
  }

  lemma Trailing1(x: bv64, digits: nat)
    requires x & 1 != 1 && x != 0
    ensures TrailingZeros(x, digits) == 1 + TrailingZeros(Shift1(x), digits) && Shift1(x) != 0
  {}

  /** No bit of `x` below position 4, 8, 16 or 32 is set. */
  predicate Clear4(x: bv64) { x & 0xF == 0 }
  predicate Clear8(x: bv64) { x & 0xFF == 0 }
  predicate Clear16(x: bv64) { x & 0xFFFF == 0 }
  predicate Clear32(x: bv64) { x & 0xFFFF_FFFF == 0 }

  lemma Bits4(x: bv64)
    requires Clear4(x)
    ensures x & 1 != 1 && Shift1(x) & 1 != 1 && Shift2(x) & 1 != 1 && Shift1(Shift2(x)) & 1 != 1
  {}

  lemma Clear8Is(x: bv64) ensures Clear8(x) <==> Clear4(x) && Clear4(Shift4(x)) {}
  lemma Clear16Is(x: bv64) ensures Clear16(x) <==> Clear8(x) && Clear8(Shift8(x)) {}
  lemma Clear32Is(x: bv64) ensures Clear32(x) <==> Clear16(x) && Clear16(Shift16(x)) {}

  lemma Trailing4(x: bv64, digits: nat)
    requires Clear4(x) && x != 0
    ensures TrailingZeros(x, digits) == 4 + TrailingZeros(Shift4(x), digits) && Shift4(x) != 0
  {
    hide *;
    Bits4(x);
    Shifts(x);
    Shifts(Shift2(x));
    Trailing1(x, digits);
    Trailing1(Shift1(x), digits);
    Trailing1(Shift2(x), digits);
    Trailing1(Shift1(Shift2(x)), digits);
  }

  lemma Trailing8(x: bv64, digits: nat)
    requires Clear8(x) && x != 0
    ensures TrailingZeros(x, digits) == 8 + TrailingZeros(Shift8(x), digits) && Shift8(x) != 0
  {
    hide *;
    Clear8Is(x);
    Shifts(x);
    Trailing4(x, digits);
    Trailing4(Shift4(x), digits);
  }

  lemma Trailing16(x: bv64, digits: nat)
    requires Clear16(x) && x != 0
    ensures TrailingZeros(x, digits) == 16 + TrailingZeros(Shift16(x), digits) && Shift16(x) != 0
  {
    hide *;
    Clear16Is(x);
    Shifts(x);
    Trailing8(x, digits);
    Trailing8(Shift8(x), digits);
  }

  lemma Trailing32(x: bv64, digits: nat)
    requires Clear32(x) && x != 0
    ensures TrailingZeros(x, digits) == 32 + TrailingZeros(Shift32(x), digits) && Shift32(x) != 0
  {
    hide *;
    Clear32Is(x);
    Shifts(x);
    Trailing16(x, digits);
    Trailing16(Shift16(x), digits);
  }

  function Masked(x: bv64, m: bv64): bv64 {
    x & m
  }

  /** `m` is a run of ones from the lowest bit up. */
  predicate LowMask(m: bv64) {
    m & (m + 1) == 0
  }

  lemma MaskStep(x: bv64, m: bv64)
    requires LowMask(m) && Masked(x, m) != 0
    ensures x != 0 && m != 0 && (Masked(x, m) & 1 == 1 <==> x & 1 == 1)
    ensures LowMask(Shift1(m)) && Masked(Shift1(x), Shift1(m)) == Shift1(Masked(x, m))
  {}

  lemma WidthOfNonZero(m: bv64)
    requires m != 0
    ensures Width(m) == 1 + Width(Shift1(m))
  {}

  lemma DigitsOnlyMatterForZero(x: bv64, d: nat, e: nat)
    requires x & 1 == 1
    ensures TrailingZeros(x, d) == TrailingZeros(x, e) == 0
  {}

  /** Bits above a set bit do not matter. */
  lemma {:induction false} TrailingOfMasked(x: bv64, m: bv64, d: nat, e: nat)
    requires LowMask(m) && Masked(x, m) != 0
    ensures TrailingZeros(x, d) == TrailingZeros(Masked(x, m), e)
    decreases Width(m)
  {
    hide *;
    MaskStep(x, m);
    if x & 1 == 1 {
      DigitsOnlyMatterForZero(x, d, e);
      DigitsOnlyMatterForZero(Masked(x, m), d, e);
    } else {
      Trailing1(x, d);
      Trailing1(Masked(x, m), e);
      WidthOfNonZero(m);
      TrailingOfMasked(Shift1(x), Shift1(m), d, e);
    }
  }

  lemma LowIsMasked(x: bv64)
    ensures Wide(Low(x)) == Masked(x, 0xFFFF_FFFF) && LowMask(0xFFFF_FFFF)
    ensures Low(x) == 0 <==> Masked(x, 0xFFFF_FFFF) == 0
  {}

  lemma LowIsClear(x: bv64)
    ensures Low(x) == 0 <==> Clear32(x)
  {}

  lemma TrailingByHalves(x: bv64)
    ensures TrailingZeros(x, 64) ==
            if Low(x) != 0 then TrailingZeros(Wide(Low(x)), 32) else TrailingZeros(Wide(High(x)), 32) + 32
  {
    hide *;
    if Low(x) != 0 {
      LowIsMasked(x);
      TrailingOfMasked(x, 0xFFFF_FFFF, 64, 32);
    } else {
      LowIsClear(x);
      WideHigh(x);
      TrailingOfZero();
      if x != 0 {
        Trailing32(x, 64);
        DigitsOfNonZero(Shift32(x), 64, 32);
      }
    }
  }

  lemma TrailingOfZero()
    ensures TrailingZeros(0, 64) == 64 && TrailingZeros(0, 32) == 32 && TrailingZeros(0, 8) == 8 && TrailingZeros(0, 16) == 16
    ensures Shift32(0) == 0
  {}

  lemma DigitsOfNonZero(x: bv64, d: nat, e: nat)
    requires x != 0
    ensures TrailingZeros(x, d) == TrailingZeros(x, e)
  {
    hide TrailingZeros;
    var all := 0xFFFF_FFFF_FFFF_FFFF;
    assert LowMask(all) && Masked(x, all) == x;
    TrailingOfMasked(x, all, d, e);
  }

  lemma TrailingSplit(x: bv64)
    ensures TrailingZeros(x, 64) ==
            if (x & 0xFFFF_FFFF) as bv32 != 0 then TrailingZeros((x & 0xFFFF_FFFF) as bv32 as bv64, 32)
            else TrailingZeros((x >> 32) as bv32 as bv64, 32) + 32
  {
    hide TrailingZeros;
    TrailingByHalves(x);
  }

  method CountrImpl64(x: bv64) returns (r: nat)
    ensures r == TrailingZeros(x, 64)
  {
    hide *;
    TrailingSplit(x);
    if (x & 0xFFFF_FFFF) as bv32 != 0 {
      r := CountrImpl32((x & 0xFFFF_FFFF) as bv32);
    } else {
      r := CountrImpl32((x >> 32) as bv32);
      r := r + 32;
    }
  }

  method CountlImpl8(x: bv8) returns (r: int)
    ensures r == LeadingZeros(x as bv64, 8)
  {
    r := CountlImpl32(x as bv32);
    r := r - 24;
  }

  method CountlImpl16(x: bv16) returns (r: int)
    ensures r == LeadingZeros(x as bv64, 16)
  {
    r := CountlImpl32(x as bv32);
    r := r - 16;
  }

  /** A guard bit above the word gives the count its upper bound. */
  lemma Guarded8(x: bv8)
    ensures TrailingZeros(((x as bv32) | 0x100) as bv64, 32) == TrailingZeros(x as bv64, 8)
  {
    hide TrailingZeros;
    var y := ((x as bv32) | 0x100) as bv64;
    if x == 0 {
      assert y == 0x100 && Clear8(y) && Shift8(y) == 1 && x as bv64 == 0;
      Trailing8(0x100, 32);
      TrailingOdd(1, 32);
      TrailingOfZero();
    } else {
      assert LowMask(0xFF) && Masked(y, 0xFF) == x as bv64 && x as bv64 != 0;
      TrailingOfMasked(y, 0xFF, 32, 8);
    }
  }

  lemma Guarded16(x: bv16)
    ensures TrailingZeros(((x as bv32) | 0x1_0000) as bv64, 32) == TrailingZeros(x as bv64, 16)
  {
    hide TrailingZeros;
    var y := ((x as bv32) | 0x1_0000) as bv64;
    if x == 0 {
      assert y == 0x1_0000 && Clear16(y) && Shift16(y) == 1 && x as bv64 == 0;
      Trailing16(0x1_0000, 32);
      TrailingOdd(1, 32);
      TrailingOfZero();
    } else {
      assert LowMask(0xFFFF) && Masked(y, 0xFFFF) == x as bv64 && x as bv64 != 0;
      TrailingOfMasked(y, 0xFFFF, 32, 16);
    }
  }

  method CountrImpl8(x: bv8) returns (r: nat)
    ensures r == TrailingZeros(x as bv64, 8)
  {
    hide TrailingZeros;
    Guarded8(x);
    r := CountrImpl32((x as bv32) | 0x100);
  }

  method CountrImpl16(x: bv16) returns (r: nat)
    ensures r == TrailingZeros(x as bv64, 16)
  {
    hide TrailingZeros;
    Guarded16(x);
    r := CountrImpl32((x as bv32) | 0x1_0000);
  }
}
