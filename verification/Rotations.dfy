/** Rotations, against turning the word by one place at a time. The amount is an `int`, held as
    its 32-bit two's complement pattern, so negative amounts are included. */
module Rotations {
  // ---- 8 bits -----------------------------------------------------------------------

  function RotateLeft8(x: bv8, s: bv32): bv8 {
    (x << (s & 7)) | (x >> ((0 - s) & 7))
  }

  function RotateRight8(x: bv8, s: bv32): bv8 {
    (x >> (s & 7)) | (x << ((0 - s) & 7))
  }

  /** Every bit moves up by one place, the top one to the bottom. */
  function Up8(x: bv8): bv8 {
    (x << 1) | (x >> 7)
  }

  /** The word after `n` such turns. */
  function Turned8(x: bv8, n: bv32): bv8
    decreases n
  {
    if n == 0 then x else Up8(Turned8(x, n - 1))
  }

  lemma Step8(x: bv8, n: bv32)
    requires 0 < n < 8
    ensures RotateLeft8(x, n) == Up8(RotateLeft8(x, n - 1))
  {}

  lemma Ends8(x: bv8, s: bv32)
    ensures RotateLeft8(x, 0) == x && RotateLeft8(x, s) == RotateLeft8(x, s & 7) && s & 7 < 8
  {}

  lemma {:induction false} TurnsUpTo8(x: bv8, n: bv32)
    requires n < 8
    ensures RotateLeft8(x, n) == Turned8(x, n)
    decreases n
  {
    hide RotateLeft8, Up8;
    if n == 0 {
      Ends8(x, 0);
    } else {
      TurnsUpTo8(x, n - 1);
      Step8(x, n);
    }
  }

  /** Rotating left by any amount turns the word by that amount modulo its width. */
  lemma RotateLeftTurns8(x: bv8, s: bv32)
    ensures RotateLeft8(x, s) == Turned8(x, s & 7)
  {
    hide *;
    Ends8(x, s);
    TurnsUpTo8(x, s & 7);
  }

  lemma RightUndoesLeft8(x: bv8, s: bv32)
    ensures RotateRight8(RotateLeft8(x, s), s) == x
  {}

  lemma LeftUndoesRight8(x: bv8, s: bv32)
    ensures RotateLeft8(RotateRight8(x, s), s) == x
  {}

  // ---- 16 bits -----------------------------------------------------------------------

  function RotateLeft16(x: bv16, s: bv32): bv16 {
    (x << (s & 15)) | (x >> ((0 - s) & 15))
  }

  function RotateRight16(x: bv16, s: bv32): bv16 {
    (x >> (s & 15)) | (x << ((0 - s) & 15))
  }

  /** Every bit moves up by one place, the top one to the bottom. */
  function Up16(x: bv16): bv16 {
    (x << 1) | (x >> 15)
  }

  /** The word after `n` such turns. */
  function Turned16(x: bv16, n: bv32): bv16
    decreases n
  {
    if n == 0 then x else Up16(Turned16(x, n - 1))
  }

  lemma Step16(x: bv16, n: bv32)
    requires 0 < n < 16
    ensures RotateLeft16(x, n) == Up16(RotateLeft16(x, n - 1))
  {}

  lemma Ends16(x: bv16, s: bv32)
    ensures RotateLeft16(x, 0) == x && RotateLeft16(x, s) == RotateLeft16(x, s & 15) && s & 15 < 16
  {}

  lemma {:induction false} TurnsUpTo16(x: bv16, n: bv32)
    requires n < 16
    ensures RotateLeft16(x, n) == Turned16(x, n)
    decreases n
  {
    hide RotateLeft16, Up16;
    if n == 0 {
      Ends16(x, 0);
    } else {
      TurnsUpTo16(x, n - 1);
      Step16(x, n);
    }
  }

  /** Rotating left by any amount turns the word by that amount modulo its width. */
  lemma RotateLeftTurns16(x: bv16, s: bv32)
    ensures RotateLeft16(x, s) == Turned16(x, s & 15)
  {
    hide *;
    Ends16(x, s);
    TurnsUpTo16(x, s & 15);
  }

  lemma RightUndoesLeft16(x: bv16, s: bv32)
    ensures RotateRight16(RotateLeft16(x, s), s) == x
  {}

  lemma LeftUndoesRight16(x: bv16, s: bv32)
    ensures RotateLeft16(RotateRight16(x, s), s) == x
  {}

  // ---- 32 bits ----------------------------------------------------------------------

  function RotateLeft32(x: bv32, s: bv32): bv32 {
    (x << (s & 31)) | (x >> ((0 - s) & 31))
  }

  function RotateRight32(x: bv32, s: bv32): bv32 {
    (x >> (s & 31)) | (x << ((0 - s) & 31))
  }

  /** Every bit moves up by one place, the top one to the bottom. */
  function Up32(x: bv32): bv32 {
    (x << 1) | (x >> 31)
  }

  /** The word after `n` such turns. */
  function Turned32(x: bv32, n: bv32): bv32
    decreases n
  {
    if n == 0 then x else Up32(Turned32(x, n - 1))
  }

  function Left32(x: bv32, n: bv32): bv32
    requires n <= 32
  {
    x << n
  }

  function Right32(x: bv32, n: bv32): bv32
    requires n <= 32
  {
    x >> n
  }

  function Both32(x: bv32, y: bv32): bv32 { x | y }

  function Double32(x: bv32): bv32 { x << 1 }

  function Half32(x: bv32): bv32 { x >> 1 }

  function Top32(x: bv32): bv32 { x >> 31 }

  function Bottom32(x: bv32): bv32 { x & 1 }

  lemma ShiftLeftStep32(x: bv32, n: bv32)
    requires 0 < n < 32
    ensures x << n == (x << (n - 1)) << 1
  {}

  lemma ShiftRightStep32(x: bv32, n: bv32)
    requires 0 < n <= 32
    ensures x >> n == (x >> (n - 1)) >> 1
  {}

  lemma LeftStep32(x: bv32, n: bv32)
    requires 0 < n < 32
    ensures Left32(x, n) == Double32(Left32(x, n - 1))
  {
    ShiftLeftStep32(x, n);
    assert Left32(x, n - 1) == x << (n - 1);
    assert Left32(x, n) == x << n;
  }

  lemma RightStep32(x: bv32, n: bv32)
    requires 0 < n <= 32
    ensures Right32(x, n) == Half32(Right32(x, n - 1))
  {
    ShiftRightStep32(x, n);
    assert Right32(x, n - 1) == x >> (n - 1);
    assert Right32(x, n) == x >> n;
  }

  lemma TopBit32(x: bv32, n: bv32)
    requires 0 < n < 32
    ensures Top32(Left32(x, n - 1)) == Bottom32(Right32(x, 32 - n))
  {}

  /** The two shifted parts of a word, before and after one more turn. */
  lemma TurnOfParts32(left: bv32, right: bv32)
    requires Top32(left) == Bottom32(right)
    ensures Both32(Double32(left), right) == Up32(Both32(left, Half32(right)))
  {}

  lemma Amount32(n: bv32)
    requires 0 < n < 32
    ensures 0 < 32 - (n - 1) <= 32 && 32 - (n - 1) - 1 == 32 - n && 32 - n <= 32 && n - 1 < 32
  {}

  lemma PartsStep32(x: bv32, n: bv32)
    requires 0 < n < 32
    ensures Both32(Left32(x, n), Right32(x, 32 - n)) == Up32(Both32(Left32(x, n - 1), Right32(x, 32 - (n - 1))))
  {
    hide *;
    Amount32(n);
    LeftStep32(x, n);
    RightStep32(x, 32 - (n - 1));
    TopBit32(x, n);
    TurnOfParts32(Left32(x, n - 1), Right32(x, 32 - n));
  }

  lemma ShiftedOut32(x: bv32)
    ensures Both32(Left32(x, 0), Right32(x, 32)) == x
  {}

  lemma Unshifted32(x: bv32)
    ensures Both32(Left32(x, 0), Right32(x, 0)) == x
  {}

  lemma LastTurn32(x: bv32)
    ensures Up32(Both32(Left32(x, 31), Right32(x, 1))) == x
  {}

  lemma {:induction false} PartsAreTurned32(x: bv32, n: bv32)
    requires n < 32
    ensures Both32(Left32(x, n), Right32(x, 32 - n)) == Turned32(x, n)
    decreases n
  {
    hide Left32, Right32, Up32, Both32;
    if n == 0 {
      ShiftedOut32(x);
    } else {
      PartsAreTurned32(x, n - 1);
      PartsStep32(x, n);
    }
  }

  lemma Amounts32(s: bv32)
    ensures s & 31 == 0 ==> (0 - s) & 31 == 0
    ensures s & 31 != 0 ==> (0 - s) & 31 == 32 - (s & 31)
    ensures s & 31 < 32
  {}

  lemma RotationParts32(x: bv32, s: bv32)
    ensures s & 31 < 32 && (0 - s) & 31 < 32
    ensures RotateLeft32(x, s) == Both32(Left32(x, s & 31), Right32(x, (0 - s) & 31))
  {}

  /** Rotating left by any amount turns the word by that amount modulo its width. */
  lemma RotateLeftTurns32(x: bv32, s: bv32)
    ensures RotateLeft32(x, s) == Turned32(x, s & 31)
  {
    hide *;
    Amounts32(s);
    RotationParts32(x, s);
    PartsAreTurned32(x, s & 31);
    ShiftedOut32(x);
    Unshifted32(x);
  }

  lemma TurnedStep32(x: bv32, n: bv32)
    requires n != 0
    ensures Turned32(x, n) == Up32(Turned32(x, n - 1))
  {
    hide Up32;
  }

  lemma NoTurn32(x: bv32, m: bv32)
    ensures Turned32(x, 0) == x && m + 0 == m
  {}

  lemma SumLessOne32(m: bv32, n: bv32)
    requires m <= 32 && 0 < n <= 32
    ensures m + n != 0 && (m + n) - 1 == m + (n - 1) && n - 1 < n
  {}

  lemma {:induction false} TurnsAdd32(x: bv32, m: bv32, n: bv32)
    requires m <= 32 && n <= 32
    ensures Turned32(Turned32(x, m), n) == Turned32(x, m + n)
    decreases n
  {
    hide *;
    if n == 0 {
      NoTurn32(Turned32(x, m), m);
    } else {
      SumLessOne32(m, n);
      TurnsAdd32(x, m, n - 1);
      TurnedStep32(Turned32(x, m), n);
      TurnedStep32(x, m + n);
    }
  }

  lemma AmountsAdd32(s: bv32, t: bv32, m: bv32, n: bv32)
    requires m == s & 31 && n == t & 31
    ensures m < 32 && n < 32
    ensures (s + t) & 31 == if m + n >= 32 then m + n - 32 else m + n
    ensures m + n >= 32 ==> m + n - 32 <= 32 && 32 + (m + n - 32) == m + n
  {}

  lemma FullTurn32(x: bv32)
    ensures Turned32(x, 32) == x
  {
    hide Left32, Right32, Both32, Up32;
    PartsAreTurned32(x, 31);
    LastTurn32(x);
  }

  /** Rotating twice is rotating by the sum. */
  lemma RotationsAdd32(x: bv32, s: bv32, t: bv32)
    ensures RotateLeft32(RotateLeft32(x, s), t) == RotateLeft32(x, s + t)
  {
    hide *;
    RotateLeftTurns32(x, s);
    RotateLeftTurns32(RotateLeft32(x, s), t);
    RotateLeftTurns32(x, s + t);
    var m, n := s & 31, t & 31;
    AmountsAdd32(s, t, m, n);
    TurnsAdd32(x, m, n);
    if m + n >= 32 {
      TurnsAdd32(x, 32, m + n - 32);
      FullTurn32(x);
    }
  }

  lemma RightIsLeft32(x: bv32, s: bv32)
    ensures RotateRight32(x, s) == RotateLeft32(x, 0 - s) && RotateLeft32(x, 0) == x
  {}

  /** Rotations by the same amount undo each other, whatever its sign. */
  lemma RotationsUndo32(x: bv32, s: bv32)
    ensures RotateRight32(RotateLeft32(x, s), s) == x
    ensures RotateLeft32(RotateRight32(x, s), s) == x
  {
    hide *;
    RightIsLeft32(RotateLeft32(x, s), s);
    RightIsLeft32(x, s);
    RotationsAdd32(x, s, 0 - s);
    RotationsAdd32(x, 0 - s, s);
  }

  // ---- 64 bits ----------------------------------------------------------------------

  function RotateLeft64(x: bv64, s: bv32): bv64 {
    (x << (s & 63)) | (x >> ((0 - s) & 63))
  }

  function RotateRight64(x: bv64, s: bv32): bv64 {
    (x >> (s & 63)) | (x << ((0 - s) & 63))
  }

  /** Every bit moves up by one place, the top one to the bottom. */
  function Up64(x: bv64): bv64 {
    (x << 1) | (x >> 63)
  }

  /** The word after `n` such turns. */
  function Turned64(x: bv64, n: bv32): bv64
    decreases n
  {
    if n == 0 then x else Up64(Turned64(x, n - 1))
  }

  function Left64(x: bv64, n: bv32): bv64
    requires n <= 64
  {
    x << n
  }

  function Right64(x: bv64, n: bv32): bv64
    requires n <= 64
  {
    x >> n
  }

  function Both64(x: bv64, y: bv64): bv64 { x | y }

  function Double64(x: bv64): bv64 { x << 1 }

  function Half64(x: bv64): bv64 { x >> 1 }

  function Top64(x: bv64): bv64 { x >> 63 }

  function Bottom64(x: bv64): bv64 { x & 1 }

  lemma ShiftLeftStepFrom0(x: bv64, n: bv32)
    requires 0 < n && n < 8
    ensures x << n == (x << (n - 1)) << 1
  {}

  lemma ShiftLeftStepFrom8(x: bv64, n: bv32)
    requires 8 <= n && n < 16
    ensures x << n == (x << (n - 1)) << 1
  {}

  lemma ShiftLeftStepFrom16(x: bv64, n: bv32)
    requires 16 <= n && n < 32
    ensures x << n == (x << (n - 1)) << 1
  {}

  lemma ShiftLeftStepFrom32(x: bv64, n: bv32)
    requires 32 <= n && n < 64
    ensures x << n == (x << (n - 1)) << 1
  {}

  lemma ShiftLeftStep64(x: bv64, n: bv32)
    requires 0 < n < 64
    ensures x << n == (x << (n - 1)) << 1
  {
    if n < 8 {
      ShiftLeftStepFrom0(x, n);
    } else if n < 16 {
      ShiftLeftStepFrom8(x, n);
    } else if n < 32 {
      ShiftLeftStepFrom16(x, n);
    } else {
      ShiftLeftStepFrom32(x, n);
    }
  }

  lemma ShiftRightStepFrom0(x: bv64, n: bv32)
    requires 0 < n && n < 8
    ensures x >> n == (x >> (n - 1)) >> 1
  {}

  lemma ShiftRightStepFrom8(x: bv64, n: bv32)
    requires 8 <= n && n < 16
    ensures x >> n == (x >> (n - 1)) >> 1
  {}

  lemma ShiftRightStepFrom16(x: bv64, n: bv32)
    requires 16 <= n && n < 32
    ensures x >> n == (x >> (n - 1)) >> 1
  {}

  lemma ShiftRightStepFrom32(x: bv64, n: bv32)
    requires 32 <= n && n <= 64
    ensures x >> n == (x >> (n - 1)) >> 1
  {}

  lemma ShiftRightStep64(x: bv64, n: bv32)
    requires 0 < n <= 64
    ensures x >> n == (x >> (n - 1)) >> 1
  {
    if n < 8 {
      ShiftRightStepFrom0(x, n);
    } else if n < 16 {
      ShiftRightStepFrom8(x, n);
    } else if n < 32 {
      ShiftRightStepFrom16(x, n);
    } else {
      ShiftRightStepFrom32(x, n);
    }
  }

  lemma LeftStep64(x: bv64, n: bv32)
    requires 0 < n < 64
    ensures Left64(x, n) == Double64(Left64(x, n - 1))
  {
    ShiftLeftStep64(x, n);
    assert Left64(x, n - 1) == x << (n - 1);
    assert Left64(x, n) == x << n;
  }

  lemma RightStep64(x: bv64, n: bv32)
    requires 0 < n <= 64
    ensures Right64(x, n) == Half64(Right64(x, n - 1))
  {
    ShiftRightStep64(x, n);
    assert Right64(x, n - 1) == x >> (n - 1);
    assert Right64(x, n) == x >> n;
  }

  lemma TopBit64(x: bv64, n: bv32)
    requires 0 < n < 64
    ensures Top64(Left64(x, n - 1)) == Bottom64(Right64(x, 64 - n))
  {}

  /** The two shifted parts of a word, before and after one more turn. */
  lemma TurnOfParts64(left: bv64, right: bv64)
    requires Top64(left) == Bottom64(right)
    ensures Both64(Double64(left), right) == Up64(Both64(left, Half64(right)))
  {}

  lemma Amount64(n: bv32)
    requires 0 < n < 64
    ensures 0 < 64 - (n - 1) <= 64 && 64 - (n - 1) - 1 == 64 - n && 64 - n <= 64 && n - 1 < 64
  {}

  lemma PartsStep64(x: bv64, n: bv32)
    requires 0 < n < 64
    ensures Both64(Left64(x, n), Right64(x, 64 - n)) == Up64(Both64(Left64(x, n - 1), Right64(x, 64 - (n - 1))))
  {
    hide *;
    Amount64(n);
    LeftStep64(x, n);
    RightStep64(x, 64 - (n - 1));
    TopBit64(x, n);
    TurnOfParts64(Left64(x, n - 1), Right64(x, 64 - n));
  }

  lemma ShiftedOut64(x: bv64)
    ensures Both64(Left64(x, 0), Right64(x, 64)) == x
  {}

  lemma Unshifted64(x: bv64)
    ensures Both64(Left64(x, 0), Right64(x, 0)) == x
  {}

  lemma LastTurn64(x: bv64)
    ensures Up64(Both64(Left64(x, 63), Right64(x, 1))) == x
  {}

  lemma {:induction false} PartsAreTurned64(x: bv64, n: bv32)
    requires n < 64
    ensures Both64(Left64(x, n), Right64(x, 64 - n)) == Turned64(x, n)
    decreases n
  {
    hide Left64, Right64, Up64, Both64;
    if n == 0 {
      ShiftedOut64(x);
    } else {
      PartsAreTurned64(x, n - 1);
      PartsStep64(x, n);
    }
  }

  lemma Amounts64(s: bv32)
    ensures s & 63 == 0 ==> (0 - s) & 63 == 0
    ensures s & 63 != 0 ==> (0 - s) & 63 == 64 - (s & 63)
    ensures s & 63 < 64
  {}

  lemma RotationParts64(x: bv64, s: bv32)
    ensures s & 63 < 64 && (0 - s) & 63 < 64
    ensures RotateLeft64(x, s) == Both64(Left64(x, s & 63), Right64(x, (0 - s) & 63))
  {}

  /** Rotating left by any amount turns the word by that amount modulo its width. */
  lemma RotateLeftTurns64(x: bv64, s: bv32)
    ensures RotateLeft64(x, s) == Turned64(x, s & 63)
  {
    hide *;
    Amounts64(s);
    RotationParts64(x, s);
    PartsAreTurned64(x, s & 63);
    ShiftedOut64(x);
    Unshifted64(x);
  }

  lemma TurnedStep64(x: bv64, n: bv32)
    requires n != 0
    ensures Turned64(x, n) == Up64(Turned64(x, n - 1))
  {
    hide Up64;
  }

  lemma NoTurn64(x: bv64, m: bv32)
    ensures Turned64(x, 0) == x && m + 0 == m
  {}

  lemma SumLessOne64(m: bv32, n: bv32)
    requires m <= 64 && 0 < n <= 64
    ensures m + n != 0 && (m + n) - 1 == m + (n - 1) && n - 1 < n
  {}

  lemma {:induction false} TurnsAdd64(x: bv64, m: bv32, n: bv32)
    requires m <= 64 && n <= 64
    ensures Turned64(Turned64(x, m), n) == Turned64(x, m + n)
    decreases n
  {
    hide *;
    if n == 0 {
      NoTurn64(Turned64(x, m), m);
    } else {
      SumLessOne64(m, n);
      TurnsAdd64(x, m, n - 1);
      TurnedStep64(Turned64(x, m), n);
      TurnedStep64(x, m + n);
    }
  }

  lemma AmountsAdd64(s: bv32, t: bv32, m: bv32, n: bv32)
    requires m == s & 63 && n == t & 63
    ensures m < 64 && n < 64
    ensures (s + t) & 63 == if m + n >= 64 then m + n - 64 else m + n
    ensures m + n >= 64 ==> m + n - 64 <= 64 && 64 + (m + n - 64) == m + n
  {}

  lemma FullTurn64(x: bv64)
    ensures Turned64(x, 64) == x
  {
    hide Left64, Right64, Both64, Up64;
    PartsAreTurned64(x, 63);
    LastTurn64(x);
  }

  /** Rotating twice is rotating by the sum. */
  lemma RotationsAdd64(x: bv64, s: bv32, t: bv32)
    ensures RotateLeft64(RotateLeft64(x, s), t) == RotateLeft64(x, s + t)
  {
    hide *;
    RotateLeftTurns64(x, s);
    RotateLeftTurns64(RotateLeft64(x, s), t);
    RotateLeftTurns64(x, s + t);
    var m, n := s & 63, t & 63;
    AmountsAdd64(s, t, m, n);
    TurnsAdd64(x, m, n);
    if m + n >= 64 {
      TurnsAdd64(x, 64, m + n - 64);
      FullTurn64(x);
    }
  }

  lemma RightIsLeft64(x: bv64, s: bv32)
    ensures RotateRight64(x, s) == RotateLeft64(x, 0 - s) && RotateLeft64(x, 0) == x
  {}

  /** Rotations by the same amount undo each other, whatever its sign. */
  lemma RotationsUndo64(x: bv64, s: bv32)
    ensures RotateRight64(RotateLeft64(x, s), s) == x
    ensures RotateLeft64(RotateRight64(x, s), s) == x
  {
    hide *;
    RightIsLeft64(RotateLeft64(x, s), s);
    RightIsLeft64(x, s);
    RotationsAdd64(x, s, 0 - s);
    RotationsAdd64(x, 0 - s, s);
  }
}
