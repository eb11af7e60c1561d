/** Byte order reversal, against the list of a word's bytes. */
module ByteSwap {
  function ByteSwap16(x: bv16): bv16 {
    (x << 8) | (x >> 8)
  }

  function ByteSwap32(x: bv32): bv32 {
    var step16 := (x << 16) | (x >> 16);
    ((step16 << 8) & 0xff00ff00) | ((step16 >> 8) & 0x00ff00ff)
  }

  function ByteSwap64(x: bv64): bv64 {
    var step32 := (x << 32) | (x >> 32);
    var step16 := ((step32 & 0x0000FFFF0000FFFF) << 16) | ((step32 & 0xFFFF0000FFFF0000) >> 16);
    ((step16 & 0x00FF00FF00FF00FF) << 8) | ((step16 & 0xFF00FF00FF00FF00) >> 8)
  }

  /** The lowest byte, and the word without it. */
  function Low(x: bv64): bv8 {
    (x & 0xFF) as bv8
  }

  function Rest(x: bv64): bv64 {
    x >> 8
  }

  /** Byte `i` of a word, lowest first. */
  function ByteAt(x: bv64, i: nat): bv8 {
    if i == 0 then Low(x) else ByteAt(Rest(x), i - 1)
  }

  lemma BytesOfRest(x: bv64)
    ensures ByteAt(x, 0) == Low(x)
    ensures forall i {:trigger ByteAt(x, i)} :: 0 < i ==> ByteAt(x, i) == ByteAt(Rest(x), i - 1)
  {}

  lemma FourBytes(x: bv64)
    ensures ByteAt(x, 0) == Low(x) && ByteAt(x, 1) == Low(Rest(x))
    ensures ByteAt(x, 2) == Low(Rest(Rest(x))) && ByteAt(x, 3) == Low(Rest(Rest(Rest(x))))
  {
    hide *;
    BytesOfRest(x);
    BytesOfRest(Rest(x));
    BytesOfRest(Rest(Rest(x)));
    BytesOfRest(Rest(Rest(Rest(x))));
  }

  function Upper(x: bv64): bv64 {
    x >> 32
  }

  lemma UpperIs(x: bv64)
    ensures Upper(x) == Rest(Rest(Rest(Rest(x))))
  {}

  lemma UpperBytes(x: bv64, i: nat)
    ensures ByteAt(x, i + 4) == ByteAt(Upper(x), i)
  {
    hide *;
    UpperIs(x);
    BytesOfRest(x);
    BytesOfRest(Rest(x));
    BytesOfRest(Rest(Rest(x)));
    BytesOfRest(Rest(Rest(Rest(x))));
  }

  // ---- 16 bits --------------------------------------------------------------------

  lemma Bytes16(x: bv16, y: bv64, z: bv64)
    requires y == x as bv64 && z == ByteSwap16(x) as bv64
    ensures Low(z) == Low(Rest(y)) && Low(Rest(z)) == Low(y)
  {}

  lemma Reverses16(x: bv16, i: nat)
    requires i < 2
    ensures ByteAt(ByteSwap16(x) as bv64, i) == ByteAt(x as bv64, 1 - i)
  {
    hide *;
    Bytes16(x, x as bv64, ByteSwap16(x) as bv64);
    FourBytes(x as bv64);
    FourBytes(ByteSwap16(x) as bv64);
  }

  lemma Involution16(x: bv16)
    ensures ByteSwap16(ByteSwap16(x)) == x
  {}

  // ---- 32 bits --------------------------------------------------------------------

  lemma Bytes32(x: bv32, y: bv64, z: bv64)
    requires y == x as bv64 && z == ByteSwap32(x) as bv64
    ensures Low(z) == Low(Rest(Rest(Rest(y)))) && Low(Rest(z)) == Low(Rest(Rest(y)))
    ensures Low(Rest(Rest(z))) == Low(Rest(y)) && Low(Rest(Rest(Rest(z)))) == Low(y)
  {}

  lemma Reverses32(x: bv32, i: nat)
    requires i < 4
    ensures ByteAt(ByteSwap32(x) as bv64, i) == ByteAt(x as bv64, 3 - i)
  {
    hide *;
    Bytes32(x, x as bv64, ByteSwap32(x) as bv64);
    FourBytes(x as bv64);
    FourBytes(ByteSwap32(x) as bv64);
  }

  lemma Involution32(x: bv32)
    ensures ByteSwap32(ByteSwap32(x)) == x
  {}

  // ---- 64 bits --------------------------------------------------------------------

  lemma LowerBytes64(x: bv64, y: bv64, z: bv64)
    requires y == Upper(x) && z == ByteSwap64(x)
    ensures Low(z) == Low(Rest(Rest(Rest(y)))) && Low(Rest(z)) == Low(Rest(Rest(y)))
    ensures Low(Rest(Rest(z))) == Low(Rest(y)) && Low(Rest(Rest(Rest(z)))) == Low(y)
  {}

  lemma ReversesLower64(x: bv64, i: nat)
    requires i < 4
    ensures ByteAt(ByteSwap64(x), i) == ByteAt(x, 7 - i)
  {
    hide *;
    LowerBytes64(x, Upper(x), ByteSwap64(x));
    FourBytes(Upper(x));
    FourBytes(ByteSwap64(x));
    UpperBytes(x, 3 - i);
  }

  lemma Involution64(x: bv64)
    ensures ByteSwap64(ByteSwap64(x)) == x
  {}

  lemma Reverses64(x: bv64, i: nat)
    requires i < 8
    ensures ByteAt(ByteSwap64(x), i) == ByteAt(x, 7 - i)
  {
    hide *;
    if i < 4 {
      ReversesLower64(x, i);
    } else {
      ReversesLower64(ByteSwap64(x), 7 - i);
      Involution64(x);
    }
  }
}
