/** The two tables of the Base64 codec, against the alphabet of RFC 4648, section 4, table 1. */
module Base64Tables {
  type Byte = b: int | 0 <= b < 256
  type Sextet = v: int | 0 <= v < 64

  const Upper := "ABCDEFGHIJKLMNOPQRSTUVWXYZ"
  const Lower := "abcdefghijklmnopqrstuvwxyz"
  const Digits := "0123456789"
  const Alphabet := Upper + Lower + Digits + "+/"

  const Row0: seq<int> := [64, 64, 64, 64, 64, 64, 64, 64, 64, 64, 64, 64, 64, 64, 64, 64]
  const Row2: seq<int> := [64, 64, 64, 64, 64, 64, 64, 64, 64, 64, 64, 62, 64, 64, 64, 63]
  const Row3: seq<int> := [52, 53, 54, 55, 56, 57, 58, 59, 60, 61, 64, 64, 64, 64, 64, 64]
  const Row4: seq<int> := [64,  0,  1,  2,  3,  4,  5,  6,  7,  8,  9, 10, 11, 12, 13, 14]
  const Row5: seq<int> := [15, 16, 17, 18, 19, 20, 21, 22, 23, 24, 25, 64, 64, 64, 64, 64]
  const Row6: seq<int> := [64, 26, 27, 28, 29, 30, 31, 32, 33, 34, 35, 36, 37, 38, 39, 40]
  const Row7: seq<int> := [41, 42, 43, 44, 45, 46, 47, 48, 49, 50, 51, 64, 64, 64, 64, 64]
  const LowerTable: seq<int> := Row0 + Row0 + Row2 + Row3
  const UpperTable: seq<int> := Row4 + Row5 + Row6 + Row7
  const DecodeTable: seq<int> := LowerTable + UpperTable

  /** The letter of a value. */
  function Letter(v: Sextet): char {
    if v < 26 then 'A' + v as char
    else if v < 52 then 'a' + (v - 26) as char
    else if v < 62 then '0' + (v - 52) as char
    else if v == 62 then '+'
    else '/'
  }

  /** The value of a character, 64 if it is no letter of the alphabet. */
  function ValueOf(c: char): int {
    if 'A' <= c <= 'Z' then c as int - 65
    else if 'a' <= c <= 'z' then c as int - 71
    else if '0' <= c <= '9' then c as int + 4
    else if c == '+' then 62
    else if c == '/' then 63
    else 64
  }

  predicate InAlphabet(c: char) {
    ValueOf(c) != 64
  }

  function Value(c: char): Sextet
    requires InAlphabet(c)
  {
    ValueOf(c)
  }

  lemma LetterOfValue(c: char)
    requires InAlphabet(c)
    ensures Letter(Value(c)) == c
  {}

  lemma ValueOfLetter(v: Sextet)
    ensures InAlphabet(Letter(v)) && Value(Letter(v)) == v && Letter(v) != '='
  {}

  lemma AlphabetIsStandard(v: Sextet)
    ensures |Alphabet| == 64 && Alphabet[v] == Letter(v)
  {
    if v < 26 {
      assert Alphabet[v] == Upper[v];
    } else if v < 52 {
      assert Alphabet[v] == Lower[v - 26];
    } else if v < 62 {
      assert Alphabet[v] == Digits[v - 52];
    } else {
      assert Alphabet[v] == "+/"[v - 62];
    }
  }

  lemma CapitalsInOrder(v: Sextet)
    requires v < 26
    ensures Letter(v) == "ABCDEFGHIJKLMNOPQRSTUVWXYZ"[v]
  {}

  lemma SmallLettersInOrder(v: Sextet)
    requires 26 <= v < 52
    ensures Letter(v) == "abcdefghijklmnopqrstuvwxyz"[v - 26]
  {}

  lemma DigitsInOrder(v: Sextet)
    requires 52 <= v < 62
    ensures Letter(v) == "0123456789"[v - 52]
  {}

  /** Table 1 of RFC 4648. */
  lemma AlphabetInOrder(v: Sextet)
    ensures if v < 26 then Letter(v) == "ABCDEFGHIJKLMNOPQRSTUVWXYZ"[v]
            else if v < 52 then Letter(v) == "abcdefghijklmnopqrstuvwxyz"[v - 26]
            else if v < 62 then Letter(v) == "0123456789"[v - 52]
            else Letter(v) == if v == 62 then '+' else '/'
  {
    if v < 26 {
      CapitalsInOrder(v);
    } else if v < 52 {
      SmallLettersInOrder(v);
    } else if v < 62 {
      DigitsInOrder(v);
    }
  }

  lemma Rows(i: nat)
    requires i < 16
    ensures Row0[i] == ValueOf(i as char) == ValueOf((16 + i) as char)
    ensures Row2[i] == ValueOf((32 + i) as char)
    ensures Row3[i] == ValueOf((48 + i) as char)
  {}

  lemma LetterRows(i: nat)
    requires i < 16
    ensures Row4[i] == ValueOf((64 + i) as char)
    ensures Row5[i] == ValueOf((80 + i) as char)
    ensures Row6[i] == ValueOf((96 + i) as char)
    ensures Row7[i] == ValueOf((112 + i) as char)
  {}

  lemma Sixteens(a: seq<int>, b: seq<int>, c: seq<int>, d: seq<int>, k: nat)
    requires |a| == |b| == |c| == |d| == 16 && k < 64
    ensures |a + b + c + d| == 64
    ensures (a + b + c + d)[k] ==
            if k < 16 then a[k] else if k < 32 then b[k - 16] else if k < 48 then c[k - 32] else d[k - 48]
  {}

  lemma RowSizes()
    ensures |Row0| == |Row2| == |Row3| == |Row4| == |Row5| == |Row6| == |Row7| == 16
  {}

  lemma LowerEntry(k: nat)
    requires k < 64
    ensures |LowerTable| == 64 && LowerTable[k] == ValueOf(k as char)
  {
    RowSizes();
    hide Row0, Row2, Row3, ValueOf;
    if k < 16 {
      Rows(k);
    } else if k < 32 {
      Rows(k - 16);
    } else if k < 48 {
      Rows(k - 32);
    } else {
      Rows(k - 48);
    }
    Sixteens(Row0, Row0, Row2, Row3, k);
  }

  lemma UpperEntry(k: nat)
    requires k < 64
    ensures |UpperTable| == 64 && UpperTable[k] == ValueOf((64 + k) as char)
  {
    RowSizes();
    hide Row4, Row5, Row6, Row7, ValueOf;
    if k < 16 {
      LetterRows(k);
    } else if k < 32 {
      LetterRows(k - 16);
    } else if k < 48 {
      LetterRows(k - 32);
    } else {
      LetterRows(k - 48);
    }
    Sixteens(Row4, Row5, Row6, Row7, k);
  }

  /** The decoding table holds the value of every letter and 64 everywhere else. */
  lemma DecodeTableIsStandard(c: char)
    ensures |DecodeTable| == 128
    ensures c as int < 128 ==> DecodeTable[c as int] == ValueOf(c)
    ensures c as int >= 128 ==> !InAlphabet(c)
  {
    hide LowerTable, UpperTable, ValueOf;
    LowerEntry(c as int % 64);
    UpperEntry(c as int % 64);
    NoLetterAbove(c);
  }

  lemma NoLetterAbove(c: char)
    ensures c as int >= 128 ==> !InAlphabet(c)
  {}
}
