/** The laws of the Base64 codec. */
module Base64Laws {
  import opened Base64Tables
  import opened Base64

  function One(c: char): seq<Sextet> {
    if InAlphabet(c) then [Value(c)] else []
  }

  lemma SextetsOfHead(s: string)
    requires s != []
    ensures Sextets(s) == One(s[0]) + Sextets(s[1..])
  {
    hide ValueOf;
  }

  lemma Regrouped(a: seq<Sextet>, b: seq<Sextet>, c: seq<Sextet>)
    ensures a + (b + c) == a + b + c
  {}

  lemma {:induction false} SextetsConcat(s: string, t: string)
    ensures Sextets(s + t) == Sextets(s) + Sextets(t)
  {
    if s == [] {
      assert s + t == t;
    } else {
      hide *;
      SextetsConcat(s[1..], t);
      assert (s + t)[1..] == s[1..] + t;
      SextetsOfHead(s + t);
      SextetsOfHead(s);
      Regrouped(One(s[0]), Sextets(s[1..]), Sextets(t));
    }
  }

  lemma SextetsOfOne(c: char)
    ensures Sextets([c]) == One(c)
  {
    assert [c][1..] == [];
  }

  lemma SextetsOfFour(a: char, b: char, c: char, d: char)
    ensures Sextets([a, b, c, d]) == One(a) + One(b) + One(c) + One(d)
  {
    hide Sextets, One;
    SextetsOfOne(a);
    SextetsOfOne(b);
    SextetsOfOne(c);
    SextetsOfOne(d);
    SextetsConcat([a], [b]);
    SextetsConcat([a] + [b], [c]);
    SextetsConcat([a] + [b] + [c], [d]);
    assert [a, b, c, d] == [a] + [b] + [c] + [d];
  }

  lemma OneOfLetter(v: Sextet)
    ensures One(Letter(v)) == [v]
  {
    ValueOfLetter(v);
  }

  /** The four values of a group spell its three bytes. */
  lemma GroupSpells(a: Byte, b: Byte, c: Byte)
    ensures Byte0(a / 4, a % 4 * 16 + b / 16) == a
    ensures Byte1(a % 4 * 16 + b / 16, b % 16 * 4 + c / 64) == b
    ensures Byte2(b % 16 * 4 + c / 64, c % 64) == c
  {
    assert (b % 16 * 4 + c / 64) % 4 == c / 64;
  }

  lemma DecodedGroup(a: Byte, b: Byte, c: Byte, rest: string)
    ensures FromSextets(Sextets(Group(a, b, c) + rest)) == [a, b, c] + FromSextets(Sextets(rest))
  {
    var v0, v1, v2, v3 := a / 4, a % 4 * 16 + b / 16, b % 16 * 4 + c / 64, c % 64;
    GroupSpells(a, b, c);
    hide Letter, Byte0, Byte1, Byte2, Sextets, One;
    OneOfLetter(v0);
    OneOfLetter(v1);
    OneOfLetter(v2);
    OneOfLetter(v3);
    SextetsOfFour(Letter(v0), Letter(v1), Letter(v2), Letter(v3));
    SextetsConcat(Group(a, b, c), rest);
    var x := Sextets(rest);
    assert Sextets(Group(a, b, c) + rest) == [v0, v1, v2, v3] + x;
    assert ([v0, v1, v2, v3] + x)[4..] == x;
  }

  lemma DecodedPadded(a: Sextet, b: Sextet, c: Sextet)
    ensures FromSextets(Sextets([Letter(a), Letter(b), '=', '='])) == [Byte0(a, b)]
    ensures FromSextets(Sextets([Letter(a), Letter(b), Letter(c), '='])) == [Byte0(a, b), Byte1(b, c)]
  {
    hide Letter, Byte0, Byte1, Byte2, Sextets, One;
    OneOfLetter(a);
    OneOfLetter(b);
    OneOfLetter(c);
    PadIsNoLetter();
    SextetsOfFour(Letter(a), Letter(b), '=', '=');
    SextetsOfFour(Letter(a), Letter(b), Letter(c), '=');
    assert Sextets([Letter(a), Letter(b), '=', '=']) == [a, b];
    assert Sextets([Letter(a), Letter(b), Letter(c), '=']) == [a, b, c];
  }

  lemma DecodedRest(a: Byte, b: Byte)
    ensures FromSextets(Sextets(Encode([a]))) == [a]
    ensures FromSextets(Sextets(Encode([a, b]))) == [a, b]
  {
    hide FromSextets, Sextets, Letter, Byte0, Byte1;
    GroupSpells(a, 0, 0);
    GroupSpells(a, b, 0);
    DecodedPadded(a / 4, a % 4 * 16, 0);
    DecodedPadded(a / 4, a % 4 * 16 + b / 16, b % 16 * 4);
  }

  lemma {:induction false} EncodedSextets(data: seq<Byte>)
    ensures FromSextets(Sextets(Encode(data))) == data
    decreases |data|
  {
    hide FromSextets, Sextets, Group;
    if |data| == 0 {
      NothingDecodes();
    } else if |data| == 1 {
      assert data == [data[0]];
      DecodedRest(data[0], 0);
    } else if |data| == 2 {
      assert data == [data[0], data[1]];
      DecodedRest(data[0], data[1]);
    } else {
      DecodedGroup(data[0], data[1], data[2], Encode(data[3..]));
      EncodedSextets(data[3..]);
    }
  }

  lemma NothingDecodes()
    ensures FromSextets(Sextets(Encode([]))) == []
  {}

  lemma PadIsNoLetter()
    ensures One('=') == []
  {}

  /** Decoding an encoding yields the bytes encoded, for every byte sequence. */
  lemma RoundTrip(data: seq<Byte>)
    ensures Decode(Encode(data)) == data
  {
    DecodeRegroups(Encode(data));
    EncodedSextets(data);
  }

  /** `k` letters decode to exactly floor(3k/4) bytes. */
  lemma {:induction false} RegroupedLength(x: seq<Sextet>)
    ensures |FromSextets(x)| == 3 * |x| / 4
    decreases |x|
  {
    if |x| >= 4 {
      RegroupedLength(x[4..]);
    }
  }

  lemma DecodedLength(s: string)
    ensures |Decode(s)| == 3 * |Sextets(s)| / 4
  {
    DecodeRegroups(s);
    RegroupedLength(Sextets(s));
  }

  /** Only the letters of the alphabet matter. */
  lemma OtherCharactersAreIgnored(s: string, junk: string, t: string)
    requires forall i :: 0 <= i < |junk| ==> !InAlphabet(junk[i])
    ensures Decode(s + junk + t) == Decode(s + t)
  {
    NoSextets(junk);
    SextetsConcat(s + junk, t);
    SextetsConcat(s, junk);
    SextetsConcat(s, t);
    DecodeRegroups(s + junk + t);
    DecodeRegroups(s + t);
    hide Sextets, FromSextets, Decode;
    assert Sextets(s) + [] == Sextets(s);
  }

  lemma {:induction false} NoSextets(junk: string)
    requires forall i :: 0 <= i < |junk| ==> !InAlphabet(junk[i])
    ensures Sextets(junk) == []
  {
    if junk != [] {
      NoSextets(junk[1..]);
    }
  }

  lemma {:induction false} RegroupConcat(x: seq<Sextet>, y: seq<Sextet>)
    requires |x| % 4 == 0
    ensures FromSextets(x + y) == FromSextets(x) + FromSextets(y)
    decreases |x|
  {
    if x == [] {
      assert x + y == y;
    } else {
      RegroupConcat(x[4..], y);
      assert (x + y)[4..] == x[4..] + y;
    }
  }

  /** At a multiple of four letters decoding distributes over concatenation, although the
      accumulator still holds everything decoded before. */
  lemma DecodeDistributes(s: string, t: string)
    requires |Sextets(s)| % 4 == 0
    ensures Decode(s + t) == Decode(s) + Decode(t)
  {
    DecodeRegroups(s);
    DecodeRegroups(t);
    DecodeRegroups(s + t);
    SextetsConcat(s, t);
    RegroupConcat(Sextets(s), Sextets(t));
  }

  // ---- Shape ----------------------------------------------------------------------

  predicate Letters(s: string) {
    forall i :: 0 <= i < |s| ==> InAlphabet(s[i])
  }

  function Padding(n: nat): nat {
    (3 - n % 3) % 3
  }

  /** `pad` equals signs at the end, letters before. */
  predicate Padded(s: string, pad: nat) {
    && pad <= |s|
    && (forall i :: 0 <= i < |s| - pad ==> InAlphabet(s[i]))
    && forall i :: |s| - pad <= i < |s| ==> s[i] == '='
  }

  lemma PaddedAfterLetters(s: string, t: string, pad: nat)
    requires Letters(s) && Padded(t, pad)
    ensures Padded(s + t, pad)
  {
    hide InAlphabet;
  }

  lemma PaddedGroups(a: Byte, b: Byte, c: Byte)
    ensures Letters(Group(a, b, c)) && Padded(Encode([a]), 2) && Padded(Encode([a, b]), 1)
    ensures |Encode([a])| == |Encode([a, b])| == 4
  {
    ValueOfLetter(a / 4);
    ValueOfLetter(a % 4 * 16);
    ValueOfLetter(a % 4 * 16 + b / 16);
    ValueOfLetter(b % 16 * 4);
    ValueOfLetter(b % 16 * 4 + c / 64);
    ValueOfLetter(c % 64);
    hide Letter, InAlphabet;
  }

  lemma NoShape()
    ensures Encode([]) == [] && Padded(Encode([]), 0)
  {
    EncodeNothing();
  }

  lemma ShortEncodingShape(data: seq<Byte>)
    requires |data| < 3
    ensures |Encode(data)| == (|data| + 2) / 3 * 4
    ensures Padded(Encode(data), Padding(|data|))
  {
    hide Encode, Padded;
    if |data| == 0 {
      assert data == [];
      NoShape();
    } else if |data| == 1 {
      PaddedGroups(data[0], 0, 0);
      assert data == [data[0]];
    } else {
      PaddedGroups(data[0], data[1], 0);
      assert data == [data[0], data[1]];
    }
  }

  /** An encoding has four characters for every three bytes begun; its last `Padding`
      characters are equals signs and all others are letters. */
  lemma {:induction false} EncodingShape(data: seq<Byte>)
    ensures |Encode(data)| == (|data| + 2) / 3 * 4
    ensures Padded(Encode(data), Padding(|data|))
    decreases |data|
  {
    hide Padded, Letters, Encode, Group;
    if |data| < 3 {
      ShortEncodingShape(data);
    } else {
      EncodingShape(data[3..]);
      EncodePrefix(data);
      PaddedGroups(data[0], data[1], data[2]);
      PaddedAfterLetters(Group(data[0], data[1], data[2]), Encode(data[3..]), Padding(|data|));
    }
  }

  // ---- Canonical encodings --------------------------------------------------------

  /** The last group: full, or padded with the unused bits of its last letter zero
      (sections 3.5 and 4 of RFC 4648). */
  predicate FinalGroup(a: char, b: char, c: char, d: char) {
    && InAlphabet(a) && InAlphabet(b)
    && ((InAlphabet(c) && InAlphabet(d))
        || (InAlphabet(c) && d == '=' && Value(c) % 4 == 0)
        || (c == '=' && d == '=' && Value(b) % 16 == 0))
  }

  predicate Canonical(s: string) {
    || s == []
    || (|s| == 4 && FinalGroup(s[0], s[1], s[2], s[3]))
    || (|s| > 4 && Letters(s[..4]) && Canonical(s[4..]))
  }

  lemma SpelledGroup(a: Sextet, b: Sextet, c: Sextet, d: Sextet)
    ensures Byte0(a, b) / 4 == a
    ensures Byte0(a, b) % 4 * 16 + Byte1(b, c) / 16 == b
    ensures Byte1(b, c) % 16 * 4 + Byte2(c, d) / 64 == c
    ensures Byte2(c, d) % 64 == d
    ensures b % 16 == 0 ==> Byte0(a, b) % 4 * 16 == b
    ensures c % 4 == 0 ==> Byte1(b, c) % 16 * 4 == c
  {}

  lemma FinalSextets(a: char, b: char, c: char, d: char)
    requires FinalGroup(a, b, c, d)
    ensures Sextets([a, b, c, d]) ==
            if InAlphabet(d) then [Value(a), Value(b), Value(c), Value(d)]
            else if InAlphabet(c) then [Value(a), Value(b), Value(c)]
            else [Value(a), Value(b)]
  {
    SextetsOfFour(a, b, c, d);
    PadIsNoLetter();
    hide Sextets, ValueOf;
  }

  lemma PaddedGroupReencodes(a: Sextet, b: Sextet, c: Sextet)
    requires c % 4 == 0
    ensures Encode([Byte0(a, b), Byte1(b, c)]) == [Letter(a), Letter(b), Letter(c), '=']
    ensures b % 16 == 0 ==> Encode([Byte0(a, b)]) == [Letter(a), Letter(b), '=', '=']
  {
    hide Letter;
    SpelledGroup(a, b, c, 0);
  }

  lemma ByteBounds(a: Sextet, b: Sextet, c: Sextet, d: Sextet)
    ensures 0 <= Byte0(a, b) < 256 && 0 <= Byte1(b, c) < 256 && 0 <= Byte2(c, d) < 256
  {}

  lemma FullGroupSpelled(a: Sextet, b: Sextet, c: Sextet, d: Sextet)
    ensures Encode([Byte0(a, b), Byte1(b, c), Byte2(c, d)]) == [Letter(a), Letter(b), Letter(c), Letter(d)]
  {
    hide Letter, Encode, Byte0, Byte1, Byte2;
    ByteBounds(a, b, c, d);
    SpelledGroup(a, b, c, d);
    var data := [Byte0(a, b), Byte1(b, c), Byte2(c, d)];
    EncodePrefix(data);
    assert data[3..] == [];
    EncodeNothing();
  }

  lemma FinalGroupReencodes(s: string)
    requires |s| == 4 && FinalGroup(s[0], s[1], s[2], s[3])
    ensures Encode(Decode(s)) == s
  {
    assert s == [s[0], s[1], s[2], s[3]];
    DecodeRegroups(s);
    FinalSextets(s[0], s[1], s[2], s[3]);
    hide Letter, ValueOf, Byte0, Byte1, Byte2, Sextets, Encode, Decode;
    LetterOfValue(s[0]);
    LetterOfValue(s[1]);
    if InAlphabet(s[3]) {
      LetterOfValue(s[2]);
      LetterOfValue(s[3]);
      FullGroupSpelled(Value(s[0]), Value(s[1]), Value(s[2]), Value(s[3]));
      assert Sextets(s)[4..] == [];
    } else if InAlphabet(s[2]) {
      LetterOfValue(s[2]);
      PaddedGroupReencodes(Value(s[0]), Value(s[1]), Value(s[2]));
    } else {
      PaddedGroupReencodes(Value(s[0]), Value(s[1]), 0);
    }
  }

  lemma FullGroupReencodes(s: string, t: string)
    requires |s| == 4 && Letters(s)
    ensures Encode(Decode(s + t)) == s + Encode(Decode(t))
  {
    hide ValueOf, Decode, Encode, Canonical;
    assert s == [s[0], s[1], s[2], s[3]];
    SextetsOfFour(s[0], s[1], s[2], s[3]);
    DecodeDistributes(s, t);
    FinalGroupReencodes(s);
    DecodedLength(s);
    EncodePrefix(Decode(s) + Decode(t));
    EncodePrefix(Decode(s));
    assert (Decode(s) + Decode(t))[3..] == Decode(t);
    assert Decode(s)[3..] == [];
    EncodeNothing();
  }

  lemma {:induction false} CanonicalReencodes(s: string)
    requires Canonical(s)
    ensures Encode(Decode(s)) == s
    decreases |s|
  {
    hide ValueOf, Decode, Encode;
    if s == [] {
      RoundTrip([]);
      EncodeNothing();
    } else if |s| == 4 {
      FinalGroupReencodes(s);
    } else {
      CanonicalReencodes(s[4..]);
      FullGroupReencodes(s[..4], s[4..]);
      assert s[..4] + s[4..] == s;
    }
  }

  lemma {:induction false} EncodingIsCanonical(data: seq<Byte>)
    ensures Canonical(Encode(data))
    decreases |data|
  {
    hide Letter, ValueOf;
    if |data| > 0 {
      var a, b, c := data[0], if |data| > 1 then data[1] else 0, if |data| > 2 then data[2] else 0;
      ValueOfLetter(a / 4);
      ValueOfLetter(a % 4 * 16 + b / 16);
      ValueOfLetter(b % 16 * 4 + c / 64);
      ValueOfLetter(c % 64);
      if |data| > 2 {
        EncodingIsCanonical(data[3..]);
        var rest := Encode(data[3..]);
        assert Encode(data)[4..] == rest;
        EncodingShape(data[3..]);
      }
    }
  }

  /** Encoding what a string decodes to gives the string back exactly when it is canonical. */
  lemma ReencodesIffCanonical(s: string)
    ensures Encode(Decode(s)) == s <==> Canonical(s)
  {
    if Canonical(s) {
      CanonicalReencodes(s);
    }
    EncodingIsCanonical(Decode(s));
  }

  // ---- Groups as numbers ----------------------------------------------------------

  /** A group read as a number of four digits to the base 64. */
  function Digits(s: string): int
    requires Letters(s)
  {
    if s == [] then 0 else Digits(s[..|s| - 1]) * 64 + Value(s[|s| - 1])
  }

  lemma DigitsOf(a: char, b: char, c: char, d: char)
    requires InAlphabet(a) && InAlphabet(b) && InAlphabet(c) && InAlphabet(d)
    ensures Letters([a, b]) && Digits([a, b]) == Value(a) * 64 + Value(b)
    ensures Letters([a, b, c]) && Digits([a, b, c]) == (Value(a) * 64 + Value(b)) * 64 + Value(c)
    ensures Letters([a, b, c, d]) && Digits([a, b, c, d]) == ((Value(a) * 64 + Value(b)) * 64 + Value(c)) * 64 + Value(d)
  {
    hide ValueOf;
    assert [a, b, c, d][..3] == [a, b, c];
    assert [a, b, c][..2] == [a, b];
    assert [a, b][..1] == [a];
    assert [a][..0] == [];
    assert Digits([a]) == Value(a);
  }

  /** The four letters of a group are the digits to the base 64 of the number its three bytes
      form; one or two bytes at the end are filled up with zero bits to two or three letters
      (section 4 of RFC 4648). */
  lemma LettersSpellBytes(a: Byte, b: Byte, c: Byte)
    ensures var s := Encode([a, b, c]); Letters(s) && |s| == 4 && Digits(s) == (a * 256 + b) * 256 + c
    ensures var s := Encode([a, b]); |s| == 4 && s[3] == '=' && Letters(s[..3]) && Digits(s[..3]) == (a * 256 + b) * 4
    ensures var s := Encode([a]); |s| == 4 && s[2..] == "==" && Letters(s[..2]) && Digits(s[..2]) == a * 16
  {
    var v0, v1, v2, v3 := a / 4, a % 4 * 16 + b / 16, b % 16 * 4 + c / 64, c % 64;
    var w1, w2 := a % 4 * 16, b % 16 * 4;
    ValueOfLetter(v0);
    ValueOfLetter(v1);
    ValueOfLetter(v2);
    ValueOfLetter(v3);
    ValueOfLetter(w1);
    ValueOfLetter(w2);
    hide Letter, ValueOf, Digits;
    DigitsOf(Letter(v0), Letter(v1), Letter(v2), Letter(v3));
    DigitsOf(Letter(v0), Letter(v1), Letter(w2), Letter(v3));
    DigitsOf(Letter(v0), Letter(w1), Letter(w2), Letter(v3));
    SplitBytes(a, b, c);
    ShortEncodings(a, b, c);
    hide Encode;
    assert Encode([a, b])[..3] == [Letter(v0), Letter(v1), Letter(w2)];
    assert Encode([a])[..2] == [Letter(v0), Letter(w1)];
  }

  lemma ShortEncodings(a: Byte, b: Byte, c: Byte)
    ensures Encode([a, b, c]) == Group(a, b, c)
    ensures Encode([a, b]) == [Letter(a / 4), Letter(a % 4 * 16 + b / 16), Letter(b % 16 * 4), '=']
    ensures Encode([a]) == [Letter(a / 4), Letter(a % 4 * 16), '=', '=']
  {
    hide Letter;
    assert [a, b, c][3..] == [];
  }

  lemma SplitBytes(a: Byte, b: Byte, c: Byte)
    ensures a == a / 4 * 4 + a % 4 && b == b / 16 * 16 + b % 16 && c == c / 64 * 64 + c % 64
  {}
}
