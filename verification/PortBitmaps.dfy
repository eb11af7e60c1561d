/** The per-port decision cache: two bitmaps of 2048 32-bit words each, refining two
    sets of ports. */
module PortBitmaps {
  import opened Packets

  const WORDS := 2048

  function WordOf(port: Port): (i: nat)
    ensures i < WORDS
  {
    port / 32
  }

  function BitOf(port: Port): bv5 {
    (port % 32) as bv5
  }

  predicate TestBit(word: bv32, k: bv5) {
    (word >> k) & 1 == 1
  }

  ghost function Members(words: seq<bv32>): set<Port>
    requires |words| == WORDS
  {
    set p: Port | TestBit(words[WordOf(p)], BitOf(p))
  }

  lemma FiveBits(k: nat)
    requires k < 32
    ensures (k as bv5) as int == k
  {}

  /** Two different ports never share a word and a bit. */
  lemma BitsAreDistinct(p: Port, q: Port)
    requires p != q && WordOf(p) == WordOf(q)
    ensures BitOf(p) != BitOf(q)
  {
    FiveBits(p % 32);
    FiveBits(q % 32);
  }

  function WithBit(word: bv32, k: bv5): bv32 {
    word | (1 << k)
  }

  function WithoutBit(word: bv32, k: bv5): bv32 {
    word & !(1 << k)
  }

  lemma SetBit(word: bv32, k: bv5, j: bv5)
    ensures TestBit(WithBit(word, k), j) == (j == k || TestBit(word, j))
  {}

  lemma ClearBit(word: bv32, k: bv5, j: bv5)
    ensures TestBit(WithoutBit(word, k), j) == (j != k && TestBit(word, j))
  {}

  function SetIn(words: seq<bv32>, p: Port): (r: seq<bv32>)
    requires |words| == WORDS
    ensures |r| == WORDS
  {
    words[WordOf(p) := WithBit(words[WordOf(p)], BitOf(p))]
  }

  function ClearIn(words: seq<bv32>, p: Port): (r: seq<bv32>)
    requires |words| == WORDS
    ensures |r| == WORDS
  {
    words[WordOf(p) := WithoutBit(words[WordOf(p)], BitOf(p))]
  }

  lemma UpdateMember(words: seq<bv32>, p: Port, q: Port)
    requires |words| == WORDS
    ensures q in Members(SetIn(words, p)) <==> q == p || q in Members(words)
    ensures q in Members(ClearIn(words, p)) <==> q != p && q in Members(words)
  {
    hide TestBit, BitOf, WithBit, WithoutBit;
    SetBit(words[WordOf(p)], BitOf(p), BitOf(q));
    ClearBit(words[WordOf(p)], BitOf(p), BitOf(q));
    if q != p && WordOf(q) == WordOf(p) {
      BitsAreDistinct(q, p);
    }
  }

  /** Changing one bit of one word adds or removes exactly one port. */
  lemma UpdateMembers(words: seq<bv32>, p: Port)
    requires |words| == WORDS
    ensures Members(SetIn(words, p)) == Members(words) + {p}
    ensures Members(ClearIn(words, p)) == Members(words) - {p}
  {
    hide TestBit, SetIn, ClearIn;
    forall q: Port
      ensures q in Members(SetIn(words, p)) <==> q in Members(words) + {p}
      ensures q in Members(ClearIn(words, p)) <==> q in Members(words) - {p}
    {
      UpdateMember(words, p, q);
    }
  }

  class PortBitmaps {
    const decided: array<bv32>
    const direct: array<bv32>

    ghost predicate Valid() {
      decided.Length == WORDS && direct.Length == WORDS && decided != direct
    }

    ghost function Decided(): set<Port>
      requires Valid()
      reads decided
    {
      Members(decided[..])
    }

    ghost function Direct(): set<Port>
      requires Valid()
      reads direct
    {
      Members(direct[..])
    }

    constructor ()
      ensures Valid() && fresh(decided) && fresh(direct)
      ensures Decided() == {} && Direct() == {}
    {
      decided := new bv32[WORDS](_ => 0);
      direct := new bv32[WORDS](_ => 0);
    }

    /** Zeroes both bitmaps. */
    method Reset()
      requires Valid()
      modifies decided, direct
      ensures Decided() == {} && Direct() == {}
    {
      for i := 0 to WORDS
        invariant forall j :: 0 <= j < i ==> decided[j] == 0 && direct[j] == 0
      {
        decided[i] := 0;
        direct[i] := 0;
      }
    }

    function IsPortDecided(port: Port): (r: bool)
      requires Valid()
      reads decided
      ensures r <==> port in Decided()
    {
      TestBit(decided[WordOf(port)], BitOf(port))
    }

    function IsPortDirect(port: Port): (r: bool)
      requires Valid()
      reads direct
      ensures r <==> port in Direct()
    {
      TestBit(direct[WordOf(port)], BitOf(port))
    }

    method SetPortDirect(port: Port)
      requires Valid()
      modifies decided, direct
      ensures Decided() == old(Decided()) + {port}
      ensures Direct() == old(Direct()) + {port}
    {
      hide TestBit, BitOf, WithBit, WithoutBit;
      UpdateMembers(decided[..], port);
      UpdateMembers(direct[..], port);
      var i := WordOf(port);
      ghost var decided0, direct0 := decided[..], direct[..];
      decided[i] := WithBit(decided[i], BitOf(port));
      direct[i] := WithBit(direct[i], BitOf(port));
      assert decided[..] == SetIn(decided0, port);
      assert direct[..] == SetIn(direct0, port);
    }

    method SetPortDecided(port: Port)
      requires Valid()
      modifies decided
      ensures Decided() == old(Decided()) + {port}
    {
      hide TestBit, BitOf, WithBit, WithoutBit;
      UpdateMembers(decided[..], port);
      var i := WordOf(port);
      ghost var decided0 := decided[..];
      decided[i] := WithBit(decided[i], BitOf(port));
      assert decided[..] == SetIn(decided0, port);
    }

    method ClearPort(port: Port)
      requires Valid()
      modifies decided, direct
      ensures Decided() == old(Decided()) - {port}
      ensures Direct() == old(Direct()) - {port}
    {
      hide TestBit, BitOf, WithBit, WithoutBit;
      UpdateMembers(decided[..], port);
      UpdateMembers(direct[..], port);
      var i := WordOf(port);
      ghost var decided0, direct0 := decided[..], direct[..];
      decided[i] := WithoutBit(decided[i], BitOf(port));
      direct[i] := WithoutBit(direct[i], BitOf(port));
      assert decided[..] == ClearIn(decided0, port);
      assert direct[..] == ClearIn(direct0, port);
    }
  }
}
