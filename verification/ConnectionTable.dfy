/** The redirector's connection table: 4096 hash buckets, each a chain of entries searched
    from its head.  `Add` matches on port and destination together, every other operation
    on the port alone; a table with one entry per port is a map, and only such a table is. */
module ConnectionTables {
  import opened Options
  import opened Packets

  const HASH_SIZE := 4096

  datatype Entry = Entry(
    srcPort: Port, srcIp: Address, destIp: Address, destPort: Port,
    isTracked: bool, bytesUp: nat, bytesDown: nat)

  type Chain = seq<Entry>

  function HashOf(port: Port): (i: nat)
    ensures i < HASH_SIZE
  {
    port % HASH_SIZE
  }

  /** The first tracked entry for `port`. */
  function Find(chain: Chain, port: Port): (r: Option<Entry>)
    ensures r.Some? ==> r.value in chain && r.value.srcPort == port
  {
    if chain == [] then None
    else if chain[0].srcPort == port && chain[0].isTracked then Some(chain[0])
    else Find(chain[1..], port)
  }

  function Insert(chain: Chain, e: Entry): Chain {
    if HasKey(chain, e) then Overwrite(chain, e) else [e] + chain
  }

  predicate HasKey(chain: Chain, e: Entry) {
    exists i :: 0 <= i < |chain| && SameKey(chain[i], e)
  }

  predicate SameKey(a: Entry, b: Entry) {
    a.srcPort == b.srcPort && a.destIp == b.destIp
  }

  /** Overwriting keeps the traffic counters of the entry found. */
  function Renewed(old': Entry, e: Entry): Entry {
    old'.(srcIp := e.srcIp, destPort := e.destPort, isTracked := true)
  }

  function Overwrite(chain: Chain, e: Entry): Chain {
    if chain == [] then []
    else if SameKey(chain[0], e) then [Renewed(chain[0], e)] + chain[1..]
    else [chain[0]] + Overwrite(chain[1..], e)
  }

  /** Unlinks the first entry for `port`. */
  function Delete(chain: Chain, port: Port): Chain {
    if chain == [] then []
    else if chain[0].srcPort == port then chain[1..]
    else [chain[0]] + Delete(chain[1..], port)
  }

  function Counted(e: Entry, up: nat, down: nat): Entry {
    e.(bytesUp := e.bytesUp + up, bytesDown := e.bytesDown + down)
  }

  function Bump(chain: Chain, port: Port, up: nat, down: nat): Chain {
    if chain == [] then []
    else if chain[0].srcPort == port && chain[0].isTracked then [Counted(chain[0], up, down)] + chain[1..]
    else [chain[0]] + Bump(chain[1..], port, up, down)
  }

  function Count(chain: Chain, port: Port): nat {
    if chain == [] then 0
    else (if chain[0].srcPort == port then 1 else 0) + Count(chain[1..], port)
  }

  ghost predicate AllTracked(chain: Chain) {
    forall i :: 0 <= i < |chain| ==> chain[i].isTracked
  }

  lemma {:induction false} CountZero(chain: Chain, port: Port)
    requires AllTracked(chain)
    ensures Count(chain, port) == 0 <==> Find(chain, port).None?
  {
    if chain != [] {
      CountZero(chain[1..], port);
    }
  }

  lemma {:induction false} DeleteEffect(chain: Chain, port: Port, q: Port)
    ensures q != port ==> Find(Delete(chain, port), q) == Find(chain, q)
    ensures Count(Delete(chain, port), q) ==
            if q == port && Count(chain, port) > 0 then Count(chain, q) - 1 else Count(chain, q)
    ensures |Delete(chain, port)| == if Count(chain, port) > 0 then |chain| - 1 else |chain|
    ensures AllTracked(chain) ==> AllTracked(Delete(chain, port))
  {
    if chain != [] {
      DeleteEffect(chain[1..], port, q);
      if chain[0].srcPort != port {
        assert Delete(chain, port)[1..] == Delete(chain[1..], port);
      }
    }
  }

  lemma {:induction false} BumpEffect(chain: Chain, port: Port, up: nat, down: nat, q: Port)
    ensures Find(Bump(chain, port, up, down), q) ==
            if q == port && Find(chain, port).Some? then Some(Counted(Find(chain, port).value, up, down))
            else Find(chain, q)
    ensures Count(Bump(chain, port, up, down), q) == Count(chain, q)
    ensures AllTracked(chain) ==> AllTracked(Bump(chain, port, up, down))
  {
    if chain != [] {
      BumpEffect(chain[1..], port, up, down, q);
      if chain[0].srcPort == port && chain[0].isTracked {
        assert Bump(chain, port, up, down)[1..] == chain[1..];
      } else {
        assert Bump(chain, port, up, down)[1..] == Bump(chain[1..], port, up, down);
      }
    }
  }

  lemma {:induction false} OverwriteEffect(chain: Chain, e: Entry, q: Port)
    ensures q != e.srcPort ==> Find(Overwrite(chain, e), q) == Find(chain, q)
    ensures Count(Overwrite(chain, e), q) == Count(chain, q)
    ensures AllTracked(chain) ==> AllTracked(Overwrite(chain, e))
    ensures HasKey(chain, e) ==> Count(chain, e.srcPort) > 0
  {
    if chain != [] {
      OverwriteEffect(chain[1..], e, q);
      if SameKey(chain[0], e) {
        assert Overwrite(chain, e)[1..] == chain[1..];
      } else {
        assert Overwrite(chain, e)[1..] == Overwrite(chain[1..], e);
        assert HasKey(chain, e) ==> HasKey(chain[1..], e) by {
          if HasKey(chain, e) {
            var i :| 0 <= i < |chain| && SameKey(chain[i], e);
            assert chain[1..][i - 1] == chain[i];
          }
        }
      }
    }
  }

  lemma InsertEffect(chain: Chain, e: Entry, q: Port)
    requires e.isTracked
    ensures q != e.srcPort ==> Find(Insert(chain, e), q) == Find(chain, q)
    ensures Count(Insert(chain, e), q) ==
            if q == e.srcPort && !HasKey(chain, e) then Count(chain, q) + 1 else Count(chain, q)
    ensures AllTracked(chain) ==> AllTracked(Insert(chain, e))
    ensures !HasKey(chain, e) ==> Find(Insert(chain, e), e.srcPort) == Some(e)
  {
    OverwriteEffect(chain, e, q);
    assert ([e] + chain)[1..] == chain;
  }

  lemma {:induction false} OverwriteFind(chain: Chain, e: Entry)
    requires AllTracked(chain) && HasKey(chain, e)
    ensures Find(chain, e.srcPort).Some? && Find(Overwrite(chain, e), e.srcPort).Some?
    ensures SameKey(Find(Overwrite(chain, e), e.srcPort).value, e) <==> SameKey(Find(chain, e.srcPort).value, e)
  {
    if SameKey(chain[0], e) {
      assert Overwrite(chain, e)[0] == Renewed(chain[0], e);
    } else {
      var i :| 0 <= i < |chain| && SameKey(chain[i], e);
      assert chain[1..][i - 1] == chain[i];
      OverwriteFind(chain[1..], e);
      assert Overwrite(chain, e)[1..] == Overwrite(chain[1..], e);
    }
  }

  /** Looking up a port right after adding an entry for it yields an entry with the added
      destination address exactly when that key is new or was already the one found: adding a
      hidden key again leaves it hidden. */
  lemma AddedIsFoundIff(chain: Chain, e: Entry)
    requires AllTracked(chain) && e.isTracked
    ensures var found := Find(Insert(chain, e), e.srcPort);
            && found.Some?
            && (SameKey(found.value, e) <==>
                !HasKey(chain, e) || (Find(chain, e.srcPort).Some? && SameKey(Find(chain, e.srcPort).value, e)))
  {
    if HasKey(chain, e) {
      OverwriteFind(chain, e);
    } else {
      InsertEffect(chain, e, e.srcPort);
    }
  }

  /** Removing a port forgets it exactly when the port had at most one entry. */
  lemma DeleteForgetsIff(chain: Chain, port: Port)
    requires AllTracked(chain)
    ensures Find(Delete(chain, port), port).None? <==> Count(chain, port) <= 1
  {
    DeleteEffect(chain, port, port);
    CountZero(Delete(chain, port), port);
  }

  /** The second destination recorded for a tracked port hides the first one, and removing
      the port brings the first one back. */
  lemma SecondDestinationResurfaces(first: Entry, second: Entry)
    requires first.isTracked && second.isTracked
    requires first.srcPort == second.srcPort && first.destIp != second.destIp
    ensures var chain := Insert(Insert([], first), second);
            && Find(chain, first.srcPort) == Some(second)
            && Find(Delete(chain, first.srcPort), first.srcPort) == Some(first)
  {
    assert Insert([], first) == [first];
    assert Insert([first], second) == [second, first];
    assert Delete([second, first], first.srcPort) == [first];
  }

  // ---- What the chain operations do, entry by entry -------------------------------

  /** Looking up a port yields its first tracked entry. */
  lemma {:induction false} FindIsFirst(chain: Chain, port: Port)
    ensures match Find(chain, port)
            case None => forall i :: 0 <= i < |chain| ==> !(chain[i].srcPort == port && chain[i].isTracked)
            case Some(e) =>
              exists k :: 0 <= k < |chain| && chain[k] == e && e.srcPort == port && e.isTracked
                          && forall j :: 0 <= j < k ==> !(chain[j].srcPort == port && chain[j].isTracked)
  {
    if chain != [] && !(chain[0].srcPort == port && chain[0].isTracked) {
      var rest := chain[1..];
      FindIsFirst(rest, port);
      match Find(rest, port)
      case None =>
        assert forall i :: 0 < i < |chain| ==> chain[i] == rest[i - 1];
      case Some(e) =>
        var k :| 0 <= k < |rest| && rest[k] == e
                 && forall j :: 0 <= j < k ==> !(rest[j].srcPort == port && rest[j].isTracked);
        assert chain[k + 1] == rest[k];
        assert forall j :: 0 < j < k + 1 ==> chain[j] == rest[j - 1];
    }
  }

  /** Adding a key that is present renews, in its first entry alone, the source address and the
      destination port and keeps the counters; adding a new key puts the entry in front. */
  lemma InsertRenewsOrPrepends(chain: Chain, e: Entry)
    ensures (forall i :: 0 <= i < |chain| ==> !(chain[i].srcPort == e.srcPort && chain[i].destIp == e.destIp)) ==>
              Insert(chain, e) == [e] + chain
    ensures forall k :: 0 <= k < |chain| && chain[k].srcPort == e.srcPort && chain[k].destIp == e.destIp
                        && (forall j :: 0 <= j < k ==> !(chain[j].srcPort == e.srcPort && chain[j].destIp == e.destIp)) ==>
              Insert(chain, e) == chain[k := Entry(e.srcPort, e.srcIp, e.destIp, e.destPort, true,
                                                   chain[k].bytesUp, chain[k].bytesDown)]
  {
    forall k | 0 <= k < |chain| && SameKey(chain[k], e) && forall j :: 0 <= j < k ==> !SameKey(chain[j], e)
      ensures Insert(chain, e) == chain[k := Entry(e.srcPort, e.srcIp, e.destIp, e.destPort, true,
                                                   chain[k].bytesUp, chain[k].bytesDown)]
    {
      OverwriteAt(chain, e, k);
    }
  }

  lemma {:induction false} OverwriteAt(chain: Chain, e: Entry, k: nat)
    requires k < |chain| && SameKey(chain[k], e) && forall j :: 0 <= j < k ==> !SameKey(chain[j], e)
    ensures Overwrite(chain, e) == chain[k := Entry(e.srcPort, e.srcIp, e.destIp, e.destPort, true,
                                                    chain[k].bytesUp, chain[k].bytesDown)]
  {
    if k > 0 {
      OverwriteAt(chain[1..], e, k - 1);
    }
  }

  /** Removing a port unlinks its first entry and no other. */
  lemma {:induction false} DeleteUnlinksFirst(chain: Chain, port: Port, k: nat)
    requires k <= |chain| && forall j :: 0 <= j < k ==> chain[j].srcPort != port
    ensures k < |chain| && chain[k].srcPort == port ==> Delete(chain, port) == chain[..k] + chain[k + 1..]
    ensures k == |chain| ==> Delete(chain, port) == chain
  {
    if k > 0 {
      DeleteUnlinksFirst(chain[1..], port, k - 1);
    }
  }

  /** Counting bytes adds them to the first tracked entry of the port and changes no other. */
  lemma {:induction false} BumpCountsFirst(chain: Chain, port: Port, up: nat, down: nat, k: nat)
    requires k <= |chain| && forall j :: 0 <= j < k ==> !(chain[j].srcPort == port && chain[j].isTracked)
    ensures k < |chain| && chain[k].srcPort == port && chain[k].isTracked ==>
              Bump(chain, port, up, down)
              == chain[k := chain[k].(bytesUp := chain[k].bytesUp + up, bytesDown := chain[k].bytesDown + down)]
    ensures k == |chain| ==> Bump(chain, port, up, down) == chain
  {
    if k > 0 {
      BumpCountsFirst(chain[1..], port, up, down, k - 1);
    }
  }

  // ---- All buckets together -------------------------------------------------------

  ghost predicate WellFormed(buckets: seq<Chain>) {
    |buckets| == HASH_SIZE && forall i :: 0 <= i < HASH_SIZE ==> AllTracked(buckets[i])
  }

  /** No port has two entries. */
  ghost predicate Unique(buckets: seq<Chain>)
    requires |buckets| == HASH_SIZE
  {
    forall p: Port :: Count(buckets[HashOf(p)], p) <= 1
  }

  /** What looking up each port yields. */
  ghost function Contents(buckets: seq<Chain>): map<Port, Entry>
    requires |buckets| == HASH_SIZE
  {
    map p: Port | Find(buckets[HashOf(p)], p).Some? :: Find(buckets[HashOf(p)], p).value
  }

  lemma AddToMap(buckets: seq<Chain>, e: Entry)
    requires WellFormed(buckets) && Unique(buckets) && e.isTracked
    requires e.srcPort !in Contents(buckets)
    ensures var i := HashOf(e.srcPort);
            && !HasKey(buckets[i], e)
            && var after := buckets[i := Insert(buckets[i], e)];
               WellFormed(after) && Unique(after) && Contents(after) == Contents(buckets)[e.srcPort := e]
  {
    var i := HashOf(e.srcPort);
    var after := buckets[i := Insert(buckets[i], e)];
    CountZero(buckets[i], e.srcPort);
    forall q: Port
      ensures Count(after[HashOf(q)], q) <= 1 && AllTracked(after[HashOf(q)])
      ensures Find(after[HashOf(q)], q) == if q == e.srcPort then Some(e) else Find(buckets[HashOf(q)], q)
      ensures !HasKey(buckets[i], e)
    {
      OverwriteEffect(buckets[i], e, q);
      InsertEffect(buckets[i], e, q);
    }
  }

  lemma DeleteUnique(chain: Chain, port: Port, q: Port)
    requires AllTracked(chain) && Count(chain, q) <= 1
    ensures AllTracked(Delete(chain, port)) && Count(Delete(chain, port), q) <= 1
    ensures Find(Delete(chain, port), q) == if q == port then None else Find(chain, q)
  {
    DeleteEffect(chain, port, q);
    CountZero(Delete(chain, port), q);
  }

  lemma RemoveFromMap(buckets: seq<Chain>, port: Port)
    requires WellFormed(buckets) && Unique(buckets)
    ensures var i := HashOf(port);
            var after := buckets[i := Delete(buckets[i], port)];
            && WellFormed(after) && Unique(after) && Contents(after) == Contents(buckets) - {port}
            && (Count(buckets[i], port) > 0 <==> port in Contents(buckets))
  {
    hide Delete, Count, Find, AllTracked;
    var i := HashOf(port);
    var after := buckets[i := Delete(buckets[i], port)];
    CountZero(buckets[i], port);
    DeleteUnique(buckets[i], port, port);
    forall q: Port
      ensures Count(after[HashOf(q)], q) <= 1
      ensures Find(after[HashOf(q)], q) == if q == port then None else Find(buckets[HashOf(q)], q)
    {
      if HashOf(q) == i {
        DeleteUnique(buckets[i], port, q);
      }
    }
  }

  lemma SizeWithout(t: map<Port, Entry>, port: Port)
    ensures |t - {port}| == |t| - if port in t then 1 else 0
  {
    assert port in t ==> t.Keys == (t - {port}).Keys + {port};
    assert port !in t ==> t - {port} == t;
  }

  lemma BumpInMap(buckets: seq<Chain>, port: Port, up: nat, down: nat)
    requires WellFormed(buckets) && Unique(buckets)
    ensures var i := HashOf(port);
            var after := buckets[i := Bump(buckets[i], port, up, down)];
            && WellFormed(after) && Unique(after)
            && Contents(after) == if port in Contents(buckets)
                                  then Contents(buckets)[port := Counted(Contents(buckets)[port], up, down)]
                                  else Contents(buckets)
  {
    var i := HashOf(port);
    var after := buckets[i := Bump(buckets[i], port, up, down)];
    forall q: Port
      ensures Count(after[HashOf(q)], q) <= 1 && AllTracked(after[HashOf(q)])
      ensures Find(after[HashOf(q)], q) ==
              if q == port && Find(buckets[i], port).Some? then Some(Counted(Find(buckets[i], port).value, up, down))
              else Find(buckets[HashOf(q)], q)
    {
      BumpEffect(buckets[i], port, up, down, q);
    }
  }

  // ---- Walking one chain ----------------------------------------------------------

  lemma OverwriteStep(chain: Chain, k: nat, e: Entry)
    requires k < |chain|
    ensures SameKey(chain[k], e) ==>
              chain[..k] + Overwrite(chain[k..], e) == chain[k := Renewed(chain[k], e)]
    ensures !SameKey(chain[k], e) ==>
              chain[..k] + Overwrite(chain[k..], e) == chain[..k + 1] + Overwrite(chain[k + 1..], e)
  {
    assert chain[k..][1..] == chain[k + 1..];
  }

  lemma DeleteStep(chain: Chain, k: nat, port: Port)
    requires k < |chain|
    ensures chain[k].srcPort == port ==> chain[..k] + Delete(chain[k..], port) == chain[..k] + chain[k + 1..]
    ensures chain[k].srcPort != port ==>
              chain[..k] + Delete(chain[k..], port) == chain[..k + 1] + Delete(chain[k + 1..], port)
    ensures Count(chain[k..], port) == (if chain[k].srcPort == port then 1 else 0) + Count(chain[k + 1..], port)
  {
    assert chain[k..][1..] == chain[k + 1..];
  }

  lemma BumpStep(chain: Chain, k: nat, port: Port, up: nat, down: nat)
    requires k < |chain|
    ensures chain[k].srcPort == port && chain[k].isTracked ==>
              chain[..k] + Bump(chain[k..], port, up, down) == chain[k := Counted(chain[k], up, down)]
    ensures !(chain[k].srcPort == port && chain[k].isTracked) ==>
              chain[..k] + Bump(chain[k..], port, up, down) == chain[..k + 1] + Bump(chain[k + 1..], port, up, down)
  {
    assert chain[k..][1..] == chain[k + 1..];
  }

  lemma WholeChain(chain: Chain)
    ensures chain[..0] == [] && chain[0..] == chain && chain[|chain|..] == [] && chain[..|chain|] == chain
  {}

  method InsertInChain(chain: Chain, e: Entry) returns (r: Chain, isNew: bool)
    ensures r == Insert(chain, e) && (isNew <==> !HasKey(chain, e))
  {
    hide Overwrite, Renewed;
    WholeChain(chain);
    var k := 0;
    while k < |chain|
      invariant 0 <= k <= |chain|
      invariant forall j :: 0 <= j < k ==> !SameKey(chain[j], e)
      invariant chain[..k] + Overwrite(chain[k..], e) == Overwrite(chain, e)
    {
      OverwriteStep(chain, k, e);
      if chain[k].srcPort == e.srcPort && chain[k].destIp == e.destIp {
        assert SameKey(chain[k], e);
        return chain[k := Renewed(chain[k], e)], false;
      }
      k := k + 1;
    }
    return [e] + chain, true;
  }

  method FindInChain(chain: Chain, port: Port) returns (r: Option<Entry>)
    ensures r == Find(chain, port)
  {
    var k := 0;
    while k < |chain|
      invariant 0 <= k <= |chain|
      invariant Find(chain[k..], port) == Find(chain, port)
    {
      if chain[k].srcPort == port && chain[k].isTracked {
        return Some(chain[k]);
      }
      assert chain[k..][1..] == chain[k + 1..];
      k := k + 1;
    }
    return None;
  }

  method DeleteFromChain(chain: Chain, port: Port) returns (r: Chain, found: bool)
    ensures r == Delete(chain, port) && (found <==> Count(chain, port) > 0)
  {
    DeleteNothing(port);
    hide Delete, Count;
    WholeChain(chain);
    var k := 0;
    while k < |chain|
      invariant 0 <= k <= |chain|
      invariant Count(chain[k..], port) == Count(chain, port)
      invariant chain[..k] + Delete(chain[k..], port) == Delete(chain, port)
    {
      DeleteStep(chain, k, port);
      if chain[k].srcPort == port {
        return chain[..k] + chain[k + 1..], true;
      }
      k := k + 1;
    }
    return chain, false;
  }

  lemma DeleteNothing(port: Port)
    ensures Delete([], port) == [] && Count([], port) == 0
  {}

  method BumpInChain(chain: Chain, port: Port, up: nat, down: nat) returns (r: Chain)
    ensures r == Bump(chain, port, up, down)
  {
    assert Bump([], port, up, down) == [];
    hide Bump, Counted;
    WholeChain(chain);
    var k := 0;
    while k < |chain|
      invariant 0 <= k <= |chain|
      invariant chain[..k] + Bump(chain[k..], port, up, down) == Bump(chain, port, up, down)
    {
      BumpStep(chain, k, port, up, down);
      if chain[k].srcPort == port && chain[k].isTracked {
        return chain[k := Counted(chain[k], up, down)];
      }
      k := k + 1;
    }
    return chain;
  }

  // ---- The table ------------------------------------------------------------------

  class ConnectionTable {
    const buckets: array<Chain>
    var trackedCount: nat

    ghost predicate Valid()
      reads buckets
    {
      buckets.Length == HASH_SIZE && WellFormed(buckets[..])
    }

    /** The table is a map and its counter is the map's size. */
    ghost predicate IsMap()
      requires Valid()
      reads this, buckets
    {
      Unique(buckets[..]) && trackedCount == |Table()|
    }

    ghost function Table(): map<Port, Entry>
      requires Valid()
      reads buckets
    {
      Contents(buckets[..])
    }

    constructor ()
      ensures Valid() && IsMap() && Table() == map[] && fresh(buckets)
    {
      buckets := new Chain[HASH_SIZE](_ => []);
      trackedCount := 0;
      new;
      assert forall p: Port :: buckets[..][HashOf(p)] == [];
      assert Table() == map[];
    }

    method Add(srcPort: Port, srcIp: Address, destIp: Address, destPort: Port)
      requires Valid()
      modifies this, buckets
      ensures Valid()
      ensures var e := Entry(srcPort, srcIp, destIp, destPort, true, 0, 0);
              var i := HashOf(srcPort);
              && buckets[..] == old(buckets[..])[i := Insert(old(buckets[i]), e)]
              && trackedCount == old(trackedCount) + if HasKey(old(buckets[i]), e) then 0 else 1
      ensures old(IsMap()) && srcPort !in old(Table()) ==>
                IsMap() && Table() == old(Table())[srcPort := Entry(srcPort, srcIp, destIp, destPort, true, 0, 0)]
    {
      ghost var before := buckets[..];
      var e := Entry(srcPort, srcIp, destIp, destPort, true, 0, 0);
      var i := HashOf(srcPort);
      InsertEffect(buckets[i], e, srcPort);
      if Unique(before) && srcPort !in Contents(before) {
        AddToMap(before, e);
      }
      var chain, isNew := InsertInChain(buckets[i], e);
      buckets[i] := chain;
      if isNew {
        trackedCount := trackedCount + 1;
      }
      assert buckets[..] == before[i := chain];
    }

    /** The entry `Get` and `GetInfo` report for a port, if there is one. */
    method Get(srcPort: Port) returns (r: Option<Entry>)
      requires Valid()
      ensures r.Some? <==> srcPort in Table()
      ensures r.Some? ==> r.value == Table()[srcPort]
    {
      r := FindInChain(buckets[HashOf(srcPort)], srcPort);
    }

    method IsTracked(srcPort: Port) returns (r: bool)
      requires Valid()
      ensures r <==> srcPort in Table()
    {
      var e := Get(srcPort);
      return e.Some?;
    }

    method Remove(srcPort: Port)
      requires Valid()
      modifies this, buckets
      ensures Valid()
      ensures var i := HashOf(srcPort);
              && buckets[..] == old(buckets[..])[i := Delete(old(buckets[i]), srcPort)]
              && trackedCount == old(trackedCount) - if Count(old(buckets[i]), srcPort) > 0 && old(trackedCount) > 0 then 1 else 0
      ensures old(IsMap()) ==> IsMap() && Table() == old(Table()) - {srcPort}
    {
      hide Delete, Count, Contents, Unique, Find, AllTracked;
      ghost var before := buckets[..];
      var i := HashOf(srcPort);
      DeleteEffect(buckets[i], srcPort, srcPort);
      if Unique(before) {
        RemoveFromMap(before, srcPort);
        SizeWithout(Contents(before), srcPort);
      }
      var chain, found := DeleteFromChain(buckets[i], srcPort);
      buckets[i] := chain;
      if found && trackedCount > 0 {
        trackedCount := trackedCount - 1;
      }
      assert buckets[..] == before[i := chain];
    }

    method AddBytes(srcPort: Port, up: nat, down: nat)
      requires Valid()
      modifies buckets
      ensures Valid()
      ensures buckets[..] == old(buckets[..])[HashOf(srcPort) := Bump(old(buckets[HashOf(srcPort)]), srcPort, up, down)]
      ensures old(IsMap()) ==>
                IsMap() && Table() == if srcPort in old(Table())
                                      then old(Table())[srcPort := Counted(old(Table())[srcPort], up, down)]
                                      else old(Table())
    {
      ghost var before := buckets[..];
      var i := HashOf(srcPort);
      BumpEffect(buckets[i], srcPort, up, down, srcPort);
      if Unique(before) {
        BumpInMap(before, srcPort, up, down);
        assert srcPort in Contents(before) ==>
            Contents(before)[srcPort := Counted(Contents(before)[srcPort], up, down)].Keys == Contents(before).Keys;
      }
      var chain := BumpInChain(buckets[i], srcPort, up, down);
      buckets[i] := chain;
      assert buckets[..] == before[i := chain];
    }
  }
}
