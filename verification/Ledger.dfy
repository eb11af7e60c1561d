/** Traffic accounting and packet conservation over whole runs. */
module Ledger {
  import opened Options
  import opened Packets
  import opened ProcessRules
  import opened ConnectionTables
  import opened Redirector
  import opened Agreement

  // ---- Per flow -------------------------------------------------------------------

  /** The bytes of all packets port `p` sends. */
  function BytesFrom(inputs: seq<Input>, p: Port): nat {
    if inputs == [] then 0
    else (if FromPort(inputs[0], p) then inputs[0].length else 0) + BytesFrom(inputs[1..], p)
  }

  /** The bytes of all relay replies to port `p`. */
  function BytesTo(cfg: Config, inputs: seq<Input>, p: Port): nat {
    if inputs == [] then 0
    else (if RelayReplyTo(cfg, inputs[0], p) then inputs[0].length else 0) + BytesTo(cfg, inputs[1..], p)
  }

  lemma EntryStep(cfg: Config, s: State, input: Input, p: Port)
    requires Inv(cfg, s) && cfg.hasTable && p in s.table && !Closes(cfg, input, p)
    ensures var s' := Step(cfg, s, input).state;
            p in s'.table && s'.table[p] ==
              Counted(s.table[p], if FromPort(input, p) then input.length else 0,
                      if RelayReplyTo(cfg, input, p) then input.length else 0)
  {
    if FromPort(input, p) {
      TrackedStepOf(cfg, s, input, p);
    } else if RelayReplyTo(cfg, input, p) {
      hide FromRelay;
      assert cfg.relayPort !in s.decided;
    } else if input.Received? {
      hide Step;
      OtherFlowsDoNotInterfere(cfg, s, input, p);
    }
  }

  /** While its flow is open, the entry of a port has counted exactly the bytes the port sent
      and the bytes the relay sent to it. */
  lemma {:induction false} EntryCountsItsFlow(cfg: Config, s: State, inputs: seq<Input>, p: Port)
    requires Inv(cfg, s) && cfg.hasTable && p in s.table
    requires forall i :: 0 <= i < |inputs| ==> !Closes(cfg, inputs[i], p)
    ensures var s' := Run(cfg, s, inputs);
            && p in s'.table && s'.table[p] == Counted(s.table[p], BytesFrom(inputs, p), BytesTo(cfg, inputs, p))
            && s'.table[p].bytesUp == s.table[p].bytesUp + BytesFrom(inputs, p)
            && s'.table[p].bytesDown == s.table[p].bytesDown + BytesTo(cfg, inputs, p)
    decreases |inputs|
  {
    if inputs != [] {
      EntryStep(cfg, s, inputs[0], p);
      InvStep(cfg, s, inputs[0]);
      EntryCountsItsFlow(cfg, Step(cfg, s, inputs[0]).state, inputs[1..], p);
    }
  }

  // ---- All flows ------------------------------------------------------------------

  datatype Direction = Up | Down

  function BytesOf(e: Entry, d: Direction): nat {
    match d case Up => e.bytesUp case Down => e.bytesDown
  }

  /** The counters of all entries for ports below `n`. */
  function Below(t: map<Port, Entry>, d: Direction, n: nat): nat {
    if n == 0 then 0
    else Below(t, d, n - 1) + if n - 1 in t then BytesOf(t[n - 1], d) else 0
  }

  function Live(t: map<Port, Entry>, d: Direction): nat {
    Below(t, d, 0x1_0000)
  }

  function Total(s: State, d: Direction): nat {
    match d case Up => s.totalRx case Down => s.totalTx
  }

  lemma {:induction false} BelowAgrees(t: map<Port, Entry>, t': map<Port, Entry>, d: Direction, n: nat)
    requires n <= 0x1_0000
    requires forall q: Port :: q < n ==> (q in t <==> q in t') && (q in t ==> t[q] == t'[q])
    ensures Below(t, d, n) == Below(t', d, n)
  {
    if n > 0 {
      BelowAgrees(t, t', d, n - 1);
    }
  }

  /** Two tables that agree except at `p` differ in their live bytes by what they have at `p`. */
  lemma {:induction false} LiveDiffers(t: map<Port, Entry>, t': map<Port, Entry>, d: Direction, p: Port, n: nat)
    requires p < n <= 0x1_0000
    requires forall q: Port :: q != p ==> (q in t <==> q in t') && (q in t ==> t[q] == t'[q])
    ensures Below(t', d, n) + (if p in t then BytesOf(t[p], d) else 0)
         == Below(t, d, n) + (if p in t' then BytesOf(t'[p], d) else 0)
  {
    if n - 1 == p {
      BelowAgrees(t, t', d, p);
    } else {
      LiveDiffers(t, t', d, p, n - 1);
    }
  }

  lemma TablesDiffer(t: map<Port, Entry>, t': map<Port, Entry>, d: Direction, p: Port)
    requires forall q: Port :: q != p ==> (q in t <==> q in t') && (q in t ==> t[q] == t'[q])
    ensures Live(t', d) + (if p in t then BytesOf(t[p], d) else 0) == Live(t, d) + (if p in t' then BytesOf(t'[p], d) else 0)
    ensures |t'| + (if p in t then 1 else 0) == |t| + (if p in t' then 1 else 0)
  {
    LiveDiffers(t, t', d, p, 0x1_0000);
    SizesDiffer(t, t', p);
  }

  lemma SizesDiffer(t: map<Port, Entry>, t': map<Port, Entry>, p: Port)
    requires forall q: Port :: q != p ==> (q in t <==> q in t')
    ensures |t'| + (if p in t then 1 else 0) == |t| + (if p in t' then 1 else 0)
  {
    assert t.Keys - {p} == t'.Keys - {p};
    assert |t| == |t.Keys - {p}| + if p in t then 1 else 0;
    assert |t'| == |t'.Keys - {p}| + if p in t' then 1 else 0;
  }

  /** The port whose flow a packet belongs to, if that flow is redirected. */
  function FlowOf(cfg: Config, s: State, input: Input): Option<(Port, Direction)> {
    if !(input.Received? && input.length > 0 && input.content.Tcp? && cfg.hasTable) then None
    else if input.content.seg.srcPort == cfg.relayPort then
      if input.content.seg.dstPort in s.table then Some((input.content.seg.dstPort, Down)) else None
    else if input.content.seg.srcPort in s.table then Some((input.content.seg.srcPort, Up))
    else None
  }

  function HandledBytes(cfg: Config, s: State, input: Input, d: Direction): nat {
    match FlowOf(cfg, s, input)
    case Some((_, d')) => if d == d' then input.length else 0
    case None => 0
  }

  function Removals(cfg: Config, s: State, input: Input): nat {
    if FlowOf(cfg, s, input).Some? && input.content.seg.Closing() then 1 else 0
  }

  /** A step touches the table at one port at most. */
  lemma TableStep(cfg: Config, s: State, input: Input) returns (p: Port)
    requires Inv(cfg, s)
    ensures var s' := Step(cfg, s, input).state;
            && (forall q: Port :: q != p ==> (q in s.table <==> q in s'.table) && (q in s.table ==> s.table[q] == s'.table[q]))
            && match FlowOf(cfg, s, input)
               case Some((q, d)) =>
                 && p == q && s'.redirects == s.redirects
                 && var e := Counted(s.table[p], if d == Up then input.length else 0, if d == Down then input.length else 0);
                    if input.content.seg.Closing()
                    then p !in s'.table && s'.totalRx == s.totalRx + e.bytesUp && s'.totalTx == s.totalTx + e.bytesDown
                    else p in s'.table && s'.table[p] == e && s'.totalRx == s.totalRx && s'.totalTx == s.totalTx
               case None =>
                 && p !in s.table && s'.totalRx == s.totalRx && s'.totalTx == s.totalTx
                 && if p in s'.table then s'.table[p].bytesUp == s'.table[p].bytesDown == 0 && s'.redirects == s.redirects + 1
                    else s'.redirects == s.redirects
  {
    hide Decide, Remember, ToRelay, FromRelay;
    match FlowOf(cfg, s, input)
    case Some((q, d)) =>
      p := q;
      if d == Up {
        TrackedStepOf(cfg, s, input, q);
      } else {
        assert cfg.relayPort !in s.decided && cfg.relayPort !in s.table;
      }
    case None =>
      if input.Received? && input.content.Tcp? && input.content.seg.srcPort !in s.table {
        p := input.content.seg.srcPort;
      } else {
        p := cfg.relayPort;
      }
  }

  lemma LedgerStep(cfg: Config, s: State, input: Input, d: Direction)
    requires Inv(cfg, s)
    ensures var s' := Step(cfg, s, input).state;
            && Live(s'.table, d) + Total(s', d) == Live(s.table, d) + Total(s, d) + HandledBytes(cfg, s, input, d)
            && s'.redirects + |s.table| == s.redirects + |s'.table| + Removals(cfg, s, input)
  {
    hide Step, Live;
    var s' := Step(cfg, s, input).state;
    var p := TableStep(cfg, s, input);
    TablesDiffer(s.table, s'.table, d, p);
  }

  function HandledInRun(cfg: Config, s: State, inputs: seq<Input>, d: Direction): nat
    decreases |inputs|
  {
    if inputs == [] then 0
    else HandledBytes(cfg, s, inputs[0], d) + HandledInRun(cfg, Step(cfg, s, inputs[0]).state, inputs[1..], d)
  }

  function RemovalsInRun(cfg: Config, s: State, inputs: seq<Input>): nat
    decreases |inputs|
  {
    if inputs == [] then 0
    else Removals(cfg, s, inputs[0]) + RemovalsInRun(cfg, Step(cfg, s, inputs[0]).state, inputs[1..])
  }

  lemma {:induction false} LedgerRun(cfg: Config, s: State, inputs: seq<Input>, d: Direction)
    requires Inv(cfg, s)
    ensures var s' := Run(cfg, s, inputs);
            && Live(s'.table, d) + Total(s', d) == Live(s.table, d) + Total(s, d) + HandledInRun(cfg, s, inputs, d)
            && s'.redirects + |s.table| == s.redirects + |s'.table| + RemovalsInRun(cfg, s, inputs)
    decreases |inputs|
  {
    hide Live;
    if inputs != [] {
      LedgerStep(cfg, s, inputs[0], d);
      InvStep(cfg, s, inputs[0]);
      LedgerRun(cfg, Step(cfg, s, inputs[0]).state, inputs[1..], d);
    }
  }

  lemma {:induction false} EmptyTableHasNoBytes(d: Direction, n: nat)
    ensures Below(map[], d, n) == 0
  {
    if n > 0 {
      EmptyTableHasNoBytes(d, n - 1);
    }
  }

  /** From an empty start: the bytes of all live entries and of all finished connections are
      the bytes of every packet handled for a redirected flow, and every redirect emitted is
      either a live entry or a removal. */
  lemma LedgerBalances(cfg: Config, inputs: seq<Input>, d: Direction)
    ensures var s := Run(cfg, Initial, inputs);
            && Live(s.table, d) + Total(s, d) == HandledInRun(cfg, Initial, inputs, d)
            && s.redirects == |s.table| + RemovalsInRun(cfg, Initial, inputs)
  {
    LedgerRun(cfg, Initial, inputs, d);
    EmptyTableHasNoBytes(d, 0x1_0000);
  }

  // ---- Packets --------------------------------------------------------------------

  /** The packet goes through the process rules and they block it. */
  predicate Blocked(cfg: Config, s: State, input: Input) {
    && FromSomePort(input) && Consults(cfg, s, input, input.content.seg.srcPort)
    && Decide(cfg, s.targetPid, input.content.seg.srcPort, input.answers) == Block
  }

  predicate FromSomePort(input: Input) {
    input.Received? && input.length > 0 && input.content.Tcp?
  }

  predicate NonEmpty(input: Input) {
    input.Received? && input.length > 0
  }

  /** What is sent is the packet received, except for addresses, ports and direction, and its
      checksums are recomputed if any of those changed. */
  predicate Carries(input: Content, sent: Sent) {
    match (input, sent.content)
    case (Tcp(a), Tcp(b)) => SameFrame(a, b) && (a != b ==> sent.recomputed)
    case (a, b) => a == b
  }

  lemma RewritesCarry(seg: Segment, port: Port)
    ensures Carries(Tcp(seg), Sent(Tcp(ToRelay(seg, port)), true))
    ensures Carries(Tcp(seg), Sent(Tcp(FromRelay(seg, port)), true))
  {}

  lemma UnchangedCarries(content: Content)
    ensures Carries(content, Sent(content, false))
  {}

  /** The port put back into a relay reply. */
  function Recorded(s: State, seg: Segment): Port {
    if seg.dstPort in s.table then s.table[seg.dstPort].destPort else 0
  }

  lemma SentStep(cfg: Config, s: State, input: Input)
    requires Inv(cfg, s)
    ensures var sent := Step(cfg, s, input).sent;
            && (sent.Some? <==> NonEmpty(input) && !Blocked(cfg, s, input))
            && (sent.Some? ==> Carries(input.content, sent.value))
  {
    hide Decide, Remember, ToRelay, FromRelay, Carries, Finished, WithBytes;
    if input.Received? {
      UnchangedCarries(input.content);
      if input.content.Tcp? {
        RewritesCarry(input.content.seg, cfg.relayPort);
        RewritesCarry(input.content.seg, Recorded(s, input.content.seg));
      }
    }
  }

  function SentPackets(trace: seq<Option<Sent>>): seq<Sent> {
    if trace == [] then []
    else (if trace[0].Some? then [trace[0].value] else []) + SentPackets(trace[1..])
  }

  function ReceivedPackets(inputs: seq<Input>): seq<Content> {
    if inputs == [] then []
    else (if NonEmpty(inputs[0]) then [inputs[0].content] else []) + ReceivedPackets(inputs[1..])
  }

  /** If the rule engine blocks nothing, every nonempty packet received is sent exactly once,
      in order, and carried faithfully. */
  lemma {:induction false} EveryPacketIsSentOnce(cfg: Config, s: State, inputs: seq<Input>)
    requires Inv(cfg, s)
    requires forall i :: 0 <= i < |inputs| ==> !MayBlock(inputs[i])
    ensures var sent, received := SentPackets(Trace(cfg, s, inputs)), ReceivedPackets(inputs);
            |sent| == |received| && forall i :: 0 <= i < |sent| ==> Carries(received[i], sent[i])
    decreases |inputs|
  {
    if inputs != [] {
      hide Step, Carries;
      var s' := Step(cfg, s, inputs[0]).state;
      SentStep(cfg, s, inputs[0]);
      assert !Blocked(cfg, s, inputs[0]);
      InvStep(cfg, s, inputs[0]);
      EveryPacketIsSentOnce(cfg, s', inputs[1..]);
      assert Trace(cfg, s, inputs)[1..] == Trace(cfg, s', inputs[1..]);
    }
  }

  /** In any run, the only nonempty packets that are not sent are those the rules block. */
  lemma OnlyBlockedPacketsAreDropped(cfg: Config, inputs: seq<Input>, i: nat)
    requires i < |inputs|
    ensures var before := Run(cfg, Initial, inputs[..i]);
            var sent := Trace(cfg, Initial, inputs)[i];
            && (sent.None? <==> !NonEmpty(inputs[i]) || Blocked(cfg, before, inputs[i]))
            && (sent.Some? ==> Carries(inputs[i].content, sent.value))
  {
    TraceAt(cfg, Initial, inputs, i);
    InvRun(cfg, Initial, inputs[..i]);
    SentStep(cfg, Run(cfg, Initial, inputs[..i]), inputs[i]);
  }
}
