/** What the decision cache and the connection table agree on in every reachable state, and
    which packets can change how a port is treated. */
module Agreement {
  import opened Options
  import opened Packets
  import opened ProcessRules
  import opened ConnectionTables
  import opened Redirector

  ghost predicate Inv(cfg: Config, s: State) {
    && s.direct <= s.decided
    && s.direct !! s.table.Keys
    && cfg.relayPort !in s.decided && cfg.relayPort !in s.table
    && (forall p :: p in s.table ==> s.table[p].srcPort == p)
    && (cfg.hasTable || s.table == map[])
  }

  lemma InvCleared(cfg: Config, s: State, p: Port)
    requires Inv(cfg, s)
    ensures Inv(cfg, Cleared(s, p))
  {}

  lemma InvReply(cfg: Config, s: State, length: nat, seg: Segment)
    requires Inv(cfg, s)
    ensures Inv(cfg, FromRelayStep(s, length, seg).state)
  {}

  lemma InvTracked(cfg: Config, s: State, length: nat, seg: Segment)
    requires Inv(cfg, s) && seg.srcPort in s.table
    ensures Inv(cfg, TrackedStep(cfg, s, length, seg).state)
  {}

  lemma InvUntracked(cfg: Config, s: State, seg: Segment, ans: Answers)
    requires Inv(cfg, s) && cfg.hasTable && seg.srcPort != cfg.relayPort
    requires seg.srcPort !in s.table && seg.srcPort !in s.direct
    ensures Inv(cfg, UntrackedStep(cfg, s, seg, ans).state)
  {
    hide Decide, Remember;
  }

  lemma InvStep(cfg: Config, s: State, input: Input)
    requires Inv(cfg, s)
    ensures Inv(cfg, Step(cfg, s, input).state)
  {
    if input.Received? && input.length > 0 && input.content.Tcp? {
      var seg := input.content.seg;
      var s0 := s.(captured := s.captured + 1);
      var s1 := if seg.srcPort in s0.decided && seg.Closing() then Cleared(s0, seg.srcPort) else s0;
      InvCleared(cfg, s0, seg.srcPort);
      InvReply(cfg, s1, input.length, seg);
      hide FromRelayStep, TrackedStep, UntrackedStep, Cleared;
      if seg.srcPort in s1.table {
        InvTracked(cfg, s1, input.length, seg);
      } else if cfg.hasTable && seg.srcPort != cfg.relayPort && seg.srcPort !in s1.direct {
        InvUntracked(cfg, s1, seg, input.answers);
      }
    }
  }

  lemma {:induction false} InvRun(cfg: Config, s: State, inputs: seq<Input>)
    requires Inv(cfg, s)
    ensures Inv(cfg, Run(cfg, s, inputs))
    decreases |inputs|
  {
    if inputs != [] {
      InvStep(cfg, s, inputs[0]);
      InvRun(cfg, Step(cfg, s, inputs[0]).state, inputs[1..]);
    }
  }

  predicate MayBlock(input: Input) {
    input.Received? && input.answers.verdict == EngineBlock
  }

  lemma CacheCoversTableStep(cfg: Config, s: State, input: Input)
    requires Inv(cfg, s) && s.table.Keys <= s.decided && input.Received?
    ensures var s' := Step(cfg, s, input).state;
            && s'.table.Keys <= s'.decided
            && (s.decided == s.direct + s.table.Keys && !MayBlock(input) ==> s'.decided == s'.direct + s'.table.Keys)
  {
    var s' := Step(cfg, s, input).state;
    hide Step;
    InvStep(cfg, s, input);
    forall q: Port
      ensures q in s'.table ==> q in s'.decided
      ensures s.decided == s.direct + s.table.Keys && !MayBlock(input) && q in s'.decided ==> q in s'.direct + s'.table.Keys
    {
      if q == cfg.relayPort {
      } else if FromPort(input, q) {
        OwnPortCovered(cfg, s, input, q);
      } else if RelayReplyTo(cfg, input, q) {
        ReplyPortCovered(cfg, s, input, q);
      } else {
        OtherFlowsDoNotInterfere(cfg, s, input, q);
      }
    }
  }

  lemma OwnPortCovered(cfg: Config, s: State, input: Input, q: Port)
    requires Inv(cfg, s) && s.table.Keys <= s.decided && FromPort(input, q) && q != cfg.relayPort
    ensures var s' := Step(cfg, s, input).state;
            && (q in s'.table ==> q in s'.decided)
            && (s.decided == s.direct + s.table.Keys && !MayBlock(input) && q in s'.decided ==> q in s'.direct || q in s'.table)
  {
    hide ToRelay, Remember;
  }

  lemma ReplyPortCovered(cfg: Config, s: State, input: Input, q: Port)
    requires Inv(cfg, s) && s.table.Keys <= s.decided && RelayReplyTo(cfg, input, q) && q != cfg.relayPort
    ensures var s' := Step(cfg, s, input).state;
            && (q in s'.table ==> q in s'.decided)
            && (s.decided == s.direct + s.table.Keys && q in s'.decided ==> q in s'.direct || q in s'.table)
  {
    hide FromRelay, TrackedStep, UntrackedStep;
  }

  lemma {:induction false} CacheCoversTable(cfg: Config, s: State, inputs: seq<Input>)
    requires Inv(cfg, s) && s.table.Keys <= s.decided
    requires forall i :: 0 <= i < |inputs| ==> inputs[i].Received?
    ensures var s' := Run(cfg, s, inputs);
            && s'.table.Keys <= s'.decided
            && (s.decided == s.direct + s.table.Keys && (forall i :: 0 <= i < |inputs| ==> !MayBlock(inputs[i]))
                ==> s'.decided == s'.direct + s'.table.Keys)
    decreases |inputs|
  {
    if inputs != [] {
      InvStep(cfg, s, inputs[0]);
      CacheCoversTableStep(cfg, s, inputs[0]);
      CacheCoversTable(cfg, Step(cfg, s, inputs[0]).state, inputs[1..]);
    }
  }

  /** In every state reached from an empty start: a direct port is decided and untracked, the
      relay port is never decided, direct or tracked, every tracked port is decided as long
      as the capture is not reopened; and if moreover nothing was blocked, a port is tracked
      exactly when it is decided and not direct. */
  lemma CacheAgreesWithTable(cfg: Config, inputs: seq<Input>)
    ensures var s := Run(cfg, Initial, inputs);
            && s.direct <= s.decided && s.direct !! s.table.Keys
            && cfg.relayPort !in s.decided + s.direct + s.table.Keys
            && ((forall i :: 0 <= i < |inputs| ==> inputs[i].Received?) ==> s.table.Keys <= s.decided)
            && ((forall i :: 0 <= i < |inputs| ==> inputs[i].Received? && !MayBlock(inputs[i]))
                ==> s.table.Keys == s.decided - s.direct)
  {
    InvRun(cfg, Initial, inputs);
    if forall i :: 0 <= i < |inputs| ==> inputs[i].Received? {
      CacheCoversTable(cfg, Initial, inputs);
    }
  }

  // ---- What changes a port's treatment --------------------------------------------

  predicate FromPort(input: Input, p: Port) {
    input.Received? && input.length > 0 && input.content.Tcp? && input.content.seg.srcPort == p
  }

  predicate RelayReplyTo(cfg: Config, input: Input, p: Port) {
    FromPort(input, cfg.relayPort) && input.content.seg.dstPort == p
  }

  /** A FIN or RST of the flow of port `p`, from either side. */
  predicate Closes(cfg: Config, input: Input, p: Port) {
    (FromPort(input, p) || RelayReplyTo(cfg, input, p)) && input.content.seg.Closing()
  }

  predicate SameDestination(a: Entry, b: Entry) {
    a.srcPort == b.srcPort && a.srcIp == b.srcIp && a.destIp == b.destIp && a.destPort == b.destPort
  }

  predicate SameTreatment(s: State, s': State, p: Port) {
    && (p in s'.decided <==> p in s.decided) && (p in s'.direct <==> p in s.direct)
    && (p in s'.table <==> p in s.table) && (p in s.table ==> s'.table[p] == s.table[p])
  }

  lemma ClearedFrame(s: State, port: Port, p: Port)
    requires port != p
    ensures SameTreatment(s, Cleared(s, port), p)
  {}

  lemma ReplyFrame(s: State, length: nat, seg: Segment, p: Port)
    requires seg.dstPort != p
    ensures SameTreatment(s, FromRelayStep(s, length, seg).state, p)
  {}

  lemma TrackedFrame(cfg: Config, s: State, length: nat, seg: Segment, p: Port)
    requires seg.srcPort != p && seg.srcPort in s.table
    ensures SameTreatment(s, TrackedStep(cfg, s, length, seg).state, p)
  {}

  lemma UntrackedFrame(cfg: Config, s: State, seg: Segment, ans: Answers, p: Port)
    requires seg.srcPort != p
    ensures SameTreatment(s, UntrackedStep(cfg, s, seg, ans).state, p)
  {}

  /** No packet of another flow changes how a port is treated. */
  lemma OtherFlowsDoNotInterfere(cfg: Config, s: State, input: Input, p: Port)
    requires Inv(cfg, s) && input.Received? && !FromPort(input, p) && !RelayReplyTo(cfg, input, p)
    ensures SameTreatment(s, Step(cfg, s, input).state, p)
  {
    if input.length > 0 && input.content.Tcp? {
      var seg := input.content.seg;
      var s0 := s.(captured := s.captured + 1);
      var s1 := if seg.srcPort in s0.decided && seg.Closing() then Cleared(s0, seg.srcPort) else s0;
      hide FromRelayStep, TrackedStep, UntrackedStep, Cleared;
      ClearedFrame(s0, seg.srcPort, p);
      if seg.srcPort == cfg.relayPort {
        ReplyFrame(s1, input.length, seg, p);
      } else if seg.srcPort in s1.table {
        TrackedFrame(cfg, s1, input.length, seg, p);
      }
      UntrackedFrame(cfg, s1, seg, input.answers, p);
    }
  }

  /** A packet of a tracked port always takes the third branch. */
  lemma TrackedStepOf(cfg: Config, s: State, input: Input, p: Port)
    requires Inv(cfg, s) && cfg.hasTable && p in s.table && FromPort(input, p)
    ensures var s1 := s.(captured := s.captured + 1);
            Step(cfg, s, input) ==
            TrackedStep(cfg, if input.content.seg.Closing() then Cleared(s1, p) else s1, input.length, input.content.seg)
  {
    hide TrackedStep, FromRelayStep, UntrackedStep;
    assert p !in s.direct && p != cfg.relayPort;
    var s1 := s.(captured := s.captured + 1);
    assert input.content.seg.Closing() && p !in s.decided ==> Cleared(s1, p) == s1;
  }

  /** A tracked port is forgotten exactly by a closing packet of its flow, and keeps its
      recorded destination until then. */
  lemma TrackedUntilClosed(cfg: Config, s: State, input: Input, p: Port)
    requires Inv(cfg, s) && cfg.hasTable && p in s.table
    ensures var s' := Step(cfg, s, input).state;
            && (p in s'.table <==> !Closes(cfg, input, p))
            && (p in s'.table ==> SameDestination(s.table[p], s'.table[p]))
  {
    if !FromPort(input, p) && !RelayReplyTo(cfg, input, p) {
      if input.Received? {
        hide Step;
        OtherFlowsDoNotInterfere(cfg, s, input, p);
      }
    } else {
      var seg := input.content.seg;
      assert p !in s.direct;
      if FromPort(input, p) {
        TrackedStepOf(cfg, s, input, p);
      } else {
        hide FromRelay;
        assert cfg.relayPort !in s.decided;
      }
    }
  }

  /** The packets that go through the process rules. */
  predicate Consults(cfg: Config, s: State, input: Input, p: Port) {
    && cfg.hasTable && FromPort(input, p) && p != cfg.relayPort && input.content.seg.outbound
    && p !in s.table && (p in s.direct ==> input.content.seg.Closing())
  }

  /** A port becomes tracked exactly when an outbound packet of its own goes through the
      process rules and they say proxy; the entry records where that packet was going. */
  lemma OpenedByDecision(cfg: Config, s: State, input: Input, p: Port)
    requires Inv(cfg, s) && p !in s.table
    ensures var s' := Step(cfg, s, input).state;
            && (p in s'.table <==>
                Consults(cfg, s, input, p) && Decide(cfg, s.targetPid, p, input.answers) == Proxy)
            && (p in s'.table ==>
                  var seg, e := input.content.seg, s'.table[p];
                  e == Entry(p, seg.src, seg.dst, seg.dstPort, true, 0, 0) && p in s'.decided)
  {
    hide ToRelay, FromRelay, Remember;
  }

  /** Over whole runs: from the packet that opened a flow until a packet closes it, looking up
      the port yields the addresses and the destination port of that packet. */
  lemma OpenedThroughRun(cfg: Config, s: State, first: Input, between: seq<Input>, p: Port)
    requires Inv(cfg, s) && p !in s.table && Consults(cfg, s, first, p)
    requires Decide(cfg, s.targetPid, p, first.answers) == Proxy
    requires forall i :: 0 <= i < |between| ==> !Closes(cfg, between[i], p)
    ensures var table := Run(cfg, Step(cfg, s, first).state, between).table;
            && p in table
            && table[p].srcPort == p && table[p].srcIp == first.content.seg.src
            && table[p].destIp == first.content.seg.dst && table[p].destPort == first.content.seg.dstPort
  {
    InvStep(cfg, s, first);
    OpenedByDecision(cfg, s, first, p);
    hide Step, Decide;
    TrackedThroughRun(cfg, Step(cfg, s, first).state, between, p);
  }

  /** A port becomes direct exactly when an outbound packet of its own goes through the process
      rules and they say direct, and that packet passes unchanged; it becomes decided exactly
      when a packet of its own goes through them, whatever they say. */
  lemma SettledByDecision(cfg: Config, s: State, input: Input, p: Port)
    requires Inv(cfg, s)
    ensures var r := Step(cfg, s, input);
            var direct := Consults(cfg, s, input, p) && Decide(cfg, s.targetPid, p, input.answers) == Direct;
            && (p !in s.direct ==> (p in r.state.direct <==> direct))
            && (direct ==> p in r.state.direct && r.sent == Some(Sent(input.content, false)))
            && (p !in s.decided ==> (p in r.state.decided <==> Consults(cfg, s, input, p)))
  {
    hide ToRelay, FromRelay, Remember;
  }

  // ---- The same in terms of the packet's fields -----------------------------------

  /** A FIN alone or a RST alone ends a tracked flow, from either side, and nothing else does. */
  lemma EitherFlagCloses(cfg: Config, s: State, input: Input, p: Port)
    requires Inv(cfg, s) && cfg.hasTable && p in s.table
    ensures p !in Step(cfg, s, input).state.table <==>
            && input.Received? && input.length > 0 && input.content.Tcp?
            && (input.content.seg.fin || input.content.seg.rst)
            && (input.content.seg.srcPort == p
                || (input.content.seg.srcPort == cfg.relayPort && input.content.seg.dstPort == p))
  {
    TrackedUntilClosed(cfg, s, input, p);
    hide Step;
  }

  /** A FIN alone or a RST alone of a direct port ends its treatment, unless the same packet is
      at once decided direct again. */
  lemma EitherFlagEndsDirect(cfg: Config, s: State, input: Input, p: Port)
    requires Inv(cfg, s) && p in s.direct
    ensures p !in Step(cfg, s, input).state.direct <==>
            || input.Reopened?
            || (&& input.Received? && input.length > 0 && input.content.Tcp?
                && input.content.seg.srcPort == p && (input.content.seg.fin || input.content.seg.rst)
                && !(cfg.hasTable && input.content.seg.outbound && Decide(cfg, s.targetPid, p, input.answers) == Direct))
  {
    DirectUntilClosed(cfg, s, input, p);
    hide Step, Decide;
  }

  /** What is not a nonempty TCP packet: nothing changes, except that a reopening empties both
      bitmaps and leaves the table, the remembered target and the counters alone. */
  lemma OtherInputsChangeNothing(cfg: Config, s: State, input: Input)
    ensures input.Reopened? ==>
              Step(cfg, s, input) == Result(State({}, {}, s.table, s.targetPid, s.captured, s.redirects, s.totalRx, s.totalTx), None)
    ensures input.Received? && input.length == 0 ==> Step(cfg, s, input) == Result(s, None)
    ensures input.Received? && input.length > 0 && input.content.Other? ==>
              Step(cfg, s, input) == Result(s, Some(Sent(input.content, false)))
  {}

  /** Every nonempty TCP packet is counted; the remembered target changes only with a packet
      that goes through the process rules. */
  lemma CountedAndRemembered(cfg: Config, s: State, input: Input)
    requires Inv(cfg, s) && input.Received? && input.length > 0 && input.content.Tcp?
    ensures var s' := Step(cfg, s, input).state;
            var p := input.content.seg.srcPort;
            && s'.captured == s.captured + 1
            && s'.targetPid == if Consults(cfg, s, input, p) then Remember(cfg, s.targetPid, p, input.answers) else s.targetPid
  {
    hide ToRelay, FromRelay, Remember, Decide;
  }

  /** A direct port stops being direct exactly when the capture is reopened, or on a FIN or
      RST of its own that is not at once decided direct again. */
  lemma DirectUntilClosed(cfg: Config, s: State, input: Input, p: Port)
    requires Inv(cfg, s) && p in s.direct
    ensures p !in Step(cfg, s, input).state.direct <==>
            || input.Reopened?
            || (FromPort(input, p) && input.content.seg.Closing()
                && !(Consults(cfg, s, input, p) && Decide(cfg, s.targetPid, p, input.answers) == Direct))
    ensures FromPort(input, p) && !input.content.seg.Closing() ==>
              Step(cfg, s, input) == Result(s.(captured := s.captured + 1), Some(Sent(input.content, false)))
  {}

  /** Over whole runs: as long as no packet closes the flow of a tracked port, every state of
      the run tracks it with the destination first recorded. */
  lemma {:induction false} TrackedThroughRun(cfg: Config, s: State, inputs: seq<Input>, p: Port)
    requires Inv(cfg, s) && cfg.hasTable && p in s.table
    requires forall i :: 0 <= i < |inputs| ==> !Closes(cfg, inputs[i], p)
    ensures var s' := Run(cfg, s, inputs);
            Inv(cfg, s') && p in s'.table && SameDestination(s.table[p], s'.table[p])
    decreases |inputs|
  {
    if inputs != [] {
      InvStep(cfg, s, inputs[0]);
      TrackedUntilClosed(cfg, s, inputs[0], p);
      TrackedThroughRun(cfg, Step(cfg, s, inputs[0]).state, inputs[1..], p);
    }
  }

  /** Over whole runs: a direct port stays direct, and every packet it sends passes
      unchanged, until a FIN or RST of its own or a reopening. */
  lemma {:induction false} DirectThroughRun(cfg: Config, s: State, inputs: seq<Input>, p: Port, i: nat)
    requires Inv(cfg, s) && p in s.direct && i < |inputs|
    requires forall j :: 0 <= j <= i ==>
               inputs[j].Received? && !(FromPort(inputs[j], p) && inputs[j].content.seg.Closing())
    ensures p in Run(cfg, s, inputs[..i + 1]).direct
    ensures FromPort(inputs[i], p) ==> Trace(cfg, s, inputs)[i] == Some(Sent(inputs[i].content, false))
    decreases i
  {
    InvStep(cfg, s, inputs[0]);
    DirectUntilClosed(cfg, s, inputs[0], p);
    var s' := Step(cfg, s, inputs[0]).state;
    assert inputs[..i + 1][1..] == inputs[1..][..i];
    if i > 0 {
      assert inputs[1..][..i] == inputs[1..][..(i - 1) + 1];
      DirectThroughRun(cfg, s', inputs[1..], p, i - 1);
    }
  }

  /** A packet whose owner the system does not know yet settles its port: after any packets
      that neither close the connection nor reopen the capture, the next packet of the port
      goes through the process rules again exactly if it is an outbound FIN or RST, and every
      other packet passes unchanged, whatever the system would answer by then. */
  lemma UnknownOwnerIsNotRechecked(cfg: Config, s: State, first: Input, between: seq<Input>, next: Input, p: Port)
    requires Inv(cfg, s) && Consults(cfg, s, first, p) && OwnerOf(first.answers.sockets, p) == 0
    requires forall i :: 0 <= i < |between| ==>
               between[i].Received? && !(FromPort(between[i], p) && between[i].content.seg.Closing())
    requires FromPort(next, p)
    ensures var s' := Run(cfg, Step(cfg, s, first).state, between);
            Consults(cfg, s', next, p) <==> next.content.seg.Closing() && next.content.seg.outbound
    ensures !next.content.seg.Closing() ==>
              Trace(cfg, s, [first] + between + [next])[|between| + 1] == Some(Sent(next.content, false))
  {
    var s1 := Step(cfg, s, first).state;
    SettledDirect(cfg, s, first, p);
    hide Step, Run, Trace, OwnerOf;
    InvStep(cfg, s, first);
    InvRun(cfg, s1, between);
    DirectAfterRun(cfg, s1, between, p);
    DirectUntilClosed(cfg, Run(cfg, s1, between), next, p);
    Surrounded(cfg, s, first, between, next);
  }

  lemma SettledDirect(cfg: Config, s: State, first: Input, p: Port)
    requires Inv(cfg, s) && Consults(cfg, s, first, p) && OwnerOf(first.answers.sockets, p) == 0
    ensures p in Step(cfg, s, first).state.direct
  {
    hide Remember, OwnerOf;
  }

  lemma DirectAfterRun(cfg: Config, s: State, inputs: seq<Input>, p: Port)
    requires Inv(cfg, s) && p in s.direct
    requires forall j :: 0 <= j < |inputs| ==>
               inputs[j].Received? && !(FromPort(inputs[j], p) && inputs[j].content.seg.Closing())
    ensures p in Run(cfg, s, inputs).direct
  {
    if inputs != [] {
      DirectThroughRun(cfg, s, inputs, p, |inputs| - 1);
      assert inputs[..|inputs| - 1 + 1] == inputs;
    }
  }

  /** Packets of other ports never make a port tracked. */
  lemma {:induction false} UntrackedThroughRun(cfg: Config, s: State, inputs: seq<Input>, p: Port)
    requires Inv(cfg, s) && p !in s.table
    requires forall i :: 0 <= i < |inputs| ==> !FromPort(inputs[i], p)
    ensures Inv(cfg, Run(cfg, s, inputs)) && p !in Run(cfg, s, inputs).table
    decreases |inputs|
  {
    hide Step;
    if inputs != [] {
      InvStep(cfg, s, inputs[0]);
      OpenedByDecision(cfg, s, inputs[0], p);
      UntrackedThroughRun(cfg, Step(cfg, s, inputs[0]).state, inputs[1..], p);
    }
  }
}
