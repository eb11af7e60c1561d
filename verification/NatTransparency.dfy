/** While a flow is open, redirection is invisible to its client: what the relay answers comes
    back as if the destination had answered.  Once a FIN or RST of either side has closed the
    flow, what the relay still sends reaches the client from the relay port. */
module NatTransparency {
  import opened Options
  import opened Packets
  import opened ProcessRules
  import opened Redirector
  import opened Agreement

  /** The client packet that is being followed: it leaves its flow redirected. */
  predicate RedirectedBy(cfg: Config, s: State, input: Input) {
    && input.Received? && input.length > 0 && input.content.Tcp?
    && input.content.seg.srcPort != cfg.relayPort
    && input.content.seg.srcPort in Step(cfg, s, input).state.table
  }

  /** Two addresses of 127.0.0.0/8 stay in place with the direction; any others are exchanged and
      the packet becomes inbound. */
  predicate AddressesTurned(a: Segment, b: Segment) {
    if 0x7F00_0000 <= a.src <= 0x7FFF_FFFF && 0x7F00_0000 <= a.dst <= 0x7FFF_FFFF
    then b.src == a.src && b.dst == a.dst && b.outbound == a.outbound
    else b.src == a.dst && b.dst == a.src && !b.outbound
  }

  /** `b` is `a` on its way to the relay. */
  predicate IsForwarded(a: Segment, b: Segment, relayPort: Port) {
    && b.srcPort == a.srcPort && b.dstPort == relayPort && AddressesTurned(a, b)
    && b.fin == a.fin && b.rst == a.rst && b.rest == a.rest
  }

  /** `b` is `a` on its way back from the relay, as if `port` had sent it. */
  predicate IsRestored(a: Segment, b: Segment, port: Port) {
    && b.srcPort == port && b.dstPort == a.dstPort && AddressesTurned(a, b)
    && b.fin == a.fin && b.rst == a.rst && b.rest == a.rest
  }

  lemma ForwardIsRewritten(cfg: Config, s: State, input: Input)
    requires Inv(cfg, s) && RedirectedBy(cfg, s, input)
    ensures var c := input.content.seg;
            && Step(cfg, s, input).sent == Some(Sent(Tcp(ToRelay(c, cfg.relayPort)), true))
            && IsForwarded(c, ToRelay(c, cfg.relayPort), cfg.relayPort)
            && Step(cfg, s, input).state.table[c.srcPort].destPort ==
               if c.srcPort in s.table then s.table[c.srcPort].destPort else c.dstPort
  {
    var p := input.content.seg.srcPort;
    ToRelayFields(input.content.seg, cfg.relayPort);
    if p in s.table {
      TrackedUntilClosed(cfg, s, input, p);
      TrackedStepOf(cfg, s, input, p);
    } else {
      OpenedByDecision(cfg, s, input, p);
    }
  }

  lemma ReplyIsRestored(cfg: Config, s: State, input: Input, p: Port)
    requires Inv(cfg, s) && cfg.hasTable && p in s.table && RelayReplyTo(cfg, input, p)
    ensures Step(cfg, s, input).sent == Some(Sent(Tcp(FromRelay(input.content.seg, s.table[p].destPort)), true))
    ensures IsRestored(input.content.seg, FromRelay(input.content.seg, s.table[p].destPort), s.table[p].destPort)
  {
    FromRelayFields(input.content.seg, s.table[p].destPort);
    assert cfg.relayPort !in s.decided && cfg.relayPort !in s.table;
  }

  /** In every run, field by field: each packet that leaves its flow redirected is sent towards
      the relay, and each relay reply to a tracked port is sent with the recorded port, both
      with recomputed checksums. */
  lemma RewritesOfRun(cfg: Config, inputs: seq<Input>, i: nat)
    requires i < |inputs| && cfg.hasTable
    ensures var s, input, sent := Run(cfg, Initial, inputs[..i]), inputs[i], Trace(cfg, Initial, inputs)[i];
            && (RedirectedBy(cfg, s, input) ==>
                  sent.Some? && sent.value.recomputed && sent.value.content.Tcp?
                  && IsForwarded(input.content.seg, sent.value.content.seg, cfg.relayPort))
            && (forall p :: p in s.table && RelayReplyTo(cfg, input, p) ==>
                  sent.Some? && sent.value.recomputed && sent.value.content.Tcp?
                  && IsRestored(input.content.seg, sent.value.content.seg, s.table[p].destPort))
  {
    var s := Run(cfg, Initial, inputs[..i]);
    InvRun(cfg, Initial, inputs[..i]);
    TraceAt(cfg, Initial, inputs, i);
    hide Step, Run, IsForwarded, IsRestored, ToRelay, FromRelay;
    if RedirectedBy(cfg, s, inputs[i]) {
      ForwardIsRewritten(cfg, s, inputs[i]);
    }
    forall p | p in s.table && RelayReplyTo(cfg, inputs[i], p)
      ensures Step(cfg, s, inputs[i]).sent == Some(Sent(Tcp(FromRelay(inputs[i].content.seg, s.table[p].destPort)), true))
      ensures IsRestored(inputs[i].content.seg, FromRelay(inputs[i].content.seg, s.table[p].destPort), s.table[p].destPort)
    {
      ReplyIsRestored(cfg, s, inputs[i], p);
    }
  }

  /** For a client packet A:p->B:d that is redirected, any packets in between that do not close
      the flow, and a reply of the relay that mirrors what the relay received: the client is
      sent B:d->A:p exactly when d is the port recorded for p, and it always is when this
      packet opened the flow.  Nothing else of the reply is touched. */
  lemma ReplyReachesClientAsFromDestination(cfg: Config, s: State, client: Input, between: seq<Input>, reply: Input)
    requires Inv(cfg, s) && cfg.hasTable && RedirectedBy(cfg, s, client)
    requires var p := client.content.seg.srcPort;
             forall i :: 0 <= i < |between| ==> !Closes(cfg, between[i], p)
    requires reply.Received? && reply.length > 0 && reply.content.Tcp?
    requires Mirrors(ToRelay(client.content.seg, cfg.relayPort), reply.content.seg)
    ensures var c := client.content.seg;
            var trace := Trace(cfg, s, [client] + between + [reply]);
            var recorded := if c.srcPort in s.table then s.table[c.srcPort].destPort else c.dstPort;
            && trace[0] == Some(Sent(Tcp(ToRelay(c, cfg.relayPort)), true))
            && var last := trace[|between| + 1];
               && last.Some? && last.value.recomputed && last.value.content.Tcp?
               && var delivered := last.value.content.seg;
                  && (Mirrors(c, delivered) <==> recorded == c.dstPort)
                  && SameFrame(reply.content.seg, delivered)
                  && delivered.outbound == (IsLocalhostPair(c) && reply.content.seg.outbound)
  {
    var c := client.content.seg;
    var p := c.srcPort;
    var s1 := Step(cfg, s, client).state;
    var s2 := Run(cfg, s1, between);
    hide Step, Run, Trace, Mirrors, ToRelay, FromRelay, SameDestination;
    ForwardIsRewritten(cfg, s, client);
    InvStep(cfg, s, client);
    TrackedThroughRun(cfg, s1, between, p);
    ReplyUndoesForward(c, cfg.relayPort, reply.content.seg, s2.table[p].destPort);
    ReplyIsRestored(cfg, s2, reply, p);
    Surrounded(cfg, s, client, between, reply);
  }

  predicate RelayAnswers(cfg: Config, client: Segment, reply: Input) {
    && reply.Received? && reply.length > 0 && reply.content.Tcp?
    && Mirrors(ToRelay(client, cfg.relayPort), reply.content.seg)
  }

  /** In every state: a reply of the relay to a client packet A:p->B:d is delivered as B:d->A:p
      exactly when p is tracked with d as the recorded port; to an untracked port it is
      delivered as the relay sent it. */
  lemma ReplyIsTransparentIff(cfg: Config, s: State, client: Segment, reply: Input)
    requires Inv(cfg, s) && cfg.hasTable && RelayAnswers(cfg, client, reply) && client.dstPort != cfg.relayPort
    ensures var sent := Step(cfg, s, reply).sent;
            && sent.Some? && sent.value.content.Tcp?
            && (Mirrors(client, sent.value.content.seg) <==>
                client.srcPort in s.table && s.table[client.srcPort].destPort == client.dstPort)
            && (client.srcPort !in s.table ==> sent.value == Sent(reply.content, false))
  {
    var p := client.srcPort;
    ReplyUndoesForward(client, cfg.relayPort, reply.content.seg, if p in s.table then s.table[p].destPort else 0);
    if p in s.table {
      hide Step, Mirrors, ToRelay, FromRelay;
      ReplyIsRestored(cfg, s, reply, p);
    } else {
      hide ToRelay, FromRelay;
      UntrackedReplyPasses(cfg, s, reply, p);
    }
  }

  lemma UntrackedReplyPasses(cfg: Config, s: State, reply: Input, p: Port)
    requires Inv(cfg, s) && cfg.hasTable && p !in s.table && RelayReplyTo(cfg, reply, p)
    ensures Step(cfg, s, reply).sent == Some(Sent(reply.content, false))
  {
    assert cfg.relayPort !in s.decided && cfg.relayPort !in s.table;
  }

  /** After the first FIN or RST of a flow, from either side, whatever the relay still answers
      reaches the client unrestored, from the relay port, until the port itself sends again. */
  lemma ReplyAfterCloseIsNotRestored(cfg: Config, s: State, client: Segment, close: Input, between: seq<Input>, reply: Input)
    requires Inv(cfg, s) && cfg.hasTable && client.srcPort in s.table && Closes(cfg, close, client.srcPort)
    requires forall i :: 0 <= i < |between| ==> !FromPort(between[i], client.srcPort)
    requires RelayAnswers(cfg, client, reply)
    ensures var sent := Trace(cfg, s, [close] + between + [reply])[|between| + 1];
            && sent == Some(Sent(reply.content, false)) && reply.content.seg.srcPort == cfg.relayPort
            && (client.dstPort != cfg.relayPort ==> !Mirrors(client, reply.content.seg))
  {
    var p := client.srcPort;
    var s1 := Step(cfg, s, close).state;
    ReplyUndoesForward(client, cfg.relayPort, reply.content.seg, 0);
    hide Step, Run, Trace, ToRelay, FromRelay;
    InvStep(cfg, s, close);
    TrackedUntilClosed(cfg, s, close, p);
    UntrackedThroughRun(cfg, s1, between, p);
    UntrackedReplyPasses(cfg, Run(cfg, s1, between), reply, p);
    Surrounded(cfg, s, close, between, reply);
  }

  // ---- A port with two destinations -----------------------------------------------

  const RelayConfig := Config(34010, true, [], true)

  /** A client's packet to port `d` of a server, owned by a process the rules send to the proxy. */
  function PacketTo(d: Port): Input {
    Received(40, Tcp(Segment(0x0A00_0001, 0x0A00_0002, 5000, d, false, false, true, [])),
             Answers([Socket(5000, 7)], 1, map[7 := "client.exe"], [], EngineProxy))
  }

  function RelayReply(): Input {
    Received(40, Tcp(Segment(0x0A00_0001, 0x0A00_0002, 34010, 5000, false, false, true, [])),
             Answers([], 1, map[], [], NoEngine))
  }

  /** A port tracked to 443 that addresses port 80 is answered from 443. */
  lemma SecondPortIsAnsweredFromFirst()
    ensures var client := PacketTo(80).content.seg;
            var trace := Trace(RelayConfig, Initial, [PacketTo(443), PacketTo(80), RelayReply()]);
            && RelayAnswers(RelayConfig, client, RelayReply())
            && trace[1] == Some(Sent(Tcp(ToRelay(client, 34010)), true))
            && trace[2] == Some(Sent(Tcp(FromRelay(RelayReply().content.seg, 443)), true))
            && !Mirrors(client, trace[2].value.content.seg)
  {
    var first, second, reply := PacketTo(443), PacketTo(80), RelayReply();
    var s1 := Step(RelayConfig, Initial, first).state;
    OpensAt443();
    InvRun(RelayConfig, Initial, []);
    InvStep(RelayConfig, Initial, first);
    hide Step;
    InvStep(RelayConfig, s1, second);
    ForwardIsRewritten(RelayConfig, s1, second);
    var s2 := Step(RelayConfig, s1, second).state;
    ReplyIsRestored(RelayConfig, s2, reply, 5000);
    Surrounded(RelayConfig, Initial, first, [second], reply);
    TraceAt(RelayConfig, Initial, [first] + [second] + [reply], 1);
  }

  lemma OpensAt443()
    ensures var s1 := Step(RelayConfig, Initial, PacketTo(443)).state;
            && 5000 in s1.table && s1.table[5000].destPort == 443
            && 5000 in Step(RelayConfig, s1, PacketTo(80)).state.table
  {}
}
