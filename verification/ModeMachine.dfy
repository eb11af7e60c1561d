/** The simple machine the redirector implements: one map from ports to how they are treated.
    The two bitmaps and the table are a cached form of it. */
module ModeMachine {
  import opened Options
  import opened Packets
  import opened ProcessRules
  import opened ConnectionTables
  import opened Redirector
  import opened Agreement

  datatype Mode = Passing | Redirected(entry: Entry)

  datatype Modes = Modes(of: map<Port, Mode>, targetPid: Pid)

  datatype Outcome = Outcome(modes: Modes, sent: Option<Sent>)

  function Forget(m: Modes, p: Port): Modes {
    m.(of := m.of - {p})
  }

  predicate Passes(m: Modes, p: Port) {
    p in m.of && m.of[p].Passing?
  }

  predicate Redirects(m: Modes, p: Port) {
    p in m.of && m.of[p].Redirected?
  }

  /** A packet of a redirected flow is counted; the last one ends the flow. */
  function Account(m: Modes, p: Port, up: nat, down: nat, last: bool): Modes
    requires Redirects(m, p)
  {
    if last then Forget(m, p) else m.(of := m.of[p := Redirected(Counted(m.of[p].entry, up, down))])
  }

  function Classify(cfg: Config, m: Modes, seg: Segment, ans: Answers): Outcome {
    var p := seg.srcPort;
    var m' := m.(targetPid := Remember(cfg, m.targetPid, p, ans));
    match Decide(cfg, m.targetPid, p, ans)
    case Direct => Outcome(m'.(of := m.of[p := Passing]), Some(Sent(Tcp(seg), false)))
    case Proxy => Outcome(m'.(of := m.of[p := Redirected(Opened(seg))]), Some(Sent(Tcp(ToRelay(seg, cfg.relayPort)), true)))
    case Block => Outcome(m', None)
  }

  function ModeStep(cfg: Config, m: Modes, input: Input): Outcome {
    match input
    case Reopened => Outcome(m.(of := map p | p in m.of && m.of[p].Redirected? :: m.of[p]), None)
    case Received(length, content, ans) =>
      if length == 0 then Outcome(m, None)
      else if content.Other? then Outcome(m, Some(Sent(content, false)))
      else
        var seg := content.seg;
        var p := seg.srcPort;
        var m := if Passes(m, p) && seg.Closing() then Forget(m, p) else m;
        if !cfg.hasTable || Passes(m, p) then Outcome(m, Some(Sent(content, false)))
        else if p == cfg.relayPort && Redirects(m, seg.dstPort) then
          Outcome(Account(m, seg.dstPort, 0, length, seg.Closing()),
                  Some(Sent(Tcp(FromRelay(seg, m.of[seg.dstPort].entry.destPort)), true)))
        else if p != cfg.relayPort && Redirects(m, p) then
          Outcome(Account(m, p, length, 0, seg.Closing()), Some(Sent(Tcp(ToRelay(seg, cfg.relayPort)), true)))
        else if p != cfg.relayPort && seg.outbound then Classify(cfg, m, seg, ans)
        else Outcome(m, Some(Sent(content, false)))
  }

  function ModeRun(cfg: Config, m: Modes, inputs: seq<Input>): Modes
    decreases |inputs|
  {
    if inputs == [] then m else ModeRun(cfg, ModeStep(cfg, m, inputs[0]).modes, inputs[1..])
  }

  function ModeTrace(cfg: Config, m: Modes, inputs: seq<Input>): seq<Option<Sent>>
    decreases |inputs|
  {
    if inputs == [] then []
    else var r := ModeStep(cfg, m, inputs[0]);
         [r.sent] + ModeTrace(cfg, r.modes, inputs[1..])
  }

  ghost function Abs(s: State): Modes {
    Modes(map p | p in s.direct + s.table.Keys :: if p in s.table then Redirected(s.table[p]) else Passing,
          s.targetPid)
  }

  lemma AbsAt(s: State, p: Port)
    ensures Redirects(Abs(s), p) <==> p in s.table
    ensures p in s.table ==> Abs(s).of[p].entry == s.table[p]
    ensures Passes(Abs(s), p) <==> p in s.direct && p !in s.table
    ensures p in Abs(s).of <==> p in s.direct || p in s.table
  {}

  lemma RefinesUntracked(cfg: Config, s: State, seg: Segment, ans: Answers)
    requires Inv(cfg, s) && seg.srcPort !in s.direct && seg.srcPort !in s.table
    ensures var r, o := UntrackedStep(cfg, s, seg, ans), Classify(cfg, Abs(s), seg, ans);
            Abs(r.state) == o.modes && r.sent == o.sent
  {
    hide Decide, Remember, ToRelay;
    var p := seg.srcPort;
    var r, o := UntrackedStep(cfg, s, seg, ans), Classify(cfg, Abs(s), seg, ans);
    assert Abs(r.state).of == o.modes.of;
  }

  lemma RefinesFlow(s: State, p: Port, up: nat, down: nat, last: bool)
    requires p in s.table && s.direct !! s.table.Keys
    ensures var counted := WithBytes(s, p, up, down);
            Abs(if last then Finished(counted, p) else counted) == Account(Abs(s), p, up, down, last)
  {
    AbsAt(s, p);
    var counted := WithBytes(s, p, up, down);
    assert Abs(if last then Finished(counted, p) else counted).of == Account(Abs(s), p, up, down, last).of;
  }

  lemma AbsCleared(s: State, p: Port)
    requires s.direct !! s.table.Keys
    ensures p !in s.table ==> Abs(Cleared(s, p)).of == Forget(Abs(s), p).of
    ensures p !in s.direct ==> Abs(Cleared(s, p)) == Abs(s)
  {
    if p !in s.direct {
      assert s.direct - {p} == s.direct;
    }
  }

  lemma RefinesTcp(cfg: Config, s: State, input: Input)
    requires Inv(cfg, s) && input.Received? && input.length > 0 && input.content.Tcp?
    ensures var r, o := Step(cfg, s, input), ModeStep(cfg, Abs(s), input);
            Abs(r.state) == o.modes && r.sent == o.sent
  {
    hide ToRelay, FromRelay, UntrackedStep, Classify, Finished, Account, WithBytes;
    var seg, length, ans := input.content.seg, input.length, input.answers;
    var p := seg.srcPort;
    var s0 := s.(captured := s.captured + 1);
    var s1 := if p in s0.decided && seg.Closing() then Cleared(s0, p) else s0;
    assert Abs(s0) == Abs(s);
    AbsAt(s, p);
    AbsCleared(s0, p);
    var m1 := if Passes(Abs(s), p) && seg.Closing() then Forget(Abs(s), p) else Abs(s);
    assert Abs(s1) == m1 by {
      if p in s0.decided && seg.Closing() && p in s.direct {
        assert p !in s.table;
      }
    }
    assert Inv(cfg, s1);
    AbsAt(s1, p);
    AbsAt(s1, seg.dstPort);
    if seg.dstPort in s1.table {
      RefinesFlow(s1, seg.dstPort, 0, length, seg.Closing());
    }
    if p in s1.table {
      RefinesFlow(s1, p, length, 0, seg.Closing());
    } else if p !in s1.direct {
      RefinesUntracked(cfg, s1, seg, ans);
    }
  }

  lemma RefinesStep(cfg: Config, s: State, input: Input)
    requires Inv(cfg, s)
    ensures var r, o := Step(cfg, s, input), ModeStep(cfg, Abs(s), input);
            Abs(r.state) == o.modes && r.sent == o.sent
  {
    if input.Received? && input.length > 0 && input.content.Tcp? {
      RefinesTcp(cfg, s, input);
    } else if input.Reopened? {
      assert Abs(Step(cfg, s, input).state).of == ModeStep(cfg, Abs(s), input).modes.of;
    }
  }

  /** The capture loop and the simple machine send the same packets and treat every port
      alike, for every sequence of packets, every answer of the system and every reopening. */
  lemma {:induction false} CacheRefinesModes(cfg: Config, s: State, inputs: seq<Input>)
    requires Inv(cfg, s)
    ensures Trace(cfg, s, inputs) == ModeTrace(cfg, Abs(s), inputs)
    ensures Abs(Run(cfg, s, inputs)) == ModeRun(cfg, Abs(s), inputs)
    decreases |inputs|
  {
    if inputs != [] {
      InvStep(cfg, s, inputs[0]);
      RefinesStep(cfg, s, inputs[0]);
      CacheRefinesModes(cfg, Step(cfg, s, inputs[0]).state, inputs[1..]);
    }
  }

  /** What is sent never depends on the decided bitmap. */
  lemma DecidedBitmapIsRedundant(cfg: Config, s: State, t: State, inputs: seq<Input>)
    requires Inv(cfg, s) && Inv(cfg, t)
    requires s.direct == t.direct && s.table == t.table && s.targetPid == t.targetPid
    ensures Trace(cfg, s, inputs) == Trace(cfg, t, inputs)
  {
    CacheRefinesModes(cfg, s, inputs);
    CacheRefinesModes(cfg, t, inputs);
    assert Abs(s) == Abs(t);
  }
}
