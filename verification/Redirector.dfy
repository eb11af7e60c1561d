/** One iteration of the capture loop as a step over two port sets, the connection table and
    the counters, and whole runs of it. */
module Redirector {
  import opened Options
  import opened Packets
  import opened ProcessRules
  import opened ConnectionTables

  /** `Other` is whatever does not parse as IPv4 TCP. */
  datatype Content = Other(bytes: seq<bv8>) | Tcp(seg: Segment)

  datatype Input =
    | Received(length: nat, content: Content, answers: Answers)
    | Reopened

  datatype Sent = Sent(content: Content, recomputed: bool)

  datatype State = State(
    decided: set<Port>, direct: set<Port>, table: map<Port, Entry>,
    targetPid: Pid, captured: nat, redirects: nat, totalRx: nat, totalTx: nat)

  datatype Result = Result(state: State, sent: Option<Sent>)

  const Initial := State({}, {}, map[], 0, 0, 0, 0, 0)

  // ---- The step -------------------------------------------------------------------

  function Cleared(s: State, port: Port): State {
    s.(decided := s.decided - {port}, direct := s.direct - {port})
  }

  function WithBytes(s: State, port: Port, up: nat, down: nat): State
    requires port in s.table
  {
    s.(table := s.table[port := Counted(s.table[port], up, down)])
  }

  /** Drops a finished connection and adds its traffic to the totals. */
  function Finished(s: State, port: Port): State
    requires port in s.table
  {
    Cleared(s.(totalRx := s.totalRx + s.table[port].bytesUp,
               totalTx := s.totalTx + s.table[port].bytesDown,
               table := s.table - {port}), port)
  }

  function Changed(seg: Segment): Option<Sent> {
    Some(Sent(Tcp(seg), true))
  }

  function Unchanged(seg: Segment): Option<Sent> {
    Some(Sent(Tcp(seg), false))
  }

  function FromRelayStep(s: State, length: nat, seg: Segment): Result {
    if seg.dstPort in s.table then
      var out := Changed(FromRelay(seg, s.table[seg.dstPort].destPort));
      var counted := WithBytes(s, seg.dstPort, 0, length);
      Result(if seg.Closing() then Finished(counted, seg.dstPort) else counted, out)
    else
      Result(s, Unchanged(seg))
  }

  function TrackedStep(cfg: Config, s: State, length: nat, seg: Segment): Result
    requires seg.srcPort in s.table
  {
    var counted := WithBytes(s, seg.srcPort, length, 0);
    Result(if seg.Closing() then Finished(counted, seg.srcPort) else counted, Changed(ToRelay(seg, cfg.relayPort)))
  }

  function Opened(seg: Segment): Entry {
    Entry(seg.srcPort, seg.src, seg.dst, seg.dstPort, true, 0, 0)
  }

  function UntrackedStep(cfg: Config, s: State, seg: Segment, ans: Answers): Result {
    var p := seg.srcPort;
    var s' := s.(targetPid := Remember(cfg, s.targetPid, p, ans));
    match Decide(cfg, s.targetPid, p, ans)
    case Direct => Result(s'.(decided := s.decided + {p}, direct := s.direct + {p}), Unchanged(seg))
    case Block => Result(s'.(decided := s.decided + {p}), None)
    case Proxy =>
      Result(s'.(decided := s.decided + {p}, table := s.table[p := Opened(seg)], redirects := s.redirects + 1),
             Changed(ToRelay(seg, cfg.relayPort)))
  }

  function TcpStep(cfg: Config, s: State, length: nat, seg: Segment, ans: Answers): Result {
    var p := seg.srcPort;
    var s := s.(captured := s.captured + 1);
    var s1 := if p in s.decided && seg.Closing() then Cleared(s, p) else s;
    if p in s.decided && p in s1.direct then Result(s1, Unchanged(seg))
    else if p == cfg.relayPort && cfg.hasTable then FromRelayStep(s1, length, seg)
    else if cfg.hasTable && p in s1.table then TrackedStep(cfg, s1, length, seg)
    else if seg.outbound && cfg.hasTable then UntrackedStep(cfg, s1, seg, ans)
    else Result(s1, Unchanged(seg))
  }

  function Step(cfg: Config, s: State, input: Input): Result {
    match input
    case Reopened => Result(s.(decided := {}, direct := {}), None)
    case Received(length, content, answers) =>
      if length == 0 then Result(s, None)
      else match content
        case Other(_) => Result(s, Some(Sent(content, false)))
        case Tcp(seg) => TcpStep(cfg, s, length, seg, answers)
  }

  // ---- Runs -----------------------------------------------------------------------

  function Run(cfg: Config, s: State, inputs: seq<Input>): State
    decreases |inputs|
  {
    if inputs == [] then s
    else Run(cfg, Step(cfg, s, inputs[0]).state, inputs[1..])
  }

  /** What each input made the loop send, in order. */
  function Trace(cfg: Config, s: State, inputs: seq<Input>): (out: seq<Option<Sent>>)
    ensures |out| == |inputs|
    decreases |inputs|
  {
    if inputs == [] then []
    else var r := Step(cfg, s, inputs[0]);
         [r.sent] + Trace(cfg, r.state, inputs[1..])
  }

  lemma {:induction false} RunConcat(cfg: Config, s: State, a: seq<Input>, b: seq<Input>)
    ensures Run(cfg, s, a + b) == Run(cfg, Run(cfg, s, a), b)
    ensures Trace(cfg, s, a + b) == Trace(cfg, s, a) + Trace(cfg, Run(cfg, s, a), b)
    decreases |a|
  {
    if a == [] {
      assert a + b == b;
    } else {
      RunConcat(cfg, Step(cfg, s, a[0]).state, a[1..], b);
      assert (a + b)[1..] == a[1..] + b;
    }
  }

  lemma {:induction false} TraceAt(cfg: Config, s: State, inputs: seq<Input>, i: nat)
    requires i < |inputs|
    ensures Trace(cfg, s, inputs)[i] == Step(cfg, Run(cfg, s, inputs[..i]), inputs[i]).sent
    decreases i
  {
    if i == 0 {
      assert inputs[..0] == [];
    } else {
      TraceAt(cfg, Step(cfg, s, inputs[0]).state, inputs[1..], i - 1);
      assert inputs[..i] == [inputs[0]] + inputs[1..][..i - 1];
      assert inputs[..i][1..] == inputs[1..][..i - 1];
    }
  }

  /** The first and the last thing sent in a run. */
  lemma Surrounded(cfg: Config, s: State, first: Input, between: seq<Input>, last: Input)
    ensures var trace := Trace(cfg, s, [first] + between + [last]);
            && trace[0] == Step(cfg, s, first).sent
            && trace[|between| + 1] == Step(cfg, Run(cfg, Step(cfg, s, first).state, between), last).sent
  {
    hide Step;
    var all := [first] + between + [last];
    TraceAt(cfg, s, all, 0);
    TraceAt(cfg, s, all, |between| + 1);
    assert all[..0] == [];
    assert all[..|between| + 1][1..] == between;
  }
}
