/** The capture loop itself: a packet buffer rewritten in place, the bitmaps, the table and
    the counters, proved to be the step of module Redirector. */
module CaptureEngine {
  import opened Options
  import opened Packets
  import opened ProcessRules
  import opened Redirector
  import Bitmaps = PortBitmaps
  import Tables = ConnectionTables

  /** The buffer the driver fills and the loop rewrites. */
  class PacketBuffer {
    var src: Address
    var dst: Address
    var srcPort: Port
    var dstPort: Port
    var outbound: bool
    var fin: bool
    var rst: bool
    var rest: seq<bv8>

    ghost function View(): Segment
      reads this
    {
      Segment(src, dst, srcPort, dstPort, fin, rst, outbound, rest)
    }

    constructor ()
    {
      src, dst, srcPort, dstPort := 0, 0, 0, 0;
      outbound, fin, rst, rest := false, false, false, [];
    }

    method Fill(seg: Segment)
      modifies this
      ensures View() == seg
    {
      src, dst, srcPort, dstPort := seg.src, seg.dst, seg.srcPort, seg.dstPort;
      outbound, fin, rst, rest := seg.outbound, seg.fin, seg.rst, seg.rest;
    }

    method Content() returns (seg: Segment)
      ensures seg == View()
    {
      return Segment(src, dst, srcPort, dstPort, fin, rst, outbound, rest);
    }

    predicate IsLocalPair()
      reads this
    {
      IsLocalhost(src) && IsLocalhost(dst)
    }

    method SwapIpAndDirection()
      modifies this
      ensures View() == Packets.SwapIpAndDirection(old(View()))
    {
      var temp := dst;
      dst := src;
      src := temp;
      outbound := false;
    }

    method ModifyDstToRelay(relayPort: Port)
      modifies this
      ensures View() == ToRelay(old(View()), relayPort)
    {
      dstPort := relayPort;
      if !IsLocalPair() {
        SwapIpAndDirection();
      }
    }

    method RestoreFromRelay(table: Tables.ConnectionTable)
      requires table.Valid()
      modifies this
      ensures View() == var seg := old(View());
                        FromRelay(seg, if seg.dstPort in table.Table() then table.Table()[seg.dstPort].destPort else seg.srcPort)
    {
      var e := table.Get(dstPort);
      if e.Some? {
        srcPort := e.value.destPort;
      }
      if !IsLocalPair() {
        SwapIpAndDirection();
      }
    }
  }

  class CaptureEngine {
    const cfg: Config
    const bitmaps: Bitmaps.PortBitmaps
    const connTable: Tables.ConnectionTable
    var targetPid: Pid
    var packetsCaptured: nat
    var redirectsEmitted: nat
    var totalRx: nat
    var totalTx: nat

    ghost predicate Valid()
      reads this, connTable, connTable.buckets
    {
      bitmaps.Valid() && connTable.Valid() && connTable.IsMap()
    }

    ghost function View(): State
      requires Valid()
      reads this, bitmaps.decided, bitmaps.direct, connTable, connTable.buckets
    {
      State(bitmaps.Decided(), bitmaps.Direct(), connTable.Table(),
            targetPid, packetsCaptured, redirectsEmitted, totalRx, totalTx)
    }

    constructor (cfg: Config)
      ensures Valid() && View() == Initial && this.cfg == cfg
      ensures fresh(bitmaps.decided) && fresh(bitmaps.direct) && fresh(connTable) && fresh(connTable.buckets)
    {
      this.cfg := cfg;
      bitmaps := new Bitmaps.PortBitmaps();
      connTable := new Tables.ConnectionTable();
      targetPid, packetsCaptured, redirectsEmitted, totalRx, totalTx := 0, 0, 0, 0, 0;
    }

    /** Ends the flow of a tracked port. */
    method FinishConnection(port: Port)
      requires Valid() && port in connTable.Table()
      modifies this, bitmaps.decided, bitmaps.direct, connTable, connTable.buckets
      ensures Valid() && View() == Finished(old(View()), port)
    {
      hide Bitmaps.Members, Tables.Contents, Tables.WellFormed, Tables.Unique, Tables.Find, Tables.Insert, Tables.Delete, Tables.Bump, Tables.Count;
      var info := connTable.Get(port);
      if info.Some? {
        totalRx := totalRx + info.value.bytesUp;
        totalTx := totalTx + info.value.bytesDown;
      }
      connTable.Remove(port);
      bitmaps.ClearPort(port);
    }

    /** Second step: a packet from the relay port. */
    method HandleRelayReply(packet: PacketBuffer, recvLen: nat) returns (modified: bool)
      requires Valid()
      modifies this, bitmaps.decided, bitmaps.direct, connTable, connTable.buckets, packet
      ensures Valid()
      ensures FromRelayStep(old(View()), recvLen, old(packet.View()))
           == Result(View(), Some(Sent(Tcp(packet.View()), modified)))
    {
      hide Bitmaps.Members, Tables.Contents, Tables.WellFormed, Tables.Unique, Tables.Find, Tables.Insert, Tables.Delete, Tables.Bump, Tables.Count;
      modified := false;
      var dstPort, closing := packet.dstPort, packet.fin || packet.rst;
      var entry := connTable.Get(dstPort);
      if entry.Some? {
        packet.RestoreFromRelay(connTable);
        modified := true;
        connTable.AddBytes(dstPort, 0, recvLen);
        if closing {
          FinishConnection(dstPort);
        }
      }
    }

    /** Third step: a packet of a tracked connection. */
    method HandleTracked(packet: PacketBuffer, recvLen: nat)
      requires Valid() && packet.srcPort in connTable.Table()
      modifies this, bitmaps.decided, bitmaps.direct, connTable, connTable.buckets, packet
      ensures Valid()
      ensures TrackedStep(cfg, old(View()), recvLen, old(packet.View()))
           == Result(View(), Some(Sent(Tcp(packet.View()), true)))
    {
      hide Bitmaps.Members, Tables.Contents, Tables.WellFormed, Tables.Unique, Tables.Find, Tables.Insert, Tables.Delete, Tables.Bump, Tables.Count;
      var srcPort := packet.srcPort;
      connTable.AddBytes(srcPort, recvLen, 0);
      if packet.fin || packet.rst {
        FinishConnection(srcPort);
      }
      packet.ModifyDstToRelay(cfg.relayPort);
    }

    /** Fourth step: an outbound packet of an untracked port. */
    method HandleUntracked(packet: PacketBuffer, ans: Answers) returns (sent: bool, modified: bool)
      requires Valid() && packet.srcPort !in connTable.Table()
      modifies this, bitmaps.decided, bitmaps.direct, connTable, connTable.buckets, packet
      ensures Valid()
      ensures UntrackedStep(cfg, old(View()), old(packet.View()), ans)
           == Result(View(), if sent then Some(Sent(Tcp(packet.View()), modified)) else None)
    {
      hide Bitmaps.Members, Tables.Contents, Tables.WellFormed, Tables.Unique, Tables.Find, Tables.Insert, Tables.Delete, Tables.Bump, Tables.Count;
      var srcPort := packet.srcPort;
      var action, newTarget := CheckProcessRule(cfg, targetPid, srcPort, ans);
      targetPid := newTarget;
      match action
      case Direct =>
        bitmaps.SetPortDirect(srcPort);
        return true, false;
      case Block =>
        bitmaps.SetPortDecided(srcPort);
        return false, false;
      case Proxy =>
        connTable.Add(srcPort, packet.src, packet.dst, packet.dstPort);
        bitmaps.SetPortDecided(srcPort);
        redirectsEmitted := redirectsEmitted + 1;
        packet.ModifyDstToRelay(cfg.relayPort);
        return true, true;
    }

    /** One iteration of the loop on an IPv4 TCP packet. */
    method ProcessPacket(packet: PacketBuffer, recvLen: nat, ans: Answers) returns (sent: bool, modified: bool)
      requires Valid()
      modifies this, bitmaps.decided, bitmaps.direct, connTable, connTable.buckets, packet
      ensures Valid()
      ensures TcpStep(cfg, old(View()), recvLen, old(packet.View()), ans)
           == Result(View(), if sent then Some(Sent(Tcp(packet.View()), modified)) else None)
    {
      hide Bitmaps.Members, Tables.Contents, Tables.WellFormed, Tables.Unique, Tables.Find, Tables.Insert, Tables.Delete, Tables.Bump, Tables.Count;
      hide FromRelayStep, TrackedStep, UntrackedStep;
      packetsCaptured := packetsCaptured + 1;
      sent, modified := true, false;
      var srcPort := packet.srcPort;
      if bitmaps.IsPortDecided(srcPort) {
        if packet.fin || packet.rst {
          bitmaps.ClearPort(srcPort);
        }
        if bitmaps.IsPortDirect(srcPort) {
          return;
        }
      }
      var tracked := connTable.IsTracked(srcPort);
      if srcPort == cfg.relayPort && cfg.hasTable {
        modified := HandleRelayReply(packet, recvLen);
      } else if cfg.hasTable && tracked {
        HandleTracked(packet, recvLen);
        modified := true;
      } else if packet.outbound && cfg.hasTable {
        sent, modified := HandleUntracked(packet, ans);
      }
    }

    /** Clears the bitmaps, as opening the capture does; the table stays. */
    method Reopen()
      requires Valid()
      modifies bitmaps.decided, bitmaps.direct
      ensures Valid() && View() == Step(cfg, old(View()), Reopened).state
    {
      bitmaps.Reset();
    }

    /** One iteration of the loop on whatever was received. */
    method Iterate(packet: PacketBuffer, input: Input) returns (out: Option<Sent>)
      requires Valid()
      modifies this, bitmaps.decided, bitmaps.direct, connTable, connTable.buckets, packet
      ensures Valid()
      ensures Step(cfg, old(View()), input) == Result(View(), out)
    {
      hide Bitmaps.Members, Tables.Contents, Tables.WellFormed, Tables.Unique, Tables.Find, Tables.Insert, Tables.Delete, Tables.Bump, Tables.Count;
      hide TcpStep;
      match input
      case Reopened =>
        Reopen();
        return None;
      case Received(length, content, answers) =>
        if length == 0 {
          return None;
        }
        match content
        case Other(_) =>
          return Some(Sent(content, false));
        case Tcp(seg) =>
          packet.Fill(seg);
          var sent, modified := ProcessPacket(packet, length, answers);
          var result := packet.Content();
          return if sent then Some(Sent(Tcp(result), modified)) else None;
    }

    /** The loop over everything received, with one buffer for all packets. */
    method CaptureLoop(inputs: seq<Input>) returns (trace: seq<Option<Sent>>)
      requires Valid()
      modifies this, bitmaps.decided, bitmaps.direct, connTable, connTable.buckets
      ensures Valid()
      ensures View() == Run(cfg, old(View()), inputs)
      ensures trace == Trace(cfg, old(View()), inputs)
    {
      hide Bitmaps.Members, Tables.Contents, Tables.WellFormed, Tables.Unique, Tables.Find, Tables.Insert, Tables.Delete, Tables.Bump, Tables.Count;
      hide Step;
      ghost var start := View();
      var packet := new PacketBuffer();
      trace := [];
      for i := 0 to |inputs|
        invariant Valid()
        invariant View() == Run(cfg, start, inputs[..i])
        invariant trace == Trace(cfg, start, inputs[..i])
      {
        RunSnoc(cfg, start, inputs[..i], inputs[i]);
        assert inputs[..i + 1] == inputs[..i] + [inputs[i]];
        var out := Iterate(packet, inputs[i]);
        trace := trace + [out];
      }
      assert inputs[..|inputs|] == inputs;
    }
  }

  lemma RunSnoc(cfg: Config, s: State, inputs: seq<Input>, input: Input)
    ensures Run(cfg, s, inputs + [input]) == Step(cfg, Run(cfg, s, inputs), input).state
    ensures Trace(cfg, s, inputs + [input]) == Trace(cfg, s, inputs) + [Step(cfg, Run(cfg, s, inputs), input).sent]
  {
    RunConcat(cfg, s, inputs, [input]);
    var s' := Run(cfg, s, inputs);
    assert Trace(cfg, s', [input]) == [Step(cfg, s', input).sent];
  }
}
