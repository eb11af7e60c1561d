/** Which process owns a packet and what is to happen to it.  The operating system's and the
    rule engine's answers are inputs: any list of sockets, any process snapshot, any verdict. */
module ProcessRules {
  import opened Options
  import opened Packets

  type Pid = nat

  datatype Socket = Socket(localPort: Port, owner: Pid)

  datatype Process = Process(id: Pid, parent: Pid)

  type Snapshot = seq<Process>

  /** `NoEngine` is a redirector without a rule engine. */
  datatype Verdict = NoEngine | EngineDirect | EngineProxy | EngineBlock

  datatype Answers = Answers(
    sockets: seq<Socket>,      // empty when the system cannot list them
    ownPid: Pid,
    images: map<Pid, string>,  // the processes whose image path can be read
    snapshot: Snapshot,        // empty when no snapshot can be taken
    verdict: Verdict)

  datatype Config = Config(relayPort: Port, hasTable: bool, targetPath: string, proxyConfigured: bool)

  datatype Action = Direct | Proxy | Block

  const MAX_DEPTH := 10

  // ---- Paths ----------------------------------------------------------------------

  function FoldCase(s: string): string {
    seq(|s|, i requires 0 <= i < |s| => if 'A' <= s[i] <= 'Z' then s[i] + 32 as char else s[i])
  }

  predicate SamePath(a: string, b: string) {
    FoldCase(a) == FoldCase(b)
  }

  /** Two characters that differ at most in the case of an ASCII letter. */
  predicate SameLetter(a: char, b: char) {
    a == b || ('A' <= a <= 'Z' && b as int == a as int + 32) || ('A' <= b <= 'Z' && a as int == b as int + 32)
  }

  /** Paths are compared character by character, without regard to ASCII case. */
  lemma SamePathIff(a: string, b: string)
    ensures SamePath(a, b) <==> |a| == |b| && forall i :: 0 <= i < |a| ==> SameLetter(a[i], b[i])
  {
    assert |FoldCase(a)| == |a| && |FoldCase(b)| == |b|;
    if SamePath(a, b) {
      forall i | 0 <= i < |a|
        ensures SameLetter(a[i], b[i])
      {
        assert FoldCase(a)[i] == FoldCase(b)[i];
      }
    }
  }

  /** What follows the last backslash. */
  function BaseName(path: string): string {
    if path == [] then []
    else if path[|path| - 1] == '\\' then []
    else BaseName(path[..|path| - 1]) + [path[|path| - 1]]
  }

  /** `name` is the longest ending of the path without a backslash. */
  predicate EndsAfterBackslash(path: string, name: string) {
    && |name| <= |path| && path[|path| - |name|..] == name
    && (forall i :: 0 <= i < |name| ==> name[i] != '\\')
    && (|name| < |path| ==> path[|path| - |name| - 1] == '\\')
  }

  lemma LongerEnding(path: string, name: string, c: char)
    requires EndsAfterBackslash(path, name) && c != '\\'
    ensures EndsAfterBackslash(path + [c], name + [c])
  {
    assert (path + [c])[|path| - |name|..] == name + [c];
  }

  lemma BaseNameGrows(path: string)
    requires path != [] && path[|path| - 1] != '\\'
    ensures BaseName(path) == BaseName(path[..|path| - 1]) + [path[|path| - 1]]
  {}

  lemma NoBaseName(path: string)
    requires path == [] || path[|path| - 1] == '\\'
    ensures EndsAfterBackslash(path, BaseName(path))
  {}

  lemma {:induction false} BaseNameFollowsLastBackslash(path: string)
    ensures EndsAfterBackslash(path, BaseName(path))
  {
    hide BaseName, EndsAfterBackslash;
    if path != [] && path[|path| - 1] != '\\' {
      var shorter, last := path[..|path| - 1], path[|path| - 1];
      BaseNameFollowsLastBackslash(shorter);
      BaseNameGrows(path);
      LongerEnding(shorter, BaseName(shorter), last);
      assert path == shorter + [last];
    } else {
      NoBaseName(path);
    }
  }

  // ---- Searches -------------------------------------------------------------------

  function OwnerOf(sockets: seq<Socket>, port: Port): Pid {
    if sockets == [] then 0
    else if sockets[0].localPort == port then sockets[0].owner
    else OwnerOf(sockets[1..], port)
  }

  /** `pid` owns the first socket on the port, and is 0 if there is none. */
  ghost predicate OwnsFirst(sockets: seq<Socket>, port: Port, pid: Pid) {
    || (pid == 0 && forall i :: 0 <= i < |sockets| ==> sockets[i].localPort != port)
    || exists i :: 0 <= i < |sockets| && sockets[i].localPort == port && sockets[i].owner == pid
                   && forall j :: 0 <= j < i ==> sockets[j].localPort != port
  }

  lemma {:induction false} OwnerOwnsFirst(sockets: seq<Socket>, port: Port)
    ensures OwnsFirst(sockets, port, OwnerOf(sockets, port))
  {
    if sockets != [] && sockets[0].localPort != port {
      var rest := sockets[1..];
      OwnerOwnsFirst(rest, port);
      if i :| 0 <= i < |rest| && rest[i].localPort == port && rest[i].owner == OwnerOf(rest, port)
              && forall j :: 0 <= j < i ==> rest[j].localPort != port
      {
        assert sockets[i + 1] == rest[i];
        assert forall j :: 0 < j < i + 1 ==> sockets[j] == rest[j - 1];
      } else {
        assert forall i :: 0 < i < |sockets| ==> sockets[i] == rest[i - 1];
      }
    }
  }

  method FindPidBySourcePort(sockets: seq<Socket>, port: Port) returns (pid: Pid)
    ensures pid == OwnerOf(sockets, port)
    ensures OwnsFirst(sockets, port, pid)
  {
    OwnerOwnsFirst(sockets, port);
    hide OwnsFirst;
    for i := 0 to |sockets|
      invariant OwnerOf(sockets[i..], port) == OwnerOf(sockets, port)
    {
      if sockets[i].localPort == port {
        return sockets[i].owner;
      }
      assert sockets[i..][1..] == sockets[i + 1..];
    }
    return 0;
  }

  predicate RunsTarget(cfg: Config, ans: Answers, pid: Pid) {
    pid != 0 && pid != ans.ownPid && pid in ans.images
    && SamePath(BaseName(ans.images[pid]), BaseName(cfg.targetPath))
  }

  lemma RunsTargetIff(cfg: Config, ans: Answers, pid: Pid)
    ensures RunsTarget(cfg, ans, pid) <==>
            pid != 0 && pid != ans.ownPid && pid in ans.images
            && SamePath(BaseName(ans.images[pid]), BaseName(cfg.targetPath))
  {}

  /** `pid` is the first process of the list that runs the target program, 0 if none does. */
  ghost predicate IsFirstTarget(cfg: Config, ans: Answers, pid: Pid) {
    if pid == 0 then forall i :: 0 <= i < |ans.snapshot| ==> !RunsTarget(cfg, ans, ans.snapshot[i].id)
    else exists i :: 0 <= i < |ans.snapshot| && ans.snapshot[i].id == pid && RunsTarget(cfg, ans, pid)
                     && forall j :: 0 <= j < i ==> !RunsTarget(cfg, ans, ans.snapshot[j].id)
  }

  function TargetIn(cfg: Config, ans: Answers, from: nat): (pid: Pid)
    requires from <= |ans.snapshot|
    decreases |ans.snapshot| - from
  {
    if from == |ans.snapshot| then 0
    else if RunsTarget(cfg, ans, ans.snapshot[from].id) then ans.snapshot[from].id
    else TargetIn(cfg, ans, from + 1)
  }

  method FindTargetPid(cfg: Config, ans: Answers) returns (pid: Pid)
    ensures pid == TargetIn(cfg, ans, 0)
    ensures IsFirstTarget(cfg, ans, pid)
  {
    for i := 0 to |ans.snapshot|
      invariant TargetIn(cfg, ans, i) == TargetIn(cfg, ans, 0)
      invariant forall j :: 0 <= j < i ==> !RunsTarget(cfg, ans, ans.snapshot[j].id)
    {
      var id := ans.snapshot[i].id;
      if id == 0 || id == ans.ownPid || id !in ans.images {
        continue;
      }
      if SamePath(BaseName(ans.images[id]), BaseName(cfg.targetPath)) {
        return id;
      }
    }
    return 0;
  }

  // ---- The process tree -----------------------------------------------------------

  /** The parent recorded in the first entry for `pid`. */
  function ParentOf(snapshot: Snapshot, pid: Pid): Option<Pid> {
    if snapshot == [] then None
    else if snapshot[0].id == pid then Some(snapshot[0].parent)
    else ParentOf(snapshot[1..], pid)
  }

  /** The parent is the one of the first entry with the id, if there is an entry. */
  lemma {:induction false} ParentOfFirst(snapshot: Snapshot, pid: Pid)
    ensures match ParentOf(snapshot, pid)
            case None => forall i :: 0 <= i < |snapshot| ==> snapshot[i].id != pid
            case Some(q) => exists i :: 0 <= i < |snapshot| && snapshot[i] == Process(pid, q)
                                        && forall j :: 0 <= j < i ==> snapshot[j].id != pid
  {
    if snapshot != [] {
      var rest := snapshot[1..];
      if snapshot[0].id == pid {
        assert snapshot[0] == Process(pid, snapshot[0].parent);
      } else {
        ParentOfFirst(rest, pid);
        match ParentOf(rest, pid)
        case None =>
          assert forall i :: 0 < i < |snapshot| ==> snapshot[i] == rest[i - 1];
        case Some(q) =>
          var i :| 0 <= i < |rest| && rest[i] == Process(pid, q) && forall j :: 0 <= j < i ==> rest[j].id != pid;
          assert snapshot[i + 1] == rest[i];
          assert forall j :: 0 < j < i + 1 ==> snapshot[j] == rest[j - 1];
      }
    }
  }

  function Present(snapshot: Snapshot, pid: Pid): Option<Pid> {
    if pid != 0 && ParentOf(snapshot, pid).Some? then Some(pid) else None
  }

  /** The process `k` steps up from `pid`, as long as the chain of parents reaches that far. */
  function Link(snapshot: Snapshot, pid: Pid, k: nat): (r: Option<Pid>)
    ensures r.Some? ==> r.value != 0 && ParentOf(snapshot, r.value).Some?
  {
    if k == 0 then Present(snapshot, pid)
    else match Link(snapshot, pid, k - 1)
      case None => None
      case Some(q) => Present(snapshot, ParentOf(snapshot, q).value)
  }

  ghost predicate Reaches(snapshot: Snapshot, pid: Pid, target: Pid) {
    exists k: nat :: Link(snapshot, pid, k) == Some(target)
  }

  /** `target` is met at a distance of 0 to 9 on the chain of parents. */
  predicate InTree(snapshot: Snapshot, pid: Pid, target: Pid) {
    exists k :: 0 <= k < MAX_DEPTH && Link(snapshot, pid, k) == Some(target)
  }

  /** Every process of the path is listed and not 0, and each is followed by its parent. */
  ghost predicate IsAncestry(snapshot: Snapshot, path: seq<Pid>) {
    && (forall i :: 0 <= i < |path| ==> path[i] != 0 && ParentOf(snapshot, path[i]).Some?)
    && (forall i :: 0 < i < |path| ==> ParentOf(snapshot, path[i - 1]) == Some(path[i]))
  }

  lemma {:induction false} LinkOnAncestry(snapshot: Snapshot, path: seq<Pid>, k: nat)
    requires k < |path| && IsAncestry(snapshot, path)
    ensures Link(snapshot, path[0], k) == Some(path[k])
  {
    if k > 0 {
      LinkOnAncestry(snapshot, path, k - 1);
    }
  }

  lemma {:induction false} AncestryOfLink(snapshot: Snapshot, pid: Pid, k: nat) returns (path: seq<Pid>)
    requires Link(snapshot, pid, k).Some?
    ensures |path| == k + 1 && IsAncestry(snapshot, path)
    ensures path[0] == pid && path[k] == Link(snapshot, pid, k).value
  {
    if k == 0 {
      path := [pid];
    } else {
      var shorter := AncestryOfLink(snapshot, pid, k - 1);
      path := shorter + [Link(snapshot, pid, k).value];
    }
  }

  /** A target is in the tree exactly if a line of at most ten listed processes leads to it from
      the process, each followed by its parent. */
  lemma InTreeIffAncestry(snapshot: Snapshot, pid: Pid, target: Pid)
    ensures InTree(snapshot, pid, target) <==>
            exists path :: 1 <= |path| <= 10 && IsAncestry(snapshot, path)
                           && path[0] == pid && path[|path| - 1] == target
  {
    if InTree(snapshot, pid, target) {
      var k :| 0 <= k < MAX_DEPTH && Link(snapshot, pid, k) == Some(target);
      var path := AncestryOfLink(snapshot, pid, k);
      assert path[|path| - 1] == target;
    }
    if path :| 1 <= |path| <= 10 && IsAncestry(snapshot, path) && path[0] == pid && path[|path| - 1] == target {
      LinkOnAncestry(snapshot, path, |path| - 1);
    }
  }

  lemma {:induction false} LinkStaysNone(snapshot: Snapshot, pid: Pid, k: nat, m: nat)
    requires k <= m && Link(snapshot, pid, k).None?
    ensures Link(snapshot, pid, m).None?
    decreases m
  {
    if k < m {
      LinkStaysNone(snapshot, pid, k, m - 1);
    }
  }

  /** The bounded walk up the parents, over any snapshot, parents that form a cycle included. */
  method WalkTree(snapshot: Snapshot, pid: Pid, target: Pid) returns (hit: bool)
    ensures hit <==> InTree(snapshot, pid, target)
  {
    var currentPid, depth := pid, 0;
    while currentPid != 0 && depth < MAX_DEPTH
      invariant 0 <= depth <= MAX_DEPTH
      invariant forall k :: 0 <= k < depth ==> Link(snapshot, pid, k) != Some(target)
      invariant depth < MAX_DEPTH ==> Link(snapshot, pid, depth) == Present(snapshot, currentPid)
      decreases MAX_DEPTH - depth
    {
      var found := false;
      for i := 0 to |snapshot|
        invariant !found && ParentOf(snapshot[i..], currentPid) == ParentOf(snapshot, currentPid)
      {
        assert snapshot[i..][1..] == snapshot[i + 1..];
        if snapshot[i].id == currentPid {
          if snapshot[i].id == target {
            assert Link(snapshot, pid, depth) == Some(target);
            return true;
          }
          currentPid := snapshot[i].parent;
          found := true;
          depth := depth + 1;
          break;
        }
      }
      if !found {
        break;
      }
    }
    if depth < MAX_DEPTH {
      forall k | depth <= k < MAX_DEPTH
        ensures Link(snapshot, pid, k).None?
      {
        LinkStaysNone(snapshot, pid, depth, k);
      }
    }
    return false;
  }

  lemma {:induction false} LinkShift(snapshot: Snapshot, pid: Pid, i: nat, j: nat, n: nat)
    requires Link(snapshot, pid, i) == Link(snapshot, pid, j)
    ensures Link(snapshot, pid, i + n) == Link(snapshot, pid, j + n)
    decreases n
  {
    if n > 0 {
      LinkShift(snapshot, pid, i, j, n - 1);
      assert Link(snapshot, pid, i + (n - 1)) == Link(snapshot, pid, j + (n - 1));
    }
  }

  lemma {:induction false} ParentMember(snapshot: Snapshot, pid: Pid)
    requires ParentOf(snapshot, pid).Some?
    ensures exists i :: 0 <= i < |snapshot| && snapshot[i].id == pid
  {
    if snapshot[0].id != pid {
      ParentMember(snapshot[1..], pid);
      var i :| 0 <= i < |snapshot[1..]| && snapshot[1..][i].id == pid;
      assert snapshot[i + 1].id == pid;
    }
  }

  lemma {:induction false} IdsBound(snapshot: Snapshot)
    ensures |Ids(snapshot)| <= |snapshot|
  {
    if snapshot == [] {
      assert Ids(snapshot) == {};
    } else {
      IdsBound(snapshot[1..]);
      assert Ids(snapshot) == Ids(snapshot[1..]) + {snapshot[0].id} by {
        assert snapshot == [snapshot[0]] + snapshot[1..];
      }
    }
  }

  ghost function LinksUpTo(snapshot: Snapshot, pid: Pid, k: nat): set<Pid>
    requires Link(snapshot, pid, k).Some?
    decreases k
  {
    {Link(snapshot, pid, k).value} +
    if k == 0 then {}
    else (LinkStaysNoneContra(snapshot, pid, k); LinksUpTo(snapshot, pid, k - 1))
  }

  lemma LinkStaysNoneContra(snapshot: Snapshot, pid: Pid, k: nat)
    requires k > 0 && Link(snapshot, pid, k).Some?
    ensures Link(snapshot, pid, k - 1).Some?
  {}

  lemma {:induction false} LinksUpToAre(snapshot: Snapshot, pid: Pid, k: nat, q: Pid)
    requires Link(snapshot, pid, k).Some? && q in LinksUpTo(snapshot, pid, k)
    ensures exists j :: 0 <= j <= k && Link(snapshot, pid, j) == Some(q)
  {
    if Link(snapshot, pid, k) != Some(q) {
      LinksUpToAre(snapshot, pid, k - 1, q);
    }
  }

  ghost function Ids(snapshot: Snapshot): set<Pid> {
    set p | p in snapshot :: p.id
  }

  lemma LinkIsKnown(snapshot: Snapshot, pid: Pid, k: nat)
    requires Link(snapshot, pid, k).Some?
    ensures Link(snapshot, pid, k).value in Ids(snapshot)
  {
    var q := Link(snapshot, pid, k).value;
    ParentMember(snapshot, q);
    var i :| 0 <= i < |snapshot| && snapshot[i].id == q;
    assert snapshot[i] in snapshot;
  }

  lemma NoRepetition(snapshot: Snapshot, pid: Pid, k: nat, first: nat, target: Pid)
    requires 0 < k <= first && Link(snapshot, pid, k).Some? && Link(snapshot, pid, first) == Some(target)
    requires forall j :: 0 <= j < first ==> Link(snapshot, pid, j) != Some(target)
    ensures Link(snapshot, pid, k - 1).Some?
    ensures Link(snapshot, pid, k).value !in LinksUpTo(snapshot, pid, k - 1)
  {
    LinkStaysNoneContra(snapshot, pid, k);
    var q := Link(snapshot, pid, k).value;
    hide Link, LinksUpTo;
    if q in LinksUpTo(snapshot, pid, k - 1) {
      LinksUpToAre(snapshot, pid, k - 1, q);
      var j :| 0 <= j <= k - 1 && Link(snapshot, pid, j) == Some(q);
      LinkShift(snapshot, pid, j, k, first - k);
      assert false;
    }
  }

  /** Up to the first meeting with `target` no process occurs twice on the chain. */
  lemma {:induction false} LinksUpToSize(snapshot: Snapshot, pid: Pid, k: nat, first: nat, target: Pid)
    requires k <= first && Link(snapshot, pid, k).Some? && Link(snapshot, pid, first) == Some(target)
    requires forall j :: 0 <= j < first ==> Link(snapshot, pid, j) != Some(target)
    ensures |LinksUpTo(snapshot, pid, k)| == k + 1
    ensures LinksUpTo(snapshot, pid, k) <= Ids(snapshot)
  {
    hide Link, Ids;
    LinkIsKnown(snapshot, pid, k);
    if k > 0 {
      NoRepetition(snapshot, pid, k, first, target);
      LinksUpToSize(snapshot, pid, k - 1, first, target);
    }
  }

  /** On a snapshot of at most ten processes the depth bound loses nothing. */
  lemma DepthBoundLosesNothing(snapshot: Snapshot, pid: Pid, target: Pid)
    requires |snapshot| <= MAX_DEPTH
    ensures InTree(snapshot, pid, target) <==> Reaches(snapshot, pid, target)
  {
    if Reaches(snapshot, pid, target) {
      var k: nat :| Link(snapshot, pid, k) == Some(target);
      var first := FirstMeeting(snapshot, pid, target, k);
      LinksUpToSize(snapshot, pid, first, first, target);
      IdsBound(snapshot);
      SubsetSize(LinksUpTo(snapshot, pid, first), Ids(snapshot));
    }
  }

  lemma {:induction false} FirstMeeting(snapshot: Snapshot, pid: Pid, target: Pid, k: nat) returns (first: nat)
    requires Link(snapshot, pid, k) == Some(target)
    ensures Link(snapshot, pid, first) == Some(target)
    ensures forall j :: 0 <= j < first ==> Link(snapshot, pid, j) != Some(target)
  {
    first := k;
    if j :| 0 <= j < k && Link(snapshot, pid, j) == Some(target) {
      first := FirstMeeting(snapshot, pid, target, j);
    }
  }

  lemma {:induction false} SubsetSize<T>(a: set<T>, b: set<T>)
    requires a <= b
    ensures |a| <= |b|
  {
    if a != {} {
      var x :| x in a;
      SubsetSize(a - {x}, b - {x});
    }
  }

  /** Eleven processes, each the child of the next one. */
  const Eleven: Snapshot := seq(11, (i: nat) => Process(i + 1, i + 2))

  lemma {:induction false} ElevenParents(from: nat, pid: Pid)
    requires from < pid <= 11
    ensures ParentOf(Eleven[from..], pid) == Some(pid + 1)
    decreases 11 - from
  {
    assert Eleven[from..][0].id == from + 1;
    if pid != from + 1 {
      ElevenParents(from + 1, pid);
      assert Eleven[from..][1..] == Eleven[from + 1..];
    }
  }

  lemma {:induction false} ElevenLinks(k: nat)
    requires k <= 10
    ensures Link(Eleven, 1, k) == Some(k + 1)
  {
    ElevenParents(0, k + 1);
    assert Eleven[0..] == Eleven;
    if k > 0 {
      ElevenLinks(k - 1);
      ElevenParents(0, k);
    }
  }

  /** With eleven processes it can lose one: the tenth ancestor is not recognised. */
  lemma DepthBoundLosesTenthAncestor()
    ensures |Eleven| == 11 && Reaches(Eleven, 1, 11) && !InTree(Eleven, 1, 11)
  {
    ElevenLinks(10);
    forall k | 0 <= k < MAX_DEPTH
      ensures Link(Eleven, 1, k) != Some(11)
    {
      ElevenLinks(k);
    }
  }

  // ---- The decision ---------------------------------------------------------------

  /** The owner is known, is not the redirector itself, and its image path can be read. */
  predicate Identified(port: Port, ans: Answers) {
    var pid := OwnerOf(ans.sockets, port);
    pid != 0 && pid != ans.ownPid && pid in ans.images
  }

  predicate OwnerIsTarget(cfg: Config, port: Port, ans: Answers) {
    Identified(port, ans) && SamePath(ans.images[OwnerOf(ans.sockets, port)], cfg.targetPath)
  }

  /** The rule engine says so, or says nothing and the owner is the target program or one of
      its descendants. */
  predicate ProxyWanted(cfg: Config, targetPid: Pid, port: Port, ans: Answers)
    requires Identified(port, ans)
  {
    match ans.verdict
    case EngineProxy => true
    case EngineBlock => false
    case _ =>
      || OwnerIsTarget(cfg, port, ans)
      || (targetPid != 0 && InTree(ans.snapshot, OwnerOf(ans.sockets, port), targetPid))
  }

  function Decide(cfg: Config, targetPid: Pid, port: Port, ans: Answers): Action {
    if !Identified(port, ans) then Direct
    else if ans.verdict == EngineBlock then Block
    else if cfg.proxyConfigured && ProxyWanted(cfg, targetPid, port, ans) then Proxy
    else Direct
  }

  /** When no rule and no path decides, the answer is proxy exactly when a proxy is configured
      and the target is met at distance 0 to 9 on the chain of first-match parents; so what
      is proxied this way is the target process or a descendant of it. */
  lemma ProxiedByDescent(cfg: Config, targetPid: Pid, port: Port, ans: Answers)
    requires Identified(port, ans) && ans.verdict in {NoEngine, EngineDirect} && !OwnerIsTarget(cfg, port, ans)
    ensures Decide(cfg, targetPid, port, ans) == Proxy <==>
            cfg.proxyConfigured && InTree(ans.snapshot, OwnerOf(ans.sockets, port), targetPid)
    ensures Decide(cfg, targetPid, port, ans) == Proxy ==>
              Reaches(ans.snapshot, OwnerOf(ans.sockets, port), targetPid)
    ensures |ans.snapshot| <= 10 ==>
              (Decide(cfg, targetPid, port, ans) == Proxy <==>
               cfg.proxyConfigured && Reaches(ans.snapshot, OwnerOf(ans.sockets, port), targetPid))
  {
    var owner := OwnerOf(ans.sockets, port);
    ZeroIsInNoTree(ans.snapshot, owner);
    if |ans.snapshot| <= 10 {
      DepthBoundLosesNothing(ans.snapshot, owner, targetPid);
    }
  }

  lemma ZeroIsInNoTree(snapshot: Snapshot, pid: Pid)
    ensures !InTree(snapshot, pid, 0)
  {}

  /** The target process remembered after the decision. */
  function Remember(cfg: Config, targetPid: Pid, port: Port, ans: Answers): Pid {
    if OwnerOf(ans.sockets, port) == 0 then
      if targetPid == 0 && cfg.targetPath != [] then TargetIn(cfg, ans, 0) else targetPid
    else if OwnerIsTarget(cfg, port, ans) && ans.verdict in {NoEngine, EngineDirect} then
      OwnerOf(ans.sockets, port)
    else targetPid
  }

  /** The decision and the remembered target, case by case. */
  lemma DecisionTable(cfg: Config, targetPid: Pid, port: Port, ans: Answers)
    ensures var pid := OwnerOf(ans.sockets, port);
            var proxied := if cfg.proxyConfigured then Proxy else Direct;
            Decide(cfg, targetPid, port, ans) ==
              if pid == 0 then Direct                                  // no owner
              else if pid == ans.ownPid then Direct                    // the redirector itself
              else if pid !in ans.images then Direct                   // unreadable image path
              else if ans.verdict == EngineBlock then Block
              else if ans.verdict == EngineProxy then proxied
              else if SamePath(ans.images[pid], cfg.targetPath) then proxied
              else if targetPid != 0 && InTree(ans.snapshot, pid, targetPid) then proxied
              else Direct
    ensures var pid := OwnerOf(ans.sockets, port);
            Remember(cfg, targetPid, port, ans) ==
              if pid == 0 then
                if targetPid == 0 && cfg.targetPath != [] then TargetIn(cfg, ans, 0) else targetPid
              else if pid == ans.ownPid || pid !in ans.images then targetPid
              else if ans.verdict == EngineBlock || ans.verdict == EngineProxy then targetPid
              else if SamePath(ans.images[pid], cfg.targetPath) then pid
              else targetPid
  {}

  method CheckProcessRule(cfg: Config, targetPid: Pid, port: Port, ans: Answers)
    returns (action: Action, newTarget: Pid)
    ensures action == Decide(cfg, targetPid, port, ans)
    ensures newTarget == Remember(cfg, targetPid, port, ans)
  {
    newTarget := targetPid;
    var pid := FindPidBySourcePort(ans.sockets, port);
    if pid == 0 {
      if targetPid == 0 && cfg.targetPath != [] {
        var newPid := FindTargetPid(cfg, ans);
        if newPid != 0 {
          newTarget := newPid;
        }
      }
      return Direct, newTarget;
    }
    if pid == ans.ownPid {
      return Direct, newTarget;
    }
    if pid !in ans.images {
      return Direct, newTarget;
    }
    var procPath := ans.images[pid];
    if ans.verdict != NoEngine {
      if ans.verdict == EngineBlock {
        return Block, newTarget;
      }
      if ans.verdict == EngineProxy {
        if !cfg.proxyConfigured {
          return Direct, newTarget;
        }
        return Proxy, newTarget;
      }
    }
    if SamePath(procPath, cfg.targetPath) {
      newTarget := pid;
      if !cfg.proxyConfigured {
        return Direct, newTarget;
      }
      return Proxy, newTarget;
    }
    if targetPid != 0 {
      var hit := WalkTree(ans.snapshot, pid, targetPid);
      if hit {
        if !cfg.proxyConfigured {
          return Direct, newTarget;
        }
        return Proxy, newTarget;
      }
    }
    return Direct, newTarget;
  }
}
