# Verified model of TcpRedirector

A Dafny model of the three pieces of TcpRedirector that carry its guarantees, with proofs.
`dafny verify dfyconfig.toml` checks everything.

**The packet redirector.** `CaptureLoop` turns a Windows machine into a NAT of its own: TCP packets
of chosen processes are rewritten towards a local relay and the relay's answers are rewritten
back. `Packets` has the rewrites, `PortBitmaps` and `ConnectionTable.dfy` the two data structures with
their real layout (bit words, hashed chains), `ProcessRules` the decision, `Redirector` one iteration as a
step over abstract state and whole runs of it. `CaptureEngine` is the loop itself, on mutable
bitmaps, buckets, counters and a packet buffer rewritten in place, proved to be that step. The laws are
in `Agreement` (cache and table), `ModeMachine` (the cache refines one map), `NatTransparency`
(while a flow is open its client cannot tell) and `Ledger` (bytes and packets are conserved).

**The auth agent.** `Base64Tables`, `Base64` and `Base64Laws` treat the codec with its three-byte buffer
and its never-masked 32-bit accumulator. `AuthProtocol` is the agent as a state machine, `AuthAgent`
the objects (engine, context store, dispatcher) proved to be that machine, `AuthLaws` handle
conservation and the life of an id, `AuthReplies` what each request answers, leaves behind and asks of the
security package.

**Bit arithmetic** of the vendored Boost header: `Popcount32`, `Popcount64`, `ZeroCounts`,
`PowersOfTwo`, `Rotations`, `ByteSwap`, on `Powers`. Each fast form is proved equal to a one-line definition.

## How the model reads the source

- There are two copies of `WinDivertCapture.cpp`: the one at the top of the repository and a newer one
  under `src/service`. The newer one adds a rule engine (which can block) and traffic totals. The
  model has both features; the verdict `NoEngine` and `hasTable` give the older behaviour, where
  nothing is ever blocked. Rows about the loop cite the older copy where the two agree.
- What the operating system, the rule engine and the security package answer is an input of each step, and
  every answer is possible: socket lists, process snapshots with cycles, image paths, verdicts,
  status codes and tokens. Received packets are an input sequence, sent packets an output sequence.
- Addresses and ports are host-order numbers. "Recomputed" on a sent packet stands for the
  checksum call. Integer widths are explicit where they matter: the bit words, the decoder's wrapping
  accumulator, everything from the Boost header. A rotation amount is the bit pattern of a C++ `int`.
- The configured target path and the relay port do not change during a run. A reopening clears the bitmaps and
  keeps the table, as `Open` does, and may occur anywhere in a run.

## Where code and documents disagree

The model follows the code.

- A comment at `WinDivertCapture.cpp:393-395` promises that a connection with an unknown owner is checked again
  on its next packet. Its port has been marked direct by then; only an outbound FIN or RST is checked again
  (`Agreement.UnknownOwnerIsNotRechecked`).
- A FIN or RST of a direct port clears its bits, and the same packet then goes through the process rules, which may
  mark the port direct again: `Agreement.DirectUntilClosed` gives the exact condition.
- The connection table's `Add` matches on port and destination, every other operation on the port alone.
  Two destinations on one port would leave a hidden entry (`ConnectionTables.SecondDestinationResurfaces`,
  `ConnectionTables.DeleteForgetsIff`, `ConnectionTables.AddedIsFoundIff`). The loop only adds untracked ports, so it never happens there:
  `CaptureEngine.CaptureEngine` keeps the table a map.
- Descendants of the target are recognised up to the ninth ancestor only
  (`ProcessRules.DepthBoundLosesTenthAncestor`); on ten processes or fewer nothing is lost.
- A client packet of a tracked port that goes to another destination port is redirected all the same, and the reply then
  carries the recorded port, not the one addressed: `NatTransparency.ReplyReachesClientAsFromDestination`
  states transparency as an equivalence with that port, `NatTransparency.SecondPortIsAnsweredFromFirst` shows the case.
- `docs/ARCHITECTURE_EN.md:51` and `:173` give contexts five minutes to live, the code 1800 seconds.
- After the first FIN or RST of either side the entry is gone, and what the relay still sends reaches the client from
  the relay port (`NatTransparency.ReplyAfterCloseIsNotRestored`). `NatTransparency.ReplyIsTransparentIff` gives the exact
  condition in every state.
- `docs/DEVELOPER_EN.md:130` says that only SYN packets are intercepted. The code rewrites every packet of a tracked flow, and
  its process rules see every outbound packet of a port that is neither tracked nor direct, and an outbound FIN or RST of
  a direct one.

## Model

| member | source | states |
|---|---|---|
| NatTransparency.ReplyReachesClientAsFromDestination | WinDivertCapture.cpp:247-347 | For a client packet A:p to B:d that is redirected, any packets or reopenings in between that do not close p's flow, and a relay reply that mirrors what the relay received: what the client gets is addressed B:d to A:p exactly when d is the port recorded for p (always so for the packet that opened the flow), in the swapped and the loopback case; nothing else of the reply changes and checksums are recomputed |
| NatTransparency.ForwardIsRewritten | WinDivertCapture.cpp:273-337 | A redirected client packet leaves with new checksums, its own source port, the relay port as destination, and, unless both addresses lie in 127.0.0.0/8, its addresses exchanged and marked inbound; an opening packet records its destination port, a later one keeps the recorded port |
| NatTransparency.RewritesOfRun | WinDivertCapture.cpp:247-337 | In every run, field by field: each packet that leaves its flow redirected goes out towards the relay and each relay reply to a tracked port with the recorded port, both with recomputed checksums; loopback pairs keep addresses and direction, all others are exchanged and inbound |
| NatTransparency.ReplyIsRestored | WinDivertCapture.cpp:248-257 | A relay reply to a tracked port always reaches the second branch and leaves with the recorded port put back |
| NatTransparency.ReplyIsTransparentIff | WinDivertCapture.cpp:247-271 | In every reachable state, without any hypothesis on the run: the relay's answer to a client packet A:p to B:d is delivered as B:d to A:p if and only if p is tracked with d as the recorded port; to an untracked port it is delivered as the relay sent it |
| NatTransparency.ReplyAfterCloseIsNotRestored | WinDivertCapture.cpp:258-290 | After the first FIN or RST of a flow, from either side, whatever the relay still answers leaves unrestored, from the relay port, over every run in which the port itself sends nothing |
| NatTransparency.SecondPortIsAnsweredFromFirst | WinDivertCapture.cpp:272-297 | A concrete run: a port tracked to 443 that addresses port 80 is redirected all the same and answered from 443 |
| Packets.ToRelayFields | WinDivertCapture.cpp:478-496 | What the forward rewrite does to each field: destination port, addresses and direction; two addresses from 0x7F000000 to 0x7FFFFFFF stay in place, any others are exchanged and the packet is inbound |
| Packets.FromRelayFields | WinDivertCapture.cpp:498-517 | What the reply rewrite does to each field: source port, addresses and direction, with the same loopback range |
| Packets.ReplyUndoesForward | WinDivertCapture.cpp:478-517 | The reply rewrite undoes the forward rewrite if and only if the port put back is the one the client addressed; flags and payload are untouched; only a loopback reply can stay outbound |
| ModeMachine.CacheRefinesModes | WinDivertCapture.cpp:231-347 | For every sequence of packets, every answer of the operating system and every reopening, the loop over two bitmaps and a table sends the same packets as one map from ports to passing or redirected, and its state abstracts to that map |
| ModeMachine.RefinesStep | WinDivertCapture.cpp:206-359 | One iteration refines one step of the simple machine: same output, same abstract state |
| ModeMachine.DecidedBitmapIsRedundant | WinDivertCapture.cpp:231-242 | Two states that differ only in the decided bitmap and the counters send the same packets forever |
| Agreement.CacheAgreesWithTable | WinDivertCapture.cpp:231-332 | In every state reached from an empty start: direct implies decided and untracked; the relay port is never decided, direct or tracked; without a reopening tracked implies decided; without a block as well, tracked is exactly decided and not direct |
| Agreement.CacheCoversTable | WinDivertCapture.cpp:299-332 | From any such state, packets alone keep every tracked port decided, and keep tracked equal to decided minus direct as long as nothing is blocked |
| Agreement.OtherFlowsDoNotInterfere | WinDivertCapture.cpp:231-347 | A packet that neither comes from port p nor is a relay reply to p changes nothing about p: not its bits, not its entry, not its counters |
| Agreement.TrackedUntilClosed | WinDivertCapture.cpp:247-297 | A tracked port is forgotten by one input if and only if that input is a FIN or RST of its flow from either side; otherwise its recorded destination stays |
| Agreement.TrackedThroughRun | WinDivertCapture.cpp:247-297 | Over any run without a closing packet of the flow the port stays tracked with the destination first recorded |
| Agreement.OpenedByDecision | WinDivertCapture.cpp:298-337 | A port becomes tracked if and only if an outbound packet of its own goes through the process rules and they say proxy; the entry holds that packet's source port, source address, destination address and destination port, with counters at 0 |
| Agreement.OpenedThroughRun | WinDivertCapture.cpp:323-337 | From the packet that opened a flow until a packet closes it, over every run, the table yields for the port the source address, destination address and destination port of that packet |
| Agreement.SettledByDecision | WinDivertCapture.cpp:298-322 | A port becomes direct if and only if an outbound packet of its own goes through the process rules and they say direct, and that packet passes unchanged; it becomes decided if and only if a packet of its own goes through them |
| Agreement.EitherFlagCloses | WinDivertCapture.cpp:258-290 | In the packet's fields: a tracked port is forgotten if and only if a nonempty TCP packet from it, or from the relay port to it, carries FIN or RST |
| Agreement.EitherFlagEndsDirect | WinDivertCapture.cpp:231-245 | In the packet's fields: a direct port stops being direct if and only if the capture is reopened or a packet of it carries FIN or RST and is not at once decided direct |
| Agreement.OtherInputsChangeNothing | WinDivertCapture.cpp:206-224 | An empty or non-TCP packet changes no state; a reopening empties both bitmaps and leaves table, remembered target and counters alone |
| Agreement.CountedAndRemembered | WinDivertCapture.cpp:226-310 | Every nonempty TCP packet is counted once; the remembered target changes only with a packet that goes through the process rules |
| Agreement.DirectUntilClosed | WinDivertCapture.cpp:231-245 | A direct port stops being direct if and only if the capture is reopened, or on a FIN or RST of its own that is not at once decided direct again; every other packet of it passes unchanged |
| Agreement.DirectThroughRun | WinDivertCapture.cpp:231-245 | Over any run without a reopening and without a FIN or RST of the port, a direct port stays direct and each of its packets is sent unchanged |
| Agreement.UnknownOwnerIsNotRechecked | WinDivertCapture.cpp:384-397 | After a packet whose owner is unknown and any packets that neither close the connection nor reopen the capture, the next packet of the port goes through the process rules if and only if it is an outbound FIN or RST; every other packet passes unchanged, whatever the system would answer then. The comment at lines 393-395 says otherwise |
| Ledger.EntryCountsItsFlow | WinDivertCapture.cpp:254-297 | While a flow is open its entry has counted exactly the bytes its port sent and the relay sent to it since |
| Ledger.LedgerBalances | src/service/TcpRedirectorService/infrastructure/capture/WinDivertCapture.cpp:333-410 | From an empty start, live counters plus totals of finished connections equal the bytes of every packet handled for a redirected flow, in each direction; redirects emitted equal live entries plus removals |
| Ledger.SentStep | WinDivertCapture.cpp:206-359 | An input makes the loop send if and only if it is a nonempty packet that is not blocked; what is sent has the received payload and flags, and recomputed checksums if any header field changed |
| Ledger.EveryPacketIsSentOnce | WinDivertCapture.cpp:206-359 | If no rule blocks, the packets sent over a run are the nonempty packets received, one for one and in order |
| Ledger.OnlyBlockedPacketsAreDropped | src/service/TcpRedirectorService/infrastructure/capture/WinDivertCapture.cpp:558-577 | In every run from an empty start, a nonempty packet is not sent if and only if the rules block it at that point |
| PortBitmaps.UpdateMember | src/service/TcpRedirectorService/infrastructure/capture/WinDivertCapture.h:128-150 | Setting or clearing the bit of p in 2048 words changes the membership of p and of no other port |
| PortBitmaps.UpdateMembers | src/service/TcpRedirectorService/infrastructure/capture/WinDivertCapture.h:128-150 | As sets of ports: setting adds exactly p, clearing removes exactly p |
| PortBitmaps.PortBitmaps.Reset | WinDivertCapture.cpp:153-155 | Both sets become empty |
| PortBitmaps.PortBitmaps.IsPortDecided | src/service/TcpRedirectorService/infrastructure/capture/WinDivertCapture.h:128-150 | True exactly for the members of the decided set |
| PortBitmaps.PortBitmaps.IsPortDirect | src/service/TcpRedirectorService/infrastructure/capture/WinDivertCapture.h:128-150 | True exactly for the members of the direct set |
| PortBitmaps.PortBitmaps.SetPortDirect | src/service/TcpRedirectorService/infrastructure/capture/WinDivertCapture.h:128-150 | Adds the port to both sets |
| PortBitmaps.PortBitmaps.SetPortDecided | src/service/TcpRedirectorService/infrastructure/capture/WinDivertCapture.h:128-150 | Adds the port to the decided set and leaves the direct set alone |
| PortBitmaps.PortBitmaps.ClearPort | src/service/TcpRedirectorService/infrastructure/capture/WinDivertCapture.h:128-150 | Removes the port from both sets |
| ConnectionTables.DeleteForgetsIff | src/service/TcpRedirectorService/infrastructure/relay/ConnectionTable.h:165-184 | Removing a port makes it untracked if and only if it had at most one entry: removal unlinks only the first match |
| ConnectionTables.SecondDestinationResurfaces | src/service/TcpRedirectorService/infrastructure/relay/ConnectionTable.h:69-104 | Insertion matches on port and destination address, so a second destination hides the first, and removing the port brings the first back |
| ConnectionTables.FindIsFirst | src/service/TcpRedirectorService/infrastructure/relay/ConnectionTable.h:107-125 | Looking up a port yields its first tracked entry, and nothing exactly if there is none |
| ConnectionTables.InsertRenewsOrPrepends | src/service/TcpRedirectorService/infrastructure/relay/ConnectionTable.h:69-104 | Adding a key that is present renews, in its first entry alone, source address and destination port and keeps the counters; a new key is put in front with counters at 0 |
| ConnectionTables.DeleteUnlinksFirst | src/service/TcpRedirectorService/infrastructure/relay/ConnectionTable.h:165-184 | Removing a port unlinks its first entry and no other |
| ConnectionTables.BumpCountsFirst | src/service/TcpRedirectorService/infrastructure/relay/ConnectionTable.h:226-242 | Counting adds to the first tracked entry of the port, upstream and downstream apart, and changes no other |
| ConnectionTables.AddedIsFoundIff | src/service/TcpRedirectorService/infrastructure/relay/ConnectionTable.h:69-104 | Looking up a port right after adding an entry yields an entry with the added destination address if and only if that key is new or was the one found before: a hidden key stays hidden |
| ConnectionTables.AddToMap | src/service/TcpRedirectorService/infrastructure/relay/ConnectionTable.h:69-104 | Adding an untracked port to a table with one entry per port adds exactly that entry |
| ConnectionTables.RemoveFromMap | src/service/TcpRedirectorService/infrastructure/relay/ConnectionTable.h:165-184 | In such a table removal deletes exactly the port, and finds something exactly when the port was tracked |
| ConnectionTables.BumpInMap | src/service/TcpRedirectorService/infrastructure/relay/ConnectionTable.h:226-242 | In such a table counting bytes changes the counters of that port only |
| ConnectionTables.InsertInChain | src/service/TcpRedirectorService/infrastructure/relay/ConnectionTable.h:69-104 | The walk of a bucket overwrites the first entry with the same port and destination, keeping its counters, or else prepends |
| ConnectionTables.FindInChain | src/service/TcpRedirectorService/infrastructure/relay/ConnectionTable.h:107-125 | The walk yields the first tracked entry of the port, or nothing |
| ConnectionTables.DeleteFromChain | src/service/TcpRedirectorService/infrastructure/relay/ConnectionTable.h:165-184 | The walk unlinks the first entry of the port, tracked or not, and reports whether there was one |
| ConnectionTables.BumpInChain | src/service/TcpRedirectorService/infrastructure/relay/ConnectionTable.h:226-242 | The walk adds to the counters of the first tracked entry of the port |
| ConnectionTables.ConnectionTable.Add | src/service/TcpRedirectorService/infrastructure/relay/ConnectionTable.h:69-104 | The bucket becomes the insertion, the counter grows exactly on a new key; an untracked port added to a map extends the map, its size staying the counter |
| ConnectionTables.ConnectionTable.Get | src/service/TcpRedirectorService/infrastructure/relay/ConnectionTable.h:107-125 | Reports exactly what the table holds for the port |
| ConnectionTables.ConnectionTable.IsTracked | src/service/TcpRedirectorService/infrastructure/relay/ConnectionTable.h:147-162 | True exactly for the ports of the table |
| ConnectionTables.ConnectionTable.Remove | src/service/TcpRedirectorService/infrastructure/relay/ConnectionTable.h:165-184 | The bucket becomes the deletion, the counter drops when something was found and never below zero; a map loses exactly the port |
| ConnectionTables.ConnectionTable.AddBytes | src/service/TcpRedirectorService/infrastructure/relay/ConnectionTable.h:226-242 | Adds to the counters of a tracked port of a map and changes nothing otherwise |
| ProcessRules.FindPidBySourcePort | WinDivertCapture.cpp:529-550 | The owner of the first socket whose port equals the given one; 0 if no socket has it |
| ProcessRules.OwnerOwnsFirst | WinDivertCapture.cpp:542-549 | Either no socket is on the port and the answer is 0, or it is the owner of a socket on exactly that port with none on it before |
| ProcessRules.SamePathIff | WinDivertCapture.cpp:426-427 | Two paths are the same if and only if they have the same length and differ at most in ASCII case |
| ProcessRules.BaseNameFollowsLastBackslash | WinDivertCapture.cpp:571-575 | The file name is the longest ending of the path without a backslash |
| ProcessRules.ParentOfFirst | WinDivertCapture.cpp:444-460 | The parent of a process is the one in the first snapshot entry with its id, and unknown exactly if there is no entry |
| ProcessRules.InTreeIffAncestry | WinDivertCapture.cpp:437-470 | The target is recognised if and only if a line of at most ten listed, nonzero processes leads to it from the owner, each followed by its parent |
| ProcessRules.DecisionTable | src/service/TcpRedirectorService/infrastructure/capture/WinDivertCapture.cpp:504-628 | The decision and the remembered target case by case: no owner, the redirector itself, unreadable path, blocked by a rule, proxied by a rule, the target's own path, a descendant, each with and without a proxy |
| ProcessRules.FindTargetPid | WinDivertCapture.cpp:552-584 | The first process of the snapshot that is not 0 or the redirector, can be opened and has the target's file name; 0 exactly if there is none |
| ProcessRules.WalkTree | WinDivertCapture.cpp:437-470 | For every snapshot, cyclic parents included, the nested search ends and hits if and only if the target occurs at distance 0 to 9 on the chain of first-match parents |
| ProcessRules.ProxiedByDescent | WinDivertCapture.cpp:437-473 | When neither a rule nor the path decides: proxy if and only if a proxy is configured and the target is within distance 9; hence only the target and its descendants; and on at most ten processes exactly those |
| ProcessRules.DepthBoundLosesNothing | WinDivertCapture.cpp:437-470 | On a snapshot of at most ten processes the depth limit recognises every descendant |
| ProcessRules.DepthBoundLosesTenthAncestor | WinDivertCapture.cpp:440-442 | With eleven processes in a line the tenth ancestor is reachable but not recognised |
| ProcessRules.CheckProcessRule | src/service/TcpRedirectorService/infrastructure/capture/WinDivertCapture.cpp:504-628 | The source's sequence of checks yields the answer and the remembered target of the case table (see DecisionTable) |
| CaptureEngine.PacketBuffer.SwapIpAndDirection | src/service/TcpRedirectorService/infrastructure/capture/WinDivertCapture.h:180-185 | Exchanges the addresses and makes the packet inbound; ports, flags and payload stay |
| CaptureEngine.PacketBuffer.ModifyDstToRelay | WinDivertCapture.cpp:478-496 | In place: relay port as destination, addresses exchanged and inbound unless both are loopback (see ToRelayFields) |
| CaptureEngine.PacketBuffer.RestoreFromRelay | WinDivertCapture.cpp:498-517 | The buffer becomes the restored reply, with the recorded port if the table has one |
| CaptureEngine.CaptureEngine.FinishConnection | src/service/TcpRedirectorService/infrastructure/capture/WinDivertCapture.cpp:363-382 | Adds the entry's bytes to the totals, drops the entry and clears both bits |
| CaptureEngine.CaptureEngine.HandleRelayReply | WinDivertCapture.cpp:247-271 | The second branch on the real bitmaps, table and buffer is the abstract step |
| CaptureEngine.CaptureEngine.HandleTracked | WinDivertCapture.cpp:272-297 | The third branch is the abstract step |
| CaptureEngine.CaptureEngine.HandleUntracked | WinDivertCapture.cpp:298-347 | The fourth branch: direct sets both bits, block the decided bit, proxy adds the entry with the packet's own destination and rewrites it (fields in OpenedByDecision and ToRelayFields) |
| CaptureEngine.CaptureEngine.ProcessPacket | WinDivertCapture.cpp:226-347 | One iteration on a TCP packet is the abstract step, fast path included |
| CaptureEngine.CaptureEngine.Reopen | WinDivertCapture.cpp:150-160 | Clears the bitmaps and keeps the table |
| CaptureEngine.CaptureEngine.Iterate | WinDivertCapture.cpp:200-359 | One iteration on anything received, empty and non-TCP packets included, is the abstract step |
| CaptureEngine.CaptureEngine.CaptureLoop | WinDivertCapture.cpp:181-365 | The whole loop with one reused buffer computes the abstract run and its trace, so every law of runs holds of it |
| Base64Tables.AlphabetIsStandard | src/auth-agent/TcpRedirectorAuthAgent/SspiEngine.cpp:181-190 | The encoder's table holds the RFC 4648 letter of every value |
| Base64Tables.DecodeTableIsStandard | src/auth-agent/TcpRedirectorAuthAgent/SspiEngine.cpp:217-226 | The decoder's 128 entries hold the value of every letter and 64 everywhere else; no letter lies beyond them |
| Base64Tables.AlphabetInOrder | src/auth-agent/TcpRedirectorAuthAgent/SspiEngine.cpp:181-183 | The letters in order are A to Z, a to z, 0 to 9, + and / |
| Base64.Base64Encode | src/auth-agent/TcpRedirectorAuthAgent/SspiEngine.cpp:181-214 | The three-byte buffer loop with its bit masks computes the group-by-group encoding |
| Base64.Base64Decode | src/auth-agent/TcpRedirectorAuthAgent/SspiEngine.cpp:216-243 | The loop over the wrapping accumulator computes the decoding function |
| Base64.WrapIsInvisible | src/auth-agent/TcpRedirectorAuthAgent/SspiEngine.cpp:231-240 | Wrapping the accumulator to 32 bits never changes an emitted byte |
| Base64.DecoderIsUnbounded | src/auth-agent/TcpRedirectorAuthAgent/SspiEngine.cpp:231-240 | For every input, accumulator and bit count the wrapping decoder emits what an unbounded one emits for the letters alone |
| Base64.StaleBitsAreInvisible | src/auth-agent/TcpRedirectorAuthAgent/SspiEngine.cpp:231-240 | The never-masked high bits leave no trace in the three bytes of the next group |
| Base64.EmitIsGroups | src/auth-agent/TcpRedirectorAuthAgent/SspiEngine.cpp:231-240 | From any accumulator the unbounded decoder regroups four values into three bytes |
| Base64.DecodeRegroups | src/auth-agent/TcpRedirectorAuthAgent/SspiEngine.cpp:216-243 | Decoding any string is regrouping the values of its letters |
| Base64Laws.RoundTrip | src/auth-agent/TcpRedirectorAuthAgent/SspiEngine.cpp:181-243 | Decoding an encoding gives back the bytes, for every byte sequence |
| Base64Laws.LettersSpellBytes | src/auth-agent/TcpRedirectorAuthAgent/SspiEngine.cpp:181-214 | The letters of a group are the base-64 digits of the number its bytes form; one or two last bytes are filled up with zero bits |
| Base64Laws.DecodedLength | src/auth-agent/TcpRedirectorAuthAgent/SspiEngine.cpp:231-240 | k letters decode to exactly floor(3k/4) bytes |
| Base64Laws.OtherCharactersAreIgnored | src/auth-agent/TcpRedirectorAuthAgent/SspiEngine.cpp:233-236 | Characters outside the alphabet, padding included, can be inserted anywhere without effect |
| Base64Laws.DecodeDistributes | src/auth-agent/TcpRedirectorAuthAgent/SspiEngine.cpp:231-240 | At a multiple of four letters decoding distributes over concatenation |
| Base64Laws.EncodingShape | src/auth-agent/TcpRedirectorAuthAgent/SspiEngine.cpp:181-214 | 4 * ceil(n/3) characters, with (3 - n mod 3) mod 3 equals signs at the end and letters before them |
| Base64Laws.EncodingIsCanonical | src/auth-agent/TcpRedirectorAuthAgent/SspiEngine.cpp:181-214 | Every encoding is canonical: padded at the end, with unused bits zero |
| Base64Laws.CanonicalReencodes | src/auth-agent/TcpRedirectorAuthAgent/SspiEngine.cpp:181-243 | Every canonical string is the encoding of what it decodes to |
| Base64Laws.ReencodesIffCanonical | src/auth-agent/TcpRedirectorAuthAgent/SspiEngine.cpp:181-243 | Re-encoding what a string decodes to gives the string back if and only if it is canonical |
| AuthLaws.HandlesAreConserved | src/auth-agent/TcpRedirectorAuthAgent/main.cpp:73-175 | After every sequence of requests, cleanups and shutdowns and every answer of the security package, for credentials and for contexts: no handle was released twice or before it was handed out, no stored entry's handle has been released, and handed out minus released is the number of stored entries |
| AuthLaws.ShutdownReleasesEverything | src/auth-agent/TcpRedirectorAuthAgent/ContextStore.cpp:71-78 | Shutting down leaves every handle ever handed out released exactly once |
| AuthLaws.IdsAreStrictlyIncreasing | src/auth-agent/TcpRedirectorAuthAgent/ContextStore.cpp:11-27 | Of two replies that create contexts the later one has the greater id |
| AuthLaws.LiveIffAskedToContinue | src/auth-agent/TcpRedirectorAuthAgent/main.cpp:119-152 | After a well-formed continue the id is stored if and only if the reply asks for another round; the reply is "not found" if and only if the id was not live |
| AuthLaws.AtMostOneFinalReply | src/auth-agent/TcpRedirectorAuthAgent/main.cpp:119-152 | After a final token or a failure for an id every later continue of it is answered "not found" |
| AuthLaws.NotFoundIsForever | src/auth-agent/TcpRedirectorAuthAgent/main.cpp:119-129 | Once an issued id is answered "not found" it is so forever |
| AuthLaws.DeadIdsStayDead | src/auth-agent/TcpRedirectorAuthAgent/ContextStore.h:24-27 | An issued id that is missing or expired is so at every later time, whatever happens in between |
| AuthReplies.ReplyTable | src/auth-agent/TcpRedirectorAuthAgent/main.cpp:73-175 | The answer to every request case by case: version 1, pong, the created id, the continued token, closed, and the codes -1, -2, -32601 and -32603; another round is announced exactly for the two statuses that ask for one |
| AuthReplies.CreateStores | src/auth-agent/TcpRedirectorAuthAgent/main.cpp:93-118 | A created context owns the two handles just handed out and is stored under the next id for 1800 seconds from now; a refused one leaves nothing behind but a credential freed |
| AuthReplies.ContinueKeepsOrReleases | src/auth-agent/TcpRedirectorAuthAgent/main.cpp:119-152 | A continue keeps the context if and only if it is live and another round follows; otherwise the entry goes and exactly its two handles are released |
| AuthReplies.CloseReleasesBothHandles | src/auth-agent/TcpRedirectorAuthAgent/main.cpp:153-160 | After a close the id is not stored, exactly its credential and its context handle are newly released if it was, and every other entry is unchanged |
| AuthReplies.ClosedIsNotFoundForever | src/auth-agent/TcpRedirectorAuthAgent/main.cpp:153-160 | Over every run, each continue of an issued id after a close of it is answered -2 |
| AuthReplies.OtherRequestsChangeNothing | src/auth-agent/TcpRedirectorAuthAgent/main.cpp:81-92 | Hello, ping, unknown methods and malformed parameters change no state |
| AuthReplies.LifetimeIsFixed | src/auth-agent/TcpRedirectorAuthAgent/ContextStore.h:24-37 | Over every run, a context created at t is live exactly while it is stored and at most 1800 seconds have passed since t; nothing prolongs it |
| AuthReplies.IdsAreConsecutive | src/auth-agent/TcpRedirectorAuthAgent/ContextStore.cpp:11-27 | The ids issued are 1, 2, 3 and so on |
| AuthReplies.PackageSees | src/auth-agent/TcpRedirectorAuthAgent/SspiEngine.cpp:41-136 | The package is asked to open a negotiation for HTTP/host with the credential just acquired, and to continue one with the stored context handle and the decoded challenge; nothing else reaches it |
| AuthReplies.ChallengeReachesItsContext | src/auth-agent/TcpRedirectorAuthAgent/main.cpp:119-133 | Over every run, a challenge reaches the package byte for byte, for the context handle handed out when its id was created |
| AuthReplies.CleanupReleasesTheExpired | src/auth-agent/TcpRedirectorAuthAgent/ContextStore.cpp:58-69 | In every reachable state a cleanup keeps exactly the contexts that have not expired, unchanged, and releases of the stored handles exactly those of the expired ones |
| AuthLaws.TokensSurvive | src/auth-agent/TcpRedirectorAuthAgent/main.cpp:107-150 | The token in a reply decodes to the bytes the security package produced |
| AuthAgent.SspiEngine.CreateContext | src/auth-agent/TcpRedirectorAuthAgent/SspiEngine.cpp:11-94 | On success the caller owns one new credential and one new context handle; on failure it owns none, and credentials acquired on the way were freed |
| AuthAgent.SspiEngine.ContinueContext | src/auth-agent/TcpRedirectorAuthAgent/SspiEngine.cpp:96-167 | Takes and releases no handle; the package is asked to continue the given context with the decoded challenge, and the caller gets the encoded token |
| AuthAgent.ContextStore.Create | src/auth-agent/TcpRedirectorAuthAgent/ContextStore.cpp:11-27 | Stores the handles under the next id and returns that id |
| AuthAgent.ContextStore.DestroyContext | src/auth-agent/TcpRedirectorAuthAgent/ContextStore.cpp:85-91 | Releases both handles of an entry in use and marks it unused; releases nothing for one that is not |
| AuthAgent.ContextStore.Get | src/auth-agent/TcpRedirectorAuthAgent/ContextStore.cpp:29-44 | The unexpired entry of the id; an expired one is destroyed and reported missing |
| AuthAgent.ContextStore.Close | src/auth-agent/TcpRedirectorAuthAgent/ContextStore.cpp:46-56 | Drops the entry and releases its handles; an unknown id changes nothing |
| AuthAgent.ContextStore.CleanupExpired | src/auth-agent/TcpRedirectorAuthAgent/ContextStore.cpp:58-69 | Erasing while iterating, in any order, leaves exactly the unexpired entries, unchanged, and releases exactly the handles of the others |
| AuthAgent.ContextStore.Clear | src/auth-agent/TcpRedirectorAuthAgent/ContextStore.cpp:71-78 | Releases the handles of every entry and empties the store |
| AuthAgent.ContextStore.Size | src/auth-agent/TcpRedirectorAuthAgent/ContextStore.cpp:80-83 | The handles of either kind handed out and not yet released, in every state in which handles are conserved |
| AuthAgent.AuthAgent.HandleRequest | src/auth-agent/TcpRedirectorAuthAgent/main.cpp:73-175 | The dispatcher over the real store, handles and security package computes the reply and the state that ReplyTable, CreateStores, ContinueKeepsOrReleases and CloseReleasesBothHandles spell out |
| AuthAgent.AuthAgent.Serve | src/auth-agent/TcpRedirectorAuthAgent/main.cpp:218-267 | Any sequence of requests, cleanup ticks and shutdowns computes the abstract run and its replies, so the laws above hold of it; from the initial state handles are conserved |
| Popcount32.SubtractOdds | external/boost/boost/core/bit.hpp:611-627 | Subtracting the odd bits leaves in every two-bit field the count of its two bits |
| Popcount32.Gather | external/boost/boost/core/bit.hpp:611-627 | The multiplication by the byte pattern and the shift add up all byte fields |
| Popcount32.PopcountImpl | external/boost/boost/core/bit.hpp:611-627 | For every 32-bit word the result is the number of set bits counted one by one |
| Popcount64.SubtractOdds | external/boost/boost/core/bit.hpp:611-627 | Subtracting the odd bits leaves in every two-bit field the count of its two bits |
| Popcount64.Gather | external/boost/boost/core/bit.hpp:611-627 | The multiplication by the byte pattern and the shift add up all byte fields |
| Popcount64.PopcountImpl | external/boost/boost/core/bit.hpp:611-627 | For every 64-bit word the result is the number of set bits counted one by one |
| ZeroCounts.HashIsPerfect | external/boost/boost/core/bit.hpp:208-229 | Modulo 37, 2^k - 1 indexes 32 - k in the first table for every k up to 32, 2^k indexes k in the second, and 0 indexes 32 |
| ZeroCounts.SmearFills | external/boost/boost/core/bit.hpp:212-222 | Smearing gives 2^w - 1 where w is the position above the highest set bit |
| ZeroCounts.IsolateIsPower | external/boost/boost/core/bit.hpp:440-444 | The bitwise conjunction of -x and x is 2^t where t is the number of trailing zeros |
| ZeroCounts.CountlImpl8 | external/boost/boost/core/bit.hpp:221-224 | The number of leading zeros of every 8-bit word, 8 for zero |
| ZeroCounts.CountlImpl16 | external/boost/boost/core/bit.hpp:226-229 | The number of leading zeros of every 16-bit word, 16 for zero |
| ZeroCounts.CountlImpl32 | external/boost/boost/core/bit.hpp:208-219 | The number of leading zeros of every 32-bit word, 32 for zero |
| ZeroCounts.CountlImpl64 | external/boost/boost/core/bit.hpp:285-290 | The number of leading zeros of every 64-bit word, 64 for zero |
| ZeroCounts.CountrImpl8 | external/boost/boost/core/bit.hpp:446-449 | The number of trailing zeros of every 8-bit word, 8 for zero |
| ZeroCounts.CountrImpl16 | external/boost/boost/core/bit.hpp:451-454 | The number of trailing zeros of every 16-bit word, 16 for zero |
| ZeroCounts.CountrImpl32 | external/boost/boost/core/bit.hpp:440-444 | The number of trailing zeros of every 32-bit word, 32 for zero |
| ZeroCounts.CountrImpl64 | external/boost/boost/core/bit.hpp:510-515 | The number of trailing zeros of every 64-bit word, 64 for zero |
| PowersOfTwo.BitWidth32 | external/boost/boost/core/bit.hpp:683-689 | The least w with x < 2^w, for every word |
| PowersOfTwo.BitFloor32 | external/boost/boost/core/bit.hpp:691-697 | 0 for 0, otherwise the greatest power of two up to x |
| PowersOfTwo.BitCeilImpl32 | external/boost/boost/core/bit.hpp:702-719 | 0 for 0, the least power of two from x up when x is at most the greatest one, 0 when it is greater |
| PowersOfTwo.CeilingFits32 | external/boost/boost/core/bit.hpp:702-719 | A power of two from n up fits in 32 bits if and only if n is at most 2^31 |
| PowersOfTwo.SingleBitIffPower32 | external/boost/boost/core/bit.hpp:672-678 | has_single_bit holds if and only if the word is a power of two |
| PowersOfTwo.BitWidth64 | external/boost/boost/core/bit.hpp:683-689 | The least w with x < 2^w, for every word |
| PowersOfTwo.BitFloor64 | external/boost/boost/core/bit.hpp:691-697 | 0 for 0, otherwise the greatest power of two up to x |
| PowersOfTwo.BitCeilImpl64 | external/boost/boost/core/bit.hpp:721-741 | 0 for 0, the least power of two from x up when x is at most the greatest one, 0 when it is greater |
| PowersOfTwo.CeilingFits64 | external/boost/boost/core/bit.hpp:721-741 | A power of two from n up fits in 64 bits if and only if n is at most 2^63 |
| PowersOfTwo.SingleBitIffPower64 | external/boost/boost/core/bit.hpp:672-678 | has_single_bit holds if and only if the word is a power of two |
| Rotations.RotateLeftTurns32 | external/boost/boost/core/bit.hpp:652-659 | rotl by any amount, negative ones included, is turning the word by one place as many times as the amount modulo the width |
| Rotations.RotationsAdd32 | external/boost/boost/core/bit.hpp:652-659 | Two rotations are the rotation by the sum |
| Rotations.RotationsUndo32 | external/boost/boost/core/bit.hpp:652-668 | rotl and rotr by the same amount, of any sign, undo each other in both orders |
| Rotations.RotateLeftTurns64 | external/boost/boost/core/bit.hpp:652-659 | rotl by any amount, negative ones included, is turning the word by one place as many times as the amount modulo the width |
| Rotations.RotationsAdd64 | external/boost/boost/core/bit.hpp:652-659 | Two rotations are the rotation by the sum |
| Rotations.RotationsUndo64 | external/boost/boost/core/bit.hpp:652-668 | rotl and rotr by the same amount, of any sign, undo each other in both orders |
| Rotations.RotateLeftTurns8 | external/boost/boost/core/bit.hpp:652-659 | rotl by any amount, negative ones included, is turning the word by one place as many times as the amount modulo the width |
| Rotations.RightUndoesLeft8 | external/boost/boost/core/bit.hpp:652-668 | rotr undoes rotl by the same amount |
| Rotations.LeftUndoesRight8 | external/boost/boost/core/bit.hpp:652-668 | rotl undoes rotr by the same amount |
| Rotations.RotateLeftTurns16 | external/boost/boost/core/bit.hpp:652-659 | rotl by any amount, negative ones included, is turning the word by one place as many times as the amount modulo the width |
| Rotations.RightUndoesLeft16 | external/boost/boost/core/bit.hpp:652-668 | rotr undoes rotl by the same amount |
| Rotations.LeftUndoesRight16 | external/boost/boost/core/bit.hpp:652-668 | rotl undoes rotr by the same amount |
| ByteSwap.Reverses16 | external/boost/boost/core/bit.hpp:844-847 | Byte i of the result is byte 1 - i of the word |
| ByteSwap.Involution16 | external/boost/boost/core/bit.hpp:844-847 | Swapping twice gives the word back |
| ByteSwap.Reverses32 | external/boost/boost/core/bit.hpp:906-910 | Byte i of the result is byte 3 - i of the word |
| ByteSwap.Involution32 | external/boost/boost/core/bit.hpp:906-910 | Swapping twice gives the word back |
| ByteSwap.Reverses64 | external/boost/boost/core/bit.hpp:912-917 | Byte i of the result is byte 7 - i of the word |
| ByteSwap.Involution64 | external/boost/boost/core/bit.hpp:912-917 | Swapping twice gives the word back |

## Left out

- The driver, its handles and error codes, service control, logging, the connection monitor and the GUI: foreign calls and I/O.
- The `m_running` flag and failed receives: the loop of the model ends with its input.
- How the rule engine matches: its verdict is an input. The pid cache of the newer copy: any answer about a port's owner is possible anyway.
- `SetProcessInfo`, `proxy_config_id` (always 0) and the active-connection count: they feed logs and never a decision.
- Wrap-around of 64-bit byte counters, of the 32-bit tracked counter and of the id counter: unbounded here.
- Paths longer than MAX_PATH, and case folding beyond ASCII in `_wcsicmp`.
- Node allocation in the hash table: a chain is a sequence held in its bucket, so node addresses and locks are not captured.
- Concurrent access: the capture thread is the only writer of the bitmaps and the table; in the agent each request and each cleanup is one atomic step, so the gap between `Get` and the use of the entry while the cleanup thread is active is not captured.
- What the security package does: handles are serial numbers, and a failed first `InitializeSecurityContext` yields no context handle.
- JSON parsing, named pipes and exceptions such as failed allocations: malformed parameters are the case `None`, which gives the internal error.
- The relay server, the hook library, configuration and the remaining vendored headers.
- Builtin and intrinsic branches of the Boost header and the templates that dispatch on width.
