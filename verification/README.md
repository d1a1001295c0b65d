# OpenP2P, modelled and verified in Dafny

OpenP2P is a peer-to-peer VPN. This project models the parts of its Go core (and of its mobile apps)
that carry state or arithmetic worth proving, and proves what they promise on every input, every run
and every interleaving. `dafny verify dfyconfig.toml` checks all of it.

| file | what it models |
|---|---|
| `IPRanges.dfy`, `IPTree.dfy` | the interval tree of routed IPv4 ranges: its abstract value, and the tree with its merge loop |
| `Cidr.dfy` | addresses as bits, CIDR blocks |
| `SdwanTable.dfy`, `SdwanLaws.dfy`, `Sdwan.dfy` | the SD-WAN routing state: what a configuration message does, why the incremental path equals a rebuild, and the object that does it in place |
| `HolePunch.dfy`, `TcpPunch.dfy` | the UDP and TCP hole punches between a cone and a symmetric NAT |
| `ClockFilter.dfy` | the heartbeat-driven clock filter that times simultaneous punching |
| `Framing.dfy`, `Relay.dfy`, `Crypto.dfy` | frames on a shared stream, relaying, encryption |
| `Restart.dfy`, `Workers.dfy`, `Tun.dfy`, `Mailbox.dfy` | reconnecting, worker shutdown, TUN generations, the newest-configuration mailbox |
| `SpeedLimiter.dfy` | the token bucket |
| `Token.dfy` | the token checks of the apps |

How the model is built:

- Code that updates fields in place is a class (`IPTree`, `P2PSdwan`, `P2PNetwork`, `Conn`, `Limiter`) or
  a method on arrays; each method is proved equal to a function on values, and the laws are proved about
  that function.
- Concurrent code is a step machine. A state and an action give the next state (`Do`), an action that is
  not enabled leaves the state as it is, and a run is any sequence of actions, so a lemma over all runs
  is a lemma over all interleavings. Sections under a lock are single steps; unlocked accesses to shared
  fields are steps of their own.
- The AVL tree of the gods library is any search tree with ordered-map contracts: `AddIntIP` and `Load`
  use only the contracts of `Put` and `Remove`, never the shape of the tree.
- Clocks, dial results, partial writes, packet loss, ping answers and this node's own addresses come from
  outside, as parameters, as part of each message, or as nondeterministic steps.

Where code and intent differ, the model follows the code:

- `NewIPTree("")` is not empty; it maps address 0 to nil, and routing treats nil as no route.
- Frame lengths are cut to 32 bits, so a frame is read back exactly when it is short enough
  (`FrameRoundTrip`, `EnvelopeOpens`: both directions).
- The clock filter uses 0 for "not set". If `dt` or `ddtma` comes back to exactly 0 in mid-run, the next
  sample replaces it instead of being smoothed. `Safe` is the exact condition under which such a step
  keeps the error bound (`StepExact`, `RunExact`); `UnsetBreaksBound` is a run of nine good samples that
  ends more than 10 times the sample error away from the truth.
- Every heartbeat overwrites `t1`, so a reply that comes after the next heartbeat went out is measured
  against the wrong one. A sample errs by at most rtt/2 exactly when the server stamped it after `t1`
  (`SampleError`); `LateReplyMisleads` is a run that is 30 s off with an rtt of 1 ns.
- `init` skips resources in this node's LAN when it deletes, too. If the local address moved into a routed
  block in between, the block is not deleted, and no addition of the same message repairs that: blocks are
  nested or disjoint and a routed block does not contain the local address, so every addition stays clear
  of the stale block or is ignored inside it. A message is `Clean` when it leaves no such block, or only one
  that is the virtual IP of an added node of the same name. That is the exact condition for one message
  (`HandleTable`), for runs (`RunSynced`) and, with the ranges of the nodes that stay, for the diff to equal
  a rebuild (`DiffIsRebuild`). `StaleRoute` is a run that keeps routing to a node that is gone.
- A relayed `WriteMessage` whose request cannot be marshalled still sends an empty envelope; the far end
  sees nothing either way.

## Model

| member | source | states |
|---|---|---|
| IPTreeModel.IPTree.AddIntIP | core/iptree.go:31-73 | For any tree shape: inverted ranges are refused; a range inside one stored interval changes nothing; otherwise exactly the intervals that meet it are removed and their hull with it is stored with the new payload. Disjointness is kept, and the loop that restarts at the root terminates by (remaining intervals, subtree) |
| IPTreeModel.StopsOnlyAtFirst | core/iptree.go:48-51 | The early `return true` of the merge loop can only happen before anything was removed |
| IPTreeModel.MergingMeets | core/iptree.go:61-69 | Growing the range while merging never makes it meet an interval the original range did not meet |
| IPTreeModel.IPTree.Load | core/iptree.go:103-123 | The descent finds a payload exactly when a linear scan of all intervals would, and the same one |
| IPTreeModel.IPTree.DelIntIP | core/iptree.go:26-28 | Removes the interval with that lower bound and no other; the upper bound is ignored |
| IPTreeModel.IPTree.constructor | core/iptree.go:148-171 | `NewIPTree("")` holds address 0 with a nil payload |
| IPRanges.HullExact | core/iptree.go:61-69 | The hull covers the added range and the swallowed intervals and no other address |
| IPRanges.AddedCoverage | core/iptree.go:31-73 | Covered addresses after an addition are the old ones and the added range |
| IPRanges.AddedLookup | core/iptree.go:31-73 | Every address of the hull answers the new payload, every other address answers as before |
| IPRanges.RunDisjoint | core/iptree.go:26-73 | Over every run of additions and deletions, stored intervals stay well formed and pairwise disjoint |
| Cidr.CalculateMaxIP | core/iptree.go:172-180 | The loop computes ip OR NOT mask |
| Cidr.BlockExact | core/sdwan.go:179-184 | [ip, ip OR NOT mask] is exactly the set of addresses that share the prefix (section 3.1 of RFC 4632) |
| Cidr.BlocksNested | core/sdwan.go:179-184 | Two CIDR blocks meet if and only if they agree on the shorter prefix, and then the longer prefix has its block inside the other |
| Sdwan.P2PSdwan.Diff | core/config.go:127-154 | One pass of the diff returns the nodes that the other configuration does not hold unchanged |
| Sdwan.P2PSdwan.SetSDWAN | core/config.go:119-161 | A node is deleted exactly when it is not in the new list or everything is redone, added exactly when it is not in the old list or everything is redone; everything is redone when the mode, the centre, or the resource of the first node with this name differs. Stores the configuration with at least two tunnels |
| Sdwan.P2PSdwan.ResetAll | core/sdwan.go:55-72 | Clears both indexes and the configuration |
| Sdwan.P2PSdwan.DelAllNodes | core/sdwan.go:88-126 | Deletes IPs and resources of the deleted nodes from both indexes |
| Sdwan.P2PSdwan.AddAllIPs | core/sdwan.go:127-156 | Adds the IPs of the other nodes to both indexes; succeeds exactly when this node's TUN starts and every other IP parses |
| Sdwan.P2PSdwan.AddAllResources | core/sdwan.go:157-196 | Adds the resource blocks that neither this node's LAN nor a ping already reaches |
| Sdwan.P2PSdwan.Init | core/sdwan.go:74-200 | States exactly when it succeeds; both indexes are then the diff applied to their old values |
| Sdwan.P2PSdwan.HandleSDWAN | core/sdwan.go:322-362 | Succeeds exactly when the network is disabled, or this node's TUN starts and every other added IP parses; the whole routing state is then the transition function `Handle`, whose laws follow |
| Sdwan.P2PSdwan.RouteTunPacket | core/sdwan.go:243-268 | A packet goes to the node the tree names; otherwise it is broadcast exactly for 255.255.255.255 and 224.0.0.0/4, else dropped |
| SdwanLaws.DelNodes | core/sdwan.go:88-126 | Deleting by lower bound removes exactly the entries of the deleted nodes, if and only if none of their routed blocks has come into this node's LAN since it was added |
| SdwanLaws.DiffExact | core/config.go:122-155 | The two sides of the diff, by membership, from the fields of the two configurations |
| SdwanLaws.InitTracks | core/sdwan.go:74-200 | Init turns a tree that holds exactly what the old nodes were given into one that holds exactly what the new ones are, whatever the diff kept, if and only if every routed block of a deleted node that is now in the LAN comes back as the virtual IP of an added node of the same name |
| SdwanLaws.HandleTable | core/sdwan.go:322-362 | A message with disjoint ranges, from a tree in step or on the reset path, leaves a tree that routes exactly the active configuration if and only if it is `Clean` |
| SdwanLaws.CleanWhenApart | core/sdwan.go:108-126 | When no added node has this node's LAN address as its virtual IP, a message is `Clean` if and only if no routed block that it deletes has come into the LAN |
| SdwanLaws.HandleSys | core/sdwan.go:322-362 | The same for the system routes, for configurations with distinct virtual IPs |
| SdwanLaws.DiffIsRebuild | core/sdwan.go:332-362 | From a tree in step: the tree after the incremental path equals the tree after a reset, if and only if the message is `Clean` and the LAN and ping tests still route the same ranges to the nodes that stay |
| SdwanLaws.SysDiffIsRebuild | core/sdwan.go:332-362 | The system routes after the incremental path equal those after a reset, always |
| SdwanLaws.MovedForgets | core/sdwan.go:332-336 | A message for another public IP, centre or gateway than the state holds, or that switches the network, gives both indexes as if it were the first |
| SdwanLaws.DisabledStays | core/sdwan.go:345-348 | Any other message of a disabled network changes neither index |
| SdwanLaws.StayingKeeps | core/config.go:128-155 | After any other message of an enabled network a node of both configurations keeps exactly the entries it has, clean or not, unless everything is redone |
| SdwanLaws.RedoneRebuilds | core/config.go:122-125 | When mode, centre or own resource differ the tree is the one the message alone would give, unless a routed block has come into the LAN |
| SdwanLaws.RunSynced | core/sdwan.go:322-362 | Over every run of enabled configurations with disjoint ranges and any disabled ones, with local address and ping answers that may change at every message: since the last reset the tree has followed every configuration, if and only if every message since then was `Clean` |
| SdwanLaws.FixedLanClean | core/sdwan.go:88-126 | Every message of a run is `Clean` while the local address stays the same, whatever the pings answer |
| SdwanLaws.StaleAfter | core/sdwan.go:108-126 | A message that deletes a routed block which is now in the LAN leaves every address of the block routed to the deleted node, whatever else it adds |
| SdwanLaws.StaleRoute | core/p2pnetwork.go:820-822 | Two messages, with a reconnect in between that moves the local address, after which a removed node still receives packets |
| SdwanLaws.RunSysSynced | core/sdwan.go:322-362 | Over every run in which enabled configurations have distinct virtual IPs, `sysRoute` is {ip(n) -> n} for the active nodes other than this one, and empty while disabled |
| SdwanLaws.RunForgets | core/sdwan.go:332-336 | Over every run, in terms of its messages: a new public IP (against the last enabled message), centre, gateway or switch leaves both indexes as after that message alone |
| SdwanLaws.RunKeeps | core/config.go:128-155 | Over every run that is clean since the last reset: otherwise the nodes of the last two configurations keep exactly their entries, unless everything is redone |
| SdwanLaws.RoutesToOwner | core/sdwan.go:248-268 | A lookup names a node exactly when that node owns the address, by its IP or by a routed CIDR block |
| SdwanLaws.RunRoutesToOwner | core/sdwan.go:248-362 | After every run of disjoint configurations that is clean since the last reset, a packet goes to a node exactly when the newest configuration is enabled and gives it the destination, under the LAN and ping tests of the message that added the node |
| SdwanLaws.IndexesAgree | core/sdwan.go:127-156 | After every run of disjoint configurations that is clean since the last reset, the tree sends every address of `sysRoute` to the node `sysRoute` names |
| HolePunch.DoInv | core/holepunch.go:101-252 | Every step of either side keeps the invariant: all cone-side Acks go to one address, and only its socket gets past its wait |
| HolePunch.HoleAgreement | core/holepunch.go:101-252 | In every interleaving with loss, duplication and reordering: the socket handshakeS2C returns is the one whose NAT mapping handshakeC2S fixed, it has sent its Ack, and at most one value is sent on `gotCh` |
| HolePunch.ConeSuccess | core/holepunch.go:101-157 | In every interleaving a nil return of handshakeC2S means: the hole is the mapping of some socket, a packet from it arrived, and some socket has sent an Ack |
| HolePunch.NothingRead | core/holepunch.go:103-107 | A cone side that reads nothing fixes no hole and never returns nil |
| HolePunch.NoLateAnswers | core/holepunch.go:194-196 | Once `gotIt` is set, a goroutine that has not answered a packet yet never does |
| HolePunch.ForeignPackets | core/holepunch.go:114-157 | Packets of another tunnel are ignored while waiting for an Ack, but a first one makes handshakeC2S return nil |
| HolePunch.ConeSilent | core/holepunch.go:76-94 | After handshakeC2S has returned nothing more is sent from its socket |
| HolePunch.ConeCanReturn | core/holepunch.go:96-107 | The cone side can return from both of its waits |
| HolePunch.WorkerCanStep | core/holepunch.go:182-239 | Every goroutine of the symmetric side always has a step that brings its end nearer |
| HolePunch.PunchSucceeds | core/holepunch.go:101-252 | Such runs exist: for any number of sockets, each of them is the hole of a run in which both handshakes return nil |
| HolePunch.SpraySucceeds | core/holepunch.go:78-157 | Both sides also succeed when the cone side reads nothing but an Ack to its spray |
| TcpPunch.DoInv | core/p2ptunnel.go:455-535 | Every step of any dialer keeps the invariant around the two compare-and-swaps |
| TcpPunch.PunchAgreement | core/p2ptunnel.go:455-535 | For any number of dialers: if both sides return a connection they hold the two ends of the same one; each `gotCh` is sent on at most once and closed at most once, after that |
| TcpPunch.ReturnedAfterAcks | core/p2ptunnel.go:466-531 | In every interleaving a side that returns a connection has read the other side's Ack on it |
| TcpPunch.PastDialLinked | core/p2ptunnel.go:464-509 | Only a dialer that holds one end of a connection is past its dial |
| TcpPunch.LoserEnds | core/p2ptunnel.go:469-472 | A dialer that comes second to the swap ends there and changes nothing else |
| TcpPunch.DialerCanEnd | core/p2ptunnel.go:462-527 | Every dialer can end, by an error or by closing `gotCh` after its send |
| TcpPunch.PunchSucceeds | core/p2ptunnel.go:455-535 | Such runs exist: any two dialers may end up with the two ends, each side sending and closing once |
| ClockFilter.P2PNetwork.HandleHeartbeat | core/p2pnetwork.go:911-934 | An rtt over 3 s, or over five times a positive last one, changes nothing; any other becomes the last one and takes the filter's step; and whichever earlier heartbeat the reply answers, the object takes the step of that reply in the runs below |
| ClockFilter.P2PNetwork.SendHeartbeat | core/p2pnetwork.go:204-212 | Takes the send step of those runs: the newest heartbeat becomes the one that `t1` belongs to, the filter stays |
| ClockFilter.RttTest | core/p2pnetwork.go:915-919 | The same test as a law of the filter, and the last rtt never grows more than fivefold |
| ClockFilter.RttGrowth | core/p2pnetwork.go:915-919 | Over every run with positive rtts, k more accepted replies multiply the last accepted rtt by at most 5^k |
| ClockFilter.SampleError | core/p2pnetwork.go:914-921 | A sample errs by half of the delay of `t1` and of the difference of the legs; at most rtt/2 if and only if the server stamped it after `t1`, so always when the reply answers the heartbeat of `t1` |
| ClockFilter.LateReplyMisleads | core/p2pnetwork.go:204-215 | A reply to the heartbeat before the last, accepted with an rtt of 1 ns and an error of 30 s |
| ClockFilter.EnergyStep | core/p2pnetwork.go:923-933 | One accepted sample with error n turns V = e^2 + 9m^2 into exactly 0.9V + 1.8nm + 0.1n^2 |
| ClockFilter.StepExact | core/p2pnetwork.go:923-933 | Every sample within N keeps V <= 38N^2, if and only if: `dt` is 0 and 9m^2 <= 37N^2, or only `ddtma` is 0 and 9(abs(e)+N)^2 <= 37N^2, or neither is 0 |
| ClockFilter.RunBounded | core/p2pnetwork.go:911-934 | In every run whose accepted samples err by at most N, and in which `dt` and `ddtma` come back to 0 only in states that meet that condition: from the second sample on V <= 38N^2 and dt stays within 6.2N of the true offset |
| ClockFilter.RunExact | core/p2pnetwork.go:911-934 | The condition on runs is exact: along a run with samples within N, no next sample within N could have broken V <= 38N^2, if and only if it comes back to 0 only in such states |
| ClockFilter.TimelyRunBounded | core/p2pnetwork.go:911-934 | When the server stamped every accepted reply after `t1`, and fields come back to 0 only in such states, the rtt test alone keeps dt within 9.3 s |
| ClockFilter.ExactSamplesConverge | core/p2pnetwork.go:923-933 | k exact samples multiply V by exactly 0.9^k |
| ClockFilter.UnsetBreaksBound | core/p2pnetwork.go:926-927 | A run from the start: nine timely samples within 1 of the true offset, the sixth of which brings `ddtma` back to 0, after which dt is more than 10 off |
| Framing.HeaderRoundTrip | core/protocol.go:62-84 | Decoding an encoded header gives back both types and the length modulo 2^32 |
| Framing.HeaderBytes | core/protocol.go:62-84 | Byte by byte: four of length, two of main type, two of subtype, all little-endian |
| Framing.FrameRoundTrip | core/underlay.go:25-48 | A frame followed by anything is read back with the rest untouched, if and only if its payload is shorter than 2^32 bytes and its main type is at most 16 |
| Framing.RejectedSkipsHeader | core/underlay.go:25-39 | A main type over 16 costs the header only; its body is read as the next frame |
| Framing.PrefixNeedsMore | core/underlay.go:25-39 | No proper prefix of a frame is read as a frame |
| Framing.StreamRoundTrip | core/underlay.go:25-48 | Repeated reading recovers every frame of a stream, in order |
| Framing.Conn.WriteFull | core/common.go:395-405 | Writes all of the data, or a prefix of it and fails, under arbitrary partial writes |
| Framing.Conn.ReadBuffer | core/underlay.go:25-39 | Consumes exactly one frame, or a header with a main type over 16, or nothing |
| Framing.SharedStream | core/underlay.go:41-68 | With any number of writers, until a write fails: the stream is the completed frames in lock order and a prefix of the holder's frame, and a reader recovers exactly the completed frames |
| Framing.WritersFinish | core/underlay.go:41-68 | Any list of messages is completed, in order, by some run of the writers |
| Relay.EnvelopeOpens | core/p2ptunnel.go:677-685 | The relay recovers tunnel id and enclosed frame if and only if the envelope is a P2P message whose length fits 32 bits |
| Relay.ShortEnvelope | core/p2ptunnel.go:677-680 | The relay ignores an envelope too short for a tunnel id |
| Relay.RelayTransparent | core/p2pnetwork.go:1022-1036 | A stream that mixes messages for any tunnels with the relay's own frames: what leaves the relay for each tunnel is the stream the direct path carries, and its far end reads exactly the messages sent to it, in order |
| Relay.WireBytesTransparent | core/p2ptunnel.go:979-989 | WriteBytes through a relay equals WriteBytes without one |
| Relay.WireBytesRead | core/p2ptunnel.go:979-989 | The far end reads the two types and the data, directly and through a relay |
| Relay.WireMessageTransparent | core/p2ptunnel.go:948-958 | So does WriteMessage, also when the request cannot be marshalled |
| Relay.WireMessageRead | core/p2ptunnel.go:948-958 | The far end reads the two types and the JSON, directly and through a relay; of a request that cannot be marshalled nothing |
| Relay.WireMessageWithAppIDTransparent | core/p2ptunnel.go:960-977 | So does WriteMessageWithAppID |
| Relay.WireMessageWithAppIDRead | core/p2ptunnel.go:960-977 | The far end reads the app id in the first eight bytes and the JSON after it, directly and through a relay |
| Relay.NodeDataTransparent | core/p2ptunnel.go:897-930 | Relayed node data is an envelope of type 4/10 for the tunnel; stripped by the relay it is the direct encoding, of type 4/15, and the far end reads back sender, sequence number and packet |
| Crypto.XorBits | core/common.go:102-104 | The exclusive or of CBC differs bit by bit |
| Crypto.XorByteBits | core/common.go:102-104 | Bytes are combined by the exclusive or of each bit |
| Crypto.CbcBlock | core/common.go:102-104 | Block k of the ciphertext is the cipher of block k of the plaintext combined with ciphertext block k-1, or with the initialisation vector |
| Crypto.CbcRoundTrip | core/common.go:102-117 | CBC decryption undoes CBC encryption for every block permutation with an inverse (section 6.2 of NIST SP 800-38A) |
| Crypto.PadBytes | core/common.go:73-79 | One to sixteen bytes are added, each of them their number |
| Crypto.UnpadExact | core/common.go:81-87 | Padding is accepted exactly when the last byte is 1 to 16, and then that many bytes are dropped |
| Crypto.UnpadPad | core/common.go:73-87 | Removing the padding gives back every plaintext (section 6.3 of RFC 5652) |
| Crypto.CryptRoundTrip | core/common.go:89-119 | decryptBytes undoes encryptBytes for every plaintext, with and without a key |
| Crypto.BuffersSuffice | core/overlay.go:54-72 | Up to 4096 bytes, padded data and ciphertext fit the 4112-byte buffers of both ends |
| Crypto.Pkcs7Padding | core/common.go:73-79 | Pads in place behind the data and touches nothing else |
| Crypto.EncryptBytes | core/common.go:90-106 | Returns and leaves in the output buffer the CBC encryption of the padded plaintext; an empty key passes through, a bad key fails |
| Crypto.DecryptBytes | core/common.go:108-119 | Returns the unpadded decryption, or fails when the last byte is no padding length |
| Restart.DoInv | core/p2pnetwork.go:201-252 | Every step of init, run, close and shutdown keeps the invariant |
| Restart.IntentNeverLost | core/p2pnetwork.go:1068-1084 | In every interleaving before shutdown: if the network is offline or lost its connection, a restart is queued, init or the handler runs, or a close call is in progress |
| Restart.FinishClose | core/p2pnetwork.go:1068-1084 | Left alone a close call queues its restart unless one is queued; if it found the network running it leaves it stopped with its connection closed, otherwise it closes nothing |
| Restart.CanAlwaysRedial | core/p2pnetwork.go:201-252 | From every such reachable state some continuation lets the registered loops end and dials again |
| Restart.FailedDialRetries | core/p2pnetwork.go:711-717 | A failed dial is retried, with a delay |
| Restart.DialConnects | core/p2pnetwork.go:817-825 | A dial that succeeds brings the network up on a new connection |
| Restart.RedialWaits | core/p2pnetwork.go:221-240 | The handler goes on to init only after every registered loop has ended |
| Restart.LoginRejectedStops | core/p2pnetwork.go:891-894 | A rejected login lets the loops end and queues no restart |
| Restart.NeverDialsAgain | core/p2pnetwork.go:208-219 | Once shut down with no dial under way nothing is dialed again, whatever was queued |
| Restart.ShutdownQuiets | core/p2pnetwork.go:1089-1096 | Shutdown of an idle network stops it and closes its connection, and the run loop can leave |
| Restart.ShutdownIsFinal | core/p2pnetwork.go:1068-1073 | After shutdown no close call queues a restart |
| Workers.DoneClosedOnce | core/p2papp.go:717-732 | `done` is closed once as soon as running is false, and never again |
| Workers.NoNewWorkers | core/p2papp.go:162-173 | Once running is false no worker is registered |
| Workers.WorkersStart | core/p2papp.go:162-173 | While the app runs any number of goWorker calls start that many workers |
| Workers.CloseIsFinal | core/p2papp.go:162-173 | When any Close call has returned no worker is alive, and none ever will be |
| Workers.CloseCanReturn | core/p2papp.go:717-732 | Every Close call can return from any reachable state, first or not |
| Tun.OneGeneration | core/optun_ohos.go:33-60 | At most one instance is active, it is the current one, and the generation is odd exactly while one is current |
| Tun.StartAfterOldLoops | core/optun_ohos.go:33-60 | A Start that succeeds finds both loops of every earlier instance gone |
| Tun.StopThenStart | core/optun_ohos.go:48-60 | From any reachable state a Stop of the current instance can complete, and then the next Start succeeds, two generations further |
| Tun.StartRefused | core/optun_ohos.go:33-46 | While an instance is current another Start is refused and changes nothing else |
| Tun.LoopsUntilStop | core/sdwan.go:298-313 | Both loops of the current instance run until it is told to stop |
| Tun.ReadInOrder | core/optun_ohos.go:62-102 | What Read returns is an in-order prefix of what was injected, all of it while that instance was current |
| Tun.QueueBounded | core/optun_ohos.go:35-36 | No queue holds more than 1000 packets |
| Tun.InjectedIsRead | core/optun_ohos.go:62-102 | With an empty queue an injected packet is the next one Read returns |
| Tun.InjectorCanEnd | core/optun_ohos.go:95-101 | A call of OhosRead never blocks |
| Mailbox.NewestWins | core/sdwan.go:387-402 | The consumer receives an in-order subsequence of the configurations sent; between calls the newest is in the channel or was received last |
| Mailbox.OneReceiveSuffices | core/optun_ohos.go:130-138 | Between calls one receive leaves the consumer with the newest configuration |
| Mailbox.CallEnds | core/sdwan.go:387-402 | The producer never blocks: each of its at most three steps brings the end of the call nearer, whatever the consumer does |
| SpeedLimiter.Limiter.Add | core/speedlimiter.go:29-50 | Computes the bucket's transition function and the sleep it asks for, both branches of `wait`, in 64-bit arithmetic |
| SpeedLimiter.SleepCovers | core/speedlimiter.go:44-48 | The sleep is the debt divided by the speed, rounded down to a nanosecond, and 0 without a debt |
| SpeedLimiter.Mul64Wraps | core/speedlimiter.go:35-35 | Products are right modulo 2^64 and in the range of int64 |
| SpeedLimiter.QuotTruncates | core/speedlimiter.go:35-35 | Quotients are rounded towards zero on both sides |
| SpeedLimiter.RateLimited | core/speedlimiter.go:29-50 | In every run of waiting calls the bucket never overfills, and by the time a call returns at most maxFreeCap + speed * (elapsed + 1 ns) was admitted |
| SpeedLimiter.DebtBounded | core/speedlimiter.go:29-50 | With speed up to 10^9 and sleeps that last as asked, a call leaves a debt of at most its own increment and one |
| SpeedLimiter.RefusalCreditsTwice | core/speedlimiter.go:39-41 | A refused call keeps its credit without advancing the clock: 5 s at one token a second pay for 8 |
| Token.AcceptsUint64 | app/app/src/main/java/cn/openp2p/security/CoreToken.kt:3-11 | Both apps accept exactly the digit strings with a value in 1..2^64-1, tell zero, overflow and non-digits apart, and agree |
| Token.GreaterIsLarger | ohos/entry/src/main/ets/controller/OpenP2PController.ets:249-265 | For equally long digit strings, string order is numeric order |
| Token.LongerIsLarger | ohos/entry/src/main/ets/controller/OpenP2PController.ets:249-265 | Without leading zeros the longer digit string is the larger number |

## Left out

- Sockets, QUIC, websocket, DNS, UPnP/NAT-PMP, netlink, iptables and ping: foreign I/O, present only as outcomes.
- JSON: messages are byte sequences that may fail to marshal; parsing of IP and CIDR text is taken as given.
- IPv6 resources: a resource block is an IPv4 CIDR block or does not parse.
- A change of this node's name, or of its local address while one message is being handled.
- Failed `init`: a half-applied diff is reported as failure and nothing is claimed about the routes after it, until a message takes the reset path.
- Gateway and subnet parsing in `init`, deletion and retry of apps, `delRoute` and `addRoute`.
- AES itself (any invertible block permutation stands for it), key derivation, TOTP.
- AVL rotations: balance does not matter to any result.
- The 16-byte padding table is written as a fill with the padding length.
- Packets of other attempts or strangers in the two punches; `handshakeC2C`; retry timing.
- A write that has failed: the shared stream is described up to the first error.
- Float rounding and 64-bit truncation in the clock filter, which is idealised to reals.
- Go data races and slice aliasing: reads and writes of shared fields are atomic steps.
- The 30 s, 60 s and handshake timers: a timeout may happen at any time.
- SpeedLimiter.RateLimited: waiting calls only; a refused non-waiting call credits without advancing `lastUpdate`, so the bound does not apply to it. Products are required to stay inside int64.
- User interfaces, installer, updater, daemon, logging.
