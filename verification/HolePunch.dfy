/** The UDP cone-to-symmetric punch of core/holepunch.go: handshakeC2S on the cone side, handshakeS2C
    with its many sockets on the symmetric side, over a network that loses, duplicates and reorders.
    An action that is not enabled leaves the state as it is. */
module HolePunch {
  import opened Basics

  type Endpoint = int

  datatype Kind = Handshake | HandshakeAck | OtherKind

  datatype Packet = Packet(src: Endpoint, dst: Endpoint, kind: Kind, tid: int)

  /** One attempt: the tunnel id, the cone side's address, and the address the symmetric NAT gives to
      each socket. */
  datatype Config = Config(tid: int, cone: Endpoint, mapped: seq<Endpoint>)

  ghost predicate Injective(c: Config) {
    && c.cone !in c.mapped
    && forall i, j :: 0 <= i < j < |c.mapped| ==> c.mapped[i] != c.mapped[j]
  }

  /** handshakeC2S: before its first read, waiting for an Ack, returned nil, returned an error. */
  datatype ConePc = ReadFirst | WaitAck | Succeeded | Failed

  /** Where one goroutine of handshakeS2C stands. `Check` has read a packet and has not looked at gotIt
      yet; `Acked` has its Ack; `Publish` has set gotIt. */
  datatype WorkerPc = Unsent | Reading | Check(p: Packet) | Waiting | Acked | Publish | Finished

  datatype State = State(
    net: set<Packet>,             // every packet ever sent; any may arrive any number of times, so sending
                                  // one again changes nothing
    cone: ConePc,
    remoteHole: Option<Endpoint>, // t.remoteHoleAddr of the cone side, once read
    workers: seq<WorkerPc>,
    gotIt: bool,
    gotCh: seq<nat>,              // every socket ever sent on gotCh
    localHole: Option<nat>)       // t.localHoleAddr, once handshakeS2C has returned nil

  datatype Action =
    | Spray(dst: Endpoint)
    | ConeRead(p: Packet)
    | ConeTimeout
    | WorkerSend(i: nat)
    | WorkerRead(i: nat, p: Packet)
    | WorkerCheck(i: nat)
    | WorkerFlag(i: nat)
    | WorkerPublish(i: nat)
    | WorkerTimeout(i: nat)
    | Receive

  function Init(c: Config): State {
    State({}, ReadFirst, None, seq(|c.mapped|, _ => Unsent), false, [], None)
  }

  function Send(s: State, src: Endpoint, dst: Endpoint, kind: Kind, tid: int): State {
    s.(net := s.net + {Packet(src, dst, kind, tid)})
  }

  /** One read of handshakeC2S. The first read fixes the remote hole, and a packet that is
      neither a Handshake of this tunnel nor an Ack still ends in nil; later reads ignore the sender. */
  function DoConeRead(c: Config, s: State, p: Packet): State {
    if p !in s.net || p.dst != c.cone then s
    else if s.cone == ReadFirst then
      var t := s.(remoteHole := Some(p.src));
      if p.kind == Handshake && p.tid == c.tid then Send(t.(cone := WaitAck), c.cone, p.src, HandshakeAck, c.tid)
      else if p.kind == HandshakeAck then Send(t.(cone := Succeeded), c.cone, p.src, HandshakeAck, c.tid)
      else t.(cone := Succeeded)
    else if s.cone == WaitAck && s.remoteHole.Some? && p.kind == HandshakeAck && p.tid == c.tid then
      Send(s.(cone := Succeeded), c.cone, s.remoteHole.value, HandshakeAck, c.tid)
    else s
  }

  function SetPc(s: State, i: nat, pc: WorkerPc): State
    requires i < |s.workers|
  {
    s.(workers := s.workers[i := pc])
  }

  /** One read of a symmetric-side goroutine: its first, or one of its wait for an Ack. */
  function DoWorkerRead(c: Config, s: State, i: nat, p: Packet): State
    requires i < |s.workers| == |c.mapped|
  {
    if p !in s.net || p.dst != c.mapped[i] then s
    else if s.workers[i] == Reading then SetPc(s, i, Check(p))
    else if s.workers[i] == Waiting && p.kind == HandshakeAck && p.tid == c.tid then
      Send(SetPc(s, i, Acked), c.mapped[i], c.cone, HandshakeAck, c.tid)
    else s
  }

  function DoWorkerCheck(c: Config, s: State, i: nat): State
    requires i < |s.workers| == |c.mapped| && s.workers[i].Check?
  {
    var p := s.workers[i].p;
    if s.gotIt then SetPc(s, i, Finished)
    else if p.kind == Handshake && p.tid == c.tid then
      Send(SetPc(s, i, Waiting), c.mapped[i], c.cone, HandshakeAck, c.tid)
    else if p.kind == HandshakeAck then
      Send(SetPc(s, i, Acked), c.mapped[i], c.cone, HandshakeAck, c.tid)
    else SetPc(s, i, Finished)
  }

  function Do(c: Config, s: State, a: Action): (t: State)
    requires |s.workers| == |c.mapped|
    ensures |t.workers| == |c.mapped|
  {
    match a
    case Spray(dst) =>
      if s.cone in {Succeeded, Failed} || dst == c.cone then s else Send(s, c.cone, dst, Handshake, c.tid)
    case ConeRead(p) => DoConeRead(c, s, p)
    case ConeTimeout => if s.cone in {ReadFirst, WaitAck} then s.(cone := Failed) else s
    case WorkerSend(i) =>
      if i < |c.mapped| && s.workers[i] == Unsent then Send(SetPc(s, i, Reading), c.mapped[i], c.cone, Handshake, c.tid)
      else s
    case WorkerRead(i, p) => if i < |c.mapped| then DoWorkerRead(c, s, i, p) else s
    case WorkerCheck(i) => if i < |c.mapped| && s.workers[i].Check? then DoWorkerCheck(c, s, i) else s
    case WorkerFlag(i) => if i < |c.mapped| && s.workers[i] == Acked then SetPc(s, i, Publish).(gotIt := true) else s
    case WorkerPublish(i) =>
      if i < |c.mapped| && s.workers[i] == Publish then SetPc(s, i, Finished).(gotCh := s.gotCh + [i]) else s
    case WorkerTimeout(i) =>
      if i < |c.mapped| && s.workers[i] in {Reading, Waiting} then SetPc(s, i, Finished) else s
    case Receive =>
      if s.localHole.None? && s.gotCh != [] then s.(localHole := Some(s.gotCh[0])) else s
  }

  ghost function Run(c: Config, acts: seq<Action>): (s: State)
    ensures |s.workers| == |c.mapped|
  {
    if acts == [] then Init(c) else Do(c, Run(c, acts[..|acts| - 1]), acts[|acts| - 1])
  }

  /** Socket `i` is the one whose NAT mapping the cone side fixed. */
  predicate Chosen(c: Config, s: State, i: nat) {
    i < |c.mapped| && s.remoteHole == Some(c.mapped[i])
  }

  /** A packet that came from the cone side if it can reach a socket, and an Ack only for the hole. */
  ghost predicate Honest(c: Config, s: State, p: Packet) {
    && p.tid == c.tid && p.kind != OtherKind
    && (p.dst == c.cone ==> p.src in c.mapped)
    && (p.dst in c.mapped && p.kind == HandshakeAck ==> s.remoteHole == Some(p.dst))
  }

  ghost predicate WorkerInv(c: Config, s: State, i: nat)
    requires i < |s.workers| == |c.mapped|
  {
    && (s.workers[i].Check? ==> s.workers[i].p in s.net && s.workers[i].p.dst == c.mapped[i])
    && (s.workers[i] in {Acked, Publish} ==> Chosen(c, s, i))
    && (i in s.gotCh ==> Chosen(c, s, i) && s.workers[i] == Finished)
  }

  /** A goroutine that has answered has sent its Ack, and one that publishes has set gotIt. */
  ghost predicate SentInv(c: Config, s: State, i: nat)
    requires i < |s.workers| == |c.mapped|
  {
    && (Answering(s.workers[i]) || i in s.gotCh ==> Packet(c.mapped[i], c.cone, HandshakeAck, c.tid) in s.net)
    && (s.workers[i] == Publish || i in s.gotCh ==> s.gotIt)
  }

  /** The hole is fixed by the first read, and to an address of the symmetric NAT. */
  ghost predicate HoleInv(c: Config, s: State) {
    && (s.cone == ReadFirst ==> s.remoteHole == None)
    && (s.remoteHole.Some? ==> s.remoteHole.value in c.mapped)
  }

  /** A packet from the remote hole reached the cone side's address. */
  ghost predicate HeardHole(c: Config, s: State) {
    exists p :: p in s.net && p.dst == c.cone && s.remoteHole == Some(p.src)
  }

  /** Some Ack was sent to the cone side. */
  ghost predicate ConeAcked(c: Config, s: State) {
    exists p :: p in s.net && p.dst == c.cone && p.kind == HandshakeAck
  }

  ghost predicate ConeInv(c: Config, s: State) {
    && (s.cone in {WaitAck, Succeeded} ==> s.remoteHole.Some? && HeardHole(c, s))
    && (s.cone == Succeeded ==> ConeAcked(c, s))
  }

  ghost predicate ChannelInv(c: Config, s: State) {
    && (forall i :: i in s.gotCh ==> i < |c.mapped|)
    && (forall a, b :: 0 <= a < b < |s.gotCh| ==> s.gotCh[a] != s.gotCh[b])
    && (s.localHole.Some? ==> s.localHole.value in s.gotCh)
  }

  ghost predicate Inv(c: Config, s: State) {
    && |s.workers| == |c.mapped|
    && HoleInv(c, s) && ConeInv(c, s) && ChannelInv(c, s)
    && (forall p :: p in s.net ==> Honest(c, s, p))
    && (forall i :: 0 <= i < |c.mapped| ==> WorkerInv(c, s, i) && SentInv(c, s, i))
  }

  lemma DoHonest(c: Config, s: State, a: Action, p: Packet)
    requires Injective(c) && Inv(c, s) && p in Do(c, s, a).net
    ensures Honest(c, Do(c, s, a), p)
  {
    if p in s.net {
      assert Honest(c, s, p);
    }
    if a.ConeRead? && a.p in s.net {
      assert Honest(c, s, a.p);
    }
    if a.WorkerCheck? && a.i < |c.mapped| {
      assert WorkerInv(c, s, a.i);
    }
  }

  lemma DoWorker(c: Config, s: State, a: Action, i: nat)
    requires Injective(c) && Inv(c, s) && i < |c.mapped|
    ensures WorkerInv(c, Do(c, s, a), i)
  {
    assert WorkerInv(c, s, i);
    if a.WorkerRead? && a.p in s.net {
      assert Honest(c, s, a.p);
    }
    if a.WorkerCheck? && a.i < |c.mapped| && s.workers[a.i].Check? {
      assert WorkerInv(c, s, a.i);
      assert Honest(c, s, s.workers[a.i].p);
    }
  }

  lemma DoSent(c: Config, s: State, a: Action, i: nat)
    requires i < |s.workers| == |c.mapped| && SentInv(c, s, i)
    ensures SentInv(c, Do(c, s, a), i)
  {}

  lemma DoHole(c: Config, s: State, a: Action)
    requires Inv(c, s)
    ensures HoleInv(c, Do(c, s, a))
  {
    if a.ConeRead? && a.p in s.net {
      assert Honest(c, s, a.p);
    }
  }

  lemma DoCone(c: Config, s: State, a: Action)
    requires Inv(c, s)
    ensures ConeInv(c, Do(c, s, a))
  {
    var t := Do(c, s, a);
    assert s.net <= t.net;
    if HeardHole(c, s) && t.remoteHole == s.remoteHole {
      var p :| p in s.net && p.dst == c.cone && s.remoteHole == Some(p.src);
      assert p in t.net;
    }
    if ConeAcked(c, s) {
      var p :| p in s.net && p.dst == c.cone && p.kind == HandshakeAck;
      assert p in t.net;
    }
    if a.ConeRead? && a.p in s.net {
      assert Honest(c, s, a.p) && a.p in t.net;
    }
  }

  lemma DoChannel(c: Config, s: State, a: Action)
    requires Inv(c, s)
    ensures ChannelInv(c, Do(c, s, a))
  {
    if a.WorkerPublish? && a.i < |c.mapped| {
      assert WorkerInv(c, s, a.i);
    }
  }

  lemma DoInv(c: Config, s: State, a: Action)
    requires Injective(c) && Inv(c, s)
    ensures Inv(c, Do(c, s, a))
  {
    var t := Do(c, s, a);
    hide Do, HoleInv, ConeInv, ChannelInv, Honest, WorkerInv, SentInv;
    DoHole(c, s, a);
    DoCone(c, s, a);
    DoChannel(c, s, a);
    forall p | p in t.net ensures Honest(c, t, p) {
      DoHonest(c, s, a, p);
    }
    forall i | 0 <= i < |c.mapped| ensures WorkerInv(c, t, i) && SentInv(c, t, i) {
      DoWorker(c, s, a, i);
      DoSent(c, s, a, i);
    }
  }

  lemma {:induction false} RunInv(c: Config, acts: seq<Action>)
    requires Injective(c)
    ensures Inv(c, Run(c, acts))
  {
    if acts == [] {
    } else {
      RunInv(c, acts[..|acts| - 1]);
      DoInv(c, Run(c, acts[..|acts| - 1]), acts[|acts| - 1]);
    }
  }

  lemma OneSocket(c: Config, s: State, i: nat, j: nat)
    requires Injective(c) && Inv(c, s) && i in s.gotCh && j in s.gotCh
    ensures i == j && Chosen(c, s, i) && s.gotIt && Packet(c.mapped[i], c.cone, HandshakeAck, c.tid) in s.net
  {
    assert WorkerInv(c, s, i) && WorkerInv(c, s, j) && SentInv(c, s, i);
  }

  /** In every interleaving: if handshakeS2C returned a socket, its NAT mapping is the hole that
      handshakeC2S fixed and it has sent its Ack; and at most one value is ever sent on gotCh. */
  lemma HoleAgreement(c: Config, acts: seq<Action>)
    requires Injective(c)
    ensures var s := Run(c, acts);
            && (s.localHole.Some? ==>
                  && Chosen(c, s, s.localHole.value) && s.gotIt
                  && Packet(c.mapped[s.localHole.value], c.cone, HandshakeAck, c.tid) in s.net)
            && |s.gotCh| <= 1
  {
    RunInv(c, acts);
    var s := Run(c, acts);
    if s.localHole.Some? {
      OneSocket(c, s, s.localHole.value, s.localHole.value);
    }
    if |s.gotCh| > 1 {
      OneSocket(c, s, s.gotCh[0], s.gotCh[1]);
    }
  }

  /** In every interleaving: if handshakeC2S returned nil, the hole it fixed is the mapping of some socket,
      a packet from there reached it, and some socket has sent it an Ack. */
  lemma ConeSuccess(c: Config, acts: seq<Action>)
    requires Injective(c) && Run(c, acts).cone == Succeeded
    ensures var s := Run(c, acts);
            && (exists i :: Chosen(c, s, i))
            && (exists p :: p in s.net && p.dst == c.cone && s.remoteHole == Some(p.src))
            && (exists p :: p in s.net && p.dst == c.cone && p.kind == HandshakeAck && p.src in c.mapped)
  {
    RunInv(c, acts);
    var s := Run(c, acts);
    var i :| 0 <= i < |c.mapped| && c.mapped[i] == s.remoteHole.value;
    assert Chosen(c, s, i);
    var p :| p in s.net && p.dst == c.cone && p.kind == HandshakeAck;
    assert Honest(c, s, p);
  }

  /** A cone side that reads nothing fixes no hole and never succeeds. */
  lemma {:induction false} NothingRead(c: Config, acts: seq<Action>)
    requires forall a :: a in acts ==> !a.ConeRead?
    ensures Run(c, acts).cone in {ReadFirst, Failed} && Run(c, acts).remoteHole == None
  {
    if acts == [] {
    } else {
      NothingRead(c, acts[..|acts| - 1]);
      assert acts[|acts| - 1] in acts;
    }
  }

  /** The goroutine has answered a packet and is still at work. */
  predicate Answering(pc: WorkerPc) {
    pc in {Waiting, Acked, Publish}
  }

  /** Once some goroutine has set gotIt, the others that have not answered yet never do. */
  lemma {:induction false} NoLateAnswers(c: Config, s: State, acts: seq<Action>, i: nat)
    requires s.gotIt && i < |s.workers| == |c.mapped|
    ensures var t := RunFrom(c, s, acts); t.gotIt && (Answering(t.workers[i]) ==> Answering(s.workers[i]))
  {
    if acts == [] {
    } else {
      NoLateAnswers(c, s, acts[..|acts| - 1], i);
    }
  }

  ghost function RunFrom(c: Config, s: State, acts: seq<Action>): (t: State)
    requires |s.workers| == |c.mapped|
    ensures |t.workers| == |c.mapped|
  {
    if acts == [] then s else Do(c, RunFrom(c, s, acts[..|acts| - 1]), acts[|acts| - 1])
  }

  /** The tunnel id is checked while waiting for an Ack and on a first Handshake, but not on a first Ack: one
      of another tunnel makes handshakeC2S return nil. */
  lemma ForeignPackets(c: Config, s: State, p: Packet, i: nat)
    requires p.tid != c.tid && p in s.net && i < |s.workers| == |c.mapped|
    ensures s.cone == WaitAck ==> Do(c, s, ConeRead(p)) == s
    ensures s.workers[i] == Waiting ==> Do(c, s, WorkerRead(i, p)) == s
    ensures s.cone == ReadFirst && p.dst == c.cone && p.kind == Handshake ==>
              Do(c, s, ConeRead(p)) == s.(cone := Succeeded, remoteHole := Some(p.src))
    ensures s.cone == ReadFirst && p.dst == c.cone && p.kind == HandshakeAck ==> Do(c, s, ConeRead(p)).cone == Succeeded
    ensures s.workers[i] == Check(p) && !s.gotIt && p.kind == Handshake ==>
              Do(c, s, WorkerCheck(i)) == s.(workers := s.workers[i := Finished])
  {}

  lemma SocketFinishes(c: Config, acts: seq<Action>, i: nat) returns (r: seq<Action>)
    requires var s := Run(c, acts); i < |c.mapped| && s.workers[i] == Acked && s.gotCh == [] && s.localHole == None
    ensures r == acts + [WorkerFlag(i), WorkerPublish(i), Receive]
    ensures var s, t := Run(c, acts), Run(c, r);
            t.localHole == Some(i) && t.cone == s.cone && t.remoteHole == s.remoteHole
  {
    r := Then(c, acts, WorkerFlag(i));
    r := Then(c, r, WorkerPublish(i));
    r := Then(c, r, Receive);
  }

  /** The agreement is not empty: for any number of sockets, each of them is the hole of some run in
      which both sides return nil. */
  lemma PunchSucceeds(c: Config, i: nat)
    requires Injective(c) && i < |c.mapped|
    ensures exists acts :: var s := Run(c, acts);
              s.cone == Succeeded && s.remoteHole == Some(c.mapped[i]) && s.localHole == Some(i)
  {
    var m := c.mapped[i];
    var r := Then(c, [], WorkerSend(i));
    r := Then(c, r, ConeRead(Packet(m, c.cone, Handshake, c.tid)));
    r := Then(c, r, WorkerRead(i, Packet(c.cone, m, HandshakeAck, c.tid)));
    r := Then(c, r, WorkerCheck(i));
    r := Then(c, r, ConeRead(Packet(m, c.cone, HandshakeAck, c.tid)));
    r := SocketFinishes(c, r, i);
  }

  /** They also succeed when the symmetric side's first packets are lost: the cone side's spray finds the
      mapping of a socket, and its first read is that socket's Ack. */
  lemma SpraySucceeds(c: Config, i: nat)
    requires Injective(c) && i < |c.mapped|
    ensures exists acts :: var s := Run(c, acts);
              s.cone == Succeeded && s.remoteHole == Some(c.mapped[i]) && s.localHole == Some(i)
              && forall a: Action :: a in acts && a.ConeRead? ==> a.p.kind == HandshakeAck
  {
    var r := SprayAnswered(c, i);
    r := Then(c, r, ConeRead(Packet(c.mapped[i], c.cone, HandshakeAck, c.tid)));
    r := Then(c, r, WorkerRead(i, Packet(c.cone, c.mapped[i], HandshakeAck, c.tid)));
    r := SocketFinishes(c, r, i);
  }

  lemma SprayAnswered(c: Config, i: nat) returns (r: seq<Action>)
    requires Injective(c) && i < |c.mapped|
    ensures var s, m := Run(c, r), c.mapped[i];
            && s.cone == ReadFirst && s.workers[i] == Waiting && s.gotCh == [] && s.localHole == None
            && Packet(m, c.cone, HandshakeAck, c.tid) in s.net && forall a :: a in r ==> !a.ConeRead?
  {
    r := Then(c, [], WorkerSend(i));
    r := Then(c, r, Spray(c.mapped[i]));
    r := Then(c, r, WorkerRead(i, Packet(c.cone, c.mapped[i], Handshake, c.tid)));
    r := Then(c, r, WorkerCheck(i));
  }

  lemma Then(c: Config, acts: seq<Action>, a: Action) returns (r: seq<Action>)
    ensures r == acts + [a] && Run(c, r) == Do(c, Run(c, acts), a)
  {
    r := acts + [a];
    assert r[..|acts|] == acts;
  }

  /** A cone side that has returned has closed its socket: it sends nothing more. */
  lemma {:induction false} ConeSilent(c: Config, s: State, acts: seq<Action>, p: Packet)
    requires Injective(c) && |s.workers| == |c.mapped| && s.cone in {Succeeded, Failed} && p.src == c.cone
    ensures RunFrom(c, s, acts).cone == s.cone && (p in RunFrom(c, s, acts).net <==> p in s.net)
  {
    if acts == [] {
    } else {
      ConeSilent(c, s, acts[..|acts| - 1], p);
    }
  }

  /** Neither side can get stuck: the cone side can always return, ... */
  lemma ConeCanReturn(c: Config, s: State)
    requires |s.workers| == |c.mapped| && s.cone in {ReadFirst, WaitAck}
    ensures Do(c, s, ConeTimeout) == s.(cone := Failed)
  {}

  function StepsLeft(pc: WorkerPc): nat {
    match pc
    case Unsent => 6
    case Reading => 5
    case Check(_) => 4
    case Waiting => 3
    case Acked => 2
    case Publish => 1
    case Finished => 0
  }

  /** ... and every goroutine of the symmetric side can end: it always has a step that brings its end nearer. */
  lemma WorkerCanStep(c: Config, s: State, i: nat) returns (a: Action)
    requires i < |s.workers| == |c.mapped| && s.workers[i] != Finished
    ensures StepsLeft(Do(c, s, a).workers[i]) < StepsLeft(s.workers[i])
  {
    match s.workers[i]
    case Unsent => a := WorkerSend(i);
    case Reading => a := WorkerTimeout(i);
    case Check(_) => a := WorkerCheck(i);
    case Waiting => a := WorkerTimeout(i);
    case Acked => a := WorkerFlag(i);
    case Publish => a := WorkerPublish(i);
  }
}
