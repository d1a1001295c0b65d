/** TUN generations of core/optun_ohos.go together with StartTun of core/sdwan.go: instances are started
    at most once, and starting one registers its two loops in the same step. Locked sections are single
    steps; an action that is not enabled leaves the state as it is. */
module Tun {
  import opened Basics

  const QueueSize := 1000

  /** A packet put in an instance's readCh, and whether that instance was current at that moment. */
  datatype Injected = Injected(packet: int, current: bool)

  datatype Instance = Instance(
    done: bool,              // the done channel is closed
    readLoop: bool,          // readTunLoop is running
    nodeLoop: bool,          // readNodeLoop is running
    readCh: seq<int>,
    injected: seq<Injected>, // everything ever put in readCh
    returned: seq<int>)      // everything Read has returned

  datatype StopPc = Closing | Joining | Unlinking

  datatype State = State(
    ohosTun: Option<nat>,
    generation: nat,
    instances: map<nat, Instance>,
    injectors: map<nat, (nat, int)>, // OhosRead calls that have picked their instance
    stoppers: map<nat, (nat, StopPc)>,
    calls: nat)                     // numbers for calls

  datatype Action =
    | Start(i: nat)
    | OhosRead(packet: int) | Enqueue(c: nat) | Drop(c: nat)
    | Read(i: nat) | ReadLoopEnds(i: nat) | NodeLoopEnds(i: nat)
    | Stop(i: nat) | StopStep(c: nat)

  const Begin := State(None, 0, map[], map[], map[], 0)

  const Started := Instance(false, true, true, [], [], [])

  const Refused := Instance(false, false, false, [], [], [])

  function Update(s: State, i: nat, t: Instance): State {
    s.(instances := s.instances[i := t])
  }

  function DoStop(s: State, c: nat): State
    requires c in s.stoppers
  {
    var (i, pc) := s.stoppers[c];
    if i !in s.instances then s
    else
      var t := s.instances[i];
      match pc
      case Closing => Update(s, i, t.(done := true)).(stoppers := s.stoppers[c := (i, Joining)])
      case Joining => if t.readLoop || t.nodeLoop then s else s.(stoppers := s.stoppers[c := (i, Unlinking)])
      case Unlinking =>
        var u := s.(stoppers := s.stoppers - {c});
        if s.ohosTun == Some(i) then u.(ohosTun := None, generation := s.generation + 1) else u
  }

  function Do(s: State, a: Action): State {
    match a
    case Start(i) =>
      if i in s.instances then s
      else if s.ohosTun.Some? then Update(s, i, Refused)
      else Update(s, i, Started).(ohosTun := Some(i), generation := s.generation + 1)
    case OhosRead(p) =>
      if s.ohosTun.None? then s
      else s.(injectors := s.injectors[s.calls := (s.ohosTun.value, p)], calls := s.calls + 1)
    case Enqueue(c) =>
      if c in s.injectors && s.injectors[c].0 in s.instances then
        var (i, p) := s.injectors[c];
        var t := s.instances[i];
        if |t.readCh| < QueueSize then
          Update(s, i, t.(readCh := t.readCh + [p], injected := t.injected + [Injected(p, s.ohosTun == Some(i))]))
            .(injectors := s.injectors - {c})
        else s
      else s
    case Drop(c) => s.(injectors := s.injectors - {c})
    case Read(i) =>
      if i in s.instances && s.instances[i].readLoop && s.instances[i].readCh != [] then
        var t := s.instances[i];
        Update(s, i, t.(readCh := t.readCh[1..], returned := t.returned + [t.readCh[0]]))
      else s
    case ReadLoopEnds(i) =>
      if i in s.instances && s.instances[i].done then Update(s, i, s.instances[i].(readLoop := false)) else s
    case NodeLoopEnds(i) =>
      if i in s.instances && s.instances[i].done then Update(s, i, s.instances[i].(nodeLoop := false)) else s
    case Stop(i) =>
      if i in s.instances then s.(stoppers := s.stoppers[s.calls := (i, Closing)], calls := s.calls + 1) else s
    case StopStep(c) => if c in s.stoppers then DoStop(s, c) else s
  }

  ghost function Run(acts: seq<Action>): State {
    if acts == [] then Begin else Do(Run(acts[..|acts| - 1]), acts[|acts| - 1])
  }

  predicate Active(t: Instance) {
    t.readLoop || t.nodeLoop
  }

  /** What Read returned, followed by what is still queued, is what was injected, in order. */
  ghost predicate Ordered(t: Instance) {
    && |t.injected| == |t.returned| + |t.readCh|
    && (forall k :: 0 <= k < |t.returned| ==> t.injected[k].packet == t.returned[k])
    && (forall k :: 0 <= k < |t.readCh| ==> t.injected[|t.returned| + k].packet == t.readCh[k])
  }

  /** An instance takes packets from its own time only, and Read has returned no others. */
  ghost predicate CurrentOnly(s: State, i: nat)
    requires i in s.instances
  {
    var t := s.instances[i];
    && |t.returned| <= |t.injected|
    && (s.ohosTun == Some(i) ==> forall k :: 0 <= k < |t.injected| ==> t.injected[k].current)
    && (forall k :: 0 <= k < |t.returned| ==> t.injected[k].current)
  }

  ghost predicate InstanceInv(s: State, i: nat)
    requires i in s.instances
  {
    && (Active(s.instances[i]) ==> s.ohosTun == Some(i))
    && Ordered(s.instances[i])
    && CurrentOnly(s, i)
  }

  ghost predicate StopperInv(s: State, c: nat)
    requires c in s.stoppers
  {
    var (i, pc) := s.stoppers[c];
    i in s.instances && (pc == Unlinking ==> !Active(s.instances[i]))
  }

  ghost predicate Inv(s: State) {
    && (s.generation % 2 == 1 <==> s.ohosTun.Some?)
    && (s.ohosTun.Some? ==> s.ohosTun.value in s.instances)
    && (forall i :: i in s.instances ==> InstanceInv(s, i))
    && (forall c :: c in s.stoppers ==> StopperInv(s, c))
  }

  lemma DoOrdered(s: State, a: Action, i: nat)
    requires i in s.instances && Ordered(s.instances[i]) && i in Do(s, a).instances
    ensures Ordered(Do(s, a).instances[i])
  {
    var t, u := s.instances[i], Do(s, a).instances[i];
    if a.Read? && u.returned != t.returned {
      forall k | 0 <= k < |u.readCh| ensures u.injected[|u.returned| + k].packet == u.readCh[k] {
        assert t.injected[|t.returned| + (k + 1)].packet == t.readCh[k + 1];
      }
    }
  }

  /** An instance that is not active stays so: instances start once. */
  lemma StaysInactive(s: State, a: Action, i: nat)
    requires i in s.instances
    ensures i in Do(s, a).instances && (Active(Do(s, a).instances[i]) ==> Active(s.instances[i]))
  {}

  lemma DoActive(s: State, a: Action, i: nat)
    requires Inv(s) && i in Do(s, a).instances
    ensures Active(Do(s, a).instances[i]) ==> Do(s, a).ohosTun == Some(i)
  {
    if i in s.instances {
      assert InstanceInv(s, i);
      StaysInactive(s, a, i);
      if a.StopStep? && a.c in s.stoppers {
        assert StopperInv(s, a.c);
      }
      hide Ordered, CurrentOnly;
    }
  }

  lemma DoCurrent(s: State, a: Action, i: nat)
    requires i in s.instances && InstanceInv(s, i) && i in Do(s, a).instances
    ensures CurrentOnly(Do(s, a), i)
  {}

  lemma DoInstance(s: State, a: Action, i: nat)
    requires Inv(s) && i in Do(s, a).instances
    ensures InstanceInv(Do(s, a), i)
  {
    DoActive(s, a, i);
    if i in s.instances {
      assert InstanceInv(s, i);
      DoOrdered(s, a, i);
      DoCurrent(s, a, i);
    }
  }

  lemma DoStopper(s: State, a: Action, c: nat)
    requires Inv(s) && c in Do(s, a).stoppers
    ensures StopperInv(Do(s, a), c)
  {
    if c in s.stoppers {
      assert StopperInv(s, c);
      StaysInactive(s, a, s.stoppers[c].0);
      hide InstanceInv, Active;
    } else {
      assert a.Stop?;
    }
  }

  lemma DoParity(s: State, a: Action)
    requires Inv(s)
    ensures Do(s, a).generation % 2 == 1 <==> Do(s, a).ohosTun.Some?
    ensures Do(s, a).ohosTun.Some? ==> Do(s, a).ohosTun.value in Do(s, a).instances
  {}

  lemma DoInv(s: State, a: Action)
    requires Inv(s)
    ensures Inv(Do(s, a))
  {
    DoParity(s, a);
    forall i | i in Do(s, a).instances ensures InstanceInv(Do(s, a), i) {
      DoInstance(s, a, i);
    }
    forall c | c in Do(s, a).stoppers ensures StopperInv(Do(s, a), c) {
      DoStopper(s, a, c);
    }
  }

  lemma {:induction false} RunInv(acts: seq<Action>)
    ensures Inv(Run(acts))
  {
    if acts == [] {
    } else {
      RunInv(acts[..|acts| - 1]);
      DoInv(Run(acts[..|acts| - 1]), acts[|acts| - 1]);
    }
  }

  /** In every interleaving at most one instance is active, and the generation is odd exactly while one
      is current. */
  lemma OneGeneration(acts: seq<Action>, i: nat, j: nat)
    requires i in Run(acts).instances && j in Run(acts).instances
    ensures Active(Run(acts).instances[i]) && Active(Run(acts).instances[j]) ==> i == j
    ensures Active(Run(acts).instances[i]) ==> Run(acts).ohosTun == Some(i)
    ensures Run(acts).generation % 2 == 1 <==> Run(acts).ohosTun.Some?
  {
    RunInv(acts);
    assert InstanceInv(Run(acts), i) && InstanceInv(Run(acts), j);
  }

  /** A Start that succeeds finds both loops of every earlier instance gone. */
  lemma StartAfterOldLoops(acts: seq<Action>, i: nat, j: nat)
    requires j in Run(acts).instances && i !in Run(acts).instances
    ensures Do(Run(acts), Start(i)).ohosTun == Some(i) ==> !Active(Run(acts).instances[j])
  {
    RunInv(acts);
    assert InstanceInv(Run(acts), j);
  }

  /** What Read has returned is a prefix of what was injected, in order and without gaps, and each of
      those packets was injected while its instance was the current one. */
  lemma ReadInOrder(acts: seq<Action>, i: nat, k: nat)
    requires i in Run(acts).instances && k < |Run(acts).instances[i].returned|
    ensures var t := Run(acts).instances[i];
            k < |t.injected| && t.injected[k] == Injected(t.returned[k], true)
  {
    RunInv(acts);
    assert InstanceInv(Run(acts), i);
  }

  // ----- stopping one instance makes room for the next

  ghost function RunFrom(s: State, acts: seq<Action>): State
    decreases |acts|
  {
    if acts == [] then s else RunFrom(Do(s, acts[0]), acts[1..])
  }

  /** The steps of one Stop call, in which both loops notice the closed channel. */
  function StopOf(i: nat, c: nat): seq<Action> {
    [Stop(i), StopStep(c), ReadLoopEnds(i), NodeLoopEnds(i), StopStep(c), StopStep(c)]
  }

  lemma Steps(s: State, a: Action, acts: seq<Action>)
    ensures RunFrom(s, [a] + acts) == RunFrom(Do(s, a), acts)
  {
    assert ([a] + acts)[1..] == acts;
  }

  lemma StopCompletes(s: State, i: nat)
    requires i in s.instances && s.ohosTun == Some(i)
    ensures var t := RunFrom(s, StopOf(i, s.calls));
            && t.ohosTun == None && t.generation == s.generation + 1
            && t.instances.Keys == s.instances.Keys && !Active(t.instances[i])
  {
    var c := s.calls;
    var s1 := Do(s, Stop(i));
    var s2 := Do(s1, StopStep(c));
    var s3 := Do(s2, ReadLoopEnds(i));
    var s4 := Do(s3, NodeLoopEnds(i));
    var s5 := Do(s4, StopStep(c));
    Steps(s, Stop(i), [StopStep(c), ReadLoopEnds(i), NodeLoopEnds(i), StopStep(c), StopStep(c)]);
    Steps(s1, StopStep(c), [ReadLoopEnds(i), NodeLoopEnds(i), StopStep(c), StopStep(c)]);
    Steps(s2, ReadLoopEnds(i), [NodeLoopEnds(i), StopStep(c), StopStep(c)]);
    Steps(s3, NodeLoopEnds(i), [StopStep(c), StopStep(c)]);
    Steps(s4, StopStep(c), [StopStep(c)]);
    Steps(s5, StopStep(c), []);
    assert s1 == s.(stoppers := s.stoppers[c := (i, Closing)], calls := c + 1);
    StopOnce(s1, s2, s3, s4, s5, i, c);
  }

  /** What the steps of that call do, one after the other. */
  lemma StopOnce(s1: State, s2: State, s3: State, s4: State, s5: State, i: nat, c: nat)
    requires i in s1.instances && s1.ohosTun == Some(i) && c in s1.stoppers && s1.stoppers[c] == (i, Closing)
    requires s2 == Do(s1, StopStep(c)) && s3 == Do(s2, ReadLoopEnds(i)) && s4 == Do(s3, NodeLoopEnds(i))
    requires s5 == Do(s4, StopStep(c))
    ensures var t := Do(s5, StopStep(c));
            && t.ohosTun == None && t.generation == s1.generation + 1
            && t.instances.Keys == s1.instances.Keys && !Active(t.instances[i])
  {
    assert s2.instances.Keys == s1.instances.Keys && s2.instances[i].done && s2.stoppers[c] == (i, Joining);
    assert s3.instances.Keys == s1.instances.Keys && !s3.instances[i].readLoop && s3.instances[i].done;
    assert s4.instances.Keys == s1.instances.Keys && !Active(s4.instances[i]) && s4.stoppers[c] == (i, Joining);
    assert s5 == s4.(stoppers := s4.stoppers[c := (i, Unlinking)]);
  }

  /** A Stop of the current instance can complete from any reachable state; then none is current, and the
      next instance that starts becomes current, one generation further. */
  lemma StopThenStart(before: seq<Action>, i: nat, j: nat)
    requires Run(before).ohosTun == Some(i) && j !in Run(before).instances
    ensures var s := Run(before);
            var t := RunFrom(s, StopOf(i, s.calls));
            && t.ohosTun == None && t.generation == s.generation + 1 && i in t.instances && !Active(t.instances[i])
            && Do(t, Start(j)).ohosTun == Some(j) && Do(t, Start(j)).generation == s.generation + 2
            && Active(Do(t, Start(j)).instances[j])
  {
    RunInv(before);
    hide Run, RunFrom;
    var s := Run(before);
    StopCompletes(s, i);
    assert j !in RunFrom(s, StopOf(i, s.calls)).instances.Keys;
  }

  /** While an instance is current every other Start is refused, and changes nothing else. */
  lemma StartRefused(s: State, j: nat)
    requires s.ohosTun.Some? && j !in s.instances
    ensures var t := Do(s, Start(j));
            t.ohosTun == s.ohosTun && t.generation == s.generation && !Active(t.instances[j])
  {}

  /** No queue ever holds more than 1000 packets. */
  lemma {:induction false} QueueBounded(acts: seq<Action>, i: nat)
    ensures i in Run(acts).instances ==> |Run(acts).instances[i].readCh| <= 1000
  {
    if acts == [] {
    } else {
      QueueBounded(acts[..|acts| - 1], i);
      DoQueue(Run(acts[..|acts| - 1]), acts[|acts| - 1], i);
    }
  }

  lemma DoQueue(s: State, a: Action, i: nat)
    requires i in s.instances ==> |s.instances[i].readCh| <= 1000
    ensures i in Do(s, a).instances ==> |Do(s, a).instances[i].readCh| <= 1000
  {}

  /** With room in the queue an injected packet gets through: OhosRead, then Read, returns it. */
  lemma InjectedIsRead(before: seq<Action>, i: nat, p: int)
    requires var s := Run(before);
             s.ohosTun == Some(i) && i in s.instances && s.instances[i].readLoop && s.instances[i].readCh == []
    ensures var s := Run(before);
            var t := Do(Do(Do(s, OhosRead(p)), Enqueue(s.calls)), Read(i));
            t.instances[i].returned == s.instances[i].returned + [p]
  {}

  /** A call of OhosRead never blocks: it can always drop its packet and return. */
  lemma InjectorCanEnd(s: State, c: nat)
    ensures Do(s, Drop(c)) == s.(injectors := s.injectors - {c})
  {}

  /** Both loops of the current instance run until it is told to stop. */
  lemma {:induction false} LoopsUntilStop(acts: seq<Action>, i: nat)
    ensures var s := Run(acts);
            s.ohosTun == Some(i) && i in s.instances && !s.instances[i].done ==>
              s.instances[i].readLoop && s.instances[i].nodeLoop
  {
    if acts == [] {
    } else {
      LoopsUntilStop(acts[..|acts| - 1], i);
      RunInv(acts[..|acts| - 1]);
      LoopsStep(Run(acts[..|acts| - 1]), acts[|acts| - 1], i);
    }
  }

  lemma LoopsStep(s: State, a: Action, i: nat)
    requires s.ohosTun == Some(i) ==> i in s.instances
    requires s.ohosTun == Some(i) && !s.instances[i].done ==> s.instances[i].readLoop && s.instances[i].nodeLoop
    ensures var t := Do(s, a);
            t.ohosTun == Some(i) && i in t.instances && !t.instances[i].done ==>
              t.instances[i].readLoop && t.instances[i].nodeLoop
  {}
}
