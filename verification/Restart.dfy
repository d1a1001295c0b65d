/** The reconnect machine of core/p2pnetwork.go: init, run, close and shutdown, on the hosts where a
    stuck reconnect does not exit the process. Every statement that touches shared state is a step of
    its own; an action that is not enabled leaves the state as it is. */
module Restart {
  import opened Basics

  /** Where a call of close stands; `Ready` is about to offer to restartCh. */
  datatype ClosePc = Entered | Checked | SawRunning | ClosedConn | Ready

  datatype Closer = Closer(pc: ClosePc, delay: bool)

  /** init: dialing, then running = true, online = true, conn = ws; `Failing` is inside its own close. */
  datatype InitPc = Dialing | SetRunning | SetOnline | SetConn | Failing(closer: nat)

  /** The goroutine that runs the first init and then the run loop. */
  datatype Phase =
    | Initialising(pc: InitPc)
    | Idle                   // in the select of run
    | GotRestart(delay: bool)
    | Waiting(delay: bool)   // for wgReconnect, at most 30 s
    | Stopped

  datatype State = State(
    shutdown: bool,
    running: bool,
    online: bool,
    conn: Option<nat>,
    nextConn: nat,
    closed: set<nat>,           // connections that close or shutdown has closed
    restartCh: Option<bool>,    // capacity 1
    closers: map<nat, Closer>,  // calls of close in progress
    nextCloser: nat,
    loops: nat,                 // the read loops and autorunApp loops registered in wgReconnect
    phase: Phase)

  datatype Action =
    | StartClose(delay: bool) | CloseStep(k: nat)
    | DialOk | InitStep | InitFails | InitReturns
    | Receive | GoOffline | WaitDone | WaitTimeout | LeaveLoop
    | LoopStarts | LoopEnds | LoginRejected | Shutdown

  const Begin := State(false, true, false, None, 0, {}, None, map[], 0, 0, Initialising(Dialing))

  function AddCloser(s: State, delay: bool): State {
    s.(closers := s.closers[s.nextCloser := Closer(Entered, delay)], nextCloser := s.nextCloser + 1)
  }

  function DoClose(s: State, k: nat): State
    requires k in s.closers
  {
    var c := s.closers[k];
    var gone := s.(closers := s.closers - {k});
    match c.pc
    case Entered => if s.shutdown then gone else s.(closers := s.closers[k := c.(pc := Checked)])
    case Checked => s.(closers := s.closers[k := c.(pc := if s.running then SawRunning else Ready)])
    case SawRunning =>
      s.(closers := s.closers[k := c.(pc := ClosedConn)],
         closed := if s.conn.Some? then s.closed + {s.conn.value} else s.closed)
    case ClosedConn => s.(closers := s.closers[k := c.(pc := Ready)], running := false)
    case Ready => gone.(restartCh := if s.restartCh.None? then Some(c.delay) else s.restartCh)
  }

  function DoInit(s: State, pc: InitPc, a: Action): State {
    match (a, pc)
    case (DialOk, Dialing) => s.(running := true, phase := Initialising(SetRunning))
    case (InitStep, SetRunning) => s.(online := true, phase := Initialising(SetOnline))
    case (InitStep, SetOnline) =>
      s.(conn := Some(s.nextConn), nextConn := s.nextConn + 1, phase := Initialising(SetConn))
    case (InitFails, Dialing) => AddCloser(s, true).(phase := Initialising(Failing(s.nextCloser)))
    case (InitFails, SetConn) => AddCloser(s, true).(phase := Initialising(Failing(s.nextCloser)))
    case (InitReturns, SetConn) => s.(phase := Idle)
    case (InitReturns, Failing(k)) => if k in s.closers then s else s.(phase := Idle)
    case _ => s
  }

  function Do(s: State, a: Action): State {
    match a
    case StartClose(delay) => AddCloser(s, delay)
    case CloseStep(k) => if k in s.closers then DoClose(s, k) else s
    case Receive =>
      if s.phase == Idle && s.restartCh.Some? then s.(restartCh := None, phase := GotRestart(s.restartCh.value)) else s
    case GoOffline =>
      if !s.phase.GotRestart? then s
      else if s.shutdown then s.(phase := Stopped)
      else s.(online := false, phase := Waiting(s.phase.delay))
    case WaitDone => if s.phase.Waiting? && s.loops == 0 then s.(phase := Initialising(Dialing)) else s
    case WaitTimeout =>
      if s.phase.Waiting?
      then s.(restartCh := if s.restartCh.None? then Some(s.phase.delay) else s.restartCh, phase := Idle) else s
    case LeaveLoop => if s.shutdown && (s.phase == Idle || s.phase.Waiting?) then s.(phase := Stopped) else s
    case LoopStarts => s.(loops := s.loops + 1)
    case LoopEnds => if s.loops > 0 && !(s.running && s.online) then s.(loops := s.loops - 1) else s
    case LoginRejected => s.(running := false)
    case Shutdown =>
      s.(shutdown := true, running := false, online := false,
         closed := if s.conn.Some? then s.closed + {s.conn.value} else s.closed)
    case _ => if s.phase.Initialising? then DoInit(s, s.phase.pc, a) else s
  }

  ghost function Run(acts: seq<Action>): State {
    if acts == [] then Begin else Do(Run(acts[..|acts| - 1]), acts[|acts| - 1])
  }

  predicate ConnLost(s: State) {
    s.conn.Some? && s.conn.value in s.closed
  }

  /** A restart is queued or some close call will still queue one. */
  predicate Pending(s: State) {
    s.restartCh.Some? || s.closers != map[]
  }

  ghost predicate Numbered(s: State) {
    && (forall n :: n in s.closed ==> n < s.nextConn)
    && (s.conn.Some? ==> s.conn.value < s.nextConn)
    && (forall k :: k in s.closers ==> k < s.nextCloser)
  }

  ghost predicate Kept(s: State) {
    && s.phase != Stopped
    && (s.phase.Waiting? ==> !s.online)
    && (s.phase == Idle ==> (s.online && !ConnLost(s)) || Pending(s))
    && (s.phase == Initialising(SetOnline) ==> s.online)
    && (s.phase == Initialising(SetConn) ==> s.online && (ConnLost(s) ==> Pending(s)))
    && (s.phase.Initialising? && s.phase.pc.Failing? && s.phase.pc.closer !in s.closers ==> s.restartCh.Some?)
  }

  ghost predicate Inv(s: State) {
    Numbered(s) && (!s.shutdown ==> Kept(s))
  }

  lemma CloseStepKept(s: State, k: nat)
    requires Inv(s) && k in s.closers && !s.shutdown
    ensures Kept(DoClose(s, k))
  {
    var t := DoClose(s, k);
    if s.closers[k].pc != Ready {
      assert k in t.closers;
    }
  }

  lemma InitStepKept(s: State, a: Action)
    requires Inv(s) && s.phase.Initialising? && !s.shutdown
    ensures Kept(DoInit(s, s.phase.pc, a))
  {}

  lemma OtherKept(s: State, a: Action)
    requires Inv(s) && !a.CloseStep? && !Do(s, a).shutdown
    requires a.StartClose? ||
             a in {Receive, GoOffline, WaitDone, WaitTimeout, LeaveLoop, LoopStarts, LoopEnds, LoginRejected}
    ensures Kept(Do(s, a))
  {
    if a.StartClose? {
      assert s.nextCloser in Do(s, a).closers;
    }
  }

  lemma DoNumbered(s: State, a: Action)
    requires Numbered(s)
    ensures Numbered(Do(s, a))
  {}

  lemma DoInv(s: State, a: Action)
    requires Inv(s)
    ensures Inv(Do(s, a))
  {
    DoNumbered(s, a);
    if !Do(s, a).shutdown {
      match a
      case CloseStep(k) =>
        if k in s.closers {
          CloseStepKept(s, k);
        }
      case StartClose(_) => OtherKept(s, a);
      case Receive => OtherKept(s, a);
      case GoOffline => OtherKept(s, a);
      case WaitDone => OtherKept(s, a);
      case WaitTimeout => OtherKept(s, a);
      case LeaveLoop => OtherKept(s, a);
      case LoopStarts => OtherKept(s, a);
      case LoopEnds => OtherKept(s, a);
      case LoginRejected => OtherKept(s, a);
      case _ =>
        if s.phase.Initialising? {
          InitStepKept(s, a);
        }
    }
  }

  lemma {:induction false} RunInv(acts: seq<Action>)
    ensures Inv(Run(acts))
  {
    if acts == [] {
    } else {
      RunInv(acts[..|acts| - 1]);
      DoInv(Run(acts[..|acts| - 1]), acts[|acts| - 1]);
    }
  }

  /** In every interleaving, before shutdown: if the network is offline or close has closed its
      connection, then a restart is queued, init or the restart handler is running, or a close call is
      still in progress. A wait that times out with the queue full changes nothing of that. */
  lemma IntentNeverLost(acts: seq<Action>)
    ensures var s := Run(acts);
            !s.shutdown && (!s.online || ConnLost(s)) ==>
              s.restartCh.Some? || s.phase !in {Idle, Stopped} || s.closers != map[]
  {
    RunInv(acts);
  }

  // ----- the intent leads somewhere

  ghost function RunFrom(s: State, acts: seq<Action>): State
    decreases |acts|
  {
    if acts == [] then s else RunFrom(Do(s, acts[0]), acts[1..])
  }

  function Rank(pc: ClosePc): nat {
    match pc
    case Entered => 5
    case Checked => 4
    case SawRunning => 3
    case ClosedConn => 2
    case Ready => 1
  }

  /** Left alone, a close call ends with a restart queued; if it found the network running it leaves it
      stopped, with its connection closed, and otherwise it closes nothing. */
  lemma {:induction false} FinishClose(s: State, k: nat) returns (acts: seq<Action>)
    requires !s.shutdown && k in s.closers
    ensures var t := RunFrom(s, acts);
            !t.shutdown && k !in t.closers && t.restartCh.Some? && t.phase == s.phase
    ensures var t, pc := RunFrom(s, acts), s.closers[k].pc;
            && t.conn == s.conn && s.closed <= t.closed
            && t.restartCh == (if s.restartCh.Some? then s.restartCh else Some(s.closers[k].delay))
            && (pc == ClosedConn || !s.running ==> !t.running)
            && (pc in {ClosedConn, Ready} || (!s.running && pc != SawRunning) ==> t.closed == s.closed)
            && (pc == SawRunning || (s.running && pc in {Entered, Checked}) ==>
                  !t.running && (s.conn.Some? ==> ConnLost(t)))
    decreases Rank(s.closers[k].pc)
  {
    var t := DoClose(s, k);
    assert Do(s, CloseStep(k)) == t;
    if s.closers[k].pc == Ready {
      acts := [CloseStep(k)];
      assert RunFrom(s, acts) == RunFrom(t, acts[1..]) == t;
    } else {
      var rest := FinishClose(t, k);
      acts := [CloseStep(k)] + rest;
      assert acts[1..] == rest;
    }
  }

  lemma {:induction false} RunFromConcat(s: State, a: seq<Action>, b: seq<Action>)
    ensures RunFrom(s, a + b) == RunFrom(RunFrom(s, a), b)
    decreases |a|
  {
    if a == [] {
      assert a + b == b;
    } else {
      RunFromConcat(Do(s, a[0]), a[1..], b);
      assert (a + b)[1..] == a[1..] + b;
    }
  }

  lemma One(s: State, a: Action)
    ensures RunFrom(s, [a]) == Do(s, a)
  {
    assert [a][1..] == [];
    assert RunFrom(s, [a]) == RunFrom(Do(s, a), []);
  }

  /** The handler reaches init: it goes offline, the loops registered in wgReconnect end, and the wait
      for them ends in time. */
  lemma HandlerDials(s: State) returns (acts: seq<Action>)
    requires !s.shutdown && (s.phase.GotRestart? || s.phase.Waiting? || (s.phase == Idle && s.restartCh.Some?))
    requires s.phase.Waiting? ==> !s.online
    ensures RunFrom(s, acts).phase == Initialising(Dialing)
    decreases if s.phase == Idle then 2 else if s.phase.GotRestart? then 1 else 0, s.loops
  {
    var a := if s.phase == Idle then Receive else if s.phase.GotRestart? then GoOffline
             else if s.loops > 0 then LoopEnds else WaitDone;
    One(s, a);
    acts := [a];
    if a != WaitDone {
      var rest := HandlerDials(Do(s, a));
      RunFromConcat(s, [a], rest);
      acts := [a] + rest;
    }
  }

  /** In every reachable state before shutdown, unless a dial is under way or the network is up, some
      continuation of the run dials again. It lets every registered loop end: once the handler has gone
      offline autorunApp's condition is false, and a read loop fails, or times out after 60 s. */
  lemma CanAlwaysRedial(before: seq<Action>) returns (after: seq<Action>)
    requires !Run(before).shutdown
    requires Run(before).phase.Initialising? ==> Run(before).phase.pc.Failing?
    requires Run(before).phase == Idle ==> !Run(before).online || ConnLost(Run(before))
    ensures RunFrom(Run(before), after).phase == Initialising(Dialing)
  {
    RunInv(before);
    var s := Run(before);
    after := [];
    if s.phase == Idle && s.restartCh.None? {
      var k :| k in s.closers;
      after := FinishClose(s, k);
    } else if s.phase.Initialising? {
      var k := s.phase.pc.closer;
      if k in s.closers {
        after := FinishClose(s, k);
      }
      One(RunFrom(s, after), InitReturns);
      RunFromConcat(s, after, [InitReturns]);
      after := after + [InitReturns];
    }
    var rest := HandlerDials(RunFrom(s, after));
    RunFromConcat(s, after, rest);
    after := after + rest;
  }

  /** A dial that succeeds brings the network up on a new connection. */
  lemma DialConnects(s: State)
    requires Inv(s) && s.phase == Initialising(Dialing) && !s.shutdown
    ensures var t := RunFrom(s, [DialOk, InitStep, InitStep, InitReturns]);
            t.phase == Idle && t.running && t.online && t.conn == Some(s.nextConn) && !ConnLost(t)
  {
    var acts := [DialOk, InitStep, InitStep, InitReturns];
    assert acts[1..] == [InitStep, InitStep, InitReturns] && acts[1..][1..] == [InitStep, InitReturns];
    assert [InitStep, InitReturns][1..] == [InitReturns];
    One(Do(Do(Do(s, DialOk), InitStep), InitStep), InitReturns);
  }

  /** A rejected login ends the registered loops, and nothing else: no restart is queued for it. */
  lemma {:induction false} RejectedLoopsEnd(s: State) returns (acts: seq<Action>)
    requires !s.running
    ensures RunFrom(s, acts) == s.(loops := 0)
    decreases s.loops
  {
    acts := [];
    if s.loops > 0 {
      var rest := RejectedLoopsEnd(Do(s, LoopEnds));
      acts := [LoopEnds] + rest;
      assert acts[1..] == rest;
    }
  }

  lemma LoginRejectedStops(s: State) returns (acts: seq<Action>)
    ensures RunFrom(s, [LoginRejected] + acts) == s.(running := false, loops := 0)
  {
    acts := RejectedLoopsEnd(Do(s, LoginRejected));
    assert ([LoginRejected] + acts)[1..] == acts;
  }

  /** After shutdown with nothing queued: the run loop is in its select or gone, no restart is queued, and
      the close calls in progress have not got past their first test. */
  ghost predicate Quiet(s: State) {
    && s.shutdown && s.restartCh.None? && s.phase in {Idle, Stopped}
    && (forall k :: k in s.closers ==> s.closers[k].pc == Entered)
  }

  /** Shutdown is final: from there on no close call queues a restart and nothing is dialed. */
  lemma {:induction false} ShutdownIsFinal(s: State, acts: seq<Action>)
    requires Quiet(s)
    ensures Quiet(RunFrom(s, acts))
    decreases |acts|
  {
    if acts != [] {
      ShutdownIsFinal(Do(s, acts[0]), acts[1..]);
    }
  }

  lemma ShutdownQuiets(s: State)
    requires s.restartCh.None? && s.phase == Idle && s.closers == map[]
    ensures var t := Do(s, Shutdown);
            Quiet(t) && !t.running && !t.online && (s.conn.Some? ==> ConnLost(t)) && Do(t, LeaveLoop).phase == Stopped
  {}

  /** Once shut down with no dial under way, nothing is ever dialed, whatever was queued. */
  lemma {:induction false} NeverDialsAgain(s: State, acts: seq<Action>)
    requires s.shutdown && !s.phase.Initialising? && !s.phase.Waiting?
    ensures var t := RunFrom(s, acts); t.shutdown && !t.phase.Initialising? && !t.phase.Waiting?
    decreases |acts|
  {
    if acts != [] {
      NeverDialsAgain(Do(s, acts[0]), acts[1..]);
    }
  }

  /** The handler goes on to init only after every registered loop has ended. */
  lemma RedialWaits(s: State, a: Action)
    requires s.phase.Waiting? && Do(s, a).phase.Initialising?
    ensures s.loops == 0 && Do(s, a).phase.pc == Dialing
  {}

  /** A failed dial is retried, after a delay. */
  lemma FailedDialRetries(s: State) returns (acts: seq<Action>)
    requires Numbered(s) && !s.shutdown && s.phase == Initialising(Dialing) && s.restartCh.None?
    ensures RunFrom(s, acts).phase == GotRestart(true)
  {
    var k := s.nextCloser;
    One(s, InitFails);
    var t := Do(s, InitFails);
    acts := FinishClose(t, k);
    RunFromConcat(s, [InitFails], acts);
    acts := [InitFails] + acts;
    var u := RunFrom(s, acts);
    One(u, InitReturns);
    RunFromConcat(s, acts, [InitReturns]);
    acts := acts + [InitReturns];
    One(RunFrom(s, acts), Receive);
    RunFromConcat(s, acts, [Receive]);
    acts := acts + [Receive];
  }
}
