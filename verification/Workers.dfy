/** Worker shutdown of core/p2papp.go: any number of goWorker and Close calls at once. Each locked
    section is one step; an action that is not enabled leaves the state as it is. */
module Workers {
  import opened Basics

  /** A call of Close: outside stopOnce, inside its body before or after the locked section, waiting on
      the wait group, returned. */
  datatype ClosePc = Calling | InBody | Marked | Joining | Returned

  datatype State = State(
    running: bool,
    doneCloses: nat,            // how often the channel `done` was closed
    alive: set<nat>,            // workers registered and not finished
    wg: nat,                    // the wait group's counter
    nextWorker: nat,
    once: Option<nat>,          // the Close call that runs the body of stopOnce
    onceDone: bool,
    closers: map<nat, ClosePc>)

  datatype Action =
    | GoWorker          // lock, test running, wg.Add(1), start, unlock
    | WorkerEnds(w: nat)
    | CallClose(c: nat)
    | EnterOnce(c: nat) // run the body of stopOnce, or wait until whoever runs it is through
    | MarkStopped(c: nat)
    | LeaveOnce(c: nat)
    | JoinReturns(c: nat)

  const Begin := State(true, 0, {}, 0, 0, None, false, map[])

  function SetPc(s: State, c: nat, pc: ClosePc): State {
    s.(closers := s.closers[c := pc])
  }

  predicate At(s: State, c: nat, pc: ClosePc) {
    c in s.closers && s.closers[c] == pc
  }

  function Do(s: State, a: Action): State {
    match a
    case GoWorker =>
      if s.running then s.(alive := s.alive + {s.nextWorker}, wg := s.wg + 1, nextWorker := s.nextWorker + 1) else s
    case WorkerEnds(w) => if w in s.alive && s.wg > 0 then s.(alive := s.alive - {w}, wg := s.wg - 1) else s
    case CallClose(c) => if c in s.closers then s else SetPc(s, c, Calling)
    case EnterOnce(c) =>
      if !At(s, c, Calling) then s
      else if s.once.None? then SetPc(s, c, InBody).(once := Some(c))
      else if s.onceDone then SetPc(s, c, Joining)
      else s
    case MarkStopped(c) =>
      if At(s, c, InBody) then SetPc(s, c, Marked).(running := false, doneCloses := s.doneCloses + 1) else s
    case LeaveOnce(c) => if At(s, c, Marked) then SetPc(s, c, Joining).(onceDone := true) else s
    case JoinReturns(c) => if At(s, c, Joining) && s.wg == 0 then SetPc(s, c, Returned) else s
  }

  ghost function RunFrom(s: State, acts: seq<Action>): State {
    if acts == [] then s else Do(RunFrom(s, acts[..|acts| - 1]), acts[|acts| - 1])
  }

  ghost predicate CloserInv(s: State, c: nat)
    requires c in s.closers
  {
    && (s.closers[c] in {InBody, Marked} ==> s.once == Some(c) && !s.onceDone)
    && (s.closers[c] == InBody ==> s.running)
    && (s.closers[c] in {Marked, Joining, Returned} ==> !s.running)
    && (s.closers[c] == Returned ==> s.alive == {})
  }

  ghost predicate Inv(s: State) {
    && s.wg == |s.alive|
    && (forall w :: w in s.alive ==> w < s.nextWorker)
    && (s.running ==> s.doneCloses == 0 && !s.onceDone)
    && (!s.running ==> s.doneCloses == 1 && s.once.Some?)
    && (s.onceDone ==> s.once.Some?)
    && (s.once.Some? && !s.onceDone ==> s.once.value in s.closers && s.closers[s.once.value] in {InBody, Marked})
    && (forall c :: c in s.closers ==> CloserInv(s, c))
  }

  lemma DoCloser(s: State, a: Action, c: nat)
    requires Inv(s) && c in Do(s, a).closers
    ensures CloserInv(Do(s, a), c)
  {
    if c in s.closers {
      assert CloserInv(s, c);
    }
    if a.MarkStopped? && a.c in s.closers {
      assert CloserInv(s, a.c);
    }
    if a.LeaveOnce? && a.c in s.closers {
      assert CloserInv(s, a.c);
    }
  }

  lemma DoInv(s: State, a: Action)
    requires Inv(s)
    ensures Inv(Do(s, a))
  {
    forall c | c in Do(s, a).closers ensures CloserInv(Do(s, a), c) {
      DoCloser(s, a, c);
    }
    if a.MarkStopped? && a.c in s.closers {
      assert CloserInv(s, a.c);
    }
    if a.LeaveOnce? && a.c in s.closers {
      assert CloserInv(s, a.c);
    }
  }

  lemma {:induction false} RunInv(s: State, acts: seq<Action>)
    requires Inv(s)
    ensures Inv(RunFrom(s, acts))
  {
    if acts == [] {
    } else {
      RunInv(s, acts[..|acts| - 1]);
      DoInv(RunFrom(s, acts[..|acts| - 1]), acts[|acts| - 1]);
    }
  }

  /** In every interleaving `done` is closed at most once, and exactly once as soon as running is false. */
  lemma DoneClosedOnce(acts: seq<Action>)
    ensures RunFrom(Begin, acts).doneCloses == if RunFrom(Begin, acts).running then 0 else 1
  {
    RunInv(Begin, acts);
  }

  /** Once running is false no worker is ever registered again. */
  lemma {:induction false} NoNewWorkers(s: State, acts: seq<Action>)
    requires !s.running
    ensures !RunFrom(s, acts).running && RunFrom(s, acts).alive <= s.alive
    ensures RunFrom(s, acts).nextWorker == s.nextWorker
  {
    if acts == [] {
    } else {
      NoNewWorkers(s, acts[..|acts| - 1]);
    }
  }

  /** When any Close call has returned, no worker is alive, and none ever will be, whatever happens next. */
  lemma CloseIsFinal(before: seq<Action>, c: nat, after: seq<Action>)
    requires At(RunFrom(Begin, before), c, Returned)
    ensures RunFrom(Begin, before).alive == {}
    ensures RunFrom(RunFrom(Begin, before), after).alive == {}
  {
    var s := RunFrom(Begin, before);
    RunInv(Begin, before);
    assert CloserInv(s, c);
    NoNewWorkers(s, after);
  }

  lemma Then(s: State, acts: seq<Action>, a: Action) returns (r: seq<Action>)
    ensures r == acts + [a] && RunFrom(s, r) == Do(RunFrom(s, acts), a)
  {
    r := acts + [a];
    assert r[..|acts|] == acts;
  }

  /** While the app is running every goWorker call starts a worker. */
  lemma {:induction false} WorkersStart(n: nat) returns (acts: seq<Action>)
    ensures var s := RunFrom(Begin, acts); s.running && |s.alive| == n
  {
    acts := [];
    if n > 0 {
      acts := WorkersStart(n - 1);
      RunInv(Begin, acts);
      acts := Then(Begin, acts, GoWorker);
    }
  }

  lemma {:induction false} WorkersEnd(s: State, acts: seq<Action>) returns (r: seq<Action>)
    requires Inv(RunFrom(s, acts))
    ensures var t, u := RunFrom(s, acts), RunFrom(s, r); Inv(u) && u == t.(alive := {}, wg := 0)
    decreases |RunFrom(s, acts).alive|
  {
    var t := RunFrom(s, acts);
    r := acts;
    if w :| w in t.alive {
      assert |t.alive - {w}| == |t.alive| - 1;
      r := Then(s, acts, WorkerEnds(w));
      DoInv(t, WorkerEnds(w));
      r := WorkersEnd(s, r);
    }
  }

  /** Whoever runs the body of stopOnce can leave it. */
  lemma OnceCanFinish(s: State, acts: seq<Action>) returns (r: seq<Action>)
    requires Inv(RunFrom(s, acts)) && RunFrom(s, acts).once.Some?
    ensures var t, u := RunFrom(s, acts), RunFrom(s, r);
            && Inv(u) && u.onceDone
            && forall c :: c in t.closers ==> c in u.closers && (u.closers[c] == Returned ==> t.closers[c] == Returned)
  {
    var t := RunFrom(s, acts);
    r := acts;
    if !t.onceDone {
      var k := t.once.value;
      if t.closers[k] == InBody {
        DoInv(t, MarkStopped(k));
        r := Then(s, r, MarkStopped(k));
      }
      DoInv(RunFrom(s, r), LeaveOnce(k));
      r := Then(s, r, LeaveOnce(k));
    }
  }

  /** From there every call gets past stopOnce. */
  lemma CanJoin(s: State, acts: seq<Action>, c: nat) returns (r: seq<Action>)
    requires var t := RunFrom(s, acts); Inv(t) && t.once.Some? && c in t.closers && t.closers[c] != Returned
    ensures Inv(RunFrom(s, r)) && At(RunFrom(s, r), c, Joining)
  {
    hide Inv;
    r := OnceCanFinish(s, acts);
    var t := RunFrom(s, r);
    JoiningOrCalling(t, c);
    if At(t, c, Calling) {
      DoInv(t, EnterOnce(c));
      r := Then(s, r, EnterOnce(c));
    }
  }

  lemma JoiningOrCalling(s: State, c: nat)
    requires Inv(s) && s.onceDone && c in s.closers
    ensures s.once.Some? && s.closers[c] in {Calling, Joining, Returned}
  {
    assert CloserInv(s, c);
  }

  /** Every Close call can return from any reachable state: first or not, once the body of stopOnce is
      through and the workers have ended. */
  lemma CloseCanReturn(before: seq<Action>, c: nat) returns (after: seq<Action>)
    requires c in RunFrom(Begin, before).closers
    ensures At(RunFrom(RunFrom(Begin, before), after), c, Returned)
  {
    var s := RunFrom(Begin, before);
    RunInv(Begin, before);
    after := [];
    assert CloserInv(s, c);
    if s.closers[c] != Returned {
      if s.once.None? {
        DoInv(s, EnterOnce(c));
        after := Then(s, after, EnterOnce(c));
      }
      hide Inv, CloserInv;
      after := CanJoin(s, after, c);
      after := WorkersEnd(s, after);
      after := Then(s, after, JoinReturns(c));
    }
  }
}
