/** connectUnderlayTCPSymmetric (core/p2ptunnel.go): both sides run many dialers, each dialer may end up
    with one end of a connection, and a compare-and-swap on each side picks one. An action that is not
    enabled leaves the state as it is. */
module TcpPunch {
  import opened Basics

  /** A cone-side dialer: it wins the swap, writes, reads the reply, sends on gotCh, closes gotCh. */
  datatype ConePc = CDialing | CDialed | CWon | CWrote | CReplied | CSent | CEnded

  /** A symmetric-side dialer: it reads, writes, wins the swap, sends on gotCh, closes gotCh. */
  datatype SymPc = SDialing | SDialed | SRead | SWrote | SWon | SSent | SEnded

  /** One side's gotCh and the flag that guards it. */
  datatype Outcome = Outcome(winner: Option<nat>, sent: seq<nat>, closes: nat, result: Option<nat>)

  datatype State = State(
    cone: seq<ConePc>,
    sym: seq<SymPc>,
    link: map<nat, nat>,     // which two dialers hold the ends of one TCP connection
    fromCone: set<nat>,      // cone dialers whose Ack is on their connection
    fromSym: set<nat>,       // symmetric dialers whose Ack is on theirs
    coneOut: Outcome,
    symOut: Outcome)

  datatype Op = Dialed | Swap | Write | Read | Send | Close | Fail

  datatype Action = Connect(i: nat, j: nat) | Cone(i: nat, op: Op) | Sym(j: nat, op: Op) | ConeReturn | SymReturn

  const NoOutcome := Outcome(None, [], 0, None)

  function Init(dialers: nat): State {
    State(seq(dialers, _ => CDialing), seq(dialers, _ => SDialing), map[], {}, {}, NoOutcome, NoOutcome)
  }

  function Return(o: Outcome): Outcome {
    if o.result.None? && o.sent != [] then o.(result := Some(o.sent[0])) else o
  }

  /** Symmetric dialer j holds one end of a connection. */
  predicate HasEnd(s: State, j: nat) {
    exists i :: i in s.link && s.link[i] == j
  }

  function DoCone(s: State, i: nat, op: Op): State
    requires i < |s.cone|
  {
    var o := s.coneOut;
    match (op, s.cone[i])
    case (Dialed, CDialing) => if i in s.link then s.(cone := s.cone[i := CDialed]) else s
    case (Swap, CDialed) =>
      if o.winner.None? then s.(cone := s.cone[i := CWon], coneOut := o.(winner := Some(i)))
      else s.(cone := s.cone[i := CEnded])
    case (Write, CWon) => s.(cone := s.cone[i := CWrote], fromCone := s.fromCone + {i})
    case (Read, CWrote) =>
      if i in s.link && s.link[i] in s.fromSym then s.(cone := s.cone[i := CReplied]) else s
    case (Send, CReplied) => s.(cone := s.cone[i := CSent], coneOut := o.(sent := o.sent + [i]))
    case (Close, CSent) => s.(cone := s.cone[i := CEnded], coneOut := o.(closes := o.closes + 1))
    case (Fail, pc) => if pc == CSent then s else s.(cone := s.cone[i := CEnded])
    case _ => s
  }

  function DoSym(s: State, j: nat, op: Op): State
    requires j < |s.sym|
  {
    var o := s.symOut;
    match (op, s.sym[j])
    case (Dialed, SDialing) => if HasEnd(s, j) then s.(sym := s.sym[j := SDialed]) else s
    case (Read, SDialed) =>
      if exists i :: i in s.link && s.link[i] == j && i in s.fromCone then s.(sym := s.sym[j := SRead]) else s
    case (Write, SRead) => s.(sym := s.sym[j := SWrote], fromSym := s.fromSym + {j})
    case (Swap, SWrote) =>
      if o.winner.None? then s.(sym := s.sym[j := SWon], symOut := o.(winner := Some(j)))
      else s.(sym := s.sym[j := SEnded])
    case (Send, SWon) => s.(sym := s.sym[j := SSent], symOut := o.(sent := o.sent + [j]))
    case (Close, SSent) => s.(sym := s.sym[j := SEnded], symOut := o.(closes := o.closes + 1))
    case (Fail, pc) => if pc == SSent then s else s.(sym := s.sym[j := SEnded])
    case _ => s
  }

  function Do(s: State, a: Action): State {
    match a
    case Connect(i, j) =>
      if i < |s.cone| && s.cone[i] == CDialing && j < |s.sym| && s.sym[j] == SDialing
         && i !in s.link && !HasEnd(s, j) then s.(link := s.link[i := j]) else s
    case ConeReturn => s.(coneOut := Return(s.coneOut))
    case SymReturn => s.(symOut := Return(s.symOut))
    case Cone(i, op) => if i < |s.cone| then DoCone(s, i, op) else s
    case Sym(j, op) => if j < |s.sym| then DoSym(s, j, op) else s
  }

  ghost function Run(dialers: nat, acts: seq<Action>): State {
    if acts == [] then Init(dialers) else Do(Run(dialers, acts[..|acts| - 1]), acts[|acts| - 1])
  }

  /** gotCh carries the winner, once, and is closed after that, once. */
  ghost predicate OutcomeInv(o: Outcome) {
    && |o.sent| <= 1
    && o.closes <= |o.sent|
    && (o.sent != [] ==> o.winner == Some(o.sent[0]))
    && (o.result.Some? ==> o.sent != [] && o.result.value == o.sent[0])
  }

  ghost predicate ConeInv(s: State, i: nat)
    requires i < |s.cone|
  {
    var o := s.coneOut;
    && (s.cone[i] in {CWon, CWrote, CReplied, CSent} ==> o.winner == Some(i))
    && (s.cone[i] in {CWon, CWrote, CReplied} ==> o.sent == [])
    && (s.cone[i] == CSent ==> o.sent == [i] && o.closes == 0)
    && (s.cone[i] == CReplied ==> Answered(s, i))
    && (s.cone[i] !in {CDialing, CEnded} ==> i in s.link)
  }

  /** The dialer at the other end of cone dialer i's connection has written its Ack. */
  predicate Answered(s: State, i: nat) {
    i in s.link && s.link[i] in s.fromSym
  }

  /** The dialer at the other end of the connection the cone side picked. */
  ghost predicate Picked(s: State, j: nat) {
    && s.coneOut.winner.Some? && s.coneOut.winner.value in s.link && s.link[s.coneOut.winner.value] == j
    && s.coneOut.winner.value in s.fromCone
  }

  ghost predicate SymInv(s: State, j: nat)
    requires j < |s.sym|
  {
    var o := s.symOut;
    && (s.sym[j] !in {SDialing, SEnded} ==> HasEnd(s, j))
    && (s.sym[j] in {SRead, SWrote, SWon, SSent} ==> Picked(s, j))
    && (s.sym[j] in {SWrote, SWon, SSent} ==> j in s.fromSym)
    && (s.sym[j] in {SWon, SSent} ==> o.winner == Some(j))
    && (s.sym[j] == SWon ==> o.sent == [])
    && (s.sym[j] == SSent ==> o.sent == [j] && o.closes == 0)
  }

  ghost predicate Inv(s: State) {
    && OutcomeInv(s.coneOut) && OutcomeInv(s.symOut)
    && (forall i :: 0 <= i < |s.cone| ==> ConeInv(s, i))
    && (forall j :: 0 <= j < |s.sym| ==> SymInv(s, j))
    && (forall i :: i in s.fromCone ==> s.coneOut.winner == Some(i))
    && (s.coneOut.sent != [] ==> Answered(s, s.coneOut.sent[0]))
    && (s.symOut.winner.Some? ==> Picked(s, s.symOut.winner.value) && s.symOut.winner.value in s.fromSym)
  }

  lemma DoConeInv(s: State, a: Action, i: nat)
    requires Inv(s) && i < |s.cone|
    ensures ConeInv(Do(s, a), i)
  {
    assert ConeInv(s, i);
    if a.Cone? && a.i < |s.cone| {
      assert ConeInv(s, a.i);
    }
  }

  lemma PickedKept(s: State, a: Action, j: nat)
    requires Inv(s) && Picked(s, j)
    ensures Picked(Do(s, a), j)
  {}

  lemma HasEndKept(s: State, a: Action, j: nat)
    requires HasEnd(s, j)
    ensures HasEnd(Do(s, a), j)
  {
    var i :| i in s.link && s.link[i] == j;
    assert i in Do(s, a).link && Do(s, a).link[i] == j;
  }

  lemma SymStep(s: State, k: nat, op: Op, j: nat)
    requires Inv(s) && j < |s.sym| && k < |s.sym|
    ensures SymInv(DoSym(s, k, op), j)
  {
    assert SymInv(s, j) && SymInv(s, k);
  }

  lemma DoSymInv(s: State, a: Action, j: nat)
    requires Inv(s) && j < |s.sym|
    ensures SymInv(Do(s, a), j)
  {
    if a.Sym? && a.j < |s.sym| {
      SymStep(s, a.j, a.op, j);
    } else {
      assert SymInv(s, j);
      if Picked(s, j) {
        PickedKept(s, a, j);
      }
      if HasEnd(s, j) {
        HasEndKept(s, a, j);
      }
      hide Picked, HasEnd, DoSym;
    }
  }

  lemma DoConeOutcome(s: State, a: Action)
    requires Inv(s)
    ensures OutcomeInv(Do(s, a).coneOut)
    ensures forall i :: i in Do(s, a).fromCone ==> Do(s, a).coneOut.winner == Some(i)
    ensures Do(s, a).coneOut.sent != [] ==> Answered(Do(s, a), Do(s, a).coneOut.sent[0])
  {
    if a.Cone? && a.i < |s.cone| {
      assert ConeInv(s, a.i);
    }
  }

  lemma DoSymOutcome(s: State, a: Action)
    requires Inv(s)
    ensures OutcomeInv(Do(s, a).symOut)
    ensures var t := Do(s, a);
            t.symOut.winner.Some? ==> Picked(t, t.symOut.winner.value) && t.symOut.winner.value in t.fromSym
  {
    if a.Sym? && a.j < |s.sym| {
      assert SymInv(s, a.j);
      if Picked(s, a.j) {
        PickedKept(s, a, a.j);
      }
    }
    if s.symOut.winner.Some? {
      PickedKept(s, a, s.symOut.winner.value);
    }
    hide Picked;
  }

  lemma DoInv(s: State, a: Action)
    requires Inv(s)
    ensures Inv(Do(s, a))
  {
    var t := Do(s, a);
    DoConeOutcome(s, a);
    DoSymOutcome(s, a);
    forall i | 0 <= i < |t.cone| ensures ConeInv(t, i) {
      DoConeInv(s, a, i);
    }
    forall j | 0 <= j < |t.sym| ensures SymInv(t, j) {
      DoSymInv(s, a, j);
    }
  }

  lemma {:induction false} RunInv(dialers: nat, acts: seq<Action>)
    ensures Inv(Run(dialers, acts))
  {
    if acts == [] {
    } else {
      RunInv(dialers, acts[..|acts| - 1]);
      DoInv(Run(dialers, acts[..|acts| - 1]), acts[|acts| - 1]);
    }
  }

  /** In every interleaving: a side that returns a connection has read the other side's Ack on it. */
  lemma ReturnedAfterAcks(dialers: nat, acts: seq<Action>)
    ensures var s := Run(dialers, acts);
            && (s.coneOut.result.Some? ==> Answered(s, s.coneOut.result.value))
            && (s.symOut.result.Some? ==>
                  && s.symOut.result.value in s.fromSym
                  && exists i :: i in s.fromCone && i in s.link && s.link[i] == s.symOut.result.value)
  {
    RunInv(dialers, acts);
  }

  /** In every interleaving of any number of dialers: when both sides return a connection they hold the
      two ends of the same one, and each side sends on gotCh at most once and closes it at most once,
      after that send. */
  lemma PunchAgreement(dialers: nat, acts: seq<Action>)
    ensures var s := Run(dialers, acts);
            && (s.coneOut.result.Some? && s.symOut.result.Some? ==>
                  s.coneOut.result.value in s.link && s.link[s.coneOut.result.value] == s.symOut.result.value)
            && |s.coneOut.sent| <= 1 && s.coneOut.closes <= |s.coneOut.sent|
            && |s.symOut.sent| <= 1 && s.symOut.closes <= |s.symOut.sent|
  {
    RunInv(dialers, acts);
  }

  /** Such runs exist: any cone dialer and any symmetric dialer may end up with the two ends. */
  lemma PunchSucceeds(dialers: nat, i: nat, j: nat)
    requires i < dialers && j < dialers
    ensures exists acts :: var s := Run(dialers, acts);
              s.coneOut.result == Some(i) && s.symOut.result == Some(j) && s.coneOut.closes == s.symOut.closes == 1
  {
    var acts := Greeted(dialers, i, j);
    acts := SymFinishes(dialers, acts, j);
    acts := Then(dialers, acts, Cone(i, Send));
    acts := Then(dialers, acts, Cone(i, Close));
    acts := Then(dialers, acts, ConeReturn);
    assert Run(dialers, acts).coneOut.result == Some(i);
  }

  lemma SymFinishes(dialers: nat, acts: seq<Action>, j: nat) returns (r: seq<Action>)
    requires var s := Run(dialers, acts); j < |s.sym| && s.sym[j] == SWrote && s.symOut == NoOutcome
    ensures var s, t := Run(dialers, acts), Run(dialers, r);
            t.symOut == Outcome(Some(j), [j], 1, Some(j)) && t.cone == s.cone && t.coneOut == s.coneOut
  {
    r := Then(dialers, acts, Sym(j, Swap));
    r := Then(dialers, r, Sym(j, Send));
    r := Then(dialers, r, Sym(j, Close));
    r := Then(dialers, r, SymReturn);
  }

  /** Dialer i has won the cone side's swap, and both Acks have been read. */
  lemma Greeted(dialers: nat, i: nat, j: nat) returns (acts: seq<Action>)
    requires i < dialers && j < dialers
    ensures var s := Run(dialers, acts);
            && |s.cone| == |s.sym| == dialers && s.cone[i] == CReplied && s.sym[j] == SWrote
            && s.coneOut == NoOutcome.(winner := Some(i)) && s.symOut == NoOutcome
  {
    acts := Linked(dialers, i, j);
    acts := Then(dialers, acts, Cone(i, Swap));
    acts := Then(dialers, acts, Cone(i, Write));
    acts := Then(dialers, acts, Sym(j, Read));
    acts := Then(dialers, acts, Sym(j, Write));
    acts := Then(dialers, acts, Cone(i, Read));
  }

  lemma Linked(dialers: nat, i: nat, j: nat) returns (acts: seq<Action>)
    requires i < dialers && j < dialers
    ensures var s := Run(dialers, acts);
            && |s.cone| == |s.sym| == dialers && s.cone[i] == CDialed && s.sym[j] == SDialed
            && i in s.link && s.link[i] == j && s.coneOut == s.symOut == NoOutcome
  {
    acts := Then(dialers, [], Connect(i, j));
    assert Run(dialers, acts).link[i] == j;
    assert HasEnd(Run(dialers, acts), j);
    hide HasEnd;
    acts := Then(dialers, acts, Cone(i, Dialed));
    LinkedStill(dialers, acts, i, j);
    acts := Then(dialers, acts, Sym(j, Dialed));
  }

  lemma LinkedStill(dialers: nat, acts: seq<Action>, i: nat, j: nat)
    requires i in Run(dialers, acts).link && Run(dialers, acts).link[i] == j
    ensures HasEnd(Run(dialers, acts), j)
  {}

  lemma Then(dialers: nat, acts: seq<Action>, a: Action) returns (r: seq<Action>)
    ensures r == acts + [a] && Run(dialers, r) == Do(Run(dialers, acts), a)
  {
    r := acts + [a];
    assert r[..|acts|] == acts;
  }

  /** In every interleaving only a dialer that holds one end of a connection is past its dial. */
  lemma PastDialLinked(dialers: nat, acts: seq<Action>, k: nat)
    ensures var s := Run(dialers, acts);
            && (k < |s.cone| && s.cone[k] !in {CDialing, CEnded} ==> k in s.link)
            && (k < |s.sym| && s.sym[k] !in {SDialing, SEnded} ==> exists i :: i in s.link && s.link[i] == k)
  {
    RunInv(dialers, acts);
    var s := Run(dialers, acts);
    assert k < |s.cone| ==> ConeInv(s, k);
    assert k < |s.sym| ==> SymInv(s, k);
  }

  /** A dialer that comes second to the swap ends there and changes nothing else, ... */
  lemma LoserEnds(s: State, k: nat)
    ensures k < |s.cone| && s.cone[k] == CDialed && s.coneOut.winner.Some? ==>
              Do(s, Cone(k, Swap)) == s.(cone := s.cone[k := CEnded])
    ensures k < |s.sym| && s.sym[k] == SWrote && s.symOut.winner.Some? ==>
              Do(s, Sym(k, Swap)) == s.(sym := s.sym[k := SEnded])
  {}

  /** ... and every other one can end at any time: by an error, or by closing gotCh after its send. */
  lemma DialerCanEnd(s: State, k: nat)
    ensures k < |s.cone| ==> Do(s, Cone(k, if s.cone[k] == CSent then Close else Fail)).cone[k] == CEnded
    ensures k < |s.sym| ==> Do(s, Sym(k, if s.sym[k] == SSent then Close else Fail)).sym[k] == SEnded
  {}
}
