/** notifyAndroidSDWANConfig (core/sdwan.go) and its consumer: a channel of capacity 1 through which one
    producer hands over configurations, dropping stale ones. Each select is a step; an action that is
    not enabled leaves the state as it is. */
module Mailbox {
  import opened Basics

  type Config = string

  /** Where the producer stands: between calls, or before one of its three selects. */
  datatype Pc = Between | TrySend | Drain | TryAgain

  datatype State = State(
    pc: Pc,
    sent: seq<Config>,        // the arguments of all calls so far, the current one last
    channel: Option<nat>,     // which of them is in the channel
    received: seq<nat>)       // which of them the consumer has received, in order

  datatype Action = Notify(config: Config) | Producer | Consume

  const Begin := State(Between, [], None, [])

  function Do(s: State, a: Action): State {
    match a
    case Notify(c) => if s.pc == Between then s.(pc := TrySend, sent := s.sent + [c]) else s
    case Producer =>
      if s.pc == Between || s.sent == [] then s
      else if s.pc == Drain then s.(pc := TryAgain, channel := None)
      else if s.channel.None? then s.(pc := Between, channel := Some(|s.sent| - 1))
      else s.(pc := if s.pc == TrySend then Drain else Between)
    case Consume =>
      if s.channel.None? then s else s.(channel := None, received := s.received + [s.channel.value])
  }

  ghost function Run(acts: seq<Action>): State {
    if acts == [] then Begin else Do(Run(acts[..|acts| - 1]), acts[|acts| - 1])
  }

  /** What the consumer has received, in the order it received it. */
  function Delivered(s: State): seq<Config>
    requires forall k :: 0 <= k < |s.received| ==> s.received[k] < |s.sent|
  {
    seq(|s.received|, k requires 0 <= k < |s.received| => s.sent[s.received[k]])
  }

  predicate Newest(s: State) {
    s.sent != [] ==>
      s.channel == Some(|s.sent| - 1) || (s.received != [] && s.received[|s.received| - 1] == |s.sent| - 1)
  }

  function Queue(s: State): seq<nat> {
    s.received + if s.channel.Some? then [s.channel.value] else []
  }

  ghost predicate Inv(s: State) {
    var queue := Queue(s);
    && (forall i, j :: 0 <= i < j < |queue| ==> queue[i] < queue[j])
    && (forall i :: 0 <= i < |queue| ==> queue[i] < if s.pc == Between then |s.sent| else |s.sent| - 1)
    && (s.pc == TryAgain ==> s.channel.None?)
    && (s.pc == Between ==> Newest(s))
    && (s.pc != Between ==> s.sent != [])
  }

  lemma DoInv(s: State, a: Action)
    requires Inv(s)
    ensures Inv(Do(s, a))
  {
    if s.channel.Some? {
      assert Queue(s)[|s.received|] == s.channel.value;
    }
    assert forall k :: 0 <= k < |s.received| ==> Queue(s)[k] == s.received[k];
  }

  lemma {:induction false} RunInv(acts: seq<Action>)
    ensures Inv(Run(acts))
  {
    if acts == [] {
    } else {
      RunInv(acts[..|acts| - 1]);
      DoInv(Run(acts[..|acts| - 1]), acts[|acts| - 1]);
    }
  }

  /** `picks` are the places of `sub` in `all`. */
  ghost predicate SubsequenceAt(sub: seq<Config>, all: seq<Config>, picks: seq<nat>) {
    && |sub| == |picks|
    && (forall i, j :: 0 <= i < j < |picks| ==> picks[i] < picks[j])
    && (forall i :: 0 <= i < |picks| ==> picks[i] < |all| && sub[i] == all[picks[i]])
  }

  /** In every interleaving the consumer receives an in-order subsequence of what was sent, and whenever
      no call is in progress the newest configuration is in the channel or was the last one received. */
  lemma NewestWins(acts: seq<Action>)
    ensures var s := Run(acts);
            && (forall k :: 0 <= k < |s.received| ==> s.received[k] < |s.sent|)
            && SubsequenceAt(Delivered(s), s.sent, s.received)
            && (s.pc == Between ==> Newest(s))
  {
    RunInv(acts);
    var s := Run(acts);
    assert forall k :: 0 <= k < |s.received| ==> s.received[k] == Queue(s)[k];
  }

  /** Between calls one receive is enough: the consumer then has the newest configuration. */
  lemma OneReceiveSuffices(acts: seq<Action>)
    requires Run(acts).pc == Between && Run(acts).sent != []
    ensures var s := Do(Run(acts), Consume);
            s.received != [] && s.received[|s.received| - 1] == |s.sent| - 1
  {
    RunInv(acts);
    var s := Run(acts);
    if s.channel.Some? && s.received != [] {
      assert Queue(s)[|s.received| - 1] == s.received[|s.received| - 1] && Queue(s)[|s.received|] == s.channel.value;
    }
  }

  function Rank(pc: Pc): nat {
    match pc
    case TrySend => 3
    case Drain => 2
    case TryAgain => 1
    case Between => 0
  }

  /** The producer never blocks: whatever the consumer does, each of its steps brings the end of the call
      nearer, and a call has at most three. */
  lemma CallEnds(acts: seq<Action>, a: Action)
    ensures var s, t := Run(acts), Do(Run(acts), a);
            && (a == Producer && s.pc != Between ==> Rank(t.pc) < Rank(s.pc))
            && (a == Consume ==> t.pc == s.pc)
            && (a.Notify? && s.pc == Between ==> t.pc == TrySend && t.sent == s.sent + [a.config])
            && (a.Notify? && s.pc != Between ==> t == s)
  {
    RunInv(acts);
  }
}
