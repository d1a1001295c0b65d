/** The clock filter that heartbeats drive (core/p2pnetwork.go), over the reals. Times are nanoseconds. */
module ClockFilter {

  const PunchTsDelay := 3_000_000_000.0

  datatype Clock = Clock(dt: real, ddtma: real, preRtt: real)

  const Zero := Clock(0.0, 0.0, 0.0)

  /** One heartbeat: sent at t1 by the client's clock, stamped t2 by the server, answered after rtt. */
  datatype Heartbeat = Heartbeat(t1: real, t2: real, rtt: real)

  predicate Accepts(c: Clock, h: Heartbeat) {
    !(h.rtt > PunchTsDelay || (c.preRtt > 0.0 && h.rtt > c.preRtt * 5.0))
  }

  function Sample(h: Heartbeat): real {
    h.t1 + h.rtt / 2.0 - h.t2
  }

  function Update(c: Clock, h: Heartbeat): Clock {
    if !Accepts(c, h) then c
    else
      var thisdt := Sample(h);
      if c.dt == 0.0 then Clock(thisdt, c.ddtma, h.rtt)
      else
        var ddt := thisdt - c.dt;
        if c.ddtma == 0.0 then Clock(thisdt, ddt, h.rtt)
        else
          var ma := c.ddtma * 0.9 + ddt * 0.1;
          Clock(c.dt + ma, ma, h.rtt)
  }

  /** The fields of P2PNetwork that the heartbeat branch of handleMessage reads and writes. */
  class P2PNetwork {
    var t1: real
    var hbTime: real
    var preRtt: real
    var dt: real
    var ddt: real
    var ddtma: real
    ghost var sent: seq<real> // when each heartbeat went out

    ghost predicate Valid()
      reads this
    {
      sent != [] ==> t1 == sent[|sent| - 1]
    }

    ghost function Current(): Clock
      reads this
    {
      Clock(dt, ddtma, preRtt)
    }

    ghost function NetNow(): Net
      reads this
    {
      Net(sent, Current())
    }

    constructor ()
      ensures Valid() && forall theta :: NetNow() == Run(theta, [])
    {
      t1, hbTime, preRtt, dt, ddt, ddtma := 0.0, 0.0, 0.0, 0.0, 0.0, 0.0;
      sent := [];
    }

    /** What run does every 30 s: t1 is overwritten, whether the last heartbeat was answered or not. */
    method SendHeartbeat(now: real)
      modifies this
      ensures Valid() && forall theta :: NetNow() == Do(theta, old(NetNow()), Send(now))
    {
      t1 := now;
      sent := sent + [now];
    }

    /** Whatever reply the stamp t2 and the arrival belong to, the run takes the step of that reply. */
    method HandleHeartbeat(now: real, t2: real)
      requires Valid()
      modifies this
      ensures Valid() && hbTime == now && t1 == old(t1) && sent == old(sent)
      ensures Current() == Update(old(Current()), Heartbeat(t1, t2, now - t1))
      ensures var rtt := now - t1;
              if rtt > 3_000_000_000.0 || (old(preRtt) > 0.0 && rtt > 5.0 * old(preRtt))
              then Current() == old(Current()) && ddt == old(ddt)
              else preRtt == rtt && (old(dt) != 0.0 ==> ddt == t1 + rtt / 2.0 - t2 - old(dt))
      ensures forall theta, e: Event ::
                e.Reply? && e.i < |sent| && t2 == sent[e.i] + e.out - theta && now == sent[e.i] + e.out + e.back ==>
                  NetNow() == Do(theta, old(NetNow()), e)
    {
      hbTime := now;
      var rtt := hbTime - t1;
      if rtt > PunchTsDelay || (preRtt > 0.0 && rtt > preRtt * 5.0) {
        return;
      }
      preRtt := rtt;
      var thisdt := t1 + rtt / 2.0 - t2;
      var newdt := thisdt;
      if dt != 0.0 {
        ddt := thisdt - dt;
        if ddtma == 0.0 {
          ddtma := ddt;
        } else {
          ddtma := ddtma * 0.9 + ddt * 0.1;
          newdt := dt + ddtma;
        }
      }
      dt := newdt;
    }
  }

  // ----- one step

  function Abs(x: real): real {
    if x < 0.0 then -x else x
  }

  /** What the client makes of a reply. The client's clock is ahead of the server's by theta; the heartbeat
      went out at `sent`, its legs took `out` and `back`, and t1 may belong to a later heartbeat. */
  function Observed(theta: real, t1: real, sent: real, out: real, back: real): Heartbeat {
    Heartbeat(t1, sent + out - theta, sent + out + back - t1)
  }

  /** A sample misses the true offset by half of the delay of t1 and of the difference of the legs. That
      is at most rtt/2 exactly when the server stamped the reply after t1, as it always does when the reply
      answers the heartbeat that t1 belongs to. */
  lemma SampleError(theta: real, t1: real, sent: real, out: real, back: real)
    requires out >= 0.0 && back >= 0.0
    ensures var h := Observed(theta, t1, sent, out, back);
            && Sample(h) - theta == (t1 - sent + back - out) / 2.0
            && (Abs(Sample(h) - theta) <= h.rtt / 2.0 <==> t1 <= sent + out)
    ensures t1 == sent ==> Abs(Sample(Observed(theta, t1, sent, out, back)) - theta) <= (out + back) / 2.0
  {}

  /** The quadratic form the filter contracts, in the error e of dt and in m = ddtma. */
  function Form(e: real, m: real): real {
    e * e + 9.0 * (m * m)
  }

  function Energy(theta: real, c: Clock): real {
    Form(c.dt - theta, c.ddtma)
  }

  predicate Tracking(c: Clock) {
    c.dt != 0.0 && c.ddtma != 0.0
  }

  /** With sample error n, one accepted heartbeat turns V into exactly 0.9 V + 1.8 n m + 0.1 n^2. */
  lemma FormStep(e: real, m: real, n: real)
    ensures var m' := m * 0.9 + (n - e) * 0.1;
            Form(e + m', m') == 0.9 * Form(e, m) + 1.8 * (n * m) + 0.1 * (n * n)
  {
    var a, b, d, f, g, h := e * e, m * m, n * n, e * m, e * n, n * m;
    var m' := m * 0.9 + (n - e) * 0.1;
    assert m' * m' == 0.81 * b + 0.01 * d + 0.01 * a + 0.18 * h - 0.18 * f - 0.02 * g;
    assert e * m' == 0.9 * f + 0.1 * g - 0.1 * a;
    assert (e + m') * (e + m') == a + 2.0 * (e * m') + m' * m';
  }

  lemma EnergyStep(theta: real, c: Clock, h: Heartbeat)
    requires Accepts(c, h) && Tracking(c)
    ensures var n := Sample(h) - theta;
            Energy(theta, Update(c, h)) == 0.9 * Energy(theta, c) + 1.8 * (n * c.ddtma) + 0.1 * (n * n)
  {
    FormStep(c.dt - theta, c.ddtma, Sample(h) - theta);
  }

  /** 38 N^2 is kept: 1.8 n m is at most 0.438 m^2 + (0.81 / 0.438) n^2. */
  lemma FormBound(v: real, m: real, n: real, bound: real)
    requires bound >= 0.0 && -bound <= n <= bound
    requires v <= 38.0 * (bound * bound) && 9.0 * (m * m) <= v
    ensures 0.9 * v + 1.8 * (n * m) + 0.1 * (n * n) <= 38.0 * (bound * bound)
  {
    var p := 0.438 * m - 0.9 * n;
    assert p * p == 0.191844 * (m * m) - 0.7884 * (n * m) + 0.81 * (n * n);
    assert p * p >= 0.0;
    SquareLe(n, bound);
  }

  lemma SquareLe(a: real, b: real)
    requires -b <= a <= b
    ensures a * a <= b * b
  {
    assert b * b - a * a == (b - a) * (b + a);
  }

  lemma ZeroSquare(a: real)
    requires a >= 0.0 && a * a <= 0.0
    ensures a == 0.0
  {
    if a > 0.0 {
      Cancel(a);
    }
  }

  lemma Cancel(a: real)
    requires a > 0.0
    ensures (1.0 / a) * (a * a) == a
  {}

  lemma SquareBound(e: real, bound: real)
    requires bound >= 0.0 && e * e <= 38.0 * (bound * bound)
    ensures Abs(e) <= 6.2 * bound && (bound > 0.0 ==> Abs(e) < 6.2 * bound)
  {
    assert Abs(e) * Abs(e) == e * e;
    if Abs(e) >= 6.2 * bound {
      SquareLe(6.2 * bound, Abs(e));
      assert bound * bound <= 0.0 && Abs(e) * Abs(e) <= 0.0;
      ZeroSquare(bound);
      ZeroSquare(Abs(e));
    }
  }

  lemma EnergyBound(theta: real, c: Clock, bound: real)
    requires bound >= 0.0 && Energy(theta, c) <= 38.0 * (bound * bound)
    ensures Abs(c.dt - theta) <= 6.2 * bound && (bound > 0.0 ==> Abs(c.dt - theta) < 6.2 * bound)
  {
    assert c.ddtma * c.ddtma >= 0.0;
    SquareBound(c.dt - theta, bound);
  }

  // ----- a step that starts over

  /** 0 doubles as "not set yet". When dt or ddtma comes back to it, the next sample replaces the field,
      and this is what keeps e^2 + 9 m^2 <= 38 N^2 then. */
  predicate Safe(theta: real, c: Clock, bound: real) {
    var reach := Abs(c.dt - theta) + bound;
    if c.dt == 0.0 then 9.0 * (c.ddtma * c.ddtma) <= 37.0 * (bound * bound)
    else c.ddtma == 0.0 ==> 9.0 * (reach * reach) <= 37.0 * (bound * bound)
  }

  predicate Small(theta: real, c: Clock, bound: real) {
    Energy(theta, c) <= 38.0 * (bound * bound)
  }

  predicate Near(theta: real, h: Heartbeat, bound: real) {
    Abs(Sample(h) - theta) <= bound
  }

  /** Whatever the next accepted sample is, if it errs by at most `bound`. */
  ghost predicate Keeps(theta: real, c: Clock, bound: real) {
    forall h :: Accepts(c, h) && Near(theta, h, bound) ==> Small(theta, Update(c, h), bound)
  }

  lemma RestartForm(n: real, e: real, bound: real)
    requires -bound <= n <= bound && 9.0 * ((Abs(e) + bound) * (Abs(e) + bound)) <= 37.0 * (bound * bound)
    ensures Form(n, n - e) <= 38.0 * (bound * bound)
  {
    SquareLe(n, bound);
    SquareLe(n - e, Abs(e) + bound);
  }

  /** The worst sample for a step that starts over. */
  function Worst(theta: real, c: Clock, bound: real): real {
    if c.dt - theta >= 0.0 then -bound else bound
  }

  function SampleOf(value: real, rtt: real): Heartbeat {
    Heartbeat(value, rtt / 2.0, rtt)
  }

  lemma WorstSample(theta: real, c: Clock, bound: real, rtt: real)
    requires bound >= 0.0 && Accepts(c, SampleOf(theta + Worst(theta, c, bound), rtt))
    requires Small(theta, Update(c, SampleOf(theta + Worst(theta, c, bound), rtt)), bound)
    ensures Safe(theta, c, bound)
  {
    var e, n := c.dt - theta, Worst(theta, c, bound);
    assert Sample(SampleOf(theta + n, rtt)) == theta + n;
    assert n * n == bound * bound;
    var reach := Abs(e) + bound;
    assert (n - e) * (n - e) == reach * reach;
  }

  lemma LaterSample(theta: real, c: Clock, h: Heartbeat, bound: real)
    requires Accepts(c, h) && Tracking(c) && Small(theta, c, bound)
    requires bound >= 0.0 && Near(theta, h, bound)
    ensures Small(theta, Update(c, h), bound)
  {
    var e := c.dt - theta;
    assert e * e >= 0.0;
    EnergyStep(theta, c, h);
    FormBound(Energy(theta, c), c.ddtma, Sample(h) - theta, bound);
  }

  lemma SafeSample(theta: real, c: Clock, h: Heartbeat, bound: real)
    requires Accepts(c, h) && Small(theta, c, bound) && Safe(theta, c, bound)
    requires bound >= 0.0 && Near(theta, h, bound)
    ensures Small(theta, Update(c, h), bound)
  {
    var n := Sample(h) - theta;
    if c.dt == 0.0 {
      SquareLe(n, bound);
    } else if c.ddtma == 0.0 {
      RestartForm(n, c.dt - theta, bound);
    } else {
      hide Update, Sample, Small;
      LaterSample(theta, c, h, bound);
    }
  }

  /** The exact condition of one step, for whatever round trip time the next reply has: every sample
      within `bound` keeps the invariant if and only if the state is Safe. */
  lemma StepExact(theta: real, c: Clock, bound: real, rtt: real)
    requires bound >= 0.0 && Small(theta, c, bound) && Accepts(c, SampleOf(0.0, rtt))
    ensures (forall h: Heartbeat :: h.rtt == rtt && Near(theta, h, bound) ==> Small(theta, Update(c, h), bound))
            <==> Safe(theta, c, bound)
  {
    if Safe(theta, c, bound) {
      forall h: Heartbeat | h.rtt == rtt && Near(theta, h, bound) ensures Small(theta, Update(c, h), bound) {
        SafeSample(theta, c, h, bound);
      }
    } else {
      var h := SampleOf(theta + Worst(theta, c, bound), rtt);
      assert h.rtt == rtt && Near(theta, h, bound);
      if Small(theta, Update(c, h), bound) {
        WorstSample(theta, c, bound, rtt);
      }
    }
  }

  // ----- runs

  /** Heartbeats sent so far, the last of them at t1, and the filter. */
  datatype Net = Net(sent: seq<real>, clock: Clock)

  /** Either a heartbeat goes out, or the reply to heartbeat `i` arrives after its two legs. Replies may
      be lost, and may come after the next heartbeat has gone out. */
  datatype Event = Send(now: real) | Reply(i: nat, out: real, back: real)

  function T1(s: Net): real {
    if s.sent == [] then 0.0 else s.sent[|s.sent| - 1]
  }

  function Seen(theta: real, s: Net, e: Event): Heartbeat
    requires e.Reply? && e.i < |s.sent|
  {
    Observed(theta, T1(s), s.sent[e.i], e.out, e.back)
  }

  predicate Hears(theta: real, s: Net, e: Event) {
    e.Reply? && e.i < |s.sent| && Accepts(s.clock, Seen(theta, s, e))
  }

  function Do(theta: real, s: Net, e: Event): Net {
    if e.Send? then s.(sent := s.sent + [e.now])
    else if e.i < |s.sent| then s.(clock := Update(s.clock, Seen(theta, s, e)))
    else s
  }

  function Run(theta: real, es: seq<Event>): Net {
    if es == [] then Net([], Zero) else Do(theta, Run(theta, es[..|es| - 1]), es[|es| - 1])
  }

  /** How many replies were accepted. */
  function Accepted(theta: real, es: seq<Event>): nat {
    if es == [] then 0
    else
      var init := es[..|es| - 1];
      Accepted(theta, init) + if Hears(theta, Run(theta, init), es[|es| - 1]) then 1 else 0
  }

  /** Every accepted sample errs by at most `bound`. */
  ghost predicate Within(theta: real, es: seq<Event>, bound: real) {
    es == [] ||
    var init, e := es[..|es| - 1], es[|es| - 1];
    && Within(theta, init, bound)
    && (Hears(theta, Run(theta, init), e) ==> Near(theta, Seen(theta, Run(theta, init), e), bound))
  }

  /** From the second accepted reply on, dt and ddtma come back to 0 only in safe states. */
  ghost predicate RestartsSafe(theta: real, es: seq<Event>, bound: real) {
    es == [] ||
    var init := es[..|es| - 1];
    RestartsSafe(theta, init, bound) && (Accepted(theta, init) >= 2 ==> Safe(theta, Run(theta, init).clock, bound))
  }

  /** In every state before the last event, no next sample within `bound` would break the invariant. */
  ghost predicate AllKeep(theta: real, es: seq<Event>, bound: real) {
    es == [] ||
    var init := es[..|es| - 1];
    AllKeep(theta, init, bound) && Keeps(theta, Run(theta, init).clock, bound)
  }

  /** What holds before the first, after the first and after the second accepted reply. */
  ghost predicate Bounded(theta: real, c: Clock, accepted: nat, bound: real) {
    if accepted == 0 then c.dt == 0.0 && c.ddtma == 0.0
    else if accepted == 1 then c.ddtma == 0.0 && Abs(c.dt - theta) <= bound
    else Small(theta, c, bound)
  }

  /** The first two samples need no condition. */
  lemma EarlySample(theta: real, c: Clock, accepted: nat, h: Heartbeat, bound: real)
    requires bound >= 0.0 && Bounded(theta, c, accepted, bound) && accepted <= 1
    requires Accepts(c, h) && Near(theta, h, bound)
    ensures Bounded(theta, Update(c, h), accepted + 1, bound) && Small(theta, Update(c, h), bound)
  {
    var n, e := Sample(h) - theta, c.dt - theta;
    SquareLe(n, bound);
    if accepted == 1 && c.dt != 0.0 {
      SquareLe(n - e, 2.0 * bound);
    }
  }

  lemma BoundedStep(theta: real, c: Clock, accepted: nat, h: Heartbeat, bound: real)
    requires bound >= 0.0 && Bounded(theta, c, accepted, bound)
    requires accepted >= 2 ==> Safe(theta, c, bound)
    requires Accepts(c, h) && Near(theta, h, bound)
    ensures Bounded(theta, Update(c, h), accepted + 1, bound)
  {
    if accepted <= 1 {
      EarlySample(theta, c, accepted, h, bound);
    } else {
      SafeSample(theta, c, h, bound);
    }
  }

  lemma {:induction false} RunBoundedAux(theta: real, es: seq<Event>, bound: real)
    requires bound >= 0.0 && Within(theta, es, bound) && RestartsSafe(theta, es, bound)
    ensures Bounded(theta, Run(theta, es).clock, Accepted(theta, es), bound)
  {
    if es == [] {
    } else {
      hide Update, Safe, Bounded;
      var init, e := es[..|es| - 1], es[|es| - 1];
      RunBoundedAux(theta, init, bound);
      var s := Run(theta, init);
      if Hears(theta, s, e) {
        BoundedStep(theta, s.clock, Accepted(theta, init), Seen(theta, s, e), bound);
      } else {
        Ignored(theta, s, e);
      }
    }
  }

  lemma Ignored(theta: real, s: Net, e: Event)
    requires !Hears(theta, s, e)
    ensures Do(theta, s, e).clock == s.clock
  {}

  /** In every run whose accepted samples err by at most `bound`, and which starts over only in safe
      states: from the second accepted reply on e^2 + 9 m^2 <= 38 bound^2, so dt stays within 6.2 bound
      of the true offset. */
  lemma RunBounded(theta: real, es: seq<Event>, bound: real)
    requires bound >= 0.0 && Within(theta, es, bound) && RestartsSafe(theta, es, bound) && Accepted(theta, es) >= 2
    ensures Energy(theta, Run(theta, es).clock) <= 38.0 * (bound * bound)
    ensures Abs(Run(theta, es).clock.dt - theta) <= 6.2 * bound
    ensures bound > 0.0 ==> Abs(Run(theta, es).clock.dt - theta) < 6.2 * bound
  {
    hide Run, Accepted, RestartsSafe, Within, Energy;
    RunBoundedAux(theta, es, bound);
    EnergyBound(theta, Run(theta, es).clock, bound);
  }

  lemma KeepsExact(theta: real, c: Clock, accepted: nat, bound: real)
    requires bound >= 0.0 && Bounded(theta, c, accepted, bound)
    ensures Keeps(theta, c, bound) <==> (accepted >= 2 ==> Safe(theta, c, bound))
  {
    if accepted <= 1 {
      forall h | Accepts(c, h) && Near(theta, h, bound) ensures Small(theta, Update(c, h), bound) {
        EarlySample(theta, c, accepted, h, bound);
      }
    } else {
      StepExact(theta, c, bound, 0.0);
      if Safe(theta, c, bound) {
        forall h | Accepts(c, h) && Near(theta, h, bound) ensures Small(theta, Update(c, h), bound) {
          SafeSample(theta, c, h, bound);
        }
      }
    }
  }

  /** The condition on restarts is exact: along a run whose samples err by at most `bound`, no next sample
      within `bound` could ever have broken the invariant if and only if the run starts over only in safe
      states. */
  lemma {:induction false} RunExact(theta: real, es: seq<Event>, bound: real)
    requires bound >= 0.0 && Within(theta, es, bound)
    ensures AllKeep(theta, es, bound) <==> RestartsSafe(theta, es, bound)
  {
    if es == [] {
    } else {
      hide Keeps, Safe, Bounded, Run, Accepted;
      var init := es[..|es| - 1];
      RunExact(theta, init, bound);
      if RestartsSafe(theta, init, bound) {
        RunBoundedAux(theta, init, bound);
        KeepsExact(theta, Run(theta, init).clock, Accepted(theta, init), bound);
      }
    }
  }

  // ----- the round trip times

  /** A reply with an rtt over 3 s, or over five times a positive last one, leaves the filter as it was; any
      other leaves its own rtt behind. */
  lemma RttTest(c: Clock, h: Heartbeat)
    ensures h.rtt > 3_000_000_000.0 || (c.preRtt > 0.0 && h.rtt > 5.0 * c.preRtt) ==> Update(c, h) == c
    ensures h.rtt <= 3_000_000_000.0 && (c.preRtt > 0.0 ==> h.rtt <= 5.0 * c.preRtt) ==> Update(c, h).preRtt == h.rtt
    ensures c.preRtt > 0.0 ==> Update(c, h).preRtt <= 5.0 * c.preRtt
  {}

  function Pow5(k: nat): real {
    if k == 0 then 1.0 else 5.0 * Pow5(k - 1)
  }

  /** k factors of five lead from `first` at most to `rtt`. */
  predicate Grown(first: real, rtt: real, k: nat) {
    0.0 < rtt <= Pow5(k) * first
  }

  lemma GrowStep(first: real, rtt: real, next: real, k: nat)
    requires Grown(first, rtt, k) && 0.0 < next <= 5.0 * rtt
    ensures Grown(first, next, k + 1)
  {
    assert (5.0 * Pow5(k)) * first == 5.0 * (Pow5(k) * first);
  }

  /** Every reply heard from event `start` on has a positive rtt. */
  ghost predicate PositiveFrom(theta: real, es: seq<Event>, start: nat) {
    |es| <= start ||
    var init, e := es[..|es| - 1], es[|es| - 1];
    && PositiveFrom(theta, init, start)
    && (Hears(theta, Run(theta, init), e) ==> Seen(theta, Run(theta, init), e).rtt > 0.0)
  }

  /** Over every run: once an rtt is positive, and as long as the heard ones are, k more accepted replies
      multiply the last accepted rtt by at most 5^k. */
  lemma {:induction false} RttGrowth(theta: real, es: seq<Event>, start: nat)
    requires start <= |es| && Run(theta, es[..start]).clock.preRtt > 0.0 && PositiveFrom(theta, es, start)
    ensures Accepted(theta, es[..start]) <= Accepted(theta, es)
    ensures Grown(Run(theta, es[..start]).clock.preRtt, Run(theta, es).clock.preRtt,
                  Accepted(theta, es) - Accepted(theta, es[..start]))
  {
    if start == |es| {
      assert es[..start] == es;
    } else {
      hide Update, Accepts, Pow5, Seen;
      var init, e := es[..|es| - 1], es[|es| - 1];
      assert init[..start] == es[..start];
      RttGrowth(theta, init, start);
      RttStep(theta, Run(theta, init), e, Run(theta, es[..start]).clock.preRtt,
              Accepted(theta, init) - Accepted(theta, es[..start]));
    }
  }

  lemma RttStep(theta: real, s: Net, e: Event, first: real, k: nat)
    requires Grown(first, s.clock.preRtt, k) && (Hears(theta, s, e) ==> Seen(theta, s, e).rtt > 0.0)
    ensures Grown(first, Do(theta, s, e).clock.preRtt, if Hears(theta, s, e) then k + 1 else k)
  {
    if Hears(theta, s, e) {
      RttTest(s.clock, Seen(theta, s, e));
      HeardRtt(theta, s, e);
      GrowStep(first, s.clock.preRtt, Do(theta, s, e).clock.preRtt, k);
    } else {
      Ignored(theta, s, e);
    }
  }

  lemma HeardRtt(theta: real, s: Net, e: Event)
    requires Hears(theta, s, e)
    ensures Do(theta, s, e).clock.preRtt == Seen(theta, s, e).rtt
  {}

  /** Every accepted reply was stamped by the server after the latest heartbeat went out. */
  ghost predicate Timely(theta: real, es: seq<Event>) {
    es == [] ||
    var init, e := es[..|es| - 1], es[|es| - 1];
    var s := Run(theta, init);
    && Timely(theta, init)
    && (Hears(theta, s, e) ==> e.out >= 0.0 && e.back >= 0.0 && T1(s) <= s.sent[e.i] + e.out)
  }

  lemma {:induction false} TimelyWithin(theta: real, es: seq<Event>)
    requires Timely(theta, es)
    ensures Within(theta, es, PunchTsDelay / 2.0)
  {
    if es == [] {
    } else {
      var init, e := es[..|es| - 1], es[|es| - 1];
      TimelyWithin(theta, init);
      var s := Run(theta, init);
      if Hears(theta, s, e) {
        SampleError(theta, T1(s), s.sent[e.i], e.out, e.back);
      }
    }
  }

  /** The rtt test alone gives a bound, 9.3 s, for runs in which replies are timely and which start over
      only in safe states. */
  lemma TimelyRunBounded(theta: real, es: seq<Event>)
    requires Timely(theta, es) && RestartsSafe(theta, es, PunchTsDelay / 2.0) && Accepted(theta, es) >= 2
    ensures Abs(Run(theta, es).clock.dt - theta) < 3.1 * PunchTsDelay
  {
    hide Run, Accepted, RestartsSafe, Within, Timely;
    TimelyWithin(theta, es);
    RunBounded(theta, es, PunchTsDelay / 2.0);
  }

  lemma Then(theta: real, es: seq<Event>, e: Event) returns (r: seq<Event>)
    ensures r == es + [e] && r[..|r| - 1] == es && Run(theta, r) == Do(theta, Run(theta, es), e)
  {
    r := es + [e];
    assert r[..|r| - 1] == es;
  }

  /** A reply that is not timely: the first heartbeat's, stamped at once and 30 s on its way back, so that
      it arrives 1 ns after the second went out. Its rtt reads 1 ns and it moves dt 30 s off. */
  lemma LateReplyMisleads(theta: real)
    ensures var s := Run(theta, [Send(0.0), Send(30_000_000_000.0), Reply(0, 0.0, 30_000_000_001.0)]);
            s.clock.preRtt == 1.0 && s.clock.dt - theta == 30_000_000_000.5
  {
    var e0, e1, e2 := Send(0.0), Send(30_000_000_000.0), Reply(0, 0.0, 30_000_000_001.0);
    var r1 := Then(theta, [], e0);
    var r2 := Then(theta, r1, e1);
    var r3 := Then(theta, r2, e2);
    assert r3 == [e0, e1, e2];
    assert Run(theta, r2).sent == [0.0, 30_000_000_000.0];
  }

  /** One heartbeat answered before the next goes out, with rtt 2 and sample error n. */
  lemma Round(es: seq<Event>, now: real, n: real) returns (r: seq<Event>)
    requires Within(100.0, es, 1.0) && Timely(100.0, es) && Run(100.0, es).clock.preRtt in {0.0, 2.0}
    requires -1.0 <= n <= 1.0
    ensures Within(100.0, r, 1.0) && Timely(100.0, r) && Accepted(100.0, r) == Accepted(100.0, es) + 1
    ensures Run(100.0, r).clock == Update(Run(100.0, es).clock, SampleOf(100.0 + n, 2.0))
  {
    r := Then(100.0, es, Send(now));
    var s := Run(100.0, r);
    var e := Reply(|s.sent| - 1, 1.0 - n, 1.0 + n);
    assert Within(100.0, r, 1.0) && Timely(100.0, r);
    SampleError(100.0, now, now, e.out, e.back);
    r := Then(100.0, r, e);
  }

  ghost predicate After(es: seq<Event>, rounds: nat, c: Clock) {
    Within(100.0, es, 1.0) && Timely(100.0, es) && Accepted(100.0, es) == rounds && Run(100.0, es).clock == c
  }

  lemma NextRound(es: seq<Event>, rounds: nat, c: Clock, n: real) returns (r: seq<Event>)
    requires After(es, rounds, c) && c.preRtt in {0.0, 2.0} && -1.0 <= n <= 1.0
    ensures After(r, rounds + 1, Update(c, SampleOf(100.0 + n, 2.0)))
  {
    r := Round(es, rounds as real, n);
  }

  lemma NineRounds() returns (r: seq<Event>)
    ensures After(r, 9, Clock(89.84376, -4.06944, 2.0))
  {
    assert After([], 0, Zero);
    hide After;
    r := NextRound([], 0, Zero, -1.0);
    r := NextRound(r, 1, Clock(99.0, 0.0, 2.0), 1.0);
    r := NextRound(r, 2, Clock(101.0, 2.0, 2.0), 1.0);
    r := NextRound(r, 3, Clock(102.8, 1.8, 2.0), -1.0);
    r := NextRound(r, 4, Clock(104.04, 1.24, 2.0), -1.0);
    r := NextRound(r, 5, Clock(104.652, 0.612, 2.0), -0.856);
    r := NextRound(r, 6, Clock(104.652, 0.0, 2.0), -1.0);
    r := NextRound(r, 7, Clock(99.0, -5.652, 2.0), -1.0);
    r := NextRound(r, 8, Clock(93.9132, -5.0868, 2.0), -1.0);
  }

  /** Why safe restarts are needed: nine timely replies with samples within 1 of the true offset 100, the
      sixth of which brings ddtma back to 0 in a state that is not safe, leave dt more than 10 off. */
  lemma UnsetBreaksBound()
    ensures exists es ::
              && Within(100.0, es, 1.0) && Timely(100.0, es) && Accepted(100.0, es) == 9
              && !RestartsSafe(100.0, es, 1.0) && Abs(Run(100.0, es).clock.dt - 100.0) > 10.0
  {
    hide Run, Accepted, Within, Timely, RestartsSafe, Energy;
    var r := NineRounds();
    assert After(r, 9, Clock(89.84376, -4.06944, 2.0));
    if RestartsSafe(100.0, r, 1.0) {
      RunBounded(100.0, r, 1.0);
    }
  }

  function Pow(k: nat): real {
    if k == 0 then 1.0 else 0.9 * Pow(k - 1)
  }

  ghost function Feed(c: Clock, hs: seq<Heartbeat>): Clock {
    if hs == [] then c else Update(Feed(c, hs[..|hs| - 1]), hs[|hs| - 1])
  }

  lemma ExactStep(theta: real, c: Clock, h: Heartbeat)
    requires Accepts(c, h) && Tracking(c) && Sample(h) == theta
    ensures Energy(theta, Update(c, h)) == 0.9 * Energy(theta, c)
  {
    EnergyStep(theta, c, h);
  }

  /** `d` has the energy of `c` after `k` exact samples. */
  ghost predicate Shrunk(theta: real, c: Clock, d: Clock, k: nat) {
    Energy(theta, d) == Pow(k) * Energy(theta, c)
  }

  lemma ShrinkStep(theta: real, c: Clock, d: Clock, h: Heartbeat, k: nat)
    requires Shrunk(theta, c, d, k) && Accepts(d, h) && Tracking(d) && Sample(h) == theta
    ensures Shrunk(theta, c, Update(d, h), k + 1)
  {
    ExactStep(theta, d, h);
    Scale(Energy(theta, c), Pow(k));
  }

  lemma Scale(v: real, p: real)
    ensures 0.9 * (p * v) == (0.9 * p) * v
  {}

  /** Exact samples shrink e^2 + 9 m^2 by exactly 0.9 each. */
  lemma {:induction false} ExactSamplesConverge(theta: real, c: Clock, hs: seq<Heartbeat>)
    requires forall k :: 0 <= k < |hs| ==> Accepts(Feed(c, hs[..k]), hs[k]) && Sample(hs[k]) == theta
    requires forall k :: 0 <= k < |hs| ==> Tracking(Feed(c, hs[..k]))
    ensures Shrunk(theta, c, Feed(c, hs), |hs|)
  {
    if hs == [] {
    } else {
      hide Shrunk, Update, Accepts, Sample;
      var init, k := hs[..|hs| - 1], |hs| - 1;
      assert forall j :: 0 <= j <= k ==> init[..j] == hs[..j];
      ExactSamplesConverge(theta, c, init);
      ShrinkStep(theta, c, Feed(c, init), hs[k], k);
    }
  }
}
