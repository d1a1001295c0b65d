/** The token bucket of core/speedlimiter.go. Times are nanoseconds; the two clock readings of a call
    and the instant it returns are given from outside. */
module SpeedLimiter {

  const Second := 1_000_000_000

  datatype Bucket = Bucket(lastUpdate: int, speed: int, freeCap: int, maxFreeCap: int)

  /** One call: `since` is the clock at time.Since, `now` the clock at lastUpdate = time.Now(). */
  datatype Call = Call(increment: nat, wait: bool, since: int, now: int, returned: int)

  /** int64 multiplication. */
  function Mul64(a: int, b: int): int {
    (a * b + 0x8000_0000_0000_0000) % 0x1_0000_0000_0000_0000 - 0x8000_0000_0000_0000
  }

  /** Go's integer division truncates towards zero. */
  function Quot(a: int, b: int): int
    requires b > 0
  {
    if a >= 0 then a / b else -(-a / b)
  }

  /** The product is right modulo 2^64 and in the range of int64. */
  lemma Mul64Wraps(a: int, b: int)
    ensures -0x8000_0000_0000_0000 <= Mul64(a, b) < 0x8000_0000_0000_0000
    ensures (Mul64(a, b) - a * b) % 0x1_0000_0000_0000_0000 == 0
  {
    var x, m := a * b + 0x8000_0000_0000_0000, 0x1_0000_0000_0000_0000;
    assert Mul64(a, b) - a * b == x % m - x == -(x / m) * m;
  }

  /** The quotient is rounded towards zero on both sides of it. */
  lemma QuotTruncates(a: int, b: int)
    requires b > 0
    ensures Quot(-a, b) == -Quot(a, b)
    ensures a >= 0 ==> Quot(a, b) * b <= a < (Quot(a, b) + 1) * b
  {
    if a >= 0 {
      RoundedUp(a, b);
    }
    if a == 0 {
      ZeroQuotient(b);
    }
  }

  lemma ZeroQuotient(b: int)
    requires b > 0
    ensures 0 / b == 0
  {}

  function Credited(b: Bucket, since: int): int {
    var cap := b.freeCap + Quot(Mul64(since - b.lastUpdate, b.speed), Second);
    if cap > b.maxFreeCap then b.maxFreeCap else cap
  }

  function AddTo(b: Bucket, c: Call): (Bucket, bool) {
    if b.speed <= 0 then (b, true)
    else
      var cap := Credited(b, c.since);
      if !c.wait && cap < c.increment then (b.(freeCap := cap), false)
      else (b.(freeCap := cap - c.increment, lastUpdate := c.now), true)
  }

  /** How long Add asks to sleep before it returns. */
  function SleepFor(b: Bucket): int
    requires b.speed > 0
  {
    if b.freeCap < 0 then Quot(Mul64(1_000_000, Mul64(-b.freeCap, 1000)), b.speed) else 0
  }

  class Limiter {
    var lastUpdate: int
    var speed: int
    var freeCap: int
    var maxFreeCap: int

    ghost function Current(): Bucket
      reads this
    {
      Bucket(lastUpdate, speed, freeCap, maxFreeCap)
    }

    constructor (speed: int, precision: int, now: int)
      ensures Current() == Bucket(now, speed, speed * precision, speed * precision)
    {
      lastUpdate, this.speed := now, speed;
      freeCap, maxFreeCap := speed * precision, speed * precision;
    }

    /** `sleep` is what the call waits for before returning. */
    method Add(c: Call) returns (ok: bool, sleep: int)
      modifies this
      ensures (Current(), ok) == AddTo(old(Current()), c)
      ensures sleep == if ok && speed > 0 then SleepFor(Current()) else 0
      ensures speed == old(speed) && maxFreeCap == old(maxFreeCap)
      ensures speed <= 0 ==> ok && sleep == 0 && Current() == old(Current())
      ensures speed > 0 ==> lastUpdate == if ok then c.now else old(lastUpdate)
    {
      if speed <= 0 {
        return true, 0;
      }
      freeCap := freeCap + Quot(Mul64(c.since - lastUpdate, speed), Second);
      if freeCap > maxFreeCap {
        freeCap := maxFreeCap;
      }
      if !c.wait && freeCap < c.increment {
        return false, 0;
      }
      freeCap := freeCap - c.increment;
      lastUpdate := c.now;
      if freeCap < 0 {
        return true, Quot(Mul64(1_000_000, Mul64(-freeCap, 1000)), speed);
      }
      return true, 0;
    }
  }

  // ----- runs of waiting calls

  ghost function Run(b: Bucket, calls: seq<Call>): (r: Bucket)
    ensures r.speed == b.speed && r.maxFreeCap == b.maxFreeCap
  {
    if calls == [] then b else AddTo(Run(b, calls[..|calls| - 1]), calls[|calls| - 1]).0
  }

  function Admitted(calls: seq<Call>): nat {
    if calls == [] then 0 else Admitted(calls[..|calls| - 1]) + calls[|calls| - 1].increment
  }

  /** When the last call returned; the lock makes the next call start after that. */
  function ReturnTime(start: int, calls: seq<Call>): int {
    if calls == [] then start else calls[|calls| - 1].returned
  }

  /** The clock only moves forward, every call waits, sleeps last at least as long as asked, and the two
      products (elapsed time by speed, debt in nanoseconds) stay inside int64. */
  ghost predicate Timed(b: Bucket, calls: seq<Call>) {
    calls == [] ||
    var init, c := calls[..|calls| - 1], calls[|calls| - 1];
    && Timed(b, init)
    && c.wait
    && ReturnTime(b.lastUpdate, init) <= c.since <= c.now
    && (c.since - Run(b, init).lastUpdate) * b.speed < 0x8000_0000_0000_0000
    && -Run(b, calls).freeCap * Second < 0x8000_0000_0000_0000
    && (b.speed > 0 ==> c.now + SleepFor(Run(b, calls)) <= c.returned)
  }

  predicate New(b: Bucket) {
    b.speed > 0 && b.freeCap == b.maxFreeCap && b.maxFreeCap >= 0
  }

  lemma NonNegative(a: int, b: int)
    requires a >= 0 && b >= 0
    ensures a * b >= 0
  {}

  /** Without overflow a credit is the elapsed time times the speed, rounded down. */
  lemma CreditBounds(elapsed: int, speed: int)
    requires elapsed >= 0 && speed > 0 && elapsed * speed < 0x8000_0000_0000_0000
    ensures var q := Quot(Mul64(elapsed, speed), Second);
            q * Second <= elapsed * speed < q * Second + Second
  {
    NonNegative(elapsed, speed);
    var x := elapsed * speed;
    assert Mul64(elapsed, speed) == x;
    assert x == (x / Second) * Second + x % Second;
  }

  lemma RoundedUp(x: nat, d: int)
    requires d > 0
    ensures x / d >= 0 && (x / d) * d <= x < (x / d + 1) * d
  {
    assert x == (x / d) * d + x % d;
  }

  /** The sleep is the debt divided by the speed, rounded down to a nanosecond, and 0 without a debt. */
  lemma SleepCovers(b: Bucket)
    requires b.speed > 0 && -b.freeCap * Second < 0x8000_0000_0000_0000
    ensures var s := SleepFor(b); s >= 0 && -b.freeCap * Second < (s + 1) * b.speed
    ensures b.freeCap < 0 ==> SleepFor(b) * b.speed <= -b.freeCap * Second
    ensures b.freeCap >= 0 ==> SleepFor(b) == 0
  {
    if b.freeCap < 0 {
      var debt := -b.freeCap * Second;
      assert Mul64(1_000_000, Mul64(-b.freeCap, 1000)) == debt;
      RoundedUp(debt, b.speed);
    }
  }

  lemma Distribute(speed: int, x: int, y: int)
    ensures speed * (x + y) == speed * x + speed * y
  {}

  lemma Monotone(speed: int, x: int, y: int)
    requires speed >= 0 && x <= y
    ensures speed * x <= speed * y
  {}

  /** Tokens are conserved: what was admitted and what is left come from the initial fill and from
      credit for the time up to the last update. */
  ghost predicate Conserved(b: Bucket, r: Bucket, admitted: nat) {
    && b.lastUpdate <= r.lastUpdate
    && r.freeCap <= r.maxFreeCap
    && (admitted + r.freeCap) * Second <= b.maxFreeCap * Second + b.speed * (r.lastUpdate - b.lastUpdate)
  }

  lemma CallConserves(b: Bucket, r: Bucket, admitted: nat, c: Call)
    requires b.speed > 0 && r.speed == b.speed && r.maxFreeCap == b.maxFreeCap && Conserved(b, r, admitted)
    requires c.wait && r.lastUpdate <= c.since <= c.now
    requires (c.since - r.lastUpdate) * b.speed < 0x8000_0000_0000_0000
    ensures Conserved(b, AddTo(r, c).0, admitted + c.increment)
  {
    var elapsed, start := c.since - r.lastUpdate, b.lastUpdate;
    CreditBounds(elapsed, b.speed);
    Distribute(b.speed, r.lastUpdate - start, elapsed);
    Monotone(b.speed, c.since - start, c.now - start);
    assert elapsed * b.speed == b.speed * elapsed;
  }

  lemma {:induction false} RunConserves(b: Bucket, calls: seq<Call>)
    requires New(b) && Timed(b, calls)
    ensures Conserved(b, Run(b, calls), Admitted(calls))
    ensures Run(b, calls).lastUpdate <= ReturnTime(b.lastUpdate, calls)
    ensures calls != [] ==> Run(b, calls).lastUpdate + SleepFor(Run(b, calls)) <= ReturnTime(b.lastUpdate, calls)
  {
    if calls == [] {
    } else {
      var init, c := calls[..|calls| - 1], calls[|calls| - 1];
      RunConserves(b, init);
      CallConserves(b, Run(b, init), Admitted(init), c);
      SleepCovers(Run(b, calls));
    }
  }

  lemma Spent(b: Bucket, r: Bucket, admitted: nat, end: int)
    requires b.speed > 0 && r.speed == b.speed && Conserved(b, r, admitted)
    requires -r.freeCap * Second < 0x8000_0000_0000_0000 && r.lastUpdate + SleepFor(r) <= end
    ensures admitted * Second <= b.maxFreeCap * Second + b.speed * (end - b.lastUpdate + 1)
  {
    var s, used := SleepFor(r), r.lastUpdate - b.lastUpdate;
    SleepCovers(r);
    Distribute(b.speed, used, s + 1);
    Monotone(b.speed, used + (s + 1), end - b.lastUpdate + 1);
    assert (s + 1) * b.speed == b.speed * (s + 1);
  }

  /** In every run: the bucket never overfills, and by the time a call returns at most
      maxFreeCap + speed * (elapsed + 1ns) has been admitted. */
  lemma RateLimited(b: Bucket, calls: seq<Call>)
    requires New(b) && Timed(b, calls)
    ensures Run(b, calls).freeCap <= b.maxFreeCap
    ensures Admitted(calls) * Second <=
            b.maxFreeCap * Second + b.speed * (ReturnTime(b.lastUpdate, calls) - b.lastUpdate + 1)
  {
    RunConserves(b, calls);
    Spent(b, Run(b, calls), Admitted(calls), ReturnTime(b.lastUpdate, calls));
  }

  /** A sleep that lasts as asked repays the debt of the call before it down to one token. */
  lemma DebtRepaid(r: Bucket, since: int)
    requires 0 < r.speed <= Second && r.maxFreeCap >= 0 && -r.freeCap * Second < 0x8000_0000_0000_0000
    requires r.lastUpdate + SleepFor(r) <= since && (since - r.lastUpdate) * r.speed < 0x8000_0000_0000_0000
    ensures Credited(r, since) >= -1
  {
    var elapsed, s := since - r.lastUpdate, SleepFor(r);
    SleepCovers(r);
    CreditBounds(elapsed, r.speed);
    Monotone(r.speed, s + 1, elapsed + 1);
    assert (s + 1) * r.speed == r.speed * (s + 1);
    assert r.speed * (elapsed + 1) == elapsed * r.speed + r.speed;
    var q := Quot(Mul64(elapsed, r.speed), Second);
    assert (r.freeCap + q + 2) * Second > 0;
  }

  /** With at most 10^9 tokens a second, no call leaves a debt of more than its own increment and one. */
  lemma DebtBounded(b: Bucket, calls: seq<Call>)
    requires New(b) && b.speed <= Second && Timed(b, calls) && calls != []
    ensures Run(b, calls).freeCap >= -1 - calls[|calls| - 1].increment
  {
    var init, c := calls[..|calls| - 1], calls[|calls| - 1];
    RunConserves(b, init);
    var r := Run(b, init);
    DebtRepaid(r, c.since);
  }

  /** A call that may not wait is admitted exactly when the credited bucket covers it. A refused one costs
      nothing, but leaves lastUpdate alone, so the time before it is credited again: here 5 s at one token
      a second pay for 8. */
  lemma RefusalCreditsTwice()
    ensures var b, c := Bucket(0, 1, 0, 10), Call(8, false, 5 * Second, 5 * Second, 5 * Second);
            var (b', ok) := AddTo(b, c);
            !ok && b' == b.(freeCap := 5) && AddTo(b', c) == (b.(freeCap := 2, lastUpdate := 5 * Second), true)
  {
    assert Mul64(5 * Second, 1) == 5 * Second;
  }
}
