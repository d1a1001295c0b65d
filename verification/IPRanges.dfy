/** The abstract value of an IPTree: a finite map from the lower bound of each stored interval
    to its upper bound and its payload. Adding and deleting intervals are defined here without
    any tree, and the laws every run of them obeys are proved here. */
module IPRanges {
  import opened Basics

  // Addresses are compared and never computed with, so any integers will do for uint32.
  type Addr = int

  datatype Range<+V> = Range(maxIP: Addr, v: V)

  type Ranges<V> = map<Addr, Range<V>>

  predicate Meets(lo0: Addr, hi0: Addr, lo1: Addr, hi1: Addr) {
    lo0 <= hi1 && lo1 <= hi0
  }

  /** Stored intervals are well formed and pairwise disjoint. */
  ghost predicate Disjoint<V>(m: Ranges<V>) {
    && (forall k :: k in m ==> k <= m[k].maxIP)
    && (forall j, k :: j in m && k in m && j < k ==> m[j].maxIP < k)
  }

  ghost predicate Hits<V>(m: Ranges<V>, k: Addr, ip: Addr) {
    k in m && k <= ip <= m[k].maxIP
  }

  ghost predicate Covers<V>(m: Ranges<V>, ip: Addr) {
    exists k :: Hits(m, k, ip)
  }

  /** The linear scan: the payload of some interval that contains `ip`. */
  ghost function Lookup<V>(m: Ranges<V>, ip: Addr): (r: Option<V>)
    ensures r.Some? <==> Covers(m, ip)
  {
    if k :| Hits(m, k, ip) then Some(m[k].v) else None
  }

  /** One stored interval contains the whole of [lo, hi]. */
  ghost predicate Inside<V>(m: Ranges<V>, lo: Addr, hi: Addr) {
    exists k :: k in m && k <= lo && hi <= m[k].maxIP
  }

  ghost function Touched<V>(m: Ranges<V>, lo: Addr, hi: Addr): set<Addr> {
    set k | k in m && Meets(k, m[k].maxIP, lo, hi)
  }

  /** The hull of [lo, hi] and every stored interval that meets it. */
  ghost function HullLo<V>(m: Ranges<V>, lo: Addr, hi: Addr): Addr {
    assert lo in {lo} + Touched(m, lo, hi);
    MinOf({lo} + Touched(m, lo, hi))
  }

  ghost function HullHi<V>(m: Ranges<V>, lo: Addr, hi: Addr): Addr {
    var tops := {hi} + set k | k in Touched(m, lo, hi) :: m[k].maxIP;
    assert hi in tops;
    MaxOf(tops)
  }

  /** What adding [lo, hi] with payload `v` must produce. */
  ghost function Added<V>(m: Ranges<V>, lo: Addr, hi: Addr, v: V): Ranges<V> {
    if lo > hi || Inside(m, lo, hi) then m
    else (m - Touched(m, lo, hi))[HullLo(m, lo, hi) := Range(HullHi(m, lo, hi), v)]
  }

  /** Deletion looks at the lower bound only. */
  ghost function Deleted<V>(m: Ranges<V>, lo: Addr): Ranges<V> {
    m - {lo}
  }

  lemma LookupUnique<V>(m: Ranges<V>, k: Addr, ip: Addr)
    requires Disjoint(m) && Hits(m, k, ip)
    ensures Lookup(m, ip) == Some(m[k].v)
  {
    assert forall j :: Hits(m, j, ip) ==> j == k;
  }

  /** Where the two ends of the hull come from. */
  lemma HullEnds<V>(m: Ranges<V>, lo: Addr, hi: Addr)
    ensures HullLo(m, lo, hi) <= lo && hi <= HullHi(m, lo, hi)
    ensures HullLo(m, lo, hi) == lo || HullLo(m, lo, hi) in Touched(m, lo, hi)
    ensures HullHi(m, lo, hi) == hi || exists k :: k in Touched(m, lo, hi) && m[k].maxIP == HullHi(m, lo, hi)
    ensures forall k :: k in Touched(m, lo, hi) ==> HullLo(m, lo, hi) <= k && m[k].maxIP <= HullHi(m, lo, hi)
  {
    var t := Touched(m, lo, hi);
    var tops := set k | k in t :: m[k].maxIP;
    assert lo in {lo} + t && hi in {hi} + tops;
    assert forall k :: k in t ==> m[k].maxIP in {hi} + tops;
  }

  /** The hull stays clear of every interval it leaves in place. */
  lemma HullClear<V>(m: Ranges<V>, lo: Addr, hi: Addr, k: Addr)
    requires Disjoint(m) && lo <= hi && k in m && k !in Touched(m, lo, hi)
    ensures !Meets(k, m[k].maxIP, HullLo(m, lo, hi), HullHi(m, lo, hi))
  {
    HullEnds(m, lo, hi);
    if hi < k && HullHi(m, lo, hi) != hi {
      var j :| j in Touched(m, lo, hi) && m[j].maxIP == HullHi(m, lo, hi);
      assert j < k;
    }
  }

  ghost predicate InHull<V>(m: Ranges<V>, lo: Addr, hi: Addr, ip: Addr) {
    HullLo(m, lo, hi) <= ip <= HullHi(m, lo, hi)
  }

  /** The hull is an exact union: it adds no address beyond [lo, hi] and the intervals it swallows. */
  lemma HullExact<V>(m: Ranges<V>, lo: Addr, hi: Addr, ip: Addr)
    requires Disjoint(m) && lo <= hi
    ensures InHull(m, lo, hi, ip) <==>
            lo <= ip <= hi || exists k :: k in Touched(m, lo, hi) && Hits(m, k, ip)
  {
    HullEnds(m, lo, hi);
    if InHull(m, lo, hi, ip) {
      if ip < lo {
        assert Hits(m, HullLo(m, lo, hi), ip);
      } else if hi < ip {
        var k :| k in Touched(m, lo, hi) && m[k].maxIP == HullHi(m, lo, hi);
        assert Hits(m, k, ip);
      }
    }
  }

  lemma AddedDisjoint<V>(m: Ranges<V>, lo: Addr, hi: Addr, v: V)
    requires Disjoint(m)
    ensures Disjoint(Added(m, lo, hi, v))
  {
    if lo <= hi {
      HullEnds(m, lo, hi);
      forall k | k in m && k !in Touched(m, lo, hi)
        ensures !Meets(k, m[k].maxIP, HullLo(m, lo, hi), HullHi(m, lo, hi))
      {
        HullClear(m, lo, hi, k);
      }
    }
  }

  /** Which stored interval contains `ip` after an addition that was not ignored. */
  lemma AddedHits<V>(m: Ranges<V>, lo: Addr, hi: Addr, v: V, k: Addr, ip: Addr)
    requires Disjoint(m) && lo <= hi && !Inside(m, lo, hi)
    ensures Hits(Added(m, lo, hi, v), k, ip) <==>
            if InHull(m, lo, hi, ip) then k == HullLo(m, lo, hi) else Hits(m, k, ip)
  {
    HullEnds(m, lo, hi);
    if k in m && k !in Touched(m, lo, hi) {
      HullClear(m, lo, hi, k);
    }
  }

  /** Addresses covered after an addition are the old ones and [lo, hi], nothing else. */
  lemma AddedCoverage<V>(m: Ranges<V>, lo: Addr, hi: Addr, v: V, ip: Addr)
    requires Disjoint(m)
    ensures Covers(Added(m, lo, hi, v), ip) <==> Covers(m, ip) || lo <= ip <= hi
  {
    if lo <= hi {
      if Inside(m, lo, hi) {
        var k :| k in m && k <= lo && hi <= m[k].maxIP;
        assert lo <= ip <= hi ==> Hits(m, k, ip);
      } else {
        HullExact(m, lo, hi, ip);
        HullHolds(m, lo, hi, ip);
        AddedHits(m, lo, hi, v, HullLo(m, lo, hi), ip);
        if k :| Hits(Added(m, lo, hi, v), k, ip) {
          AddedHits(m, lo, hi, v, k, ip);
        }
        if k :| Hits(m, k, ip) {
          AddedHits(m, lo, hi, v, k, ip);
        }
      }
    }
  }

  /** An interval that contains an address of the hull is one the hull swallowed. */
  lemma HullHolds<V>(m: Ranges<V>, lo: Addr, hi: Addr, ip: Addr)
    requires Disjoint(m) && lo <= hi
    ensures forall k :: Hits(m, k, ip) && InHull(m, lo, hi, ip) ==> k in Touched(m, lo, hi)
    ensures InHull(m, lo, hi, ip) <== exists k :: k in Touched(m, lo, hi) && Hits(m, k, ip)
  {
    HullEnds(m, lo, hi);
    forall k | Hits(m, k, ip) && InHull(m, lo, hi, ip)
      ensures k in Touched(m, lo, hi)
    {
      if k !in Touched(m, lo, hi) {
        HullClear(m, lo, hi, k);
      }
    }
  }

  /** Every address of the hull answers the new payload, every other address answers as before;
      an addition that lies inside one interval is ignored. */
  lemma AddedLookup<V>(m: Ranges<V>, lo: Addr, hi: Addr, v: V, ip: Addr)
    requires Disjoint(m) && lo <= hi
    ensures Lookup(Added(m, lo, hi, v), ip) ==
            if !Inside(m, lo, hi) && InHull(m, lo, hi, ip) then Some(v) else Lookup(m, ip)
  {
    AddedDisjoint(m, lo, hi, v);
    if !Inside(m, lo, hi) {
      var n := Added(m, lo, hi, v);
      forall k {
        AddedHits(m, lo, hi, v, k, ip);
      }
      if InHull(m, lo, hi, ip) {
        LookupUnique(n, HullLo(m, lo, hi), ip);
      } else if k :| Hits(m, k, ip) {
        LookupUnique(m, k, ip);
        LookupUnique(n, k, ip);
      }
    }
  }

  // ----- runs

  datatype Op<+V> = Add(lo: Addr, hi: Addr, v: V) | Del(lo: Addr)

  ghost function Apply<V>(m: Ranges<V>, op: Op<V>): Ranges<V> {
    match op
    case Add(lo, hi, v) => Added(m, lo, hi, v)
    case Del(lo) => Deleted(m, lo)
  }

  ghost function ApplyAll<V>(m: Ranges<V>, ops: seq<Op<V>>): Ranges<V> {
    if ops == [] then m else Apply(ApplyAll(m, ops[..|ops| - 1]), ops[|ops| - 1])
  }

  lemma ApplyOne<V>(m: Ranges<V>, ops: seq<Op<V>>, op: Op<V>)
    ensures ApplyAll(m, ops + [op]) == Apply(ApplyAll(m, ops), op)
    ensures ApplyAll(m, ops + []) == ApplyAll(m, ops)
  {
    assert (ops + [op])[..|ops|] == ops && ops + [] == ops;
  }

  /** Over every run of additions and deletions the intervals stay well formed and disjoint. */
  lemma {:induction false} RunDisjoint<V>(m: Ranges<V>, ops: seq<Op<V>>)
    requires Disjoint(m)
    ensures Disjoint(ApplyAll(m, ops))
  {
    if ops == [] {
    } else {
      var init, last := ops[..|ops| - 1], ops[|ops| - 1];
      RunDisjoint(m, init);
      if last.Add? {
        AddedDisjoint(ApplyAll(m, init), last.lo, last.hi, last.v);
      }
    }
  }

  lemma {:induction false} ApplyAllConcat<V>(m: Ranges<V>, a: seq<Op<V>>, b: seq<Op<V>>)
    ensures ApplyAll(m, a + b) == ApplyAll(ApplyAll(m, a), b)
  {
    if b == [] {
      assert a + b == a;
    } else {
      ApplyAllConcat(m, a, b[..|b| - 1]);
      assert (a + b)[..|a + b| - 1] == a + b[..|b| - 1];
    }
  }
}
