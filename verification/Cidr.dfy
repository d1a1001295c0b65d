/** IPv4 addresses and CIDR blocks (core/iptree.go, core/sdwan.go). An address is the sequence of its
    bits, most significant first; the octet-wise operators of the source act on each bit alone. */
module Cidr {
  import opened Basics

  type Bits = seq<bool>

  function Value(b: Bits): nat {
    if b == [] then 0 else 2 * Value(b[..|b| - 1]) + if b[|b| - 1] then 1 else 0
  }

  /** net.ParseCIDR keeps the masked address and the mask of `prefix` leading ones. */
  datatype IPNet = IPNet(ip: Bits, mask: Bits)

  function ParseCIDR(addr: Bits, prefix: nat): IPNet
    requires prefix <= |addr|
  {
    var mask := seq(|addr|, i => i < prefix);
    IPNet(seq(|addr|, i requires 0 <= i < |addr| => addr[i] && mask[i]), mask)
  }

  /** The loop that builds the highest address: ip | ^mask, bit by bit. */
  method CalculateMaxIP(n: IPNet) returns (maxIP: array<bool>)
    requires |n.ip| == |n.mask|
    ensures maxIP[..] == MaxIP(n)
  {
    maxIP := new bool[|n.ip|](i requires 0 <= i < |n.ip| => n.ip[i]);
    for i := 0 to maxIP.Length
      invariant forall j :: 0 <= j < i ==> maxIP[j] == (n.ip[j] || !n.mask[j])
      invariant forall j :: i <= j < maxIP.Length ==> maxIP[j] == n.ip[j]
    {
      maxIP[i] := maxIP[i] || !n.mask[i];
    }
  }

  function MaxIP(n: IPNet): (r: Bits)
    requires |n.ip| == |n.mask|
  {
    seq(|n.ip|, i requires 0 <= i < |n.ip| => n.ip[i] || !n.mask[i])
  }

  function Lo(n: IPNet): nat {
    Value(n.ip)
  }

  function Hi(n: IPNet): nat
    requires |n.ip| == |n.mask|
  {
    Value(MaxIP(n))
  }

  lemma {:induction false} ValueBound(s: Bits)
    ensures Value(s) < Pow2(|s|)
  {
    if s == [] {
    } else {
      ValueBound(s[..|s| - 1]);
    }
  }

  lemma DoubleProduct(a: int, b: int)
    ensures 2 * (a * b) == a * (2 * b)
  {}

  lemma {:induction false} ValueConcat(p: Bits, s: Bits)
    ensures Value(p + s) == Value(p) * Pow2(|s|) + Value(s)
  {
    if s == [] {
      assert p + s == p;
    } else {
      var init, t := s[..|s| - 1], p + s;
      ValueConcat(p, init);
      assert t[..|t| - 1] == p + init && t[|t| - 1] == s[|s| - 1];
      DoubleProduct(Value(p), Pow2(|init|));
    }
  }

  lemma {:induction false} ValueInjective(a: Bits, b: Bits)
    requires |a| == |b| && Value(a) == Value(b)
    ensures a == b
  {
    if a == [] {
    } else {
      ValueInjective(a[..|a| - 1], b[..|b| - 1]);
      assert a == a[..|a| - 1] + [a[|a| - 1]] && b == b[..|b| - 1] + [b[|b| - 1]];
    }
  }

  lemma {:induction false} ValueConstant(b: Bits, bit: bool)
    requires forall i :: 0 <= i < |b| ==> b[i] == bit
    ensures Value(b) == if bit then Pow2(|b|) - 1 else 0
  {
    if b == [] {
    } else {
      ValueConstant(b[..|b| - 1], bit);
    }
  }

  /** The two ends of a block: the prefix followed by zeros, and by ones. */
  lemma BlockEnds(addr: Bits, prefix: nat)
    requires prefix <= |addr|
    ensures var n, h := ParseCIDR(addr, prefix), |addr| - prefix;
            var p := Value(addr[..prefix]);
            Lo(n) == p * Pow2(h) && Hi(n) == p * Pow2(h) + Pow2(h) - 1
  {
    hide Value, Pow2;
    var n := ParseCIDR(addr, prefix);
    assert n.ip[..prefix] == addr[..prefix] == MaxIP(n)[..prefix];
    Split(n.ip, prefix);
    Split(MaxIP(n), prefix);
    ValueConstant(n.ip[prefix..], false);
    ValueConstant(MaxIP(n)[prefix..], true);
  }

  /** [ip, ip | ^mask] is exactly the block of section 3.1 of RFC 4632: the addresses that share the
      first `prefix` bits. */
  lemma BlockExact(addr: Bits, prefix: nat, x: Bits)
    requires prefix <= |addr| == |x|
    ensures var n := ParseCIDR(addr, prefix); Lo(n) <= Value(x) <= Hi(n) <==> x[..prefix] == addr[..prefix]
  {
    hide ParseCIDR, Lo, Hi, Value, Pow2;
    BlockEnds(addr, prefix);
    Split(x, prefix);
    SameQuotient(Value(addr[..prefix]), Value(x[..prefix]), Value(x[prefix..]), Pow2(|addr| - prefix));
    if Value(addr[..prefix]) == Value(x[..prefix]) {
      ValueInjective(addr[..prefix], x[..prefix]);
    }
  }

  /** Two blocks meet exactly when they agree on the shorter prefix, and then the longer prefix has the
      smaller block: blocks are nested or disjoint. */
  lemma BlocksNested(a: Bits, p: nat, b: Bits, q: nat)
    requires p <= q <= |a| == |b|
    ensures var m, n := ParseCIDR(a, p), ParseCIDR(b, q);
            && (Lo(m) <= Hi(n) && Lo(n) <= Hi(m) <==> b[..p] == a[..p])
            && (Lo(m) <= Lo(n) && Hi(n) <= Hi(m) <==> b[..p] == a[..p])
  {
    hide ParseCIDR, MaxIP, Value;
    var m, n := ParseCIDR(a, p), ParseCIDR(b, q);
    BlockOrdered(a, p);
    BlockOrdered(b, q);
    EndsShare(a, p, p);
    EndsShare(b, q, p);
    BlockExact(a, p, n.ip);
    BlockExact(a, p, MaxIP(n));
    BlockExact(b, q, m.ip);
    assert m.ip[..q][..p] == m.ip[..p] && b[..q][..p] == b[..p];
  }

  lemma EndsShare(addr: Bits, prefix: nat, k: nat)
    requires k <= prefix <= |addr|
    ensures var n := ParseCIDR(addr, prefix);
            |n.ip| == |n.mask| == |MaxIP(n)| == |addr| && n.ip[..k] == addr[..k] == MaxIP(n)[..k]
  {}

  lemma BlockOrdered(addr: Bits, prefix: nat)
    requires prefix <= |addr|
    ensures var n := ParseCIDR(addr, prefix); Lo(n) <= Hi(n)
  {
    BlockEnds(addr, prefix);
  }

  lemma Split(b: Bits, k: nat)
    requires k <= |b|
    ensures Value(b) == Value(b[..k]) * Pow2(|b| - k) + Value(b[k..])
    ensures Value(b[k..]) < Pow2(|b| - k)
  {
    assert b[..k] + b[k..] == b;
    ValueConcat(b[..k], b[k..]);
    ValueBound(b[k..]);
  }

  lemma SameQuotient(p: nat, q: nat, r: nat, w: nat)
    requires r < w
    ensures p * w <= q * w + r <= p * w + w - 1 <==> p == q
  {
    if p < q {
      NextMultiple(p, q, w);
    } else if q < p {
      NextMultiple(q, p, w);
    }
  }
}
