// Small types shared by the whole model.
module Basics {

  datatype Option<+T> = None | Some(value: T)

  // Go's uint8, uint16 and uint64, as ranges of the integers.
  type Byte = x: int | 0 <= x < 0x100
  type Uint16 = x: int | 0 <= x < 0x1_0000
  type Uint64 = x: int | 0 <= x < 0x1_0000_0000_0000_0000

  type Bytes = seq<Byte>

  function Pow2(k: nat): (r: nat)
    ensures r >= 1
  {
    if k == 0 then 1 else 2 * Pow2(k - 1)
  }

  ghost function MinOf(s: set<int>): (r: int)
    requires exists x :: x in s
    ensures r in s && forall x :: x in s ==> r <= x
  {
    var x :| x in s;
    var rest := s - {x};
    assert forall y :: y in s ==> y == x || y in rest;
    if y :| y in rest then
      var z := MinOf(rest);
      if x < z then x else z
    else x
  }

  ghost function MaxOf(s: set<int>): (r: int)
    requires exists x :: x in s
    ensures r in s && forall x :: x in s ==> x <= r
  {
    var x :| x in s;
    var rest := s - {x};
    assert forall y :: y in s ==> y == x || y in rest;
    if y :| y in rest then
      var z := MaxOf(rest);
      if z < x then x else z
    else x
  }

  lemma NextMultiple(a: nat, b: nat, d: nat)
    requires a < b
    ensures a * d + d <= b * d
  {
    assert (a + 1) * d <= b * d;
  }
}
