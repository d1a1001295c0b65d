/** The token checks of the mobile apps: tokenValidationError (CoreToken.kt) and validateToken
    (OpenP2PController.ets). Both accept the decimal spellings of 1 .. 2^64 - 1. */
module Token {

  datatype Verdict = Accepted | NotDecimal | IsZero | TooLarge

  const Maximum := "18446744073709551615"

  predicate IsDigit(c: char) {
    '0' <= c <= '9'
  }

  /** The regular expressions [0-9]+ and ^\d+$. */
  predicate AllDigits(s: string) {
    s != [] && forall i :: 0 <= i < |s| ==> IsDigit(s[i])
  }

  function TrimZeros(s: string): (r: string)
    ensures |r| <= |s| && r == s[|s| - |r|..]
    ensures r != [] ==> r[0] != '0'
    ensures forall i :: 0 <= i < |s| - |r| ==> s[i] == '0'
  {
    if s != [] && s[0] == '0' then TrimZeros(s[1..]) else s
  }

  /** String comparison: by the first character that differs, then by length. */
  predicate Greater(a: string, b: string) {
    if a == [] then false
    else if b == [] then true
    else if a[0] != b[0] then a[0] > b[0]
    else Greater(a[1..], b[1..])
  }

  function TokenValidationError(value: string): Verdict {
    if !AllDigits(value) then NotDecimal
    else
      var normalized := TrimZeros(value);
      if normalized == [] then IsZero
      else if |normalized| > |Maximum| || (|normalized| == |Maximum| && Greater(normalized, Maximum)) then TooLarge
      else Accepted
  }

  function ValidateToken(value: string): Verdict {
    if !AllDigits(value) then NotDecimal
    else
      var trimmed := TrimZeros(value);
      var normalized := if |trimmed| == 0 then "0" else trimmed;
      if normalized == "0" then IsZero
      else if |normalized| > |Maximum| || (|normalized| == |Maximum| && Greater(normalized, Maximum)) then TooLarge
      else Accepted
  }

  // ----- what the digits mean

  function Digit(c: char): nat
    requires IsDigit(c)
  {
    (c - '0') as nat
  }

  predicate Digits(s: string) {
    forall i :: 0 <= i < |s| ==> IsDigit(s[i])
  }

  function Pow10(k: nat): (r: nat)
    ensures r >= 1
  {
    if k == 0 then 1 else 10 * Pow10(k - 1)
  }

  function Number(s: string): nat
    requires Digits(s)
  {
    if s == [] then 0 else 10 * Number(s[..|s| - 1]) + Digit(s[|s| - 1])
  }

  lemma {:induction false} NumberBound(s: string)
    requires Digits(s)
    ensures Number(s) < Pow10(|s|)
  {
    if s == [] {
    } else {
      NumberBound(s[..|s| - 1]);
    }
  }

  lemma {:induction false} ZeroInFront(s: string)
    requires Digits(s)
    ensures Number(['0'] + s) == Number(s)
  {
    var t := ['0'] + s;
    if s == [] {
      assert t[..0] == [];
    } else {
      ZeroInFront(s[..|s| - 1]);
      assert t[..|t| - 1] == ['0'] + s[..|s| - 1];
    }
  }

  /** Leading zeros do not count. */
  lemma {:induction false} TrimKeepsNumber(s: string)
    requires Digits(s)
    ensures Digits(TrimZeros(s)) && Number(TrimZeros(s)) == Number(s)
  {
    if s != [] && s[0] == '0' {
      TrimKeepsNumber(s[1..]);
      ZeroInFront(s[1..]);
      assert s == ['0'] + s[1..];
    }
  }

  lemma {:induction false} LeadingDigit(s: string)
    requires Digits(s) && s != [] && s[0] != '0'
    ensures Number(s) >= Pow10(|s| - 1)
  {
    if |s| == 1 {
    } else {
      LeadingDigit(s[..|s| - 1]);
    }
  }

  lemma {:induction false} Pow10Monotone(i: nat, j: nat)
    requires i <= j
    ensures Pow10(i) <= Pow10(j)
    decreases j
  {
    if i < j {
      Pow10Monotone(i, j - 1);
    }
  }

  /** Of two trimmed spellings the longer one is the larger number. */
  lemma LongerIsLarger(a: string, b: string)
    requires Digits(a) && Digits(b) && |a| > |b| && a[0] != '0'
    ensures Number(a) > Number(b)
  {
    NumberBound(b);
    LeadingDigit(a);
    Pow10Monotone(|b|, |a| - 1);
  }

  /** String order decides on the last character only between equal beginnings. */
  lemma {:induction false} GreaterByLast(a: string, b: string)
    requires |a| == |b| && a != []
    ensures var n := |a| - 1;
            Greater(a, b) <==> Greater(a[..n], b[..n]) || (a[..n] == b[..n] && a[n] > b[n])
  {
    var n := |a| - 1;
    if n > 0 && a[0] == b[0] {
      GreaterByLast(a[1..], b[1..]);
      assert a[1..][..n - 1] == a[..n][1..] && b[1..][..n - 1] == b[..n][1..];
      assert a[..n] == [a[0]] + a[..n][1..] && b[..n] == [b[0]] + b[..n][1..];
    }
  }

  lemma {:induction false} GreaterTotal(a: string, b: string)
    requires |a| == |b|
    ensures a == b || Greater(a, b) || Greater(b, a)
  {
    if a != [] && a[0] == b[0] {
      GreaterTotal(a[1..], b[1..]);
      assert a == [a[0]] + a[1..] && b == [b[0]] + b[1..];
    }
  }

  /** For equal lengths, string order is numeric order. */
  lemma {:induction false} GreaterIsLarger(a: string, b: string)
    requires Digits(a) && Digits(b) && |a| == |b|
    ensures Greater(a, b) <==> Number(a) > Number(b)
    decreases |a|
  {
    if a == [] {
    } else {
      var n := |a| - 1;
      GreaterByLast(a, b);
      GreaterTotal(a[..n], b[..n]);
      GreaterIsLarger(a[..n], b[..n]);
      GreaterIsLarger(b[..n], a[..n]);
    }
  }

  lemma NextPrefix(k: nat, n: nat)
    requires k < |Maximum| && Digits(Maximum) && Number(Maximum[..k]) == n
    ensures Number(Maximum[..k + 1]) == 10 * n + Digit(Maximum[k])
  {
    assert Maximum[..k + 1][..k] == Maximum[..k];
  }

  lemma Prefix7()
    ensures Digits(Maximum) && Number(Maximum[..7]) == 1844674
  {
    assert Number(Maximum[..0]) == 0;
    hide Number;
    NextPrefix(0, 0); NextPrefix(1, 1); NextPrefix(2, 18); NextPrefix(3, 184);
    NextPrefix(4, 1844); NextPrefix(5, 18446); NextPrefix(6, 184467);
  }

  lemma Prefix14()
    ensures Digits(Maximum) && Number(Maximum[..14]) == 18446744073709
  {
    Prefix7();
    hide Number;
    NextPrefix(7, 1844674); NextPrefix(8, 18446744); NextPrefix(9, 184467440); NextPrefix(10, 1844674407);
    NextPrefix(11, 18446744073); NextPrefix(12, 184467440737); NextPrefix(13, 1844674407370);
  }

  lemma MaximumIsUint64()
    ensures Digits(Maximum) && Number(Maximum) == 0xffff_ffff_ffff_ffff
  {
    Prefix14();
    hide Number;
    NextPrefix(14, 18446744073709);
    NextPrefix(15, 184467440737095);
    NextPrefix(16, 1844674407370955);
    NextPrefix(17, 18446744073709551);
    NextPrefix(18, 184467440737095516);
    NextPrefix(19, 1844674407370955161);
    assert Maximum[..20] == Maximum;
  }

  /** Both checks accept exactly the digit strings whose value is in 1 .. 2^64 - 1, and tell the reasons
      for refusal apart. */
  lemma AcceptsUint64(value: string)
    ensures TokenValidationError(value) == NotDecimal <==> !AllDigits(value)
    ensures AllDigits(value) ==>
              && (TokenValidationError(value) == Accepted <==> 1 <= Number(value) <= 0xffff_ffff_ffff_ffff)
              && (TokenValidationError(value) == IsZero <==> Number(value) == 0)
              && (TokenValidationError(value) == TooLarge <==> Number(value) > 0xffff_ffff_ffff_ffff)
    ensures ValidateToken(value) == TokenValidationError(value)
  {
    if AllDigits(value) {
      var t := TrimZeros(value);
      TrimKeepsNumber(value);
      MaximumIsUint64();
      if t != [] {
        LeadingDigit(t);
        if |t| > |Maximum| {
          LongerIsLarger(t, Maximum);
        } else if |t| < |Maximum| {
          LongerIsLarger(Maximum, t);
        } else {
          GreaterIsLarger(t, Maximum);
        }
      }
    }
  }
}
