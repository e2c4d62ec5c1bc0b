/** Numbers written as big-endian digit sequences in any base. */
module Radix {
  import Limbs

  function Pow(b: nat, n: nat): (p: nat)
    ensures b >= 1 ==> p >= 1
  {
    if n == 0 then 1 else b * Pow(b, n - 1)
  }

  function Mul(a: nat, b: nat): nat { a * b }

  predicate Below(s: seq<nat>, b: nat) { forall k | 0 <= k < |s| :: s[k] < b }

  function Number(s: seq<nat>, b: nat): nat {
    if s == [] then 0 else Mul(s[0], Pow(b, |s| - 1)) + Number(s[1..], b)
  }

  /** The digits of n, without leading zeros; nothing for zero. */
  function Digits(n: nat, b: nat): (s: seq<nat>)
    requires b >= 2
    ensures Below(s, b) && (s != [] ==> s[0] != 0)
    decreases n
  {
    if n == 0 then [] else Digits(n / b, b) + [n % b]
  }

  function LeadingZeros(s: seq<nat>): (z: nat)
    ensures z <= |s| && forall k | 0 <= k < z :: s[k] == 0
    ensures z < |s| ==> s[z] != 0
  {
    if s == [] || s[0] != 0 then 0 else 1 + LeadingZeros(s[1..])
  }

  function Zeros(n: nat): (s: seq<nat>)
    ensures |s| == n && forall k | 0 <= k < n :: s[k] == 0
  {
    seq(n, _ => 0)
  }

  /** Change of base that keeps the number of leading zeros. */
  function Convert(s: seq<nat>, from: nat, to: nat): (t: seq<nat>)
    requires to >= 2
    ensures Below(t, to)
  {
    Zeros(LeadingZeros(s)) + Digits(Number(s, from), to)
  }

  // ----- powers

  lemma MulAssoc(a: nat, b: nat, c: nat)
    ensures a * Mul(b, c) == Mul(a * b, c)
  {}

  lemma {:induction false} PowAdd(b: nat, m: nat, n: nat)
    ensures Pow(b, m + n) == Mul(Pow(b, m), Pow(b, n))
  {
    hide Mul;
    UnitMul(Pow(b, n), 0);
    if m > 0 {
      PowAdd(b, m - 1, n);
      MulAssoc(b, Pow(b, m - 1), Pow(b, n));
    }
  }

  lemma {:induction false} PowMul(b: nat, m: nat, n: nat)
    ensures Pow(b, Mul(m, n)) == Pow(Pow(b, m), n)
  {
    if n > 0 {
      PowMul(b, m, n - 1);
      PowAdd(b, m, Mul(m, n - 1));
      assert m * n == m + m * (n - 1);
    }
  }

  lemma MulMono(a: nat, b: nat, c: nat, d: nat)
    requires a <= b && c <= d
    ensures Mul(a, c) <= Mul(b, d)
    ensures a < b && 0 < d ==> Mul(a, c) < Mul(b, d)
  {
    assert a * c <= a * d;
    assert a * d <= b * d;
    if a < b && 0 < d { assert (a + 1) * d <= b * d; }
  }

  lemma {:induction false} PowMonoBase(a: nat, b: nat, n: nat)
    requires a <= b
    ensures Pow(a, n) <= Pow(b, n)
    ensures a < b && n > 0 ==> Pow(a, n) < Pow(b, n)
  {
    if n > 0 {
      PowMonoBase(a, b, n - 1);
      MulMono(a, b, Pow(a, n - 1), Pow(b, n - 1));
    }
  }

  lemma {:induction false} PowMono(b: nat, m: nat, n: nat)
    requires b >= 1 && m <= n
    ensures Pow(b, m) <= Pow(b, n)
  {
    if m < n {
      PowMono(b, m, n - 1);
      MulMono(1, b, Pow(b, n - 1), Pow(b, n - 1));
    }
  }

  lemma MulComm(a: nat, b: nat)
    ensures Mul(a, b) == Mul(b, a)
  {}

  /** A known inequality between powers bounds every other exponent in proportion. */
  lemma PowRatio(a: nat, b: nat, p: nat, q: nat, n: nat, e: nat)
    requires a >= 1 && b >= 1 && p >= 1
    requires Pow(a, p) <= Pow(b, q) && Mul(q, n) <= Mul(p, e)
    ensures Pow(a, n) <= Pow(b, e)
  {
    hide Pow, Mul;
    if Pow(a, n) > Pow(b, e) {
      MulComm(n, p);
      MulComm(e, p);
      PowMonoBase(Pow(b, e), Pow(a, n), p);
      PowMul(a, n, p);
      PowMul(b, e, p);
      PowMul(a, p, n);
      PowMul(b, q, n);
      PowMonoBase(Pow(a, p), Pow(b, q), n);
      PowMono(b, Mul(q, n), Mul(e, p));
    }
  }

  // ----- digit sequences

  lemma {:induction false} NumberBound(s: seq<nat>, b: nat)
    requires b >= 1 && Below(s, b)
    ensures Number(s, b) < Pow(b, |s|)
  {
    if s != [] {
      NumberBound(s[1..], b);
      assert s[0] * Pow(b, |s| - 1) <= (b - 1) * Pow(b, |s| - 1) by {
        MulMono(s[0], b - 1, Pow(b, |s| - 1), Pow(b, |s| - 1));
      }
      assert b * Pow(b, |s| - 1) == (b - 1) * Pow(b, |s| - 1) + Pow(b, |s| - 1);
    }
  }

  lemma UnitMul(d: nat, b: nat)
    ensures Mul(d, 1) == d && Mul(1, d) == d && Mul(0, b) == 0
  {}

  lemma Regroup(d: nat, p: nat, n: nat, b: nat)
    ensures Mul(d, b * p) + Mul(n, b) == Mul(Mul(d, p) + n, b)
  {
    assert d * (b * p) == (d * p) * b;
    assert (d * p + n) * b == (d * p) * b + n * b;
  }

  lemma {:induction false} NumberSnoc(s: seq<nat>, d: nat, b: nat)
    ensures Number(s + [d], b) == Mul(Number(s, b), b) + d
  {
    hide Mul;
    if s == [] {
      assert s + [d] == [d] && [d][1..] == [] && Pow(b, 0) == 1;
      UnitMul(d, b);
    } else {
      NumberSnoc(s[1..], d, b);
      assert (s + [d])[1..] == s[1..] + [d];
      Regroup(s[0], Pow(b, |s| - 1), Number(s[1..], b), b);
    }
  }

  lemma {:induction false} NumberZeros(z: nat, s: seq<nat>, b: nat)
    ensures Number(Zeros(z) + s, b) == Number(s, b)
  {
    if z == 0 {
      assert Zeros(0) + s == s;
    } else {
      NumberZeros(z - 1, s, b);
      assert (Zeros(z) + s)[1..] == Zeros(z - 1) + s;
      assert (Zeros(z) + s)[0] == 0;
    }
  }

  lemma DivModParts(n: nat, b: nat)
    requires b >= 2
    ensures n == Mul(n / b, b) + n % b
    ensures n > 0 ==> n / b < n
  {
    assert n / b * 2 <= n / b * b;
  }

  lemma {:induction false} NumberDigits(n: nat, b: nat)
    requires b >= 2
    ensures Number(Digits(n, b), b) == n
    decreases n
  {
    hide Mul;
    if n > 0 {
      DivModParts(n, b);
      NumberDigits(n / b, b);
      NumberSnoc(Digits(n / b, b), n % b, b);
    }
  }

  /** Digits are unique: without leading zeros a sequence is the digits of its number. */
  lemma {:induction false} DigitsUnique(s: seq<nat>, b: nat)
    requires b >= 2 && Below(s, b) && (s != [] ==> s[0] != 0)
    ensures Digits(Number(s, b), b) == s
    ensures s != [] ==> Number(s, b) > 0
  {
    if s != [] {
      var init := s[..|s| - 1];
      var d := s[|s| - 1];
      assert s == init + [d];
      assert init != [] ==> init[0] == s[0];
      DigitsUnique(init, b);
      NumberSnoc(init, d, b);
      DivModOf(Number(init, b), d, b);
    }
  }

  lemma DivModOf(q: nat, r: nat, b: nat)
    requires r < b
    ensures (Mul(q, b) + r) / b == q && (Mul(q, b) + r) % b == r
    ensures q > 0 ==> Mul(q, b) > 0
  {
    Limbs.DivModUnique(Mul(q, b) + r, b, q, r);
    if q > 0 { MulMono(1, q, b, b); }
  }

  lemma Split(s: seq<nat>)
    ensures s == Zeros(LeadingZeros(s)) + s[LeadingZeros(s)..]
  {}

  lemma LeadingZerosOf(z: nat, s: seq<nat>)
    requires s != [] ==> s[0] != 0
    ensures LeadingZeros(Zeros(z) + s) == z
  {
    var t := Zeros(z) + s;
    assert forall k | 0 <= k < z :: t[k] == 0;
    assert s != [] ==> t[z] == s[0];
  }

  /** A digit sequence is its leading zeros and the digits of its number. */
  lemma ConvertSame(s: seq<nat>, b: nat)
    requires b >= 2 && Below(s, b)
    ensures Convert(s, b, b) == s
  {
    var z := LeadingZeros(s);
    Split(s);
    NumberZeros(z, s[z..], b);
    DigitsUnique(s[z..], b);
  }

  /** Changing the base and back gives the sequence again. */
  lemma ConvertBack(s: seq<nat>, from: nat, to: nat)
    requires from >= 2 && to >= 2 && Below(s, from)
    ensures Convert(Convert(s, from, to), to, from) == s
  {
    var n := Number(s, from);
    LeadingZerosOf(LeadingZeros(s), Digits(n, to));
    NumberZeros(LeadingZeros(s), Digits(n, to), to);
    NumberDigits(n, to);
    ConvertSame(s, from);
  }
}
