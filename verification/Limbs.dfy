/** Little-endian numbers in 32-bit limbs, and the arithmetic facts their carry loops rest on. */
module Limbs {
  import opened Prelude

  const BASE: nat := 0x1_0000_0000

  type limb = n: nat | n < 0x1_0000_0000

  /** BASE to the k */
  function Place(k: nat): (p: nat)
    ensures p >= 1
  {
    if k == 0 then 1 else Place(k - 1) * BASE
  }

  /** Multiplication as a named function, so that proofs can treat products as wholes. */
  function Times(a: nat, b: nat): nat { a * b }

  function Value(s: seq<limb>): nat {
    if s == [] then 0 else Value(s[..|s| - 1]) + Times(s[|s| - 1] as nat, Place(|s| - 1))
  }

  lemma {:induction false} ValueBound(s: seq<limb>)
    ensures Value(s) < Place(|s|)
  {
    if s != [] {
      ValueBound(s[..|s| - 1]);
      var x, p := s[|s| - 1] as nat, Place(|s| - 1);
      assert x * p <= (BASE - 1) * p by { MulLe(x, BASE - 1, p); }
      assert (BASE - 1) * p == BASE * p - p;
    }
  }

  lemma MulLe(a: int, b: int, c: nat)
    requires a <= b
    ensures a * c <= b * c
  {
    assert b * c == a * c + (b - a) * c;
  }

  lemma PlaceSucc(k: nat)
    ensures Place(k + 1) == Place(k) * BASE
  {
  }

  lemma ValueSnoc(s: seq<limb>, x: limb)
    ensures Value(s + [x]) == Value(s) + Times(x as nat, Place(|s|))
  {
    assert (s + [x])[..|s|] == s;
  }

  /** One more limb of a prefix. */
  lemma ValueStep(s: seq<limb>, i: nat)
    requires i < |s|
    ensures Value(s[..i + 1]) == Value(s[..i]) + Times(s[i] as nat, Place(i))
  {
    assert s[..i + 1] == s[..i] + [s[i]];
    ValueSnoc(s[..i], s[i]);
  }

  /** Writing limb i: the prefix grows by it and the rest stays. */
  lemma LimbWritten(before: seq<limb>, after: seq<limb>, i: nat, x: limb)
    requires i < |before| && after == before[i := x]
    ensures Value(after[..i + 1]) == Value(before[..i]) + Times(x as nat, Place(i))
    ensures after[..i] == before[..i] && after[i + 1..] == before[i + 1..]
  {
    ValueStep(after, i);
    assert after[..i] == before[..i];
  }

  lemma {:induction false} PlaceAdd(a: nat, b: nat)
    ensures Place(a + b) == Place(a) * Place(b)
  {
    if b > 0 {
      PlaceAdd(a, b - 1);
      assert Place(a) * Place(b - 1) * BASE == Place(a) * (Place(b - 1) * BASE);
    }
  }

  lemma Spread(p: nat, v: nat, x: nat, q: nat)
    ensures p * (v + x * q) == p * v + x * (p * q)
  {
    assert x * (p * q) == p * (x * q);
  }

  lemma {:induction false} ValueConcat(s: seq<limb>, t: seq<limb>)
    ensures Value(s + t) == Value(s) + Place(|s|) * Value(t)
    decreases |t|
  {
    if t == [] {
      assert s + t == s;
    } else {
      var t', x := t[..|t| - 1], t[|t| - 1];
      ValueConcat(s, t');
      assert s + t == (s + t') + [x];
      ValueSnoc(s + t', x);
      PlaceAdd(|s|, |t'|);
      Spread(Place(|s|), Value(t'), x as nat, Place(|t'|));
    }
  }

  /** The low 32 bits of a 64-bit word, and the rest. */
  function Low(n: nat): limb { n % BASE }
  function High(n: nat): nat { n / BASE }

  const WORD64: nat := 0x1_0000_0000_0000_0000

  lemma HighBound(n: nat)
    requires n < WORD64
    ensures High(n) < BASE
    ensures n < 2 * BASE ==> High(n) <= 1
  {
  }

  /** A split number in carry form: low limb and carry. */
  lemma CarryStep(n: nat, p: nat)
    ensures Low(n) as nat * p + High(n) * (p * BASE) == n * p
  {
    var q, r := n / BASE, n % BASE;
    assert n == q * BASE + r;
    assert q * (p * BASE) == (q * BASE) * p;
    assert (q * BASE) * p + r * p == (q * BASE + r) * p;
  }

  lemma ModUnique(v: nat, c: nat, m: nat, total: nat)
    requires v < m && v + c * m == total
    ensures v == total % m
  {
    DivModUnique(total, m, c, v);
  }

  lemma DivModUnique(n: nat, m: nat, q: nat, r: nat)
    requires r < m && n == q * m + r
    ensures q == n / m && r == n % m
  {
    var q', r' := n / m, n % m;
    assert n == q' * m + r';
    assert (q + 1) * m == q * m + m && (q' + 1) * m == q' * m + m;
    if q < q' {
      MulLe(q + 1, q', m);
    } else if q' < q {
      MulLe(q' + 1, q, m);
    }
  }

  /** Equal up to a multiple of the modulus. */
  lemma ModShift(a: nat, k: nat, m: nat)
    requires m >= 1
    ensures (a + k * m) % m == a % m
  {
    DivModUnique(a + k * m, m, a / m + k, a % m) by { assert (a / m + k) * m == a / m * m + k * m; }
  }

  // ----- powers of two and bits

  lemma {:induction false} Pow2Add(a: nat, b: nat)
    ensures Pow2(a + b) == Pow2(a) * Pow2(b)
  {
    if b > 0 {
      Pow2Add(a, b - 1);
      assert Pow2(a) * (2 * Pow2(b - 1)) == 2 * (Pow2(a) * Pow2(b - 1));
    }
  }

  lemma Pow2Of32()
    ensures Pow2(32) == BASE
  {
    assert Pow2(8) == 256;
    Pow2Add(8, 8);
    Pow2Add(16, 16);
  }

  lemma {:induction false} PlaceIsPow2(k: nat)
    ensures Place(k) == Pow2(32 * k)
  {
    if k > 0 {
      PlaceIsPow2(k - 1);
      Pow2Add(32 * (k - 1), 32);
      Pow2Of32();
    }
  }

  lemma {:induction false} Pow2Mono(a: nat, b: nat)
    requires a <= b
    ensures Pow2(a) <= Pow2(b)
  {
    if a < b { Pow2Mono(a, b - 1); }
  }

  /** Bitwise or of natural numbers. */
  function Or(x: nat, y: nat): nat
    decreases x + y
  {
    if x == 0 then y else if y == 0 then x
    else (if x % 2 == 1 || y % 2 == 1 then 1 else 0) + 2 * Or(x / 2, y / 2)
  }

  /** Or of numbers without a common bit is their sum. */
  lemma {:induction false} OrDisjoint(x: nat, y: nat, s: nat)
    requires x % Pow2(s) == 0 && y < Pow2(s)
    ensures Or(x, y) == x + y
    decreases s
  {
    if x != 0 && y != 0 {
      EvenMultiple(x, Pow2(s - 1));
      OrDisjoint(x / 2, y / 2, s - 1);
    }
  }

  lemma EvenMultiple(x: nat, m: nat)
    requires m >= 1 && x % (2 * m) == 0
    ensures x % 2 == 0 && (x / 2) % m == 0
  {
    var q := x / (2 * m);
    assert x == q * (2 * m) == 2 * (q * m);
    DivModUnique(x / 2, m, q, 0);
  }

  lemma ValueUpdate(s: seq<limb>, i: nat, x: limb)
    requires i < |s|
    ensures Value(s[i := x]) + Times(s[i] as nat, Place(i)) == Value(s) + Times(x as nat, Place(i))
  {
    var t := s[i := x];
    assert t == t[..i + 1] + t[i + 1..] && s == s[..i + 1] + s[i + 1..] && t[i + 1..] == s[i + 1..];
    ValueConcat(t[..i + 1], t[i + 1..]);
    ValueConcat(s[..i + 1], s[i + 1..]);
    LimbWritten(s, t, i, x);
    ValueStep(s, i);
  }

  lemma DivDiv(n: nat, a: nat, b: nat)
    requires a >= 1 && b >= 1
    ensures a * b >= 1 && n / a / b == n / (a * b)
  {
    var q, r := n / a, n % a;
    assert n == q * a + r;
    Nested(n, a, b, q, r, q / b, q % b);
  }

  lemma Nested(n: nat, a: nat, b: nat, q: nat, r: nat, q': nat, r': nat)
    requires a >= 1 && b >= 1 && n == q * a + r && r < a && q == q' * b + r' && r' < b
    ensures a * b >= 1 && n / (a * b) == q'
  {
    assert (q' * b + r') * a == q' * (a * b) + r' * a;
    MulLe(r' + 1, b, a);
    assert (r' + 1) * a == r' * a + a;
    DivModUnique(n, a * b, q', r' * a + r);
  }

  lemma ModCongruent(a: nat, b: nat, k: nat, m: nat)
    requires m >= 1 && a % m == b % m
    ensures (a + k) % m == (b + k) % m
  {
    var r := a % m;
    assert a == r + a / m * m;
    assert b == r + b / m * m;
    ModShift(r + k, a / m, m);
    ModShift(r + k, b / m, m);
  }

  function Quotient(a: nat, d: nat): nat
    requires d >= 1
  {
    a / d
  }

  lemma LowSmall(v: nat)
    requires v < BASE
    ensures Low(v) as nat == v
  {
  }

  lemma {:induction false} AllZero(s: seq<limb>)
    requires forall i | 0 <= i < |s| :: s[i] == 0
    ensures Value(s) == 0
  {
    if s != [] { AllZero(s[..|s| - 1]); }
  }
}
