/** Shift-and-subtract division of big integers. */
module ArithDivide {
  import opened Prelude
  import opened Limbs
  import opened ArithUint
  import opened ArithShift

  /** With t quotient bits still to decide: the invariant of the division, and the bound on what is left. */
  ghost predicate Dividing(va: nat, vb: nat, q: nat, num: nat, t: nat) {
    Times(q, vb) + num == va && num < Times(vb, Pow2(t))
  }

  lemma DividingStart(va: nat, vb: nat, numBits: nat, divBits: nat)
    requires divBits > 0 && numBits >= divBits
    requires Pow2(divBits - 1) <= vb < Pow2(divBits) && Pow2(numBits - 1) <= va < Pow2(numBits)
    ensures Dividing(va, vb, 0, va, numBits - divBits + 1)
    ensures Times(vb, Pow2(numBits - divBits)) < Pow2(numBits)
  {
    var s := numBits - divBits;
    Pow2Add(divBits - 1, s + 1);
    Pow2Add(divBits, s);
    hide Pow2;
    MulLe(Pow2(divBits - 1), vb, Pow2(s + 1));
    MulLe(vb + 1, Pow2(divBits), Pow2(s));
    assert (vb + 1) * Pow2(s) == vb * Pow2(s) + Pow2(s);
  }

  lemma DividingStep(va: nat, vb: nat, q: nat, num: nat, t: nat)
    requires Dividing(va, vb, q, num, t) && t > 0
    ensures var d := Times(vb, Pow2(t - 1));
            if num >= d then Dividing(va, vb, q + Pow2(t - 1), num - d, t - 1) else Dividing(va, vb, q, num, t - 1)
  {
    var p := Pow2(t - 1);
    assert vb * (2 * p) == vb * p + vb * p;
    assert (q + p) * vb == q * vb + vb * p;
  }

  lemma DividingDone(va: nat, vb: nat, q: nat, num: nat)
    requires Dividing(va, vb, q, num, 0) && vb > 0
    ensures q == Quotient(va, vb)
  {
    assert Pow2(0) == 1;
    DivModUnique(va, vb, q, num);
  }

  /** No bit below position t is set. */
  ghost predicate Clean(s: seq<limb>, t: nat) {
    && (forall m | 0 <= m < |s| && m < t / 32 :: s[m] == 0)
    && (t / 32 < |s| ==> s[t / 32] as nat % Pow2(t % 32) == 0)
  }

  /** Setting bit t - 1 of a number without bits below t adds that power of two. */
  lemma SetBit(s: seq<limb>, t: nat)
    requires Clean(s, t) && 0 < t <= 32 * |s|
    ensures var j, b := (t - 1) / 32, (t - 1) % 32; var x := Or(s[j] as nat, Pow2(b));
            && j < |s| && x < BASE
            && Value(s[j := x]) == Value(s) + Pow2(t - 1)
            && Clean(s[j := x], t - 1) && Clean(s, t - 1)
  {
    hide Value, Place, Or, Pow2, Times;
    var j, b := (t - 1) / 32, (t - 1) % 32;
    var y := s[j] as nat;
    var p := Pow2(b);
    BelowBit(s, t);
    BitRoom(y, b);
    ValueUpdate(s, j, y + p);
    AddTimes(y, p, Place(j));
    ShiftFactor(t - 1);
    assert s[j := Or(y, p)] == s[j := y + p];
  }

  lemma BelowBit(s: seq<limb>, t: nat)
    requires Clean(s, t) && 0 < t <= 32 * |s|
    ensures s[(t - 1) / 32] as nat % Pow2((t - 1) % 32 + 1) == 0
  {
    hide Pow2;
    if t % 32 == 0 { ZeroMod(Pow2((t - 1) % 32 + 1)); }
  }

  lemma BitRoom(y: nat, b: nat)
    requires y < BASE && b < 32 && y % Pow2(b + 1) == 0
    ensures Or(y, Pow2(b)) == y + Pow2(b) < BASE
    ensures y % Pow2(b) == 0 && (y + Pow2(b)) % Pow2(b) == 0
  {
    var p, q := Pow2(b), Pow2(31 - b);
    Pow2Of32();
    Pow2Add(b + 1, 31 - b);
    assert Pow2(b + 1) == 2 * p;
    OrDisjoint(y, p, b + 1);
    hide Pow2, Or;
    RoomAbove(y, 2 * p, q, p);
    HalfMultiple(y, p);
  }

  lemma HalfMultiple(y: nat, p: nat)
    requires p >= 1 && y % (2 * p) == 0
    ensures y % p == 0 && (y + p) % p == 0
  {
    var c := y / (2 * p);
    assert y == c * (2 * p) == (2 * c) * p;
    DivModUnique(y, p, 2 * c, 0);
    assert y + p == (2 * c + 1) * p;
    DivModUnique(y + p, p, 2 * c + 1, 0);
  }

  lemma HalveShift(vb: nat, t: nat)
    requires t > 0
    ensures Quotient(Times(vb, Pow2(t)), Pow2(1)) == Times(vb, Pow2(t - 1))
  {
    assert Pow2(1) == 2;
    var n := vb * Pow2(t - 1);
    assert vb * (2 * Pow2(t - 1)) == n * 2;
    DivModUnique(n * 2, 2, n, 0);
  }

  /** The exact floor quotient for every non-zero divisor; division by zero is reported. Both operands are
      copied first, so the divisor may be the object itself. */
  method Divide(pn: array<limb>, b: array<limb>) returns (divisionByZero: bool)
    requires pn.Length == b.Length > 0
    modifies pn
    ensures divisionByZero <==> old(Value(b[..])) == 0
    ensures Value(pn[..]) == if divisionByZero then 0 else Quotient(old(Value(pn[..])), old(Value(b[..])))
  {
    hide Value, Place, Pow2, Times, Dividing, Clean, Quotient;
    ghost var va, vb := Value(pn[..]), Value(b[..]);
    var div := Copy(b[..]);
    var num := Copy(pn[..]);
    Clear(pn);
    AllZero(pn[..]);
    var numBits := Bits(num[..]);
    var divBits := Bits(div[..]);
    if divBits == 0 { return true; }
    if divBits > numBits {
      TooSmall(va, vb, numBits, divBits);
      return false;
    }
    var shift := numBits - divBits;
    DividingStart(va, vb, numBits, divBits);
    Fits(Times(vb, Pow2(shift)), numBits, pn.Length);
    ShiftLeft(div, shift);
    CleanZeros(pn[..], shift + 1);
    DivideLoop(pn, num, div, shift, va, vb);
    return false;
  }

  method Copy(s: seq<limb>) returns (a: array<limb>)
    ensures fresh(a) && a[..] == s
  {
    a := new limb[|s|](i requires 0 <= i < |s| => s[i]);
  }

  lemma CleanZeros(s: seq<limb>, t: nat)
    requires forall i | 0 <= i < |s| :: s[i] == 0
    ensures Clean(s, t)
  {
    hide Pow2;
    ZeroMod(Pow2(t % 32));
  }

  lemma ZeroMod(p: nat)
    requires p >= 1
    ensures 0 % p == 0
  {
    DivModUnique(0, p, 0, 0);
  }

  method DivideLoop(pn: array<limb>, num: array<limb>, div: array<limb>, start: nat, ghost va: nat, ghost vb: nat)
    requires pn.Length == num.Length == div.Length > 0 && pn != num && pn != div && num != div
    requires start < 32 * pn.Length && vb > 0
    requires Dividing(va, vb, Value(pn[..]), Value(num[..]), start + 1) && Clean(pn[..], start + 1)
    requires Value(div[..]) == Times(vb, Pow2(start))
    modifies pn, num, div
    ensures Value(pn[..]) == Quotient(va, vb)
  {
    hide Value, Place, Pow2, Times, Dividing, Clean, Or, Quotient;
    var shift: int := start;
    while shift >= 0
      invariant -1 <= shift <= start
      invariant Dividing(va, vb, Value(pn[..]), Value(num[..]), shift + 1)
      invariant Clean(pn[..], shift + 1)
      invariant shift >= 0 ==> Value(div[..]) == Times(vb, Pow2(shift))
    {
      ghost var q := pn[..];
      DividingStep(va, vb, Value(q), Value(num[..]), shift + 1);
      SetBit(q, shift + 1);
      var c := CompareTo(num[..], div[..]);
      if c >= 0 {
        Subtract(num, div);
        pn[shift / 32] := Or(pn[shift / 32] as nat, Pow2(shift % 32));
        assert pn[..] == q[shift / 32 := Or(q[shift / 32] as nat, Pow2(shift % 32))];
      }
      if shift > 0 { HalveShift(vb, shift); }
      ShiftRight(div, 1);
      shift := shift - 1;
    }
    DividingDone(va, vb, Value(pn[..]), Value(num[..]));
  }

  lemma TooSmall(va: nat, vb: nat, numBits: nat, divBits: nat)
    requires divBits > numBits && Pow2(divBits - 1) <= vb
    requires numBits == 0 ==> va == 0
    requires numBits > 0 ==> va < Pow2(numBits)
    ensures vb > 0 && Quotient(va, vb) == 0
  {
    Pow2Mono(numBits, divBits - 1);
    DivModUnique(va, vb, 0, va);
  }

  lemma Fits(v: nat, bits: nat, w: nat)
    requires v < Pow2(bits) && bits <= 32 * w
    ensures v % Place(w) == v
  {
    Pow2Mono(bits, 32 * w);
    PlaceIsPow2(w);
    DivModUnique(v, Place(w), 0, v);
  }
}
