/** The CashAddr checksum: a linear code over 5-bit values, computed in a 40-bit register. */
module CashChecksum {
  type five = bv5
  type word = bv40

  function Xor(a: word, b: word): word { a ^ b }

  predicate MovesOut(c: word, bit: word) { (c >> 35) & bit != 0 }

  /** A multiple of the generator, added when the given bit moves out of the register. */
  function Reduction(c: word, bit: word, k: word): word { if MovesOut(c, bit) then k else 0 }

  function MoveUp(c: word): word { (c & 0x07ffffffff) << 5 }

  /** The register moved up by one value and reduced by the generator. */
  function Advance(c: word): word {
    var c1 := Xor(MoveUp(c), Reduction(c, 0x01, 0x98f2bc8e61));
    var c2 := Xor(c1, Reduction(c, 0x02, 0x79b76d99e2));
    var c4 := Xor(c2, Reduction(c, 0x04, 0xf33e5fb3c4));
    var c8 := Xor(c4, Reduction(c, 0x08, 0xae2eabe2a8));
    Xor(c8, Reduction(c, 0x10, 0x1e4f43e470))
  }

  function Feed(c: word, d: five): word { Xor(Advance(c), d as word) }

  function Register(c: word, v: seq<five>): word {
    if v == [] then c else Feed(Register(c, v[..|v| - 1]), v[|v| - 1])
  }

  function Checksum(v: seq<five>): word { Xor(Register(1, v), 1) }

  // ----- one step

  lemma AdvanceLinear(a: word, b: word)
    ensures Advance(Xor(a, b)) == Xor(Advance(a), Advance(b))
  {
    hide Reduction, MoveUp, Xor;
    MoveUpLinear(a, b);
    var a1 := AddReduction(a, b, MoveUp(a), MoveUp(b), 0x01, 0x98f2bc8e61);
    var a2 := AddReduction(a, b, a1.0, a1.1, 0x02, 0x79b76d99e2);
    var a4 := AddReduction(a, b, a2.0, a2.1, 0x04, 0xf33e5fb3c4);
    var a8 := AddReduction(a, b, a4.0, a4.1, 0x08, 0xae2eabe2a8);
    var a16 := AddReduction(a, b, a8.0, a8.1, 0x10, 0x1e4f43e470);
  }

  lemma AddReduction(a: word, b: word, x: word, y: word, bit: word, k: word) returns (r: (word, word))
    requires bit == 0x01 || bit == 0x02 || bit == 0x04 || bit == 0x08 || bit == 0x10
    ensures r == (Xor(x, Reduction(a, bit, k)), Xor(y, Reduction(b, bit, k)))
    ensures Xor(Xor(x, y), Reduction(Xor(a, b), bit, k)) == Xor(r.0, r.1)
  {
    hide Xor, MovesOut;
    r := (Xor(x, Reduction(a, bit, k)), Xor(y, Reduction(b, bit, k)));
    MovesOutLinear(a, b, bit);
    XorCancel(x, y, k);
    XorMove(x, y, k);
    XorAssoc(x, y, k);
    XorZero(x);
    XorZero(y);
    XorZero(Xor(x, y));
  }

  lemma XorAssoc(x: word, y: word, k: word)
    ensures Xor(x, Xor(y, k)) == Xor(Xor(x, y), k)
  {}

  lemma XorComm(x: word, y: word)
    ensures Xor(x, y) == Xor(y, x)
  {}

  lemma XorMove(x: word, y: word, k: word)
    ensures Xor(Xor(x, k), y) == Xor(Xor(x, y), k)
  {
    hide Xor;
    XorAssoc(x, k, y);
    XorComm(k, y);
    XorAssoc(x, y, k);
  }

  lemma XorInterleave(a: word, b: word, c: word, d: word)
    ensures Xor(Xor(a, b), Xor(c, d)) == Xor(Xor(a, c), Xor(b, d))
  {
    hide Xor;
    XorAssoc(Xor(a, b), c, d);
    XorMove(a, c, b);
    XorAssoc(Xor(a, c), b, d);
  }

  lemma XorCancel(x: word, y: word, k: word)
    ensures Xor(Xor(x, k), Xor(y, k)) == Xor(x, y)
  {
    hide Xor;
    XorInterleave(x, k, y, k);
    XorZero(k);
    XorZero(Xor(x, y));
  }

  lemma XorZero(x: word)
    ensures Xor(x, 0) == x && Xor(0, x) == x && Xor(x, x) == 0
  {}

  lemma MoveUpLinear(a: word, b: word)
    ensures MoveUp(Xor(a, b)) == Xor(MoveUp(a), MoveUp(b))
  {}

  lemma MovesOutLinear(a: word, b: word, bit: word)
    requires bit == 0x01 || bit == 0x02 || bit == 0x04 || bit == 0x08 || bit == 0x10
    ensures MovesOut(Xor(a, b), bit) == (MovesOut(a, bit) != MovesOut(b, bit))
  {
    if bit == 0x01 {
    } else if bit == 0x02 {
    } else if bit == 0x04 {
    } else if bit == 0x08 {
    }
  }

  lemma AdvanceZero(a: word)
    ensures Advance(a) == 0 <==> a == 0
  {}

  /** One step of the register loses nothing. */
  lemma AdvanceInjective(a: word, b: word)
    requires Advance(a) == Advance(b)
    ensures a == b
  {
    hide Advance, Xor;
    AdvanceLinear(a, b);
    XorZero(Advance(a));
    AdvanceZero(Xor(a, b));
    XorDistinct(a, b);
  }

  lemma XorDistinct(x: word, y: word)
    ensures Xor(x, y) == 0 <==> x == y
  {
    hide Xor;
    XorAssoc(x, y, y);
    XorZero(x);
    XorZero(y);
  }

  function Lift(c: word): word { c << 5 }

  lemma AdvanceSmall(c: word)
    requires c >> 35 == 0
    ensures Advance(c) == Lift(c)
  {
    hide MovesOut, Xor, MoveUp;
    NothingMovesOut(c);
    XorZero(MoveUp(c));
  }

  lemma NothingMovesOut(c: word)
    requires c >> 35 == 0
    ensures !MovesOut(c, 0x01) && !MovesOut(c, 0x02) && !MovesOut(c, 0x04) && !MovesOut(c, 0x08) && !MovesOut(c, 0x10)
    ensures MoveUp(c) == Lift(c)
  {}

  lemma FeedLinear(a: word, b: word, d: five, e: five)
    ensures Feed(Xor(a, b), d ^ e) == Xor(Feed(a, d), Feed(b, e))
  {
    hide Advance, Xor;
    AdvanceLinear(a, b);
    Widen(d, e);
    XorInterleave(Advance(a), Advance(b), d as word, e as word);
  }

  lemma Widen(d: five, e: five)
    ensures (d ^ e) as word == Xor(d as word, e as word)
  {}

  // ----- whole sequences

  function Zeros(n: nat): (v: seq<five>)
    ensures |v| == n && forall i | 0 <= i < n :: v[i] == 0
  {
    seq(n, _ => 0)
  }

  function Difference(v: seq<five>, w: seq<five>): (e: seq<five>)
    requires |v| == |w|
    ensures |e| == |v| && forall i | 0 <= i < |v| :: e[i] == v[i] ^ w[i]
  {
    seq(|v|, i requires 0 <= i < |v| => v[i] ^ w[i])
  }

  /** The register is linear in the start value and the sequence together. */
  lemma {:induction false} RegisterLinear(a: word, b: word, v: seq<five>, w: seq<five>)
    requires |v| == |w|
    ensures Register(Xor(a, b), Difference(v, w)) == Xor(Register(a, v), Register(b, w))
  {
    hide Xor, Feed;
    if v != [] {
      var n := |v| - 1;
      RegisterLinear(a, b, v[..n], w[..n]);
      assert Difference(v, w)[..n] == Difference(v[..n], w[..n]);
      FeedLinear(Register(a, v[..n]), Register(b, w[..n]), v[n], w[n]);
    }
  }

  lemma {:induction false} RegisterAppend(c: word, v: seq<five>, w: seq<five>)
    ensures Register(c, v + w) == Register(Register(c, v), w)
  {
    hide Feed;
    if w == [] {
      assert v + w == v;
    } else {
      var n := |w| - 1;
      RegisterAppend(c, v, w[..n]);
      assert (v + w)[..|v + w| - 1] == v + w[..n];
    }
  }

  /** Feeding zeros loses nothing. */
  lemma {:induction false} RegisterZeros(c: word, n: nat)
    ensures Register(c, Zeros(n)) == 0 <==> c == 0
  {
    if n > 0 {
      RegisterZeros(c, n - 1);
      FeedZero(Register(c, Zeros(n - 1)));
      assert Zeros(n)[..n - 1] == Zeros(n - 1);
    }
  }

  lemma FeedZero(c: word)
    ensures Feed(c, 0) == 0 <==> c == 0
  {
    hide Advance, Xor;
    AdvanceZero(c);
    XorZero(Advance(c));
  }

  // ----- eight values fill the register

  function Room(k: nat): word
    requires k <= 7
  {
    if k == 0 then 0x1 else if k == 1 then 0x20 else if k == 2 then 0x400 else if k == 3 then 0x8000
    else if k == 4 then 0x10_0000 else if k == 5 then 0x200_0000 else if k == 6 then 0x4000_0000 else 0x8_0000_0000
  }

  lemma FeedSmall(c: word, d: five, k: nat)
    requires k <= 7 && c < Room(k)
    ensures Feed(c, d) == Xor(Lift(c), d as word)
    ensures k < 7 ==> Feed(c, d) < Room(k + 1)
    ensures Feed(c, d) == 0 ==> c == 0 && d == 0
  {
    hide Advance, Xor;
    assert c >> 35 == 0;
    AdvanceSmall(c);
    LiftedApart(c, d);
    if k < 7 { Grows(c, d, k); }
  }

  lemma LiftedApart(c: word, d: five)
    requires c >> 35 == 0
    ensures Xor(Lift(c), d as word) == 0 ==> c == 0 && d == 0
  {}

  lemma Grows(c: word, d: five, k: nat)
    requires k < 7 && c < Room(k)
    ensures Xor(Lift(c), d as word) < Room(k + 1)
  {}

  predicate FitsIn(c: word, k: nat)
    requires k <= 7
  {
    c < Room(k)
  }

  lemma FeedFits(c: word, d: five, k: nat)
    requires k <= 7 && FitsIn(c, k)
    ensures k < 7 ==> FitsIn(Feed(c, d), k + 1)
    ensures Feed(c, d) == 0 ==> c == 0 && d == 0
  {
    FeedSmall(c, d, k);
  }

  lemma {:induction false} ShortSequence(v: seq<five>)
    requires |v| <= 8
    ensures |v| <= 7 ==> FitsIn(Register(0, v), |v|)
    ensures Register(0, v) == 0 ==> v == Zeros(|v|)
  {
    if v != [] {
      hide Feed, FitsIn;
      var n := |v| - 1;
      ShortSequence(v[..n]);
      FeedFits(Register(0, v[..n]), v[n], n);
      if Register(0, v) == 0 { assert v == v[..n] + [v[n]]; }
    }
  }

  /** A change confined to eight consecutive values always changes the checksum. */
  lemma BurstDetected(v: seq<five>, w: seq<five>, i: nat, j: nat)
    requires |v| == |w| && i <= j <= |v| && j - i <= 8
    requires v[..i] == w[..i] && v[j..] == w[j..] && v != w
    ensures Checksum(v) != Checksum(w)
  {
    hide Register, Xor;
    var e := Difference(v, w);
    RegisterLinear(1, 1, v, w);
    XorZero(1);
    forall k | 0 <= k < |v| && !(i <= k < j)
      ensures e[k] == 0
    {
      if k < i {
        assert v[k] == v[..i][k] == w[..i][k] == w[k];
      } else {
        assert v[k] == v[j..][k - j] == w[j..][k - j] == w[k];
      }
      XorSame(v[k]);
    }
    assert e == Zeros(i) + e[i..j] + Zeros(|v| - j);
    RegisterAppend(0, Zeros(i) + e[i..j], Zeros(|v| - j));
    RegisterAppend(0, Zeros(i), e[i..j]);
    RegisterZeros(0, i);
    if e[i..j] == Zeros(j - i) { ZeroWindow(v, w, i, j); }
    ShortSequence(e[i..j]);
    RegisterZeros(Register(0, e[i..j]), |v| - j);
    SameChecksum(Register(1, v), Register(1, w));
  }

  lemma XorSame(d: five)
    ensures d ^ d == 0
  {}

  lemma SameChecksum(a: word, b: word)
    ensures Xor(a, 1) == Xor(b, 1) ==> Xor(a, b) == 0
  {}

  lemma ZeroWindow(v: seq<five>, w: seq<five>, i: nat, j: nat)
    requires |v| == |w| && i <= j <= |v|
    requires v[..i] == w[..i] && v[j..] == w[j..] && Difference(v, w)[i..j] == Zeros(j - i)
    ensures v == w
  {
    forall k | i <= k < j
      ensures v[k] == w[k]
    {
      assert Difference(v, w)[k] == Difference(v, w)[i..j][k - i] == 0;
      XorEqual(v[k], w[k]);
    }
    assert v[i..j] == w[i..j];
    assert v == v[..i] + v[i..j] + v[j..];
    assert w == w[..i] + w[i..j] + w[j..];
  }

  lemma XorEqual(d: five, e: five)
    requires d ^ e == 0
    ensures d == e
  {}

  // ----- the check values

  function Down(c: word, n: nat): word
    requires n <= 40
  {
    c >> n
  }

  /** The n highest groups of five bits. */
  function Top(c: word, n: nat): word
    requires n <= 8
  {
    Down(c, 40 - 5 * n)
  }

  function Drop(c: word): word { c >> 5 }

  lemma Down5(c: word) ensures Down(c, 5) == Drop(Down(c, 0)) && Down(c, 0) == c {}
  lemma Down10(c: word) ensures Down(c, 10) == Drop(Down(c, 5)) {}
  lemma Down15(c: word) ensures Down(c, 15) == Drop(Down(c, 10)) {}
  lemma Down20(c: word) ensures Down(c, 20) == Drop(Down(c, 15)) {}
  lemma Down25(c: word) ensures Down(c, 25) == Drop(Down(c, 20)) {}
  lemma Down30(c: word) ensures Down(c, 30) == Drop(Down(c, 25)) {}
  lemma Down35(c: word) ensures Down(c, 35) == Drop(Down(c, 30)) {}
  lemma Down40(c: word) ensures Down(c, 40) == Drop(Down(c, 35)) {}

  lemma TopStep(c: word, n: nat)
    requires n < 8
    ensures Top(c, n) == Drop(Top(c, n + 1))
  {
    hide Down, Drop;
    Down5(c);
    Down10(c);
    Down15(c);
    Down20(c);
    Down25(c);
    Down30(c);
    Down35(c);
    Down40(c);
  }

  function LowGroup(c: word): five { (c & 0x1f) as five }

  /** The register read out as eight values, the highest first. */
  function Groups(c: word): (v: seq<five>)
    ensures |v| == 8
  {
    seq(8, i requires 0 <= i < 8 => LowGroup(Top(c, i + 1)))
  }

  lemma {:induction false} TopBound(c: word, n: nat)
    requires n <= 7
    ensures Top(c, n) < Room(n)
    decreases 8 - n
  {
    hide Top, Drop;
    TopStep(c, n);
    if n < 7 {
      TopBound(c, n + 1);
      Shrinks(Top(c, n + 1), n);
    } else {
      FirstShift(Top(c, 8));
    }
  }

  lemma FirstShift(c: word)
    ensures Drop(c) < 0x8_0000_0000
  {}

  lemma Shrinks(c: word, k: nat)
    requires k < 7 && c < Room(k + 1)
    ensures Drop(c) < Room(k)
  {}

  lemma LowGroupJoins(c: word)
    ensures Xor(Lift(Drop(c)), LowGroup(c) as word) == c
  {}

  lemma Refill(c: word, n: nat)
    requires 1 <= n <= 8
    ensures Feed(Top(c, n - 1), LowGroup(Top(c, n))) == Top(c, n)
  {
    hide Feed, Room, LowGroup, Xor, Top, Drop, Lift;
    TopStep(c, n - 1);
    TopBound(c, n - 1);
    FeedSmall(Top(c, n - 1), LowGroup(Top(c, n)), n - 1);
    LowGroupJoins(Top(c, n));
  }

  lemma {:induction false} GroupsFill(c: word, n: nat)
    requires n <= 8
    ensures Register(0, Groups(c)[..n]) == Top(c, n)
  {
    hide Feed, LowGroup, Top;
    if n == 0 {
      assert Groups(c)[..0] == [];
      TopNone(c);
    } else {
      GroupsFill(c, n - 1);
      assert Groups(c)[..n][..n - 1] == Groups(c)[..n - 1];
      Refill(c, n);
    }
  }

  lemma TopNone(c: word)
    ensures Top(c, 0) == 0 && Top(c, 8) == c
  {
    hide Top;
    TopBound(c, 0);
    TopAll(c);
  }

  lemma TopAll(c: word)
    ensures Top(c, 8) == c
  {}

  /** The check values computed for a sequence followed by eight zeros. */
  function CheckValues(v: seq<five>): (u: seq<five>)
    ensures |u| == 8
  {
    Groups(Checksum(v + Zeros(8)))
  }

  /** Put in place of the zeros they make the checksum zero. */
  lemma CheckValuesWork(v: seq<five>)
    ensures Checksum(v + CheckValues(v)) == 0
  {
    hide Register, Xor, Groups, Top;
    var u := CheckValues(v);
    var r := Register(1, v + Zeros(8));
    RegisterLinear(1, 0, v + Zeros(8), Zeros(|v|) + u);
    assert Difference(v + Zeros(8), Zeros(|v|) + u) == v + u by { DifferenceFromZeros(v, u); }
    XorZero(1);
    RegisterAppend(0, Zeros(|v|), u);
    RegisterZeros(0, |v|);
    GroupsFill(Xor(r, 1), 8);
    TopAll(Xor(r, 1));
    assert u[..8] == u;
    XorAssoc(r, r, 1);
    XorZero(r);
  }

  lemma DifferenceFromZeros(v: seq<five>, u: seq<five>)
    ensures Difference(v + Zeros(|u|), Zeros(|v|) + u) == v + u
  {
    var d := Difference(v + Zeros(|u|), Zeros(|v|) + u);
    forall k | 0 <= k < |v| + |u|
      ensures d[k] == (v + u)[k]
    {
      if k < |v| { XorWithZero(v[k]); } else { XorWithZero(u[k - |v|]); }
    }
  }

  lemma XorWithZero(d: five)
    ensures d ^ 0 == d && 0 ^ d == d
  {}

  /** They are the only eight values that do. */
  lemma CheckValuesUnique(v: seq<five>, u: seq<five>)
    requires |u| == 8 && Checksum(v + u) == 0
    ensures u == CheckValues(v)
  {
    hide Checksum;
    CheckValuesWork(v);
    var w := v + CheckValues(v);
    if u != CheckValues(v) {
      assert (v + u)[|v|..] == u && w[|v|..] == CheckValues(v);
      assert (v + u)[..|v|] == w[..|v|];
      BurstDetected(v + u, w, |v|, |v| + 8);
    }
  }

  // ----- the loops

  /** The new value may be added before the reductions. */
  lemma FeedOrder(c: word, d: five)
    ensures var m := Xor(MoveUp(c), d as word);
            var m1 := Xor(m, Reduction(c, 0x01, 0x98f2bc8e61));
            var m2 := Xor(m1, Reduction(c, 0x02, 0x79b76d99e2));
            var m4 := Xor(m2, Reduction(c, 0x04, 0xf33e5fb3c4));
            var m8 := Xor(m4, Reduction(c, 0x08, 0xae2eabe2a8));
            Feed(c, d) == Xor(m8, Reduction(c, 0x10, 0x1e4f43e470))
  {
    hide Xor, MoveUp, Reduction;
    var w := d as word;
    var c1 := Xor(MoveUp(c), Reduction(c, 0x01, 0x98f2bc8e61));
    var c2 := Xor(c1, Reduction(c, 0x02, 0x79b76d99e2));
    var c4 := Xor(c2, Reduction(c, 0x04, 0xf33e5fb3c4));
    var c8 := Xor(c4, Reduction(c, 0x08, 0xae2eabe2a8));
    XorMove(MoveUp(c), Reduction(c, 0x01, 0x98f2bc8e61), w);
    XorMove(c1, Reduction(c, 0x02, 0x79b76d99e2), w);
    XorMove(c2, Reduction(c, 0x04, 0xf33e5fb3c4), w);
    XorMove(c4, Reduction(c, 0x08, 0xae2eabe2a8), w);
    XorMove(c8, Reduction(c, 0x10, 0x1e4f43e470), w);
  }

  method AddGenerator(c: word, c0: word, bit: word, k: word, ghost start: word) returns (r: word)
    requires c0 == Leading(start)
    ensures r == Xor(c, Reduction(start, bit, k))
  {
    hide Xor, MovesOut, Leading, Meets;
    LeadingMeets(start, bit);
    XorZero(c);
    r := c;
    if Meets(c0, bit) {
      r := Xor(r, k);
    }
  }

  function Leading(c: word): word { c >> 35 }

  predicate Meets(x: word, bit: word) { x & bit != 0 }

  lemma LeadingMeets(c: word, bit: word)
    ensures MovesOut(c, bit) <==> Meets(Leading(c), bit)
  {}

  method PolyMod(v: seq<five>) returns (r: word)
    ensures r == Checksum(v)
  {
    hide Xor, MoveUp, Reduction, Feed;
    var c: word := 1;
    for i := 0 to |v|
      invariant c == Register(1, v[..i])
    {
      ghost var start := c;
      FeedOrder(c, v[i]);
      assert v[..i + 1][..i] == v[..i];
      var c0 := Leading(c);
      c := Xor(MoveUp(c), v[i] as word);
      c := AddGenerator(c, c0, 0x01, 0x98f2bc8e61, start);
      c := AddGenerator(c, c0, 0x02, 0x79b76d99e2, start);
      c := AddGenerator(c, c0, 0x04, 0xf33e5fb3c4, start);
      c := AddGenerator(c, c0, 0x08, 0xae2eabe2a8, start);
      c := AddGenerator(c, c0, 0x10, 0x1e4f43e470, start);
    }
    assert v[..|v|] == v;
    r := Xor(c, 1);
  }

  method CreateChecksum(v: seq<five>) returns (ret: seq<five>)
    ensures ret == CheckValues(v)
    ensures Checksum(v + ret) == 0
  {
    hide Down, LowGroup, Checksum;
    var mod := PolyMod(v + Zeros(8));
    ret := [];
    for i := 0 to 8
      invariant |ret| == i && forall k | 0 <= k < i :: ret[k] == Groups(mod)[k]
    {
      ret := ret + [LowGroup(Down(mod, 5 * (7 - i)))];
    }
    CheckValuesWork(v);
  }
}
