/** The compact ("nBits") form of 256-bit targets: a 23-bit mantissa and a base-256 exponent. */
module Compact {
  import opened Prelude
  import opened Limbs
  import opened ArithShift
  import opened ArithDivide

  const TWO23: nat := 0x80_0000
  const TWO24: nat := 0x100_0000

  // ----- what the form keeps of a number

  function Mantissa(v: nat): nat { if v < TWO23 then v else Mantissa(v / 256) }
  function Exponent(v: nat): nat { if v < TWO23 then 0 else 1 + Exponent(v / 256) }

  /** The number with all but its leading bytes zeroed. */
  function Truncated(v: nat): nat { if v < TWO23 then v else 256 * Truncated(v / 256) }

  lemma {:induction false} TruncatedParts(v: nat)
    ensures Truncated(v) == Times(Mantissa(v), Pow2(8 * Exponent(v)))
    ensures Mantissa(v) < TWO23 && (v >= TWO23 ==> Mantissa(v) >= 0x8000)
  {
    if v < TWO23 {
      assert Pow2(0) == 1;
    } else {
      TruncatedParts(v / 256);
      Pow2Add(8, 8 * Exponent(v / 256));
      assert Pow2(8) == 256;
      assert Mantissa(v) * (256 * Pow2(8 * Exponent(v / 256))) == 256 * (Mantissa(v) * Pow2(8 * Exponent(v / 256)));
    }
  }

  lemma {:induction false} TruncatedRest(v: nat)
    ensures Truncated(v) <= v < Truncated(v) + Pow2(8 * Exponent(v))
    ensures v >= 0x8000 ==> Truncated(v) >= 0x8000
  {
    if v < TWO23 {
      assert Pow2(0) == 1;
    } else {
      TruncatedRest(v / 256);
      Pow2Add(8, 8 * Exponent(v / 256));
      assert Pow2(8) == 256;
    }
  }

  /** The loss is less than one part in 2^15. */
  lemma TruncatedLoss(v: nat)
    requires v > 0
    ensures (v - Truncated(v)) * 0x8000 < v
  {
    TruncatedRest(v);
    TruncatedParts(v);
    if v >= TWO23 {
      LeadingPart(v, Truncated(v), Mantissa(v), Pow2(8 * Exponent(v)));
    }
  }

  lemma LeadingPart(v: nat, t: nat, m: nat, u: nat)
    requires t <= v < t + u && t == Times(m, u) && m >= 0x8000
    ensures (v - t) * 0x8000 < v
  {
    MulLe(0x8000, m, u);
  }

  lemma {:induction false} TruncatedMonotone(a: nat, b: nat)
    requires a <= b
    ensures Truncated(a) <= Truncated(b)
  {
    TruncatedRest(b / 256);
    if a >= TWO23 { TruncatedMonotone(a / 256, b / 256); }
  }

  lemma {:induction false} TruncatedTwice(v: nat)
    ensures Truncated(Truncated(v)) == Truncated(v)
    ensures Mantissa(Truncated(v)) == Mantissa(v) && Exponent(Truncated(v)) == Exponent(v)
  {
    if v >= TWO23 {
      TruncatedTwice(v / 256);
      TruncatedRest(v / 256);
      assert Truncated(v) / 256 == Truncated(v / 256);
    }
  }

  // ----- the code word

  /** Bytes needed to write v. */
  function ByteLength(v: nat): nat { if v == 0 then 0 else 1 + ByteLength(v / 256) }

  lemma {:induction false} ByteLengthBounds(v: nat)
    ensures v < Pow2(8 * ByteLength(v))
    ensures v > 0 ==> Pow2(8 * (ByteLength(v) - 1)) <= v
  {
    if v > 0 {
      ByteLengthBounds(v / 256);
      Pow2Add(8, 8 * ByteLength(v / 256));
      if v / 256 > 0 { Pow2Add(8, 8 * (ByteLength(v / 256) - 1)); }
      assert Pow2(8) == 256 && Pow2(0) == 1;
    }
  }

  /** The bit count of a number, rounded up to whole bytes. */
  lemma BitsToBytes(v: nat, n: nat)
    requires n == 0 <==> v == 0
    requires n > 0 ==> Pow2(n - 1) <= v < Pow2(n)
    ensures (n + 7) / 8 == ByteLength(v)
  {
    if n > 0 {
      hide Pow2;
      ByteLengthBounds(v);
      var l := ByteLength(v);
      if 8 * l <= n - 1 { Pow2Mono(8 * l, n - 1); }
      if n <= 8 * (l - 1) { Pow2Mono(n, 8 * (l - 1)); }
    }
  }

  /** The three leading bytes, as a 24-bit number. */
  function Leading(v: nat, n: nat): nat {
    if n <= 3 then Times(v, Pow2(8 * (3 - n))) else Quotient(v, Pow2(8 * (n - 3)))
  }

  /** Size byte, sign bit and mantissa occupy disjoint bits of the word. */
  function Pack(size: nat, negative: bool, mantissa: nat): nat {
    size * TWO24 + (if negative && mantissa != 0 then TWO23 else 0) + mantissa
  }

  function Encode(v: nat, negative: bool): nat {
    var n := ByteLength(v);
    var c := Leading(v, n);
    if c / TWO23 % 2 == 1 then Pack(n + 1, negative, c / 256) else Pack(n, negative, c)
  }

  function SizeOf(code: nat): nat { code / TWO24 }

  /** The mantissa field, shifted down for the short sizes. */
  function Word(code: nat): nat {
    if SizeOf(code) <= 3 then Quotient(code % TWO23, Pow2(8 * (3 - SizeOf(code)))) else code % TWO23
  }

  function Decode(code: nat): nat {
    if SizeOf(code) <= 3 then Word(code)
    else Times(Word(code), Pow2(8 * (SizeOf(code) - 3))) % Place(8)
  }

  predicate IsNegative(code: nat) { Word(code) != 0 && code / TWO23 % 2 == 1 }

  predicate Overflows(code: nat) {
    && Word(code) != 0
    && (|| SizeOf(code) > 34
        || (Word(code) > 0xff && SizeOf(code) > 33)
        || (Word(code) > 0xffff && SizeOf(code) > 32))
  }

  lemma Unpack(size: nat, negative: bool, mantissa: nat)
    requires mantissa < TWO23
    ensures SizeOf(Pack(size, negative, mantissa)) == size
    ensures Pack(size, negative, mantissa) % TWO23 == mantissa
    ensures (Pack(size, negative, mantissa) / TWO23 % 2 == 1) == (negative && mantissa != 0)
  {
    var s := if negative && mantissa != 0 then 1 else 0;
    DivModUnique(Pack(size, negative, mantissa), TWO23, 2 * size + s, mantissa);
    DivModUnique(Pack(size, negative, mantissa), TWO24, size, s * TWO23 + mantissa);
  }

  /** One more byte at the bottom moves the size and leaves the leading bytes alone. */
  lemma LeadingStep(v: nat)
    requires ByteLength(v) >= 4
    ensures ByteLength(v) == ByteLength(v / 256) + 1
    ensures Leading(v, ByteLength(v)) == Leading(v / 256, ByteLength(v / 256))
  {
    LeadingShift(v, v / 256, ByteLength(v));
  }

  lemma LeadingShift(v: nat, w: nat, n: nat)
    requires n >= 4 && w == v / 256
    ensures Leading(v, n) == Leading(w, n - 1)
  {
    hide Pow2, Quotient, Times;
    BytePowers();
    NextByte(n - 4);
    DivDivByte(v, w, Pow2(8 * (n - 4)));
  }

  lemma NextByte(e: nat)
    ensures Pow2(8 * (e + 1)) == 256 * Pow2(8 * e)
  {
    Pow2Add(8, 8 * e);
    BytePowers();
  }

  lemma DivDivByte(v: nat, w: nat, p: nat)
    requires p >= 1 && w == v / 256
    ensures Quotient(v, 256 * p) == Quotient(w, p)
    ensures Times(w, 1) == w && Quotient(v, 256) == w
  {
    DivDiv(v, 256, p);
  }

  lemma WholeBytes(v: nat)
    ensures Times(v, 1) == v && Times(v / 256, 1) == v / 256
  {}

  lemma SmallLengths(v: nat)
    ensures v < 0x100_0000 <==> ByteLength(v) <= 3
    ensures v < 0x1_0000 <==> ByteLength(v) <= 2
    ensures v < 0x100 <==> ByteLength(v) <= 1
  {
    assert v / 256 / 256 < 256 <==> v < 0x100_0000;
    if v >= 0x100_0000 {
      assert ByteLength(v) == 1 + ByteLength(v / 256);
      assert ByteLength(v / 256) == 1 + ByteLength(v / 256 / 256);
      assert ByteLength(v / 256 / 256) == 1 + ByteLength(v / 256 / 256 / 256);
    }
  }

  /** From three bytes up, the code is the exponent plus three, and the mantissa. */
  lemma {:induction false} EncodeLarge(v: nat, negative: bool)
    requires v >= TWO23
    ensures Encode(v, negative) == Pack(Exponent(v) + 3, negative, Mantissa(v))
  {
    hide Pow2, Times, Quotient;
    SmallLengths(v);
    SmallLengths(v / 256);
    BytePowers();
    WholeBytes(v);
    if v / 256 >= TWO23 {
      LeadingStep(v);
      EncodeLarge(v / 256, negative);
    } else if v >= TWO24 {
      LeadingStep(v);
    }
  }

  lemma BytePowers()
    ensures Pow2(0) == 1 && Pow2(8) == 256 && Pow2(16) == 0x1_0000 && Pow2(24) == 0x100_0000
  {
    Pow2Add(8, 8);
    Pow2Add(8, 16);
  }

  function ShortSize(v: nat): nat {
    if v == 0 then 0 else if v < 0x80 then 1 else if v < 0x8000 then 2 else 3
  }

  /** Below that, the code holds the number itself, at the top of the mantissa. */
  lemma EncodeSmall(v: nat, negative: bool)
    requires v < TWO23
    ensures Times(v, Pow2(8 * (3 - ShortSize(v)))) < TWO23
    ensures Encode(v, negative) == Pack(ShortSize(v), negative, Times(v, Pow2(8 * (3 - ShortSize(v)))))
  {
    hide Pow2;
    SmallLengths(v);
    BytePowers();
  }

  lemma MultipleOf(v: nat, u: nat)
    requires u >= 1
    ensures Quotient(Times(v, u), u) == v
  {
    DivModUnique(Times(v, u), u, v, 0);
  }

  /** What comes back: the truncated number and the sign, never an overflow. */
  lemma DecodeEncode(v: nat, negative: bool)
    requires v < Place(8)
    ensures Decode(Encode(v, negative)) == Truncated(v)
    ensures IsNegative(Encode(v, negative)) == (negative && v != 0)
    ensures !Overflows(Encode(v, negative))
  {
    hide Encode, Pow2, Place, Pack, Times, Quotient;
    if v < TWO23 {
      DecodeSmall(v, negative);
    } else {
      DecodeLarge(v, negative);
    }
  }

  lemma DecodeSmall(v: nat, negative: bool)
    requires v < TWO23
    ensures var code := Encode(v, negative);
            SizeOf(code) <= 3 && Decode(code) == v && IsNegative(code) == (negative && v != 0)
  {
    hide Encode, Pow2, Pack, Times, Quotient;
    var u := Pow2(8 * (3 - ShortSize(v)));
    EncodeSmall(v, negative);
    Unpack(ShortSize(v), negative, Times(v, u));
    MultipleOf(v, u);
    assert Times(v, u) == 0 <==> v == 0 by { TimesPositive(v, u); }
  }

  lemma TimesPositive(v: nat, u: nat)
    requires u >= 1
    ensures Times(v, u) == 0 <==> v == 0
    ensures Times(v, u) >= v
  {
    MulLe(1, u, v);
  }

  /** Without overflow, nothing is lost to the 256-bit width. */
  lemma DecodeFits(code: nat)
    requires SizeOf(code) > 3
    ensures Overflows(code) <==> Times(Word(code), Pow2(8 * (SizeOf(code) - 3))) >= Place(8)
    ensures !Overflows(code) ==> Decode(code) == Times(Word(code), Pow2(8 * (SizeOf(code) - 3)))
  {
    hide Pow2, Place, Times, Quotient, Overflows, Word, SizeOf;
    OverflowExact(code);
    if !Overflows(code) {
      ModUnique(Times(Word(code), Pow2(8 * (SizeOf(code) - 3))), 0, Place(8),
        Times(Word(code), Pow2(8 * (SizeOf(code) - 3))));
    }
  }

  lemma DecodeLarge(v: nat, negative: bool)
    requires TWO23 <= v < Place(8)
    ensures var code := Encode(v, negative);
            Decode(code) == Truncated(v) && IsNegative(code) == negative && !Overflows(code)
  {
    hide Encode, Pow2, Place, Pack, Times, Quotient, Truncated, Mantissa, Overflows, Decode;
    EncodeLarge(v, negative);
    TruncatedParts(v);
    TruncatedRest(v);
    assert Exponent(v) >= 1;
    Unpack(Exponent(v) + 3, negative, Mantissa(v));
    DecodeFits(Encode(v, negative));
  }

  /** The overflow flag is set exactly when the value does not fit in 256 bits. */
  lemma OverflowExact(code: nat)
    ensures Overflows(code) <==> SizeOf(code) > 3 && Times(Word(code), Pow2(8 * (SizeOf(code) - 3))) >= Place(8)
  {
    hide Pow2, Place, Times, Quotient;
    PlaceIsPow2(8);
    var n := SizeOf(code);
    var w := Word(code);
    if n > 3 {
      if n > 34 {
        Pow2Mono(256, 8 * (n - 3));
        AtLeast(w, Pow2(8 * (n - 3)));
      } else if n > 31 {
        TopSizes(w, n);
      } else {
        InRange(w, 8 * (n - 3));
      }
    } else if w > 0 {
      assert !Overflows(code);
    }
  }

  lemma AtLeast(w: nat, p: nat)
    requires p >= 1
    ensures w > 0 ==> Times(w, p) >= p
    ensures w == 0 ==> Times(w, p) == 0
  {
    if w > 0 { MulLe(1, w, p); }
  }

  lemma InRange(w: nat, e: nat)
    requires w < TWO23 && e <= 224
    ensures Times(w, Pow2(e)) < Pow2(256)
  {
    hide Pow2;
    Pow2Mono(e, 224);
    Pow2Add(224, 32);
    Pow2Of32();
    assert w * Pow2(e) <= w * Pow2(224) by { MulLe(Pow2(e), Pow2(224), w); }
    assert w * Pow2(224) < BASE * Pow2(224) by { MulLe(w + 1, BASE, Pow2(224)); }
  }

  lemma Threshold(w: nat, q: nat, p: nat)
    requires p >= 1
    ensures Times(w, p) >= q * p <==> w >= q
  {
    if w >= q { MulLe(q, w, p); } else { MulLe(w + 1, q, p); }
  }

  lemma TopSizes(w: nat, n: nat)
    requires w < TWO23 && 32 <= n <= 34
    ensures Times(w, Pow2(8 * (n - 3))) >= Pow2(256) <==>
            ((w > 0xff && n > 33) || (w > 0xffff && n > 32))
  {
    hide Pow2;
    Pow2Add(256 - 8 * (n - 3), 8 * (n - 3));
    BytePowers();
    Threshold(w, Pow2(256 - 8 * (n - 3)), Pow2(8 * (n - 3)));
  }

  /** The order of targets survives the trip, and a second trip changes nothing. */
  lemma CompactKeepsOrder(a: nat, b: nat)
    requires a <= b < Place(8)
    ensures Decode(Encode(a, false)) <= Decode(Encode(b, false)) <= b
    ensures b > 0 ==> (b - Decode(Encode(b, false))) * 0x8000 < b
  {
    hide Encode, Decode, Pow2, Place;
    DecodeEncode(a, false);
    DecodeEncode(b, false);
    TruncatedMonotone(a, b);
    TruncatedRest(b);
    if b > 0 { TruncatedLoss(b); }
  }

  lemma EncodeAgain(v: nat, negative: bool)
    requires v < Place(8)
    ensures Encode(Decode(Encode(v, negative)), negative) == Encode(v, negative)
  {
    hide Encode, Decode, Pow2, Place;
    DecodeEncode(v, negative);
    TruncatedTwice(v);
    TruncatedRest(v);
    if v >= TWO23 {
      EncodeLarge(v, negative);
      assert Exponent(Truncated(v)) >= 1;
      EncodeLarge(Truncated(v), negative);
    }
  }

  // ----- the operations on limbs

  lemma LowLimbs(s: seq<limb>)
    requires |s| >= 2 && Value(s) < BASE
    ensures s[0] as nat == Value(s) && s[1] == 0
  {
    hide Place, Times;
    ValueStep(s, 0);
    ValueStep(s, 1);
    assert s == s[..2] + s[2..];
    ValueConcat(s[..2], s[2..]);
    FirstPlaces(s[0] as nat, s[1] as nat);
    OnlyFirst(s[0] as nat, s[1] as nat, Value(s[2..]));
  }

  lemma FirstPlaces(a: nat, b: nat)
    ensures Place(0) == 1 && Place(1) == BASE && Place(2) == BASE * BASE
    ensures Times(a, 1) == a && Times(b, BASE) == b * BASE
  {}

  lemma OnlyFirst(a: nat, b: nat, r: nat)
    requires a + b * BASE + BASE * BASE * r < BASE
    ensures b == 0 && r == 0
  {}

  method GetLow64(pn: seq<limb>) returns (r: nat)
    requires |pn| >= 2
    ensures Value(pn) < BASE ==> r == Value(pn)
  {
    r := Or(pn[1] as nat * BASE, pn[0] as nat);
    if Value(pn) < BASE {
      LowLimbs(pn);
      Pow2Of32();
      OrDisjoint(0, pn[0] as nat, 32);
    }
  }

  lemma {:induction false} LeadingBound(v: nat)
    ensures Leading(v, ByteLength(v)) < TWO24
  {
    SmallLengths(v);
    if ByteLength(v) >= 4 {
      LeadingStep(v);
      LeadingBound(v / 256);
    } else {
      LeadingShort(v);
    }
  }

  lemma LeadingShort(v: nat)
    requires ByteLength(v) <= 3
    ensures Leading(v, ByteLength(v)) < TWO24
  {
    hide Pow2;
    SmallLengths(v);
    BytePowers();
  }

  lemma LengthFits(v: nat)
    requires v < Place(8)
    ensures ByteLength(v) <= 32
  {
    hide Pow2, Place;
    ByteLengthBounds(v);
    PlaceIsPow2(8);
    if ByteLength(v) > 32 { Pow2Mono(256, 8 * (ByteLength(v) - 1)); }
  }

  method GetCompact(pn: seq<limb>, negative: bool) returns (code: nat)
    requires |pn| == 8
    ensures code == Encode(Value(pn), negative)
    ensures code < BASE
  {
    hide Value, Place, Pow2, Times, Quotient, ByteLength, Leading;
    ghost var v := Value(pn);
    var n := Bits(pn);
    BitsToBytes(v, n);
    ValueBound(pn);
    LengthFits(v);
    LeadingBound(v);
    var size := (n + 7) / 8;
    var c := LeadingBytes(pn, size);
    if c / TWO23 % 2 == 1 {
      c := c / 256;
      size := size + 1;
    }
    assert c < TWO23 && size < 256;
    code := Pack(size, negative, c);
  }

  method LeadingBytes(pn: seq<limb>, size: nat) returns (c: nat)
    requires |pn| == 8 && size == ByteLength(Value(pn))
    ensures c == Leading(Value(pn), size)
  {
    hide Value, Place, ByteLength, Pow2;
    LeadingBound(Value(pn));
    if size <= 3 {
      SmallLengths(Value(pn));
      var low := GetLow64(pn);
      c := Times(low, Pow2(8 * (3 - size)));
    } else {
      var bn := Copy(pn);
      ShiftRight(bn, 8 * (size - 3));
      c := GetLow64(bn[..]);
    }
  }

  lemma OneLimb(s: seq<limb>)
    requires |s| > 0 && forall k | 1 <= k < |s| :: s[k] == 0
    ensures Value(s) == s[0] as nat
  {
    hide Place, Times;
    var z := s[0 := 0];
    AllZero(z);
    ValueUpdate(z, 0, s[0]);
    assert z[0 := s[0]] == s;
    FirstPlaces(s[0] as nat, 0);
    FirstPlaces(0, 0);
  }

  method SetCompact(pn: array<limb>, code: nat) returns (negative: bool, overflow: bool)
    requires pn.Length == 8 && code < BASE
    modifies pn
    ensures Value(pn[..]) == Decode(code)
    ensures negative == IsNegative(code) && overflow == Overflows(code)
  {
    hide Value, Place, Pow2, Times;
    var size := code / TWO24;
    var word := code % TWO23;
    if size <= 3 {
      word := Quotient(word, Pow2(8 * (3 - size)));
      WordFits(code);
      SetWord(pn, word);
    } else {
      SetWord(pn, word);
      ShiftLeft(pn, 8 * (size - 3));
    }
    negative := word != 0 && code / TWO23 % 2 == 1;
    overflow := word != 0 && (size > 34 || (word > 0xff && size > 33) || (word > 0xffff && size > 32));
  }

  lemma WordFits(code: nat)
    ensures Word(code) <= code % TWO23
  {
    hide Pow2;
    if SizeOf(code) <= 3 { QuotientBelow(code % TWO23, Pow2(8 * (3 - SizeOf(code)))); }
  }

  lemma QuotientBelow(a: nat, d: nat)
    requires d >= 1
    ensures Quotient(a, d) <= a
  {
    MulLe(1, d, a / d);
  }

  method SetWord(pn: array<limb>, word: limb)
    requires pn.Length > 0
    modifies pn
    ensures Value(pn[..]) == word as nat
  {
    Clear(pn);
    pn[0] := word;
    OneLimb(pn[..]);
  }
}
