/** Base58 text for byte vectors. */
module Base58 {
  import opened Prelude
  import opened Radix

  // ----- the alphabet: all alphanumeric characters except 0, I, O and l

  function Symbol(d: nat): char
    requires d < 58
  {
    if d < 9 then '1' + d as char            // 1 to 9
    else if d < 17 then 'A' + (d - 9) as char   // A to H
    else if d < 22 then 'J' + (d - 17) as char  // J to N
    else if d < 33 then 'P' + (d - 22) as char  // P to Z
    else if d < 44 then 'a' + (d - 33) as char  // a to k
    else 'm' + (d - 44) as char                 // m to z
  }

  /** The alphabet as it is written, in the order of the values. */
  lemma SymbolIs(d: nat)
    requires d < 58
    ensures Symbol(d) == (("123456789" + "ABCDEFGH" + "JKLMN") + ("PQRSTUVWXYZ" + "abcdefghijk" + "mnopqrstuvwxyz"))[d]
  {
    if d < 22 { FirstSymbols(d); } else { LastSymbols(d - 22); }
  }

  lemma FirstSymbols(d: nat)
    requires d < 22
    ensures Symbol(d) == ("123456789" + "ABCDEFGH" + "JKLMN")[d]
  {}

  lemma LastSymbols(d: nat)
    requires d < 36
    ensures Symbol(22 + d) == ("PQRSTUVWXYZ" + "abcdefghijk" + "mnopqrstuvwxyz")[d]
  {}

  /** The value of a character, from a search through the alphabet; 58 when it is not there. */
  function ValueFrom(c: char, d: nat): (v: nat)
    requires d <= 58
    ensures d <= v <= 58
    ensures v < 58 ==> Symbol(v) == c
    ensures forall k | d <= k < v :: Symbol(k) != c
    decreases 58 - d
  {
    if d == 58 || Symbol(d) == c then d else ValueFrom(c, d + 1)
  }

  function ValueOf(c: char): (v: nat)
    ensures v <= 58 && (v < 58 ==> Symbol(v) == c)
  {
    ValueFrom(c, 0)
  }

  lemma ValueOfSymbol(d: nat)
    requires d < 58
    ensures ValueOf(Symbol(d)) == d
  {
    var v := ValueOf(Symbol(d));
    assert v <= d;
  }

  predicate IsSpace(c: char) { c == ' ' || '\t' <= c <= '\r' }

  lemma SymbolNotSpace(d: nat)
    requires d < 58
    ensures !IsSpace(Symbol(d))
  {}

  predicate InAlphabet(s: string) { forall k | 0 <= k < |s| :: ValueOf(s[k]) < 58 }

  function Values(s: string): (t: seq<nat>)
    requires InAlphabet(s)
    ensures |t| == |s| && Below(t, 58) && forall k | 0 <= k < |s| :: t[k] == ValueOf(s[k])
  {
    seq(|s|, i requires 0 <= i < |s| => ValueOf(s[i]))
  }

  function Symbols(t: seq<nat>): (s: string)
    requires Below(t, 58)
    ensures |s| == |t| && forall k | 0 <= k < |t| :: s[k] == Symbol(t[k])
  {
    seq(|t|, i requires 0 <= i < |t| => Symbol(t[i]))
  }

  // ----- what the two operations compute

  function Encoded(v: seq<byte>): string { Symbols(Convert(v, 256, 58)) }

  /** The length of the run of characters from the front that are (not) white space. */
  function Run(s: string, space: bool): (n: nat)
    ensures n <= |s| && forall k | 0 <= k < n :: IsSpace(s[k]) == space
    ensures n < |s| ==> IsSpace(s[n]) != space
  {
    if s == [] || IsSpace(s[0]) != space then 0 else 1 + Run(s[1..], space)
  }

  /** White space around, alphabet characters inside. */
  function Decoded(s: string): Option<seq<nat>> {
    var t := s[Run(s, true)..];
    var body := t[..Run(t, false)];
    var rest := t[Run(t, false)..];
    if InAlphabet(body) && Run(rest, true) == |rest| then Some(Convert(Values(body), 58, 256)) else None
  }

  lemma AllSymbols(t: seq<nat>)
    requires Below(t, 58)
    ensures InAlphabet(Symbols(t)) && Values(Symbols(t)) == t
  {
    forall k | 0 <= k < |t|
      ensures ValueOf(Symbols(t)[k]) == t[k]
    {
      ValueOfSymbol(t[k]);
    }
  }

  lemma NoSpaces(s: string)
    requires InAlphabet(s)
    ensures Decoded(s) == Some(Convert(Values(s), 58, 256))
  {
    forall k | 0 <= k < |s|
      ensures !IsSpace(s[k])
    {
      assert s[k] == Symbol(ValueOf(s[k]));
      SymbolNotSpace(ValueOf(s[k]));
    }
    assert Run(s, true) == 0 && s[0..] == s;
    assert Run(s, false) == |s| && s[..|s|] == s;
  }

  /** Decoding what was encoded gives the bytes back. */
  lemma DecodeEncode(v: seq<byte>)
    ensures Decoded(Encoded(v)) == Some(v)
  {
    var t := Convert(v, 256, 58);
    assert Below(v, 256);
    AllSymbols(t);
    NoSpaces(Symbols(t));
    ConvertBack(v, 256, 58);
  }

  /** Every string over the alphabet decodes, to bytes that encode to the same string. */
  lemma EncodeDecode(s: string)
    requires InAlphabet(s)
    ensures Decoded(s).Some? && Below(Decoded(s).value, 256)
    ensures Encoded(Decoded(s).value) == s
  {
    NoSpaces(s);
    ConvertBack(Values(s), 58, 256);
    assert Symbols(Values(s)) == s;
  }

  // ----- the buffers are long enough

  lemma Powers()
    ensures Pow(256, 8) <= Pow(58, 11)
    ensures Pow(58, 71) <= Pow(256, 52)
  {
    hide Pow;
    SmallPowers();
    PowAdd(58, 9, 9);
    PowAdd(58, 18, 18);
    PowAdd(58, 8, 9);
    PowAdd(58, 17, 18);
    PowAdd(58, 35, 36);
    PowAdd(256, 13, 13);
    PowAdd(256, 26, 26);
  }

  lemma SmallPowers()
    ensures Pow(58, 8) == 128063081718016 && Pow(58, 9) == 58 * 128063081718016
    ensures Pow(256, 13) == 0x100_0000_0000_0000_0000_0000_0000
    ensures Pow(256, 8) <= Pow(58, 11)
  {}

  lemma RoomFor58(n: nat)
    ensures Pow(256, n) <= Pow(58, n * 138 / 100 + 1)
  {
    hide Pow;
    Powers();
    PowRatio(256, 58, 8, 11, n, n * 138 / 100 + 1);
  }

  lemma RoomFor256(n: nat)
    ensures Pow(58, n) <= Pow(256, n * 733 / 1000 + 1)
  {
    hide Pow;
    Powers();
    PowRatio(58, 256, 71, 52, n, n * 733 / 1000 + 1);
  }

  // ----- multiply the buffer by a factor and add a digit

  /** The i lowest digits of the buffer have been replaced. */
  ghost predicate Multiplying(was: seq<nat>, cur: seq<nat>, base: nat, factor: nat, digit: nat, i: nat, carry: nat) {
    && |cur| == |was| && i <= |was| && Below(cur, base)
    && cur[..|was| - i] == was[..|was| - i]
    && Number(cur[|was| - i..], base) + Mul(carry, Pow(base, i)) == Mul(Number(was[|was| - i..], base), factor) + digit
  }

  ghost predicate ZeroAbove(s: seq<nat>, length: nat) {
    length <= |s| && forall k | 0 <= k < |s| - length :: s[k] == 0
  }

  lemma MultiplyStart(was: seq<nat>, base: nat, factor: nat, digit: nat)
    requires Below(was, base)
    ensures Multiplying(was, was, base, factor, digit, 0, digit)
  {
    assert was[|was|..] == [];
    assert Pow(base, 0) == 1;
  }

  lemma CarryOver(c: nat, base: nat, p: nat)
    requires base >= 1
    ensures Mul(c % base, p) + Mul(c / base, base * p) == Mul(c, p)
  {
    var q, r := c / base, c % base;
    assert c == q * base + r;
    assert (q * base + r) * p == q * (base * p) + r * p;
  }

  lemma OldDigit(x: nat, p: nat, n: nat, factor: nat)
    ensures Mul(Mul(x, p) + n, factor) == Mul(n, factor) + Mul(factor * x, p)
  {
    assert (x * p + n) * factor == n * factor + factor * x * p;
  }

  lemma AddCarry(carry: nat, x: nat, p: nat)
    ensures Mul(carry + x, p) == Mul(carry, p) + Mul(x, p)
  {}

  lemma MultiplyStep(was: seq<nat>, cur: seq<nat>, base: nat, factor: nat, digit: nat, i: nat, carry: nat)
    requires base >= 2 && i < |was| && Multiplying(was, cur, base, factor, digit, i, carry)
    ensures var c := carry + factor * cur[|was| - 1 - i];
            Multiplying(was, cur[|was| - 1 - i := c % base], base, factor, digit, i + 1, c / base)
  {
    hide Mul;
    var k := |was| - 1 - i;
    var x := was[k];
    var p := Pow(base, i);
    assert cur[k] == cur[..|was| - i][k] == x;
    var c := carry + factor * x;
    var next := cur[k := c % base];
    assert next[k..][1..] == cur[|was| - i..] && was[k..][1..] == was[|was| - i..];
    assert next[..k] == was[..k];
    CarryOver(c, base, p);
    AddCarry(carry, factor * x, p);
    OldDigit(x, p, Number(was[|was| - i..], base), factor);
  }

  lemma MultiplyDone(was: seq<nat>, cur: seq<nat>, base: nat, factor: nat, digit: nat, i: nat, carry: nat, length: nat)
    requires base >= 2 && Multiplying(was, cur, base, factor, digit, i, carry) && ZeroAbove(was, length)
    requires i == |was| || (carry == 0 && length <= i)
    requires Mul(Number(was, base), factor) + digit < Pow(base, |was|)
    ensures carry == 0 && ZeroAbove(cur, i)
    ensures Number(cur, base) == Mul(Number(was, base), factor) + digit
  {
    hide Mul;
    if i == |was| {
      assert cur[0..] == cur && was[0..] == was;
      NoCarry(Number(cur, base), carry, Pow(base, i));
    } else {
      forall k | 0 <= k < |was| - i
        ensures was[k] == 0 && cur[k] == 0
      {
        assert cur[k] == cur[..|was| - i][k] == was[k];
      }
      assert was == Zeros(|was| - i) + was[|was| - i..];
      assert cur == Zeros(|was| - i) + cur[|was| - i..];
      NumberZeros(|was| - i, was[|was| - i..], base);
      NumberZeros(|was| - i, cur[|was| - i..], base);
      UnitMul(0, Pow(base, i));
    }
  }

  lemma NoCarry(n: nat, carry: nat, p: nat)
    requires n + Mul(carry, p) < p
    ensures carry == 0 && Mul(carry, p) == 0
  {
    if carry > 0 { MulMono(1, carry, p, p); }
  }

  method MultiplyAdd(buf: array<nat>, length: nat, base: nat, factor: nat, digit: nat) returns (i: nat)
    requires base >= 2 && Below(buf[..], base) && ZeroAbove(buf[..], length)
    requires Mul(Number(buf[..], base), factor) + digit < Pow(base, buf.Length)
    modifies buf
    ensures Below(buf[..], base) && ZeroAbove(buf[..], i)
    ensures Number(buf[..], base) == Mul(old(Number(buf[..], base)), factor) + digit
  {
    hide Mul, Number, Pow, Multiplying;
    ghost var was := buf[..];
    var carry: nat := digit;
    i := 0;
    MultiplyStart(was, base, factor, digit);
    while (carry != 0 || i < length) && i < buf.Length
      invariant i <= buf.Length && Multiplying(was, buf[..], base, factor, digit, i, carry)
      decreases buf.Length - i
    {
      MultiplyStep(was, buf[..], base, factor, digit, i, carry);
      var k := buf.Length - 1 - i;
      carry := carry + factor * buf[k];
      ghost var before := buf[..];
      var low: nat := carry % base;
      buf[k] := low;
      assert buf[..] == before[k := low];
      carry := carry / base;
      i := i + 1;
    }
    MultiplyDone(was, buf[..], base, factor, digit, i, carry, length);
    assert Below(buf[..], base) by { StillBelow(was, buf[..], base, factor, digit, i, carry); }
    assert carry == 0;
  }

  lemma StillBelow(was: seq<nat>, cur: seq<nat>, base: nat, factor: nat, digit: nat, i: nat, carry: nat)
    requires Multiplying(was, cur, base, factor, digit, i, carry)
    ensures Below(cur, base)
  {}

  // ----- encoding

  /** The next input digit keeps the number within what the buffer can hold. */
  lemma PushReady(s: seq<nat>, from: nat, to: nat, j: nat, size: nat)
    requires from >= 2 && Below(s, from) && j < |s| && Pow(from, |s|) <= Pow(to, size)
    ensures Mul(Number(s[..j], from), from) + s[j] == Number(s[..j + 1], from) < Pow(to, size)
  {
    hide Mul, Number, Pow;
    assert s[..j + 1] == s[..j] + [s[j]];
    NumberSnoc(s[..j], s[j], from);
    NumberBound(s[..j + 1], from);
    PowMono(from, j + 1, |s|);
  }

  lemma LeadingZerosAt(s: seq<nat>, z: nat)
    requires z <= |s| && (forall k | 0 <= k < z :: s[k] == 0) && (z < |s| ==> s[z] != 0)
    ensures LeadingZeros(s) == z
  {
  }

  /** What is left of the buffer after its zeros, with the zeros counted before, is the conversion. */
  lemma Assembled(s: seq<nat>, z: nat, from: nat, to: nat, buf: seq<nat>, it: nat)
    requires to >= 2 && LeadingZeros(s) == z
    requires Below(buf, to) && Number(buf, to) == Number(s[z..], from)
    requires it <= |buf| && (forall k | 0 <= k < it :: buf[k] == 0) && (it < |buf| ==> buf[it] != 0)
    ensures Convert(s, from, to) == Zeros(z) + buf[it..]
  {
    hide Number, Digits;
    Split(s);
    NumberZeros(z, s[z..], from);
    assert buf == Zeros(it) + buf[it..];
    NumberZeros(it, buf[it..], to);
    DigitsUnique(buf[it..], to);
  }

  method SkipZeros(buf: array<nat>, length: nat) returns (it: nat)
    requires ZeroAbove(buf[..], length)
    ensures it <= buf.Length && (forall k | 0 <= k < it :: buf[k] == 0) && (it < buf.Length ==> buf[it] != 0)
  {
    it := buf.Length - length;
    assert forall k | 0 <= k < it :: buf[k] == buf[..][k];
    while it < buf.Length && buf[it] == 0
      invariant it <= buf.Length && forall k | 0 <= k < it :: buf[k] == 0
    {
      it := it + 1;
    }
  }

  lemma Empty(buf: seq<nat>, base: nat)
    requires base >= 1 && forall k | 0 <= k < |buf| :: buf[k] == 0
    ensures Below(buf, base) && ZeroAbove(buf, 0) && Number(buf, base) == 0
  {
    assert buf == Zeros(|buf|) + [];
    NumberZeros(|buf|, [], base);
  }

  method Spell(zeroes: nat, buf: array<nat>, start: nat) returns (str: string)
    requires Below(buf[..], 58) && start <= buf.Length
    ensures Below(Zeros(zeroes) + buf[start..], 58) && str == Symbols(Zeros(zeroes) + buf[start..])
  {
    str := seq(zeroes, _ => '1');
    var it := start;
    ghost var all := Zeros(zeroes) + buf[start..];
    assert forall k | 0 <= k < buf.Length :: buf[..][k] < 58;
    while it < buf.Length
      invariant start <= it <= buf.Length && |str| == zeroes + it - start
      invariant forall k | 0 <= k < |str| :: all[k] < 58 && str[k] == Symbol(all[k])
    {
      str := str + [Symbol(buf[it])];
      it := it + 1;
    }
  }

  method EncodeBase58(v: seq<byte>) returns (str: string)
    ensures str == Encoded(v)
  {
    hide Mul, Number, Pow, Digits, Convert, LeadingZeros;
    var zeroes := 0;
    while zeroes < |v| && v[zeroes] == 0
      invariant zeroes <= |v| && forall k | 0 <= k < zeroes :: v[k] == 0
    {
      zeroes := zeroes + 1;
    }
    LeadingZerosAt(v, zeroes);
    var rest: seq<nat> := v[zeroes..];
    var size := |rest| * 138 / 100 + 1;
    RoomFor58(|rest|);
    var buf := new nat[size](_ => 0);
    var length := 0;
    var j := 0;
    Empty(buf[..], 58);
    assert rest[..0] == [] && Number([], 256) == 0 by { EmptyNumber(256); }
    while j < |rest|
      invariant j <= |rest| && Below(buf[..], 58) && ZeroAbove(buf[..], length)
      invariant Number(buf[..], 58) == Number(rest[..j], 256)
    {
      PushReady(rest, 256, 58, j, size);
      length := MultiplyAdd(buf, length, 58, 256, rest[j]);
      j := j + 1;
    }
    assert rest[..|rest|] == rest;
    var it := SkipZeros(buf, length);
    Assembled(v, zeroes, 256, 58, buf[..], it);
    str := Spell(zeroes, buf, it);
  }

  lemma EmptyNumber(b: nat)
    ensures Number([], b) == 0
  {}

  // ----- decoding

  lemma RunIs(s: string, space: bool, n: nat)
    requires n <= |s| && (forall k | 0 <= k < n :: IsSpace(s[k]) == space) && (n < |s| ==> IsSpace(s[n]) != space)
    ensures Run(s, space) == n
  {}

  method Skip(s: string, start: nat, space: bool) returns (p: nat)
    requires start <= |s|
    ensures start <= p <= |s| && p - start == Run(s[start..], space)
  {
    p := start;
    while p < |s| && IsSpace(s[p]) == space
      invariant start <= p <= |s| && forall k | start <= k < p :: IsSpace(s[k]) == space
    {
      p := p + 1;
    }
    RunIs(s[start..], space, p - start);
  }

  lemma OneIsZero(c: char)
    ensures ValueOf(c) == 0 <==> c == '1'
  {}

  /** A character outside the alphabet, met before any white space, fails the whole. */
  lemma BadCharacter(s: string, a: nat, p: nat)
    requires a == Run(s, true) && a <= p < |s|
    requires forall k | a <= k <= p :: !IsSpace(s[k])
    requires ValueOf(s[p]) == 58
    ensures Decoded(s) == None
  {
    var t := s[a..];
    var n := Run(t, false);
    assert forall k | 0 <= k <= p - a :: t[k] == s[a + k];
    assert t[..n][p - a] == s[p];
  }

  lemma BadTail(s: string, a: nat, e: nat)
    requires a == Run(s, true) && e == a + Run(s[a..], false)
    ensures e <= |s| && (Run(s[e..], true) < |s| - e ==> Decoded(s) == None)
  {
    hide Run, Convert, ValueOf, Values, InAlphabet;
    assert s[a..][e - a..] == s[e..];
  }

  lemma GoodText(s: string, a: nat, e: nat)
    requires a == Run(s, true) && e == a + Run(s[a..], false)
    requires e <= |s| && InAlphabet(s[a..e]) && Run(s[e..], true) == |s| - e
    ensures Decoded(s) == Some(Convert(Values(s[a..e]), 58, 256))
  {
    hide Run, Convert, ValueOf, Values, InAlphabet, IsSpace;
    Slices(s, a, e);
  }

  lemma Slices(s: string, a: nat, e: nat)
    requires a <= e <= |s|
    ensures s[a..][e - a..] == s[e..] && s[a..][..e - a] == s[a..e]
  {}

  method CountOnes(s: string, start: nat) returns (zeroes: nat)
    requires start <= |s|
    ensures start + zeroes <= |s| && (forall k | start <= k < start + zeroes :: s[k] == '1')
    ensures start + zeroes < |s| ==> s[start + zeroes] != '1'
  {
    zeroes := 0;
    while start + zeroes < |s| && s[start + zeroes] == '1'
      invariant start + zeroes <= |s| && forall k | start <= k < start + zeroes :: s[k] == '1'
    {
      zeroes := zeroes + 1;
    }
  }

  /** One more character of the body. */
  lemma ReadCharacter(s: string, z: nat, p: nat, size: nat)
    requires z <= p < |s| && InAlphabet(s[z..p]) && ValueOf(s[p]) < 58
    requires Pow(58, |s| - z) <= Pow(256, size)
    ensures InAlphabet(s[z..p + 1])
    ensures Mul(Number(Values(s[z..p]), 58), 58) + ValueOf(s[p]) == Number(Values(s[z..p + 1]), 58) < Pow(256, size)
  {
    hide Mul, Number, Pow;
    assert s[z..p + 1] == s[z..p] + [s[p]];
    var t := Values(s[z..p + 1]);
    assert t[..p - z] == Values(s[z..p]);
    PowMono(58, |t|, |s| - z);
    PushReady(t, 58, 256, p - z, size);
    assert t[..p - z + 1] == t;
  }

  /** The ones counted at the start are the leading zeros of the body. */
  lemma BodyZeros(s: string, a: nat, z: nat, e: nat)
    requires a <= z <= e <= |s| && (forall k | a <= k < z :: s[k] == '1') && (z < e ==> s[z] != '1')
    requires InAlphabet(s[z..e])
    ensures InAlphabet(s[a..e]) && LeadingZeros(Values(s[a..e])) == z - a
    ensures Values(s[a..e])[z - a..] == Values(s[z..e])
  {
    hide ValueOf;
    assert s[a..e][z - a..] == s[z..e];
    forall k | 0 <= k < e - a
      ensures ValueOf(s[a..e][k]) < 58 && (k < z - a ==> ValueOf(s[a..e][k]) == 0)
              && (k == z - a ==> ValueOf(s[a..e][k]) != 0)
    {
      OneIsZero(s[a + k]);
      if k >= z - a { assert s[z..e][k - (z - a)] == s[a + k]; }
    }
    LeadingZerosAt(Values(s[a..e]), z - a);
  }

  /** Reads characters up to white space or the end; stops at one outside the alphabet. */
  method ReadBody(s: string, z: nat) returns (ok: bool, buf: array<nat>, length: nat, p: nat)
    requires z <= |s|
    ensures z <= p <= |s| && InAlphabet(s[z..p]) && forall k | z <= k < p :: !IsSpace(s[k])
    ensures p < |s| ==> if ok then IsSpace(s[p]) else !IsSpace(s[p]) && ValueOf(s[p]) == 58
    ensures !ok ==> p < |s|
    ensures Below(buf[..], 256) && ZeroAbove(buf[..], length)
    ensures Number(buf[..], 256) == Number(Values(s[z..p]), 58)
  {
    hide Mul, Number, Pow, ValueOf;
    var size := (|s| - z) * 733 / 1000 + 1;
    RoomFor256(|s| - z);
    buf := new nat[size](_ => 0);
    length := 0;
    p := z;
    Empty(buf[..], 256);
    EmptyNumber(58);
    assert Values(s[z..z]) == [];
    while p < |s| && !IsSpace(s[p])
      invariant z <= p <= |s| && InAlphabet(s[z..p]) && forall k | z <= k < p :: !IsSpace(s[k])
      invariant Below(buf[..], 256) && ZeroAbove(buf[..], length)
      invariant Number(buf[..], 256) == Number(Values(s[z..p]), 58)
    {
      if ValueOf(s[p]) == 58 {
        ok := false;
        return;
      }
      ReadCharacter(s, z, p, size);
      length := MultiplyAdd(buf, length, 256, 58, ValueOf(s[p]));
      p := p + 1;
    }
    ok := true;
  }

  method DecodeBase58(s: string) returns (r: Option<seq<nat>>)
    ensures r == Decoded(s)
  {
    hide Mul, Number, Pow, Digits, Convert, LeadingZeros, Decoded, ValueOf, Run;
    var a := Skip(s, 0, true);
    assert s[0..] == s;
    var zeroes := CountOnes(s, a);
    var z := a + zeroes;
    assert forall k | a <= k < z :: !IsSpace(s[k]);
    var ok, buf, length, p := ReadBody(s, z);
    if !ok {
      BadCharacter(s, a, p);
      return None;
    }
    RunIs(s[a..], false, p - a);
    var q := Skip(s, p, true);
    BadTail(s, a, p);
    if q != |s| {
      return None;
    }
    BodyZeros(s, a, z, p);
    GoodText(s, a, p);
    var it := SkipZeros(buf, length);
    Assembled(Values(s[a..p]), zeroes, 58, 256, buf[..], it);
    r := Some(Zeros(zeroes) + buf[it..]);
  }
}
