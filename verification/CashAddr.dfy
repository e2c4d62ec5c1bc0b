/** CashAddr text: a prefix, a colon, and 5-bit values with eight check values at the end. */
module CashAddr {
  import opened Prelude
  import opened CashChecksum

  // ----- characters

  function Charset(v: five): char {
    if v == 0 then 'q' else if v == 1 then 'p' else if v == 2 then 'z' else if v == 3 then 'r'
    else if v == 4 then 'y' else if v == 5 then '9' else if v == 6 then 'x' else if v == 7 then '8'
    else if v == 8 then 'g' else if v == 9 then 'f' else if v == 10 then '2' else if v == 11 then 't'
    else if v == 12 then 'v' else if v == 13 then 'd' else if v == 14 then 'w' else if v == 15 then '0'
    else if v == 16 then 's' else if v == 17 then '3' else if v == 18 then 'j' else if v == 19 then 'n'
    else if v == 20 then '5' else if v == 21 then '4' else if v == 22 then 'k' else if v == 23 then 'h'
    else if v == 24 then 'c' else if v == 25 then 'e' else if v == 26 then '6' else if v == 27 then 'm'
    else if v == 28 then 'u' else if v == 29 then 'a' else if v == 30 then '7' else 'l'
  }

  /** The alphabet as it is written, in the order of the values. */
  lemma CharsetIs(v: five, n: nat)
    requires n < 32 && v == n as five
    ensures Charset(v) == (("qpzry9x8" + "gf2tvdw0") + ("s3jn54kh" + "ce6mua7l"))[n]
  {
    if n < 16 { CharsetLow(v, n); } else { CharsetHigh(v, n - 16); }
  }

  lemma CharsetLow(v: five, n: nat)
    requires n < 16 && v == n as five
    ensures Charset(v) == ("qpzry9x8" + "gf2tvdw0")[n]
  {}

  lemma CharsetHigh(v: five, n: nat)
    requires n < 16 && v == (n + 16) as five
    ensures Charset(v) == ("s3jn54kh" + "ce6mua7l")[n]
  {}

  predicate IsLower(c: char) { 'a' <= c <= 'z' }
  predicate IsUpper(c: char) { 'A' <= c <= 'Z' }
  predicate IsDigit(c: char) { '0' <= c <= '9' }
  predicate Plain(c: char) { IsLower(c) || IsUpper(c) || IsDigit(c) }

  /** Setting bit 0x20 takes a capital to its small letter. */
  function LowerCase(c: char): char {
    if IsUpper(c) then c + 32 as char else c
  }

  /** The reverse table for digits and small letters; None where it holds -1. */
  function SmallRev(c: char): Option<five> {
    match c
    case '0' => Some(15)
    case '2' => Some(10)
    case '3' => Some(17)
    case '4' => Some(21)
    case '5' => Some(20)
    case '6' => Some(26)
    case '7' => Some(30)
    case '8' => Some(7)
    case '9' => Some(5)
    case 'a' => Some(29)
    case 'c' => Some(24)
    case 'd' => Some(13)
    case 'e' => Some(25)
    case 'f' => Some(9)
    case 'g' => Some(8)
    case 'h' => Some(23)
    case 'j' => Some(18)
    case 'k' => Some(22)
    case 'l' => Some(31)
    case 'm' => Some(27)
    case 'n' => Some(19)
    case 'p' => Some(1)
    case 'q' => Some(0)
    case 'r' => Some(3)
    case 's' => Some(16)
    case 't' => Some(11)
    case 'u' => Some(28)
    case 'v' => Some(12)
    case 'w' => Some(14)
    case 'x' => Some(6)
    case 'y' => Some(4)
    case 'z' => Some(2)
    case _ => None
  }

  /** The rows of the table for capitals repeat those for small letters. */
  function CharsetRev(c: char): Option<five> { SmallRev(LowerCase(c)) }

  lemma CharsetBackFirst(v: five)
    requires v < 16
    ensures SmallRev(Charset(v)) == Some(v) && (IsLower(Charset(v)) || IsDigit(Charset(v)))
  {}

  lemma CharsetBackSecond(v: five)
    requires v >= 16
    ensures SmallRev(Charset(v)) == Some(v) && (IsLower(Charset(v)) || IsDigit(Charset(v)))
  {}

  lemma CharsetBack(v: five)
    ensures CharsetRev(Charset(v)) == Some(v)
    ensures IsLower(Charset(v)) || IsDigit(Charset(v))
  {
    hide SmallRev, Charset;
    if v < 16 { CharsetBackFirst(v); } else { CharsetBackSecond(v); }
  }

  lemma CharsetForthFirst(c: char)
    requires c < 'j'
    ensures SmallRev(c).Some? ==> Plain(c) && Charset(SmallRev(c).value) == c
  {}

  lemma CharsetForthSecond(c: char)
    requires c >= 'j'
    ensures SmallRev(c).Some? ==> Plain(c) && Charset(SmallRev(c).value) == c
  {}

  lemma CharsetForth(c: char)
    ensures CharsetRev(c).Some? ==> Plain(c) && Charset(CharsetRev(c).value) == LowerCase(c)
  {
    hide SmallRev, Charset;
    if LowerCase(c) < 'j' { CharsetForthFirst(LowerCase(c)); } else { CharsetForthSecond(LowerCase(c)); }
  }

  // ----- addresses

  /** The prefix as values for the checksum: five bits of each character, then a zero. */
  function ExpandPrefix(prefix: string): seq<five> {
    seq(|prefix|, i requires 0 <= i < |prefix| => (prefix[i] as int % 32) as five) + [0]
  }

  predicate VerifyChecksum(prefix: string, values: seq<five>) { Checksum(ExpandPrefix(prefix) + values) == 0 }

  function Spelled(values: seq<five>): (s: string)
    ensures |s| == |values| && forall i | 0 <= i < |s| :: s[i] == Charset(values[i])
  {
    seq(|values|, i requires 0 <= i < |values| => Charset(values[i]))
  }

  function Joined(prefix: string, values: seq<five>): string { prefix + ":" + Spelled(values) }

  function Encoded(prefix: string, payload: seq<five>): string {
    Joined(prefix, payload + CheckValues(ExpandPrefix(prefix) + payload))
  }

  /** TooShort: the checksum holds but there are not eight values to cut off the end. */
  datatype Outcome = Failed | TooShort | Parsed(prefix: string, payload: seq<five>)

  /** The first colon, or the length of the string. */
  function ColonAt(s: string): (k: nat)
    ensures k <= |s| && (k < |s| ==> s[k] == ':') && forall i | 0 <= i < k :: s[i] != ':'
  {
    if s == [] || s[0] == ':' then 0 else 1 + ColonAt(s[1..])
  }

  predicate HasLower(s: string) { exists i | 0 <= i < |s| :: IsLower(s[i]) }
  predicate HasUpper(s: string) { exists i | 0 <= i < |s| :: IsUpper(s[i]) }
  predicate HasDigit(s: string) { exists i | 0 <= i < |s| :: IsDigit(s[i]) }

  predicate AllPlain(s: string) { forall i | 0 <= i < |s| :: Plain(s[i]) }

  /** Letters and digits with at most one colon, not first and after no digit; one letter case. */
  predicate WellFormed(s: string) {
    var k := ColonAt(s);
    && AllPlain(s[..k])
    && (k < |s| ==> k > 0 && !HasDigit(s[..k]) && AllPlain(s[k + 1..]))
    && !(HasUpper(s) && HasLower(s))
  }

  function Lowered(s: string): (t: string)
    ensures |t| == |s| && forall i | 0 <= i < |s| :: t[i] == LowerCase(s[i])
  {
    seq(|s|, i requires 0 <= i < |s| => LowerCase(s[i]))
  }

  predicate InCharset(s: string) { forall i | 0 <= i < |s| :: CharsetRev(s[i]).Some? }

  function ValuesOf(s: string): (v: seq<five>)
    requires InCharset(s)
    ensures |v| == |s| && forall i | 0 <= i < |s| :: CharsetRev(s[i]) == Some(v[i])
  {
    seq(|s|, i requires 0 <= i < |s| => CharsetRev(s[i]).value)
  }

  function Prefix(s: string, defaultPrefix: string): string {
    if ColonAt(s) == |s| then defaultPrefix else Lowered(s[..ColonAt(s)])
  }

  function Body(s: string): string {
    if ColonAt(s) == |s| then s else s[ColonAt(s) + 1..]
  }

  function Checked(prefix: string, values: seq<five>): Outcome {
    if !VerifyChecksum(prefix, values) then Failed
    else if |values| < 8 then TooShort
    else Parsed(prefix, values[..|values| - 8])
  }

  function Decoded(s: string, defaultPrefix: string): Outcome {
    if !WellFormed(s) || !InCharset(Body(s)) then Failed
    else Checked(Prefix(s, defaultPrefix), ValuesOf(Body(s)))
  }

  // ----- what decoding does with encoded text

  predicate LowerLetters(s: string) { s != [] && forall i | 0 <= i < |s| :: IsLower(s[i]) }

  lemma SpelledBack(values: seq<five>)
    ensures InCharset(Spelled(values)) && ValuesOf(Spelled(values)) == values
    ensures AllPlain(Spelled(values)) && !HasUpper(Spelled(values))
    ensures forall i | 0 <= i < |values| :: Spelled(values)[i] != ':'
  {
    hide CharsetRev, Charset;
    forall i | 0 <= i < |values|
      ensures CharsetRev(Spelled(values)[i]) == Some(values[i])
      ensures IsLower(Spelled(values)[i]) || IsDigit(Spelled(values)[i])
    {
      CharsetBack(values[i]);
    }
  }

  lemma ColonIs(s: string, k: nat)
    requires k < |s| && s[k] == ':' && forall i | 0 <= i < k :: s[i] != ':'
    ensures ColonAt(s) == k
  {}

  /** With a prefix of small letters, only the checksum matters. */
  lemma JoinedDecodes(prefix: string, values: seq<five>, defaultPrefix: string)
    requires LowerLetters(prefix)
    ensures Decoded(Joined(prefix, values), defaultPrefix) == Checked(prefix, values)
  {
    hide CharsetRev, Charset, Checked, ColonAt, InCharset;
    var s := Joined(prefix, values);
    SpelledBack(values);
    ColonIs(s, |prefix|);
    assert s[..|prefix|] == prefix && s[|prefix| + 1..] == Spelled(values);
    assert Lowered(prefix) == prefix;
    forall i | 0 <= i < |s|
      ensures !IsUpper(s[i])
    {
      if i > |prefix| { assert s[i] == Spelled(values)[i - |prefix| - 1]; }
    }
  }

  /** Encoded text decodes to its prefix and payload exactly when the prefix is a word of small letters. */
  lemma DecodeEncode(prefix: string, payload: seq<five>, defaultPrefix: string)
    ensures Decoded(Encoded(prefix, payload), defaultPrefix) == Parsed(prefix, payload) <==> LowerLetters(prefix)
  {
    hide CharsetRev, Charset, Checksum, ExpandPrefix, CheckValues, WellFormed, InCharset, Joined, Prefix, Body,
      ValuesOf;
    var e := ExpandPrefix(prefix) + payload;
    var values := payload + CheckValues(e);
    if LowerLetters(prefix) {
      JoinedDecodes(prefix, values, defaultPrefix);
      CheckValuesWork(e);
      assert ExpandPrefix(prefix) + values == e + CheckValues(e);
      assert values[..|values| - 8] == payload;
    } else if Decoded(Encoded(prefix, payload), defaultPrefix) == Parsed(prefix, payload) {
      PrefixRead(Encoded(prefix, payload), prefix, values, defaultPrefix);
    }
  }

  /** With an empty prefix the text begins with the separator. */
  lemma EmptyPrefixRefused(payload: seq<five>, defaultPrefix: string)
    ensures Decoded(Encoded("", payload), defaultPrefix) == Failed
  {
    hide CharsetRev, Charset, CheckValues, ExpandPrefix;
    assert Encoded("", payload)[0] == ':';
  }

  /** A prefix that reads back as itself is a word of small letters. */
  lemma PrefixRead(s: string, prefix: string, values: seq<five>, defaultPrefix: string)
    requires s == Joined(prefix, values) && WellFormed(s) && Prefix(s, defaultPrefix) == prefix
    ensures LowerLetters(prefix)
  {
    hide CharsetRev, Charset;
    var k := ColonAt(s);
    assert s[|prefix|] == ':';
    assert k == |prefix| && s[..k] == prefix;
    forall i | 0 <= i < k
      ensures IsLower(prefix[i])
    {
      assert Plain(s[..k][i]) && !IsDigit(s[..k][i]);
      assert prefix[i] == LowerCase(prefix[i]);
    }
  }

  /** A run of at most eight changed characters after the colon is refused. */
  lemma CorruptionRefused(prefix: string, v: seq<five>, w: seq<five>, i: nat, j: nat, defaultPrefix: string)
    requires LowerLetters(prefix) && Decoded(Joined(prefix, v), defaultPrefix) != Failed
    requires |v| == |w| && i <= j <= |v| && j - i <= 8
    requires v[..i] == w[..i] && v[j..] == w[j..] && v != w
    ensures Decoded(Joined(prefix, w), defaultPrefix) == Failed
  {
    hide CharsetRev, Charset, Checksum, ExpandPrefix, Joined, Decoded;
    JoinedDecodes(prefix, v, defaultPrefix);
    JoinedDecodes(prefix, w, defaultPrefix);
    var p := ExpandPrefix(prefix);
    assert (p + v)[..|p| + i] == p + v[..i] && (p + w)[..|p| + i] == p + w[..i];
    assert (p + v)[|p| + j..] == v[j..] && (p + w)[|p| + j..] == w[j..];
    assert (p + v)[|p|..] == v && (p + w)[|p|..] == w;
    BurstDetected(p + v, p + w, |p| + i, |p| + j);
  }

  /** Whatever decodes is, in small letters, the encoding of what it decoded to. */
  lemma EncodeDecode(s: string, defaultPrefix: string)
    requires Decoded(s, defaultPrefix).Parsed?
    ensures var r := Decoded(s, defaultPrefix);
            && (ColonAt(s) < |s| ==> Encoded(r.prefix, r.payload) == Lowered(s))
            && (ColonAt(s) == |s| ==>
              r.prefix == defaultPrefix && Encoded(r.prefix, r.payload) == defaultPrefix + ":" + Lowered(s))
  {
    hide CharsetRev, Charset, VerifyChecksum, ExpandPrefix, CheckValues, WellFormed, ColonAt;
    var r := Decoded(s, defaultPrefix);
    LastValues(r.prefix, ValuesOf(Body(s)));
    SpelledLowered(Body(s));
    if ColonAt(s) < |s| { LoweredParts(s, ColonAt(s)); }
  }

  /** A valid sequence ends in the check values of the rest. */
  lemma LastValues(prefix: string, values: seq<five>)
    requires VerifyChecksum(prefix, values) && |values| >= 8
    ensures var payload := values[..|values| - 8]; values == payload + CheckValues(ExpandPrefix(prefix) + payload)
  {
    hide Checksum, ExpandPrefix, CheckValues;
    var n := |values| - 8;
    assert ExpandPrefix(prefix) + values == (ExpandPrefix(prefix) + values[..n]) + values[n..];
    CheckValuesUnique(ExpandPrefix(prefix) + values[..n], values[n..]);
  }

  lemma LoweredParts(s: string, k: nat)
    requires k < |s| && s[k] == ':'
    ensures Lowered(s) == Lowered(s[..k]) + ":" + Lowered(s[k + 1..])
  {
    var t := Lowered(s[..k]) + ":" + Lowered(s[k + 1..]);
    assert LowerCase(':') == ':';
    hide LowerCase;
    assert |t| == |s|;
    forall i | 0 <= i < |s|
      ensures t[i] == Lowered(s)[i]
    {
      if i > k { assert s[k + 1..][i - k - 1] == s[i]; }
    }
  }

  lemma SpelledLowered(body: string)
    requires InCharset(body)
    ensures Spelled(ValuesOf(body)) == Lowered(body)
  {
    hide CharsetRev, Charset;
    forall i | 0 <= i < |body|
      ensures Spelled(ValuesOf(body))[i] == LowerCase(body[i])
    {
      CharsetForth(body[i]);
    }
  }

  // ----- the loops

  method Encode(prefix: string, payload: seq<five>) returns (ret: string)
    ensures ret == Encoded(prefix, payload)
  {
    hide Charset, ExpandPrefix, CheckValues, Checksum;
    var checksum := CreateChecksum(ExpandPrefix(prefix) + payload);
    var combined := payload + checksum;
    ret := prefix + ":";
    for i := 0 to |combined|
      invariant ret == prefix + ":" + Spelled(combined[..i])
    {
      assert Spelled(combined[..i + 1]) == Spelled(combined[..i]) + [Charset(combined[i])];
      ret := ret + [Charset(combined[i])];
    }
    assert combined[..|combined|] == combined;
  }

  /** The scan has passed the first i characters. */
  ghost predicate Scanned(s: string, i: nat, lower: bool, upper: bool, hasNumber: bool, prefixSize: nat) {
    && i <= |s|
    && lower == HasLower(s[..i]) && upper == HasUpper(s[..i]) && hasNumber == HasDigit(s[..i])
    && if prefixSize == 0 then AllPlain(s[..i])
       else prefixSize < i && s[prefixSize] == ':' && AllPlain(s[..prefixSize]) && !HasDigit(s[..prefixSize])
            && AllPlain(s[prefixSize + 1..i])
  }

  lemma ScanPlain(s: string, i: nat, lower: bool, upper: bool, hasNumber: bool, prefixSize: nat)
    requires i < |s| && Scanned(s, i, lower, upper, hasNumber, prefixSize) && Plain(s[i])
    ensures Scanned(s, i + 1, lower || IsLower(s[i]), upper || IsUpper(s[i]), hasNumber || IsDigit(s[i]), prefixSize)
  {
    assert s[..i + 1] == s[..i] + [s[i]];
    if prefixSize > 0 { assert s[prefixSize + 1..i + 1] == s[prefixSize + 1..i] + [s[i]]; }
    Extended(s[..i], s[i]);
  }

  lemma Extended(t: string, c: char)
    ensures HasLower(t + [c]) == (HasLower(t) || IsLower(c))
    ensures HasUpper(t + [c]) == (HasUpper(t) || IsUpper(c))
    ensures HasDigit(t + [c]) == (HasDigit(t) || IsDigit(c))
  {
    var u := t + [c];
    assert forall i | 0 <= i < |t| :: u[i] == t[i];
    assert u[|t|] == c;
  }

  lemma ScanColon(s: string, i: nat, lower: bool, upper: bool, hasNumber: bool)
    requires 0 < i < |s| && Scanned(s, i, lower, upper, hasNumber, 0) && !hasNumber && s[i] == ':'
    ensures Scanned(s, i + 1, lower, upper, hasNumber, i)
  {
    assert s[..i + 1] == s[..i] + [s[i]];
    Extended(s[..i], s[i]);
    assert s[i + 1..i + 1] == [];
  }

  /** A character that stops the scan makes the string ill-formed. */
  lemma ScanStops(s: string, i: nat, lower: bool, upper: bool, hasNumber: bool, prefixSize: nat)
    requires i < |s| && Scanned(s, i, lower, upper, hasNumber, prefixSize) && !Plain(s[i])
    requires s[i] == ':' ==> hasNumber || i == 0 || prefixSize != 0
    ensures !WellFormed(s)
  {
    var k := ColonAt(s);
    if prefixSize != 0 {
      ColonIsAfter(s, i, prefixSize);
      assert s[k + 1..][i - k - 1] == s[i];
    } else {
      PlainHasNoColon(s, i);
      if k > i {
        assert s[..k][i] == s[i];
      } else {
        assert k == i;
      }
    }
  }

  lemma ColonIsAfter(s: string, i: nat, p: nat)
    requires 0 < p < i <= |s| && s[p] == ':' && AllPlain(s[..p])
    ensures ColonAt(s) == p
  {
    PlainHasNoColon(s, p);
    ColonIs(s, p);
  }

  lemma PlainHasNoColon(s: string, i: nat)
    requires i <= |s| && AllPlain(s[..i])
    ensures ColonAt(s) >= i && forall j | 0 <= j < i :: s[j] != ':'
  {
    forall j | 0 <= j < i
      ensures s[j] != ':'
    {
      assert Plain(s[..i][j]);
    }
  }

  lemma ScanDone(s: string, lower: bool, upper: bool, hasNumber: bool, prefixSize: nat)
    requires Scanned(s, |s|, lower, upper, hasNumber, prefixSize)
    ensures WellFormed(s) <==> !(upper && lower)
    ensures prefixSize == 0 <==> ColonAt(s) == |s|
    ensures prefixSize != 0 ==> ColonAt(s) == prefixSize
  {
    assert s[..|s|] == s;
    if prefixSize != 0 {
      ColonIsAfter(s, |s|, prefixSize);
    } else {
      PlainHasNoColon(s, |s|);
    }
  }

  method Scan(s: string) returns (ok: bool, prefixSize: nat)
    ensures ok == WellFormed(s)
    ensures ok ==> prefixSize == if ColonAt(s) == |s| then 0 else ColonAt(s)
  {
    hide Scanned, WellFormed, ColonAt;
    var lower, upper, hasNumber := false, false, false;
    prefixSize := 0;
    var i := 0;
    ScanStart(s);
    while i < |s|
      invariant i <= |s| && Scanned(s, i, lower, upper, hasNumber, prefixSize)
    {
      var c := s[i];
      if Plain(c) {
        ScanPlain(s, i, lower, upper, hasNumber, prefixSize);
        if IsLower(c) {
          lower := true;
        } else if IsUpper(c) {
          upper := true;
        } else {
          hasNumber := true;
        }
      } else {
        if c != ':' || hasNumber || i == 0 || prefixSize != 0 {
          ScanStops(s, i, lower, upper, hasNumber, prefixSize);
          return false, 0;
        }
        ScanColon(s, i, lower, upper, hasNumber);
        prefixSize := i;
      }
      i := i + 1;
    }
    ScanDone(s, lower, upper, hasNumber, prefixSize);
    ok := !(upper && lower);
  }

  lemma ScanStart(s: string)
    ensures Scanned(s, 0, false, false, false, 0)
  {}

  method DecodeValues(body: string) returns (r: Option<seq<five>>)
    ensures r == if InCharset(body) then Some(ValuesOf(body)) else None
  {
    hide CharsetRev;
    var values: seq<five> := [];
    for i := 0 to |body|
      invariant |values| == i && forall j | 0 <= j < i :: CharsetRev(body[j]) == Some(values[j])
    {
      if CharsetRev(body[i]) == None {
        return None;
      }
      values := values + [CharsetRev(body[i]).value];
    }
    assert values == ValuesOf(body);
    r := Some(values);
  }

  method Decode(s: string, defaultPrefix: string) returns (r: Outcome)
    ensures r == Decoded(s, defaultPrefix)
  {
    hide WellFormed, CharsetRev, Charset, InCharset, ExpandPrefix, Checksum, ColonAt;
    var ok, prefixSize := Scan(s);
    if !ok {
      return Failed;
    }
    var prefix := defaultPrefix;
    if prefixSize != 0 {
      prefix := Lowered(s[..prefixSize]);
      prefixSize := prefixSize + 1;
    }
    ColonFirst(s);
    assert s[prefixSize..] == Body(s);
    var values := DecodeValues(s[prefixSize..]);
    if values == None {
      return Failed;
    }
    var mod := PolyMod(ExpandPrefix(prefix) + values.value);
    if mod != 0 {
      return Failed;
    }
    if |values.value| < 8 {
      return TooShort;
    }
    r := Parsed(prefix, values.value[..|values.value| - 8]);
  }

  lemma ColonFirst(s: string)
    ensures WellFormed(s) && ColonAt(s) < |s| ==> ColonAt(s) > 0
  {}
}
