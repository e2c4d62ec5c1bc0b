/** When the checksum holds of an address with fewer than the eight check values the decoder cuts off. */
module CashPrefixes {
  import opened CashChecksum
  import opened CashAddr

  /** What a suffix adds to the register does not depend on what came before. */
  lemma SuffixAlone(v: seq<five>, u: seq<five>)
    ensures Register(1, v + u) == Xor(Register(1, v + Zeros(|u|)), Register(0, u))
  {
    hide Register, Xor;
    RegisterLinear(1, 0, v + Zeros(|u|), Zeros(|v|) + u);
    DifferenceFromZeros(v, u);
    XorZero(1);
    RegisterAppend(0, Zeros(|v|), u);
    RegisterZeros(0, |v|);
  }

  lemma XorToOne(r: word, s: word)
    ensures Xor(Xor(r, s), 1) == 0 <==> Xor(r, 1) == s
  {
    hide Xor;
    XorMove(r, 1, s);
    XorDistinct(Xor(r, 1), s);
  }

  /** The last m of the eight groups hold all of a word below 32 to the m. */
  lemma LastGroups(c: word, m: nat)
    requires m <= 7 && c < Room(m)
    ensures Register(0, Groups(c)[8 - m..]) == c
  {
    hide Register, Groups, Top, Room;
    var g := Groups(c);
    GroupsFill(c, 8 - m);
    GroupsFill(c, 8);
    TopAll(c);
    NothingOnTop(c, m, m);
    assert g[..8] == g == g[..8 - m] + g[8 - m..];
    RegisterAppend(0, g[..8 - m], g[8 - m..]);
  }

  lemma {:induction false} NothingOnTop(c: word, m: nat, j: nat)
    requires j <= m <= 7 && c < Room(m)
    ensures Top(c, 8 - j) < Room(m - j)
    ensures j == m ==> Top(c, 8 - j) == 0
  {
    hide Top, Drop;
    if j == 0 {
      TopAll(c);
    } else {
      NothingOnTop(c, m, j - 1);
      TopStep(c, 8 - j);
      Shrinks(Top(c, 8 - (j - 1)), m - j);
    }
  }

  predicate Completes(v: seq<five>, u: seq<five>, m: nat) { |u| == m && Checksum(v + u) == 0 }

  /** A sequence can be completed by m values to one with checksum zero exactly when its checksum over m
      zeros is below 32 to the m. */
  lemma CompletedBy(v: seq<five>, m: nat)
    requires m <= 7
    ensures (exists u :: Completes(v, u, m)) <==> FitsIn(Checksum(v + Zeros(m)), m)
  {
    hide Completes, FitsIn;
    if u :| Completes(v, u, m) { OnlyIfFits(v, u, m); }
    if FitsIn(Checksum(v + Zeros(m)), m) {
      var u := IfFits(v, m);
    }
  }

  lemma OnlyIfFits(v: seq<five>, u: seq<five>, m: nat)
    requires m <= 7 && Completes(v, u, m)
    ensures FitsIn(Checksum(v + Zeros(m)), m)
  {
    hide Checksum, Room, Register;
    CompletesWhen(v, u);
    ShortSequence(u);
  }

  lemma IfFits(v: seq<five>, m: nat) returns (u: seq<five>)
    requires m <= 7 && FitsIn(Checksum(v + Zeros(m)), m)
    ensures Completes(v, u, m)
  {
    hide Checksum, Room, Register, Groups;
    var c := Checksum(v + Zeros(m));
    LastGroups(c, m);
    u := Groups(c)[8 - m..];
    CompletesWhen(v, u);
  }

  lemma CompletesWhen(v: seq<five>, u: seq<five>)
    ensures Checksum(v + u) == 0 <==> Register(0, u) == Checksum(v + Zeros(|u|))
  {
    hide Register, Xor;
    SuffixAlone(v, u);
    XorToOne(Register(1, v + Zeros(|u|)), Register(0, u));
  }

  // ----- which strings have no defined result

  /** The prefix alone decides whether any string of fewer than eight values passes the checksum. */
  predicate Open(prefix: string) {
    exists m: nat | m <= 7 :: FitsIn(Checksum(ExpandPrefix(prefix) + Zeros(m)), m)
  }

  /** The strings without a defined result, and why there are none with a prefix that is not open. */
  lemma DefinedUnlessOpen(s: string, defaultPrefix: string)
    ensures Decoded(s, defaultPrefix) == TooShort <==>
              && WellFormed(s) && InCharset(Body(s)) && |Body(s)| < 8
              && VerifyChecksum(Prefix(s, defaultPrefix), ValuesOf(Body(s)))
    ensures Decoded(s, defaultPrefix) == TooShort ==> Open(Prefix(s, defaultPrefix))
  {
    hide WellFormed, InCharset, Checksum, FitsIn, ExpandPrefix;
    if Decoded(s, defaultPrefix) == TooShort {
      var u := ValuesOf(Body(s));
      OnlyIfFits(ExpandPrefix(Prefix(s, defaultPrefix)), u, |u|);
    }
  }

  /** With an open prefix some string has no defined result. */
  lemma UndefinedIfOpen(prefix: string, defaultPrefix: string) returns (s: string)
    requires LowerLetters(prefix) && Open(prefix)
    ensures Decoded(s, defaultPrefix) == TooShort && Prefix(s, defaultPrefix) == prefix
  {
    hide WellFormed, InCharset, Checksum, FitsIn, ExpandPrefix, Decoded, Joined, Prefix;
    var m: nat :| m <= 7 && FitsIn(Checksum(ExpandPrefix(prefix) + Zeros(m)), m);
    var u := IfFits(ExpandPrefix(prefix), m);
    s := Joined(prefix, u);
    JoinedDecodes(prefix, u, defaultPrefix);
    JoinedPrefix(prefix, u, defaultPrefix);
  }

  lemma JoinedPrefix(prefix: string, values: seq<five>, defaultPrefix: string)
    requires LowerLetters(prefix)
    ensures Prefix(Joined(prefix, values), defaultPrefix) == prefix
  {
    hide ColonAt;
    var s := Joined(prefix, values);
    ColonIs(s, |prefix|);
    assert s[..|prefix|] == prefix;
    assert Lowered(prefix) == prefix;
  }

  // ----- particular prefixes

  /** One more value fed into the register. */
  lemma Next(v: seq<five>, k: nat, c: word, r: word)
    requires k < |v| && Register(1, v[..k]) == c && Feed(c, v[k]) == r
    ensures Register(1, v[..k + 1]) == r
  {
    hide Feed;
    assert v[..k + 1][..k] == v[..k];
  }

  lemma Start(v: seq<five>)
    ensures Register(1, v[..0]) == 1
  {}

  lemma AnutbtunaValues()
    ensures ExpandPrefix("anutbtuna") == [1, 14, 21, 20, 2, 20, 21, 14, 1, 0]
  {}

  lemma AnutbtunaFirst3()
    ensures |ExpandPrefix("anutbtuna")| == 10
    ensures Register(1, ExpandPrefix("anutbtuna")[..3]) == 0x85d5
  {
    hide Register, ExpandPrefix;
    AnutbtunaValues();
    var v := ExpandPrefix("anutbtuna");
    Start(v);
    Next(v, 0, 0x1, 0x21);
    Next(v, 1, 0x21, 0x42e);
    Next(v, 2, 0x42e, 0x85d5);
  }

  lemma AnutbtunaRegister()
    ensures Register(1, ExpandPrefix("anutbtuna")) == 0x1
  {
    hide Register, ExpandPrefix;
    AnutbtunaValues();
    var v := ExpandPrefix("anutbtuna");
    AnutbtunaFirst3();
    Next(v, 3, 0x85d5, 0x10bab4);
    Next(v, 4, 0x10bab4, 0x2175682);
    Next(v, 5, 0x2175682, 0x42ead054);
    Next(v, 6, 0x42ead054, 0x85d5a0a95);
    Next(v, 7, 0x85d5a0a95, 0x9359fddccf);
    Next(v, 8, 0x9359fddccf, 0xcc795e473);
    Next(v, 9, 0xcc795e473, 0x1);
    assert v[..10] == v;
  }

  /** This string passes the checksum with no value at all. */
  lemma UndefinedString(defaultPrefix: string)
    ensures Decoded("anutbtuna:", defaultPrefix) == TooShort
  {
    hide Register, CharsetRev, Charset, ExpandPrefix;
    AnutbtunaRegister();
    var none: seq<five> := [];
    assert Joined("anutbtuna", none) == "anutbtuna:";
    assert ExpandPrefix("anutbtuna") + none == ExpandPrefix("anutbtuna");
    JoinedDecodes("anutbtuna", none, defaultPrefix);
  }

  lemma BitcoincashValues()
    ensures ExpandPrefix("bitcoincash") == [2, 9, 20, 3, 15, 9, 14, 3, 1, 19, 8, 0]
  {}

  lemma BitcoincashFirst3()
    ensures |ExpandPrefix("bitcoincash")| == 12
    ensures Register(1, ExpandPrefix("bitcoincash")[..3]) == 0x8934
  {
    hide Register, ExpandPrefix;
    BitcoincashValues();
    var v := ExpandPrefix("bitcoincash");
    Start(v);
    Next(v, 0, 0x1, 0x22);
    Next(v, 1, 0x22, 0x449);
    Next(v, 2, 0x449, 0x8934);
  }

  lemma BitcoincashFirst8()
    ensures |ExpandPrefix("bitcoincash")| == 12
    ensures Register(1, ExpandPrefix("bitcoincash")[..8]) == 0x8a9a8b2ba2
  {
    hide Register, ExpandPrefix;
    BitcoincashValues();
    var v := ExpandPrefix("bitcoincash");
    BitcoincashFirst3();
    Next(v, 3, 0x8934, 0x112683);
    Next(v, 4, 0x112683, 0x224d06f);
    Next(v, 5, 0x224d06f, 0x449a0de9);
    Next(v, 6, 0x449a0de9, 0x89341bd2e);
    Next(v, 7, 0x89341bd2e, 0x8a9a8b2ba2);
  }

  lemma BitcoincashRegister()
    ensures Register(1, ExpandPrefix("bitcoincash")) == 0xf669cd6d15
  {
    hide Register, ExpandPrefix;
    BitcoincashValues();
    var v := ExpandPrefix("bitcoincash");
    BitcoincashFirst8();
    Next(v, 8, 0x8a9a8b2ba2, 0xd5ec9a1e50);
    Next(v, 9, 0xd5ec9a1e50, 0x7445c65529);
    Next(v, 10, 0x7445c65529, 0xac1f536da6);
    Next(v, 11, 0xac1f536da6, 0xf669cd6d15);
    assert v[..12] == v;
  }

  lemma BitcoincashClosed()
    ensures !Open("bitcoincash")
  {
    hide Register, ExpandPrefix;
    BitcoincashRegister();
    var v := ExpandPrefix("bitcoincash") + Zeros(7);
    var n := |ExpandPrefix("bitcoincash")|;
    assert v[..n] == ExpandPrefix("bitcoincash");
    Next(v, n + 0, 0xf669cd6d15, 0xf7d1778e5e);
    Next(v, n + 1, 0xf7d1778e5e, 0xc0c62be73e);
    Next(v, n + 2, 0xc0c62be73e, 0xa8a494e118);
    Next(v, n + 3, 0xa8a494e118, 0x61113cfad5);
    Next(v, n + 4, 0x61113cfad5, 0x7f376b0bcc);
    Next(v, n + 5, 0x7f376b0bcc, 0x5ab8443f6f);
    Next(v, n + 6, 0x5ab8443f6f, 0x1863fd18cb);
    forall m: nat | m <= 7
      ensures !FitsIn(Checksum(ExpandPrefix("bitcoincash") + Zeros(m)), m)
    {
      assert ExpandPrefix("bitcoincash") + Zeros(m) == v[..n + m];
    }
  }

  lemma BchtestValues()
    ensures ExpandPrefix("bchtest") == [2, 3, 8, 20, 5, 19, 20, 0]
  {}

  lemma BchtestFirst3()
    ensures |ExpandPrefix("bchtest")| == 8
    ensures Register(1, ExpandPrefix("bchtest")[..3]) == 0x8868
  {
    hide Register, ExpandPrefix;
    BchtestValues();
    var v := ExpandPrefix("bchtest");
    Start(v);
    Next(v, 0, 0x1, 0x22);
    Next(v, 1, 0x22, 0x443);
    Next(v, 2, 0x443, 0x8868);
  }

  lemma BchtestRegister()
    ensures Register(1, ExpandPrefix("bchtest")) == 0x8823fe40e1
  {
    hide Register, ExpandPrefix;
    BchtestValues();
    var v := ExpandPrefix("bchtest");
    BchtestFirst3();
    Next(v, 3, 0x8868, 0x110d14);
    Next(v, 4, 0x110d14, 0x221a285);
    Next(v, 5, 0x221a285, 0x443450b3);
    Next(v, 6, 0x443450b3, 0x8868a1674);
    Next(v, 7, 0x8868a1674, 0x8823fe40e1);
    assert v[..8] == v;
  }

  lemma BchtestClosed()
    ensures !Open("bchtest")
  {
    hide Register, ExpandPrefix;
    BchtestRegister();
    var v := ExpandPrefix("bchtest") + Zeros(7);
    var n := |ExpandPrefix("bchtest")|;
    assert v[..n] == ExpandPrefix("bchtest");
    Next(v, n + 0, 0x8823fe40e1, 0x82c2377631);
    Next(v, n + 1, 0x82c2377631, 0x4609ad2250);
    Next(v, n + 2, 0x4609ad2250, 0x6f1b0fa8a8);
    Next(v, n + 3, 0x6f1b0fa8a8, 0x2683bdca0d);
    Next(v, n + 4, 0x2683bdca0d, 0x2349e6f264);
    Next(v, n + 5, 0x2349e6f264, 0x9a0281ff44);
    Next(v, n + 6, 0x9a0281ff44, 0xbf5aad1b73);
    forall m: nat | m <= 7
      ensures !FitsIn(Checksum(ExpandPrefix("bchtest") + Zeros(m)), m)
    {
      assert ExpandPrefix("bchtest") + Zeros(m) == v[..n + m];
    }
  }

  lemma BchregValues()
    ensures ExpandPrefix("bchreg") == [2, 3, 8, 18, 5, 7, 0]
  {}

  lemma BchregFirst3()
    ensures |ExpandPrefix("bchreg")| == 7
    ensures Register(1, ExpandPrefix("bchreg")[..3]) == 0x8868
  {
    hide Register, ExpandPrefix;
    BchregValues();
    var v := ExpandPrefix("bchreg");
    Start(v);
    Next(v, 0, 0x1, 0x22);
    Next(v, 1, 0x22, 0x443);
    Next(v, 2, 0x443, 0x8868);
  }

  lemma BchregRegister()
    ensures Register(1, ExpandPrefix("bchreg")) == 0x8868914e0
  {
    hide Register, ExpandPrefix;
    BchregValues();
    var v := ExpandPrefix("bchreg");
    BchregFirst3();
    Next(v, 3, 0x8868, 0x110d12);
    Next(v, 4, 0x110d12, 0x221a245);
    Next(v, 5, 0x221a245, 0x443448a7);
    Next(v, 6, 0x443448a7, 0x8868914e0);
    assert v[..7] == v;
  }

  lemma BchregClosed()
    ensures !Open("bchreg")
  {
    hide Register, ExpandPrefix;
    BchregRegister();
    var v := ExpandPrefix("bchreg") + Zeros(7);
    var n := |ExpandPrefix("bchreg")|;
    assert v[..n] == ExpandPrefix("bchreg");
    Next(v, n + 0, 0x8868914e0, 0x88239e1261);
    Next(v, n + 1, 0x88239e1261, 0x82ce3d2631);
    Next(v, n + 2, 0x82ce3d2631, 0x4788e72250);
    Next(v, n + 3, 0x4788e72250, 0x5f324fa8a8);
    Next(v, n + 4, 0x5f324fa8a8, 0xa9228fe02b);
    Next(v, n + 5, 0xa9228fe02b, 0x51d25cdcb5);
    Next(v, n + 6, 0x51d25cdcb5, 0xedd25dedea);
    forall m: nat | m <= 7
      ensures !FitsIn(Checksum(ExpandPrefix("bchreg") + Zeros(m)), m)
    {
      assert ExpandPrefix("bchreg") + Zeros(m) == v[..n + m];
    }
  }

  /** With the prefix of any of the three networks, given or by default, every string has a defined
      result. */
  lemma NetworksDefined(s: string, defaultPrefix: string)
    requires Prefix(s, defaultPrefix) in {"bitcoincash", "bchtest", "bchreg"}
    ensures Decoded(s, defaultPrefix) != TooShort
  {
    hide Decoded, Prefix, Open, WellFormed, InCharset, VerifyChecksum, Body;
    BitcoincashClosed();
    BchtestClosed();
    BchregClosed();
    DefinedUnlessOpen(s, defaultPrefix);
  }
}
