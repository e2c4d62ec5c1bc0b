/** How many flag bits and hashes a partial Merkle tree has, and how large its encoded form is. */
module MerkleSizes {
  import opened Prelude
  import opened Merkle
  import CompactSize
  import Limbs

  // ----- nodes with one child

  /** Some transaction below the last node at a height is matched. */
  ghost predicate LastMatched(match_: seq<bool>, height: nat)
    requires match_ != []
  {
    Last(|match_|, height);
    AnyMatch(match_, Lo(height, Width(|match_|, height) - 1), |match_|)
  }

  lemma Last(n: nat, height: nat)
    requires n > 0
    ensures Width(n, height) > 0
    ensures var last := Width(n, height) - 1; Lo(height, last) < Hi(n, height, last) == n
  {
    InWidth(n, height, 0);
    var last := Width(n, height) - 1;
    RangeOk(n, height, last);
    InWidth(n, height, last + 1);
  }

  /** The number of heights, up to the given one, at which the last node has one child and a match. */
  ghost function Singles(match_: seq<bool>, height: nat): nat
    requires match_ != []
  {
    if height == 0 then 0
    else Singles(match_, height - 1)
         + (if Width(|match_|, height - 1) % 2 == 1 && LastMatched(match_, height) then 1 else 0)
  }

  lemma {:induction false} SinglesBound(match_: seq<bool>, height: nat)
    requires match_ != []
    ensures Singles(match_, height) <= height
  {
    if height > 0 { SinglesBound(match_, height - 1); }
  }

  /** Nothing matched below the last node: nothing matched below the last nodes further down. */
  lemma {:induction false} SinglesNone(match_: seq<bool>, height: nat)
    requires match_ != [] && !LastMatched(match_, height)
    ensures Singles(match_, height) == 0
  {
    if height > 0 {
      var n := |match_|;
      LastChild(n, height);
      Last(n, height);
      Last(n, height - 1);
      Children(n, height, Width(n, height) - 1);
      hide Width, Lo, Hi;
      SinglesNone(match_, height - 1);
    }
  }

  /** The last node's last child is the last node below; it is the only child exactly when their number is odd. */
  lemma LastChild(n: nat, height: nat)
    requires n > 0 && height > 0
    ensures Width(n, height) > 0
    ensures var last := Width(n, height) - 1; var below := Width(n, height - 1);
            if below % 2 == 1 then below == 2 * last + 1 else below == 2 * last + 2
    ensures var last := Width(n, height) - 1; Lo(height, last) <= Lo(height - 1, Width(n, height - 1) - 1)
  {
    hide Width, Pow2, Lo, Hi;
    Last(n, height);
    var last := Width(n, height) - 1;
    Children(n, height, last);
    NoThirdChild(n, height, last);
    RangeOk(n, height - 1, 2 * last);
  }

  lemma NoThirdChild(n: nat, height: nat, last: nat)
    requires height > 0 && last + 1 >= Width(n, height)
    ensures 2 * last + 2 >= Width(n, height - 1)
  {
    InWidth(n, height, last + 1);
    InWidth(n, height - 1, 2 * last + 2);
    DoublePower(height);
    hide Width, Pow2;
    Halves(last, Pow2(height - 1));
  }

  lemma DoublePower(height: nat)
    requires height > 0
    ensures Pow2(height) == 2 * Pow2(height - 1)
  {}

  /** The single-child nodes among those a node contributes: only the last node of a height has any. */
  ghost function SinglesBelow(match_: seq<bool>, height: nat, pos: nat): nat
    requires match_ != []
  {
    if pos + 1 == Width(|match_|, height) then Singles(match_, height) else 0
  }

  /** Every node contributes one bit, every node without explored children one hash, and every other
      node but those with a single child has two children. */
  lemma {:induction false} CountBelow(f: PairHash, txids: seq<Hash>, match_: seq<bool>, height: nat, pos: nat)
    requires |match_| == |txids| && txids != [] && pos < Width(|txids|, height)
    ensures var (b, h) := Build(f, txids, match_, height, pos);
            |h| > 0 && |b| + 1 == 2 * |h| + SinglesBelow(match_, height, pos)
    decreases height
  {
    hide Width, Pow2, Lo, Hi, AnyMatch, Build, LastMatched;
    var n := |txids|;
    RangeOk(n, height, pos);
    Last(n, height);
    if height == 0 || !AnyMatch(match_, Lo(height, pos), Hi(n, height, pos)) {
      BuildLeaf(f, txids, match_, height, pos);
      if pos + 1 == Width(n, height) && height > 0 { UnmatchedLast(match_, height); }
    } else {
      Children(n, height, pos);
      InnerSteps(f, txids, match_, [], [], height, pos, Walk(0, 0, [], false));
      CountBelow(f, txids, match_, height - 1, 2 * pos);
      if 2 * pos + 1 < Width(n, height - 1) { CountBelow(f, txids, match_, height - 1, 2 * pos + 1); }
      SinglesSplit(match_, height, pos);
    }
  }

  lemma UnmatchedLast(match_: seq<bool>, height: nat)
    requires match_ != [] && Width(|match_|, height) > 0
    requires var last := Width(|match_|, height) - 1;
             Lo(height, last) < Hi(|match_|, height, last) <= |match_|
               && !AnyMatch(match_, Lo(height, last), Hi(|match_|, height, last))
    ensures Singles(match_, height) == 0
  {
    hide Width, Pow2, Lo, Hi, AnyMatch;
    Last(|match_|, height);
    SinglesNone(match_, height);
  }

  lemma SinglesSplit(match_: seq<bool>, height: nat, pos: nat)
    requires match_ != [] && height > 0 && pos < Width(|match_|, height)
             && Lo(height, pos) < Hi(|match_|, height, pos) <= |match_|
    requires AnyMatch(match_, Lo(height, pos), Hi(|match_|, height, pos))
    ensures SinglesBelow(match_, height, pos)
            == if 2 * pos + 1 < Width(|match_|, height - 1)
               then SinglesBelow(match_, height - 1, 2 * pos) + SinglesBelow(match_, height - 1, 2 * pos + 1)
               else 1 + SinglesBelow(match_, height - 1, 2 * pos)
  {
    hide Width, Pow2, Lo, Hi, AnyMatch;
    Last(|match_|, height);
    LastChild(|match_|, height);
  }

  /** The exact number of flag bits. */
  lemma FlagCount(f: PairHash, txids: seq<Hash>, match_: seq<bool>)
    requires txids != [] && |match_| == |txids|
    ensures var t := BuildTree(f, txids, match_);
            |t.vHash| > 0 && |t.vBits| + 1 == 2 * |t.vHash| + Singles(match_, RootHeight(|txids|, 0))
  {
    hide Width, Build, Singles;
    CountBelow(f, txids, match_, RootHeight(|txids|, 0), 0);
  }

  /** So there are at most 2N - 1 exactly when no node with a match below has a single child. */
  lemma FlagBoundExact(f: PairHash, txids: seq<Hash>, match_: seq<bool>)
    requires txids != [] && |match_| == |txids|
    ensures var t := BuildTree(f, txids, match_);
            |t.vBits| <= 2 * |t.vHash| - 1 <==> Singles(match_, RootHeight(|txids|, 0)) == 0
  {
    hide BuildTree, Singles;
    FlagCount(f, txids, match_);
  }

  // ----- the hashes

  /** The number of hashes, from the matches alone: one for a leaf or an unmatched node, otherwise those of
      the children. */
  ghost function Hashes(match_: seq<bool>, height: nat, pos: nat): nat
    requires pos < Width(|match_|, height)
    decreases height
  {
    RangeOk(|match_|, height, pos);
    if height == 0 || !AnyMatch(match_, Lo(height, pos), Hi(|match_|, height, pos)) then 1
    else
      Children(|match_|, height, pos);
      Hashes(match_, height - 1, 2 * pos)
      + (if 2 * pos + 1 < Width(|match_|, height - 1) then Hashes(match_, height - 1, 2 * pos + 1) else 0)
  }

  lemma {:induction false} HashesBelow(f: PairHash, txids: seq<Hash>, match_: seq<bool>, height: nat, pos: nat)
    requires |match_| == |txids| && pos < Width(|txids|, height)
    ensures |Build(f, txids, match_, height, pos).1| == Hashes(match_, height, pos)
    decreases height
  {
    hide Width, Pow2, Lo, Hi, AnyMatch, Build;
    var n := |txids|;
    RangeOk(n, height, pos);
    if height == 0 || !AnyMatch(match_, Lo(height, pos), Hi(n, height, pos)) {
      BuildLeaf(f, txids, match_, height, pos);
    } else {
      Children(n, height, pos);
      InnerSteps(f, txids, match_, [], [], height, pos, Walk(0, 0, [], false));
      HashesBelow(f, txids, match_, height - 1, 2 * pos);
      if 2 * pos + 1 < Width(n, height - 1) { HashesBelow(f, txids, match_, height - 1, 2 * pos + 1); }
    }
  }

  ghost function AllHashes(match_: seq<bool>): nat
    requires match_ != []
  {
    Hashes(match_, RootHeight(|match_|, 0), 0)
  }

  lemma HashCount(f: PairHash, txids: seq<Hash>, match_: seq<bool>)
    requires txids != [] && |match_| == |txids|
    ensures |BuildTree(f, txids, match_).vHash| == AllHashes(match_)
  {
    hide Width, Build, Hashes;
    HashesBelow(f, txids, match_, RootHeight(|txids|, 0), 0);
  }

  /** With every transaction matched there is one hash per leaf. */
  lemma {:induction false} HashesOfAll(match_: seq<bool>, height: nat, pos: nat)
    requires pos < Width(|match_|, height) && forall p | 0 <= p < |match_| :: match_[p]
    ensures Hashes(match_, height, pos) == Hi(|match_|, height, pos) - Lo(height, pos)
    decreases height
  {
    hide Width, Pow2, Lo, Hi;
    var n := |match_|;
    RangeOk(n, height, pos);
    assert match_[Lo(height, pos)];
    if height == 0 {
      LeafRange(n, pos);
    } else {
      Children(n, height, pos);
      HashesOfAll(match_, height - 1, 2 * pos);
      if 2 * pos + 1 < Width(n, height - 1) { HashesOfAll(match_, height - 1, 2 * pos + 1); }
    }
  }

  // ----- the encoded form

  /** The count, the hashes and the flag bytes, the last two after their number in compact form. */
  function EncodedSize(t: PartialTree): nat
    requires |t.vHash| < CompactSize.TWO64 && (|t.vBits| + 7) / 8 < CompactSize.TWO64
  {
    var bytes := (|t.vBits| + 7) / 8;
    4 + SizeOfNumber(|t.vHash|) + 32 * |t.vHash| + SizeOfNumber(bytes) + bytes
  }

  function SizeOfNumber(n: nat): nat
    requires n < CompactSize.TWO64
  {
    |CompactSize.Write(n)|
  }

  lemma NumberSizes(n: nat)
    requires n < CompactSize.TWO64
    ensures SizeOfNumber(n) == if n < 253 then 1 else if n <= 0xFFFF then 3 else if n <= 0xFFFF_FFFF then 5 else 9
  {}

  /** 10 + ceil(32.25 * N) for N hashes, as the format promises. */
  function Promised(hashes: nat): nat { 10 + (129 * hashes + 3) / 4 }

  /** The flag bytes of a tree with N hashes and k matched nodes with a single child. */
  function FlagBytes(hashes: nat, k: nat): nat
    requires hashes > 0
  {
    (2 * hashes - 1 + k + 7) / 8
  }

  /** How many matched nodes with a single child a tree of that many hashes may have: the flag bytes are
      rounded up by more when the number of hashes is no multiple of four, and two bytes are free as long
      as their own number takes one byte. */
  function Allowance(hashes: nat, k: nat): nat
    requires hashes > 0
  {
    (if FlagBytes(hashes, k) < 253 then 17 else 1) + 2 * ((4 - hashes % 4) % 4)
  }

  /** The promise is kept by every tree of fewer than 253 hashes, by none of more than 65535, and in between
      exactly while the matched nodes with a single child are not too many. */
  predicate Keeps(hashes: nat, k: nat)
    requires hashes > 0
  {
    hashes < 253 || (hashes <= 0xFFFF && k <= Allowance(hashes, k))
  }

  lemma PromiseExact(f: PairHash, txids: seq<Hash>, match_: seq<bool>)
    requires txids != [] && |match_| == |txids| < 0x1_0000_0000
    ensures var t := BuildTree(f, txids, match_);
            var k := Singles(match_, RootHeight(|match_|, 0));
            && 0 < AllHashes(match_) == |t.vHash| < CompactSize.TWO64 && (|t.vBits| + 7) / 8 < CompactSize.TWO64
            && (EncodedSize(t) <= Promised(|t.vHash|) <==> Keeps(AllHashes(match_), k))
  {
    hide Singles, BuildTree, SizeOfNumber, RootHeight, AllHashes, Keeps;
    HashCount(f, txids, match_);
    TreeNumbers(f, txids, match_);
    RoomExact(AllHashes(match_), Singles(match_, RootHeight(|match_|, 0)));
  }

  lemma RoomExact(hashes: nat, k: nat)
    requires 0 < hashes < 0x1_0000_0000 && k <= 32
    ensures FlagBytes(hashes, k) < CompactSize.TWO64
    ensures SizeOfNumber(hashes) + SizeOfNumber(FlagBytes(hashes, k)) + FlagBytes(hashes, k) <= 6 + (hashes + 3) / 4
            <==> Keeps(hashes, k)
  {
    hide SizeOfNumber;
    NumberSizes(hashes);
    NumberSizes(FlagBytes(hashes, k));
    var q, r := hashes / 4, hashes % 4;
    assert hashes == 4 * q + r;
  }

  /** For the blocks that can be extracted at all, the flag bytes decide. */
  lemma PromiseOfExtractable(f: PairHash, txids: seq<Hash>, match_: seq<bool>)
    requires txids != [] && |match_| == |txids| <= MAX_BLOCK_SIZE / 60
    ensures var t := BuildTree(f, txids, match_);
            var n, k := AllHashes(match_), Singles(match_, RootHeight(|match_|, 0));
            && 0 < n == |t.vHash| < CompactSize.TWO64 && (|t.vBits| + 7) / 8 < CompactSize.TWO64
            && (EncodedSize(t) <= Promised(|t.vHash|) <==>
                FlagBytes(n, k) < 253 || k <= 1 + 2 * ((4 - n % 4) % 4))
  {
    hide Singles, BuildTree, RootHeight, AllHashes, EncodedSize, Promised;
    HashCount(f, txids, match_);
    TreeNumbers(f, txids, match_);
    PromiseExact(f, txids, match_);
    assert Pow2(15) == 0x8000 by { assert Pow2(8) == 256; }
    RootAtMost(|txids|, 15);
  }

  lemma TreeNumbers(f: PairHash, txids: seq<Hash>, match_: seq<bool>)
    requires txids != [] && |match_| == |txids| < 0x1_0000_0000
    ensures var t := BuildTree(f, txids, match_); var k := Singles(match_, RootHeight(|txids|, 0));
            0 < |t.vHash| <= |txids| && |t.vBits| + 1 == 2 * |t.vHash| + k && k <= RootHeight(|txids|, 0) <= 32
  {
    hide Singles, Build, Selected, Width, RootHeight;
    FlagCount(f, txids, match_);
    SizeBounds(f, txids, match_);
    SinglesBound(match_, RootHeight(|txids|, 0));
    Limbs.Pow2Of32();
    RootAtMost(|txids|, 32);
  }

  /** Below the root height there is more than one node, so more than half a tree of leaves. */
  lemma {:induction false} RootNotTooHigh(n: nat, h: nat)
    requires n > 0
    ensures RootHeight(n, h) > h ==> Pow2(RootHeight(n, h) - 1) < n
    decreases n - Pow2(h)
  {
    InWidth(n, h, 0);
    InWidth(n, h, 1);
    if Width(n, h) > 1 {
      hide Width;
      RootNotTooHigh(n, h + 1);
    }
  }

  lemma RootAtMost(n: nat, bits: nat)
    requires 0 < n <= Pow2(bits)
    ensures RootHeight(n, 0) <= bits
  {
    hide RootHeight;
    RootNotTooHigh(n, 0);
    if RootHeight(n, 0) > bits { Limbs.Pow2Mono(bits, RootHeight(n, 0) - 1); }
  }

  /** In particular by every tree of fewer than 253 hashes. */
  lemma PromiseKeptWhenSmall(f: PairHash, txids: seq<Hash>, match_: seq<bool>)
    requires txids != [] && |match_| == |txids| < 0x1_0000_0000 && AllHashes(match_) < 253
    ensures (|BuildTree(f, txids, match_).vBits| + 7) / 8 < CompactSize.TWO64
    ensures |BuildTree(f, txids, match_).vHash| < 253
    ensures EncodedSize(BuildTree(f, txids, match_)) <= Promised(|BuildTree(f, txids, match_).vHash|)
  {
    hide Singles, BuildTree, RootHeight, AllHashes, EncodedSize, Promised;
    PromiseExact(f, txids, match_);
  }

  // ----- three blocks

  lemma WidthHalves(n: nat, height: nat)
    requires n > 0 && height > 0
    ensures Width(n, height) == (Width(n, height - 1) + 1) / 2
  {
    hide Width;
    LastChild(n, height);
  }

  lemma WidthAtLeaves(n: nat)
    ensures Width(n, 0) == n
  {}

  lemma {:induction false} RootIs(n: nat, h: nat, r: nat)
    requires n > 0 && h <= r && Width(n, r) == 1 && forall k: nat | h <= k < r :: Width(n, k) > 1
    ensures RootHeight(n, h) == r
    decreases r - h
  {
    hide Width;
    if h < r { RootIs(n, h + 1, r); }
  }

  lemma Widths3()
    ensures Width(3, 0) == 3 && Width(3, 1) == 2 && Width(3, 2) == 1 && RootHeight(3, 0) == 2
  {
    hide Width;
    WidthAtLeaves(3);
    WidthHalves(3, 1);
    WidthHalves(3, 2);
    RootIs(3, 0, 2);
  }

  lemma Ranges3()
    ensures Lo(0, 2) == 2 && Hi(3, 0, 2) == 3 && Lo(1, 0) == 0 && Hi(3, 1, 0) == 2
    ensures Lo(1, 1) == 2 && Hi(3, 1, 1) == 3 && Lo(2, 0) == 0 && Hi(3, 2, 0) == 3
  {
    assert Pow2(0) == 1 && Pow2(1) == 2 && Pow2(2) == 4;
  }

  /** Three transactions, only the last of them matched: four flag bits for two hashes. */
  lemma FourFlagsForTwoHashes(f: PairHash, txids: seq<Hash>)
    requires |txids| == 3
    ensures var t := BuildTree(f, txids, [false, false, true]);
            t.vBits == [true, false, true, true] && |t.vHash| == 2 && |t.vBits| > 2 * |t.vHash| - 1
  {
    hide Width, Pow2, RootHeight, Lo, Hi, CalcHash;
    var m := [false, false, true];
    Widths3();
    Ranges3();
    assert !m[0] && !m[1] && m[2];
    var last := Build(f, txids, m, 0, 2);
    assert last.0 == [true] && |last.1| == 1;
    var right := Build(f, txids, m, 1, 1);
    assert right.0 == [true, true] && |right.1| == 1;
    var left := Build(f, txids, m, 1, 0);
    assert left.0 == [false] && |left.1| == 1;
  }

  lemma Widths1025()
    ensures Width(1025, 0) == 1025 && Width(1025, 1) == 513 && Width(1025, 2) == 257 && Width(1025, 3) == 129
    ensures Width(1025, 4) == 65 && Width(1025, 5) == 33 && Width(1025, 6) == 17 && Width(1025, 7) == 9
    ensures Width(1025, 8) == 5 && Width(1025, 9) == 3 && Width(1025, 10) == 2 && Width(1025, 11) == 1
  {
    hide Width;
    WidthAtLeaves(1025);
    WidthHalves(1025, 1);
    WidthHalves(1025, 2);
    WidthHalves(1025, 3);
    WidthHalves(1025, 4);
    WidthHalves(1025, 5);
    WidthHalves(1025, 6);
    WidthHalves(1025, 7);
    WidthHalves(1025, 8);
    WidthHalves(1025, 9);
    WidthHalves(1025, 10);
    WidthHalves(1025, 11);
  }

  lemma {:induction false} SinglesAll(match_: seq<bool>, height: nat, odd: nat)
    requires match_ != [] && forall p | 0 <= p < |match_| :: match_[p]
    requires odd <= height && forall h: nat | h < height :: Width(|match_|, h) % 2 == 1 <==> h < odd
    ensures Singles(match_, height) == odd
  {
    if height > 0 {
      Last(|match_|, height);
      assert match_[Lo(height, Width(|match_|, height) - 1)];
      hide Width;
      SinglesAll(match_, height - 1, if odd == height then odd - 1 else odd);
    }
  }

  /** A block of 1025 transactions, all matched, encodes to one byte more than promised. */
  lemma PromiseBroken(f: PairHash, txids: seq<Hash>, match_: seq<bool>)
    requires |txids| == |match_| == 1025 && forall p | 0 <= p < 1025 :: match_[p]
    ensures var t := BuildTree(f, txids, match_);
            && |t.vHash| == 1025 && (|t.vBits| + 7) / 8 < CompactSize.TWO64
            && EncodedSize(t) == Promised(|t.vHash|) + 1
  {
    hide Width, Build, Singles, SizeOfNumber, RootHeight, Lo, Hi, Hashes;
    Widths1025();
    RootIs(1025, 0, 11);
    RootCoversAll(1025);
    HashesOfAll(match_, 11, 0);
    HashCount(f, txids, match_);
    SinglesAll(match_, 11, 10);
    FlagCount(f, txids, match_);
    NumberSizes(1025);
    NumberSizes(258);
  }

  lemma {:induction false} FullWidth(bits: nat, height: nat)
    requires height <= bits
    ensures Width(Pow2(bits), height) == Pow2(bits - height)
  {
    if height == 0 {
      WidthAtLeaves(Pow2(bits));
    } else {
      FullWidth(bits, height - 1);
      WidthHalves(Pow2(bits), height);
      hide Width;
      assert Pow2(bits - (height - 1)) == 2 * Pow2(bits - height);
    }
  }

  /** A full tree has no node with a single child, and still 65536 matched transactions take two bytes more
      than promised: their number alone takes five. */
  lemma PromiseBrokenByCounts(f: PairHash, txids: seq<Hash>, match_: seq<bool>)
    requires |txids| == |match_| == 0x1_0000 && forall p | 0 <= p < 0x1_0000 :: match_[p]
    ensures var t := BuildTree(f, txids, match_);
            && Singles(match_, RootHeight(0x1_0000, 0)) == 0
            && |t.vHash| == 0x1_0000 && (|t.vBits| + 7) / 8 < CompactSize.TWO64
            && EncodedSize(t) == Promised(|t.vHash|) + 2
  {
    hide Width, Build, Singles, SizeOfNumber, RootHeight, Lo, Hi, Hashes;
    var n := 0x1_0000;
    FullRoot(16);
    assert Pow2(16) == n by { assert Pow2(8) == 256; }
    RootCoversAll(n);
    HashesOfAll(match_, 16, 0);
    HashCount(f, txids, match_);
    forall h: nat | h < 16
      ensures Width(n, h) % 2 == 0
    {
      FullWidth(16, h);
      assert Pow2(16 - h) == 2 * Pow2(15 - h);
    }
    SinglesAll(match_, 16, 0);
    FlagCount(f, txids, match_);
    NumberSizes(n);
    NumberSizes(0x4000);
  }

  lemma FullRoot(bits: nat)
    ensures RootHeight(Pow2(bits), 0) == bits && Width(Pow2(bits), bits) == 1
  {
    FullWidth(bits, bits);
    forall k: nat | k < bits
      ensures Width(Pow2(bits), k) > 1
    {
      FullWidth(bits, k);
      assert Pow2(bits - k) == 2 * Pow2(bits - k - 1);
    }
    hide Width;
    RootIs(Pow2(bits), 0, bits);
  }
}
