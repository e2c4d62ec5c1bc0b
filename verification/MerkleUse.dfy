/** What a partial tree that extracts is made of: every hash and every byte of flags is used, and no two sibling
    branches that are walked have the same hash. */
module MerkleUse {
  import opened Prelude
  import opened Merkle

  /** A traversal without failure stays within the bits and hashes, and does not see what follows them. */
  lemma {:induction false} ExtractExtends(f: PairHash, n: nat, vBits: seq<bool>, vHash: seq<Hash>, e: seq<bool>,
                                          h: seq<Hash>, height: nat, pos: nat, w: Walk)
    requires pos < Width(n, height) && !Extract(f, n, vBits, vHash, height, pos, w).0.bad
    ensures Extract(f, n, vBits + e, vHash + h, height, pos, w) == Extract(f, n, vBits, vHash, height, pos, w)
    ensures w.hashes <= |vHash| ==> Extract(f, n, vBits, vHash, height, pos, w).0.hashes <= |vHash|
    decreases height
  {
    hide Width;
    if height > 0 && vBits[w.bits] {
      Children(n, height, pos);
      var w1 := w.(bits := w.bits + 1);
      var wl := Extract(f, n, vBits, vHash, height - 1, 2 * pos, w1).0;
      if 2 * pos + 1 < Width(n, height - 1) {
        ExtractGrows(f, n, vBits, vHash, height - 1, 2 * pos + 1, wl);
        ExtractExtends(f, n, vBits, vHash, e, h, height - 1, 2 * pos, w1);
        ExtractExtends(f, n, vBits, vHash, e, h, height - 1, 2 * pos + 1, wl);
      } else {
        ExtractExtends(f, n, vBits, vHash, e, h, height - 1, 2 * pos, w1);
      }
    }
  }

  /** Trees refused before they are walked give no matches at all. */
  lemma RefusedUnseen(f: PairHash, t: PartialTree)
    requires t.n == 0 || t.n > 16666 || |t.vHash| > t.n || |t.vBits| < |t.vHash|
    ensures ExtractMatches(f, t) == (NULL_HASH, [])
  {}

  /** A tree that extracts is used up: it stops extracting when a hash or a byte of flags is added to it. */
  lemma UsedUp(f: PairHash, t: PartialTree, h: Hash, e: seq<bool>)
    requires ExtractMatches(f, t).0 != NULL_HASH && |e| == 8
    ensures ExtractMatches(f, t.(vHash := t.vHash + [h])).0 == NULL_HASH
    ensures ExtractMatches(f, t.(vBits := t.vBits + e)).0 == NULL_HASH
  {
    hide Width, Extract;
    var r, w := RootHeight(t.n, 0), Walk(0, 0, [], false);
    ExtractExtends(f, t.n, t.vBits, t.vHash, [], [h], r, 0, w);
    ExtractExtends(f, t.n, t.vBits, t.vHash, e, [], r, 0, w);
    assert t.vBits + [] == t.vBits && t.vHash + [] == t.vHash;
  }

  /** A tree that extracts does not survive the loss of a hash or of a byte of flags. */
  lemma NothingMissing(f: PairHash, t: PartialTree, k: nat)
    requires ExtractMatches(f, t).0 != NULL_HASH
    ensures t.vHash != [] && ExtractMatches(f, t.(vHash := t.vHash[..|t.vHash| - 1])).0 == NULL_HASH
    ensures k <= |t.vBits| && (k + 7) / 8 < (|t.vBits| + 7) / 8 ==>
              ExtractMatches(f, t.(vBits := t.vBits[..k])).0 == NULL_HASH
  {
    hide Width, Extract;
    var r, w := RootHeight(t.n, 0), Walk(0, 0, [], false);
    UsesHash(f, t.n, t.vBits, t.vHash, r, 0, w);
    var hs := t.vHash[..|t.vHash| - 1];
    assert hs + [t.vHash[|t.vHash| - 1]] == t.vHash && t.vBits + [] == t.vBits && t.vHash + [] == t.vHash;
    if !Extract(f, t.n, t.vBits, hs, r, 0, w).0.bad {
      ExtractExtends(f, t.n, t.vBits, hs, [], [t.vHash[|t.vHash| - 1]], r, 0, w);
    }
    if k <= |t.vBits| && !Extract(f, t.n, t.vBits[..k], t.vHash, r, 0, w).0.bad {
      assert t.vBits[..k] + t.vBits[k..] == t.vBits;
      ExtractExtends(f, t.n, t.vBits[..k], t.vHash, t.vBits[k..], [], r, 0, w);
    }
  }

  lemma {:induction false} UsesHash(f: PairHash, n: nat, vBits: seq<bool>, vHash: seq<Hash>, height: nat, pos: nat,
                                    w: Walk)
    requires pos < Width(n, height)
    ensures var w' := Extract(f, n, vBits, vHash, height, pos, w).0; w.hashes <= w'.hashes && (!w'.bad ==> vHash != [])
    decreases height
  {
    hide Width;
    if w.bits < |vBits| && height > 0 && vBits[w.bits] {
      Children(n, height, pos);
      var w1 := w.(bits := w.bits + 1);
      UsesHash(f, n, vBits, vHash, height - 1, 2 * pos, w1);
      if 2 * pos + 1 < Width(n, height - 1) {
        UsesHash(f, n, vBits, vHash, height - 1, 2 * pos + 1, Extract(f, n, vBits, vHash, height - 1, 2 * pos, w1).0);
      }
    }
  }

  /** A built tree fails to extract exactly when some node that is walked below has two equal children. */
  lemma ClashMeans(f: PairHash, txids: seq<Hash>, match_: seq<bool>)
    requires txids != [] && |match_| == |txids|
    ensures var r := RootHeight(|txids|, 0);
            Clash(f, txids, match_, r, 0) <==> exists h: nat, p: nat :: h <= r && Twins(f, txids, match_, h, p)
  {
    hide Twins, Clash, Width, Lo, Hi;
    var n, r := |txids|, RootHeight(|txids|, 0);
    if Clash(f, txids, match_, r, 0) { var h, p := ClashAt(f, txids, match_, r, 0); }
    forall h: nat, p: nat | h <= r && Twins(f, txids, match_, h, p)
      ensures Clash(f, txids, match_, r, 0)
    {
      TwinsClash(f, txids, match_, h, p);
      Upward(f, txids, match_, h, p, r);
    }
  }

  lemma {:induction false} ClashAt(f: PairHash, txids: seq<Hash>, match_: seq<bool>, height: nat, pos: nat)
    returns (h: nat, p: nat)
    requires |match_| == |txids| && pos < Width(|txids|, height) && Clash(f, txids, match_, height, pos)
    ensures h <= height && Twins(f, txids, match_, h, p)
    decreases height
  {
    hide Twins, Width, Lo, Hi, AnyMatch;
    Children(|txids|, height, pos);
    if Clash(f, txids, match_, height - 1, 2 * pos) {
      h, p := ClashAt(f, txids, match_, height - 1, 2 * pos);
    } else if Twins(f, txids, match_, height, pos) {
      h, p := height, pos;
    } else {
      h, p := ClashAt(f, txids, match_, height - 1, 2 * pos + 1);
    }
  }

  lemma TwinsClash(f: PairHash, txids: seq<Hash>, match_: seq<bool>, height: nat, pos: nat)
    requires |match_| == |txids| && Twins(f, txids, match_, height, pos)
    ensures pos < Width(|txids|, height) && Clash(f, txids, match_, height, pos)
  {
    hide Width, Lo, Hi, AnyMatch, CalcHash;
    RangeOk(|txids|, height, pos);
  }

  /** A clash reaches the root. */
  lemma {:induction false} Upward(f: PairHash, txids: seq<Hash>, match_: seq<bool>, height: nat, pos: nat, r: nat)
    requires |match_| == |txids| && pos < Width(|txids|, height) && Clash(f, txids, match_, height, pos)
    requires height <= r && Width(|txids|, r) == 1
    ensures Clash(f, txids, match_, r, 0)
    decreases r - height
  {
    hide Twins, Clash, Width, Lo, Hi, AnyMatch;
    if height < r {
      var n, up := |txids|, pos / 2;
      ParentExists(n, height, pos);
      ClashMatch(f, txids, match_, height, pos);
      Children(n, height + 1, up);
      RangeOk(n, height + 1, up);
      RangeOk(n, height, 2 * up);
      if 2 * up + 1 < Width(n, height) { RangeOk(n, height, 2 * up + 1); }
      Inherit(match_, Lo(height, pos), Hi(n, height, pos), Lo(height + 1, up), Hi(n, height + 1, up));
      ClashStep(f, txids, match_, height + 1, up);
      Upward(f, txids, match_, height + 1, up, r);
    }
  }

  lemma ParentExists(n: nat, height: nat, pos: nat)
    requires pos < Width(n, height)
    ensures pos / 2 < Width(n, height + 1)
  {
    InWidth(n, height, pos);
    InWidth(n, height + 1, pos / 2);
    hide Width;
    Halves(pos / 2, Pow2(height));
    MulMono(2 * (pos / 2), pos, Pow2(height));
  }

  lemma ClashMatch(f: PairHash, txids: seq<Hash>, match_: seq<bool>, height: nat, pos: nat)
    requires |match_| == |txids| && pos < Width(|txids|, height) && Clash(f, txids, match_, height, pos)
    ensures Lo(height, pos) <= Hi(|txids|, height, pos) <= |txids|
            && AnyMatch(match_, Lo(height, pos), Hi(|txids|, height, pos))
  {
    hide Width, Lo, Hi, AnyMatch;
    RangeOk(|txids|, height, pos);
  }

  lemma Inherit(match_: seq<bool>, lo: nat, hi: nat, lo': nat, hi': nat)
    requires lo' <= lo <= hi <= hi' <= |match_| && AnyMatch(match_, lo, hi)
    ensures AnyMatch(match_, lo', hi')
  {}
}
