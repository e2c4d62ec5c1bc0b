/** The partial Merkle tree object: the appending and consuming traversals, and the byte form of the
    flag bits. */
module MerkleBlock {
  import opened Prelude
  import opened Merkle

  // ----- flag bits packed eight to a byte, least significant bit first

  function Mask(r: nat): bv8
    requires r < 8
  {
    1 << r
  }

  function Bit(x: bv8, r: nat): bool
    requires r < 8
  {
    x & Mask(r) != 0
  }

  lemma Masks(r: nat, q: nat)
    requires r < 8 && q < 8
    ensures Mask(r) & Mask(q) == if r == q then Mask(q) else 0
    ensures Mask(q) != 0 && (0 as bv8) << r == 0
  {
    assert r == 0 || r == 1 || r == 2 || r == 3 || r == 4 || r == 5 || r == 6 || r == 7;
    assert q == 0 || q == 1 || q == 2 || q == 3 || q == 4 || q == 5 || q == 6 || q == 7;
  }

  lemma Distribute(x: bv8, y: bv8, m: bv8)
    ensures (x | y) & m == (x & m) | (y & m)
    ensures (x & m) | 0 == x & m && (m != 0 ==> (x & m) | m != 0) && x | 0 == x && 0 & m == 0
  {
  }

  lemma SetBit(x: bv8, r: nat, q: nat)
    requires r < 8 && q < 8
    ensures Bit(x | Mask(r), q) == (q == r || Bit(x, q))
    ensures x | (0 << r) == x && !Bit(0, q)
  {
    Masks(r, q);
    hide Mask;
    Distribute(x, Mask(r), Mask(q));
    Distribute(x, 0, Mask(q));
  }

  /** Serialization: the bit at position p is bit p % 8 of byte p / 8; the padding is zero. */
  method Pack(vBits: seq<bool>) returns (vBytes: seq<bv8>)
    ensures |vBytes| == (|vBits| + 7) / 8
    ensures forall p | 0 <= p < |vBytes| * 8 :: Bit(vBytes[p / 8], p % 8) == (p < |vBits| && vBits[p])
  {
    vBytes := seq((|vBits| + 7) / 8, _ => 0);
    forall p | 0 <= p < |vBytes| * 8 ensures !Bit(vBytes[p / 8], p % 8) { SetBit(0, 0, p % 8); }
    for k := 0 to |vBits|
      invariant |vBytes| == (|vBits| + 7) / 8
      invariant forall p | 0 <= p < |vBytes| * 8 :: Bit(vBytes[p / 8], p % 8) == (p < k && vBits[p])
    {
      var old_ := vBytes;
      var flag: bv8 := if vBits[k] then 1 else 0;
      vBytes := vBytes[k / 8 := vBytes[k / 8] | (flag << (k % 8))];
      forall p | 0 <= p < |vBytes| * 8 ensures Bit(vBytes[p / 8], p % 8) == (p < k + 1 && vBits[p]) {
        SetBit(old_[k / 8], k % 8, p % 8);
        assert Bit(old_[p / 8], p % 8) == (p < k && vBits[p]);
        assert p / 8 == k / 8 && p % 8 == k % 8 ==> p == k;
      }
    }
  }

  method Unpack(vBytes: seq<bv8>) returns (vBits: seq<bool>)
    ensures |vBits| == |vBytes| * 8 && forall p | 0 <= p < |vBits| :: vBits[p] == Bit(vBytes[p / 8], p % 8)
  {
    vBits := [];
    for p := 0 to |vBytes| * 8
      invariant |vBits| == p && forall q | 0 <= q < p :: vBits[q] == Bit(vBytes[q / 8], q % 8)
    {
      vBits := vBits + [vBytes[p / 8] & Mask(p % 8) != 0];
    }
  }

  // ----- the tree object

  class PartialMerkleTree {
    var nTransactions: nat
    var vBits: seq<bool>
    var vHash: seq<Hash>
    var fBad: bool

    function Tree(): PartialTree
      reads this
    {
      PartialTree(nTransactions, vBits, vHash)
    }

    /** Building from a block's transaction ids and the mask of matched ones. */
    constructor (f: PairHash, txids: seq<Hash>, match_: seq<bool>)
      requires txids != [] && |match_| == |txids|
      ensures Tree() == BuildTree(f, txids, match_) && !fBad
    {
      nTransactions, fBad := |txids|, false;
      vBits, vHash := [], [];
      new;
      var height := TreeHeight(nTransactions);
      TraverseAndBuild(f, txids, match_, height, 0);
    }

    /** A tree as read from the network. */
    constructor Received(n: nat, hashes: seq<Hash>, bytes: seq<bv8>)
      ensures nTransactions == n && vHash == hashes && !fBad
      ensures |vBits| == |bytes| * 8 && forall p | 0 <= p < |vBits| :: vBits[p] == Bit(bytes[p / 8], p % 8)
    {
      nTransactions, vHash, fBad := n, hashes, false;
      vBits := [];
      new;
      vBits := Unpack(bytes);
    }

    method TraverseAndBuild(f: PairHash, txids: seq<Hash>, match_: seq<bool>, height: nat, pos: nat)
      requires nTransactions == |txids| == |match_| && pos < Width(|txids|, height)
      modifies this`vBits, this`vHash
      ensures var (b, h) := Build(f, txids, match_, height, pos); vBits == old(vBits) + b && vHash == old(vHash) + h
      decreases height
    {
      hide Width, Pow2, CalcHash, Lo, Hi, AnyMatch;
      RangeOk(|txids|, height, pos);
      var parentOfMatch := ParentOfMatch(match_, Lo(height, pos), Hi(|txids|, height, pos));
      vBits := vBits + [parentOfMatch];
      if height == 0 || !parentOfMatch {
        vHash := vHash + [CalcHash(f, txids, height, pos)];
      } else {
        Children(|txids|, height, pos);
        InnerSteps(f, txids, match_, [], [], height, pos, Walk(0, 0, [], false));
        hide Build, Extract;
        TraverseAndBuild(f, txids, match_, height - 1, 2 * pos);
        if 2 * pos + 1 < Width(nTransactions, height - 1) {
          TraverseAndBuild(f, txids, match_, height - 1, 2 * pos + 1);
        }
      }
    }

    method TraverseAndExtract(f: PairHash, height: nat, pos: nat, w: Walk) returns (w': Walk, hash: Hash)
      requires pos < Width(nTransactions, height) && w.bad == fBad
      modifies this`fBad
      ensures (w', hash) == Extract(f, nTransactions, vBits, vHash, height, pos, w) && w'.bad == fBad
      decreases height
    {
      hide Width;
      w' := w;
      if w.bits >= |vBits| {
        fBad := true;
        return w.(bad := true), NULL_HASH;
      }
      var parentOfMatch := vBits[w.bits];
      w' := w'.(bits := w'.bits + 1);
      if height == 0 || !parentOfMatch {
        if w'.hashes >= |vHash| {
          fBad := true;
          return w'.(bad := true), NULL_HASH;
        }
        hash := vHash[w'.hashes];
        w' := w'.(hashes := w'.hashes + 1);
        if height == 0 && parentOfMatch {
          w' := w'.(found := w'.found + [(pos, hash)]);
        }
      } else {
        Children(nTransactions, height, pos);
        var left, right;
        w', left := TraverseAndExtract(f, height - 1, 2 * pos, w');
        if 2 * pos + 1 < Width(nTransactions, height - 1) {
          w', right := TraverseAndExtract(f, height - 1, 2 * pos + 1, w');
          if right == left {
            fBad := true;
            w' := w'.(bad := true);
          }
        } else {
          right := left;
        }
        hash := f(left, right);
      }
    }

    /** Extracting into empty output vectors. A tree that failed once never gives a root again. */
    method ExtractMatches(f: PairHash) returns (root: Hash, found: seq<(nat, Hash)>)
      modifies this`fBad
      ensures !old(fBad) ==> (root, found) == Merkle.ExtractMatches(f, Tree())
      ensures old(fBad) ==> fBad && root == NULL_HASH
    {
      hide Width, Extract;
      if nTransactions == 0 { return NULL_HASH, []; }
      if nTransactions > MAX_BLOCK_SIZE / 60 { return NULL_HASH, []; }
      if |vHash| > nTransactions { return NULL_HASH, []; }
      if |vBits| < |vHash| { return NULL_HASH, []; }
      var height := TreeHeight(nTransactions);
      var w;
      ExtractGrows(f, nTransactions, vBits, vHash, height, 0, Walk(0, 0, [], fBad));
      w, root := TraverseAndExtract(f, height, 0, Walk(0, 0, [], fBad));
      found := w.found;
      if fBad { return NULL_HASH, found; }
      if (w.bits + 7) / 8 != (|vBits| + 7) / 8 { return NULL_HASH, found; }
      if w.hashes != |vHash| { return NULL_HASH, found; }
    }
  }

  method TreeHeight(n: nat) returns (height: nat)
    requires n > 0
    ensures height == RootHeight(n, 0) && Width(n, height) == 1
  {
    height := 0;
    while Width(n, height) > 1
      invariant RootHeight(n, height) == RootHeight(n, 0)
      decreases n - Pow2(height)
    {
      InWidth(n, height, 1);
      height := height + 1;
    }
  }

  method ParentOfMatch(match_: seq<bool>, lo: nat, hi: nat) returns (r: bool)
    requires lo <= hi <= |match_|
    ensures r == AnyMatch(match_, lo, hi)
  {
    r := false;
    for p := lo to hi
      invariant r == AnyMatch(match_, lo, p)
    {
      r := r || match_[p];
    }
  }

  /** A block's matched transactions survive building, packing, unpacking and extracting. */
  method RoundTrip(f: PairHash, txids: seq<Hash>, match_: seq<bool>) returns (root: Hash, found: seq<(nat, Hash)>)
    requires Injective(f) && Distinct(txids) && 1 <= |txids| <= MAX_BLOCK_SIZE / 60 && |match_| == |txids|
    ensures root == MerkleRoot(f, txids) && found == Selected(txids, match_, 0, |txids|)
  {
    hide Injective, Distinct, Merkle.ExtractMatches, MerkleRoot, Selected, Build;
    var sent := new PartialMerkleTree(f, txids, match_);
    var bytes := Pack(sent.vBits);
    var got := new PartialMerkleTree.Received(sent.nTransactions, sent.vHash, bytes);
    assert got.vBits == Padded(sent.vBits) by { SamePadding(sent.vBits, bytes, got.vBits); }
    root, found := got.ExtractMatches(f);
    Complete(f, txids, match_, got.Tree());
  }

  lemma SamePadding(bits: seq<bool>, bytes: seq<bv8>, r: seq<bool>)
    requires |bytes| == (|bits| + 7) / 8 && |r| == |bytes| * 8
    requires forall p | 0 <= p < |bytes| * 8 :: Bit(bytes[p / 8], p % 8) == (p < |bits| && bits[p])
    requires forall p | 0 <= p < |r| :: r[p] == Bit(bytes[p / 8], p % 8)
    ensures r == Padded(bits)
  {
    forall p | 0 <= p < |r| ensures r[p] == Padded(bits)[p] {
      assert Bit(bytes[p / 8], p % 8) == (p < |bits| && bits[p]);
      if p < |bits| { assert bits[p] == Padded(bits)[p]; }
    }
  }
}
