/** What a block's root says about its transactions: a list without repeated subtrees is determined by its root and
    the height of its tree, and a branch proves exactly its own leaf. */
module RootUnique {
  import opened Prelude
  import opened Merkle
  import opened BlockRoot
  import Sizes = MerkleSizes
  import Limbs

  /** Node q of level l has all its leaves. */
  predicate Whole(n: nat, l: nat, q: nat) { (q + 1) * Pow2(l) <= n }

  lemma {:induction false} WholeCount(n: nat, l: nat, q: nat)
    ensures Whole(n, l, q) <==> q < Shr(n, l)
    decreases l
  {
    if l > 0 {
      WholeCount(n, l - 1, 2 * q + 1);
      Halves(q, Pow2(l - 1));
    }
  }

  lemma WholeChildren(n: nat, l: nat, q: nat)
    requires l > 0 && Whole(n, l, q)
    ensures q < Width(n, l) && Whole(n, l - 1, 2 * q) && Whole(n, l - 1, 2 * q + 1) && 2 * q + 1 < Width(n, l - 1)
  {
    Halves(q, Pow2(l - 1));
    InWidth(n, l - 1, 2 * q + 1);
    InWidth(n, l, q);
    hide Width;
    assert (q + 1) * Pow2(l) == q * Pow2(l) + Pow2(l);
  }

  /** A node with a right neighbour has all its leaves. */
  lemma WholeBefore(n: nat, l: nat, q: nat)
    requires q + 1 < Width(n, l)
    ensures Whole(n, l, q) && Hi(n, l, q) == Lo(l, q + 1)
  {
    InWidth(n, l, q + 1);
  }

  /** What is hashed with the left child: the right child, or the left one again. */
  function Right(f: PairHash, a: seq<Hash>, l: nat, p: nat): Hash
    requires 2 * p < Width(|a|, l)
  {
    CalcHash(f, a, l, if 2 * p + 1 < Width(|a|, l) then 2 * p + 1 else 2 * p)
  }

  lemma Opened(f: PairHash, a: seq<Hash>, b: seq<Hash>, l: nat, p: nat, q: nat)
    requires Injective(f) && p < Width(|a|, l + 1) && q < Width(|b|, l + 1)
    requires CalcHash(f, a, l + 1, p) == CalcHash(f, b, l + 1, q)
    ensures 2 * p < Width(|a|, l) && 2 * q < Width(|b|, l)
    ensures CalcHash(f, a, l, 2 * p) == CalcHash(f, b, l, 2 * q) && Right(f, a, l, p) == Right(f, b, l, q)
  {
    hide Injective, Width, CalcHash;
    Combined(f, a, l, p);
    Combined(f, b, l, q);
    Unpair(f, CalcHash(f, a, l, 2 * p), Right(f, a, l, p), CalcHash(f, b, l, 2 * q), Right(f, b, l, q));
  }

  lemma LeavesWhole(n: nat, q: nat)
    requires q < Width(n, 0)
    ensures Whole(n, 0, q)
  {
    LeafRange(n, q);
  }

  /** A node with all its leaves and one without hash alike only if there is a repeated subtree. */
  lemma {:induction false} Lopsided(f: PairHash, a: seq<Hash>, l: nat, p: nat, q: nat)
    requires Injective(f) && Whole(|a|, l, p) && p < Width(|a|, l) && q < Width(|a|, l) && !Whole(|a|, l, q)
    requires CalcHash(f, a, l, p) == CalcHash(f, a, l, q)
    ensures Repeats(f, a, |a|)
    decreases l
  {
    hide Width, Injective, Pow2, Lo, Hi, Repeats, CalcHash, Whole;
    if l == 0 { LeavesWhole(|a|, q); }
    if l > 0 {
      WholeChildren(|a|, l, p);
      Opened(f, a, a, l - 1, p, q);
      if 2 * q + 1 < Width(|a|, l - 1) {
        if Whole(|a|, l - 1, 2 * q + 1) { WholeParent(|a|, l, q); }
        Lopsided(f, a, l - 1, 2 * p + 1, 2 * q + 1);
      } else {
        Repeated(f, a, l, p);
      }
    }
  }

  lemma WholeParent(n: nat, l: nat, q: nat)
    requires l > 0 && Whole(n, l - 1, 2 * q + 1)
    ensures Whole(n, l, q)
  {
    Halves(q, Pow2(l - 1));
  }

  lemma Repeated(f: PairHash, a: seq<Hash>, l: nat, p: nat)
    requires l > 0 && Whole(|a|, l, p) && 2 * p + 1 < Width(|a|, l - 1)
    requires CalcHash(f, a, l - 1, 2 * p) == CalcHash(f, a, l - 1, 2 * p + 1)
    ensures Repeats(f, a, |a|)
  {
    hide Width, CalcHash;
    WholeCount(|a|, l, p);
    assert Same(f, a, l, p);
  }

  /** Two children with the same hash are a repeated subtree, whether or not the right one has all its leaves. */
  lemma EqualChildren(f: PairHash, a: seq<Hash>, l: nat, p: nat)
    requires Injective(f) && Same(f, a, l, p)
    ensures Repeats(f, a, |a|)
  {
    hide Injective, CalcHash, Repeats, Width, Whole;
    WholeBefore(|a|, l - 1, 2 * p);
    if Whole(|a|, l - 1, 2 * p + 1) {
      WholeParent(|a|, l, p);
      Repeated(f, a, l, p);
    } else {
      Lopsided(f, a, l - 1, 2 * p, 2 * p + 1);
    }
  }

  /** The same hash at the same place stands for the same leaves. */
  lemma {:induction false} SameLeaves(f: PairHash, a: seq<Hash>, b: seq<Hash>, l: nat, p: nat)
    requires Injective(f) && !Repeats(f, a, |a|) && !Repeats(f, b, |b|)
    requires p < Width(|a|, l) && p < Width(|b|, l) && CalcHash(f, a, l, p) == CalcHash(f, b, l, p)
    ensures Lo(l, p) <= Hi(|a|, l, p) == Hi(|b|, l, p) <= |a| && Hi(|a|, l, p) <= |b|
    ensures a[Lo(l, p)..Hi(|a|, l, p)] == b[Lo(l, p)..Hi(|a|, l, p)]
    decreases l
  {
    hide Width, Injective, Pow2, Lo, Hi, Repeats, CalcHash, Same;
    RangeOk(|a|, l, p);
    RangeOk(|b|, l, p);
    if l == 0 {
      Leaf(f, a, p);
      Leaf(f, b, p);
    } else {
      Children(|a|, l, p);
      Children(|b|, l, p);
      Opened(f, a, b, l - 1, p, p);
      SameLeaves(f, a, b, l - 1, 2 * p);
      if 2 * p + 1 < Width(|a|, l - 1) { OneSided(f, a, l, p); }
      if 2 * p + 1 < Width(|b|, l - 1) { OneSided(f, b, l, p); }
      if 2 * p + 1 < Width(|a|, l - 1) && 2 * p + 1 < Width(|b|, l - 1) {
        SameLeaves(f, a, b, l - 1, 2 * p + 1);
        Joined(a, b, Lo(l, p), Lo(l - 1, 2 * p + 1), Hi(|a|, l, p));
      }
    }
  }

  lemma Leaf(f: PairHash, a: seq<Hash>, p: nat)
    requires p < Width(|a|, 0)
    ensures p < |a| && CalcHash(f, a, 0, p) == a[p] && Lo(0, p) == p && Hi(|a|, 0, p) == p + 1
  {
    LeafRange(|a|, p);
  }

  lemma OneSided(f: PairHash, a: seq<Hash>, l: nat, p: nat)
    requires Injective(f) && !Repeats(f, a, |a|) && l > 0 && 2 * p + 1 < Width(|a|, l - 1)
    ensures CalcHash(f, a, l - 1, 2 * p) != Right(f, a, l - 1, p)
  {
    hide Width, Injective, Repeats, CalcHash;
    if CalcHash(f, a, l - 1, 2 * p) == Right(f, a, l - 1, p) { EqualChildren(f, a, l, p); }
  }

  lemma Joined(a: seq<Hash>, b: seq<Hash>, lo: nat, mid: nat, hi: nat)
    requires lo <= mid <= hi <= |a| && hi <= |b| && a[lo..mid] == b[lo..mid] && a[mid..hi] == b[mid..hi]
    ensures a[lo..hi] == b[lo..hi]
  {
    assert a[lo..hi] == a[lo..mid] + a[mid..hi] && b[lo..hi] == b[lo..mid] + b[mid..hi];
  }

  /** No two lists that pass the check for repeated subtrees have the same root at the same height. */
  lemma RootDetermines(f: PairHash, a: seq<Hash>, b: seq<Hash>)
    requires Injective(f) && a != [] && b != [] && !Repeats(f, a, |a|) && !Repeats(f, b, |b|)
    requires RootHeight(|a|, 0) == RootHeight(|b|, 0) && MerkleRoot(f, a) == MerkleRoot(f, b)
    ensures a == b
  {
    hide Width, Injective, Repeats, CalcHash, Lo, Hi;
    SameLeaves(f, a, b, RootHeight(|a|, 0), 0);
    RootCoversAll(|a|);
    RootCoversAll(|b|);
    assert a == a[0..|a|] && b == b[0..|b|];
  }

  /** The height is needed: the one list [f(x, y)] and the other [x, y] have the same root. */
  lemma HeightMatters(f: PairHash, x: Hash, y: Hash)
    requires x != y
    ensures MerkleRoot(f, [f(x, y)]) == MerkleRoot(f, [x, y]) == f(x, y)
    ensures !Repeats(f, [f(x, y)], 1) && !Repeats(f, [x, y], 2)
  {
    hide Repeats, Same;
    Small(f, [f(x, y)]);
    Small(f, [x, y]);
    forall l: nat, p: nat | p < Shr(2, l)
      ensures !Same(f, [x, y], l, p)
    {
      AtMostTwo(f, [x, y], l, p);
    }
    forall l: nat, p: nat | p < Shr(1, l)
      ensures !Same(f, [f(x, y)], l, p)
    {
      AtMostTwo(f, [f(x, y)], l, p);
    }
    NotRepeating(f, [x, y], 2);
    NotRepeating(f, [f(x, y)], 1);
  }

  lemma NotRepeating(f: PairHash, a: seq<Hash>, c: nat)
    requires forall l: nat, p: nat | p < Shr(c, l) :: !Same(f, a, l, p)
    ensures !Repeats(f, a, c)
  {
    hide Same;
  }

  lemma AtMostTwo(f: PairHash, a: seq<Hash>, l: nat, p: nat)
    requires 0 < |a| <= 2 && p < Shr(|a|, l) && (|a| == 2 ==> a[0] != a[1])
    ensures !Same(f, a, l, p)
  {
    Sizes.WidthAtLeaves(|a|);
    hide Width;
    if l > 1 {
      ShrOfOne(|a|, 1, l);
    } else if l == 1 && |a| == 2 {
      Leaf(f, a, 0);
      Leaf(f, a, 1);
    }
  }

  /** The roots of one and of two leaves. */
  lemma Small(f: PairHash, a: seq<Hash>)
    requires 0 < |a| <= 2
    ensures MerkleRoot(f, a) == if |a| == 1 then a[0] else f(a[0], a[1])
  {
    Sizes.WidthAtLeaves(|a|);
    if |a| == 1 {
      LeafRange(1, 0);
    } else {
      Sizes.WidthHalves(2, 1);
      Sizes.RootIs(2, 0, 1);
      hide Width;
      Combined(f, a, 0, 0);
      LeafRange(2, 0);
      LeafRange(2, 1);
    }
  }

  // ----- branches

  function FromBranch(f: PairHash, leaf: Hash, branch: seq<Hash>, index: nat): Hash {
    if branch == [] then leaf
    else
      var n := |branch| - 1;
      var h := FromBranch(f, leaf, branch[..n], index);
      if Shr(index, n) % 2 == 1 then f(branch[n], h) else f(h, branch[n])
  }

  method ComputeRootFromBranch(f: PairHash, leaf: Hash, branch: seq<Hash>, index: nat) returns (h: Hash)
    ensures h == FromBranch(f, leaf, branch, index)
  {
    h := leaf;
    var rest := index;
    for i := 0 to |branch|
      invariant h == FromBranch(f, leaf, branch[..i], index) && rest == Shr(index, i)
    {
      assert branch[..i + 1][..i] == branch[..i];
      if rest % 2 == 1 {
        h := f(branch[i], h);
      } else {
        h := f(h, branch[i]);
      }
      rest := rest / 2;
    }
    assert branch[..|branch|] == branch;
  }

  /** A leaf and its branch lead to the node above the leaf. */
  lemma {:induction false} BranchLeads(f: PairHash, a: seq<Hash>, p: nat, l: nat)
    requires p < |a|
    ensures Shr(p, l) < Width(|a|, l) && FromBranch(f, a[p], Branch(f, a, p, l), p) == CalcHash(f, a, l, Shr(p, l))
  {
    AboveLeaf(|a|, p, l);
    hide CalcHash, Width, Sibling;
    if l == 0 {
      Leaf(f, a, p);
    } else {
      hide FromBranch, Branch, Shr;
      var q := Shr(p, l - 1);
      BranchLeads(f, a, p, l - 1);
      BranchNext(f, a, p, l);
      OneMore(f, a[p], Branch(f, a, p, l - 1), Sibling(f, a, l - 1, q), p);
      WithSibling(f, a, l - 1, q);
    }
  }

  lemma BranchNext(f: PairHash, a: seq<Hash>, p: nat, l: nat)
    requires p < |a| && l > 0 && Shr(p, l - 1) < Width(|a|, l - 1)
    ensures Branch(f, a, p, l) == Branch(f, a, p, l - 1) + [Sibling(f, a, l - 1, Shr(p, l - 1))]
    ensures Shr(p, l) == Shr(p, l - 1) / 2
  {
    hide CalcHash, Width, Sibling;
  }

  lemma OneMore(f: PairHash, leaf: Hash, branch: seq<Hash>, s: Hash, index: nat)
    ensures var h := FromBranch(f, leaf, branch, index);
            FromBranch(f, leaf, branch + [s], index) == if Shr(index, |branch|) % 2 == 1 then f(s, h) else f(h, s)
  {
    assert (branch + [s])[..|branch|] == branch;
  }

  lemma WithSibling(f: PairHash, a: seq<Hash>, l: nat, q: nat)
    requires q < Width(|a|, l)
    ensures q / 2 < Width(|a|, l + 1)
    ensures var h, s := CalcHash(f, a, l, q), Sibling(f, a, l, q);
            CalcHash(f, a, l + 1, q / 2) == if q % 2 == 1 then f(s, h) else f(h, s)
  {
    ParentOf(|a|, l, q);
    hide CalcHash, Width;
    Combined(f, a, l, q / 2);
  }

  /** Nothing else leads there: the leaf and every hash of the branch are the true ones. */
  lemma {:induction false} BranchProves(f: PairHash, a: seq<Hash>, p: nat, leaf: Hash, branch: seq<Hash>)
    requires Injective(f) && p < |a| && Shr(p, |branch|) < Width(|a|, |branch|)
    requires FromBranch(f, leaf, branch, p) == CalcHash(f, a, |branch|, Shr(p, |branch|))
    ensures leaf == a[p] && branch == Branch(f, a, p, |branch|)
    decreases |branch|
  {
    hide CalcHash, Width, Sibling, Injective;
    if branch == [] {
      AboveLeaf(|a|, p, 0);
      Leaf(f, a, p);
    } else {
      var n := |branch| - 1;
      AboveLeaf(|a|, p, n);
      WithSibling(f, a, n, Shr(p, n));
      var h, t, s := FromBranch(f, leaf, branch[..n], p), CalcHash(f, a, n, Shr(p, n)), Sibling(f, a, n, Shr(p, n));
      if Shr(p, n) % 2 == 1 { Unpair(f, branch[n], h, s, t); } else { Unpair(f, h, branch[n], t, s); }
      BranchProves(f, a, p, leaf, branch[..n]);
      assert branch == branch[..n] + [branch[n]];
    }
  }

  /** A branch of the tree's height proves a leaf of the block exactly when it is the computed one. */
  lemma BranchExact(f: PairHash, a: seq<Hash>, p: nat, leaf: Hash, branch: seq<Hash>)
    requires Injective(f) && p < |a| && |branch| == RootHeight(|a|, 0)
    ensures FromBranch(f, leaf, branch, p) == MerkleRoot(f, a)
            <==> leaf == a[p] && branch == Branch(f, a, p, RootHeight(|a|, 0))
  {
    hide Injective, CalcHash, Branch, FromBranch;
    var r := RootHeight(|a|, 0);
    AboveLeaf(|a|, p, r);
    BranchLeads(f, a, p, r);
    if FromBranch(f, leaf, branch, p) == MerkleRoot(f, a) { BranchProves(f, a, p, leaf, branch); }
  }
}
