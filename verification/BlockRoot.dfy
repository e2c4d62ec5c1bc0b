/** The root of a block's transactions computed in constant space, one leaf at a time, with the branch of one leaf
    and the check for repeated subtrees. */
module BlockRoot {
  import opened Prelude
  import opened Merkle
  import Sizes = MerkleSizes
  import Limbs

  /** x >> n. */
  function Shr(x: nat, n: nat): nat { if n == 0 then x else Shr(x, n - 1) / 2 }

  predicate Bit(x: nat, n: nat) { Shr(x, n) % 2 == 1 }

  lemma {:induction false} ShrOfMultiple(k: nat, n: nat)
    ensures Shr(k * Pow2(n), n) == k
    decreases n
  {
    if n > 0 {
      assert k * Pow2(n) == (2 * k) * Pow2(n - 1);
      ShrOfMultiple(2 * k, n - 1);
    }
  }

  lemma {:induction false} ShrSame(x: nat, y: nat, l: nat, m: nat)
    requires l <= m && Shr(x, l) == Shr(y, l)
    ensures Shr(x, m) == Shr(y, m)
    decreases m
  {
    if l < m { ShrSame(x, y, l, m - 1); }
  }

  lemma {:induction false} ShrMono(x: nat, y: nat, l: nat)
    requires x <= y
    ensures Shr(x, l) <= Shr(y, l)
  {
    if l > 0 { ShrMono(x, y, l - 1); }
  }

  lemma {:induction false} ShrWithin(n: nat, l: nat)
    requires n > 0
    ensures Shr(n, l) <= Width(n, l)
  {
    if l == 0 { Sizes.WidthAtLeaves(n); } else {
      ShrWithin(n, l - 1);
      Sizes.WidthHalves(n, l);
    }
  }

  /** The node above a leaf. */
  lemma {:induction false} AboveLeaf(n: nat, p: nat, l: nat)
    requires p < n
    ensures Shr(p, l) < Width(n, l)
  {
    if l == 0 { Sizes.WidthAtLeaves(n); } else {
      AboveLeaf(n, p, l - 1);
      Sizes.WidthHalves(n, l);
    }
  }

  // ----- the hashes kept

  lemma HalfWidth(n: nat, l: nat, k: nat)
    requires n > 0 && k <= Width(n, l)
    ensures k / 2 <= Width(n, l + 1)
  {
    Sizes.WidthHalves(n, l + 1);
  }

  /** Of the first k nodes of level l, and above: the last node of each level with an odd number of them is kept. */
  ghost predicate Holds(f: PairHash, leaves: seq<Hash>, inner: seq<Hash>, l: nat, k: nat)
    requires leaves != [] && k <= Width(|leaves|, l)
    decreases k
  {
    k == 0 || (
      HalfWidth(|leaves|, l, k);
      && (k % 2 == 1 ==> l < |inner| && inner[l] == CalcHash(f, leaves, l, k - 1))
      && Holds(f, leaves, inner, l + 1, k / 2))
  }

  lemma {:induction false} HoldsAbove(f: PairHash, leaves: seq<Hash>, inner: seq<Hash>, inner': seq<Hash>, l: nat,
                                      k: nat)
    requires leaves != [] && k <= Width(|leaves|, l) && Holds(f, leaves, inner, l, k)
    requires |inner| == |inner'| && forall i | l <= i < |inner| :: inner'[i] == inner[i]
    ensures Holds(f, leaves, inner', l, k)
    decreases k
  {
    hide Width, CalcHash;
    if k > 0 {
      HalfWidth(|leaves|, l, k);
      HoldsAbove(f, leaves, inner, inner', l + 1, k / 2);
    }
  }

  /** Leaf `c` is carried up to node q of level l. */
  ghost predicate Carry(f: PairHash, leaves: seq<Hash>, c: nat, inner: seq<Hash>, l: nat, q: nat, h: Hash) {
    && c < |leaves| && |inner| == 32 && q < Width(|leaves|, l) && Shr(c, l) == q && c + 1 == (q + 1) * Pow2(l)
    && h == CalcHash(f, leaves, l, q) && Holds(f, leaves, inner, l, q)
  }

  lemma CarryStart(f: PairHash, leaves: seq<Hash>, c: nat, inner: seq<Hash>)
    requires c < |leaves| && |inner| == 32 && c <= Width(|leaves|, 0) && Holds(f, leaves, inner, 0, c)
    ensures Carry(f, leaves, c, inner, 0, c, leaves[c])
  {
    Sizes.WidthAtLeaves(|leaves|);
    hide Width, Holds;
    LeafRange(|leaves|, c);
  }

  lemma CarryBit(f: PairHash, leaves: seq<Hash>, c: nat, inner: seq<Hash>, l: nat, q: nat, h: Hash)
    requires Carry(f, leaves, c, inner, l, q, h) && |leaves| <= Pow2(31)
    ensures l < 32 && (Bit(c + 1, l) <==> q % 2 == 0) && Shr(c + 1, l) == q + 1
  {
    hide Holds, CalcHash, Width, Pow2;
    ShrOfMultiple(q + 1, l);
    LevelBound(q + 1, l);
  }

  lemma LevelBound(k: nat, l: nat)
    requires k > 0 && k * Pow2(l) <= Pow2(31)
    ensures l < 32
  {
    hide Pow2;
    MulMono(1, k, Pow2(l));
    Double(31);
    if l >= 32 { Limbs.Pow2Mono(32, l); }
  }

  lemma Double(n: nat)
    ensures Pow2(n + 1) == 2 * Pow2(n)
  {}

  lemma CarryStep(f: PairHash, leaves: seq<Hash>, c: nat, inner: seq<Hash>, l: nat, q: nat, h: Hash)
    requires Carry(f, leaves, c, inner, l, q, h) && q % 2 == 1 && l < 32
    ensures Carry(f, leaves, c, inner, l + 1, q / 2, f(inner[l], h)) && inner[l] == CalcHash(f, leaves, l, q - 1)
  {
    var p := q / 2;
    ParentOf(|leaves|, l, q);
    HalfWidth(|leaves|, l, q);
    hide Width, CalcHash;
    assert (q + 1) * Pow2(l) == (p + 1) * Pow2(l + 1) by { Halves(p, Pow2(l)); }
    Combined(f, leaves, l, p);
  }

  lemma ParentOf(n: nat, l: nat, q: nat)
    requires q < Width(n, l)
    ensures q / 2 < Width(n, l + 1)
  {
    InWidth(n, l, 0);
    Sizes.WidthHalves(n, l + 1);
  }

  lemma Combined(f: PairHash, leaves: seq<Hash>, l: nat, p: nat)
    requires p < Width(|leaves|, l + 1)
    ensures 2 * p < Width(|leaves|, l)
    ensures CalcHash(f, leaves, l + 1, p)
            == f(CalcHash(f, leaves, l, 2 * p),
                 CalcHash(f, leaves, l, if 2 * p + 1 < Width(|leaves|, l) then 2 * p + 1 else 2 * p))
  {
    Children(|leaves|, l + 1, p);
  }

  lemma CarryDone(f: PairHash, leaves: seq<Hash>, c: nat, inner: seq<Hash>, l: nat, q: nat, h: Hash)
    requires Carry(f, leaves, c, inner, l, q, h) && q % 2 == 0 && l < 32
    ensures c + 1 <= Width(|leaves|, 0) && Holds(f, leaves, inner[l := h], 0, c + 1)
  {
    Kept(f, leaves, inner, l, q, h);
    hide Width, CalcHash, Holds, Pow2;
    HoldsBelow(f, leaves, inner[l := h], l, q + 1);
  }

  lemma Kept(f: PairHash, leaves: seq<Hash>, inner: seq<Hash>, l: nat, q: nat, h: Hash)
    requires q < Width(|leaves|, l) && leaves != [] && Holds(f, leaves, inner, l, q) && q % 2 == 0 && l < |inner|
    requires h == CalcHash(f, leaves, l, q)
    ensures Holds(f, leaves, inner[l := h], l, q + 1)
  {
    hide Width, CalcHash, Holds;
    HoldsNext(f, leaves, inner, l, q);
    HoldsAbove(f, leaves, inner, inner[l := h], l + 1, q / 2);
    assert (q + 1) / 2 == q / 2;
    HoldsFrom(f, leaves, inner[l := h], l, q + 1);
  }

  lemma HoldsNext(f: PairHash, leaves: seq<Hash>, inner: seq<Hash>, l: nat, k: nat)
    requires leaves != [] && k <= Width(|leaves|, l) && Holds(f, leaves, inner, l, k)
    ensures k / 2 <= Width(|leaves|, l + 1) && Holds(f, leaves, inner, l + 1, k / 2)
  {
    HalfWidth(|leaves|, l, k);
    hide Width, CalcHash;
  }

  lemma HoldsFrom(f: PairHash, leaves: seq<Hash>, inner: seq<Hash>, l: nat, k: nat)
    requires leaves != [] && k <= Width(|leaves|, l)
    requires k / 2 <= Width(|leaves|, l + 1) && Holds(f, leaves, inner, l + 1, k / 2)
    requires k % 2 == 1 ==> l < |inner| && inner[l] == CalcHash(f, leaves, l, k - 1)
    ensures Holds(f, leaves, inner, l, k)
  {
    hide Width, CalcHash;
  }

  /** The levels below an exact multiple are even. */
  lemma {:induction false} HoldsBelow(f: PairHash, leaves: seq<Hash>, inner: seq<Hash>, l: nat, k: nat)
    requires leaves != [] && 0 < k <= Width(|leaves|, l) && Holds(f, leaves, inner, l, k)
    requires k * Pow2(l) <= |leaves|
    ensures k * Pow2(l) <= Width(|leaves|, 0) && Holds(f, leaves, inner, 0, k * Pow2(l))
    decreases l
  {
    Sizes.WidthAtLeaves(|leaves|);
    if l > 0 {
      assert k * Pow2(l) == (2 * k) * Pow2(l - 1);
      InWidth(|leaves|, l - 1, 2 * k - 1);
      MulMono(2 * k - 1, 2 * k, Pow2(l - 1));
      hide Width, CalcHash;
      assert (2 * k - 1) * Pow2(l - 1) == (2 * k) * Pow2(l - 1) - Pow2(l - 1);
      HoldsBelow(f, leaves, inner, l - 1, 2 * k);
    }
  }

  // ----- the branch of a leaf

  /** The node that is hashed together with node q of level l: itself when it is the last of an odd number. */
  function Sibling(f: PairHash, leaves: seq<Hash>, l: nat, q: nat): Hash
    requires q < Width(|leaves|, l)
  {
    if q % 2 == 1 then CalcHash(f, leaves, l, q - 1)
    else if q + 1 < Width(|leaves|, l) then CalcHash(f, leaves, l, q + 1)
    else CalcHash(f, leaves, l, q)
  }

  function Branch(f: PairHash, leaves: seq<Hash>, p: nat, l: nat): (b: seq<Hash>)
    requires p < |leaves|
    ensures |b| == l
  {
    if l == 0 then [] else
      AboveLeaf(|leaves|, p, l - 1);
      Branch(f, leaves, p, l - 1) + [Sibling(f, leaves, l - 1, Shr(p, l - 1))]
  }

  /** The branch so far of leaf p, c leaves being known: up to the kept node of level `m` above it. */
  ghost predicate Waiting(f: PairHash, leaves: seq<Hash>, p: nat, c: nat, m: int, branch: seq<Hash>) {
    && c <= |leaves|
    && if p >= c then m == -1 && branch == []
       else m >= 0 && Bit(c, m) && Shr(p, m) == Shr(c, m) - 1 && branch == Branch(f, leaves, p, m)
  }

  /** The same while leaf `c` is carried up at node q of level l. */
  ghost predicate Matching(f: PairHash, leaves: seq<Hash>, p: nat, c: nat, l: nat, q: nat, m: int, matched: bool,
                           branch: seq<Hash>)
  {
    && c < |leaves| && Shr(c, l) == q
    && if matched then p <= c && Shr(p, l) == q && branch == Branch(f, leaves, p, l)
       else p != c && Waiting(f, leaves, p, c, m, branch) && (m == -1 || m >= l)
  }

  lemma MatchStart(f: PairHash, leaves: seq<Hash>, p: nat, c: nat, m: int, branch: seq<Hash>)
    requires c < |leaves| && Waiting(f, leaves, p, c, m, branch)
    ensures Matching(f, leaves, p, c, 0, c, m, p == c, branch)
  {}

  /** What the branch becomes when node q - 1 is hashed with node q. */
  function Grown(branch: seq<Hash>, matched: bool, m: int, l: nat, left: Hash, right: Hash): (seq<Hash>, bool) {
    if matched then (branch + [left], true) else if m == l then (branch + [right], true) else (branch, false)
  }

  lemma MatchStep(f: PairHash, leaves: seq<Hash>, p: nat, c: nat, l: nat, q: nat, m: int, matched: bool,
                  branch: seq<Hash>)
    requires Matching(f, leaves, p, c, l, q, m, matched, branch) && q % 2 == 1 && q < Width(|leaves|, l)
    ensures var (b, y) := Grown(branch, matched, m, l, CalcHash(f, leaves, l, q - 1), CalcHash(f, leaves, l, q));
            Matching(f, leaves, p, c, l + 1, q / 2, m, y, b)
  {
    hide Width, CalcHash;
  }

  lemma MatchDone(f: PairHash, leaves: seq<Hash>, p: nat, c: nat, l: nat, q: nat, m: int, matched: bool,
                  branch: seq<Hash>)
    requires Matching(f, leaves, p, c, l, q, m, matched, branch) && q % 2 == 0 && Shr(c + 1, l) == q + 1
    ensures Waiting(f, leaves, p, c + 1, if matched then l else m, branch)
  {
    hide Branch;
    if !matched && p < c {
      assert m != l;
      ShrSame(c, c + 1, l + 1, m);
    }
  }

  // ----- repeated subtrees

  /** Node p of level l has two different children with the same hash. */
  ghost predicate Same(f: PairHash, leaves: seq<Hash>, l: nat, p: nat) {
    l > 0 && 2 * p + 1 < Width(|leaves|, l - 1)
    && CalcHash(f, leaves, l - 1, 2 * p) == CalcHash(f, leaves, l - 1, 2 * p + 1)
  }

  /** Among the nodes with all their leaves, one has two equal children. */
  ghost predicate Repeats(f: PairHash, leaves: seq<Hash>, c: nat) {
    exists l: nat, p: nat :: p < Shr(c, l) && Same(f, leaves, l, p)
  }

  /** How many nodes of level k have all their leaves while leaf `c` is carried up, levels 0..l done. */
  function Full(c: nat, l: nat, k: nat): nat { if k <= l then Shr(c + 1, k) else Shr(c, k) }

  ghost predicate RepeatsUpTo(f: PairHash, leaves: seq<Hash>, c: nat, l: nat) {
    exists k: nat, p: nat :: p < Full(c, l, k) && Same(f, leaves, k, p)
  }

  lemma RepeatStart(f: PairHash, leaves: seq<Hash>, c: nat)
    ensures RepeatsUpTo(f, leaves, c, 0) <==> Repeats(f, leaves, c)
  {
    hide Width, CalcHash;
    if RepeatsUpTo(f, leaves, c, 0) {
      var k: nat, p: nat :| p < Full(c, 0, k) && Same(f, leaves, k, p);
      assert p < Shr(c, k) && Same(f, leaves, k, p);
    }
    if Repeats(f, leaves, c) {
      var k: nat, p: nat :| p < Shr(c, k) && Same(f, leaves, k, p);
      assert p < Full(c, 0, k) && Same(f, leaves, k, p);
    }
  }

  lemma RepeatStep(f: PairHash, leaves: seq<Hash>, c: nat, l: nat, q: nat)
    requires Shr(c, l) == q && Shr(c + 1, l) == q + 1 && q % 2 == 1 && q < Width(|leaves|, l)
    ensures RepeatsUpTo(f, leaves, c, l + 1)
            <==> RepeatsUpTo(f, leaves, c, l) || CalcHash(f, leaves, l, q - 1) == CalcHash(f, leaves, l, q)
  {
    hide Width, CalcHash;
    assert Same(f, leaves, l + 1, q / 2) <==> CalcHash(f, leaves, l, q - 1) == CalcHash(f, leaves, l, q);
    assert Shr(c + 1, l + 1) == q / 2 + 1 && Shr(c, l + 1) == q / 2;
    if RepeatsUpTo(f, leaves, c, l + 1) {
      var k: nat, p: nat :| p < Full(c, l + 1, k) && Same(f, leaves, k, p);
      if k != l + 1 || p < q / 2 { assert p < Full(c, l, k) && Same(f, leaves, k, p); }
    }
    if RepeatsUpTo(f, leaves, c, l) {
      var k: nat, p: nat :| p < Full(c, l, k) && Same(f, leaves, k, p);
      assert p < Full(c, l + 1, k) && Same(f, leaves, k, p);
    }
    if Same(f, leaves, l + 1, q / 2) {
      assert q / 2 < Full(c, l + 1, l + 1);
    }
  }

  lemma RepeatDone(f: PairHash, leaves: seq<Hash>, c: nat, l: nat, q: nat)
    requires Shr(c, l) == q && Shr(c + 1, l) == q + 1 && q % 2 == 0
    ensures RepeatsUpTo(f, leaves, c, l) <==> Repeats(f, leaves, c + 1)
  {
    hide Same;
    forall k: nat
      ensures Full(c, l, k) == Shr(c + 1, k)
    {
      if k > l { ShrSame(c, c + 1, l + 1, k); }
    }
    if RepeatsUpTo(f, leaves, c, l) {
      var k: nat, p: nat :| p < Full(c, l, k) && Same(f, leaves, k, p);
      assert p < Shr(c + 1, k) && Same(f, leaves, k, p);
    }
    if Repeats(f, leaves, c + 1) {
      var k: nat, p: nat :| p < Shr(c + 1, k) && Same(f, leaves, k, p);
      assert p < Full(c, l, k) && Same(f, leaves, k, p);
    }
  }

  // ----- one more leaf

  method AddLeaf(f: PairHash, ghost leaves: seq<Hash>, leaf: Hash, c: nat, inner: array<Hash>, p: nat, m: int,
                 branch: seq<Hash>, mutated: bool)
    returns (m': int, branch': seq<Hash>, mutated': bool)
    requires c < |leaves| <= Pow2(31) && leaf == leaves[c] && inner.Length == 32
    requires c <= Width(|leaves|, 0) && Holds(f, leaves, inner[..], 0, c)
    requires Waiting(f, leaves, p, c, m, branch) && mutated == Repeats(f, leaves, c)
    modifies inner
    ensures c + 1 <= Width(|leaves|, 0) && Holds(f, leaves, inner[..], 0, c + 1)
    ensures Waiting(f, leaves, p, c + 1, m', branch') && mutated' == Repeats(f, leaves, c + 1)
  {
    hide Holds, Waiting, Repeats, RepeatsUpTo, Width, CalcHash, Carry, Matching, Shr, Pow2, Bit;
    var h, matched, level := leaf, p == c, 0;
    ghost var q := c;
    m', branch', mutated' := m, branch, mutated;
    CarryStart(f, leaves, c, inner[..]);
    MatchStart(f, leaves, p, c, m, branch);
    RepeatStart(f, leaves, c);
    CarryBit(f, leaves, c, inner[..], level, q, h);
    while !Bit(c + 1, level)
      invariant level < 32 && (Bit(c + 1, level) <==> q % 2 == 0) && Shr(c + 1, level) == q + 1
      invariant Carry(f, leaves, c, inner[..], level, q, h) && Matching(f, leaves, p, c, level, q, m, matched, branch')
      invariant mutated' == RepeatsUpTo(f, leaves, c, level)
      decreases q
    {
      CarryParts(f, leaves, c, inner[..], level, q, h);
      CarryStep(f, leaves, c, inner[..], level, q, h);
      MatchStep(f, leaves, p, c, level, q, m, matched, branch');
      RepeatStep(f, leaves, c, level, q);
      if matched {
        branch' := branch' + [inner[level]];
      } else if m == level {
        branch' := branch' + [h];
        matched := true;
      }
      mutated' := mutated' || inner[level] == h;
      h := f(inner[level], h);
      level, q := level + 1, q / 2;
      CarryBit(f, leaves, c, inner[..], level, q, h);
    }
    CarryParts(f, leaves, c, inner[..], level, q, h);
    CarryDone(f, leaves, c, inner[..], level, q, h);
    MatchDone(f, leaves, p, c, level, q, m, matched, branch');
    RepeatDone(f, leaves, c, level, q);
    ghost var was := inner[..];
    inner[level] := h;
    assert inner[..] == was[level := h];
    if matched {
      m' := level;
    }
  }

  lemma CarryParts(f: PairHash, leaves: seq<Hash>, c: nat, inner: seq<Hash>, l: nat, q: nat, h: Hash)
    requires Carry(f, leaves, c, inner, l, q, h)
    ensures q < Width(|leaves|, l) && Shr(c, l) == q && h == CalcHash(f, leaves, l, q)
  {}

  // ----- the last branch of the tree

  ghost predicate Wide(n: nat, l: nat) { forall j: nat | j < l :: Width(n, j) > 1 }

  lemma Wider(n: nat, l: nat)
    requires Wide(n, l) && Width(n, l) > 1
    ensures Wide(n, l + 1)
  {
    hide Width;
  }

  /** Looking for the lowest level with an odd number of nodes. */
  ghost predicate Skipping(f: PairHash, leaves: seq<Hash>, inner: seq<Hash>, l: nat, k: nat) {
    && leaves != [] && 0 < k == Width(|leaves|, l) && Shr(|leaves|, l) == k && |leaves| == k * Pow2(l)
    && Holds(f, leaves, inner, l, k) && Wide(|leaves|, l)
  }

  lemma SkipStart(f: PairHash, leaves: seq<Hash>, inner: seq<Hash>)
    requires leaves != [] && |leaves| <= Width(|leaves|, 0) && Holds(f, leaves, inner, 0, |leaves|)
    ensures Skipping(f, leaves, inner, 0, |leaves|)
  {
    Sizes.WidthAtLeaves(|leaves|);
  }

  lemma SkipStep(f: PairHash, leaves: seq<Hash>, inner: seq<Hash>, l: nat, k: nat)
    requires Skipping(f, leaves, inner, l, k) && k % 2 == 0
    ensures Skipping(f, leaves, inner, l + 1, k / 2)
  {
    Sizes.WidthHalves(|leaves|, l + 1);
    Wider(|leaves|, l);
    hide Width, CalcHash, Wide;
    assert k * Pow2(l) == (k / 2) * Pow2(l + 1) by { Halves(k / 2, Pow2(l)); }
  }

  /** The hash of the last node of level l; the nodes before it are kept. */
  ghost predicate Rising(f: PairHash, leaves: seq<Hash>, inner: seq<Hash>, l: nat, k: nat, h: Hash) {
    && leaves != [] && 0 < k == Width(|leaves|, l) && h == CalcHash(f, leaves, l, k - 1)
    && Holds(f, leaves, inner, l, k - 1) && Wide(|leaves|, l)
  }

  lemma RiseStart(f: PairHash, leaves: seq<Hash>, inner: seq<Hash>, l: nat, k: nat)
    requires Skipping(f, leaves, inner, l, k) && k % 2 == 1
    ensures l < |inner| && Rising(f, leaves, inner, l, k, inner[l])
  {
    hide Width, CalcHash, Wide;
  }

  lemma RiseAlone(f: PairHash, leaves: seq<Hash>, inner: seq<Hash>, l: nat, k: nat, h: Hash)
    requires Rising(f, leaves, inner, l, k, h) && k % 2 == 1 && k != 1
    ensures Rising(f, leaves, inner, l + 1, (k + 1) / 2, f(h, h))
  {
    Sizes.WidthHalves(|leaves|, l + 1);
    Wider(|leaves|, l);
    hide Width, CalcHash, Wide;
    Combined(f, leaves, l, (k - 1) / 2);
  }

  lemma RiseJoined(f: PairHash, leaves: seq<Hash>, inner: seq<Hash>, l: nat, k: nat, h: Hash)
    requires Rising(f, leaves, inner, l, k, h) && k % 2 == 0
    ensures l < |inner| && inner[l] == CalcHash(f, leaves, l, k - 2)
    ensures Rising(f, leaves, inner, l + 1, k / 2, f(inner[l], h))
  {
    Sizes.WidthHalves(|leaves|, l + 1);
    Wider(|leaves|, l);
    hide Width, CalcHash, Wide;
    assert (k - 1) / 2 == k / 2 - 1;
    Combined(f, leaves, l, k / 2 - 1);
  }

  lemma Risen(f: PairHash, leaves: seq<Hash>, inner: seq<Hash>, l: nat, h: Hash)
    requires Rising(f, leaves, inner, l, 1, h)
    ensures l == RootHeight(|leaves|, 0) && h == MerkleRoot(f, leaves)
  {
    hide Width, CalcHash, Holds;
    Sizes.RootIs(|leaves|, 0, l);
  }

  lemma RisingParts(f: PairHash, leaves: seq<Hash>, inner: seq<Hash>, l: nat, k: nat, h: Hash)
    requires Rising(f, leaves, inner, l, k, h)
    ensures 0 < k == Width(|leaves|, l) && h == CalcHash(f, leaves, l, k - 1)
  {}

  /** The branch so far, at the last node of level l. */
  ghost predicate Lifting(f: PairHash, leaves: seq<Hash>, p: nat, l: nat, k: nat, m: int, matched: bool,
                          branch: seq<Hash>)
  {
    && k > 0
    && (|| Shr(|leaves|, l) == k - 1
        || (Shr(|leaves|, l) == k && k % 2 == 1 && (!matched && p < |leaves| ==> m > l)))
    && if matched then p < |leaves| && Shr(p, l) == k - 1 && branch == Branch(f, leaves, p, l)
       else Waiting(f, leaves, p, |leaves|, m, branch) && (m == -1 || m >= l)
  }

  lemma LiftStart(f: PairHash, leaves: seq<Hash>, p: nat, l: nat, k: nat, m: int, branch: seq<Hash>)
    requires Waiting(f, leaves, p, |leaves|, m, branch) && (m == -1 || m >= l) && Shr(|leaves|, l) == k && k % 2 == 1
    ensures Lifting(f, leaves, p, l, k, m, m == l, branch)
  {}

  lemma LiftAlone(f: PairHash, leaves: seq<Hash>, p: nat, l: nat, k: nat, m: int, matched: bool, branch: seq<Hash>)
    requires Lifting(f, leaves, p, l, k, m, matched, branch) && k % 2 == 1 && k == Width(|leaves|, l)
    ensures Lifting(f, leaves, p, l + 1, (k + 1) / 2, m, matched,
                    if matched then branch + [CalcHash(f, leaves, l, k - 1)] else branch)
  {
    hide Width, CalcHash;
  }

  lemma LiftJoined(f: PairHash, leaves: seq<Hash>, p: nat, l: nat, k: nat, m: int, matched: bool, branch: seq<Hash>)
    requires Lifting(f, leaves, p, l, k, m, matched, branch) && k % 2 == 0 && k == Width(|leaves|, l)
    ensures var (b, y) := Grown(branch, matched, m, l, CalcHash(f, leaves, l, k - 2), CalcHash(f, leaves, l, k - 1));
            Lifting(f, leaves, p, l + 1, k / 2, m, y, b)
  {
    hide Width, CalcHash;
  }

  lemma Lifted(f: PairHash, leaves: seq<Hash>, p: nat, l: nat, m: int, matched: bool, branch: seq<Hash>)
    requires Lifting(f, leaves, p, l, 1, m, matched, branch)
    ensures branch == if p < |leaves| then Branch(f, leaves, p, l) else []
  {
    if !matched && p < |leaves| { ShrOfOne(|leaves|, l, m); }
  }

  lemma {:induction false} ShrOfOne(n: nat, l: nat, m: nat)
    requires l <= m && Shr(n, l) <= 1
    ensures Shr(n, m) <= (if l < m then 0 else Shr(n, l))
    decreases m
  {
    if l < m { ShrOfOne(n, l, m - 1); }
  }

  /** The leaves there would be with k whole nodes at level l. */
  ghost predicate Makes(count: nat, k: nat, l: nat) { count == k * Pow2(l) }

  lemma CountBit(count: nat, k: nat, l: nat)
    requires Makes(count, k, l)
    ensures Bit(count, l) <==> k % 2 == 1
    ensures count == Pow2(l) <==> k == 1
  {
    ShrOfMultiple(k, l);
    hide Pow2;
    OneTime(k, Pow2(l));
  }

  lemma CountUp(count: nat, k: nat, l: nat)
    requires Makes(count, k, l)
    ensures k % 2 == 1 ==> Makes(count + Pow2(l), (k + 1) / 2, l + 1)
    ensures k % 2 == 0 ==> Makes(count, k / 2, l + 1)
  {
    Double(l);
    hide Pow2;
    if k % 2 == 1 { Halves((k - 1) / 2, Pow2(l)); } else { Halves(k / 2, Pow2(l)); }
  }

  lemma OneTime(k: nat, m: nat)
    requires m >= 1
    ensures k * m == m <==> k == 1
  {
    if k >= 2 { MulMono(2, k, m); }
  }

  /** The sweep ends when its count is a power of two, that of the root's height. The count is a 32-bit number and
      the kept hashes are 32, so the computation works exactly up to 2^31 leaves. */
  lemma SweepFits(n: nat)
    requires n > 0
    ensures Pow2(RootHeight(n, 0)) < Pow2(32) <==> n <= Pow2(31)
  {
    hide RootHeight, Pow2, Width;
    var r := RootHeight(n, 0);
    Double(31);
    if n <= Pow2(31) {
      Sizes.RootAtMost(n, 31);
      Limbs.Pow2Mono(r, 31);
    } else {
      InWidth(n, r, 1);
      if r <= 31 { Limbs.Pow2Mono(r, 31); } else { Limbs.Pow2Mono(32, r); }
    }
  }

  lemma CountFits(n: nat, l: nat, count: nat)
    requires 0 < n <= Pow2(31) && Wide(n, l) && Makes(count, Width(n, l), l)
    ensures l < 32 && count <= Pow2(31)
  {
    hide Pow2, Width;
    InWidth(n, 31, 1);
    if l < 32 {
      Limbs.Pow2Add(31 - l, l);
      InWidth(n, l, Pow2(31 - l));
      MulMono(Width(n, l), Pow2(31 - l), Pow2(l));
    }
  }

  lemma RisingFits(f: PairHash, leaves: seq<Hash>, inner: seq<Hash>, l: nat, k: nat, h: Hash, count: nat)
    requires Rising(f, leaves, inner, l, k, h) && Makes(count, k, l) && |leaves| <= Pow2(31)
    ensures l < 32 && count <= Pow2(31)
  {
    CountFits(|leaves|, l, count);
  }

  method MerkleComputation(f: PairHash, leaves: seq<Hash>, position: nat)
    returns (root: Hash, mutated: bool, branch: seq<Hash>)
    requires |leaves| <= Pow2(31)
    ensures leaves == [] ==> root == NULL_HASH && !mutated && branch == []
    ensures leaves != [] ==> root == MerkleRoot(f, leaves) && mutated == Repeats(f, leaves, |leaves|)
    ensures branch == if position < |leaves| then Branch(f, leaves, position, RootHeight(|leaves|, 0)) else []
  {
    hide Holds, Waiting, Repeats, Width, CalcHash, Skipping, Shr, Pow2, Bit, Branch, MerkleRoot;
    branch, mutated := [], false;
    if leaves == [] {
      return NULL_HASH, false, [];
    }
    var inner := new Hash[32];
    var count, matchLevel := 0, -1;
    NoLeaf(f, leaves, inner[..], position);
    while count < |leaves|
      invariant count <= |leaves| && count <= Width(|leaves|, 0) && Holds(f, leaves, inner[..], 0, count)
      invariant Waiting(f, leaves, position, count, matchLevel, branch) && mutated == Repeats(f, leaves, count)
    {
      matchLevel, branch, mutated :=
        AddLeaf(f, leaves, leaves[count], count, inner, position, matchLevel, branch, mutated);
      count := count + 1;
    }
    root, branch := Sweep(f, leaves, inner, position, matchLevel, branch);
  }

  lemma NoLeaf(f: PairHash, leaves: seq<Hash>, inner: seq<Hash>, p: nat)
    requires leaves != []
    ensures Holds(f, leaves, inner, 0, 0) && Waiting(f, leaves, p, 0, -1, []) && !Repeats(f, leaves, 0)
  {
    forall l: nat ensures Shr(0, l) == 0 { ShrZero(l); }
  }

  lemma {:induction false} ShrZero(l: nat)
    ensures Shr(0, l) == 0
  {
    if l > 0 { ShrZero(l - 1); }
  }

  method LowestBit(f: PairHash, leaves: seq<Hash>, inner: array<Hash>, ghost p: nat, ghost m: int,
                   ghost branch: seq<Hash>) returns (level: nat, ghost k: nat)
    requires leaves != [] && |leaves| <= Width(|leaves|, 0) && Holds(f, leaves, inner[..], 0, |leaves|)
    requires Waiting(f, leaves, p, |leaves|, m, branch)
    ensures Skipping(f, leaves, inner[..], level, k) && k % 2 == 1 && (m == -1 || m >= level)
  {
    hide Holds, Waiting, Width, CalcHash, Skipping, Shr, Pow2, Branch;
    level, k := 0, |leaves|;
    SkipStart(f, leaves, inner[..]);
    WaitingAt(f, leaves, p, m, branch);
    SkipCount(f, leaves, inner[..], level, k);
    while !Bit(|leaves|, level)
      invariant Skipping(f, leaves, inner[..], level, k) && Shr(|leaves|, level) == k > 0
      invariant m == -1 || m >= level
      decreases k
    {
      SkipStep(f, leaves, inner[..], level, k);
      level, k := level + 1, k / 2;
      SkipCount(f, leaves, inner[..], level, k);
    }
  }

  lemma SkipCount(f: PairHash, leaves: seq<Hash>, inner: seq<Hash>, l: nat, k: nat)
    requires Skipping(f, leaves, inner, l, k)
    ensures Shr(|leaves|, l) == k > 0 && Makes(|leaves|, k, l)
  {}

  lemma WaitingAt(f: PairHash, leaves: seq<Hash>, p: nat, m: int, branch: seq<Hash>)
    requires Waiting(f, leaves, p, |leaves|, m, branch)
    ensures m >= -1 && (m >= 0 ==> Bit(|leaves|, m))
  {}

  method Sweep(f: PairHash, leaves: seq<Hash>, inner: array<Hash>, p: nat, m: int, branch0: seq<Hash>)
    returns (h: Hash, branch: seq<Hash>)
    requires leaves != [] && |leaves| <= Width(|leaves|, 0) && Holds(f, leaves, inner[..], 0, |leaves|)
    requires Waiting(f, leaves, p, |leaves|, m, branch0) && |leaves| <= Pow2(31)
    ensures h == MerkleRoot(f, leaves)
    ensures branch == if p < |leaves| then Branch(f, leaves, p, RootHeight(|leaves|, 0)) else []
  {
    hide Holds, Waiting, Width, CalcHash, Skipping, Rising, Lifting, Shr, Pow2, Branch, MerkleRoot, Makes;
    ghost var k: nat;
    var level: nat;
    level, k := LowestBit(f, leaves, inner, p, m, branch0);
    SkipCount(f, leaves, inner[..], level, k);
    RiseStart(f, leaves, inner[..], level, k);
    LiftStart(f, leaves, p, level, k, m, branch0);
    h, branch := inner[level], branch0;
    var matched, count: nat := m == level, |leaves|;
    CountBit(count, k, level);
    RisingFits(f, leaves, inner[..], level, k, h, count);
    while count != Pow2(level)
      invariant Rising(f, leaves, inner[..], level, k, h) && Lifting(f, leaves, p, level, k, m, matched, branch)
      invariant k % 2 == 1 && Makes(count, k, level) && (count == Pow2(level) <==> k == 1)
      invariant level < 32 && count <= Pow2(31)
      decreases k
    {
      RisingParts(f, leaves, inner[..], level, k, h);
      RiseAlone(f, leaves, inner[..], level, k, h);
      LiftAlone(f, leaves, p, level, k, m, matched, branch);
      CountUp(count, k, level);
      if matched {
        branch := branch + [h];
      }
      h := f(h, h);
      count := count + Pow2(level);
      level, k := level + 1, (k + 1) / 2;
      level, h, matched, branch, k := Join(f, leaves, inner, p, m, count, level, h, matched, branch, k);
      CountBit(count, k, level);
      RisingFits(f, leaves, inner[..], level, k, h, count);
    }
    Risen(f, leaves, inner[..], level, h);
    Lifted(f, leaves, p, level, m, matched, branch);
  }

  /** The last node is joined with the kept one before it, as long as there is one. */
  method Join(f: PairHash, ghost leaves: seq<Hash>, inner: array<Hash>, ghost p: nat, m: int, count: nat, level0: nat,
              h0: Hash, matched0: bool, branch0: seq<Hash>, ghost k0: nat)
    returns (level: nat, h: Hash, matched: bool, branch: seq<Hash>, ghost k: nat)
    requires Rising(f, leaves, inner[..], level0, k0, h0) && Lifting(f, leaves, p, level0, k0, m, matched0, branch0)
    requires Makes(count, k0, level0) && k0 > 0 && |leaves| <= Pow2(31)
    ensures Rising(f, leaves, inner[..], level, k, h) && Lifting(f, leaves, p, level, k, m, matched, branch)
    ensures Makes(count, k, level) && k % 2 == 1 && k <= k0
  {
    hide Holds, Waiting, Width, CalcHash, Rising, Lifting, Shr, Pow2, Branch, Makes, Bit;
    level, h, matched, branch, k := level0, h0, matched0, branch0, k0;
    CountBit(count, k, level);
    RisingFits(f, leaves, inner[..], level, k, h, count);
    while !Bit(count, level)
      invariant Rising(f, leaves, inner[..], level, k, h) && Lifting(f, leaves, p, level, k, m, matched, branch)
      invariant 0 < k <= k0 && Makes(count, k, level) && (Bit(count, level) <==> k % 2 == 1)
      invariant level < 32 && count <= Pow2(31)
      decreases k
    {
      RisingParts(f, leaves, inner[..], level, k, h);
      RiseJoined(f, leaves, inner[..], level, k, h);
      LiftJoined(f, leaves, p, level, k, m, matched, branch);
      CountUp(count, k, level);
      if matched {
        branch := branch + [inner[level]];
      } else if m == level {
        branch := branch + [h];
        matched := true;
      }
      h := f(inner[level], h);
      level, k := level + 1, k / 2;
      CountBit(count, k, level);
      RisingFits(f, leaves, inner[..], level, k, h, count);
    }
  }
}
