/** Merkle trees over transaction ids and the partial tree of section "Partial Merkle branch format"
    of BIP 37: building and extracting as functions, soundness and completeness. */
module Merkle {
  import opened Prelude

  const MAX_BLOCK_SIZE := 1000000

  type Hash = nat
  type PairHash = (Hash, Hash) -> Hash

  const NULL_HASH: Hash := 0

  ghost predicate Injective(f: PairHash) {
    forall a, b, c, d :: f(a, b) == f(c, d) ==> a == c && b == d
  }

  lemma Unpair(f: PairHash, a: Hash, b: Hash, c: Hash, d: Hash)
    requires Injective(f) && f(a, b) == f(c, d)
    ensures a == c && b == d
  {
  }

  // ----- tree shape

  /** The number of nodes at a height: (n + (1 << height) - 1) >> height. */
  function Width(n: nat, height: nat): nat { (n + Pow2(height) - 1) / Pow2(height) }

  /** Node `k` exists exactly when its first leaf does. */
  lemma InWidth(n: nat, height: nat, k: nat)
    ensures k < Width(n, height) <==> k * Pow2(height) < n
  {
    Ceiling(n, Pow2(height), k);
  }

  lemma Ceiling(n: nat, m: nat, k: nat)
    requires m >= 1
    ensures k < (n + m - 1) / m <==> k * m < n
  {
    var q := (n + m - 1) / m;
    var r := (n + m - 1) % m;
    assert q * m + r == n + m - 1;
    if k < q {
      assert (k + 1) * m <= q * m by { MulMono(k + 1, q, m); }
      assert (k + 1) * m == k * m + m;
    } else {
      assert q * m <= k * m by { MulMono(q, k, m); }
    }
  }

  lemma MulMono(a: nat, b: nat, m: nat)
    requires a <= b
    ensures a * m <= b * m
  {
    assert b * m == a * m + (b - a) * m;
  }

  function Lo(height: nat, pos: nat): nat { pos * Pow2(height) }
  function Hi(n: nat, height: nat, pos: nat): nat {
    if (pos + 1) * Pow2(height) < n then (pos + 1) * Pow2(height) else n
  }

  /** A node's leaves are those of its left child followed by those of its right child, if any. */
  lemma Children(n: nat, height: nat, pos: nat)
    requires height > 0 && pos < Width(n, height)
    ensures 2 * pos < Width(n, height - 1)
    ensures Lo(height - 1, 2 * pos) == Lo(height, pos)
    ensures 2 * pos + 1 < Width(n, height - 1) ==>
              Hi(n, height - 1, 2 * pos) == Lo(height - 1, 2 * pos + 1)
                && Hi(n, height - 1, 2 * pos + 1) == Hi(n, height, pos)
    ensures 2 * pos + 1 >= Width(n, height - 1) ==> Hi(n, height - 1, 2 * pos) == Hi(n, height, pos) == n
    ensures Lo(height, pos) < Hi(n, height, pos) <= n
  {
    var m := Pow2(height - 1);
    assert Pow2(height) == 2 * m;
    InWidth(n, height, pos);
    InWidth(n, height - 1, 2 * pos);
    InWidth(n, height - 1, 2 * pos + 1);
    hide Width, Pow2;
    Halves(pos, m);
  }

  lemma Halves(pos: nat, m: nat)
    ensures (2 * pos) * m == pos * (2 * m)
    ensures (2 * pos + 1) * m == pos * (2 * m) + m
    ensures (2 * pos + 1 + 1) * m == pos * (2 * m) + 2 * m
    ensures (pos + 1) * (2 * m) == pos * (2 * m) + 2 * m
  {
  }

  lemma LeafRange(n: nat, pos: nat)
    requires pos < Width(n, 0)
    ensures pos < n && Lo(0, pos) == pos && Hi(n, 0, pos) == pos + 1
  {
    InWidth(n, 0, pos);
  }

  function CalcHash(f: PairHash, txids: seq<Hash>, height: nat, pos: nat): Hash
    requires pos < Width(|txids|, height)
    decreases height
  {
    if height == 0 then LeafRange(|txids|, pos); txids[pos]
    else
      Children(|txids|, height, pos);
      var left := CalcHash(f, txids, height - 1, 2 * pos);
      var right := if 2 * pos + 1 < Width(|txids|, height - 1) then CalcHash(f, txids, height - 1, 2 * pos + 1)
        else left;
      f(left, right)
  }

  predicate Distinct(txids: seq<Hash>) { forall i, j | 0 <= i < j < |txids| :: txids[i] != txids[j] }

  /** Different nodes of one level have different hashes. */
  lemma {:induction false} NodesDiffer(f: PairHash, txids: seq<Hash>, height: nat, p: nat, q: nat)
    requires Injective(f) && Distinct(txids) && p < Width(|txids|, height) && q < Width(|txids|, height) && p != q
    ensures CalcHash(f, txids, height, p) != CalcHash(f, txids, height, q)
    decreases height
  {
    if height == 0 {
      LeafRange(|txids|, p);
      LeafRange(|txids|, q);
    } else {
      Children(|txids|, height, p);
      Children(|txids|, height, q);
      NodesDiffer(f, txids, height - 1, 2 * p, 2 * q);
    }
  }

  // ----- building

  predicate AnyMatch(match_: seq<bool>, lo: nat, hi: nat)
    requires lo <= hi <= |match_|
  {
    exists p | lo <= p < hi :: match_[p]
  }

  /** The flag bits and hashes that a node contributes, in depth-first order. */
  function Build(f: PairHash, txids: seq<Hash>, match_: seq<bool>, height: nat, pos: nat): (seq<bool>, seq<Hash>)
    requires |match_| == |txids| && pos < Width(|txids|, height)
    decreases height
  {
    RangeOk(|txids|, height, pos);
    var any := AnyMatch(match_, Lo(height, pos), Hi(|txids|, height, pos));
    if height == 0 || !any then ([any], [CalcHash(f, txids, height, pos)])
    else
      Children(|txids|, height, pos);
      var (lb, lh) := Build(f, txids, match_, height - 1, 2 * pos);
      if 2 * pos + 1 < Width(|txids|, height - 1) then
        var (rb, rh) := Build(f, txids, match_, height - 1, 2 * pos + 1);
        ([any] + lb + rb, lh + rh)
      else ([any] + lb, lh)
  }

  lemma RangeOk(n: nat, height: nat, pos: nat)
    requires pos < Width(n, height)
    ensures Lo(height, pos) < Hi(n, height, pos) <= n
  {
    InWidth(n, height, pos);
    assert (pos + 1) * Pow2(height) == pos * Pow2(height) + Pow2(height);
  }

  /** The matched transactions among leaves lo..hi, with their indices, in order. */
  function Selected(txids: seq<Hash>, match_: seq<bool>, lo: nat, hi: nat): seq<(nat, Hash)>
    requires |match_| == |txids| && lo <= hi <= |txids|
    decreases hi - lo
  {
    if lo == hi then []
    else (if match_[lo] then [(lo, txids[lo])] else []) + Selected(txids, match_, lo + 1, hi)
  }

  lemma {:induction false} SelectedSplit(txids: seq<Hash>, match_: seq<bool>, lo: nat, mid: nat, hi: nat)
    requires |match_| == |txids| && lo <= mid <= hi <= |txids|
    ensures Selected(txids, match_, lo, hi) == Selected(txids, match_, lo, mid) + Selected(txids, match_, mid, hi)
    decreases mid - lo
  {
    if lo < mid { SelectedSplit(txids, match_, lo + 1, mid, hi); }
  }

  lemma {:induction false} SelectedNone(txids: seq<Hash>, match_: seq<bool>, lo: nat, hi: nat)
    requires |match_| == |txids| && lo <= hi <= |txids|
    ensures Selected(txids, match_, lo, hi) == [] <==> !AnyMatch(match_, lo, hi)
    decreases hi - lo
  {
    if lo < hi {
      SelectedNone(txids, match_, lo + 1, hi);
    }
  }

  // ----- extracting

  /** The state of a traversal: bits and hashes used so far, matches found, and the failure flag. */
  datatype Walk = Walk(bits: nat, hashes: nat, found: seq<(nat, Hash)>, bad: bool)

  function Extract(f: PairHash, n: nat, vBits: seq<bool>, vHash: seq<Hash>,
                   height: nat, pos: nat, w: Walk): (Walk, Hash)
    requires pos < Width(n, height)
    decreases height
  {
    if w.bits >= |vBits| then (w.(bad := true), NULL_HASH)
    else
      var parent := vBits[w.bits];
      var w1 := w.(bits := w.bits + 1);
      if height == 0 || !parent then
        if w1.hashes >= |vHash| then (w1.(bad := true), NULL_HASH)
        else
          var h := vHash[w1.hashes];
          var w2 := w1.(hashes := w1.hashes + 1);
          (if height == 0 && parent then w2.(found := w2.found + [(pos, h)]) else w2, h)
      else
        Children(n, height, pos);
        var (wl, left) := Extract(f, n, vBits, vHash, height - 1, 2 * pos, w1);
        if 2 * pos + 1 < Width(n, height - 1) then
          var (wr, right) := Extract(f, n, vBits, vHash, height - 1, 2 * pos + 1, wl);
          (if right == left then wr.(bad := true) else wr, f(left, right))
        else (wl, f(left, left))
  }

  lemma {:induction false} ExtractGrows(f: PairHash, n: nat, vBits: seq<bool>, vHash: seq<Hash>, height: nat,
                                        pos: nat, w: Walk)
    requires pos < Width(n, height)
    ensures var w' := Extract(f, n, vBits, vHash, height, pos, w).0; w.found <= w'.found && (w.bad ==> w'.bad)
    decreases height
  {
    if w.bits < |vBits| && height > 0 && vBits[w.bits] {
      Children(n, height, pos);
      hide Width;
      var w1 := w.(bits := w.bits + 1);
      ExtractGrows(f, n, vBits, vHash, height - 1, 2 * pos, w1);
      if 2 * pos + 1 < Width(n, height - 1) {
        ExtractGrows(f, n, vBits, vHash, height - 1, 2 * pos + 1,
                     Extract(f, n, vBits, vHash, height - 1, 2 * pos, w1).0);
      }
    }
  }

  /** Soundness below a node: whatever the bits and hashes, if a traversal without failure arrives at
      the node's true hash, all it found there is true. */
  lemma {:induction false} SoundBelow(f: PairHash, txids: seq<Hash>, vBits: seq<bool>, vHash: seq<Hash>,
                                      height: nat, pos: nat, w: Walk)
    requires Injective(f) && pos < Width(|txids|, height)
    requires var (w', h) := Extract(f, |txids|, vBits, vHash, height, pos, w);
             !w'.bad && h == CalcHash(f, txids, height, pos)
    ensures var w' := Extract(f, |txids|, vBits, vHash, height, pos, w).0;
            w.found <= w'.found && Genuine(txids, w'.found[|w.found|..])
    decreases height
  {
    hide Injective, Pow2, Lo, Hi, Width;
    ExtractGrows(f, |txids|, vBits, vHash, height, pos, w);
    if height == 0 {
      LeafRange(|txids|, pos);
    } else if vBits[w.bits] {
      Children(|txids|, height, pos);
      hide Genuine;
      var w1 := w.(bits := w.bits + 1);
      var (wl, left) := Extract(f, |txids|, vBits, vHash, height - 1, 2 * pos, w1);
      ExtractGrows(f, |txids|, vBits, vHash, height - 1, 2 * pos, w1);
      if 2 * pos + 1 < Width(|txids|, height - 1) {
        ExtractGrows(f, |txids|, vBits, vHash, height - 1, 2 * pos + 1, wl);
        var (wr, right) := Extract(f, |txids|, vBits, vHash, height - 1, 2 * pos + 1, wl);
        Unpair(f, left, right, CalcHash(f, txids, height - 1, 2 * pos), CalcHash(f, txids, height - 1, 2 * pos + 1));
        SoundBelow(f, txids, vBits, vHash, height - 1, 2 * pos, w1);
        SoundBelow(f, txids, vBits, vHash, height - 1, 2 * pos + 1, wl);
        GenuineAppend(txids, w.found, wl.found, wr.found);
      } else {
        Unpair(f, left, left, CalcHash(f, txids, height - 1, 2 * pos), CalcHash(f, txids, height - 1, 2 * pos));
        SoundBelow(f, txids, vBits, vHash, height - 1, 2 * pos, w1);
      }
    }
  }

  /** Each pair is a transaction of the block at its index. */
  predicate Genuine(txids: seq<Hash>, found: seq<(nat, Hash)>) {
    forall k | 0 <= k < |found| :: found[k].0 < |txids| && txids[found[k].0] == found[k].1
  }

  lemma GenuineAppend(txids: seq<Hash>, a: seq<(nat, Hash)>, b: seq<(nat, Hash)>, c: seq<(nat, Hash)>)
    requires a <= b <= c && Genuine(txids, b[|a|..]) && Genuine(txids, c[|b|..])
    ensures Genuine(txids, c[|a|..])
  {
    assert c[|a|..] == b[|a|..] + c[|b|..];
  }

  // ----- completeness

  /** What a correct traversal of a node leaves behind. */
  function After(txids: seq<Hash>, match_: seq<bool>, height: nat, pos: nat, w: Walk, bits: nat, hashes: nat,
                 clash: bool): Walk
    requires |match_| == |txids| && pos < Width(|txids|, height)
  {
    RangeOk(|txids|, height, pos);
    Walk(w.bits + bits, w.hashes + hashes,
         w.found + Selected(txids, match_, Lo(height, pos), Hi(|txids|, height, pos)), w.bad || clash)
  }

  /** A node that is walked below has two children with the same hash. */
  predicate Twins(f: PairHash, txids: seq<Hash>, match_: seq<bool>, height: nat, pos: nat)
    requires |match_| == |txids|
  {
    && height > 0 && pos < Width(|txids|, height) && 2 * pos + 1 < Width(|txids|, height - 1)
    && Lo(height, pos) <= Hi(|txids|, height, pos) <= |txids|
    && AnyMatch(match_, Lo(height, pos), Hi(|txids|, height, pos))
    && CalcHash(f, txids, height - 1, 2 * pos) == CalcHash(f, txids, height - 1, 2 * pos + 1)
  }

  /** Twins at a node or below it. */
  predicate Clash(f: PairHash, txids: seq<Hash>, match_: seq<bool>, height: nat, pos: nat)
    requires |match_| == |txids| && pos < Width(|txids|, height)
    decreases height
  {
    RangeOk(|txids|, height, pos);
    if height == 0 || !AnyMatch(match_, Lo(height, pos), Hi(|txids|, height, pos)) then false
    else
      Children(|txids|, height, pos);
      || Clash(f, txids, match_, height - 1, 2 * pos)
      || (2 * pos + 1 < Width(|txids|, height - 1) &&
          (Clash(f, txids, match_, height - 1, 2 * pos + 1) || Twins(f, txids, match_, height, pos)))
  }

  /** Different transactions make no twins. */
  lemma {:induction false} NoClash(f: PairHash, txids: seq<Hash>, match_: seq<bool>, height: nat, pos: nat)
    requires Injective(f) && Distinct(txids) && |match_| == |txids| && pos < Width(|txids|, height)
    ensures !Clash(f, txids, match_, height, pos)
    decreases height
  {
    hide Injective, Distinct, Width, Pow2, Lo, Hi, AnyMatch, CalcHash;
    if height > 0 {
      Children(|txids|, height, pos);
      NoClash(f, txids, match_, height - 1, 2 * pos);
      if 2 * pos + 1 < Width(|txids|, height - 1) {
        NoClash(f, txids, match_, height - 1, 2 * pos + 1);
        NodesDiffer(f, txids, height - 1, 2 * pos, 2 * pos + 1);
      }
    }
  }

  ghost predicate At<T>(s: seq<T>, i: nat, part: seq<T>) { i + |part| <= |s| && s[i..i + |part|] == part }

  lemma AtSplit<T>(s: seq<T>, i: nat, a: seq<T>, b: seq<T>)
    requires At(s, i, a + b)
    ensures At(s, i, a) && At(s, i + |a|, b)
  {
    assert a == (a + b)[..|a|] && b == (a + b)[|a|..];
    assert s[i..i + |a + b|][..|a|] == s[i..i + |a|];
    assert s[i..i + |a + b|][|a|..] == s[i + |a|..i + |a| + |b|];
  }

  /** Building and extracting at a node with a match below it, one step unfolded. */
  lemma InnerSteps(f: PairHash, txids: seq<Hash>, match_: seq<bool>, vBits: seq<bool>, vHash: seq<Hash>,
                   height: nat, pos: nat, w: Walk)
    requires |match_| == |txids| && height > 0 && pos < Width(|txids|, height)
    requires 2 * pos < Width(|txids|, height - 1)
    requires Lo(height, pos) <= Hi(|txids|, height, pos) <= |match_|
    requires AnyMatch(match_, Lo(height, pos), Hi(|txids|, height, pos))
    ensures var n := |txids|;
            var (lb, lh) := Build(f, txids, match_, height - 1, 2 * pos);
            Build(f, txids, match_, height, pos)
            == if 2 * pos + 1 < Width(n, height - 1)
               then var (rb, rh) := Build(f, txids, match_, height - 1, 2 * pos + 1); ([true] + lb + rb, lh + rh)
               else ([true] + lb, lh)
    ensures w.bits < |vBits| && vBits[w.bits] ==>
              var n := |txids|;
              var (wl, left) := Extract(f, n, vBits, vHash, height - 1, 2 * pos, w.(bits := w.bits + 1));
              Extract(f, n, vBits, vHash, height, pos, w)
              == if 2 * pos + 1 < Width(n, height - 1)
                 then var (wr, right) := Extract(f, n, vBits, vHash, height - 1, 2 * pos + 1, wl);
                      (if right == left then wr.(bad := true) else wr, f(left, right))
                 else (wl, f(left, left))
    ensures var left := CalcHash(f, txids, height - 1, 2 * pos);
            CalcHash(f, txids, height, pos)
            == f(left, if 2 * pos + 1 < Width(|txids|, height - 1)
                       then CalcHash(f, txids, height - 1, 2 * pos + 1) else left)
  {
    hide Width, Pow2, Lo, Hi, AnyMatch;
  }

  /** Completeness below a node: the traversal consumes exactly what building wrote, arrives at the
      node's hash, finds exactly the matched transactions and fails exactly on twins. */
  lemma {:induction false} CompleteBelow(f: PairHash, txids: seq<Hash>, match_: seq<bool>, vBits: seq<bool>,
                                         vHash: seq<Hash>, height: nat, pos: nat, w: Walk)
    requires |match_| == |txids| && pos < Width(|txids|, height)
    requires var (b, h) := Build(f, txids, match_, height, pos); At(vBits, w.bits, b) && At(vHash, w.hashes, h)
    ensures var (b, h) := Build(f, txids, match_, height, pos);
            Extract(f, |txids|, vBits, vHash, height, pos, w)
            == (After(txids, match_, height, pos, w, |b|, |h|, Clash(f, txids, match_, height, pos)),
                CalcHash(f, txids, height, pos))
    decreases height
  {
    hide Width, Pow2, Lo, Hi, AnyMatch, Selected, After, Build, Extract, CalcHash, At, Clash;
    RangeOk(|txids|, height, pos);
    if height == 0 || !AnyMatch(match_, Lo(height, pos), Hi(|txids|, height, pos)) {
      CompleteLeaf(f, txids, match_, vBits, vHash, height, pos, w);
    } else {
      Children(|txids|, height, pos);
      InnerSteps(f, txids, match_, vBits, vHash, height, pos, w);
      ClashStep(f, txids, match_, height, pos);
      var w1 := w.(bits := w.bits + 1);
      var (lb, lh) := Build(f, txids, match_, height - 1, 2 * pos);
      var (b, h) := Build(f, txids, match_, height, pos);
      var cl := Clash(f, txids, match_, height - 1, 2 * pos);
      var wl := After(txids, match_, height - 1, 2 * pos, w1, |lb|, |lh|, cl);
      if 2 * pos + 1 < Width(|txids|, height - 1) {
        var (rb, rh) := Build(f, txids, match_, height - 1, 2 * pos + 1);
        var cr := Clash(f, txids, match_, height - 1, 2 * pos + 1);
        AtParts(vBits, w.bits, lb, rb);
        AtSplit(vHash, w.hashes, lh, rh);
        AfterBoth(txids, match_, height, pos, w, |lb|, |lh|, |rb|, |rh|, cl, cr);
        CompleteBelow(f, txids, match_, vBits, vHash, height - 1, 2 * pos, w1);
        CompleteBelow(f, txids, match_, vBits, vHash, height - 1, 2 * pos + 1, wl);
        AfterBad(txids, match_, height, pos, w, 1 + |lb| + |rb|, |lh| + |rh|, cl || cr);
      } else {
        assert [true] + lb + [] == [true] + lb;
        AtParts(vBits, w.bits, lb, []);
        AfterOne(txids, match_, height, pos, w, |lb|, |lh|, cl);
        CompleteBelow(f, txids, match_, vBits, vHash, height - 1, 2 * pos, w1);
      }
    }
  }

  lemma ClashStep(f: PairHash, txids: seq<Hash>, match_: seq<bool>, height: nat, pos: nat)
    requires |match_| == |txids| && height > 0 && pos < Width(|txids|, height)
    requires 2 * pos < Width(|txids|, height - 1)
    requires Lo(height, pos) <= Hi(|txids|, height, pos) <= |match_|
    requires AnyMatch(match_, Lo(height, pos), Hi(|txids|, height, pos))
    ensures Clash(f, txids, match_, height, pos)
            == (|| Clash(f, txids, match_, height - 1, 2 * pos)
                || (2 * pos + 1 < Width(|txids|, height - 1) &&
                    (|| Clash(f, txids, match_, height - 1, 2 * pos + 1)
                     || CalcHash(f, txids, height - 1, 2 * pos) == CalcHash(f, txids, height - 1, 2 * pos + 1))))
  {
    hide Width, Pow2, Lo, Hi, AnyMatch, CalcHash;
  }

  lemma AfterBad(txids: seq<Hash>, match_: seq<bool>, height: nat, pos: nat, w: Walk, bits: nat, hashes: nat,
                 clash: bool)
    requires |match_| == |txids| && pos < Width(|txids|, height)
    ensures After(txids, match_, height, pos, w, bits, hashes, clash).(bad := true)
            == After(txids, match_, height, pos, w, bits, hashes, true)
  {}

  lemma AtParts(s: seq<bool>, i: nat, a: seq<bool>, b: seq<bool>)
    requires At(s, i, [true] + a + b)
    ensures i < |s| && s[i] && At(s, i + 1, a) && At(s, i + 1 + |a|, b)
  {
    assert [true] + a + b == [true] + (a + b);
    AtSplit(s, i, [true], a + b);
    AtSplit(s, i + 1, a, b);
    assert s[i..i + 1][0];
  }

  lemma AfterBoth(txids: seq<Hash>, match_: seq<bool>, height: nat, pos: nat, w: Walk, lb: nat, lh: nat, rb: nat,
                  rh: nat, cl: bool, cr: bool)
    requires |match_| == |txids| && height > 0 && pos < Width(|txids|, height)
             && 2 * pos + 1 < Width(|txids|, height - 1)
    ensures var wl := After(txids, match_, height - 1, 2 * pos, w.(bits := w.bits + 1), lb, lh, cl);
            After(txids, match_, height - 1, 2 * pos + 1, wl, rb, rh, cr)
              == After(txids, match_, height, pos, w, 1 + lb + rb, lh + rh, cl || cr)
            && wl.bits == w.bits + 1 + lb && wl.hashes == w.hashes + lh
  {
    Children(|txids|, height, pos);
    RangeOk(|txids|, height, pos);
    RangeOk(|txids|, height - 1, 2 * pos);
    RangeOk(|txids|, height - 1, 2 * pos + 1);
    hide Width, Pow2, Lo, Hi, Selected;
    SelectedSplit(txids, match_, Lo(height, pos), Lo(height - 1, 2 * pos + 1), Hi(|txids|, height, pos));
  }

  lemma AfterOne(txids: seq<Hash>, match_: seq<bool>, height: nat, pos: nat, w: Walk, lb: nat, lh: nat, cl: bool)
    requires |match_| == |txids| && height > 0 && pos < Width(|txids|, height)
             && 2 * pos + 1 >= Width(|txids|, height - 1)
    ensures 2 * pos < Width(|txids|, height - 1)
    ensures After(txids, match_, height - 1, 2 * pos, w.(bits := w.bits + 1), lb, lh, cl)
            == After(txids, match_, height, pos, w, 1 + lb, lh, cl)
  {
    Children(|txids|, height, pos);
    hide Width, Pow2, Lo, Hi, Selected;
  }

  lemma CompleteLeaf(f: PairHash, txids: seq<Hash>, match_: seq<bool>, vBits: seq<bool>, vHash: seq<Hash>,
                     height: nat, pos: nat, w: Walk)
    requires |match_| == |txids| && pos < Width(|txids|, height)
    requires var (b, h) := Build(f, txids, match_, height, pos); At(vBits, w.bits, b) && At(vHash, w.hashes, h)
    requires Lo(height, pos) <= Hi(|txids|, height, pos) <= |match_|
    requires height == 0 || !AnyMatch(match_, Lo(height, pos), Hi(|txids|, height, pos))
    ensures var (b, h) := Build(f, txids, match_, height, pos);
            Extract(f, |txids|, vBits, vHash, height, pos, w)
            == (After(txids, match_, height, pos, w, |b|, |h|, Clash(f, txids, match_, height, pos)),
                CalcHash(f, txids, height, pos))
  {
    hide Width, Pow2, Lo, Hi, AnyMatch, Selected;
    SelectedNone(txids, match_, Lo(height, pos), Hi(|txids|, height, pos));
    if height == 0 { LeafRange(|txids|, pos); LeafSelected(txids, match_, pos); }
    var (b, h) := Build(f, txids, match_, height, pos);
    assert vBits[w.bits..w.bits + 1][0] == b[0];
    assert vHash[w.hashes..w.hashes + 1][0] == h[0];
    assert w.found + [] == w.found;
  }

  lemma LeafSelected(txids: seq<Hash>, match_: seq<bool>, pos: nat)
    requires |match_| == |txids| && pos < |txids|
    ensures Selected(txids, match_, pos, pos + 1) == if match_[pos] then [(pos, txids[pos])] else []
    ensures AnyMatch(match_, pos, pos + 1) == match_[pos]
  {
    assert Selected(txids, match_, pos + 1, pos + 1) == [];
  }

  // ----- size bounds

  /** A node contributes at most one hash per leaf below it, at most 1 + matches * height hashes, and
      at least one bit per hash. */
  lemma {:induction false} BuildSizes(f: PairHash, txids: seq<Hash>, match_: seq<bool>, height: nat, pos: nat)
    requires |match_| == |txids| && pos < Width(|txids|, height)
    ensures var (b, h) := Build(f, txids, match_, height, pos); var lo, hi := Lo(height, pos), Hi(|txids|, height, pos);
            && lo < hi <= |txids|
            && |h| <= hi - lo
            && |h| <= 1 + |Selected(txids, match_, lo, hi)| * height
            && |h| <= |b|
    decreases height
  {
    hide Width, Pow2, Lo, Hi, AnyMatch, Selected, Build;
    RangeOk(|txids|, height, pos);
    var n, lo, hi := |txids|, Lo(height, pos), Hi(|txids|, height, pos);
    SelectedNone(txids, match_, lo, hi);
    if height == 0 || !AnyMatch(match_, lo, hi) {
      BuildLeaf(f, txids, match_, height, pos);
    } else {
      Children(n, height, pos);
      InnerSteps(f, txids, match_, [], [], height, pos, Walk(0, 0, [], false));
      BuildSizes(f, txids, match_, height - 1, 2 * pos);
      var m := |Selected(txids, match_, lo, hi)|;
      if 2 * pos + 1 < Width(n, height - 1) {
        BuildSizes(f, txids, match_, height - 1, 2 * pos + 1);
        var mid := Lo(height - 1, 2 * pos + 1);
        SelectedSplit(txids, match_, lo, mid, hi);
        var m1, m2 := |Selected(txids, match_, lo, mid)|, |Selected(txids, match_, mid, hi)|;
        SumBound(m1, m2, height);
      } else {
        SumBound(m, 0, height);
      }
    }
  }

  lemma SumBound(m1: nat, m2: nat, height: nat)
    requires height > 0 && m1 + m2 > 0
    ensures 1 + m1 * (height - 1) + 1 + m2 * (height - 1) <= 1 + (m1 + m2) * height
    ensures 1 + m1 * (height - 1) <= 1 + m1 * height
  {
    assert (m1 + m2) * height == m1 * (height - 1) + m2 * (height - 1) + (m1 + m2);
  }

  lemma BuildLeaf(f: PairHash, txids: seq<Hash>, match_: seq<bool>, height: nat, pos: nat)
    requires |match_| == |txids| && pos < Width(|txids|, height)
             && Lo(height, pos) <= Hi(|txids|, height, pos) <= |txids|
    requires height == 0 || !AnyMatch(match_, Lo(height, pos), Hi(|txids|, height, pos))
    ensures |Build(f, txids, match_, height, pos).0| == 1 == |Build(f, txids, match_, height, pos).1|
  {
  }

  // ----- the whole tree

  /** The first height with a single node. */
  function RootHeight(n: nat, h: nat): (r: nat)
    requires n > 0
    ensures Width(n, r) == 1
    decreases n - Pow2(h)
  {
    InWidth(n, h, 0);
    InWidth(n, h, 1);
    if Width(n, h) > 1 then RootHeight(n, h + 1) else h
  }

  function MerkleRoot(f: PairHash, txids: seq<Hash>): Hash
    requires txids != []
  {
    CalcHash(f, txids, RootHeight(|txids|, 0), 0)
  }

  lemma RootCoversAll(n: nat)
    requires n > 0
    ensures Lo(RootHeight(n, 0), 0) == 0 && Hi(n, RootHeight(n, 0), 0) == n
  {
    InWidth(n, RootHeight(n, 0), 1);
  }

  datatype PartialTree = PartialTree(n: nat, vBits: seq<bool>, vHash: seq<Hash>)

  function BuildTree(f: PairHash, txids: seq<Hash>, match_: seq<bool>): PartialTree
    requires txids != [] && |match_| == |txids|
  {
    var (b, h) := Build(f, txids, match_, RootHeight(|txids|, 0), 0);
    PartialTree(|txids|, b, h)
  }

  /** ExtractMatches: the root, or zero on any failure, and the pairs found. */
  function ExtractMatches(f: PairHash, t: PartialTree): (Hash, seq<(nat, Hash)>) {
    if t.n == 0 || t.n > MAX_BLOCK_SIZE / 60 || |t.vHash| > t.n || |t.vBits| < |t.vHash| then (NULL_HASH, [])
    else
      var (w, root) := Extract(f, t.n, t.vBits, t.vHash, RootHeight(t.n, 0), 0, Walk(0, 0, [], false));
      if w.bad || (w.bits + 7) / 8 != (|t.vBits| + 7) / 8 || w.hashes != |t.vHash| then (NULL_HASH, w.found)
      else (root, w.found)
  }

  /** Soundness: for any partial tree, even an adversarial one, that extracts to the block's non-zero
      root with the block's transaction count, every extracted pair is a transaction of the block at
      its index. */
  lemma Sound(f: PairHash, txids: seq<Hash>, t: PartialTree)
    requires Injective(f) && txids != [] && t.n == |txids|
    requires ExtractMatches(f, t).0 == MerkleRoot(f, txids) != NULL_HASH
    ensures Genuine(txids, ExtractMatches(f, t).1)
  {
    hide Injective, Genuine, Width, Extract, CalcHash;
    var h, w := RootHeight(t.n, 0), Walk(0, 0, [], false);
    SoundBelow(f, txids, t.vBits, t.vHash, h, 0, w);
    var found := Extract(f, t.n, t.vBits, t.vHash, h, 0, w).0.found;
    assert found[0..] == found;
  }

  /** The flag bits after a trip through the byte form: padded with false to whole bytes. */
  function Padded(bits: seq<bool>): (r: seq<bool>)
    ensures |r| == (|bits| + 7) / 8 * 8
    ensures bits <= r && forall i | |bits| <= i < |r| :: !r[i]
  {
    bits + seq((|bits| + 7) / 8 * 8 - |bits|, _ => false)
  }

  /** A built tree, before and after its trip through the byte form, gives exactly the matched transactions in
      order, and the true root unless it has twins. */
  lemma BuiltExtracts(f: PairHash, txids: seq<Hash>, match_: seq<bool>, t: PartialTree)
    requires 1 <= |txids| <= MAX_BLOCK_SIZE / 60 && |match_| == |txids|
    requires var b := BuildTree(f, txids, match_); t == b || t == b.(vBits := Padded(b.vBits))
    ensures ExtractMatches(f, t)
            == (if Clash(f, txids, match_, RootHeight(|txids|, 0), 0) then NULL_HASH else MerkleRoot(f, txids),
                Selected(txids, match_, 0, |txids|))
  {
    hide Width, Extract, CalcHash, Build, Lo, Hi, Selected, Clash;
    var n, h, w := |txids|, RootHeight(|txids|, 0), Walk(0, 0, [], false);
    var b := BuildTree(f, txids, match_);
    RootCoversAll(n);
    BuildSizes(f, txids, match_, h, 0);
    assert At(t.vHash, 0, b.vHash) by { assert t.vHash[0..|b.vHash|] == b.vHash; }
    assert At(t.vBits, 0, b.vBits) by { assert t.vBits[0..|b.vBits|] == b.vBits; }
    CompleteBelow(f, txids, match_, t.vBits, t.vHash, h, 0, w);
    assert [] + Selected(txids, match_, 0, n) == Selected(txids, match_, 0, n);
    PadBytes(|b.vBits|);
  }

  /** Completeness: for distinct transactions within the extractor's limit, a built tree extracts,
      before and after its trip through the byte form, to the true root and exactly the matched
      transactions in order. */
  lemma Complete(f: PairHash, txids: seq<Hash>, match_: seq<bool>, t: PartialTree)
    requires Injective(f) && Distinct(txids) && 1 <= |txids| <= MAX_BLOCK_SIZE / 60 && |match_| == |txids|
    requires var b := BuildTree(f, txids, match_); t == b || t == b.(vBits := Padded(b.vBits))
    ensures ExtractMatches(f, t) == (MerkleRoot(f, txids), Selected(txids, match_, 0, |txids|))
  {
    hide Injective, Distinct, MerkleRoot, Selected, Build, ExtractMatches, Clash;
    BuiltExtracts(f, txids, match_, t);
    NoClash(f, txids, match_, RootHeight(|txids|, 0), 0);
  }

  lemma PadBytes(k: nat)
    ensures ((k + 7) / 8 * 8 + 7) / 8 == (k + 7) / 8
  {
  }

  /** A tree built for a block with a non-zero root extracts exactly when the block is within the
      extractor's limit. */
  lemma ExtractsWithinLimit(f: PairHash, txids: seq<Hash>, match_: seq<bool>)
    requires Injective(f) && Distinct(txids) && txids != [] && |match_| == |txids| && MerkleRoot(f, txids) != NULL_HASH
    ensures ExtractMatches(f, BuildTree(f, txids, match_))
            == (MerkleRoot(f, txids), Selected(txids, match_, 0, |txids|))
            <==> |txids| <= MAX_BLOCK_SIZE / 60
  {
    hide Injective, Distinct, MerkleRoot, Selected, Build, Extract;
    if |txids| <= MAX_BLOCK_SIZE / 60 { Complete(f, txids, match_, BuildTree(f, txids, match_)); }
  }

  /** The bounds stated for the encoded form. */
  lemma SizeBounds(f: PairHash, txids: seq<Hash>, match_: seq<bool>)
    requires txids != [] && |match_| == |txids|
    ensures var t := BuildTree(f, txids, match_); var m := |Selected(txids, match_, 0, |txids|)|;
            |t.vHash| <= |txids| && |t.vHash| <= 1 + m * RootHeight(|txids|, 0)
  {
    hide Width, Build, Selected;
    RootCoversAll(|txids|);
    BuildSizes(f, txids, match_, RootHeight(|txids|, 0), 0);
  }
}
