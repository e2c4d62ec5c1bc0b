/** The active chain: an array of block index entries by height. */
module Chain {
  import opened Prelude
  import opened BlockIndex

  /** The entries from the first block to b. */
  ghost function Path(b: Block): (s: seq<Block?>)
    requires Linked(b)
    ensures |s| == b.height + 1
    decreases b.height
  {
    if b.prev == null then [b] else Path(b.prev) + [b]
  }

  lemma {:induction false} PathAt(b: Block, h: nat)
    requires Linked(b) && h <= b.height
    ensures Path(b)[h] == Ancestor(b, h)
    decreases b.height
  {
    if h < b.height { PathAt(b.prev, h); }
  }

  /** Every entry stands at its own height, on top of its predecessor. */
  ghost predicate ChainOk(v: seq<Block?>, tree: set<Block>) {
    forall h | 0 <= h < |v| :: EntryOk(v, tree, h)
  }

  ghost predicate EntryOk(v: seq<Block?>, tree: set<Block>, h: nat)
    requires h < |v|
  {
    v[h] != null && v[h] in tree && v[h].height == h && (h > 0 ==> v[h].prev == v[h - 1])
  }

  lemma {:induction false} ChainBelow(v: seq<Block?>, tree: set<Block>, k: nat, h: nat)
    requires ChainOk(v, tree) && TreeOk(tree) && h <= k < |v|
    ensures v[k] in tree && v[k] != null && v[k].height == k && v[h] == Ancestor(v[k], h)
    decreases k
  {
    assert EntryOk(v, tree, k);
    if h < k { ChainBelow(v, tree, k - 1, h); }
  }

  lemma PathOk(b: Block, tree: set<Block>)
    requires b in tree && TreeOk(tree)
    ensures ChainOk(Path(b), tree)
  {
    forall h | 0 <= h < b.height + 1
      ensures EntryOk(Path(b), tree, h)
    {
      PathAt(b, h);
      AncestorInTree(b, h, tree);
      if h > 0 {
        PathAt(b, h - 1);
        AncestorTwice(b, h, h - 1);
      }
    }
  }

  /** p is on the way back from the tip, and everything above it is in place. */
  ghost predicate Filling(tip: Block, p: Block?, was: seq<Block?>, v: seq<Block?>, tree: set<Block>)
    requires Linked(tip)
  {
    && |v| == |was| == tip.height + 1
    && (p != null ==> p in tree && p.height <= tip.height && p == Ancestor(tip, p.height))
    && forall h: nat | h <= tip.height ::
         v[h] == if p != null && h <= p.height then was[h] else Ancestor(tip, h)
  }

  lemma FillStep(tip: Block, p: Block, was: seq<Block?>, v: seq<Block?>, tree: set<Block>)
    requires TreeOk(tree) && tip in tree && Filling(tip, p, was, v, tree)
    ensures Filling(tip, p.prev, was, v[p.height := p], tree)
  {
    if p.prev != null { AncestorTwice(tip, p.height, p.height - 1); }
  }

  function Resized(v: seq<Block?>, n: nat): seq<Block?> {
    seq(n, i requires 0 <= i < n => if i < |v| then v[i] else null)
  }

  lemma FillDone(tip: Block, p: Block?, before: seq<Block?>, v: seq<Block?>, tree: set<Block>)
    requires TreeOk(tree) && tip in tree && ChainOk(before, tree)
    requires Filling(tip, p, Resized(before, tip.height + 1), v, tree) && (p == null || v[p.height] == p)
    ensures v == Path(tip)
  {
    forall h: nat | h <= tip.height
      ensures v[h] == Path(tip)[h]
    {
      PathAt(tip, h);
      if p != null && h <= p.height {
        ChainBelow(before, tree, p.height, h);
        AncestorTwice(tip, p.height, h);
      }
    }
  }

  // ----- the heights a locator lists

  function LocatorHeights(h: nat, step: nat, have: nat): (s: seq<nat>)
    requires step >= 1
    ensures |s| >= 1 && s[0] == h && s[|s| - 1] == 0
    decreases h
  {
    if h == 0 then [h]
    else [h] + LocatorHeights(if h > step then h - step else 0, if have + 1 > 10 then 2 * step else step, have + 1)
  }

  lemma {:induction false} LocatorDescends(h: nat, step: nat, have: nat, i: nat, j: nat)
    requires step >= 1 && i < j < |LocatorHeights(h, step, have)|
    ensures LocatorHeights(h, step, have)[i] > LocatorHeights(h, step, have)[j]
    decreases h
  {
    if h > 0 {
      var next := if h > step then h - step else 0;
      var rest := LocatorHeights(next, if have + 1 > 10 then 2 * step else step, have + 1);
      if i > 0 {
        LocatorDescends(next, if have + 1 > 10 then 2 * step else step, have + 1, i - 1, j - 1);
      } else if j > 1 {
        LocatorDescends(next, if have + 1 > 10 then 2 * step else step, have + 1, 0, j - 1);
      }
    }
  }

  /** Once the step doubles every time, k more entries reach back step * (2^k - 1) blocks. */
  lemma {:induction false} LocatorDoubling(h: nat, step: nat, have: nat, k: nat)
    requires step >= 1 && have >= 10 && h <= step * (Pow2(k) - 1)
    ensures |LocatorHeights(h, step, have)| <= k + 1
    decreases h
  {
    if h > 0 {
      assert Pow2(0) == 1;
      assert step * (2 * Pow2(k - 1) - 1) == 2 * step * (Pow2(k - 1) - 1) + step;
      assert 0 <= 2 * step * (Pow2(k - 1) - 1);
      LocatorDoubling(if h > step then h - step else 0, 2 * step, have + 1, k - 1);
    }
  }

  lemma {:induction false} LocatorStart(h: nat, have: nat, k: nat)
    requires have <= 10 && h <= Pow2(k) - 1
    ensures |LocatorHeights(h, 1, have)| <= 10 - have + k + 1
    decreases h
  {
    if have == 10 {
      LocatorDoubling(h, 1, 10, k);
    } else if h > 0 {
      LocatorStart(h - 1, have + 1, k);
    }
  }

  function Log2(n: nat): nat { if n < 2 then 0 else 1 + Log2(n / 2) }

  lemma {:induction false} Log2Bound(n: nat)
    ensures n < Pow2(Log2(n) + 1)
  {
    if n >= 2 { Log2Bound(n / 2); } else { assert Pow2(1) == 2; }
  }

  /** A locator has at most 12 + log2(height) entries. */
  lemma LocatorLength(h: nat)
    requires h >= 1
    ensures |LocatorHeights(h, 1, 0)| <= 12 + Log2(h)
  {
    Log2Bound(h);
    LocatorStart(h, 0, Log2(h) + 1);
  }

  function Sub(a: nat, b: nat): nat { if a > b then a - b else 0 }

  /** How far back from the start entry i is: one block more each time up to the tenth, then doubling. */
  function Back(i: nat): nat { if i <= 10 then i else 9 + Pow2(i - 10) }

  lemma {:induction false} LocatorFar(h: nat, step: nat, have: nat, i: nat)
    requires step >= 1 && have >= 10 && i < |LocatorHeights(h, step, have)|
    ensures LocatorHeights(h, step, have)[i] == Sub(h, step * (Pow2(i) - 1))
    decreases h
  {
    FarSum(step, i);
    hide Pow2;
    if i > 0 { LocatorFar(Sub(h, step), 2 * step, have + 1, i - 1); }
  }

  lemma FarSum(step: nat, i: nat)
    ensures if i == 0 then step * (Pow2(i) - 1) == 0
            else step * (Pow2(i) - 1) == step + 2 * step * (Pow2(i - 1) - 1) && 2 * step * (Pow2(i - 1) - 1) >= 0
  {
    if i > 0 {
      var p := Pow2(i - 1);
      assert Pow2(i) - 1 == 2 * (p - 1) + 1;
      hide Pow2;
      assert step * (2 * (p - 1) + 1) == 2 * step * (p - 1) + step;
    }
  }

  lemma {:induction false} LocatorNear(h: nat, have: nat, i: nat)
    requires have <= 10 && i < |LocatorHeights(h, 1, have)|
    ensures LocatorHeights(h, 1, have)[i] == Sub(h, if i + have <= 10 then i else 9 - have + Pow2(i + have - 10))
    decreases h
  {
    if have == 10 {
      LocatorFar(h, 1, 10, i);
    } else if i > 0 {
      LocatorNear(h - 1, have + 1, i - 1);
    }
  }

  /** The heights themselves. */
  lemma LocatorIs(h: nat, i: nat)
    requires i < |LocatorHeights(h, 1, 0)|
    ensures LocatorHeights(h, 1, 0)[i] == Sub(h, Back(i))
  {
    LocatorNear(h, 0, i);
  }

  // ----- common ancestors

  ghost predicate Common(a: Block, b: Block, h: nat)
    requires Linked(a) && Linked(b)
  {
    h <= a.height && h <= b.height && Ancestor(a, h) == Ancestor(b, h)
  }

  /** Below a common ancestor all ancestors are common. */
  lemma CommonBelow(a: Block, b: Block, k: nat, h: nat)
    requires Linked(a) && Linked(b) && h <= k && Common(a, b, k)
    ensures Common(a, b, h)
  {
    AncestorTwice(a, k, h);
    AncestorTwice(b, k, h);
  }

  /** r is the highest entry that both a and b descend from. */
  ghost predicate HighestCommon(a: Block, b: Block, r: Block)
    requires Linked(a) && Linked(b)
  {
    Common(a, b, r.height) && r == Ancestor(a, r.height) && NoneAbove(a, b, r.height)
  }

  ghost predicate NoneAbove(a: Block, b: Block, k: int)
    requires Linked(a) && Linked(b)
  {
    forall h: nat | Common(a, b, h) :: h <= k
  }

  /** The walk ends at the highest common ancestor, or at null from blocks of different trees; either
      way the final assert holds. */
  method LastCommonAncestor(a: Block, b: Block, ghost tree: set<Block>) returns (r: Block?)
    requires TreeOk(tree) && SkipsOk(tree) && a in tree && b in tree
    ensures r == null <==> Ancestor(a, 0) != Ancestor(b, 0)
    ensures r != null ==> HighestCommon(a, b, r)
  {
    hide NoneAbove, Linked, SkipsOk, SkipsSet;
    TreeLinked(tree, a, b);
    var pa: Block?, pb: Block? := a, b;
    ghost var steps;
    NoneAboveEither(a, b);
    if pa.height > pb.height {
      pa, steps := pa.GetAncestor(pb.height, tree);
    } else if pb.height > pa.height {
      pb, steps := pb.GetAncestor(pa.height, tree);
    }
    while pa != pb && pa != null && pb != null
      invariant pa == null <==> pb == null
      invariant pa != null ==> Side(a, pa, tree) && Side(b, pb, tree) && pa.height == pb.height
      invariant NoneAbove(a, b, if pa == null then -1 else pa.height)
      decreases if pa == null then 0 else pa.height + 1
    {
      StepBack(a, b, pa, pb);
      SideBack(a, pa, tree);
      SideBack(b, pb, tree);
      pa := pa.prev;
      pb := pb.prev;
    }
    assert pa == pb;
    Meeting(a, b, pa);
    r := pa;
  }

  ghost predicate Side(a: Block, p: Block, tree: set<Block>)
    requires Linked(a)
  {
    p in tree && p.height <= a.height && p == Ancestor(a, p.height)
  }

  lemma TreeLinked(tree: set<Block>, a: Block, b: Block)
    requires TreeOk(tree) && a in tree && b in tree
    ensures Linked(a) && Linked(b)
  {}

  lemma SideBack(a: Block, p: Block, tree: set<Block>)
    requires TreeOk(tree) && Linked(a) && Side(a, p, tree)
    ensures if p.height == 0 then p.prev == null
            else p.prev != null && Side(a, p.prev, tree) && p.prev.height == p.height - 1
  {
    assert Linked(p);
    if p.height > 0 { OneBack(a, p); }
  }

  /** Blocks with any common ancestor have the first block in common. */
  lemma Meeting(a: Block, b: Block, p: Block?)
    requires Linked(a) && Linked(b)
    requires if p == null then NoneAbove(a, b, -1) else Common(a, b, p.height)
    ensures p == null <==> Ancestor(a, 0) != Ancestor(b, 0)
  {
    if p != null {
      CommonBelow(a, b, p.height, 0);
    } else {
      assert Common(a, b, 0) <==> Ancestor(a, 0) == Ancestor(b, 0);
    }
  }

  lemma NoneAboveEither(a: Block, b: Block)
    requires Linked(a) && Linked(b)
    ensures NoneAbove(a, b, a.height) && NoneAbove(a, b, b.height)
  {}

  lemma OneBack(a: Block, p: Block)
    requires Linked(a) && p.height <= a.height && p == Ancestor(a, p.height) && p.height > 0
    ensures p.prev == Ancestor(a, p.height - 1)
  {
    AncestorTwice(a, p.height, p.height - 1);
  }

  lemma StepBack(a: Block, b: Block, pa: Block, pb: Block)
    requires Linked(a) && Linked(b) && pa.height == pb.height && pa != pb
    requires pa.height <= a.height && pa.height <= b.height
    requires pa == Ancestor(a, pa.height) && pb == Ancestor(b, pb.height)
    ensures NoneAbove(a, b, pa.height - 1)
  {
    forall h: nat | Common(a, b, h)
      ensures h <= pa.height - 1
    {
      if h >= pa.height { CommonBelow(a, b, h, pa.height); }
    }
  }

  // ----- the chain object

  class ActiveChain {
    var blocks: seq<Block?>

    ghost predicate Valid(tree: set<Block>)
      reads this
    {
      TreeOk(tree) && ChainOk(blocks, tree)
    }

    constructor ()
      ensures blocks == []
    {
      blocks := [];
    }

    function At(h: int): Block?
      reads this
    {
      if h < 0 || h >= |blocks| then null else blocks[h]
    }

    predicate Contains(b: Block)
      reads this
    {
      At(b.height) == b
    }

    function Height(): int
      reads this
    {
      |blocks| - 1
    }

    function Tip(): Block?
      reads this
    {
      if |blocks| > 0 then blocks[|blocks| - 1] else null
    }

    /** From any earlier tip, the array becomes the path to the new one. */
    method SetTip(tip: Block?, ghost tree: set<Block>)
      requires Valid(tree) && (tip != null ==> tip in tree)
      modifies this
      ensures Valid(tree)
      ensures blocks == if tip == null then [] else Path(tip)
    {
      if tip == null {
        blocks := [];
        return;
      }
      hide Filling, ChainOk;
      ghost var before := blocks;
      blocks := Resized(blocks, tip.height + 1);
      ghost var was := blocks;
      var p: Block? := tip;
      FillStart(tip, was, tree);
      while p != null && At(p.height) != p
        invariant Filling(tip, p, was, blocks, tree)
        invariant p != null ==> p in tree && p.height < |blocks|
        decreases if p == null then 0 else p.height + 1
      {
        FillStep(tip, p, was, blocks, tree);
        blocks := blocks[p.height := p];
        p := p.prev;
      }
      FillDone(tip, p, before, blocks, tree);
      PathOk(tip, tree);
    }

    method GetLocator(b: Block?, ghost tree: set<Block>) returns (have: seq<Block>)
      requires Valid(tree) && SkipsOk(tree) && (b != null ==> b in tree)
      ensures var start := if b == null then Tip() else b;
              if start == null then have == []
              else start in tree && LocatorOf(start, have)
    {
      have := [];
      var start := if b == null then Tip() else b;
      if start == null {
        return;
      }
      if b == null { ChainBelow(blocks, tree, |blocks| - 1, 0); }
      hide Listing, LocatorHeights, ChainOk;
      var step := 1;
      var p: Block := start;
      ListingStart(start);
      while p.height > 0
        invariant p in tree && p.height <= start.height && p == Ancestor(start, p.height)
        invariant step >= 1 && Listing(start, have, p.height, step)
        decreases p.height
      {
        ListingStep(start, have, p, step);
        have := have + [p];
        var h := if p.height > step then p.height - step else 0;
        AncestorTwice(start, p.height, h);
        var next: Block?;
        if Contains(p) {
          ChainBelow(blocks, tree, p.height, h);
          next := At(h);
        } else {
          ghost var steps;
          next, steps := p.GetAncestor(h, tree);
        }
        AncestorInTree(p, h, tree);
        p := next;
        if |have| > 10 {
          step := 2 * step;
        }
      }
      ListingDone(start, have, p, step);
      have := have + [p];
    }

    /** No ancestor of b above height k is in the chain. */
    ghost predicate NoneSharedAbove(b: Block, k: int)
      requires Linked(b)
      reads this
    {
      forall h: nat | h <= b.height && Contains(Ancestor(b, h)) :: h <= k
    }

    lemma SharedBelow(b: Block, r: Block)
      requires Linked(b) && r.height <= b.height && r == Ancestor(b, r.height)
      requires NoneSharedAbove(b, r.height) && !Contains(r)
      ensures NoneSharedAbove(b, r.height - 1)
    {}

    /** The highest entry of b's path that is in the chain, or null when there is none. */
    method FindFork(b: Block?, ghost tree: set<Block>) returns (r: Block?)
      requires Valid(tree) && SkipsOk(tree) && (b != null ==> b in tree)
      ensures b == null ==> r == null
      ensures b != null && r != null ==> Contains(r) && r.height <= b.height && r == Ancestor(b, r.height)
      ensures b != null ==> NoneSharedAbove(b, if r == null then -1 else r.height)
    {
      if b == null {
        return null;
      }
      r := b;
      if b.height > Height() {
        ghost var steps;
        r, steps := b.GetAncestor(Height(), tree);
      }
      assert NoneSharedAbove(b, if r == null then -1 else r.height);
      hide NoneSharedAbove, ChainOk;
      while r != null && !Contains(r)
        invariant r != null ==> r in tree && r.height <= b.height && r == Ancestor(b, r.height)
        invariant NoneSharedAbove(b, if r == null then -1 else r.height)
        decreases if r == null then 0 else r.height + 1
      {
        SharedBelow(b, r);
        if r.height > 0 { OneBack(b, r); }
        r := r.prev;
      }
    }
  }

  ghost predicate ListedAt(start: Block, h: nat, b: Block)
    requires Linked(start)
  {
    h <= start.height && b == Ancestor(start, h)
  }

  /** The list has, in order, the ancestors at the locator heights. */
  ghost predicate LocatorOf(start: Block, have: seq<Block>) {
    && Linked(start) && |have| == |LocatorHeights(start.height, 1, 0)|
    && forall i | 0 <= i < |have| :: ListedAt(start, LocatorHeights(start.height, 1, 0)[i], have[i])
  }

  /** The entries listed so far, with the rest of the list still to come from height h. */
  ghost predicate Listing(start: Block, have: seq<Block>, h: nat, step: nat) {
    && Linked(start) && step >= 1
    && var all := LocatorHeights(start.height, 1, 0);
       && |have| <= |all| && all[|have|..] == LocatorHeights(h, step, |have|)
       && forall i | 0 <= i < |have| :: ListedAt(start, all[i], have[i])
  }

  lemma ListingStart(start: Block)
    requires Linked(start)
    ensures Listing(start, [], start.height, 1)
  {}

  lemma ListingStep(start: Block, have: seq<Block>, p: Block, step: nat)
    requires Listing(start, have, p.height, step) && 0 < p.height <= start.height && p == Ancestor(start, p.height)
    ensures Listing(start, have + [p], if p.height > step then p.height - step else 0,
                    if |have| + 1 > 10 then 2 * step else step)
  {
    var all := LocatorHeights(start.height, 1, 0);
    assert all[|have|] == all[|have|..][0];
    assert all[|have| + 1..] == all[|have|..][1..];
  }

  lemma ListingDone(start: Block, have: seq<Block>, p: Block, step: nat)
    requires Listing(start, have, 0, step) && p.height == 0 && p == Ancestor(start, 0)
    ensures LocatorOf(start, have + [p])
  {
    var all := LocatorHeights(start.height, 1, 0);
    assert all[|have|] == all[|have|..][0];
    assert |all[|have|..]| == 1;
  }

  lemma FillStart(tip: Block, was: seq<Block?>, tree: set<Block>)
    requires TreeOk(tree) && tip in tree && |was| == tip.height + 1
    ensures Filling(tip, tip, was, was, tree)
  {}

  /** What a locator looks like: going down from the start to the first block, and short. */
  lemma LocatorShape(start: Block, have: seq<Block>)
    requires LocatorOf(start, have)
    ensures have[0] == start && have[|have| - 1] == Ancestor(start, 0)
    ensures forall i, j | 0 <= i < j < |have| :: have[i].height > have[j].height
    ensures forall i | 0 <= i < |have| :: have[i].height == Sub(start.height, Back(i))
    ensures start.height >= 1 ==> |have| <= 12 + Log2(start.height)
  {
    var all := LocatorHeights(start.height, 1, 0);
    assert ListedAt(start, all[0], have[0]) && ListedAt(start, all[|have| - 1], have[|have| - 1]);
    forall i, j | 0 <= i < j < |have|
      ensures have[i].height > have[j].height
    {
      assert ListedAt(start, all[i], have[i]) && ListedAt(start, all[j], have[j]);
      LocatorDescends(start.height, 1, 0, i, j);
    }
    forall i | 0 <= i < |have|
      ensures have[i].height == Sub(start.height, Back(i))
    {
      assert ListedAt(start, all[i], have[i]);
      LocatorIs(start.height, i);
    }
    if start.height >= 1 { LocatorLength(start.height); }
  }
}
