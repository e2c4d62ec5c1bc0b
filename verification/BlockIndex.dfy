/** The tree of block index entries, with a skip pointer in each for long steps back. */
module BlockIndex {
  import opened SkipHeights

  class Block {
    const prev: Block?
    const height: nat
    var skip: Block?

    constructor (prev: Block?)
      ensures this.prev == prev && height == (if prev == null then 0 else prev.height + 1) && skip == null
    {
      this.prev := prev;
      height := if prev == null then 0 else prev.height + 1;
      skip := null;
    }

    /** The entry at a height at or below this one, or null. With every skip pointer set, the number of
        steps depends on the two heights only. */
    method GetAncestor(target: int, ghost tree: set<Block>) returns (r: Block?, ghost steps: nat)
      requires this in tree && TreeOk(tree) && SkipsOk(tree)
      ensures r == if 0 <= target <= height then Ancestor(this, target) else null
      ensures r != null ==> r in tree
      ensures 0 <= target <= height && SkipsSet(tree) ==> steps == Steps(height, target)
      ensures SkipsSet(tree) && height < 0x4_0000 ==> steps <= 110
    {
      steps := 0;
      if target > height || target < 0 {
        return null, 0;
      }
      hide GetSkipHeight;
      var walk: Block := this;
      while walk.height > target
        invariant walk in tree && target <= walk.height && Ancestor(walk, target) == Ancestor(this, target)
        invariant SkipsSet(tree) ==> steps + Steps(walk.height, target) == Steps(height, target)
        decreases walk.height
      {
        var heightSkip := GetSkipHeight(walk.height);
        var heightSkipPrev := GetSkipHeight(walk.height - 1);
        assert SkipOk(walk);
        if walk.skip != null && (heightSkip == target
          || (heightSkip > target && !(heightSkipPrev < heightSkip - 2 && heightSkipPrev >= target))) {
          AncestorTwice(walk, heightSkip, target);
          AncestorInTree(walk, heightSkip, tree);
          walk := walk.skip;
        } else {
          walk := walk.prev;
        }
        steps := steps + 1;
      }
      r := walk;
      if target < height < 0x4_0000 { StepsAtMost110(height, target); }
    }

    method BuildSkip(ghost tree: set<Block>)
      requires this in tree && TreeOk(tree) && SkipsOk(tree)
      modifies this`skip
      ensures prev != null ==> skip == Ancestor(this, GetSkipHeight(height))
      ensures prev == null ==> skip == old(skip)
      ensures SkipsOk(tree)
    {
      if prev != null {
        ghost var steps;
        skip, steps := prev.GetAncestor(GetSkipHeight(height), tree);
        forall b | b in tree
          ensures SkipOk(b)
        {
          assert old(SkipOk(b));
        }
      }
    }
  }

  // ----- the plain walk back

  /** Heights count down to zero along the links. */
  ghost predicate Linked(b: Block)
    decreases b.height
  {
    if b.prev == null then b.height == 0 else b.height == b.prev.height + 1 && Linked(b.prev)
  }

  ghost function Ancestor(b: Block, h: nat): (a: Block)
    requires Linked(b) && h <= b.height
    ensures a.height == h
    decreases b.height
  {
    if h == b.height then b else Ancestor(b.prev, h)
  }

  /** A set of entries that has every entry's predecessor. */
  ghost predicate TreeOk(tree: set<Block>) {
    forall b | b in tree :: Linked(b) && (b.prev != null ==> b.prev in tree)
  }

  ghost predicate SkipOk(b: Block)
    reads b`skip
  {
    Linked(b) && (b.skip != null ==> b.skip == Ancestor(b, GetSkipHeight(b.height)))
  }

  ghost predicate SkipsOk(tree: set<Block>)
    reads tree
  {
    forall b | b in tree :: SkipOk(b)
  }

  /** Every entry but the first has its skip pointer. */
  ghost predicate SkipsSet(tree: set<Block>)
    reads tree
  {
    forall b | b in tree && b.prev != null :: b.skip != null
  }

  lemma {:induction false} AncestorInTree(b: Block, h: nat, tree: set<Block>)
    requires TreeOk(tree) && b in tree && h <= b.height
    ensures Ancestor(b, h) in tree
    decreases b.height
  {
    if h < b.height { AncestorInTree(b.prev, h, tree); }
  }

  /** An ancestor of an ancestor is an ancestor. */
  lemma {:induction false} AncestorTwice(b: Block, k: nat, h: nat)
    requires Linked(b) && h <= k <= b.height
    ensures Linked(Ancestor(b, k)) && Ancestor(Ancestor(b, k), h) == Ancestor(b, h)
    decreases b.height
  {
    if k < b.height { AncestorTwice(b.prev, k, h); }
  }
}
