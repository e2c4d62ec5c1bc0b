/** The selection loop of the block template: a depth-first walk over the mempool in score order, with
    an explicit stack, under size and sigop budgets. */
module Miner {

  type Tx = nat

  /** The mempool as the loop sees it: the score order, and each entry's in-mempool parents in the
      order the parent set iterates. */
  datatype Pool = Pool(order: seq<Tx>, parents: map<Tx, seq<Tx>>, size: map<Tx, nat>, sigops: map<Tx, nat>,
                       final: set<Tx>, negativeDelta: set<Tx>)
  {
    ghost function All(): set<Tx> { set x | x in order }

    ghost predicate Ok() {
      && (forall x | x in order :: x in parents && x in size && x in sigops)
      && (forall x, p | x in order && p in parents[x] :: p in order)
    }

    /** Some ranking puts every parent below its children. */
    ghost predicate Acyclic(rank: Tx -> nat) {
      forall x, p | x in order && x in parents && p in parents[x] :: rank(p) < rank(x)
    }
  }

  function MaxBlockSigops(size: nat): nat
    requires size > 0
  {
    ((size - 1) / 1000000 + 1) * 1000000 / 50
  }

  lemma MaxBlockSigopsMonotone(a: nat, b: nat)
    requires 0 < a <= b
    ensures MaxBlockSigops(a) <= MaxBlockSigops(b)
    ensures MaxBlockSigops(a) >= 20000
  {
    assert (a - 1) / 1000000 <= (b - 1) / 1000000;
  }

  /** 20000 for every million bytes begun. */
  lemma MaxBlockSigopsPerMillion(size: nat, k: nat)
    requires k * 1000000 < size <= (k + 1) * 1000000
    ensures MaxBlockSigops(size) == 20000 * (k + 1)
  {
    assert (size - 1) / 1000000 == k;
  }

  // ----- ancestors

  /** Each transaction of the path is followed by one of its mempool parents. */
  ghost predicate Chain(pool: Pool, path: seq<Tx>) {
    path != [] && forall k: nat | k + 1 < |path| :: Linked(pool, path, k)
  }

  ghost predicate Linked(pool: Pool, path: seq<Tx>, k: nat)
    requires k + 1 < |path|
  {
    path[k] in pool.parents && path[k + 1] in pool.parents[path[k]]
  }

  /** y is x or one of its mempool ancestors. */
  ghost predicate Reaches(pool: Pool, x: Tx, y: Tx) {
    exists path :: Chain(pool, path) && path[0] == x && path[|path| - 1] == y
  }

  lemma ReachesSelf(pool: Pool, x: Tx)
    ensures Reaches(pool, x, x)
  {
    assert Chain(pool, [x]);
  }

  lemma ReachesParent(pool: Pool, x: Tx, y: Tx, p: Tx)
    requires Reaches(pool, x, y) && y in pool.parents && p in pool.parents[y]
    ensures Reaches(pool, x, p)
  {
    var path :| Chain(pool, path) && path[0] == x && path[|path| - 1] == y;
    var longer := path + [p];
    forall k: nat | k + 1 < |longer| ensures Linked(pool, longer, k) {
      if k + 1 < |path| { assert Linked(pool, path, k); }
    }
    assert Chain(pool, longer);
  }

  lemma ReachesFromChild(pool: Pool, x: Tx, p: Tx, y: Tx)
    requires Reaches(pool, p, y) && x in pool.parents && p in pool.parents[x]
    ensures Reaches(pool, x, y)
  {
    var path :| Chain(pool, path) && path[0] == p && path[|path| - 1] == y;
    var longer := [x] + path;
    forall k: nat | k + 1 < |longer| ensures Linked(pool, longer, k) {
      if k > 0 { assert Linked(pool, path, k - 1); }
    }
    assert Chain(pool, longer);
  }

  /** The transaction or one of its mempool ancestors was refused. */
  ghost predicate Doomed(pool: Pool, refused: set<Tx>, x: Tx) { exists r | r in refused :: Reaches(pool, x, r) }

  // ----- what is selected

  function Missing(parents: seq<Tx>, inBlock: set<Tx>): (r: seq<Tx>)
    ensures forall x :: x in r <==> x in parents && x !in inBlock
  {
    if parents == [] then []
    else (if parents[0] in inBlock then [] else [parents[0]]) + Missing(parents[1..], inBlock)
  }

  ghost predicate NoDuplicates(s: seq<Tx>) { forall i, j | 0 <= i < j < |s| :: s[i] != s[j] }

  /** Every transaction comes after all its mempool parents. */
  ghost predicate ParentsFirst(pool: Pool, s: seq<Tx>) {
    forall k | 0 <= k < |s| :: s[k] in pool.parents && forall p | p in pool.parents[s[k]] :: p in s[..k]
  }

  function TotalSize(pool: Pool, s: seq<Tx>): nat
    requires forall x | x in s :: x in pool.size
  {
    if s == [] then 0 else TotalSize(pool, s[..|s| - 1]) + pool.size[s[|s| - 1]]
  }

  function TotalSigops(pool: Pool, s: seq<Tx>): nat
    requires forall x | x in s :: x in pool.sigops
  {
    if s == [] then 0 else TotalSigops(pool, s[..|s| - 1]) + pool.sigops[s[|s| - 1]]
  }

  datatype Selection = Selection(added: seq<Tx>, inBlock: set<Tx>, size: nat, sigops: nat)

  const START := Selection([], {}, 1000, 100)

  /** What holds of the selection at every moment. */
  ghost predicate SelectionOk(pool: Pool, maxSize: nat, s: Selection) {
    && (forall x :: x in s.inBlock <==> x in s.added)
    && (forall x | x in s.added :: x in pool.order && x in pool.size && x in pool.sigops)
    && NoDuplicates(s.added) && ParentsFirst(pool, s.added)
    && s.size == 1000 + TotalSize(pool, s.added)
    && s.sigops == 100 + TotalSigops(pool, s.added)
    && (s.added != [] ==> s.size < maxSize && s.sigops < MaxBlockSigops(s.size))
  }

  function Include(pool: Pool, s: Selection, x: Tx): Selection
    requires x in pool.size && x in pool.sigops
  {
    Selection(s.added + [x], s.inBlock + {x}, s.size + pool.size[x], s.sigops + pool.sigops[x])
  }

  lemma IncludeKeeps(pool: Pool, maxSize: nat, s: Selection, x: Tx)
    requires pool.Ok() && SelectionOk(pool, maxSize, s) && x in pool.order && x !in s.inBlock
    requires Missing(pool.parents[x], s.inBlock) == []
    requires s.size + pool.size[x] < maxSize && s.sigops + pool.sigops[x] < MaxBlockSigops(s.size)
    ensures SelectionOk(pool, maxSize, Include(pool, s, x))
  {
    hide MaxBlockSigops, Missing, ParentsFirst;
    var t := Include(pool, s, x);
    assert t.added[..|s.added|] == s.added;
    MaxBlockSigopsMonotone(s.size, t.size);
    ParentsFirstAppend(pool, s.added, s.inBlock, x);
  }

  lemma ParentsFirstAppend(pool: Pool, added: seq<Tx>, inBlock: set<Tx>, x: Tx)
    requires pool.Ok() && ParentsFirst(pool, added) && (forall y :: y in inBlock <==> y in added)
    requires (forall y | y in added :: y in pool.order) && x in pool.order && Missing(pool.parents[x], inBlock) == []
    ensures ParentsFirst(pool, added + [x])
  {
    var t := added + [x];
    forall p | p in pool.parents[x]
      ensures p in added
    {
      assert p !in Missing(pool.parents[x], inBlock);
    }
    forall k | 0 <= k < |t|
      ensures forall p | p in pool.parents[t[k]] :: p in t[..k]
    {
      if k < |added| { assert t[..k] == added[..k]; } else { assert t[..k] == added; }
    }
  }

  // ----- the walk

  /** `walk.stack` with the transaction under consideration on top. */
  datatype Walk = Walk(next: nat, stack: seq<Tx>, got: set<Tx>)

  /** The entry at position i waits for its missing parents, which are all above it, and everything
      above it ranks lower. */
  ghost predicate Anchor(pool: Pool, rank: Tx -> nat, w: Walk, inBlock: set<Tx>, x: Tx, i: nat)
    requires x in pool.parents
  {
    && i < |w.stack| && w.stack[i] == x
    && (forall j | i < j < |w.stack| :: rank(w.stack[j]) < rank(x))
    && (forall p | p in pool.parents[x] && p !in inBlock :: p in w.stack[i + 1..])
  }

  ghost predicate WalkShape(pool: Pool, w: Walk) {
    && w.next <= |pool.order|
    && (forall x | x in w.stack :: x in pool.order)
    && w.got <= pool.All()
  }

  /** What waits for parents is anchored, unless it waits in vain. */
  ghost predicate Anchored(pool: Pool, rank: Tx -> nat, w: Walk, inBlock: set<Tx>, refused: set<Tx>)
    requires pool.Ok()
  {
    forall x | x in w.got ::
      x in pool.order && (x in inBlock || Doomed(pool, refused, x) || exists i :: Anchor(pool, rank, w, inBlock, x, i))
  }

  /** Entry k of the score order was added in its turn or an earlier one, or waits in vain. */
  ghost predicate Done(pool: Pool, added: seq<Tx>, turns: seq<nat>, refused: set<Tx>, k: nat)
    requires k < |pool.order| && |turns| == |added|
  {
    || Doomed(pool, refused, pool.order[k])
    || exists n | 0 <= n < |added| :: added[n] == pool.order[k] && turns[n] <= k
  }

  ghost predicate Settled(pool: Pool, w: Walk, added: seq<Tx>, turns: seq<nat>, refused: set<Tx>)
    requires |turns| == |added|
  {
    forall k | 0 <= k < w.next && k < |pool.order| ::
      Done(pool, added, turns, refused, k) || (k == w.next - 1 && pool.order[k] in w.stack)
  }

  /** What is on the stack or added belongs to the turn of an entry of the score order: the entry itself or an
      ancestor. Turns come in score order. */
  ghost predicate InTurn(pool: Pool, w: Walk, added: seq<Tx>, turns: seq<nat>) {
    && |turns| == |added| && w.next <= |pool.order|
    && (forall y | y in w.stack :: 0 < w.next && Reaches(pool, pool.order[w.next - 1], y))
    && (forall n | 0 <= n < |turns| :: turns[n] < w.next && Reaches(pool, pool.order[turns[n]], added[n]))
    && (forall n, m | 0 <= n < m < |turns| :: turns[n] <= turns[m])
  }

  lemma TakeKeeps(pool: Pool, rank: Tx -> nat, w: Walk, s: Selection, turns: seq<nat>, refused: set<Tx>)
    requires pool.Ok() && w.stack == [] && w.next < |pool.order| && InTurn(pool, w, s.added, turns)
    ensures var v := w.(next := w.next + 1, stack := [pool.order[w.next]]);
            && InTurn(pool, v, s.added, turns)
            && (Settled(pool, w, s.added, turns, refused) ==> Settled(pool, v, s.added, turns, refused))
            && (Anchored(pool, rank, w, s.inBlock, refused) ==> Anchored(pool, rank, v, s.inBlock, refused))
  {
    hide Done, Reaches, Doomed;
    ReachesSelf(pool, pool.order[w.next]);
  }

  function Popped(w: Walk): Walk
    requires w.stack != []
  {
    w.(stack := w.stack[..|w.stack| - 1])
  }

  /** What is taken off the stack is in the block or waits in vain. */
  lemma PopKeeps(pool: Pool, rank: Tx -> nat, w: Walk, s: Selection, turns: seq<nat>, refused: set<Tx>)
    requires pool.Ok() && w.stack != [] && InTurn(pool, w, s.added, turns)
    requires forall x | x in s.inBlock :: x in s.added
    requires w.stack[|w.stack| - 1] in s.inBlock || Doomed(pool, refused, w.stack[|w.stack| - 1])
    ensures InTurn(pool, Popped(w), s.added, turns)
    ensures Settled(pool, w, s.added, turns, refused) ==> Settled(pool, Popped(w), s.added, turns, refused)
    ensures Anchored(pool, rank, w, s.inBlock, refused) ==> Anchored(pool, rank, Popped(w), s.inBlock, refused)
  {
    hide Reaches, Doomed, Anchor;
    var v, n := Popped(w), |w.stack| - 1;
    assert w.stack == v.stack + [w.stack[n]];
    PopInTurn(pool, w, s.added, turns);
    if Anchored(pool, rank, w, s.inBlock, refused) {
      forall x | x in v.got && x !in s.inBlock && !Doomed(pool, refused, x)
        ensures exists i :: Anchor(pool, rank, v, s.inBlock, x, i)
      {
        var i :| Anchor(pool, rank, w, s.inBlock, x, i);
        AnchorPop(pool, rank, w, s.inBlock, refused, x, i);
      }
    }
  }

  lemma AnchorPop(pool: Pool, rank: Tx -> nat, w: Walk, inBlock: set<Tx>, refused: set<Tx>, x: Tx, i: nat)
    requires x in pool.parents && x !in inBlock && !Doomed(pool, refused, x) && w.stack != []
    requires w.stack[|w.stack| - 1] in inBlock || Doomed(pool, refused, w.stack[|w.stack| - 1])
    requires Anchor(pool, rank, w, inBlock, x, i)
    ensures Anchor(pool, rank, Popped(w), inBlock, x, i)
  {
    hide Reaches, Doomed;
    var n := |w.stack| - 1;
    assert i != n;
    assert w.stack[i + 1..] == w.stack[i + 1..n] + [w.stack[n]];
    assert Popped(w).stack[i + 1..] == w.stack[i + 1..n];
    if w.stack[n] !in inBlock && w.stack[n] in pool.parents[x] { DoomedChild(pool, refused, x, w.stack[n]); }
  }

  lemma DoomedChild(pool: Pool, refused: set<Tx>, x: Tx, p: Tx)
    requires Doomed(pool, refused, p) && x in pool.parents && p in pool.parents[x]
    ensures Doomed(pool, refused, x)
  {
    hide Reaches;
    var r :| r in refused && Reaches(pool, p, r);
    ReachesFromChild(pool, x, p, r);
  }

  lemma IncludeKeepsProgress(pool: Pool, rank: Tx -> nat, w: Walk, s: Selection, turns: seq<nat>, refused: set<Tx>,
                             x: Tx)
    requires pool.Ok() && InTurn(pool, w, s.added, turns) && x in w.stack && x in pool.order
    ensures var v, t, more := w.(got := w.got + {x}), Include(pool, s, x), turns + [w.next - 1];
            && InTurn(pool, v, t.added, more)
            && (Settled(pool, w, s.added, turns, refused) ==> Settled(pool, v, t.added, more, refused))
            && (Anchored(pool, rank, w, s.inBlock, refused) ==> Anchored(pool, rank, v, t.inBlock, refused))
  {
    hide Reaches, Doomed;
    var v, t, more := w.(got := w.got + {x}), Include(pool, s, x), turns + [w.next - 1];
    if Settled(pool, w, s.added, turns, refused) {
      forall k | 0 <= k < w.next && k < |pool.order| && Done(pool, s.added, turns, refused, k)
        ensures Done(pool, t.added, more, refused, k)
      {
        DoneStays(pool, s.added, turns, refused, k, x, w.next - 1);
      }
    }
    if Anchored(pool, rank, w, s.inBlock, refused) {
      forall y | y in v.got && y !in t.inBlock && !Doomed(pool, refused, y)
        ensures exists i :: Anchor(pool, rank, v, t.inBlock, y, i)
      {
        var i :| Anchor(pool, rank, w, s.inBlock, y, i);
        assert Anchor(pool, rank, v, t.inBlock, y, i);
      }
    }
  }

  lemma DoneStays(pool: Pool, added: seq<Tx>, turns: seq<nat>, refused: set<Tx>, k: nat, x: Tx, turn: nat)
    requires k < |pool.order| && |turns| == |added| && Done(pool, added, turns, refused, k)
    ensures Done(pool, added + [x], turns + [turn], refused, k)
  {
    hide Doomed;
    if !Doomed(pool, refused, pool.order[k]) {
      var n :| 0 <= n < |added| && added[n] == pool.order[k] && turns[n] <= k;
      assert (added + [x])[n] == pool.order[k] && (turns + [turn])[n] <= k;
    }
  }

  /** One more refusal. */
  lemma RefuseKeeps(pool: Pool, rank: Tx -> nat, w: Walk, s: Selection, turns: seq<nat>, refused: set<Tx>, x: Tx)
    requires pool.Ok() && |turns| == |s.added|
    ensures Doomed(pool, refused + {x}, x)
    ensures Settled(pool, w, s.added, turns, refused) ==> Settled(pool, w, s.added, turns, refused + {x})
    ensures Anchored(pool, rank, w, s.inBlock, refused) ==> Anchored(pool, rank, w, s.inBlock, refused + {x})
  {
    ReachesSelf(pool, x);
    hide Reaches, Anchor;
    forall y | Doomed(pool, refused, y)
      ensures Doomed(pool, refused + {x}, y)
    {
      var r :| r in refused && Reaches(pool, y, r);
    }
  }

  /** Met again on top of the stack with parents missing, an entry waits in vain. */
  lemma SecondTimeDoomed(pool: Pool, rank: Tx -> nat, w: Walk, inBlock: set<Tx>, refused: set<Tx>)
    requires pool.Ok() && Anchored(pool, rank, w, inBlock, refused) && w.stack != []
    requires var x := w.stack[|w.stack| - 1]; x in w.got && x !in inBlock && Missing(pool.parents[x], inBlock) != []
    ensures Doomed(pool, refused, w.stack[|w.stack| - 1])
  {
    hide Doomed;
    var n := |w.stack| - 1;
    var x := w.stack[n];
    if !Doomed(pool, refused, x) {
      var i :| Anchor(pool, rank, w, inBlock, x, i);
      AnchorTop(pool, rank, w, inBlock, i);
    }
  }

  lemma AnchorTop(pool: Pool, rank: Tx -> nat, w: Walk, inBlock: set<Tx>, i: nat)
    requires w.stack != [] && w.stack[|w.stack| - 1] in pool.parents
    requires Anchor(pool, rank, w, inBlock, w.stack[|w.stack| - 1], i)
    ensures Missing(pool.parents[w.stack[|w.stack| - 1]], inBlock) == []
  {
    hide Missing;
    assert w.stack[i + 1..] == [];
    NoneMissing(pool.parents[w.stack[|w.stack| - 1]], inBlock);
  }

  lemma {:induction false} NoneMissing(parents: seq<Tx>, inBlock: set<Tx>)
    requires forall p | p in parents :: p in inBlock
    ensures Missing(parents, inBlock) == []
  {
    if parents != [] { NoneMissing(parents[1..], inBlock); }
  }

  /** First met with parents missing: they go on top. */
  lemma PushKeeps(pool: Pool, rank: Tx -> nat, w: Walk, s: Selection, turns: seq<nat>, refused: set<Tx>)
    requires pool.Ok() && WalkShape(pool, w) && w.stack != [] && InTurn(pool, w, s.added, turns)
    requires var x := w.stack[|w.stack| - 1]; x !in w.got && x !in s.inBlock
    ensures var x := w.stack[|w.stack| - 1];
            var v := w.(got := w.got + {x}, stack := w.stack + Missing(pool.parents[x], s.inBlock));
            && InTurn(pool, v, s.added, turns)
            && (Settled(pool, w, s.added, turns, refused) ==> Settled(pool, v, s.added, turns, refused))
            && (pool.Acyclic(rank) && Anchored(pool, rank, w, s.inBlock, refused) ==>
                  Anchored(pool, rank, v, s.inBlock, refused))
  {
    var x := w.stack[|w.stack| - 1];
    var more := Missing(pool.parents[x], s.inBlock);
    var v := w.(got := w.got + {x}, stack := w.stack + more);
    assert x in w.stack;
    hide Pool.Acyclic, Anchor, Missing, Reaches, Doomed, Done;
    forall p | p in more ensures Reaches(pool, pool.order[w.next - 1], p) {
      ReachesParent(pool, pool.order[w.next - 1], x, p);
    }
    if pool.Acyclic(rank) && Anchored(pool, rank, w, s.inBlock, refused) {
      RanksLower(pool, rank, x, s.inBlock);
      AnchorNew(pool, rank, w, v, s.inBlock);
      forall y | y in w.got && y !in s.inBlock && !Doomed(pool, refused, y)
        ensures exists i :: Anchor(pool, rank, v, s.inBlock, y, i)
      {
        var i :| Anchor(pool, rank, w, s.inBlock, y, i);
        AnchorGrow(pool, rank, w, v, s.inBlock, more, y, i);
      }
    }
  }

  lemma RanksLower(pool: Pool, rank: Tx -> nat, x: Tx, inBlock: set<Tx>)
    requires pool.Ok() && pool.Acyclic(rank) && x in pool.order
    ensures forall p | p in Missing(pool.parents[x], inBlock) :: rank(p) < rank(x)
  {
    hide Missing;
  }

  lemma AnchorNew(pool: Pool, rank: Tx -> nat, w: Walk, v: Walk, inBlock: set<Tx>)
    requires w.stack != [] && w.stack[|w.stack| - 1] in pool.parents
    requires var x := w.stack[|w.stack| - 1]; var more := Missing(pool.parents[x], inBlock);
             v.stack == w.stack + more && forall p | p in more :: rank(p) < rank(x)
    ensures Anchor(pool, rank, v, inBlock, w.stack[|w.stack| - 1], |w.stack| - 1)
  {
    var n := |w.stack|;
    assert v.stack[n..] == Missing(pool.parents[w.stack[n - 1]], inBlock);
    forall j | n <= j < |v.stack| ensures v.stack[j] in v.stack[n..] { assert v.stack[j] == v.stack[n..][j - n]; }
  }

  lemma AnchorGrow(pool: Pool, rank: Tx -> nat, w: Walk, v: Walk, inBlock: set<Tx>, more: seq<Tx>, y: Tx, i: nat)
    requires w.stack != [] && y in pool.parents && Anchor(pool, rank, w, inBlock, y, i)
    requires w.stack[|w.stack| - 1] != y
    requires v.stack == w.stack + more && forall p | p in more :: rank(p) < rank(w.stack[|w.stack| - 1])
    ensures Anchor(pool, rank, v, inBlock, y, i)
  {
    var n := |w.stack|;
    assert i < n - 1 && rank(w.stack[n - 1]) < rank(y);
    Above(w.stack, more, v.stack, i);
    forall j | i < j < |v.stack| ensures rank(v.stack[j]) < rank(y) {
      if j >= n { assert v.stack[j] in more; }
    }
  }

  lemma Above(stack: seq<Tx>, more: seq<Tx>, all: seq<Tx>, i: nat)
    requires i < |stack| && all == stack + more
    ensures all[i + 1..] == stack[i + 1..] + more
    ensures forall j | |stack| <= j < |all| :: all[j] in more
  {
    assert all[i + 1..] == stack[i + 1..] + more;
    forall j | |stack| <= j < |all| ensures all[j] in more { assert all[j] == more[j - |stack|]; }
  }

  // ----- the loop

  /** The foreach over the parents: on the first visit the entry and its missing parents are pushed. */
  method PushParents(parents: seq<Tx>, inBlock: set<Tx>, x: Tx, firstTime: bool) returns (allIn: bool, pushed: seq<Tx>)
    ensures allIn <==> Missing(parents, inBlock) == []
    ensures pushed == if firstTime && !allIn then [x] + Missing(parents, inBlock) else []
  {
    allIn, pushed := true, [];
    var pushedParent := false;
    for k := 0 to |parents|
      invariant allIn <==> Missing(parents[..k], inBlock) == []
      invariant pushedParent <==> firstTime && !allIn
      invariant pushed == if pushedParent then [x] + Missing(parents[..k], inBlock) else []
    {
      assert parents[..k + 1] == parents[..k] + [parents[k]];
      MissingAppend(parents[..k], parents[k], inBlock);
      if parents[k] !in inBlock {
        allIn := false;
        if firstTime {
          if !pushedParent {
            pushed := pushed + [x];
            pushedParent := true;
          }
          pushed := pushed + [parents[k]];
        }
      }
    }
    assert parents[..|parents|] == parents;
  }

  lemma {:induction false} MissingAppend(parents: seq<Tx>, p: Tx, inBlock: set<Tx>)
    ensures Missing(parents + [p], inBlock) == Missing(parents, inBlock) + if p in inBlock then [] else [p]
  {
    var all := parents + [p];
    if parents == [] {
      assert all == [p] && all[1..] == [];
    } else {
      MissingAppend(parents[1..], p, inBlock);
      assert all[0] == parents[0] && all[1..] == parents[1..] + [p];
      var first := if parents[0] in inBlock then [] else [parents[0]];
      var last := if p in inBlock then [] else [p];
      assert first + (Missing(parents[1..], inBlock) + last) == (first + Missing(parents[1..], inBlock)) + last;
    }
  }

  datatype Outcome = Passed | Dropped | Ready

  ghost function Measure(pool: Pool, w: Walk): (nat, nat) {
    (|pool.All() - w.got|, if w.next <= |pool.order| then |w.stack| + |pool.order| - w.next else 0)
  }

  ghost predicate Less(a: (nat, nat), b: (nat, nat)) { a.0 < b.0 || (a.0 == b.0 && a.1 < b.1) }

  lemma FirstVisitShrinks(pool: Pool, got: set<Tx>, x: Tx)
    requires x in pool.order && x !in got
    ensures |pool.All() - (got + {x})| < |pool.All() - got|
  {
    assert pool.All() - (got + {x}) == pool.All() - got - {x};
  }

  lemma PopLess(pool: Pool, w: Walk, w': Walk)
    requires w.next <= |pool.order| && w'.got == w.got && w'.next == w.next && |w'.stack| < |w.stack|
    ensures Less(Measure(pool, w'), Measure(pool, w))
  {}

  lemma MarkLess(pool: Pool, w: Walk, w': Walk, x: Tx)
    requires x in pool.order && x !in w.got && w'.got == w.got + {x}
    ensures Less(Measure(pool, w'), Measure(pool, w))
  {
    FirstVisitShrinks(pool, w.got, x);
  }

  /** Looking at the transaction on top of the stack: it is passed over (already in, or its parents
      come first, or it came back without them), dropped by a rule, or ready for the budgets. */
  method Visit(pool: Pool, skipNegative: bool, inBlock: set<Tx>, w: Walk) returns (x: Tx, w': Walk, o: Outcome)
    requires pool.Ok() && WalkShape(pool, w) && w.stack != []
    ensures x == w.stack[|w.stack| - 1] && x in pool.order && WalkShape(pool, w') && w'.next == w.next
    ensures Less(Measure(pool, w'), Measure(pool, w))
    ensures x in inBlock ==> o.Passed? && w' == Popped(w)
    ensures x !in inBlock && skipNegative && x in pool.negativeDelta ==> o.Dropped? && w' == Popped(w)
    ensures x !in inBlock && !(skipNegative && x in pool.negativeDelta) ==>
              var missing := Missing(pool.parents[x], inBlock);
              && (missing == [] ==> o.Ready? && w' == Popped(w).(got := w.got + {x}))
              && (missing != [] ==> o.Passed?)
              && (missing != [] && x in w.got ==> w' == Popped(w))
              && (missing != [] && x !in w.got ==> w' == w.(got := w.got + {x}, stack := w.stack + missing))
  {
    hide Missing, Measure, Less;
    x := w.stack[|w.stack| - 1];
    w' := Popped(w);
    assert forall y | y in w'.stack :: y in w.stack;
    PopLess(pool, w, w');
    if x in inBlock {
      return x, w', Passed;
    }
    if skipNegative && x in pool.negativeDelta {
      return x, w', Dropped;
    }
    var firstTime := x !in w.got;
    w' := w'.(got := w'.got + {x});
    var allIn, pushed := PushParents(pool.parents[x], inBlock, x, firstTime);
    w' := w'.(stack := w'.stack + pushed);
    if firstTime {
      MarkLess(pool, w, w', x);
    } else {
      assert w.got + {x} == w.got;
      PopLess(pool, w, w');
    }
    if !allIn {
      if firstTime { Pushed(pool, w, w', inBlock, x, pushed); }
      return x, w', Passed;
    }
    o := Ready;
  }

  /** The budgets: added, refused, or refused with the loop ending. Only a refusal for size near the limit, or after
      more than fifty of them within a thousand bytes of it, or one for sigops near theirs, ends the loop. */
  method Consider(pool: Pool, maxSize: nat, s: Selection, x: Tx, lastFew: nat)
    returns (s': Selection, refused: bool, stop: bool, lastFew': nat)
    requires pool.Ok() && maxSize >= 1000 && SelectionOk(pool, maxSize, s) && x in pool.order && x !in s.inBlock
    requires Missing(pool.parents[x], s.inBlock) == []
    ensures SelectionOk(pool, maxSize, s') && s' == (if refused then s else Include(pool, s, x)) && (stop ==> refused)
    ensures !refused <==> s.size + pool.size[x] < maxSize && x in pool.final &&
                          s.sigops + pool.sigops[x] < MaxBlockSigops(s.size)
    ensures stop <==> || (s.size + pool.size[x] >= maxSize && (s.size > maxSize - 100 || lastFew > 50))
                      || (&& s.size + pool.size[x] < maxSize && x in pool.final
                          && s.sigops + pool.sigops[x] >= MaxBlockSigops(s.size)
                          && s.sigops > MaxBlockSigops(s.size) - 2)
    ensures lastFew' == lastFew + if !stop && s.size + pool.size[x] >= maxSize && s.size > maxSize - 1000 then 1 else 0
  {
    s', refused, stop, lastFew' := s, true, false, lastFew;
    assert s.size > 0;
    hide SelectionOk, MaxBlockSigops;
    if s.size + pool.size[x] >= maxSize {
      if s.size > maxSize - 100 || lastFew > 50 { stop := true; return; }
      if s.size > maxSize - 1000 { lastFew' := lastFew + 1; }
      return;
    }
    if x !in pool.final { return; }
    if s.sigops + pool.sigops[x] >= MaxBlockSigops(s.size) {
      stop := s.sigops > MaxBlockSigops(s.size) - 2;
      return;
    }
    IncludeKeeps(pool, maxSize, s, x);
    s', refused := Include(pool, s, x), false;
  }

  /** A rule or a budget stands against adding `x` to the selection `s`. */
  ghost predicate Refusal(pool: Pool, maxSize: nat, skipNegative: bool, s: Selection, x: Tx) {
    && SelectionOk(pool, maxSize, s) && x in pool.order && x in pool.size && x in pool.sigops && x !in s.inBlock
    && (|| (skipNegative && x in pool.negativeDelta)
        || s.size + pool.size[x] >= maxSize
        || x !in pool.final
        || s.sigops + pool.sigops[x] >= MaxBlockSigops(s.size))
  }

  /** A refusal and the selection at that moment. */
  datatype Refused = Refused(at: Selection, tx: Tx)

  ghost function RefusedIn(log: seq<Refused>): set<Tx> { set r | r in log :: r.tx }

  lemma RefusedMore(log: seq<Refused>, r: Refused)
    ensures RefusedIn(log + [r]) == RefusedIn(log) + {r.tx}
  {
    assert r in log + [r];
  }

  /** Every refusal in the log was due, at a prefix of the selection. */
  ghost predicate LogOk(pool: Pool, maxSize: nat, skipNegative: bool, s: Selection, log: seq<Refused>) {
    forall r | r in log :: Refusal(pool, maxSize, skipNegative, r.at, r.tx) && r.at.added <= s.added
  }

  /** How many refusals for size were met within a thousand bytes of the limit. */
  ghost function NearFull(pool: Pool, maxSize: nat, skipNegative: bool, log: seq<Refused>): nat {
    if log == [] then 0
    else
      var r := log[|log| - 1];
      NearFull(pool, maxSize, skipNegative, log[..|log| - 1]) +
      if && !(skipNegative && r.tx in pool.negativeDelta) && r.tx in pool.size
         && r.at.size + pool.size[r.tx] >= maxSize && r.at.size > maxSize - 1000 then 1 else 0
  }

  /** The loop ends early at the last refusal of the log. */
  ghost predicate GivesUp(pool: Pool, maxSize: nat, skipNegative: bool, s: Selection, log: seq<Refused>) {
    && log != []
    && var x := log[|log| - 1].tx;
       && log[|log| - 1].at == s && x in pool.size && x in pool.sigops && s.size > 0
       && (|| (&& s.size + pool.size[x] >= maxSize
               && (s.size > maxSize - 100 || NearFull(pool, maxSize, skipNegative, log[..|log| - 1]) > 50))
           || (s.sigops + pool.sigops[x] >= MaxBlockSigops(s.size) && s.sigops > MaxBlockSigops(s.size) - 2))
  }

  /** What holds each time round the loop. */
  ghost predicate LoopInv(pool: Pool, maxSize: nat, skipNegative: bool, rank: Tx -> nat, w: Walk, s: Selection,
                          turns: seq<nat>, log: seq<Refused>)
  {
    && pool.Ok() && WalkShape(pool, w) && SelectionOk(pool, maxSize, s)
    && InTurn(pool, w, s.added, turns) && LogOk(pool, maxSize, skipNegative, s, log)
    && (pool.Acyclic(rank) ==>
          && Settled(pool, w, s.added, turns, RefusedIn(log)) && Anchored(pool, rank, w, s.inBlock, RefusedIn(log)))
  }

  lemma Sized(pool: Pool, x: Tx)
    requires pool.Ok() && x in pool.order
    ensures x in pool.parents && x in pool.size && x in pool.sigops
  {}

  lemma LoopStart(pool: Pool, maxSize: nat, skipNegative: bool, rank: Tx -> nat)
    requires pool.Ok()
    ensures LoopInv(pool, maxSize, skipNegative, rank, Walk(0, [], {}), START, [], [])
    ensures WalkShape(pool, Walk(0, [], {})) && NearFull(pool, maxSize, skipNegative, []) == 0
  {}

  lemma LoopParts(pool: Pool, maxSize: nat, skipNegative: bool, rank: Tx -> nat, w: Walk, s: Selection,
                  turns: seq<nat>, log: seq<Refused>)
    requires LoopInv(pool, maxSize, skipNegative, rank, w, s, turns, log)
    ensures SelectionOk(pool, maxSize, s) && pool.Ok() && w.next <= |pool.order| && (w.stack != [] ==> w.next > 0)
    ensures s.size > 0 && forall x :: x in s.inBlock <==> x in s.added
  {
    hide Settled, Anchored, Reaches, LogOk;
    if w.stack != [] { assert w.stack[0] in w.stack; }
  }

  lemma LoopTake(pool: Pool, maxSize: nat, skipNegative: bool, rank: Tx -> nat, w: Walk, s: Selection,
                 turns: seq<nat>, log: seq<Refused>)
    requires LoopInv(pool, maxSize, skipNegative, rank, w, s, turns, log) && w.stack == [] && w.next < |pool.order|
    ensures LoopInv(pool, maxSize, skipNegative, rank, w.(next := w.next + 1, stack := [pool.order[w.next]]), s, turns,
                    log)
  {
    NextInRange(pool, w);
    TakeKeeps(pool, rank, w, s, turns, RefusedIn(log));
    hide Settled, Anchored, InTurn, LogOk, SelectionOk, WalkShape;
  }

  /** The top is in the block, is put back under its parents, or waits in vain. */
  lemma LoopPass(pool: Pool, maxSize: nat, skipNegative: bool, rank: Tx -> nat, w: Walk, w': Walk, s: Selection,
                 turns: seq<nat>, log: seq<Refused>)
    requires LoopInv(pool, maxSize, skipNegative, rank, w, s, turns, log) && w.stack != [] && WalkShape(pool, w')
    requires var x := w.stack[|w.stack| - 1];
             x in pool.parents &&
             if x in s.inBlock then w' == Popped(w)
             else var missing := Missing(pool.parents[x], s.inBlock);
                  missing != [] && if x in w.got then w' == Popped(w)
                                   else w' == w.(got := w.got + {x}, stack := w.stack + missing)
    ensures LoopInv(pool, maxSize, skipNegative, rank, w', s, turns, log)
  {
    hide Settled, Anchored, InTurn, LogOk, SelectionOk, WalkShape, Missing, Pool.Acyclic, Doomed;
    LoopParts(pool, maxSize, skipNegative, rank, w, s, turns, log);
    var x := w.stack[|w.stack| - 1];
    if x !in s.inBlock && x !in w.got {
      PushKeeps(pool, rank, w, s, turns, RefusedIn(log));
    } else if x in s.inBlock {
      PopKeeps(pool, rank, w, s, turns, RefusedIn(log));
    } else if pool.Acyclic(rank) {
      SecondTimeDoomed(pool, rank, w, s.inBlock, RefusedIn(log));
      PopKeeps(pool, rank, w, s, turns, RefusedIn(log));
    } else {
      PopInTurn(pool, w, s.added, turns);
    }
  }

  lemma PopInTurn(pool: Pool, w: Walk, added: seq<Tx>, turns: seq<nat>)
    requires InTurn(pool, w, added, turns) && w.stack != []
    ensures InTurn(pool, Popped(w), added, turns)
  {
    hide Reaches;
    assert forall y | y in Popped(w).stack :: y in w.stack;
  }

  lemma LoopRefuse(pool: Pool, maxSize: nat, skipNegative: bool, rank: Tx -> nat, w: Walk, w': Walk, s: Selection,
                   turns: seq<nat>, log: seq<Refused>)
    requires LoopInv(pool, maxSize, skipNegative, rank, w, s, turns, log) && w.stack != [] && WalkShape(pool, w')
    requires var x := w.stack[|w.stack| - 1];
             && (w' == Popped(w) || w' == Popped(w).(got := w.got + {x})) && x in pool.order && x !in s.inBlock
             && (|| (skipNegative && x in pool.negativeDelta)
                 || !(s.size > 0 && s.size + pool.size[x] < maxSize && x in pool.final
                   && s.sigops + pool.sigops[x] < MaxBlockSigops(s.size)))
    ensures LoopInv(pool, maxSize, skipNegative, rank, w', s, turns, log + [Refused(s, w.stack[|w.stack| - 1])])
  {
    var x := w.stack[|w.stack| - 1];
    LoopParts(pool, maxSize, skipNegative, rank, w, s, turns, log);
    Logged(pool, maxSize, skipNegative, s, log, x);
    RefusedMore(log, Refused(s, x));
    var more := RefusedIn(log) + {x};
    hide Settled, Anchored, InTurn, LogOk, SelectionOk, WalkShape, Pool.Acyclic, Doomed, MaxBlockSigops, RefusedIn;
    RefuseKeeps(pool, rank, w, s, turns, RefusedIn(log), x);
    PopKeeps(pool, rank, w, s, turns, more);
    MarkDoomed(pool, rank, Popped(w), s, turns, more, x);
  }

  lemma MarkDoomed(pool: Pool, rank: Tx -> nat, w: Walk, s: Selection, turns: seq<nat>, refused: set<Tx>, x: Tx)
    requires pool.Ok() && Doomed(pool, refused, x) && x in pool.order && InTurn(pool, w, s.added, turns)
    ensures var v := w.(got := w.got + {x});
            && InTurn(pool, v, s.added, turns)
            && (Settled(pool, w, s.added, turns, refused) ==> Settled(pool, v, s.added, turns, refused))
            && (Anchored(pool, rank, w, s.inBlock, refused) ==> Anchored(pool, rank, v, s.inBlock, refused))
  {
    hide Reaches, Doomed, Done;
    var v := w.(got := w.got + {x});
    if Anchored(pool, rank, w, s.inBlock, refused) {
      forall y | y in w.got && y !in s.inBlock && !Doomed(pool, refused, y)
        ensures exists i :: Anchor(pool, rank, v, s.inBlock, y, i)
      {
        var i :| Anchor(pool, rank, w, s.inBlock, y, i);
        assert Anchor(pool, rank, v, s.inBlock, y, i);
      }
    }
  }

  lemma Logged(pool: Pool, maxSize: nat, skipNegative: bool, s: Selection, log: seq<Refused>, x: Tx)
    requires pool.Ok() && SelectionOk(pool, maxSize, s) && LogOk(pool, maxSize, skipNegative, s, log)
    requires x in pool.order && x !in s.inBlock
    requires || (skipNegative && x in pool.negativeDelta)
             || !(s.size > 0 && s.size + pool.size[x] < maxSize && x in pool.final
               && s.sigops + pool.sigops[x] < MaxBlockSigops(s.size))
    ensures LogOk(pool, maxSize, skipNegative, s, log + [Refused(s, x)])
  {
    assert s.size > 0;
    hide SelectionOk, MaxBlockSigops;
  }

  lemma LoopInclude(pool: Pool, maxSize: nat, skipNegative: bool, rank: Tx -> nat, w: Walk, w': Walk, s: Selection,
                    turns: seq<nat>, log: seq<Refused>)
    requires LoopInv(pool, maxSize, skipNegative, rank, w, s, turns, log) && w.stack != [] && WalkShape(pool, w')
    requires var x := w.stack[|w.stack| - 1];
             && x in pool.order && w' == Popped(w).(got := w.got + {x})
             && SelectionOk(pool, maxSize, Include(pool, s, x))
    ensures w.next > 0
    ensures LoopInv(pool, maxSize, skipNegative, rank, w', Include(pool, s, w.stack[|w.stack| - 1]),
                    turns + [w.next - 1], log)
  {
    hide Settled, Anchored, InTurn, LogOk, SelectionOk, WalkShape, Pool.Acyclic, Pool.Ok, RefusedIn, Include;
    var x := w.stack[|w.stack| - 1];
    LoopParts(pool, maxSize, skipNegative, rank, w, s, turns, log);
    Sized(pool, x);
    LogGrows(pool, maxSize, skipNegative, s, x, log);
    IncludeAndPop(pool, rank, w, s, turns, RefusedIn(log));
  }

  lemma IncludeAndPop(pool: Pool, rank: Tx -> nat, w: Walk, s: Selection, turns: seq<nat>, refused: set<Tx>)
    requires pool.Ok() && InTurn(pool, w, s.added, turns) && w.stack != [] && w.next > 0
    requires w.stack[|w.stack| - 1] in pool.order && forall x :: x in s.inBlock <==> x in s.added
    ensures var x := w.stack[|w.stack| - 1];
            var v, t, more := Popped(w).(got := w.got + {x}), Include(pool, s, x), turns + [w.next - 1];
            && InTurn(pool, v, t.added, more)
            && (Settled(pool, w, s.added, turns, refused) ==> Settled(pool, v, t.added, more, refused))
            && (Anchored(pool, rank, w, s.inBlock, refused) ==> Anchored(pool, rank, v, t.inBlock, refused))
  {
    hide Settled, Anchored, InTurn, Doomed;
    var x := w.stack[|w.stack| - 1];
    IncludeKeepsProgress(pool, rank, w, s, turns, refused, x);
    PopKeeps(pool, rank, w.(got := w.got + {x}), Include(pool, s, x), turns + [w.next - 1], refused);
  }

  lemma LogGrows(pool: Pool, maxSize: nat, skipNegative: bool, s: Selection, x: Tx, log: seq<Refused>)
    requires LogOk(pool, maxSize, skipNegative, s, log) && x in pool.size && x in pool.sigops
    ensures LogOk(pool, maxSize, skipNegative, Include(pool, s, x), log)
  {
    hide Refusal;
  }

  lemma NearFullMore(pool: Pool, maxSize: nat, skipNegative: bool, log: seq<Refused>, s: Selection, x: Tx)
    requires x in pool.size
    ensures NearFull(pool, maxSize, skipNegative, log + [Refused(s, x)])
            == NearFull(pool, maxSize, skipNegative, log) +
               if && !(skipNegative && x in pool.negativeDelta) && s.size + pool.size[x] >= maxSize
                  && s.size > maxSize - 1000 then 1 else 0
  {
    assert (log + [Refused(s, x)])[..|log|] == log;
  }

  lemma GivingUp(pool: Pool, maxSize: nat, skipNegative: bool, s: Selection, log: seq<Refused>, x: Tx)
    requires x in pool.size && x in pool.sigops && s.size > 0
    requires || (&& s.size + pool.size[x] >= maxSize
                 && (s.size > maxSize - 100 || NearFull(pool, maxSize, skipNegative, log) > 50))
             || (s.sigops + pool.sigops[x] >= MaxBlockSigops(s.size) && s.sigops > MaxBlockSigops(s.size) - 2)
    ensures GivesUp(pool, maxSize, skipNegative, s, log + [Refused(s, x)])
  {
    hide NearFull, MaxBlockSigops;
    assert (log + [Refused(s, x)])[..|log|] == log;
  }

  lemma LoopEnd(pool: Pool, maxSize: nat, skipNegative: bool, rank: Tx -> nat, w: Walk, s: Selection,
                turns: seq<nat>, log: seq<Refused>)
    requires LoopInv(pool, maxSize, skipNegative, rank, w, s, turns, log)
    ensures SelectionOk(pool, maxSize, s) && LogOk(pool, maxSize, skipNegative, s, log)
    ensures |turns| == |s.added| && (forall n, m | 0 <= n < m < |turns| :: turns[n] <= turns[m])
    ensures forall n | 0 <= n < |turns| :: turns[n] < |pool.order| && Reaches(pool, pool.order[turns[n]], s.added[n])
    ensures pool.Acyclic(rank) && w.stack == [] && w.next >= |pool.order| ==>
              && (forall k | 0 <= k < |pool.order| :: Done(pool, s.added, turns, RefusedIn(log), k))
              && (log == [] ==> s.inBlock == pool.All())
  {
    hide Anchored, Reaches, LogOk, Pool.Acyclic, MaxBlockSigops;
    if pool.Acyclic(rank) && w.stack == [] && w.next >= |pool.order| && log == [] {
      forall x | x in pool.order ensures x in s.inBlock {
        var k :| 0 <= k < |pool.order| && pool.order[k] == x;
        assert Done(pool, s.added, turns, RefusedIn(log), k);
      }
    }
  }

  lemma NextInRange(pool: Pool, w: Walk)
    requires WalkShape(pool, w)
    ensures w.next <= |pool.order|
    ensures w.stack == [] && w.next < |pool.order| ==>
              var v := w.(next := w.next + 1, stack := [pool.order[w.next]]);
              WalkShape(pool, v) && Measure(pool, v) == Measure(pool, w)
  {
  }

  lemma Pushed(pool: Pool, top: Walk, w: Walk, inBlock: set<Tx>, x: Tx, pushed: seq<Tx>)
    requires top.stack != [] && top.stack[|top.stack| - 1] == x && x in pool.parents
    requires pushed == [x] + Missing(pool.parents[x], inBlock) && w.stack == Popped(top).stack + pushed
    ensures w.stack == top.stack + Missing(pool.parents[x], inBlock)
  {
  }

  /** Selects transactions for a block. Whatever is refused, the result has no duplicates, lists every
      transaction after its mempool parents and stays within the limits. Added transactions come in the turns of the
      score order, each being the entry whose turn it is or one of its ancestors. Unless the loop gives up, on a
      mempool without cycles every transaction is added by the end of its turn, or it or one of its ancestors was
      refused at a prefix of the result. The loop ends on any mempool. */
  method SelectTransactions(pool: Pool, maxSize: nat, skipNegative: bool, ghost rank: Tx -> nat)
    returns (s: Selection, stopped: bool, ghost turns: seq<nat>, ghost log: seq<Refused>)
    requires pool.Ok() && maxSize >= 1000
    ensures SelectionOk(pool, maxSize, s)
    ensures |turns| == |s.added| && (forall n, m | 0 <= n < m < |turns| :: turns[n] <= turns[m])
    ensures forall n | 0 <= n < |turns| :: turns[n] < |pool.order| && Reaches(pool, pool.order[turns[n]], s.added[n])
    ensures LogOk(pool, maxSize, skipNegative, s, log)
    ensures pool.Acyclic(rank) && !stopped ==>
              forall k | 0 <= k < |pool.order| :: Done(pool, s.added, turns, RefusedIn(log), k)
    ensures pool.Acyclic(rank) && log == [] ==> s.inBlock == pool.All()
    ensures stopped ==> GivesUp(pool, maxSize, skipNegative, s, log)
  {
    hide SelectionOk, Pool.Acyclic, Pool.Ok, MaxBlockSigops, WalkShape, Measure, Missing, Refusal, LoopInv, LogOk,
      NearFull, GivesUp, Done, InTurn, Reaches, RefusedIn;
    s, stopped, turns, log := START, false, [], [];
    var w := Walk(0, [], {});
    var lastFew := 0;
    LoopStart(pool, maxSize, skipNegative, rank);
    while w.next < |pool.order| || w.stack != []
      invariant LoopInv(pool, maxSize, skipNegative, rank, w, s, turns, log) && WalkShape(pool, w)
      invariant lastFew == NearFull(pool, maxSize, skipNegative, log)
      decreases Measure(pool, w).0, Measure(pool, w).1
    {
      if w.stack == [] {
        NextInRange(pool, w);
        LoopTake(pool, maxSize, skipNegative, rank, w, s, turns, log);
        w := w.(next := w.next + 1, stack := [pool.order[w.next]]);
      }
      ghost var top := w;
      var x, w', o := Visit(pool, skipNegative, s.inBlock, w);
      w := w';
      if o.Passed? {
        Sized(pool, x);
        LoopPass(pool, maxSize, skipNegative, rank, top, w, s, turns, log);
      }
      if o.Dropped? {
        Sized(pool, x);
        NearFullMore(pool, maxSize, skipNegative, log, s, x);
        LoopRefuse(pool, maxSize, skipNegative, rank, top, w, s, turns, log);
        log := log + [Refused(s, x)];
      }
      if o.Ready? {
        LoopParts(pool, maxSize, skipNegative, rank, top, s, turns, log);
        var refused, stop, included;
        included, refused, stop, lastFew := Consider(pool, maxSize, s, x, lastFew);
        if refused {
          Sized(pool, x);
          NearFullMore(pool, maxSize, skipNegative, log, s, x);
          if stop { GivingUp(pool, maxSize, skipNegative, s, log, x); }
          LoopRefuse(pool, maxSize, skipNegative, rank, top, w, s, turns, log);
          log := log + [Refused(s, x)];
          if stop {
            stopped := true;
            break;
          }
        } else {
          LoopInclude(pool, maxSize, skipNegative, rank, top, w, s, turns, log);
          s, turns := included, turns + [w.next - 1];
        }
      }
    }
    LoopEnd(pool, maxSize, skipNegative, rank, w, s, turns, log);
  }
}
