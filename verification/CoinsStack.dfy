/** The view objects: a database and caches linked to their bases. Reading fills the caches of all
    layers underneath, so every method may change the whole chain. */
module CoinsStack {
  import opened Prelude
  import opened Coins
  import opened Sums

  class CoinsDB {
    var coins: View

    ghost predicate Valid() reads this { OnlyUnspent(coins) }

    constructor (v: View)
      requires OnlyUnspent(v)
      ensures coins == v && Valid()
    {
      coins := v;
    }

    method GetCoin(o: OutPoint) returns (r: Option<Coin>)
      ensures r == Look(coins, o)
    {
      r := Look(coins, o);
    }

    method BatchWrite(child: Cache)
      requires Valid() && LayerOk(child, coins)
      modifies this
      ensures Valid() && coins == Overlay(child, old(coins))
    {
      hide LayerOk, Written, OnlyUnspent;
      ghost var done: set<OutPoint> := {};
      var todo := child.Keys;
      WrittenNone(coins, child);
      while todo != {}
        invariant done !! todo && done + todo == child.Keys
        invariant coins == Written(old(coins), child, done)
        decreases |todo|
      {
        ghost var some := Pick(todo);
        var o :| o in todo;
        WrittenStep(old(coins), child, done, o);
        if child[o].isDirty {
          if child[o].coin.IsSpent() {
            coins := coins - {o};
          } else {
            coins := coins[o := child[o].coin];
          }
        }
        done, todo := done + {o}, todo - {o};
      }
      assert done == child.Keys;
      WrittenIsOverlay(old(coins), child);
      OverlayUnspent(child, old(coins));
    }
  }

  class CoinsViewCache {
    /** The base is another cache when `parent` is set, otherwise the database. */
    const parent: CoinsViewCache?
    const db: CoinsDB
    const size: seq<nat> -> nat
    ghost const Repr: set<object>
    var cacheCoins: Cache
    var usage: int

    ghost predicate Valid()
      reads this, Repr
      decreases Repr, 1
    {
      && this in Repr && db in Repr
      && (parent != null ==>
            parent in Repr && parent.Repr < Repr && this !in parent.Repr && parent.db == db && parent.Valid())
      && (parent == null ==> db.Valid())
      && LayerOk(cacheCoins, BaseViews()[0])
      && usage == Total(size, cacheCoins)
    }

    /** The views of all layers below this one, the nearest first and the database last. */
    ghost function BaseViews(): (vs: seq<View>)
      requires this in Repr && db in Repr
      requires parent != null ==> parent in Repr && parent.Repr < Repr && parent.Valid()
      reads this, Repr
      ensures |vs| > 0
      decreases Repr, 0
    {
      if parent == null then [db.coins] else parent.Views()
    }

    ghost function Views(): (vs: seq<View>)
      requires Valid()
      reads this, Repr
      ensures |vs| > 1
      decreases Repr, 2
    {
      [Overlay(cacheCoins, BaseViews()[0])] + BaseViews()
    }

    ghost function ViewNow(): View
      requires Valid()
      reads this, Repr
    {
      Views()[0]
    }

    /** An empty cache over the database, or over another cache. */
    constructor (p: CoinsViewCache?, d: CoinsDB, sz: seq<nat> -> nat)
      requires p == null ==> d.Valid()
      requires p != null ==> p.Valid() && p.db == d
      ensures parent == p && db == d && size == sz && Valid() && cacheCoins == map[]
      ensures fresh(Repr - (if p == null then {d} else p.Repr))
      ensures Views() == if p == null then [d.coins, d.coins] else [p.Views()[0]] + p.Views()
    {
      parent, db, size := p, d, sz;
      cacheCoins, usage := map[], 0;
      Repr := {this, d} + if p == null then {} else p.Repr;
      new;
      assert Overlay(map[], BaseViews()[0]) == BaseViews()[0];
    }

    method BaseGetCoin(o: OutPoint) returns (r: Option<Coin>)
      requires Valid()
      modifies Repr - {this}
      ensures Valid() && BaseViews() == old(BaseViews()) && r == Look(BaseViews()[0], o)
      decreases Repr, 0
    {
      if parent == null {
        r := db.GetCoin(o);
      } else {
        r := parent.GetCoin(o);
      }
    }

    lemma BaseUnspent()
      requires Valid()
      ensures OnlyUnspent(BaseViews()[0])
    {
    }

    method FetchCoin(o: OutPoint) returns (found: bool)
      requires Valid()
      modifies Repr
      ensures Valid() && Views() == old(Views()) && BaseViews() == old(BaseViews())
      ensures cacheCoins == Fetched(old(cacheCoins), BaseViews()[0], o)
      ensures found == (o in cacheCoins)
      decreases Repr, 1
    {
      hide LayerOk, Overlay;
      FetchedKeeps(cacheCoins, BaseViews()[0], o);
      BaseUnspent();
      if o in cacheCoins { return true; }
      var tmp := BaseGetCoin(o);
      if tmp.None? { return false; }
      // A base only ever hands out unspent coins, so the FRESH marking for a pruned one is dead.
      assert !tmp.value.IsSpent();
      TotalUpdate(size, cacheCoins, o, Entry(tmp.value, false, false));
      cacheCoins := cacheCoins[o := Entry(tmp.value, false, false)];
      usage := usage + Usage(size, tmp.value);
      return true;
    }

    method GetCoin(o: OutPoint) returns (r: Option<Coin>)
      requires Valid()
      modifies Repr
      ensures Valid() && Views() == old(Views()) && r == Look(ViewNow(), o)
      decreases Repr, 2
    {
      FetchedKeeps(cacheCoins, BaseViews()[0], o);
      var found := FetchCoin(o);
      if found && !cacheCoins[o].coin.IsSpent() {
        r := Some(cacheCoins[o].coin);
      } else {
        r := None;
      }
    }

    method HaveCoin(o: OutPoint) returns (r: bool)
      requires Valid()
      modifies Repr
      ensures Valid() && Views() == old(Views()) && r == (o in ViewNow())
    {
      FetchedKeeps(cacheCoins, BaseViews()[0], o);
      var found := FetchCoin(o);
      r := found && !cacheCoins[o].coin.IsSpent();
    }

    /** The new cache of this layer, when nothing below it changed. */
    lemma OwnChange(c: Cache, vs: seq<View>)
      requires this in Repr && db in Repr
      requires parent != null ==>
                 parent in Repr && parent.Repr < Repr && this !in parent.Repr && parent.db == db && parent.Valid()
      requires parent == null ==> db.Valid()
      requires cacheCoins == c && usage == Total(size, c) && vs == BaseViews() && LayerOk(c, vs[0])
      ensures Valid() && Views() == [Overlay(c, vs[0])] + vs
    {
    }

    /** Adding a coin acts like adding it to the plain map, as long as an overwrite of a coin that is
        shown is announced. If it is not, either an exception leaves the usage counter short of the old
        coin, or the entry is marked FRESH over a base that shows the coin. */
    method AddCoin(o: OutPoint, coin: Coin, overwrite: bool) returns (thrown: bool)
      requires Valid() && !coin.IsSpent()
      modifies this
      ensures coin.IsUnspendable() || overwrite || o !in old(ViewNow()) ==>
                && !thrown && Valid()
                && Views() == [if coin.IsUnspendable() then old(ViewNow()) else old(ViewNow())[o := coin]]
                  + old(BaseViews())
      ensures thrown <==> !coin.IsUnspendable() && !overwrite && o in old(cacheCoins) && o in old(ViewNow())
      ensures thrown ==>
                cacheCoins == old(cacheCoins) && usage == Total(size, cacheCoins) - Usage(size, cacheCoins[o].coin)
      ensures !thrown ==> usage == Total(size, cacheCoins)
      ensures !thrown && !coin.IsUnspendable() && !overwrite && o in old(ViewNow()) ==>
                && cacheCoins == old(cacheCoins)[o := Entry(coin, true, true)]
                && !LayerOk(cacheCoins, old(BaseViews())[0])
    {
      hide LayerOk, Overlay, Total;
      if coin.IsUnspendable() { return false; }
      ghost var vs := BaseViews();
      ShownHere(cacheCoins, vs[0], o);
      var e := if o in cacheCoins then cacheCoins[o] else Entry(coin.Cleared(), false, false);
      var fresh_ := false;
      if o in cacheCoins {
        usage := usage - Usage(size, e.coin);
      }
      if !overwrite {
        if !e.coin.IsSpent() { return true; }
        fresh_ := !e.isDirty;
      }
      var e' := Entry(coin, true, e.isFresh || fresh_);
      assert e' == AddedEntry(Look(cacheCoins, o), coin, overwrite);
      if overwrite || o !in Overlay(cacheCoins, vs[0]) {
        AddedKeeps(cacheCoins, vs[0], o, coin, overwrite);
      } else {
        AddedExactly(cacheCoins, vs[0], o, coin, overwrite);
      }
      TotalUpdate(size, cacheCoins, o, e');
      ghost var shown := overwrite || o !in Overlay(cacheCoins, vs[0]);
      cacheCoins := cacheCoins[o := e'];
      usage := usage + Usage(size, coin);
      if shown { OwnChange(cacheCoins, vs); }
      return false;
    }

    method SpendCoin(o: OutPoint) returns (r: bool, moved: Option<Coin>)
      requires Valid()
      modifies Repr
      ensures Valid() && Views() == [old(ViewNow()) - {o}] + old(BaseViews())
      ensures r == (o in old(cacheCoins) || o in old(BaseViews())[0])
      ensures o in old(ViewNow()) ==> r && moved == Some(old(ViewNow())[o])
      ensures r && o !in old(ViewNow()) <==> o in old(cacheCoins) && old(cacheCoins)[o].coin.IsSpent()
    {
      hide LayerOk, Overlay, Fetched, SpentFrom;
      ghost var vs, v := BaseViews(), ViewNow();
      ShownHere(cacheCoins, vs[0], o);
      FetchedKeeps(cacheCoins, vs[0], o);
      var found := FetchCoin(o);
      if !found {
        assert v - {o} == v;
        return false, None;
      }
      SpentKeeps(cacheCoins, vs[0], o);
      moved := Some(cacheCoins[o].coin);
      SpendEntry(o);
      OwnChange(cacheCoins, vs);
      return true, moved;
    }

    method SpendEntry(o: OutPoint)
      requires o in cacheCoins && usage == Total(size, cacheCoins)
      modifies this
      ensures cacheCoins == SpentFrom(old(cacheCoins), o) && usage == Total(size, cacheCoins)
    {
      usage := usage - Usage(size, cacheCoins[o].coin);
      TotalWithout(size, cacheCoins, o);
      TotalUpdate(size, cacheCoins, o, Entry(cacheCoins[o].coin.Cleared(), true, false));
      if cacheCoins[o].isFresh {
        cacheCoins := cacheCoins - {o};
      } else {
        cacheCoins := cacheCoins[o := Entry(cacheCoins[o].coin.Cleared(), true, false)];
      }
    }

    method Uncache(o: OutPoint)
      requires Valid()
      modifies this
      ensures Valid() && Views() == old(Views()) && cacheCoins == Uncached(old(cacheCoins), o)
    {
      ghost var vs := BaseViews();
      UncachedKeeps(cacheCoins, vs[0], o);
      hide LayerOk, Overlay;
      if o in cacheCoins && !cacheCoins[o].isDirty && !cacheCoins[o].isFresh {
        TotalWithout(size, cacheCoins, o);
        usage := usage - Usage(size, cacheCoins[o].coin);
        cacheCoins := cacheCoins - {o};
      }
      OwnChange(cacheCoins, vs);
    }

    /** A child's entries are written into this cache; its logic error is never raised. */
    method BatchWrite(child: Cache)
      requires Valid() && LayerOk(child, ViewNow())
      modifies this
      ensures Valid() && Views() == [Overlay(child, old(ViewNow()))] + old(BaseViews())
    {
      hide LayerOk, Overlay, Merged, Misapplied;
      ghost var vs, mine := BaseViews(), cacheCoins;
      forall o | o in child ensures !Misapplied(Look(mine, o), child[o]) { NeverMisapplied(mine, vs[0], child, o); }
      MergeAll(child);
      MergedKeeps(mine, vs[0], child, cacheCoins);
      OwnChange(cacheCoins, vs);
    }

    method MergeAll(child: Cache)
      requires usage == Total(size, cacheCoins)
      requires forall o | o in child :: !Misapplied(Look(cacheCoins, o), child[o])
      modifies this
      ensures Merged(old(cacheCoins), child, child.Keys, cacheCoins) && usage == Total(size, cacheCoins)
    {
      hide Merged, Misapplied, Total;
      ghost var mine := cacheCoins;
      ghost var done: set<OutPoint> := {};
      var todo := child.Keys;
      MergedNone(mine, child);
      while todo != {}
        invariant done !! todo && done + todo == child.Keys
        invariant Merged(mine, child, done, cacheCoins) && usage == Total(size, cacheCoins)
        decreases |todo|
      {
        ghost var some := Pick(todo);
        var o :| o in todo;
        MergeOne(o, child[o], mine, child, done);
        done, todo := done + {o}, todo - {o};
      }
      assert done == child.Keys;
    }

    method MergeOne(o: OutPoint, e: Entry, ghost mine: Cache, ghost child: Cache, ghost done: set<OutPoint>)
      requires done <= child.Keys && o in child && o !in done && e == child[o] && Merged(mine, child, done, cacheCoins)
      requires !Misapplied(Look(mine, o), e) && usage == Total(size, cacheCoins)
      modifies this
      ensures Merged(mine, child, done + {o}, cacheCoins) && usage == Total(size, cacheCoins)
    {
      hide Total;
      assert Look(cacheCoins, o) == Look(mine, o);
      if e.isDirty {
        if o !in cacheCoins {
          if !(e.isFresh && e.coin.IsSpent()) {
            TotalUpdate(size, cacheCoins, o, Entry(e.coin, true, e.isFresh));
            cacheCoins := cacheCoins[o := Entry(e.coin, true, e.isFresh)];
            usage := usage + Usage(size, e.coin);
          }
        } else {
          var us := cacheCoins[o];
          assert !(e.isFresh && !us.coin.IsSpent());
          if us.isFresh && e.coin.IsSpent() {
            TotalWithout(size, cacheCoins, o);
            usage := usage - Usage(size, us.coin);
            cacheCoins := cacheCoins - {o};
          } else {
            TotalUpdate(size, cacheCoins, o, Entry(e.coin, true, us.isFresh));
            usage := usage - Usage(size, us.coin);
            cacheCoins := cacheCoins[o := Entry(e.coin, true, us.isFresh)];
            usage := usage + Usage(size, e.coin);
          }
        }
      }
    }

    /** The base comes to show what this cache shows; every other view stays as it is. */
    method Flush()
      requires Valid()
      modifies Repr
      ensures Valid() && cacheCoins == map[]
      ensures Views() == [old(ViewNow()), old(ViewNow())] + old(Views())[2..]
    {
      hide LayerOk, Overlay, OnlyUnspent;
      ghost var v := ViewNow();
      if parent == null {
        db.BatchWrite(cacheCoins);
      } else {
        parent.BatchWrite(cacheCoins);
      }
      cacheCoins := map[];
      usage := 0;
      EmptyLayer(BaseViews()[0]) by { if parent != null { OverlayUnspent(parent.cacheCoins, parent.BaseViews()[0]); } }
      assert BaseViews()[0] == v;
      OwnChange(cacheCoins, BaseViews());
    }

    lemma ViewsParts()
      requires Valid()
      ensures ViewNow() == Views()[0] && BaseViews() == Views()[1..]
    {
    }

    /** All outputs of a transaction are added; unspendable ones are skipped. */
    method AddCoins(tx: Tx, height: nat, check: bool)
      requires Valid() && tx.Wellformed()
      requires check || tx.coinBase ||
               forall i: nat | i < |tx.outs| ::
                 OutPoint(tx.txid, i) !in ViewNow() || tx.CoinAt(i, height).IsUnspendable()
      modifies Repr
      ensures Valid() && Views() == [WithOutputs(old(ViewNow()), tx, height, |tx.outs|)] + old(BaseViews())
    {
      hide LayerOk, Overlay, Total;
      ghost var v, vs := ViewNow(), BaseViews();
      for i := 0 to |tx.outs|
        invariant Valid() && Views() == [WithOutputs(v, tx, height, i)] + vs
      {
        var o := OutPoint(tx.txid, i);
        LaterOutputsUntouched(v, tx, height, i);
        var overwrite := tx.coinBase;
        if check { overwrite := HaveCoin(o); }
        ViewsParts();
        var thrown := AddCoin(o, tx.CoinAt(i, height), overwrite);
        assert !thrown;
      }
    }

    /** Any run of operations on the top layer acts on the whole stack of views like the same run
        on plain maps: only flushes change a view below the top. */
    method Run(ops: seq<Op>)
      requires Valid() && LegalRun(ViewNow(), ops)
      modifies Repr
      ensures Valid() && Views() == Replay(old(Views()), ops)
      decreases |ops|
    {
      hide LayerOk, Overlay, Total;
      if ops == [] { return; }
      ViewsParts();
      match ops[0] {
        case OpRead(o) => var r := GetCoin(o);
        case OpAdd(o, coin, overwrite) => var thrown := AddCoin(o, coin, overwrite);
        case OpSpend(o) => var r, m := SpendCoin(o);
        case OpUncache(o) => Uncache(o);
        case OpFlush => Flush();
      }
      assert Views() == ApplyAll(old(Views()), ops[0]);
      Run(ops[1..]);
    }
  }

  datatype Tx = Tx(txid: nat, outs: seq<(int, seq<nat>)>, coinBase: bool) {
    /** No output carries the reserved "null" value. */
    predicate Wellformed() { forall i | 0 <= i < |outs| :: outs[i].0 != -1 }
    function CoinAt(i: nat, height: nat): Coin
      requires i < |outs|
    {
      Coin(outs[i].0, outs[i].1, height, coinBase)
    }
  }

  function WithOutputs(v: View, tx: Tx, height: nat, n: nat): View
    requires n <= |tx.outs|
  {
    if n == 0 then v
    else
      var w := WithOutputs(v, tx, height, n - 1);
      var coin := tx.CoinAt(n - 1, height);
      if coin.IsUnspendable() then w else w[OutPoint(tx.txid, n - 1) := coin]
  }

  lemma {:induction false} LaterOutputsUntouched(v: View, tx: Tx, height: nat, n: nat)
    requires n <= |tx.outs|
    ensures forall i: nat | i >= n ::
              OutPoint(tx.txid, i) in WithOutputs(v, tx, height, n) <==> OutPoint(tx.txid, i) in v
  {
    if n > 0 { LaterOutputsUntouched(v, tx, height, n - 1); }
  }

  /** What a view shows with a transaction's outputs: every output but the unspendable ones, as a coin of its
      height, and all else as before. */
  lemma {:induction false} OutputsShown(v: View, tx: Tx, height: nat, n: nat, o: OutPoint)
    requires n <= |tx.outs|
    ensures Look(WithOutputs(v, tx, height, n), o)
            == if o.txid == tx.txid && o.n < n
                  && !(tx.outs[o.n].1 != [] && tx.outs[o.n].1[0] == 0x6a) && |tx.outs[o.n].1| <= 10000
               then Some(Coin(tx.outs[o.n].0, tx.outs[o.n].1, height, tx.coinBase)) else Look(v, o)
  {
    if n > 0 { OutputsShown(v, tx, height, n - 1, o); }
  }

  datatype Op =
    | OpRead(o: OutPoint)
    | OpAdd(o: OutPoint, coin: Coin, overwrite: bool)
    | OpSpend(o: OutPoint)
    | OpUncache(o: OutPoint)
    | OpFlush

  /** The same operation on a plain map. */
  function Apply(v: View, op: Op): View {
    match op
    case OpAdd(o, coin, _) => if coin.IsUnspendable() then v else v[o := coin]
    case OpSpend(o) => v - {o}
    case _ => v
  }

  /** AddCoin without the overwrite mark is for outpoints that show no unspent coin. */
  predicate Legal(v: View, op: Op) {
    op.OpAdd? ==> !op.coin.IsSpent() && (op.coin.IsUnspendable() || op.overwrite || op.o !in v)
  }

  function ApplyAll(vs: seq<View>, op: Op): (r: seq<View>)
    requires |vs| > 1
    ensures |r| == |vs| && r[0] == Apply(vs[0], op)
  {
    if op.OpFlush? then [vs[0], vs[0]] + vs[2..] else [Apply(vs[0], op)] + vs[1..]
  }

  function Replay(vs: seq<View>, ops: seq<Op>): seq<View>
    requires |vs| > 1
    decreases |ops|
  {
    if ops == [] then vs else Replay(ApplyAll(vs, ops[0]), ops[1..])
  }

  predicate LegalRun(v: View, ops: seq<Op>)
    decreases |ops|
  {
    ops == [] || (Legal(v, ops[0]) && LegalRun(Apply(v, ops[0]), ops[1..]))
  }

  function PlainRun(v: View, ops: seq<Op>): View
    decreases |ops|
  {
    if ops == [] then v else PlainRun(Apply(v, ops[0]), ops[1..])
  }

  /** The top of the stack is a plain map under the same operations, flushes or not. */
  lemma {:induction false} TopIsPlainMap(vs: seq<View>, ops: seq<Op>)
    requires |vs| > 1
    ensures |Replay(vs, ops)| == |vs| && Replay(vs, ops)[0] == PlainRun(vs[0], ops)
    decreases |ops|
  {
    if ops != [] { TopIsPlainMap(ApplyAll(vs, ops[0]), ops[1..]); }
  }

  /** Without a flush no view below the top changes. */
  lemma {:induction false} OnlyFlushReachesBelow(vs: seq<View>, ops: seq<Op>)
    requires |vs| > 1 && forall k | 0 <= k < |ops| :: !ops[k].OpFlush?
    ensures |Replay(vs, ops)| == |vs| && Replay(vs, ops)[1..] == vs[1..]
    decreases |ops|
  {
    if ops != [] {
      OnlyFlushReachesBelow(ApplyAll(vs, ops[0]), ops[1..]);
    }
  }

  lemma MergedNone(parent: Cache, child: Cache)
    ensures Merged(parent, child, {}, parent)
  {
  }

  lemma ShownHere(cache: Cache, base: View, o: OutPoint)
    ensures o in Overlay(cache, base) <==> if o in cache then !cache[o].coin.IsSpent() else o in base
  {
  }

  lemma EmptyLayer(v: View)
    requires OnlyUnspent(v)
    ensures LayerOk(map[], v) && Overlay(map[], v) == v
  {
  }
}
