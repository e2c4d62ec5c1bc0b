/** The UTXO view stack: write-back caches with DIRTY and FRESH flags, stacked on one another and
    on a database, and the plain outpoint-to-coin map that the top of the stack stands for. */
module Coins {
  import opened Prelude
  import opened Sums

  const OP_RETURN := 0x6a
  const MAX_SCRIPT_SIZE := 10000

  datatype OutPoint = OutPoint(txid: nat, n: nat)

  datatype Coin = Coin(value: int, script: seq<nat>, height: nat, coinBase: bool) {
    predicate IsSpent() { value == -1 }
    predicate IsUnspendable() { (|script| > 0 && script[0] == OP_RETURN) || |script| > MAX_SCRIPT_SIZE }
    function Cleared(): Coin { Coin(-1, [], 0, false) }
  }

  datatype Entry = Entry(coin: Coin, isDirty: bool, isFresh: bool)

  type Cache = map<OutPoint, Entry>

  /** What a view shows: the unspent coins. */
  type View = map<OutPoint, Coin>

  function Look<K, V>(m: map<K, V>, k: K): Option<V> { if k in m then Some(m[k]) else None }

  /** The view of a cache over the view of its base. */
  function Overlay(cache: Cache, base: View): View {
    map o | o in cache.Keys + base.Keys && (o in cache ==> !cache[o].coin.IsSpent()) ::
      if o in cache then cache[o].coin else base[o]
  }

  ghost predicate OnlyUnspent(v: View) { forall o | o in v :: !v[o].IsSpent() }

  /** What the flags promise about one entry, given what the base shows at that outpoint. */
  predicate EntryOk(e: Entry, under: Option<Coin>) {
    && (e.isFresh ==> e.isDirty && !e.coin.IsSpent() && under.None?)
    && (!e.isDirty ==> under == Some(e.coin))
  }

  ghost predicate LayerOk(cache: Cache, base: View) {
    OnlyUnspent(base) && forall o | o in cache :: EntryOk(cache[o], Look(base, o))
  }

  // ----- one layer: the operations as functions of the cache

  function Fetched(cache: Cache, base: View, o: OutPoint): Cache {
    if o in cache || o !in base then cache else cache[o := Entry(base[o], false, false)]
  }

  lemma FetchedKeeps(cache: Cache, base: View, o: OutPoint)
    requires LayerOk(cache, base)
    ensures var c := Fetched(cache, base, o);
            && LayerOk(c, base) && Overlay(c, base) == Overlay(cache, base)
            && (o in c <==> o in cache || o in base)
            && (o in Overlay(cache, base) <==> o in c && !c[o].coin.IsSpent())
            && (o in Overlay(cache, base) ==> Overlay(cache, base)[o] == c[o].coin)
  {
    var c := Fetched(cache, base, o);
    assert Overlay(c, base) == Overlay(cache, base);
  }

  /** The entry AddCoin writes; a missing entry counts as a clean, cleared one. */
  function AddedEntry(old_: Option<Entry>, coin: Coin, overwrite: bool): Entry {
    var clean := old_.None? || !old_.value.isDirty;
    Entry(coin, true, (old_.Some? && old_.value.isFresh) || (!overwrite && clean))
  }

  lemma AddedKeeps(cache: Cache, base: View, o: OutPoint, coin: Coin, overwrite: bool)
    requires LayerOk(cache, base) && !coin.IsSpent()
    requires overwrite || o !in Overlay(cache, base)
    ensures var c := cache[o := AddedEntry(Look(cache, o), coin, overwrite)];
            LayerOk(c, base) && Overlay(c, base) == Overlay(cache, base)[o := coin]
  {
    var c := cache[o := AddedEntry(Look(cache, o), coin, overwrite)];
    assert EntryOk(c[o], Look(base, o)) by {
      if o in cache { assert EntryOk(cache[o], Look(base, o)); }
    }
    assert Overlay(c, base) == Overlay(cache, base)[o := coin];
  }

  /** Where AddCoin does not throw, the flags stay truthful exactly when the caller announced an
      overwrite or the base does not show the coin: an unannounced overwrite of a coin that only the
      base holds would be marked FRESH. */
  lemma AddedExactly(cache: Cache, base: View, o: OutPoint, coin: Coin, overwrite: bool)
    requires LayerOk(cache, base) && !coin.IsSpent()
    requires overwrite || (o in cache ==> cache[o].coin.IsSpent())
    ensures LayerOk(cache[o := AddedEntry(Look(cache, o), coin, overwrite)], base) <==>
            (overwrite || o in cache || o !in base)
  {
    var c := cache[o := AddedEntry(Look(cache, o), coin, overwrite)];
    if o in cache { assert EntryOk(cache[o], Look(base, o)); }
    if overwrite || o in cache || o !in base {
      assert EntryOk(c[o], Look(base, o));
    } else {
      assert !EntryOk(c[o], Look(base, o));
    }
  }

  /** The smallest such overwrite: an empty cache over a base that holds the coin. */
  lemma FreshOverBase(o: OutPoint, coin: Coin, other: Coin)
    requires !coin.IsSpent() && !other.IsSpent()
    ensures LayerOk(map[], map[o := coin]) && !LayerOk(map[o := AddedEntry(None, other, false)], map[o := coin])
  {
    assert !EntryOk(map[o := AddedEntry(None, other, false)][o], Look(map[o := coin], o));
  }

  /** SpendCoin on a fetched entry. */
  function SpentFrom(cache: Cache, o: OutPoint): Cache
    requires o in cache
  {
    if cache[o].isFresh then cache - {o} else cache[o := Entry(cache[o].coin.Cleared(), true, false)]
  }

  lemma SpentKeeps(cache: Cache, base: View, o: OutPoint)
    requires LayerOk(cache, base) && o in cache
    ensures LayerOk(SpentFrom(cache, o), base) && Overlay(SpentFrom(cache, o), base) == Overlay(cache, base) - {o}
  {
    assert EntryOk(cache[o], Look(base, o));
    assert Overlay(SpentFrom(cache, o), base) == Overlay(cache, base) - {o};
  }

  /** A spent entry that is not FRESH stays in the cache, so spending it again finds it. */
  lemma SpentStaysCached(o: OutPoint, coin: Coin)
    requires !coin.IsSpent()
    ensures var base := map[o := coin]; var cache := SpentFrom(Fetched(map[], base, o), o);
            LayerOk(cache, base) && o in cache && o !in Overlay(cache, base)
  {
  }

  function Uncached(cache: Cache, o: OutPoint): Cache {
    if o in cache && !cache[o].isDirty && !cache[o].isFresh then cache - {o} else cache
  }

  lemma UncachedKeeps(cache: Cache, base: View, o: OutPoint)
    requires LayerOk(cache, base)
    ensures LayerOk(Uncached(cache, o), base) && Overlay(Uncached(cache, o), base) == Overlay(cache, base)
  {
    if o in cache { assert EntryOk(cache[o], Look(base, o)); }
    assert Overlay(Uncached(cache, o), base) == Overlay(cache, base);
  }

  /** Only an entry with nothing to write is dropped, so looking up and dropping leave the cache as it was. */
  lemma FetchUncache(cache: Cache, base: View, o: OutPoint)
    ensures o in Uncached(cache, o) <==> o in cache && (cache[o].isDirty || cache[o].isFresh)
    ensures o !in cache ==> Uncached(Fetched(cache, base, o), o) == cache
  {}

  /** A coin created and spent in one cache leaves no trace in it. */
  lemma CreatedAndSpent(cache: Cache, o: OutPoint, coin: Coin)
    requires o !in cache
    ensures SpentFrom(cache[o := AddedEntry(None, coin, false)], o) == cache
  {}

  // ----- writing a child's cache into its parent

  /** BatchWrite's logic error: a FRESH child entry over an unspent parent entry. */
  predicate Misapplied(us: Option<Entry>, child: Entry) {
    child.isDirty && child.isFresh && us.Some? && !us.value.coin.IsSpent()
  }

  function MergedEntry(us: Option<Entry>, child: Entry): Option<Entry> {
    if !child.isDirty then us
    else match us
      case None => if child.isFresh && child.coin.IsSpent() then None else Some(Entry(child.coin, true, child.isFresh))
      case Some(u) =>
        if u.isFresh && child.coin.IsSpent() then None else Some(Entry(child.coin, true, u.isFresh))
  }

  /** Nor does it in the parent when it is written back in between: the parent had no entry, took the new coin over
      as FRESH, and drops it again when the child's spending arrives. */
  lemma CreatedAndSpentBelow(coin: Coin, later: Entry)
    requires !coin.IsSpent() && later.isDirty && later.coin.IsSpent()
    ensures var first := MergedEntry(None, AddedEntry(None, coin, false));
            first == Some(Entry(coin, true, true)) && MergedEntry(first, later) == None
  {}

  /** `out` is `parent` with the entries of `child` at the outpoints `done` written into it. */
  ghost predicate Merged(parent: Cache, child: Cache, done: set<OutPoint>, out: Cache)
    requires done <= child.Keys
  {
    forall o :: Look(out, o) == if o in done then MergedEntry(Look(parent, o), child[o]) else Look(parent, o)
  }

  /** FRESH in a child over its parent's view never meets an unspent parent entry. */
  lemma NeverMisapplied(parent: Cache, base: View, child: Cache, o: OutPoint)
    requires LayerOk(parent, base) && LayerOk(child, Overlay(parent, base)) && o in child
    ensures !Misapplied(Look(parent, o), child[o])
  {
    assert EntryOk(child[o], Look(Overlay(parent, base), o));
  }

  lemma MergedEntryOk(parent: Cache, base: View, child: Cache, o: OutPoint)
    requires LayerOk(parent, base) && LayerOk(child, Overlay(parent, base)) && o in child
    ensures var m := MergedEntry(Look(parent, o), child[o]); m.Some? ==> EntryOk(m.value, Look(base, o))
    ensures var m := MergedEntry(Look(parent, o), child[o]);
            var shown := if m.Some? then (if m.value.coin.IsSpent() then None else Some(m.value.coin))
              else Look(base, o);
            shown == if child[o].coin.IsSpent() then None else Some(child[o].coin)
  {
    assert EntryOk(child[o], Look(Overlay(parent, base), o));
    if o in parent { assert EntryOk(parent[o], Look(base, o)); }
  }

  /** Flushing makes the parent show exactly what the child showed. */
  lemma MergedKeeps(parent: Cache, base: View, child: Cache, out: Cache)
    requires LayerOk(parent, base) && LayerOk(child, Overlay(parent, base))
    requires Merged(parent, child, child.Keys, out)
    ensures LayerOk(out, base) && Overlay(out, base) == Overlay(child, Overlay(parent, base))
  {
    var under := Overlay(parent, base);
    forall o | o in out ensures EntryOk(out[o], Look(base, o)) {
      assert Look(out, o) == Some(out[o]);
      if o in child { MergedEntryOk(parent, base, child, o); }
      else { assert EntryOk(parent[o], Look(base, o)); }
    }
    var a, b := Overlay(out, base), Overlay(child, under);
    forall o ensures Look(a, o) == Look(b, o) {
      assert Look(out, o) == if o in child.Keys then MergedEntry(Look(parent, o), child[o]) else Look(parent, o);
      if o in child { MergedEntryOk(parent, base, child, o); }
    }
    LookEqual(a, b);
  }

  lemma LookEqual(a: View, b: View)
    requires forall o :: Look(a, o) == Look(b, o)
    ensures a == b
  {
    assert forall o :: (o in a <==> o in b) by {
      forall o ensures o in a <==> o in b { assert Look(a, o) == Look(b, o); }
    }
    forall o | o in a ensures a[o] == b[o] { assert Look(a, o) == Look(b, o); }
  }

  /** The database applies the dirty entries only; that too shows what the child showed. */
  function Written(db: View, child: Cache, done: set<OutPoint>): View
    requires done <= child.Keys
  {
    map o | o in db.Keys + child.Keys && (o in done && child[o].isDirty ==> !child[o].coin.IsSpent()) &&
            (o in db || (o in done && child[o].isDirty)) ::
      if o in done && child[o].isDirty then child[o].coin else db[o]
  }

  lemma WrittenNone(db: View, child: Cache)
    ensures Written(db, child, {}) == db
  {
  }

  lemma WrittenStep(db: View, child: Cache, done: set<OutPoint>, o: OutPoint)
    requires done <= child.Keys && o in child && o !in done
    ensures var w := Written(db, child, done);
            Written(db, child, done + {o}) ==
            if !child[o].isDirty then w else if child[o].coin.IsSpent() then w - {o} else w[o := child[o].coin]
  {
  }

  lemma WrittenIsOverlay(db: View, child: Cache)
    requires LayerOk(child, db)
    ensures Written(db, child, child.Keys) == Overlay(child, db)
  {
    forall o | o in child ensures EntryOk(child[o], Look(db, o)) {}
    assert Written(db, child, child.Keys) == Overlay(child, db);
  }

  lemma OverlayUnspent(cache: Cache, base: View)
    requires LayerOk(cache, base)
    ensures OnlyUnspent(Overlay(cache, base))
  {
  }

  // ----- memory accounting

  function Usage(size: seq<nat> -> nat, c: Coin): nat { if c.IsSpent() then 0 else size(c.script) }

  function EntryUsage(size: seq<nat> -> nat): Entry -> nat { (e: Entry) => Usage(size, e.coin) }

  /** The memory held by the cached coins, a cleared coin counting nothing. */
  ghost function Total(size: seq<nat> -> nat, cache: Cache): nat { Sum(EntryUsage(size), cache) }

  lemma TotalWithout(size: seq<nat> -> nat, cache: Cache, o: OutPoint)
    requires o in cache
    ensures Total(size, cache) == Usage(size, cache[o].coin) + Total(size, cache - {o})
  {
    SumWithout(EntryUsage(size), cache, o);
  }

  lemma TotalUpdate(size: seq<nat> -> nat, cache: Cache, o: OutPoint, e: Entry)
    ensures Total(size, cache[o := e])
         == Total(size, cache) + Usage(size, e.coin) - if o in cache then Usage(size, cache[o].coin) else 0
  {
    SumUpdate(EntryUsage(size), cache, o, e);
  }
}
