/** Serialize and Unserialize of the address manager, as they run. */
module AddrDisk {
  import opened AddrTables
  import opened AddrSave
  import opened AddrFile
  import opened AddrImage
  import Slots = AddrSlots
  import Manager = AddrManager
  import Orders

  // ----- writing

  /** All of a set in increasing order: taken so far, and what is left. */
  ghost predicate Walking(keys: set<int>, ids: seq<int>, rest: set<int>) {
    ids + Orders.Ascending(rest) == Orders.Ascending(keys)
  }

  lemma WalkStep(keys: set<int>, ids: seq<int>, rest: set<int>, n: int)
    requires Walking(keys, ids, rest) && n in rest && forall x | x in rest :: n <= x
    ensures Walking(keys, ids + [n], rest - {n})
  {
    hide Orders.Ascending;
    Orders.AscendingHead(rest, n);
    Regroup(ids, n, Orders.Ascending(rest - {n}));
  }

  lemma Regroup(a: seq<int>, n: int, b: seq<int>)
    ensures a + ([n] + b) == (a + [n]) + b
  {}

  /** The ids in the order a map iterates them. */
  method SortedIds(keys: set<int>) returns (ids: seq<int>)
    ensures ids == Orders.Ascending(keys)
  {
    hide Orders.Ascending;
    ids := [];
    var rest := keys;
    assert Walking(keys, ids, rest);
    while rest != {}
      invariant Walking(keys, ids, rest)
      decreases |rest|
    {
      Orders.LeastExists(rest);
      var n :| n in rest && forall x | x in rest :: n <= x;
      WalkStep(keys, ids, rest, n);
      ids := ids + [n];
      rest := rest - {n};
    }
    WalkDone(keys, ids);
  }

  lemma WalkDone(keys: set<int>, ids: seq<int>)
    requires Walking(keys, ids, {})
    ensures ids == Orders.Ascending(keys)
  {
    Orders.AscendingNone();
  }

  lemma {:induction false} PickedGrows(ids: seq<int>, info: map<int, AddrInfo>, tried: bool, n: nat)
    requires n <= |ids| && forall k | 0 <= k < |ids| :: ids[k] in info
    ensures |Picked(ids[..n], info, tried)| <= |Picked(ids, info, tried)|
    decreases |ids| - n
  {
    if n == |ids| {
      assert ids[..n] == ids;
    } else {
      PickedGrows(ids, info, tried, n + 1);
      assert ids[..n + 1][..n] == ids[..n];
    }
  }

  /** The entries of one kind; the count is never exceeded. */
  method WriteEntries(ids: seq<int>, info: map<int, AddrInfo>, tried: bool, count: int)
    returns (infos: seq<Saved>, unk: map<int, int>)
    requires forall k | 0 <= k < |ids| :: ids[k] in info
    requires |Picked(ids, info, tried)| == count
    ensures forall k | 0 <= k < |Picked(ids, info, tried)| :: Picked(ids, info, tried)[k] in info
    ensures infos == Saves(Picked(ids, info, tried), info)
    ensures !tried ==> unk == UnkIds(ids, info)
  {
    hide Chosen;
    infos, unk := [], map[];
    var nIds := 0;
    for i := 0 to |ids|
      invariant nIds == |Picked(ids[..i], info, tried)|
      invariant forall k | 0 <= k < nIds :: Picked(ids[..i], info, tried)[k] in info
      invariant infos == Saves(Picked(ids[..i], info, tried), info)
      invariant !tried ==> unk == UnkIds(ids[..i], info)
    {
      assert ids[..i + 1][..i] == ids[..i];
      unk := unk[ids[i] := nIds];
      if Chosen(info[ids[i]], tried) {
        PickedGrows(ids, info, tried, i + 1);
        assert nIds != count;
        infos := infos + [Save(info[ids[i]])];
        nIds := nIds + 1;
      }
    }
    assert ids[..|ids|] == ids;
  }

  method WriteBucket(row: seq<int>, unk: map<int, int>) returns (list: seq<int>)
    ensures list == RowOut(unk, row, |row|)
  {
    list := [];
    for i := 0 to |row|
      invariant list == RowOut(unk, row, i)
    {
      if row[i] != EMPTY {
        list := list + [NameOf(unk, row[i])];
      }
    }
  }

  method Serialize(m: Manager.AddrMan) returns (img: Image)
    requires m.Valid()
    ensures m.cfg.Ok() && Shape(m.vvNew, m.cfg.newBuckets, m.cfg.bucketSize)
    ensures img == Serialized(m.cfg, m.Snap())
  {
    hide Picked, RowOut, UnkIds, Inv, Orders.Ascending;
    ghost var s := m.Snap();
    InvParts(m.cfg, s);
    Shapes(m.cfg, s);
    PickedSizes(m.cfg, s);
    hide Base, RefOk;
    var ids := SortedIds(m.info.Keys);
    assert ids == Ids(s);
    var newInfos, unk := WriteEntries(ids, m.info, false, m.nNew);
    var triedInfos, _ := WriteEntries(ids, m.info, true, m.nTried);
    var buckets := WriteBuckets(m.cfg, m.vvNew, unk);
    img := Image(1, 32, m.cfg.key, m.nNew, m.nTried, Flip30(m.cfg.newBuckets), newInfos, triedInfos, buckets);
    assert buckets == Serialized(m.cfg, s).buckets;
  }

  lemma Shapes(c: Config, s: Tables)
    requires Base(c, s, 0)
    ensures c.Ok() && Shape(s.vvNew, c.newBuckets, c.bucketSize)
  {}

  method WriteBuckets(c: Config, t: Table, unk: map<int, int>) returns (buckets: seq<seq<int>>)
    requires Shape(t, c.newBuckets, c.bucketSize)
    ensures |buckets| == c.newBuckets && forall b | 0 <= b < c.newBuckets ::
              buckets[b] == RowOut(unk, t[b], c.bucketSize)
  {
    buckets := [];
    for b := 0 to c.newBuckets
      invariant |buckets| == b && forall k | 0 <= k < b :: buckets[k] == RowOut(unk, t[k], c.bucketSize)
    {
      var list := WriteBucket(t[b], unk);
      buckets := buckets + [list];
    }
  }

  // ----- reading

  method ReadNews(m: Manager.AddrMan, infos: seq<Saved>)
    modifies m
    ensures m.Snap() == AddNews(old(m.Snap()), infos)
  {
    ghost var s := m.Snap();
    for n := 0 to |infos|
      invariant m.Snap() == AddNews(s, infos[..n])
    {
      assert infos[..n + 1][..n] == infos[..n];
      m.info := m.info[n := Load(infos[n], |m.random|, false)];
      m.addr := m.addr[infos[n].service.net := n];
      m.random := m.random + [n];
    }
    assert infos[..|infos|] == infos;
  }

  method ReadTrieds(m: Manager.AddrMan, infos: seq<Saved>)
    requires m.cfg.Ok() && Shape(m.vvTried, m.cfg.triedBuckets, m.cfg.bucketSize)
    modifies m
    ensures m.Snap() == AddTrieds(m.cfg, old(m.Snap()), infos)
  {
    hide AddTrieds, AddTried;
    ghost var s := m.Snap();
    var nLost := 0;
    TriedsNone(m.cfg, s);
    for n := 0 to |infos|
      invariant m.Snap().(nTried := m.nTried - nLost) == AddTrieds(m.cfg, s, infos[..n])
    {
      TriedsMore(m.cfg, s, infos, n);
      var lost := ReadTried(m, infos[n], nLost);
      if lost {
        nLost := nLost + 1;
      }
    }
    assert infos[..|infos|] == infos;
    m.nTried := m.nTried - nLost;
  }

  method ReadTried(m: Manager.AddrMan, v: Saved, ghost nLost: int) returns (lost: bool)
    requires m.cfg.Ok() && Shape(m.vvTried, m.cfg.triedBuckets, m.cfg.bucketSize)
    modifies m
    ensures m.Snap().(nTried := m.nTried - nLost - (if lost then 1 else 0))
            == AddTried(m.cfg, old(m.Snap()).(nTried := old(m.nTried) - nLost), v)
  {
    var b, p := m.cfg.TriedBucket(v.service), m.cfg.TriedPos(v.service);
    lost := m.vvTried[b][p] != EMPTY;
    if !lost {
      m.info := m.info[m.idCount := Load(v, |m.random|, true)];
      m.random := m.random + [m.idCount];
      m.addr := m.addr[v.service.net := m.idCount];
      m.vvTried := Put(m.vvTried, b, p, m.idCount);
      m.idCount := m.idCount + 1;
    }
  }

  lemma TriedsNone(c: Config, s: Tables)
    requires c.Ok() && Shape(s.vvTried, c.triedBuckets, c.bucketSize)
    ensures AddTrieds(c, s, []) == s
  {}

  lemma TriedsMore(c: Config, s: Tables, infos: seq<Saved>, n: nat)
    requires c.Ok() && Shape(s.vvTried, c.triedBuckets, c.bucketSize) && n < |infos|
    ensures AddTrieds(c, s, infos[..n + 1]) == AddTried(c, AddTrieds(c, s, infos[..n]), infos[n])
  {
    assert infos[..n + 1][..n] == infos[..n];
  }

  method ReadBucket(m: Manager.AddrMan, bucket: nat, list: seq<int>)
    requires m.cfg.Ok() && Shape(m.vvNew, m.cfg.newBuckets, m.cfg.bucketSize) && bucket < m.cfg.newBuckets
    modifies m
    ensures m.Snap() == PlaceRow(m.cfg, old(m.Snap()), bucket, list)
  {
    ghost var s := m.Snap();
    for n := 0 to |list|
      invariant m.Snap() == PlaceRow(m.cfg, s, bucket, list[..n])
    {
      assert list[..n + 1][..n] == list[..n];
      var index := list[n];
      if 0 <= index < m.nNew && index in m.info {
        var e := m.info[index];
        var p := m.cfg.Position(true, bucket, e.service);
        if m.vvNew[bucket][p] == EMPTY && e.refCount < NEW_BUCKETS_PER_ADDRESS {
          m.info := m.info[index := e.(refCount := e.refCount + 1)];
          m.vvNew := Put(m.vvNew, bucket, p, index);
        }
      }
    }
    assert list[..|list|] == list;
  }

  method ReadBuckets(m: Manager.AddrMan, buckets: seq<seq<int>>)
    requires m.cfg.Ok() && Shape(m.vvNew, m.cfg.newBuckets, m.cfg.bucketSize) && |buckets| <= m.cfg.newBuckets
    modifies m
    ensures m.Snap() == PlaceRows(m.cfg, old(m.Snap()), buckets)
  {
    hide PlaceRow;
    ghost var s := m.Snap();
    for b := 0 to |buckets|
      invariant m.Snap() == PlaceRows(m.cfg, s, buckets[..b])
    {
      assert buckets[..b + 1][..b] == buckets[..b];
      ReadBucket(m, b, buckets[b]);
    }
    assert buckets[..|buckets|] == buckets;
  }

  method Prune(m: Manager.AddrMan)
    requires RandomOk(m.info, m.random)
    modifies m
    ensures m.Snap() == Pruned(old(m.Snap()), Orders.Ascending(old(m.info).Keys))
  {
    hide RandomOk, Delete, Orders.Ascending, Pruned, Deletable;
    ghost var s := m.Snap();
    var ids := SortedIds(m.info.Keys);
    var k := 0;
    assert ids[0..] == ids;
    while k < |ids|
      invariant k <= |ids| && RandomOk(m.info, m.random)
      invariant Pruned(m.Snap(), ids[k..]) == Pruned(s, ids)
    {
      PruneStep(m.Snap(), ids, k);
      if ids[k] in m.info && Unplaced(m.info[ids[k]]) {
        m.Delete(ids[k]);
      }
      k := k + 1;
    }
    PruneEnd(m.Snap(), ids[k..]);
  }

  lemma PruneStep(s: Tables, ids: seq<int>, k: nat)
    requires RandomOk(s.info, s.random) && k < |ids|
    ensures if ids[k] in s.info && Unplaced(s.info[ids[k]])
            then Deletable(s, ids[k]) && RandomOk(Delete(s, ids[k]).info, Delete(s, ids[k]).random)
                 && Pruned(s, ids[k..]) == Pruned(Delete(s, ids[k]), ids[k + 1..])
            else Pruned(s, ids[k..]) == Pruned(s, ids[k + 1..])
  {
    hide RandomOk, Delete, Deletable;
    assert ids[k..][1..] == ids[k + 1..];
    if ids[k] in s.info && Unplaced(s.info[ids[k]]) { DeleteRandom(s, ids[k]); }
  }

  lemma PruneEnd(s: Tables, ids: seq<int>)
    requires RandomOk(s.info, s.random) && ids == []
    ensures Pruned(s, ids) == s
  {}

  // ----- the random vector of any loaded image is sound, so pruning is safe

  ghost predicate Dense(s: Tables, k: nat) { RandomOk(s.info, s.random) && s.random == Upto(k) }

  lemma {:induction false} NewsDense(s: Tables, vs: seq<Saved>)
    requires Dense(s, 0)
    ensures Dense(AddNews(s, vs), |vs|)
  {
    if vs != [] {
      NewsDense(s, vs[..|vs| - 1]);
      UptoStep(|vs| - 1);
    }
  }

  lemma {:induction false} TriedsDense(c: Config, s: Tables, vs: seq<Saved>)
    requires c.Ok() && Shape(s.vvTried, c.triedBuckets, c.bucketSize) && Dense(s, s.idCount)
    ensures var t := AddTrieds(c, s, vs); Dense(t, t.idCount)
  {
    if vs != [] {
      TriedsDense(c, s, vs[..|vs| - 1]);
      UptoStep(AddTrieds(c, s, vs[..|vs| - 1]).idCount);
    }
  }

  lemma {:induction false} RowDense(c: Config, s: Tables, b: nat, row: seq<int>)
    requires c.Ok() && Shape(s.vvNew, c.newBuckets, c.bucketSize) && b < c.newBuckets && RandomOk(s.info, s.random)
    ensures var t := PlaceRow(c, s, b, row); RandomOk(t.info, t.random)
  {
    if row != [] { RowDense(c, s, b, row[..|row| - 1]); }
  }

  lemma {:induction false} RowsDense(c: Config, s: Tables, rows: seq<seq<int>>)
    requires c.Ok() && Shape(s.vvNew, c.newBuckets, c.bucketSize) && |rows| <= c.newBuckets
             && RandomOk(s.info, s.random)
    ensures var t := PlaceRows(c, s, rows); RandomOk(t.info, t.random)
  {
    hide PlaceRow, RandomOk;
    if rows != [] {
      RowsDense(c, s, rows[..|rows| - 1]);
      RowDense(c, PlaceRows(c, s, rows[..|rows| - 1]), |rows| - 1, rows[|rows| - 1]);
    }
  }

  lemma UnprunedRandom(c: Config, img: Image)
    requires c.Ok() && Readable(c, img)
    ensures var t := Unpruned(c, img); RandomOk(t.info, t.random)
  {
    hide AddNews, AddTrieds, PlaceRows;
    var s := Counted(c, img.nNew, img.nTried);
    NewsDense(s, img.newInfos);
    var a := AddNews(s, img.newInfos).(idCount := |img.newInfos|);
    TriedsDense(c, a, img.triedInfos);
    RowsDense(c, AddTrieds(c, a, img.triedInfos), img.buckets);
  }

  /** Loads an image into a new manager; null stands for the exceptions on the key size and the counts. */
  method Unserialize(base: Config, img: Image) returns (m: Manager.AddrMan?)
    requires base.Ok() && (img.keySize == 32 ==> Readable(base, img))
    ensures m == null <==> img.keySize != 32 || !WithinLimits(base, img)
    ensures m != null ==>
              && fresh(m) && m.cfg == base.(key := img.key) && Readable(m.cfg, img)
              && var t := Unpruned(m.cfg, img);
                 RandomOk(t.info, t.random) && m.Snap() == Pruned(t, Orders.Ascending(t.info.Keys))
  {
    if img.keySize != 32 {
      return null;
    }
    var c := base.(key := img.key);
    if img.nNew > c.newBuckets * c.bucketSize || img.nTried > c.triedBuckets * c.bucketSize {
      return null;
    }
    hide AddNews, AddTrieds, PlaceRows, Pruned, Orders.Ascending, Inv, RandomOk;
    m := new Manager.AddrMan(c);
    m.nNew := img.nNew;
    m.nTried := img.nTried;
    ReadNews(m, img.newInfos);
    m.idCount := |img.newInfos|;
    ReadTrieds(m, img.triedInfos);
    ReadBuckets(m, img.buckets);
    UnprunedRandom(c, img);
    Prune(m);
  }

  /** Saved and loaded again: a valid manager with the same entries in the same slots. */
  method SaveAndLoad(a: Manager.AddrMan) returns (b: Manager.AddrMan)
    requires a.Valid()
    ensures fresh(b) && b.cfg == a.cfg && b.Valid() && Ready(a.cfg, a.Snap(), WriteOrder(a.Snap()))
    ensures b.Snap() == Slots.Reloaded(a.cfg, a.Snap(), WriteOrder(a.Snap()))
    ensures Restored(a.Snap(), WriteOrder(a.Snap()), b.Snap())
  {
    hide Restored, Inv, Serialized, Unpruned, Pruned, Readable, WriteOrder, Slots.Reloaded, Orders.Ascending,
      WithinLimits;
    ghost var c, s := a.cfg, a.Snap();
    var img := Serialize(a);
    LoadSaved(c, s);
    LoadedInv(c, s, Orders.Ascending(Unpruned(c, img).info.Keys));
    InvParts(c, s);
    ReloadedIs(c, s, WriteOrder(s));
    ImageHead(c, s);
    var m := Unserialize(a.cfg, img);
    b := m;
  }

  /** The head of the file: format 1, a 32-byte key, the counts, and the bucket count with bit 30 turned over. */
  lemma ImageHead(c: Config, s: Tables)
    requires c.Ok() && Shape(s.vvNew, c.newBuckets, c.bucketSize)
    ensures var img := Serialized(c, s);
            && img.version == 1 && img.keySize == 32 && img.key == c.key && img.nNew == s.nNew && img.nTried == s.nTried
            && (c.newBuckets < 0x4000_0000 ==> img.uBuckets == c.newBuckets + 0x4000_0000)
  {}

  /** What is written of the entries: six fields of each, the new entries first, both kinds by id. */
  lemma ImageEntries(c: Config, s: Tables, n: nat)
    requires Inv(c, s) && Shape(s.vvNew, c.newBuckets, c.bucketSize) && n < s.nNew + s.nTried
    ensures var img, order := Serialized(c, s), WriteOrder(s);
            && |img.newInfos| == s.nNew && |img.triedInfos| == s.nTried && Order(s, order)
            && var v, e := if n < s.nNew then img.newInfos[n] else img.triedInfos[n - s.nNew], s.info[order[n]];
               && v.service == e.service && v.nTime == e.nTime && v.services == e.services && v.source == e.source
               && v.lastSuccess == e.lastSuccess && v.attempts == e.attempts
  {
    hide Serialized, WriteOrder;
    InvParts(c, s);
    ImageIs(c, s);
  }
}
