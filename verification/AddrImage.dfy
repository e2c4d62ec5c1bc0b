/** Writing an address manager's image and reading it back. */
module AddrImage {
  import opened AddrTables
  import opened AddrSave
  import opened AddrSlots
  import opened AddrFile

  // ----- writing

  /** The index given to each id while the new entries are written. */
  function UnkIds(ids: seq<int>, info: map<int, AddrInfo>): map<int, int>
    requires forall k | 0 <= k < |ids| :: ids[k] in info
  {
    if ids == [] then map[]
    else UnkIds(ids[..|ids| - 1], info)[ids[|ids| - 1] := |Picked(ids[..|ids| - 1], info, false)|]
  }

  function NameOf(unk: map<int, int>, id: int): int { if id in unk then unk[id] else 0 }

  function RowOut(unk: map<int, int>, row: seq<int>, i: nat): seq<int>
    requires i <= |row|
  {
    if i == 0 then [] else RowOut(unk, row, i - 1) + (if row[i - 1] == EMPTY then [] else [NameOf(unk, row[i - 1])])
  }

  function Saves(ids: seq<int>, info: map<int, AddrInfo>): (v: seq<Saved>)
    requires forall k | 0 <= k < |ids| :: ids[k] in info
    ensures |v| == |ids| && forall k | 0 <= k < |ids| :: v[k] == Save(info[ids[k]])
  {
    seq(|ids|, k requires 0 <= k < |ids| => Save(info[ids[k]]))
  }

  lemma {:induction false} PickedIn(ids: seq<int>, info: map<int, AddrInfo>, tried: bool)
    requires forall k | 0 <= k < |ids| :: ids[k] in info
    ensures forall k | 0 <= k < |Picked(ids, info, tried)| :: Picked(ids, info, tried)[k] in info
  {
    if ids != [] { PickedIn(ids[..|ids| - 1], info, tried); }
  }

  ghost function SavedKind(s: Tables, tried: bool): seq<Saved> {
    PickedIn(Ids(s), s.info, tried);
    Saves(Picked(Ids(s), s.info, tried), s.info)
  }

  ghost function Serialized(c: Config, s: Tables): Image
    requires c.Ok() && Shape(s.vvNew, c.newBuckets, c.bucketSize)
  {
    Image(1, 32, c.key, s.nNew, s.nTried, Flip30(c.newBuckets), SavedKind(s, false), SavedKind(s, true),
          seq(c.newBuckets, b requires 0 <= b < c.newBuckets =>
            RowOut(UnkIds(Ids(s), s.info), s.vvNew[b], c.bucketSize)))
  }

  /** A new entry's index is its place among the new entries. */
  lemma {:induction false} UnkIdsAre(ids: seq<int>, info: map<int, AddrInfo>, k: nat)
    requires forall j | 0 <= j < |ids| :: ids[j] in info
    requires forall i, j | 0 <= i < j < |ids| :: ids[i] != ids[j]
    requires k < |Picked(ids, info, false)|
    ensures Picked(ids, info, false)[k] in UnkIds(ids, info) && UnkIds(ids, info)[Picked(ids, info, false)[k]] == k
  {
    var n := |ids| - 1;
    var init := ids[..n];
    if k < |Picked(init, info, false)| {
      UnkIdsAre(init, info, k);
      PickedHas(init, info, false);
      var x := Picked(init, info, false)[k];
      assert x in Picked(init, info, false);
      assert x in init;
    }
  }

  lemma NameIsIndex(c: Config, s: Tables, id: int)
    requires Base(c, s, 0) && RefOk(c, s.info, s.vvNew, {}) && id in s.info && !s.info[id].inTried
    ensures id in WriteOrder(s) && NameOf(UnkIds(Ids(s), s.info), id) == IndexIn(WriteOrder(s), id)
  {
    hide Base, RefOk, Picked, UnkIds, Ids;
    PickedSizes(c, s);
    WriteOrderOk(c, s);
    var a := Picked(Ids(s), s.info, false);
    assert id in a;
    var k :| 0 <= k < |a| && a[k] == id;
    assert WriteOrder(s)[k] == id;
    IndexOf(s, WriteOrder(s), k);
    UnkIdsAre(Ids(s), s.info, k);
  }

  lemma {:induction false} RowOutIs(unk: map<int, int>, order: seq<int>, row: seq<int>, i: nat)
    requires i <= |row|
    requires forall p | 0 <= p < |row| && row[p] != EMPTY ::
               row[p] in order && NameOf(unk, row[p]) == IndexIn(order, row[p])
    ensures RowOut(unk, row, i) == RowList(order, row, i)
  {
    if i > 0 { RowOutIs(unk, order, row, i - 1); }
  }

  lemma NewInfosAre(s: Tables)
    requires Order(s, WriteOrder(s)) && |Picked(Ids(s), s.info, false)| == s.nNew
    ensures SavedKind(s, false) == SavedFrom(s, WriteOrder(s), 0, s.nNew)
    ensures SavedKind(s, true) == SavedFrom(s, WriteOrder(s), s.nNew, |WriteOrder(s)|)
  {
    hide Picked;
  }

  lemma BucketIs(c: Config, s: Tables, b: nat)
    requires Base(c, s, 0) && RefOk(c, s.info, s.vvNew, {}) && b < c.newBuckets
    ensures Ready(c, s, WriteOrder(s)) && b < |s.vvNew| && c.bucketSize <= |s.vvNew[b]|
    ensures forall p | 0 <= p < |s.vvNew[b]| && s.vvNew[b][p] != EMPTY :: s.vvNew[b][p] in WriteOrder(s)
    ensures RowOut(UnkIds(Ids(s), s.info), s.vvNew[b], c.bucketSize) == RowList(WriteOrder(s), s.vvNew[b], c.bucketSize)
  {
    hide RefOk, WriteOrder, RowOut, RowList, Order;
    WriteOrderOk(c, s);
    SlotsInOrder(c, s, WriteOrder(s));
    forall p: nat | p < |s.vvNew[b]| && s.vvNew[b][p] != EMPTY
      ensures s.vvNew[b][p] in WriteOrder(s)
      ensures NameOf(UnkIds(Ids(s), s.info), s.vvNew[b][p]) == IndexIn(WriteOrder(s), s.vvNew[b][p])
    {
      assert NewSlot(c, s.info, s.vvNew[b][p], b, p);
      NameIsIndex(c, s, s.vvNew[b][p]);
    }
    RowOutIs(UnkIds(Ids(s), s.info), WriteOrder(s), s.vvNew[b], c.bucketSize);
  }

  /** The image in terms of the order of writing. */
  lemma ImageIs(c: Config, s: Tables)
    requires Base(c, s, 0) && RefOk(c, s.info, s.vvNew, {})
    ensures var img, order := Serialized(c, s), WriteOrder(s);
            && Ready(c, s, order)
            && img.newInfos == SavedFrom(s, order, 0, s.nNew) && img.triedInfos == SavedFrom(s, order, s.nNew, |order|)
            && img.buckets == Rows(c, s, order, c.newBuckets)
  {
    WriteOrderOk(c, s);
    SlotsInOrder(c, s, WriteOrder(s));
    hide RefOk, WriteOrder, RowOut, RowList, Base, SavedKind;
    PickedSizes(c, s);
    NewInfosAre(s);
    var img, order := Serialized(c, s), WriteOrder(s);
    forall b: nat | b < c.newBuckets
      ensures img.buckets[b] == Rows(c, s, order, c.newBuckets)[b]
    {
      BucketIs(c, s, b);
    }
  }

  // ----- reading

  /** A complete image in the current format, for the same number of buckets. */
  predicate Readable(c: Config, img: Image) {
    && img.version == 1 && img.keySize == 32 && Flip30(img.uBuckets) == c.newBuckets == |img.buckets|
    && img.nNew == |img.newInfos| && img.nTried == |img.triedInfos|
  }

  predicate WithinLimits(c: Config, img: Image) {
    img.nNew <= c.newBuckets * c.bucketSize && img.nTried <= c.triedBuckets * c.bucketSize
  }

  /** The manager before entries without a slot are dropped. */
  ghost function Unpruned(c: Config, img: Image): Tables
    requires c.Ok() && Readable(c, img)
  {
    var a := AddNews(Counted(c, img.nNew, img.nTried), img.newInfos).(idCount := |img.newInfos|);
    PlaceRows(c, AddTrieds(c, a, img.triedInfos), img.buckets)
  }

  lemma DeleteRandom(s: Tables, id: int)
    requires RandomOk(s.info, s.random) && id in s.info && Unplaced(s.info[id])
    ensures Deletable(s, id) && RandomOk(Delete(s, id).info, Delete(s, id).random)
  {
    hide RandomOk;
    RandomHolds(s);
    PositionIn(s, id);
    var last := |s.random| - 1;
    SwapRandomOk(s, s.info[id].randomPos, last);
    var t := SwapRandom(s, s.info[id].randomPos, last);
    LastIs(s, id);
    RandomAfterRemoval(t.info, t.random, id);
  }

  lemma PositionIn(s: Tables, id: int)
    requires RandomOk(s.info, s.random) && id in s.info
    ensures 0 <= s.info[id].randomPos < |s.random| && s.random[s.info[id].randomPos] == id
  {}

  lemma LastIs(s: Tables, id: int)
    requires RandomOk(s.info, s.random) && id in s.info && |s.random| > 0
    ensures InRandom(s, s.info[id].randomPos) && InRandom(s, |s.random| - 1)
    ensures var t := SwapRandom(s, s.info[id].randomPos, |s.random| - 1);
            |t.random| == |s.random| && t.random[|t.random| - 1] == id
  {}

  ghost function Pruned(s: Tables, ids: seq<int>): Tables
    requires RandomOk(s.info, s.random)
    decreases |ids|
  {
    if ids == [] then s
    else if ids[0] in s.info && Unplaced(s.info[ids[0]]) then
      DeleteRandom(s, ids[0]);
      Pruned(Delete(s, ids[0]), ids[1..])
    else Pruned(s, ids[1..])
  }

  lemma {:induction false} NothingPruned(s: Tables, ids: seq<int>)
    requires RandomOk(s.info, s.random) && forall i | i in s.info :: !Unplaced(s.info[i])
    ensures Pruned(s, ids) == s
  {
    if ids != [] { NothingPruned(s, ids[1..]); }
  }

  lemma LoadedEntries(c: Config, s: Tables)
    requires Base(c, s, 0) && RefOk(c, s.info, s.vvNew, {}) && Ready(c, s, WriteOrder(s))
    ensures var order := WriteOrder(s);
            var a := AddNews(Counted(c, s.nNew, s.nTried), SavedFrom(s, order, 0, s.nNew)).(idCount := s.nNew);
            AddTrieds(c, a, SavedFrom(s, order, s.nNew, |order|)) == Stage(c, s, order, |order|)
  {
    var order := WriteOrder(s);
    hide WriteOrder, Base, RefOk, AddNews, AddTrieds, SavedFrom;
    NewsLoaded(c, s, order, s.nNew);
    TriedsLoaded(c, s, order, |order|);
    assert Stage(c, s, order, s.nNew).idCount == s.nNew;
  }

  /** Loading what was saved: it is readable, within the limits, and gives the same tables
      with the ids renumbered in the order of writing. */
  lemma LoadSaved(c: Config, s: Tables)
    requires Inv(c, s)
    ensures var img, order := Serialized(c, s), WriteOrder(s);
            && Readable(c, img) && WithinLimits(c, img) && Ready(c, s, order)
            && Unpruned(c, img) == Reloaded(c, s, order)
  {
    hide Picked, WriteOrder, Inv, Unpruned, Reloaded, SavedFrom, Rows;
    InvParts(c, s);
    ImageIs(c, s);
    Flip30Twice(c.newBuckets);
    NewFits(c, s);
    TriedFits(c, s);
    UnprunedSaved(c, s);
  }

  lemma InvParts(c: Config, s: Tables)
    requires Inv(c, s)
    ensures Base(c, s, 0) && RefOk(c, s.info, s.vvNew, {})
    ensures s.nNew >= 0 && s.nTried >= 0
  {}

  lemma UnprunedSaved(c: Config, s: Tables)
    requires Base(c, s, 0) && RefOk(c, s.info, s.vvNew, {}) && Readable(c, Serialized(c, s))
    ensures Ready(c, s, WriteOrder(s)) && Unpruned(c, Serialized(c, s)) == Reloaded(c, s, WriteOrder(s))
  {
    hide WriteOrder, Base, RefOk, AddNews, AddTrieds, SavedFrom, PlaceRows, SlotStage, Stage, Rows;
    ImageIs(c, s);
    var order := WriteOrder(s);
    LoadedEntries(c, s);
    SlotStart(c, s, order);
    RowsRestored(c, s, order, c.newBuckets);
  }

  /** Nothing is dropped, and the loaded manager satisfies the invariant. */
  lemma LoadedInv(c: Config, s: Tables, ids: seq<int>)
    requires Inv(c, s)
    ensures var img := Serialized(c, s);
            && Readable(c, img) && RandomOk(Unpruned(c, img).info, Unpruned(c, img).random)
            && Pruned(Unpruned(c, img), ids) == Unpruned(c, img) && Inv(c, Unpruned(c, img))
  {
    hide Pruned, Reloaded, Unpruned, Serialized, Readable, WriteOrder;
    LoadSaved(c, s);
    InvParts(c, s);
    ReloadedInv(c, s, WriteOrder(s));
    var t := Unpruned(c, Serialized(c, s));
    forall i | i in t.info
      ensures !Unplaced(t.info[i])
    {
      assert RefEntry(c, t.info[i], i, t.vvNew, {});
    }
    NothingPruned(t, ids);
  }
}
