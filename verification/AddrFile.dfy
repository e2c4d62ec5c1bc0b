/** The file image of an address manager, and what loading it gives. */
module AddrFile {
  import opened Prelude
  import opened AddrTables
  import opened AddrSave
  import opened AddrSlots
  import opened Orders
  import Limbs

  // ----- counting

  function Range(n: nat): (r: set<int>)
    ensures forall i :: i in r <==> 0 <= i < n
  {
    if n == 0 then {} else Range(n - 1) + {n - 1}
  }

  lemma {:induction false} RangeSize(n: nat)
    ensures |Range(n)| == n
  {
    if n > 0 {
      RangeSize(n - 1);
    }
  }

  /** Different elements in different places: there are at least as many places. */
  lemma {:induction false} Places(a: set<int>, place: map<int, int>, n: nat)
    requires forall x | x in a :: x in place && 0 <= place[x] < n
    requires forall x, y | x in a && y in a && place[x] == place[y] :: x == y
    ensures |a| <= n
  {
    var taken := set x | x in a :: place[x];
    SameSize(a, place, taken);
    assert taken <= Range(n);
    SubsetSize(taken, Range(n));
    RangeSize(n);
  }

  lemma {:induction false} SameSize(a: set<int>, place: map<int, int>, taken: set<int>)
    requires forall x | x in a :: x in place
    requires forall x, y | x in a && y in a && place[x] == place[y] :: x == y
    requires taken == set x | x in a :: place[x]
    ensures |taken| == |a|
    decreases |a|
  {
    if a != {} {
      var x := Element(a);
      var rest := a - {x};
      var others := set y | y in rest :: place[y];
      SameSize(rest, place, others);
      assert taken == others + {place[x]};
      assert place[x] !in others;
    }
  }

  lemma {:induction false} SeqSize(v: seq<int>, a: set<int>)
    requires a == set x | x in v
    requires forall j, k | 0 <= j < k < |v| :: v[j] != v[k]
    ensures |v| == |a|
  {
    if v != [] {
      var n := |v| - 1;
      assert v == v[..n] + [v[n]];
      assert a - {v[n]} == set x | x in v[..n];
      SeqSize(v[..n], a - {v[n]});
    }
  }

  // ----- the order of writing

  predicate Chosen(e: AddrInfo, tried: bool) { if tried then e.inTried else e.refCount != 0 }

  /** The ids of one kind, in the order of the map. */
  function Picked(ids: seq<int>, info: map<int, AddrInfo>, tried: bool): seq<int>
    requires forall k | 0 <= k < |ids| :: ids[k] in info
  {
    if ids == [] then []
    else
      var x := ids[|ids| - 1];
      Picked(ids[..|ids| - 1], info, tried) + (if Chosen(info[x], tried) then [x] else [])
  }

  lemma {:induction false} PickedHas(ids: seq<int>, info: map<int, AddrInfo>, tried: bool)
    requires forall k | 0 <= k < |ids| :: ids[k] in info
    requires forall j, k | 0 <= j < k < |ids| :: ids[j] != ids[k]
    ensures forall x :: x in Picked(ids, info, tried) <==> x in ids && x in info && Chosen(info[x], tried)
    ensures forall j, k | 0 <= j < k < |Picked(ids, info, tried)| ::
              Picked(ids, info, tried)[j] != Picked(ids, info, tried)[k]
  {
    if ids != [] {
      var n := |ids| - 1;
      PickedHas(ids[..n], info, tried);
      assert ids == ids[..n] + [ids[n]];
    }
  }

  ghost function Ids(s: Tables): (ids: seq<int>)
    ensures forall k | 0 <= k < |ids| :: ids[k] in s.info
    ensures forall j, k | 0 <= j < k < |ids| :: ids[j] < ids[k]
    ensures forall x | x in s.info :: x in ids
  {
    assert forall x :: x in Ascending(s.info.Keys) <==> x in s.info;
    Ascending(s.info.Keys)
  }

  ghost function WriteOrder(s: Tables): seq<int> {
    Picked(Ids(s), s.info, false) + Picked(Ids(s), s.info, true)
  }

  /** An entry has a count of slots exactly when it is not tried. */
  lemma RefMeansNew(c: Config, s: Tables, id: int)
    requires Base(c, s, 0) && RefOk(c, s.info, s.vvNew, {}) && id in s.info
    ensures s.info[id].refCount != 0 <==> !s.info[id].inTried
  {
    assert RefEntry(c, s.info[id], id, s.vvNew, {});
    if s.info[id].inTried { TriedHasNoSlots(c, s.info, s.vvNew, id); }
  }

  lemma SizeIs(v: seq<int>, a: set<int>)
    requires forall x :: x in v <==> x in a
    requires forall j, k | 0 <= j < k < |v| :: v[j] != v[k]
    ensures |v| == |a|
  {
    var b := set x | x in v;
    forall x
      ensures x in a <==> x in b
    {
      assert x in v <==> x in a;
    }
    assert a == b;
    SeqSize(v, a);
  }

  lemma Counts(c: Config, s: Tables)
    requires Base(c, s, 0)
    ensures s.nNew == |NewIds(s.info)| && s.nTried == |TriedIds(s.info)|
  {}

  lemma PickedSizes(c: Config, s: Tables)
    requires Base(c, s, 0) && RefOk(c, s.info, s.vvNew, {})
    ensures |Picked(Ids(s), s.info, false)| == s.nNew && |Picked(Ids(s), s.info, true)| == s.nTried
    ensures forall x :: x in Picked(Ids(s), s.info, false) <==> x in s.info && !s.info[x].inTried
    ensures forall x :: x in Picked(Ids(s), s.info, true) <==> x in s.info && s.info[x].inTried
  {
    hide Base, RefOk, Picked;
    Counts(c, s);
    PickedHas(Ids(s), s.info, false);
    PickedHas(Ids(s), s.info, true);
    forall x | x in s.info
      ensures Chosen(s.info[x], false) <==> !s.info[x].inTried
    {
      RefMeansNew(c, s, x);
    }
    SizeIs(Picked(Ids(s), s.info, false), NewIds(s.info));
    SizeIs(Picked(Ids(s), s.info, true), TriedIds(s.info));
  }

  lemma WriteOrderOk(c: Config, s: Tables)
    requires Base(c, s, 0) && RefOk(c, s.info, s.vvNew, {})
    ensures Ready(c, s, WriteOrder(s))
  {
    hide Base, RefOk, Picked, Order;
    PickedSizes(c, s);
    PickedHas(Ids(s), s.info, false);
    PickedHas(Ids(s), s.info, true);
    OrderFrom(s, Picked(Ids(s), s.info, false), Picked(Ids(s), s.info, true));
  }

  lemma OrderFrom(s: Tables, a: seq<int>, b: seq<int>)
    requires |a| == s.nNew && |b| == s.nTried
    requires forall x :: x in a <==> x in s.info && !s.info[x].inTried
    requires forall x :: x in b <==> x in s.info && s.info[x].inTried
    requires forall j, k | 0 <= j < k < |a| :: a[j] != a[k]
    requires forall j, k | 0 <= j < k < |b| :: b[j] != b[k]
    ensures Order(s, a + b)
  {
    var order := a + b;
    forall k | 0 <= k < |order|
      ensures order[k] in s.info && (k < s.nNew <==> !s.info[order[k]].inTried)
    {
      var x := order[k];
      if k < |a| {
        assert x == a[k];
        assert x in a;
      } else {
        assert x == b[k - |a|];
        assert x in b;
      }
    }
    forall j, k | 0 <= j < k < |order|
      ensures order[j] != order[k]
    {
      if j < |a| <= k {
        var x, y := order[j], order[k];
        assert x == a[j] && y == b[k - |a|];
        assert x in a && y in b;
      } else if |a| <= j {
        assert b[j - |a|] != b[k - |a|];
      }
    }
  }

  // ----- the counts stay within the loader's limits

  lemma SlotNumber(b: nat, p: nat, rows: nat, cols: nat)
    requires b < rows && p < cols
    ensures b * cols + p < rows * cols
  {
    assert (b + 1) * cols <= rows * cols;
  }

  lemma SlotNumberUnique(b: nat, p: nat, b': nat, p': nat, cols: nat)
    requires p < cols && p' < cols && b * cols + p == b' * cols + p'
    ensures b == b' && p == p'
  {
    Limbs.DivModUnique(b * cols + p, cols, b, p);
    Limbs.DivModUnique(b' * cols + p', cols, b', p');
  }

  lemma TriedFits(c: Config, s: Tables)
    requires Base(c, s, 0)
    ensures s.nTried <= c.triedBuckets * c.bucketSize
  {
    var ids := TriedIds(s.info);
    var place := map x | x in ids :: c.TriedBucket(s.info[x].service) * c.bucketSize + c.TriedPos(s.info[x].service);
    forall x | x in ids
      ensures 0 <= place[x] < c.triedBuckets * c.bucketSize
    {
      SlotNumber(c.TriedBucket(s.info[x].service), c.TriedPos(s.info[x].service), c.triedBuckets, c.bucketSize);
    }
    forall x, y | x in ids && y in ids && place[x] == place[y]
      ensures x == y
    {
      var e, f := s.info[x].service, s.info[y].service;
      SlotNumberUnique(c.TriedBucket(e), c.TriedPos(e), c.TriedBucket(f), c.TriedPos(f), c.bucketSize);
      assert HasTriedSlot(c, s.vvTried, e, x) && HasTriedSlot(c, s.vvTried, f, y);
    }
    Places(ids, place, c.triedBuckets * c.bucketSize);
  }

  /** Some bucket that holds a new entry. */
  ghost function Home(c: Config, s: Tables, id: int): (b: nat)
    requires Base(c, s, 0) && RefOk(c, s.info, s.vvNew, {}) && id in NewIds(s.info)
    ensures b < c.newBuckets && s.vvNew[b][c.Position(true, b, s.info[id].service)] == id
  {
    HasHome(c, s, id);
    var b :| b in Slots(c, s.vvNew, s.info[id].service, id);
    b
  }

  lemma HasHome(c: Config, s: Tables, id: int)
    requires Base(c, s, 0) && RefOk(c, s.info, s.vvNew, {}) && id in NewIds(s.info)
    ensures exists b :: b in Slots(c, s.vvNew, s.info[id].service, id)
  {
    assert RefEntry(c, s.info[id], id, s.vvNew, {});
    var b := Element(Slots(c, s.vvNew, s.info[id].service, id));
  }

  /** The number of the slot a new entry has there. */
  ghost function HomeSlot(c: Config, s: Tables, id: int): (n: nat)
    requires Base(c, s, 0) && RefOk(c, s.info, s.vvNew, {}) && id in NewIds(s.info)
    ensures n < c.newBuckets * c.bucketSize
  {
    var b := Home(c, s, id);
    var p := c.Position(true, b, s.info[id].service);
    SlotNumber(b, p, c.newBuckets, c.bucketSize);
    b * c.bucketSize + p
  }

  lemma HomeSlotsDiffer(c: Config, s: Tables, x: int, y: int)
    requires Base(c, s, 0) && RefOk(c, s.info, s.vvNew, {}) && x in NewIds(s.info) && y in NewIds(s.info)
    requires HomeSlot(c, s, x) == HomeSlot(c, s, y)
    ensures x == y
  {
    hide RefOk, Home;
    var b, d := Home(c, s, x), Home(c, s, y);
    SlotNumberUnique(b, c.Position(true, b, s.info[x].service), d, c.Position(true, d, s.info[y].service),
      c.bucketSize);
  }

  lemma NewFits(c: Config, s: Tables)
    requires Base(c, s, 0) && RefOk(c, s.info, s.vvNew, {})
    ensures s.nNew <= c.newBuckets * c.bucketSize
  {
    Counts(c, s);
    hide Base, RefOk, HomeSlot;
    var ids := NewIds(s.info);
    var place := map x | x in ids :: HomeSlot(c, s, x);
    forall x, y | x in ids && y in ids && place[x] == place[y]
      ensures x == y
    {
      HomeSlotsDiffer(c, s, x, y);
    }
    Places(ids, place, c.newBuckets * c.bucketSize);
  }

  // ----- the loaded manager keeps the invariant

  /** Entry n of the loaded manager is entry order[n] of the saved one. */
  ghost predicate Restores(s: Tables, order: seq<int>, t: Tables, n: nat)
    requires Order(s, order) && n < |order|
  {
    && n in t.info
    && var e, f := s.info[order[n]], t.info[n];
       && f.service == e.service && f.inTried == e.inTried && f.randomPos == n
       && f.lastTry == 0 && f.lastSuccess == e.lastSuccess
  }

  lemma ReloadedInfo(c: Config, s: Tables, order: seq<int>)
    requires Ready(c, s, order)
    ensures var t := Reloaded(c, s, order);
            && (forall i | i in t.info :: 0 <= i < |order|) && (forall n: nat | n < |order| :: Restores(s, order, t, n))
            && t.idCount == |order| && t.random == Upto(|order|) && t.addr == AddrAt(s, order, |order|)
            && t.nNew == s.nNew && t.nTried == s.nTried && t.collisions == {}
  {
    hide Base;
  }

  lemma ReloadedRandom(c: Config, s: Tables, order: seq<int>)
    requires Ready(c, s, order)
    ensures var t := Reloaded(c, s, order); RandomOk(t.info, t.random) && IdsOk(t)
  {
    hide Reloaded, Base, Order;
    ReloadedInfo(c, s, order);
    var t := Reloaded(c, s, order);
    forall i | i in t.info
      ensures 0 <= t.info[i].randomPos < |t.random| && t.random[t.info[i].randomPos] == i
    {
      assert Restores(s, order, t, i);
    }
    forall k | 0 <= k < |t.random|
      ensures t.random[k] in t.info && t.info[t.random[k]].randomPos == k
    {
      assert Restores(s, order, t, k);
    }
  }

  lemma ReloadedAddr(c: Config, s: Tables, order: seq<int>)
    requires Ready(c, s, order)
    ensures var t := Reloaded(c, s, order); AddrOk(t.info, t.addr) && TimesOk(t.info)
  {
    ReloadedInfo(c, s, order);
    var t := Reloaded(c, s, order);
    hide Reloaded;
    forall i | i in t.info
      ensures t.info[i].service.net in t.addr && t.addr[t.info[i].service.net] == i
      ensures t.info[i].lastTry >= 0 && t.info[i].lastSuccess >= 0 && (t.info[i].inTried ==> t.info[i].lastSuccess > 0)
    {
      assert Restores(s, order, t, i);
      IndexOf(s, order, i);
      assert order[i] in s.info;
    }
    forall a | a in t.addr
      ensures t.addr[a] in t.info && t.info[t.addr[a]].service.net == a
    {
      assert Restores(s, order, t, t.addr[a]);
    }
  }

  lemma ReloadedCounts(c: Config, s: Tables, order: seq<int>)
    requires Ready(c, s, order)
    ensures CountOk(Reloaded(c, s, order), 0)
  {
    hide Reloaded, Base;
    ReloadedInfo(c, s, order);
    var t := Reloaded(c, s, order);
    forall n: nat | n < |order|
      ensures n in t.info && (t.info[n].inTried <==> n >= s.nNew)
    {
      assert Restores(s, order, t, n);
    }
    RangeSize(s.nNew);
    RangeSize(|order|);
    assert NewIds(t.info) == Range(s.nNew);
    assert TriedIds(t.info) == Range(|order|) - Range(s.nNew);
    assert Range(|order|) == Range(s.nNew) + (Range(|order|) - Range(s.nNew));
  }

  lemma ReloadedNew(c: Config, s: Tables, order: seq<int>)
    requires Ready(c, s, order)
    ensures var t := Reloaded(c, s, order); c.Ok() && NewOk(c, t.info, t.vvNew)
  {
    SlotsRestored(c, s, order);
    ReloadedInfo(c, s, order);
    var t := Reloaded(c, s, order);
    hide Reloaded;
    forall b: nat, p: nat | b < c.newBuckets && p < c.bucketSize && t.vvNew[b][p] != EMPTY
      ensures NewSlot(c, t.info, t.vvNew[b][p], b, p)
    {
      assert NewSlot(c, s.info, s.vvNew[b][p], b, p);
      assert Restores(s, order, t, t.vvNew[b][p]);
    }
  }

  lemma ReloadedTried(c: Config, s: Tables, order: seq<int>)
    requires Ready(c, s, order)
    ensures var t := Reloaded(c, s, order); c.Ok() && TriedOk(c, t.info, t.vvTried)
  {
    SlotsRestored(c, s, order);
    ReloadedInfo(c, s, order);
    var t := Reloaded(c, s, order);
    hide Reloaded;
    forall b: nat, p: nat | b < c.triedBuckets && p < c.bucketSize && t.vvTried[b][p] != EMPTY
      ensures TriedSlot(c, t.info, t.vvTried[b][p], b, p)
    {
      assert TriedSlot(c, s.info, s.vvTried[b][p], b, p);
      assert Restores(s, order, t, t.vvTried[b][p]);
    }
    forall i | i in t.info && t.info[i].inTried
      ensures HasTriedSlot(c, t.vvTried, t.info[i].service, i)
    {
      assert Restores(s, order, t, i);
      IndexOf(s, order, i);
      IdsNotEmpty(c, s, order, i);
      assert HasTriedSlot(c, s.vvTried, s.info[order[i]].service, order[i]);
    }
  }

  lemma ReloadedSlots(c: Config, s: Tables, order: seq<int>, n: nat)
    requires Ready(c, s, order) && n < |order|
    ensures var t := Reloaded(c, s, order);
            && c.Ok() && Shape(s.vvNew, c.newBuckets, c.bucketSize) && Shape(t.vvNew, c.newBuckets, c.bucketSize)
            && order[n] in s.info
            && Slots(c, t.vvNew, s.info[order[n]].service, n) == Slots(c, s.vvNew, s.info[order[n]].service, order[n])
  {
    SlotsRestored(c, s, order);
    IdsNotEmpty(c, s, order, n);
    IndexOf(s, order, n);
    var t := Reloaded(c, s, order);
    hide Reloaded;
    forall b: nat | b < c.newBuckets
      ensures var p := c.Position(true, b, s.info[order[n]].service); t.vvNew[b][p] == n <==> s.vvNew[b][p] == order[n]
    {
      var p := c.Position(true, b, s.info[order[n]].service);
      assert s.vvNew[b][p] != EMPTY ==> order[IndexIn(order, s.vvNew[b][p])] == s.vvNew[b][p];
    }
  }

  lemma ReloadedRefs(c: Config, s: Tables, order: seq<int>)
    requires Ready(c, s, order) && RefOk(c, s.info, s.vvNew, {})
    ensures var t := Reloaded(c, s, order);
            c.Ok() && Shape(t.vvNew, c.newBuckets, c.bucketSize) && RefOk(c, t.info, t.vvNew, {})
  {
    hide Reloaded, Base, Order, Slots;
    ReloadedInfo(c, s, order);
    ReloadedNew(c, s, order);
    var t := Reloaded(c, s, order);
    forall i | i in t.info
      ensures RefEntry(c, t.info[i], i, t.vvNew, {})
    {
      assert Restores(s, order, t, i);
      ReloadedSlots(c, s, order, i);
      IndexOf(s, order, i);
      EntriesRestored(c, s, order, order[i]);
      assert RefEntry(c, s.info[order[i]], order[i], s.vvNew, {});
    }
  }

  /** The loaded manager `t` is `s` again: the same entries, in the same slots, under new ids. */
  ghost predicate Restored(s: Tables, order: seq<int>, t: Tables) {
    && (forall id | id in s.info ::
          id in order && IndexIn(order, id) in t.info && ReadBack(s.info[id], t.info[IndexIn(order, id)]))
    && (forall i | i in t.info :: 0 <= i < |order| && order[i] in s.info)
    && SameSlots(s.vvNew, t.vvNew, order) && SameSlots(s.vvTried, t.vvTried, order)
    && t.nNew == s.nNew && t.nTried == s.nTried && t.idCount == |order| && t.collisions == {}
  }

  lemma ReloadedIs(c: Config, s: Tables, order: seq<int>)
    requires Ready(c, s, order) && RefOk(c, s.info, s.vvNew, {})
    ensures Restored(s, order, Reloaded(c, s, order))
  {
    hide Reloaded, RefOk, ReadBack, SameSlots;
    var t := Reloaded(c, s, order);
    ReloadedInfo(c, s, order);
    ReloadedTables(c, s, order);
    forall id | id in s.info
      ensures id in order && IndexIn(order, id) in t.info && ReadBack(s.info[id], t.info[IndexIn(order, id)])
    {
      EntriesRestored(c, s, order, id);
    }
  }

  lemma ReloadedTables(c: Config, s: Tables, order: seq<int>)
    requires Ready(c, s, order)
    ensures var t := Reloaded(c, s, order);
            SameSlots(s.vvNew, t.vvNew, order) && SameSlots(s.vvTried, t.vvTried, order)
  {
    hide Reloaded, Order, Base;
    SlotsRestored(c, s, order);
  }

  /** Everything the invariant asks of a running manager holds of a loaded one. */
  lemma ReloadedInv(c: Config, s: Tables, order: seq<int>)
    requires Ready(c, s, order) && RefOk(c, s.info, s.vvNew, {})
    ensures Inv(c, Reloaded(c, s, order))
  {
    hide Reloaded, Order, RefOk, NewOk, TriedOk, RandomOk, AddrOk, TimesOk, IdsOk, CountOk;
    ReloadedInfo(c, s, order);
    ReloadedRandom(c, s, order);
    ReloadedAddr(c, s, order);
    ReloadedCounts(c, s, order);
    ReloadedNew(c, s, order);
    ReloadedTried(c, s, order);
    ReloadedRefs(c, s, order);
    SlotsRestored(c, s, order);
  }
}
