/** Saving the address manager to a file image and loading it again. */
module AddrSave {
  import opened AddrTables

  /** The fields of an entry that are written. */
  datatype Saved = Saved(service: Service, nTime: nat, services: set<nat>, source: NetAddr, lastSuccess: int,
                         attempts: int)

  datatype Image = Image(version: nat, keySize: nat, key: nat, nNew: int, nTried: int, uBuckets: nat,
                         newInfos: seq<Saved>, triedInfos: seq<Saved>, buckets: seq<seq<int>>)

  function Save(e: AddrInfo): Saved {
    Saved(e.service, e.nTime, e.services, e.source, e.lastSuccess, e.attempts)
  }

  function Load(v: Saved, pos: int, inTried: bool): AddrInfo {
    AddrInfo(v.service, v.nTime, v.services, v.source, 0, 0, v.lastSuccess, v.attempts, 0, inTried, pos)
  }

  /** Exclusive or with 2^30. */
  function Flip30(n: nat): nat {
    if n / 0x4000_0000 % 2 == 1 then n - 0x4000_0000 else n + 0x4000_0000
  }

  lemma Flip30Twice(n: nat)
    ensures Flip30(Flip30(n)) == n
  {}

  // ----- loading, step by step

  function AddNew(s: Tables, v: Saved, n: int): Tables {
    s.(info := s.info[n := Load(v, |s.random|, false)], addr := s.addr[v.service.net := n], random := s.random + [n])
  }

  function AddNews(s: Tables, vs: seq<Saved>): (t: Tables)
    ensures t.vvTried == s.vvTried && t.vvNew == s.vvNew && t.idCount == s.idCount
  {
    if vs == [] then s else AddNew(AddNews(s, vs[..|vs| - 1]), vs[|vs| - 1], |vs| - 1)
  }

  /** A tried entry whose slot is taken is lost. */
  function AddTried(c: Config, s: Tables, v: Saved): Tables
    requires c.Ok() && Shape(s.vvTried, c.triedBuckets, c.bucketSize)
  {
    var b, p := c.TriedBucket(v.service), c.TriedPos(v.service);
    if s.vvTried[b][p] == EMPTY
    then s.(info := s.info[s.idCount := Load(v, |s.random|, true)], addr := s.addr[v.service.net := s.idCount],
            random := s.random + [s.idCount], vvTried := Put(s.vvTried, b, p, s.idCount), idCount := s.idCount + 1)
    else s.(nTried := s.nTried - 1)
  }

  ghost function AddTrieds(c: Config, s: Tables, vs: seq<Saved>): (t: Tables)
    requires c.Ok() && Shape(s.vvTried, c.triedBuckets, c.bucketSize)
    ensures Shape(t.vvTried, c.triedBuckets, c.bucketSize) && t.vvNew == s.vvNew
  {
    if vs == [] then s else AddTried(c, AddTrieds(c, s, vs[..|vs| - 1]), vs[|vs| - 1])
  }

  /** Puts entry `index` in its slot of a "new" bucket, if that is free. */
  function Place(c: Config, s: Tables, bucket: nat, index: int): Tables
    requires c.Ok() && Shape(s.vvNew, c.newBuckets, c.bucketSize) && bucket < c.newBuckets
  {
    if 0 <= index < s.nNew && index in s.info then
      var e := s.info[index];
      var p := c.Position(true, bucket, e.service);
      if s.vvNew[bucket][p] == EMPTY && e.refCount < NEW_BUCKETS_PER_ADDRESS
      then s.(info := s.info[index := e.(refCount := e.refCount + 1)], vvNew := Put(s.vvNew, bucket, p, index))
      else s
    else s
  }

  ghost function PlaceRow(c: Config, s: Tables, bucket: nat, row: seq<int>): (t: Tables)
    requires c.Ok() && Shape(s.vvNew, c.newBuckets, c.bucketSize) && bucket < c.newBuckets
    ensures Shape(t.vvNew, c.newBuckets, c.bucketSize)
  {
    if row == [] then s else Place(c, PlaceRow(c, s, bucket, row[..|row| - 1]), bucket, row[|row| - 1])
  }

  ghost function PlaceRows(c: Config, s: Tables, rows: seq<seq<int>>): (t: Tables)
    requires c.Ok() && Shape(s.vvNew, c.newBuckets, c.bucketSize) && |rows| <= c.newBuckets
    ensures Shape(t.vvNew, c.newBuckets, c.bucketSize)
  {
    if rows == [] then s else PlaceRow(c, PlaceRows(c, s, rows[..|rows| - 1]), |rows| - 1, rows[|rows| - 1])
  }

  /** Entries left without a slot are dropped. */
  predicate Unplaced(e: AddrInfo) { !e.inTried && e.refCount == 0 }

  // ----- the order in which entries are written

  /** All ids, each once, the new ones first. */
  ghost predicate Order(s: Tables, order: seq<int>) {
    && 0 <= s.nNew && |order| == s.nNew + s.nTried && s.nTried >= 0
    && (forall k | 0 <= k < |order| :: order[k] in s.info && (k < s.nNew <==> !s.info[order[k]].inTried))
    && (forall j, k | 0 <= j < k < |order| :: order[j] != order[k])
    && (forall i | i in s.info :: i in order)
  }

  function IndexIn(order: seq<int>, id: int): (k: nat)
    requires id in order
    ensures k < |order| && order[k] == id
  {
    if order[0] == id then 0 else 1 + IndexIn(order[1..], id)
  }

  lemma IndexOf(s: Tables, order: seq<int>, k: nat)
    requires Order(s, order) && k < |order|
    ensures IndexIn(order, order[k]) == k
  {
    var j := IndexIn(order, order[k]);
    if j < k {
    } else if k < j {
    }
  }

  // ----- what has been loaded after k entries

  function Entry(s: Tables, order: seq<int>, n: nat): AddrInfo
    requires n < |order| && order[n] in s.info
  {
    Load(Save(s.info[order[n]]), n, n >= s.nNew)
  }

  ghost function InfoAt(s: Tables, order: seq<int>, k: nat): map<int, AddrInfo>
    requires Order(s, order) && k <= |order|
  {
    map n | 0 <= n < k :: Entry(s, order, n)
  }

  ghost function AddrAt(s: Tables, order: seq<int>, k: nat): map<NetAddr, int>
    requires Order(s, order) && AddrOk(s.info, s.addr)
  {
    map a | a in s.addr && IndexIn(order, s.addr[a]) < k :: IndexIn(order, s.addr[a])
  }

  function Upto(k: nat): seq<int> { seq(k, i => i) }

  /** A table with ids replaced by their indexes, for the ids among the first k. */
  function Renamed(t: Table, order: seq<int>, k: nat): (r: Table)
    requires forall b, p | 0 <= b < |t| && 0 <= p < |t[b]| && t[b][p] != EMPTY :: t[b][p] in order
    ensures |r| == |t| && forall b | 0 <= b < |t| :: |r[b]| == |t[b]|
    ensures forall b, p | 0 <= b < |t| && 0 <= p < |t[b]| ::
              r[b][p] == if t[b][p] != EMPTY && IndexIn(order, t[b][p]) < k then IndexIn(order, t[b][p]) else EMPTY
  {
    seq(|t|, b requires 0 <= b < |t| =>
      seq(|t[b]|, p requires 0 <= p < |t[b]| =>
        if t[b][p] != EMPTY && IndexIn(order, t[b][p]) < k then IndexIn(order, t[b][p]) else EMPTY))
  }

  ghost predicate Ready(c: Config, s: Tables, order: seq<int>) { Base(c, s, 0) && Order(s, order) }

  /** Table ids are known ids, on the side of the order that fits the table. */
  lemma SlotsInOrder(c: Config, s: Tables, order: seq<int>)
    requires Ready(c, s, order)
    ensures Shape(s.vvTried, c.triedBuckets, c.bucketSize) && Shape(s.vvNew, c.newBuckets, c.bucketSize)
    ensures forall b, p | 0 <= b < |s.vvTried| && 0 <= p < |s.vvTried[b]| && s.vvTried[b][p] != EMPTY ::
              s.vvTried[b][p] in order && s.nNew <= IndexIn(order, s.vvTried[b][p])
    ensures forall b, p | 0 <= b < |s.vvNew| && 0 <= p < |s.vvNew[b]| && s.vvNew[b][p] != EMPTY ::
              s.vvNew[b][p] in order && IndexIn(order, s.vvNew[b][p]) < s.nNew
  {
    forall b: nat, p: nat | b < |s.vvTried| && p < |s.vvTried[b]| && s.vvTried[b][p] != EMPTY
      ensures s.vvTried[b][p] in order && s.nNew <= IndexIn(order, s.vvTried[b][p])
    {
      assert TriedSlot(c, s.info, s.vvTried[b][p], b, p);
    }
    forall b: nat, p: nat | b < |s.vvNew| && p < |s.vvNew[b]| && s.vvNew[b][p] != EMPTY
      ensures s.vvNew[b][p] in order && IndexIn(order, s.vvNew[b][p]) < s.nNew
    {
      assert NewSlot(c, s.info, s.vvNew[b][p], b, p);
    }
  }

  ghost function TriedAt(c: Config, s: Tables, order: seq<int>, k: nat): (t: Table)
    requires Ready(c, s, order)
    ensures Shape(t, c.triedBuckets, c.bucketSize)
  {
    SlotsInOrder(c, s, order);
    Renamed(s.vvTried, order, k)
  }

  ghost function Stage(c: Config, s: Tables, order: seq<int>, k: nat): (t: Tables)
    requires Ready(c, s, order) && k <= |order|
    ensures Shape(t.vvTried, c.triedBuckets, c.bucketSize) && Shape(t.vvNew, c.newBuckets, c.bucketSize)
  {
    Tables(k, InfoAt(s, order, k), AddrAt(s, order, k), Upto(k), s.nTried, TriedAt(c, s, order, k),
           s.nNew, EmptyTable(c.newBuckets, c.bucketSize), 1, {})
  }

  lemma InfoStep(s: Tables, order: seq<int>, k: nat)
    requires Order(s, order) && k < |order|
    ensures InfoAt(s, order, k)[k := Entry(s, order, k)] == InfoAt(s, order, k + 1)
  {
    hide Entry;
    assert InfoAt(s, order, k)[k := Entry(s, order, k)].Keys == InfoAt(s, order, k + 1).Keys;
  }

  lemma AddrOf(info: map<int, AddrInfo>, addr: map<NetAddr, int>, id: int)
    requires AddrOk(info, addr) && id in info
    ensures info[id].service.net in addr && addr[info[id].service.net] == id
  {}

  lemma AddrStep(s: Tables, order: seq<int>, k: nat)
    requires Order(s, order) && AddrOk(s.info, s.addr) && k < |order|
    ensures AddrAt(s, order, k)[s.info[order[k]].service.net := k] == AddrAt(s, order, k + 1)
  {
    assert order[k] in s.info;
    var net := s.info[order[k]].service.net;
    AddrOf(s.info, s.addr, order[k]);
    IndexOf(s, order, k);
    forall a | a in s.addr
      ensures IndexIn(order, s.addr[a]) == k <==> a == net
    {
      assert s.info[s.addr[a]].service.net == a;
    }
    hide Order, AddrOk;
    assert AddrAt(s, order, k)[net := k].Keys == AddrAt(s, order, k + 1).Keys;
  }

  lemma UptoStep(k: nat)
    ensures Upto(k) + [k] == Upto(k + 1) && |Upto(k)| == k
  {}

  /** Loading the next new entry. */
  lemma NewStep(c: Config, s: Tables, order: seq<int>, k: nat)
    requires Ready(c, s, order) && k < s.nNew
    ensures k < |order| && order[k] in s.info
    ensures AddNew(Stage(c, s, order, k).(idCount := 0), Save(s.info[order[k]]), k)
            == Stage(c, s, order, k + 1).(idCount := 0)
  {
    assert k < |order| && order[k] in s.info;
    InfoStep(s, order, k);
    AddrStep(s, order, k);
    UptoStep(k);
    assert TriedAt(c, s, order, k) == TriedAt(c, s, order, k + 1) by { TriedUnchanged(c, s, order, k); }
  }

  lemma TriedUnchanged(c: Config, s: Tables, order: seq<int>, k: nat)
    requires Ready(c, s, order) && k < s.nNew
    ensures TriedAt(c, s, order, k) == TriedAt(c, s, order, k + 1)
  {
    SlotsInOrder(c, s, order);
    var t, u := TriedAt(c, s, order, k), TriedAt(c, s, order, k + 1);
    hide Ready;
    forall b | 0 <= b < |t|
      ensures t[b] == u[b]
    {
      assert forall p | 0 <= p < |t[b]| :: t[b][p] == u[b][p];
    }
  }

  lemma TriedFilled(c: Config, s: Tables, order: seq<int>, k: nat)
    requires Ready(c, s, order) && s.nNew <= k < |order|
    ensures var e := s.info[order[k]].service;
            var b, p := c.TriedBucket(e), c.TriedPos(e);
            && TriedAt(c, s, order, k)[b][p] == EMPTY
            && Put(TriedAt(c, s, order, k), b, p, k) == TriedAt(c, s, order, k + 1)
  {
    SlotsInOrder(c, s, order);
    IndexOf(s, order, k);
    var e := s.info[order[k]].service;
    var b, p := c.TriedBucket(e), c.TriedPos(e);
    assert HasTriedSlot(c, s.vvTried, e, order[k]);
    var t := Put(TriedAt(c, s, order, k), b, p, k);
    var u := TriedAt(c, s, order, k + 1);
    forall r: nat, q: nat | r < c.triedBuckets && q < c.bucketSize
      ensures t[r][q] == u[r][q]
    {
      if s.vvTried[r][q] == order[k] && order[k] != EMPTY { assert TriedSlot(c, s.info, s.vvTried[r][q], r, q); }
    }
    hide Ready;
    forall r | 0 <= r < |t|
      ensures t[r] == u[r]
    {
      assert forall q | 0 <= q < |t[r]| :: t[r][q] == u[r][q];
    }
  }

  /** Loading the next tried entry: its slot is free, so nothing is lost. */
  lemma TriedStep(c: Config, s: Tables, order: seq<int>, k: nat)
    requires Ready(c, s, order) && s.nNew <= k < |order|
    ensures AddTried(c, Stage(c, s, order, k), Save(s.info[order[k]])) == Stage(c, s, order, k + 1)
  {
    hide TriedAt;
    assert order[k] in s.info;
    InfoStep(s, order, k);
    AddrStep(s, order, k);
    UptoStep(k);
    TriedFilled(c, s, order, k);
  }

  /** The written entries from position lo up to hi. */
  function SavedFrom(s: Tables, order: seq<int>, lo: nat, hi: nat): (v: seq<Saved>)
    requires lo <= hi <= |order| && forall k | 0 <= k < |order| :: order[k] in s.info
    ensures |v| == hi - lo && forall i | 0 <= i < |v| :: v[i] == Save(s.info[order[lo + i]])
  {
    seq(hi - lo, i requires 0 <= i < hi - lo => Save(s.info[order[lo + i]]))
  }

  function Counted(c: Config, nNew: int, nTried: int): Tables { Initial(c).(nNew := nNew, nTried := nTried) }

  lemma StageStart(c: Config, s: Tables, order: seq<int>)
    requires Ready(c, s, order)
    ensures Stage(c, s, order, 0).(idCount := 0) == Counted(c, s.nNew, s.nTried)
  {
    SlotsInOrder(c, s, order);
    var t, u := TriedAt(c, s, order, 0), EmptyTable(c.triedBuckets, c.bucketSize);
    hide Ready;
    assert InfoAt(s, order, 0) == map[];
    assert AddrAt(s, order, 0) == map[];
    forall r | 0 <= r < |t|
      ensures t[r] == u[r]
    {
      assert forall q | 0 <= q < |t[r]| :: t[r][q] == u[r][q];
    }
    assert t == u;
  }

  lemma {:induction false} NewsLoaded(c: Config, s: Tables, order: seq<int>, k: nat)
    requires Ready(c, s, order) && k <= s.nNew <= |order|
    ensures AddNews(Counted(c, s.nNew, s.nTried), SavedFrom(s, order, 0, k)) == Stage(c, s, order, k).(idCount := 0)
  {
    hide Stage, AddNew;
    if k == 0 {
      StageStart(c, s, order);
    } else {
      NewsLoaded(c, s, order, k - 1);
      NewStep(c, s, order, k - 1);
      assert SavedFrom(s, order, 0, k)[..k - 1] == SavedFrom(s, order, 0, k - 1);
    }
  }

  lemma {:induction false} TriedsLoaded(c: Config, s: Tables, order: seq<int>, k: nat)
    requires Ready(c, s, order) && s.nNew <= k <= |order|
    ensures AddTrieds(c, Stage(c, s, order, s.nNew), SavedFrom(s, order, s.nNew, k)) == Stage(c, s, order, k)
  {
    hide Stage, AddTried, Base;
    if k > s.nNew {
      TriedsLoaded(c, s, order, k - 1);
      TriedStep(c, s, order, k - 1);
      assert SavedFrom(s, order, s.nNew, k)[..k - 1 - s.nNew] == SavedFrom(s, order, s.nNew, k - 1);
    } else {
      assert SavedFrom(s, order, s.nNew, k) == [];
    }
  }
}
