/** The address manager's five indexes as values, the primitive table operations as
    functions, and the invariant that every primitive keeps. */
module AddrTables {

  const NEW_BUCKETS_PER_ADDRESS := 8
  const TRIED_COLLISION_SIZE := 10
  const EMPTY := -1

  datatype NetAddr = NetAddr(ip: nat)

  datatype Service = Service(net: NetAddr, port: nat)

  /** An address as peers announce it: `nTime` is an unsigned 32-bit field, `services` a set of flag bits. */
  datatype Address = Address(service: Service, nTime: nat, services: set<nat>)

  datatype AddrInfo = AddrInfo(
    service: Service, nTime: nat, services: set<nat>, source: NetAddr,
    lastTry: int, lastCountAttempt: int, lastSuccess: int, attempts: int,
    refCount: int, inTried: bool, randomPos: int)

  function FreshInfo(a: Address, source: NetAddr): AddrInfo {
    AddrInfo(a.service, a.nTime, a.services, source, 0, 0, 0, 0, 0, false, -1)
  }

  /** Table dimensions, the secret key and the keyed hashes (left uninterpreted). */
  datatype Config = Config(
    newBuckets: nat, triedBuckets: nat, bucketSize: nat, key: nat,
    triedHash: (nat, Service) -> nat,
    newHash: (nat, Service, NetAddr) -> nat,
    positionHash: (nat, bool, nat, Service) -> nat,
    isRoutable: NetAddr -> bool,
    isValid: NetAddr -> bool)
  {
    predicate Ok() { newBuckets > 0 && triedBuckets > 0 && bucketSize > 0 }

    function TriedBucket(s: Service): (b: nat)
      requires Ok()
      ensures b < triedBuckets
    {
      triedHash(key, s) % triedBuckets
    }

    function NewBucket(s: Service, src: NetAddr): (b: nat)
      requires Ok()
      ensures b < newBuckets
    {
      newHash(key, s, src) % newBuckets
    }

    function Position(inNew: bool, bucket: nat, s: Service): (p: nat)
      requires Ok()
      ensures p < bucketSize
    {
      positionHash(key, inNew, bucket, s) % bucketSize
    }

    function TriedPos(s: Service): (p: nat)
      requires Ok()
      ensures p < bucketSize
    {
      Position(false, TriedBucket(s), s)
    }
  }

  // ----- slot tables

  type Table = seq<seq<int>>

  ghost predicate Shape(t: Table, rows: nat, cols: nat) {
    |t| == rows && forall r | 0 <= r < rows :: |t[r]| == cols
  }

  function Put(t: Table, b: nat, p: nat, x: int): (t': Table)
    requires b < |t| && p < |t[b]|
    ensures |t'| == |t|
    ensures forall r | 0 <= r < |t| :: |t'[r]| == |t[r]|
    ensures t'[b][p] == x
    ensures forall r, q | 0 <= r < |t| && 0 <= q < |t[r]| && !(r == b && q == p) :: t'[r][q] == t[r][q]
  {
    t[b := t[b][p := x]]
  }

  function EmptyTable(rows: nat, cols: nat): (t: Table)
    ensures Shape(t, rows, cols)
    ensures forall r, q | 0 <= r < rows && 0 <= q < cols :: t[r][q] == EMPTY
  {
    seq(rows, _ => seq(cols, _ => EMPTY))
  }

  /** The "new" buckets in which `id` sits; an entry can only be at its hashed position. */
  ghost function Slots(c: Config, t: Table, s: Service, id: int): set<nat>
    requires c.Ok() && Shape(t, c.newBuckets, c.bucketSize)
  {
    set b: nat | b < c.newBuckets && t[b][c.Position(true, b, s)] == id
  }

  lemma SlotsAfterPut(c: Config, t: Table, b: nat, p: nat, x: int, s: Service, id: int)
    requires c.Ok() && Shape(t, c.newBuckets, c.bucketSize)
    requires b < c.newBuckets && p < c.bucketSize
    ensures Slots(c, Put(t, b, p, x), s, id) ==
            if c.Position(true, b, s) != p then Slots(c, t, s, id)
            else if x == id then Slots(c, t, s, id) + {b} else Slots(c, t, s, id) - {b}
  {
  }

  // ----- the manager's state

  datatype Tables = Tables(
    idCount: nat,
    info: map<int, AddrInfo>,
    addr: map<NetAddr, int>,
    random: seq<int>,
    nTried: int, vvTried: Table,
    nNew: int, vvNew: Table,
    lastGood: int,
    collisions: set<int>)

  function Initial(c: Config): Tables {
    Tables(0, map[], map[], [], 0, EmptyTable(c.triedBuckets, c.bucketSize),
           0, EmptyTable(c.newBuckets, c.bucketSize), 1, {})
  }

  ghost function NewIds(info: map<int, AddrInfo>): set<int> { set i | i in info && !info[i].inTried }
  ghost function TriedIds(info: map<int, AddrInfo>): set<int> { set i | i in info && info[i].inTried }

  ghost predicate RandomOk(info: map<int, AddrInfo>, random: seq<int>) {
    && (forall i | i in info :: 0 <= info[i].randomPos < |random| && random[info[i].randomPos] == i)
    && (forall k | 0 <= k < |random| :: random[k] in info && info[random[k]].randomPos == k)
  }

  ghost predicate AddrOk(info: map<int, AddrInfo>, addr: map<NetAddr, int>) {
    && (forall i | i in info :: info[i].service.net in addr && addr[info[i].service.net] == i)
    && (forall a | a in addr :: addr[a] in info && info[addr[a]].service.net == a)
  }

  ghost predicate TimesOk(info: map<int, AddrInfo>) {
    forall i | i in info ::
      info[i].lastTry >= 0 && info[i].lastSuccess >= 0 && (info[i].inTried ==> info[i].lastSuccess > 0)
  }

  ghost predicate IdsOk(s: Tables) { forall i | i in s.info :: 0 <= i < s.idCount }

  /** `id` may stand in slot (b, p) of the "tried" table. */
  predicate TriedSlot(c: Config, info: map<int, AddrInfo>, id: int, b: nat, p: nat)
    requires c.Ok()
  {
    && id in info && info[id].inTried
    && c.TriedBucket(info[id].service) == b && c.TriedPos(info[id].service) == p
  }

  /** `id` may stand in slot (b, p) of the "new" table. */
  predicate NewSlot(c: Config, info: map<int, AddrInfo>, id: int, b: nat, p: nat)
    requires c.Ok()
  {
    id in info && !info[id].inTried && c.Position(true, b, info[id].service) == p
  }

  ghost predicate TriedOk(c: Config, info: map<int, AddrInfo>, t: Table)
    requires c.Ok()
  {
    && Shape(t, c.triedBuckets, c.bucketSize)
    && (forall b: nat, p: nat | b < c.triedBuckets && p < c.bucketSize && t[b][p] != EMPTY ::
          TriedSlot(c, info, t[b][p], b, p))
    && (forall i | i in info && info[i].inTried :: HasTriedSlot(c, t, info[i].service, i))
  }

  predicate HasTriedSlot(c: Config, t: Table, s: Service, id: int)
    requires c.Ok() && Shape(t, c.triedBuckets, c.bucketSize)
  {
    t[c.TriedBucket(s)][c.TriedPos(s)] == id
  }

  ghost predicate NewOk(c: Config, info: map<int, AddrInfo>, t: Table)
    requires c.Ok()
  {
    && Shape(t, c.newBuckets, c.bucketSize)
    && (forall b: nat, p: nat | b < c.newBuckets && p < c.bucketSize && t[b][p] != EMPTY ::
          NewSlot(c, info, t[b][p], b, p))
  }

  lemma TriedHasNoSlots(c: Config, info: map<int, AddrInfo>, t: Table, id: int)
    requires c.Ok() && NewOk(c, info, t) && id in info && info[id].inTried && id != EMPTY
    ensures Slots(c, t, info[id].service, id) == {}
  {
    forall b: nat | b < c.newBuckets
      ensures t[b][c.Position(true, b, info[id].service)] != id
    {
      var p := c.Position(true, b, info[id].service);
      assert t[b][p] != EMPTY ==> NewSlot(c, info, t[b][p], b, p);
    }
  }

  /** The reference count is the number of "new" slots that hold the entry; outside `exempt`
      an entry is tried or holds between 1 and 8 of them. */
  ghost predicate RefEntry(c: Config, e: AddrInfo, id: int, t: Table, exempt: set<int>)
    requires c.Ok() && Shape(t, c.newBuckets, c.bucketSize)
  {
    && e.refCount == |Slots(c, t, e.service, id)|
    && e.refCount <= NEW_BUCKETS_PER_ADDRESS
    && (!e.inTried && id !in exempt ==> 1 <= e.refCount)
  }

  ghost predicate RefOk(c: Config, info: map<int, AddrInfo>, t: Table, exempt: set<int>)
    requires c.Ok() && Shape(t, c.newBuckets, c.bucketSize)
  {
    forall i | i in info :: RefEntry(c, info[i], i, t, exempt)
  }

  ghost predicate CountOk(s: Tables, owed: int) {
    s.nNew + owed == |NewIds(s.info)| && s.nTried == |TriedIds(s.info)|
  }

  /** Pending collisions still known to the manager have an occupied target slot. */
  ghost predicate CollisionsOk(c: Config, s: Tables)
    requires c.Ok() && Shape(s.vvTried, c.triedBuckets, c.bucketSize)
  {
    && |s.collisions| <= TRIED_COLLISION_SIZE
    && (forall i | i in s.collisions :: 0 <= i < s.idCount)
    && (forall i | i in s.collisions && i in s.info :: Occupied(c, s.vvTried, s.info[i].service))
  }

  ghost predicate Occupied(c: Config, t: Table, s: Service)
    requires c.Ok() && Shape(t, c.triedBuckets, c.bucketSize)
  {
    t[c.TriedBucket(s)][c.TriedPos(s)] != EMPTY
  }

  ghost predicate Base(c: Config, s: Tables, owed: int) {
    && c.Ok()
    && AddrOk(s.info, s.addr)
    && TimesOk(s.info)
    && IdsOk(s)
    && TriedOk(c, s.info, s.vvTried)
    && NewOk(c, s.info, s.vvNew)
    && CountOk(s, owed)
  }

  /** Everything but the random vector. While an operation is under way the entries in
      `exempt` may have no "new" slot, and `nNew` may be `owed` short. */
  ghost predicate Rest(c: Config, s: Tables, exempt: set<int>, owed: int) {
    Base(c, s, owed) && RefOk(c, s.info, s.vvNew, exempt)
  }

  ghost predicate Core(c: Config, s: Tables, exempt: set<int>, owed: int) {
    RandomOk(s.info, s.random) && Rest(c, s, exempt, owed)
  }

  /** The invariant between operations. */
  ghost predicate Inv(c: Config, s: Tables) { Core(c, s, {}, 0) && CollisionsOk(c, s) }

  lemma InitialInv(c: Config)
    requires c.Ok()
    ensures Inv(c, Initial(c))
  {
  }

  // ----- entries that differ only in where they stand in the random vector

  predicate SameButPos(a: AddrInfo, b: AddrInfo) { b == a.(randomPos := b.randomPos) }

  ghost predicate SameInfo(m: map<int, AddrInfo>, m': map<int, AddrInfo>) {
    m.Keys == m'.Keys && forall i | i in m :: SameButPos(m[i], m'[i])
  }

  lemma PositionsDoNotMatter(c: Config, s: Tables, info': map<int, AddrInfo>, random': seq<int>,
                             exempt: set<int>, owed: int)
    requires Rest(c, s, exempt, owed) && SameInfo(s.info, info')
    ensures Rest(c, s.(info := info', random := random'), exempt, owed)
  {
    forall i | i in s.info ensures info'[i].inTried == s.info[i].inTried {
      assert SameButPos(s.info[i], info'[i]);
    }
    assert NewIds(info') == NewIds(s.info);
    assert TriedIds(info') == TriedIds(s.info);
  }

  // ----- SwapRandom

  predicate InRandom(s: Tables, k: int) { 0 <= k < |s.random| && s.random[k] in s.info }

  function SwapRandom(s: Tables, i: int, j: int): Tables
    requires i != j ==> InRandom(s, i) && InRandom(s, j)
  {
    if i == j then s
    else
      var id1, id2 := s.random[i], s.random[j];
      var info1 := s.info[id1 := s.info[id1].(randomPos := j)];
      s.(info := info1[id2 := info1[id2].(randomPos := i)], random := s.random[i := id2][j := id1])
  }

  lemma SwapRandomOk(s: Tables, i: int, j: int)
    requires RandomOk(s.info, s.random)
    requires i != j ==> 0 <= i < |s.random| && 0 <= j < |s.random|
    ensures RandomOk(SwapRandom(s, i, j).info, SwapRandom(s, i, j).random)
    ensures SameInfo(s.info, SwapRandom(s, i, j).info)
  {
  }

  lemma SwapRandomKeeps(c: Config, s: Tables, i: int, j: int, exempt: set<int>, owed: int)
    requires Core(c, s, exempt, owed)
    requires i != j ==> 0 <= i < |s.random| && 0 <= j < |s.random|
    ensures Core(c, SwapRandom(s, i, j), exempt, owed)
    ensures SameInfo(s.info, SwapRandom(s, i, j).info)
  {
    hide Rest, RandomOk, SameInfo;
    assert i != j ==> InRandom(s, i) && InRandom(s, j) by { RandomHolds(s); }
    SwapRandomOk(s, i, j);
    if i != j {
      var t := SwapRandom(s, i, j);
      PositionsDoNotMatter(c, s, t.info, t.random, exempt, owed);
    }
  }

  lemma RandomHolds(s: Tables)
    requires RandomOk(s.info, s.random)
    ensures forall k | 0 <= k < |s.random| :: InRandom(s, k)
  {
  }

  // ----- Delete

  /** The asserts of Delete, and what makes its random-vector accesses sound. */
  predicate Deletable(s: Tables, id: int) {
    && id in s.info && !s.info[id].inTried && s.info[id].refCount == 0
    && InRandom(s, s.info[id].randomPos) && InRandom(s, |s.random| - 1)
  }

  function Delete(s: Tables, id: int): Tables
    requires Deletable(s, id)
  {
    var t := SwapRandom(s, s.info[id].randomPos, |s.random| - 1);
    t.(random := t.random[..|t.random| - 1],
       addr := t.addr - {s.info[id].service.net},
       info := t.info - {id},
       nNew := t.nNew - 1)
  }

  lemma NoSlots(c: Config, info: map<int, AddrInfo>, t: Table, id: int)
    requires c.Ok() && NewOk(c, info, t)
    requires id in info && info[id].refCount == 0 == |Slots(c, t, info[id].service, id)|
    ensures forall b, p | 0 <= b < c.newBuckets && 0 <= p < c.bucketSize && t[b][p] != EMPTY :: t[b][p] != id
  {
    forall b, p | 0 <= b < c.newBuckets && 0 <= p < c.bucketSize && t[b][p] != EMPTY ensures t[b][p] != id {
      assert b !in Slots(c, t, info[id].service, id);
    }
  }

  lemma IdsAfterRemoval(info: map<int, AddrInfo>, id: int)
    requires id in info && !info[id].inTried
    ensures id in NewIds(info) && NewIds(info - {id}) == NewIds(info) - {id}
    ensures TriedIds(info - {id}) == TriedIds(info)
  {
  }

  lemma TablesAfterRemoval(c: Config, info: map<int, AddrInfo>, new_: Table, tried: Table, id: int)
    requires c.Ok() && NewOk(c, info, new_) && TriedOk(c, info, tried)
    requires id in info && !info[id].inTried && RefEntry(c, info[id], id, new_, {id}) && info[id].refCount == 0
    ensures NewOk(c, info - {id}, new_) && TriedOk(c, info - {id}, tried)
  {
    NoSlots(c, info, new_, id);
    forall b: nat, p: nat | b < c.newBuckets && p < c.bucketSize && new_[b][p] != EMPTY
      ensures NewSlot(c, info - {id}, new_[b][p], b, p)
    {
      assert NewSlot(c, info, new_[b][p], b, p);
    }
    forall b: nat, p: nat | b < c.triedBuckets && p < c.bucketSize && tried[b][p] != EMPTY
      ensures TriedSlot(c, info - {id}, tried[b][p], b, p)
    {
      assert TriedSlot(c, info, tried[b][p], b, p);
    }
  }

  lemma RestAfterRemoval(c: Config, s: Tables, id: int, random': seq<int>, exempt: set<int>, owed: int)
    requires Rest(c, s, exempt, owed)
    requires id in s.info && !s.info[id].inTried && s.info[id].refCount == 0
    ensures Rest(c, s.(addr := s.addr - {s.info[id].service.net}, info := s.info - {id}, nNew := s.nNew - 1,
                      random := random'), exempt - {id}, owed)
  {
    hide NewOk, TriedOk, AddrOk, RefOk, RefEntry, NewIds, TriedIds;
    NewShape(c, s.info, s.vvNew);
    RefsAfterRemoval(c, s.info, s.vvNew, id, exempt);
    TablesAfterRemoval(c, s.info, s.vvNew, s.vvTried, id);
    IdsAfterRemoval(s.info, id);
    AddrAfterRemoval(s.info, s.addr, id);
    TriedShape(c, s.info - {id}, s.vvTried);
  }

  lemma NewShape(c: Config, info: map<int, AddrInfo>, t: Table)
    requires c.Ok() && NewOk(c, info, t)
    ensures Shape(t, c.newBuckets, c.bucketSize)
  {}

  lemma TriedShape(c: Config, info: map<int, AddrInfo>, t: Table)
    requires c.Ok() && TriedOk(c, info, t)
    ensures Shape(t, c.triedBuckets, c.bucketSize)
  {}

  lemma AddrAfterRemoval(info: map<int, AddrInfo>, addr: map<NetAddr, int>, id: int)
    requires AddrOk(info, addr) && id in info
    ensures AddrOk(info - {id}, addr - {info[id].service.net})
  {}

  lemma RefsAfterRemoval(c: Config, info: map<int, AddrInfo>, t: Table, id: int, exempt: set<int>)
    requires c.Ok() && Shape(t, c.newBuckets, c.bucketSize) && RefOk(c, info, t, exempt) && id in info
    ensures RefOk(c, info - {id}, t, exempt - {id}) && RefEntry(c, info[id], id, t, {id})
  {
    forall i | i in info && i != id
      ensures RefEntry(c, info[i], i, t, exempt - {id})
    {
      assert RefEntry(c, info[i], i, t, exempt);
    }
    assert RefEntry(c, info[id], id, t, exempt);
  }

  lemma RandomAfterRemoval(info: map<int, AddrInfo>, random: seq<int>, id: int)
    requires RandomOk(info, random) && |random| > 0 && random[|random| - 1] == id
    ensures RandomOk(info - {id}, random[..|random| - 1])
  {
  }

  lemma DeleteKeeps(c: Config, s: Tables, id: int, exempt: set<int>, owed: int)
    requires Core(c, s, exempt, owed)
    requires id in s.info && !s.info[id].inTried && s.info[id].refCount == 0
    ensures Deletable(s, id)
    ensures Core(c, Delete(s, id), exempt - {id}, owed)
    ensures SameInfo(s.info - {id}, Delete(s, id).info)
  {
    hide Rest;
    var last := |s.random| - 1;
    SwapRandomKeeps(c, s, s.info[id].randomPos, last, exempt, owed);
    var t := SwapRandom(s, s.info[id].randomPos, last);
    assert t.random[last] == id;
    RestAfterRemoval(c, t, id, t.random[..last], exempt, owed);
    RandomAfterRemoval(t.info, t.random, id);
  }

  // ----- ClearNew

  /** The slot holds a known entry that Delete accepts once its last reference is dropped. */
  predicate Clearable(s: Tables, b: nat, p: nat) {
    && b < |s.vvNew| && p < |s.vvNew[b]|
    && var id := s.vvNew[b][p];
       id == EMPTY || (id in s.info && s.info[id].refCount > 0 &&
                       (s.info[id].refCount == 1 ==> Deletable(Unref(s, b, p), id)))
  }

  function Unref(s: Tables, b: nat, p: nat): Tables
    requires b < |s.vvNew| && p < |s.vvNew[b]| && s.vvNew[b][p] in s.info
  {
    var id := s.vvNew[b][p];
    s.(info := s.info[id := s.info[id].(refCount := s.info[id].refCount - 1)], vvNew := Put(s.vvNew, b, p, EMPTY))
  }

  function ClearNew(s: Tables, b: nat, p: nat): Tables
    requires Clearable(s, b, p)
  {
    var id := s.vvNew[b][p];
    if id == EMPTY then s
    else if s.info[id].refCount == 1 then Delete(Unref(s, b, p), id)
    else Unref(s, b, p)
  }

  function WithRef(s: Tables, id: int, n: int): Tables
    requires id in s.info
  {
    s.(info := s.info[id := s.info[id].(refCount := n)])
  }

  lemma WithRefKeeps(c: Config, s: Tables, id: int, n: int, owed: int)
    requires Base(c, s, owed) && RandomOk(s.info, s.random) && id in s.info
    ensures Base(c, WithRef(s, id, n), owed) && RandomOk(WithRef(s, id, n).info, s.random)
  {
    hide RandomOk, AddrOk, TriedOk, NewOk;
    var u := WithRef(s, id, n);
    assert NewIds(u.info) == NewIds(s.info);
    assert TriedIds(u.info) == TriedIds(s.info);
    WithRefIndexes(s, id, n);
    WithRefTables(c, s, id, n);
  }

  lemma WithRefIndexes(s: Tables, id: int, n: int)
    requires RandomOk(s.info, s.random) && AddrOk(s.info, s.addr) && id in s.info
    ensures RandomOk(WithRef(s, id, n).info, s.random) && AddrOk(WithRef(s, id, n).info, s.addr)
  {}

  lemma WithRefTables(c: Config, s: Tables, id: int, n: int)
    requires c.Ok() && TriedOk(c, s.info, s.vvTried) && NewOk(c, s.info, s.vvNew) && id in s.info
    ensures TriedOk(c, WithRef(s, id, n).info, s.vvTried) && NewOk(c, WithRef(s, id, n).info, s.vvNew)
  {}

  lemma EmptyingKeepsBase(c: Config, s: Tables, b: nat, p: nat, owed: int)
    requires Base(c, s, owed) && b < c.newBuckets && p < c.bucketSize
    ensures Base(c, s.(vvNew := Put(s.vvNew, b, p, EMPTY)), owed)
  {
  }

  lemma EmptyingKeepsRef(c: Config, info: map<int, AddrInfo>, t: Table, b: nat, p: nat, i: int, exempt: set<int>)
    requires c.Ok() && NewOk(c, info, t) && i in info && RefEntry(c, info[i], i, t, exempt) && i != EMPTY
    requires b < c.newBuckets && p < c.bucketSize && t[b][p] != EMPTY
    ensures i != t[b][p] ==> RefEntry(c, info[i], i, Put(t, b, p, EMPTY), exempt + {t[b][p]})
    ensures i == t[b][p] ==> info[i].refCount > 0
    ensures i == t[b][p] ==>
              RefEntry(c, info[i].(refCount := info[i].refCount - 1), i, Put(t, b, p, EMPTY), exempt + {i})
  {
    hide RefOk;
    assert NewSlot(c, info, t[b][p], b, p);
    SlotsAfterPut(c, t, b, p, EMPTY, info[i].service, i);
    var held := Slots(c, t, info[i].service, i);
    if i == t[b][p] {
      assert b in held;
    } else if c.Position(true, b, info[i].service) == p {
      assert b !in held;
      assert held - {b} == held;
    }
  }

  lemma EmptyingKeepsRefs(c: Config, info: map<int, AddrInfo>, t: Table, b: nat, p: nat, exempt: set<int>)
    requires c.Ok() && NewOk(c, info, t) && RefOk(c, info, t, exempt) && EMPTY !in info
    requires b < c.newBuckets && p < c.bucketSize && t[b][p] != EMPTY
    ensures t[b][p] in info && info[t[b][p]].refCount > 0
    ensures var id := t[b][p];
            RefOk(c, info[id := info[id].(refCount := info[id].refCount - 1)], Put(t, b, p, EMPTY), exempt + {id})
  {
    var id := t[b][p];
    assert NewSlot(c, info, id, b, p);
    hide RefEntry;
    EmptyingKeepsRef(c, info, t, b, p, id, exempt);
    forall i | i in info && i != id ensures RefEntry(c, info[i], i, Put(t, b, p, EMPTY), exempt + {id}) {
      EmptyingKeepsRef(c, info, t, b, p, i, exempt);
    }
  }

  lemma UnrefKeeps(c: Config, s: Tables, b: nat, p: nat, exempt: set<int>, owed: int)
    requires Core(c, s, exempt, owed)
    requires b < c.newBuckets && p < c.bucketSize && s.vvNew[b][p] != EMPTY
    ensures s.vvNew[b][p] in s.info && s.info[s.vvNew[b][p]].refCount > 0
    ensures Core(c, Unref(s, b, p), exempt + {s.vvNew[b][p]}, owed)
  {
    EmptyingKeepsRefs(c, s.info, s.vvNew, b, p, exempt);
    hide RefOk, RandomOk;
    var id := s.vvNew[b][p];
    EmptyingKeepsBase(c, s, b, p, owed);
    hide Base;
    WithRefKeeps(c, s.(vvNew := Put(s.vvNew, b, p, EMPTY)), id, s.info[id].refCount - 1, owed);
  }

  lemma PutSame(t: Table, b: nat, p: nat)
    requires b < |t| && p < |t[b]|
    ensures Put(t, b, p, t[b][p]) == t
  {
    assert t[b][p := t[b][p]] == t[b];
  }

  /** ClearNew empties the slot, keeps the invariant, and touches no other entry's data. */
  lemma ClearNewKeeps(c: Config, s: Tables, b: nat, p: nat, exempt: set<int>, owed: int)
    requires Core(c, s, exempt, owed)
    requires b < c.newBuckets && p < c.bucketSize && s.vvNew[b][p] !in exempt
    ensures Clearable(s, b, p)
    ensures var t := ClearNew(s, b, p); Core(c, t, exempt, owed) && t.vvNew == Put(s.vvNew, b, p, EMPTY)
    ensures forall i | i in s.info && i != s.vvNew[b][p] ::
              i in ClearNew(s, b, p).info && SameButPos(s.info[i], ClearNew(s, b, p).info[i])
  {
    hide Rest, RandomOk;
    assert Shape(s.vvNew, c.newBuckets, c.bucketSize) by { RestShapes(c, s, exempt, owed); }
    var id := s.vvNew[b][p];
    if id == EMPTY {
      PutSame(s.vvNew, b, p);
    } else {
      UnrefKeeps(c, s, b, p, exempt, owed);
      var u := Unref(s, b, p);
      if s.info[id].refCount == 1 {
        assert !u.info[id].inTried by { RestSlot(c, s, b, p, exempt, owed); }
        DeleteKeeps(c, u, id, exempt + {id}, owed);
        assert exempt + {id} - {id} == exempt;
      } else {
        RestCounted(c, u, id, exempt, owed);
      }
    }
  }

  lemma RestShapes(c: Config, s: Tables, exempt: set<int>, owed: int)
    requires Rest(c, s, exempt, owed)
    ensures c.Ok() && Shape(s.vvNew, c.newBuckets, c.bucketSize) && Shape(s.vvTried, c.triedBuckets, c.bucketSize)
  {
  }

  lemma RestSlot(c: Config, s: Tables, b: nat, p: nat, exempt: set<int>, owed: int)
    requires Rest(c, s, exempt, owed) && b < c.newBuckets && p < c.bucketSize && s.vvNew[b][p] != EMPTY
    ensures s.vvNew[b][p] in s.info && !s.info[s.vvNew[b][p]].inTried
  {
  }

  lemma RestCounted(c: Config, s: Tables, id: int, exempt: set<int>, owed: int)
    requires Rest(c, s, exempt + {id}, owed) && id in s.info && s.info[id].refCount > 0
    ensures Rest(c, s, exempt, owed)
  {
  }
}
