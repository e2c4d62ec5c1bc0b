/** Moving entries between the "new" and the "tried" table. */
module AddrMoves {
  import opened AddrTables

  // ----- removing an entry from every "new" bucket

  function PurgeRow(c: Config, row: seq<int>, b: nat, svc: Service, id: int): seq<int>
    requires c.Ok() && |row| == c.bucketSize
  {
    var p := c.Position(true, b, svc);
    if row[p] == id then row[p := EMPTY] else row
  }

  /** The "new" table with `id` removed from the buckets below `upto`. */
  function Purge(c: Config, t: Table, svc: Service, id: int, upto: nat): (t': Table)
    requires c.Ok() && Shape(t, c.newBuckets, c.bucketSize) && upto <= c.newBuckets
    ensures Shape(t', c.newBuckets, c.bucketSize)
    ensures forall b: nat, q: nat | b < c.newBuckets && q < c.bucketSize ::
              t'[b][q] == if b < upto && t[b][q] == id && q == c.Position(true, b, svc) then EMPTY else t[b][q]
  {
    seq(|t|, b requires 0 <= b < |t| => if b < upto then PurgeRow(c, t[b], b, svc, id) else t[b])
  }

  lemma PurgeStep(c: Config, t: Table, svc: Service, id: int, b: nat)
    requires c.Ok() && Shape(t, c.newBuckets, c.bucketSize) && b < c.newBuckets
    ensures var u, p := Purge(c, t, svc, id, b), c.Position(true, b, svc);
            Purge(c, t, svc, id, b + 1) == if u[b][p] == id then Put(u, b, p, EMPTY) else u
  {
    var u, p := Purge(c, t, svc, id, b), c.Position(true, b, svc);
    var v := if u[b][p] == id then Put(u, b, p, EMPTY) else u;
    var w := Purge(c, t, svc, id, b + 1);
    forall r | 0 <= r < |w| ensures w[r] == v[r] {}
  }

  lemma SlotsAfterPurge(c: Config, t: Table, svc: Service, id: int, s: Service, i: int)
    requires c.Ok() && Shape(t, c.newBuckets, c.bucketSize) && i != EMPTY && id != EMPTY && (i == id ==> s == svc)
    ensures Slots(c, Purge(c, t, svc, id, c.newBuckets), s, i) == if i == id then {} else Slots(c, t, s, i)
  {
  }

  function Detach(c: Config, s: Tables, id: int): Tables
    requires c.Ok() && Shape(s.vvNew, c.newBuckets, c.bucketSize) && id in s.info
  {
    s.(vvNew := Purge(c, s.vvNew, s.info[id].service, id, c.newBuckets),
       info := s.info[id := s.info[id].(refCount := 0)], nNew := s.nNew - 1)
  }

  lemma DetachKeeps(c: Config, s: Tables, id: int)
    requires Core(c, s, {}, 0) && id in s.info && !s.info[id].inTried
    ensures Core(c, Detach(c, s, id), {id}, 1)
  {
    var svc := s.info[id].service;
    var t := Purge(c, s.vvNew, svc, id, c.newBuckets);
    forall i | i in s.info && i != id ensures RefEntry(c, s.info[i], i, t, {id}) {
      assert RefEntry(c, s.info[i], i, s.vvNew, {});
      SlotsAfterPurge(c, s.vvNew, svc, id, s.info[i].service, i);
    }
    SlotsAfterPurge(c, s.vvNew, svc, id, svc, id);
    assert RefEntry(c, s.info[id].(refCount := 0), id, t, {id});
    hide Slots, RefEntry;
    assert Base(c, s.(vvNew := t), 0) by { PurgeKeepsBase(c, s, id); }
    hide Base;
    assert RandomOk(s.info, s.random);
    hide RandomOk;
    WithRefKeeps(c, s.(vvNew := t), id, 0, 0);
    OwedShift(c, WithRef(s.(vvNew := t), id, 0), 0, -1);
  }

  lemma PurgeKeepsBase(c: Config, s: Tables, id: int)
    requires Base(c, s, 0) && id in s.info
    ensures Base(c, s.(vvNew := Purge(c, s.vvNew, s.info[id].service, id, c.newBuckets)), 0)
  {
    var t := Purge(c, s.vvNew, s.info[id].service, id, c.newBuckets);
    forall b: nat, p: nat | b < c.newBuckets && p < c.bucketSize && t[b][p] != EMPTY
      ensures NewSlot(c, s.info, t[b][p], b, p)
    {
      assert t[b][p] == s.vvNew[b][p];
    }
  }

  lemma OwedShift(c: Config, s: Tables, owed: int, k: int)
    requires Base(c, s, owed)
    ensures Base(c, s.(nNew := s.nNew + k), owed - k)
  {
  }

  /** Setting one entry's "in tried" flag. */
  lemma FlagKeeps(s: Tables, id: int, flag: bool)
    requires RandomOk(s.info, s.random) && AddrOk(s.info, s.addr) && TimesOk(s.info) && IdsOk(s)
    requires id in s.info && (flag ==> s.info[id].lastSuccess > 0)
    ensures var info' := s.info[id := s.info[id].(inTried := flag)];
            && RandomOk(info', s.random) && AddrOk(info', s.addr) && TimesOk(info') && IdsOk(s.(info := info'))
            && NewIds(info') == (if flag then NewIds(s.info) - {id} else NewIds(s.info) + {id})
            && TriedIds(info') == (if flag then TriedIds(s.info) + {id} else TriedIds(s.info) - {id})
  {
  }

  lemma FlagRefs(c: Config, info: map<int, AddrInfo>, t: Table, id: int, flag: bool, exempt: set<int>)
    requires c.Ok() && Shape(t, c.newBuckets, c.bucketSize) && RefOk(c, info, t, exempt) && id in info
    ensures RefOk(c, info[id := info[id].(inTried := flag)], t, if flag then exempt - {id} else exempt + {id})
  {
    forall i | i in info && i != id ensures RefEntry(c, info[i], i, t, if flag then exempt - {id} else exempt + {id}) {
      assert RefEntry(c, info[i], i, t, exempt);
    }
  }

  // ----- taking an entry out of the "tried" table

  function Demote(c: Config, s: Tables, id: int): Tables
    requires c.Ok() && Shape(s.vvTried, c.triedBuckets, c.bucketSize) && id in s.info
  {
    var svc := s.info[id].service;
    s.(vvTried := Put(s.vvTried, c.TriedBucket(svc), c.TriedPos(svc), EMPTY),
       info := s.info[id := s.info[id].(inTried := false)], nTried := s.nTried - 1)
  }

  lemma DemoteTables(c: Config, info: map<int, AddrInfo>, new_: Table, tried: Table, id: int)
    requires c.Ok() && NewOk(c, info, new_) && TriedOk(c, info, tried)
    requires id in info && info[id].inTried && id != EMPTY
    ensures var svc := info[id].service; var info' := info[id := info[id].(inTried := false)];
            NewOk(c, info', new_) && TriedOk(c, info', Put(tried, c.TriedBucket(svc), c.TriedPos(svc), EMPTY))
  {
    var svc := info[id].service;
    var info' := info[id := info[id].(inTried := false)];
    var tried' := Put(tried, c.TriedBucket(svc), c.TriedPos(svc), EMPTY);
    assert HasTriedSlot(c, tried, svc, id);
    forall b: nat, p: nat | b < c.newBuckets && p < c.bucketSize && new_[b][p] != EMPTY
      ensures NewSlot(c, info', new_[b][p], b, p)
    {
      assert NewSlot(c, info, new_[b][p], b, p);
    }
    forall b: nat, p: nat | b < c.triedBuckets && p < c.bucketSize && tried'[b][p] != EMPTY
      ensures TriedSlot(c, info', tried'[b][p], b, p)
    {
      assert TriedSlot(c, info, tried[b][p], b, p);
    }
    forall i | i in info' && info'[i].inTried ensures HasTriedSlot(c, tried', info'[i].service, i) {
      assert HasTriedSlot(c, tried, info[i].service, i);
    }
  }

  lemma DemoteKeeps(c: Config, s: Tables, id: int, exempt: set<int>, owed: int)
    requires Core(c, s, exempt, owed) && id in s.info && s.info[id].inTried
    ensures Core(c, Demote(c, s, id), exempt + {id}, owed + 1)
  {
    FlagRefs(c, s.info, s.vvNew, id, false, exempt);
    DemoteTables(c, s.info, s.vvNew, s.vvTried, id);
    FlagKeeps(s, id, false);
    hide Slots, RefOk, NewOk, TriedOk, RandomOk, AddrOk, TimesOk, IdsOk;
    assert id in TriedIds(s.info);
  }

  // ----- one more "new" slot for an entry

  function Reference(s: Tables, id: int, b: nat, p: nat): Tables
    requires id in s.info && b < |s.vvNew| && p < |s.vvNew[b]|
  {
    s.(vvNew := Put(s.vvNew, b, p, id),
       info := s.info[id := s.info[id].(refCount := s.info[id].refCount + 1)])
  }

  lemma ReferenceKeepsRef(c: Config, info: map<int, AddrInfo>, t: Table, id: int, b: nat, i: int, exempt: set<int>)
    requires c.Ok() && NewOk(c, info, t) && id in info && i in info && b < c.newBuckets && i != EMPTY
    requires t[b][c.Position(true, b, info[id].service)] == EMPTY && info[id].refCount < NEW_BUCKETS_PER_ADDRESS
    requires RefEntry(c, info[i], i, t, exempt)
    ensures var t' := Put(t, b, c.Position(true, b, info[id].service), id);
            RefEntry(c, if i == id then info[i].(refCount := info[i].refCount + 1) else info[i], i, t', exempt - {id})
  {
    var p := c.Position(true, b, info[id].service);
    SlotsAfterPut(c, t, b, p, id, info[i].service, i);
    var held := Slots(c, t, info[i].service, i);
    assert c.Position(true, b, info[i].service) == p ==> b !in held;
    assert b !in held ==> held - {b} == held;
  }

  lemma ReferenceKeepsRefs(c: Config, info: map<int, AddrInfo>, t: Table, id: int, b: nat, exempt: set<int>)
    requires c.Ok() && NewOk(c, info, t) && id in info && b < c.newBuckets && EMPTY !in info
    requires t[b][c.Position(true, b, info[id].service)] == EMPTY && info[id].refCount < NEW_BUCKETS_PER_ADDRESS
    requires RefOk(c, info, t, exempt)
    ensures RefOk(c, info[id := info[id].(refCount := info[id].refCount + 1)],
                  Put(t, b, c.Position(true, b, info[id].service), id), exempt - {id})
  {
    hide RefEntry;
    forall i | i in info
      ensures RefEntry(c, if i == id then info[i].(refCount := info[i].refCount + 1) else info[i], i,
                       Put(t, b, c.Position(true, b, info[id].service), id), exempt - {id})
    {
      ReferenceKeepsRef(c, info, t, id, b, i, exempt);
    }
  }

  lemma ReferenceKeepsBase(c: Config, s: Tables, id: int, b: nat, p: nat, owed: int)
    requires Base(c, s, owed) && b < c.newBuckets && p < c.bucketSize && NewSlot(c, s.info, id, b, p)
    ensures Base(c, s.(vvNew := Put(s.vvNew, b, p, id)), owed)
  {
  }

  lemma ReferenceKeeps(c: Config, s: Tables, id: int, b: nat, exempt: set<int>, owed: int)
    requires Core(c, s, exempt, owed) && id in s.info && !s.info[id].inTried && b < c.newBuckets
    requires s.vvNew[b][c.Position(true, b, s.info[id].service)] == EMPTY
    requires s.info[id].refCount < NEW_BUCKETS_PER_ADDRESS
    ensures Core(c, Reference(s, id, b, c.Position(true, b, s.info[id].service)), exempt - {id}, owed)
  {
    var p := c.Position(true, b, s.info[id].service);
    var t := Put(s.vvNew, b, p, id);
    ReferenceKeepsRefs(c, s.info, s.vvNew, id, b, exempt);
    ReferenceKeepsBase(c, s, id, b, p, owed);
    hide Base, RefOk, RandomOk;
    WithRefKeeps(c, s.(vvNew := t), id, s.info[id].refCount + 1, owed);
  }

  // ----- entering the "tried" table

  function Promote(c: Config, s: Tables, id: int): Tables
    requires c.Ok() && Shape(s.vvTried, c.triedBuckets, c.bucketSize) && id in s.info
  {
    var svc := s.info[id].service;
    s.(vvTried := Put(s.vvTried, c.TriedBucket(svc), c.TriedPos(svc), id),
       info := s.info[id := s.info[id].(inTried := true)], nTried := s.nTried + 1)
  }

  lemma PromoteTables(c: Config, info: map<int, AddrInfo>, new_: Table, tried: Table, id: int)
    requires c.Ok() && NewOk(c, info, new_) && TriedOk(c, info, tried)
    requires id in info && Slots(c, new_, info[id].service, id) == {} && !Occupied(c, tried, info[id].service)
    requires EMPTY !in info
    ensures var svc := info[id].service; var info' := info[id := info[id].(inTried := true)];
            NewOk(c, info', new_) && TriedOk(c, info', Put(tried, c.TriedBucket(svc), c.TriedPos(svc), id))
  {
    var svc := info[id].service;
    var info' := info[id := info[id].(inTried := true)];
    var tried' := Put(tried, c.TriedBucket(svc), c.TriedPos(svc), id);
    forall b: nat, p: nat | b < c.newBuckets && p < c.bucketSize && new_[b][p] != EMPTY
      ensures NewSlot(c, info', new_[b][p], b, p)
    {
      assert NewSlot(c, info, new_[b][p], b, p);
      assert b !in Slots(c, new_, svc, id);
    }
    forall b: nat, p: nat | b < c.triedBuckets && p < c.bucketSize && tried'[b][p] != EMPTY
      ensures TriedSlot(c, info', tried'[b][p], b, p)
    {
      if b != c.TriedBucket(svc) || p != c.TriedPos(svc) { assert TriedSlot(c, info, tried[b][p], b, p); }
    }
    forall i | i in info' && info'[i].inTried ensures HasTriedSlot(c, tried', info'[i].service, i) {
      if i != id { assert HasTriedSlot(c, tried, info[i].service, i); }
    }
  }

  lemma PromoteKeeps(c: Config, s: Tables, id: int, exempt: set<int>, owed: int)
    requires Core(c, s, exempt, owed) && id in s.info && !s.info[id].inTried
    requires s.info[id].refCount == 0 && s.info[id].lastSuccess > 0 && !Occupied(c, s.vvTried, s.info[id].service)
    ensures Core(c, Promote(c, s, id), exempt - {id}, owed - 1)
  {
    assert RefEntry(c, s.info[id], id, s.vvNew, exempt);
    PromoteTables(c, s.info, s.vvNew, s.vvTried, id);
    FlagRefs(c, s.info, s.vvNew, id, true, exempt);
    FlagKeeps(s, id, true);
    hide Slots, RefOk, NewOk, TriedOk, RandomOk, AddrOk, TimesOk, IdsOk;
    assert id in NewIds(s.info);
  }
}
