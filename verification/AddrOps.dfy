/** MakeTried: promoting an entry, with the eviction of the slot's previous occupant. */
module AddrOps {
  import opened Prelude
  import opened AddrTables
  import opened AddrMoves

  // ----- how the state may change from one operation to the next

  /** Ids are not reused, an entry keeps its address, and an occupied "tried" slot stays occupied. */
  ghost predicate Evolves(s: Tables, s': Tables) {
    && s.idCount <= s'.idCount
    && (forall i | i in s'.info :: KeepsService(s, s', i))
    && StaysOccupied(s.vvTried, s'.vvTried)
  }

  ghost predicate KeepsService(s: Tables, s': Tables, i: int)
    requires i in s'.info
  {
    i >= s.idCount || (i in s.info && s.info[i].service == s'.info[i].service)
  }

  ghost predicate StaysOccupied(t: Table, t': Table) {
    && |t| == |t'|
    && (forall b | 0 <= b < |t| :: |t[b]| == |t'[b]|)
    && (forall b, p | 0 <= b < |t| && 0 <= p < |t[b]| && t[b][p] != EMPTY :: t'[b][p] != EMPTY)
  }

  lemma EvolvesTrans(s: Tables, s': Tables, s'': Tables)
    requires Evolves(s, s') && Evolves(s', s'') && forall i | i in s'.info :: i < s'.idCount
    ensures Evolves(s, s'')
  {
    assert StaysOccupied(s.vvTried, s''.vvTried);
    forall i | i in s''.info ensures KeepsService(s, s'', i) {
      assert KeepsService(s', s'', i);
      if i < s'.idCount { assert KeepsService(s, s', i); }
    }
  }

  lemma CollisionsCarryOver(c: Config, s: Tables, s': Tables)
    requires c.Ok() && Shape(s.vvTried, c.triedBuckets, c.bucketSize) && Shape(s'.vvTried, c.triedBuckets, c.bucketSize)
    requires CollisionsOk(c, s) && Evolves(s, s') && s'.collisions <= s.collisions
    ensures CollisionsOk(c, s')
  {
    SubsetSize(s'.collisions, s.collisions);
    forall i | i in s'.collisions && i in s'.info ensures Occupied(c, s'.vvTried, s'.info[i].service) {
      assert KeepsService(s, s', i);
      assert Occupied(c, s.vvTried, s.info[i].service);
    }
  }

  lemma CoreShapes(c: Config, s: Tables, exempt: set<int>, owed: int)
    requires Core(c, s, exempt, owed)
    ensures c.Ok() && Shape(s.vvNew, c.newBuckets, c.bucketSize) && Shape(s.vvTried, c.triedBuckets, c.bucketSize)
    ensures EMPTY !in s.info && forall i | i in s.info :: 0 <= i < s.idCount
  {
  }

  // ----- MakeTried

  function HomeBucket(c: Config, e: AddrInfo): nat
    requires c.Ok()
  {
    c.NewBucket(e.service, e.source)
  }

  /** The occupant of a "tried" slot goes back to the "new" slot its own source selects. */
  ghost function Evict(c: Config, s: Tables, ev: int, id: int): Tables
    requires Core(c, s, {id}, 1) && ev in s.info && s.info[ev].inTried && id in s.info && s.info[id].refCount == 0
  {
    EvictStep(c, s, ev, id);
    var b := HomeBucket(c, s.info[ev]);
    var p := c.Position(true, b, s.info[ev].service);
    var t := ClearNew(Demote(c, s, ev), b, p);
    Reference(t.(nNew := t.nNew + 1), ev, b, p)
  }

  lemma NotInNew(c: Config, s: Tables, i: int, exempt: set<int>, owed: int)
    requires Core(c, s, exempt, owed) && i in s.info && s.info[i].refCount == 0
    ensures forall b: nat, p: nat | b < c.newBuckets && p < c.bucketSize :: s.vvNew[b][p] != i
  {
    assert RefEntry(c, s.info[i], i, s.vvNew, exempt);
    NoSlots(c, s.info, s.vvNew, i);
  }

  lemma TriedHasNoRefs(c: Config, s: Tables, i: int, exempt: set<int>, owed: int)
    requires Core(c, s, exempt, owed) && i in s.info && s.info[i].inTried
    ensures s.info[i].refCount == 0
  {
    assert RefEntry(c, s.info[i], i, s.vvNew, exempt);
    TriedHasNoSlots(c, s.info, s.vvNew, i);
  }

  lemma EvictStep(c: Config, s: Tables, ev: int, id: int)
    requires Core(c, s, {id}, 1) && ev in s.info && s.info[ev].inTried && id in s.info && s.info[id].refCount == 0
    ensures c.Ok() && Shape(s.vvNew, c.newBuckets, c.bucketSize) && Shape(s.vvTried, c.triedBuckets, c.bucketSize)
    ensures var b := HomeBucket(c, s.info[ev]); var p := c.Position(true, b, s.info[ev].service);
            var d := Demote(c, s, ev);
            && Clearable(d, b, p)
            && var t := ClearNew(d, b, p);
               && ev in t.info && SameButPos(s.info[ev].(inTried := false), t.info[ev]) && t.info[ev].refCount == 0
               && s.vvNew[b][p] != id
               && (forall i | i in s.info && i != ev && i != s.vvNew[b][p] ::
                 i in t.info && SameButPos(s.info[i], t.info[i]))
               && Core(c, t, {id, ev}, 2)
               && t.vvNew == Put(s.vvNew, b, p, EMPTY) && t.vvTried == d.vvTried
  {
    CoreShapes(c, s, {id}, 1);
    TriedHasNoRefs(c, s, ev, {id}, 1);
    NotInNew(c, s, ev, {id}, 1);
    NotInNew(c, s, id, {id}, 1);
    hide Core;
    var b := HomeBucket(c, s.info[ev]);
    var p := c.Position(true, b, s.info[ev].service);
    DemoteKeeps(c, s, ev, {id}, 1);
    assert {id} + {ev} == {id, ev};
    var d := Demote(c, s, ev);
    assert d.vvNew[b][p] !in {id, ev};
    ClearNewKeeps(c, d, b, p, {id, ev}, 2);
    ClearNewLeavesTried(d, b, p);
    hide ClearNew, Clearable;
  }

  lemma ClearNewLeavesTried(s: Tables, b: nat, p: nat)
    requires Clearable(s, b, p)
    ensures ClearNew(s, b, p).vvTried == s.vvTried && ClearNew(s, b, p).nTried == s.nTried
  {
  }

  lemma EvictKeeps(c: Config, s: Tables, ev: int, id: int)
    requires Core(c, s, {id}, 1) && ev in s.info && s.info[ev].inTried && id in s.info && s.info[id].refCount == 0
             && id != ev
    ensures var t := Evict(c, s, ev, id); Core(c, t, {id}, 1) && id in t.info && SameButPos(s.info[id], t.info[id])
  {
    hide Core, ClearNew, Demote, Clearable;
    EvictStep(c, s, ev, id);
    var b := HomeBucket(c, s.info[ev]);
    var p := c.Position(true, b, s.info[ev].service);
    var t := ClearNew(Demote(c, s, ev), b, p);
    var u := t.(nNew := t.nNew + 1);
    CoreOwed(c, t, {id, ev}, 2, 1);
    ReferenceKeeps(c, u, ev, b, {id, ev}, 1);
    assert {id, ev} - {ev} == {id};
  }

  lemma CoreOwed(c: Config, s: Tables, exempt: set<int>, owed: int, k: int)
    requires Core(c, s, exempt, owed)
    ensures Core(c, s.(nNew := s.nNew + k), exempt, owed - k)
  {
    OwedShift(c, s, owed, k);
  }

  ghost function MakeTried(c: Config, s: Tables, id: int): Tables
    requires Core(c, s, {}, 0) && id in s.info && !s.info[id].inTried
  {
    CoreShapes(c, s, {}, 0);
    DetachKeeps(c, s, id);
    var d := Detach(c, s, id);
    var svc := s.info[id].service;
    var ev := s.vvTried[c.TriedBucket(svc)][c.TriedPos(svc)];
    if ev == EMPTY then Promote(c, d, id)
    else
      TriedOccupant(c, d, c.TriedBucket(svc), c.TriedPos(svc), {id}, 1);
      EvictKeeps(c, d, ev, id);
      var e := Evict(c, d, ev, id);
      CoreShapes(c, e, {id}, 1);
      Promote(c, e, id)
  }

  lemma TriedOccupant(c: Config, s: Tables, b: nat, p: nat, exempt: set<int>, owed: int)
    requires Core(c, s, exempt, owed) && b < c.triedBuckets && p < c.bucketSize && s.vvTried[b][p] != EMPTY
    ensures TriedSlot(c, s.info, s.vvTried[b][p], b, p)
  {
  }

  /** MakeTried keeps the invariant, overwrites exactly its own "tried" slot and leaves the
      previous occupant in the "new" table with a single reference. */
  lemma MakeTriedKeeps(c: Config, s: Tables, id: int)
    requires Core(c, s, {}, 0) && id in s.info && !s.info[id].inTried && s.info[id].lastSuccess > 0
    ensures var svc := s.info[id].service; var t := MakeTried(c, s, id);
            && c.Ok() && Shape(s.vvTried, c.triedBuckets, c.bucketSize)
            && Core(c, t, {}, 0)
            && t.vvTried == Put(s.vvTried, c.TriedBucket(svc), c.TriedPos(svc), id)
  {
    CoreShapes(c, s, {}, 0);
    DetachKeeps(c, s, id);
    var d := Detach(c, s, id);
    var svc := s.info[id].service;
    var kb, kp := c.TriedBucket(svc), c.TriedPos(svc);
    var ev := s.vvTried[kb][kp];
    assert {id} - {id} == {};
    if ev == EMPTY {
      hide Core;
      PromoteKeeps(c, d, id, {id}, 1);
    } else {
      TriedOccupant(c, d, kb, kp, {id}, 1);
      EvictKeeps(c, d, ev, id);
      EvictStep(c, d, ev, id);
      hide Core;
      var e := Evict(c, d, ev, id);
      PutPut(d.vvTried, kb, kp, EMPTY, id);
      PromoteKeeps(c, e, id, {id}, 1);
    }
  }

  lemma PutPut(t: Table, b: nat, p: nat, x: int, y: int)
    requires b < |t| && p < |t[b]|
    ensures Put(Put(t, b, p, x), b, p, y) == Put(t, b, p, y)
  {
    assert t[b][p := x][p := y] == t[b][p := y];
  }

  /** Nothing appears, and what remains keeps its address. */
  ghost predicate Shrinks(s: Tables, t: Tables) {
    && t.idCount == s.idCount && t.collisions == s.collisions && t.lastGood == s.lastGood
    && (forall i | i in t.info :: i in s.info && t.info[i].service == s.info[i].service)
  }

  lemma ClearNewShrinks(s: Tables, b: nat, p: nat)
    requires Clearable(s, b, p)
    ensures Shrinks(s, ClearNew(s, b, p))
  {
  }

  lemma EvictShrinks(c: Config, s: Tables, ev: int, id: int)
    requires Core(c, s, {id}, 1) && ev in s.info && s.info[ev].inTried && id in s.info && s.info[id].refCount == 0
    ensures Shrinks(s, Evict(c, s, ev, id))
  {
    hide Core;
    EvictStep(c, s, ev, id);
    var b := HomeBucket(c, s.info[ev]);
    var p := c.Position(true, b, s.info[ev].service);
    ClearNewShrinks(Demote(c, s, ev), b, p);
    hide ClearNew, Clearable;
  }

  lemma MakeTriedShrinks(c: Config, s: Tables, id: int)
    requires Core(c, s, {}, 0) && id in s.info && !s.info[id].inTried
    ensures Shrinks(s, MakeTried(c, s, id))
  {
    CoreShapes(c, s, {}, 0);
    DetachKeeps(c, s, id);
    var d := Detach(c, s, id);
    var svc := s.info[id].service;
    var kb, kp := c.TriedBucket(svc), c.TriedPos(svc);
    var ev := s.vvTried[kb][kp];
    if ev != EMPTY {
      TriedOccupant(c, d, kb, kp, {id}, 1);
      EvictShrinks(c, d, ev, id);
      EvictKeeps(c, d, ev, id);
      hide Core, Evict;
    }
  }

  /** The entry moves to "tried" with its history; the previous occupant of the slot returns to
      the "new" slot its source selects, with one reference; only the entry that held that slot
      may lose a reference; everything else keeps its data. */
  lemma MakeTriedEntries(c: Config, s: Tables, id: int)
    requires Core(c, s, {}, 0) && id in s.info && !s.info[id].inTried
    ensures c.Ok() && Shape(s.vvNew, c.newBuckets, c.bucketSize) && Shape(s.vvTried, c.triedBuckets, c.bucketSize)
    ensures var svc := s.info[id].service; var t := MakeTried(c, s, id);
            var ev := s.vvTried[c.TriedBucket(svc)][c.TriedPos(svc)];
            && id in t.info && SameButPos(s.info[id].(inTried := true, refCount := 0), t.info[id])
            && (ev == EMPTY ==>
                  && t.vvNew == Purge(c, s.vvNew, svc, id, c.newBuckets)
                  && forall i | i in s.info && i != id :: i in t.info && SameButPos(s.info[i], t.info[i]))
            && (ev != EMPTY ==> ev in s.info && Displaced(c, Detach(c, s, id), t, ev, id))
  {
    CoreShapes(c, s, {}, 0);
    DetachKeeps(c, s, id);
    var d := Detach(c, s, id);
    var svc := s.info[id].service;
    var kb, kp := c.TriedBucket(svc), c.TriedPos(svc);
    var ev := s.vvTried[kb][kp];
    hide Core;
    if ev != EMPTY {
      TriedOccupant(c, d, kb, kp, {id}, 1);
      EvictKeeps(c, d, ev, id);
      EvictDisplaces(c, d, ev, id);
      hide Evict;
    }
  }

  ghost predicate Displaced(c: Config, s: Tables, t: Tables, ev: int, id: int)
    requires c.Ok() && Shape(s.vvNew, c.newBuckets, c.bucketSize) && ev in s.info
  {
    var b := HomeBucket(c, s.info[ev]);
    var p := c.Position(true, b, s.info[ev].service);
    && ev in t.info && SameButPos(s.info[ev].(inTried := false, refCount := 1), t.info[ev])
    && t.vvNew == Put(s.vvNew, b, p, ev)
    && (forall i | i in s.info && i != ev && i != id && i != s.vvNew[b][p] ::
          i in t.info && SameButPos(s.info[i], t.info[i]))
  }

  lemma EvictDisplaces(c: Config, s: Tables, ev: int, id: int)
    requires Core(c, s, {id}, 1) && ev in s.info && s.info[ev].inTried && id in s.info && s.info[id].refCount == 0
             && id != ev
    ensures c.Ok() && Shape(s.vvNew, c.newBuckets, c.bucketSize)
    ensures Displaced(c, s, Evict(c, s, ev, id), ev, id)
  {
    hide Core, ClearNew, Clearable, Demote;
    EvictStep(c, s, ev, id);
    var b := HomeBucket(c, s.info[ev]);
    PutPut(s.vvNew, b, c.Position(true, b, s.info[ev].service), EMPTY, ev);
  }
}
