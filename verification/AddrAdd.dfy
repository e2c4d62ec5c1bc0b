/** What adding an address that is not yet known comes to. */
module AddrAdd {
  import opened Prelude
  import opened AddrTables
  import opened AddrOps
  import opened AddrRuns

  /** The entry in the slot that an address from this source goes to, or none. */
  ghost function Target(c: Config, t: Table, svc: Service, source: NetAddr): int
    requires c.Ok() && Shape(t, c.newBuckets, c.bucketSize)
  {
    var b := c.NewBucket(svc, source);
    t[b][c.Position(true, b, svc)]
  }

  /** The occupant is none, is terrible, or has another slot to fall back on. */
  predicate MakesRoom(s: Tables, cur: int, now: int) {
    cur == EMPTY || (cur in s.info && (IsTerrible(s.info[cur], now) || s.info[cur].refCount > 1))
  }

  /** The entry a new address gets. */
  function NewEntry(a: Address, source: NetAddr, penalty: int): AddrInfo {
    FreshInfo(a, source).(nTime := U32(Max(0, a.nTime - penalty)), refCount := 1)
  }

  /** An unknown address is always reported as new. It is known afterwards exactly when its slot makes
      room; otherwise every entry and every slot is as before. */
  lemma AddUnknown(c: Config, s: Tables, a: Address, source: NetAddr, penalty: int, now: int, now': int, lucky: bool)
    requires Inv(c, s) && c.isRoutable(a.service.net) && Find(s, a.service.net).None?
    ensures c.Ok() && Shape(s.vvNew, c.newBuckets, c.bucketSize)
    ensures var (t, isNew) := Add(c, s, a, source, penalty, now, now', lucky);
            isNew && (Find(t, a.service.net).Some? <==> MakesRoom(s, Target(c, s.vvNew, a.service, source), now'))
    ensures var (t, isNew) := Add(c, s, a, source, penalty, now, now', lucky);
            if MakesRoom(s, Target(c, s.vvNew, a.service, source), now')
            then && s.idCount in t.info && SameButPos(NewEntry(a, source, penalty), t.info[s.idCount])
                 && Shape(t.vvNew, c.newBuckets, c.bucketSize) && Target(c, t.vvNew, a.service, source) == s.idCount
            else SameInfo(s.info, t.info) && t.vvNew == s.vvNew
  {
    CoreShapes(c, s, {}, 0);
    EnrolledKeeps(c, s, a, source, penalty);
    AddKeeps(c, s, a, source, penalty, now, now', lucky);
    var t := Add(c, s, a, source, penalty, now, now', lucky).0;
    assert t == Insert(c, Enrolled(s, a, source, penalty), s.idCount, source, now');
    PlaceNew(c, s, a, source, penalty, now');
    FindExact(c, s, a.service.net);
    FindExact(c, t, a.service.net);
    hide Core, Inv, Insert, Add, Find, Enrolled, MakesRoom;
  }

  /** The same for the second half alone. */
  lemma PlaceNew(c: Config, s: Tables, a: Address, source: NetAddr, penalty: int, now: int)
    requires Core(c, s, {}, 0) && Find(s, a.service.net).None?
    requires Core(c, Enrolled(s, a, source, penalty), {s.idCount}, 0)
    ensures c.Ok() && Shape(s.vvNew, c.newBuckets, c.bucketSize)
    ensures var t := Insert(c, Enrolled(s, a, source, penalty), s.idCount, source, now);
            if MakesRoom(s, Target(c, s.vvNew, a.service, source), now)
            then && s.idCount in t.info && SameButPos(NewEntry(a, source, penalty), t.info[s.idCount])
                 && Shape(t.vvNew, c.newBuckets, c.bucketSize) && Target(c, t.vvNew, a.service, source) == s.idCount
            else SameInfo(s.info, t.info) && t.vvNew == s.vvNew
  {
    CoreShapes(c, s, {}, 0);
    var s1, id := Enrolled(s, a, source, penalty), s.idCount;
    var b := c.NewBucket(a.service, source);
    var p := c.Position(true, b, a.service);
    var cur := s.vvNew[b][p];
    NewOccupant(c, s, b, p, {}, 0);
    hide Core, Insert, IsTerrible;
    assert GivesWay(s1, cur, id, now) <==> MakesRoom(s, cur, now);
    hide GivesWay, MakesRoom;
    if GivesWay(s1, cur, id, now) {
      InsertTakesSlot(c, s1, id, source, now, b, p, cur);
    } else {
      InsertStaysOut(c, s1, id, source, now, b, p, cur);
      assert s1.info - {id} == s.info;
    }
  }

  /** A manager with one "new" slot, and one address heard of at time `now` in it. */
  function OneSlot(c: Config, a: Address, source: NetAddr, now: nat): Tables {
    Initial(c).(
      idCount := 1, info := map[0 := NewEntry(a, source, 0).(nTime := now, randomPos := 0)],
      addr := map[a.service.net := 0], random := [0], nNew := 1, vvNew := [[0]])
  }

  lemma OneSlotInv(c: Config, a: Address, source: NetAddr, now: nat)
    requires c.Ok() && c.newBuckets == 1 && c.bucketSize == 1
    ensures Inv(c, OneSlot(c, a, source, now))
  {
    var s := OneSlot(c, a, source, now);
    assert NewIds(s.info) == {0} && TriedIds(s.info) == {};
    assert Slots(c, s.vvNew, a.service, 0) == {0};
  }

  /** There a second address is reported as new and not kept. */
  lemma NewYetDropped(c: Config, a: Address, other: Address, source: NetAddr, now: nat)
    requires c.Ok() && c.newBuckets == 1 && c.bucketSize == 1 && a.service.net != other.service.net
    requires c.isRoutable(other.service.net) && now > 0
    ensures var s := OneSlot(c, a, source, now);
            && Inv(c, s)
            && var (t, isNew) := Add(c, s, other, source, 0, now, now, false);
               isNew && Find(t, other.service.net).None?
  {
    OneSlotInv(c, a, source, now);
    var s := OneSlot(c, a, source, now);
    hide Inv, Add;
    AddUnknown(c, s, other, source, 0, now, now, false);
    assert Target(c, s.vvNew, other.service, source) == 0;
  }
}
