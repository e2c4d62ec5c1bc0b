/** The address manager's operations as functions of its state, and the invariant over every run.
    Clock readings and random outcomes are arguments. */
module AddrRuns {
  import opened Prelude
  import opened AddrTables
  import opened AddrMoves
  import opened AddrOps
  import opened Orders

  const GETADDR_MAX_PCT := 23
  const GETADDR_MAX := 2500
  const HOUR := 60 * 60
  const DAY := 24 * HOUR
  const REPLACEMENT_SECONDS := 4 * HOUR
  const HORIZON_DAYS := 30
  const RETRIES := 3
  const MAX_FAILURES := 10
  const MIN_FAIL_DAYS := 7
  const TWO32 := 0x1_0000_0000

  function Max(a: int, b: int): int { if a < b then b else a }

  /** Assigning a signed 64-bit time to the unsigned 32-bit field. */
  function U32(t: int): nat { t % TWO32 }

  predicate IsTerrible(e: AddrInfo, now: int) {
    if e.lastTry != 0 && e.lastTry >= now - 60 then false
    else
      || e.nTime > now + 10 * 60
      || e.nTime == 0 || now - e.nTime > HORIZON_DAYS * DAY
      || (e.lastSuccess == 0 && e.attempts >= RETRIES)
      || (now - e.lastSuccess > MIN_FAIL_DAYS * DAY && e.attempts >= MAX_FAILURES)
  }

  // ----- changing the data of an entry that no index depends on

  /** `e'` may replace `e` without touching any index. */
  predicate Refreshes(e: AddrInfo, e': AddrInfo) {
    && e'.service == e.service && e'.source == e.source && e'.refCount == e.refCount
    && e'.inTried == e.inTried && e'.randomPos == e.randomPos
    && e'.lastTry >= 0 && e'.lastSuccess >= 0 && (e'.inTried ==> e'.lastSuccess > 0)
  }

  lemma RefreshKeepsBase(c: Config, s: Tables, id: int, e: AddrInfo)
    requires Base(c, s, 0) && RandomOk(s.info, s.random) && id in s.info && Refreshes(s.info[id], e)
    ensures Base(c, s.(info := s.info[id := e]), 0) && RandomOk(s.info[id := e], s.random)
  {
    var info' := s.info[id := e];
    assert NewIds(info') == NewIds(s.info);
    assert TriedIds(info') == TriedIds(s.info);
  }

  lemma RefreshKeeps(c: Config, s: Tables, id: int, e: AddrInfo)
    requires Inv(c, s) && id in s.info && Refreshes(s.info[id], e)
    ensures Inv(c, s.(info := s.info[id := e]))
    ensures Evolves(s, s.(info := s.info[id := e]))
  {
    var t := s.(info := s.info[id := e]);
    assert RefOk(c, t.info, t.vvNew, {}) by {
      forall i | i in t.info ensures RefEntry(c, t.info[i], i, t.vvNew, {}) {
        assert RefEntry(c, s.info[i], i, s.vvNew, {});
      }
    }
    hide RefOk;
    CoreShapes(c, s, {}, 0);
    RefreshKeepsBase(c, s, id, e);
    hide Base, RandomOk;
    CollisionsCarryOver(c, s, t);
  }

  function Find(s: Tables, net: NetAddr): Option<int> {
    if net in s.addr && s.addr[net] in s.info then Some(s.addr[net]) else None
  }

  /** Find is exact: it returns the one entry with that network address, if there is one. */
  lemma FindExact(c: Config, s: Tables, net: NetAddr)
    requires Inv(c, s)
    ensures Find(s, net).None? ==> forall i | i in s.info :: s.info[i].service.net != net
    ensures Find(s, net).Some? ==> Find(s, net).value in s.info && s.info[Find(s, net).value].service.net == net
    ensures forall i | i in s.info :: Find(s, s.info[i].service.net) == Some(i)
  {
  }

  // ----- Good_

  function Succeeded(e: AddrInfo, time: int): AddrInfo {
    e.(lastSuccess := time, lastTry := time, attempts := 0)
  }

  ghost function Good(c: Config, s: Tables, svc: Service, testBeforeEvict: bool, time: int): Tables
    requires Inv(c, s) && time > 0
  {
    var s0 := s.(lastGood := time);
    match Find(s, svc.net)
    case None => s0
    case Some(id) =>
      if s.info[id].service != svc then s0
      else
        var s1 := s0.(info := s0.info[id := Succeeded(s0.info[id], time)]);
        LastGoodFree(c, s, time);
        RefreshKeeps(c, s0, id, Succeeded(s0.info[id], time));
        if s.info[id].inTried then s1 else Advance(c, s1, id, testBeforeEvict)
  }

  /** Move an entry to "tried", or note the collision when the slot is to be tested first. */
  ghost function Advance(c: Config, s: Tables, id: int, testBeforeEvict: bool): Tables
    requires Inv(c, s) && id in s.info && !s.info[id].inTried
  {
    if testBeforeEvict && Occupied(c, s.vvTried, s.info[id].service) then
      (if |s.collisions| < TRIED_COLLISION_SIZE then s.(collisions := s.collisions + {id}) else s)
    else MakeTried(c, s, id)
  }

  lemma AdvanceKeeps(c: Config, s: Tables, id: int, testBeforeEvict: bool)
    requires Inv(c, s) && id in s.info && !s.info[id].inTried && s.info[id].lastSuccess > 0
    ensures var t := Advance(c, s, id, testBeforeEvict); Inv(c, t) && Evolves(s, t)
    ensures !testBeforeEvict ==> Advance(c, s, id, testBeforeEvict).collisions == s.collisions
  {
    CoreShapes(c, s, {}, 0);
    EvolvesRefl(s);
    if testBeforeEvict && Occupied(c, s.vvTried, s.info[id].service) {
      if |s.collisions| < TRIED_COLLISION_SIZE { PendingKeeps(c, s, id); }
    } else {
      MakeTriedInv(c, s, id);
      MakeTriedShrinks(c, s, id);
      hide MakeTried, Core;
    }
  }

  lemma LastGoodFree(c: Config, s: Tables, time: int)
    requires Inv(c, s)
    ensures Inv(c, s.(lastGood := time)) && Evolves(s, s.(lastGood := time))
  {
  }

  lemma MakeTriedInv(c: Config, s: Tables, id: int)
    requires Inv(c, s) && id in s.info && !s.info[id].inTried && s.info[id].lastSuccess > 0
    ensures Inv(c, MakeTried(c, s, id)) && Evolves(s, MakeTried(c, s, id))
  {
    CoreShapes(c, s, {}, 0);
    MakeTriedKeeps(c, s, id);
    MakeTriedShrinks(c, s, id);
    var t := MakeTried(c, s, id);
    CoreShapes(c, t, {}, 0);
    hide Core, MakeTried;
    assert StaysOccupied(s.vvTried, t.vvTried);
    assert Evolves(s, t);
    CollisionsCarryOver(c, s, t);
  }

  /** Good_ keeps the invariant and never leaves an occupied "tried" slot empty. */
  lemma GoodKeeps(c: Config, s: Tables, svc: Service, testBeforeEvict: bool, time: int)
    requires Inv(c, s) && time > 0
    ensures Inv(c, Good(c, s, svc, testBeforeEvict, time))
    ensures Evolves(s, Good(c, s, svc, testBeforeEvict, time))
  {
    LastGoodFree(c, s, time);
    CoreShapes(c, s, {}, 0);
    var s0 := s.(lastGood := time);
    FindExact(c, s, svc.net);
    match Find(s, svc.net)
    case None =>
    case Some(id) =>
      if s.info[id].service == svc {
        var e := Succeeded(s0.info[id], time);
        RefreshKeeps(c, s0, id, e);
        var s1 := s0.(info := s0.info[id := e]);
        EvolvesTrans(s, s0, s1);
        if !s.info[id].inTried {
          AdvanceKeeps(c, s1, id, testBeforeEvict);
          hide Advance, Core;
          EvolvesTrans(s, s1, Advance(c, s1, id, testBeforeEvict));
        }
      }
  }

  lemma PendingKeeps(c: Config, s: Tables, id: int)
    requires Inv(c, s) && id in s.info && Occupied(c, s.vvTried, s.info[id].service)
    requires |s.collisions| < TRIED_COLLISION_SIZE
    ensures Inv(c, s.(collisions := s.collisions + {id}))
  {
  }

  // ----- Attempt_ and Connected_

  function Attempted(e: AddrInfo, countFailure: bool, lastGood: int, time: int): AddrInfo {
    var e1 := e.(lastTry := time);
    if countFailure && e.lastCountAttempt < lastGood
    then e1.(lastCountAttempt := time, attempts := e.attempts + 1)
    else e1
  }

  function Attempt(s: Tables, svc: Service, countFailure: bool, time: int): Tables {
    match Find(s, svc.net)
    case None => s
    case Some(id) =>
      if id !in s.info || s.info[id].service != svc then s
      else s.(info := s.info[id := Attempted(s.info[id], countFailure, s.lastGood, time)])
  }

  function Seen(e: AddrInfo, time: int): AddrInfo {
    if time - e.nTime > 20 * 60 then e.(nTime := U32(time)) else e
  }

  function Connected(s: Tables, svc: Service, time: int): Tables {
    match Find(s, svc.net)
    case None => s
    case Some(id) =>
      if id !in s.info || s.info[id].service != svc then s
      else s.(info := s.info[id := Seen(s.info[id], time)])
  }

  lemma EvolvesRefl(s: Tables)
    ensures Evolves(s, s)
  {
  }

  lemma AttemptKeeps(c: Config, s: Tables, svc: Service, countFailure: bool, time: int)
    requires Inv(c, s) && time > 0
    ensures Inv(c, Attempt(s, svc, countFailure, time)) && Evolves(s, Attempt(s, svc, countFailure, time))
  {
    EvolvesRefl(s);
    var f := Find(s, svc.net);
    if f.Some? && f.value in s.info && s.info[f.value].service == svc {
      RefreshKeeps(c, s, f.value, Attempted(s.info[f.value], countFailure, s.lastGood, time));
    }
  }

  lemma ConnectedKeeps(c: Config, s: Tables, svc: Service, time: int)
    requires Inv(c, s)
    ensures Inv(c, Connected(s, svc, time)) && Evolves(s, Connected(s, svc, time))
  {
    EvolvesRefl(s);
    var f := Find(s, svc.net);
    if f.Some? && f.value in s.info && s.info[f.value].service == svc {
      RefreshKeeps(c, s, f.value, Seen(s.info[f.value], time));
    }
  }

  // ----- Add_

  /** The time and service bits of a known entry after hearing of it again. */
  function Reheard(e: AddrInfo, a: Address, penalty: int, now: int): AddrInfo {
    var interval := if now - a.nTime < DAY then HOUR else DAY;
    var e1 := if a.nTime != 0 && (e.nTime == 0 || e.nTime < a.nTime - interval - penalty)
              then e.(nTime := U32(Max(0, a.nTime - penalty))) else e;
    e1.(services := e1.services + a.services)
  }

  /** No new information, already tried, at the reference limit, or unlucky in the draw. */
  predicate Ignored(e: AddrInfo, a: Address, lucky: bool) {
    || a.nTime == 0 || (e.nTime != 0 && a.nTime <= e.nTime)
    || e.inTried
    || e.refCount == NEW_BUCKETS_PER_ADDRESS
    || (e.refCount > 0 && !lucky)
  }

  function Create(s: Tables, a: Address, source: NetAddr): Tables {
    s.(idCount := s.idCount + 1,
       info := s.info[s.idCount := FreshInfo(a, source).(randomPos := |s.random|)],
       addr := s.addr[a.service.net := s.idCount],
       random := s.random + [s.idCount])
  }

  function Enrolled(s: Tables, a: Address, source: NetAddr, penalty: int): Tables {
    var t := Create(s, a, source);
    t.(info := t.info[s.idCount := t.info[s.idCount].(nTime := U32(Max(0, a.nTime - penalty)))], nNew := t.nNew + 1)
  }

  lemma EnrolledRandom(s: Tables, a: Address, source: NetAddr, penalty: int)
    requires RandomOk(s.info, s.random) && IdsOk(s)
    ensures RandomOk(Enrolled(s, a, source, penalty).info, Enrolled(s, a, source, penalty).random)
  {
  }

  lemma EnrolledIndexes(s: Tables, a: Address, source: NetAddr, penalty: int)
    requires AddrOk(s.info, s.addr) && TimesOk(s.info) && IdsOk(s) && a.service.net !in s.addr
    ensures var t := Enrolled(s, a, source, penalty);
            && AddrOk(t.info, t.addr) && TimesOk(t.info) && IdsOk(t)
            && NewIds(t.info) == NewIds(s.info) + {s.idCount} && TriedIds(t.info) == TriedIds(s.info)
  {
  }

  lemma EnrolledTables(c: Config, s: Tables, a: Address, source: NetAddr, penalty: int)
    requires Core(c, s, {}, 0)
    ensures var t := Enrolled(s, a, source, penalty); var id := s.idCount;
            NewOk(c, t.info, t.vvNew) && TriedOk(c, t.info, t.vvTried)
            && Slots(c, t.vvNew, a.service, id) == {}
  {
    var t := Enrolled(s, a, source, penalty);
    forall b: nat, p: nat | b < c.newBuckets && p < c.bucketSize && s.vvNew[b][p] != EMPTY
      ensures NewSlot(c, t.info, s.vvNew[b][p], b, p) && s.vvNew[b][p] != s.idCount
    {
      assert NewSlot(c, s.info, s.vvNew[b][p], b, p);
    }
    assert Slots(c, s.vvNew, a.service, s.idCount) == {};
    forall b: nat, p: nat | b < c.triedBuckets && p < c.bucketSize && s.vvTried[b][p] != EMPTY
      ensures TriedSlot(c, t.info, s.vvTried[b][p], b, p)
    {
      assert TriedSlot(c, s.info, s.vvTried[b][p], b, p);
    }
  }

  lemma EnrolledRefs(c: Config, s: Tables, a: Address, source: NetAddr, penalty: int)
    requires c.Ok() && Shape(s.vvNew, c.newBuckets, c.bucketSize) && RefOk(c, s.info, s.vvNew, {})
    requires s.idCount !in s.info && Slots(c, s.vvNew, a.service, s.idCount) == {}
    ensures RefOk(c, Enrolled(s, a, source, penalty).info, s.vvNew, {s.idCount})
  {
    var t := Enrolled(s, a, source, penalty);
    forall i | i in s.info ensures RefEntry(c, t.info[i], i, s.vvNew, {s.idCount}) {
      assert RefEntry(c, s.info[i], i, s.vvNew, {});
    }
  }

  lemma EnrolledKeeps(c: Config, s: Tables, a: Address, source: NetAddr, penalty: int)
    requires Core(c, s, {}, 0) && Find(s, a.service.net).None?
    ensures Core(c, Enrolled(s, a, source, penalty), {s.idCount}, 0)
  {
    assert a.service.net !in s.addr;
    EnrolledRandom(s, a, source, penalty);
    EnrolledIndexes(s, a, source, penalty);
    EnrolledTables(c, s, a, source, penalty);
    EnrolledRefs(c, s, a, source, penalty);
    hide RandomOk, AddrOk, TimesOk, IdsOk, NewOk, TriedOk, RefOk, Enrolled;
    assert s.idCount !in NewIds(s.info) by { CoreShapes(c, s, {}, 0); }
    hide NewIds, TriedIds;
    EnrolledCounts(s, a, source, penalty);
  }

  lemma EnrolledCounts(s: Tables, a: Address, source: NetAddr, penalty: int)
    ensures var t := Enrolled(s, a, source, penalty);
            t.nNew == s.nNew + 1 && t.nTried == s.nTried && t.vvNew == s.vvNew && t.vvTried == s.vvTried
  {
  }

  /** Whether the occupant of a "new" slot gives way to entry `id`. */
  predicate GivesWay(s: Tables, cur: int, id: int, now: int)
    requires id in s.info && (cur != EMPTY ==> cur in s.info)
  {
    cur == EMPTY || IsTerrible(s.info[cur], now) || (s.info[cur].refCount > 1 && s.info[id].refCount == 0)
  }

  /** The second half of Add_: the slot is empty, gives way, or the entry stays out. */
  ghost function Insert(c: Config, s: Tables, id: int, source: NetAddr, now: int): Tables
    requires Core(c, s, {id}, 0) && id in s.info && !s.info[id].inTried
    requires s.info[id].refCount < NEW_BUCKETS_PER_ADDRESS
  {
    CoreShapes(c, s, {id}, 0);
    var b := c.NewBucket(s.info[id].service, source);
    var p := c.Position(true, b, s.info[id].service);
    var cur := s.vvNew[b][p];
    if cur == id then s
    else
      NewOccupant(c, s, b, p, {id}, 0);
      if GivesWay(s, cur, id, now) then
        ClearNewKeeps(c, s, b, p, {id}, 0);
        Reference(ClearNew(s, b, p), id, b, p)
      else if s.info[id].refCount == 0 then
        DeleteKeeps(c, s, id, {id}, 0);
        Delete(s, id)
      else s
  }

  lemma NewOccupant(c: Config, s: Tables, b: nat, p: nat, exempt: set<int>, owed: int)
    requires Core(c, s, exempt, owed) && b < c.newBuckets && p < c.bucketSize
    ensures s.vvNew[b][p] != EMPTY ==> NewSlot(c, s.info, s.vvNew[b][p], b, p)
  {
  }

  lemma Referenced(c: Config, s: Tables, id: int, exempt: set<int>, owed: int)
    requires Core(c, s, exempt + {id}, owed) && id in s.info && s.info[id].refCount > 0
    ensures Core(c, s, exempt, owed)
  {
    RestCounted(c, s, id, exempt, owed);
  }

  lemma SlotMeansReferenced(c: Config, s: Tables, id: int, b: nat, exempt: set<int>, owed: int)
    requires Core(c, s, exempt, owed) && id in s.info && b < c.newBuckets
    requires s.vvNew[b][c.Position(true, b, s.info[id].service)] == id
    ensures s.info[id].refCount > 0
  {
    assert RefEntry(c, s.info[id], id, s.vvNew, exempt);
    assert b in Slots(c, s.vvNew, s.info[id].service, id);
  }

  lemma InsertKeeps(c: Config, s: Tables, id: int, source: NetAddr, now: int)
    requires Core(c, s, {id}, 0) && id in s.info && !s.info[id].inTried
    requires s.info[id].refCount < NEW_BUCKETS_PER_ADDRESS
    ensures Core(c, Insert(c, s, id, source, now), {}, 0)
  {
    CoreShapes(c, s, {id}, 0);
    hide Core, Clearable, Deletable;
    var b := c.NewBucket(s.info[id].service, source);
    var p := c.Position(true, b, s.info[id].service);
    var cur := s.vvNew[b][p];
    assert {} + {id} == {id} && {id} - {id} == {};
    if cur == id {
      SlotMeansReferenced(c, s, id, b, {id}, 0);
      Referenced(c, s, id, {}, 0);
    } else {
      NewOccupant(c, s, b, p, {id}, 0);
      if GivesWay(s, cur, id, now) {
        ClearNewKeeps(c, s, b, p, {id}, 0);
        var t := ClearNew(s, b, p);
        hide ClearNew;
        ReferenceKeeps(c, t, id, b, {id}, 0);
      } else if s.info[id].refCount == 0 {
        DeleteKeeps(c, s, id, {id}, 0);
      } else {
        Referenced(c, s, id, {}, 0);
      }
    }
  }

  lemma ReferenceShrinks(s: Tables, u: Tables, id: int, b: nat, p: nat)
    requires Shrinks(s, u) && id in u.info && b < |u.vvNew| && p < |u.vvNew[b]|
    ensures Shrinks(s, Reference(u, id, b, p)) && Reference(u, id, b, p).vvTried == u.vvTried
  {
  }

  lemma InsertShrinks(c: Config, s: Tables, id: int, source: NetAddr, now: int)
    requires Core(c, s, {id}, 0) && id in s.info && !s.info[id].inTried
    requires s.info[id].refCount < NEW_BUCKETS_PER_ADDRESS
    ensures Shrinks(s, Insert(c, s, id, source, now))
    ensures Insert(c, s, id, source, now).vvTried == s.vvTried
  {
    CoreShapes(c, s, {id}, 0);
    hide Core, Deletable, GivesWay;
    var b := c.NewBucket(s.info[id].service, source);
    var p := c.Position(true, b, s.info[id].service);
    var cur := s.vvNew[b][p];
    if cur != id {
      NewOccupant(c, s, b, p, {id}, 0);
      if GivesWay(s, cur, id, now) {
        ClearNewKeeps(c, s, b, p, {id}, 0);
        ClearNewShrinks(s, b, p);
        ClearNewLeavesTried(s, b, p);
        ReferenceShrinks(s, ClearNew(s, b, p), id, b, p);
        hide ClearNew, Clearable, Reference, Shrinks;
      } else if s.info[id].refCount == 0 {
        DeleteKeeps(c, s, id, {id}, 0);
        DeleteShrinks(s, id);
        hide Delete, Shrinks;
      }
    }
  }

  lemma DeleteShrinks(s: Tables, id: int)
    requires Deletable(s, id)
    ensures Shrinks(s, Delete(s, id)) && Delete(s, id).vvTried == s.vvTried && Delete(s, id).vvNew == s.vvNew
  {
  }

  /** Add_: the new state, and whether the address was unknown. */
  ghost function Add(c: Config, s: Tables, a: Address, source: NetAddr, penalty: int,
                     now: int, now': int, lucky: bool): (Tables, bool)
    requires Inv(c, s)
  {
    if !c.isRoutable(a.service.net) then (s, false)
    else match Find(s, a.service.net)
      case Some(id) =>
        var e := Reheard(s.info[id], a, penalty, now);
        var s1 := s.(info := s.info[id := e]);
        if Ignored(e, a, lucky) then (s1, false)
        else
          InsertReady(c, s, id, e);
          (Insert(c, s1, id, source, now'), false)
      case None =>
        var s1 := Enrolled(s, a, source, penalty);
        EnrolledKeeps(c, s, a, source, penalty);
        (Insert(c, s1, s.idCount, source, now'), true)
  }

  lemma InsertReady(c: Config, s: Tables, id: int, e: AddrInfo)
    requires Inv(c, s) && id in s.info && Refreshes(s.info[id], e) && !e.inTried
    requires e.refCount != NEW_BUCKETS_PER_ADDRESS
    ensures Core(c, s.(info := s.info[id := e]), {id}, 0) && e.refCount < NEW_BUCKETS_PER_ADDRESS
  {
    RefreshKeeps(c, s, id, e);
    assert RefEntry(c, s.info[id], id, s.vvNew, {});
    ExemptMore(c, s.(info := s.info[id := e]), {}, {id}, 0);
  }

  lemma ExemptMore(c: Config, s: Tables, exempt: set<int>, exempt': set<int>, owed: int)
    requires Core(c, s, exempt, owed) && exempt <= exempt'
    ensures Core(c, s, exempt', owed)
  {
    forall i | i in s.info ensures RefEntry(c, s.info[i], i, s.vvNew, exempt') {
      assert RefEntry(c, s.info[i], i, s.vvNew, exempt);
    }
  }

  lemma AddKeepsCore(c: Config, s: Tables, a: Address, source: NetAddr, penalty: int, now: int, now': int, lucky: bool)
    requires Inv(c, s)
    ensures var t := Add(c, s, a, source, penalty, now, now', lucky).0; Core(c, t, {}, 0) && Evolves(s, t)
    ensures var t := Add(c, s, a, source, penalty, now, now', lucky).0;
            t.collisions == s.collisions && t.vvTried == s.vvTried
  {
    EvolvesRefl(s);
    if c.isRoutable(a.service.net) {
      match Find(s, a.service.net)
      case Some(id) =>
        var e := Reheard(s.info[id], a, penalty, now);
        RefreshKeeps(c, s, id, e);
        var s1 := s.(info := s.info[id := e]);
        if !Ignored(e, a, lucky) {
          InsertReady(c, s, id, e);
          InsertKeeps(c, s1, id, source, now');
          InsertShrinks(c, s1, id, source, now');
          hide Core, Insert, RandomOk, Reheard;
        }
      case None =>
        EnrolledKeeps(c, s, a, source, penalty);
        var s1 := Enrolled(s, a, source, penalty);
        InsertKeeps(c, s1, s.idCount, source, now');
        InsertShrinks(c, s1, s.idCount, source, now');
        hide Core, Insert, RandomOk;
    }
  }

  /** Add_ keeps the invariant; it never touches the "tried" table or the pending collisions. */
  lemma AddKeeps(c: Config, s: Tables, a: Address, source: NetAddr, penalty: int, now: int, now': int, lucky: bool)
    requires Inv(c, s)
    ensures var t := Add(c, s, a, source, penalty, now, now', lucky).0; Inv(c, t) && Evolves(s, t)
    ensures var t := Add(c, s, a, source, penalty, now, now', lucky).0;
            t.collisions == s.collisions && t.vvTried == s.vvTried
  {
    AddKeepsCore(c, s, a, source, penalty, now, now', lucky);
    var t := Add(c, s, a, source, penalty, now, now', lucky).0;
    CoreShapes(c, s, {}, 0);
    CoreShapes(c, t, {}, 0);
    hide Core, Add;
    CollisionsCarryOver(c, s, t);
  }

  /** What Insert does to the slot it may write, to the occupant that gives way, and to the rest. */
  lemma InsertTakesSlot(c: Config, s: Tables, id: int, source: NetAddr, now: int, b: nat, p: nat, cur: int)
    requires Core(c, s, {id}, 0) && id in s.info && !s.info[id].inTried
    requires s.info[id].refCount < NEW_BUCKETS_PER_ADDRESS
    requires b == c.NewBucket(s.info[id].service, source) && p == c.Position(true, b, s.info[id].service)
    requires cur == s.vvNew[b][p] && cur != id && (cur != EMPTY ==> cur in s.info) && GivesWay(s, cur, id, now)
    ensures var t := Insert(c, s, id, source, now);
            && t.vvNew == Put(s.vvNew, b, p, id)
            && id in t.info && SameButPos(s.info[id].(refCount := s.info[id].refCount + 1), t.info[id])
            && forall i | i in s.info && i != id && i != cur :: i in t.info && SameButPos(s.info[i], t.info[i])
  {
    CoreShapes(c, s, {id}, 0);
    InsertIsReference(c, s, id, source, now, b, p, cur);
    ClearNewKeeps(c, s, b, p, {id}, 0);
    hide Core, Deletable, Insert, ClearNew, Clearable, GivesWay;
    PutPut(s.vvNew, b, p, EMPTY, id);
  }

  lemma InsertIsReference(c: Config, s: Tables, id: int, source: NetAddr, now: int, b: nat, p: nat, cur: int)
    requires Core(c, s, {id}, 0) && id in s.info && !s.info[id].inTried
    requires s.info[id].refCount < NEW_BUCKETS_PER_ADDRESS
    requires b == c.NewBucket(s.info[id].service, source) && p == c.Position(true, b, s.info[id].service)
    requires cur == s.vvNew[b][p] && cur != id && (cur != EMPTY ==> cur in s.info) && GivesWay(s, cur, id, now)
    ensures Clearable(s, b, p) && id in ClearNew(s, b, p).info
    ensures Insert(c, s, id, source, now) == Reference(ClearNew(s, b, p), id, b, p)
  {
    CoreShapes(c, s, {id}, 0);
    hide Core, Deletable, ClearNew, Clearable, GivesWay, Reference;
    ClearNewKeeps(c, s, b, p, {id}, 0);
  }

  /** An entry that holds no slot and meets an occupant that stays is forgotten again;
      an entry that holds another slot, or this one already, is left as it is. */
  lemma InsertStaysOut(c: Config, s: Tables, id: int, source: NetAddr, now: int, b: nat, p: nat, cur: int)
    requires Core(c, s, {id}, 0) && id in s.info && !s.info[id].inTried
    requires s.info[id].refCount < NEW_BUCKETS_PER_ADDRESS
    requires b == c.NewBucket(s.info[id].service, source) && p == c.Position(true, b, s.info[id].service)
    requires cur == s.vvNew[b][p] && (cur != EMPTY ==> cur in s.info) && (cur == id || !GivesWay(s, cur, id, now))
    ensures var t := Insert(c, s, id, source, now);
            if cur != id && s.info[id].refCount == 0 then t.vvNew == s.vvNew && SameInfo(s.info - {id}, t.info)
            else t == s
  {
    CoreShapes(c, s, {id}, 0);
    hide Core;
    if cur != id && s.info[id].refCount == 0 {
      DeleteKeeps(c, s, id, {id}, 0);
      DeleteShrinks(s, id);
      hide Delete, Deletable;
    }
  }

  // ----- GetAddr_

  /** RandomInt(size - n) + n. */
  function Pick(n: nat, size: nat, draw: nat): (j: nat)
    requires n < size
    ensures n <= j < size
  {
    n + draw % (size - n)
  }

  /** The swaps of a GetAddr_ call: position n is exchanged with one drawn from n..size. */
  ghost function Shuffle(c: Config, s: Tables, draws: seq<nat>, n: nat): Tables
    requires Inv(c, s)
    decreases |draws|
  {
    if draws == [] || n >= |s.random| then s
    else
      var j := Pick(n, |s.random|, draws[0]);
      ShuffleStep(c, s, n, j);
      Shuffle(c, SwapRandom(s, n, j), draws[1..], n + 1)
  }

  lemma ShuffleStep(c: Config, s: Tables, i: nat, j: nat)
    requires Inv(c, s) && i < |s.random| && j < |s.random|
    ensures InRandom(s, i) && InRandom(s, j)
    ensures var t := SwapRandom(s, i, j);
            Inv(c, t) && Evolves(s, t) && SameInfo(s.info, t.info) && |t.random| == |s.random|
              && t.collisions == s.collisions
  {
    RandomHolds(s);
    CoreShapes(c, s, {}, 0);
    SwapRandomKeeps(c, s, i, j, {}, 0);
    var t := SwapRandom(s, i, j);
    CoreShapes(c, t, {}, 0);
    hide Core, RandomOk;
    forall k | k in t.info ensures KeepsService(s, t, k) { assert SameButPos(s.info[k], t.info[k]); }
    CollisionsCarryOver(c, s, t);
  }

  lemma {:induction false} ShuffleKeeps(c: Config, s: Tables, draws: seq<nat>, n: nat)
    requires Inv(c, s)
    ensures var t := Shuffle(c, s, draws, n); Inv(c, t) && Evolves(s, t) && |t.random| == |s.random|
    decreases |draws|
  {
    hide Inv, Pick, Evolves;
    if draws == [] || n >= |s.random| {
      EvolvesRefl(s);
    } else {
      var j := Pick(n, |s.random|, draws[0]);
      ShuffleStep(c, s, n, j);
      var t := SwapRandom(s, n, j);
      ShuffleKeeps(c, t, draws[1..], n + 1);
      InvIds(c, t);
      hide SwapRandom, InRandom, SameInfo;
      EvolvesTrans(s, t, Shuffle(c, t, draws[1..], n + 1));
    }
  }

  lemma {:induction false} ShuffleAppend(c: Config, s: Tables, draws: seq<nat>, draw: nat, n: nat)
    requires Inv(c, s) && n + |draws| < |s.random|
    ensures var t := Shuffle(c, s, draws, n); var m := n + |draws|;
            && Inv(c, t) && |t.random| == |s.random| && InRandom(t, m) && InRandom(t, Pick(m, |s.random|, draw))
            && Shuffle(c, s, draws + [draw], n) == SwapRandom(t, m, Pick(m, |s.random|, draw))
    decreases |draws|
  {
    hide Inv, Pick;
    ShuffleKeeps(c, s, draws, n);
    if draws == [] {
      ShuffleStep(c, s, n, Pick(n, |s.random|, draw));
      assert (draws + [draw])[1..] == [];
    } else {
      var j := Pick(n, |s.random|, draws[0]);
      ShuffleStep(c, s, n, j);
      assert (draws + [draw])[1..] == draws[1..] + [draw];
      ShuffleAppend(c, SwapRandom(s, n, j), draws[1..], draw, n + 1);
      hide SwapRandom, InRandom;
    }
  }

  // ----- ResolveCollisions_ and SelectTriedCollision_

  function Forget(s: Tables, id: int): Tables { s.(collisions := s.collisions - {id}) }

  /** A pending collision of a known entry is a real one: its "tried" slot is held by another
      known, tried entry or by itself. So looking the occupant up never misses. */
  lemma PendingMeetsOccupant(c: Config, s: Tables, id: int)
    requires Inv(c, s) && id in s.collisions && id in s.info
    ensures var svc := s.info[id].service; var b, p := c.TriedBucket(svc), c.TriedPos(svc);
            s.vvTried[b][p] != EMPTY && TriedSlot(c, s.info, s.vvTried[b][p], b, p)
  {
    assert Occupied(c, s.vvTried, s.info[id].service);
    TriedOccupant(c, s, c.TriedBucket(s.info[id].service), c.TriedPos(s.info[id].service), {}, 0);
  }

  /** The clock as read, at most once each, for the occupant's last success, its last try, the sixty
      seconds it is given, and the success recorded for the entry that replaces it. */
  datatype Readings = Readings(success: int, lastTry: int, wait: int, good: int)

  /** The readings for each pending id. Only a time that is recorded has to be positive. */
  type Clock = int -> Readings

  ghost predicate Running(clock: Clock) { forall id :: clock(id).good > 0 }

  ghost function ResolveOne(c: Config, s: Tables, id: int, now: Readings): Tables
    requires Inv(c, s) && now.good > 0 && id in s.collisions
  {
    if id !in s.info || !c.isValid(s.info[id].service.net) then Forget(s, id)
    else
      var svc := s.info[id].service;
      PendingMeetsOccupant(c, s, id);
      var occupant := s.info[s.vvTried[c.TriedBucket(svc)][c.TriedPos(svc)]];
      if now.success - occupant.lastSuccess < REPLACEMENT_SECONDS then Forget(s, id)
      else if now.lastTry - occupant.lastTry < REPLACEMENT_SECONDS && now.wait - occupant.lastTry > 60 then
        Forget(Good(c, s, svc, false, now.good), id)
      else s
  }

  lemma ForgetKeeps(c: Config, s: Tables, id: int)
    requires Inv(c, s)
    ensures Inv(c, Forget(s, id)) && Evolves(s, Forget(s, id))
  {
    CoreShapes(c, s, {}, 0);
    EvolvesRefl(s);
    hide Core;
    CollisionsCarryOver(c, s, Forget(s, id));
  }

  lemma GoodNoPending(c: Config, s: Tables, svc: Service, time: int)
    requires Inv(c, s) && time > 0
    ensures Good(c, s, svc, false, time).collisions == s.collisions
  {
    var f := Find(s, svc.net);
    if f.Some? && s.info[f.value].service == svc && !s.info[f.value].inTried {
      LastGoodFree(c, s, time);
      var s0 := s.(lastGood := time);
      var e := Succeeded(s0.info[f.value], time);
      RefreshKeeps(c, s0, f.value, e);
      var s1 := s0.(info := s0.info[f.value := e]);
      AdvanceKeeps(c, s1, f.value, false);
      hide Core, Advance;
    }
  }

  lemma ResolveOneKeeps(c: Config, s: Tables, id: int, now: Readings)
    requires Inv(c, s) && now.good > 0 && id in s.collisions
    ensures var t := ResolveOne(c, s, id, now);
            Inv(c, t) && Evolves(s, t) && (t.collisions == s.collisions - {id} || t.collisions == s.collisions)
  {
    hide Inv, Evolves;
    if id !in s.info || !c.isValid(s.info[id].service.net) {
      ForgetKeeps(c, s, id);
    } else {
      var svc := s.info[id].service;
      PendingMeetsOccupant(c, s, id);
      hide TriedSlot, Good;
      ForgetKeeps(c, s, id);
      EvolvesRefl(s);
      ResolveByGood(c, s, id, now.good);
    }
  }

  lemma ResolveByGood(c: Config, s: Tables, id: int, now: int)
    requires Inv(c, s) && now > 0 && id in s.collisions && id in s.info
    ensures var g := Good(c, s, s.info[id].service, false, now);
            Inv(c, Forget(g, id)) && Evolves(s, Forget(g, id)) && Forget(g, id).collisions == s.collisions - {id}
  {
    hide Inv, Evolves, Good;
    var svc := s.info[id].service;
    GoodKeeps(c, s, svc, false, now);
    GoodNoPending(c, s, svc, now);
    var g := Good(c, s, svc, false, now);
    ForgetKeeps(c, g, id);
    InvIds(c, g);
    EvolvesTrans(s, g, Forget(g, id));
  }

  lemma InvIds(c: Config, s: Tables)
    requires Inv(c, s)
    ensures forall i | i in s.info :: 0 <= i < s.idCount
  {
    CoreShapes(c, s, {}, 0);
  }

  ghost function ResolveAll(c: Config, s: Tables, ids: seq<int>, clock: Clock): Tables
    requires Inv(c, s) && Running(clock) && (forall k | 0 <= k < |ids| :: ids[k] in s.collisions)
    requires forall j, k | 0 <= j < k < |ids| :: ids[j] != ids[k]
    decreases |ids|
  {
    if ids == [] then s
    else
      ResolveOneKeeps(c, s, ids[0], clock(ids[0]));
      ResolveAll(c, ResolveOne(c, s, ids[0], clock(ids[0])), ids[1..], clock)
  }

  lemma {:induction false} ResolveAllKeeps(c: Config, s: Tables, ids: seq<int>, clock: Clock)
    requires Inv(c, s) && Running(clock) && (forall k | 0 <= k < |ids| :: ids[k] in s.collisions)
    requires forall j, k | 0 <= j < k < |ids| :: ids[j] != ids[k]
    ensures var t := ResolveAll(c, s, ids, clock); Inv(c, t) && Evolves(s, t) && t.collisions <= s.collisions
    decreases |ids|
  {
    hide Inv;
    EvolvesRefl(s);
    if ids != [] {
      ResolveOneKeeps(c, s, ids[0], clock(ids[0]));
      var t := ResolveOne(c, s, ids[0], clock(ids[0]));
      hide ResolveOne, Evolves;
      ResolveAllKeeps(c, t, ids[1..], clock);
      InvIds(c, t);
      EvolvesTrans(s, t, ResolveAll(c, t, ids[1..], clock));
    }
  }

  // ----- runs

  datatype Op =
    | OpAdd(a: Address, source: NetAddr, penalty: int, now: int, now': int, lucky: bool)
    | OpGood(svc: Service, testBeforeEvict: bool, time: int)
    | OpAttempt(svc: Service, countFailure: bool, time: int)
    | OpConnected(svc: Service, time: int)
    | OpGetAddr(draws: seq<nat>)
    | OpResolve(clock: Clock)
    | OpSelectCollision(chosen: int)

  ghost predicate Legal(op: Op) {
    match op
    case OpGood(_, _, time) => time > 0
    case OpAttempt(_, _, time) => time > 0
    case OpResolve(clock) => Running(clock)
    case _ => true
  }

  ghost function Step(c: Config, s: Tables, op: Op): Tables
    requires Inv(c, s) && Legal(op)
  {
    match op
    case OpAdd(a, source, penalty, now, now', lucky) => Add(c, s, a, source, penalty, now, now', lucky).0
    case OpGood(svc, test, time) => Good(c, s, svc, test, time)
    case OpAttempt(svc, countFailure, time) => Attempt(s, svc, countFailure, time)
    case OpConnected(svc, time) => Connected(s, svc, time)
    case OpGetAddr(draws) => Shuffle(c, s, draws, 0)
    case OpResolve(clock) => ResolveAll(c, s, Ascending(s.collisions), clock)
    case OpSelectCollision(id) => if id in s.collisions && id !in s.info then Forget(s, id) else s
  }

  lemma StepKeeps(c: Config, s: Tables, op: Op)
    requires Inv(c, s) && Legal(op)
    ensures Inv(c, Step(c, s, op)) && Evolves(s, Step(c, s, op))
  {
    hide Inv, Evolves;
    match op
    case OpAdd(a, source, penalty, now, now', lucky) => AddKeeps(c, s, a, source, penalty, now, now', lucky);
    case OpGood(svc, test, time) => GoodKeeps(c, s, svc, test, time);
    case OpAttempt(svc, countFailure, time) => AttemptKeeps(c, s, svc, countFailure, time);
    case OpConnected(svc, time) => ConnectedKeeps(c, s, svc, time);
    case OpGetAddr(draws) => ShuffleKeeps(c, s, draws, 0);
    case OpResolve(clock) => ResolveAllKeeps(c, s, Ascending(s.collisions), clock);
    case OpSelectCollision(id) => ForgetKeeps(c, s, id); EvolvesRefl(s);
  }

  ghost function Run(c: Config, s: Tables, ops: seq<Op>): Tables
    requires Inv(c, s) && forall k | 0 <= k < |ops| :: Legal(ops[k])
    decreases |ops|
  {
    if ops == [] then s
    else StepKeeps(c, s, ops[0]); Run(c, Step(c, s, ops[0]), ops[1..])
  }

  /** Every run of operations keeps the manager's whole consistency check, and no occupied
      "tried" slot is ever left empty. */
  lemma {:induction false} RunKeeps(c: Config, s: Tables, ops: seq<Op>)
    requires Inv(c, s) && forall k | 0 <= k < |ops| :: Legal(ops[k])
    ensures Inv(c, Run(c, s, ops)) && Evolves(s, Run(c, s, ops))
    decreases |ops|
  {
    hide Inv, Evolves, Step;
    EvolvesRefl(s);
    if ops != [] {
      StepKeeps(c, s, ops[0]);
      var t := Step(c, s, ops[0]);
      RunKeeps(c, t, ops[1..]);
      InvIds(c, t);
      EvolvesTrans(s, t, Run(c, t, ops[1..]));
    }
  }
}
