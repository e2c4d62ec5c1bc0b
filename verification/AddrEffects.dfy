/** What the address manager's operations do to entries, tables and pending collisions, in terms of the
    state before. */
module AddrEffects {
  import opened Prelude
  import opened AddrTables
  import opened AddrMoves
  import opened AddrOps
  import opened AddrRuns

  // ----- the quality of an entry

  /** Never terrible in the minute after a try. Otherwise terrible when its time is more than ten minutes
      ahead, missing, or more than thirty days back, after three attempts without any success, or after ten
      attempts without one in the last seven days. */
  lemma TerribleExactly(e: AddrInfo, now: int)
    ensures e.lastTry != 0 && now - e.lastTry <= 60 ==> !IsTerrible(e, now)
    ensures !(e.lastTry != 0 && now - e.lastTry <= 60) ==>
              (!IsTerrible(e, now) <==>
               && 0 < e.nTime <= now + 600 && now - e.nTime <= 2_592_000
               && (e.attempts >= 3 ==> e.lastSuccess != 0)
               && (e.attempts >= 10 ==> now - e.lastSuccess <= 604_800))
  {
  }

  // ----- Good_

  /** The entry in the "tried" slot of a service, or none. */
  ghost function Holder(c: Config, t: Table, svc: Service): int
    requires c.Ok() && Shape(t, c.triedBuckets, c.bucketSize)
  {
    t[c.TriedBucket(svc)][c.TriedPos(svc)]
  }

  ghost predicate Shaped(c: Config, s: Tables) {
    c.Ok() && Shape(s.vvTried, c.triedBuckets, c.bucketSize) && Shape(s.vvNew, c.newBuckets, c.bucketSize)
  }

  /** The entry takes its "tried" slot; whoever held it goes back to "new" with one reference. */
  ghost predicate Replaced(c: Config, s: Tables, t: Tables, id: int, e: AddrInfo)
    requires Shaped(c, s) && id in s.info
  {
    var svc := s.info[id].service;
    var o := Holder(c, s.vvTried, svc);
    && id in t.info && SameButPos(e.(inTried := true, refCount := 0), t.info[id])
    && t.vvTried == Put(s.vvTried, c.TriedBucket(svc), c.TriedPos(svc), id)
    && (o == EMPTY ==> forall i | i in s.info && i != id :: i in t.info && SameButPos(s.info[i], t.info[i]))
    && (o != EMPTY ==> o in s.info && o in t.info && SameButPos(s.info[o].(inTried := false, refCount := 1), t.info[o]))
  }

  /** A success of a known service: recorded in its entry, which is moved to "tried" unless it is there, or
      unless the slot is held and is to be tested first; then the collision is noted, ten at most. */
  lemma GoodKnown(c: Config, s: Tables, id: int, testBeforeEvict: bool, time: int)
    requires Inv(c, s) && time > 0 && id in s.info
    ensures Shaped(c, s)
    ensures var svc := s.info[id].service;
            var t := Good(c, s, svc, testBeforeEvict, time);
            var e := s.info[id].(lastSuccess := time, lastTry := time, attempts := 0);
            && t.lastGood == time
            && if s.info[id].inTried then t == s.(lastGood := time, info := s.info[id := e])
               else if testBeforeEvict && Holder(c, s.vvTried, svc) != EMPTY
               then t == s.(lastGood := time, info := s.info[id := e],
                            collisions := if |s.collisions| < 10 then s.collisions + {id} else s.collisions)
               else Replaced(c, s, t, id, e) && t.collisions == s.collisions
  {
    CoreShapes(c, s, {}, 0);
    GoodRecorded(c, s, id, testBeforeEvict, time);
    hide Core, Inv, Find, Good, Replaced, Advance, Shape;
    if !s.info[id].inTried {
      var e := s.info[id].(lastSuccess := time, lastTry := time, attempts := 0);
      var s1 := s.(lastGood := time, info := s.info[id := e]);
      if testBeforeEvict && Holder(c, s.vvTried, s.info[id].service) != EMPTY {
        NotedOnly(c, s1, id);
      } else {
        MovedToTried(c, s, s1, id, e, testBeforeEvict);
      }
    }
  }

  lemma NotedOnly(c: Config, s: Tables, id: int)
    requires Inv(c, s) && Shaped(c, s) && id in s.info && !s.info[id].inTried
    requires Holder(c, s.vvTried, s.info[id].service) != EMPTY
    ensures Advance(c, s, id, true)
            == s.(collisions := if |s.collisions| < 10 then s.collisions + {id} else s.collisions)
  {
    hide Core;
  }

  lemma GoodRecorded(c: Config, s: Tables, id: int, testBeforeEvict: bool, time: int)
    requires Inv(c, s) && time > 0 && id in s.info
    ensures var e := s.info[id].(lastSuccess := time, lastTry := time, attempts := 0);
            var s1 := s.(lastGood := time, info := s.info[id := e]);
            && Inv(c, s1)
            && Good(c, s, s.info[id].service, testBeforeEvict, time)
               == if s.info[id].inTried then s1 else Advance(c, s1, id, testBeforeEvict)
  {
    FindExact(c, s, s.info[id].service.net);
    LastGoodFree(c, s, time);
    var e := s.info[id].(lastSuccess := time, lastTry := time, attempts := 0);
    RefreshKeeps(c, s.(lastGood := time), id, e);
    hide Inv, Find, Advance;
  }

  lemma MovedToTried(c: Config, s: Tables, s1: Tables, id: int, e: AddrInfo, testBeforeEvict: bool)
    requires Inv(c, s1) && Shaped(c, s) && id in s.info && !s.info[id].inTried
    requires s1.info == s.info[id := e] && s1.vvTried == s.vvTried && s1.vvNew == s.vvNew
    requires e.service == s.info[id].service && !e.inTried && e.lastSuccess > 0
    requires !testBeforeEvict || Holder(c, s.vvTried, e.service) == EMPTY
    ensures var t := Advance(c, s1, id, testBeforeEvict);
            Replaced(c, s, t, id, e) && t.collisions == s1.collisions && t.lastGood == s1.lastGood
  {
    MakeTriedKeeps(c, s1, id);
    MakeTriedEntries(c, s1, id);
    MakeTriedShrinks(c, s1, id);
    var o := Holder(c, s.vvTried, e.service);
    if o != EMPTY { TriedOccupant(c, s1, c.TriedBucket(e.service), c.TriedPos(e.service), {}, 0); }
    hide Core, MakeTried, Purge;
  }

  /** A success of an unknown service, or of a known address on another port, is only dated. */
  lemma GoodUnknown(c: Config, s: Tables, svc: Service, testBeforeEvict: bool, time: int)
    requires Inv(c, s) && time > 0 && forall i | i in s.info :: s.info[i].service != svc
    ensures Good(c, s, svc, testBeforeEvict, time) == s.(lastGood := time)
  {
    FindExact(c, s, svc.net);
  }

  // ----- ResolveCollisions_

  /** What becomes of one pending id. An unknown or invalid one is erased. The holder of its slot is kept,
      and the collision erased, after a success less than four hours ago; it is replaced, and the collision
      erased, when it was last tried less than four hours and more than a minute ago; otherwise all waits. */
  ghost predicate Resolved(c: Config, s: Tables, t: Tables, id: int, now: Readings)
    requires Shaped(c, s)
  {
    var erased := s.(collisions := s.collisions - {id});
    if id !in s.info || !c.isValid(s.info[id].service.net) then t == erased
    else
      var o := Holder(c, s.vvTried, s.info[id].service);
      && o != EMPTY && o in s.info && s.info[o].inTried
      && if now.success - s.info[o].lastSuccess < 14_400 then t == erased
         else if now.lastTry - s.info[o].lastTry < 14_400 && now.wait - s.info[o].lastTry > 60
         then && t.collisions == s.collisions - {id} && t.lastGood == now.good
              && var e := s.info[id].(lastSuccess := now.good, lastTry := now.good, attempts := 0);
                 if o == id then t == erased.(lastGood := now.good, info := s.info[id := e])
                 else Replaced(c, s, t, id, e)
         else t == s
  }

  lemma ResolvedOne(c: Config, s: Tables, id: int, now: Readings)
    requires Inv(c, s) && now.good > 0 && id in s.collisions
    ensures Shaped(c, s) && Resolved(c, s, ResolveOne(c, s, id, now), id, now)
  {
    hide Core, Inv, Good, Replaced;
    InvShaped(c, s);
    if id in s.info && c.isValid(s.info[id].service.net) {
      PendingMeetsOccupant(c, s, id);
      TriedStaysHome(c, s, id);
      ResolvedByGood(c, s, id, now.good);
    }
  }

  lemma InvShaped(c: Config, s: Tables)
    requires Inv(c, s)
    ensures Shaped(c, s)
  {
    CoreShapes(c, s, {}, 0);
  }

  lemma ResolvedByGood(c: Config, s: Tables, id: int, time: int)
    requires Inv(c, s) && time > 0 && id in s.collisions && id in s.info && Shaped(c, s)
    requires s.info[id].inTried <==> Holder(c, s.vvTried, s.info[id].service) == id
    ensures var t := Forget(Good(c, s, s.info[id].service, false, time), id);
            var e := s.info[id].(lastSuccess := time, lastTry := time, attempts := 0);
            && t.collisions == s.collisions - {id} && t.lastGood == time
            && if Holder(c, s.vvTried, s.info[id].service) == id
               then t == s.(collisions := s.collisions - {id}, lastGood := time, info := s.info[id := e])
               else Replaced(c, s, t, id, e)
  {
    hide Core, Inv, Good;
    GoodKnown(c, s, id, false, time);
  }

  /** A tried entry holds its own slot. */
  lemma TriedStaysHome(c: Config, s: Tables, id: int)
    requires Inv(c, s) && id in s.info
    ensures Shaped(c, s) && (s.info[id].inTried <==> Holder(c, s.vvTried, s.info[id].service) == id)
  {
    CoreShapes(c, s, {}, 0);
    var o := Holder(c, s.vvTried, s.info[id].service);
    if o != EMPTY {
      TriedOccupant(c, s, c.TriedBucket(s.info[id].service), c.TriedPos(s.info[id].service), {}, 0);
    }
    if s.info[id].inTried { assert HasTriedSlot(c, s.vvTried, s.info[id].service, id); }
  }

  /** One state per pending id: each is resolved as above in the state the ones before it left. */
  ghost predicate Rounds(c: Config, states: seq<Tables>, ids: seq<int>, clock: Clock) {
    && |states| == |ids| + 1
    && forall k | 0 <= k < |ids| ::
         Shaped(c, states[k]) && Resolved(c, states[k], states[k + 1], ids[k], clock(ids[k]))
  }

  lemma {:induction false} ResolvedAll(c: Config, s: Tables, ids: seq<int>, clock: Clock) returns (states: seq<Tables>)
    requires Inv(c, s) && Running(clock) && (forall k | 0 <= k < |ids| :: ids[k] in s.collisions)
    requires forall j, k | 0 <= j < k < |ids| :: ids[j] != ids[k]
    ensures Rounds(c, states, ids, clock) && states[0] == s && states[|ids|] == ResolveAll(c, s, ids, clock)
    decreases |ids|
  {
    hide Inv, ResolveOne, Resolved, Shaped;
    if ids == [] {
      states := [s];
    } else {
      ResolveOneKeeps(c, s, ids[0], clock(ids[0]));
      ResolvedOne(c, s, ids[0], clock(ids[0]));
      var t := ResolveOne(c, s, ids[0], clock(ids[0]));
      var rest := ResolvedAll(c, t, ids[1..], clock);
      states := [s] + rest;
      forall k | 0 <= k < |ids|
        ensures Shaped(c, states[k]) && Resolved(c, states[k], states[k + 1], ids[k], clock(ids[k]))
      {
        if k > 0 { assert Resolved(c, rest[k - 1], rest[k], ids[1..][k - 1], clock(ids[1..][k - 1])); }
      }
    }
  }

  // ----- Attempt_ and Connected_

  /** An attempt at a known service is dated; it counts as a failure when asked to, and when none was counted
      since the last success of any peer. */
  lemma AttemptKnown(c: Config, s: Tables, id: int, countFailure: bool, time: int)
    requires Inv(c, s) && time > 0 && id in s.info
    ensures var e := s.info[id];
            var counted := countFailure && e.lastCountAttempt < s.lastGood;
            Attempt(s, e.service, countFailure, time) == s.(info := s.info[id :=
              e.(lastTry := time, lastCountAttempt := if counted then time else e.lastCountAttempt,
                 attempts := if counted then e.attempts + 1 else e.attempts)])
  {
    FindExact(c, s, s.info[id].service.net);
  }

  /** The time of a connected peer is set forward once it is more than twenty minutes old. */
  lemma ConnectedKnown(c: Config, s: Tables, id: int, time: int)
    requires Inv(c, s) && id in s.info
    ensures var e := s.info[id];
            Connected(s, e.service, time) == s.(info := s.info[id :=
              e.(nTime := if time - e.nTime > 1200 then time % 0x1_0000_0000 else e.nTime)])
  {
    FindExact(c, s, s.info[id].service.net);
  }

  lemma OthersUntouched(c: Config, s: Tables, svc: Service, countFailure: bool, time: int)
    requires Inv(c, s) && time > 0 && forall i | i in s.info :: s.info[i].service != svc
    ensures Attempt(s, svc, countFailure, time) == s && Connected(s, svc, time) == s
  {
    FindExact(c, s, svc.net);
  }

  // ----- Add_ of a known address

  /** The time and service bits a known entry has after the address was heard of again: the time only if the
      news is more than an hour newer, or a day for a peer not seen within a day, besides the penalty. */
  function Refreshed(e: AddrInfo, a: Address, penalty: int, now: int): AddrInfo {
    var gap := if now - a.nTime < 86_400 then 3_600 else 86_400;
    var newer := a.nTime > 0 && (e.nTime == 0 || a.nTime - e.nTime > gap + penalty);
    var time := if a.nTime > penalty then (a.nTime - penalty) % 0x1_0000_0000 else 0;
    e.(nTime := if newer then time else e.nTime, services := e.services + a.services)
  }

  /** Whether the source may add another reference: the news is newer than what is recorded now, the entry is
      not tried, has fewer than eight references, and the draw was lucky or it has none. */
  predicate MayGain(e: AddrInfo, a: Address, lucky: bool) {
    a.nTime > e.nTime && !e.inTried && e.refCount < 8 && (lucky || e.refCount == 0)
  }

  /** A known address is never reported as new. Its entry is refreshed, and takes the slot its source selects
      when it may gain a reference and the slot makes room; nothing else changes but the entry that held it. */
  lemma AddKnown(c: Config, s: Tables, id: int, a: Address, source: NetAddr, penalty: int, now: int, now': int,
                 lucky: bool)
    requires Inv(c, s) && id in s.info && s.info[id].service.net == a.service.net && c.isRoutable(a.service.net)
    ensures Shaped(c, s)
    ensures var (t, isNew) := Add(c, s, a, source, penalty, now, now', lucky);
            var e := Refreshed(s.info[id], a, penalty, now);
            var b := c.NewBucket(e.service, source); var p := c.Position(true, b, e.service);
            var cur := s.vvNew[b][p];
            && !isNew
            && if MayGain(e, a, lucky) && cur != id
              && (cur == EMPTY || (cur in s.info && IsTerrible(s.info[cur], now')))
               then && t.vvNew == Put(s.vvNew, b, p, id)
                    && id in t.info && SameButPos(e.(refCount := e.refCount + 1), t.info[id])
                    && forall i | i in s.info && i != id && i != cur :: i in t.info && SameButPos(s.info[i], t.info[i])
               else t == s.(info := s.info[id := e])
  {
    CoreShapes(c, s, {}, 0);
    AddIs(c, s, id, a, source, penalty, now, now', lucky);
    var e := Refreshed(s.info[id], a, penalty, now);
    if MayGain(e, a, lucky) { PlaceKnown(c, s, id, e, source, now'); }
    hide Core, Inv, Insert, Add, Find, IsTerrible, Refreshed, MayGain;
  }

  lemma AddIs(c: Config, s: Tables, id: int, a: Address, source: NetAddr, penalty: int, now: int, now': int,
              lucky: bool)
    requires Inv(c, s) && id in s.info && s.info[id].service.net == a.service.net && c.isRoutable(a.service.net)
    ensures var e := Refreshed(s.info[id], a, penalty, now); var s1 := s.(info := s.info[id := e]);
            && e.service == s.info[id].service && e.inTried == s.info[id].inTried && e.refCount == s.info[id].refCount
            && (!e.inTried ==> 1 <= e.refCount <= 8)
            && (MayGain(e, a, lucky) ==> Core(c, s1, {id}, 0))
            && Add(c, s, a, source, penalty, now, now', lucky)
               == (if MayGain(e, a, lucky) then Insert(c, s1, id, source, now') else s1, false)
  {
    FindExact(c, s, a.service.net);
    var e := Refreshed(s.info[id], a, penalty, now);
    assert e == Reheard(s.info[id], a, penalty, now);
    assert RefEntry(c, s.info[id], id, s.vvNew, {});
    assert Ignored(e, a, lucky) <==> !MayGain(e, a, lucky);
    hide Refreshed, Reheard, Ignored, Find;
    if MayGain(e, a, lucky) { InsertReady(c, s, id, e); }
    hide Inv, Insert;
  }

  lemma PlaceKnown(c: Config, s: Tables, id: int, e: AddrInfo, source: NetAddr, now: int)
    requires Inv(c, s) && id in s.info && Core(c, s.(info := s.info[id := e]), {id}, 0)
    requires !e.inTried && 1 <= e.refCount < 8 && e.service == s.info[id].service
    ensures Shaped(c, s)
    ensures var t := Insert(c, s.(info := s.info[id := e]), id, source, now);
            var b := c.NewBucket(e.service, source); var p := c.Position(true, b, e.service);
            var cur := s.vvNew[b][p];
            if cur != id && (cur == EMPTY || (cur in s.info && IsTerrible(s.info[cur], now)))
            then && t.vvNew == Put(s.vvNew, b, p, id)
                 && id in t.info && SameButPos(e.(refCount := e.refCount + 1), t.info[id])
                 && forall i | i in s.info && i != id && i != cur :: i in t.info && SameButPos(s.info[i], t.info[i])
            else t == s.(info := s.info[id := e])
  {
    hide Core, Inv, Insert, IsTerrible;
    InvShaped(c, s);
    var s1 := s.(info := s.info[id := e]);
    var b := c.NewBucket(e.service, source);
    var p := c.Position(true, b, e.service);
    var cur := s.vvNew[b][p];
    SlotKnown(c, s, b, p);
    hide Shape, Shaped;
    if cur != id && GivesWay(s1, cur, id, now) {
      InsertTakesSlot(c, s1, id, source, now, b, p, cur);
    } else {
      InsertStaysOut(c, s1, id, source, now, b, p, cur);
    }
  }

  lemma SlotKnown(c: Config, s: Tables, b: nat, p: nat)
    requires Inv(c, s) && Shaped(c, s) && b < c.newBuckets && p < c.bucketSize
    ensures s.vvNew[b][p] != EMPTY ==> s.vvNew[b][p] in s.info
  {
    NewOccupant(c, s, b, p, {}, 0);
  }

  lemma AddUnroutable(c: Config, s: Tables, a: Address, source: NetAddr, penalty: int, now: int, now': int, lucky: bool)
    requires Inv(c, s) && !c.isRoutable(a.service.net)
    ensures Add(c, s, a, source, penalty, now, now', lucky) == (s, false)
  {
  }
}
