/** The address manager object: its in-place code, proved to compute the operations of `AddrRuns`.
    The slot tables are members embedded in the object, so they are fields holding values. */
module AddrManager {
  import opened Prelude
  import opened AddrTables
  import opened AddrMoves
  import Ops = AddrOps
  import Runs = AddrRuns
  import T = AddrTables
  import Orders

  ghost function From(a: set<nat>, b: nat): set<nat> { set k | k in a && k >= b }

  lemma FromStep(a: set<nat>, b: nat)
    ensures |From(a, b)| == |From(a, b + 1)| + if b in a then 1 else 0
  {
    if b in a {
      assert From(a, b) == From(a, b + 1) + {b};
    } else {
      assert From(a, b) == From(a, b + 1);
    }
  }

  function Rotate(m: nat, start: nat, n: nat): (b: nat)
    requires n > 0
    ensures b < n
  {
    (m + start) % n
  }

  lemma RotateOnto(b: nat, start: nat, n: nat) returns (m: nat)
    requires b < n && start < n
    ensures m < n && Rotate(m, start, n) == b
  {
    m := if b >= start then b - start else b - start + n;
  }

  /** An entry has left the buckets below `b`, and its count is what remains. */
  ghost predicate Leaving(c: Config, s: Tables, id: int, t: Table, info: map<int, AddrInfo>, b: nat)
    requires c.Ok() && Shape(s.vvNew, c.newBuckets, c.bucketSize) && id in s.info
  {
    && b <= c.newBuckets && t == Purge(c, s.vvNew, s.info[id].service, id, b)
    && info == s.info[id := s.info[id].(refCount := |From(Slots(c, s.vvNew, s.info[id].service, id), b)|)]
  }

  lemma LeaveStart(c: Config, s: Tables, id: int)
    requires Core(c, s, {}, 0) && id in s.info
    ensures Leaving(c, s, id, s.vvNew, s.info, 0)
  {
    assert RefEntry(c, s.info[id], id, s.vvNew, {});
    assert From(Slots(c, s.vvNew, s.info[id].service, id), 0) == Slots(c, s.vvNew, s.info[id].service, id);
    hide Core;
    assert Purge(c, s.vvNew, s.info[id].service, id, 0) == s.vvNew;
  }

  lemma LeaveStep(c: Config, s: Tables, id: int, t: Table, info: map<int, AddrInfo>, b: nat)
    requires c.Ok() && Shape(s.vvNew, c.newBuckets, c.bucketSize) && id in s.info && b < c.newBuckets
    requires Leaving(c, s, id, t, info, b)
    ensures id in info && Shape(t, c.newBuckets, c.bucketSize)
    ensures var p := c.Position(true, b, s.info[id].service);
            if t[b][p] == id
            then Leaving(c, s, id, Put(t, b, p, EMPTY), info[id := info[id].(refCount := info[id].refCount - 1)], b + 1)
            else Leaving(c, s, id, t, info, b + 1)
  {
    PurgeStep(c, s.vvNew, s.info[id].service, id, b);
    FromStep(Slots(c, s.vvNew, s.info[id].service, id), b);
  }

  lemma LeaveDone(c: Config, s: Tables, id: int, t: Table, info: map<int, AddrInfo>)
    requires c.Ok() && Shape(s.vvNew, c.newBuckets, c.bucketSize) && id in s.info
    requires Leaving(c, s, id, t, info, c.newBuckets)
    ensures s.(vvNew := t, info := info, nNew := s.nNew - 1) == Detach(c, s, id)
  {
    assert From(Slots(c, s.vvNew, s.info[id].service, id), c.newBuckets) == {};
  }

  class AddrMan {
    const cfg: Config
    var idCount: nat
    var info: map<int, AddrInfo>
    var addr: map<NetAddr, int>
    var random: seq<int>
    var nTried: int
    var vvTried: Table
    var nNew: int
    var vvNew: Table
    var lastGood: int
    var collisions: set<int>

    function Snap(): Tables
      reads this
    {
      Tables(idCount, info, addr, random, nTried, vvTried, nNew, vvNew, lastGood, collisions)
    }

    ghost predicate Valid()
      reads this
    {
      Inv(cfg, Snap())
    }

    constructor (c: Config)
      requires c.Ok()
      ensures cfg == c && Snap() == Initial(c) && Valid()
    {
      cfg := c;
      idCount, info, addr, random := 0, map[], map[], [];
      nTried, vvTried := 0, EmptyTable(c.triedBuckets, c.bucketSize);
      nNew, vvNew := 0, EmptyTable(c.newBuckets, c.bucketSize);
      lastGood, collisions := 1, {};
      new;
      InitialInv(c);
    }

    // ----- primitives

    method SwapRandom(i: int, j: int)
      requires i != j ==> InRandom(Snap(), i) && InRandom(Snap(), j)
      modifies this
      ensures Snap() == T.SwapRandom(old(Snap()), i, j)
    {
      if i == j { return; }
      var id1, id2 := random[i], random[j];
      info := info[id1 := info[id1].(randomPos := j)];
      info := info[id2 := info[id2].(randomPos := i)];
      random := random[i := id2];
      random := random[j := id1];
    }

    method Delete(id: int)
      requires Deletable(Snap(), id)
      modifies this
      ensures Snap() == T.Delete(old(Snap()), id)
    {
      var net := info[id].service.net;
      SwapRandom(info[id].randomPos, |random| - 1);
      random := random[..|random| - 1];
      addr := addr - {net};
      info := info - {id};
      nNew := nNew - 1;
    }

    method ClearNew(b: nat, p: nat)
      requires Clearable(Snap(), b, p)
      modifies this
      ensures Snap() == T.ClearNew(old(Snap()), b, p)
    {
      if vvNew[b][p] != EMPTY {
        var id := vvNew[b][p];
        info := info[id := info[id].(refCount := info[id].refCount - 1)];
        vvNew := Put(vvNew, b, p, EMPTY);
        if info[id].refCount == 0 {
          Delete(id);
        }
      }
    }

    /** The loop that takes an entry out of every "new" bucket, and the counter it maintains. */
    method LeaveNewBuckets(id: int)
      requires Core(cfg, Snap(), {}, 0) && id in info && !info[id].inTried
      modifies this
      ensures Snap() == Detach(cfg, old(Snap()), id)
    {
      hide Core, Leaving, Slots;
      ghost var s := Snap();
      var svc := info[id].service;
      Ops.CoreShapes(cfg, s, {}, 0);
      LeaveStart(cfg, s, id);
      for b := 0 to cfg.newBuckets
        invariant Snap() == s.(vvNew := vvNew, info := info)
        invariant Leaving(cfg, s, id, vvNew, info, b)
      {
        var p := cfg.Position(true, b, svc);
        LeaveStep(cfg, s, id, vvNew, info, b);
        if vvNew[b][p] == id {
          vvNew := Put(vvNew, b, p, EMPTY);
          info := info[id := info[id].(refCount := info[id].refCount - 1)];
        }
      }
      LeaveDone(cfg, s, id, vvNew, info);
      nNew := nNew - 1;
    }

    method MakeTried(id: int)
      requires Core(cfg, Snap(), {}, 0) && id in info && !info[id].inTried
      modifies this
      ensures Snap() == Ops.MakeTried(cfg, old(Snap()), id)
    {
      hide Core, Ops.Evict, T.ClearNew, Clearable;
      ghost var s := Snap();
      Ops.CoreShapes(cfg, s, {}, 0);
      DetachKeeps(cfg, s, id);
      LeaveNewBuckets(id);
      assert info[id].refCount == 0;
      ghost var d := Snap();
      var svc := info[id].service;
      var kb, kp := cfg.TriedBucket(svc), cfg.TriedPos(svc);
      if vvTried[kb][kp] != EMPTY {
        var evicted := vvTried[kb][kp];
        Ops.TriedOccupant(cfg, d, kb, kp, {id}, 1);
        assert evicted in info;
        Ops.EvictStep(cfg, d, evicted, id);
        Ops.EvictKeeps(cfg, d, evicted, id);
        Evict(evicted, id, kb, kp);
      }
      assert vvTried[kb][kp] == EMPTY;
      vvTried := Put(vvTried, kb, kp, id);
      nTried := nTried + 1;
      info := info[id := info[id].(inTried := true)];
    }

    /** Making room in a "tried" slot: its entry goes back to the "new" table. */
    method Evict(evicted: int, ghost id: int, kb: nat, kp: nat)
      requires Core(cfg, Snap(), {id}, 1) && evicted in info && info[evicted].inTried
      requires id in info && info[id].refCount == 0 && id != evicted
      requires kb == cfg.TriedBucket(info[evicted].service) && kp == cfg.TriedPos(info[evicted].service)
      modifies this
      ensures Snap() == Ops.Evict(cfg, old(Snap()), evicted, id)
      ensures kb < |vvTried| && kp < |vvTried[kb]| && vvTried[kb][kp] == EMPTY
    {
      hide Core, T.ClearNew, Clearable;
      ghost var s := Snap();
      Ops.EvictStep(cfg, s, evicted, id);
      info := info[evicted := info[evicted].(inTried := false)];
      vvTried := Put(vvTried, kb, kp, EMPTY);
      nTried := nTried - 1;
      var ub := cfg.NewBucket(info[evicted].service, info[evicted].source);
      var up := cfg.Position(true, ub, info[evicted].service);
      assert Snap() == Demote(cfg, s, evicted);
      ClearNew(ub, up);
      assert vvNew[ub][up] == EMPTY;
      assert info[evicted].refCount == 0;
      hide Demote;
      info := info[evicted := info[evicted].(refCount := 1)];
      vvNew := Put(vvNew, ub, up, evicted);
      nNew := nNew + 1;
    }

    // ----- operations

    method Find(net: NetAddr) returns (r: Option<int>)
      requires Valid()
      ensures r == Runs.Find(Snap(), net)
      ensures r.None? ==> forall i | i in info :: info[i].service.net != net
      ensures r.Some? ==> r.value in info && info[r.value].service.net == net
    {
      hide Inv;
      Runs.FindExact(cfg, Snap(), net);
      if net !in addr { return None; }
      var id := addr[net];
      if id !in info { return None; }
      return Some(id);
    }

    /** An arbitrary draw below `max`. */
    method RandomInt(max: nat) returns (r: nat)
      requires max > 0
      ensures r < max
    {
      r :| r < max;
    }

    /** The search of Good_ for a bucket that holds the entry always succeeds. */
    method FindNewBucket(id: int) returns (b: int)
      requires Core(cfg, Snap(), {}, 0) && id in info && !info[id].inTried
      ensures 0 <= b < cfg.newBuckets && b in Slots(cfg, vvNew, info[id].service, id)
    {
      assert RefEntry(cfg, info[id], id, vvNew, {});
      ghost var held := Slots(cfg, vvNew, info[id].service, id);
      ghost var witness_: nat := Orders.Element(held);
      Ops.CoreShapes(cfg, Snap(), {}, 0);
      hide Core, Rotate;
      var start := RandomInt(cfg.newBuckets);
      for n := 0 to cfg.newBuckets
        invariant forall m: nat | m < n :: Rotate(m, start, cfg.newBuckets) !in held
      {
        b := Rotate(n, start, cfg.newBuckets);
        var p := cfg.Position(true, b, info[id].service);
        if vvNew[b][p] == id { return; }
      }
      ghost var m := RotateOnto(witness_, start, cfg.newBuckets);
      assert false;
    }

    method Good(svc: Service, testBeforeEvict: bool, time: int)
      requires Valid() && time > 0
      modifies this
      ensures Snap() == Runs.Good(cfg, old(Snap()), svc, testBeforeEvict, time)
      ensures Valid() && Ops.Evolves(old(Snap()), Snap())
    {
      ghost var s := Snap();
      hide Inv, Ops.Evolves;
      Runs.GoodKeeps(cfg, s, svc, testBeforeEvict, time);
      Runs.LastGoodFree(cfg, s, time);
      var found := Find(svc.net);
      lastGood := time;
      if found.None? { return; }
      var id := found.value;
      if info[id].service != svc { return; }
      Runs.RefreshKeeps(cfg, Snap(), id, Runs.Succeeded(info[id], time)) by { GoodRefreshes(cfg, s, id, time); }
      info := info[id := info[id].(lastSuccess := time, lastTry := time, attempts := 0)];
      if info[id].inTried { return; }
      Advance(id, testBeforeEvict);
    }

    /** The rest of Good_ for an entry that is not tried yet. */
    method Advance(id: int, testBeforeEvict: bool)
      requires Valid() && id in info && !info[id].inTried
      modifies this
      ensures Snap() == Runs.Advance(cfg, old(Snap()), id, testBeforeEvict)
    {
      InvCore(cfg, Snap());
      hide Core;
      var bucket := FindNewBucket(id);
      Ops.CoreShapes(cfg, Snap(), {}, 0);
      var svc := info[id].service;
      var kb, kp := cfg.TriedBucket(svc), cfg.TriedPos(svc);
      if testBeforeEvict && vvTried[kb][kp] != EMPTY {
        if |collisions| < TRIED_COLLISION_SIZE {
          collisions := collisions + {id};
        }
      } else {
        MakeTried(id);
      }
    }

    method Attempt(svc: Service, countFailure: bool, time: int)
      requires Valid() && time > 0
      modifies this
      ensures Snap() == Runs.Attempt(old(Snap()), svc, countFailure, time)
      ensures Valid() && Ops.Evolves(old(Snap()), Snap())
    {
      hide Inv, Ops.Evolves;
      Runs.AttemptKeeps(cfg, Snap(), svc, countFailure, time);
      var found := Find(svc.net);
      if found.None? { return; }
      var id := found.value;
      if info[id].service != svc { return; }
      var count := countFailure && info[id].lastCountAttempt < lastGood;
      info := info[id := info[id].(lastTry := time)];
      if count {
        info := info[id := info[id].(lastCountAttempt := time, attempts := info[id].attempts + 1)];
      }
    }

    method Connected(svc: Service, time: int)
      requires Valid()
      modifies this
      ensures Snap() == Runs.Connected(old(Snap()), svc, time)
      ensures Valid() && Ops.Evolves(old(Snap()), Snap())
    {
      hide Inv, Ops.Evolves;
      Runs.ConnectedKeeps(cfg, Snap(), svc, time);
      var found := Find(svc.net);
      if found.None? { return; }
      var id := found.value;
      if info[id].service != svc { return; }
      if time - info[id].nTime > 20 * 60 {
        info := info[id := info[id].(nTime := Runs.U32(time))];
      } else {
        assert info[id := info[id]] == info;
      }
    }

    method Create(a: Address, source: NetAddr) returns (id: int)
      modifies this
      ensures Snap() == Runs.Create(old(Snap()), a, source) && id == old(idCount)
    {
      id := idCount;
      idCount := idCount + 1;
      info := info[id := FreshInfo(a, source)];
      addr := addr[a.service.net := id];
      info := info[id := info[id].(randomPos := |random|)];
      random := random + [id];
    }

    /** The second half of Add_: claim the slot that the address and its source select. */
    method Insert(id: int, source: NetAddr, now: int)
      requires Core(cfg, Snap(), {id}, 0) && id in info && !info[id].inTried
      requires info[id].refCount < NEW_BUCKETS_PER_ADDRESS
      modifies this
      ensures Snap() == Runs.Insert(cfg, old(Snap()), id, source, now)
    {
      hide Core, T.ClearNew, Clearable, T.Delete, Deletable;
      ghost var s := Snap();
      Ops.CoreShapes(cfg, s, {id}, 0);
      var b := cfg.NewBucket(info[id].service, source);
      var p := cfg.Position(true, b, info[id].service);
      if vvNew[b][p] != id {
        Runs.NewOccupant(cfg, s, b, p, {id}, 0);
        var insert := vvNew[b][p] == EMPTY;
        if !insert {
          var existing := info[vvNew[b][p]];
          if Runs.IsTerrible(existing, now) || (existing.refCount > 1 && info[id].refCount == 0) {
            insert := true;
          }
        }
        if insert {
          ClearNewKeeps(cfg, s, b, p, {id}, 0);
          ClearNew(b, p);
          info := info[id := info[id].(refCount := info[id].refCount + 1)];
          vvNew := Put(vvNew, b, p, id);
        } else if info[id].refCount == 0 {
          DeleteKeeps(cfg, s, id, {id}, 0);
          Delete(id);
        }
      }
    }

    /** `draw` decides the stochastic test: another reference is twice as hard to gain as the one before. */
    method Add(a: Address, source: NetAddr, penalty: int, now: int, now': int, draw: nat) returns (isNew: bool)
      requires Valid()
      modifies this
      ensures (Snap(), isNew)
              == Runs.Add(cfg, old(Snap()), a, source, penalty, now, now', Luck(old(Snap()), a.service.net, draw))
      ensures Valid() && Ops.Evolves(old(Snap()), Snap())
    {
      hide Inv, Ops.Evolves, Core, Runs.Insert, Runs.Reheard, Runs.U32, Runs.Max;
      ghost var s := Snap();
      Runs.AddKeeps(cfg, s, a, source, penalty, now, now', Luck(s, a.service.net, draw));
      isNew := false;
      if !cfg.isRoutable(a.service.net) { return; }
      var found := Find(a.service.net);
      var id;
      if found.Some? {
        id := found.value;
        CountedOnce(cfg, s, id);
        var ignored := HearAgain(id, a, penalty, now, draw);
        if ignored { return; }
        RehearReady(cfg, s, id, a, penalty, now);
      } else {
        Runs.EnrolledKeeps(cfg, s, a, source, penalty) by { InvCore(cfg, s); }
        id := Create(a, source);
        info := info[id := info[id].(nTime := Runs.U32(Runs.Max(0, info[id].nTime - penalty)))];
        nNew := nNew + 1;
        isNew := true;
      }
      Insert(id, source, now');
    }

    /** nTime and the service bits are refreshed by every announcement of a known address. */
    method Rehear(id: int, a: Address, penalty: int, now: int)
      requires id in info
      modifies this`info
      ensures info == old(info)[id := Runs.Reheard(old(info[id]), a, penalty, now)]
    {
      hide Runs.U32, Runs.Max;
      var interval := if now - a.nTime < Runs.DAY then Runs.HOUR else Runs.DAY;
      if a.nTime != 0 && (info[id].nTime == 0 || info[id].nTime < a.nTime - interval - penalty) {
        info := info[id := info[id].(nTime := Runs.U32(Runs.Max(0, a.nTime - penalty)))];
      }
      info := info[id := info[id].(services := info[id].services + a.services)];
    }

    /** Whether an announcement of a known address changes nothing but its data. */
    method HearAgain(id: int, a: Address, penalty: int, now: int, draw: nat) returns (ignored: bool)
      requires id in info && info[id].refCount >= 0
      modifies this`info
      ensures info == old(info)[id := Runs.Reheard(old(info[id]), a, penalty, now)]
      ensures ignored == Runs.Ignored(info[id], a, draw % Pow2(old(info[id]).refCount) == 0)
    {
      assert Runs.Reheard(info[id], a, penalty, now).refCount == info[id].refCount;
      hide Runs.Reheard;
      Rehear(id, a, penalty, now);
      ignored := true;
      if a.nTime == 0 || (info[id].nTime != 0 && a.nTime <= info[id].nTime) { return; }
      if info[id].inTried { return; }
      if info[id].refCount == NEW_BUCKETS_PER_ADDRESS { return; }
      var factor := Power2(info[id].refCount);
      if factor > 1 && draw % factor != 0 { return; }
      ignored := false;
    }

    method Power2(n: nat) returns (f: nat)
      ensures f == Pow2(n)
    {
      f := 1;
      for i := 0 to n
        invariant f == Pow2(i)
      {
        f := f * 2;
      }
    }

    /** The entries at the front of the shuffled vector that are not terrible, in order and each once, until
        there are 23% of all entries or 2500 of them. */
    method GetAddr(clock: int -> int, draws: seq<nat>)
      returns (out: seq<AddrInfo>, ghost visited: nat, ghost from: seq<int>)
      requires Valid() && |draws| >= |random|
      modifies this
      ensures Valid() && Ops.Evolves(old(Snap()), Snap()) && SameInfo(old(info), info)
      ensures visited <= |random| == old(|random|) && Snap() == Runs.Shuffle(cfg, old(Snap()), draws[..visited], 0)
      ensures |out| <= GetAddrLimit(|random|) && (visited == |random| || |out| == GetAddrLimit(|random|))
      ensures from == Healthy(info, random[..visited], clock)
      ensures |from| == |out| && forall k | 0 <= k < |out| :: Reported(info, from[k], out[k], clock)
      ensures forall j, k | 0 <= j < k < |from| :: from[j] != from[k]
    {
      hide Inv, Ops.Evolves, Core, Runs.IsTerrible, T.SwapRandom, InRandom, SameInfo, Gathered, Reported,
        Healthy, Runs.Pick, Runs.Shuffle;
      out, from, visited := [], [], 0;
      ghost var s := Snap();
      Runs.ShuffleKeeps(cfg, s, [], 0);
      ShuffleNone(cfg, s);
      GatherNone(info, random, clock);
      assert draws[..0] == [];
      SameInfoRefl(info);
      var limit := Runs.GETADDR_MAX_PCT * |random| / 100;
      if limit > Runs.GETADDR_MAX { limit := Runs.GETADDR_MAX; }
      var n := 0;
      while n < |random|
        invariant n <= |random| == |s.random| && visited == n && |out| <= limit
        invariant Snap() == Runs.Shuffle(cfg, s, draws[..n], 0)
        invariant Valid() && Ops.Evolves(s, Snap()) && SameInfo(s.info, info)
        invariant Gathered(info, random, n, from, out, clock)
      {
        if |out| >= limit { break; }
        var r := draws[n] % (|random| - n);
        ghost var t := Snap();
        Runs.ShuffleStep(cfg, t, n, n + r);
        assert draws[..n + 1] == draws[..n] + [draws[n]];
        Runs.ShuffleKeeps(cfg, s, draws[..n + 1], 0);
        Runs.ShuffleAppend(cfg, s, draws[..n], draws[n], 0);
        PickIs(n, |random|, draws[n]);
        SwapRandom(n, n + r);
        SwapReported(cfg, t, n, n + r, from, out, clock);
        SameInfoTrans(s.info, t.info, info);
        var id := random[n];
        if !Runs.IsTerrible(info[id], clock(id)) {
          out, from := out + [info[id]], from + [id];
        }
        n := n + 1;
        visited := n;
      }
      Gathering(info, random, n, from, out, clock);
    }

    /** One round of the loop of ResolveCollisions_. The branch for a slot that is no longer
        occupied is unreachable. */
    method ResolveOne(id: int, now: Runs.Readings)
      requires Valid() && now.good > 0 && id in collisions
      modifies this
      ensures Snap() == Runs.ResolveOne(cfg, old(Snap()), id, now)
    {
      hide Inv, Runs.Good;
      var erase := false;
      if id !in info {
        erase := true;
      } else {
        ValidShapes(cfg, Snap());
        var svc := info[id].service;
        var kb, kp := cfg.TriedBucket(svc), cfg.TriedPos(svc);
        Runs.PendingMeetsOccupant(cfg, Snap(), id);
        if !cfg.isValid(svc.net) {
          erase := true;
        } else if vvTried[kb][kp] != EMPTY {
          var occupant := info[vvTried[kb][kp]];
          if now.success - occupant.lastSuccess < Runs.REPLACEMENT_SECONDS {
            erase := true;
          } else if now.lastTry - occupant.lastTry < Runs.REPLACEMENT_SECONDS {
            if now.wait - occupant.lastTry > 60 {
              Good(svc, false, now.good);
              erase := true;
            }
          }
        } else {
          assert false;
        }
      }
      if erase { collisions := collisions - {id}; }
    }

    method ResolveCollisions(clock: Runs.Clock)
      requires Valid() && Runs.Running(clock)
      modifies this
      ensures Snap() == Runs.ResolveAll(cfg, old(Snap()), Orders.Ascending(old(collisions)), clock)
      ensures Valid() && Ops.Evolves(old(Snap()), Snap())
    {
      hide Inv, Ops.Evolves, Runs.ResolveOne, Orders.Ascending;
      ghost var s := Snap();
      Runs.ResolveAllKeeps(cfg, s, Orders.Ascending(collisions), clock);
      var todo := collisions;
      while todo != {}
        invariant Valid() && todo <= collisions
        invariant Runs.ResolveAll(cfg, Snap(), Orders.Ascending(todo), clock)
               == Runs.ResolveAll(cfg, s, Orders.Ascending(s.collisions), clock)
        decreases |todo|
      {
        Orders.LeastExists(todo);
        var id :| id in todo && forall x | x in todo :: id <= x;
        Orders.AscendingHead(todo, id);
        Runs.ResolveOneKeeps(cfg, Snap(), id, clock(id));
        ResolveOne(id, clock(id));
        todo := todo - {id};
      }
      Orders.AscendingNone();
    }

    /** A random entry that a pending collision would evict. The lookup of the occupant never
        misses: the result is a tried entry of the manager. */
    method SelectTriedCollision(draw: nat) returns (r: Option<AddrInfo>, ghost chosen: int)
      requires Valid()
      modifies this`collisions
      ensures old(collisions) != {} ==>
                && |Orders.Ascending(old(collisions))| == |old(collisions)|
                && chosen == Orders.Ascending(old(collisions))[draw % |old(collisions)|]
      ensures Snap() == Runs.Step(cfg, old(Snap()), Runs.OpSelectCollision(chosen))
      ensures r.Some? <==> chosen in old(collisions) && chosen in info
      ensures r.Some? ==> exists i | i in info ::
                info[i] == r.value && r.value.inTried && TargetOf(cfg, vvTried, info, chosen, i)
      ensures old(collisions) != {} ==> chosen in old(collisions)
      ensures collisions == if chosen in info then old(collisions) else old(collisions) - {chosen}
    {
      hide Inv;
      if collisions == {} { return None, 0; }
      var id := NthSmallest(collisions, draw % |collisions|);
      chosen := id;
      if id !in info {
        collisions := collisions - {id};
        return None, id;
      }
      ValidShapes(cfg, Snap());
      Runs.PendingMeetsOccupant(cfg, Snap(), id);
      var svc := info[id].service;
      var occupant := vvTried[cfg.TriedBucket(svc)][cfg.TriedPos(svc)];
      assert TargetOf(cfg, vvTried, info, id, occupant);
      r := Some(info[occupant]);
    }
  }

  /** Advancing an iterator of a set. */
  method NthSmallest(a: set<int>, k: nat) returns (x: int)
    requires k < |a|
    ensures |Orders.Ascending(a)| == |a| && x == Orders.Ascending(a)[k]
  {
    hide Orders.Ascending;
    var rest := a;
    Orders.AscendingSize(a);
    ghost var all := Orders.Ascending(a);
    for i := 0 to k
      invariant |rest| == |a| - i && Orders.Ascending(rest) == all[i..]
    {
      var m := SmallestOf(rest);
      HeadIs(rest, m, all, i);
      rest := rest - {m};
    }
    x := SmallestOf(rest);
    HeadIs(rest, x, all, k);
  }

  lemma HeadIs(rest: set<int>, m: int, all: seq<int>, i: nat)
    requires m in rest && (forall x | x in rest :: m <= x) && i <= |all| && Orders.Ascending(rest) == all[i..]
    ensures i < |all| && m == all[i] && Orders.Ascending(rest - {m}) == all[i + 1..]
  {
    hide Orders.Ascending;
    Orders.AscendingHead(rest, m);
    var tail := Orders.Ascending(rest - {m});
    assert all[i..] == [m] + tail;
    assert all[i..][0] == m;
    assert tail == all[i..][1..] == all[i + 1..];
  }

  method SmallestOf(a: set<int>) returns (m: int)
    requires a != {}
    ensures m in a && forall x | x in a :: m <= x
  {
    Orders.LeastExists(a);
    m :| m in a && forall x | x in a :: m <= x;
  }

  /** `i` stands in the "tried" slot that entry `id` would move to. */
  ghost predicate TargetOf(c: Config, t: Table, info: map<int, AddrInfo>, id: int, i: int) {
    && c.Ok() && Shape(t, c.triedBuckets, c.bucketSize) && id in info
    && HasTriedSlot(c, t, info[id].service, i)
  }

  lemma ValidShapes(c: Config, s: Tables)
    requires Inv(c, s)
    ensures c.Ok() && Shape(s.vvNew, c.newBuckets, c.bucketSize) && Shape(s.vvTried, c.triedBuckets, c.bucketSize)
  {
    hide Core;
    Ops.CoreShapes(c, s, {}, 0);
  }

  lemma InvCore(c: Config, s: Tables)
    requires Inv(c, s)
    ensures Core(c, s, {}, 0)
  {
  }

  lemma GoodRefreshes(c: Config, s: Tables, id: int, time: int)
    requires Inv(c, s) && id in s.info && time > 0
    ensures Runs.Refreshes(s.info[id], Runs.Succeeded(s.info[id], time))
  {
  }

  lemma RehearReady(c: Config, s: Tables, id: int, a: Address, penalty: int, now: int)
    requires Inv(c, s) && id in s.info
    ensures var e := Runs.Reheard(s.info[id], a, penalty, now);
            !e.inTried && e.refCount != NEW_BUCKETS_PER_ADDRESS ==>
              Core(c, s.(info := s.info[id := e]), {id}, 0) && e.refCount < NEW_BUCKETS_PER_ADDRESS
  {
    var e := Runs.Reheard(s.info[id], a, penalty, now);
    if !e.inTried && e.refCount != NEW_BUCKETS_PER_ADDRESS {
      Runs.InsertReady(c, s, id, e);
    }
  }

  /** `e` is what GetAddr_ copied from entry `id`. */
  ghost predicate Reported(info: map<int, AddrInfo>, id: int, e: AddrInfo, clock: int -> int) {
    id in info && SameButPos(e, info[id]) && !Runs.IsTerrible(e, clock(id))
  }

  /** What GetAddr_ has collected from the first n places of the random vector. */
  ghost predicate Gathered(info: map<int, AddrInfo>, random: seq<int>, n: nat, from: seq<int>, out: seq<AddrInfo>,
                           clock: int -> int) {
    && n <= |random| && from == Healthy(info, random[..n], clock) && |from| == |out|
    && (forall k | 0 <= k < |out| :: Reported(info, from[k], out[k], clock))
    && (forall k | 0 <= k < |from| :: from[k] in random[..n])
    && (forall j, k | 0 <= j < k < |from| :: from[j] != from[k])
  }

  lemma GatherNone(info: map<int, AddrInfo>, random: seq<int>, clock: int -> int)
    ensures Gathered(info, random, 0, [], [], clock)
  {
    assert random[..0] == [];
  }

  lemma Gathering(info: map<int, AddrInfo>, random: seq<int>, n: nat, from: seq<int>, out: seq<AddrInfo>,
                  clock: int -> int)
    requires Gathered(info, random, n, from, out, clock)
    ensures n <= |random| && from == Healthy(info, random[..n], clock)
    ensures |from| == |out| && forall k | 0 <= k < |out| :: Reported(info, from[k], out[k], clock)
    ensures forall j, k | 0 <= j < k < |from| :: from[j] != from[k]
  {
  }

  lemma SwapReported(c: Config, t: Tables, n: nat, j: nat, from: seq<int>, out: seq<AddrInfo>, clock: int -> int)
    requires Inv(c, t) && n <= j < |t.random| && InRandom(t, n) && InRandom(t, j)
    requires Gathered(t.info, t.random, n, from, out, clock)
    ensures var u := T.SwapRandom(t, n, j); var id := u.random[n];
            && |u.random| == |t.random| && id in u.info && |from| == |out|
            && if Runs.IsTerrible(u.info[id], clock(id)) then Gathered(u.info, u.random, n + 1, from, out, clock)
               else Gathered(u.info, u.random, n + 1, from + [id], out + [u.info[id]], clock)
  {
    hide Core, Inv, Runs.IsTerrible, Gathered, T.SwapRandom, RandomOk, InRandom, SameInfo;
    SwapFront(c, t, n, j);
    var u := T.SwapRandom(t, n, j);
    Gathering(t.info, t.random, n, from, out, clock);
    GatherStep(t.info, u.info, t.random, u.random, n, from, out, clock);
  }

  lemma SwapFront(c: Config, t: Tables, n: nat, j: nat)
    requires Inv(c, t) && n <= j < |t.random| && InRandom(t, n) && InRandom(t, j)
    ensures var u := T.SwapRandom(t, n, j);
            && |u.random| == |t.random| && u.random[..n] == t.random[..n] && u.random[n] in u.info
            && u.random[n] !in u.random[..n] && SameInfo(t.info, u.info)
  {
    hide Core, CollisionsOk;
    CoreRandom(c, t);
    SwapRandomOk(t, n, j);
    var u := T.SwapRandom(t, n, j);
    assert forall k | 0 <= k < n :: u.info[u.random[k]].randomPos == k;
  }

  lemma GatherStep(info: map<int, AddrInfo>, info': map<int, AddrInfo>, random: seq<int>, random': seq<int>, n: nat,
                   from: seq<int>, out: seq<AddrInfo>, clock: int -> int)
    requires Gathered(info, random, n, from, out, clock) && SameInfo(info, info')
    requires n < |random| == |random'| && random'[..n] == random[..n] && random'[n] in info'
             && random'[n] !in random'[..n]
    ensures var id := random'[n];
            if Runs.IsTerrible(info'[id], clock(id)) then Gathered(info', random', n + 1, from, out, clock)
            else Gathered(info', random', n + 1, from + [id], out + [info'[id]], clock)
  {
    hide Runs.IsTerrible;
    assert random'[..n + 1] == random'[..n] + [random'[n]];
    assert random'[..n + 1][..n] == random'[..n];
    HealthySame(info, info', random[..n], clock);
    forall k | 0 <= k < |out| ensures Reported(info', from[k], out[k], clock) {
      assert Reported(info, from[k], out[k], clock);
      assert SameButPos(info[from[k]], info'[from[k]]);
    }
  }

  lemma CoreRandom(c: Config, s: Tables)
    requires Inv(c, s)
    ensures RandomOk(s.info, s.random)
  {
  }

  lemma ShuffleNone(c: Config, s: Tables)
    requires Inv(c, s)
    ensures Runs.Shuffle(c, s, [], 0) == s
  {
  }

  lemma PickIs(n: nat, size: nat, draw: nat)
    requires n < size
    ensures Runs.Pick(n, size, draw) == n + draw % (size - n)
  {
  }

  /** 23% of the entries, at most 2500. */
  function GetAddrLimit(entries: nat): nat { if entries * 23 / 100 > 2500 then 2500 else entries * 23 / 100 }

  /** The ids of known entries that are not terrible, in the given order. */
  ghost function Healthy(info: map<int, AddrInfo>, ids: seq<int>, clock: int -> int): seq<int> {
    if ids == [] then []
    else
      var n := |ids| - 1;
      var id := ids[n];
      Healthy(info, ids[..n], clock)
      + (if id in info && !Runs.IsTerrible(info[id], clock(id)) then [id] else [])
  }

  lemma {:induction false} HealthySame(info: map<int, AddrInfo>, info': map<int, AddrInfo>, ids: seq<int>,
                                       clock: int -> int)
    requires SameInfo(info, info')
    ensures Healthy(info, ids, clock) == Healthy(info', ids, clock)
  {
    if ids != [] {
      var n := |ids| - 1;
      HealthySame(info, info', ids[..n], clock);
      var id := ids[n];
      assert id in info.Keys <==> id in info'.Keys;
      if id in info { assert SameButPos(info[id], info'[id]); }
    }
  }

  /** Whether the draw lets a known address gain a reference. */
  ghost predicate Luck(s: Tables, net: NetAddr, draw: nat) {
    match Runs.Find(s, net)
    case None => true
    case Some(id) => id in s.info && s.info[id].refCount >= 0 && draw % Pow2(s.info[id].refCount) == 0
  }

  lemma CountedOnce(c: Config, s: Tables, id: int)
    requires Inv(c, s) && id in s.info
    ensures s.info[id].refCount >= 0
  {
    assert RefEntry(c, s.info[id], id, s.vvNew, {});
  }

  lemma SameInfoTrans(a: map<int, AddrInfo>, b: map<int, AddrInfo>, c: map<int, AddrInfo>)
    requires SameInfo(a, b) && SameInfo(b, c)
    ensures SameInfo(a, c)
  {
    forall i | i in a ensures SameButPos(a[i], c[i]) {
      assert SameButPos(a[i], b[i]) && SameButPos(b[i], c[i]);
    }
  }

  lemma SameInfoRefl(m: map<int, AddrInfo>)
    ensures SameInfo(m, m)
  {
  }
}
