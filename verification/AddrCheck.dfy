/** The address manager's own consistency check, and what it establishes. */
module AddrCheck {
  import opened AddrTables
  import Slots = AddrSlots
  import Disk = AddrDisk
  import File = AddrFile
  import Runs = AddrRuns
  import Orders

  // ----- what the check asks for

  /** Looking up an address that is not there gives 0. */
  function Lookup(addr: map<NetAddr, int>, net: NetAddr): int { if net in addr then addr[net] else 0 }

  predicate EntryPasses(s: Tables, i: int)
    requires i in s.info
  {
    var e := s.info[i];
    && (if e.inTried then e.lastSuccess != 0 && e.refCount == 0 else 1 <= e.refCount <= NEW_BUCKETS_PER_ADDRESS)
    && Lookup(s.addr, e.service.net) == i
    && 0 <= e.randomPos < |s.random| && s.random[e.randomPos] == i
    && e.lastTry >= 0 && e.lastSuccess >= 0
  }

  ghost predicate Sized(c: Config, s: Tables) {
    && c.Ok() && Shape(s.vvTried, c.triedBuckets, c.bucketSize) && Shape(s.vvNew, c.newBuckets, c.bucketSize)
    && forall i | i in s.info :: i >= 0
  }

  ghost predicate Exact(c: Config, s: Tables, i: int)
    requires Sized(c, s) && i in s.info
  {
    s.info[i].refCount == |AddrTables.Slots(c, s.vvNew, s.info[i].service, i)|
  }

  ghost predicate CheckOk(c: Config, s: Tables)
    requires Sized(c, s)
  {
    && c.key != 0
    && |s.random| == s.nTried + s.nNew && |TriedIds(s.info)| == s.nTried && |NewIds(s.info)| == s.nNew
    && (forall i | i in s.info :: EntryPasses(s, i))
    && TriedOk(c, s.info, s.vvTried) && NewOk(c, s.info, s.vvNew)
    && forall i | i in s.info && !s.info[i].inTried :: Exact(c, s, i)
  }

  // ----- what the error codes mean

  predicate EntryFault(s: Tables, i: int, code: int)
    requires i in s.info
  {
    var e := s.info[i];
    match code
    case -1 => e.inTried && e.lastSuccess == 0
    case -2 => e.inTried && e.refCount != 0
    case -3 => !e.inTried && !(0 <= e.refCount <= NEW_BUCKETS_PER_ADDRESS)
    case -4 => !e.inTried && e.refCount == 0
    case -5 => Lookup(s.addr, e.service.net) != i
    case -14 => !(0 <= e.randomPos < |s.random| && s.random[e.randomPos] == i)
    case -6 => e.lastTry < 0
    case -8 => e.lastSuccess < 0
    case _ => false
  }

  /** A slot of the "tried" table that holds what it should not. */
  ghost predicate TriedFault(c: Config, s: Tables, b: nat, p: nat, code: int)
    requires Sized(c, s) && b < c.triedBuckets && p < c.bucketSize
  {
    var y := s.vvTried[b][p];
    var known := y in s.info && s.info[y].inTried;
    && y != EMPTY
    && match code
       case -11 => !TriedSlot(c, s.info, y, b, p)
       case -17 => known && c.TriedBucket(s.info[y].service) != b
       case -18 => known && c.TriedBucket(s.info[y].service) == b && c.Position(false, b, s.info[y].service) != p
       case _ => false
  }

  ghost predicate NewFault(c: Config, s: Tables, b: nat, p: nat, code: int)
    requires Sized(c, s) && b < c.newBuckets && p < c.bucketSize
  {
    var y := s.vvNew[b][p];
    && y != EMPTY
    && match code
       case -12 => NewSlot(c, s.info, y, b, p) ==> s.info[y].refCount < |HeldSlots(c, s, y)|
       case -19 => y in s.info && !s.info[y].inTried && c.Position(true, b, s.info[y].service) != p
       case _ => false
  }

  ghost function HeldSlots(c: Config, s: Tables, i: int): set<nat>
    requires Sized(c, s) && i in s.info
  {
    AddrTables.Slots(c, s.vvNew, s.info[i].service, i)
  }

  ghost predicate Homeless(c: Config, s: Tables, i: int)
    requires Sized(c, s) && i in s.info
  {
    s.info[i].inTried && !HasTriedSlot(c, s.vvTried, s.info[i].service, i)
  }

  ghost predicate Overcounted(c: Config, s: Tables, i: int)
    requires Sized(c, s) && i in s.info
  {
    !s.info[i].inTried && s.info[i].refCount > |HeldSlots(c, s, i)|
  }

  ghost predicate Fault(c: Config, s: Tables, code: int)
    requires Sized(c, s)
  {
    match code
    case -7 => |s.random| != s.nTried + s.nNew
    case -9 => |TriedIds(s.info)| != s.nTried
    case -10 => |NewIds(s.info)| != s.nNew
    case -13 => exists i | i in s.info :: Homeless(c, s, i)
    case -15 => exists i | i in s.info :: Overcounted(c, s, i)
    case -16 => c.key == 0
    case _ =>
      || (exists i | i in s.info :: EntryFault(s, i, code))
      || (exists b: nat, p: nat | b < c.triedBuckets && p < c.bucketSize :: TriedFault(c, s, b, p, code))
      || (exists b: nat, p: nat | b < c.newBuckets && p < c.bucketSize :: NewFault(c, s, b, p, code))
  }

  // ----- the address index, which a lookup may grow

  /** Looking an address up inserts it with id 0 when it is missing. */
  function LookedUp(addr: map<NetAddr, int>, net: NetAddr): map<NetAddr, int> {
    if net in addr then addr else addr[net := 0]
  }

  /** The index after some addresses of entries were looked up. */
  ghost predicate Grown(s: Tables, addr: map<NetAddr, int>) {
    && (forall a | a in s.addr :: a in addr && addr[a] == s.addr[a])
    && (forall a | a in addr && a !in s.addr :: addr[a] == 0 && IsEntry(s, a))
  }

  ghost predicate IsEntry(s: Tables, a: NetAddr) { exists i | i in s.info :: s.info[i].service.net == a }

  lemma GrownStep(s: Tables, addr: map<NetAddr, int>, n: int)
    requires Grown(s, addr) && n in s.info
    ensures Grown(s, LookedUp(addr, s.info[n].service.net))
    ensures Lookup(addr, s.info[n].service.net) == Lookup(s.addr, s.info[n].service.net)
  {
    assert IsEntry(s, s.info[n].service.net);
  }

  // ----- the entries

  /** The tried ids and the counts of the new ones, among the ids looked at. */
  ghost predicate Collected(s: Tables, ids: seq<int>, tried: set<int>, counts: map<int, int>) {
    && (forall k | 0 <= k < |ids| :: ids[k] in s.info && EntryPasses(s, ids[k]))
    && (forall i :: i in tried <==> i in ids && i in s.info && s.info[i].inTried)
    && (forall i :: i in counts <==> i in ids && i in s.info && !s.info[i].inTried)
    && (forall i | i in counts :: i in s.info && counts[i] == s.info[i].refCount)
  }

  method CheckEntry(s: Tables, addr: map<NetAddr, int>, n: int) returns (err: int, addr': map<NetAddr, int>)
    requires n in s.info && Grown(s, addr)
    ensures err == 0 <==> EntryPasses(s, n)
    ensures err != 0 ==> EntryFault(s, n, err)
    ensures Grown(s, addr') && addr.Keys <= addr'.Keys && (err == 0 ==> s.info[n].service.net in addr')
  {
    hide Grown;
    var e := s.info[n];
    addr' := addr;
    if e.inTried {
      if e.lastSuccess == 0 { return -1, addr'; }
      if e.refCount != 0 { return -2, addr'; }
    } else {
      if e.refCount < 0 || e.refCount > NEW_BUCKETS_PER_ADDRESS { return -3, addr'; }
      if e.refCount == 0 { return -4, addr'; }
    }
    GrownStep(s, addr, n);
    var found := Lookup(addr, e.service.net);
    addr' := LookedUp(addr, e.service.net);
    if found != n { return -5, addr'; }
    if e.randomPos < 0 || e.randomPos >= |s.random| || s.random[e.randomPos] != n { return -14, addr'; }
    if e.lastTry < 0 { return -6, addr'; }
    if e.lastSuccess < 0 { return -8, addr'; }
    err := 0;
  }

  method CheckEntries(s: Tables)
    returns (err: int, tried: set<int>, counts: map<int, int>, addr: map<NetAddr, int>)
    ensures err == 0 <==> forall i | i in s.info :: EntryPasses(s, i)
    ensures err != 0 ==> exists i | i in s.info :: EntryFault(s, i, err)
    ensures Grown(s, addr) && (err == 0 ==> forall i | i in s.info :: s.info[i].service.net in addr)
    ensures err == 0 ==> tried == TriedIds(s.info) && counts == map i | i in NewIds(s.info) :: s.info[i].refCount
  {
    hide EntryPasses, EntryFault, Orders.Ascending, Collected, Grown, AllIn;
    addr := s.addr;
    GrownStart(s);
    var ids := Disk.SortedIds(s.info.Keys);
    tried, counts := {}, map[];
    CollectNone(s);
    NoneIn(s, addr);
    for k := 0 to |ids|
      invariant Collected(s, ids[..k], tried, counts)
      invariant Grown(s, addr)
      invariant AllIn(s, ids[..k], addr)
    {
      var n := ids[k];
      assert n in s.info.Keys;
      ghost var before := addr;
      err, addr := CheckEntry(s, addr, n);
      if err != 0 {
        return;
      }
      OneMoreIn(s, ids[..k], before, addr, n);
      assert ids[..k + 1] == ids[..k] + [n];
      CollectStep(s, ids[..k], tried, counts, n);
      if s.info[n].inTried {
        tried := tried + {n};
      } else {
        counts := counts[n := s.info[n].refCount];
      }
    }
    assert ids[..|ids|] == ids;
    err := 0;
    EntriesDone(s, ids, tried, counts);
    AllAreIn(s, ids, addr);
  }

  ghost predicate AllIn(s: Tables, ids: seq<int>, addr: map<NetAddr, int>) {
    forall j | 0 <= j < |ids| :: ids[j] in s.info && s.info[ids[j]].service.net in addr
  }

  lemma NoneIn(s: Tables, addr: map<NetAddr, int>)
    ensures AllIn(s, [], addr)
  {}

  lemma OneMoreIn(s: Tables, ids: seq<int>, before: map<NetAddr, int>, addr: map<NetAddr, int>, n: int)
    requires AllIn(s, ids, before) && before.Keys <= addr.Keys && n in s.info && s.info[n].service.net in addr
    ensures AllIn(s, ids + [n], addr)
  {
    forall j | 0 <= j < |ids|
      ensures s.info[ids[j]].service.net in addr
    {
      assert s.info[ids[j]].service.net in before.Keys;
    }
  }

  lemma AllAreIn(s: Tables, ids: seq<int>, addr: map<NetAddr, int>)
    requires AllIn(s, ids, addr) && ids == Orders.Ascending(s.info.Keys)
    ensures forall i | i in s.info :: s.info[i].service.net in addr
  {
    forall i | i in s.info
      ensures s.info[i].service.net in addr
    {
      assert i in s.info.Keys;
      assert i in ids;
    }
  }

  lemma CollectNone(s: Tables)
    ensures Collected(s, [], {}, map[])
  {}

  lemma CollectStep(s: Tables, ids: seq<int>, tried: set<int>, counts: map<int, int>, n: int)
    requires Collected(s, ids, tried, counts) && n in s.info && EntryPasses(s, n)
    ensures if s.info[n].inTried then Collected(s, ids + [n], tried + {n}, counts)
            else Collected(s, ids + [n], tried, counts[n := s.info[n].refCount])
  {
    hide EntryPasses;
  }

  lemma EntriesDone(s: Tables, ids: seq<int>, tried: set<int>, counts: map<int, int>)
    requires Collected(s, ids, tried, counts) && ids == Orders.Ascending(s.info.Keys)
    ensures forall i | i in s.info :: EntryPasses(s, i)
    ensures tried == TriedIds(s.info) && counts == map i | i in NewIds(s.info) :: s.info[i].refCount
  {
    hide EntryPasses;
    forall i | i in s.info
      ensures i in ids && EntryPasses(s, i)
    {
      assert i in s.info.Keys;
      assert i in ids;
    }
    forall i
      ensures i in tried <==> i in TriedIds(s.info)
      ensures i in counts <==> i in NewIds(s.info)
    {
      assert i in ids <==> i in s.info.Keys;
    }
  }

  // ----- the tried table

  ghost predicate TriedSlotOk(c: Config, s: Tables, b: nat, p: nat)
    requires Sized(c, s) && b < c.triedBuckets && p < c.bucketSize
  {
    s.vvTried[b][p] != EMPTY ==> TriedSlot(c, s.info, s.vvTried[b][p], b, p)
  }

  /** x stands in its slot, and that slot has been passed. */
  ghost predicate Met(c: Config, s: Tables, x: int, b: nat, p: nat)
    requires Sized(c, s) && x in s.info
  {
    var e := s.info[x].service;
    Slots.Before(c.TriedBucket(e), c.TriedPos(e), b, p) && HasTriedSlot(c, s.vvTried, e, x)
  }

  ghost predicate TriedScan(c: Config, s: Tables, b: nat, p: nat, left: set<int>)
    requires Sized(c, s)
  {
    && (forall r: nat, q: nat | r < c.triedBuckets && q < c.bucketSize && Slots.Before(r, q, b, p) ::
      TriedSlotOk(c, s, r, q))
    && (forall x :: x in left <==> x in s.info && s.info[x].inTried && !Met(c, s, x, b, p))
  }

  lemma TriedScanStep(c: Config, s: Tables, b: nat, p: nat, left: set<int>)
    requires Sized(c, s) && b < c.triedBuckets && p < c.bucketSize && TriedScan(c, s, b, p, left)
    ensures s.vvTried[b][p] !in left ==> s.vvTried[b][p] == EMPTY || !TriedSlotOk(c, s, b, p)
    ensures TriedSlotOk(c, s, b, p) ==> TriedScan(c, s, b, p + 1, left - {s.vvTried[b][p]})
  {
    var y := s.vvTried[b][p];
    assert y in left ==> y in s.info;
  }

  lemma TriedScanRow(c: Config, s: Tables, b: nat, left: set<int>)
    requires Sized(c, s) && TriedScan(c, s, b, c.bucketSize, left)
    ensures TriedScan(c, s, b + 1, 0, left)
  {
    forall x | x in s.info
      ensures Met(c, s, x, b, c.bucketSize) <==> Met(c, s, x, b + 1, 0)
    {
    }
  }

  method CheckTried(c: Config, s: Tables, tried: set<int>) returns (err: int, left: set<int>)
    requires Sized(c, s) && tried == TriedIds(s.info)
    ensures err != 0 ==> !TriedOk(c, s.info, s.vvTried)
    ensures err != 0 ==> exists b: nat, p: nat | b < c.triedBuckets && p < c.bucketSize :: TriedFault(c, s, b, p, err)
    ensures err == 0 ==> (left == {} <==> TriedOk(c, s.info, s.vvTried))
    ensures err == 0 && left != {} ==> exists i | i in s.info :: Homeless(c, s, i)
  {
    hide TriedScan, TriedOk;
    left := tried;
    TriedScanStart(c, s, tried);
    for b := 0 to c.triedBuckets
      invariant TriedScan(c, s, b, 0, left)
    {
      for p := 0 to c.bucketSize
        invariant TriedScan(c, s, b, p, left)
      {
        TriedScanStep(c, s, b, p, left);
        var y := s.vvTried[b][p];
        if y != EMPTY {
          TriedRefused(c, s, b, p);
          if y !in left {
            assert TriedFault(c, s, b, p, -11);
            return -11, left;
          }
          TriedKnown(c, s, b, p, left);
          if c.TriedBucket(s.info[y].service) != b {
            assert TriedFault(c, s, b, p, -17);
            return -17, left;
          }
          if c.Position(false, b, s.info[y].service) != p {
            assert TriedFault(c, s, b, p, -18);
            return -18, left;
          }
          left := left - {y};
        } else {
          TriedEmpty(c, s, b, p, left);
        }
      }
      TriedScanRow(c, s, b, left);
    }
    err := 0;
    TriedScanDone(c, s, left);
  }

  lemma TriedScanStart(c: Config, s: Tables, tried: set<int>)
    requires Sized(c, s) && tried == TriedIds(s.info)
    ensures TriedScan(c, s, 0, 0, tried)
  {}

  lemma TriedRefused(c: Config, s: Tables, b: nat, p: nat)
    requires Sized(c, s) && b < c.triedBuckets && p < c.bucketSize
    ensures !TriedSlotOk(c, s, b, p) ==> !TriedOk(c, s.info, s.vvTried)
  {}

  lemma TriedKnown(c: Config, s: Tables, b: nat, p: nat, left: set<int>)
    requires Sized(c, s) && TriedScan(c, s, b, p, left) && b < c.triedBuckets && p < c.bucketSize
             && s.vvTried[b][p] in left
    ensures s.vvTried[b][p] in s.info && s.info[s.vvTried[b][p]].inTried
  {
    var x := s.vvTried[b][p];
    assert x in left;
  }

  lemma TriedEmpty(c: Config, s: Tables, b: nat, p: nat, left: set<int>)
    requires Sized(c, s) && TriedScan(c, s, b, p, left) && b < c.triedBuckets && p < c.bucketSize
             && s.vvTried[b][p] == EMPTY
    ensures left - {EMPTY} == left
  {}

  lemma TriedScanDone(c: Config, s: Tables, left: set<int>)
    requires Sized(c, s) && TriedScan(c, s, c.triedBuckets, 0, left)
    ensures left == {} <==> TriedOk(c, s.info, s.vvTried)
    ensures left != {} ==> exists i | i in s.info :: Homeless(c, s, i)
  {
    forall b: nat, p: nat | b < c.triedBuckets && p < c.bucketSize && s.vvTried[b][p] != EMPTY
      ensures TriedSlot(c, s.info, s.vvTried[b][p], b, p)
    {
      assert TriedSlotOk(c, s, b, p);
    }
    if left == {} {
      forall i | i in s.info && s.info[i].inTried
        ensures HasTriedSlot(c, s.vvTried, s.info[i].service, i)
      {
        assert i !in left;
        assert Met(c, s, i, c.triedBuckets, 0);
      }
    } else {
      var x := Orders.Element(left);
      assert !Met(c, s, x, c.triedBuckets, 0);
      assert Homeless(c, s, x);
    }
  }

  // ----- the new table

  ghost predicate NewSlotOk(c: Config, s: Tables, b: nat, p: nat)
    requires Sized(c, s) && b < c.newBuckets && p < c.bucketSize
  {
    s.vvNew[b][p] != EMPTY ==> NewSlot(c, s.info, s.vvNew[b][p], b, p)
  }

  /** The buckets that hold x in slots already passed. */
  ghost function Earlier(c: Config, s: Tables, x: int, b: nat, p: nat): set<nat>
    requires Sized(c, s) && x in s.info
  {
    set r | r in AddrTables.Slots(c, s.vvNew, s.info[x].service, x)
            && Slots.Before(r, c.Position(true, r, s.info[x].service), b, p)
  }

  /** What is left of a new entry's count after the slots passed. */
  ghost function Remaining(c: Config, s: Tables, x: int, b: nat, p: nat): int
    requires Sized(c, s) && x in s.info
  {
    s.info[x].refCount - |Earlier(c, s, x, b, p)|
  }

  ghost predicate NewScan(c: Config, s: Tables, b: nat, p: nat, counts: map<int, int>)
    requires Sized(c, s)
  {
    && (forall r: nat, q: nat | r < c.newBuckets && q < c.bucketSize && Slots.Before(r, q, b, p) ::
      NewSlotOk(c, s, r, q))
    && (forall x | x in s.info && !s.info[x].inTried :: Remaining(c, s, x, b, p) >= 0)
    && (forall x :: x in counts <==> x in s.info && !s.info[x].inTried && Remaining(c, s, x, b, p) > 0)
    && (forall x | x in counts :: x in s.info && counts[x] == Remaining(c, s, x, b, p))
  }

  lemma EarlierStep(c: Config, s: Tables, x: int, b: nat, p: nat)
    requires Sized(c, s) && b < c.newBuckets && p < c.bucketSize && x in s.info && NewSlotOk(c, s, b, p)
    ensures Remaining(c, s, x, b, p + 1) == Remaining(c, s, x, b, p) - (if s.vvNew[b][p] == x then 1 else 0)
    ensures s.vvNew[b][p] == x ==> b !in Earlier(c, s, x, b, p) && b in Earlier(c, s, x, b, p + 1)
  {
    if s.vvNew[b][p] == x {
      assert Earlier(c, s, x, b, p + 1) == Earlier(c, s, x, b, p) + {b};
    } else {
      assert Earlier(c, s, x, b, p + 1) == Earlier(c, s, x, b, p);
    }
  }

  /** An entry in its slot has some of its count left, unless it holds more slots than its count. */
  lemma CountLeft(c: Config, s: Tables, b: nat, p: nat, counts: map<int, int>)
    requires Sized(c, s) && b < c.newBuckets && p < c.bucketSize && NewScan(c, s, b, p, counts)
    requires s.vvNew[b][p] != EMPTY && NewSlotOk(c, s, b, p)
    requires s.info[s.vvNew[b][p]].refCount >= |HeldSlots(c, s, s.vvNew[b][p])|
    ensures s.vvNew[b][p] in counts
  {
    var y := s.vvNew[b][p];
    EarlierStep(c, s, y, b, p);
    var all := AddrTables.Slots(c, s.vvNew, s.info[y].service, y);
    assert b in all;
    Slots.SubsetSmaller(Earlier(c, s, y, b, p), all, b);
  }

  function Counted(counts: map<int, int>, y: int): map<int, int>
    requires y in counts
  {
    if counts[y] == 1 then counts - {y} else counts[y := counts[y] - 1]
  }

  lemma NewScanStep(c: Config, s: Tables, b: nat, p: nat, counts: map<int, int>)
    requires Sized(c, s) && b < c.newBuckets && p < c.bucketSize && NewScan(c, s, b, p, counts) && NewSlotOk(c, s, b, p)
    ensures var y := s.vvNew[b][p];
            && (y == EMPTY ==> NewScan(c, s, b, p + 1, counts))
            && (y in counts && y != EMPTY ==> NewScan(c, s, b, p + 1, Counted(counts, y)))
  {
    var y := s.vvNew[b][p];
    forall x | x in s.info
      ensures Remaining(c, s, x, b, p + 1) == Remaining(c, s, x, b, p) - (if y == x then 1 else 0)
    {
      EarlierStep(c, s, x, b, p);
    }
    hide Remaining;
    assert y in counts ==> y in s.info;
  }

  lemma NewScanRow(c: Config, s: Tables, b: nat, counts: map<int, int>)
    requires Sized(c, s) && NewScan(c, s, b, c.bucketSize, counts)
    ensures NewScan(c, s, b + 1, 0, counts)
  {
    forall x | x in s.info
      ensures Remaining(c, s, x, b, c.bucketSize) == Remaining(c, s, x, b + 1, 0)
    {
      assert Earlier(c, s, x, b, c.bucketSize) == Earlier(c, s, x, b + 1, 0);
    }
    hide Remaining;
  }

  ghost predicate NewRight(c: Config, s: Tables)
    requires Sized(c, s)
  {
    NewOk(c, s.info, s.vvNew) && forall i | i in s.info && !s.info[i].inTried :: Exact(c, s, i)
  }

  method CheckNew(c: Config, s: Tables, start: map<int, int>) returns (err: int, counts: map<int, int>)
    requires Sized(c, s) && start == (map i | i in NewIds(s.info) :: s.info[i].refCount)
    requires forall i | i in s.info && !s.info[i].inTried :: s.info[i].refCount >= 1
    ensures err != 0 ==> !NewRight(c, s)
    ensures err != 0 ==> exists b: nat, p: nat | b < c.newBuckets && p < c.bucketSize :: NewFault(c, s, b, p, err)
    ensures err == 0 ==> (counts == map[] <==> NewRight(c, s))
    ensures err == 0 && counts != map[] ==> exists i | i in s.info :: Overcounted(c, s, i)
  {
    hide NewScan, NewRight;
    counts := start;
    NewScanStart(c, s, start);
    for b := 0 to c.newBuckets
      invariant NewScan(c, s, b, 0, counts)
    {
      for p := 0 to c.bucketSize
        invariant NewScan(c, s, b, p, counts)
      {
        var y := s.vvNew[b][p];
        NewRefused(c, s, b, p, counts);
        if y != EMPTY {
          if y !in counts {
            assert NewFault(c, s, b, p, -12);
            return -12, counts;
          }
          CountKnown(c, s, b, p, counts, y);
          if c.Position(true, b, s.info[y].service) != p {
            assert NewFault(c, s, b, p, -19);
            return -19, counts;
          }
          NewScanStep(c, s, b, p, counts);
          if counts[y] == 1 {
            counts := counts - {y};
          } else {
            counts := counts[y := counts[y] - 1];
          }
        } else {
          NewScanStep(c, s, b, p, counts);
        }
      }
      NewScanRow(c, s, b, counts);
    }
    err := 0;
    NewScanDone(c, s, counts);
  }

  lemma NewScanStart(c: Config, s: Tables, start: map<int, int>)
    requires Sized(c, s) && start == (map i | i in NewIds(s.info) :: s.info[i].refCount)
    requires forall i | i in s.info && !s.info[i].inTried :: s.info[i].refCount >= 1
    ensures NewScan(c, s, 0, 0, start)
  {
    forall x | x in s.info
      ensures Remaining(c, s, x, 0, 0) == s.info[x].refCount
    {
      assert Earlier(c, s, x, 0, 0) == {};
    }
    hide Remaining;
  }

  lemma NewRefused(c: Config, s: Tables, b: nat, p: nat, counts: map<int, int>)
    requires Sized(c, s) && b < c.newBuckets && p < c.bucketSize && NewScan(c, s, b, p, counts)
    ensures !NewSlotOk(c, s, b, p) ==> !NewRight(c, s)
    ensures s.vvNew[b][p] != EMPTY && s.vvNew[b][p] !in counts ==> !NewRight(c, s) && NewFault(c, s, b, p, -12)
  {
    var y := s.vvNew[b][p];
    if y != EMPTY && y !in counts && NewSlot(c, s.info, y, b, p) {
      if s.info[y].refCount >= |HeldSlots(c, s, y)| { CountLeft(c, s, b, p, counts); }
      assert !Exact(c, s, y);
    }
  }

  lemma CountKnown(c: Config, s: Tables, b: nat, p: nat, counts: map<int, int>, y: int)
    requires Sized(c, s) && NewScan(c, s, b, p, counts) && y in counts
    ensures y in s.info && !s.info[y].inTried && y != EMPTY
  {}

  lemma NewScanDone(c: Config, s: Tables, counts: map<int, int>)
    requires Sized(c, s) && NewScan(c, s, c.newBuckets, 0, counts)
    ensures counts == map[] <==> NewRight(c, s)
    ensures counts != map[] ==> exists i | i in s.info :: Overcounted(c, s, i)
  {
    forall x | x in s.info
      ensures Remaining(c, s, x, c.newBuckets, 0)
              == s.info[x].refCount - |AddrTables.Slots(c, s.vvNew, s.info[x].service, x)|
    {
      assert Earlier(c, s, x, c.newBuckets, 0) == AddrTables.Slots(c, s.vvNew, s.info[x].service, x);
    }
    hide Remaining;
    forall b: nat, p: nat | b < c.newBuckets && p < c.bucketSize && s.vvNew[b][p] != EMPTY
      ensures NewSlot(c, s.info, s.vvNew[b][p], b, p)
    {
      assert NewSlotOk(c, s, b, p);
    }
    if counts == map[] {
      forall i | i in s.info && !s.info[i].inTried
        ensures Exact(c, s, i)
      {
        assert i !in counts;
      }
    } else {
      var x := Orders.Element(counts.Keys);
      assert x in counts;
      assert Overcounted(c, s, x) && !Exact(c, s, x);
    }
  }

  // ----- the check

  /** Returns 0 exactly when everything it asks for holds, and otherwise the code of a fault that is
      there. Looking addresses up leaves the missing ones in the address index with id 0. */
  method Check(c: Config, s: Tables) returns (err: int, addr: map<NetAddr, int>)
    requires Sized(c, s)
    ensures err == 0 <==> CheckOk(c, s)
    ensures err != 0 ==> Fault(c, s, err)
    ensures Grown(s, addr) && (err == 0 ==> forall i | i in s.info :: s.info[i].service.net in addr)
  {
    hide TriedOk, NewOk, EntryPasses, EntryFault, TriedFault, NewFault, Homeless, Overcounted, Grown;
    addr := s.addr;
    assert Grown(s, addr) by { GrownStart(s); }
    if |s.random| != s.nTried + s.nNew { return -7, addr; }
    var failed, tried, counts;
    failed, tried, counts, addr := CheckEntries(s);
    if failed != 0 {
      EntryCodes(c, s, failed);
      return failed, addr;
    }
    if |tried| != s.nTried { return -9, addr; }
    CountsSize(s, counts);
    if |counts| != s.nNew { return -10, addr; }
    CountsPositive(s);
    var left: set<int>;
    failed, left := CheckTried(c, s, tried);
    if failed != 0 {
      TriedCodes(c, s, failed);
      return failed, addr;
    }
    failed, counts := CheckNew(c, s, counts);
    if failed != 0 {
      NewCodes(c, s, failed);
      return failed, addr;
    }
    if left != {} { return -13, addr; }
    if counts != map[] { return -15, addr; }
    if c.key == 0 { return -16, addr; }
    err := 0;
  }

  lemma GrownStart(s: Tables)
    ensures Grown(s, s.addr)
  {}

  lemma EntryCodes(c: Config, s: Tables, code: int)
    requires Sized(c, s) && exists i | i in s.info :: EntryFault(s, i, code)
    ensures Fault(c, s, code)
  {}

  lemma TriedCodes(c: Config, s: Tables, code: int)
    requires Sized(c, s)
    requires exists b: nat, p: nat | b < c.triedBuckets && p < c.bucketSize :: TriedFault(c, s, b, p, code)
    ensures Fault(c, s, code)
  {}

  lemma NewCodes(c: Config, s: Tables, code: int)
    requires Sized(c, s)
    requires exists b: nat, p: nat | b < c.newBuckets && p < c.bucketSize :: NewFault(c, s, b, p, code)
    ensures Fault(c, s, code)
  {}

  lemma CountsSize(s: Tables, counts: map<int, int>)
    requires counts == map i | i in NewIds(s.info) :: s.info[i].refCount
    ensures |counts| == |NewIds(s.info)|
  {
    assert counts.Keys == NewIds(s.info);
  }

  lemma CountsPositive(s: Tables)
    requires forall i | i in s.info :: EntryPasses(s, i)
    ensures forall i | i in s.info && !s.info[i].inTried :: s.info[i].refCount >= 1
  {}

  lemma RandomSize(info: map<int, AddrInfo>, random: seq<int>)
    requires RandomOk(info, random)
    ensures |random| == |TriedIds(info)| + |NewIds(info)|
  {
    var all := TriedIds(info) + NewIds(info);
    assert info.Keys == all;
    assert |TriedIds(info) + NewIds(info)| == |TriedIds(info)| + |NewIds(info)|;
    File.SizeIs(random, info.Keys);
  }

  /** Every state that keeps the invariant passes, under any key but zero. */
  lemma InvPasses(c: Config, s: Tables)
    requires Inv(c, s) && c.key != 0
    ensures Sized(c, s) && CheckOk(c, s)
  {
    RandomSize(s.info, s.random);
    forall i | i in s.info
      ensures EntryPasses(s, i)
    {
      assert RefEntry(c, s.info[i], i, s.vvNew, {});
      if s.info[i].inTried { TriedHasNoSlots(c, s.info, s.vvNew, i); }
    }
    forall i | i in s.info && !s.info[i].inTried
      ensures Exact(c, s, i)
    {
      assert RefEntry(c, s.info[i], i, s.vvNew, {});
    }
  }

  /** So the check passes after every run from a state that keeps the invariant, such as a new
      manager or one loaded from what was saved. */
  lemma RunPasses(c: Config, s: Tables, ops: seq<Runs.Op>)
    requires Inv(c, s) && c.key != 0 && forall k | 0 <= k < |ops| :: Runs.Legal(ops[k])
    ensures Sized(c, Runs.Run(c, s, ops)) && CheckOk(c, Runs.Run(c, s, ops))
  {
    hide Inv, CheckOk, Sized, Runs.Run;
    Runs.RunKeeps(c, s, ops);
    InvPasses(c, Runs.Run(c, s, ops));
  }

  lemma TakenSize(s: Tables, place: map<int, int>, taken: set<int>)
    requires forall i | i in s.info :: EntryPasses(s, i)
    requires place == map i | i in s.info :: s.info[i].randomPos
    requires taken == set i | i in s.info.Keys :: place[i]
    ensures |taken| == |s.info|
  {
    forall x, y | x in s.info.Keys && y in s.info.Keys && place[x] == place[y]
      ensures x == y
    {
      assert EntryPasses(s, x) && EntryPasses(s, y);
    }
    hide EntryPasses;
    File.SameSize(s.info.Keys, place, taken);
  }

  lemma PassedRandom(s: Tables)
    requires forall i | i in s.info :: EntryPasses(s, i)
    requires |s.random| == |s.info|
    ensures RandomOk(s.info, s.random)
  {
    var place := map i | i in s.info :: s.info[i].randomPos;
    var taken := set i | i in s.info.Keys :: place[i];
    TakenSize(s, place, taken);
    File.RangeSize(|s.random|);
    assert taken <= File.Range(|s.random|) by {
      forall i | i in s.info ensures 0 <= place[i] < |s.random| { assert EntryPasses(s, i); }
    }
    FullSubset(taken, File.Range(|s.random|));
    forall k | 0 <= k < |s.random|
      ensures s.random[k] in s.info && s.info[s.random[k]].randomPos == k
    {
      assert k in taken;
      var i :| i in s.info.Keys && place[i] == k;
      assert EntryPasses(s, i);
    }
  }

  lemma FullSubset<T>(a: set<T>, b: set<T>)
    requires a <= b && |a| == |b|
    ensures a == b
  {
    assert b == a + (b - a);
    assert |a + (b - a)| == |a| + |b - a|;
  }

  lemma PassedSize(s: Tables)
    requires |s.random| == |TriedIds(s.info)| + |NewIds(s.info)|
    ensures |s.random| == |s.info|
  {
    assert s.info.Keys == TriedIds(s.info) + NewIds(s.info);
    assert |TriedIds(s.info) + NewIds(s.info)| == |TriedIds(s.info)| + |NewIds(s.info)|;
  }

  /** What the check leaves open: a stale address, a missing address of entry 0, an id not yet given out. */
  ghost predicate Rounded(s: Tables) {
    && |s.addr| == |s.info|
    && (0 in s.info ==> s.info[0].service.net in s.addr)
    && (forall i | i in s.info :: i < s.idCount)
  }

  lemma PassedEntry(c: Config, s: Tables, i: int)
    requires Sized(c, s) && i in s.info && EntryPasses(s, i) && (0 in s.info ==> s.info[0].service.net in s.addr)
    ensures s.info[i].service.net in s.addr && s.addr[s.info[i].service.net] == i
  {}

  lemma PassedIndexes(c: Config, s: Tables)
    requires Sized(c, s) && Rounded(s) && forall i | i in s.info :: EntryPasses(s, i)
    ensures AddrOk(s.info, s.addr) && TimesOk(s.info) && IdsOk(s)
  {
    forall i | i in s.info
      ensures s.info[i].service.net in s.addr && s.addr[s.info[i].service.net] == i
      ensures s.info[i].lastTry >= 0 && s.info[i].lastSuccess >= 0 && (s.info[i].inTried ==> s.info[i].lastSuccess > 0)
    {
      PassedEntry(c, s, i);
    }
    hide EntryPasses;
    EveryAddress(s);
  }

  /** As many addresses as entries, and every entry has one: there are no others. */
  lemma EveryAddress(s: Tables)
    requires |s.addr| == |s.info|
    requires forall i | i in s.info :: s.info[i].service.net in s.addr && s.addr[s.info[i].service.net] == i
    ensures forall a | a in s.addr :: s.addr[a] in s.info && s.info[s.addr[a]].service.net == a
  {
    var ids := s.info.Keys;
    var nets := set i | i in ids :: s.info[i].service.net;
    DistinctAddresses(s.info, s.addr, ids, nets);
    assert nets <= s.addr.Keys;
    assert |nets| == |s.addr.Keys|;
    FullSubset(nets, s.addr.Keys);
    forall a | a in s.addr
      ensures s.addr[a] in s.info && s.info[s.addr[a]].service.net == a
    {
      assert a in nets;
      var i :| i in ids && s.info[i].service.net == a;
    }
  }

  lemma {:induction false} DistinctAddresses(info: map<int, AddrInfo>, addr: map<NetAddr, int>, ids: set<int>,
                                             nets: set<NetAddr>)
    requires forall i | i in info :: info[i].service.net in addr && addr[info[i].service.net] == i
    requires ids <= info.Keys && nets == set i | i in ids :: info[i].service.net
    ensures |nets| == |ids|
    decreases |ids|
  {
    if ids == {} {
      assert nets == {};
    } else {
      var x := Orders.Element(ids);
      var rest := ids - {x};
      var others := set i | i in rest :: info[i].service.net;
      DistinctAddresses(info, addr, rest, others);
      assert nets == others + {info[x].service.net};
      assert info[x].service.net !in others;
    }
  }

  /** An index that goes both ways has as many addresses as entries. */
  lemma IndexRounded(s: Tables)
    requires AddrOk(s.info, s.addr) && IdsOk(s)
    ensures Rounded(s)
  {
    var ids := s.info.Keys;
    var nets := set i | i in ids :: s.info[i].service.net;
    forall a | a in s.addr.Keys
      ensures a in nets
    {
      var i := s.addr[a];
      assert i in ids && s.info[i].service.net == a;
    }
    assert nets == s.addr.Keys;
    DistinctAddresses(s.info, s.addr, ids, nets);
  }

  lemma PassedRefs(c: Config, s: Tables)
    requires Sized(c, s) && CheckOk(c, s)
    ensures RefOk(c, s.info, s.vvNew, {})
  {
    forall i | i in s.info
      ensures RefEntry(c, s.info[i], i, s.vvNew, {})
    {
      assert EntryPasses(s, i);
      if s.info[i].inTried {
        TriedHasNoSlots(c, s.info, s.vvNew, i);
      } else {
        assert Exact(c, s, i);
      }
    }
  }

  /** Conversely, a state that passes keeps the invariant, up to the pending collisions, exactly when
      those three do not occur. */
  lemma PassedCore(c: Config, s: Tables)
    requires Sized(c, s) && CheckOk(c, s)
    ensures Core(c, s, {}, 0) <==> Rounded(s)
  {
    hide RandomOk, AddrOk, TimesOk, IdsOk, RefOk, TriedOk, NewOk, EntryPasses, Rounded, NewIds, TriedIds;
    if Rounded(s) {
      PassedSize(s);
      PassedRandom(s);
      PassedIndexes(c, s);
      PassedRefs(c, s);
    }
    if Core(c, s, {}, 0) { IndexRounded(s); }
  }

  /** The check itself puts a missing address of entry 0 back, so after it passed only the other two
      remain. */
  lemma PassedThenCore(c: Config, s: Tables, addr: map<NetAddr, int>)
    requires Sized(c, s) && CheckOk(c, s)
    requires Grown(s, addr) && forall i | i in s.info :: s.info[i].service.net in addr
    ensures Core(c, s.(addr := addr), {}, 0) <==> |addr| == |s.info| && forall i | i in s.info :: i < s.idCount
  {
    var t := s.(addr := addr);
    forall i | i in s.info
      ensures EntryPasses(t, i)
    {
      assert EntryPasses(s, i);
    }
    forall i | i in s.info && !s.info[i].inTried
      ensures Exact(c, t, i)
    {
      assert Exact(c, s, i);
    }
    hide EntryPasses, Grown, TriedOk, NewOk, Core, Exact;
    PassedCore(c, t);
  }

  // ----- bad states that pass

  /** One tried entry with the given id; the address index and the next id are free. */
  function OneTried(c: Config, svc: Service, id: int, addr: map<NetAddr, int>, idCount: nat): Tables
    requires c.Ok()
  {
    Initial(c).(
      idCount := idCount,
      info := map[id := AddrInfo(svc, 0, {}, svc.net, 0, 0, 1, 0, 0, true, 0)],
      addr := addr, random := [id], nTried := 1,
      vvTried := Put(Initial(c).vvTried, c.TriedBucket(svc), c.TriedPos(svc), id))
  }

  lemma OneTriedPasses(c: Config, svc: Service, id: nat, addr: map<NetAddr, int>, idCount: nat)
    requires c.Ok() && c.key != 0 && Lookup(addr, svc.net) == id
    ensures Sized(c, OneTried(c, svc, id, addr, idCount)) && CheckOk(c, OneTried(c, svc, id, addr, idCount))
  {
    var s := OneTried(c, svc, id, addr, idCount);
    assert TriedIds(s.info) == {id} && NewIds(s.info) == {};
  }

  /** Each of the three conditions is needed: entry 0 without an address, a stale address, an id at the
      limit. */
  lemma BadStatesPass(c: Config, svc: Service, other: NetAddr)
    requires c.Ok() && c.key != 0 && other != svc.net
    ensures var s := OneTried(c, svc, 0, map[], 1); Sized(c, s) && CheckOk(c, s) && !Core(c, s, {}, 0)
    ensures var s := OneTried(c, svc, 0, map[svc.net := 0, other := 0], 1);
            Sized(c, s) && CheckOk(c, s) && !Core(c, s, {}, 0)
    ensures var s := OneTried(c, svc, 0, map[svc.net := 0], 0); Sized(c, s) && CheckOk(c, s) && !Core(c, s, {}, 0)
  {
    OneTriedPasses(c, svc, 0, map[], 1);
    OneTriedPasses(c, svc, 0, map[svc.net := 0, other := 0], 1);
    OneTriedPasses(c, svc, 0, map[svc.net := 0], 0);
    var stale := OneTried(c, svc, 0, map[svc.net := 0, other := 0], 1);
    assert other in stale.addr;
  }
}
