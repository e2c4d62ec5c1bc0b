/** Restoring the "new" buckets of a loaded address manager. */
module AddrSlots {
  import opened Prelude
  import opened AddrTables
  import opened AddrSave

  /** What is written for the first i slots of a bucket: the indexes of the entries in them. */
  function RowList(order: seq<int>, row: seq<int>, i: nat): seq<int>
    requires i <= |row| && forall p | 0 <= p < |row| && row[p] != EMPTY :: row[p] in order
  {
    if i == 0 then []
    else RowList(order, row, i - 1) + (if row[i - 1] == EMPTY then [] else [IndexIn(order, row[i - 1])])
  }

  /** Slot (r, q) comes before (b, i). */
  predicate Before(r: nat, q: nat, b: nat, i: nat) { r < b || (r == b && q < i) }

  ghost function SlotsBefore(c: Config, s: Tables, id: int, b: nat, i: nat): set<nat>
    requires Base(c, s, 0) && id in s.info
  {
    set r | r in Slots(c, s.vvNew, s.info[id].service, id) && Before(r, c.Position(true, r, s.info[id].service), b, i)
  }

  ghost function RefAt(c: Config, s: Tables, order: seq<int>, n: nat, b: nat, i: nat): nat
    requires Ready(c, s, order) && n < |order|
  {
    if n < s.nNew then |SlotsBefore(c, s, order[n], b, i)| else 0
  }

  ghost function InfoSlots(c: Config, s: Tables, order: seq<int>, b: nat, i: nat): map<int, AddrInfo>
    requires Ready(c, s, order)
  {
    map n | 0 <= n < |order| :: Entry(s, order, n).(refCount := RefAt(c, s, order, n, b, i))
  }

  function NewCell(order: seq<int>, x: int, done: bool): int
    requires x != EMPTY ==> x in order
  {
    if x != EMPTY && done then IndexIn(order, x) else EMPTY
  }

  ghost function NewAt(c: Config, s: Tables, order: seq<int>, b: nat, i: nat): (t: Table)
    requires Ready(c, s, order)
    ensures Shape(t, c.newBuckets, c.bucketSize) && Shape(s.vvNew, c.newBuckets, c.bucketSize)
    ensures forall r, q | 0 <= r < c.newBuckets && 0 <= q < c.bucketSize ::
              && (s.vvNew[r][q] != EMPTY ==> s.vvNew[r][q] in order)
              && t[r][q] == NewCell(order, s.vvNew[r][q], Before(r, q, b, i))
  {
    SlotsInOrder(c, s, order);
    seq(c.newBuckets, r requires 0 <= r < c.newBuckets =>
      seq(c.bucketSize, q requires 0 <= q < c.bucketSize => NewCell(order, s.vvNew[r][q], Before(r, q, b, i))))
  }

  ghost function SlotStage(c: Config, s: Tables, order: seq<int>, b: nat, i: nat): (t: Tables)
    requires Ready(c, s, order)
    ensures Shape(t.vvNew, c.newBuckets, c.bucketSize)
  {
    Stage(c, s, order, |order|).(info := InfoSlots(c, s, order, b, i), vvNew := NewAt(c, s, order, b, i))
  }

  lemma SameTable(t: Table, u: Table, rows: nat, cols: nat)
    requires Shape(t, rows, cols) && Shape(u, rows, cols)
    requires forall r, q | 0 <= r < rows && 0 <= q < cols :: t[r][q] == u[r][q]
    ensures t == u
  {
    forall r | 0 <= r < rows
      ensures t[r] == u[r]
    {
      assert forall q | 0 <= q < cols :: t[r][q] == u[r][q];
    }
  }

  /** Passing a slot adds its bucket to what its entry has, and nothing to any other. */
  lemma SlotsBeforeStep(c: Config, s: Tables, id: int, b: nat, i: nat)
    requires Base(c, s, 0) && id in s.info && id != EMPTY && b < c.newBuckets && i < c.bucketSize
    ensures SlotsBefore(c, s, id, b, i + 1) == SlotsBefore(c, s, id, b, i) + (if s.vvNew[b][i] == id then {b} else {})
    ensures b !in SlotsBefore(c, s, id, b, i) || s.vvNew[b][i] != id
  {
    if s.vvNew[b][i] == id { assert NewSlot(c, s.info, s.vvNew[b][i], b, i); }
  }

  lemma IdsNotEmpty(c: Config, s: Tables, order: seq<int>, n: nat)
    requires Ready(c, s, order) && n < |order|
    ensures order[n] in s.info && order[n] != EMPTY
  {}

  lemma RefStep(c: Config, s: Tables, order: seq<int>, n: nat, b: nat, i: nat)
    requires Ready(c, s, order) && n < |order| && b < c.newBuckets && i < c.bucketSize
    ensures RefAt(c, s, order, n, b, i + 1)
            == RefAt(c, s, order, n, b, i) + (if s.vvNew[b][i] == order[n] then 1 else 0)
  {
    IdsNotEmpty(c, s, order, n);
    SlotsBeforeStep(c, s, order[n], b, i);
    SlotsInOrder(c, s, order);
    if s.vvNew[b][i] == order[n] { IndexOf(s, order, n); }
  }

  lemma InfoSlotsEmpty(c: Config, s: Tables, order: seq<int>, b: nat, i: nat)
    requires Ready(c, s, order) && b < c.newBuckets && i < c.bucketSize && s.vvNew[b][i] == EMPTY
    ensures InfoSlots(c, s, order, b, i + 1) == InfoSlots(c, s, order, b, i)
  {
    hide Base, RefAt, Entry;
    forall n | 0 <= n < |order|
      ensures RefAt(c, s, order, n, b, i + 1) == RefAt(c, s, order, n, b, i)
    {
      IdsNotEmpty(c, s, order, n);
      RefStep(c, s, order, n, b, i);
    }
  }

  lemma InfoSlotsFull(c: Config, s: Tables, order: seq<int>, b: nat, i: nat, m: nat)
    requires Ready(c, s, order) && b < c.newBuckets && i < c.bucketSize && m < |order| && s.vvNew[b][i] == order[m]
    ensures var now := InfoSlots(c, s, order, b, i);
            m in now && InfoSlots(c, s, order, b, i + 1) == now[m := now[m].(refCount := now[m].refCount + 1)]
  {
    hide Base, RefAt, Entry;
    forall n | 0 <= n < |order|
      ensures RefAt(c, s, order, n, b, i + 1) == RefAt(c, s, order, n, b, i) + if n == m then 1 else 0
    {
      RefStep(c, s, order, n, b, i);
    }
  }

  lemma NewAtStep(c: Config, s: Tables, order: seq<int>, b: nat, i: nat)
    requires Ready(c, s, order) && b < c.newBuckets && i < c.bucketSize
    ensures var now, next := NewAt(c, s, order, b, i), NewAt(c, s, order, b, i + 1);
            && now[b][i] == EMPTY
            && next == Put(now, b, i, NewCell(order, s.vvNew[b][i], true))
  {
    var now, next := NewAt(c, s, order, b, i), NewAt(c, s, order, b, i + 1);
    hide Ready, NewAt;
    SameTable(next, Put(now, b, i, NewCell(order, s.vvNew[b][i], true)), c.newBuckets, c.bucketSize);
  }

  lemma RefBelow(c: Config, s: Tables, order: seq<int>, b: nat, i: nat)
    requires Ready(c, s, order) && RefOk(c, s.info, s.vvNew, {}) && b < c.newBuckets && i < c.bucketSize
    requires s.vvNew[b][i] != EMPTY
    ensures s.vvNew[b][i] in order && RefAt(c, s, order, IndexIn(order, s.vvNew[b][i]), b, i) < NEW_BUCKETS_PER_ADDRESS
  {
    SlotsInOrder(c, s, order);
    var x := s.vvNew[b][i];
    assert NewSlot(c, s.info, x, b, i);
    SlotsBeforeStep(c, s, x, b, i);
    assert RefEntry(c, s.info[x], x, s.vvNew, {});
    var all := Slots(c, s.vvNew, s.info[x].service, x);
    SubsetSmaller(SlotsBefore(c, s, x, b, i), all, b);
  }

  lemma SubsetSmaller(a: set<nat>, all: set<nat>, x: nat)
    requires a <= all && x in all && x !in a
    ensures |a| < |all|
  {
    SubsetSize(a, all - {x});
  }

  lemma SlotEntry(c: Config, s: Tables, order: seq<int>, b: nat, i: nat)
    requires Ready(c, s, order) && b < c.newBuckets && i < c.bucketSize && s.vvNew[b][i] != EMPTY
    ensures var x := s.vvNew[b][i];
            && x in s.info && x in order && IndexIn(order, x) < s.nNew
            && c.Position(true, b, s.info[x].service) == i
  {
    SlotsInOrder(c, s, order);
    assert NewSlot(c, s.info, s.vvNew[b][i], b, i);
  }

  /** An empty slot has nothing written for it. */
  lemma EmptySlot(c: Config, s: Tables, order: seq<int>, b: nat, i: nat)
    requires Ready(c, s, order) && b < c.newBuckets && i < c.bucketSize && s.vvNew[b][i] == EMPTY
    ensures SlotStage(c, s, order, b, i + 1) == SlotStage(c, s, order, b, i)
  {
    hide Base, Order, NewAt, InfoSlots;
    NewAtStep(c, s, order, b, i);
    InfoSlotsEmpty(c, s, order, b, i);
    PutSame(NewAt(c, s, order, b, i), b, i);
  }

  /** Reading the index written for a slot puts the entry back into that slot. */
  lemma FullSlot(c: Config, s: Tables, order: seq<int>, b: nat, i: nat)
    requires Ready(c, s, order) && RefOk(c, s.info, s.vvNew, {}) && b < c.newBuckets && i < c.bucketSize
    requires s.vvNew[b][i] != EMPTY
    ensures s.vvNew[b][i] in order
    ensures Place(c, SlotStage(c, s, order, b, i), b, IndexIn(order, s.vvNew[b][i])) == SlotStage(c, s, order, b, i + 1)
  {
    hide Base, Order, NewAt, InfoSlots, Stage, RefAt, RefOk;
    SlotsInOrder(c, s, order);
    SlotEntry(c, s, order, b, i);
    var n := IndexIn(order, s.vvNew[b][i]);
    NewAtStep(c, s, order, b, i);
    InfoSlotsFull(c, s, order, b, i, n);
    RefBelow(c, s, order, b, i);
    EntryAt(c, s, order, b, i, n);
  }

  lemma EntryAt(c: Config, s: Tables, order: seq<int>, b: nat, i: nat, n: nat)
    requires Ready(c, s, order) && n < |order|
    ensures var t := SlotStage(c, s, order, b, i);
            && n in t.info && order[n] in s.info && t.info[n].service == s.info[order[n]].service
            && t.info[n].refCount == RefAt(c, s, order, n, b, i) && t.nNew == s.nNew
  {}

  lemma NextRow(c: Config, s: Tables, order: seq<int>, b: nat)
    requires Ready(c, s, order) && b < c.newBuckets
    ensures SlotStage(c, s, order, b, c.bucketSize) == SlotStage(c, s, order, b + 1, 0)
  {
    SameTable(NewAt(c, s, order, b, c.bucketSize), NewAt(c, s, order, b + 1, 0), c.newBuckets, c.bucketSize);
    hide Base, Order;
    forall n | 0 <= n < |order|
      ensures RefAt(c, s, order, n, b, c.bucketSize) == RefAt(c, s, order, n, b + 1, 0)
    {
      IdsNotEmpty(c, s, order, n);
      assert SlotsBefore(c, s, order[n], b, c.bucketSize) == SlotsBefore(c, s, order[n], b + 1, 0);
    }
    assert InfoSlots(c, s, order, b, c.bucketSize) == InfoSlots(c, s, order, b + 1, 0);
  }

  lemma {:induction false} RowRestored(c: Config, s: Tables, order: seq<int>, b: nat, i: nat)
    requires Ready(c, s, order) && RefOk(c, s.info, s.vvNew, {}) && b < c.newBuckets && i <= c.bucketSize
    ensures Shape(s.vvNew, c.newBuckets, c.bucketSize)
    ensures forall p | 0 <= p < |s.vvNew[b]| && s.vvNew[b][p] != EMPTY :: s.vvNew[b][p] in order
    ensures PlaceRow(c, SlotStage(c, s, order, b, 0), b, RowList(order, s.vvNew[b], i)) == SlotStage(c, s, order, b, i)
  {
    hide SlotStage, Place, Base, Order, RefOk;
    SlotsInOrder(c, s, order);
    if i > 0 {
      RowRestored(c, s, order, b, i - 1);
      var row := RowList(order, s.vvNew[b], i);
      if s.vvNew[b][i - 1] == EMPTY {
        EmptySlot(c, s, order, b, i - 1);
        assert row == RowList(order, s.vvNew[b], i - 1);
      } else {
        FullSlot(c, s, order, b, i - 1);
        assert row[..|row| - 1] == RowList(order, s.vvNew[b], i - 1);
      }
    }
  }

  /** What is written for the first b buckets. */
  ghost function Rows(c: Config, s: Tables, order: seq<int>, b: nat): (r: seq<seq<int>>)
    requires Ready(c, s, order) && b <= c.newBuckets
    ensures |r| == b
  {
    SlotsInOrder(c, s, order);
    seq(b, k requires 0 <= k < b => RowList(order, s.vvNew[k], c.bucketSize))
  }

  lemma {:induction false} RowsRestored(c: Config, s: Tables, order: seq<int>, b: nat)
    requires Ready(c, s, order) && RefOk(c, s.info, s.vvNew, {}) && b <= c.newBuckets
    ensures PlaceRows(c, SlotStage(c, s, order, 0, 0), Rows(c, s, order, b)) == SlotStage(c, s, order, b, 0)
  {
    hide SlotStage, PlaceRow, Base, Order, RefOk, RowList;
    if b > 0 {
      RowsRestored(c, s, order, b - 1);
      SlotsInOrder(c, s, order);
      assert Rows(c, s, order, b)[..b - 1] == Rows(c, s, order, b - 1);
      RowRestored(c, s, order, b - 1, c.bucketSize);
      NextRow(c, s, order, b - 1);
    }
  }

  lemma SlotStart(c: Config, s: Tables, order: seq<int>)
    requires Ready(c, s, order)
    ensures SlotStage(c, s, order, 0, 0) == Stage(c, s, order, |order|)
  {
    SameTable(NewAt(c, s, order, 0, 0), EmptyTable(c.newBuckets, c.bucketSize), c.newBuckets, c.bucketSize);
    hide Base;
    forall n | 0 <= n < |order|
      ensures RefAt(c, s, order, n, 0, 0) == 0
    {
      assert SlotsBefore(c, s, order[n], 0, 0) == {};
    }
    assert InfoSlots(c, s, order, 0, 0) == InfoAt(s, order, |order|);
  }

  /** The loaded manager: the saved one with ids replaced by their places in the order. */
  ghost function Reloaded(c: Config, s: Tables, order: seq<int>): Tables
    requires Ready(c, s, order)
  {
    SlotStage(c, s, order, c.newBuckets, 0)
  }

  /** An entry read back: the written fields as they were, the times of the last attempts forgotten. */
  ghost predicate ReadBack(e: AddrInfo, f: AddrInfo) {
    && f.service == e.service && f.nTime == e.nTime && f.services == e.services && f.source == e.source
    && f.lastSuccess == e.lastSuccess && f.attempts == e.attempts && f.lastTry == 0 && f.lastCountAttempt == 0
    && f.inTried == e.inTried && f.refCount == e.refCount
  }

  /** Every entry comes back with its written fields, its count of slots and its table side. */
  lemma EntriesRestored(c: Config, s: Tables, order: seq<int>, id: int)
    requires Ready(c, s, order) && RefOk(c, s.info, s.vvNew, {}) && id in s.info
    ensures var t, n := Reloaded(c, s, order), IndexIn(order, id);
            && id in order && n in t.info && ReadBack(s.info[id], t.info[n]) && t.info[n].randomPos == n
  {
    var n := IndexIn(order, id);
    assert RefEntry(c, s.info[id], id, s.vvNew, {});
    AllBefore(c, s, id);
    if s.info[id].inTried { TriedHasNoSlots(c, s.info, s.vvNew, id); }
  }

  lemma AllBefore(c: Config, s: Tables, id: int)
    requires Base(c, s, 0) && id in s.info
    ensures SlotsBefore(c, s, id, c.newBuckets, 0) == Slots(c, s.vvNew, s.info[id].service, id)
  {}

  /** Slot by slot, `t` holds what `s` holds, under the names that `order` gives. */
  ghost predicate SameSlots(s: seq<seq<int>>, t: seq<seq<int>>, order: seq<int>) {
    && |t| == |s| && (forall b | 0 <= b < |s| :: |t[b]| == |s[b]|)
    && forall b, p | 0 <= b < |s| && 0 <= p < |s[b]| ::
         if s[b][p] == EMPTY then t[b][p] == EMPTY else s[b][p] in order && t[b][p] == IndexIn(order, s[b][p])
  }

  /** Every slot of both tables comes back with the same entry in it. */
  lemma SlotsRestored(c: Config, s: Tables, order: seq<int>)
    requires Ready(c, s, order)
    ensures var t := Reloaded(c, s, order);
            && Shape(s.vvNew, c.newBuckets, c.bucketSize) && Shape(t.vvNew, c.newBuckets, c.bucketSize)
            && Shape(s.vvTried, c.triedBuckets, c.bucketSize) && Shape(t.vvTried, c.triedBuckets, c.bucketSize)
    ensures var t := Reloaded(c, s, order);
            forall b, p | 0 <= b < c.newBuckets && 0 <= p < c.bucketSize ::
              if s.vvNew[b][p] == EMPTY then t.vvNew[b][p] == EMPTY
              else s.vvNew[b][p] in order && t.vvNew[b][p] == IndexIn(order, s.vvNew[b][p])
    ensures var t := Reloaded(c, s, order);
            forall b, p | 0 <= b < c.triedBuckets && 0 <= p < c.bucketSize ::
              if s.vvTried[b][p] == EMPTY then t.vvTried[b][p] == EMPTY
              else s.vvTried[b][p] in order && t.vvTried[b][p] == IndexIn(order, s.vvTried[b][p])
  {
    SlotsInOrder(c, s, order);
  }
}
