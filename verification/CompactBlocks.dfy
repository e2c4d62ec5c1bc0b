/** Compact blocks: some transactions in full at coded positions, the rest as short ids. */
module CompactBlocks {
  type Hash = nat

  datatype Tx = Tx(hash: Hash, isNull: bool, size: nat)

  /** index counts the positions skipped since the previous prefilled transaction. */
  datatype Prefilled = Prefilled(index: nat, tx: Tx)

  datatype CompactBlock = CompactBlock(headerNull: bool, shorttxids: seq<nat>, prefilled: seq<Prefilled>)

  function TxCount(b: CompactBlock): nat { |b.shorttxids| + |b.prefilled| }

  /** The position of the last prefilled transaction; -1 before the first. */
  function LastIndex(pre: seq<Prefilled>): (p: int)
    ensures p >= -1 && (pre != [] ==> p >= 0)
  {
    if pre == [] then -1 else LastIndex(pre[..|pre| - 1]) + pre[|pre| - 1].index + 1
  }

  function PositionOf(pre: seq<Prefilled>, i: nat): (p: nat)
    requires i < |pre|
  {
    LastIndex(pre[..i + 1])
  }

  lemma PositionStep(pre: seq<Prefilled>, i: nat)
    requires i < |pre|
    ensures PositionOf(pre, i) == LastIndex(pre[..i]) + pre[i].index + 1
  {
    assert pre[..i + 1][..i] == pre[..i];
  }

  lemma {:induction false} PositionsIncrease(pre: seq<Prefilled>, i: nat, j: nat)
    requires i < j < |pre|
    ensures PositionOf(pre, i) < PositionOf(pre, j)
    decreases j
  {
    PositionStep(pre, j);
    if i < j - 1 { PositionsIncrease(pre, i, j - 1); }
  }

  // ----- validation

  datatype Verdict = Accepted | EmptyData | TooManyTxs | NullTx | IndexOverflows | InvalidIndex

  /** Prefilled transaction i stands where the ones before it and all short ids can reach. */
  predicate PlacedOk(b: CompactBlock, i: nat)
    requires i < |b.prefilled|
  {
    && !b.prefilled[i].tx.isNull
    && PositionOf(b.prefilled, i) <= 0xffff_ffff
    && PositionOf(b.prefilled, i) <= |b.shorttxids| + i
  }

  predicate Acceptable(b: CompactBlock, maxTxs: nat) {
    && !b.headerNull && TxCount(b) > 0 && TxCount(b) <= maxTxs
    && forall i | 0 <= i < |b.prefilled| :: PlacedOk(b, i)
  }

  /** What each refusal says of the first prefilled transaction that is not in place. */
  predicate Refused(b: CompactBlock, i: nat, v: Verdict)
    requires i < |b.prefilled|
  {
    var isNull, p := b.prefilled[i].tx.isNull, PositionOf(b.prefilled, i);
    match v
    case NullTx => isNull
    case IndexOverflows => !isNull && p > 0xffff_ffff
    case InvalidIndex => !isNull && p <= 0xffff_ffff && p > |b.shorttxids| + i
    case _ => false
  }

  ghost predicate FirstRefused(b: CompactBlock, v: Verdict) {
    exists i | 0 <= i < |b.prefilled| :: Refused(b, i, v) && forall k | 0 <= k < i :: PlacedOk(b, k)
  }

  method ValidateCompactBlock(b: CompactBlock, maxTxs: nat) returns (v: Verdict)
    ensures v == Accepted <==> Acceptable(b, maxTxs)
    ensures v == EmptyData <==> b.headerNull || TxCount(b) == 0
    ensures v == TooManyTxs <==> !b.headerNull && TxCount(b) > 0 && TxCount(b) > maxTxs
    ensures v.NullTx? || v.IndexOverflows? || v.InvalidIndex? ==> FirstRefused(b, v)
  {
    if b.headerNull || (b.shorttxids == [] && b.prefilled == []) {
      return EmptyData;
    }
    if TxCount(b) > maxTxs {
      return TooManyTxs;
    }
    var last := -1;
    for i := 0 to |b.prefilled|
      invariant last == LastIndex(b.prefilled[..i])
      invariant forall k | 0 <= k < i :: PlacedOk(b, k)
    {
      PositionStep(b.prefilled, i);
      assert PlacedOk(b, i) ==> !b.prefilled[i].tx.isNull && PositionOf(b.prefilled, i) <= |b.shorttxids| + i;
      if b.prefilled[i].tx.isNull {
        assert Refused(b, i, NullTx);
        return NullTx;
      }
      last := last + b.prefilled[i].index + 1;
      if last > 0xffff_ffff {
        assert Refused(b, i, IndexOverflows);
        return IndexOverflows;
      }
      if last > |b.shorttxids| + i {
        assert Refused(b, i, InvalidIndex);
        return InvalidIndex;
      }
    }
    v := Accepted;
  }

  // ----- the list of transactions

  datatype ThinTx = Empty | Full(hash: Hash) | Short(id: nat)

  /** A short id of zero cannot be told from no id. */
  predicate IsNull(t: ThinTx) { t == Empty || t == Short(0) }

  /** The short ids of a list, in order. */
  function ShortsOf(all: seq<ThinTx>): seq<nat> {
    if all == [] then []
    else ShortsOf(all[..|all| - 1]) + (if all[|all| - 1].Short? then [all[|all| - 1].id] else [])
  }

  /** How many slots are not taken by a full hash. */
  function Open(all: seq<ThinTx>): nat {
    if all == [] then 0 else Open(all[1..]) + (if all[0].Full? then 0 else 1)
  }

  /** The list a compact block stands for. */
  ghost predicate Layout(b: CompactBlock, all: seq<ThinTx>) {
    && |all| == TxCount(b)
    && (forall i | 0 <= i < |b.prefilled| ::
          PositionOf(b.prefilled, i) < |all| && all[PositionOf(b.prefilled, i)] == Full(b.prefilled[i].tx.hash))
    && (forall j | 0 <= j < |all| :: all[j].Full? ==> Taken(b.prefilled, |b.prefilled|, j))
    && (forall j | 0 <= j < |all| :: all[j] != Empty)
    && ShortsOf(all) == b.shorttxids
  }

  ghost predicate Taken(pre: seq<Prefilled>, n: nat, j: nat)
    requires n <= |pre|
  {
    exists i | 0 <= i < n :: PositionOf(pre, i) == j
  }

  lemma {:induction false} OpenUpdate(all: seq<ThinTx>, j: nat, h: Hash)
    requires j < |all| && !all[j].Full?
    ensures Open(all[j := Full(h)]) == Open(all) - 1
  {
    var t := all[j := Full(h)];
    if j > 0 {
      OpenUpdate(all[1..], j - 1, h);
      assert t[1..] == all[1..][j - 1 := Full(h)];
    } else {
      assert t[1..] == all[1..];
    }
  }

  lemma {:induction false} OpenAll(n: nat)
    ensures Open(seq(n, _ => Empty)) == n
  {
    if n > 0 {
      OpenAll(n - 1);
      assert seq(n, _ => Empty)[1..] == seq(n - 1, _ => Empty);
    }
  }

  lemma {:induction false} ShortsConcat(s: seq<ThinTx>, t: seq<ThinTx>)
    ensures ShortsOf(s + t) == ShortsOf(s) + ShortsOf(t)
  {
    if t == [] {
      assert s + t == s;
    } else {
      var n := |t| - 1;
      ShortsConcat(s, t[..n]);
      assert (s + t)[..|s + t| - 1] == s + t[..n];
    }
  }

  /** The first n prefilled transactions are in place and every other slot is empty. */
  ghost predicate Prefilling(b: CompactBlock, all: seq<ThinTx>, n: nat) {
    && n <= |b.prefilled| && |all| == TxCount(b) && Open(all) == |all| - n
    && (forall i | 0 <= i < n ::
          PositionOf(b.prefilled, i) < |all| && all[PositionOf(b.prefilled, i)] == Full(b.prefilled[i].tx.hash))
    && (forall j | 0 <= j < |all| ::
          if Taken(b.prefilled, n, j) then all[j].Full? else all[j] == Empty)
  }

  lemma PrefillStart(b: CompactBlock)
    ensures Prefilling(b, seq(TxCount(b), _ => Empty), 0)
  {
    OpenAll(TxCount(b));
  }

  lemma PrefillStep(b: CompactBlock, all: seq<ThinTx>, n: nat)
    requires n < |b.prefilled| && Prefilling(b, all, n) && PositionOf(b.prefilled, n) < |all|
    ensures Prefilling(b, all[PositionOf(b.prefilled, n) := Full(b.prefilled[n].tx.hash)], n + 1)
  {
    hide PositionOf;
    var pre := b.prefilled;
    var p := PositionOf(pre, n);
    forall i | 0 <= i < n
      ensures PositionOf(pre, i) < p
    {
      PositionsIncrease(pre, i, n);
    }
    assert !Taken(pre, n, p);
    OpenUpdate(all, p, pre[n].tx.hash);
    forall j: nat
      ensures Taken(pre, n + 1, j) <==> Taken(pre, n, j) || j == p
    {
      if j == p { assert PositionOf(pre, n) == j; }
    }
  }

  /** Short ids placed so far, up to position p. */
  ghost predicate Placing(b: CompactBlock, base: seq<ThinTx>, all: seq<ThinTx>, i: nat, p: nat) {
    && i <= |b.shorttxids| && p <= |all| == |base|
    && all[p..] == base[p..] && Open(base[p..]) == |b.shorttxids| - i
    && ShortsOf(all[..p]) == b.shorttxids[..i]
    && (forall j | 0 <= j < p :: all[j] != Empty)
    && (forall j | 0 <= j < |base| :: all[j].Full? <==> base[j].Full?)
    && (forall j | 0 <= j < |base| && base[j].Full? :: all[j] == base[j])
  }

  lemma PlaceStart(b: CompactBlock, base: seq<ThinTx>)
    requires Prefilling(b, base, |b.prefilled|)
    ensures Placing(b, base, base, 0, 0)
  {
    assert base[0..] == base;
  }

  lemma PlaceSkip(b: CompactBlock, base: seq<ThinTx>, all: seq<ThinTx>, i: nat, p: nat)
    requires Placing(b, base, all, i, p) && p < |all| && all[p].Full?
    ensures Placing(b, base, all, i, p + 1)
  {
    assert base[p..][1..] == base[p + 1..] && all[p..][1..] == all[p + 1..];
    assert all[..p + 1][..p] == all[..p];
  }

  lemma PlaceShort(b: CompactBlock, base: seq<ThinTx>, all: seq<ThinTx>, i: nat, p: nat)
    requires Placing(b, base, all, i, p) && i < |b.shorttxids| && p < |all| && !all[p].Full?
    ensures Placing(b, base, all[p := Short(b.shorttxids[i])], i + 1, p + 1)
  {
    var now := all[p := Short(b.shorttxids[i])];
    assert all[p..][0] == all[p] == base[p];
    assert base[p..][1..] == base[p + 1..] && now[p + 1..] == all[p..][1..];
    assert now[..p + 1][..p] == all[..p];
    assert b.shorttxids[..i + 1] == b.shorttxids[..i] + [b.shorttxids[i]];
  }

  /** While short ids remain there is a slot for the next one. */
  lemma RoomLeft(b: CompactBlock, base: seq<ThinTx>, all: seq<ThinTx>, i: nat, p: nat)
    requires Placing(b, base, all, i, p) && i < |b.shorttxids|
    ensures p < |all|
  {}

  lemma {:induction false} NoneOpen(s: seq<ThinTx>)
    requires Open(s) == 0
    ensures ShortsOf(s) == [] && forall j | 0 <= j < |s| :: s[j].Full?
  {
    if s != [] {
      NoneOpen(s[1..]);
      ShortsConcat([s[0]], s[1..]);
      assert s == [s[0]] + s[1..];
      assert [s[0]][..0] == [];
    }
  }

  lemma PlaceDone(b: CompactBlock, base: seq<ThinTx>, all: seq<ThinTx>, p: nat)
    requires Prefilling(b, base, |b.prefilled|) && Placing(b, base, all, |b.shorttxids|, p)
    ensures Layout(b, all)
  {
    hide PositionOf, Taken;
    NoneOpen(base[p..]);
    assert all == all[..p] + all[p..];
    ShortsConcat(all[..p], all[p..]);
    assert b.shorttxids[..|b.shorttxids|] == b.shorttxids;
    forall j | 0 <= j < |all|
      ensures all[j] != Empty
    {
      if j >= p { assert all[j] == all[p..][j - p]; }
    }
  }

  /** OutOfRange and NullAt are the two exceptions. */
  datatype Outcome = All(txs: seq<ThinTx>) | OutOfRange | NullAt(i: nat)

  method PlacePrefilled(b: CompactBlock) returns (ok: bool, all: seq<ThinTx>)
    ensures ok ==> Prefilling(b, all, |b.prefilled|)
    ensures !ok ==> exists i | 0 <= i < |b.prefilled| :: PositionOf(b.prefilled, i) >= TxCount(b)
  {
    hide Prefilling;
    all := seq(TxCount(b), _ => Empty);
    PrefillStart(b);
    var last := -1;
    for i := 0 to |b.prefilled|
      invariant last == LastIndex(b.prefilled[..i])
      invariant |all| == TxCount(b) && Prefilling(b, all, i)
    {
      PositionStep(b.prefilled, i);
      last := last + b.prefilled[i].index + 1;
      if last >= |all| {
        return false, all;
      }
      PrefillStep(b, all, i);
      all := all[last := Full(b.prefilled[i].tx.hash)];
    }
    ok := true;
  }

  method PlaceShortIds(b: CompactBlock, base: seq<ThinTx>) returns (all: seq<ThinTx>)
    requires Prefilling(b, base, |b.prefilled|)
    ensures Layout(b, all)
  {
    hide Prefilling, Placing, Layout;
    all := base;
    var offset := 0;
    PlaceStart(b, base);
    for i := 0 to |b.shorttxids|
      invariant Placing(b, base, all, i, i + offset)
    {
      RoomLeft(b, base, all, i, i + offset);
      while all[i + offset].Full?
        invariant i + offset < |all| && Placing(b, base, all, i, i + offset)
        decreases |all| - offset
      {
        PlaceSkip(b, base, all, i, i + offset);
        offset := offset + 1;
        RoomLeft(b, base, all, i, i + offset);
      }
      PlaceShort(b, base, all, i, i + offset);
      all := all[i + offset := Short(b.shorttxids[i])];
    }
    PlaceDone(b, base, all, |b.shorttxids| + offset);
  }

  /** The first null slot of the list, if any. */
  function Checked(all: seq<ThinTx>, i: nat): (r: Outcome)
    requires i <= |all|
    ensures r == All(all) || (r.NullAt? && i <= r.i < |all| && IsNull(all[r.i]))
    ensures r == All(all) <==> forall j | i <= j < |all| :: !IsNull(all[j])
    decreases |all| - i
  {
    if i == |all| then All(all) else if IsNull(all[i]) then NullAt(i) else Checked(all, i + 1)
  }

  /** Accepted positions all lie in the list. */
  lemma AcceptedInRange(b: CompactBlock, maxTxs: nat, i: nat)
    requires Acceptable(b, maxTxs) && i < |b.prefilled|
    ensures PositionOf(b.prefilled, i) < TxCount(b)
  {
    assert PlacedOk(b, i);
  }

  lemma {:induction false} ShortsHave(all: seq<ThinTx>, id: nat)
    ensures id in ShortsOf(all) <==> Short(id) in all
  {
    if all != [] {
      var n := |all| - 1;
      ShortsHave(all[..n], id);
      assert all == all[..n] + [all[n]];
    }
  }

  /** On an accepted block the list is complete exactly when no short id is zero. */
  lemma ListComplete(b: CompactBlock, all: seq<ThinTx>)
    requires Layout(b, all)
    ensures Checked(all, 0) == All(all) <==> 0 !in b.shorttxids
  {
    ShortsHave(all, 0);
  }

  lemma ZeroIdFails()
    ensures var b := CompactBlock(false, [0], []);
            Acceptable(b, 1) && Layout(b, [Short(0)]) && Checked([Short(0)], 0) == NullAt(0)
  {
    var b := CompactBlock(false, [0], []);
    assert [Short(0)][..0] == [];
    assert ShortsOf([Short(0)]) == [0];
  }

  /** A compact block stands for at most one list. */
  lemma LayoutUnique(b: CompactBlock, s: seq<ThinTx>, t: seq<ThinTx>)
    requires Layout(b, s) && Layout(b, t)
    ensures s == t
  {
    hide PositionOf;
    forall j | 0 <= j < |s|
      ensures s[j].Full? <==> t[j].Full?
      ensures s[j].Full? ==> s[j] == t[j]
    {
      if Taken(b.prefilled, |b.prefilled|, j) {
        var i :| 0 <= i < |b.prefilled| && PositionOf(b.prefilled, i) == j;
      }
    }
    SameShorts(s, t);
  }

  lemma {:induction false} SameShorts(s: seq<ThinTx>, t: seq<ThinTx>)
    requires |s| == |t| && ShortsOf(s) == ShortsOf(t)
    requires forall j | 0 <= j < |s| ::
               s[j] != Empty && t[j] != Empty && (s[j].Full? <==> t[j].Full?) && (s[j].Full? ==> s[j] == t[j])
    ensures s == t
  {
    if s != [] {
      var n := |s| - 1;
      if s[n].Short? {
        assert ShortsOf(s) == ShortsOf(s[..n]) + [s[n].id];
        assert ShortsOf(t) == ShortsOf(t[..n]) + [t[n].id];
        assert ShortsOf(s)[|ShortsOf(s)| - 1] == s[n].id;
        assert ShortsOf(s)[..|ShortsOf(s)| - 1] == ShortsOf(s[..n]);
        assert ShortsOf(t)[..|ShortsOf(t)| - 1] == ShortsOf(t[..n]);
      } else {
        assert ShortsOf(s) == ShortsOf(s[..n]) && ShortsOf(t) == ShortsOf(t[..n]);
      }
      SameShorts(s[..n], t[..n]);
      assert s == s[..n] + [s[n]] && t == t[..n] + [t[n]];
    }
  }

  method AllTransactions(b: CompactBlock) returns (r: Outcome)
    ensures r.All? ==> Layout(b, r.txs) && 0 !in b.shorttxids
    ensures r.NullAt? ==> 0 in b.shorttxids
    ensures r.OutOfRange? ==> forall maxTxs :: !Acceptable(b, maxTxs)
  {
    hide Layout, Checked, Acceptable;
    var ok, base := PlacePrefilled(b);
    if !ok {
      RangeRefused(b);
      return OutOfRange;
    }
    var all := PlaceShortIds(b, base);
    ListComplete(b, all);
    var i := 0;
    CheckSame(all, 0);
    while i < |all|
      invariant i <= |all| && Checked(all, 0) == Checked(all, i)
    {
      CheckSame(all, i);
      if IsNull(all[i]) {
        return NullAt(i);
      }
      i := i + 1;
    }
    CheckSame(all, i);
    r := All(all);
  }

  lemma CheckSame(all: seq<ThinTx>, i: nat)
    requires i <= |all|
    ensures Checked(all, i) == if i == |all| then All(all) else if IsNull(all[i]) then NullAt(i)
            else Checked(all, i + 1)
  {}

  lemma RangeRefused(b: CompactBlock)
    requires exists i | 0 <= i < |b.prefilled| :: PositionOf(b.prefilled, i) >= TxCount(b)
    ensures forall maxTxs :: !Acceptable(b, maxTxs)
  {
    var i :| 0 <= i < |b.prefilled| && PositionOf(b.prefilled, i) >= TxCount(b);
    forall maxTxs
      ensures !Acceptable(b, maxTxs)
    {
      if Acceptable(b, maxTxs) { AcceptedInRange(b, maxTxs, i); }
    }
  }

  // ----- building a compact block

  /** The prefilled transactions are those of the block at the chosen positions. */
  ghost predicate Chosen(vtx: seq<Tx>, filled: seq<Prefilled>, chosen: seq<nat>) {
    && |filled| == |chosen| && Ascending(chosen, |vtx|)
    && forall k | 0 <= k < |filled| :: ChosenAt(vtx, filled, chosen, k)
  }

  /** The step from the previous position is cut to sixteen bits. */
  ghost predicate ChosenAt(vtx: seq<Tx>, filled: seq<Prefilled>, chosen: seq<nat>, k: nat)
    requires k < |filled| == |chosen| && Ascending(chosen, |vtx|)
  {
    && filled[k].tx == vtx[chosen[k]]
    && filled[k].index == if k == 0 then chosen[0] else (chosen[k] - (chosen[k - 1] + 1)) % 65536
  }

  ghost predicate Ascending(chosen: seq<nat>, n: nat) {
    && (forall k | 0 <= k < |chosen| :: chosen[k] < n)
    && (forall i, k | 0 <= i < k < |chosen| :: chosen[i] < chosen[k])
  }

  /** Sixteen bits are enough for every step. */
  ghost predicate StepsFit(chosen: seq<nat>) { forall k | 0 < k < |chosen| :: StepFits(chosen, k) }

  predicate StepFits(chosen: seq<nat>, k: nat)
    requires 0 < k < |chosen|
  {
    chosen[k] as int - chosen[k - 1] - 1 < 65536
  }

  /** The coded positions never lie beyond the chosen ones, and agree with them up to the first step
      that does not fit. */
  lemma {:induction false} CodedPosition(vtx: seq<Tx>, filled: seq<Prefilled>, chosen: seq<nat>, k: nat)
    requires Chosen(vtx, filled, chosen) && k < |filled|
    ensures PositionOf(filled, k) <= chosen[k]
    ensures PositionOf(filled, k) == chosen[k] <==> forall j | 0 < j <= k :: StepFits(chosen, j)
  {
    PositionStep(filled, k);
    assert ChosenAt(vtx, filled, chosen, k);
    if k > 0 {
      CodedPosition(vtx, filled, chosen, k - 1);
      CutStep(chosen[k], chosen[k - 1] + 1);
      assert PositionOf(filled, k) == chosen[k] <==> PositionOf(filled, k - 1) == chosen[k - 1] && StepFits(chosen, k);
    } else {
      assert filled[..0] == [];
    }
  }

  lemma CutStep(to: nat, from: nat)
    requires from <= to
    ensures (to - from) % 65536 <= to - from
    ensures (to - from) % 65536 == to - from <==> to - from < 65536
  {}

  /** So the coded positions are the chosen ones exactly when every step fits. */
  lemma ChosenPositions(vtx: seq<Tx>, filled: seq<Prefilled>, chosen: seq<nat>)
    requires Chosen(vtx, filled, chosen)
    ensures (forall k | 0 <= k < |filled| :: PositionOf(filled, k) == chosen[k]) <==> StepsFit(chosen)
  {
    hide Chosen, PositionOf, StepFits;
    assert |filled| == |chosen| by { SameNumber(vtx, filled, chosen); }
    forall k | 0 <= k < |filled|
      ensures PositionOf(filled, k) == chosen[k] <==> forall j | 0 < j <= k :: StepFits(chosen, j)
    {
      CodedPosition(vtx, filled, chosen, k);
    }
    if (forall k | 0 <= k < |filled| :: PositionOf(filled, k) == chosen[k]) && chosen != [] {
      var last := |chosen| - 1;
      assert PositionOf(filled, last) == chosen[last];
    }
  }

  lemma SameNumber(vtx: seq<Tx>, filled: seq<Prefilled>, chosen: seq<nat>)
    requires Chosen(vtx, filled, chosen)
    ensures |filled| == |chosen|
  {}

  function TotalSize(filled: seq<Prefilled>): nat {
    if filled == [] then 0 else TotalSize(filled[..|filled| - 1]) + filled[|filled| - 1].tx.size
  }

  const MAX_PREFILLED_SIZE: nat := 10_000

  method FillCoinbase(vtx: seq<Tx>) returns (filled: seq<Prefilled>)
    requires vtx != []
    ensures Chosen(vtx, filled, [0])
  {
    filled := [Prefilled(0, vtx[0])];
  }

  /** What the peer is not known to have, in order, until the next one would be too much. */
  ghost predicate Unknowns(vtx: seq<Tx>, known: Hash -> bool, chosen: seq<nat>, n: nat)
    requires n <= |vtx|
  {
    && chosen != [] && chosen[0] == 0
    && forall j | 0 < j < n :: j in chosen <==> !known(vtx[j].hash)
  }

  /** The state of the scan before transaction i. */
  ghost predicate Scanning(vtx: seq<Tx>, known: Hash -> bool, filled: seq<Prefilled>, chosen: seq<nat>, i: nat) {
    && i <= |vtx| && Chosen(vtx, filled, chosen) && Unknowns(vtx, known, chosen, i) && chosen[|chosen| - 1] < i
    && (|filled| == 1 || TotalSize(filled) <= MAX_PREFILLED_SIZE)
  }

  lemma ScanStart(vtx: seq<Tx>, known: Hash -> bool)
    requires vtx != []
    ensures Scanning(vtx, known, [Prefilled(0, vtx[0])], [0], 1)
  {}

  lemma ScanKnown(vtx: seq<Tx>, known: Hash -> bool, filled: seq<Prefilled>, chosen: seq<nat>, i: nat)
    requires Scanning(vtx, known, filled, chosen, i) && i < |vtx| && known(vtx[i].hash)
    ensures Scanning(vtx, known, filled, chosen, i + 1)
  {
    forall k | 0 <= k < |chosen|
      ensures chosen[k] != i
    {
      assert k < |chosen| - 1 ==> chosen[k] < chosen[|chosen| - 1];
    }
  }

  lemma ScanUnknown(vtx: seq<Tx>, known: Hash -> bool, filled: seq<Prefilled>, chosen: seq<nat>, i: nat,
                    next: Prefilled)
    requires Scanning(vtx, known, filled, chosen, i) && i < |vtx| && !known(vtx[i].hash)
    requires TotalSize(filled) + vtx[i].size <= MAX_PREFILLED_SIZE
    requires next == Prefilled((i - (chosen[|chosen| - 1] + 1)) % 65536, vtx[i])
    ensures Scanning(vtx, known, filled + [next], chosen + [i], i + 1)
    ensures TotalSize(filled + [next]) == TotalSize(filled) + vtx[i].size
  {
    var f, c := filled + [next], chosen + [i];
    assert f[..|filled|] == filled;
    forall k | 0 <= k < |chosen|
      ensures chosen[k] < i
    {
      assert k < |chosen| - 1 ==> chosen[k] < chosen[|chosen| - 1];
    }
    assert Ascending(c, |vtx|);
    forall k | 0 <= k < |f|
      ensures ChosenAt(vtx, f, c, k)
    {
      if k < |filled| { assert ChosenAt(vtx, filled, chosen, k); }
    }
  }

  method FillInventory(vtx: seq<Tx>, known: Hash -> bool)
    returns (filled: seq<Prefilled>, ghost chosen: seq<nat>, ghost stop: nat)
    requires vtx != []
    ensures stop <= |vtx| && Chosen(vtx, filled, chosen) && Unknowns(vtx, known, chosen, stop)
            && chosen[|chosen| - 1] < stop
    ensures |filled| == 1 || TotalSize(filled) <= MAX_PREFILLED_SIZE
    ensures stop < |vtx| ==> !known(vtx[stop].hash) && TotalSize(filled) + vtx[stop].size > MAX_PREFILLED_SIZE
  {
    hide Chosen, Unknowns, TotalSize;
    filled := [Prefilled(0, vtx[0])];
    chosen := [0];
    var prevIndex := 0;
    var size := vtx[0].size;
    ScanStart(vtx, known);
    FirstSize(vtx[0]);
    var i := 1;
    while i < |vtx|
      invariant i <= |vtx| && Scanning(vtx, known, filled, chosen, i)
      invariant chosen != [] && prevIndex == chosen[|chosen| - 1] && size == TotalSize(filled)
    {
      if known(vtx[i].hash) {
        ScanKnown(vtx, known, filled, chosen, i);
      } else {
        size := size + vtx[i].size;
        if size > MAX_PREFILLED_SIZE {
          stop := i;
          return;
        }
        var next := Prefilled((i - (prevIndex + 1)) % 65536, vtx[i]);
        ScanUnknown(vtx, known, filled, chosen, i, next);
        filled := filled + [next];
        chosen := chosen + [i];
        prevIndex := i;
      }
      i := i + 1;
    }
    stop := |vtx|;
  }

  lemma FirstSize(tx: Tx)
    ensures TotalSize([Prefilled(0, tx)]) == tx.size
  {
    assert [Prefilled(0, tx)][..0] == [];
  }

  predicate IsPrefilled(filled: seq<Prefilled>, h: Hash) { exists k | 0 <= k < |filled| :: filled[k].tx.hash == h }

  function Omitted(vtx: seq<Tx>, filled: seq<Prefilled>, shortId: Hash -> nat): seq<nat> {
    if vtx == [] then []
    else
      var n := |vtx| - 1;
      Omitted(vtx[..n], filled, shortId) + (if IsPrefilled(filled, vtx[n].hash) then [] else [shortId(vtx[n].hash)])
  }

  method MakeCompactBlock(vtx: seq<Tx>, filled: seq<Prefilled>, headerNull: bool, shortId: Hash -> nat)
    returns (b: CompactBlock)
    ensures b == CompactBlock(headerNull, Omitted(vtx, filled, shortId), filled)
  {
    var ids := [];
    for i := 0 to |vtx|
      invariant ids == Omitted(vtx[..i], filled, shortId)
    {
      assert vtx[..i + 1][..i] == vtx[..i];
      if !IsPrefilled(filled, vtx[i].hash) {
        ids := ids + [shortId(vtx[i].hash)];
      }
    }
    assert vtx[..|vtx|] == vtx;
    b := CompactBlock(headerNull, ids, filled);
  }

  // ----- what it stands for

  predicate Distinct(vtx: seq<Tx>) { forall i, j | 0 <= i < j < |vtx| :: vtx[i].hash != vtx[j].hash }

  /** Full hashes at the chosen positions and short ids everywhere else. */
  function Rebuilt(vtx: seq<Tx>, chosen: seq<nat>, shortId: Hash -> nat): (r: seq<ThinTx>)
    ensures |r| == |vtx|
    ensures forall j | 0 <= j < |vtx| :: r[j] == if j in chosen then Full(vtx[j].hash) else Short(shortId(vtx[j].hash))
  {
    seq(|vtx|, j requires 0 <= j < |vtx| => if j in chosen then Full(vtx[j].hash) else Short(shortId(vtx[j].hash)))
  }

  lemma PrefilledIsChosen(vtx: seq<Tx>, filled: seq<Prefilled>, chosen: seq<nat>, j: nat)
    requires Chosen(vtx, filled, chosen) && Distinct(vtx) && j < |vtx|
    ensures IsPrefilled(filled, vtx[j].hash) <==> j in chosen
  {
    if IsPrefilled(filled, vtx[j].hash) {
      var k :| 0 <= k < |filled| && filled[k].tx.hash == vtx[j].hash;
      assert ChosenAt(vtx, filled, chosen, k);
      assert chosen[k] == j;
    }
    if j in chosen {
      var k :| 0 <= k < |chosen| && chosen[k] == j;
      assert ChosenAt(vtx, filled, chosen, k);
    }
  }

  lemma {:induction false} OmittedIds(vtx: seq<Tx>, filled: seq<Prefilled>, chosen: seq<nat>, shortId: Hash -> nat,
                                      n: nat)
    requires Chosen(vtx, filled, chosen) && Distinct(vtx) && n <= |vtx|
    ensures ShortsOf(Rebuilt(vtx, chosen, shortId)[..n]) == Omitted(vtx[..n], filled, shortId)
    ensures |Omitted(vtx[..n], filled, shortId)| == n - Rank(chosen, n)
  {
    hide Chosen, Distinct;
    if n > 0 {
      OmittedIds(vtx, filled, chosen, shortId, n - 1);
      PrefilledIsChosen(vtx, filled, chosen, n - 1);
      assert vtx[..n][..n - 1] == vtx[..n - 1];
      assert Rebuilt(vtx, chosen, shortId)[..n][..n - 1] == Rebuilt(vtx, chosen, shortId)[..n - 1];
    }
  }

  /** How many chosen positions lie below n. */
  function Rank(chosen: seq<nat>, n: nat): (k: nat)
    ensures k <= n
  {
    if n == 0 then 0 else Rank(chosen, n - 1) + (if n - 1 in chosen then 1 else 0)
  }

  lemma {:induction false} RankSame(s: seq<nat>, t: seq<nat>, n: nat)
    requires forall j: nat | j < n :: j in s <==> j in t
    ensures Rank(s, n) == Rank(t, n)
  {
    if n > 0 { RankSame(s, t, n - 1); }
  }

  lemma {:induction false} RankAll(chosen: seq<nat>, n: nat)
    requires Ascending(chosen, n)
    ensures Rank(chosen, n) == |chosen|
  {
    if n > 0 {
      if n - 1 in chosen {
        var k :| 0 <= k < |chosen| && chosen[k] == n - 1;
        var last := chosen[|chosen| - 1];
        assert last < n;
        var init := chosen[..k];
        RankAll(init, n - 1);
        assert chosen == init + [n - 1];
        RankSame(chosen, init, n - 1);
      } else {
        RankAll(chosen, n - 1);
      }
    } else {
      assert chosen == [];
    }
  }

  /** The built block stands for the full hash of each chosen transaction and the short id of every
      other, exactly when every step fits. */
  lemma BlockRebuilt(vtx: seq<Tx>, filled: seq<Prefilled>, chosen: seq<nat>, headerNull: bool, shortId: Hash -> nat)
    requires Chosen(vtx, filled, chosen) && Distinct(vtx)
    ensures Layout(CompactBlock(headerNull, Omitted(vtx, filled, shortId), filled), Rebuilt(vtx, chosen, shortId))
            <==> StepsFit(chosen)
  {
    hide Omitted, PositionOf, Layout, Rebuilt, StepsFit;
    var b := CompactBlock(headerNull, Omitted(vtx, filled, shortId), filled);
    ChosenPositions(vtx, filled, chosen);
    if forall k | 0 <= k < |filled| :: PositionOf(filled, k) == chosen[k] {
      Rebuilds(vtx, filled, chosen, b, shortId);
    }
    if Layout(b, Rebuilt(vtx, chosen, shortId)) {
      forall k | 0 <= k < |filled|
        ensures PositionOf(filled, k) == chosen[k]
      {
        RebuiltAt(vtx, filled, chosen, b, shortId, k);
      }
    }
  }

  lemma Rebuilds(vtx: seq<Tx>, filled: seq<Prefilled>, chosen: seq<nat>, b: CompactBlock, shortId: Hash -> nat)
    requires Chosen(vtx, filled, chosen) && Distinct(vtx)
    requires b.shorttxids == Omitted(vtx, filled, shortId) && b.prefilled == filled
    requires forall k | 0 <= k < |filled| :: PositionOf(filled, k) == chosen[k]
    ensures Layout(b, Rebuilt(vtx, chosen, shortId))
  {
    hide Omitted, Distinct, PositionOf, Chosen, Rebuilt, ShortsOf;
    var r := Rebuilt(vtx, chosen, shortId);
    OmittedIds(vtx, filled, chosen, shortId, |vtx|);
    ChosenFacts(vtx, filled, chosen);
    assert vtx[..|vtx|] == vtx && r[..|r|] == r;
    forall j | 0 <= j < |r| && r[j].Full?
      ensures Taken(filled, |filled|, j)
    {
      var k :| 0 <= k < |chosen| && chosen[k] == j;
      assert PositionOf(filled, k) == j;
    }
  }

  /** In that list a full hash tells its position. */
  lemma RebuiltAt(vtx: seq<Tx>, filled: seq<Prefilled>, chosen: seq<nat>, b: CompactBlock, shortId: Hash -> nat, k: nat)
    requires Chosen(vtx, filled, chosen) && Distinct(vtx) && b.prefilled == filled && k < |filled|
    requires Layout(b, Rebuilt(vtx, chosen, shortId))
    ensures PositionOf(filled, k) == chosen[k]
  {
    hide PositionOf;
    assert ChosenAt(vtx, filled, chosen, k);
    var p := PositionOf(filled, k);
    assert Rebuilt(vtx, chosen, shortId)[p] == Full(vtx[chosen[k]].hash);
    assert vtx[p].hash == vtx[chosen[k]].hash;
  }

  /** So that is the receiver's list, if it gets a complete one, exactly when every step fits. */
  lemma ReceivedList(vtx: seq<Tx>, filled: seq<Prefilled>, chosen: seq<nat>, headerNull: bool, shortId: Hash -> nat,
                     all: seq<ThinTx>)
    requires Chosen(vtx, filled, chosen) && Distinct(vtx)
    requires Layout(CompactBlock(headerNull, Omitted(vtx, filled, shortId), filled), all)
    ensures all == Rebuilt(vtx, chosen, shortId) <==> StepsFit(chosen)
  {
    hide Layout, Chosen, Distinct, StepsFit, Rebuilt;
    var b := CompactBlock(headerNull, Omitted(vtx, filled, shortId), filled);
    BlockRebuilt(vtx, filled, chosen, headerNull, shortId);
    if StepsFit(chosen) { LayoutUnique(b, all, Rebuilt(vtx, chosen, shortId)); }
  }

  lemma ChosenFacts(vtx: seq<Tx>, filled: seq<Prefilled>, chosen: seq<nat>)
    requires Chosen(vtx, filled, chosen)
    ensures |filled| == |chosen| == Rank(chosen, |vtx|)
    ensures forall k | 0 <= k < |filled| :: chosen[k] < |vtx| && chosen[k] in chosen && filled[k].tx == vtx[chosen[k]]
  {
    RankAll(chosen, |vtx|);
    forall k | 0 <= k < |filled|
      ensures filled[k].tx == vtx[chosen[k]]
    {
      assert ChosenAt(vtx, filled, chosen, k);
    }
  }

  lemma AscendingGap(chosen: seq<nat>, n: nat, k: nat)
    requires Ascending(chosen, n) && k < |chosen|
    ensures chosen[k] + |chosen| - k <= n
    decreases |chosen| - k
  {
    if k + 1 < |chosen| { AscendingGap(chosen, n, k + 1); }
  }

  /** The receiver accepts it, whether the steps fit or not, exactly when it takes so many transactions. */
  lemma BlockAccepted(vtx: seq<Tx>, filled: seq<Prefilled>, chosen: seq<nat>, shortId: Hash -> nat, maxTxs: nat)
    requires Chosen(vtx, filled, chosen) && Distinct(vtx) && 0 < |vtx| <= 0x1_0000_0000
    requires forall i | 0 <= i < |vtx| :: !vtx[i].isNull
    ensures Acceptable(CompactBlock(false, Omitted(vtx, filled, shortId), filled), maxTxs) <==> |vtx| <= maxTxs
  {
    var b := CompactBlock(false, Omitted(vtx, filled, shortId), filled);
    OmittedIds(vtx, filled, chosen, shortId, |vtx|);
    RankAll(chosen, |vtx|);
    assert vtx[..|vtx|] == vtx;
    forall k | 0 <= k < |filled|
      ensures PlacedOk(b, k)
    {
      CodedPosition(vtx, filled, chosen, k);
      assert ChosenAt(vtx, filled, chosen, k);
      AscendingGap(chosen, |vtx|, k);
    }
  }

  // ----- a step that does not fit

  /** When only transaction 65537 is unknown to the peer, and small enough, the prefiller chooses it. */
  method FillWideStep(vtx: seq<Tx>, known: Hash -> bool) returns (filled: seq<Prefilled>)
    requires |vtx| > 65537 && vtx[0].size + vtx[65537].size <= MAX_PREFILLED_SIZE
    requires forall j | 0 < j < |vtx| :: known(vtx[j].hash) <==> j != 65537
    ensures Chosen(vtx, filled, [0, 65537])
  {
    hide Chosen, Unknowns, TotalSize;
    ghost var chosen, stop;
    filled, chosen, stop := FillInventory(vtx, known);
    OneUnknown(vtx, known, filled, chosen, stop);
  }

  lemma OneUnknown(vtx: seq<Tx>, known: Hash -> bool, filled: seq<Prefilled>, chosen: seq<nat>, stop: nat)
    requires |vtx| > 65537 && vtx[0].size + vtx[65537].size <= MAX_PREFILLED_SIZE
    requires forall j | 0 < j < |vtx| :: known(vtx[j].hash) <==> j != 65537
    requires stop <= |vtx| && Chosen(vtx, filled, chosen) && Unknowns(vtx, known, chosen, stop)
    requires chosen[|chosen| - 1] < stop
    requires stop < |vtx| ==> !known(vtx[stop].hash) && TotalSize(filled) + vtx[stop].size > MAX_PREFILLED_SIZE
    ensures chosen == [0, 65537]
  {
    hide TotalSize;
    forall k | 0 < k < |chosen|
      ensures chosen[k] == 65537
    {
      assert 0 < chosen[k] <= chosen[|chosen| - 1] && chosen[k] in chosen;
    }
    assert Ascending(chosen, 65538);
    if |chosen| > 1 { AscendingGap(chosen, 65538, 1); }
    if |chosen| == 1 {
      assert ChosenAt(vtx, filled, chosen, 0);
      assert filled == [Prefilled(0, vtx[0])];
      FirstSize(vtx[0]);
    }
    assert 65537 < stop ==> 65537 in chosen;
  }

  /** The receiver accepts that block, and puts transaction 65537 at position 1 of any complete list. */
  lemma WideStepLost(vtx: seq<Tx>, filled: seq<Prefilled>, shortId: Hash -> nat, maxTxs: nat, all: seq<ThinTx>)
    requires 65537 < |vtx| <= maxTxs && |vtx| <= 0x1_0000_0000 && Distinct(vtx)
    requires forall i | 0 <= i < |vtx| :: !vtx[i].isNull
    requires Chosen(vtx, filled, [0, 65537])
    requires Layout(CompactBlock(false, Omitted(vtx, filled, shortId), filled), all)
    ensures Acceptable(CompactBlock(false, Omitted(vtx, filled, shortId), filled), maxTxs)
    ensures all != Rebuilt(vtx, [0, 65537], shortId) && all[1] == Full(vtx[65537].hash)
  {
    hide Acceptable, Omitted, Rebuilt, ShortsOf, Taken;
    var chosen := [0, 65537];
    assert !StepFits(chosen, 1);
    BlockAccepted(vtx, filled, chosen, shortId, maxTxs);
    ReceivedList(vtx, filled, chosen, false, shortId, all);
    PositionStep(filled, 0);
    PositionStep(filled, 1);
    assert filled[..0] == [];
    assert ChosenAt(vtx, filled, chosen, 0) && ChosenAt(vtx, filled, chosen, 1);
    assert PositionOf(filled, 1) == 1;
  }
}
