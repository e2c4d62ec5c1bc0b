/** Coding of the indexes in a re-request for missing transactions, and of short ids on the wire. */
module ReRequest {
  import opened Prelude
  import opened CompactSize

  const WIDTH: nat := 0x1_0000_0000

  predicate In32(v: seq<nat>) { forall k | 0 <= k < |v| :: v[k] < WIDTH }

  function Wrap(n: int): nat { n % WIDTH }

  /** One past the previous index, in 32 bits; zero at the start. */
  function Offset(v: seq<nat>): nat { if v == [] then 0 else Wrap(v[|v| - 1] + 1) }

  /** Each index as its distance from the offset, in 32 bits. */
  function Written(v: seq<nat>): (w: seq<nat>)
    ensures |w| == |v| && In32(w)
  {
    if v == [] then [] else Written(v[..|v| - 1]) + [Wrap(v[|v| - 1] - Offset(v[..|v| - 1]))]
  }

  /** The indexes from their distances; None when one would pass 32 bits. */
  function Decoded(w: seq<nat>): (r: Option<seq<nat>>)
    ensures r.Some? ==> |r.value| == |w| && In32(r.value)
  {
    if w == [] then Some([])
    else Extended(Decoded(w[..|w| - 1]), w[|w| - 1])
  }

  function Extended(r: Option<seq<nat>>, d: nat): Option<seq<nat>> {
    if r == None || d + Offset(r.value) >= WIDTH then None else Some(r.value + [d + Offset(r.value)])
  }

  /** Each index is above the one before, or follows the largest. */
  predicate Climbing(v: seq<nat>) { forall k | 0 < k < |v| :: v[k] >= Wrap(v[k - 1] + 1) }

  lemma Distance(x: nat, o: nat)
    requires x < WIDTH && o < WIDTH
    ensures Wrap(x - o) + o < WIDTH <==> x >= o
    ensures x >= o ==> Wrap(x - o) + o == x
  {}

  lemma OffsetBound(v: seq<nat>)
    ensures Offset(v) < WIDTH
  {}

  /** Adding the distances up gives the list back exactly when it climbs. */
  lemma {:induction false} DecodeWritten(v: seq<nat>)
    requires In32(v)
    ensures Decoded(Written(v)) == Some(v) <==> Climbing(v)
  {
    hide Wrap, Offset;
    if v != [] {
      var n := |v| - 1;
      DecodeWritten(v[..n]);
      OffsetBound(v[..n]);
      Distance(v[n], Offset(v[..n]));
      WrittenPrefix(v);
      ClimbingLast(v);
      ExtendedIs(Decoded(Written(v[..n])), Wrap(v[n] - Offset(v[..n])), v);
    }
  }

  lemma WrittenPrefix(v: seq<nat>)
    requires v != []
    ensures var n := |v| - 1;
            Decoded(Written(v)) == Extended(Decoded(Written(v[..n])), Wrap(v[n] - Offset(v[..n])))
  {
    var n := |v| - 1;
    assert Written(v)[..n] == Written(v[..n]);
  }

  lemma ClimbingLast(v: seq<nat>)
    requires v != []
    ensures var n := |v| - 1; Climbing(v) <==> Climbing(v[..n]) && v[n] >= Offset(v[..n])
  {
    var n := |v| - 1;
    assert forall k | 0 <= k < n :: v[..n][k] == v[k];
    if Climbing(v[..n]) && v[n] >= Offset(v[..n]) {
      forall k | 0 < k < |v|
        ensures v[k] >= Wrap(v[k - 1] + 1)
      {
        if k < n { assert v[..n][k] >= Wrap(v[..n][k - 1] + 1); }
      }
    }
  }

  lemma ExtendedIs(r: Option<seq<nat>>, d: nat, v: seq<nat>)
    requires v != []
    ensures var n := |v| - 1;
            Extended(r, d) == Some(v) <==> r == Some(v[..n]) && d + Offset(v[..n]) < WIDTH && d + Offset(v[..n]) == v[n]
  {
    hide Offset;
    var n := |v| - 1;
    if Extended(r, d) == Some(v) { assert v[..n] == r.value; }
    assert v == v[..n] + [v[n]];
  }

  /** Whatever adds up has those distances. */
  lemma {:induction false} WrittenDecoded(w: seq<nat>)
    requires In32(w) && Decoded(w).Some?
    ensures Written(Decoded(w).value) == w
  {
    hide Offset, Wrap;
    if w != [] {
      var n := |w| - 1;
      WrittenDecoded(w[..n]);
      var v := Decoded(w).value;
      assert v[..n] == Decoded(w[..n]).value;
      WrapSmall(w[n], Offset(v[..n]));
      assert w == w[..n] + [w[n]];
    }
  }

  lemma WrapSmall(d: nat, o: nat)
    requires d < WIDTH
    ensures Wrap(d + o - o) == d
  {}

  // ----- on the byte stream

  function Numbers(w: seq<nat>): Stream
    requires In32(w)
  {
    if w == [] then [] else Write(w[0]) + Numbers(w[1..])
  }

  function ReadNumbers(s: Stream, n: nat): (r: Option<(seq<nat>, Stream)>)
    ensures r.Some? ==> |r.value.0| == n && Small(r.value.0)
    decreases n
  {
    if n == 0 then Some(([], s))
    else if Read(s) == None then None
    else Prepended([Read(s).value.0], ReadNumbers(Read(s).value.1, n - 1))
  }

  function Prepended(v: seq<nat>, r: Option<(seq<nat>, Stream)>): Option<(seq<nat>, Stream)> {
    if r == None then None else Some((v + r.value.0, r.value.1))
  }

  predicate Small(w: seq<nat>) { forall k | 0 <= k < |w| :: w[k] <= MAX_SIZE }

  function Message(v: seq<nat>): Stream
    requires |v| < TWO64
  {
    Write(|v|) + Numbers(Written(v))
  }

  /** Reading a message off a stream: the count, that many numbers, and their sums. */
  function Parsed(s: Stream): Option<(seq<nat>, Stream)> {
    if Read(s) == None then None else Summed(ReadNumbers(Read(s).value.1, Read(s).value.0))
  }

  function Summed(r: Option<(seq<nat>, Stream)>): Option<(seq<nat>, Stream)> {
    if r == None || Decoded(r.value.0) == None then None else Some((Decoded(r.value.0).value, r.value.1))
  }

  lemma {:induction false} ReadNumbersBack(w: seq<nat>, tail: Stream)
    requires In32(w)
    ensures ReadNumbers(Numbers(w) + tail, |w|) == if Small(w) then Some((w, tail)) else None
  {
    if w == [] {
      assert Numbers(w) + tail == tail;
    } else {
      hide Read, Write;
      var rest := Numbers(w[1..]) + tail;
      assert Numbers(w) + tail == Write(w[0]) + rest;
      ReadWritten(w[0], rest);
      ReadNumbersBack(w[1..], tail);
      assert w == [w[0]] + w[1..];
      assert Small(w) <==> w[0] <= MAX_SIZE && Small(w[1..]);
    }
  }

  lemma NumbersHead(w: seq<nat>)
    requires In32(w) && w != []
    ensures Numbers(w) == Write(w[0]) + Numbers(w[1..])
  {
  }

  lemma {:induction false} NumbersRead(s: Stream, n: nat)
    requires ReadNumbers(s, n).Some?
    ensures var (w, rest) := ReadNumbers(s, n).value; In32(w) && s == Numbers(w) + rest
    decreases n
  {
    if n > 0 {
      hide Read, Write;
      WriteRead(s);
      var (d, t) := Read(s).value;
      NumbersRead(t, n - 1);
      var (w, rest) := ReadNumbers(s, n).value;
      assert w[0] == d && w[1..] == ReadNumbers(t, n - 1).value.0;
      hide ReadNumbers, Numbers;
      NumbersHead(w);
      assert Write(d) + (Numbers(w[1..]) + rest) == Numbers(w) + rest;
    }
  }

  /** A message reads back as the list it was written from exactly when the list climbs and neither its
      length nor any distance passes the reader's limit. */
  lemma ReadsBack(v: seq<nat>, tail: Stream)
    requires In32(v) && |v| < TWO64
    ensures Parsed(Message(v) + tail) == Some((v, tail)) <==> Climbing(v) && |v| <= MAX_SIZE && Small(Written(v))
  {
    hide Read, Write, Numbers, ReadNumbers, Decoded, Written, Climbing;
    var rest := Numbers(Written(v)) + tail;
    assert Message(v) + tail == Write(|v|) + rest;
    ReadWritten(|v|, rest);
    ReadNumbersBack(Written(v), tail);
    DecodeWritten(v);
  }

  /** How many indexes are left out before this one. */
  function Gap(v: seq<nat>, k: nat): int
    requires k < |v|
  {
    (v[k] as int) - (if k == 0 then 0 else v[k - 1] + 1)
  }

  predicate GapsFit(v: seq<nat>) { forall k: nat | k < |v| :: Gap(v, k) <= MAX_SIZE }

  predicate Increasing(v: seq<nat>) { forall i, j | 0 <= i < j < |v| :: v[i] < v[j] }

  /** For a strictly increasing list the distances are its gaps. */
  lemma IncreasingReadsBack(v: seq<nat>, tail: Stream)
    requires In32(v) && |v| < TWO64 && Increasing(v)
    ensures Parsed(Message(v) + tail) == Some((v, tail)) <==> |v| <= MAX_SIZE && GapsFit(v)
  {
    hide Parsed, Message, Written, GapsFit, Small;
    ReadsBack(v, tail);
    GapsAreDistances(v);
  }

  lemma NextWrap(x: nat, y: nat)
    requires x < y < WIDTH
    ensures Wrap(x + 1) == x + 1 && Wrap(y - Wrap(x + 1)) == y - x - 1
  {}

  lemma GapIsDistance(v: seq<nat>, k: nat)
    requires In32(v) && Increasing(v) && k < |v|
    ensures k > 0 ==> v[k] >= Wrap(v[k - 1] + 1)
    ensures Written(v)[k] == Gap(v, k)
  {
    hide Written, Wrap;
    WrittenAt(v, k);
    if k == 0 {
      WrapSmall(v[0], 0);
    } else {
      NextWrap(v[k - 1], v[k]);
    }
  }

  lemma GapsAreDistances(v: seq<nat>)
    requires In32(v) && Increasing(v)
    ensures Climbing(v) && (GapsFit(v) <==> Small(Written(v)))
  {
    forall k: nat | k < |v|
      ensures k > 0 ==> v[k] >= Wrap(v[k - 1] + 1)
      ensures Written(v)[k] == Gap(v, k)
    {
      GapIsDistance(v, k);
    }
    hide Written, Gap, Wrap, Increasing;
    var w := Written(v);
    assert forall k: nat | k < |v| :: w[k] == Gap(v, k);
  }

  lemma {:induction false} WrittenAt(v: seq<nat>, k: nat)
    requires k < |v|
    ensures Written(v)[k] == Wrap(v[k] - if k == 0 then 0 else Wrap(v[k - 1] + 1))
  {
    var n := |v| - 1;
    if k < n { WrittenAt(v[..n], k); }
  }

  /** The writer takes this increasing list, and the reader refuses what it wrote. */
  lemma WideGapRefused(tail: Stream)
    ensures Parsed(Message([0x0200_0001]) + tail) == None
  {
    hide Read, Write, Decoded;
    var w := [0x0200_0001];
    assert w[..0] == [] && Written(w) == w;
    var rest := Numbers(w) + tail;
    assert Message(w) + tail == Write(1) + rest;
    ReadWritten(1, rest);
    ReadNumbersBack(w, tail);
  }

  /** Only the message of a list reads as that list. */
  lemma MessageRead(s: Stream)
    requires Parsed(s).Some?
    ensures var (v, rest) := Parsed(s).value; In32(v) && |v| <= MAX_SIZE && s == Message(v) + rest
  {
    hide Read, Write, Numbers, ReadNumbers, Decoded, Written;
    WriteRead(s);
    var (n, t) := Read(s).value;
    NumbersRead(t, n);
    var (w, rest) := ReadNumbers(t, n).value;
    WrittenDecoded(w);
    assert Write(n) + (Numbers(w) + rest) == Write(n) + Numbers(w) + rest;
  }

  // ----- the loops

  lemma {:induction false} NumbersAppend(w: seq<nat>, d: nat)
    requires In32(w) && d < WIDTH
    ensures Numbers(w + [d]) == Numbers(w) + Write(d)
  {
    hide Write;
    if w == [] {
      assert [d][1..] == [];
    } else {
      NumbersAppend(w[1..], d);
      assert (w + [d])[1..] == w[1..] + [d];
    }
  }

  method WriteMessage(v: seq<nat>) returns (s: Stream)
    requires In32(v) && |v| < TWO64
    ensures s == Message(v)
  {
    hide Write, Numbers;
    s := Write(|v|);
    ghost var w: seq<nat> := [];
    assert Numbers([]) == [] by { NoNumbers(); }
    for i := 0 to |v|
      invariant w == Written(v[..i]) && s == Write(|v|) + Numbers(w)
    {
      assert v[..i + 1][..i] == v[..i];
      var index := Wrap(v[i] - (if i == 0 then 0 else Wrap(v[i - 1] + 1)));
      NumbersAppend(w, index);
      s := s + Write(index);
      w := w + [index];
    }
    assert v[..|v|] == v;
  }

  lemma NoNumbers()
    ensures Numbers([]) == []
  {
  }

  /** Takes the numbers in blocks of a thousand, then adds up the distances. */
  method ReadMessage(s: Stream) returns (r: Option<(seq<nat>, Stream)>)
    ensures r == Parsed(s)
  {
    hide Read, ReadNumbers, Decoded;
    var first := Read(s);
    if first == None {
      return None;
    }
    var size := first.value.0;
    var rest := first.value.1;
    var v: seq<nat> := [];
    ghost var goal := ReadNumbers(rest, size);
    assert goal.Some? ==> [] + goal.value.0 == goal.value.0;
    while |v| < size
      invariant |v| <= size && In32(v) && goal == Prepended(v, ReadNumbers(rest, size - |v|))
    {
      var limit := if 1000 + |v| < size then 1000 + |v| else size;
      while |v| < limit
        invariant |v| <= limit && In32(v) && goal == Prepended(v, ReadNumbers(rest, size - |v|))
      {
        NextNumber(rest, size - |v|, v);
        var next := Read(rest);
        if next == None {
          return None;
        }
        // The reader's own limit makes the test for 32 bits that follows superfluous.
        assert next.value.0 < WIDTH by { WriteRead(rest); }
        v, rest := v + [next.value.0], next.value.1;
      }
    }
    assert ReadNumbers(rest, 0) == Some(([], rest)) by { NoMoreNumbers(rest); }
    assert v + [] == v;
    var sums := AddUp(v);
    r := if sums == None then None else Some((sums.value, rest));
  }

  lemma NoMoreNumbers(s: Stream)
    ensures ReadNumbers(s, 0) == Some(([], s))
  {
  }

  lemma NextNumber(s: Stream, n: nat, v: seq<nat>)
    requires n > 0
    ensures Prepended(v, ReadNumbers(s, n))
            == if Read(s) == None then None
               else Prepended(v + [Read(s).value.0], ReadNumbers(Read(s).value.1, n - 1))
  {
    hide Read;
    if Read(s).Some? && ReadNumbers(Read(s).value.1, n - 1).Some? {
      var d, w := Read(s).value.0, ReadNumbers(Read(s).value.1, n - 1).value.0;
      assert v + ([d] + w) == v + [d] + w;
    }
  }

  method AddUp(w: seq<nat>) returns (r: Option<seq<nat>>)
    requires In32(w)
    ensures r == Decoded(w)
  {
    var v: seq<nat> := [];
    var offset := 0;
    for i := 0 to |w|
      invariant |v| == i && Decoded(w[..i]) == Some(v) && offset == Offset(v)
    {
      assert w[..i + 1][..i] == w[..i];
      if w[i] + offset >= WIDTH {
        NoneStays(w, i + 1);
        return None;
      }
      v := v + [w[i] + offset];
      offset := Wrap(v[i] + 1);
    }
    assert w[..|w|] == w;
    r := Some(v);
  }

  lemma {:induction false} NoneStays(w: seq<nat>, n: nat)
    requires n <= |w| && Decoded(w[..n]) == None
    ensures Decoded(w) == None
    decreases |w| - n
  {
    if n == |w| {
      assert w[..n] == w;
    } else {
      assert w[..n + 1][..n] == w[..n];
      NoneStays(w, n + 1);
    }
  }

  // ----- short ids travel as a 32-bit and a 16-bit half

  function Halves(id: nat): (nat, nat) { (id % WIDTH, id / WIDTH % 0x1_0000) }

  function Joined(halves: (nat, nat)): nat { halves.1 * WIDTH + halves.0 }

  /** The low half travels first. */
  lemma ShortIdHalves(low: nat, high: nat)
    requires low < 0x1_0000_0000 && high < 0x1_0000
    ensures Halves(high * 0x1_0000_0000 + low) == (low, high)
  {}

  lemma ShortIdRoundTrip(id: nat)
    ensures Joined(Halves(id)) == id % 0x1_0000_0000_0000
  {
    var hi := id / WIDTH;
    assert id == hi * WIDTH + id % WIDTH;
    assert hi == hi / 0x1_0000 * 0x1_0000 + hi % 0x1_0000;
  }
}
