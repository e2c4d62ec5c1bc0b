/** A sending node, a receiving node and the byte stream between them. Socket calls may transfer any
    part of what is offered, and the network may re-chunk the bytes it delivers. */
module Wire {
  import opened Prelude
  import opened Framing

  // ----- the send queue

  function Flat(bufs: seq<seq<byte>>): seq<byte> {
    if bufs == [] then [] else bufs[0] + Flat(bufs[1..])
  }

  lemma {:induction false} FlatAppend(bufs: seq<seq<byte>>, more: seq<seq<byte>>)
    ensures Flat(bufs + more) == Flat(bufs) + Flat(more)
  {
    if bufs == [] {
      assert bufs + more == more;
    } else {
      FlatAppend(bufs[1..], more);
      assert (bufs + more)[1..] == bufs[1..] + more;
    }
  }

  /** Offset into the first buffer, if there is one; no buffer is empty. */
  predicate QueueOk(bufs: seq<seq<byte>>, offset: nat) {
    && (forall i | 0 <= i < |bufs| :: bufs[i] != [])
    && (if bufs == [] then offset == 0 else offset < |bufs[0]|)
  }

  class SendNode {
    var vSendMsg: seq<seq<byte>>
    var nSendSize: nat
    var nSendOffset: nat
    /** History: the messages pushed, and the bytes handed to the socket. */
    ghost var pushed: seq<Msg>
    var emitted: seq<byte>

    ghost predicate Valid()
      reads this
    {
      Sending(vSendMsg, nSendOffset, nSendSize, pushed, emitted)
    }

    constructor ()
      ensures Valid() && pushed == [] && emitted == [] && vSendMsg == []
    {
      vSendMsg, nSendSize, nSendOffset := [], 0, 0;
      pushed, emitted := [], [];
    }

    /** A non-blocking send: any number of the offered bytes may go out, or the call may fail. */
    method Send(offered: nat) returns (n: int)
      ensures n <= offered
    {
      n :| n <= offered;
    }

    /** The traffic shaper's allowance. */
    method Available() returns (n: nat)
    {
      n :| n >= 0;
    }

    method PushMessage(m: Msg, socketOpen: bool)
      requires Valid() && m.Ok()
      modifies this
      ensures Valid() && pushed == (if socketOpen then old(pushed) + [m] else old(pushed))
      ensures old(emitted) <= emitted && (!socketOpen ==> emitted == old(emitted))
    {
      if !socketOpen { return; }
      var header := Header(m);
      var optimistic := vSendMsg == [];
      Enqueue(header, m);
      if optimistic {
        var sent := SocketSendData();
      }
    }

    /** The header always goes into the queue, the payload only when there is one. */
    method Enqueue(header: seq<byte>, m: Msg)
      requires Valid() && m.Ok() && header == Header(m)
      modifies this
      ensures Valid() && pushed == old(pushed) + [m] && emitted == old(emitted)
    {
      hide Stream, Flat, Header;
      EnqueueKeeps(pushed, emitted, vSendMsg, nSendOffset, m);
      nSendSize := nSendSize + |m.data| + HEADER_SIZE;
      vSendMsg := vSendMsg + [header];
      if m.data != [] { vSendMsg := vSendMsg + [m.data]; }
      assert vSendMsg == old(vSendMsg) + Buffers(m);
      pushed := pushed + [m];
    }

    /** Hands out buffers until the socket or the shaper stops it; neither assert can fail. */
    method SocketSendData() returns (sent: nat)
      requires Valid()
      modifies this
      ensures Valid() && pushed == old(pushed)
      ensures old(emitted) <= emitted && |emitted| == |old(emitted)| + sent
    {
      hide Stream, Flat;
      var it := 0;
      sent := 0;
      while it < |vSendMsg|
        invariant it <= |vSendMsg| && vSendMsg == old(vSendMsg) && pushed == old(pushed)
        invariant Sending(vSendMsg[it..], nSendOffset, nSendSize, pushed, emitted)
        invariant old(emitted) <= emitted && |emitted| == |old(emitted)| + sent
      {
        var data := vSendMsg[it];
        assert data == vSendMsg[it..][0] && vSendMsg[it..][1..] == vSendMsg[it + 1..];
        assert |data| > nSendOffset;
        var allowed := Available();
        var amount := Min(|data| - nSendOffset, allowed);
        if amount == 0 { break; }
        var n := Send(amount);
        if n <= 0 { break; }
        SendStep(vSendMsg[it..], nSendOffset, n, nSendSize, pushed, emitted);
        emitted := emitted + data[nSendOffset..nSendOffset + n];
        nSendOffset := nSendOffset + n;
        var exhausted := Exhausted();
        sent := sent + n;
        if nSendOffset == |data| {
          nSendOffset := 0;
          nSendSize := nSendSize - |data|;
          it := it + 1;
        } else {
          break;
        }
        if exhausted { break; }
      }
      if it == |vSendMsg| {
        AllSent(vSendMsg[it..], nSendOffset, nSendSize, pushed, emitted);
        assert nSendOffset == 0;
        assert nSendSize == 0;
      }
      vSendMsg := vSendMsg[it..];
    }

    method Exhausted() returns (b: bool)
    {
      b := *;
    }
  }

  function Buffers(m: Msg): seq<seq<byte>>
    requires m.Ok()
  {
    [Header(m)] + if m.data != [] then [m.data] else []
  }

  lemma FlatOfMessage(m: Msg)
    requires m.Ok()
    ensures Flat(Buffers(m)) == Encode(m)
  {
    hide Header;
    var b := Buffers(m);
    if m.data != [] {
      var tail := b[1..];
      assert tail == [m.data] && tail[1..] == [];
      assert Flat(tail) == m.data + [];
    } else {
      assert b[1..] == [] && m.data == [];
      assert Flat(b) == Header(m) + [];
    }
  }

  /** The queue stands for exactly the bytes of the pushed messages that were not emitted yet. */
  ghost predicate Sending(bufs: seq<seq<byte>>, offset: nat, size: nat, pushed: seq<Msg>, emitted: seq<byte>) {
    && QueueOk(bufs, offset) && size == |Flat(bufs)| && offset <= size
    && (forall i | 0 <= i < |pushed| :: pushed[i].Ok())
    && Stream(pushed) == emitted + Flat(bufs)[offset..]
  }

  lemma EnqueueKeeps(pushed: seq<Msg>, emitted: seq<byte>, bufs: seq<seq<byte>>, offset: nat, m: Msg)
    requires Sending(bufs, offset, |Flat(bufs)|, pushed, emitted) && m.Ok()
    ensures Sending(bufs + Buffers(m), offset, |Flat(bufs)| + |m.data| + HEADER_SIZE, pushed + [m], emitted)
  {
    hide Flat, Stream;
    FlatAppend(bufs, Buffers(m));
    FlatOfMessage(m);
    StreamAppend(pushed, m);
    var before, e := Flat(bufs), Encode(m);
    assert |e| == |m.data| + HEADER_SIZE;
    hide Encode, Header;
    assert (before + e)[offset..] == before[offset..] + e;
    assert emitted + before[offset..] + e == emitted + (before[offset..] + e);
  }

  lemma SendStep(bufs: seq<seq<byte>>, offset: nat, n: nat, size: nat, pushed: seq<Msg>, emitted: seq<byte>)
    requires Sending(bufs, offset, size, pushed, emitted) && bufs != [] && 0 < n <= |bufs[0]| - offset
    ensures var emitted' := emitted + bufs[0][offset..offset + n];
            if offset + n == |bufs[0]|
            then size >= |bufs[0]| && Sending(bufs[1..], 0, size - |bufs[0]|, pushed, emitted')
            else Sending(bufs, offset + n, size, pushed, emitted')
  {
    hide Stream;
    var d, rest := bufs[0], Flat(bufs[1..]);
    assert Flat(bufs) == d + rest;
    hide Flat;
    Cut(emitted, d, rest, offset, n);
  }

  lemma Cut(emitted: seq<byte>, d: seq<byte>, rest: seq<byte>, offset: nat, n: nat)
    requires offset + n <= |d|
    ensures emitted + (d + rest)[offset..] == (emitted + d[offset..offset + n]) + (d + rest)[offset + n..]
    ensures offset + n == |d| ==> (d + rest)[offset + n..] == rest[0..]
  {
    var all := d + rest;
    assert d[offset..offset + n] == all[offset..offset + n];
    assert all[offset..] == all[offset..offset + n] + all[offset + n..];
  }

  lemma AllSent(bufs: seq<seq<byte>>, offset: nat, size: nat, pushed: seq<Msg>, emitted: seq<byte>)
    requires Sending(bufs, offset, size, pushed, emitted) && bufs == []
    ensures offset == 0 && size == 0 && Stream(pushed) == emitted
  {
    hide Stream;
    assert emitted + [] == emitted;
  }

  // ----- the receive list

  /** Only the last message may be incomplete, and it has absorbed at least one byte. */
  predicate RecvOk(ms: seq<NetMessage>) {
    && (forall i | 0 <= i < |ms| :: ms[i].Ok() && ms[i].hdrPos > 0)
    && (forall i | 0 <= i < |ms| - 1 :: ms[i].Complete())
  }

  function RawAll(ms: seq<NetMessage>): seq<byte>
    requires forall i | 0 <= i < |ms| :: ms[i].Ok()
  {
    if ms == [] then [] else RawAll(ms[..|ms| - 1]) + ms[|ms| - 1].Raw()
  }

  /** The messages a consumer would take from the list. */
  function Completed(ms: seq<NetMessage>): seq<Msg>
    requires forall i | 0 <= i < |ms| :: ms[i].Ok()
  {
    if ms == [] then []
    else
      var last := ms[|ms| - 1];
      assert last.Ok();
      Completed(ms[..|ms| - 1]) + if last.Complete() then [Decode(last.hdrbuf, last.vRecv)] else []
  }

  /** A header that announces more than MAX_SIZE follows the complete messages. */
  predicate Rejected(ms: seq<NetMessage>) {
    && ms != [] && RecvOk(ms[..|ms| - 1]) && (forall i | 0 <= i < |ms| - 1 :: ms[i].Complete())
    && |ms[|ms| - 1].hdrbuf| == HEADER_SIZE && SizeOf(ms[|ms| - 1].hdrbuf) > MAX_SIZE
  }

  /** The bytes up to and including the rejected header. */
  function RejectedBytes(ms: seq<NetMessage>): seq<byte>
    requires Rejected(ms)
  {
    RawAll(ms[..|ms| - 1]) + ms[|ms| - 1].hdrbuf
  }

  class RecvNode {
    var vRecvMsg: seq<NetMessage>

    ghost predicate Valid()
      reads this
    {
      RecvOk(vRecvMsg)
    }

    constructor ()
      ensures Valid() && vRecvMsg == []
    {
      vRecvMsg := [];
    }

    /** Feeds a chunk to the parser: every byte is absorbed in order, or the connection ends at a
        header that announces too much. */
    method ReceiveMsgBytes(pch: seq<byte>) returns (ok: bool, complete: bool)
      requires Valid()
      modifies this
      ensures ok ==> Valid() && RawAll(vRecvMsg) == old(RawAll(vRecvMsg)) + pch
      ensures ok ==> (complete <==> |Completed(vRecvMsg)| > old(|Completed(vRecvMsg)|))
      ensures !ok ==> Rejected(vRecvMsg) && RejectedBytes(vRecvMsg) <= old(RawAll(vRecvMsg)) + pch
    {
      hide RawAll, Completed, SizeOf;
      complete := false;
      ghost var before, count := RawAll(vRecvMsg), |Completed(vRecvMsg)|;
      var pos := 0;
      assert pch[..0] == [];
      while pos < |pch|
        invariant pos <= |pch| && Valid() && RawAll(vRecvMsg) == before + pch[..pos]
        invariant |Completed(vRecvMsg)| >= count && (complete <==> |Completed(vRecvMsg)| > count)
      {
        ghost var done := vRecvMsg;
        var m, k := FRESH, |vRecvMsg|;
        if vRecvMsg != [] && !vRecvMsg[|vRecvMsg| - 1].Complete() {
          k := |vRecvMsg| - 1;
          m := vRecvMsg[k];
        }
        Resume(done, k, m);
        var chunk := pch[pos..];
        var m', handled := Absorb(m, chunk);
        vRecvMsg := vRecvMsg[..k] + [m'];
        assert vRecvMsg[..k] == done[..k];
        assert pch[..pos] + chunk == pch;
        if handled < 0 {
          assert before + pch == before + pch[..pos] + chunk;
          RejectKeeps(done[..k], m, m', before + pch[..pos], chunk);
          return false, complete;
        }
        AbsorbKeeps(done[..k], m, m', before + pch[..pos], chunk, handled);
        assert pch[..pos + handled] == pch[..pos] + chunk[..handled];
        assert before + (pch[..pos] + chunk[..handled]) == before + pch[..pos] + chunk[..handled];
        pos := pos + handled;
        if m'.Complete() { complete := true; }
      }
      assert pch[..pos] == pch;
      ok := true;
    }

    method Absorb(m: NetMessage, pch: seq<byte>) returns (m': NetMessage, handled: int)
      requires m.Ok() && !m.Complete() && pch != []
      ensures if m.inData then (m', handled) == ReadData(m, pch) else (m', handled) == ReadHeader(m, pch)
    {
      if !m.inData {
        var r := ReadHeader(m, pch);
        m', handled := r.0, r.1;
      } else {
        var r := ReadData(m, pch);
        m', handled := r.0, r.1;
      }
    }
  }

  ghost predicate AllComplete(ms: seq<NetMessage>) { RecvOk(ms) && forall i | 0 <= i < |ms| :: ms[i].Complete() }

  /** The message to continue with: the incomplete last one, or a fresh one. */
  lemma Resume(done: seq<NetMessage>, k: nat, m: NetMessage)
    requires RecvOk(done) && k <= |done|
    requires if done != [] && !done[|done| - 1].Complete() then k == |done| - 1 && m == done[k]
             else k == |done| && m == FRESH
    ensures m.Ok() && !m.Complete() && AllComplete(done[..k])
    ensures RawAll(done) == RawAll(done[..k]) + m.Raw() && Completed(done) == Completed(done[..k])
  {
    hide RawAll, Completed, SizeOf, Zeros, NetMessage.Ok, NetMessage.Raw, NetMessage.Complete;
    FreshRaw();
    PrefixComplete(done, k);
    if k == |done| {
      assert done[..k] == done;
      assert RawAll(done) + [] == RawAll(done);
    } else {
      DropPartial(done);
    }
  }

  lemma PrefixComplete(ms: seq<NetMessage>, k: nat)
    requires RecvOk(ms) && k <= |ms| && (k == |ms| > 0 ==> ms[k - 1].Complete())
    ensures AllComplete(ms[..k])
  {
    hide NetMessage.Ok;
    forall i | 0 <= i < k ensures ms[i].Complete() && ms[i].Ok() && ms[i].hdrPos > 0 {}
  }

  lemma DropPartial(ms: seq<NetMessage>)
    requires ms != [] && (forall i | 0 <= i < |ms| :: ms[i].Ok()) && !ms[|ms| - 1].Complete()
    ensures Completed(ms) == Completed(ms[..|ms| - 1]) && RawAll(ms) == RawAll(ms[..|ms| - 1]) + ms[|ms| - 1].Raw()
  {
    hide SizeOf, Decode;
  }

  lemma FreshRaw()
    ensures FRESH.Ok() && !FRESH.Complete() && FRESH.Raw() == []
  {
  }

  lemma AppendOne(front: seq<NetMessage>, m: NetMessage)
    requires AllComplete(front) && m.Ok() && m.hdrPos > 0
    ensures RecvOk(front + [m])
    ensures RawAll(front + [m]) == RawAll(front) + m.Raw()
    ensures Completed(front + [m]) == Completed(front) + if m.Complete() then [Decode(m.hdrbuf, m.vRecv)] else []
  {
    assert (front + [m])[..|front|] == front;
  }

  lemma AbsorbKeeps(front: seq<NetMessage>, m: NetMessage, m': NetMessage, raw: seq<byte>, chunk: seq<byte>,
                    handled: int)
    requires AllComplete(front) && m.Ok() && !m.Complete() && chunk != [] && raw == RawAll(front) + m.Raw()
    requires (m', handled) == if m.inData then ReadData(m, chunk) else ReadHeader(m, chunk)
    requires handled >= 0
    ensures 0 < handled <= |chunk| && RecvOk(front + [m']) && RawAll(front + [m']) == raw + chunk[..handled]
    ensures |Completed(front + [m'])| == |Completed(front)| + if m'.Complete() then 1 else 0
  {
    hide RawAll, Completed;
    if m.inData {
      ReadDataAbsorbs(m, chunk);
      assert m'.hdrPos == m.hdrPos;
    } else {
      ReadHeaderAbsorbs(m, chunk);
      assert m'.hdrPos > 0;
    }
    hide ReadData, ReadHeader;
    AppendOne(front, m');
    assert RawAll(front) + (m.Raw() + chunk[..handled]) == RawAll(front) + m.Raw() + chunk[..handled];
  }

  lemma RejectKeeps(front: seq<NetMessage>, m: NetMessage, m': NetMessage, raw: seq<byte>, chunk: seq<byte>)
    requires AllComplete(front) && m.Ok() && !m.Complete() && chunk != [] && raw == RawAll(front) + m.Raw()
    requires (m', -1) == if m.inData then ReadData(m, chunk) else ReadHeader(m, chunk)
    ensures |m'.hdrbuf| == HEADER_SIZE && Rejected(front + [m']) && RawAll(front) + m'.hdrbuf <= raw + chunk
  {
    hide RawAll;
    ReadHeaderAbsorbs(m, chunk);
    var all := front + [m'];
    assert all[..|front|] == front;
    TakenFrom(RawAll(front), m.Raw(), chunk, HEADER_SIZE - m.hdrPos);
  }

  lemma TakenFrom(a: seq<byte>, b: seq<byte>, chunk: seq<byte>, n: nat)
    requires n <= |chunk|
    ensures a + (b + chunk[..n]) <= (a + b) + chunk
  {
    assert chunk == chunk[..n] + chunk[n..];
    assert (a + b) + chunk == (a + (b + chunk[..n])) + chunk[n..];
  }

  // ----- end to end

  /** What a list of complete messages has absorbed determines them: they are the first messages
      of the stream, intact. */
  lemma {:induction false} IntactPrefix(ms: seq<NetMessage>, pushed: seq<Msg>, tail: seq<byte>)
    requires AllComplete(ms) && (forall i | 0 <= i < |pushed| :: pushed[i].Ok()) && RawAll(ms) + tail == Stream(pushed)
    ensures |ms| <= |pushed| && Completed(ms) == pushed[..|ms|] && tail == Stream(pushed[|ms|..])
    ensures forall i | 0 <= i < |ms| :: |ms[i].vRecv| == ms[i].size
  {
    if ms == [] {
      assert [] + tail == tail && pushed[0..] == pushed;
    } else {
      var front, last := ms[..|ms| - 1], ms[|ms| - 1];
      assert RawAll(front) + (last.Raw() + tail) == RawAll(front) + last.Raw() + tail;
      IntactPrefix(front, pushed, last.Raw() + tail);
      var rest := pushed[|front|..];
      FirstMessage(last, rest, tail);
      assert rest[1..] == pushed[|ms|..];
      assert pushed[..|ms|] == pushed[..|front|] + [rest[0]];
    }
  }

  /** Split a receive list into its complete messages and the partial one, if any. */
  lemma Parts(ms: seq<NetMessage>) returns (front: seq<NetMessage>, partial: seq<byte>)
    requires RecvOk(ms)
    ensures |ms| - 1 <= |front| <= |ms| && AllComplete(front) && front == ms[..|front|]
    ensures RawAll(ms) == RawAll(front) + partial && Completed(ms) == Completed(front)
    ensures |front| == |ms| ==> partial == []
    ensures |front| < |ms| ==> !ms[|front|].Complete() && partial == ms[|front|].Raw()
  {
    if ms != [] && !ms[|ms| - 1].Complete() {
      front := ms[..|ms| - 1];
      partial := ms[|ms| - 1].Raw();
      Resume(ms, |ms| - 1, ms[|ms| - 1]);
    } else {
      front, partial := ms, [];
      assert RawAll(ms) + [] == RawAll(ms);
      assert ms == ms[..|ms|];
    }
  }

  /** For any partial sends and any re-chunking: if the bytes received so far begin the stream of
      pushed messages, the completed received messages are an intact, in-order prefix of those pushed,
      and every payload buffer has exactly the announced size. */
  lemma Delivered(ms: seq<NetMessage>, pushed: seq<Msg>, tail: seq<byte>)
    requires RecvOk(ms) && (forall i | 0 <= i < |pushed| :: pushed[i].Ok()) && RawAll(ms) + tail == Stream(pushed)
    ensures Completed(ms) <= pushed
    ensures forall i | 0 <= i < |ms| && ms[i].Complete() :: |ms[i].vRecv| == ms[i].size
    ensures tail == [] ==> Completed(ms) == pushed
  {
    hide RawAll, Completed, Stream;
    var front, partial := Parts(ms);
    assert RawAll(front) + partial + tail == RawAll(front) + (partial + tail);
    IntactPrefix(front, pushed, partial + tail);
    if tail == [] {
      assert partial + tail == partial;
      if |front| < |ms| {
        NotFinished(ms[|front|], pushed[|front|..]);
        assert false;
      } else {
        NothingLeft(pushed[|front|..]);
        assert pushed[..|front|] == pushed;
      }
    }
  }

  lemma NothingLeft(ms: seq<Msg>)
    requires (forall i | 0 <= i < |ms| :: ms[i].Ok()) && Stream(ms) == []
    ensures ms == []
  {
  }

  /** A message that is still incomplete cannot have absorbed a whole stream. */
  lemma NotFinished(m: NetMessage, ms: seq<Msg>)
    requires m.Ok() && m.hdrPos > 0 && !m.Complete() && forall i | 0 <= i < |ms| :: ms[i].Ok()
    ensures m.Raw() != Stream(ms)
  {
    hide SizeOf, Header, Decode;
    if ms != [] && m.inData {
      HeaderRoundTrip(ms[0]);
      assert m.hdrbuf[..HEADER_SIZE] == m.hdrbuf;
      TooShort(m.hdrbuf, m.vRecv[..m.dataPos], Header(ms[0]), ms[0].data, Stream(ms[1..]));
    }
  }

  lemma TooShort(h: seq<byte>, d: seq<byte>, h': seq<byte>, d': seq<byte>, tail: seq<byte>)
    requires |h| == |h'| && (h == h' ==> |d| < |d'|)
    ensures h + d != h' + d' + tail
  {
    if h + d == h' + d' + tail {
      assert h' + d' + tail == h' + (d' + tail);
      Cancel(h, d, h', d' + tail);
    }
  }

  /** A stream of messages within the size limit is never rejected. */
  lemma NeverRejected(ms: seq<NetMessage>, pushed: seq<Msg>, tail: seq<byte>)
    requires Rejected(ms) && (forall i | 0 <= i < |pushed| :: pushed[i].Ok())
    ensures RejectedBytes(ms) + tail != Stream(pushed)
  {
    hide RawAll, Stream, SizeOf;
    if RejectedBytes(ms) + tail == Stream(pushed) {
      var front, hdr := ms[..|ms| - 1], ms[|ms| - 1].hdrbuf;
      assert RawAll(front) + hdr + tail == RawAll(front) + (hdr + tail);
      IntactPrefix(front, pushed, hdr + tail);
      HeadersAccepted(hdr, pushed[|front|..], tail);
    }
  }

  datatype Action =
    | Push(m: Msg, socketOpen: bool)
    | Pump                             // the socket handler calls SocketSendData
    | Deliver(n: nat)                  // up to n bytes in flight reach the receiver

  /** A whole session, in any order of pushing, sending and delivering: the parser never gives up,
      and what it completed is an intact, in-order prefix of what was pushed; once nothing is queued
      or in flight it is all of it. */
  method Session(actions: seq<Action>) returns (sender: SendNode, receiver: RecvNode, delivered: nat)
    requires forall i | 0 <= i < |actions| && actions[i].Push? :: actions[i].m.Ok()
    ensures sender.Valid() && receiver.Valid() && delivered <= |sender.emitted|
    ensures Completed(receiver.vRecvMsg) <= sender.pushed
    ensures sender.vSendMsg == [] && delivered == |sender.emitted| ==> Completed(receiver.vRecvMsg) == sender.pushed
  {
    hide RawAll, Completed, Stream, Flat, Rejected;
    sender := new SendNode();
    receiver := new RecvNode();
    delivered := 0;
    assert RawAll([]) == [] by { NothingYet(); }
    for i := 0 to |actions|
      invariant fresh(sender) && fresh(receiver) && sender.Valid() && receiver.Valid()
      invariant delivered <= |sender.emitted| && RawAll(receiver.vRecvMsg) == sender.emitted[..delivered]
    {
      ghost var before := sender.emitted;
      match actions[i] {
        case Push(m, open) =>
          sender.PushMessage(m, open);
          assert sender.emitted[..delivered] == before[..delivered];
        case Pump =>
          var sent := sender.SocketSendData();
          assert sender.emitted[..delivered] == before[..delivered];
        case Deliver(n) =>
          var upto := Min(delivered + n, |sender.emitted|);
          ghost var chunk := sender.emitted[delivered..upto];
          assert before[..delivered] + chunk == before[..upto];
          var ok, complete := receiver.ReceiveMsgBytes(sender.emitted[delivered..upto]);
          if !ok { Accepted(sender, receiver.vRecvMsg, upto); }
          assert ok;
          delivered := upto;
      }
    }
    Outcome(sender, receiver.vRecvMsg, delivered);
  }

  lemma NothingYet()
    ensures RawAll([]) == []
  {
  }

  lemma Accepted(sender: SendNode, ms: seq<NetMessage>, upto: nat)
    requires sender.Valid() && Rejected(ms) && upto <= |sender.emitted|
    ensures !(RejectedBytes(ms) <= sender.emitted[..upto])
  {
    hide RawAll, Stream, Flat, Rejected, RejectedBytes;
    var r, e := RejectedBytes(ms), sender.emitted;
    if r <= e[..upto] {
      var queue := Flat(sender.vSendMsg)[sender.nSendOffset..];
      assert r + (e[|r|..] + queue) == e + queue;
      NeverRejected(ms, sender.pushed, e[|r|..] + queue);
    }
  }

  lemma Outcome(sender: SendNode, ms: seq<NetMessage>, delivered: nat)
    requires sender.Valid() && RecvOk(ms) && delivered <= |sender.emitted| && RawAll(ms) == sender.emitted[..delivered]
    ensures Completed(ms) <= sender.pushed
    ensures sender.vSendMsg == [] && delivered == |sender.emitted| ==> Completed(ms) == sender.pushed
  {
    hide RawAll, Stream, Completed;
    var e, queue := sender.emitted, Flat(sender.vSendMsg)[sender.nSendOffset..];
    assert e[..delivered] + (e[delivered..] + queue) == e + queue;
    Delivered(ms, sender.pushed, e[delivered..] + queue);
  }
}
