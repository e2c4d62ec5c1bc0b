/** Message framing on a byte stream: the 24-byte header, the incremental parser of one message, and
    why a stream of framed messages can be cut up in only one way. */
module Framing {
  import opened Prelude

  const HEADER_SIZE := 24
  const SIZE_OFFSET := 16
  const MAX_SIZE := 0x02000000
  const READ_AHEAD := 256 * 1024
  const TWO32 := 0x1_0000_0000

  /** A message as the sender pushes it. The checksum is part of the header the sender makes. */
  datatype Msg = Msg(magic: seq<byte>, command: seq<byte>, checksum: seq<byte>, data: seq<byte>) {
    predicate Ok() { |magic| == 4 && |command| == 12 && |checksum| == 4 && |data| <= MAX_SIZE }
  }

  function LE32(n: nat): (s: seq<byte>)
    requires n < TWO32
    ensures |s| == 4
  {
    [n % 256, n / 0x100 % 256, n / 0x1_0000 % 256, n / 0x100_0000 % 256]
  }

  function FromLE32(s: seq<byte>): nat
    requires |s| == 4
  {
    s[0] as nat + 0x100 * (s[1] as nat) + 0x1_0000 * (s[2] as nat) + 0x100_0000 * (s[3] as nat)
  }

  lemma LE32RoundTrip(n: nat)
    requires n < TWO32
    ensures FromLE32(LE32(n)) == n
  {
    assert n / 0x1_0000 == n / 0x100 / 0x100;
    assert n / 0x100_0000 == n / 0x100 / 0x100 / 0x100;
  }

  function Header(m: Msg): (s: seq<byte>)
    requires m.Ok()
    ensures |s| == HEADER_SIZE
  {
    m.magic + m.command + LE32(|m.data|) + m.checksum
  }

  function SizeOf(hdr: seq<byte>): nat
    requires |hdr| == HEADER_SIZE
  {
    FromLE32(hdr[SIZE_OFFSET..SIZE_OFFSET + 4])
  }

  function Encode(m: Msg): seq<byte>
    requires m.Ok()
  {
    Header(m) + m.data
  }

  function Decode(hdr: seq<byte>, data: seq<byte>): Msg
    requires |hdr| == HEADER_SIZE
  {
    Msg(hdr[..4], hdr[4..16], hdr[20..24], data)
  }

  lemma HeaderRoundTrip(m: Msg)
    requires m.Ok()
    ensures SizeOf(Header(m)) == |m.data| && Decode(Header(m), m.data) == m
  {
    LE32RoundTrip(|m.data|);
    var h := Header(m);
    assert h[16..20] == LE32(|m.data|);
    assert h[..4] == m.magic && h[4..16] == m.command && h[20..24] == m.checksum;
  }

  /** The header byte by byte: magic, command, the length with its lowest byte first, checksum. */
  lemma HeaderLayout(m: Msg)
    requires m.Ok()
    ensures var h := Header(m);
            && h[..4] == m.magic && h[4..16] == m.command && h[20..] == m.checksum
            && |m.data| == h[16] as nat + 256 * (h[17] as nat + 256 * (h[18] as nat + 256 * (h[19] as nat)))
  {
    LE32RoundTrip(|m.data|);
    assert Header(m)[16..20] == LE32(|m.data|);
  }

  function Stream(ms: seq<Msg>): seq<byte>
    requires forall i | 0 <= i < |ms| :: ms[i].Ok()
  {
    if ms == [] then [] else Encode(ms[0]) + Stream(ms[1..])
  }

  lemma {:induction false} StreamAppend(ms: seq<Msg>, m: Msg)
    requires m.Ok() && forall i | 0 <= i < |ms| :: ms[i].Ok()
    ensures Stream(ms + [m]) == Stream(ms) + Encode(m)
  {
    if ms == [] {
      assert Stream([m]) == Encode(m) + Stream([]);
    } else {
      StreamAppend(ms[1..], m);
      assert (ms + [m])[1..] == ms[1..] + [m];
    }
  }

  // ----- one message being received

  datatype NetMessage = NetMessage(inData: bool, hdrbuf: seq<byte>, hdrPos: nat, size: nat, vRecv: seq<byte>,
                                   dataPos: nat) {

    predicate Complete() { inData && size == dataPos }

    /** The state of a message that was not rejected. */
    predicate Ok() {
      && |hdrbuf| == HEADER_SIZE && hdrPos <= HEADER_SIZE
      && (inData <==> hdrPos == HEADER_SIZE)
      && (!inData ==> dataPos == 0 && vRecv == [])
      && (inData ==> size == SizeOf(hdrbuf) && size <= MAX_SIZE && dataPos <= |vRecv| <= size)
    }

    /** The bytes absorbed so far. */
    function Raw(): seq<byte>
      requires Ok()
    {
      hdrbuf[..hdrPos] + vRecv[..dataPos]
    }
  }

  function Zeros(n: nat): (s: seq<byte>)
    ensures |s| == n
  {
    seq(n, _ => 0)
  }

  const FRESH := NetMessage(false, Zeros(HEADER_SIZE), 0, 0, [], 0)

  function Min(a: nat, b: nat): nat { if a < b then a else b }

  /** memcpy(&buf[pos], src, |src|) */
  function Copy(buf: seq<byte>, pos: nat, src: seq<byte>): (r: seq<byte>)
    requires pos + |src| <= |buf|
    ensures |r| == |buf| && r[..pos] == buf[..pos] && r[..pos + |src|] == buf[..pos] + src
  {
    buf[..pos] + src + buf[pos + |src|..]
  }

  function Resize(buf: seq<byte>, n: nat): (r: seq<byte>)
    ensures |r| == n && (|buf| <= n ==> r[..|buf|] == buf)
  {
    if n <= |buf| then buf[..n] else buf + Zeros(n - |buf|)
  }

  /** readHeader: the new message, and the bytes handled or -1. */
  function ReadHeader(m: NetMessage, pch: seq<byte>): (NetMessage, int)
    requires m.Ok() && !m.inData
  {
    var n := Min(HEADER_SIZE - m.hdrPos, |pch|);
    var m1 := m.(hdrbuf := Copy(m.hdrbuf, m.hdrPos, pch[..n]), hdrPos := m.hdrPos + n);
    if m1.hdrPos < HEADER_SIZE then (m1, n as int)
    else if SizeOf(m1.hdrbuf) > MAX_SIZE then (m1.(size := SizeOf(m1.hdrbuf)), -1)
    else (m1.(size := SizeOf(m1.hdrbuf), inData := true), n)
  }

  function ReadData(m: NetMessage, pch: seq<byte>): (NetMessage, int)
    requires m.Ok() && m.inData
  {
    var n := Min(m.size - m.dataPos, |pch|);
    var buf := if |m.vRecv| < m.dataPos + n then Resize(m.vRecv, Min(m.size, m.dataPos + n + READ_AHEAD)) else m.vRecv;
    (m.(vRecv := Copy(buf, m.dataPos, pch[..n]), dataPos := m.dataPos + n), n)
  }

  lemma ReadHeaderAbsorbs(m: NetMessage, pch: seq<byte>)
    requires m.Ok() && !m.inData && |pch| > 0
    ensures var (m', n) := ReadHeader(m, pch);
            if n >= 0 then 0 < n <= |pch| && m'.Ok() && m'.Raw() == m.Raw() + pch[..n]
            else && |m'.hdrbuf| == HEADER_SIZE && SizeOf(m'.hdrbuf) > MAX_SIZE
                 && m'.hdrbuf == m.Raw() + pch[..HEADER_SIZE - m.hdrPos] && HEADER_SIZE - m.hdrPos <= |pch|
  {
    var n := Min(HEADER_SIZE - m.hdrPos, |pch|);
    var buf := Copy(m.hdrbuf, m.hdrPos, pch[..n]);
    assert m.Raw() == m.hdrbuf[..m.hdrPos];
    assert buf[..m.hdrPos + n] == m.Raw() + pch[..n];
    if m.hdrPos + n == HEADER_SIZE { assert buf == buf[..HEADER_SIZE]; }
  }

  lemma ReadDataAbsorbs(m: NetMessage, pch: seq<byte>)
    requires m.Ok() && m.inData && !m.Complete() && |pch| > 0
    ensures var (m', n) := ReadData(m, pch);
            0 < n <= |pch| && m'.Ok() && m'.Raw() == m.Raw() + pch[..n]
  {
    var n := Min(m.size - m.dataPos, |pch|);
    var buf := if |m.vRecv| < m.dataPos + n then Resize(m.vRecv, Min(m.size, m.dataPos + n + READ_AHEAD)) else m.vRecv;
    assert buf[..m.dataPos] == m.vRecv[..m.dataPos] by {
      if |m.vRecv| < m.dataPos + n { PrefixOf(m.vRecv, buf, m.dataPos); }
    }
    var head, data, more := m.hdrbuf[..m.hdrPos], m.vRecv[..m.dataPos], pch[..n];
    hide Resize, Copy, SizeOf;
    assert head + (data + more) == (head + data) + more;
  }

  lemma PrefixOf(a: seq<byte>, b: seq<byte>, n: nat)
    requires |a| <= |b| && b[..|a|] == a && n <= |a|
    ensures b[..n] == a[..n]
  {
    assert b[..n] == b[..|a|][..n];
  }

  // ----- a stream can be cut up in one way only

  /** A complete message whose bytes begin an encoded stream is the stream's first message. */
  lemma FirstMessage(m: NetMessage, ms: seq<Msg>, tail: seq<byte>)
    requires m.Ok() && m.Complete() && (forall i | 0 <= i < |ms| :: ms[i].Ok()) && Stream(ms) == m.Raw() + tail
    ensures ms != [] && Decode(m.hdrbuf, m.vRecv) == ms[0] && |m.vRecv| == m.size && m.Raw() == Encode(ms[0])
            && tail == Stream(ms[1..])
  {
    hide SizeOf, Decode, Stream, Encode;
    assert m.vRecv[..m.dataPos] == m.vRecv && m.hdrbuf[..HEADER_SIZE] == m.hdrbuf;
    CutFirst(m.hdrbuf, m.vRecv, ms, tail);
  }

  lemma CutFirst(hdr: seq<byte>, data: seq<byte>, ms: seq<Msg>, tail: seq<byte>)
    requires |hdr| == HEADER_SIZE && |data| == SizeOf(hdr)
    requires (forall i | 0 <= i < |ms| :: ms[i].Ok()) && Stream(ms) == hdr + data + tail
    ensures ms != [] && Decode(hdr, data) == ms[0] && hdr + data == Encode(ms[0]) && tail == Stream(ms[1..])
  {
    hide SizeOf, Decode, Header;
    assert |Stream(ms)| >= HEADER_SIZE;
    var f := ms[0];
    HeaderRoundTrip(f);
    CutHeader(Header(f), f.data, Stream(ms[1..]), hdr, data, tail);
    Cancel(f.data, Stream(ms[1..]), data, tail);
  }

  lemma CutHeader<T>(h: seq<T>, d: seq<T>, r: seq<T>, h': seq<T>, d': seq<T>, r': seq<T>)
    requires h + d + r == h' + d' + r' && |h| == |h'|
    ensures h == h' && d + r == d' + r'
  {
    assert h + d + r == h + (d + r) && h' + d' + r' == h' + (d' + r');
    Cancel(h, d + r, h', d' + r');
  }

  lemma Cancel<T>(a: seq<T>, b: seq<T>, c: seq<T>, d: seq<T>)
    requires a + b == c + d && |a| == |c|
    ensures a == c && b == d
  {
    assert a == (a + b)[..|a|] && c == (c + d)[..|c|];
    assert b == (a + b)[|a|..] && d == (c + d)[|c|..];
  }

  /** A full header at the front of an encoded stream never announces more than MAX_SIZE. */
  lemma HeadersAccepted(hdr: seq<byte>, ms: seq<Msg>, tail: seq<byte>)
    requires |hdr| == HEADER_SIZE && (forall i | 0 <= i < |ms| :: ms[i].Ok()) && Stream(ms) == hdr + tail
    ensures SizeOf(hdr) <= MAX_SIZE
  {
    var f := ms[0];
    HeaderRoundTrip(f);
    assert Header(f) + (f.data + Stream(ms[1..])) == hdr + tail;
    Cancel(Header(f), f.data + Stream(ms[1..]), hdr, tail);
  }
}
