/**
 Peer-to-peer message framing (src/net.h, src/net.cpp): the send queue under partial sends, and the
 receiver that reassembles messages from arbitrary pieces of the byte stream.
 */
module Framing {
  import opened Basics

  type Byte = x: nat | x < 256
  type Bytes = seq<Byte>

  const HEADER_SIZE: nat := 24
  const MAX_SIZE: nat := 0x0200_0000
  const MAX_PROTOCOL_MESSAGE_LENGTH: nat := 4_000_000
  const READ_AHEAD: nat := 256 * 1024

  // ---------------------------------------------------------------- the wire format

  /** A message to send: its command, padded to twelve bytes, and its payload. */
  datatype Msg = Msg(command: Bytes, payload: Bytes)

  /** What the network fixes: four start bytes, and four checksum bytes of a payload. */
  datatype Net = Net(start: Bytes, checksum: Bytes -> Bytes)

  ghost predicate NetOk(n: Net) {
    |n.start| == 4 && forall p: Bytes {:trigger n.checksum(p)} :: |n.checksum(p)| == 4
  }

  predicate Bounded(m: Msg) {
    |m.command| == 12 && |m.payload| <= MAX_PROTOCOL_MESSAGE_LENGTH
  }

  function WriteLE32(x: nat): (b: Bytes)
    requires x < 0x1_0000_0000
    ensures |b| == 4
  {
    [x % 256, x / 256 % 256, x / 0x1_0000 % 256, x / 0x100_0000]
  }

  function ReadLE32(b: Bytes): (x: nat)
    requires |b| == 4
  {
    (b[0] as int) + 256 * (b[1] as int) + 0x1_0000 * (b[2] as int) + 0x100_0000 * (b[3] as int)
  }

  lemma LE32RoundTrip(x: nat)
    requires x < 0x1_0000_0000
    ensures ReadLE32(WriteLE32(x)) == x
  {
    var a, b, c := x / 256, x / 0x1_0000, x / 0x100_0000;
    assert b == a / 256 && c == b / 256;
  }

  function Header(n: Net, m: Msg): (h: Bytes)
    requires NetOk(n) && Bounded(m)
    ensures |h| == HEADER_SIZE && SizeIn(h) == |m.payload|
  {
    LE32RoundTrip(|m.payload|);
    var h := n.start + m.command + WriteLE32(|m.payload|) + n.checksum(m.payload);
    assert h[16..20] == WriteLE32(|m.payload|);
    h
  }

  function SizeIn(h: Bytes): nat
    requires |h| == HEADER_SIZE
  {
    ReadLE32(h[16..20])
  }

  ghost predicate AllBounded(ms: seq<Msg>) {
    forall i {:trigger ms[i]} :: 0 <= i < |ms| ==> Bounded(ms[i])
  }

  /** The byte stream of a sequence of messages. */
  ghost function Wire(n: Net, ms: seq<Msg>): Bytes
    requires NetOk(n) && AllBounded(ms)
  {
    if ms == [] then [] else Header(n, ms[0]) + ms[0].payload + Wire(n, ms[1..])
  }

  lemma {:induction false} WireSnoc(n: Net, ms: seq<Msg>, m: Msg)
    requires NetOk(n) && AllBounded(ms) && Bounded(m)
    ensures AllBounded(ms + [m]) && Wire(n, ms + [m]) == Wire(n, ms) + (Header(n, m) + m.payload)
  {
    if ms == [] {
      assert [m][1..] == [];
      assert Wire(n, [m]) == Header(n, m) + m.payload + Wire(n, []);
    } else {
      assert (ms + [m])[1..] == ms[1..] + [m];
      WireSnoc(n, ms[1..], m);
      AppendAssoc(Header(n, ms[0]) + ms[0].payload, Wire(n, ms[1..]), Header(n, m) + m.payload);
    }
  }

  lemma AppendAssoc(a: Bytes, b: Bytes, c: Bytes)
    ensures a + (b + c) == (a + b) + c
  {
  }

  // ---------------------------------------------------------------- sending

  ghost function Flatten(bs: seq<Bytes>): Bytes {
    if bs == [] then [] else bs[0] + Flatten(bs[1..])
  }

  lemma {:induction false} FlattenAppend(a: seq<Bytes>, b: seq<Bytes>)
    ensures Flatten(a + b) == Flatten(a) + Flatten(b)
  {
    if a == [] {
      assert a + b == b;
    } else {
      assert (a + b)[1..] == a[1..] + b;
      FlattenAppend(a[1..], b);
      AppendAssoc(a[0], Flatten(a[1..]), Flatten(b));
    }
  }

  lemma FlattenOne(b: Bytes)
    ensures Flatten([b]) == b
  {
    assert [b][1..] == [];
  }

  /** What was sent and what is queued is the stream of the pushed messages; the size counts whole buffers. */
  ghost predicate Streams(n: Net, pushed: seq<Msg>, sent: Bytes, bufs: seq<Bytes>, offset: nat, size: nat) {
    && NetOk(n) && AllBounded(pushed)
    && (forall i {:trigger bufs[i]} :: 0 <= i < |bufs| ==> bufs[i] != [])
    && (if bufs == [] then offset == 0 else offset < |bufs[0]|)
    && size == |Flatten(bufs)| && offset <= size
    && sent + Flatten(bufs)[offset..] == Wire(n, pushed)
  }

  /** Queueing a message's header and, if there is one, its payload. */
  lemma PushKeeps(n: Net, pushed: seq<Msg>, sent: Bytes, bufs: seq<Bytes>, offset: nat, size: nat, m: Msg)
    requires Streams(n, pushed, sent, bufs, offset, size) && Bounded(m)
    ensures var more := if |m.payload| != 0 then bufs + [Header(n, m)] + [m.payload] else bufs + [Header(n, m)];
            Streams(n, pushed + [m], sent, more, offset, size + |m.payload| + HEADER_SIZE)
  {
    hide Wire, Flatten, NetOk, Header;
    var h, f := Header(n, m), Flatten(bufs);
    WireSnoc(n, pushed, m);
    FlattenOne(h);
    FlattenAppend(bufs, [h]);
    if |m.payload| != 0 {
      FlattenOne(m.payload);
      FlattenAppend(bufs + [h], [m.payload]);
      AppendAssoc(f, h, m.payload);
    } else {
      assert h + m.payload == h;
    }
    assert (f + (h + m.payload))[offset..] == f[offset..] + (h + m.payload);
    AppendAssoc(sent, f[offset..], h + m.payload);
  }

  /** Taking bytes off the first buffer moves them from the queue to what was sent. */
  lemma SendKeeps(n: Net, pushed: seq<Msg>, sent: Bytes, bufs: seq<Bytes>, offset: nat, size: nat, k: nat)
    requires Streams(n, pushed, sent, bufs, offset, size) && bufs != [] && offset + k <= |bufs[0]|
    ensures |bufs[0]| <= size
    ensures var sent' := sent + bufs[0][offset..offset + k];
            if offset + k == |bufs[0]| then Streams(n, pushed, sent', bufs[1..], 0, size - |bufs[0]|)
            else Streams(n, pushed, sent', bufs, offset + k, size)
  {
    hide Wire, NetOk;
    var data, f, g := bufs[0], Flatten(bufs), Flatten(bufs[1..]);
    assert f == data + g;
    assert f[offset..] == data[offset..offset + k] + f[offset + k..];
    AppendAssoc(sent, data[offset..offset + k], f[offset + k..]);
    assert offset + k == |data| ==> f[offset + k..] == g == g[0..];
  }

  lemma SentEnd(n: Net, pushed: seq<Msg>, sent: Bytes, bufs: seq<Bytes>, offset: nat, size: nat)
    requires Streams(n, pushed, sent, bufs, offset, size)
    ensures sent <= Wire(n, pushed)
    ensures bufs == [] ==> offset == 0 && size == 0 && sent == Wire(n, pushed)
    ensures bufs != [] ==> offset < |bufs[0]|
  {
  }

  /** The write queue of a peer. */
  class Sender {
    var vSendMsg: seq<Bytes>
    var nSendOffset: nat
    var nSendSize: nat
    var fPauseSend: bool
    const nSendBufferMaxSize: nat

    // Everything pushed, and everything the socket took.
    ghost var pushed: seq<Msg>
    ghost var sent: Bytes

    ghost predicate Valid(n: Net)
      reads this
    {
      Streams(n, pushed, sent, vSendMsg, nSendOffset, nSendSize)
    }

    constructor (max: nat, ghost n: Net)
      requires NetOk(n)
      ensures Valid(n) && pushed == [] && sent == []
    {
      vSendMsg, nSendOffset, nSendSize, fPauseSend := [], 0, 0, false;
      nSendBufferMaxSize := max;
      pushed, sent := [], [];
    }

    /** Queues a message; when nothing was queued, tries to send at once. */
    method PushMessage(n: Net, m: Msg, results: seq<int>)
      requires Valid(n) && Bounded(m)
      modifies this
      ensures Valid(n) && pushed == old(pushed) + [m] && old(sent) <= sent
    {
      PushKeeps(n, pushed, sent, vSendMsg, nSendOffset, nSendSize, m);
      var header := Header(n, m);
      hide Streams, Header;
      var optimistic := vSendMsg == [];
      nSendSize := nSendSize + |m.payload| + HEADER_SIZE;
      if nSendSize > nSendBufferMaxSize {
        fPauseSend := true;
      }
      vSendMsg := vSendMsg + [header];
      if |m.payload| != 0 {
        vSendMsg := vSendMsg + [m.payload];
      }
      pushed := pushed + [m];
      if optimistic {
        var _ := SocketSendData(n, results);
      }
    }

    /**
     Sends as much as the socket takes: each result is what one send call returns, never more than it
     was given; results run out when the socket is closed. The asserts are those of the original.
     */
    method SocketSendData(ghost n: Net, results: seq<int>) returns (nSentSize: nat)
      requires Valid(n)
      modifies this
      ensures Valid(n) && pushed == old(pushed) && |sent| == |old(sent)| + nSentSize && old(sent) <= sent
    {
      hide Streams;
      nSentSize := 0;
      var it := 0;
      assert vSendMsg[0..] == vSendMsg;
      while it < |vSendMsg|
        invariant 0 <= it <= |vSendMsg| && vSendMsg == old(vSendMsg) && pushed == old(pushed)
        invariant Streams(n, pushed, sent, vSendMsg[it..], nSendOffset, nSendSize)
        invariant |sent| == |old(sent)| + nSentSize && old(sent) <= sent
      {
        var data := vSendMsg[it];
        SentEnd(n, pushed, sent, vSendMsg[it..], nSendOffset, nSendSize);
        assert |data| > nSendOffset;
        if it >= |results| {
          break;
        }
        var nBytes := Min(results[it], |data| - nSendOffset);
        if nBytes > 0 {
          SendKeeps(n, pushed, sent, vSendMsg[it..], nSendOffset, nSendSize, nBytes);
          assert vSendMsg[it..][1..] == vSendMsg[it + 1..];
          sent := sent + data[nSendOffset..nSendOffset + nBytes];
          nSendOffset := nSendOffset + nBytes;
          nSentSize := nSentSize + nBytes;
          if nSendOffset == |data| {
            nSendOffset := 0;
            nSendSize := nSendSize - |data|;
            fPauseSend := nSendSize > nSendBufferMaxSize;
            it := it + 1;
          } else {
            break;
          }
        } else {
          break;
        }
      }
      SentEnd(n, pushed, sent, vSendMsg[it..], nSendOffset, nSendSize);
      if it == |vSendMsg| {
        assert nSendOffset == 0;
        assert nSendSize == 0;
      }
      vSendMsg := vSendMsg[it..];
    }
  }

  // ---------------------------------------------------------------- receiving

  /** A message being received: header buffer and position, then data with read-ahead and position. */
  datatype NetMessage = NetMessage(inData: bool, hdrbuf: Bytes, nHdrPos: nat, size: nat, vRecv: Bytes, nDataPos: nat)

  const NewMessage: NetMessage := NetMessage(false, seq(24, _ => 0), 0, 0, [], 0)

  predicate Complete(m: NetMessage) { m.inData && m.size == m.nDataPos }

  ghost predicate MessageOk(m: NetMessage) {
    && |m.hdrbuf| == HEADER_SIZE && m.nHdrPos <= HEADER_SIZE && m.nDataPos <= |m.vRecv|
    && (if m.inData then m.nHdrPos == HEADER_SIZE && m.size == SizeIn(m.hdrbuf) <= MAX_PROTOCOL_MESSAGE_LENGTH && m.nDataPos <= m.size && |m.vRecv| <= m.size
        else m.nHdrPos < HEADER_SIZE && m.nDataPos == 0 && m.vRecv == [])
  }

  /** The bytes of the stream a message has taken in. */
  ghost function Raw(m: NetMessage): Bytes
    requires MessageOk(m)
  {
    m.hdrbuf[..m.nHdrPos] + m.vRecv[..m.nDataPos]
  }

  function Overwrite(buf: Bytes, at: nat, data: Bytes): (r: Bytes)
    requires at + |data| <= |buf|
    ensures |r| == |buf| && r[..at] == buf[..at] && r[..at + |data|] == buf[..at] + data
  {
    buf[..at] + data + buf[at + |data|..]
  }

  function Grown(buf: Bytes, n: nat): (r: Bytes)
    requires |buf| <= n
    ensures |r| == n && r[..|buf|] == buf
  {
    buf + seq(n - |buf|, _ => 0)
  }

  datatype Handled = Failed | Took(m: NetMessage, n: nat)

  function ReadHeader(m: NetMessage, p: Bytes): Handled
    requires |m.hdrbuf| == HEADER_SIZE && m.nHdrPos <= HEADER_SIZE
  {
    var copy := Min(HEADER_SIZE - m.nHdrPos, |p|);
    var m' := m.(hdrbuf := Overwrite(m.hdrbuf, m.nHdrPos, p[..copy]), nHdrPos := m.nHdrPos + copy);
    if m'.nHdrPos < HEADER_SIZE then Took(m', copy)
    else if SizeIn(m'.hdrbuf) > MAX_SIZE then Failed
    else Took(m'.(inData := true, size := SizeIn(m'.hdrbuf)), copy)
  }

  function ReadData(m: NetMessage, p: Bytes): Handled
    requires m.nDataPos <= m.size && m.nDataPos <= |m.vRecv| <= m.size
  {
    var copy := Min(m.size - m.nDataPos, |p|);
    var buf := if |m.vRecv| < m.nDataPos + copy then Grown(m.vRecv, Min(m.size, m.nDataPos + copy + READ_AHEAD)) else m.vRecv;
    Took(m.(vRecv := Overwrite(buf, m.nDataPos, p[..copy]), nDataPos := m.nDataPos + copy), copy)
  }

  /** A header that announces more than a protocol message may hold. */
  ghost predicate Oversized(m: NetMessage, p: Bytes)
    requires MessageOk(m) && !m.inData
  {
    && HEADER_SIZE - m.nHdrPos <= |p|
    && SizeIn(m.hdrbuf[..m.nHdrPos] + p[..HEADER_SIZE - m.nHdrPos]) > MAX_PROTOCOL_MESSAGE_LENGTH
  }

  /** Absorbing bytes appends exactly what was taken; a header fails only by the size it announces. */
  lemma ReadHeaderOk(m: NetMessage, p: Bytes)
    requires MessageOk(m) && !m.inData && p != []
    ensures match ReadHeader(m, p)
            case Failed => Oversized(m, p)
            case Took(m', k) =>
              && 0 < k <= |p|
              && if m'.inData && m'.size > MAX_PROTOCOL_MESSAGE_LENGTH then Oversized(m, p)
                 else MessageOk(m') && Raw(m') == Raw(m) + p[..k]
  {
    var copy := Min(HEADER_SIZE - m.nHdrPos, |p|);
    var buf := Overwrite(m.hdrbuf, m.nHdrPos, p[..copy]);
    assert buf[..m.nHdrPos + copy] == m.hdrbuf[..m.nHdrPos] + p[..copy];
    if m.nHdrPos + copy == HEADER_SIZE { assert buf == buf[..HEADER_SIZE]; }
  }

  lemma ReadDataOk(m: NetMessage, p: Bytes)
    requires MessageOk(m) && m.inData && !Complete(m) && p != []
    ensures var r := ReadData(m, p);
            r.Took? && 0 < r.n <= |p| && MessageOk(r.m) && Raw(r.m) == Raw(m) + p[..r.n]
  {
    var copy := Min(m.size - m.nDataPos, |p|);
    var r := ReadData(m, p);
    assert r.m.vRecv[..m.nDataPos + copy] == m.vRecv[..m.nDataPos] + p[..copy];
    AppendAssoc(m.hdrbuf[..24], m.vRecv[..m.nDataPos], p[..copy]);
    assert m.hdrbuf[..24] == m.hdrbuf;
  }

  ghost predicate AllOk(ms: seq<NetMessage>) {
    forall i {:trigger ms[i]} :: 0 <= i < |ms| ==> MessageOk(ms[i])
  }

  ghost predicate AllComplete(ms: seq<NetMessage>) {
    forall i {:trigger ms[i]} :: 0 <= i < |ms| ==> MessageOk(ms[i]) && Complete(ms[i])
  }

  ghost function RawAll(ms: seq<NetMessage>): Bytes
    requires AllOk(ms)
  {
    if ms == [] then [] else RawAll(ms[..|ms| - 1]) + Raw(ms[|ms| - 1])
  }

  lemma RawAllSnoc(ms: seq<NetMessage>, m: NetMessage)
    requires AllOk(ms) && MessageOk(m)
    ensures AllOk(ms + [m]) && RawAll(ms + [m]) == RawAll(ms) + Raw(m)
  {
    assert (ms + [m])[..|ms|] == ms;
  }

  lemma RawAllNone()
    ensures RawAll([]) == []
  {}

  lemma {:induction false} RawAllCons(m: NetMessage, ms: seq<NetMessage>)
    requires AllOk(ms) && MessageOk(m)
    ensures AllOk([m] + ms) && RawAll([m] + ms) == Raw(m) + RawAll(ms)
  {
    hide Raw, RawAll, MessageOk;
    if ms == [] {
      assert [m] + ms == [] + [m];
      RawAllSnoc([], m);
      RawAllNone();
      assert [] + Raw(m) == Raw(m) + [];
    } else {
      var k := |ms| - 1;
      assert ms == ms[..k] + [ms[k]];
      RawAllSnoc(ms[..k], ms[k]);
      RawAllCons(m, ms[..k]);
      RawAllSnoc([m] + ms[..k], ms[k]);
      assert [m] + ms == [m] + ms[..k] + [ms[k]];
      AppendAssoc(Raw(m), RawAll(ms[..k]), Raw(ms[k]));
    }
  }

  // ---------------------------------------------------------------- delivery

  /** The received message is the sent one: header bytes and payload. */
  ghost predicate Matches(n: Net, r: NetMessage, m: Msg)
    requires NetOk(n) && Bounded(m)
  {
    r.hdrbuf == Header(n, m) && r.vRecv == m.payload
  }

  ghost predicate AllMatch(n: Net, rs: seq<NetMessage>, ms: seq<Msg>)
    requires NetOk(n) && AllBounded(ms)
  {
    |rs| <= |ms| && forall i {:trigger rs[i]} :: 0 <= i < |rs| ==> Matches(n, rs[i], ms[i])
  }

  lemma CompleteRaw(r: NetMessage)
    requires MessageOk(r) && Complete(r)
    ensures Raw(r) == r.hdrbuf + r.vRecv && |r.vRecv| == SizeIn(r.hdrbuf)
  {
    assert r.hdrbuf[..24] == r.hdrbuf && r.vRecv[..r.nDataPos] == r.vRecv;
  }

  /** A complete message at the front of the stream is the first message sent. */
  lemma FirstMatches(n: Net, r: NetMessage, rest: Bytes, ms: seq<Msg>)
    requires NetOk(n) && AllBounded(ms) && MessageOk(r) && Complete(r) && Raw(r) + rest <= Wire(n, ms)
    ensures ms != [] && Matches(n, r, ms[0]) && rest <= Wire(n, ms[1..])
  {
    CompleteRaw(r);
    var w := Wire(n, ms);
    assert (Raw(r) + rest)[..24] == r.hdrbuf;
    assert ms != [];
    var h, p := Header(n, ms[0]), ms[0].payload;
    assert w[..24] == h;
    assert r.hdrbuf == h;
    assert (Raw(r) + rest)[24..24 + |p|] == r.vRecv && w[24..24 + |p|] == p;
    assert (Raw(r) + rest)[24 + |p|..] == rest && w[24 + |p|..] == Wire(n, ms[1..]);
    PrefixTail(Raw(r) + rest, w, 24 + |p|);
  }

  lemma PrefixHead(a: Bytes, b: Bytes, k: nat)
    requires a <= b && k <= |a|
    ensures a[..k] == b[..k]
  {
  }

  lemma PrefixTail(a: Bytes, b: Bytes, k: nat)
    requires a <= b && k <= |a|
    ensures a[k..] <= b[k..]
  {
  }

  /** Complete messages at the front of the stream are the first messages sent, in order. */
  lemma {:induction false} PrefixMatches(n: Net, rs: seq<NetMessage>, rest: Bytes, ms: seq<Msg>)
    requires NetOk(n) && AllBounded(ms) && AllComplete(rs) && RawAll(rs) + rest <= Wire(n, ms)
    ensures AllMatch(n, rs, ms) && AllBounded(ms[|rs|..]) && rest <= Wire(n, ms[|rs|..])
  {
    if rs == [] {
      assert RawAll(rs) + rest == rest;
      assert ms[0..] == ms;
    } else {
      var tail := rs[1..];
      assert rs == [rs[0]] + tail;
      RawAllCons(rs[0], tail);
      AppendAssoc(Raw(rs[0]), RawAll(tail), rest);
      FirstMatches(n, rs[0], RawAll(tail) + rest, ms);
      PrefixMatches(n, tail, rest, ms[1..]);
      assert ms[1..][|tail|..] == ms[|rs|..];
      forall i {:trigger rs[i]} | 0 <= i < |rs|
        ensures Matches(n, rs[i], ms[i])
      {
        if i > 0 { assert rs[i] == tail[i - 1] && ms[i] == ms[1..][i - 1]; }
      }
    }
  }

  /** In an honest stream no header announces too much. */
  lemma HonestNotOversized(n: Net, rs: seq<NetMessage>, m: NetMessage, p: Bytes, ms: seq<Msg>)
    requires NetOk(n) && AllBounded(ms) && AllComplete(rs) && MessageOk(m) && !m.inData
    requires RawAll(rs) + Raw(m) + p <= Wire(n, ms)
    ensures !Oversized(m, p)
  {
    AppendAssoc(RawAll(rs), Raw(m), p);
    PrefixMatches(n, rs, Raw(m) + p, ms);
    HeaderIsHonest(n, m, p, ms[|rs|..]);
  }

  lemma HeaderIsHonest(n: Net, m: NetMessage, p: Bytes, ms: seq<Msg>)
    requires NetOk(n) && AllBounded(ms) && MessageOk(m) && !m.inData && Raw(m) + p <= Wire(n, ms)
    ensures !Oversized(m, p)
  {
    assert Raw(m) == m.hdrbuf[..m.nHdrPos];
    if HEADER_SIZE - m.nHdrPos <= |p| {
      var h := m.hdrbuf[..m.nHdrPos] + p[..HEADER_SIZE - m.nHdrPos];
      assert (Raw(m) + p)[..24] == h;
      PrefixHead(Raw(m) + p, Wire(n, ms), 24);
      assert ms != [] && Wire(n, ms)[..24] == Header(n, ms[0]);
    }
  }

  /** The complete messages, and possibly one more that is not. */
  ghost predicate ListOk(ms: seq<NetMessage>) {
    AllOk(ms) && forall i {:trigger ms[i]} :: 0 <= i < |ms| - 1 ==> Complete(ms[i])
  }

  ghost predicate NoneComplete(ms: seq<NetMessage>) {
    forall m :: m in ms ==> !Complete(m)
  }

  /** After some whole messages the stream announces one that is too large. */
  ghost predicate Refused(stream: Bytes, done: Bytes) {
    && done <= stream && |done| + HEADER_SIZE <= |stream|
    && SizeIn(stream[|done|..|done| + HEADER_SIZE]) > MAX_PROTOCOL_MESSAGE_LENGTH
  }

  lemma OversizedRefuses(done: Bytes, m: NetMessage, p: Bytes)
    requires MessageOk(m) && !m.inData && Oversized(m, p)
    ensures Refused(done + Raw(m) + p, done)
  {
    var stream := done + Raw(m) + p;
    assert Raw(m) == m.hdrbuf[..m.nHdrPos];
    assert stream[|done|..|done| + HEADER_SIZE] == m.hdrbuf[..m.nHdrPos] + p[..HEADER_SIZE - m.nHdrPos];
  }

  /** A header that was read in full but not taken. */
  function Spoiled(m: NetMessage, p: Bytes): NetMessage
    requires |m.hdrbuf| == HEADER_SIZE && m.nHdrPos <= HEADER_SIZE && HEADER_SIZE - m.nHdrPos <= |p|
  {
    m.(hdrbuf := Overwrite(m.hdrbuf, m.nHdrPos, p[..HEADER_SIZE - m.nHdrPos]), nHdrPos := HEADER_SIZE)
  }

  /** What one message takes from the front of the bytes. */
  function Handle(m: NetMessage, p: Bytes): Handled
    requires |m.hdrbuf| == HEADER_SIZE && m.nHdrPos <= HEADER_SIZE
    requires m.inData ==> m.nDataPos <= m.size && m.nDataPos <= |m.vRecv| <= m.size
  {
    if !m.inData then ReadHeader(m, p) else ReadData(m, p)
  }

  /** A message takes a non-empty piece, or is spoilt by a header that announces too much. */
  lemma HandleOk(m: NetMessage, p: Bytes)
    requires MessageOk(m) && !Complete(m) && p != []
    ensures |m.hdrbuf| == HEADER_SIZE && m.nHdrPos <= HEADER_SIZE
    ensures m.inData ==> m.nDataPos <= m.size && m.nDataPos <= |m.vRecv| <= m.size
    ensures match Handle(m, p)
            case Failed => !m.inData && Oversized(m, p) && HEADER_SIZE - m.nHdrPos <= |p|
            case Took(m', k) =>
              && 0 < k <= |p|
              && if m'.inData && m'.size > MAX_PROTOCOL_MESSAGE_LENGTH then !m.inData && Oversized(m, p) && !Complete(m')
                 else MessageOk(m') && Raw(m') == Raw(m) + p[..k]
  {
    if !m.inData { ReadHeaderOk(m, p); } else { ReadDataOk(m, p); }
  }

  class Receiver {
    var vRecvMsg: seq<NetMessage>
    var vProcessMsg: seq<NetMessage>

    // Everything received.
    ghost var got: Bytes

    /** The messages handed on and the one being received hold exactly the bytes received. */
    ghost predicate Valid()
      reads this
    {
      AllComplete(vProcessMsg) && ListOk(vProcessMsg + vRecvMsg) && RawAll(vProcessMsg + vRecvMsg) == got
    }

    /** Whatever is complete is whole, and only the last message may not be complete. */
    ghost predicate FrontOk()
      reads this
    {
      && AllComplete(vProcessMsg)
      && (forall i {:trigger vRecvMsg[i]} :: 0 <= i < |vRecvMsg| && Complete(vRecvMsg[i]) ==> MessageOk(vRecvMsg[i]))
      && (forall i {:trigger vRecvMsg[i]} :: 0 <= i < |vRecvMsg| - 1 ==> Complete(vRecvMsg[i]))
    }

    /** The last message announces too much; the ones before it are what the stream began with. */
    ghost predicate Spoilt(stream: Bytes)
      reads this
    {
      && FrontOk() && vRecvMsg != [] && !Complete(vRecvMsg[|vRecvMsg| - 1])
      && AllComplete(vProcessMsg + vRecvMsg[..|vRecvMsg| - 1])
      && Refused(stream, RawAll(vProcessMsg + vRecvMsg[..|vRecvMsg| - 1]))
    }

    lemma ValidFront()
      requires Valid()
      ensures FrontOk()
    {
      var all := vProcessMsg + vRecvMsg;
      forall i {:trigger vRecvMsg[i]} | 0 <= i < |vRecvMsg|
        ensures MessageOk(vRecvMsg[i]) && (i < |vRecvMsg| - 1 ==> Complete(vRecvMsg[i]))
      {
        assert all[|vProcessMsg| + i] == vRecvMsg[i];
      }
    }

    /** The queue with its last message spoilt. */
    lemma SpoiltBy(before: seq<NetMessage>, msg: NetMessage, p: Bytes)
      requires vRecvMsg != [] && before == vProcessMsg + vRecvMsg[..|vRecvMsg| - 1]
      requires AllComplete(before) && MessageOk(msg) && !msg.inData && Oversized(msg, p) && !Complete(vRecvMsg[|vRecvMsg| - 1])
      ensures Spoilt(RawAll(before) + Raw(msg) + p)
    {
      OversizedRefuses(RawAll(before), msg, p);
      hide Refused, RawAll, Raw, Oversized, MessageOk;
      forall i {:trigger vProcessMsg[i]} | 0 <= i < |vProcessMsg| ensures MessageOk(vProcessMsg[i]) && Complete(vProcessMsg[i]) {
        assert before[i] == vProcessMsg[i];
      }
      forall i {:trigger vRecvMsg[i]} | 0 <= i < |vRecvMsg| - 1 ensures MessageOk(vRecvMsg[i]) && Complete(vRecvMsg[i]) {
        assert before[|vProcessMsg| + i] == vRecvMsg[i];
      }
    }

    constructor ()
      ensures Valid() && vRecvMsg == [] && vProcessMsg == [] && got == []
    {
      vRecvMsg, vProcessMsg, got := [], [], [];
    }

    /** Starts a new message unless the last one is still incomplete. */
    method NextMessage()
      requires Valid()
      modifies `vRecvMsg
      ensures Valid() && vRecvMsg != [] && !Complete(vRecvMsg[|vRecvMsg| - 1])
      ensures NoneComplete(old(vRecvMsg)) ==> NoneComplete(vRecvMsg)
    {
      hide ListOk, AllComplete, RawAll;
      if vRecvMsg == [] || Complete(vRecvMsg[|vRecvMsg| - 1]) {
        StartKeeps();
        vRecvMsg := vRecvMsg + [NewMessage];
      }
    }

    /** Lets the current message, or a new one, take what it can from the front of the bytes. */
    method Absorb(p: Bytes, ghost n: Net, ghost ms: seq<Msg>) returns (ok: bool, k: nat, complete: bool)
      requires Valid() && NetOk(n) && AllBounded(ms) && p != []
      modifies this
      ensures ok ==> 0 < k <= |p| && Valid() && got == old(got) + p[..k] && vProcessMsg == old(vProcessMsg)
      ensures !ok ==> !complete && vProcessMsg == old(vProcessMsg) && Spoilt(old(got) + p)
      ensures old(got) + p <= Wire(n, ms) ==> ok
      ensures !complete && NoneComplete(old(vRecvMsg)) ==> NoneComplete(vRecvMsg)
    {
      hide ListOk, AllComplete, RawAll, Raw, MessageOk, Oversized, Wire, Handle, AllBounded, NetOk, Spoilt;
      NextMessage();
      var last := |vRecvMsg| - 1;
      var msg := vRecvMsg[last];
      ghost var before := vProcessMsg + vRecvMsg[..last];
      LastSplit();
      if !msg.inData && got + p <= Wire(n, ms) {
        HonestNotOversized(n, before, msg, p, ms);
      }
      HandleOk(msg, p);
      var handled := Handle(msg, p);
      if handled.Failed? {
        vRecvMsg := vRecvMsg[..last] + [Spoiled(msg, p)];
        SpoiltBy(before, msg, p);
        return false, 0, false;
      }
      k := handled.n;
      if handled.m.inData && handled.m.size > MAX_PROTOCOL_MESSAGE_LENGTH {
        vRecvMsg := vRecvMsg[..last] + [handled.m];
        SpoiltBy(before, msg, p);
        return false, 0, false;
      }
      Absorbed(before, msg, handled.m, got, p[..k]);
      vRecvMsg := vRecvMsg[..last] + [handled.m];
      assert vProcessMsg + vRecvMsg == before + [handled.m];
      got := got + p[..k];
      return true, k, Complete(handled.m);
    }

    /** Absorbs a piece of the stream; false when the peer must be disconnected. */
    method ReceiveMsgBytes(pch: Bytes, ghost n: Net, ghost ms: seq<Msg>) returns (ok: bool, complete: bool)
      requires Valid() && NetOk(n) && AllBounded(ms)
      modifies this
      ensures vProcessMsg == old(vProcessMsg)
      ensures if ok then Valid() && got == old(got) + pch else Spoilt(old(got) + pch)
      ensures old(got) + pch <= Wire(n, ms) ==> ok
      ensures !complete && NoneComplete(old(vRecvMsg)) ==> NoneComplete(vRecvMsg)
    {
      hide ListOk, AllComplete, RawAll, Wire, AllBounded, NetOk, Spoilt;
      complete := false;
      var nBytes := 0;
      assert got + pch[..0] == got;
      while nBytes < |pch|
        invariant 0 <= nBytes <= |pch|
        invariant Valid() && got == old(got) + pch[..nBytes] && vProcessMsg == old(vProcessMsg)
        invariant !complete && NoneComplete(old(vRecvMsg)) ==> NoneComplete(vRecvMsg)
      {
        var rest := pch[nBytes..];
        assert pch == pch[..nBytes] + rest;
        AppendAssoc(old(got), pch[..nBytes], rest);
        var taken, k, done := Absorb(rest, n, ms);
        if !taken {
          return false, complete;
        }
        assert pch[..nBytes + k] == pch[..nBytes] + rest[..k];
        AppendAssoc(old(got), pch[..nBytes], rest[..k]);
        nBytes := nBytes + k;
        if done {
          complete := true;
        }
      }
      assert pch[..nBytes] == pch;
      ok := true;
    }

    lemma StartKeeps()
      requires Valid() && (vRecvMsg == [] || Complete(vRecvMsg[|vRecvMsg| - 1]))
      ensures var all := vProcessMsg + (vRecvMsg + [NewMessage]);
              ListOk(all) && RawAll(all) == got
    {
      var all := vProcessMsg + vRecvMsg;
      assert vProcessMsg + (vRecvMsg + [NewMessage]) == all + [NewMessage];
      RawAllSnoc(all, NewMessage);
      assert Raw(NewMessage) == [];
      forall i {:trigger all[i]} | 0 <= i < |all|
        ensures Complete(all[i])
      {
        if i == |all| - 1 {
          if vRecvMsg == [] { assert all[i] == vProcessMsg[i]; } else { assert all[i] == vRecvMsg[|vRecvMsg| - 1]; }
        }
      }
    }

    lemma LastSplit()
      requires Valid() && vRecvMsg != []
      ensures var before, msg := vProcessMsg + vRecvMsg[..|vRecvMsg| - 1], vRecvMsg[|vRecvMsg| - 1];
              && AllComplete(before) && MessageOk(msg) && RawAll(before) + Raw(msg) == got
              && vProcessMsg + vRecvMsg == before + [msg]
    {
      var before, msg := vProcessMsg + vRecvMsg[..|vRecvMsg| - 1], vRecvMsg[|vRecvMsg| - 1];
      var all := vProcessMsg + vRecvMsg;
      assert all == before + [msg];
      assert all[|all| - 1] == msg;
      forall i {:trigger before[i]} | 0 <= i < |before|
        ensures MessageOk(before[i]) && Complete(before[i])
      {
        assert all[i] == before[i];
      }
      RawAllSnoc(before, msg);
    }

    lemma Absorbed(before: seq<NetMessage>, m: NetMessage, m': NetMessage, got: Bytes, p: Bytes)
      requires AllComplete(before) && MessageOk(m) && MessageOk(m')
      requires RawAll(before) + Raw(m) == got && Raw(m') == Raw(m) + p
      ensures ListOk(before + [m']) && RawAll(before + [m']) == got + p
    {
      RawAllSnoc(before, m');
      AppendAssoc(RawAll(before), Raw(m), p);
    }

    /** Hands the complete messages at the front of the receive queue to the processing queue. */
    method HandOn()
      requires FrontOk()
      modifies `vRecvMsg, `vProcessMsg
      ensures FrontOk() && vProcessMsg + vRecvMsg == old(vProcessMsg + vRecvMsg) && old(vProcessMsg) <= vProcessMsg
      ensures NoneComplete(vRecvMsg)
      ensures old(Valid()) ==> Valid()
    {
      hide MessageOk, RawAll, ListOk;
      var it := 0;
      while it < |vRecvMsg|
        invariant 0 <= it <= |vRecvMsg| && forall i :: 0 <= i < it ==> Complete(vRecvMsg[i])
      {
        if !Complete(vRecvMsg[it]) {
          break;
        }
        it := it + 1;
      }
      ghost var all := vProcessMsg + vRecvMsg;
      assert vProcessMsg + vRecvMsg[..it] + vRecvMsg[it..] == all;
      assert it >= |vRecvMsg| - 1;
      vProcessMsg, vRecvMsg := vProcessMsg + vRecvMsg[..it], vRecvMsg[it..];
    }

    /**
     One read from the socket.  Whether the peer stays connected or not, the complete messages are
     handed on; it is disconnected exactly at a header that announces too much, right after them.
     */
    method OnRead(pch: Bytes, ghost n: Net, ghost ms: seq<Msg>) returns (connected: bool)
      requires Valid() && NetOk(n) && AllBounded(ms) && NoneComplete(vRecvMsg)
      modifies this
      ensures connected ==> Valid() && got == old(got) + pch
      ensures old(vProcessMsg) <= vProcessMsg && AllComplete(vProcessMsg) && NoneComplete(vRecvMsg)
      ensures !connected ==> Refused(old(got) + pch, RawAll(vProcessMsg))
      ensures old(got) + pch <= Wire(n, ms) ==> connected
    {
      hide Refused, RawAll, Wire, ListOk, MessageOk;
      var ok, notify := ReceiveMsgBytes(pch, n, ms);
      if ok { ValidFront(); }
      ghost var whole := if ok then [] else vProcessMsg + vRecvMsg[..|vRecvMsg| - 1];
      ghost var bad := if ok then [] else [vRecvMsg[|vRecvMsg| - 1]];
      assert !ok ==> vProcessMsg + vRecvMsg == whole + bad;
      if notify {
        HandOn();
      }
      if !ok { OnlyTheLast(whole, bad[0]); }
      return ok;
    }

    /** Once nothing complete waits, what was handed on is all but the spoilt message. */
    lemma OnlyTheLast(whole: seq<NetMessage>, bad: NetMessage)
      requires FrontOk() && NoneComplete(vRecvMsg) && vProcessMsg + vRecvMsg == whole + [bad] && !Complete(bad) && AllComplete(whole)
      ensures vProcessMsg == whole
    {
      hide MessageOk;
      var all := whole + [bad];
      assert forall i {:trigger all[i]} :: 0 <= i < |vProcessMsg| ==> all[i] == vProcessMsg[i] && Complete(vProcessMsg[i]);
      assert all[|whole|] == bad;
      assert vRecvMsg[0] in vRecvMsg;
      assert all[|vProcessMsg|] == vRecvMsg[0];
      assert vProcessMsg == all[..|vProcessMsg|] && whole == all[..|whole|];
    }
  }

  /**
   Whatever the socket took and however it was cut up on the way: the messages handed on are the first
   messages pushed, in order and unchanged, and exactly those whose bytes have all arrived.
   */
  lemma DeliveredIsPrefix(n: Net, pushed: seq<Msg>, sent: Bytes, got: Bytes, delivered: seq<NetMessage>, partial: seq<NetMessage>)
    requires NetOk(n) && AllBounded(pushed) && sent <= Wire(n, pushed) && got <= sent
    requires AllComplete(delivered) && ListOk(delivered + partial) && RawAll(delivered + partial) == got
    requires NoneComplete(partial)
    ensures AllMatch(n, delivered, pushed) && AllBounded(pushed[..|delivered|])
    ensures |Wire(n, pushed[..|delivered|])| <= |got|
    ensures |delivered| < |pushed| ==>
              AllBounded(pushed[..|delivered| + 1]) && |got| < |Wire(n, pushed[..|delivered| + 1])|
  {
    hide Raw, RawAll, Wire, ListOk, AllMatch, MessageOk;
    var k := |delivered|;
    var rest := PartialBytes(delivered, partial);
    PrefixMatches(n, delivered, rest, pushed);
    MatchesCount(n, delivered, pushed);
    LengthMatches(n, delivered, pushed);
    if k < |pushed| {
      assert pushed[..k + 1] == pushed[..k] + [pushed[k]] && pushed[k..][0] == pushed[k];
      WireSnoc(n, pushed[..k], pushed[k]);
      if partial != [] {
        PartialIsShort(n, partial[0], pushed[k..]);
      }
    }
  }

  lemma MatchesCount(n: Net, rs: seq<NetMessage>, ms: seq<Msg>)
    requires NetOk(n) && AllBounded(ms) && AllMatch(n, rs, ms)
    ensures |rs| <= |ms|
  {
  }

  /** At most one message is incomplete, and its bytes are the last ones received. */
  lemma PartialBytes(delivered: seq<NetMessage>, partial: seq<NetMessage>) returns (rest: Bytes)
    requires AllComplete(delivered) && ListOk(delivered + partial) && NoneComplete(partial)
    ensures AllOk(delivered) && RawAll(delivered + partial) == RawAll(delivered) + rest
    ensures if partial == [] then rest == [] else MessageOk(partial[0]) && !Complete(partial[0]) && rest == Raw(partial[0])
  {
    var all, k := delivered + partial, |delivered|;
    if partial == [] {
      assert all == delivered;
      rest := [];
    } else {
      assert all[k] == partial[0] && partial[0] in partial;
      assert |partial| == 1;
      assert all == delivered + [partial[0]];
      RawAllSnoc(delivered, partial[0]);
      rest := Raw(partial[0]);
    }
  }

  /** A message still being received holds less than the message it is the start of. */
  lemma PartialIsShort(n: Net, m: NetMessage, ms: seq<Msg>)
    requires NetOk(n) && AllBounded(ms) && ms != [] && MessageOk(m) && !Complete(m) && Raw(m) <= Wire(n, ms)
    ensures |Raw(m)| < HEADER_SIZE + |ms[0].payload|
  {
    if m.inData {
      var w := Wire(n, ms);
      assert Raw(m)[..24] == m.hdrbuf[..24] == m.hdrbuf;
      assert w[..24] == Header(n, ms[0]);
      assert Raw(m)[..24] == w[..24];
    }
  }

  lemma {:induction false} LengthMatches(n: Net, rs: seq<NetMessage>, ms: seq<Msg>)
    requires NetOk(n) && AllBounded(ms) && AllComplete(rs) && AllMatch(n, rs, ms)
    ensures AllBounded(ms[..|rs|]) && |Wire(n, ms[..|rs|])| == |RawAll(rs)|
  {
    if rs != [] {
      var k := |rs| - 1;
      LengthMatches(n, rs[..k], ms);
      assert ms[..k + 1] == ms[..k] + [ms[k]];
      WireSnoc(n, ms[..k], ms[k]);
      CompleteRaw(rs[k]);
      assert Matches(n, rs[k], ms[k]);
    }
  }
}
