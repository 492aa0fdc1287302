/** Batching UDP datagrams: several are joined into one message for the kernel to
    segment, and a received message is split again, within one array of messages. */
module UdpBatch {
  import opened Arith
  import opened Bitwise

  const MAX_IPV4_PAYLOAD_LEN := 0xffff - 20 - 8
  const MAX_IPV6_PAYLOAD_LEN := 0xffff - 8
  const UDP_SEGMENT_MAX_DATAGRAMS := 64

  function MaxPayloadLen(is6: bool): nat {
    if is6 then MAX_IPV6_PAYLOAD_LEN else MAX_IPV4_PAYLOAD_LEN
  }

  /** A datagram to send, in a buffer with room behind it. */
  datatype Datagram = Datagram(data: seq<byte>, capacity: nat)

  /** A message for the kernel; gsoSize zero means that none is set. */
  datatype Message = Message(buffer: seq<byte>, capacity: nat, gsoSize: nat)

  function Flatten<T>(groups: seq<seq<T>>): seq<T> {
    if groups == [] then [] else Flatten(groups[..|groups| - 1]) + groups[|groups| - 1]
  }

  lemma FlattenSnoc<T>(groups: seq<seq<T>>, g: seq<T>)
    ensures Flatten(groups + [g]) == Flatten(groups) + g
  {
    assert (groups + [g])[..|groups|] == groups;
  }

  lemma {:induction false} FlattenHead<T>(groups: seq<seq<T>>)
    requires groups != []
    ensures Flatten(groups) == groups[0] + Flatten(groups[1..])
  {
    var n := |groups| - 1;
    if n == 0 {
      assert groups[..0] == [] && groups[1..] == [];
    } else {
      var init, tail := groups[..n], groups[1..];
      FlattenHead(init);
      assert tail[..n - 1] == init[1..];
      calc {
        Flatten(groups);
        Flatten(init) + groups[n];
        groups[0] + Flatten(init[1..]) + groups[n];
        groups[0] + (Flatten(init[1..]) + groups[n]);
        groups[0] + Flatten(tail);
      }
    }
  }

  /** The datagrams of one message: all of the first one's size but the last, which
      may be smaller. */
  ghost predicate Uniform(ds: seq<seq<byte>>) {
    && ds != [] && |ds[|ds| - 1]| <= |ds[0]|
    && forall i :: 0 <= i < |ds| - 1 ==> |ds[i]| == |ds[0]|
  }

  /** What a message may hold, before its segment size is set. */
  ghost predicate IsBatch(m: Message, ds: seq<seq<byte>>, maxPayload: nat) {
    && Uniform(ds) && m.buffer == Flatten(ds) && |ds| <= UDP_SEGMENT_MAX_DATAGRAMS
    && |m.buffer| <= m.capacity && (|ds| > 1 ==> |m.buffer| <= maxPayload)
  }

  /** The segment size is set exactly when there is more than one datagram. */
  ghost predicate Closed(m: Message, ds: seq<seq<byte>>) {
    ds != [] && m.gsoSize == if |ds| > 1 then |ds[0]| else 0
  }

  /** Another datagram still fits the message. */
  ghost predicate Takes(m: Message, ds: seq<seq<byte>>, d: seq<byte>, maxPayload: nat) {
    && ds != [] && |d| + |m.buffer| <= maxPayload && |d| <= |ds[0]| && |d| <= m.capacity - |m.buffer|
    && |ds| < UDP_SEGMENT_MAX_DATAGRAMS && |ds[|ds| - 1]| == |ds[0]|
  }

  /** All messages so far, the last one still open. */
  ghost predicate Batches(msgs: seq<Message>, groups: seq<seq<seq<byte>>>, maxPayload: nat) {
    && |msgs| == |groups|
    && (forall b :: 0 <= b < |msgs| ==> IsBatch(msgs[b], groups[b], maxPayload))
    && (forall b :: 0 <= b < |msgs| - 1 ==>
          Closed(msgs[b], groups[b]) && !Takes(msgs[b], groups[b], groups[b + 1][0], maxPayload))
  }

  lemma AppendToLast(msgs: seq<Message>, groups: seq<seq<seq<byte>>>, d: seq<byte>, maxPayload: nat, m: Message)
    requires Batches(msgs, groups, maxPayload) && msgs != []
    requires Takes(msgs[|msgs| - 1], groups[|msgs| - 1], d, maxPayload)
    requires var last := |msgs| - 1; m == msgs[last].(buffer := msgs[last].buffer + d, gsoSize := m.gsoSize)
    ensures var last := |msgs| - 1;
      && Batches(msgs[last := m], groups[last := groups[last] + [d]], maxPayload)
      && Flatten(groups[last := groups[last] + [d]]) == Flatten(groups) + [d]
  {
    var last := |msgs| - 1;
    var ds := groups[last];
    FlattenSnoc(ds, d);
    var groups' := groups[last := ds + [d]];
    assert groups'[..last] == groups[..last];
    assert IsBatch(m, ds + [d], maxPayload);
  }

  lemma StartNext(msgs: seq<Message>, groups: seq<seq<seq<byte>>>, d: Datagram, maxPayload: nat)
    requires Batches(msgs, groups, maxPayload) && |d.data| <= d.capacity
    requires msgs != [] ==>
      var last := |msgs| - 1; Closed(msgs[last], groups[last]) && !Takes(msgs[last], groups[last], d.data, maxPayload)
    ensures Batches(msgs + [Message(d.data, d.capacity, 0)], groups + [[d.data]], maxPayload)
    ensures Flatten(groups + [[d.data]]) == Flatten(groups) + [d.data]
  {
    FlattenSnoc(groups, [d.data]);
    assert Flatten([d.data]) == Flatten([]) + d.data by { assert [d.data][..0] == []; }
  }

  function Datas(bufs: seq<Datagram>): seq<seq<byte>> {
    seq(|bufs|, i requires 0 <= i < |bufs| => bufs[i].data)
  }

  /** The messages hold the datagrams, in order, in groups that are batches; every
      message is filled as far as it goes before the next is begun. */
  ghost predicate IsBatching(msgs: seq<Message>, datas: seq<seq<byte>>, maxPayload: nat) {
    exists groups ::
      && Flatten(groups) == datas && Batches(msgs, groups, maxPayload)
      && forall b :: 0 <= b < |msgs| ==> Closed(msgs[b], groups[b])
  }

  method CoalesceMessages(bufs: seq<Datagram>, is6: bool) returns (msgs: seq<Message>)
    requires forall i :: 0 <= i < |bufs| ==> |bufs[i].data| <= bufs[i].capacity
    ensures IsBatching(msgs, Datas(bufs), MaxPayloadLen(is6))
  {
    hide Batches, Takes, IsBatch, Flatten;
    ghost var groups: seq<seq<seq<byte>>> := [];
    var gsoSize: nat, dgramCnt: nat, endBatch := 0, 0, false;
    var maxPayloadLen := MaxPayloadLen(is6);
    msgs := [];
    NoBatches(maxPayloadLen);
    for i := 0 to |bufs|
      invariant Flatten(groups) == Datas(bufs[..i]) && Batches(msgs, groups, maxPayloadLen) && |msgs| == |groups|
      invariant (i == 0 <==> msgs == []) && (msgs == [] ==> dgramCnt == 0)
      invariant msgs != [] ==> Open(groups[|groups| - 1], gsoSize, dgramCnt, endBatch)
      invariant msgs != [] ==> var last := |msgs| - 1;
        if i == |bufs| then Closed(msgs[last], groups[last]) else msgs[last].gsoSize == 0
    {
      assert Datas(bufs[..i + 1]) == Datas(bufs[..i]) + [bufs[i].data];
      var buf, last := bufs[i], |msgs| - 1;
      if i > 0 {
        LastIsBatch(msgs, groups, maxPayloadLen);
      }
      if i > 0 && Fits(msgs[last], gsoSize, dgramCnt, endBatch, buf.data, maxPayloadLen) {
        var m := msgs[last].(buffer := msgs[last].buffer + buf.data);
        if i == |bufs| - 1 {
          m := m.(gsoSize := gsoSize);
        }
        FitsIsTakes(msgs[last], groups[last], gsoSize, dgramCnt, endBatch, buf.data, maxPayloadLen);
        AppendToLast(msgs, groups, buf.data, maxPayloadLen, m);
        groups := groups[last := groups[last] + [buf.data]];
        msgs := msgs[last := m];
        dgramCnt := dgramCnt + 1;
        endBatch := |buf.data| < gsoSize;
      } else {
        if i > 0 {
          FitsIsTakes(msgs[last], groups[last], gsoSize, dgramCnt, endBatch, buf.data, maxPayloadLen);
        }
        if dgramCnt > 1 {
          CloseLast(msgs, groups, maxPayloadLen, gsoSize, buf.data);
          msgs := msgs[last := msgs[last].(gsoSize := gsoSize)];
        }
        StartNext(msgs, groups, buf, maxPayloadLen);
        groups := groups + [[buf.data]];
        gsoSize, dgramCnt, endBatch := |buf.data|, 1, false;
        msgs := msgs + [Message(buf.data, buf.capacity, 0)];
      }
    }
    AllClosed(msgs, groups, maxPayloadLen);
    assert bufs[..|bufs|] == bufs;
  }

  lemma NoBatches(maxPayload: nat)
    ensures Batches([], [], maxPayload) && Flatten<seq<byte>>([]) == []
  {
  }

  lemma AllClosed(msgs: seq<Message>, groups: seq<seq<seq<byte>>>, maxPayload: nat)
    requires Batches(msgs, groups, maxPayload) && (msgs != [] ==> Closed(msgs[|msgs| - 1], groups[|msgs| - 1]))
    ensures forall b :: 0 <= b < |msgs| ==> Closed(msgs[b], groups[b])
  {
  }

  /** The loop's own variables describe the message being filled. */
  ghost predicate Open(ds: seq<seq<byte>>, gsoSize: nat, dgramCnt: nat, endBatch: bool) {
    ds != [] && gsoSize == |ds[0]| && dgramCnt == |ds| && (endBatch <==> |ds[dgramCnt - 1]| < gsoSize)
  }

  /** The test whether a datagram is appended. */
  predicate Fits(m: Message, gsoSize: nat, dgramCnt: nat, endBatch: bool, data: seq<byte>, maxPayloadLen: nat) {
    && |data| + |m.buffer| <= maxPayloadLen && |data| <= gsoSize && |data| <= m.capacity - |m.buffer|
    && dgramCnt < UDP_SEGMENT_MAX_DATAGRAMS && !endBatch
  }

  lemma FitsIsTakes(m: Message, ds: seq<seq<byte>>, gsoSize: nat, dgramCnt: nat, endBatch: bool, data: seq<byte>,
      maxPayload: nat)
    requires Open(ds, gsoSize, dgramCnt, endBatch) && IsBatch(m, ds, maxPayload)
    ensures Fits(m, gsoSize, dgramCnt, endBatch, data, maxPayload) <==> Takes(m, ds, data, maxPayload)
  {
  }

  lemma CloseLast(msgs: seq<Message>, groups: seq<seq<seq<byte>>>, maxPayload: nat, gsoSize: nat, d: seq<byte>)
    requires Batches(msgs, groups, maxPayload) && msgs != []
    requires !Takes(msgs[|msgs| - 1], groups[|msgs| - 1], d, maxPayload)
    ensures var last := |msgs| - 1; var m := msgs[last].(gsoSize := gsoSize);
      Batches(msgs[last := m], groups, maxPayload) && !Takes(m, groups[last], d, maxPayload)
  {
  }

  lemma LastIsBatch(msgs: seq<Message>, groups: seq<seq<seq<byte>>>, maxPayload: nat)
    requires Batches(msgs, groups, maxPayload) && msgs != []
    ensures IsBatch(msgs[|msgs| - 1], groups[|msgs| - 1], maxPayload)
  {
  }

  // ----- splitting

  /** A received message: its buffer, how much of it was filled, and the segment size
      the kernel reports, or zero. */
  datatype Received = Received(buffer: seq<byte>, n: nat, gsoSize: nat) {
    function Data(): seq<byte>
      requires n <= |buffer|
    {
      buffer[..n]
    }
  }

  /** The pieces of a message: of the segment size, the last one what is left. */
  function Segments(data: seq<byte>, gsoSize: nat): seq<seq<byte>>
    decreases |data|
  {
    if gsoSize == 0 || |data| <= gsoSize then [data] else [data[..gsoSize]] + Segments(data[gsoSize..], gsoSize)
  }

  lemma {:induction false} SegmentsCount(data: seq<byte>, g: nat)
    requires g > 0 && data != []
    ensures |Segments(data, g)| == (|data| + g - 1) / g
    decreases |data|
  {
    if |data| <= g {
      DivideUnique(|data| + g - 1, g, 1, |data| - 1);
    } else {
      SegmentsCount(data[g..], g);
      var x := |data| - 1;
      assert x / g * g + x % g == x;
      DivideUnique(x + g, g, x / g + 1, x % g);
    }
  }

  lemma {:induction false} SegmentsNonEmpty(data: seq<byte>, g: nat, i: nat)
    requires data != [] && i < |Segments(data, g)|
    ensures Segments(data, g)[i] != []
    decreases |data|
  {
    if g > 0 && |data| > g && i > 0 {
      SegmentsNonEmpty(data[g..], g, i - 1);
    }
  }

  /** What a run of received messages holds, up to the first empty one. */
  function Incoming(msgs: seq<Received>): seq<seq<byte>>
    requires forall i :: 0 <= i < |msgs| ==> msgs[i].n <= |msgs[i].buffer|
  {
    if msgs == [] || msgs[0].n == 0 then [] else Segments(msgs[0].Data(), msgs[0].gsoSize) + Incoming(msgs[1..])
  }

  /** Every buffer can take any segment, and a reported segment size is within the message. */
  ghost predicate WellReceived(msgs: seq<Received>, first: nat) {
    && (forall i :: 0 <= i < |msgs| ==> msgs[i].n <= |msgs[i].buffer|)
    && (forall i, k :: first <= i < |msgs| && 0 <= k < |msgs| ==> msgs[i].n <= |msgs[k].buffer|)
    && (forall i :: first <= i < |msgs| && msgs[i].n > 0 ==> msgs[i].gsoSize <= msgs[i].n)
  }

  /** Splitting the messages from i on, with n pieces placed so far, never needs a
      place beyond the message being split. */
  ghost predicate RoomFor(msgs: seq<Received>, i: nat, n: nat)
    requires i <= |msgs| && forall j :: 0 <= j < |msgs| ==> msgs[j].n <= |msgs[j].buffer|
    decreases |msgs| - i
  {
    i < |msgs| && msgs[i].n > 0 ==>
      var count := |Segments(msgs[i].Data(), msgs[i].gsoSize)|;
      n + count <= i + 1 && RoomFor(msgs, i + 1, n + count)
  }

  function Placed(m: Received, segment: seq<byte>): Received
    requires |segment| <= |m.buffer|
  {
    m.(buffer := segment + m.buffer[|segment|..], n := |segment|)
  }

  /** The first n messages hold these datagrams. */
  ghost predicate Holds(msgs: seq<Received>, out: seq<seq<byte>>) {
    |out| <= |msgs| && forall k :: 0 <= k < |out| ==>
      |out[k]| == msgs[k].n <= |msgs[k].buffer| && msgs[k].Data() == out[k]
  }

  lemma PlaceNext(msgs: seq<Received>, out: seq<seq<byte>>, segment: seq<byte>)
    requires Holds(msgs, out) && |out| < |msgs| && |segment| <= |msgs[|out|].buffer|
    ensures Holds(msgs[|out| := Placed(msgs[|out|], segment)], out + [segment])
  {
  }

  /** Buffers keep their lengths. */
  ghost predicate SameRoom(msgs: seq<Received>, was: seq<Received>) {
    |msgs| == |was| && forall k :: 0 <= k < |was| ==> |msgs[k].buffer| == |was[k].buffer|
  }

  /** Splits one message, placing its pieces from n on. */
  method SplitMessage(msgs: array<Received>, i: nat, n: nat, ghost out: seq<seq<byte>>) returns (n': nat, ok: bool)
    requires i < msgs.Length && n == |out| <= i && Holds(msgs[..], out)
    requires 0 < msgs[i].n <= |msgs[i].buffer| && msgs[i].gsoSize <= msgs[i].n
    requires forall k :: 0 <= k < msgs.Length ==> msgs[i].n <= |msgs[k].buffer|
    modifies msgs
    ensures SameRoom(msgs[..], old(msgs[..])) && forall k :: i < k < msgs.Length ==> msgs[k] == old(msgs[k])
    ensures var pieces := Segments(old(msgs[i].Data()), old(msgs[i].gsoSize));
      && (ok <==> n + |pieces| <= i + 1)
      && (ok ==> n' == n + |pieces| && Holds(msgs[..], out + pieces))
  {
    hide Holds, Segments;
    ghost var m, was := msgs[i], msgs[..];
    ghost var data, pieces := m.Data(), Segments(m.Data(), m.gsoSize);
    var gsoSize := msgs[i].gsoSize;
    var start, end, numToSplit := 0, msgs[i].n, 1;
    n' := n;
    if gsoSize > 0 {
      numToSplit := (msgs[i].n + gsoSize - 1) / gsoSize;
      end := gsoSize;
      SegmentsCount(data, gsoSize);
    } else {
      SegmentsWhole(data);
    }
    ghost var done: seq<seq<byte>> := [];
    assert data[0..] == data && [] + pieces == pieces && out + [] == out;
    for j := 0 to numToSplit
      invariant |done| == j && n' == n + j <= i + 1 && Holds(msgs[..], out + done) && SameRoom(msgs[..], was)
      invariant forall k :: i < k < msgs.Length ==> msgs[k] == was[k]
      invariant n' <= i ==> msgs[i] == m
      invariant j < numToSplit && n' <= i ==>
        0 <= start < end <= |data| && done + Segments(data[start..], gsoSize) == pieces
      invariant j < numToSplit && n' <= i ==>
        end == if gsoSize == 0 || start + gsoSize > |data| then |data| else start + gsoSize
      invariant j == numToSplit ==> done == pieces
    {
      if n' > i {
        return n', false;
      }
      ghost var rest, cur := data[start..], msgs[..];
      var segment := msgs[i].buffer[start..end];
      FirstPiece(m.buffer, m.n, start, end, gsoSize);
      PlaceNext(cur, out + done, segment);
      msgs[n'] := Placed(msgs[n'], segment);
      assert msgs[..] == cur[n' := Placed(cur[n'], segment)];
      assert (out + done) + [segment] == out + (done + [segment]);
      LastPiece(rest, gsoSize, done, pieces, j, numToSplit);
      done := done + [segment];
      start := end;
      end := end + gsoSize;
      if end > msgs[i].n {
        end := msgs[i].n;
      }
      n' := n' + 1;
    }
    ok := true;
  }

  lemma SegmentsWhole(data: seq<byte>)
    ensures Segments(data, 0) == [data]
  {
  }

  /** The next slice is the first segment of what is left. */
  lemma FirstPiece(buffer: seq<byte>, n: nat, start: nat, end: nat, g: nat)
    requires start < end <= n <= |buffer| && end == if g == 0 || start + g > n then n else start + g
    ensures var rest := buffer[..n][start..];
      |Segments(rest, g)| > 0 && buffer[start..end] == Segments(rest, g)[0] && rest != []
  {
    var rest := buffer[..n][start..];
    assert buffer[start..end] == rest[..end - start];
    if end == n {
      assert rest[..end - start] == rest;
    }
  }

  /** There is another piece after this one exactly when the count says so. */
  lemma LastPiece(rest: seq<byte>, g: nat, done: seq<seq<byte>>, pieces: seq<seq<byte>>, j: nat, count: nat)
    requires rest != [] && done + Segments(rest, g) == pieces && |done| == j < count == |pieces|
    ensures |Segments(rest, g)| > 0
    ensures var piece := Segments(rest, g)[0];
      && (j + 1 == count ==> done + [piece] == pieces)
      && (j + 1 < count ==> 0 < g < |rest| && (done + [piece]) + Segments(rest[g..], g) == pieces)
  {
  }

  /** Splits all messages from firstMsgAt on, to the front of the array. */
  method SplitCoalescedMessages(msgs: array<Received>, firstMsgAt: nat) returns (n: nat, ok: bool)
    requires firstMsgAt <= msgs.Length && WellReceived(msgs[..], firstMsgAt)
    modifies msgs
    ensures ok <==> RoomFor(old(msgs[..]), firstMsgAt, 0)
    ensures ok ==>
      n == |Incoming(old(msgs[..])[firstMsgAt..])| && Holds(msgs[..], Incoming(old(msgs[..])[firstMsgAt..]))
  {
    hide Holds, Segments, Incoming, RoomFor;
    ghost var was := msgs[..];
    ghost var out: seq<seq<byte>> := [];
    ghost var all := Incoming(was[firstMsgAt..]);
    n := 0;
    assert [] + all == all;
    HoldsNothing(was);
    for i := firstMsgAt to msgs.Length
      invariant n == |out| <= i && Holds(msgs[..], out) && SameRoom(msgs[..], was)
      invariant forall k :: i <= k < msgs.Length ==> msgs[k] == was[k]
      invariant out + Incoming(was[i..]) == all && (RoomFor(was, i, n) <==> RoomFor(was, firstMsgAt, 0))
    {
      NextIncoming(was, i, n);
      if msgs[i].n == 0 {
        assert out + [] == out;
        return n, true;
      }
      ghost var pieces := Segments(was[i].Data(), was[i].gsoSize);
      n, ok := SplitMessage(msgs, i, n, out);
      if !ok {
        return n, false;
      }
      Regroup(out, pieces, Incoming(was[i + 1..]));
      out := out + pieces;
      if i != n - 1 {
        ghost var cur := msgs[..];
        ZeroSource(cur, out, i);
        msgs[i] := msgs[i].(n := 0);
        assert msgs[..] == cur[i := cur[i].(n := 0)];
      }
    }
    NoneIncoming(was, n);
    assert out + [] == out;
    ok := true;
  }

  lemma HoldsNothing(msgs: seq<Received>)
    ensures Holds(msgs, [])
  {
  }

  lemma NextIncoming(msgs: seq<Received>, i: nat, n: nat)
    requires (forall j :: 0 <= j < |msgs| ==> msgs[j].n <= |msgs[j].buffer|) && i < |msgs|
    ensures if msgs[i].n == 0 then Incoming(msgs[i..]) == [] && RoomFor(msgs, i, n) else
      var pieces := Segments(msgs[i].Data(), msgs[i].gsoSize);
      && Incoming(msgs[i..]) == pieces + Incoming(msgs[i + 1..])
      && (RoomFor(msgs, i, n) <==> n + |pieces| <= i + 1 && RoomFor(msgs, i + 1, n + |pieces|))
  {
    assert msgs[i..][0] == msgs[i] && msgs[i..][1..] == msgs[i + 1..];
  }

  lemma NoneIncoming(msgs: seq<Received>, n: nat)
    requires forall j :: 0 <= j < |msgs| ==> msgs[j].n <= |msgs[j].buffer|
    ensures Incoming(msgs[|msgs|..]) == [] && RoomFor(msgs, |msgs|, n)
  {
  }

  lemma Regroup(a: seq<seq<byte>>, b: seq<seq<byte>>, c: seq<seq<byte>>)
    ensures (a + b) + c == a + (b + c)
  {
  }

  /** Marking a message as empty does not touch the pieces placed before it. */
  lemma ZeroSource(msgs: seq<Received>, out: seq<seq<byte>>, i: nat)
    requires Holds(msgs, out) && i < |msgs| && |out| <= i
    ensures Holds(msgs[i := msgs[i].(n := 0)], out)
  {
  }

  /** The receiver reads two messages into the end of an array of 128: with at most 64
      segments each they always have room. */
  lemma TwoMessagesFit(msgs: seq<Received>)
    requires |msgs| == 128 && (forall i :: 0 <= i < |msgs| ==> msgs[i].n <= |msgs[i].buffer|)
    requires forall i :: 126 <= i < 128 ==> |Segments(msgs[i].Data(), msgs[i].gsoSize)| <= UDP_SEGMENT_MAX_DATAGRAMS
    ensures RoomFor(msgs, 126, 0)
  {
    hide Segments;
    if msgs[126].n > 0 {
      var count := |Segments(msgs[126].Data(), msgs[126].gsoSize)|;
      if msgs[127].n > 0 {
        var count' := |Segments(msgs[127].Data(), msgs[127].gsoSize)|;
        assert RoomFor(msgs, 128, count + count');
      }
      assert RoomFor(msgs, 127, count);
    }
  }

  // ----- there and back

  /** The messages arrive as they were sent, each in a buffer of some size. */
  ghost predicate Arrives(received: seq<Received>, msgs: seq<Message>) {
    && |received| == |msgs|
    && forall b :: 0 <= b < |msgs| ==>
         received[b].n <= |received[b].buffer| && received[b].Data() == msgs[b].buffer
           && received[b].gsoSize == msgs[b].gsoSize
  }

  /** Datagrams of one size, none empty, the last one perhaps smaller, are the segments. */
  lemma {:induction false} SegmentsOfRest(ds: seq<seq<byte>>, g: nat)
    requires ds != [] && (forall i :: 0 <= i < |ds| ==> ds[i] != []) && |ds[|ds| - 1]| <= g
    requires forall i :: 0 <= i < |ds| - 1 ==> |ds[i]| == g
    ensures Segments(Flatten(ds), g) == ds
  {
    FlattenHead(ds);
    if |ds| == 1 {
      assert ds[1..] == [] && Flatten(ds) == ds[0];
      assert ds == [ds[0]];
    } else {
      var rest := ds[1..];
      FlattenHead(rest);
      SegmentsOfRest(rest, g);
      assert Flatten(ds)[..g] == ds[0] && Flatten(ds)[g..] == Flatten(rest);
      assert ds == [ds[0]] + rest;
    }
  }

  /** The datagrams of a batch, none empty, are its segments. */
  lemma SegmentsOfBatch(ds: seq<seq<byte>>, g: nat)
    requires Uniform(ds) && (forall i :: 0 <= i < |ds| ==> ds[i] != [])
    requires g == |ds[0]| || (|ds| == 1 && g == 0)
    ensures Segments(Flatten(ds), g) == ds
  {
    if g > 0 {
      SegmentsOfRest(ds, g);
    } else {
      FlattenHead(ds);
      assert ds[1..] == [] && Flatten(ds[1..]) == [];
      assert Flatten(ds) == ds[0] && ds == [ds[0]];
    }
  }

  /** Batching is lossless exactly when no datagram is empty. */
  lemma Lossless(msgs: seq<Message>, datas: seq<seq<byte>>, maxPayload: nat, received: seq<Received>)
    requires IsBatching(msgs, datas, maxPayload) && Arrives(received, msgs)
    ensures Incoming(received) == datas <==> forall i :: 0 <= i < |datas| ==> datas[i] != []
  {
    if forall i :: 0 <= i < |datas| ==> datas[i] != [] {
      var groups :| Flatten(groups) == datas && Batches(msgs, groups, maxPayload) && forall b :: 0 <= b < |msgs| ==>
        Closed(msgs[b], groups[b]);
      AllArrive(msgs, groups, maxPayload, received);
    }
    forall i | 0 <= i < |Incoming(received)|
      ensures Incoming(received)[i] != []
    {
      IncomingNonEmpty(received, i);
    }
  }

  lemma {:induction false} IncomingNonEmpty(msgs: seq<Received>, i: nat)
    requires (forall j :: 0 <= j < |msgs| ==> msgs[j].n <= |msgs[j].buffer|) && i < |Incoming(msgs)|
    ensures Incoming(msgs)[i] != []
    decreases |msgs|
  {
    var pieces := Segments(msgs[0].Data(), msgs[0].gsoSize);
    if i < |pieces| {
      SegmentsNonEmpty(msgs[0].Data(), msgs[0].gsoSize, i);
    } else {
      IncomingNonEmpty(msgs[1..], i - |pieces|);
    }
  }

  lemma {:induction false} AllArrive(msgs: seq<Message>, groups: seq<seq<seq<byte>>>, maxPayload: nat,
      received: seq<Received>)
    requires |msgs| == |groups| && forall b :: 0 <= b < |msgs| ==>
      IsBatch(msgs[b], groups[b], maxPayload) && Closed(msgs[b], groups[b])
    requires Arrives(received, msgs) && forall i :: 0 <= i < |Flatten(groups)| ==> Flatten(groups)[i] != []
    ensures Incoming(received) == Flatten(groups)
    decreases |msgs|
  {
    if groups != [] {
      FlattenHead(groups);
      var ds, rest := groups[0], Flatten(groups[1..]);
      assert forall i :: 0 <= i < |ds| ==> ds[i] == Flatten(groups)[i];
      assert forall i :: 0 <= i < |rest| ==> rest[i] == Flatten(groups)[|ds| + i];
      SegmentsOfBatch(ds, msgs[0].gsoSize);
      FlattenHead(ds);
      AllArrive(msgs[1..], groups[1..], maxPayload, received[1..]);
    }
  }

  // ----- the whole way, within one array

  ghost predicate NoneEmpty(datas: seq<seq<byte>>) {
    forall i :: 0 <= i < |datas| ==> datas[i] != []
  }

  lemma MessageSizes(msgs: seq<Message>, datas: seq<seq<byte>>, maxPayload: nat)
    requires IsBatching(msgs, datas, maxPayload)
    ensures forall b :: 0 <= b < |msgs| ==> |msgs[b].buffer| <= msgs[b].capacity && msgs[b].gsoSize <= |msgs[b].buffer|
  {
    var groups :| Flatten(groups) == datas && Batches(msgs, groups, maxPayload) && forall b :: 0 <= b < |msgs| ==>
      Closed(msgs[b], groups[b]);
    forall b | 0 <= b < |msgs| ensures |msgs[b].buffer| <= msgs[b].capacity && msgs[b].gsoSize <= |msgs[b].buffer| {
      assert IsBatch(msgs[b], groups[b], maxPayload);
      FlattenHead(groups[b]);
    }
  }

  /** With as many places as datagrams in front of the messages, splitting never runs out of room. */
  lemma {:induction false} RoomEnough(msgs: seq<Received>, i: nat, n: nat)
    requires (forall j :: 0 <= j < |msgs| ==> msgs[j].n <= |msgs[j].buffer|) && i <= |msgs|
    requires n + |Incoming(msgs[i..])| <= i + 1
    ensures RoomFor(msgs, i, n)
    decreases |msgs| - i
  {
    if i < |msgs| {
      NextIncoming(msgs, i, n);
      if msgs[i].n > 0 {
        RoomEnough(msgs, i + 1, n + |Segments(msgs[i].Data(), msgs[i].gsoSize)|);
      }
    }
  }

  lemma HoldsOnly(msgs: seq<Received>, a: seq<seq<byte>>, b: seq<seq<byte>>)
    requires Holds(msgs, a) && Holds(msgs, b) && |a| == |b|
    ensures a == b
  {
  }

  /** Datagrams are batched, the messages arrive behind `front` empty places, and are
      split in place: with room for them the array then starts with the datagrams as they were
      sent, if and only if none of them is empty. */
  method ThereAndBack(bufs: seq<Datagram>, is6: bool, front: nat, room: nat) returns (msgs: array<Received>, n: nat,
      ok: bool)
    requires forall i :: 0 <= i < |bufs| ==> |bufs[i].data| <= bufs[i].capacity
    requires |bufs| <= front + 1 && MAX_IPV6_PAYLOAD_LEN <= room && forall i :: 0 <= i < |bufs| ==>
      |bufs[i].data| <= room
    ensures fresh(msgs) && (NoneEmpty(Datas(bufs)) ==> ok)
    ensures ok ==> (n == |bufs| && Holds(msgs[..], Datas(bufs)) <==> NoneEmpty(Datas(bufs)))
  {
    hide Holds, Incoming, RoomFor, IsBatching;
    var sent := CoalesceMessages(bufs, is6);
    MessageSizes(sent, Datas(bufs), MaxPayloadLen(is6));
    MessageLengths(sent, Datas(bufs), MaxPayloadLen(is6), room);
    msgs := Deliver(sent, front, room);
    ghost var was := msgs[..];
    Lossless(sent, Datas(bufs), MaxPayloadLen(is6), was[front..]);
    if NoneEmpty(Datas(bufs)) {
      RoomEnough(was, front, 0);
    }
    n, ok := SplitCoalescedMessages(msgs, front);
    if ok && n == |bufs| && Holds(msgs[..], Datas(bufs)) {
      HoldsOnly(msgs[..], Datas(bufs), Incoming(was[front..]));
    }
  }

  lemma MessageLengths(msgs: seq<Message>, datas: seq<seq<byte>>, maxPayload: nat, room: nat)
    requires IsBatching(msgs, datas, maxPayload) && maxPayload <= room && forall i :: 0 <= i < |datas| ==>
      |datas[i]| <= room
    ensures forall b :: 0 <= b < |msgs| ==> |msgs[b].buffer| <= room
  {
    var groups :| Flatten(groups) == datas && Batches(msgs, groups, maxPayload) && forall b :: 0 <= b < |msgs| ==>
      Closed(msgs[b], groups[b]);
    forall b | 0 <= b < |msgs| ensures |msgs[b].buffer| <= room {
      assert IsBatch(msgs[b], groups[b], maxPayload);
      if |groups[b]| == 1 {
        InFlatten(groups, b);
        FlattenHead(groups[b]);
        assert groups[b][1..] == [];
      }
    }
  }

  lemma {:induction false} InFlatten(groups: seq<seq<seq<byte>>>, b: nat)
    requires b < |groups| && groups[b] != []
    ensures groups[b][0] in Flatten(groups)
    decreases |groups|
  {
    var n := |groups| - 1;
    if b < n {
      InFlatten(groups[..n], b);
    }
  }

  /** The messages arrive, each in a buffer of its own, behind empty ones. */
  method Deliver(sent: seq<Message>, front: nat, room: nat) returns (msgs: array<Received>)
    requires forall b :: 0 <= b < |sent| ==> |sent[b].buffer| <= room && sent[b].gsoSize <= |sent[b].buffer|
    ensures fresh(msgs) && msgs.Length == front + |sent| && Arrives(msgs[front..], sent)
    ensures WellReceived(msgs[..], front)
  {
    var empty := Received(seq(room, _ => 0), 0, 0);
    msgs := new Received[front + |sent|](_ => empty);
    for b := 0 to |sent|
      invariant forall k :: 0 <= k < msgs.Length ==> |msgs[k].buffer| == room
      invariant forall k :: 0 <= k < front ==> msgs[k] == empty
      invariant forall k :: front <= k < front + b ==> msgs[k] == Delivered(empty, sent[k - front])
    {
      msgs[front + b] := Delivered(empty, sent[b]);
    }
    forall b | 0 <= b < |sent| ensures msgs[front..][b] == Delivered(empty, sent[b]) {
    }
  }

  function Delivered(empty: Received, m: Message): (r: Received)
    requires |m.buffer| <= |empty.buffer|
    ensures |r.buffer| == |empty.buffer| && r.n == |m.buffer| && r.Data() == m.buffer && r.gsoSize == m.gsoSize
  {
    Placed(empty, m.buffer).(gsoSize := m.gsoSize)
  }
}
