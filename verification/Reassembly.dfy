/** The receiving side of a stream in picoquic/frames.c: frames that arrive in any order, and overlap,
    are kept as a sorted tree of chunks and handed to the application in order (section 2.2 of RFC 9000). */
module Reassembly {
  import opened Wrappers
  import opened Varint

  // ----- The tree, as the sorted sequence of its nodes

  datatype Chunk = Chunk(offset: nat, data: seq<byte>) {
    function End(): nat {
      offset + |data|
    }
  }

  /** The byte that a block of data starting at `offset` has for position `i`. */
  function DataAt(offset: nat, data: seq<byte>, i: nat): Option<byte> {
    if offset <= i < offset + |data| then Some(data[i - offset]) else None
  }

  /** Non-empty chunks in increasing order, without overlap. */
  ghost predicate Chunks(tree: seq<Chunk>) {
    && (forall i :: 0 <= i < |tree| ==> tree[i].data != [])
    && (forall i, j :: 0 <= i < j < |tree| ==> tree[i].End() <= tree[j].offset)
  }

  /** The byte that the tree holds for position `i`. */
  function At(tree: seq<Chunk>, i: nat): Option<byte> {
    if tree == [] then None
    else if tree[0].offset <= i < tree[0].End() then DataAt(tree[0].offset, tree[0].data, i)
    else At(tree[1..], i)
  }

  /** The number of nodes at or before `offset`: `picosplay_find_previous` finds the last of them. */
  function CountUpTo(tree: seq<Chunk>, offset: nat): (k: nat)
    ensures k <= |tree|
    ensures forall i :: 0 <= i < k ==> tree[i].offset <= offset
    ensures k < |tree| ==> tree[k].offset > offset
  {
    if tree == [] || tree[0].offset > offset then 0 else 1 + CountUpTo(tree[1..], offset)
  }

  function Insert(tree: seq<Chunk>, c: Chunk): seq<Chunk> {
    var k := CountUpTo(tree, c.offset);
    tree[..k] + [c] + tree[k..]
  }

  lemma {:induction false} AtConcat(a: seq<Chunk>, b: seq<Chunk>, i: nat)
    ensures At(a + b, i) == if At(a, i).Some? then At(a, i) else At(b, i)
  {
    if a == [] {
      assert a + b == b;
    } else {
      AtConcat(a[1..], b, i);
      assert (a + b)[1..] == a[1..] + b;
    }
  }

  lemma {:induction false} AtRange(tree: seq<Chunk>, i: nat)
    requires Chunks(tree) && At(tree, i).Some?
    ensures tree != [] && tree[0].offset <= i < tree[|tree| - 1].End()
  {
    if !(tree[0].offset <= i < tree[0].End()) {
      AtRange(tree[1..], i);
      assert tree[0].End() <= tree[1].offset;
    } else if |tree| > 1 {
      assert tree[0].End() <= tree[|tree| - 1].offset;
    }
  }

  lemma {:induction false} AtNode(tree: seq<Chunk>, k: nat, i: nat)
    requires Chunks(tree) && k < |tree| && tree[k].offset <= i < tree[k].End()
    ensures At(tree, i) == DataAt(tree[k].offset, tree[k].data, i)
  {
    if k > 0 {
      assert tree[0].End() <= tree[k].offset;
      AtNode(tree[1..], k - 1, i);
    }
  }

  /** A chunk that fits in a gap adds its bytes and nothing else. */
  lemma InsertAt(tree: seq<Chunk>, j: nat, c: Chunk, i: nat)
    requires Chunks(tree) && j <= |tree| && c.data != []
    requires j > 0 ==> tree[j - 1].End() <= c.offset
    requires j < |tree| ==> c.End() <= tree[j].offset
    ensures var t := tree[..j] + [c] + tree[j..];
            if c.offset <= i < c.End() then At(t, i) == DataAt(c.offset, c.data, i) && At(tree, i) == None
            else At(t, i) == At(tree, i)
  {
    hide At;
    var a, b := tree[..j], tree[j..];
    assert tree == a + b;
    AtConcat(a + [c], b, i);
    AtConcat(a, [c], i);
    AtConcat(a, b, i);
    AtNode1(c, i);
    if At(a, i).Some? {
      AtRange(a, i);
    }
    if At(b, i).Some? {
      AtRange(b, i);
    }
  }

  lemma AtNode1(c: Chunk, i: nat)
    ensures At([c], i) == DataAt(c.offset, c.data, i)
  {
  }

  lemma InsertSorted(tree: seq<Chunk>, j: nat, c: Chunk)
    requires Chunks(tree) && j <= |tree| && c.data != []
    requires j > 0 ==> tree[j - 1].End() <= c.offset
    requires j < |tree| ==> c.End() <= tree[j].offset
    ensures Insert(tree, c) == tree[..j] + [c] + tree[j..]
    ensures Chunks(tree[..j] + [c] + tree[j..])
  {
    hide CountUpTo;
    InsertPlace(tree, j, c);
    var t := tree[..j] + [c] + tree[j..];
    forall p, q | 0 <= p < q < |t|
      ensures t[p].End() <= t[q].offset
    {
      if q == j && p < j - 1 {
        assert tree[p].End() <= tree[j - 1].offset;
      }
      if p == j && q > j + 1 {
        assert tree[j].End() <= tree[q - 1].offset;
      }
    }
  }

  lemma InsertPlace(tree: seq<Chunk>, j: nat, c: Chunk)
    requires Chunks(tree) && j <= |tree| && c.data != []
    requires j > 0 ==> tree[j - 1].End() <= c.offset
    requires j < |tree| ==> c.End() <= tree[j].offset
    ensures CountUpTo(tree, c.offset) == j
  {
    hide CountUpTo;
    forall p | 0 <= p < j
      ensures tree[p].offset <= c.offset
    {
      assert p < j - 1 ==> tree[p].End() <= tree[j - 1].offset;
    }
  }

  // ----- The stream

  class RecvConnection {
    var maxdataLocal: nat
    var dataReceived: nat

    ghost predicate Valid()
      reads this
    {
      dataReceived <= maxdataLocal < TWO_64
    }
  }

  datatype Error = NoError | FlowControlError | FinalOffsetError

  /** What the receiver knows of a stream. `delivered` is everything handed to the application. */
  datatype RecvView = RecvView(delivered: seq<byte>, tree: seq<Chunk>, finOffset: nat, finReceived: bool, finSignalled: bool) {
    /** The byte known for position `i`, delivered or waiting. */
    function Known(i: nat): Option<byte> {
      if i < |delivered| then Some(delivered[i]) else At(tree, i)
    }

    /** All that can be delivered has been: the next position is not known. */
    ghost predicate Valid() {
      && Chunks(tree)
      && (tree != [] ==> |delivered| < tree[0].offset)
      && |delivered| <= finOffset
      && (tree != [] ==> tree[|tree| - 1].End() <= finOffset)
      && (finSignalled ==> finReceived && |delivered| == finOffset)
    }
  }

  /** The receiver knew `v` and knows `v'` after a frame is accepted. A frame that starts at or before
      the delivered prefix replaces waiting bytes; any other frame only fills gaps. */
  ghost predicate Accepted(v: RecvView, v': RecvView, offset: nat, fin: bool, data: seq<byte>) {
    && v'.Valid()
    && v.delivered <= v'.delivered
    && (forall i :: |v.delivered| <= i ==>
          v'.Known(i) == (if offset <= |v.delivered|
                          then Either(DataAt(offset, data, i), v.Known(i))
                          else Either(v.Known(i), DataAt(offset, data, i))))
    && v'.finReceived == (v.finReceived || fin)
    && v'.finOffset == (if offset + |data| > v.finOffset then offset + |data| else v.finOffset)
    && v'.finSignalled == (if offset + |data| < |v.delivered| then v.finSignalled
                           else v'.finReceived && |v'.delivered| == v'.finOffset)
  }

  function Either<T>(a: Option<T>, b: Option<T>): Option<T> {
    if a.Some? then a else b
  }

  class RecvStream {
    var tree: seq<Chunk>
    var consumedOffset: nat
    var finOffset: nat
    var maxdataLocal: nat
    var finReceived: bool
    var finSignalled: bool
    // the data callbacks made so far: their bytes, and how many carried the FIN event
    var delivered: seq<byte>
    var finEvents: nat

    constructor (maxdataLocal: nat)
      requires maxdataLocal < TWO_64
      ensures Valid() && View() == RecvView([], [], 0, false, false)
      ensures this.maxdataLocal == maxdataLocal
    {
      tree, consumedOffset, finOffset := [], 0, 0;
      finReceived, finSignalled := false, false;
      delivered, finEvents := [], 0;
      this.maxdataLocal := maxdataLocal;
    }

    ghost function View(): RecvView
      reads this
    {
      RecvView(delivered, tree, finOffset, finReceived, finSignalled)
    }

    ghost predicate Counters()
      reads this
    {
      && consumedOffset == |delivered|
      && finEvents == (if finSignalled then 1 else 0)
    }

    ghost predicate Valid()
      reads this
    {
      Counters() && View().Valid()
    }

    /** `picoquic_stream_data_chunk_callback`, when the stream is neither discarded nor stopped. */
    method ChunkCallback(data: seq<byte>)
      requires Counters()
      modifies this`consumedOffset, this`finSignalled, this`delivered, this`finEvents
      ensures Counters()
      ensures delivered == old(delivered) + data
      ensures finSignalled == (old(finSignalled) || (finReceived && |delivered| >= finOffset))
    {
      var finNow := false;
      var callBackNeeded := data != [];
      consumedOffset := consumedOffset + |data|;
      if consumedOffset >= finOffset && finReceived && !finSignalled {
        finNow := true;
        finSignalled := true;
        callBackNeeded := true;
      }
      if callBackNeeded {
        delivered := delivered + data;
        finEvents := finEvents + (if finNow then 1 else 0);
      } else {
        assert delivered + data == delivered;
      }
    }

    /** `picoquic_queue_network_input`: the parts of the frame that are not yet known become chunks. */
    method QueueNetworkInput(offset: nat, data: seq<byte>) returns (newData: bool)
      requires Chunks(tree) && Below(tree, finOffset) && offset + |data| <= finOffset
      modifies this`tree
      ensures Chunks(tree) && Below(tree, finOffset)
      ensures Filled(old(tree), tree, consumedOffset, offset + |data|, offset, data)
      ensures !newData ==> tree == old(tree)
    {
      hide At, DataAt, Chunks, Insert, CountUpTo, Filled, Below, SplitAt;
      var inputEnd := offset + |data|;
      var frameOffset := offset;
      newData := false;
      if frameOffset < consumedOffset {
        frameOffset := consumedOffset;
      }
      ghost var begin, tree0 := frameOffset, tree;
      FilledNothing(tree, begin, MinNat(begin, inputEnd), offset, data);
      if frameOffset < inputEnd {
        var next: nat := CountUpTo(tree, frameOffset);
        if next > 0 {
          var prevEnd := tree[next - 1].End();
          if frameOffset < prevEnd {
            frameOffset := prevEnd;
          }
        }
        FilledCovered(tree, next, begin, frameOffset, inputEnd, offset, data);
        while frameOffset < inputEnd && next < |tree| && tree[next].offset < inputEnd
          invariant begin <= frameOffset && Chunks(tree) && Below(tree, finOffset)
          invariant SplitAt(tree, next, frameOffset)
          invariant Filled(tree0, tree, begin, MinNat(frameOffset, inputEnd), offset, data)
          invariant !newData ==> tree == tree0
          decreases |tree| - next
        {
          SplitAtFacts(tree, next, frameOffset);
          var gap := tree[next].offset - frameOffset;
          if gap > 0 {
            var c := Chunk(frameOffset, data[frameOffset - offset..tree[next].offset - offset]);
            FillGap(tree0, tree, next, begin, c, offset, data, finOffset);
            tree := Insert(tree, c);
            newData := true;
            next := next + 1;
          }
          ExtendOverNode(tree0, tree, next, begin, inputEnd, offset, data);
          frameOffset := tree[next].End();
          next := next + 1;
        }
        SplitAtFacts(tree, next, frameOffset);
        if frameOffset < inputEnd {
          var c := Chunk(frameOffset, data[frameOffset - offset..]);
          FillGap(tree0, tree, next, begin, c, offset, data, finOffset);
          tree := Insert(tree, c);
          newData := true;
          frameOffset := inputEnd;
        }
      }
      FilledFrom(tree0, tree, begin, consumedOffset, offset, data);
    }

    /** `picoquic_stream_data_callback`: delivers chunks as long as the first one starts in the delivered part. */
    method DataCallback()
      requires Counters() && Chunks(tree)
      requires |delivered| <= finOffset && (tree != [] ==> tree[|tree| - 1].End() <= finOffset)
      requires finSignalled ==> finReceived && |delivered| == finOffset
      modifies this`tree, this`consumedOffset, this`finSignalled, this`delivered, this`finEvents
      ensures Valid()
      ensures old(delivered) <= delivered
      ensures forall i :: |old(delivered)| <= i ==> View().Known(i) == old(View()).Known(i)
      ensures finSignalled == (finReceived && |delivered| == finOffset)
    {
      hide At, Chunks;
      ghost var v := View();
      while tree != [] && tree[0].offset <= consumedOffset
        invariant Counters() && Chunks(tree)
        invariant |delivered| <= finOffset && (tree != [] ==> tree[|tree| - 1].End() <= finOffset)
        invariant finSignalled ==> finReceived && |delivered| == finOffset
        invariant v.delivered <= delivered
        invariant forall i :: |v.delivered| <= i ==> View().Known(i) == v.Known(i)
        decreases |tree|
      {
        ghost var w := View();
        var data := tree[0];
        var start := consumedOffset - data.offset;
        FirstChunk(tree, finOffset);
        if |data.data| >= start {
          ChunkCallback(data.data[start..]);
        }
        tree := tree[1..];
        FirstChunkDelivered(w, View());
      }
      ChunkCallback([]);
      assert delivered + [] == delivered;
    }
  }

  /** The end of a frame is within the limit of its stream, and what it adds is within that of the connection. */
  predicate Admits(streamLimit: nat, limit: nat, received: nat, finOffset: nat, newFinOffset: nat) {
    newFinOffset <= streamLimit && (newFinOffset > finOffset ==> received + newFinOffset - finOffset <= limit)
  }

  /** `picoquic_flow_control_check_stream_offset`: a new largest offset is charged to the connection. */
  method FlowControlCheck(cnx: RecvConnection, stream: RecvStream, newFinOffset: nat) returns (ok: bool)
    requires cnx.Valid()
    modifies cnx`dataReceived, stream`finOffset
    ensures cnx.Valid()
    ensures ok <==> Admits(stream.maxdataLocal, cnx.maxdataLocal, old(cnx.dataReceived), old(stream.finOffset), newFinOffset)
    ensures stream.finOffset == if ok && newFinOffset > old(stream.finOffset) then newFinOffset else old(stream.finOffset)
    ensures cnx.dataReceived - stream.finOffset == old(cnx.dataReceived) - old(stream.finOffset)
  {
    ok := true;
    if newFinOffset > stream.maxdataLocal {
      ok := false;
    } else if newFinOffset > stream.finOffset {
      var newBytes := newFinOffset - stream.finOffset;
      // the comparison is written so that no intermediate result leaves the 64-bit range
      if newBytes > cnx.maxdataLocal || cnx.maxdataLocal - newBytes < cnx.dataReceived {
        ok := false;
      } else {
        cnx.dataReceived := cnx.dataReceived + newBytes;
        stream.finOffset := newFinOffset;
      }
    }
  }

  /** `picoquic_stream_network_input`, for a stream that exists and has no direct receive function. */
  method StreamNetworkInput(cnx: RecvConnection, stream: RecvStream, offset: nat, fin: bool, data: seq<byte>)
    returns (err: Error)
    requires cnx.Valid() && stream.Valid() && offset + |data| < TWO_62
    modifies cnx`dataReceived, stream
    ensures cnx.Valid()
    ensures cnx.dataReceived - stream.finOffset == old(cnx.dataReceived) - old(stream.finOffset)
    ensures stream.maxdataLocal == old(stream.maxdataLocal)
    ensures err == FinalOffsetError <==> (
      && old(stream.finReceived)
      && (if fin then offset + |data| != old(stream.finOffset) else offset + |data| > old(stream.finOffset)))
    ensures err == FlowControlError <==> (
      && !old(stream.finReceived) && offset + |data| > old(stream.finOffset)
      && !Admits(stream.maxdataLocal, cnx.maxdataLocal, old(cnx.dataReceived), old(stream.finOffset), offset + |data|))
    ensures err == NoError ==> stream.Valid() && Accepted(old(stream.View()), stream.View(), offset, fin, data)
    ensures err != NoError ==>
      stream.delivered == old(stream.delivered) && stream.tree == old(stream.tree) && stream.finOffset == old(stream.finOffset)
  {
    hide At, Chunks, Filled, Insert, CountUpTo, DataAt, Either;
    var newFinOffset := offset + |data|;
    var shouldNotify := false;
    if stream.finReceived {
      if if fin then stream.finOffset != newFinOffset else newFinOffset > stream.finOffset {
        return FinalOffsetError;
      }
    } else {
      if fin {
        stream.finReceived := true;
        shouldNotify := true;
      }
      if newFinOffset > stream.finOffset {
        var ok := FlowControlCheck(cnx, stream, newFinOffset);
        if !ok {
          return FlowControlError;
        }
      }
    }
    Deliver(stream, offset, data, shouldNotify);
    return NoError;
  }

  /** The second half: the data are delivered at once if they are in sequence, and queued otherwise. */
  method Deliver(stream: RecvStream, offset: nat, data: seq<byte>, notify: bool)
    requires stream.Valid() && offset + |data| <= stream.finOffset
    modifies stream`tree, stream`consumedOffset, stream`finSignalled, stream`delivered, stream`finEvents
    ensures stream.Valid() && old(stream.delivered) <= stream.delivered
    ensures forall i :: |old(stream.delivered)| <= i ==>
              stream.View().Known(i) == (if offset <= |old(stream.delivered)|
                                         then Either(DataAt(offset, data, i), old(stream.View()).Known(i))
                                         else Either(old(stream.View()).Known(i), DataAt(offset, data, i)))
    ensures stream.finSignalled == (if offset + |data| < |old(stream.delivered)| then old(stream.finSignalled)
                                    else stream.finReceived && |stream.delivered| == stream.finOffset)
  {
    hide At, Chunks, Filled, Insert, CountUpTo;
    ghost var v := stream.View();
    if stream.consumedOffset >= offset {
      if offset + |data| >= stream.consumedOffset {
        // arrival of in-sequence bytes
        var deliveredIndex := stream.consumedOffset - offset;
        stream.ChunkCallback(data[deliveredIndex..]);
        InSequence(v, stream.View(), offset, data);
        stream.DataCallback();
      }
    } else {
      var newData := stream.QueueNetworkInput(offset, data);
      FilledKnown(v, stream.View(), offset, data);
      if newData || notify {
        stream.DataCallback();
      }
    }
  }

  /** Handing over the new part of an in-sequence frame. */
  lemma InSequence(v: RecvView, w: RecvView, offset: nat, data: seq<byte>)
    requires offset <= |v.delivered| <= offset + |data|
    requires w.delivered == v.delivered + data[|v.delivered| - offset..] && w.tree == v.tree
    ensures |w.delivered| == offset + |data|
    ensures forall i :: |v.delivered| <= i ==> w.Known(i) == Either(DataAt(offset, data, i), v.Known(i))
  {
  }

  lemma FilledKnown(v: RecvView, w: RecvView, offset: nat, data: seq<byte>)
    requires Filled(v.tree, w.tree, |v.delivered|, offset + |data|, offset, data)
    requires w.delivered == v.delivered
    ensures forall i :: |v.delivered| <= i ==> w.Known(i) == Either(v.Known(i), DataAt(offset, data, i))
  {
  }

  /** What `picoquic_queue_network_input` makes of a tree: it fills gaps at or after `from`. */
  ghost predicate Filled(tree: seq<Chunk>, tree': seq<Chunk>, from: nat, upTo: nat, offset: nat, data: seq<byte>) {
    forall i: nat :: At(tree', i) == if from <= i < upTo then Either(At(tree, i), DataAt(offset, data, i)) else At(tree, i)
  }

  ghost predicate Below(tree: seq<Chunk>, limit: nat) {
    tree != [] ==> tree[|tree| - 1].End() <= limit
  }

  /** The state of the loop: `tree'` has its first `j` nodes at or before `f` and the others at or after it. */
  ghost predicate SplitAt(tree: seq<Chunk>, j: nat, f: nat) {
    j <= |tree| && (j > 0 ==> tree[j - 1].End() <= f) && (j < |tree| ==> f <= tree[j].offset)
  }

  function MinNat(a: nat, b: nat): nat {
    if a < b then a else b
  }

  lemma SplitAtFacts(tree: seq<Chunk>, j: nat, f: nat)
    requires SplitAt(tree, j, f)
    ensures j <= |tree| && (j < |tree| ==> f <= tree[j].offset)
  {
  }

  lemma FilledNothing(tree: seq<Chunk>, from: nat, upTo: nat, offset: nat, data: seq<byte>)
    requires upTo <= from
    ensures Filled(tree, tree, from, upTo, offset, data)
  {
  }

  lemma FilledFrom(tree: seq<Chunk>, tree': seq<Chunk>, begin: nat, from: nat, offset: nat, data: seq<byte>)
    requires begin == if offset < from then from else offset
    requires Filled(tree, tree', begin, offset + |data|, offset, data)
    ensures Filled(tree, tree', from, offset + |data|, offset, data)
  {
  }

  /** Where the search starts, everything before `f` is covered by the previous chunk. */
  lemma FilledCovered(tree: seq<Chunk>, next: nat, begin: nat, f: nat, upTo: nat, offset: nat, data: seq<byte>)
    requires Chunks(tree) && next == CountUpTo(tree, begin)
    requires f == if next > 0 && begin < tree[next - 1].End() then tree[next - 1].End() else begin
    ensures SplitAt(tree, next, f)
    ensures Filled(tree, tree, begin, MinNat(f, upTo), offset, data)
  {
    hide At, CountUpTo;
    forall i: nat | begin <= i < MinNat(f, upTo)
      ensures At(tree, i).Some?
    {
      AtNode(tree, next - 1, i);
    }
    assert next > 0 && next < |tree| ==> tree[next - 1].End() <= tree[next].offset;
  }

  /** The chunk that starts where the frame is stops the frame from bringing anything new. */
  lemma ExtendOverNode(tree0: seq<Chunk>, tree: seq<Chunk>, next: nat, begin: nat, upTo: nat, offset: nat, data: seq<byte>)
    requires Chunks(tree) && next < |tree| && tree[next].offset < upTo
    requires Filled(tree0, tree, begin, tree[next].offset, offset, data)
    ensures Filled(tree0, tree, begin, MinNat(tree[next].End(), upTo), offset, data)
    ensures SplitAt(tree, next + 1, tree[next].End())
  {
    hide At;
    forall i: nat | tree[next].offset <= i < tree[next].End()
      ensures At(tree, i).Some? && At(tree, i) == At(tree0, i)
    {
      AtNode(tree, next, i);
    }
    assert next + 1 < |tree| ==> tree[next].End() <= tree[next + 1].offset;
  }

  /** A part of the frame becomes a chunk between two others. */
  lemma FillGap(tree0: seq<Chunk>, tree: seq<Chunk>, j: nat, begin: nat, c: Chunk, offset: nat, data: seq<byte>, limit: nat)
    requires Chunks(tree) && SplitAt(tree, j, c.offset) && Below(tree, limit)
    requires j < |tree| ==> c.End() <= tree[j].offset
    requires offset <= c.offset && c.End() <= offset + |data| <= limit
    requires begin <= c.offset < c.End() && c.data == data[c.offset - offset..c.End() - offset]
    requires Filled(tree0, tree, begin, c.offset, offset, data)
    ensures var t := Insert(tree, c);
            && Chunks(t) && Below(t, limit) && |t| == |tree| + 1
            && Filled(tree0, t, begin, c.End(), offset, data)
            && SplitAt(t, j + 1, c.End())
            && (j < |tree| ==> t[j + 1] == tree[j])
  {
    hide At, CountUpTo, Insert;
    InsertSorted(tree, j, c);
    var t := Insert(tree, c);
    forall i: nat
      ensures At(t, i) == if begin <= i < c.End() then Either(At(tree0, i), DataAt(offset, data, i)) else At(tree0, i)
    {
      InsertAt(tree, j, c, i);
    }
  }

  lemma FirstChunk(tree: seq<Chunk>, limit: nat)
    requires Chunks(tree) && tree != [] && tree[|tree| - 1].End() <= limit
    ensures tree[0].End() <= limit
  {
  }

  /** Moving the first chunk from the tree to the delivered part changes no known byte. */
  lemma FirstChunkDelivered(w: RecvView, v: RecvView)
    requires Chunks(w.tree) && w.tree != [] && w.tree[0].offset <= |w.delivered|
    requires v.tree == w.tree[1..]
    requires v.delivered == w.delivered
          + (if |w.delivered| <= w.tree[0].End() then w.tree[0].data[|w.delivered| - w.tree[0].offset..] else [])
    ensures forall i :: v.Known(i) == w.Known(i)
    ensures Chunks(v.tree) && (v.tree != [] ==> v.tree[|v.tree| - 1] == w.tree[|w.tree| - 1])
  {
  }
}
