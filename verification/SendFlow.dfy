/** Flow control on the sending side of picoquic/frames.c, over all streams of a connection (section 4.1 of
    RFC 9000). */
module SendFlow {
  import opened Varint
  import opened StreamFrames
  import opened StreamSender
  import RecvFlow

  function Total(s: seq<nat>): nat {
    if s == [] then 0 else Total(s[..|s| - 1]) + s[|s| - 1]
  }

  lemma {:induction false} TotalUpdate(s: seq<nat>, i: nat, v: nat)
    requires i < |s|
    ensures Total(s[i := v]) == Total(s) - s[i] + v
  {
    var n := |s| - 1;
    if i == n {
      assert s[i := v][..n] == s[..n];
    } else {
      TotalUpdate(s[..n], i, v);
      assert s[i := v][..n] == s[..n][i := v];
    }
  }

  lemma TotalAppend(s: seq<nat>, v: nat)
    ensures Total(s + [v]) == Total(s) + v
  {
  }

  /** The limit that the peer grants for a new stream: the one with which it receives. `p` holds the parameters of the
      peer, and which side this is. */
  function InitialLimit(p: RecvFlow.Params, id: nat): nat {
    RecvFlow.InitialLimit(p.(isClient := !p.isClient), id)
  }

  /** On the own bidirectional streams the peer receives as on remote ones, on its own as on local ones; nothing is sent
      on a unidirectional stream of the peer. */
  lemma InitialLimits(p: RecvFlow.Params, k: nat)
    ensures p.isClient ==>
      && InitialLimit(p, 4 * k) == p.bidiRemote as int && InitialLimit(p, 4 * k + 1) == p.bidiLocal as int
      && InitialLimit(p, 4 * k + 2) == p.uni as int && InitialLimit(p, 4 * k + 3) == 0
    ensures !p.isClient ==>
      && InitialLimit(p, 4 * k) == p.bidiLocal as int && InitialLimit(p, 4 * k + 1) == p.bidiRemote as int
      && InitialLimit(p, 4 * k + 2) == 0 && InitialLimit(p, 4 * k + 3) == p.uni as int
  {
    RecvFlow.InitialLimits(p.(isClient := !p.isClient), k);
  }

  /** All streams that were ever opened, and their connection. */
  class Sender {
    const cnx: SendConnection
    var streams: seq<SendStream>

    ghost function Offsets(): (s: seq<nat>)
      reads this, streams
      ensures |s| == |streams|
    {
      seq(|streams|, i requires 0 <= i < |streams| reads this, streams => streams[i].sentOffset)
    }

    /** The bytes counted for the connection are those of its streams, and no limit is exceeded: the differences that
        give the space allowed by flow control are not negative. */
    ghost predicate Valid()
      reads this, cnx, streams
    {
      && cnx.Valid()
      && (forall i :: 0 <= i < |streams| ==> streams[i].Valid())
      && (forall i, j :: 0 <= i < j < |streams| ==> streams[i] != streams[j])
      && cnx.dataSent == Total(Offsets())
    }

    constructor (maxdataRemote: nat)
      requires maxdataRemote < TWO_62
      ensures Valid() && streams == [] && fresh(cnx) && cnx.maxdataRemote == maxdataRemote
    {
      cnx := new SendConnection(maxdataRemote);
      streams := [];
    }

    method CreateStream(id: nat, params: RecvFlow.Params)
      requires Valid() && id < TWO_62 && InitialLimit(params, id) < TWO_62
      modifies this`streams
      ensures Valid() && |streams| == |old(streams)| + 1 && old(streams) <= streams && fresh(streams[|streams| - 1])
      ensures var s := streams[|streams| - 1];
              s.streamId == id && s.sentOffset == 0 && s.maxdataRemote == InitialLimit(params, id)
    {
      ghost var before := Offsets();
      var s := new SendStream(id, InitialLimit(params, id));
      streams := streams + [s];
      assert Offsets() == before + [0];
      TotalAppend(before, 0);
    }

    /** The state of the streams besides `i` and of the connection's limit does not change. */
    twostate predicate OnlyStream(i: nat)
      reads this, cnx, streams
    {
      && streams == old(streams) && i < |streams|
      && forall j :: 0 <= j < |streams| && j != i ==> unchanged(streams[j])
    }

    /** Whatever a frame carries is counted once for its stream and once for the connection. */
    method FormatFrame(i: nat, buf: array<byte>, pos: nat, max: nat, reply: Reply)
      returns (next: nat, moreData: bool, ghost seg: Segment)
      requires Valid() && i < |streams| && pos <= max <= buf.Length && max - pos < MAX_SPACE
      modifies cnx, streams[i], buf
      ensures Valid() && OnlyStream(i)
      ensures next == pos ==> unchanged(cnx) && unchanged(streams[i])
      ensures next != pos ==>
        && streams[i].sentOffset == old(streams[i].sentOffset) + |seg.data|
        && cnx.dataSent == old(cnx.dataSent) + |seg.data|
        && |seg.data| <= old(streams[i].maxdataRemote - streams[i].sentOffset)
        && |seg.data| <= old(cnx.maxdataRemote - cnx.dataSent)
    {
      hide SendStream.Valid, Total, Emitted, SameOutside;
      ghost var before := Offsets();
      next, moreData, seg := FormatStreamFrame(cnx, streams[i], buf, pos, max, reply);
      assert Offsets() == before[i := streams[i].sentOffset];
      TotalUpdate(before, i, streams[i].sentOffset);
    }

    /** `picoquic_decode_max_data_frame`: a limit only rises. */
    method DecodeMaxData(maxdata: nat)
      requires Valid() && maxdata < TWO_62
      modifies cnx
      ensures Valid() && cnx.dataSent == old(cnx.dataSent)
      ensures cnx.maxdataRemote == if maxdata > old(cnx.maxdataRemote) then maxdata else old(cnx.maxdataRemote)
    {
      hide SendStream.Valid, Total;
      ghost var before := Offsets();
      if maxdata > cnx.maxdataRemote {
        cnx.maxdataRemote := maxdata;
      }
      assert Offsets() == before;
    }

    /** `picoquic_decode_max_stream_data_frame`, once the stream is found or created */
    method DecodeMaxStreamData(i: nat, maxdata: nat)
      requires Valid() && i < |streams| && maxdata < TWO_62
      modifies streams[i]
      ensures Valid() && OnlyStream(i) && streams[i].sentOffset == old(streams[i].sentOffset)
      ensures streams[i].maxdataRemote
           == if maxdata > old(streams[i].maxdataRemote) then maxdata else old(streams[i].maxdataRemote)
    {
      hide Total;
      ghost var before := Offsets();
      if maxdata > streams[i].maxdataRemote {
        streams[i].maxdataRemote := maxdata;
      }
      assert Offsets() == before;
    }

    /** `picoquic_update_stream_initial_remote`: the parameters of the peer apply to the streams that were opened
        before they were known. */
    method UpdateInitialRemote(params: RecvFlow.Params)
      requires Valid() && params.bidiLocal < TWO_62 && params.bidiRemote < TWO_62 && params.uni < TWO_62
      modifies streams
      ensures Valid() && streams == old(streams) && cnx.dataSent == old(cnx.dataSent)
      ensures forall j :: 0 <= j < |streams| ==>
        && streams[j].sentOffset == old(streams[j].sentOffset)
        && var limit, before := InitialLimit(params, streams[j].streamId), old(streams[j].maxdataRemote);
           streams[j].maxdataRemote == if limit > before then limit else before
    {
      hide Total, SendStream.Valid, InitialLimit;
      ghost var before := Offsets();
      var i := 0;
      while i < |streams|
        invariant i <= |streams| && streams == old(streams)
        invariant forall j :: 0 <= j < |streams| ==>
          streams[j].Valid() && streams[j].sentOffset == old(streams[j].sentOffset)
        invariant forall j :: 0 <= j < i ==>
          streams[j].maxdataRemote == Max(old(streams[j].maxdataRemote), InitialLimit(params, streams[j].streamId))
        invariant forall j :: i <= j < |streams| ==> streams[j].maxdataRemote == old(streams[j].maxdataRemote)
      {
        LimitBelow(params, streams[i].streamId);
        Raise(streams[i], InitialLimit(params, streams[i].streamId));
        i := i + 1;
      }
      assert Offsets() == before;
    }
  }

  function Max(a: nat, b: nat): nat {
    if a < b then b else a
  }

  lemma LimitBelow(params: RecvFlow.Params, id: nat)
    requires params.bidiLocal < TWO_62 && params.bidiRemote < TWO_62 && params.uni < TWO_62
    ensures InitialLimit(params, id) < TWO_62
  {
  }

  method Raise(stream: SendStream, limit: nat)
    requires stream.Valid() && limit < TWO_62
    modifies stream`maxdataRemote
    ensures stream.Valid() && stream.maxdataRemote == Max(old(stream.maxdataRemote), limit)
  {
    if stream.maxdataRemote < limit {
      stream.maxdataRemote := limit;
    }
  }
}
