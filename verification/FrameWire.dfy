/** Every kind of frame as it is written, and what the walkers of picoquic/frames.c make of it: which frames are accepted
    in which packets (section 12.4 of RFC 9000), where they end, and which ask for an acknowledgement. Types are given as
    the numbers of the standard. */
module FrameWire {
  import opened Wrappers
  import opened Varint
  import opened FrameWalkers
  import StreamFrames
  import AckFrames
  import SackList
  import Datagram

  datatype Frame =
    | Run(t: byte, count: nat)                                                 // PADDING, PING
    | Stream(seg: StreamFrames.Segment, hasLength: bool)
    | Ack(delay: nat, top: SackList.Range, ranges: seq<SackList.Range>, ecn: Option<AckFrames.EcnCounts>)
    | AckMp(pathId: nat, delay: nat, top: SackList.Range, ranges: seq<SackList.Range>, ecn: Option<AckFrames.EcnCounts>)
    | Plain(t: byte, fields: seq<nat>)                                         // integers only
    | WithData(t: byte, fields: seq<nat>, data: seq<byte>)                     // integers, a length and data
    | Fixed(t: byte, data: seq<byte>)                                          // no integers
    | NewConnectionId(sequence: nat, retire: nat, cid: seq<byte>, secret: seq<byte>)
    | Message(data: seq<byte>, hasLength: bool)                                // DATAGRAM
    | AckFrequency(fields: seq<nat>, flag: byte)
    | TimeStamp(time: nat)
    | PathAbandon(path: seq<nat>, error: nat, data: seq<byte>)
    | Bdp(fields: seq<nat>, address: seq<byte>)

  function Fields(ns: seq<nat>): seq<byte> {
    if ns == [] then [] else Encoding(ns[0]) + Fields(ns[1..])
  }

  function Data(data: seq<byte>): seq<byte> {
    Encoding(|data|) + data
  }

  function Repeated(t: byte, n: nat): (s: seq<byte>)
    ensures |s| == n
  {
    seq(n, _ => t)
  }

  function Wire(f: Frame): seq<byte>
    requires WellFormed(f)
  {
    match f
    case Run(t, n) => Repeated(t, n)
    case Stream(seg, hasLength) => StreamFrames.FrameBytes(seg, hasLength)
    case Ack(delay, top, ranges, ecn) => AckFrames.AckBytes(delay, top, ranges, ecn)
    case AckMp(path, delay, top, ranges, ecn) =>
      Encoding(if ecn.Some? then 0xbaba01 else 0xbaba00) + (Fields([path, top.hi, delay, |ranges|]) + AckTail(top, ranges, ecn))
    case Plain(t, ns) => [t] + Fields(ns)
    case WithData(t, ns, data) => [t] + (Fields(ns) + Data(data))
    case Fixed(t, data) => [t] + data
    case NewConnectionId(sequence, retire, cid, secret) => [0x18] + (Fields([sequence, retire]) + ([|cid|] + (cid + secret)))
    case Message(data, hasLength) => (if hasLength then [0x31] + Encoding(|data|) else [0x30]) + data
    case AckFrequency(ns, flag) => Encoding(0xaf) + (Fields(ns) + [flag])
    case TimeStamp(time) => Encoding(757) + Fields([time])
    case PathAbandon(path, error, data) => Encoding(0xbaba05) + (Fields(path + [error]) + Data(data))
    case Bdp(ns, address) => Encoding(0xebd9) + (Fields(ns) + Data(address))
  }

  function AckTail(top: SackList.Range, ranges: seq<SackList.Range>, ecn: Option<AckFrames.EcnCounts>): seq<byte>
    requires top.lo <= top.hi && AckFrames.Descending(top.lo, ranges)
  {
    Encoding(top.hi - top.lo) + AckFrames.Blocks(top.lo, ranges) + AckFrames.EcnBytes(ecn)
  }

  /** The number of integers behind a type */
  function PlainFields(t: byte): Option<nat> {
    if t == 0x04 then Some(3)                                                  // RESET_STREAM
    else if t == 0x05 then Some(2)                                             // STOP_SENDING
    else if t == 0x10 then Some(1)                                             // MAX_DATA
    else if t == 0x11 then Some(2)                                             // MAX_STREAM_DATA
    else if t == 0x12 || t == 0x13 then Some(1)                                // MAX_STREAMS
    else if t == 0x14 then Some(1)                                             // DATA_BLOCKED
    else if t == 0x15 then Some(2)                                             // STREAM_DATA_BLOCKED
    else if t == 0x16 || t == 0x17 then Some(1)                                // STREAMS_BLOCKED
    else if t == 0x19 then Some(1)                                             // RETIRE_CONNECTION_ID
    else None
  }

  function DataFields(t: byte): Option<nat> {
    if t == 0x06 then Some(1)                                                  // CRYPTO
    else if t == 0x07 then Some(0)                                             // NEW_TOKEN
    else if t == 0x1c then Some(2)                                             // CONNECTION_CLOSE of the transport
    else if t == 0x1d then Some(1)                                             // CONNECTION_CLOSE of the application
    else None
  }

  /** PATH_CHALLENGE and PATH_RESPONSE hold eight bytes, HANDSHAKE_DONE holds none. */
  function FixedLength(t: byte): Option<nat> {
    if t == 0x1a || t == 0x1b then Some(8) else if t == 0x1e then Some(0) else None
  }

  predicate Small(ns: seq<nat>) {
    forall k :: 0 <= k < |ns| ==> ns[k] < TWO_62
  }

  predicate WellFormed(f: Frame) {
    match f
    case Run(t, n) => (t == 0x00 || t == 0x01) && n > 0
    case Stream(seg, _) => seg.InRange()
    case Ack(delay, top, ranges, ecn) =>
      && top.lo <= top.hi && AckFrames.Descending(top.lo, ranges) && |ranges| <= 32
      && AckFrames.InRange(delay, top, ecn)
    case AckMp(path, delay, top, ranges, ecn) =>
      && path < TWO_62 && top.lo <= top.hi && AckFrames.Descending(top.lo, ranges) && |ranges| < TWO_62
      && AckFrames.InRange(delay, top, ecn)
    case Plain(t, ns) => PlainFields(t) == Some(|ns|) && Small(ns)
    case WithData(t, ns, data) => DataFields(t) == Some(|ns|) && Small(ns) && |data| < TWO_62
    case Fixed(t, data) => FixedLength(t) == Some(|data|)
    case NewConnectionId(sequence, retire, cid, secret) =>
      sequence < TWO_62 && retire < TWO_62 && |cid| < 256 && |secret| == 16
    case Message(data, _) => |data| < TWO_62
    case AckFrequency(ns, _) => |ns| == 3 && Small(ns)
    case TimeStamp(time) => time < TWO_62
    case PathAbandon(path, error, data) =>
      && (path == [2] || (|path| == 2 && (path[0] == 0 || path[0] == 1))) && Small(path)
      && error < TWO_62 && |data| < TWO_62
    case Bdp(ns, address) => |ns| == 3 && Small(ns) && (|address| == 4 || |address| == 16)
  }

  /** What can follow: a frame without a length ends the packet, and a run does not go on. */
  predicate CanFollow(f: Frame, rest: seq<byte>) {
    match f
    case Run(t, _) => rest == [] || rest[0] != t
    case Stream(_, hasLength) => hasLength || rest == []
    case Message(_, hasLength) => hasLength || rest == []
    case _ => true
  }

  /** The packets in which a frame may be. In 0-RTT packets, which only a server receives, those of section 12.5 of
      RFC 9000 are refused: ACK, CRYPTO, NEW_TOKEN, RETIRE_CONNECTION_ID, PATH_RESPONSE, HANDSHAKE_DONE. */
  predicate MayBeIn(f: Frame, env: Env) {
    var e := env.epoch;
    match f
    case Run(_, _) => true
    case Stream(_, _) => e == ZeroRtt || e == OneRtt
    case Ack(_, _, _, _) => e == Initial || e == Handshake || e == OneRtt
    case AckMp(_, _, _, _, _) => e == OneRtt
    case Plain(t, _) => e == OneRtt || (e == ZeroRtt && t != 0x19)
    case WithData(t, _, _) =>
      if t == 0x06 then e == Initial || e == Handshake || e == OneRtt
      else if t == 0x07 then e == OneRtt
      else if t == 0x1c then true
      else e == ZeroRtt || e == OneRtt
    case Fixed(t, _) => e == OneRtt || (e == ZeroRtt && t == 0x1a)
    case Bdp(_, _) => if env.isClient then e == OneRtt && env.isBdpEnabled else e == ZeroRtt || e == OneRtt
    case _ => e == ZeroRtt || e == OneRtt
  }

  /** All but these are acknowledged at once: PADDING, ACK, PATH_CHALLENGE, PATH_RESPONSE, TIME_STAMP. */
  predicate AsksForAck(f: Frame) {
    match f
    case Run(t, _) => t == 0x01
    case Ack(_, _, _, _) => false
    case AckMp(_, _, _, _, _) => false
    case Fixed(t, _) => t == 0x1e
    case TimeStamp(_) => false
    case _ => true
  }

  // ----- Reading what was written

  lemma ReadField(s: seq<byte>, i: nat, n: nat, tail: seq<byte>)
    requires i <= |s| && s[i..] == Encoding(n) + tail && n < TWO_62
    ensures VarintDecode(s, i) == Some((n, i + |Encoding(n)|)) && VarintSkip(s, i) == Some(i + |Encoding(n)|)
    ensures i + |Encoding(n)| <= |s| && s[i + |Encoding(n)|..] == tail
  {
    AckFrames.DecodeAt(s, i, n, tail);
  }

  lemma {:induction false} ReadFields(s: seq<byte>, i: nat, ns: seq<nat>, tail: seq<byte>)
    requires i <= |s| && s[i..] == Fields(ns) + tail && Small(ns)
    ensures DecodeVarints(s, i, |ns|) == Some(i + |Fields(ns)|)
    ensures i + |Fields(ns)| <= |s| && s[i + |Fields(ns)|..] == tail
    ensures ns != [] ==> VarintDecode(s, i).Some? && VarintDecode(s, i).value.0 == ns[0]
    decreases |ns|
  {
    hide Encoding, VarintDecode, VarintSkip;
    if ns != [] {
      assert Fields(ns) + tail == Encoding(ns[0]) + (Fields(ns[1..]) + tail);
      ReadField(s, i, ns[0], Fields(ns[1..]) + tail);
      ReadFields(s, i + |Encoding(ns[0])|, ns[1..], tail);
    } else {
      assert Fields(ns) + tail == tail;
    }
  }

  lemma ReadData(s: seq<byte>, i: nat, data: seq<byte>, tail: seq<byte>)
    requires i <= |s| && s[i..] == Data(data) + tail && |data| < TWO_62
    ensures LengthDataSkip(s, i) == Some(i + |Data(data)|)
    ensures VarintDecode(s, i) == Some((|data|, i + |Encoding(|data|)|))
  {
    hide Encoding, VarintDecode;
    assert Data(data) + tail == Encoding(|data|) + (data + tail);
    ReadField(s, i, |data|, data + tail);
  }

  lemma {:induction false} RunEnds(t: byte, n: nat, rest: seq<byte>, i: nat)
    requires i <= n && (rest == [] || rest[0] != t)
    ensures RunEnd(Repeated(t, n) + rest, i, t) == n
    decreases n - i
  {
    var s := Repeated(t, n) + rest;
    if i < n {
      assert s[i] == t;
      RunEnds(t, n, rest, i + 1);
    } else {
      assert rest != [] ==> s[n] == rest[0];
    }
  }

  // ----- One frame

  lemma RunDecoded(t: byte, n: nat, rest: seq<byte>, env: Env)
    requires (t == 0x00 || t == 0x01) && n > 0 && (rest == [] || rest[0] != t)
    ensures FrameWalkers.Decode(Repeated(t, n) + rest, env) == Some(n)
  {
    var s := Repeated(t, n) + rest;
    assert s[0] == t;
    RunEnds(t, n, rest, 1);
  }

  lemma PlainDecoded(t: byte, ns: seq<nat>, rest: seq<byte>, env: Env)
    requires WellFormed(Plain(t, ns))
    ensures FrameWalkers.Decode([t] + Fields(ns) + rest, env) == if MayBeIn(Plain(t, ns), env) then Some(1 + |Fields(ns)|) else None
  {
    hide VarintSkip, VarintDecode, Fields, DecodeVarints;
    var s := [t] + Fields(ns) + rest;
    assert s[1..] == Fields(ns) + rest;
    ReadFields(s, 1, ns, rest);
    PlainReads(s, t, |ns|, env);
  }

  /** The decoders of frames of integers read as many of them. */
  lemma PlainReads(s: seq<byte>, t: byte, n: nat, env: Env)
    requires s != [] && s[0] == t && PlainFields(t) == Some(n)
    ensures FrameWalkers.Decode(s, env)
         == if env.epoch == OneRtt || (env.epoch == ZeroRtt && t != 0x19) then DecodeVarints(s, 1, n) else None
  {
    hide VarintSkip, VarintDecode, DecodeVarints, SkipVarints;
  }

  lemma WithDataDecoded(t: byte, ns: seq<nat>, data: seq<byte>, rest: seq<byte>, env: Env)
    requires WellFormed(WithData(t, ns, data))
    ensures var w := [t] + (Fields(ns) + Data(data));
            FrameWalkers.Decode(w + rest, env) == if MayBeIn(WithData(t, ns, data), env) then Some(|w|) else None
  {
    hide VarintSkip, VarintDecode, LengthDataSkip, Encoding, Data;
    var w := [t] + (Fields(ns) + Data(data));
    var s := w + rest;
    assert s[1..] == Fields(ns) + (Data(data) + rest);
    ReadFields(s, 1, ns, Data(data) + rest);
    ReadData(s, 1 + |Fields(ns)|, data, rest);
    WithDataFields(s, t, |ns|);
  }

  /** The decoders of frames with data read as many integers, a length and the data. */
  lemma WithDataFields(s: seq<byte>, t: byte, n: nat)
    requires s != [] && s[0] == t && DataFields(t) == Some(n) && DecodeVarints(s, 1, n).Some?
    ensures forall env: Env :: FrameWalkers.Decode(s, env) == if Allowed(t, env.epoch) then LengthDataSkip(s, DecodeVarints(s, 1, n).value) else None
  {
    hide VarintSkip, VarintDecode;
    assert n == 2 ==> DecodeVarints(s, 1, 1).Some?;
  }

  lemma FixedDecoded(t: byte, data: seq<byte>, rest: seq<byte>, env: Env)
    requires WellFormed(Fixed(t, data))
    ensures FrameWalkers.Decode([t] + data + rest, env) == if MayBeIn(Fixed(t, data), env) then Some(1 + |data|) else None
  {
    hide VarintDecode;
  }

  lemma NewConnectionIdDecoded(f: Frame, rest: seq<byte>, env: Env)
    requires f.NewConnectionId? && WellFormed(f)
    ensures Wire(f) != [] && FrameWalkers.Decode(Wire(f) + rest, env) == if MayBeIn(f, env) then Some(|Wire(f)|) else None
  {
    hide VarintDecode, VarintSkip, Encoding, Fields, ParseNewConnectionId, FrameWalkers.Decode, DecodeVarints;
    var ns, tail := [f.sequence, f.retire], [|f.cid|] + (f.cid + f.secret);
    assert Wire(f) == [0x18] + (Fields(ns) + tail);
    hide Wire;
    var s := Wire(f) + rest;
    assert s[1..] == Fields(ns) + (tail + rest);
    ReadFields(s, 1, ns, tail + rest);
    ConnectionIdRead(s, 1 + |Fields(ns)|, |f.cid|);
    DecodesConnectionId(s, env);
  }

  lemma DecodesConnectionId(s: seq<byte>, env: Env)
    requires s != [] && s[0] == 0x18
    ensures FrameWalkers.Decode(s, env)
         == if env.epoch == ZeroRtt || env.epoch == OneRtt then ParseNewConnectionId(s) else None
  {
    hide VarintDecode;
  }

  lemma ConnectionIdRead(s: seq<byte>, i: nat, length: byte)
    requires s != [] && DecodeVarints(s, 1, 2) == Some(i) && i < |s| && s[i] == length && i + 1 + length + 16 <= |s|
    ensures ParseNewConnectionId(s) == Some(i + 1 + length + 16)
  {
    hide VarintDecode, VarintSkip;
    TwoFields(s, 1);
  }

  lemma TwoFields(s: seq<byte>, i: nat)
    requires i <= |s| && DecodeVarints(s, i, 2).Some?
    ensures VarintDecode(s, i).Some? && VarintDecode(s, VarintDecode(s, i).value.1).Some?
    ensures VarintDecode(s, VarintDecode(s, i).value.1).value.1 == DecodeVarints(s, i, 2).value
  {
    hide VarintDecode, VarintSkip;
    assert DecodeVarints(s, VarintDecode(s, i).value.1, 1).Some?;
  }

  lemma StreamDecoded(seg: StreamFrames.Segment, hasLength: bool, rest: seq<byte>, env: Env)
    requires seg.InRange() && (hasLength || rest == [])
    ensures var w := StreamFrames.FrameBytes(seg, hasLength);
            && w != []
            && FrameWalkers.Decode(w + rest, env) == if env.epoch == ZeroRtt || env.epoch == OneRtt then Some(|w|) else None
  {
    hide StreamFrames.FrameBytes, StreamFrames.ParseHeader, VarintDecode;
    StreamFrames.ParseFrame(seg, hasLength, rest);
    StreamFrames.FrameFields(seg, hasLength, rest);
    assert |StreamFrames.FrameBytes(seg, hasLength)| == StreamFrames.FrameSize(seg, hasLength);
  }

  lemma MessageDecoded(data: seq<byte>, hasLength: bool, rest: seq<byte>, env: Env)
    requires |data| < TWO_62 && (hasLength || rest == [])
    ensures var w := Wire(Message(data, hasLength));
            && w != []
            && FrameWalkers.Decode(w + rest, env) == if env.epoch == ZeroRtt || env.epoch == OneRtt then Some(|w|) else None
  {
    hide Encoding, Datagram.ParseDatagram, VarintDecode;
    Datagram.DatagramRoundTrip(data, hasLength, rest);
    assert Wire(Message(data, hasLength)) == Datagram.DatagramBytes(data, hasLength);
  }

  lemma AckDecoded(f: Frame, rest: seq<byte>, env: Env)
    requires f.Ack? && WellFormed(f)
    ensures Wire(f) != [] && FrameWalkers.Decode(Wire(f) + rest, env) == if MayBeIn(f, env) then Some(|Wire(f)|) else None
  {
    hide AckFrames.AckBytes, AckFrames.DecodeAck, WalkAck, VarintDecode, AckFrames.Descending;
    var w := Wire(f);
    AckFrames.AckNotEmpty(f.delay, f.top, f.ranges, f.ecn);
    AckFrames.AckRoundTrip(f.delay, f.top, f.ranges, f.ecn, rest);
    AckType(f.delay, f.top, f.ranges, f.ecn);
    assert (w + rest)[0] == w[0];
    WalkAckIsDecodeAck(w + rest, env.knownRemote);
  }

  lemma AckType(delay: nat, top: SackList.Range, ranges: seq<SackList.Range>, ecn: Option<AckFrames.EcnCounts>)
    requires top.lo <= top.hi && AckFrames.Descending(top.lo, ranges) && |ranges| <= 32
    ensures var w := AckFrames.AckBytes(delay, top, ranges, ecn); w != [] && w[0] == if ecn.Some? then 0x03 else 0x02
  {
  }

  // ----- Types of several bytes

  /** Such a frame starts with its type, and no type of one byte is meant. */
  lemma ExtendedDecoded(id: nat, body: seq<byte>, env: Env)
    requires 64 <= id < TWO_62
    ensures var s := Encoding(id) + body;
            && s != [] && |Encoding(id)| > 0 && s[|Encoding(id)|..] == body
            && FrameWalkers.Decode(s, env)
            == (if env.epoch == ZeroRtt || env.epoch == OneRtt then DecodeExtended(s, id, |Encoding(id)|, env) else None)
  {
    hide DecodeExtended, VarintDecode, VarintSkip;
    var s := Encoding(id) + body;
    assert s[0..] == s;
    LongType(id);
    ReadField(s, 0, id, body);
  }

  lemma LongType(id: nat)
    requires 64 <= id < TWO_62
    ensures |Encoding(id)| > 0 && Encoding(id)[0] >= 64
  {
    hide Encoding;
    EncodingBytes(id);
  }

  lemma AckFrequencyDecoded(f: Frame, rest: seq<byte>, env: Env)
    requires f.AckFrequency? && WellFormed(f)
    ensures Wire(f) != [] && FrameWalkers.Decode(Wire(f) + rest, env) == if MayBeIn(f, env) then Some(|Wire(f)|) else None
  {
    hide VarintDecode, VarintSkip, Encoding, DecodeVarints, FrameWalkers.Decode;
    var t := Encoding(0xaf);
    var s := Wire(f) + rest;
    assert s == t + (Fields(f.fields) + ([f.flag] + rest));
    ExtendedDecoded(0xaf, Fields(f.fields) + ([f.flag] + rest), env);
    ReadFields(s, |t|, f.fields, [f.flag] + rest);
  }

  lemma TimeStampDecoded(f: Frame, rest: seq<byte>, env: Env)
    requires f.TimeStamp? && WellFormed(f)
    ensures Wire(f) != [] && FrameWalkers.Decode(Wire(f) + rest, env) == if MayBeIn(f, env) then Some(|Wire(f)|) else None
  {
    hide VarintDecode, VarintSkip, Encoding, DecodeVarints, FrameWalkers.Decode;
    var t := Encoding(757);
    var s := Wire(f) + rest;
    assert s == t + (Fields([f.time]) + rest);
    ExtendedDecoded(757, Fields([f.time]) + rest, env);
    ReadFields(s, |t|, [f.time], rest);
  }

  lemma BdpDecoded(f: Frame, rest: seq<byte>, env: Env)
    requires f.Bdp? && WellFormed(f)
    ensures Wire(f) != [] && FrameWalkers.Decode(Wire(f) + rest, env) == if MayBeIn(f, env) then Some(|Wire(f)|) else None
  {
    hide VarintDecode, VarintSkip, Encoding, DecodeVarints, FrameWalkers.Decode, Data, LengthDataSkip;
    var t := Encoding(0xebd9);
    var s := Wire(f) + rest;
    assert s == t + (Fields(f.fields) + (Data(f.address) + rest));
    ExtendedDecoded(0xebd9, Fields(f.fields) + (Data(f.address) + rest), env);
    ReadFields(s, |t|, f.fields, Data(f.address) + rest);
    ReadData(s, |t| + |Fields(f.fields)|, f.address, rest);
    DataSize(f.address);
  }

  lemma DataSize(data: seq<byte>)
    ensures |Data(data)| == |Encoding(|data|)| + |data|
  {
  }

  lemma PathAbandonDecoded(f: Frame, rest: seq<byte>, env: Env)
    requires f.PathAbandon? && WellFormed(f)
    ensures Wire(f) != [] && FrameWalkers.Decode(Wire(f) + rest, env) == if MayBeIn(f, env) then Some(|Wire(f)|) else None
  {
    hide VarintDecode, VarintSkip, Encoding, FrameWalkers.Decode, Data, LengthDataSkip;
    var t, ns := Encoding(0xbaba05), f.path + [f.error];
    var s := Wire(f) + rest;
    assert s == t + (Fields(ns) + (Data(f.data) + rest));
    ExtendedDecoded(0xbaba05, Fields(ns) + (Data(f.data) + rest), env);
    ReadFields(s, |t|, ns, Data(f.data) + rest);
    ReadData(s, |t| + |Fields(ns)|, f.data, rest);
    PathRead(s, |t|, f.path);
  }

  /** Two kinds of path identifiers are followed by a number. */
  lemma PathRead(s: seq<byte>, i: nat, path: seq<nat>)
    requires i <= |s| && (path == [2] || (|path| == 2 && (path[0] == 0 || path[0] == 1)))
    requires VarintDecode(s, i).Some? && VarintDecode(s, i).value.0 == path[0]
    requires DecodeVarints(s, i, |path| + 1).Some?
    ensures ParsePathIdentifier(s, i).Some? && VarintDecode(s, ParsePathIdentifier(s, i).value).Some?
    ensures VarintDecode(s, ParsePathIdentifier(s, i).value).value.1 == DecodeVarints(s, i, |path| + 1).value
  {
    hide VarintDecode, VarintSkip;
    var j := VarintDecode(s, i).value.1;
    assert DecodeVarints(s, j, |path|).Some?;
    if |path| == 2 {
      assert DecodeVarints(s, VarintDecode(s, j).value.1, 1).Some?;
    }
  }

  lemma AckMpDecoded(f: Frame, rest: seq<byte>, env: Env)
    requires f.AckMp? && WellFormed(f)
    ensures Wire(f) != [] && FrameWalkers.Decode(Wire(f) + rest, env) == if MayBeIn(f, env) then Some(|Wire(f)|) else None
  {
    hide VarintDecode, Encoding, FrameWalkers.Decode, WalkAck, Wire, WellFormed;
    var id := if f.ecn.Some? then 0xbaba01 else 0xbaba00;
    var body := LongBody(f);
    var s := Wire(f) + rest;
    assert s == Encoding(id) + (body + rest);
    ExtendedDecoded(id, body + rest, env);
    AckMpWalked(f, rest, env.knownRemote);
  }

  /** Whether or not the path is known, the frame ends at the same place. */
  lemma AckMpWalked(f: Frame, rest: seq<byte>, known: nat -> bool)
    requires f.AckMp? && WellFormed(f)
    ensures var s := Wire(f) + rest; s != [] && WalkAck(s, f.ecn.Some?, true, known) == Some(|Wire(f)|)
  {
    hide Encoding, Fields, AckTail, AckFrames.Descending, ParseAckHeader, SkipAck, AckFrames.DecodeRanges, DecodeCounters,
         AckBody;
    var id := if f.ecn.Some? then 0xbaba01 else 0xbaba00;
    var t, ns, tail := Encoding(id), [f.pathId, f.top.hi, f.delay, |f.ranges|], AckTail(f.top, f.ranges, f.ecn);
    AckMpWire(f);
    var s, i := Wire(f) + rest, |t| + |Fields(ns)|;
    AckMpSmall(f);
    hide Wire, WellFormed;
    assert s == t + (Fields(ns) + (tail + rest));
    AckMpHeader(s, id, |t|, ns, tail + rest);
    assert s[i..] == tail + rest;
    AckTailRead(s, i, f.top, f.ranges, f.ecn, rest);
    AckBodyWalked(s, f.ecn.Some?, AckHeader(f.pathId, f.top.hi, |f.ranges|, i), |Wire(f)|, known);
  }

  lemma AckMpSmall(f: Frame)
    requires f.AckMp? && WellFormed(f)
    ensures Small([f.pathId, f.top.hi, f.delay, |f.ranges|]) && f.top.lo <= f.top.hi && AckFrames.Descending(f.top.lo, f.ranges)
    ensures AckFrames.InRange(0, f.top, f.ecn) && f.top.hi < TWO_62
  {
    hide AckFrames.Descending;
  }

  lemma AckMpWire(f: Frame)
    requires f.AckMp? && WellFormed(f)
    ensures Wire(f) == Encoding(if f.ecn.Some? then 0xbaba01 else 0xbaba00)
                     + (Fields([f.pathId, f.top.hi, f.delay, |f.ranges|]) + AckTail(f.top, f.ranges, f.ecn))
  {
    hide Encoding, Fields, AckTail, AckFrames.Descending;
  }

  lemma AckMpHeader(s: seq<byte>, id: nat, i: nat, ns: seq<nat>, tail: seq<byte>)
    requires 64 <= id < TWO_62 && i == |Encoding(id)| && Small(ns) && |ns| == 4
    requires s == Encoding(id) + (Fields(ns) + tail)
    ensures s != [] && i + |Fields(ns)| <= |s|
    ensures ParseAckHeader(s, true) == Some(AckHeader(ns[0], ns[1], ns[3], i + |Fields(ns)|))
  {
    hide VarintDecode, VarintSkip, Encoding, Fields, DecodeVarints;
    var tail3 := Fields(ns[1..]) + tail;
    TypeLength(id, Fields(ns) + tail);
    FieldsFour(ns);
    var a, b, c, d := Encoding(ns[0]), Encoding(ns[1]), Encoding(ns[2]), Encoding(ns[3]);
    assert s[i..] == a + (b + (c + (d + tail)));
    ReadField(s, i, ns[0], b + (c + (d + tail)));
    ReadField(s, i + |a|, ns[1], c + (d + tail));
    ReadField(s, i + |a| + |b|, ns[2], d + tail);
    ReadField(s, i + |a| + |b| + |c|, ns[3], tail);
  }

  /** The length of the type is known from its first byte. */
  lemma TypeLength(id: nat, rest: seq<byte>)
    requires id < TWO_62
    ensures Encoding(id) + rest != [] && DecodedLength((Encoding(id) + rest)[0]) == |Encoding(id)|
  {
    EncodingRoundTrip(id, rest);
    hide Encoding, DecodedLength;
  }

  lemma FieldsFour(ns: seq<nat>)
    requires |ns| == 4
    ensures Fields(ns) == Encoding(ns[0]) + (Encoding(ns[1]) + (Encoding(ns[2]) + Encoding(ns[3])))
  {
    hide Encoding;
    assert ns[1..][1..] == ns[2..] && ns[2..][1..] == ns[3..] && ns[3..][1..] == [];
    assert Fields(ns[3..]) == Encoding(ns[3]) + Fields([]);
    assert Fields(ns[2..]) == Encoding(ns[2]) + Fields(ns[3..]);
    assert Fields(ns[1..]) == Encoding(ns[1]) + Fields(ns[2..]);
  }

  lemma AckTailRead(s: seq<byte>, i: nat, top: SackList.Range, ranges: seq<SackList.Range>, ecn: Option<AckFrames.EcnCounts>,
                    rest: seq<byte>)
    requires i <= |s| && top.lo <= top.hi < TWO_62 && AckFrames.Descending(top.lo, ranges) && AckFrames.InRange(0, top, ecn)
    requires s[i..] == AckTail(top, ranges, ecn) + rest
    ensures AckBody(s, AckHeader(0, top.hi, |ranges|, i), ecn.Some?) == Some(i + |AckTail(top, ranges, ecn)|)
  {
    hide Encoding, AckFrames.Descending, AckFrames.Blocks, AckFrames.EcnBytes, AckFrames.DecodeRanges, DecodeCounters,
         AckFrames.DecodeEcn;
    var body, e := Encoding(top.hi - top.lo) + AckFrames.Blocks(top.lo, ranges), AckFrames.EcnBytes(ecn);
    assert s[i..] == body + (e + rest);
    AckFrames.RangesRoundTrip(top, ranges, e + rest);
    AckFrames.NoEcnBytes(ecn);
    var j := i + |body|;
    assert s[j..] == s[i..][|body|..] == e + rest;
    if ecn.Some? {
      AckFrames.EcnRoundTrip(ecn.value, rest);
      CountersAreEcn(s, j);
    }
  }

  lemma AckBodyWalked(s: seq<byte>, isEcn: bool, h: AckHeader, size: nat, known: nat -> bool)
    requires s != [] && ParseAckHeader(s, true) == Some(h) && h.next <= |s|
    requires AckBody(s, AckHeader(0, h.largest, h.numBlock, h.next), isEcn) == Some(size)
    ensures WalkAck(s, isEcn, true, known) == Some(size)
  {
    hide ParseAckHeader, SkipAck, AckFrames.DecodeRanges, DecodeCounters;
    assert AckBody(s, h, isEcn) == Some(size);
    AckSkipped(s, isEcn, true, h, size);
  }

  // ----- All frames

  /** A frame is decoded to exactly its bytes, whatever follows it, if it may be in the packet, and refused if not. */
  lemma FrameDecoded(f: Frame, rest: seq<byte>, env: Env)
    requires WellFormed(f) && CanFollow(f, rest)
    ensures Wire(f) != [] && FrameWalkers.Decode(Wire(f) + rest, env) == if MayBeIn(f, env) then Some(|Wire(f)|) else None
  {
    hide FrameWalkers.Decode, Encoding, Fields, Data, StreamFrames.FrameBytes, AckFrames.AckBytes;
    match f
    case Run(t, n) => RunDecoded(t, n, rest, env);
    case Stream(seg, hasLength) => StreamDecoded(seg, hasLength, rest, env);
    case Ack(_, _, _, _) => AckDecoded(f, rest, env);
    case AckMp(_, _, _, _, _) => AckMpDecoded(f, rest, env);
    case Plain(t, ns) => PlainDecoded(t, ns, rest, env);
    case WithData(t, ns, data) => WithDataDecoded(t, ns, data, rest, env);
    case Fixed(t, data) => FixedDecoded(t, data, rest, env);
    case NewConnectionId(_, _, _, _) => NewConnectionIdDecoded(f, rest, env);
    case Message(data, hasLength) => MessageDecoded(data, hasLength, rest, env);
    case AckFrequency(_, _) => AckFrequencyDecoded(f, rest, env);
    case TimeStamp(_) => TimeStampDecoded(f, rest, env);
    case PathAbandon(_, _, _) => PathAbandonDecoded(f, rest, env);
    case Bdp(_, _) => BdpDecoded(f, rest, env);
  }

  /** It asks for an acknowledgement as its kind does. */
  lemma FrameAsks(f: Frame, rest: seq<byte>)
    requires WellFormed(f)
    ensures Wire(f) != [] && (AckNeeded(Wire(f) + rest) <==> AsksForAck(f))
  {
    hide Encoding, Fields, Data, VarintDecode, StreamFrames.FrameBytes, AckFrames.AckBytes, AckTail, AckFrames.Blocks,
         AckFrames.Descending, AckNeeded, AsksForAck;
    if f.Stream? {
      StreamAsks(f, rest);
    } else if f.Ack? {
      AckType(f.delay, f.top, f.ranges, f.ecn);
      ShortAsks(f, rest, if f.ecn.Some? then 0x03 else 0x02);
    } else if HasLongType(f) {
      LongAsks(f, rest);
    } else {
      ShortAsks(f, rest, Wire(f)[0]);
    }
  }

  lemma StreamAsks(f: Frame, rest: seq<byte>)
    requires f.Stream? && WellFormed(f)
    ensures Wire(f) != [] && AckNeeded(Wire(f) + rest) && AsksForAck(f)
  {
    hide StreamFrames.FrameBytes;
    StreamFrames.FrameFields(f.seg, f.hasLength, rest);
    assert |StreamFrames.FrameBytes(f.seg, f.hasLength)| == StreamFrames.FrameSize(f.seg, f.hasLength);
  }

  lemma ShortAsks(f: Frame, rest: seq<byte>, t: byte)
    requires WellFormed(f) && !f.Stream? && !HasLongType(f) && Wire(f) != [] && Wire(f)[0] == t
    requires f.Ack? ==> t == 0x02 || t == 0x03
    ensures AckNeeded(Wire(f) + rest) <==> AsksForAck(f)
  {
    hide Encoding, Fields, Data, VarintDecode, AckFrames.AckBytes, AckFrames.Descending;
    assert (Wire(f) + rest)[0] == t;
  }

  lemma LongAsks(f: Frame, rest: seq<byte>)
    requires WellFormed(f) && HasLongType(f)
    ensures Wire(f) != [] && (AckNeeded(Wire(f) + rest) <==> AsksForAck(f))
  {
    hide Encoding, VarintDecode, VarintSkip, Wire, WellFormed;
    var id := TypeOf(f);
    var body := LongBody(f);
    LongType(id);
    var s := Wire(f) + rest;
    assert s == Encoding(id) + (body + rest);
    assert s[0..] == s;
    ReadField(s, 0, id, body + rest);
  }

  lemma LongBody(f: Frame) returns (body: seq<byte>)
    requires WellFormed(f) && HasLongType(f)
    ensures Wire(f) == Encoding(TypeOf(f)) + body
  {
    hide Encoding, Fields, Data, AckTail, AckFrames.Descending;
    body := Wire(f)[|Encoding(TypeOf(f))|..];
  }

  predicate HasLongType(f: Frame) {
    f.AckMp? || f.AckFrequency? || f.TimeStamp? || f.PathAbandon? || f.Bdp?
  }

  function TypeOf(f: Frame): nat
    requires HasLongType(f)
  {
    if f.AckMp? then (if f.ecn.Some? then 0xbaba01 else 0xbaba00)
    else if f.AckFrequency? then 0xaf else if f.TimeStamp? then 757 else if f.PathAbandon? then 0xbaba05 else 0xebd9
  }

  // ----- A packet of frames

  /** Each frame can be followed by those behind it. */
  predicate IsPacket(fs: seq<Frame>)
    decreases |fs|, 0
  {
    fs != [] ==> WellFormed(fs[0]) && IsPacket(fs[1..]) && CanFollow(fs[0], WireAll(fs[1..]))
  }

  function WireAll(fs: seq<Frame>): seq<byte>
    requires IsPacket(fs)
    decreases |fs|, 1
  {
    if fs == [] then [] else Wire(fs[0]) + WireAll(fs[1..])
  }

  /** Where the frames end if the first one starts at `i` */
  function EndsOf(fs: seq<Frame>, i: nat): seq<nat>
    requires IsPacket(fs)
    decreases |fs|
  {
    if fs == [] then [] else [i + |Wire(fs[0])|] + EndsOf(fs[1..], i + |Wire(fs[0])|)
  }

  predicate AllMayBeIn(fs: seq<Frame>, env: Env) {
    forall k :: 0 <= k < |fs| ==> MayBeIn(fs[k], env)
  }

  predicate OneAsksForAck(fs: seq<Frame>) {
    exists k :: 0 <= k < |fs| && AsksForAck(fs[k])
  }

  lemma HeadAndTail(fs: seq<Frame>, env: Env)
    requires fs != []
    ensures AllMayBeIn(fs, env) <==> MayBeIn(fs[0], env) && AllMayBeIn(fs[1..], env)
    ensures OneAsksForAck(fs) <==> AsksForAck(fs[0]) || OneAsksForAck(fs[1..])
  {
    hide MayBeIn, AsksForAck;
    assert fs == [fs[0]] + fs[1..];
  }

  lemma NothingAsked(env: Env)
    ensures AllMayBeIn([], env) && !OneAsksForAck([])
  {
  }

  /** If the connection refuses none of its frames for their content, a packet is accepted exactly if each frame may be
      in it. The frames end where they were written to end, and the packet is acknowledged at once exactly if one of
      them asks for it. */
  lemma {:induction false} PacketDecoded(p: seq<byte>, i: nat, fs: seq<Frame>, env: Env)
    requires IsPacket(fs) && i <= |p| && p[i..] == WireAll(fs)
    requires forall s: seq<byte>, n: nat :: env.accepts(s, n)
    ensures DecodeEnds(p, i, env) == if AllMayBeIn(fs, env) then Some((EndsOf(fs, i), OneAsksForAck(fs))) else None
    decreases |fs|
  {
    hide FrameWalkers.Decode, AckNeeded, Wire, AsksForAck, MayBeIn, AllMayBeIn, OneAsksForAck;
    if fs == [] {
      NothingAsked(env);
    } else {
      var n := |Wire(fs[0])|;
      HeadAndTail(fs, env);
      FrameDecoded(fs[0], WireAll(fs[1..]), env);
      FrameAsks(fs[0], WireAll(fs[1..]));
      assert p[i + n..] == p[i..][n..] == WireAll(fs[1..]);
      PacketDecoded(p, i + n, fs[1..], env);
    }
  }

  /** Any packet is skipped frame by frame to the same places; it is a pure ACK exactly if none of its frames asks for
      an acknowledgement. */
  lemma PacketWalked(fs: seq<Frame>)
    requires IsPacket(fs)
    ensures SkipEnds(WireAll(fs), 0) == Some((EndsOf(fs, 0), !OneAsksForAck(fs)))
  {
    hide DecodeEnds, SkipEnds, Wire, WireAll, IsPacket, EndsOf;
    var env := Env(OneRtt, false, true, _ => true, (_, _) => true);
    assert WireAll(fs)[0..] == WireAll(fs);
    PacketDecoded(WireAll(fs), 0, fs, env);
    PacketSkipped(WireAll(fs), 0, env);
  }
}
