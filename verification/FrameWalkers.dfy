/** The three walks over the frames of a packet in picoquic/frames.c: decoding, skipping, and the walk over a packet of
    one's own that was acknowledged. A position counts from the first byte of the frame. */
module FrameWalkers {
  import opened Wrappers
  import opened Varint
  import StreamFrames
  import AckFrames
  import Datagram

  const PADDING: byte := StreamFrames.PADDING
  const PING: byte := 0x01
  const ACK: byte := AckFrames.ACK
  const ACK_ECN: byte := AckFrames.ACK_ECN
  const RESET_STREAM: byte := 0x04
  const STOP_SENDING: byte := 0x05
  const CRYPTO_HS: byte := 0x06
  const NEW_TOKEN: byte := 0x07
  const MAX_DATA: byte := 0x10
  const MAX_STREAM_DATA: byte := 0x11
  const MAX_STREAMS_BIDIR: byte := 0x12
  const MAX_STREAMS_UNIDIR: byte := 0x13
  const DATA_BLOCKED: byte := 0x14
  const STREAM_DATA_BLOCKED: byte := 0x15
  const STREAMS_BLOCKED_BIDIR: byte := 0x16
  const STREAMS_BLOCKED_UNIDIR: byte := 0x17
  const NEW_CONNECTION_ID: byte := 0x18
  const RETIRE_CONNECTION_ID: byte := 0x19
  const PATH_CHALLENGE: byte := 0x1a
  const PATH_RESPONSE: byte := 0x1b
  const CONNECTION_CLOSE: byte := 0x1c
  const APPLICATION_CLOSE: byte := 0x1d
  const HANDSHAKE_DONE: byte := 0x1e
  const DATAGRAM: byte := 0x30
  const DATAGRAM_L: byte := 0x31
  const ACK_FREQUENCY: nat := 0xAF
  const TIME_STAMP: nat := 757
  const ACK_MP: nat := 0xbaba00
  const ACK_MP_ECN: nat := 0xbaba01
  const PATH_ABANDON: nat := 0xbaba05
  const BDP: nat := 0xebd9

  const RESET_SECRET_SIZE: nat := 16
  const CHALLENGE_LENGTH: nat := 8

  predicate IsStream(b: byte) {
    0x08 <= b as int <= 0x0f
  }

  // ----- The helpers

  function VarintDecode(s: seq<byte>, i: nat): (r: Option<(nat, nat)>)
    requires i <= |s|
    ensures r.Some? ==> i < r.value.1 <= |s|
  {
    var (v, l) :- Decoding(s[i..]);
    DecodingBound(s[i..]);
    Some((v, i + l))
  }

  function FixedSkip(s: seq<byte>, i: nat, n: nat): (r: Option<nat>)
    requires i <= |s|
    ensures r.Some? ==> i <= r.value <= |s|
  {
    if i + n <= |s| then Some(i + n) else None
  }

  /** The length of a varint is known from its first byte. */
  function VarintSkip(s: seq<byte>, i: nat): (r: Option<nat>)
    requires i <= |s|
    ensures r.Some? <==> VarintDecode(s, i).Some?
    ensures r.Some? ==> r.value == VarintDecode(s, i).value.1
  {
    if i < |s| then FixedSkip(s, i, DecodedLength(s[i])) else None
  }

  function LengthDataSkip(s: seq<byte>, i: nat): (r: Option<nat>)
    requires i <= |s|
    ensures r.Some? ==> i < r.value <= |s|
  {
    var (length, j) :- VarintDecode(s, i);
    FixedSkip(s, j, length)
  }

  function Uint8Decode(s: seq<byte>, i: nat): (r: Option<(byte, nat)>)
    requires i <= |s|
    ensures r.Some? ==> i < r.value.1 <= |s|
  {
    if i < |s| then Some((s[i], i + 1)) else None
  }

  /** The end of a run of equal bytes */
  function RunEnd(s: seq<byte>, i: nat, b: byte): (r: nat)
    requires i <= |s|
    ensures i <= r <= |s|
    decreases |s| - i
  {
    if i < |s| && s[i] == b then RunEnd(s, i + 1, b) else i
  }

  /** `picoquic_skip_0len_frame`: a run of PING or PADDING frames is taken at once. */
  function SkipRun(s: seq<byte>): (r: nat)
    requires s != []
    ensures 1 <= r <= |s|
  {
    RunEnd(s, 1, s[0])
  }

  // ----- ACK frames

  function SkipVarints(s: seq<byte>, i: nat, n: nat): (r: Option<nat>)
    requires i <= |s|
    ensures r.Some? ==> i <= r.value <= |s|
    decreases n
  {
    if n == 0 then Some(i)
    else
      var j :- VarintSkip(s, i);
      SkipVarints(s, j, n - 1)
  }

  /** `picoquic_skip_ack_frame_maybe_ecn` */
  function SkipAck(s: seq<byte>, isEcn: bool, hasPath: bool): (r: Option<nat>)
    requires s != []
    ensures r.Some? ==> 0 < r.value <= |s|
  {
    var i1 :- VarintSkip(s, 0);
    var i2 :- VarintSkip(s, i1);
    var i3 :- if hasPath then VarintSkip(s, i2) else Some(i2);
    var i4 :- VarintSkip(s, i3);
    var (nbBlocks, i5) :- VarintDecode(s, i4);
    var i6 :- VarintSkip(s, i5);
    var i7 :- SkipVarints(s, i6, 2 * nbBlocks);
    if isEcn then SkipVarints(s, i7, 3) else Some(i7)
  }

  datatype AckHeader = AckHeader(path: nat, largest: nat, numBlock: nat, next: nat)

  /** `picoquic_parse_ack_header` */
  function ParseAckHeader(s: seq<byte>, hasPath: bool): (r: Option<AckHeader>)
    requires s != []
    ensures r.Some? ==> 0 < r.value.next <= |s|
  {
    var i1 := DecodedLength(s[0]);
    if i1 > |s| then None else
    var (path, i2) :- if hasPath then VarintDecode(s, i1) else Some((0, i1));
    var (largest, i3) :- VarintDecode(s, i2);
    var (_, i4) :- VarintDecode(s, i3);
    var (numBlock, i5) :- VarintDecode(s, i4);
    Some(AckHeader(path, largest, numBlock, i5))
  }

  /** The ranges and the counters behind the header */
  function AckBody(s: seq<byte>, h: AckHeader, isEcn: bool): (r: Option<nat>)
    requires h.next <= |s|
    ensures r.Some? ==> h.next <= r.value <= |s|
  {
    var (_, l) :- AckFrames.DecodeRanges(s[h.next..], h.largest, h.numBlock);
    if h.next + l > |s| then None
    else if isEcn then DecodeCounters(s, h.next + l)
    else Some(h.next + l)
  }

  function DecodeCounters(s: seq<byte>, i: nat): (r: Option<nat>)
    requires i <= |s|
    ensures r.Some? ==> i <= r.value <= |s|
  {
    var (_, i1) :- VarintDecode(s, i);
    var (_, i2) :- VarintDecode(s, i1);
    var (_, i3) :- VarintDecode(s, i2);
    Some(i3)
  }

  /** `picoquic_decode_ack_frame` and `picoquic_process_ack_of_ack_mp_frame`: the ranges of an unknown path are
      skipped without a check. */
  function WalkAck(s: seq<byte>, isEcn: bool, hasPath: bool, known: nat -> bool): (r: Option<nat>)
    requires s != []
    ensures r.Some? ==> 0 < r.value <= |s|
  {
    var h :- ParseAckHeader(s, hasPath);
    if hasPath && !known(h.path) then SkipAck(s, isEcn, true) else AckBody(s, h, isEcn)
  }

  /** For ACK and ACK_ECN frames, this is the size that the ACK decoder finds. */
  lemma WalkAckIsDecodeAck(s: seq<byte>, known: nat -> bool)
    requires s != [] && (s[0] == ACK || s[0] == ACK_ECN)
    ensures WalkAck(s, s[0] == ACK_ECN, false, known)
         == if AckFrames.DecodeAck(s).None? then None else Some(AckFrames.DecodeAck(s).value.consumed)
  {
    hide AckFrames.DecodeRanges, AckFrames.ParseAckHeader, AckFrames.DecodeEcn, ParseAckHeader, DecodeCounters;
    var h := ParseAckHeader(s, false);
    HeaderIsAckHeader(s);
    if h.Some? {
      var i := h.value.next;
      var ranges := AckFrames.DecodeRanges(s[i..], h.value.largest, h.value.numBlock);
      if ranges.Some? && i + ranges.value.1 <= |s| {
        CountersAreEcn(s, i + ranges.value.1);
      }
    }
  }

  lemma HeaderIsAckHeader(s: seq<byte>)
    requires s != []
    ensures var h := ParseAckHeader(s, false); var a := AckFrames.ParseAckHeader(s);
            && (h.Some? <==> a.Some?)
            && (h.Some? ==> a.value.3 <= |s| && h.value.largest == a.value.0 && h.value.numBlock == a.value.2
                            && h.value.next == a.value.3)
  {
    hide Decoding;
    BoundIf(s, DecodedLength(s[0]));
  }

  /** The three fields behind position `i` end within the bytes. */
  lemma BoundIf(s: seq<byte>, i: nat)
    ensures i <= |s| && Decoding(s[i..]).Some? ==>
      var j := i + Decoding(s[i..]).value.1;
      && i < j <= |s|
      && (Decoding(s[j..]).Some? ==>
            var k := j + Decoding(s[j..]).value.1;
            && j < k <= |s|
            && (Decoding(s[k..]).Some? ==> k < k + Decoding(s[k..]).value.1 <= |s|))
  {
  }

  lemma CountersAreEcn(s: seq<byte>, i: nat)
    requires i <= |s|
    ensures var e := AckFrames.DecodeEcn(s[i..]);
            DecodeCounters(s, i) == if e.None? then None else Some(i + e.value.1)
  {
    hide Decoding;
    BoundIf(s, i);
    if Decoding(s[i..]).Some? {
      var l := Decoding(s[i..]).value.1;
      assert s[i..][l..] == s[i + l..];
      if Decoding(s[i + l..]).Some? {
        var m := Decoding(s[i + l..]).value.1;
        assert s[i..][l + m..] == s[i + l + m..];
      }
    }
  }

  /** Ranges that pass the checks are skipped at the same place. */
  lemma {:induction false} RangesSkipped(s: seq<byte>, i: nat, largest: nat, n: nat)
    requires i <= |s| && AckFrames.DecodeRanges(s[i..], largest, n).Some?
    ensures var j := i + AckFrames.DecodeRanges(s[i..], largest, n).value.1;
            j <= |s| && VarintSkip(s, i).Some? && SkipVarints(s, VarintSkip(s, i).value, 2 * n) == Some(j)
    decreases n
  {
    hide Decoding, VarintSkip;
    var (range, i1) := VarintDecode(s, i).value;
    if n > 0 {
      assert s[i..][i1 - i..] == s[i1..];
      var (gap, i2) := VarintDecode(s, i1).value;
      assert s[i..][i2 - i..] == s[i2..];
      RangesSkipped(s, i2, largest - (gap + 1 + range + 1), n - 1);
      TwoSkipped(s, i1, i2, 2 * (n - 1));
    } else {
      NoneSkipped(s, i1);
    }
  }

  lemma NoneSkipped(s: seq<byte>, i: nat)
    requires i <= |s|
    ensures SkipVarints(s, i, 0) == Some(i)
  {
  }

  lemma TwoSkipped(s: seq<byte>, i1: nat, i2: nat, n: nat)
    requires i1 <= |s| && VarintSkip(s, i1) == Some(i2) && i2 <= |s| && VarintSkip(s, i2).Some?
    ensures SkipVarints(s, i1, n + 2) == SkipVarints(s, VarintSkip(s, i2).value, n)
  {
  }

  lemma AckSkipped(s: seq<byte>, isEcn: bool, hasPath: bool, h: AckHeader, next: nat)
    requires s != [] && ParseAckHeader(s, hasPath) == Some(h) && AckBody(s, h, isEcn) == Some(next)
    ensures SkipAck(s, isEcn, hasPath) == Some(next)
  {
    hide VarintDecode, AckFrames.DecodeRanges, SkipVarints, DecodeCounters;
    RangesSkipped(s, h.next, h.largest, h.numBlock);
    var i7 := h.next + AckFrames.DecodeRanges(s[h.next..], h.largest, h.numBlock).value.1;
    if isEcn {
      CountersSkipped(s, i7);
    }
  }

  lemma CountersSkipped(s: seq<byte>, i: nat)
    requires i <= |s| && DecodeCounters(s, i).Some?
    ensures SkipVarints(s, i, 3) == DecodeCounters(s, i)
  {
    hide VarintDecode;
    ThreeSkipped(s, i);
  }

  lemma ThreeSkipped(s: seq<byte>, i: nat)
    requires i <= |s| && VarintSkip(s, i).Some?
    requires VarintSkip(s, VarintSkip(s, i).value).Some?
    requires VarintSkip(s, VarintSkip(s, VarintSkip(s, i).value).value).Some?
    ensures SkipVarints(s, i, 3) == VarintSkip(s, VarintSkip(s, VarintSkip(s, i).value).value)
  {
  }

  // ----- Frames in which the walkers use different code

  /** `picoquic_decode_stream_frame` and `picoquic_process_ack_of_stream_frame`: the parsed header, and the data */
  function DecodeStream(s: seq<byte>): (r: Option<nat>)
    requires s != []
    ensures r.Some? ==> 0 < r.value <= |s|
  {
    var h :- StreamFrames.ParseHeader(s);
    Some(h.consumed + h.dataLength)
  }

  function SkipStream(s: seq<byte>): (r: Option<nat>)
    requires s != []
    ensures r.Some? ==> 0 < r.value <= |s|
  {
    var i :- VarintSkip(s, 1);
    var j :- if StreamFrames.HasOffset(s[0]) then VarintSkip(s, i) else Some(i);
    if !StreamFrames.HasLength(s[0]) then Some(|s|) else LengthDataSkip(s, j)
  }

  lemma StreamSkipped(s: seq<byte>)
    requires s != [] && DecodeStream(s).Some?
    ensures SkipStream(s) == DecodeStream(s)
  {
    hide Decoding, StreamFrames.HasFin, StreamFrames.HasLength, StreamFrames.HasOffset, VarintSkip;
    DecodingBound(s[1..]);
  }

  function ParseNewConnectionId(s: seq<byte>): (r: Option<nat>)
    requires s != []
    ensures r.Some? ==> 0 < r.value <= |s|
  {
    var (_, i1) :- VarintDecode(s, 1);
    var (_, i2) :- VarintDecode(s, i1);
    var (cidLength, i3) :- Uint8Decode(s, i2);
    FixedSkip(s, i3, cidLength as int + RESET_SECRET_SIZE)
  }

  /** The type is skipped as a varint. */
  function SkipNewConnectionId(s: seq<byte>): (r: Option<nat>)
    requires s != []
    ensures r.Some? ==> 0 < r.value <= |s|
  {
    var i0 :- VarintSkip(s, 0);
    var i1 :- VarintSkip(s, i0);
    var i2 :- VarintSkip(s, i1);
    var (cidLength, i3) :- Uint8Decode(s, i2);
    FixedSkip(s, i3, cidLength as int + RESET_SECRET_SIZE)
  }

  function ParseCrypto(s: seq<byte>): (r: Option<nat>)
    requires s != []
    ensures r.Some? ==> 0 < r.value <= |s|
  {
    var (_, i1) :- VarintDecode(s, 1);
    var (length, i2) :- VarintDecode(s, i1);
    FixedSkip(s, i2, length)
  }

  function SkipCrypto(s: seq<byte>): (r: Option<nat>)
    requires s != []
    ensures r.Some? ==> 0 < r.value <= |s|
  {
    var i1 :- VarintSkip(s, 1);
    LengthDataSkip(s, i1)
  }

  function DecodeNewToken(s: seq<byte>): (r: Option<nat>)
    requires s != []
    ensures r.Some? ==> 0 < r.value <= |s|
  {
    var (length, i) :- VarintDecode(s, 1);
    FixedSkip(s, i, length)
  }

  function DecodeDatagram(s: seq<byte>): (r: Option<nat>)
    requires s != []
    ensures r.Some? ==> 0 < r.value <= |s|
  {
    var (_, n) :- Datagram.ParseDatagram(s);
    Some(n)
  }

  function SkipDatagram(s: seq<byte>): (r: Option<nat>)
    requires s != []
    ensures r.Some? ==> 0 < r.value <= |s|
  {
    var (length, i) :- if s[0] as int % 2 == 1 then VarintDecode(s, 1) else Some((|s| - 1, 1));
    if i + length > |s| then None else Some(i + length)
  }

  function DecodePathChallenge(s: seq<byte>): (r: Option<nat>)
    ensures r.Some? ==> 0 < r.value <= |s|
  {
    if |s| <= CHALLENGE_LENGTH then None else Some(1 + CHALLENGE_LENGTH)
  }

  /** `n` varints behind a type of one byte */
  function DecodeVarints(s: seq<byte>, i: nat, n: nat): (r: Option<nat>)
    requires i <= |s|
    ensures r == SkipVarints(s, i, n)
    decreases n
  {
    if n == 0 then Some(i)
    else
      var (_, j) :- VarintDecode(s, i);
      DecodeVarints(s, j, n - 1)
  }

  function ParseAckFrequency(s: seq<byte>, i: nat): (r: Option<nat>)
    requires i <= |s|
    ensures r.Some? ==> i <= r.value <= |s|
  {
    var i3 :- DecodeVarints(s, i, 3);
    var (_, i4) :- Uint8Decode(s, i3);
    Some(i4)
  }

  function SkipAckFrequency(s: seq<byte>, i: nat): (r: Option<nat>)
    requires i <= |s|
    ensures r.Some? ==> i <= r.value <= |s|
  {
    var i3 :- SkipVarints(s, i, 3);
    FixedSkip(s, i3, 1)
  }

  function ParsePathIdentifier(s: seq<byte>, i: nat): (r: Option<nat>)
    requires i <= |s|
    ensures r.Some? ==> r.value <= |s|
  {
    var (kind, j) :- VarintDecode(s, i);
    if kind == 0 || kind == 1 then
      var (_, k) :- VarintDecode(s, j);
      Some(k)
    else if kind == 2 then Some(j)
    else None
  }

  function ParsePathAbandon(s: seq<byte>, i: nat): (r: Option<nat>)
    requires i <= |s|
    ensures r.Some? ==> i <= r.value <= |s|
  {
    var i1 :- ParsePathIdentifier(s, i);
    var (_, i2) :- VarintDecode(s, i1);
    LengthDataSkip(s, i2)
  }

  function SkipPathAbandon(s: seq<byte>, i: nat): (r: Option<nat>)
    requires i <= |s|
    ensures r.Some? ==> i <= r.value <= |s|
  {
    var i1 :- ParsePathIdentifier(s, i);
    var i2 :- VarintSkip(s, i1);
    LengthDataSkip(s, i2)
  }

  /** Only an address of 4 or 16 bytes is accepted. */
  function ParseBdp(s: seq<byte>, i: nat): (r: Option<nat>)
    requires i <= |s|
    ensures r.Some? ==> i <= r.value <= |s|
  {
    var i3 :- DecodeVarints(s, i, 3);
    var (length, i4) :- VarintDecode(s, i3);
    if length != 4 && length != 16 then None else FixedSkip(s, i4, length)
  }

  function SkipBdp(s: seq<byte>, i: nat): (r: Option<nat>)
    requires i <= |s|
    ensures r.Some? ==> i <= r.value <= |s|
  {
    var i3 :- SkipVarints(s, i, 3);
    LengthDataSkip(s, i3)
  }

  // ----- The walkers

  datatype Epoch = Initial | ZeroRtt | Handshake | OneRtt

  /** What the walkers depend on besides the bytes: the epoch of the packet, which paths are known, and whether the state
      of the connection lets a well-formed frame pass. */
  datatype Env = Env(epoch: Epoch, isClient: bool, isBdpEnabled: bool, knownRemote: nat -> bool,
                     accepts: (seq<byte>, nat) -> bool)

  predicate IsAppEpoch(e: Epoch) {
    e == ZeroRtt || e == OneRtt
  }

  /** The frames that may be in a packet of an epoch, by their first byte */
  predicate Allowed(b: byte, e: Epoch) {
    if IsStream(b) then IsAppEpoch(e)
    else if b == ACK || b == ACK_ECN then e != ZeroRtt
    else if !IsAppEpoch(e) then b == PADDING || b == PING || b == CONNECTION_CLOSE || b == CRYPTO_HS
    else if e == ZeroRtt then
      b != CRYPTO_HS && b != HANDSHAKE_DONE && b != NEW_TOKEN && b != PATH_RESPONSE && b != RETIRE_CONNECTION_ID
    else true
  }

  /** The frames with types of several bytes. The position is behind the type. */
  function DecodeExtended(s: seq<byte>, id: nat, i: nat, env: Env): (r: Option<nat>)
    requires s != [] && 0 < i <= |s|
    ensures r.Some? ==> 0 < r.value <= |s|
  {
    if id == ACK_FREQUENCY then ParseAckFrequency(s, i)
    else if id == TIME_STAMP then DecodeVarints(s, i, 1)
    else if id == ACK_MP then if env.epoch == ZeroRtt then None else WalkAck(s, false, true, env.knownRemote)
    else if id == ACK_MP_ECN then if env.epoch == ZeroRtt then None else WalkAck(s, true, true, env.knownRemote)
    else if id == PATH_ABANDON then ParsePathAbandon(s, i)
    else if id == BDP then
      if (if env.isClient then env.epoch != OneRtt || !env.isBdpEnabled else !IsAppEpoch(env.epoch)) then None
      else ParseBdp(s, i)
    else None
  }

  /** The size of a frame that `picoquic_decode_frames` can parse. */
  function Decode(s: seq<byte>, env: Env): (r: Option<nat>)
    requires s != []
    ensures r.Some? ==> 0 < r.value <= |s|
  {
    var b := s[0];
    if !Allowed(b, env.epoch) then None
    else if IsStream(b) then DecodeStream(s)
    else if b == ACK then WalkAck(s, false, false, env.knownRemote)
    else if b == ACK_ECN then WalkAck(s, true, false, env.knownRemote)
    else if b == PADDING || b == PING then Some(SkipRun(s))
    else if b == RESET_STREAM then DecodeVarints(s, 1, 3)
    else if b == CONNECTION_CLOSE then
      var i :- DecodeVarints(s, 1, 1);
      var j :- VarintSkip(s, i);
      LengthDataSkip(s, j)
    else if b == APPLICATION_CLOSE then
      var i :- DecodeVarints(s, 1, 1);
      LengthDataSkip(s, i)
    else if b == MAX_DATA then DecodeVarints(s, 1, 1)
    else if b == MAX_STREAM_DATA then DecodeVarints(s, 1, 2)
    else if b == MAX_STREAMS_BIDIR || b == MAX_STREAMS_UNIDIR then DecodeVarints(s, 1, 1)
    else if b == DATA_BLOCKED then SkipVarints(s, 1, 1)
    else if b == STREAM_DATA_BLOCKED then SkipVarints(s, 1, 2)
    else if b == STREAMS_BLOCKED_BIDIR || b == STREAMS_BLOCKED_UNIDIR then SkipVarints(s, 1, 1)
    else if b == NEW_CONNECTION_ID then ParseNewConnectionId(s)
    else if b == STOP_SENDING then DecodeVarints(s, 1, 2)
    else if b == PATH_CHALLENGE then DecodePathChallenge(s)
    else if b == PATH_RESPONSE then FixedSkip(s, 1, CHALLENGE_LENGTH)
    else if b == CRYPTO_HS then ParseCrypto(s)
    else if b == NEW_TOKEN then DecodeNewToken(s)
    else if b == RETIRE_CONNECTION_ID then DecodeVarints(s, 1, 1)
    else if b == HANDSHAKE_DONE then Some(1)
    else if b == DATAGRAM || b == DATAGRAM_L then DecodeDatagram(s)
    else
      var (id, i) :- VarintDecode(s, 0);
      DecodeExtended(s, id, i, env)
  }

  /** A frame is accepted if it can be parsed and the connection does not refuse it. */
  function DecodeFrame(s: seq<byte>, env: Env): (r: Option<nat>)
    requires s != []
    ensures r.Some? ==> 0 < r.value <= |s|
  {
    var n :- Decode(s, env);
    if env.accepts(s, n) then Some(n) else None
  }

  /** The frames for which `picoquic_decode_frames` sets `ack_needed` */
  predicate AckNeeded(s: seq<byte>)
    requires s != []
  {
    var b := s[0];
    if b == ACK || b == ACK_ECN || b == PADDING || b == PATH_CHALLENGE || b == PATH_RESPONSE then false
    else if b as int < 0x40 then true
    else VarintDecode(s, 0).Some? && var id := VarintDecode(s, 0).value.0;
         id == ACK_FREQUENCY || id == PATH_ABANDON || id == BDP
  }

  datatype Skipped = Skipped(size: nat, isPureAck: bool)

  function SkipExtended(s: seq<byte>, id: nat, i: nat): Option<Skipped>
    requires s != [] && i <= |s|
  {
    if id == ACK_FREQUENCY then Size(SkipAckFrequency(s, i), false)
    else if id == TIME_STAMP then Size(VarintSkip(s, i), true)
    else if id == ACK_MP then Size(SkipAck(s, false, true), true)
    else if id == ACK_MP_ECN then Size(SkipAck(s, true, true), true)
    else if id == PATH_ABANDON then Size(SkipPathAbandon(s, i), false)
    else if id == BDP then Size(SkipBdp(s, i), false)
    else None
  }

  function Size(n: Option<nat>, isPureAck: bool): Option<Skipped> {
    if n.None? then None else Some(Skipped(n.value, isPureAck))
  }

  /** `picoquic_skip_frame` */
  function SkipFrame(s: seq<byte>): Option<Skipped>
    requires s != []
  {
    var b := s[0];
    if IsStream(b) then Size(SkipStream(s), false)
    else if b == ACK then Size(SkipAck(s, false, false), true)
    else if b == ACK_ECN then Size(SkipAck(s, true, false), true)
    else if b == PADDING then Size(Some(SkipRun(s)), true)
    else if b == RESET_STREAM then Size(SkipVarints(s, 1, 3), false)
    else if b == CONNECTION_CLOSE then
      var i :- SkipVarints(s, 1, 2);
      Size(LengthDataSkip(s, i), false)
    else if b == APPLICATION_CLOSE then
      var i :- SkipVarints(s, 1, 1);
      Size(LengthDataSkip(s, i), false)
    else if b == MAX_DATA then Size(VarintSkip(s, 1), false)
    else if b == MAX_STREAM_DATA then Size(SkipVarints(s, 1, 2), false)
    else if b == MAX_STREAMS_BIDIR || b == MAX_STREAMS_UNIDIR then Size(VarintSkip(s, 1), false)
    else if b == PING then Size(Some(SkipRun(s)), false)
    else if b == DATA_BLOCKED then Size(VarintSkip(s, 1), false)
    else if b == STREAM_DATA_BLOCKED then Size(SkipVarints(s, 1, 2), false)
    else if b == STREAMS_BLOCKED_BIDIR || b == STREAMS_BLOCKED_UNIDIR then Size(VarintSkip(s, 1), false)
    else if b == NEW_CONNECTION_ID then Size(SkipNewConnectionId(s), false)
    else if b == STOP_SENDING then Size(SkipVarints(s, 1, 2), false)
    else if b == PATH_CHALLENGE || b == PATH_RESPONSE then Size(FixedSkip(s, 1, CHALLENGE_LENGTH), true)
    else if b == CRYPTO_HS then Size(SkipCrypto(s), false)
    else if b == NEW_TOKEN then Size(LengthDataSkip(s, 1), false)
    else if b == RETIRE_CONNECTION_ID then Size(VarintSkip(s, 1), false)
    else if b == HANDSHAKE_DONE then Some(Skipped(1, false))
    else if b == DATAGRAM || b == DATAGRAM_L then Size(SkipDatagram(s), false)
    else
      var (id, i) :- VarintDecode(s, 0);
      SkipExtended(s, id, i)
  }

  function SkippedSize(s: seq<byte>): Option<nat>
    requires s != []
  {
    var r :- SkipFrame(s);
    Some(r.size)
  }

  /** One turn of `picoquic_process_ack_of_frames`: the type is decoded as a varint. */
  function AckOfFrame(s: seq<byte>, knownLocal: nat -> bool): Option<nat>
    requires s != []
  {
    var (id, i) :- VarintDecode(s, 0);
    if id == ACK as int then WalkAck(s, false, false, knownLocal)
    else if id == ACK_ECN as int then WalkAck(s, true, false, knownLocal)
    else if id == ACK_MP then WalkAck(s, false, true, knownLocal)
    else if id == ACK_MP_ECN then WalkAck(s, true, true, knownLocal)
    else if id == HANDSHAKE_DONE as int then Some(i)
    else if id == NEW_CONNECTION_ID as int then ParseNewConnectionId(s)
    else if id == RETIRE_CONNECTION_ID as int then DecodeVarints(s, 1, 1)
    else if id == CRYPTO_HS as int then ParseCrypto(s)
    else if id == MAX_DATA as int then DecodeVarints(s, 1, 1)
    else if id == MAX_STREAM_DATA as int then DecodeVarints(s, 1, 2)
    else if id == MAX_STREAMS_BIDIR as int || id == MAX_STREAMS_UNIDIR as int then DecodeVarints(s, 1, 1)
    else if 0x08 <= id <= 0x0f then DecodeStream(s)
    else SkippedSize(s)
  }

  // ----- Agreement on one frame

  lemma OneByteType(s: seq<byte>)
    requires s != [] && s[0] as int < 0x40
    ensures VarintDecode(s, 0) == Some((s[0] as int, 1))
  {
    assert s[0..] == s && [s[0] % 64] + s[1..1] == [s[0]];
    assert FromBigEndian([s[0]]) == s[0] as int by {
      assert [s[0]][..0] == [];
    }
  }

  lemma OneSkip(s: seq<byte>, i: nat)
    requires i <= |s|
    ensures SkipVarints(s, i, 1) == VarintSkip(s, i)
  {
  }

  lemma WalkedAckSkipped(s: seq<byte>, isEcn: bool, hasPath: bool, known: nat -> bool)
    requires s != [] && WalkAck(s, isEcn, hasPath, known).Some?
    ensures SkipAck(s, isEcn, hasPath) == WalkAck(s, isEcn, hasPath, known)
  {
    hide SkipAck, AckBody, ParseAckHeader;
    var h := ParseAckHeader(s, hasPath).value;
    if !hasPath || known(h.path) {
      AckSkipped(s, isEcn, hasPath, h, WalkAck(s, isEcn, hasPath, known).value);
    }
  }

  lemma NewConnectionIdSkipped(s: seq<byte>)
    requires s != [] && s[0] == NEW_CONNECTION_ID
    ensures SkipNewConnectionId(s) == ParseNewConnectionId(s)
  {
  }

  lemma DataSkipped(s: seq<byte>)
    requires s != []
    ensures SkipCrypto(s) == ParseCrypto(s)
    ensures LengthDataSkip(s, 1) == DecodeNewToken(s)
    ensures SkipDatagram(s) == DecodeDatagram(s)
    ensures DecodePathChallenge(s) == FixedSkip(s, 1, CHALLENGE_LENGTH)
  {
  }

  lemma ExtendedSkipped(s: seq<byte>, id: nat, i: nat, env: Env)
    requires s != [] && 0 < i <= |s| && DecodeExtended(s, id, i, env).Some?
    ensures SkipExtended(s, id, i) == Some(Skipped(DecodeExtended(s, id, i, env).value,
                                                   id != ACK_FREQUENCY && id != PATH_ABANDON && id != BDP))
  {
    hide VarintSkip, VarintDecode, SkipVarints, SkipAck, WalkAck, ParsePathIdentifier;
    if id == ACK_MP {
      WalkedAckSkipped(s, false, true, env.knownRemote);
    } else if id == ACK_MP_ECN {
      WalkedAckSkipped(s, true, true, env.knownRemote);
    } else {
      OneSkip(s, i);
    }
  }

  lemma TwoVarints(s: seq<byte>)
    requires s != []
    ensures SkipVarints(s, 1, 2)
         == if SkipVarints(s, 1, 1).None? then None else VarintSkip(s, SkipVarints(s, 1, 1).value)
  {
  }

  /** What is decoded is skipped at the same place, and called a pure ACK exactly if it does not ask for one. */
  lemma DecodedIsSkipped(s: seq<byte>, env: Env)
    requires s != [] && Decode(s, env).Some?
    ensures SkipFrame(s) == Some(Skipped(Decode(s, env).value, !AckNeeded(s)))
  {
    hide VarintSkip, VarintDecode, SkipVarints, DecodeVarints, SkipAck, WalkAck, LengthDataSkip, FixedSkip, SkipRun,
         DecodeStream, SkipStream, ParseNewConnectionId, SkipNewConnectionId, ParseCrypto, SkipCrypto, DecodeNewToken,
         DecodeDatagram, SkipDatagram, DecodePathChallenge, DecodeExtended, SkipExtended;
    var b := s[0];
    if IsStream(b) {
      StreamSkipped(s);
    } else if b == ACK {
      WalkedAckSkipped(s, false, false, env.knownRemote);
    } else if b == ACK_ECN {
      WalkedAckSkipped(s, true, false, env.knownRemote);
    } else if b == NEW_CONNECTION_ID {
      NewConnectionIdSkipped(s);
    } else {
      OneSkip(s, 1);
      TwoVarints(s);
      DataSkipped(s);
      if b as int >= 0x40 {
        var (id, i) := VarintDecode(s, 0).value;
        ExtendedSkipped(s, id, i, env);
      } else {
        OneByteType(s);
        NoShortExtended(s, b as int, 1, env);
      }
    }
  }

  lemma NoShortExtended(s: seq<byte>, id: nat, i: nat, env: Env)
    requires s != [] && 0 < i <= |s| && id < 0x40
    ensures DecodeExtended(s, id, i, env) == None
  {
  }

  // ----- Agreement with the walk over acknowledged packets

  predicate IsAckMp(s: seq<byte>)
    requires s != []
  {
    VarintDecode(s, 0).Some? && var id := VarintDecode(s, 0).value.0; id == ACK_MP || id == ACK_MP_ECN
  }

  /** The ranges of a multipath ACK are well-formed. */
  predicate GoodRanges(s: seq<byte>)
    requires s != []
  {
    WalkAck(s, VarintDecode(s, 0).Some? && VarintDecode(s, 0).value.0 == ACK_MP_ECN, true, _ => true).Some?
  }

  /** The path of a multipath ACK is known to both sides, or not to the side that walks its own packet, or the ranges
      are well-formed. */
  predicate PathAgrees(s: seq<byte>, knownRemote: nat -> bool, knownLocal: nat -> bool)
    requires s != []
  {
    var h := ParseAckHeader(s, true);
    h.None? || knownRemote(h.value.path) || !knownLocal(h.value.path) || GoodRanges(s)
  }

  lemma WalkedAckAgrees(s: seq<byte>, isEcn: bool, known: nat -> bool, knownLocal: nat -> bool)
    requires s != [] && WalkAck(s, isEcn, true, known).Some?
    requires VarintDecode(s, 0).Some? && (isEcn <==> VarintDecode(s, 0).value.0 == ACK_MP_ECN)
    ensures PathAgrees(s, known, knownLocal)
      <==> WalkAck(s, isEcn, true, knownLocal) == WalkAck(s, isEcn, true, known)
  {
    hide SkipAck, AckBody, ParseAckHeader, VarintDecode;
    var h := ParseAckHeader(s, true).value;
    var body := AckBody(s, h, isEcn);
    if body.Some? {
      AckSkipped(s, isEcn, true, h, body.value);
    }
  }

  /** A decoded frame is left at the same place by the walk over acknowledged packets; for a multipath ACK exactly if
      the two sides agree about its path, or its ranges are well-formed. */
  lemma DecodedIsAckWalked(s: seq<byte>, env: Env, knownLocal: nat -> bool)
    requires s != [] && Decode(s, env).Some?
    ensures AckOfFrame(s, knownLocal) == Decode(s, env) <==> IsAckMp(s) ==> PathAgrees(s, env.knownRemote, knownLocal)
  {
    hide VarintSkip, VarintDecode, SkipVarints, DecodeVarints, SkipAck, WalkAck, LengthDataSkip, FixedSkip, SkipRun,
         DecodeStream, SkipFrame, ParseNewConnectionId, ParseCrypto, DecodeNewToken,
         DecodeDatagram, DecodePathChallenge, DecodeExtended, GoodRanges, PathAgrees;
    var b := s[0];
    DecodedIsSkipped(s, env);
    if b as int < 0x40 {
      OneByteType(s);
      if b == ACK || b == ACK_ECN {
        SamePathless(s, b == ACK_ECN, env.knownRemote, knownLocal);
      }
    } else {
      var (id, i) := VarintDecode(s, 0).value;
      ExtendedWalked(s, id, i, env, knownLocal);
    }
  }

  lemma SamePathless(s: seq<byte>, isEcn: bool, known: nat -> bool, known': nat -> bool)
    requires s != []
    ensures WalkAck(s, isEcn, false, known) == WalkAck(s, isEcn, false, known')
  {
  }

  lemma ExtendedWalked(s: seq<byte>, id: nat, i: nat, env: Env, knownLocal: nat -> bool)
    requires s != [] && 0 < i <= |s| && VarintDecode(s, 0) == Some((id, i)) && DecodeExtended(s, id, i, env).Some?
    requires SkippedSize(s) == DecodeExtended(s, id, i, env)
    ensures AckOfFrame(s, knownLocal) == DecodeExtended(s, id, i, env)
      <==> IsAckMp(s) ==> PathAgrees(s, env.knownRemote, knownLocal)
  {
    hide VarintDecode, WalkAck, SkipFrame, SkippedSize, GoodRanges, PathAgrees, ParseAckFrequency, ParsePathAbandon,
         ParseBdp, DecodeVarints, ParseNewConnectionId, ParseCrypto, DecodeStream;
    if id == ACK_MP {
      WalkedAckAgrees(s, false, env.knownRemote, knownLocal);
    } else if id == ACK_MP_ECN {
      WalkedAckAgrees(s, true, env.knownRemote, knownLocal);
    }
  }

  // ----- Whole packets

  /** Where the frames from position `i` on end, and whether one of them asks for an ACK; None if one is refused. */
  function DecodeEnds(p: seq<byte>, i: nat, env: Env): Option<(seq<nat>, bool)>
    requires i <= |p|
    decreases |p| - i
  {
    if i == |p| then Some(([], false))
    else
      var n :- DecodeFrame(p[i..], env);
      var (ends, ackNeeded) :- DecodeEnds(p, i + n, env);
      Some(([i + n] + ends, AckNeeded(p[i..]) || ackNeeded))
  }

  function SkipEnds(p: seq<byte>, i: nat): Option<(seq<nat>, bool)>
    requires i <= |p|
    decreases |p| - i
  {
    if i == |p| then Some(([], true))
    else
      var r :- SkipFrame(p[i..]);
      if r.size == 0 || i + r.size > |p| then None
      else
        var (ends, isPureAck) :- SkipEnds(p, i + r.size);
        Some(([i + r.size] + ends, r.isPureAck && isPureAck))
  }

  function AckEnds(p: seq<byte>, i: nat, knownLocal: nat -> bool): Option<seq<nat>>
    requires i <= |p|
    decreases |p| - i
  {
    if i == |p| then Some([])
    else
      var n :- AckOfFrame(p[i..], knownLocal);
      if n == 0 || i + n > |p| then None
      else
        var ends :- AckEnds(p, i + n, knownLocal);
        Some([i + n] + ends)
  }

  /** The two sides agree about every multipath ACK among the frames. */
  ghost predicate PathsAgree(p: seq<byte>, i: nat, env: Env, knownLocal: nat -> bool)
    requires i <= |p|
    decreases |p| - i
  {
    i < |p| && DecodeFrame(p[i..], env).Some? ==>
      && (IsAckMp(p[i..]) ==> PathAgrees(p[i..], env.knownRemote, knownLocal))
      && PathsAgree(p, i + DecodeFrame(p[i..], env).value, env, knownLocal)
  }

  /** A packet that is decoded is skipped frame by frame at the same boundaries, and it is a pure ACK exactly if no
      frame asks for one. */
  lemma {:induction false} PacketSkipped(p: seq<byte>, i: nat, env: Env)
    requires i <= |p| && DecodeEnds(p, i, env).Some?
    ensures var (ends, ackNeeded) := DecodeEnds(p, i, env).value; SkipEnds(p, i) == Some((ends, !ackNeeded))
    decreases |p| - i
  {
    hide Decode, SkipFrame, AckNeeded;
    if i < |p| {
      DecodedIsSkipped(p[i..], env);
      PacketSkipped(p, i + DecodeFrame(p[i..], env).value, env);
    }
  }

  /** Once it is acknowledged, it is walked at the same boundaries, exactly if the two sides agree about its multipath
      ACK frames. */
  lemma {:induction false} PacketAckWalked(p: seq<byte>, i: nat, env: Env, knownLocal: nat -> bool)
    requires i <= |p| && DecodeEnds(p, i, env).Some?
    ensures AckEnds(p, i, knownLocal) == Some(DecodeEnds(p, i, env).value.0) <==> PathsAgree(p, i, env, knownLocal)
    decreases |p| - i
  {
    hide Decode, AckOfFrame, AckNeeded, IsAckMp, PathAgrees;
    if i < |p| {
      DecodedIsAckWalked(p[i..], env, knownLocal);
      var n := DecodeFrame(p[i..], env).value;
      PacketAckWalked(p, i + n, env, knownLocal);
      if AckOfFrame(p[i..], knownLocal) != Some(n) {
        OtherEnds(p, i, n, env, knownLocal);
      } else if AckEnds(p, i + n, knownLocal).Some? {
        SameTails(i + n, AckEnds(p, i + n, knownLocal).value, DecodeEnds(p, i + n, env).value.0);
      }
    }
  }

  lemma SameTails(x: nat, a: seq<nat>, b: seq<nat>)
    ensures [x] + a == [x] + b <==> a == b
  {
    assert ([x] + a)[1..] == a && ([x] + b)[1..] == b;
  }

  lemma OtherEnds(p: seq<byte>, i: nat, n: nat, env: Env, knownLocal: nat -> bool)
    requires i < |p| && DecodeEnds(p, i, env).Some? && DecodeFrame(p[i..], env) == Some(n)
    requires AckOfFrame(p[i..], knownLocal) != Some(n)
    ensures AckEnds(p, i, knownLocal) != Some(DecodeEnds(p, i, env).value.0)
  {
    hide DecodeFrame, AckOfFrame, AckNeeded;
    if AckEnds(p, i, knownLocal).Some? {
      assert AckEnds(p, i, knownLocal).value[0] != i + n;
    }
  }

  /** A multipath ACK that is decoded without its ranges, because the path is unknown there, and that stops the walk of
      its sender, who knows the path: its only range is longer than its largest number. */
  lemma AckMpDisagreement()
    ensures var env := Env(OneRtt, true, true, _ => false, (_, _) => true);
            DecodeFrame(BadAckMp(), env) == Some(9) && AckOfFrame(BadAckMp(), _ => true) == None
  {
    hide VarintDecode, VarintSkip, SkipVarints, AckFrames.DecodeRanges;
    var s := BadAckMp();
    var env := Env(OneRtt, true, true, _ => false, (_, _) => true);
    BadAckMpType();
    OneByteAt(s, 4);
    OneByteAt(s, 5);
    OneByteAt(s, 6);
    OneByteAt(s, 7);
    OneByteAt(s, 8);
    BadRanges();
    NoneSkipped(s, 9);
    assert ParseAckHeader(s, true) == Some(AckHeader(0, 0, 0, 8));
    assert SkipAck(s, false, true) == Some(9);
    assert WalkAck(s, false, true, env.knownRemote) == Some(9);
    assert AckBody(s, AckHeader(0, 0, 0, 8), false) == None;
    assert DecodeExtended(s, ACK_MP, 4, env) == Some(9);
  }

  function BadAckMp(): (s: seq<byte>)
    ensures |s| == 9
  {
    [0x80, 0xba, 0xba, 0x00, 0x00, 0x00, 0x00, 0x00, 0x01]
  }

  lemma BadAckMpType()
    ensures DecodedLength(BadAckMp()[0]) == 4
    ensures VarintDecode(BadAckMp(), 0) == Some((ACK_MP, 4))
  {
    var s := BadAckMp();
    var t: seq<byte> := [0x00, 0xba, 0xba, 0x00];
    assert s[0..] == s && [s[0] % 64] + s[1..4] == t;
    assert t[..3] == [0x00, 0xba, 0xba] && t[..3][..2] == [0x00, 0xba] && t[..2][..1] == [0x00] && t[..1][..0] == [];
    assert FromBigEndian([0x00]) == 0 && FromBigEndian([0x00, 0xba]) == 0xba;
    assert FromBigEndian(t) == ACK_MP;
  }

  lemma OneByteAt(s: seq<byte>, i: nat)
    requires i < |s| && s[i] as int < 0x40
    ensures VarintDecode(s, i) == Some((s[i] as int, i + 1)) && VarintSkip(s, i) == Some(i + 1)
  {
    hide VarintSkip;
    OneByteType(s[i..]);
    assert s[i..][0..] == s[i..];
  }

  lemma BadRanges()
    ensures AckFrames.DecodeRanges(BadAckMp()[8..], 0, 0) == None
  {
  }

  /** The loop of `picoquic_decode_frames` */
  method DecodeFrames(p: seq<byte>, env: Env) returns (ok: bool, ackNeeded: bool, ends: seq<nat>)
    ensures ok <==> DecodeEnds(p, 0, env).Some?
    ensures ok ==> DecodeEnds(p, 0, env).value == (ends, ackNeeded)
  {
    hide DecodeFrame, AckNeeded;
    var i := 0;
    ackNeeded, ends := false, [];
    NothingJoined(DecodeEnds(p, 0, env), AckEnds(p, 0, env.knownRemote));
    while i < |p|
      invariant i <= |p|
      invariant DecodeEnds(p, 0, env) == Joined(ends, ackNeeded, DecodeEnds(p, i, env))
      decreases |p| - i
    {
      var n := DecodeFrame(p[i..], env);
      if n.None? {
        return false, ackNeeded, ends;
      }
      if AckNeeded(p[i..]) {
        ackNeeded := true;
      }
      ghost var rest := DecodeEnds(p, i + n.value, env);
      if rest.Some? {
        assert ends + ([i + n.value] + rest.value.0) == ends + [i + n.value] + rest.value.0;
      }
      ends := ends + [i + n.value];
      i := i + n.value;
    }
    assert ends + [] == ends;
    ok := true;
  }

  ghost function Joined(ends: seq<nat>, flag: bool, rest: Option<(seq<nat>, bool)>): Option<(seq<nat>, bool)> {
    if rest.None? then None else Some((ends + rest.value.0, flag || rest.value.1))
  }

  /** Whether the walk stops at a place where no type can be read, which is not an error. */
  predicate StopsAtType(p: seq<byte>, i: nat, knownLocal: nat -> bool)
    requires i <= |p|
    decreases |p| - i
  {
    i < |p|
    && var n := AckOfFrame(p[i..], knownLocal);
       if n.None? || n.value == 0 || i + n.value > |p| then VarintDecode(p[i..], 0).None?
       else StopsAtType(p, i + n.value, knownLocal)
  }

  /** The loop of `picoquic_process_ack_of_frames` */
  method ProcessAckOfFrames(p: seq<byte>, knownLocal: nat -> bool) returns (ok: bool, ends: seq<nat>)
    ensures ok <==> AckEnds(p, 0, knownLocal).Some? || StopsAtType(p, 0, knownLocal)
    ensures AckEnds(p, 0, knownLocal).Some? ==> ends == AckEnds(p, 0, knownLocal).value
  {
    hide AckOfFrame, VarintDecode;
    var i := 0;
    ends := [];
    NothingJoined(None, AckEnds(p, 0, knownLocal));
    while i < |p|
      invariant i <= |p|
      invariant AckEnds(p, 0, knownLocal) == JoinedEnds(ends, AckEnds(p, i, knownLocal))
      invariant StopsAtType(p, 0, knownLocal) == StopsAtType(p, i, knownLocal)
      decreases |p| - i
    {
      var n := AckOfFrame(p[i..], knownLocal);
      if n.None? || n.value == 0 || i + n.value > |p| {
        return VarintDecode(p[i..], 0).None?, ends;
      }
      ghost var rest := AckEnds(p, i + n.value, knownLocal);
      if rest.Some? {
        assert ends + ([i + n.value] + rest.value) == ends + [i + n.value] + rest.value;
      }
      ends := ends + [i + n.value];
      i := i + n.value;
    }
    assert ends + [] == ends;
    ok := true;
  }

  ghost function JoinedEnds(ends: seq<nat>, rest: Option<seq<nat>>): Option<seq<nat>> {
    if rest.None? then None else Some(ends + rest.value)
  }

  lemma NothingJoined(r: Option<(seq<nat>, bool)>, a: Option<seq<nat>>)
    ensures Joined([], false, r) == r && JoinedEnds([], a) == a
  {
    if r.Some? {
      assert [] + r.value.0 == r.value.0;
    }
    if a.Some? {
      assert [] + a.value == a.value;
    }
  }
}
