/** DATAGRAM frames of picoquic/frames.c: with a length field if there is room for it, else padded in front so that
    they end with the packet. */
module Datagram {
  import opened Wrappers
  import opened Varint
  import opened StreamFrames

  const DATAGRAM: byte := 0x30
  const DATAGRAM_L: byte := 0x31

  function DatagramBytes(data: seq<byte>, hasLength: bool): seq<byte> {
    if hasLength then [DATAGRAM_L] + Encoding(|data|) + data else [DATAGRAM] + data
  }

  /** `picoquic_decode_datagram_frame_header`: the data, and the size of the frame */
  function ParseDatagram(s: seq<byte>): Option<(seq<byte>, nat)>
    requires s != []
  {
    if s[0] as int % 2 == 1 then
      var (length, l) :- Decoding(s[1..]);
      if 1 + l + length > |s| then None else Some((s[1 + l..1 + l + length], 1 + l + length))
    else Some((s[1..], |s|))
  }

  /** What a receiver finds behind the padding */
  function AfterPadding(s: seq<byte>): seq<byte> {
    if s == [] || s[0] != PADDING then s else AfterPadding(s[1..])
  }

  /** A frame with a length is found whatever follows it, and one without a length if nothing follows. */
  lemma DatagramRoundTrip(data: seq<byte>, hasLength: bool, rest: seq<byte>)
    requires |data| < TWO_62 && (hasLength || rest == [])
    ensures ParseDatagram(DatagramBytes(data, hasLength) + rest) == Some((data, |DatagramBytes(data, hasLength)|))
  {
    hide Encoding, Decoding;
    var s := DatagramBytes(data, hasLength) + rest;
    if hasLength {
      var l := |Encoding(|data|)|;
      assert s[1..] == Encoding(|data|) + (data + rest);
      EncodingRoundTrip(|data|, data + rest);
      assert s[1 + l..1 + l + |data|] == data;
    } else {
      assert s[1..] == data;
    }
  }

  lemma {:induction false} PaddingSkipped(n: nat, s: seq<byte>)
    requires s != [] && s[0] != PADDING
    ensures AfterPadding(Zeros(n) + s) == s
  {
    if n == 0 {
      assert Zeros(0) + s == s;
    } else {
      assert (Zeros(n) + s)[1..] == Zeros(n - 1) + s;
      PaddingSkipped(n - 1, s);
    }
  }

  /** There is room for the type, a length field and the data. */
  predicate Delimited(length: nat, space: nat) {
    1 + EncodedLength(length) + length <= space
  }

  /** The bytes for a datagram in `space` bytes at the end of a packet */
  function Region(data: seq<byte>, space: nat): seq<byte>
    requires 1 + |data| <= space
  {
    if Delimited(|data|, space) then DatagramBytes(data, true)
    else Zeros(space - 1 - |data|) + DatagramBytes(data, false)
  }

  /** Behind the padding there is exactly the datagram. If the frame has no length field, it ends with the packet. */
  lemma RegionRoundTrip(data: seq<byte>, space: nat, rest: seq<byte>)
    requires |data| < TWO_62 && 1 + |data| <= space
    requires |Region(data, space)| + |rest| == space
    ensures var s := AfterPadding(Region(data, space) + rest);
            && s != [] && ParseDatagram(s).Some? && ParseDatagram(s).value.0 == data
            && s[ParseDatagram(s).value.1..] == rest
            && (!Delimited(|data|, space) ==> rest == [])
  {
    hide Encoding, Decoding, ParseDatagram;
    var hasLength := Delimited(|data|, space);
    var f := DatagramBytes(data, hasLength);
    var pad := if hasLength then 0 else space - 1 - |data|;
    assert Region(data, space) + rest == Zeros(pad) + (f + rest);
    PaddingSkipped(pad, f + rest);
    DatagramRoundTrip(data, hasLength, rest);
    assert (f + rest)[|f|..] == rest;
  }

  /** `picoquic_provide_datagram_buffer`, and the copy by the application. The type `DATAGRAM_L` is at `pos`. */
  method ProvideDatagram(buf: array<byte>, pos: nat, max: nat, allowed: nat, data: seq<byte>) returns (next: nat)
    requires pos < max <= buf.Length && buf[pos] == DATAGRAM_L && 1 + allowed <= max - pos
    requires |data| < TWO_62
    modifies buf
    ensures SameOutside(old(buf[..]), buf[..], pos, max)
    ensures |data| > allowed ==> next == pos
    ensures |data| <= allowed ==>
      next == pos + |Region(data, max - pos)| <= max && buf[pos..next] == Region(data, max - pos)
  {
    hide Encoding, SameOutside, Splice;
    ghost var b := buf[..];
    SameOutsideItself(b, pos, max);
    if |data| > allowed {
      return pos;
    }
    var afterLength := Encode(buf, pos + 1, max, |data|);
    ghost var b1 := buf[..];
    if afterLength.Some? {
      SpliceSameOutside(b, pos + 1, Encoding(|data|), pos, max);
      SpliceSlice(b, pos + 1, Encoding(|data|));
    }
    if afterLength.None? || afterLength.value + |data| > max {
      WriteAtEnd(buf, pos, max, data);
      SameOutsideJoin(b, b1, buf[..], pos, max);
      next := max;
    } else {
      ghost var head := [DATAGRAM_L] + Encoding(|data|);
      assert b1[pos..afterLength.value] == head;
      CopyData(buf, afterLength.value, data);
      next := afterLength.value + |data|;
      Extended(b1, buf[..], pos, afterLength.value, next, head, data);
      Outside(b, b1, buf[..], pos, max);
    }
  }

  lemma Extended(b1: seq<byte>, b2: seq<byte>, pos: nat, mid: nat, next: nat, head: seq<byte>, data: seq<byte>)
    requires pos <= mid <= next <= |b1| == |b2| && b1[pos..mid] == head
    requires b2[..mid] == b1[..mid] && b2[mid..next] == data
    ensures b2[pos..next] == head + data
  {
  }

  /** Padding, the type without length, and the data up to the end of the packet */
  method WriteAtEnd(buf: array<byte>, pos: nat, max: nat, data: seq<byte>)
    requires pos + 1 + |data| <= max <= buf.Length
    modifies buf
    ensures SameOutside(old(buf[..]), buf[..], pos, max)
    ensures buf[pos..max] == Zeros(max - pos - 1 - |data|) + DatagramBytes(data, false)
  {
    ghost var b := buf[..];
    var delta := max - (pos + 1 + |data|);
    forall i | pos <= i < pos + delta {
      buf[i] := PADDING;
    }
    buf[pos + delta] := DATAGRAM;
    ghost var b1 := buf[..];
    assert b1[pos..pos + delta + 1] == Zeros(delta) + [DATAGRAM];
    assert SameOutside(b, b1, pos, max);
    CopyData(buf, pos + delta + 1, data);
    Extended(b1, buf[..], pos, pos + delta + 1, max, Zeros(delta) + [DATAGRAM], data);
    assert Zeros(delta) + [DATAGRAM] + data == Zeros(delta) + ([DATAGRAM] + data);
    assert buf[..pos] == b1[..pos + delta + 1][..pos];
    Outside(b, b1, buf[..], pos, max);
  }

  lemma Outside(b: seq<byte>, b1: seq<byte>, b2: seq<byte>, pos: nat, max: nat)
    requires SameOutside(b, b1, pos, max) && |b2| == |b1|
    requires b2[..pos] == b1[..pos] && b2[max..] == b1[max..]
    ensures SameOutside(b, b2, pos, max)
  {
  }

  method CopyData(buf: array<byte>, pos: nat, data: seq<byte>)
    requires pos + |data| <= buf.Length
    modifies buf
    ensures buf[..pos] == old(buf[..pos]) && buf[pos + |data|..] == old(buf[pos + |data|..])
    ensures buf[pos..pos + |data|] == data
  {
    forall i | 0 <= i < |data| {
      buf[pos + i] := data[i];
    }
  }

  /** `picoquic_format_ready_datagram_frame`: nothing, or one datagram of the application */
  method FormatReadyDatagram(buf: array<byte>, pos: nat, max: nat, maxFrameSize: nat, data: Option<seq<byte>>)
    returns (next: nat, moreData: bool)
    requires pos <= max <= buf.Length && (data.Some? ==> |data.value| < TWO_62)
    modifies buf
    ensures SameOutside(old(buf[..]), buf[..], pos, max)
    ensures moreData <==> pos + 17 > max
    ensures next > pos <==> !moreData && data.Some? && |data.value| <= maxFrameSize && 1 + |data.value| <= max - pos
    ensures next > pos ==>
      next == pos + |Region(data.value, max - pos)| <= max && buf[pos..next] == Region(data.value, max - pos)
    ensures next >= pos
  {
    hide SameOutside, Region;
    ghost var b := buf[..];
    SameOutsideItself(b, pos, max);
    if pos >= max {
      return pos, true;
    }
    buf[pos] := DATAGRAM_L;
    SpliceOne(b, pos, DATAGRAM_L);
    SpliceSameOutside(b, pos, [DATAGRAM_L], pos, max);
    if pos + 1 + 16 > max {
      return pos, true;
    }
    var allowed := max - (pos + 1);
    if allowed > maxFrameSize {
      allowed := maxFrameSize;
    }
    next, moreData := pos, false;
    if data.Some? {
      ghost var b1 := buf[..];
      next := ProvideDatagram(buf, pos, max, allowed, data.value);
      SameOutsideJoin(b, b1, buf[..], pos, max);
      if |data.value| <= allowed {
        RegionNotEmpty(data.value, max - pos);
      }
    }
  }

  lemma RegionNotEmpty(data: seq<byte>, space: nat)
    requires 1 + |data| <= space
    ensures |Region(data, space)| > 0
  {
  }
}
