/** The data stream filter of picohttp/h3zero.c, and the loop of picohttp/demoserver.c that drives it. */
module H3Filter {
  import opened Wrappers
  import opened Varint
  import opened Qpack
  import opened H3Stream

  class DataStream {
    const frameHeader: array<byte>
    var frameHeaderRead: nat
    var frameHeaderParsed: bool
    var currentFrame: array<byte>
    var currentFrameType: nat
    var currentFrameLength: nat
    var currentFrameRead: nat
    var headerFound: bool
    var dataFound: bool
    var trailerFound: bool
    var header: Parts
    var trailer: Parts
    var payload: seq<byte>  // what the application has received

    ghost predicate Valid()
      reads this, frameHeader, currentFrame
    {
      && frameHeader.Length == 16 && frameHeader != currentFrame
      && (!frameHeaderParsed ==> frameHeaderRead <= 16 && !Complete(frameHeader[..frameHeaderRead]))
      && (frameHeaderParsed ==>
            && currentFrameRead <= currentFrameLength
            && (currentFrameRead == currentFrameLength ==> currentFrameLength == 0)
            && (currentFrameType == HEADERS ==> currentFrame.Length == currentFrameLength))
    }

    /** The state of the stream; the rest of `frameHeader` and of the other fields is not part of it. */
    ghost function View(): State
      requires Valid()
      reads this, frameHeader, currentFrame
    {
      State(
        if !frameHeaderParsed then Header(frameHeader[..frameHeaderRead])
        else Body(currentFrameType, currentFrameLength, currentFrameRead,
                  if currentFrameType == HEADERS then currentFrame[..currentFrameRead] else []),
        headerFound, dataFound, trailerFound, header, trailer, payload)
    }

    constructor ()
      ensures Valid() && View() == START && fresh(frameHeader) && fresh(currentFrame)
    {
      frameHeader := new byte[16](_ => 0);
      frameHeaderRead, frameHeaderParsed := 0, false;
      currentFrame := new byte[0];
      currentFrameType, currentFrameLength, currentFrameRead := 0, 0, 0;
      headerFound, dataFound, trailerFound := false, false, false;
      header, trailer, payload := NO_PARTS, NO_PARTS, [];
    }

    /** The state after an error: the connection is closed, and only these fields count. */
    ghost function Stopped(error: nat): State
      reads this
    {
      State(Failed(error), headerFound, dataFound, trailerFound, header, trailer, payload)
    }

    /** Collects bytes of the frame header, until there are `count`. The header was `h0` at position `start`. */
    method TakeHeader(buf: array<byte>, pos: nat, max: nat, count: nat, ghost start: nat, ghost h0: seq<byte>)
      returns (p: nat)
      requires frameHeader.Length == 16 && buf != frameHeader && start <= pos <= max <= buf.Length
      requires frameHeaderRead <= 16 && count <= 16
      requires frameHeader[..frameHeaderRead] == h0 + buf[start..pos]
      modifies this`frameHeaderRead, frameHeader
      ensures pos <= p <= max && frameHeaderRead == old(frameHeaderRead) + (p - pos) <= 16
      ensures p > pos ==> frameHeaderRead <= count
      ensures frameHeaderRead < count ==> p == max
      ensures frameHeader[..frameHeaderRead] == h0 + buf[start..p]
      ensures frameHeader[..old(frameHeaderRead)] == old(frameHeader[..frameHeaderRead])
    {
      p := pos;
      while frameHeaderRead < count && p < max
        invariant pos <= p <= max && frameHeaderRead == old(frameHeaderRead) + (p - pos) <= 16
        invariant p > pos ==> frameHeaderRead <= count
        invariant frameHeader[..frameHeaderRead] == h0 + buf[start..p]
        invariant frameHeader[..old(frameHeaderRead)] == old(frameHeader[..frameHeaderRead])
      {
        frameHeader[frameHeaderRead] := buf[p];
        frameHeaderRead := frameHeaderRead + 1;
        p := p + 1;
      }
    }

    /** The type and the length of a frame, once all bytes of its header are there. */
    method ReadFrameHeader(buf: array<byte>, pos: nat, max: nat, ghost h0: seq<byte>)
      returns (p: nat, length: Option<nat>)
      requires frameHeader.Length == 16 && buf != frameHeader && pos < max <= buf.Length
      requires frameHeaderRead <= 16 && frameHeader[..frameHeaderRead] == h0 && !Complete(h0)
      modifies this`frameHeaderRead, this`currentFrameType, frameHeader
      ensures pos < p <= max && frameHeaderRead <= 16
      ensures frameHeader[..frameHeaderRead] == h0 + buf[pos..p]
      ensures var h := h0 + buf[pos..p];
              if length.None? then !Complete(h)
              else Complete(h) && |h| == HeaderLength(h) && currentFrameType == KindOf(h) && length.value == LengthOf(h)
    {
      hide Decoding, KindOf, LengthOf, HeaderLength, Complete;
      var typeLength;
      p, typeLength := ReadKind(buf, pos, max, h0);
      ghost var h2 := frameHeader[..frameHeaderRead];
      HeaderFields(h2, typeLength);
      if frameHeaderRead < typeLength {
        return p, None;
      }
      var headerLength;
      p, headerLength := ReadLength(buf, p, max, typeLength, pos, h0);
      ghost var h := frameHeader[..frameHeaderRead];
      HeaderFields(h, typeLength);
      if frameHeaderRead < headerLength {
        return p, None;
      }
      KindStays(h2, h, typeLength);
      assert frameHeader[typeLength..headerLength] == h[typeLength..];
      LengthDecoded(h, typeLength);
      var l := Decode(frameHeader, typeLength, headerLength);
      return p, Some(l.value.0);
    }

    method ReadKind(buf: array<byte>, pos: nat, max: nat, ghost h0: seq<byte>) returns (p: nat, typeLength: nat)
      requires frameHeader.Length == 16 && buf != frameHeader && pos < max <= buf.Length
      requires frameHeaderRead <= 16 && frameHeader[..frameHeaderRead] == h0
      modifies this`frameHeaderRead, this`currentFrameType, frameHeader
      ensures pos <= p <= max && frameHeaderRead <= 16
      ensures frameHeader[..frameHeaderRead] == h0 + buf[pos..p]
      ensures frameHeaderRead > 0 && typeLength == DecodedLength(frameHeader[0])
      ensures p > pos ==> frameHeaderRead <= typeLength
      ensures frameHeaderRead < typeLength ==> p == max
      ensures frameHeaderRead >= typeLength ==>
        var d := Decoding(frameHeader[..frameHeaderRead]); d.Some? && currentFrameType == d.value.0
    {
      hide Decoding;
      assert buf[pos..pos] == [];
      p := TakeHeader(buf, pos, max, 1, pos, h0);
      typeLength := DecodedLength(frameHeader[0]);
      ghost var first := frameHeader[..frameHeaderRead];
      p := TakeHeader(buf, p, max, typeLength, pos, h0);
      ghost var h := frameHeader[..frameHeaderRead];
      assert h[0] == first[0] == frameHeader[0];
      if frameHeaderRead >= typeLength {
        assert frameHeader[0..typeLength] == h[..typeLength];
        KindDecoded(h, typeLength);
        var kind := Decode(frameHeader, 0, typeLength);
        currentFrameType := kind.value.0;
      }
    }

    /** Until the first byte of the length is there, the byte at its place is a stale one; it does not matter. */
    method ReadLength(buf: array<byte>, pos: nat, max: nat, typeLength: nat, ghost start: nat, ghost h0: seq<byte>)
      returns (p: nat, headerLength: nat)
      requires frameHeader.Length == 16 && buf != frameHeader && start <= pos <= max <= buf.Length
      requires typeLength <= frameHeaderRead <= 16 && typeLength <= 8
      requires frameHeader[..frameHeaderRead] == h0 + buf[start..pos]
      modifies this`frameHeaderRead, frameHeader
      ensures pos <= p <= max && old(frameHeaderRead) <= frameHeaderRead <= 16
      ensures frameHeader[..frameHeaderRead] == h0 + buf[start..p]
      ensures frameHeader[..old(frameHeaderRead)] == old(frameHeader[..frameHeaderRead])
      ensures frameHeaderRead == old(frameHeaderRead) + (p - pos)
      ensures typeLength < headerLength <= 16
      ensures p > pos ==> frameHeaderRead <= headerLength
      ensures frameHeaderRead < headerLength ==> p == max
      ensures frameHeaderRead > typeLength ==> headerLength == typeLength + DecodedLength(frameHeader[typeLength])
    {
      ghost var h2 := frameHeader[..frameHeaderRead];
      p := TakeHeader(buf, pos, max, typeLength + 1, start, h0);
      headerLength := DecodedLength(frameHeader[typeLength]) + typeLength;
      ghost var h3 := frameHeader[..frameHeaderRead];
      p := TakeHeader(buf, p, max, headerLength, start, h0);
      ghost var h := frameHeader[..frameHeaderRead];
      assert frameHeader[..|h3|] == h3 && h2 == h3[..|h2|];
      assert |h3| > typeLength ==> frameHeader[typeLength] == h3[typeLength];
    }

    method CheckFrame(ghost s: State) returns (error: Option<nat>)
      requires s.headerFound == headerFound && s.dataFound == dataFound && s.trailerFound == trailerFound
      ensures error == Refusal(s, currentFrameType, currentFrameLength)
    {
      error := None;
      if currentFrameType == DATA {
        if !headerFound || trailerFound {
          error := Some(FRAME_UNEXPECTED);
        }
      } else if currentFrameType == HEADERS {
        if headerFound && (!dataFound || trailerFound) {
          error := Some(FRAME_UNEXPECTED);
        } else if currentFrameLength > MAX_HEADERS {
          error := Some(INTERNAL_ERROR);
        }
      } else if currentFrameType == CANCEL_PUSH || currentFrameType == GOAWAY || currentFrameType == MAX_PUSH_ID {
        error := Some(GENERAL_PROTOCOL_ERROR);
      } else if currentFrameType == SETTINGS {
        error := Some(FRAME_UNEXPECTED);
      }
    }

    /** The first half of `h3zero_parse_data_stream`: a frame header. */
    method ParseHeader(buf: array<byte>, pos: nat, max: nat) returns (next: Option<nat>, error: nat)
      requires Valid() && !frameHeaderParsed && pos < max <= buf.Length && buf != frameHeader && buf != currentFrame
      modifies this, frameHeader
      ensures currentFrame == old(currentFrame) || fresh(currentFrame)
      ensures payload == old(payload)
      ensures next.Some? ==>
        Valid() && pos < next.value <= max && Run(View(), buf[next.value..max]) == Run(old(View()), buf[pos..max])
      ensures next.None? ==> Run(old(View()), buf[pos..max]) == Stopped(error)
    {
      hide Run, KindOf, LengthOf, Refusal, HeaderLength, Complete;
      ghost var s0, h0, bytes := View(), frameHeader[..frameHeaderRead], buf[pos..max];
      var p, length := ReadFrameHeader(buf, pos, max, h0);
      assert bytes[..p - pos] == buf[pos..p] && bytes[p - pos..] == buf[p..max];
      ghost var h := frameHeader[..frameHeaderRead];
      if length.None? {
        HeaderIncomplete(s0, h0, bytes, p - pos, h);
        return Some(p), 0;
      }
      HeaderDone(s0, h0, bytes, p - pos, h);
      currentFrameLength := length.value;
      currentFrameRead := 0;
      frameHeaderParsed := true;
      var refusal := CheckFrame(s0);
      if refusal.Some? {
        RunFailed(Stopped(refusal.value), buf[p..max]);
        return None, refusal.value;
      }
      if currentFrameType == HEADERS {
        currentFrame := new byte[currentFrameLength];
      }
      return Some(p), 0;
    }

    /** More bytes of a HEADERS frame. At the end of the frame, its block is parsed. */
    method TakeBlock(buf: array<byte>, pos: nat, available: nat) returns (error: Option<nat>)
      requires Valid() && frameHeaderParsed && currentFrameType == HEADERS && buf != frameHeader && buf != currentFrame
      requires pos + available <= buf.Length && currentFrameRead + available <= currentFrameLength
      requires available == 0 ==> currentFrameLength == 0
      modifies this, currentFrame
      ensures currentFrame == old(currentFrame) && payload == old(payload)
      ensures var s := Settled(Taken(old(View()), buf[pos..pos + available]));
              if error.Some? then s == Stopped(error.value) else Valid() && View() == s
      ensures error.None? && available == 0 ==> !frameHeaderParsed
    {
      hide ParseBlock, Finish, Complete;
      ghost var s0 := View();
      ghost var content := currentFrame[..currentFrameRead];
      forall i | 0 <= i < available {
        currentFrame[currentFrameRead + i] := buf[pos + i];
      }
      currentFrameRead := currentFrameRead + available;
      assert currentFrame[..currentFrameRead] == content + buf[pos..pos + available];
      error := None;
      if currentFrameRead >= currentFrameLength {
        error := EndBlock(Taken(s0, buf[pos..pos + available]));
      }
    }

    method EndBlock(ghost s: State) returns (error: Option<nat>)
      requires frameHeader.Length == 16 && frameHeader != currentFrame
      requires currentFrame.Length == currentFrameLength
      requires s == State(Body(HEADERS, currentFrameLength, currentFrameLength, currentFrame[..currentFrameLength]),
                          headerFound, dataFound, trailerFound, header, trailer, payload)
      modifies this
      ensures currentFrame == old(currentFrame) && payload == old(payload) && !frameHeaderParsed
      ensures if error.Some? then Finish(s) == Stopped(error.value) else Valid() && View() == Finish(s)
    {
      hide ParseBlock, HeaderLength;
      var parts := ReadBlock(currentFrame, 0, currentFrameLength);
      error := if parts.None? then Some(FRAME_ERROR) else None;
      if parts.Some? {
        if headerFound {
          trailer := parts.value;
        } else {
          header := parts.value;
        }
      }
      trailerFound := headerFound;
      headerFound := true;
      BetweenFrames();
    }

    /** Back to the start of a frame header. */
    method BetweenFrames()
      requires frameHeader.Length == 16 && frameHeader != currentFrame
      modifies this`frameHeaderParsed, this`frameHeaderRead
      ensures !frameHeaderParsed && frameHeaderRead == 0 && Valid() && View().phase == Header([])
    {
      frameHeaderParsed := false;
      frameHeaderRead := 0;
      assert frameHeader[..0] == [];
    }

    /** The second half of `h3zero_parse_data_stream`: the content of a frame. The bytes of a DATA frame are left to
        the caller. */
    method ParseContent(buf: array<byte>, pos: nat, max: nat) returns (next: Option<nat>, available: nat, error: nat)
      requires Valid() && frameHeaderParsed && pos < max <= buf.Length && buf != frameHeader && buf != currentFrame
      modifies this, currentFrame
      ensures currentFrame == old(currentFrame) && payload == old(payload)
      ensures next.Some? ==>
        && Valid() && pos <= next.value && next.value + available <= max
        && Run(View().(payload := payload + buf[next.value..next.value + available]), buf[next.value + available..max])
        == Run(old(View()), buf[pos..max])
        && (next.value + available == pos ==> !frameHeaderParsed)
      ensures next.None? ==> Run(old(View()), buf[pos..max]) == Stopped(error)
    {
      hide Run, Finish, Complete;
      ghost var s0, bytes := View(), buf[pos..max];
      var n := max - pos;
      if currentFrameRead + n > currentFrameLength {
        n := currentFrameLength - currentFrameRead;
      }
      ghost var x := buf[pos..pos + n];
      assert bytes[..n] == x && bytes[n..] == buf[pos + n..max];
      ContentRun(s0, bytes, n);
      available, error := 0, 0;
      if currentFrameType == HEADERS {
        var failed := TakeBlock(buf, pos, n);
        if failed.Some? {
          RunFailed(Stopped(failed.value), buf[pos + n..max]);
          return None, 0, failed.value;
        }
        next := Some(pos + n);
        assert buf[pos + n..pos + n] == [] && payload + [] == payload;
      } else {
        available := TakeOther(n, x);
        next := Some(pos + n - available);
        assert available == 0 ==> buf[pos + n..pos + n] == [];
      }
    }

    /** More bytes of a DATA frame, or of an unknown frame. */
    method TakeOther(n: nat, ghost x: seq<byte>) returns (available: nat)
      requires Valid() && frameHeaderParsed && currentFrameType != HEADERS
      requires n == |x| && currentFrameRead + n <= currentFrameLength && (n == 0 ==> currentFrameLength == 0)
      modifies this
      ensures currentFrame == old(currentFrame) && payload == old(payload) && Valid()
      ensures available == if old(currentFrameType) == DATA then n else 0
      ensures View().(payload := payload + if available == 0 then [] else x) == Settled(Taken(old(View()), x))
      ensures n == 0 ==> !frameHeaderParsed
    {
      hide Finish, Complete;
      ghost var s0 := View();
      currentFrameRead := currentFrameRead + n;
      available := if currentFrameType == DATA then n else 0;
      assert payload + [] == payload;
      if currentFrameRead >= currentFrameLength {
        EndFrame(Taken(s0, x));
        if currentFrameType == DATA {
          dataFound := true;
        }
        BetweenFrames();
      }
    }

    /** `h3zero_parse_data_stream`: one frame header, or what there is of the content of one frame. */
    method ParseDataStream(buf: array<byte>, pos: nat, max: nat) returns (next: Option<nat>, available: nat, error: nat)
      requires Valid() && pos <= max <= buf.Length && buf != frameHeader && buf != currentFrame
      modifies this, frameHeader, currentFrame
      ensures currentFrame == old(currentFrame) || fresh(currentFrame)
      ensures payload == old(payload)
      ensures pos == max ==> next.None? && error == INTERNAL_ERROR && Valid() && View() == old(View())
      ensures next.Some? ==>
        && Valid() && pos <= next.value && next.value + available <= max
        && Run(View().(payload := payload + buf[next.value..next.value + available]), buf[next.value + available..max])
        == Run(old(View()), buf[pos..max])
        && (next.value + available == pos ==> old(frameHeaderParsed) && !frameHeaderParsed)
      ensures pos < max && next.None? ==> Run(old(View()), buf[pos..max]) == Stopped(error)
    {
      hide Run, DataStream.Valid, DataStream.View;
      available := 0;
      if pos >= max {
        return None, 0, INTERNAL_ERROR;
      }
      if !frameHeaderParsed {
        next, error := ParseHeader(buf, pos, max);
        if next.Some? {
          assert buf[next.value..next.value] == [];
          SamePayload();
        }
      } else {
        next, available, error := ParseContent(buf, pos, max);
      }
    }

    /** The application gets the bytes of a DATA frame. */
    method Deliver(x: seq<byte>)
      requires Valid()
      modifies this`payload
      ensures Valid() && View() == old(View()).(payload := old(payload) + x)
    {
      payload := payload + x;
    }

    lemma SamePayload()
      requires Valid()
      ensures View().(payload := payload + []) == View()
    {
    }

    /** The loop of `h3zero_server_callback_data`: after each chunk the state is what the bytes mean. */
    method Receive(buf: array<byte>, pos: nat, max: nat) returns (error: Option<nat>)
      requires Valid() && pos <= max <= buf.Length && buf != frameHeader && buf != currentFrame
      modifies this, frameHeader, currentFrame
      ensures currentFrame == old(currentFrame) || fresh(currentFrame)
      ensures error.None? ==> Valid() && View() == Run(old(View()), buf[pos..max])
      ensures error.Some? ==> Run(old(View()), buf[pos..max]) == Stopped(error.value)
    {
      hide Run, DataStream.Valid, DataStream.View;
      var p := pos;
      while p < max
        invariant pos <= p <= max && Valid() && buf != frameHeader && buf != currentFrame
        invariant currentFrame == old(currentFrame) || fresh(currentFrame)
        invariant Run(View(), buf[p..max]) == Run(old(View()), buf[pos..max])
        decreases max - p, frameHeaderParsed
      {
        var next, available, e := ParseDataStream(buf, p, max);
        if next.None? {
          return Some(e);
        }
        Deliver(buf[next.value..next.value + available]);
        p := next.value + available;
      }
      assert buf[p..max] == [];
      RunNothing(View());
      return None;
    }

    /** The bytes of a stream arrive cut in any way; after an error no more are taken. The outcome is what all bytes
        mean, as one string. */
    method ReceiveChunks(chunks: seq<seq<byte>>) returns (error: Option<nat>)
      requires Valid()
      modifies this, frameHeader, currentFrame
      ensures error.None? ==> Valid() && View() == Run(old(View()), Concat(chunks))
      ensures error.Some? ==> Run(old(View()), Concat(chunks)) == Stopped(error.value)
    {
      hide Run, DataStream.Valid, DataStream.View;
      var i := 0;
      while i < |chunks|
        invariant i <= |chunks| && Valid() && (currentFrame == old(currentFrame) || fresh(currentFrame))
        invariant Run(View(), Concat(chunks[i..])) == Run(old(View()), Concat(chunks))
      {
        var chunk := chunks[i];
        var buf := new byte[|chunk|](k requires 0 <= k < |chunk| => chunk[k]);
        assert buf[0..|chunk|] == chunk;
        NextChunk(View(), chunks, i);
        error := Receive(buf, 0, |chunk|);
        if error.Some? {
          RunFailed(Stopped(error.value), Concat(chunks[i + 1..]));
          return;
        }
        i := i + 1;
      }
      NoChunks(View());
      assert chunks[i..] == [];
      return None;
    }
  }

  lemma NextChunk(s: State, chunks: seq<seq<byte>>, i: nat)
    requires i < |chunks|
    ensures Run(s, Concat(chunks[i..])) == Run(Run(s, chunks[i]), Concat(chunks[i + 1..]))
  {
    hide Run;
    assert chunks[i..][1..] == chunks[i + 1..];
    RunAppend(s, chunks[i], Concat(chunks[i + 1..]));
  }

  lemma NoChunks(s: State)
    ensures Run(s, Concat([])) == s
  {
  }

  /** Two streams that receive the same bytes, cut in different ways, end with the same error or in the same state, with
      the same header, trailer and payload. */
  method CutsAgree(a: seq<seq<byte>>, b: seq<seq<byte>>)
    returns (s: DataStream, errorS: Option<nat>, t: DataStream, errorT: Option<nat>)
    requires Concat(a) == Concat(b)
    ensures errorS == errorT
    ensures s.header == t.header && s.trailer == t.trailer && s.payload == t.payload
    ensures errorS.None? ==> s.Valid() && t.Valid() && s.View() == t.View()
  {
    hide Run, Concat, DataStream.Valid;
    s := new DataStream();
    errorS := s.ReceiveChunks(a);
    ghost var outcome := if errorS.None? then s.View() else s.Stopped(errorS.value);
    t := new DataStream();
    errorT := t.ReceiveChunks(b);
  }

  lemma ContentRun(s: State, bytes: seq<byte>, n: nat)
    requires s.phase.Body? && bytes != [] && n <= |bytes| && s.phase.read + n <= s.phase.length
    requires n == 0 ==> Whole(s)
    ensures Run(Settled(Taken(s, bytes[..n])), bytes[n..]) == Run(s, bytes)
  {
    hide Run, Finish;
    if n > 0 {
      RunBody(s, bytes[..n], bytes[n..]);
      assert bytes == bytes[..n] + bytes[n..];
    } else {
      assert bytes[..0] == [] && bytes[0..] == bytes;
      TakenNothing(s);
      RunSettled(s, bytes);
    }
  }

  lemma TakenNothing(s: State)
    requires s.phase.Body?
    ensures Taken(s, []) == s
  {
  }

  lemma EndFrame(s: State)
    requires s.phase.Body? && s.phase.kind != HEADERS
    ensures Finish(s) == s.(phase := Header([]), dataFound := s.dataFound || s.phase.kind == DATA)
  {
  }

  lemma LengthDecoded(h: seq<byte>, typeLength: nat)
    requires h != [] && typeLength == DecodedLength(h[0]) && Complete(h)
    ensures Decoding(h[typeLength..]).Some? && Decoding(h[typeLength..]).value.0 == LengthOf(h)
  {
  }

  lemma HeaderFields(h: seq<byte>, typeLength: nat)
    requires h != [] && typeLength == DecodedLength(h[0])
    ensures |h| <= typeLength ==> !Complete(h) && HeaderLength(h) > |h|
    ensures |h| > typeLength ==>
      HeaderLength(h) == typeLength + DecodedLength(h[typeLength]) && (Complete(h) <==> |h| >= HeaderLength(h))
  {
  }

  lemma KindDecoded(h: seq<byte>, typeLength: nat)
    requires h != [] && typeLength == DecodedLength(h[0]) <= |h|
    ensures Decoding(h[..typeLength]).Some? && Decoding(h[..typeLength]) == Decoding(h)
  {
    assert h == h[..typeLength] + h[typeLength..];
    DecodingPrefix(h[..typeLength], h[typeLength..]);
  }

  lemma KindStays(h2: seq<byte>, h: seq<byte>, typeLength: nat)
    requires h2 != [] && typeLength == DecodedLength(h2[0]) <= |h2| <= |h| && h[..|h2|] == h2
    ensures Decoding(h) == Decoding(h2)
    ensures Complete(h) ==> KindOf(h) == Decoding(h2).value.0
  {
    assert h == h2 + h[|h2|..];
    DecodingPrefix(h2, h[|h2|..]);
  }

  lemma HeaderDone(s: State, h0: seq<byte>, bytes: seq<byte>, n: nat, h: seq<byte>)
    requires s.phase == Header(h0) && 0 < n <= |bytes| && h == h0 + bytes[..n]
    requires Complete(h) && |h| == HeaderLength(h)
    ensures Run(Begin(s, KindOf(h), LengthOf(h)), bytes[n..]) == Run(s, bytes)
  {
    hide Run, Complete, HeaderLength, Begin;
    RunHeaderEnd(s, bytes[..n], bytes[n..]);
    assert bytes == bytes[..n] + bytes[n..];
  }

  lemma HeaderIncomplete(s: State, h0: seq<byte>, bytes: seq<byte>, n: nat, h: seq<byte>)
    requires s.phase == Header(h0) && n <= |bytes| && h == h0 + bytes[..n] && !Complete(h)
    ensures Run(s.(phase := Header(h)), bytes[n..]) == Run(s, bytes)
  {
    hide Run, Complete;
    RunHeader(s, bytes[..n], bytes[n..]);
    assert bytes == bytes[..n] + bytes[n..];
  }
}
