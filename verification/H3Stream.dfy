/** What the frames of an HTTP/3 request stream mean (section 7.1 of RFC 9114), byte by byte. */
module H3Stream {
  import opened Wrappers
  import opened Varint
  import opened Qpack

  const GENERAL_PROTOCOL_ERROR: nat := 0x0101
  const INTERNAL_ERROR: nat := 0x0102
  const FRAME_UNEXPECTED: nat := 0x0105
  const FRAME_ERROR: nat := 0x0106

  const DATA: nat := 0
  const HEADERS: nat := 1
  const CANCEL_PUSH: nat := 3
  const SETTINGS: nat := 4
  const GOAWAY: nat := 7
  const MAX_PUSH_ID: nat := 0xd

  const MAX_HEADERS: nat := 0x10000

  /** Between frames or in a frame header; in a frame; or stopped by an error. A frame without content stays in
      `Body` until the next byte arrives. */
  datatype Phase =
    | Header(bytes: seq<byte>)
    | Body(kind: nat, length: nat, read: nat, content: seq<byte>)
    | Failed(error: nat)

  /** `payload` is the content of the DATA frames so far. */
  datatype State = State(phase: Phase, headerFound: bool, dataFound: bool, trailerFound: bool,
                         header: Parts, trailer: Parts, payload: seq<byte>)

  const START := State(Header([]), false, false, false, NO_PARTS, NO_PARTS, [])

  // ----- Frame headers

  /** The length of the frame header, as far as `h` tells; it is more than |h| as long as `h` is not complete. */
  function HeaderLength(h: seq<byte>): nat {
    if h == [] then 1
    else if |h| <= DecodedLength(h[0]) then DecodedLength(h[0]) + 1
    else DecodedLength(h[0]) + DecodedLength(h[DecodedLength(h[0])])
  }

  predicate Complete(h: seq<byte>) {
    |h| >= HeaderLength(h)
  }

  function KindOf(h: seq<byte>): nat
    requires Complete(h)
  {
    Decoding(h).value.0
  }

  function LengthOf(h: seq<byte>): nat
    requires Complete(h)
  {
    Decoding(h[DecodedLength(h[0])..]).value.0
  }

  /** The checks at the end of a frame header. */
  function Refusal(s: State, kind: nat, length: nat): Option<nat> {
    if kind == DATA then
      if !s.headerFound || s.trailerFound then Some(FRAME_UNEXPECTED) else None
    else if kind == HEADERS then
      if s.headerFound && (!s.dataFound || s.trailerFound) then Some(FRAME_UNEXPECTED)
      else if length > MAX_HEADERS then Some(INTERNAL_ERROR) else None
    else if kind == CANCEL_PUSH || kind == GOAWAY || kind == MAX_PUSH_ID then Some(GENERAL_PROTOCOL_ERROR)
    else if kind == SETTINGS then Some(FRAME_UNEXPECTED)
    else None
  }

  function Begin(s: State, kind: nat, length: nat): State {
    match Refusal(s, kind, length)
    case Some(error) => s.(phase := Failed(error))
    case None => s.(phase := Body(kind, length, 0, []))
  }

  // ----- Frame contents

  predicate Whole(s: State) {
    s.phase.Body? && s.phase.read == s.phase.length
  }

  /** All bytes of the frame are there. */
  function Finish(s: State): State
    requires s.phase.Body?
  {
    if s.phase.kind == HEADERS then
      var t := s.(trailerFound := s.headerFound, headerFound := true);
      match ParseBlock(s.phase.content)
      case None => t.(phase := Failed(FRAME_ERROR))
      case Some(parts) =>
        if s.headerFound then t.(phase := Header([]), trailer := parts) else t.(phase := Header([]), header := parts)
    else if s.phase.kind == DATA then s.(phase := Header([]), dataFound := true)
    else s.(phase := Header([]))
  }

  /** More bytes of the frame. */
  function Taken(s: State, x: seq<byte>): State
    requires s.phase.Body?
  {
    var t := s.(phase := s.phase.(read := s.phase.read + |x|));
    if s.phase.kind == HEADERS then t.(phase := t.phase.(content := s.phase.content + x))
    else if s.phase.kind == DATA then t.(payload := s.payload + x)
    else t
  }

  function Settled(s: State): State {
    if Whole(s) then Finish(s) else s
  }

  function StepHeader(s: State, b: byte): State
    requires s.phase.Header?
  {
    var h := s.phase.bytes + [b];
    if Complete(h) then Begin(s, KindOf(h), LengthOf(h)) else s.(phase := Header(h))
  }

  function Step(s: State, b: byte): State {
    var t := Settled(s);
    match t.phase
    case Failed(_) => t
    case Header(_) => StepHeader(t, b)
    case Body(_, _, _, _) => Settled(Taken(t, [b]))
  }

  /** The meaning of a byte string. */
  function Run(s: State, bytes: seq<byte>): State
    decreases |bytes|
  {
    if bytes == [] then s else Run(Step(s, bytes[0]), bytes[1..])
  }

  // ----- Chunks

  lemma {:induction false} RunAppend(s: State, a: seq<byte>, b: seq<byte>)
    ensures Run(s, a + b) == Run(Run(s, a), b)
    decreases a
  {
    hide Step;
    if a == [] {
      assert a + b == b;
    } else {
      RunAppend(Step(s, a[0]), a[1..], b);
      assert (a + b)[1..] == a[1..] + b;
    }
  }

  lemma {:induction false} RunFailed(s: State, bytes: seq<byte>)
    requires s.phase.Failed?
    ensures Run(s, bytes) == s
    decreases bytes
  {
    if bytes != [] {
      RunFailed(s, bytes[1..]);
    }
  }

  function Concat(chunks: seq<seq<byte>>): seq<byte> {
    if chunks == [] then [] else chunks[0] + Concat(chunks[1..])
  }

  function RunChunks(s: State, chunks: seq<seq<byte>>): State
    decreases |chunks|
  {
    if chunks == [] then s else RunChunks(Run(s, chunks[0]), chunks[1..])
  }

  lemma {:induction false} RunChunksIsRun(s: State, chunks: seq<seq<byte>>)
    ensures RunChunks(s, chunks) == Run(s, Concat(chunks))
    decreases chunks
  {
    hide Run;
    if chunks == [] {
      RunNothing(s);
    } else {
      RunChunksIsRun(Run(s, chunks[0]), chunks[1..]);
      RunAppend(s, chunks[0], Concat(chunks[1..]));
    }
  }

  lemma RunNothing(s: State)
    ensures Run(s, []) == s
  {
  }

  // ----- Many bytes at once

  lemma CompleteStays(h: seq<byte>, x: seq<byte>)
    requires Complete(h)
    ensures Complete(h + x) && HeaderLength(h + x) == HeaderLength(h)
  {
  }

  lemma {:induction false} RunHeader(s: State, x: seq<byte>, rest: seq<byte>)
    requires s.phase.Header? && !Complete(s.phase.bytes + x)
    ensures Run(s, x + rest) == Run(s.(phase := Header(s.phase.bytes + x)), rest)
    decreases x
  {
    hide HeaderLength, Begin, Settled, StepHeader;
    var h := s.phase.bytes;
    if x == [] {
      assert x + rest == rest && h + x == h;
    } else {
      assert h + x == h + [x[0]] + x[1..];
      if Complete(h + [x[0]]) {
        CompleteStays(h + [x[0]], x[1..]);
      }
      StepInHeader(s, x[0]);
      assert (x + rest)[1..] == x[1..] + rest;
      RunHeader(s.(phase := Header(h + [x[0]])), x[1..], rest);
    }
  }

  lemma StepInHeader(s: State, b: byte)
    requires s.phase.Header?
    ensures Step(s, b) == StepHeader(s, b)
    ensures !Complete(s.phase.bytes + [b]) ==> Step(s, b) == s.(phase := Header(s.phase.bytes + [b]))
  {
  }

  /** The last byte of a frame header. */
  lemma RunHeaderEnd(s: State, x: seq<byte>, rest: seq<byte>)
    requires s.phase.Header? && x != []
    requires var h := s.phase.bytes + x; Complete(h) && |h| == HeaderLength(h)
    ensures var h := s.phase.bytes + x; Run(s, x + rest) == Run(Begin(s, KindOf(h), LengthOf(h)), rest)
  {
    hide HeaderLength, Begin, Settled, Complete, Step;
    var h := s.phase.bytes + x;
    var front, last := x[..|x| - 1], x[|x| - 1];
    var h1 := s.phase.bytes + front;
    assert h == h1 + [last] && x + rest == front + ([last] + rest);
    NotYet(h1, last);
    RunHeader(s, front, [last] + rest);
    var s1 := s.(phase := Header(h1));
    StepInHeader(s1, last);
    assert ([last] + rest)[1..] == rest;
    assert StepHeader(s1, last) == Begin(s1, KindOf(h), LengthOf(h));
    BeginAnywhere(s1, s, KindOf(h), LengthOf(h));
  }

  lemma NotYet(h: seq<byte>, b: byte)
    requires |h + [b]| == HeaderLength(h + [b])
    ensures !Complete(h)
  {
  }

  lemma BeginAnywhere(s: State, t: State, kind: nat, length: nat)
    requires s == t.(phase := s.phase)
    ensures Begin(s, kind, length) == Begin(t, kind, length)
  {
  }

  /** Some bytes of a frame. */
  lemma {:induction false} RunBody(s: State, x: seq<byte>, rest: seq<byte>)
    requires s.phase.Body? && x != [] && s.phase.read + |x| <= s.phase.length
    ensures Run(s, x + rest) == Run(Settled(Taken(s, x)), rest)
    decreases x
  {
    hide Finish;
    assert (x + rest)[1..] == x[1..] + rest;
    StepInBody(s, x[0]);
    if |x| == 1 {
      assert x == [x[0]] && x[1..] + rest == rest;
    } else {
      assert !Whole(Taken(s, [x[0]]));
      RunBody(Taken(s, [x[0]]), x[1..], rest);
      TakenTwice(s, [x[0]], x[1..]);
      assert [x[0]] + x[1..] == x;
    }
  }

  lemma StepInBody(s: State, b: byte)
    requires s.phase.Body? && !Whole(s)
    ensures Step(s, b) == Settled(Taken(s, [b]))
  {
  }

  lemma TakenTwice(s: State, x: seq<byte>, y: seq<byte>)
    requires s.phase.Body?
    ensures Taken(Taken(s, x), y) == Taken(s, x + y)
  {
    assert s.phase.content + x + y == s.phase.content + (x + y);
    assert s.payload + x + y == s.payload + (x + y);
  }

  /** A frame without content is finished by the next byte. */
  lemma RunSettled(s: State, bytes: seq<byte>)
    requires bytes != []
    ensures Run(Settled(s), bytes) == Run(s, bytes)
  {
    hide Taken, StepHeader;
  }

  // ----- Whole frames

  function Frame(kind: nat, content: seq<byte>): seq<byte> {
    Encoding(kind) + Encoding(|content|) + content
  }

  lemma FrameHeader(kind: nat, length: nat)
    requires kind < TWO_62 && length < TWO_62
    ensures var h := Encoding(kind) + Encoding(length);
            Complete(h) && |h| == HeaderLength(h) && KindOf(h) == kind && LengthOf(h) == length
  {
    hide Encoding, Decoding, EncodedLength;
    var k, l := Encoding(kind), Encoding(length);
    var h := k + l;
    EncodingHead(kind);
    EncodingHead(length);
    EncodingRoundTrip(kind, l);
    EncodingRoundTrip(length, []);
    assert l + [] == l && h[|k|..] == l && h[0] == k[0] && h[|k|] == l[0];
  }

  /** Between frames, a frame is refused by its type and length, or its content is taken as a whole. */
  lemma FrameMeaning(s: State, kind: nat, content: seq<byte>)
    requires s.phase == Header([]) && kind < TWO_62 && |content| < TWO_62
    ensures Run(s, Frame(kind, content))
         == if Refusal(s, kind, |content|).Some? then s.(phase := Failed(Refusal(s, kind, |content|).value))
            else if content == [] then s.(phase := Body(kind, 0, 0, []))
            else Finish(Taken(s.(phase := Body(kind, |content|, 0, [])), content))
  {
    hide Encoding, Finish, Taken, Settled, Refusal, KindOf, LengthOf, HeaderLength, Complete, Run;
    var h := Encoding(kind) + Encoding(|content|);
    FrameHeader(kind, |content|);
    assert [] + h == h;
    RunHeaderEnd(s, h, content);
    var t := Begin(s, kind, |content|);
    if t.phase.Failed? {
      RunFailed(t, content);
    } else if content == [] {
      RunNothing(t);
    } else {
      RunBody(t, content, []);
      assert content + [] == content;
      TakenAll(t, content);
    }
  }

  lemma TakenAll(t: State, content: seq<byte>)
    requires t.phase.Body? && t.phase.read + |content| == t.phase.length
    ensures Taken(t, content).phase.Body?
    ensures Run(Settled(Taken(t, content)), []) == Finish(Taken(t, content))
  {
  }

  /** Frames of unknown types change nothing. */
  lemma UnknownFrameIgnored(s: State, kind: nat, content: seq<byte>)
    requires s.phase == Header([]) && kind < TWO_62 && 0 < |content| < TWO_62
    requires kind != DATA && kind != HEADERS && kind != CANCEL_PUSH && kind != SETTINGS && kind != GOAWAY
    requires kind != MAX_PUSH_ID
    ensures Run(s, Frame(kind, content)) == s
  {
    hide Frame, Run;
    FrameMeaning(s, kind, content);
  }

  function DataFrames(pieces: seq<seq<byte>>): seq<byte> {
    if pieces == [] then [] else Frame(DATA, pieces[0]) + DataFrames(pieces[1..])
  }

  lemma {:induction false} RunDataFrames(s: State, pieces: seq<seq<byte>>)
    requires s.phase == Header([]) && s.headerFound && !s.trailerFound
    requires forall i :: 0 <= i < |pieces| ==> 0 < |pieces[i]| < TWO_62
    ensures Run(s, DataFrames(pieces))
         == s.(dataFound := s.dataFound || pieces != [], payload := s.payload + Concat(pieces))
    decreases pieces
  {
    hide Frame, Run;
    if pieces == [] {
      RunNothing(s);
      assert s.payload + Concat(pieces) == s.payload;
    } else {
      var t := s.(dataFound := true, payload := s.payload + pieces[0]);
      FrameMeaning(s, DATA, pieces[0]);
      RunAppend(s, Frame(DATA, pieces[0]), DataFrames(pieces[1..]));
      RunDataFrames(t, pieces[1..]);
      assert s.payload + pieces[0] + Concat(pieces[1..]) == s.payload + Concat(pieces);
    }
  }

  /** A request of a HEADERS frame and any number of DATA frames: the header is what the block says, and the payload
      is the content of the DATA frames. */
  lemma RequestMeaning(block: seq<byte>, parts: Parts, pieces: seq<seq<byte>>)
    requires ParseBlock(block) == Some(parts) && 0 < |block| <= MAX_HEADERS
    requires forall i :: 0 <= i < |pieces| ==> 0 < |pieces[i]| < TWO_62
    ensures Run(START, Frame(HEADERS, block) + DataFrames(pieces))
         == State(Header([]), true, pieces != [], false, parts, NO_PARTS, Concat(pieces))
  {
    hide Frame, Run, ParseBlock;
    FrameMeaning(START, HEADERS, block);
    assert [] + block == block;
    var s := State(Header([]), true, false, false, parts, NO_PARTS, []);
    RunAppend(START, Frame(HEADERS, block), DataFrames(pieces));
    RunDataFrames(s, pieces);
    assert [] + Concat(pieces) == Concat(pieces);
  }

  /** With trailers behind the content: the first block is the header and the last one the trailer. */
  lemma MessageMeaning(block: seq<byte>, parts: Parts, pieces: seq<seq<byte>>, last: seq<byte>, trailer: Parts)
    requires ParseBlock(block) == Some(parts) && 0 < |block| <= 65536
    requires ParseBlock(last) == Some(trailer) && 0 < |last| <= 65536
    requires pieces != [] && forall i :: 0 <= i < |pieces| ==> 0 < |pieces[i]| < TWO_62
    ensures Run(START, Frame(1, block) + DataFrames(pieces) + Frame(1, last))
         == State(Header([]), true, true, true, parts, trailer, Concat(pieces))
  {
    hide Frame, Run, ParseBlock, DataFrames;
    RequestMeaning(block, parts, pieces);
    var s := State(Header([]), true, true, false, parts, NO_PARTS, Concat(pieces));
    RunAppend(START, Frame(1, block) + DataFrames(pieces), Frame(1, last));
    FrameMeaning(s, 1, last);
    assert [] + last == last;
  }

  /** Which frames stop the stream, and with which error: DATA outside of the message and SETTINGS with 0x105; HEADERS
      that do not come first or behind the content with 0x105, longer ones than 65536 bytes with 0x102, and ones that
      cannot be parsed with 0x106; CANCEL_PUSH, GOAWAY and MAX_PUSH_ID with 0x101. */
  lemma FrameFails(s: State, kind: nat, content: seq<byte>)
    requires s.phase == Header([]) && kind < TWO_62 && 0 < |content| < TWO_62
    ensures var phase := Run(s, Frame(kind, content)).phase;
            if kind == 0 && (!s.headerFound || s.trailerFound) then phase == Failed(0x105)
            else if kind == 1 && s.headerFound && (!s.dataFound || s.trailerFound) then phase == Failed(0x105)
            else if kind == 1 && |content| > 65536 then phase == Failed(0x102)
            else if kind == 1 && ParseBlock(content).None? then phase == Failed(0x106)
            else if kind == 3 || kind == 7 || kind == 13 then phase == Failed(0x101)
            else if kind == 4 then phase == Failed(0x105)
            else phase == Header([])
  {
    hide Frame, Run, ParseBlock;
    FrameMeaning(s, kind, content);
    assert [] + content == content;
  }
}
