/** The exchange of picohttp/quicperf.c on one stream: the client posts bytes that start with the size of the response
    that it wants, and the server answers with as many bytes. */
module QuicPerf {
  import opened Varint

  const FILLER: byte := 0x30

  /** A scenario of fixed size */
  datatype Scenario = Scenario(postSize: nat, responseSize: u64)

  function Header(size: u64): (s: seq<byte>)
    ensures |s| == 8
  {
    BigEndian(size, 8)
  }

  /** Byte `i` of what the client posts. */
  function PostByte(size: u64, i: nat): byte {
    if i < 8 then Header(size)[i] else FILLER
  }

  function Post(size: u64, from: nat, n: nat): (s: seq<byte>)
    ensures |s| == n
  {
    seq<byte>(n, i requires 0 <= i < n => PostByte(size, from + i))
  }

  /** How many bytes are sent when there is space for `space`, and whether they are the last ones: the mark comes with
      the attempt to go beyond the limit. */
  function Portion(sent: nat, limit: nat, space: nat): (nat, bool)
    requires sent <= limit
  {
    if sent + space > limit then (limit - sent, true) else (space, false)
  }

  /** All that fits is sent. The mark comes with a call that has more space than there are bytes left, so that bytes that
      fill the space exactly are not marked yet; then the next call sends the mark alone. */
  lemma PortionIs(sent: nat, limit: nat, space: nat)
    requires sent <= limit && space > 0
    ensures var (n, fin) := Portion(sent, limit, space);
            && n <= space && sent + n <= limit && (n == space || sent + n == limit)
            && (fin <==> space > limit - sent)
    ensures space == limit - sent ==> Portion(sent, limit, space) == (space, false)
    ensures Portion(limit, limit, space) == (0, true)
  {
  }

  // ----- The stream contexts

  class StreamCtx {
    var lengthHeader: seq<byte>
    var postSize: nat
    var nbPostBytes: nat
    var responseSize: u64
    var nbResponseBytes: nat
    var isClosed: bool

    constructor Client(scenario: Scenario)
      ensures lengthHeader == Header(scenario.responseSize)
      ensures postSize == scenario.postSize && responseSize == scenario.responseSize
      ensures nbPostBytes == nbResponseBytes == 0 && !isClosed
    {
      postSize, responseSize := scenario.postSize, scenario.responseSize;
      nbPostBytes, nbResponseBytes, isClosed, lengthHeader := 0, 0, false, [0, 0, 0, 0, 0, 0, 0, 0];
      new;
      ghost var size := scenario.responseSize;
      for x := 0 to 8
        invariant |lengthHeader| == 8 && forall j :: 0 <= j < x ==> lengthHeader[j] == Header(size)[j]
        invariant postSize == scenario.postSize && responseSize == size
        invariant nbPostBytes == nbResponseBytes == 0 && !isClosed
      {
        BigEndianBytes(size, 8, 7 - x);
        lengthHeader := lengthHeader[x := ByteAt(responseSize, 7 - x)];
      }
    }

    constructor Server()
      ensures nbPostBytes == nbResponseBytes == 0 && responseSize == 0 && !isClosed
    {
      lengthHeader, postSize, responseSize := [], 0, 0;
      nbPostBytes, nbResponseBytes, isClosed := 0, 0, false;
    }

    /** `quicperf_prepare_to_send` on the client */
    method ClientSend(buffer: array<byte>, length: nat) returns (n: nat, isFin: bool)
      requires nbPostBytes <= postSize && length <= buffer.Length && lengthHeader == Header(responseSize)
      modifies this`nbPostBytes, buffer
      ensures (n, isFin) == Portion(old(nbPostBytes), postSize, length) && n <= buffer.Length
      ensures nbPostBytes == old(nbPostBytes) + n
      ensures buffer[..n] == Post(responseSize, old(nbPostBytes), n)
    {
      isFin := false;
      n := length;
      if nbPostBytes + n > postSize {
        isFin := true;
        n := postSize - nbPostBytes;
      }
      var i := 0;
      while nbPostBytes < 8 && i < n
        invariant i <= n && nbPostBytes == old(nbPostBytes) + i
        invariant forall j :: 0 <= j < i ==> buffer[j] == PostByte(responseSize, old(nbPostBytes) + j)
      {
        buffer[i] := lengthHeader[nbPostBytes];
        nbPostBytes := nbPostBytes + 1;
        i := i + 1;
      }
      forall j | i <= j < n {
        buffer[j] := FILLER;
      }
      nbPostBytes := nbPostBytes + (n - i);
      forall j | 0 <= j < n
        ensures buffer[j] == PostByte(responseSize, old(nbPostBytes) + j)
      {
      }
    }

    /** `quicperf_prepare_to_send` on the server */
    method ServerSend(buffer: array<byte>, length: nat) returns (n: nat, isFin: bool)
      requires nbResponseBytes <= responseSize as int && length <= buffer.Length
      modifies this`nbResponseBytes, buffer
      ensures (n, isFin) == Portion(old(nbResponseBytes), responseSize as int, length) && n <= buffer.Length
      ensures nbResponseBytes == old(nbResponseBytes) + n
      ensures forall j :: 0 <= j < n ==> buffer[j] == FILLER
    {
      isFin := false;
      n := length;
      if nbResponseBytes + n > responseSize as int {
        isFin := true;
        n := responseSize as int - nbResponseBytes;
      }
      forall j | 0 <= j < n {
        buffer[j] := FILLER;
      }
      nbResponseBytes := nbResponseBytes + n;
    }

    /** `quicperf_process_stream_data` on the server: the first eight bytes are collected across chunks. */
    method ServerReceive(bytes: seq<byte>, isFin: bool, ghost before: seq<byte>)
      requires nbPostBytes == |before| && responseSize as int == FromBigEndian(First8(before))
      modifies this`responseSize, this`nbPostBytes
      ensures nbPostBytes == |before + bytes|
      ensures responseSize == Announced(before + bytes, isFin)
    {
      var byteIndex := 0;
      assert before + bytes[..0] == before;
      while nbPostBytes < 8 && byteIndex < |bytes|
        invariant byteIndex <= |bytes| && nbPostBytes == |before| + byteIndex
        invariant byteIndex == 0 || nbPostBytes <= 8
        invariant responseSize as int == FromBigEndian(First8(before + bytes[..byteIndex]))
      {
        ghost var s := before + bytes[..byteIndex];
        assert before + bytes[..byteIndex + 1] == s + [bytes[byteIndex]];
        ShiftIn(s, bytes[byteIndex]);
        responseSize := responseSize as int * 256 + bytes[byteIndex] as int;
        byteIndex := byteIndex + 1;
        nbPostBytes := nbPostBytes + 1;
      }
      nbPostBytes := nbPostBytes + (|bytes| - byteIndex);
      assert First8(before + bytes) == First8(before + bytes[..byteIndex]);
      if isFin {
        if nbPostBytes < 8 {
          responseSize := 0;
        }
      }
    }

    /** `quicperf_process_stream_data` on the client, for a scenario of fixed size */
    method ClientReceive(length: nat, isFin: bool) returns (error: bool)
      requires !isClosed
      modifies this`nbResponseBytes, this`isClosed
      ensures nbResponseBytes == old(nbResponseBytes) + length && isClosed == isFin
      ensures error == if isFin then nbResponseBytes != responseSize as int else nbResponseBytes > responseSize as int
    {
      error := false;
      nbResponseBytes := nbResponseBytes + length;
      if isFin {
        isClosed := true;
        if nbResponseBytes != responseSize as int {
          error := true;
        }
      } else if nbResponseBytes > responseSize as int {
        error := true;
      }
    }
  }

  function First8(s: seq<byte>): seq<byte> {
    if |s| <= 8 then s else s[..8]
  }

  /** The size that the server reads from a post; `isFin` says that it is complete. */
  function Announced(s: seq<byte>, isFin: bool): (v: u64) {
    First8Bound(s);
    if isFin && |s| < 8 then 0 else FromBigEndian(First8(s))
  }

  lemma First8Bound(s: seq<byte>)
    ensures FromBigEndian(First8(s)) < TWO_64
  {
    BigEndianBound(First8(s));
  }

  lemma BigEndianBound(s: seq<byte>)
    requires |s| <= 8
    ensures FromBigEndian(s) < TWO_64
  {
    Pow256Values();
    Bound(s);
    Pow256Grows(|s|, 8);
  }

  lemma {:induction false} Bound(s: seq<byte>)
    ensures FromBigEndian(s) < Pow256(|s|)
  {
    if s != [] {
      Bound(s[..|s| - 1]);
    }
  }

  lemma {:induction false} Pow256Grows(a: nat, b: nat)
    requires a <= b
    ensures Pow256(a) <= Pow256(b)
  {
    if a < b {
      Pow256Grows(a, b - 1);
    }
  }

  lemma ShiftIn(s: seq<byte>, b: byte)
    requires |s| < 8
    ensures FromBigEndian(First8(s + [b])) == FromBigEndian(First8(s)) * 256 + b as int < TWO_64
  {
    assert (s + [b])[..|s|] == s;
    First8Bound(s + [b]);
  }

  // ----- The exchange

  /** The client has sent `nbPost` bytes, of which `delivered` have reached the server; the server has answered with
      `nbSent` bytes, of which `nbResponse` have reached the client. The marks travel behind the last bytes. */
  datatype State = State(nbPost: nat, postFin: bool, delivered: nat, finDelivered: bool, announced: u64,
                         nbSent: nat, sentFin: bool, nbResponse: nat, closed: bool, error: bool)

  const START := State(0, false, 0, false, 0, 0, false, 0, false, false)

  datatype Step =
    | Send(space: nat)
    | Deliver(n: nat, mark: bool)
    | Answer(space: nat)
    | Return(n: nat, mark: bool)

  /** Only an empty chunk without a mark is not a step. The last bytes can come with the mark, or the mark behind them. */
  predicate Enabled(sc: Scenario, s: State, step: Step) {
    match step
    case Send(space) => s.nbPost <= sc.postSize && !s.postFin && space > 0
    case Deliver(n, mark) =>
      && s.delivered + n <= s.nbPost && !s.finDelivered
      && (mark ==> s.postFin && s.delivered + n == s.nbPost) && (n > 0 || mark)
    case Answer(space) => s.finDelivered && !s.sentFin && s.nbSent <= s.announced as int && space > 0
    case Return(n, mark) =>
      && s.nbResponse + n <= s.nbSent && !s.closed && !s.error
      && (mark ==> s.sentFin && s.nbResponse + n == s.nbSent) && (n > 0 || mark)
  }

  function Apply(sc: Scenario, s: State, step: Step): State
    requires Enabled(sc, s, step)
  {
    match step
    case Send(space) =>
      var (n, fin) := Portion(s.nbPost, sc.postSize, space);
      s.(nbPost := s.nbPost + n, postFin := fin)
    case Deliver(n, mark) =>
      s.(delivered := s.delivered + n, finDelivered := mark,
         announced := Announced(Post(sc.responseSize, 0, s.delivered + n), mark))
    case Answer(space) =>
      var (n, fin) := Portion(s.nbSent, s.announced as int, space);
      s.(nbSent := s.nbSent + n, sentFin := fin)
    case Return(n, mark) =>
      var total := s.nbResponse + n;
      s.(nbResponse := total, closed := mark,
         error := if mark then total != sc.responseSize as int else total > sc.responseSize as int)
  }

  /** What the server will announce in the end: a post of less than eight bytes counts as zero. */
  function Size(sc: Scenario): u64 {
    if sc.postSize >= 8 then sc.responseSize else 0
  }

  ghost predicate Invariant(sc: Scenario, s: State) {
    && s.nbPost <= sc.postSize && (s.postFin ==> s.nbPost == sc.postSize)
    && s.delivered <= s.nbPost
    && (s.finDelivered ==> s.postFin && s.delivered == sc.postSize && s.announced == Size(sc))
    && (!s.finDelivered ==> s.nbSent == 0 && !s.sentFin)
    && (!s.finDelivered ==> s.announced == Announced(Post(sc.responseSize, 0, s.delivered), false))
    && s.nbSent <= Size(sc) as int && (s.sentFin ==> s.nbSent == Size(sc) as int)
    && s.nbResponse <= s.nbSent
    && (s.closed ==> s.sentFin && s.nbResponse == s.nbSent)
    && (s.error <==> s.closed && Size(sc) != sc.responseSize)
  }

  lemma AnnouncedIsSize(sc: Scenario)
    ensures Announced(Post(sc.responseSize, 0, sc.postSize), true) == Size(sc)
  {
    var p := Post(sc.responseSize, 0, sc.postSize);
    if sc.postSize >= 8 {
      assert First8(p) == Header(sc.responseSize);
      Pow256Values();
      FromBigEndianInverse(sc.responseSize, 8);
    }
  }

  lemma StepKeeps(sc: Scenario, s: State, step: Step)
    requires Invariant(sc, s) && Enabled(sc, s, step)
    ensures Invariant(sc, Apply(sc, s, step))
  {
    hide Announced, Post;
    AnnouncedIsSize(sc);
  }

  ghost predicate Run(sc: Scenario, s: State, steps: seq<Step>, t: State)
    decreases |steps|
  {
    if steps == [] then s == t
    else Enabled(sc, s, steps[0]) && Run(sc, Apply(sc, s, steps[0]), steps[1..], t)
  }

  lemma {:induction false} RunKeeps(sc: Scenario, s: State, steps: seq<Step>, t: State)
    requires Invariant(sc, s) && Run(sc, s, steps, t)
    ensures Invariant(sc, t)
    decreases |steps|
  {
    hide Invariant, Enabled, Apply;
    if steps != [] {
      StepKeeps(sc, s, steps[0]);
      RunKeeps(sc, Apply(sc, s, steps[0]), steps[1..], t);
    }
  }

  /** However both directions are cut into chunks: at the end the server has sent exactly what it read from the post,
      and the client sees no error exactly when the header fits in the post, or nothing is asked for. */
  lemma ExchangeIff(sc: Scenario, steps: seq<Step>, t: State)
    requires Run(sc, START, steps, t) && t.closed
    ensures t.announced == Size(sc) && t.nbResponse == t.nbSent == Size(sc) as int
    ensures !t.error <==> sc.postSize >= 8 || sc.responseSize == 0
  {
    hide Run;
    RunKeeps(sc, START, steps, t);
  }

  /** With room for the header, no state of any run is an error, and the client gets exactly what it asked for. */
  lemma ExchangeCompletes(sc: Scenario, steps: seq<Step>, t: State)
    requires Run(sc, START, steps, t) && sc.postSize >= 8
    ensures !t.error && t.nbResponse <= sc.responseSize as int
    ensures t.finDelivered ==> t.announced == sc.responseSize
    ensures t.closed ==> t.nbResponse == sc.responseSize as int
  {
    hide Run;
    RunKeeps(sc, START, steps, t);
  }

  // ----- The stream contexts make these steps

  /** The state of the exchange, on the client */
  ghost predicate ClientIs(sc: Scenario, s: State, client: StreamCtx)
    reads client
  {
    && client.lengthHeader == Header(sc.responseSize) && client.responseSize == sc.responseSize
    && client.postSize == sc.postSize && client.nbPostBytes == s.nbPost
    && client.nbResponseBytes == s.nbResponse && client.isClosed == s.closed
  }

  /** The state of the exchange, on the server */
  ghost predicate ServerIs(s: State, server: StreamCtx)
    reads server
  {
    server.nbPostBytes == s.delivered && server.responseSize == s.announced && server.nbResponseBytes == s.nbSent
  }

  method ClientSends(client: StreamCtx, buffer: array<byte>, length: nat, ghost sc: Scenario, ghost s: State)
    returns (n: nat, isFin: bool, ghost s': State)
    requires Invariant(sc, s) && ClientIs(sc, s, client) && Enabled(sc, s, Send(length)) && length <= buffer.Length
    modifies client, buffer
    ensures s' == Apply(sc, s, Send(length)) && Invariant(sc, s') && ClientIs(sc, s', client)
    ensures n <= buffer.Length && buffer[..n] == Post(sc.responseSize, s.nbPost, n) && isFin == s'.postFin
  {
    hide Post, Announced, Invariant;
    WithinLimits(sc, s);
    n, isFin := client.ClientSend(buffer, length);
    s' := Apply(sc, s, Send(length));
    StepKeeps(sc, s, Send(length));
  }

  /** A chunk of the post arrives. */
  method ServerReceives(server: StreamCtx, bytes: seq<byte>, isFin: bool, ghost sc: Scenario, ghost s: State)
    returns (ghost s': State)
    requires Invariant(sc, s) && ServerIs(s, server) && Enabled(sc, s, Deliver(|bytes|, isFin))
    requires bytes == Post(sc.responseSize, s.delivered, |bytes|)
    modifies server
    ensures s' == Apply(sc, s, Deliver(|bytes|, isFin)) && Invariant(sc, s') && ServerIs(s', server)
  {
    ghost var before := Post(sc.responseSize, 0, s.delivered);
    PostAppend(sc.responseSize, s.delivered, |bytes|);
    s' := Apply(sc, s, Deliver(|bytes|, isFin));
    StepKeeps(sc, s, Deliver(|bytes|, isFin));
    hide Post, Announced, First8, Invariant;
    NotComplete(before);
    server.ServerReceive(bytes, isFin, before);
  }

  lemma NotComplete(s: seq<byte>)
    ensures Announced(s, false) as int == FromBigEndian(First8(s))
  {
  }

  lemma PostAppend(size: u64, from: nat, n: nat)
    ensures Post(size, 0, from) + Post(size, from, n) == Post(size, 0, from + n)
  {
  }

  method ServerSends(server: StreamCtx, buffer: array<byte>, length: nat, ghost sc: Scenario, ghost s: State)
    returns (n: nat, isFin: bool, ghost s': State)
    requires Invariant(sc, s) && ServerIs(s, server) && Enabled(sc, s, Answer(length)) && length <= buffer.Length
    modifies server, buffer
    ensures s' == Apply(sc, s, Answer(length)) && Invariant(sc, s') && ServerIs(s', server)
    ensures n <= buffer.Length && s'.nbSent == s.nbSent + n && isFin == s'.sentFin
  {
    hide Post, Announced, Invariant;
    n, isFin := server.ServerSend(buffer, length);
    s' := Apply(sc, s, Answer(length));
    StepKeeps(sc, s, Answer(length));
  }

  /** A chunk of the response arrives; the error of the step is the one that the client raises. */
  method ClientReceives(client: StreamCtx, length: nat, isFin: bool, ghost sc: Scenario, ghost s: State)
    returns (error: bool, ghost s': State)
    requires Invariant(sc, s) && ClientIs(sc, s, client) && Enabled(sc, s, Return(length, isFin))
    modifies client
    ensures s' == Apply(sc, s, Return(length, isFin)) && Invariant(sc, s') && ClientIs(sc, s', client)
    ensures error == s'.error
  {
    hide Post, Announced, Invariant;
    error := client.ClientReceive(length, isFin);
    s' := Apply(sc, s, Return(length, isFin));
    StepKeeps(sc, s, Return(length, isFin));
  }

  lemma WithinLimits(sc: Scenario, s: State)
    requires Invariant(sc, s)
    ensures s.nbPost <= sc.postSize
  {
  }

  // ----- Progress

  function Left(done: nat, total: nat, fin: bool): nat {
    (if done < total then total - done else 0) + if fin then 0 else 1
  }

  function Measure(sc: Scenario, s: State): nat {
    Left(s.nbPost, sc.postSize, s.postFin) + Left(s.delivered, sc.postSize, s.finDelivered)
    + Left(s.nbSent, Size(sc) as int, s.sentFin) + Left(s.nbResponse, Size(sc) as int, s.closed)
  }

  /** Every run ends: a step brings the end nearer, and there is a step until the client is done. */
  lemma Progress(sc: Scenario, s: State)
    requires Invariant(sc, s)
    ensures forall step :: Enabled(sc, s, step) ==> Measure(sc, Apply(sc, s, step)) < Measure(sc, s)
    ensures !s.closed ==> exists step :: Enabled(sc, s, step)
  {
    hide Announced, Post;
    forall step | Enabled(sc, s, step)
      ensures Measure(sc, Apply(sc, s, step)) < Measure(sc, s)
    {
    }
    if !s.closed {
      var step :=
        if !s.postFin then Send(1)
        else if !s.finDelivered then Deliver(s.nbPost - s.delivered, true)
        else if !s.sentFin then Answer(1)
        else Return(s.nbSent - s.nbResponse, true);
      assert Enabled(sc, s, step);
    }
  }
}
