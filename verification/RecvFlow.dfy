/** Flow control on the receiving side of picoquic/frames.c, over all streams of a connection (section 4.1 of
    RFC 9000). */
module RecvFlow {
  import opened Wrappers
  import opened Varint
  import Reassembly

  /** A stream that was ever seen; a closed one stays here as `deleted`. */
  datatype Flow = Flow(id: nat, finOffset: u64, maxdataLocal: u64, consumedOffset: u64,
                       finReceived: bool, resetReceived: bool, deleted: bool)

  datatype Params = Params(isClient: bool, bidiLocal: u64, bidiRemote: u64, uni: u64)

  datatype Connection = Connection(params: Params, maxdataLocal: u64, dataReceived: u64, streams: seq<Flow>)

  datatype Event =
    | StreamData(id: nat, offset: nat, length: nat, fin: bool)
    | ResetStream(id: nat, finalOffset: nat)
    | Consume(id: nat, offset: nat)
    | MaxData(increase: nat)
    | OpenWindow(id: nat, expected: nat)
    | RenewWindow(id: nat, window: nat)
    | Delete(id: nat)

  // ----- Streams

  /** The limit of a new stream: bit 0 of the id tells the initiator, bit 1 the direction. */
  function InitialLimit(p: Params, id: nat): u64 {
    var isLocal := (id % 2 == 0) == p.isClient;
    var isBidi := id / 2 % 2 == 0;
    if isLocal then (if isBidi then p.bidiLocal else 0)
    else if isBidi then p.bidiRemote else p.uni
  }

  function Find(streams: seq<Flow>, id: nat): (i: nat)
    ensures i <= |streams|
    ensures i < |streams| ==> streams[i].id == id
    ensures forall j :: 0 <= j < i ==> streams[j].id != id
  {
    if streams == [] || streams[0].id == id then 0 else 1 + Find(streams[1..], id)
  }

  /** The connection with the stream, which is created if it was never seen. */
  function WithStream(c: Connection, id: nat): Connection {
    if Find(c.streams, id) < |c.streams| then c
    else c.(streams := c.streams + [Flow(id, 0, InitialLimit(c.params, id), 0, false, false, false)])
  }

  lemma FoundInExtended(c: Connection, id: nat)
    ensures Find(WithStream(c, id).streams, id) == Find(c.streams, id) < |WithStream(c, id).streams|
  {
    var streams := WithStream(c, id).streams;
    var i := Find(streams, id);
    if Find(c.streams, id) == |c.streams| {
      assert streams[|c.streams|].id == id;
      assert forall j :: 0 <= j < |c.streams| ==> streams[j] == c.streams[j];
    }
  }

  /** Streams 4k are bidirectional and of the client, 4k + 1 bidirectional and of the server, 4k + 2 and 4k + 3
      unidirectional. A stream of the own side is limited by the parameter for local ones, and nothing is received on a
      unidirectional one. */
  lemma InitialLimits(p: Params, k: nat)
    ensures p.isClient ==>
      && InitialLimit(p, 4 * k) == p.bidiLocal && InitialLimit(p, 4 * k + 1) == p.bidiRemote
      && InitialLimit(p, 4 * k + 2) == 0 && InitialLimit(p, 4 * k + 3) == p.uni
    ensures !p.isClient ==>
      && InitialLimit(p, 4 * k) == p.bidiRemote && InitialLimit(p, 4 * k + 1) == p.bidiLocal
      && InitialLimit(p, 4 * k + 2) == p.uni && InitialLimit(p, 4 * k + 3) == 0
  {
    LowBits(k, 0);
    LowBits(k, 1);
    LowBits(k, 2);
    LowBits(k, 3);
  }

  lemma LowBits(k: nat, low: nat)
    requires low < 4
    ensures (4 * k + low) % 2 == low % 2 && (4 * k + low) / 2 % 2 == low / 2
  {
    assert 4 * k + low == 2 * (2 * k + low / 2) + low % 2;
    assert (4 * k + low) / 2 == 2 * k + low / 2;
  }

  /** The stream as it is, or as it is when it is first seen. */
  function StreamOf(c: Connection, id: nat): Flow {
    var i := Find(c.streams, id);
    if i < |c.streams| then c.streams[i] else Flow(id, 0, InitialLimit(c.params, id), 0, false, false, false)
  }

  /** From `c` to `d` only this stream and the bytes counted for the connection change. */
  ghost predicate OnlyStream(c: Connection, d: Connection, s: Flow) {
    var i := Find(c.streams, s.id);
    && d.params == c.params && d.maxdataLocal == c.maxdataLocal
    && |d.streams| == (if i < |c.streams| then |c.streams| else |c.streams| + 1) && d.streams[i] == s
    && forall j :: 0 <= j < |c.streams| && j != i ==> d.streams[j] == c.streams[j]
  }

  // ----- What each event does; None is a connection error

  function Commit(c: Connection, i: nat, newFin: nat): Option<Connection>
    requires i < |c.streams|
  {
    var s := c.streams[i];
    if !Reassembly.Admits(s.maxdataLocal, c.maxdataLocal, c.dataReceived, s.finOffset, newFin) then None
    else if newFin > s.finOffset as int then
      var received := c.dataReceived as int + (newFin - s.finOffset as int);
      Some(c.(dataReceived := received, streams := c.streams[i := s.(finOffset := newFin)]))
    else Some(c)
  }

  function Data(c: Connection, i: nat, newFin: nat, fin: bool): Option<Connection>
    requires i < |c.streams|
  {
    var s := c.streams[i];
    if s.deleted then Some(c)
    else if s.finReceived then
      if (if fin then s.finOffset as int != newFin else newFin > s.finOffset as int) then None else Some(c)
    else
      var c1 := if fin then c.(streams := c.streams[i := s.(finReceived := true)]) else c;
      if newFin > s.finOffset as int then Commit(c1, i, newFin) else Some(c1)
  }

  /** A reset of a stream that is gone stops the packet without a connection error. */
  function Reset(c: Connection, i: nat, finalOffset: nat): Option<Connection>
    requires i < |c.streams|
  {
    var s := c.streams[i];
    if s.deleted then None
    else if (s.finReceived || s.resetReceived) && finalOffset != s.finOffset as int then None
    else
      var c1 :- Commit(c, i, finalOffset);
      Some(if i < |c1.streams| then c1.(streams := c1.streams[i := c1.streams[i].(resetReceived := true)]) else c1)
  }

  /** Whether an event can happen: offsets and limits fit a varint, and only open streams are read or closed. */
  predicate Enabled(c: Connection, e: Event) {
    var i := Find(c.streams, if e.MaxData? then 0 else e.id);
    match e
    case StreamData(_, offset, length, _) => offset < TWO_62 && length < TWO_62
    case ResetStream(_, finalOffset) => finalOffset < TWO_62
    case Consume(_, offset) => i < |c.streams| && offset < TWO_62
    case MaxData(increase) => c.maxdataLocal as int + increase < TWO_62
    case OpenWindow(_, expected) =>
      i < |c.streams| && c.streams[i].consumedOffset as int + expected < TWO_62
      && c.maxdataLocal as int + expected < TWO_62
    case RenewWindow(_, window) => i < |c.streams| && c.streams[i].maxdataLocal as int + window < TWO_62
    case Delete(_) => i < |c.streams|
  }

  function Apply(c: Connection, e: Event): Option<Connection>
    requires Enabled(c, e)
  {
    match e
    case StreamData(id, offset, length, fin) =>
      FoundInExtended(c, id);
      Data(WithStream(c, id), Find(c.streams, id), offset + length, fin)
    case ResetStream(id, finalOffset) =>
      FoundInExtended(c, id);
      Reset(WithStream(c, id), Find(c.streams, id), finalOffset)
    case Consume(id, offset) =>
      var i := Find(c.streams, id);
      Some(c.(streams := c.streams[i := c.streams[i].(consumedOffset := offset)]))
    case MaxData(increase) => Some(c.(maxdataLocal := c.maxdataLocal as int + increase))
    case OpenWindow(id, expected) =>
      var i := Find(c.streams, id);
      var required := c.streams[i].consumedOffset as int + expected;
      Some(if required > c.streams[i].maxdataLocal as int
           then c.(maxdataLocal := c.maxdataLocal as int + expected,
                   streams := c.streams[i := c.streams[i].(maxdataLocal := required)])
           else c)
    case RenewWindow(id, window) =>
      var i := Find(c.streams, id);
      var s := c.streams[i];
      Some(if !s.finReceived && !s.resetReceived && 2 * s.consumedOffset as int > s.maxdataLocal as int
           then c.(streams := c.streams[i := s.(maxdataLocal := s.maxdataLocal as int + window)])
           else c)
    case Delete(id) =>
      var i := Find(c.streams, id);
      Some(c.(streams := c.streams[i := c.streams[i].(deleted := true)]))
  }

  /** STREAM: a stream that is gone ignores its data. Behind a FIN the final size must be kept. Else a new largest offset
      must be within the limit of the stream, and what it adds within that of the connection. */
  lemma DataMeaning(c: Connection, id: nat, offset: nat, length: nat, fin: bool)
    requires offset < TWO_62 && length < TWO_62
    ensures var s, end, r := StreamOf(c, id), offset + length, Apply(c, StreamData(id, offset, length, fin));
            && (r.Some? <==>
                  || s.deleted
                  || (s.finReceived && (if fin then end == s.finOffset as int else end <= s.finOffset as int))
                  || (!s.finReceived && (end <= s.finOffset as int || FitsLimits(c, s, end))))
            && (r.Some? ==>
                  var grows := !s.deleted && end > s.finOffset as int;
                  && r.value.dataReceived as int == c.dataReceived as int + (if grows then end - s.finOffset as int else 0)
                  && OnlyStream(c, r.value, s.(finReceived := s.finReceived || (fin && !s.deleted),
                                               finOffset := if grows then end else s.finOffset)))
  {
    FoundInExtended(c, id);
    hide WithStream;
    WithStreamIs(c, id);
  }

  /** RESET_STREAM: the final size must be the known one, or within the limits. */
  lemma ResetMeaning(c: Connection, id: nat, end: nat)
    requires end < TWO_62
    ensures var s, r := StreamOf(c, id), Apply(c, ResetStream(id, end));
            && (r.Some? <==>
                  && !s.deleted
                  && (s.finReceived || s.resetReceived ==> end == s.finOffset as int)
                  && end <= s.maxdataLocal as int && (end <= s.finOffset as int || FitsLimits(c, s, end)))
            && (r.Some? ==>
                  var grows := end > s.finOffset as int;
                  && r.value.dataReceived as int == c.dataReceived as int + (if grows then end - s.finOffset as int else 0)
                  && OnlyStream(c, r.value, s.(resetReceived := true, finOffset := if grows then end else s.finOffset)))
  {
    FoundInExtended(c, id);
    hide WithStream;
    WithStreamIs(c, id);
  }

  predicate FitsLimits(c: Connection, s: Flow, end: nat) {
    end <= s.maxdataLocal as int && c.dataReceived as int + end - s.finOffset as int <= c.maxdataLocal as int
  }

  lemma WithStreamIs(c: Connection, id: nat)
    ensures var d := WithStream(c, id);
            && d.dataReceived == c.dataReceived && StreamOf(c, id) == d.streams[Find(c.streams, id)]
            && OnlyStream(c, d, StreamOf(c, id))
  {
    FoundInExtended(c, id);
  }

  /** A peer that has used all that it may send on an open stream, and whose data is read, can go on once the limits are
      renewed: the stream by any window, and the connection by as much. */
  lemma NeverBlocked(c: Connection, id: nat, window: nat, increase: nat)
    requires Balanced(c) && Find(c.streams, id) < |c.streams| && 0 < window <= increase
    requires Enabled(c, RenewWindow(id, window)) && Enabled(c, MaxData(increase))
    requires var s := StreamOf(c, id);
             && !s.deleted && !s.finReceived && !s.resetReceived
             && s.consumedOffset == s.finOffset == s.maxdataLocal && s.maxdataLocal as int > 0
    ensures var c1 := Apply(c, RenewWindow(id, window)).value;
            var c2 := Apply(c1, MaxData(increase)).value;
            && StreamOf(c1, id).maxdataLocal as int == StreamOf(c, id).finOffset as int + window
            && Apply(c2, StreamData(id, StreamOf(c2, id).finOffset as int, window, false)).Some?
  {
    hide TotalFin;
    var c1 := Apply(c, RenewWindow(id, window)).value;
    var c2 := Apply(c1, MaxData(increase)).value;
    SameFind(c.streams, c1.streams, id);
    DataMeaning(c2, id, StreamOf(c2, id).finOffset as int, window, false);
  }

  lemma {:induction false} SameFind(a: seq<Flow>, b: seq<Flow>, id: nat)
    requires |a| == |b| && forall j :: 0 <= j < |a| ==> a[j].id == b[j].id
    ensures Find(a, id) == Find(b, id)
    decreases |a|
  {
    if a != [] {
      SameFind(a[1..], b[1..], id);
    }
  }

  // ----- The invariant

  function TotalFin(streams: seq<Flow>): nat {
    if streams == [] then 0 else TotalFin(streams[..|streams| - 1]) + streams[|streams| - 1].finOffset as int
  }

  lemma {:induction false} TotalUpdate(streams: seq<Flow>, i: nat, s: Flow)
    requires i < |streams|
    ensures TotalFin(streams[i := s]) == TotalFin(streams) - streams[i].finOffset as int + s.finOffset as int
  {
    var n := |streams| - 1;
    if i == n {
      assert streams[i := s][..n] == streams[..n];
    } else {
      TotalUpdate(streams[..n], i, s);
      assert streams[i := s][..n] == streams[..n][i := s];
    }
  }

  lemma TotalAppend(streams: seq<Flow>, s: Flow)
    ensures TotalFin(streams + [s]) == TotalFin(streams) + s.finOffset as int
  {
  }

  ghost predicate Balanced(c: Connection) {
    && c.dataReceived as int == TotalFin(c.streams) <= c.maxdataLocal as int
    && forall i :: 0 <= i < |c.streams| ==> c.streams[i].finOffset as int <= c.streams[i].maxdataLocal as int
  }

  /** Streams stay, their offsets and limits only grow, and after a FIN the offset stays. */
  ghost predicate Extends(c: Connection, d: Connection) {
    && |c.streams| <= |d.streams|
    && c.maxdataLocal as int <= d.maxdataLocal as int
    && forall i :: 0 <= i < |c.streams| ==> FlowExtends(c.streams[i], d.streams[i])
  }

  predicate FlowExtends(s: Flow, t: Flow) {
    && s.id == t.id && s.finOffset as int <= t.finOffset as int && s.maxdataLocal as int <= t.maxdataLocal as int
    && (s.finReceived ==> t.finReceived && t.finOffset == s.finOffset)
  }

  function Max(a: nat, b: nat): nat {
    if a > b then a else b
  }

  lemma CommitKeeps(c: Connection, i: nat, newFin: nat)
    requires Balanced(c) && i < |c.streams| && Commit(c, i, newFin).Some?
    ensures Balanced(Commit(c, i, newFin).value)
    ensures var d := Commit(c, i, newFin).value;
            && |d.streams| == |c.streams| && d.maxdataLocal == c.maxdataLocal
            && d.streams[i] == c.streams[i].(finOffset := d.streams[i].finOffset)
            && d.streams[i].finOffset as int == Max(newFin, c.streams[i].finOffset as int)
            && forall j :: 0 <= j < |c.streams| && j != i ==> d.streams[j] == c.streams[j]
  {
    TotalUpdate(c.streams, i, Commit(c, i, newFin).value.streams[i]);
  }

  lemma SetFlags(c: Connection, i: nat, s: Flow)
    requires Balanced(c) && i < |c.streams| && s.finOffset == c.streams[i].finOffset
    requires s.maxdataLocal as int >= c.streams[i].maxdataLocal as int
    ensures Balanced(c.(streams := c.streams[i := s]))
  {
    TotalUpdate(c.streams, i, s);
  }

  lemma WithStreamKeeps(c: Connection, id: nat)
    requires Balanced(c)
    ensures Balanced(WithStream(c, id)) && Extends(c, WithStream(c, id))
  {
  }

  lemma DataKeeps(c: Connection, i: nat, newFin: nat, fin: bool)
    requires Balanced(c) && i < |c.streams| && Data(c, i, newFin, fin).Some?
    ensures Balanced(Data(c, i, newFin, fin).value) && Extends(c, Data(c, i, newFin, fin).value)
  {
    hide TotalFin, Commit, Balanced;
    var s := c.streams[i];
    if !s.deleted && !s.finReceived {
      var c1 := if fin then c.(streams := c.streams[i := s.(finReceived := true)]) else c;
      SetFlags(c, i, s.(finReceived := true));
      if newFin > s.finOffset as int {
        CommitKeeps(c1, i, newFin);
      }
    }
  }

  lemma ResetKeeps(c: Connection, i: nat, finalOffset: nat)
    requires Balanced(c) && i < |c.streams| && Reset(c, i, finalOffset).Some?
    ensures Balanced(Reset(c, i, finalOffset).value) && Extends(c, Reset(c, i, finalOffset).value)
  {
    hide TotalFin, Commit, Balanced;
    var s := c.streams[i];
    if !s.deleted {
      CommitKeeps(c, i, finalOffset);
      var c1 := Commit(c, i, finalOffset).value;
      SetFlags(c1, i, c1.streams[i].(resetReceived := true));
    }
  }

  lemma ExtendsTrans(a: Connection, b: Connection, c: Connection)
    requires Extends(a, b) && Extends(b, c)
    ensures Extends(a, c)
  {
  }

  lemma StepKeeps(c: Connection, e: Event)
    requires Balanced(c) && Enabled(c, e) && Apply(c, e).Some?
    ensures Balanced(Apply(c, e).value) && Extends(c, Apply(c, e).value)
  {
    hide TotalFin, Data, Reset, Find, WithStream, InitialLimit;
    var d := Apply(c, e).value;
    match e {
      case StreamData(id, offset, length, fin) =>
        FoundInExtended(c, id);
        WithStreamKeeps(c, id);
        DataKeeps(WithStream(c, id), Find(c.streams, id), offset + length, fin);
        ExtendsTrans(c, WithStream(c, id), d);
      case ResetStream(id, finalOffset) =>
        FoundInExtended(c, id);
        WithStreamKeeps(c, id);
        ResetKeeps(WithStream(c, id), Find(c.streams, id), finalOffset);
        ExtendsTrans(c, WithStream(c, id), d);
      case MaxData(_) =>
      case _ =>
        var i := Find(c.streams, e.id);
        SetFlags(c, i, d.streams[i]);
        assert c.streams[i := d.streams[i]] == d.streams;
    }
  }

  // ----- Runs

  /** A run without an error. */
  ghost predicate Run(c: Connection, events: seq<Event>, d: Connection)
    decreases |events|
  {
    if events == [] then c == d
    else Enabled(c, events[0]) && Apply(c, events[0]).Some? && Run(Apply(c, events[0]).value, events[1..], d)
  }

  /** In every run without an error, the bytes counted for the connection are the sum over all streams ever seen,
      and no limit is exceeded; limits and offsets never fall, and once a FIN is received the offset is final. */
  lemma {:induction false} RunKeeps(c: Connection, events: seq<Event>, d: Connection)
    requires Balanced(c) && Run(c, events, d)
    ensures Balanced(d) && Extends(c, d)
    decreases |events|
  {
    hide Balanced, Apply, Enabled;
    if events != [] {
      var c1 := Apply(c, events[0]).value;
      StepKeeps(c, events[0]);
      RunKeeps(c1, events[1..], d);
      ExtendsTrans(c, c1, d);
    }
  }

  // ----- The connection

  class Receiver {
    const params: Params
    var maxdataLocal: u64
    var dataReceived: u64
    var streams: seq<Flow>

    function State(): Connection
      reads this
    {
      Connection(params, maxdataLocal, dataReceived, streams)
    }

    ghost predicate Valid()
      reads this
    {
      Balanced(State())
    }

    constructor (params: Params, maxdataLocal: u64)
      ensures State() == Connection(params, maxdataLocal, 0, []) && Valid()
    {
      this.params, this.maxdataLocal := params, maxdataLocal;
      dataReceived, streams := 0, [];
    }

    /** `picoquic_find_or_create_stream` for a stream of the peer, without the limits on the number of streams */
    method FindOrCreateStream(id: nat) returns (i: nat)
      modifies this`streams
      ensures State() == WithStream(old(State()), id) && i == Find(old(streams), id) < |streams|
    {
      i := Find(streams, id);
      FoundInExtended(State(), id);
      if i == |streams| {
        streams := streams + [Flow(id, 0, InitialLimit(params, id), 0, false, false, false)];
      }
    }

    /** `picoquic_flow_control_check_stream_offset`: neither the subtractions nor the sums wrap. */
    method FlowControlCheck(i: nat, newFinOffset: u64) returns (ok: bool)
      requires i < |streams|
      modifies this`dataReceived, this`streams
      ensures Commit(old(State()), i, newFinOffset) == if ok then Some(State()) else None
      ensures !ok ==> State() == old(State())
    {
      var s := streams[i];
      ok := true;
      if newFinOffset as int > s.maxdataLocal as int {
        ok := false;
      } else if newFinOffset as int > s.finOffset as int {
        var newBytes: u64 := newFinOffset as int - s.finOffset as int;
        if newBytes as int > maxdataLocal as int || maxdataLocal as int - newBytes as int < dataReceived as int {
          ok := false;
        } else {
          dataReceived := dataReceived as int + newBytes as int;
          streams := streams[i := s.(finOffset := newFinOffset)];
        }
      }
    }

    /** The accounting of `picoquic_stream_network_input` */
    method StreamNetworkInput(id: nat, offset: u64, length: u64, fin: bool) returns (ok: bool)
      requires Enabled(State(), StreamData(id, offset, length, fin))
      modifies this
      ensures ok <==> Apply(old(State()), StreamData(id, offset, length, fin)).Some?
      ensures ok ==> State() == Apply(old(State()), StreamData(id, offset, length, fin)).value
      ensures var s, end := StreamOf(old(State()), id), offset as int + length as int;
              ok <==>
                || s.deleted
                || (s.finReceived && (if fin then end == s.finOffset as int else end <= s.finOffset as int))
                || (!s.finReceived && (end <= s.finOffset as int || FitsLimits(old(State()), s, end)))
      ensures ok && old(Valid()) ==> Valid()
    {
      hide Commit, Balanced, Find, WithStream;
      ghost var c, e := State(), StreamData(id, offset, length, fin);
      DataMeaning(c, id, offset, length, fin);
      var newFinOffset: u64 := offset as int + length as int;
      var i := FindOrCreateStream(id);
      var s := streams[i];
      ok := true;
      if s.deleted {
      } else if s.finReceived {
        if if fin then s.finOffset != newFinOffset else newFinOffset as int > s.finOffset as int {
          ok := false;
        }
      } else {
        if fin {
          streams := streams[i := s.(finReceived := true)];
        }
        if newFinOffset as int > s.finOffset as int {
          ok := FlowControlCheck(i, newFinOffset);
        }
      }
      if ok && old(Valid()) {
        StepKeeps(c, e);
      }
    }

    /** The accounting of `picoquic_decode_stream_reset_frame` */
    method DecodeResetStream(id: nat, finalOffset: u64) returns (ok: bool)
      requires Enabled(State(), ResetStream(id, finalOffset))
      modifies this
      ensures ok <==> Apply(old(State()), ResetStream(id, finalOffset)).Some?
      ensures ok ==> State() == Apply(old(State()), ResetStream(id, finalOffset)).value
      ensures var s, end := StreamOf(old(State()), id), finalOffset as int;
              ok <==>
                && !s.deleted
                && (s.finReceived || s.resetReceived ==> end == s.finOffset as int)
                && end <= s.maxdataLocal as int && (end <= s.finOffset as int || FitsLimits(old(State()), s, end))
      ensures ok && old(Valid()) ==> Valid()
    {
      hide Balanced, Find, WithStream;
      ghost var c, e := State(), ResetStream(id, finalOffset);
      ResetMeaning(c, id, finalOffset);
      var i := FindOrCreateStream(id);
      var s := streams[i];
      if s.deleted || ((s.finReceived || s.resetReceived) && finalOffset != s.finOffset) {
        return false;
      }
      ok := FlowControlCheck(i, finalOffset);
      if ok {
        streams := streams[i := streams[i].(resetReceived := true)];
        if old(Valid()) {
          StepKeeps(c, e);
        }
      }
    }

    /** `picoquic_format_max_data_frame`, when the frame fits */
    method FormatMaxData(increase: nat)
      requires Enabled(State(), MaxData(increase))
      modifies this`maxdataLocal
      ensures Some(State()) == Apply(old(State()), MaxData(increase))
      ensures maxdataLocal as int == old(maxdataLocal) as int + increase
      ensures old(Valid()) ==> Valid()
    {
      hide Balanced;
      ghost var c := State();
      maxdataLocal := maxdataLocal as int + increase;
      if old(Valid()) {
        StepKeeps(c, MaxData(increase));
      }
    }

    /** `picoquic_open_flow_control`, when the frames fit */
    method OpenFlowControl(id: nat, expected: nat)
      requires Enabled(State(), OpenWindow(id, expected))
      modifies this`maxdataLocal, this`streams
      ensures Some(State()) == Apply(old(State()), OpenWindow(id, expected))
      ensures var i := Find(old(streams), id);
              var s := old(streams)[i];
              var needed := s.consumedOffset as int + expected;
              if needed > s.maxdataLocal as int
              then maxdataLocal as int == old(maxdataLocal) as int + expected
                   && streams == old(streams)[i := s.(maxdataLocal := needed)]
              else maxdataLocal == old(maxdataLocal) && streams == old(streams)
      ensures old(Valid()) ==> Valid()
    {
      hide Balanced;
      ghost var c := State();
      var i := Find(streams, id);
      var required: u64 := streams[i].consumedOffset as int + expected;
      if required as int > streams[i].maxdataLocal as int {
        streams := streams[i := streams[i].(maxdataLocal := required)];
        maxdataLocal := maxdataLocal as int + expected;
      }
      if old(Valid()) {
        StepKeeps(c, OpenWindow(id, expected));
      }
    }

    /** One turn of the loop in `picoquic_format_required_max_stream_data_frames`, when the frame fits */
    method RenewStreamWindow(id: nat, window: nat)
      requires Enabled(State(), RenewWindow(id, window))
      modifies this`streams
      ensures Some(State()) == Apply(old(State()), RenewWindow(id, window))
      ensures var i := Find(old(streams), id);
              var s := old(streams)[i];
              if !s.finReceived && !s.resetReceived && 2 * s.consumedOffset as int > s.maxdataLocal as int
              then streams == old(streams)[i := s.(maxdataLocal := s.maxdataLocal as int + window)]
              else streams == old(streams)
      ensures old(Valid()) ==> Valid()
    {
      hide Balanced;
      ghost var c := State();
      var i := Find(streams, id);
      var s := streams[i];
      if !s.finReceived && !s.resetReceived && 2 * s.consumedOffset as int > s.maxdataLocal as int {
        streams := streams[i := s.(maxdataLocal := s.maxdataLocal as int + window)];
      }
      if old(Valid()) {
        StepKeeps(c, RenewWindow(id, window));
      }
    }
  }
}
