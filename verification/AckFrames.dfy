/** ACK frames of picoquic/frames.c on a single path (section 19.3.1 of RFC 9000): a selection of the received
    ranges, from the highest down, written as gaps and lengths. */
module AckFrames {
  import opened Wrappers
  import opened Varint
  import opened SackList

  const ACK: byte := 0x02
  const ACK_ECN: byte := 0x03
  const MAX_BLOCKS: nat := 32

  datatype EcnCounts = EcnCounts(ect0: nat, ect1: nat, ce: nat)

  // ----- The wire format

  /** Each range lies below the one before it, with a missing number between them. */
  predicate Descending(low: nat, ranges: seq<Range>) {
    ranges == [] || (ranges[0].lo <= ranges[0].hi && ranges[0].hi + 1 < low && Descending(ranges[0].lo, ranges[1..]))
  }

  function Block(low: nat, r: Range): seq<byte>
    requires r.lo <= r.hi && r.hi + 1 < low
  {
    Encoding(low - r.hi - 2) + Encoding(r.hi - r.lo)
  }

  function Blocks(low: nat, ranges: seq<Range>): seq<byte>
    requires Descending(low, ranges)
  {
    if ranges == [] then [] else Block(low, ranges[0]) + Blocks(ranges[0].lo, ranges[1..])
  }

  function EcnBytes(ecn: Option<EcnCounts>): seq<byte> {
    match ecn
    case None => []
    case Some(e) => Encoding(e.ect0) + Encoding(e.ect1) + Encoding(e.ce)
  }

  function Preamble(ecn: bool, delay: nat, largest: nat): seq<byte> {
    [if ecn then ACK_ECN else ACK] + Encoding(largest) + Encoding(delay)
  }

  function AckBytes(delay: nat, top: Range, ranges: seq<Range>, ecn: Option<EcnCounts>): seq<byte>
    requires top.lo <= top.hi && Descending(top.lo, ranges) && |ranges| <= MAX_BLOCKS
  {
    Preamble(ecn.Some?, delay, top.hi) + ([|ranges|] + (Encoding(top.hi - top.lo) + Blocks(top.lo, ranges) + EcnBytes(ecn)))
  }

  // ----- Decoding

  /** The ranges, highest first, and the number of bytes they take; None for what the decoder rejects. */
  function DecodeRanges(s: seq<byte>, largest: nat, numBlock: nat): Option<(seq<Range>, nat)>
    decreases numBlock
  {
    var (r, lRange) :- Decoding(s);
    var range := r + 1;
    if largest + 1 < range || lRange > |s| then None
    else
      var top := Range(largest + 1 - range, largest);
      if numBlock == 0 then Some(([top], lRange))
      else
        var (gap, lGap) :- Decoding(s[lRange..]);
        var blockToBlock := gap + 1 + range;
        if largest < blockToBlock || lRange + lGap > |s| then None
        else
          var (rest, l) :- DecodeRanges(s[lRange + lGap..], largest - blockToBlock, numBlock - 1);
          Some(([top] + rest, lRange + lGap + l))
  }

  function DecodeEcn(s: seq<byte>): Option<(EcnCounts, nat)> {
    var (a, la) :- Decoding(s);
    if la > |s| then None else
    var (b, lb) :- Decoding(s[la..]);
    if la + lb > |s| then None else
    var (c, lc) :- Decoding(s[la + lb..]);
    Some((EcnCounts(a, b, c), la + lb + lc))
  }

  datatype Ack = Ack(delay: nat, ranges: seq<Range>, ecn: Option<EcnCounts>, consumed: nat)

  /** `picoquic_parse_ack_header`, without a path: largest, delay, number of blocks, and header size. */
  function ParseAckHeader(s: seq<byte>): Option<(nat, nat, nat, nat)>
    requires s != []
  {
    var i := DecodedLength(s[0]);
    if i > |s| then None else
    var (largest, l1) :- Decoding(s[i..]);
    if i + l1 > |s| then None else
    var (delay, l2) :- Decoding(s[i + l1..]);
    if i + l1 + l2 > |s| then None else
    var (numBlock, l3) :- Decoding(s[i + l1 + l2..]);
    Some((largest, delay, numBlock, i + l1 + l2 + l3))
  }

  /** What `picoquic_decode_ack_frame` reads from a frame of type `ACK` or `ACK_ECN`. */
  function DecodeAck(s: seq<byte>): Option<Ack>
    requires s != []
  {
    var (largest, delay, numBlock, i) :- ParseAckHeader(s);
    if i > |s| then None else
    var (ranges, l) :- DecodeRanges(s[i..], largest, numBlock);
    if i + l > |s| then None
    else if s[0] == ACK_ECN then
      var (ecn, lEcn) :- DecodeEcn(s[i + l..]);
      Some(Ack(delay, ranges, Some(ecn), i + l + lEcn))
    else
      Some(Ack(delay, ranges, None, i + l))
  }

  // ----- Round trip

  predicate InRange(delay: nat, top: Range, ecn: Option<EcnCounts>) {
    && delay < TWO_62 && top.hi < TWO_62
    && (ecn.Some? ==> ecn.value.ect0 < TWO_62 && ecn.value.ect1 < TWO_62 && ecn.value.ce < TWO_62)
  }

  lemma DecodeAt(s: seq<byte>, i: nat, n: nat, rest: seq<byte>)
    requires i <= |s| && s[i..] == Encoding(n) + rest && n < TWO_62
    ensures Decoding(s[i..]) == Some((n, EncodedLength(n)))
    ensures i + EncodedLength(n) <= |s| && s[i + EncodedLength(n)..] == rest
  {
    EncodingRoundTrip(n, rest);
    hide Encoding, Decoding, EncodedLength;
    var e := Encoding(n);
    assert s[i + |e|..] == s[i..][|e|..];
  }

  lemma {:induction false} RangesRoundTrip(top: Range, ranges: seq<Range>, rest: seq<byte>)
    requires top.lo <= top.hi < TWO_62 && Descending(top.lo, ranges)
    ensures var e := Encoding(top.hi - top.lo) + Blocks(top.lo, ranges);
            DecodeRanges(e + rest, top.hi, |ranges|) == Some(([top] + ranges, |e|))
    decreases |ranges|
  {
    hide Encoding, Decoding, EncodedLength;
    var e := Encoding(top.hi - top.lo);
    if ranges == [] {
      var s := e + Blocks(top.lo, ranges) + rest;
      assert s == e + rest == s[0..];
      DecodeAt(s, 0, top.hi - top.lo, rest);
      assert [top] + [] == [top];
    } else {
      RangesRoundTrip(ranges[0], ranges[1..], rest);
      assert [ranges[0]] + ranges[1..] == ranges;
      RangesStep(top, ranges, rest);
    }
  }

  lemma RangesStep(top: Range, ranges: seq<Range>, rest: seq<byte>)
    requires top.lo <= top.hi < TWO_62 && Descending(top.lo, ranges) && ranges != []
    requires var e := Encoding(ranges[0].hi - ranges[0].lo) + Blocks(ranges[0].lo, ranges[1..]);
             DecodeRanges(e + rest, ranges[0].hi, |ranges| - 1) == Some((ranges, |e|))
    ensures var e := Encoding(top.hi - top.lo) + Blocks(top.lo, ranges);
            DecodeRanges(e + rest, top.hi, |ranges|) == Some(([top] + ranges, |e|))
  {
    hide Encoding, Decoding, EncodedLength, DecodeRanges;
    var next := ranges[0];
    var gap := top.lo - next.hi - 2;
    var e0, e1, e2 := Encoding(top.hi - top.lo), Encoding(gap), Encoding(next.hi - next.lo) + Blocks(next.lo, ranges[1..]);
    assert Blocks(top.lo, ranges) == e1 + e2;
    hide Blocks;
    var s := e0 + (e1 + e2) + rest;
    assert s[0..] == s == e0 + (e1 + (e2 + rest));
    DecodeAt(s, 0, top.hi - top.lo, e1 + (e2 + rest));
    DecodeAt(s, |e0|, gap, e2 + rest);
    DecodeRangesStep(s, top, |ranges|, |e0|, gap, |e1|, ranges, |e2|);
  }

  /** One turn of the decoding loop. */
  lemma DecodeRangesStep(s: seq<byte>, top: Range, n: nat, l0: nat, gap: nat, l1: nat, rest: seq<Range>, l2: nat)
    requires top.lo <= top.hi && n > 0 && l0 + l1 <= |s| && gap + 1 < top.lo
    requires Decoding(s) == Some((top.hi - top.lo, l0)) && Decoding(s[l0..]) == Some((gap, l1))
    requires DecodeRanges(s[l0 + l1..], top.lo - gap - 2, n - 1) == Some((rest, l2))
    ensures DecodeRanges(s, top.hi, n) == Some(([top] + rest, l0 + l1 + l2))
  {
    hide Decoding;
  }

  /** Decoding what was written gives back the ranges, for any bytes that follow. */
  lemma AckRoundTrip(delay: nat, top: Range, ranges: seq<Range>, ecn: Option<EcnCounts>, rest: seq<byte>)
    requires top.lo <= top.hi && Descending(top.lo, ranges) && |ranges| <= MAX_BLOCKS && InRange(delay, top, ecn)
    ensures var s := AckBytes(delay, top, ranges, ecn);
            DecodeAck(s + rest) == Some(Ack(delay, [top] + ranges, ecn, |s|))
  {
    hide Encoding, Decoding, EncodedLength, DecodeRanges, DecodeEcn, EcnBytes, Blocks, Descending;
    var s := AckBytes(delay, top, ranges, ecn) + rest;
    var body := Encoding(top.hi - top.lo) + Blocks(top.lo, ranges);
    HeaderRoundTrip(ecn.Some?, delay, top.hi, |ranges|, body + EcnBytes(ecn) + rest, s);
    RangesRoundTrip(top, ranges, EcnBytes(ecn) + rest);
    assert body + EcnBytes(ecn) + rest == body + (EcnBytes(ecn) + rest);
    var i := |Preamble(ecn.Some?, delay, top.hi)| + 1;
    assert s[i + |body|..] == s[i..][|body|..] == EcnBytes(ecn) + rest;
    if ecn.Some? {
      EcnRoundTrip(ecn.value, rest);
    }
    NoEcnBytes(ecn);
  }

  lemma NoEcnBytes(ecn: Option<EcnCounts>)
    ensures ecn.None? ==> EcnBytes(ecn) == []
  {
  }

  lemma HeaderRoundTrip(ecn: bool, delay: nat, largest: nat, n: nat, after: seq<byte>, s: seq<byte>)
    requires delay < TWO_62 && largest < TWO_62 && n <= MAX_BLOCKS
    requires s == Preamble(ecn, delay, largest) + ([n] + after)
    ensures s != [] && s[0] == if ecn then ACK_ECN else ACK
    ensures var i := |Preamble(ecn, delay, largest)| + 1;
            i <= |s| && ParseAckHeader(s) == Some((largest, delay, n, i)) && s[i..] == after
  {
    hide Encoding, Decoding, EncodedLength, DecodedLength, ParseAckHeader;
    SmallEncoding(n);
    var l, d := Encoding(largest), Encoding(delay);
    assert s[1..] == l + (d + ([n] + after));
    DecodeAt(s, 1, largest, d + ([n] + after));
    DecodeAt(s, 1 + |l|, delay, [n] + after);
    DecodeAt(s, 1 + |l| + |d|, n, after);
    FirstByteLength();
    ParseAckFields(s, largest, |l|, delay, |d|, n, 1);
  }

  lemma ParseAckFields(s: seq<byte>, largest: nat, l1: nat, delay: nat, l2: nat, n: nat, l3: nat)
    requires s != [] && DecodedLength(s[0]) == 1 && 1 + l1 + l2 <= |s|
    requires Decoding(s[1..]) == Some((largest, l1))
    requires Decoding(s[1 + l1..]) == Some((delay, l2))
    requires Decoding(s[1 + l1 + l2..]) == Some((n, l3))
    ensures ParseAckHeader(s) == Some((largest, delay, n, 1 + l1 + l2 + l3))
  {
    hide Decoding, DecodedLength;
  }

  lemma SmallEncoding(n: nat)
    requires n < 64
    ensures Encoding(n) == [n]
  {
  }

  lemma FirstByteLength()
    ensures DecodedLength(ACK) == DecodedLength(ACK_ECN) == 1
  {
  }

  lemma EcnRoundTrip(e: EcnCounts, rest: seq<byte>)
    requires e.ect0 < TWO_62 && e.ect1 < TWO_62 && e.ce < TWO_62
    ensures DecodeEcn(EcnBytes(Some(e)) + rest) == Some((e, |EcnBytes(Some(e))|))
  {
    hide Encoding, Decoding, EncodedLength;
    var a, b, c := Encoding(e.ect0), Encoding(e.ect1), Encoding(e.ce);
    var s := EcnBytes(Some(e)) + rest;
    assert s[0..] == s == a + (b + (c + rest));
    DecodeAt(s, 0, e.ect0, b + (c + rest));
    DecodeAt(s, |a|, e.ect1, c + rest);
    DecodeAt(s, |a| + |b|, e.ce, rest);
  }

  // ----- Writing a frame

  /** The chosen list indices: strictly decreasing, below the top range. */
  ghost predicate Chosen(items: seq<Range>, chosen: seq<nat>, above: nat) {
    && above <= |items|
    && (forall i :: 0 <= i < |chosen| ==> chosen[i] < above)
    && (forall i, j :: 0 <= i < j < |chosen| ==> chosen[j] < chosen[i])
  }

  ghost function Pick(items: seq<Range>, chosen: seq<nat>): (s: seq<Range>)
    requires forall i :: 0 <= i < |chosen| ==> chosen[i] < |items|
    ensures |s| == |chosen|
  {
    seq(|chosen|, i requires 0 <= i < |chosen| => items[chosen[i]])
  }

  lemma {:induction false} DescendingAppend(low: nat, ranges: seq<Range>, r: Range)
    requires Descending(low, ranges)
    requires r.lo <= r.hi && r.hi + 1 < (if ranges == [] then low else ranges[|ranges| - 1].lo)
    ensures Descending(low, ranges + [r])
    ensures Blocks(low, ranges + [r])
         == Blocks(low, ranges) + Block(if ranges == [] then low else ranges[|ranges| - 1].lo, r)
  {
    hide Encoding;
    if ranges == [] {
      assert [] + [r] == [r] && [r][1..] == [];
      assert Blocks(low, [r]) == Block(low, r) + [];
    } else {
      DescendingAppend(ranges[0].lo, ranges[1..], r);
      assert (ranges + [r])[1..] == ranges[1..] + [r];
    }
  }

  lemma SmallLength(n: nat)
    requires n < 64
    ensures EncodedLength(n) == 1
  {
  }

  /** The size of a frame up to the length of its top range. */
  function HeadSize(ecn: bool, delay: nat, top: Range): nat
    requires top.lo <= top.hi
  {
    |Preamble(ecn, delay, top.hi)| + 1 + EncodedLength(top.hi - top.lo)
  }

  /** Writes the type, the largest number and the delay, reserves a byte for the number of blocks, and writes
      the length of the top range; or None if they do not fit. */
  method FormatTop(buf: array<byte>, pos: nat, max: nat, ecn: bool, delay: nat, top: Range)
    returns (next: Option<nat>, numBlockByte: nat, ghost reserved: byte)
    requires pos <= max <= buf.Length && delay < TWO_62 && top.lo <= top.hi < TWO_62
    modifies buf
    ensures SameOutside(old(buf[..]), buf[..], pos, max)
    ensures next.Some? <==> pos + HeadSize(ecn, delay, top) <= max
    ensures next.Some? ==>
      && numBlockByte == pos + |Preamble(ecn, delay, top.hi)| < next.value == pos + HeadSize(ecn, delay, top)
      && buf[pos..next.value] == Preamble(ecn, delay, top.hi) + ([reserved] + Encoding(top.hi - top.lo))
  {
    hide Encoding, EncodedLength, SameOutside;
    ghost var b := buf[..];
    SameOutsideItself(b, pos, max);
    numBlockByte, reserved := pos, 0;
    var t: byte := if ecn then ACK_ECN else ACK;
    SmallEncoding(t);
    SmallLength(t);
    next := Append(buf, pos, pos, max, t, []);
    if next.None? {
      return;
    }
    ghost var b1 := buf[..];
    next := Append(buf, pos, next.value, max, top.hi, [t]);
    SameOutsideJoin(b, b1, buf[..], pos, max);
    if next.None? {
      return;
    }
    ghost var b2 := buf[..];
    next := Append(buf, pos, next.value, max, delay, [t] + Encoding(top.hi));
    SameOutsideJoin(b, b2, buf[..], pos, max);
    if next.None? {
      return;
    }
    numBlockByte := next.value;
    ghost var pre := Preamble(ecn, delay, top.hi);
    if numBlockByte + 1 > max {
      return None, numBlockByte, reserved;
    }
    reserved := buf[numBlockByte];
    assert buf[pos..numBlockByte + 1] == pre + [reserved];
    ghost var b3 := buf[..];
    next := Append(buf, pos, numBlockByte + 1, max, top.hi - top.lo, pre + [reserved]);
    SameOutsideJoin(b, b3, buf[..], pos, max);
    if next.Some? {
      assert pre + [reserved] + Encoding(top.hi - top.lo) == pre + ([reserved] + Encoding(top.hi - top.lo));
    }
  }

  /** Writes one gap and one range, or nothing that counts. */
  method FormatBlock(buf: array<byte>, lo: nat, pos: nat, max: nat, low: nat, r: Range, ghost written: seq<byte>)
    returns (next: Option<nat>)
    requires lo <= pos <= max <= buf.Length && buf[lo..pos] == written
    requires r.lo <= r.hi && r.hi + 1 < low < TWO_62
    modifies buf
    ensures SameOutside(old(buf[..]), buf[..], lo, max)
    ensures buf[lo..pos] == written
    ensures next.Some? <==> pos + |Block(low, r)| <= max
    ensures next.Some? ==> next.value == pos + |Block(low, r)| && buf[lo..next.value] == written + Block(low, r)
  {
    hide Encoding, EncodedLength, SameOutside;
    ghost var b := buf[..];
    next := Append(buf, lo, pos, max, low - r.hi - 2, written);
    if next.Some? {
      ghost var b1 := buf[..];
      var afterGap := next.value;
      next := Append(buf, lo, afterGap, max, r.hi - r.lo, written + Encoding(low - r.hi - 2));
      SameOutsideJoin(b, b1, buf[..], lo, max);
      assert buf[lo..pos] == buf[lo..afterGap][..pos - lo];
      if next.Some? {
        assert written + Encoding(low - r.hi - 2) + Encoding(r.hi - r.lo) == written + Block(low, r);
      }
    }
  }

  /** Writes the three ECN counts, or nothing that counts. */
  method FormatEcn(buf: array<byte>, lo: nat, pos: nat, max: nat, ecn: EcnCounts, ghost written: seq<byte>)
    returns (next: Option<nat>)
    requires lo <= pos <= max <= buf.Length && buf[lo..pos] == written
    requires ecn.ect0 < TWO_62 && ecn.ect1 < TWO_62 && ecn.ce < TWO_62
    modifies buf
    ensures SameOutside(old(buf[..]), buf[..], lo, max)
    ensures buf[lo..pos] == written
    ensures next.Some? <==> pos + |EcnBytes(Some(ecn))| <= max
    ensures next.Some? ==>
      next.value == pos + |EcnBytes(Some(ecn))| && buf[lo..next.value] == written + EcnBytes(Some(ecn))
  {
    hide Encoding, EncodedLength, SameOutside;
    ghost var b := buf[..];
    ghost var w1, w2 := written + Encoding(ecn.ect0), written + Encoding(ecn.ect0) + Encoding(ecn.ect1);
    next := Append(buf, lo, pos, max, ecn.ect0, written);
    if next.None? {
      return;
    }
    ghost var b1 := buf[..];
    var p1 := next.value;
    next := Append(buf, lo, p1, max, ecn.ect1, w1);
    SameOutsideJoin(b, b1, buf[..], lo, max);
    SlicePrefix(buf[..], lo, pos, p1, written);
    if next.None? {
      return;
    }
    ghost var b2 := buf[..];
    var p2 := next.value;
    next := Append(buf, lo, p2, max, ecn.ce, w2);
    SameOutsideJoin(b, b2, buf[..], lo, max);
    SlicePrefix(buf[..], lo, pos, p2, written);
    EcnConcat(written, ecn);
  }

  lemma SlicePrefix(s: seq<byte>, lo: nat, pos: nat, end: nat, w: seq<byte>)
    requires lo <= pos <= end <= |s| && |w| == pos - lo && w <= s[lo..end]
    ensures s[lo..pos] == w
  {
  }

  lemma EcnConcat(written: seq<byte>, ecn: EcnCounts)
    ensures written + Encoding(ecn.ect0) + Encoding(ecn.ect1) + Encoding(ecn.ce) == written + EcnBytes(Some(ecn))
  {
  }

  /** Every index below `n`, from the highest down. */
  ghost function AllBelow(n: nat): (s: seq<nat>)
    ensures |s| == n
  {
    if n == 0 then [] else [(n - 1) as nat] + AllBelow(n - 1)
  }

  /** The indices below `n` that are not skipped, from the highest down. */
  ghost function Eligible(skip: nat -> bool, n: nat): seq<nat> {
    if n == 0 then []
    else (if skip(n - 1) then [] else [(n - 1) as nat]) + Eligible(skip, n - 1)
  }

  lemma {:induction false} EligibleChosen(items: seq<Range>, skip: nat -> bool, n: nat, m: nat)
    requires n <= |items| && m <= |Eligible(skip, n)|
    ensures Chosen(items, Eligible(skip, n)[..m], n)
    ensures forall i :: 0 <= i < m ==> !skip(Eligible(skip, n)[i])
  {
    if n > 0 && !skip(n - 1) {
      var rest := Eligible(skip, n - 1);
      EligibleChosen(items, skip, n - 1, if m > 0 then m - 1 else 0);
      assert m > 0 ==> Eligible(skip, n)[..m] == [(n - 1) as nat] + rest[..m - 1];
      assert forall i :: 0 < i < m ==> Eligible(skip, n)[i] == rest[..m - 1][i - 1];
    } else if n > 0 {
      EligibleChosen(items, skip, n - 1, m);
      assert Eligible(skip, n) == Eligible(skip, n - 1);
    }
  }

  lemma {:induction false} EligibleAll(skip: nat -> bool, n: nat)
    ensures |Eligible(skip, n)| <= n
    ensures Eligible(skip, n) == AllBelow(n) <==> forall i :: 0 <= i < n ==> !skip(i)
    ensures |Eligible(skip, n)| == n ==> Eligible(skip, n) == AllBelow(n)
  {
    if n > 0 {
      EligibleAll(skip, n - 1);
      var rest := Eligible(skip, n - 1);
      if skip(n - 1) {
        assert Eligible(skip, n) == rest;
      } else if Eligible(skip, n) == AllBelow(n) {
        assert rest == Eligible(skip, n)[1..] == AllBelow(n)[1..] == AllBelow(n - 1);
      }
    }
  }

  /** The blocks for the first `m` of the indices that are not skipped take at most `room` bytes. */
  ghost predicate BlocksFit(items: seq<Range>, skip: nat -> bool, m: nat, room: int)
    requires items != [] && m <= |Eligible(skip, |items| - 1)|
  {
    EligibleChosen(items, skip, |items| - 1, m);
    var ranges := Pick(items, Eligible(skip, |items| - 1)[..m]);
    Descending(items[|items| - 1].lo, ranges) && |Blocks(items[|items| - 1].lo, ranges)| <= room
  }

  /** As many ranges as fit, up to 32, are chosen: the highest of those that are not skipped. */
  ghost predicate Selected(items: seq<Range>, skip: nat -> bool, room: int, chosen: seq<nat>)
    requires items != []
  {
    var all := Eligible(skip, |items| - 1);
    && chosen <= all && |chosen| <= MAX_BLOCKS
    && forall m :: 0 <= m <= |all| && m <= MAX_BLOCKS ==> (BlocksFit(items, skip, m, room) <==> m <= |chosen|)
  }

  /** Whether ranges are left out for lack of room */
  ghost predicate Missing(items: seq<Range>, skip: nat -> bool, chosen: seq<nat>)
    requires items != []
  {
    |chosen| < |Eligible(skip, |items| - 1)| && |chosen| < MAX_BLOCKS
  }

  /** The state of the loop over the list: `below` is the last range written, `k` the next one to look at. */
  ghost predicate Walked(items: seq<Range>, chosen: seq<nat>, below: nat, k: int) {
    && -1 <= k < below < |items|
    && Chosen(items, chosen, |items| - 1)
    && (forall i :: 0 <= i < |chosen| ==> chosen[i] > k)
    && below == (if chosen == [] then |items| - 1 else chosen[|chosen| - 1])
  }

  lemma WalkOn(items: seq<Range>, chosen: seq<nat>, below: nat, k: nat)
    requires Sorted(items) && Walked(items, chosen, below, k)
    requires Descending(items[|items| - 1].lo, Pick(items, chosen))
    ensures items[k].lo <= items[k].hi && items[k].hi + 1 < items[below].lo
    ensures Walked(items, chosen + [k], k, k - 1) && Walked(items, chosen, below, k - 1)
    ensures var top, ranges := items[|items| - 1].lo, Pick(items, chosen + [k]);
            && Descending(top, ranges)
            && Blocks(top, ranges) == Blocks(top, Pick(items, chosen)) + Block(items[below].lo, items[k])
  {
    hide Encoding, Blocks, Block, Descending;
    assert Pick(items, chosen + [k]) == Pick(items, chosen) + [items[k]];
    assert items[k].hi + 1 < items[below].lo;
    DescendingAppend(items[|items| - 1].lo, Pick(items, chosen), items[k]);
  }

  method FormatBlocks(items: seq<Range>, buf: array<byte>, lo: nat, pos: nat, max: nat, skip: nat -> bool,
                      ghost written: seq<byte>)
    returns (next: nat, numBlock: nat, moreData: bool, ghost chosen: seq<nat>)
    requires Sorted(items) && items != [] && items[|items| - 1].hi < TWO_62
    requires lo <= pos <= max <= buf.Length && buf[lo..pos] == written
    modifies buf
    ensures pos <= next <= max && SameOutside(old(buf[..]), buf[..], lo, max)
    ensures numBlock == |chosen| <= MAX_BLOCKS && Chosen(items, chosen, |items| - 1)
    ensures Descending(items[|items| - 1].lo, Pick(items, chosen))
    ensures next == pos + |Blocks(items[|items| - 1].lo, Pick(items, chosen))|
    ensures buf[lo..next] == written + Blocks(items[|items| - 1].lo, Pick(items, chosen))
    ensures Selected(items, skip, max - pos, chosen)
    ensures moreData <==> Missing(items, skip, chosen)
  {
    hide Encoding, EncodedLength, SameOutside, Blocks, Block, Descending, Sorted, Selected, Missing, Pick, Chosen, Looping,
         BlocksOf;
    ghost var b := buf[..];
    SameOutsideItself(b, lo, max);
    LoopStarts(items, skip);
    next, numBlock, moreData, chosen := pos, 0, false, [];
    assert written + [] == written;
    var k: int, below: nat := |items| - 2, |items| - 1;
    while numBlock < MAX_BLOCKS && k >= 0
      invariant numBlock == |chosen| <= MAX_BLOCKS && -1 <= k < below < |items| && Looping(items, skip, chosen, below, k)
      invariant next == pos + |BlocksOf(items, chosen)| <= max && buf[lo..next] == written + BlocksOf(items, chosen)
      invariant SameOutside(b, buf[..], lo, max)
      invariant !moreData
    {
      LoopGoesOn(items, skip, chosen, below, k);
      if !skip(k) {
        ghost var b1, w := buf[..], written + BlocksOf(items, chosen);
        var end := FormatBlock(buf, lo, next, max, items[below].lo, items[k], w);
        SameOutsideJoin(b, b1, buf[..], lo, max);
        if end.None? {
          moreData := true;
          break;
        }
        BlockAdded(written, BlocksOf(items, chosen), Block(items[below].lo, items[k]));
        next, below, chosen := end.value, k, chosen + [k];
        numBlock := numBlock + 1;
      }
      k := k - 1;
    }
    LoopEnds(items, skip, max - pos, chosen, below, k, moreData);
  }

  /** The state of the loop over the list, and what it has written. */
  ghost predicate Looping(items: seq<Range>, skip: nat -> bool, chosen: seq<nat>, below: nat, k: int) {
    && items != [] && Walked(items, chosen, below, k) && Descending(items[|items| - 1].lo, Pick(items, chosen))
    && Eligible(skip, |items| - 1) == chosen + Eligible(skip, k + 1)
  }

  ghost function BlocksOf(items: seq<Range>, chosen: seq<nat>): seq<byte> {
    if items != [] && Chosen(items, chosen, |items| - 1) && Descending(items[|items| - 1].lo, Pick(items, chosen))
    then Blocks(items[|items| - 1].lo, Pick(items, chosen))
    else []
  }

  lemma LoopStarts(items: seq<Range>, skip: nat -> bool)
    requires items != []
    ensures Looping(items, skip, [], |items| - 1, |items| - 2) && BlocksOf(items, []) == []
  {
    hide Eligible;
    NoBlocks(items[|items| - 1].lo);
    assert Pick(items, []) == [];
    assert [] + Eligible(skip, |items| - 1) == Eligible(skip, |items| - 1);
  }

  lemma LoopGoesOn(items: seq<Range>, skip: nat -> bool, chosen: seq<nat>, below: nat, k: nat)
    requires Sorted(items) && Looping(items, skip, chosen, below, k)
    ensures k < below < |items| && items[below].lo <= items[|items| - 1].hi
    ensures items[k].lo <= items[k].hi && items[k].hi + 1 < items[below].lo
    ensures skip(k) ==> Looping(items, skip, chosen, below, k - 1)
    ensures !skip(k) ==>
      && Looping(items, skip, chosen + [k], k, k - 1)
      && BlocksOf(items, chosen + [k]) == BlocksOf(items, chosen) + Block(items[below].lo, items[k])
  {
    hide Sorted, Descending, Blocks, Block, Eligible, Pick;
    WalkOn(items, chosen, below, k);
    EligibleNext(skip, chosen, k);
    LowBound(items, below);
  }

  lemma LoopEnds(items: seq<Range>, skip: nat -> bool, room: nat, chosen: seq<nat>, below: nat, k: int, more: bool)
    requires Sorted(items) && Looping(items, skip, chosen, below, k)
    requires |chosen| <= MAX_BLOCKS && |BlocksOf(items, chosen)| <= room
    requires if more then |chosen| < MAX_BLOCKS && k >= 0 && !skip(k)
                          && k < below < |items| && items[k].lo <= items[k].hi && items[k].hi + 1 < items[below].lo
                          && |BlocksOf(items, chosen)| + |Block(items[below].lo, items[k])| > room
             else |chosen| == MAX_BLOCKS || k < 0
    ensures Chosen(items, chosen, |items| - 1) && Descending(items[|items| - 1].lo, Pick(items, chosen))
    ensures BlocksOf(items, chosen) == Blocks(items[|items| - 1].lo, Pick(items, chosen))
    ensures Selected(items, skip, room, chosen)
    ensures more <==> Missing(items, skip, chosen)
  {
    hide Sorted, Descending, Blocks, Block, Eligible, Pick, Selected, Missing;
    SelectedNow(items, skip, room, chosen, below, k, more);
  }

  lemma BlockAdded(written: seq<byte>, blocks: seq<byte>, block: seq<byte>)
    ensures written + blocks + block == written + (blocks + block)
  {
  }

  lemma EligibleNext(skip: nat -> bool, chosen: seq<nat>, k: nat)
    ensures chosen + Eligible(skip, k + 1) == (if skip(k) then chosen else chosen + [k]) + Eligible(skip, k)
    ensures !skip(k) ==> |Eligible(skip, k + 1)| > 0
  {
    assert Eligible(skip, k + 1) == (if skip(k) then [] else [k]) + Eligible(skip, k);
    hide Eligible;
    assert skip(k) ==> [] + Eligible(skip, k) == Eligible(skip, k);
    assert chosen + ([k] + Eligible(skip, k)) == (chosen + [k]) + Eligible(skip, k);
  }

  lemma NothingEligible(skip: nat -> bool, chosen: seq<nat>, n: nat)
    ensures n == 0 ==> chosen + Eligible(skip, n) == chosen
  {
  }

  /** The first `m` indices that are not skipped, and the next one */
  lemma {:induction false} PrefixBlocks(items: seq<Range>, skip: nat -> bool, m: nat)
    requires Sorted(items) && items != [] && m < |Eligible(skip, |items| - 1)|
    ensures var top, all := items[|items| - 1].lo, Eligible(skip, |items| - 1);
            && Chosen(items, all[..m], |items| - 1) && Chosen(items, all[..m + 1], |items| - 1)
            && var below := if m == 0 then |items| - 1 else all[m - 1];
            && Descending(top, Pick(items, all[..m])) && Descending(top, Pick(items, all[..m + 1]))
            && items[all[m]].lo <= items[all[m]].hi && items[all[m]].hi + 1 < items[below].lo
            && |Blocks(top, Pick(items, all[..m + 1]))|
            == |Blocks(top, Pick(items, all[..m]))| + |Block(items[below].lo, items[all[m]])|
  {
    hide Encoding, Blocks, Block, Descending, Eligible, Sorted;
    var all := Eligible(skip, |items| - 1);
    EligibleChosen(items, skip, |items| - 1, m + 1);
    EligibleChosen(items, skip, |items| - 1, m);
    if m == 0 {
      NoBlocks(items[|items| - 1].lo);
      assert Pick(items, all[..0]) == [];
    } else {
      PrefixBlocks(items, skip, m - 1);
    }
    assert all[..m + 1] == all[..m] + [all[m]];
    assert forall i :: 0 <= i < m ==> all[..m + 1][i] == all[i];
    WalkOn(items, all[..m], if m == 0 then |items| - 1 else all[m - 1], all[m]);
  }

  /** What fits, fits with fewer ranges. */
  lemma {:induction false} FewerFit(items: seq<Range>, skip: nat -> bool, m: nat, n: nat, room: int)
    requires Sorted(items) && items != [] && m <= n <= |Eligible(skip, |items| - 1)|
    requires BlocksFit(items, skip, n, room)
    ensures BlocksFit(items, skip, m, room)
    decreases n - m
  {
    hide Encoding, Blocks, Block, Descending, Eligible, Sorted;
    if m < n {
      PrefixBlocks(items, skip, n - 1);
      FewerFit(items, skip, m, n - 1, room);
    }
  }

  /** At the end of the loop. */
  lemma SelectedNow(items: seq<Range>, skip: nat -> bool, room: int, chosen: seq<nat>, below: nat, k: int, more: bool)
    requires Sorted(items) && items != [] && |chosen| <= MAX_BLOCKS && Walked(items, chosen, below, k)
    requires Eligible(skip, |items| - 1) == chosen + Eligible(skip, k + 1)
    requires var low := items[|items| - 1].lo;
             Descending(low, Pick(items, chosen)) && |Blocks(low, Pick(items, chosen))| <= room
    requires if more then |chosen| < MAX_BLOCKS && k >= 0 && !skip(k)
                          && items[k].lo <= items[k].hi && items[k].hi + 1 < items[below].lo
                          && |Blocks(items[|items| - 1].lo, Pick(items, chosen))| + |Block(items[below].lo, items[k])| > room
             else |chosen| == MAX_BLOCKS || k < 0
    ensures Selected(items, skip, room, chosen)
    ensures more <==> Missing(items, skip, chosen)
  {
    hide Encoding, Blocks, Block, Descending, Sorted, BlocksFit, Eligible;
    var all, n := Eligible(skip, |items| - 1), |chosen|;
    NothingEligible(skip, chosen, k + 1);
    assert all[..n] == chosen;
    NowFits(items, skip, room, chosen);
    if more {
      EligibleNext(skip, chosen, k);
      NextEligible(skip, k);
      assert all[n] == k;
      NextDoesNotFit(items, skip, room, n, below);
    }
    forall m: nat | m <= |all| && m <= MAX_BLOCKS
      ensures BlocksFit(items, skip, m, room) <==> m <= n
    {
      if m <= n {
        FewerFit(items, skip, m, n, room);
      } else if BlocksFit(items, skip, m, room) {
        FewerFit(items, skip, n + 1, m, room);
      }
    }
  }

  lemma NextEligible(skip: nat -> bool, k: nat)
    requires !skip(k)
    ensures Eligible(skip, k + 1) != [] && Eligible(skip, k + 1)[0] == k
  {
  }

  lemma NowFits(items: seq<Range>, skip: nat -> bool, room: int, chosen: seq<nat>)
    requires items != [] && chosen <= Eligible(skip, |items| - 1) && Chosen(items, chosen, |items| - 1)
    requires var low := items[|items| - 1].lo;
             Descending(low, Pick(items, chosen)) && |Blocks(low, Pick(items, chosen))| <= room
    ensures BlocksFit(items, skip, |chosen|, room)
  {
    hide Blocks, Descending, Eligible;
    assert Eligible(skip, |items| - 1)[..|chosen|] == chosen;
  }

  lemma NextDoesNotFit(items: seq<Range>, skip: nat -> bool, room: int, n: nat, below: nat)
    requires Sorted(items) && items != [] && n < |Eligible(skip, |items| - 1)|
    requires var all := Eligible(skip, |items| - 1);
             && Chosen(items, all[..n], |items| - 1) && below < |items| && all[n] < |items|
             && below == (if n == 0 then |items| - 1 else all[n - 1])
             && var low := items[|items| - 1].lo;
             && Descending(low, Pick(items, all[..n]))
             && items[all[n]].lo <= items[all[n]].hi && items[all[n]].hi + 1 < items[below].lo
             && |Blocks(low, Pick(items, all[..n]))| + |Block(items[below].lo, items[all[n]])| > room
    ensures !BlocksFit(items, skip, n + 1, room)
  {
    hide Encoding, Blocks, Block, Descending, Eligible, Sorted;
    PrefixBlocks(items, skip, n);
  }

  lemma NoBlocks(low: nat)
    ensures Descending(low, []) && Blocks(low, []) == []
  {
  }

  lemma LowBound(items: seq<Range>, k: nat)
    requires Sorted(items) && k < |items|
    ensures items[k].lo <= items[|items| - 1].hi
    ensures items[|items| - 1].lo <= items[|items| - 1].hi
  {
  }

  /** `picoquic_format_ack_frame_in_context` on a single path, without a time stamp frame. `skip` stands for the
      choice of ranges that were already sent often enough; `ecn` holds the counts when the path sends them. */
  method FormatAck(items: seq<Range>, buf: array<byte>, pos: nat, max: nat, delay: nat, skip: nat -> bool,
                   ecn: Option<EcnCounts>)
    returns (next: nat, moreData: bool, ghost chosen: seq<nat>, ghost withEcn: bool)
    requires Sorted(items) && pos <= max <= buf.Length
    requires items != [] ==> InRange(delay, items[|items| - 1], ecn)
    modifies buf
    ensures pos <= next <= max && SameOutside(old(buf[..]), buf[..], pos, max)
    // a frame is written exactly if its first part fits
    ensures next != pos <==> items != [] && pos + HeadSize(ecn.Some?, delay, items[|items| - 1]) <= max
    ensures next == pos ==> (moreData <==> items != [])
    ensures next != pos ==> Written(items, skip, max - pos, delay, ecn, chosen, withEcn, moreData, buf[pos..next])
  {
    hide Encoding, EncodedLength, SameOutside, Blocks, Block, Descending, Sorted, EcnBytes, Preamble, Pick, Eligible,
         Selected, Missing, HeadSize, Written;
    ghost var b := buf[..];
    SameOutsideItself(b, pos, max);
    next, moreData, chosen, withEcn := pos, false, [], false;
    if items == [] {
      return;
    }
    var top := items[|items| - 1];
    LowBound(items, |items| - 1);
    var afterTop, numBlockByte;
    ghost var reserved;
    afterTop, numBlockByte, reserved := FormatTop(buf, pos, max, ecn.Some?, delay, top);
    if afterTop.None? {
      moreData := true;
      return;
    }
    ghost var b1 := buf[..];
    ghost var head := Preamble(ecn.Some?, delay, top.hi) + ([reserved] + Encoding(top.hi - top.lo));
    var numBlock;
    next, numBlock, moreData, chosen := FormatBlocks(items, buf, pos, afterTop.value, max, skip, head);
    SameOutsideJoin(b, b1, buf[..], pos, max);
    ghost var ranges := Pick(items, chosen);
    ghost var b2 := buf[..];
    var count: byte := numBlock;
    buf[numBlockByte] := count;
    assert buf[..] == b2[numBlockByte := count];
    NumBlockSet(b, b2, pos, numBlockByte, next, max, ecn.Some?, delay, top, ranges, reserved);
    if ecn.Some? {
      ghost var b3, body := buf[..], buf[pos..next];
      var afterEcn := FormatEcn(buf, pos, next, max, ecn.value, body);
      SameOutsideJoin(b, b3, buf[..], pos, max);
      if afterEcn.None? {
        moreData := true;
        ghost var b4 := buf[..];
        buf[pos] := ACK;
        assert buf[..] == b4[pos := ACK];
        TypeReset(b, b4, pos, next, max, delay, top, ranges);
      } else {
        next := afterEcn.value;
        withEcn := true;
      }
    }
    WithEcnBytes(delay, top, ranges, ecn);
    IsWritten(items, skip, max - pos, delay, ecn, chosen, withEcn, moreData, buf[pos..next]);
  }

  /** What a frame for the list holds if `room` bytes are there: the top range, as many of the other ranges as fit, and
      the counts if they still fit. */
  ghost predicate Written(items: seq<Range>, skip: nat -> bool, room: int, delay: nat, ecn: Option<EcnCounts>,
                          chosen: seq<nat>, withEcn: bool, moreData: bool, written: seq<byte>)
    requires Sorted(items) && items != []
  {
    var top := items[|items| - 1];
    && Chosen(items, chosen, |items| - 1) && |chosen| <= MAX_BLOCKS && Descending(top.lo, Pick(items, chosen))
    && Selected(items, skip, room - HeadSize(ecn.Some?, delay, top), chosen)
    && (withEcn <==> ecn.Some? && |AckBytes(delay, top, Pick(items, chosen), ecn)| <= room)
    && (moreData <==> Missing(items, skip, chosen) || (ecn.Some? && !withEcn))
    && written == AckBytes(delay, top, Pick(items, chosen), if withEcn then ecn else None)
  }

  lemma IsWritten(items: seq<Range>, skip: nat -> bool, room: int, delay: nat, ecn: Option<EcnCounts>,
                  chosen: seq<nat>, withEcn: bool, moreData: bool, written: seq<byte>)
    requires Sorted(items) && items != []
    requires var top := items[|items| - 1];
      && Chosen(items, chosen, |items| - 1) && |chosen| <= MAX_BLOCKS && Descending(top.lo, Pick(items, chosen))
      && Selected(items, skip, room - HeadSize(ecn.Some?, delay, top), chosen)
      && (ecn.Some? ==> (withEcn <==> |Body(true, delay, top, Pick(items, chosen))| + |EcnBytes(ecn)| <= room))
      && (withEcn ==> ecn.Some?)
      && (moreData <==> Missing(items, skip, chosen) || (ecn.Some? && !withEcn))
      && written == AckBytes(delay, top, Pick(items, chosen), if withEcn then ecn else None)
    ensures Written(items, skip, room, delay, ecn, chosen, withEcn, moreData, written)
  {
    hide Selected, Missing, EcnBytes, Blocks, Encoding, Preamble, Descending, AckBytes, Body;
    if ecn.Some? {
      WithEcnBytes(delay, items[|items| - 1], Pick(items, chosen), ecn);
    }
  }

  /** Everything but the ECN counts. */
  function Body(ecn: bool, delay: nat, top: Range, ranges: seq<Range>): (s: seq<byte>)
    requires top.lo <= top.hi && Descending(top.lo, ranges) && |ranges| <= MAX_BLOCKS
    ensures !ecn ==> s == AckBytes(delay, top, ranges, None)
  {
    var s := Preamble(ecn, delay, top.hi) + ([|ranges|] + (Encoding(top.hi - top.lo) + Blocks(top.lo, ranges)));
    assert Encoding(top.hi - top.lo) + Blocks(top.lo, ranges) + [] == Encoding(top.hi - top.lo) + Blocks(top.lo, ranges);
    s
  }

  lemma NumBlockSet(b: seq<byte>, b2: seq<byte>, pos: nat, at: nat, next: nat, max: nat, ecn: bool, delay: nat,
                    top: Range, ranges: seq<Range>, reserved: byte)
    requires SameOutside(b, b2, pos, max) && at == pos + |Preamble(ecn, delay, top.hi)| < next <= max
    requires top.lo <= top.hi && Descending(top.lo, ranges) && |ranges| <= MAX_BLOCKS
    requires b2[pos..next]
          == Preamble(ecn, delay, top.hi) + ([reserved] + Encoding(top.hi - top.lo)) + Blocks(top.lo, ranges)
    ensures var count: byte := |ranges|;
            var b3 := b2[at := count];
            SameOutside(b, b3, pos, max) && b3[pos..next] == Body(ecn, delay, top, ranges)
  {
    hide Encoding, Blocks, Descending, Preamble;
    var count: byte := |ranges|;
    var b3 := b2[at := count];
    assert b3[pos..next] == b2[pos..next][at - pos := count];
    assert b3[..pos] == b2[..pos] && b3[max..] == b2[max..];
  }

  /** The fallback when the counts do not fit: only the type of the frame changes. */
  lemma TypeReset(b: seq<byte>, b4: seq<byte>, pos: nat, next: nat, max: nat, delay: nat, top: Range, ranges: seq<Range>)
    requires SameOutside(b, b4, pos, max) && pos < next <= max
    requires top.lo <= top.hi && Descending(top.lo, ranges) && |ranges| <= MAX_BLOCKS
    requires b4[pos..next] == Body(true, delay, top, ranges)
    ensures var b5 := b4[pos := ACK];
            SameOutside(b, b5, pos, max) && b5[pos..next] == AckBytes(delay, top, ranges, None)
  {
    hide Encoding, Blocks, Descending;
    var b5 := b4[pos := ACK];
    assert b5[pos..next] == b4[pos..next][0 := ACK];
    assert b5[..pos] == b4[..pos] && b5[max..] == b4[max..];
    assert Body(true, delay, top, ranges)[0 := ACK] == Body(false, delay, top, ranges);
  }

  lemma WithEcnBytes(delay: nat, top: Range, ranges: seq<Range>, ecn: Option<EcnCounts>)
    requires top.lo <= top.hi && Descending(top.lo, ranges) && |ranges| <= MAX_BLOCKS
    ensures Body(ecn.Some?, delay, top, ranges) + EcnBytes(ecn) == AckBytes(delay, top, ranges, ecn)
    ensures |AckBytes(delay, top, ranges, ecn)|
         == HeadSize(ecn.Some?, delay, top) + |Blocks(top.lo, ranges)| + |EcnBytes(ecn)|
    ensures HeadSize(true, delay, top) == HeadSize(false, delay, top)
    ensures EcnBytes(None) == []
  {
    hide Encoding, EncodedLength, Blocks, Descending;
    var lead, n := Preamble(ecn.Some?, delay, top.hi), [|ranges| as byte];
    var e, b, c := Encoding(top.hi - top.lo), Blocks(top.lo, ranges), EcnBytes(ecn);
    assert lead + (n + (e + b)) + c == lead + (n + (e + b + c));
  }

  // ----- What a written frame acknowledges

  /** Whatever ranges are skipped or do not fit, and with or without the counts, the peer decodes whole ranges of
      the list, highest first and starting with the top one: it never sees an unreceived number acknowledged. */
  lemma AckIsTruthful(items: seq<Range>, chosen: seq<nat>, delay: nat, ecn: Option<EcnCounts>, written: seq<byte>,
                      rest: seq<byte>)
    requires Sorted(items) && items != [] && Chosen(items, chosen, |items| - 1) && |chosen| <= MAX_BLOCKS
    requires InRange(delay, items[|items| - 1], ecn)
    requires var top, ranges := items[|items| - 1], Pick(items, chosen);
             top.lo <= top.hi && Descending(top.lo, ranges) && written == AckBytes(delay, top, ranges, ecn)
    ensures written + rest != []
    ensures match DecodeAck(written + rest)
            case None => false
            case Some(ack) => ack.ecn == ecn && Truthful(items, ack.ranges)
  {
    var top, ranges := items[|items| - 1], Pick(items, chosen);
    hide DecodeAck, AckBytes, Descending;
    AckRoundTrip(delay, top, ranges, ecn, rest);
    PickIsTruthful(items, chosen);
    assert |written| > 0 by {
      AckNotEmpty(delay, top, ranges, ecn);
    }
  }

  lemma AckNotEmpty(delay: nat, top: Range, ranges: seq<Range>, ecn: Option<EcnCounts>)
    requires top.lo <= top.hi && Descending(top.lo, ranges) && |ranges| <= MAX_BLOCKS
    ensures AckBytes(delay, top, ranges, ecn) != []
  {
  }

  /** The ranges are ranges of the list, starting with the top one, and they hold only received numbers. */
  ghost predicate Truthful(items: seq<Range>, ranges: seq<Range>)
    requires items != []
  {
    && ranges != [] && ranges[0] == items[|items| - 1]
    && (forall i :: 0 <= i < |ranges| ==> ranges[i] in items)
    && (forall n: int :: Contains(ranges, n) ==> Contains(items, n))
  }

  lemma PickIsTruthful(items: seq<Range>, chosen: seq<nat>)
    requires items != [] && Chosen(items, chosen, |items| - 1)
    ensures Truthful(items, [items[|items| - 1]] + Pick(items, chosen))
  {
  }

  /** There is room for the whole list in one frame. */
  ghost predicate RoomForAll(items: seq<Range>, room: int, delay: nat, ecn: Option<EcnCounts>)
    requires Sorted(items) && items != []
  {
    var top := items[|items| - 1];
    AllChosen(items);
    && |items| <= 33 && Descending(top.lo, Pick(items, AllBelow(|items| - 1)))
    && |AckBytes(delay, top, Pick(items, AllBelow(|items| - 1)), ecn)| <= room
  }

  predicate NoneSkipped(items: seq<Range>, skip: nat -> bool) {
    forall i :: 0 <= i < |items| - 1 ==> !skip(i)
  }

  /** The peer decodes exactly the list if and only if no range is skipped, there are at most 33, and they fit. If so,
      the frame asks for another one exactly if the counts do not fit. */
  lemma AckIsComplete(items: seq<Range>, skip: nat -> bool, room: int, delay: nat, ecn: Option<EcnCounts>,
                      chosen: seq<nat>, withEcn: bool, moreData: bool, written: seq<byte>, rest: seq<byte>)
    requires Sorted(items) && items != [] && InRange(delay, items[|items| - 1], ecn)
    requires Written(items, skip, room, delay, ecn, chosen, withEcn, moreData, written)
    ensures written + rest != [] && DecodeAck(written + rest).Some?
    ensures (forall n: int :: Contains(DecodeAck(written + rest).value.ranges, n) <==> Contains(items, n))
       <==> NoneSkipped(items, skip) && RoomForAll(items, room, delay, None)
    ensures NoneSkipped(items, skip) && |items| <= 33 ==> (!moreData <==> RoomForAll(items, room, delay, ecn))
  {
    hide DecodeAck, AckBytes, Descending, Selected, Missing, Eligible, HeadSize, Contains, RoomForAll, NoneSkipped;
    var top := items[|items| - 1];
    AckRoundTrip(delay, top, Pick(items, chosen), if withEcn then ecn else None, rest);
    AckNotEmpty(delay, top, Pick(items, chosen), if withEcn then ecn else None);
    AllIffRoom(items, skip, room, delay, ecn, chosen, withEcn, moreData, written);
    ListIffAll(items, chosen);
  }

  lemma AllIffRoom(items: seq<Range>, skip: nat -> bool, room: int, delay: nat, ecn: Option<EcnCounts>,
                   chosen: seq<nat>, withEcn: bool, moreData: bool, written: seq<byte>)
    requires Sorted(items) && items != []
    requires Written(items, skip, room, delay, ecn, chosen, withEcn, moreData, written)
    ensures chosen == AllBelow(|items| - 1) <==> NoneSkipped(items, skip) && RoomForAll(items, room, delay, None)
    ensures NoneSkipped(items, skip) && |items| <= 33 ==> (!moreData <==> RoomForAll(items, room, delay, ecn))
  {
    hide AckBytes, Descending, Eligible, HeadSize, AllBelow, EcnBytes, Blocks, Pick, Selected, Missing, NoneSkipped,
         Encoding;
    var top, n := items[|items| - 1], |items| - 1;
    AllChosen(items);
    AllSelected(items, skip, room - HeadSize(ecn.Some?, delay, top), chosen);
    var all := Pick(items, AllBelow(n));
    if n <= MAX_BLOCKS && Descending(top.lo, all) {
      WithEcnBytes(delay, top, all, None);
      WithEcnBytes(delay, top, all, ecn);
    }
  }

  lemma AllSelected(items: seq<Range>, skip: nat -> bool, room: int, chosen: seq<nat>)
    requires items != [] && Chosen(items, AllBelow(|items| - 1), |items| - 1)
    requires Selected(items, skip, room, chosen)
    ensures var low, n, all := items[|items| - 1].lo, |items| - 1, Pick(items, AllBelow(|items| - 1));
            && (chosen == AllBelow(n)
                <==> NoneSkipped(items, skip) && n <= MAX_BLOCKS && Descending(low, all) && |Blocks(low, all)| <= room)
            && (NoneSkipped(items, skip) && n <= MAX_BLOCKS ==> (!Missing(items, skip, chosen) <==> chosen == AllBelow(n)))
  {
    hide Descending, Eligible, AllBelow, BlocksFit, Blocks, Pick;
    var n := |items| - 1;
    EligibleAll(skip, n);
    if NoneSkipped(items, skip) {
      AllFit(items, skip, room);
      assert n <= MAX_BLOCKS ==> (BlocksFit(items, skip, n, room) <==> n <= |chosen|);
    }
  }

  lemma AllFit(items: seq<Range>, skip: nat -> bool, room: int)
    requires items != [] && Eligible(skip, |items| - 1) == AllBelow(|items| - 1)
    requires Chosen(items, AllBelow(|items| - 1), |items| - 1)
    ensures var low, all := items[|items| - 1].lo, Pick(items, AllBelow(|items| - 1));
            BlocksFit(items, skip, |items| - 1, room) <==> Descending(low, all) && |Blocks(low, all)| <= room
  {
    hide Blocks, Descending, Eligible;
    assert AllBelow(|items| - 1)[..|items| - 1] == AllBelow(|items| - 1);
  }

  lemma AllChosen(items: seq<Range>)
    requires items != []
    ensures Chosen(items, AllBelow(|items| - 1), |items| - 1)
  {
    AllBelowIndex(|items| - 1);
  }

  /** A selection holds the numbers of the list exactly if it is the whole list. */
  lemma ListIffAll(items: seq<Range>, chosen: seq<nat>)
    requires Sorted(items) && items != [] && Chosen(items, chosen, |items| - 1)
    ensures (forall n: int :: Contains([items[|items| - 1]] + Pick(items, chosen), n) <==> Contains(items, n))
       <==> chosen == AllBelow(|items| - 1)
  {
    var top := |items| - 1;
    if chosen == AllBelow(top) {
      forall n: int
        ensures Contains([items[top]] + Pick(items, chosen), n) <==> Contains(items, n)
      {
        AllContain(items, n);
      }
    } else {
      var j := NotChosen(chosen, top);
      OthersDoNotContain(items, chosen, j);
    }
  }

  lemma OthersDoNotContain(items: seq<Range>, chosen: seq<nat>, j: nat)
    requires Sorted(items) && items != [] && Chosen(items, chosen, |items| - 1)
    requires j < |items| - 1 && j !in chosen
    ensures Contains(items, items[j].lo) && !Contains([items[|items| - 1]] + Pick(items, chosen), items[j].lo)
  {
    var all := [items[|items| - 1]] + Pick(items, chosen);
    assert items[j].Has(items[j].lo);
    forall i | 0 <= i < |all|
      ensures !all[i].Has(items[j].lo)
    {
      var k := if i == 0 then |items| - 1 else chosen[i - 1];
      assert all[i] == items[k] && k != j;
      assert k < j ==> items[k].hi + 1 < items[j].lo;
      assert k > j ==> items[j].hi + 1 < items[k].lo;
    }
  }

  lemma {:induction false} NotChosen(chosen: seq<nat>, n: nat) returns (j: nat)
    requires forall i :: 0 <= i < |chosen| ==> chosen[i] < n
    requires forall i, k :: 0 <= i < k < |chosen| ==> chosen[k] < chosen[i]
    requires chosen != AllBelow(n)
    ensures j < n && j !in chosen
  {
    if chosen == [] || chosen[0] != n - 1 {
      j := n - 1;
    } else {
      j := NotChosen(chosen[1..], n - 1);
    }
  }

  lemma AllContain(items: seq<Range>, n: int)
    requires items != [] && Chosen(items, AllBelow(|items| - 1), |items| - 1)
    ensures Contains([items[|items| - 1]] + Pick(items, AllBelow(|items| - 1)), n) <==> Contains(items, n)
  {
    hide Contains, AllBelow;
    AllReversed(items);
    ReversedContains(items, [items[|items| - 1]] + Pick(items, AllBelow(|items| - 1)), n);
  }

  lemma ReversedContains(a: seq<Range>, b: seq<Range>, n: int)
    requires |a| == |b| && forall i :: 0 <= i < |a| ==> b[|a| - 1 - i] == a[i]
    ensures Contains(b, n) <==> Contains(a, n)
  {
    if Contains(a, n) {
      var i :| 0 <= i < |a| && a[i].Has(n);
      assert b[|a| - 1 - i].Has(n);
    }
    if Contains(b, n) {
      var j :| 0 <= j < |b| && b[j].Has(n);
      assert b[|a| - 1 - (|a| - 1 - j)] == a[|a| - 1 - j];
    }
  }

  lemma AllReversed(items: seq<Range>)
    requires items != [] && Chosen(items, AllBelow(|items| - 1), |items| - 1)
    ensures var all := [items[|items| - 1]] + Pick(items, AllBelow(|items| - 1));
            |all| == |items| && forall i :: 0 <= i < |items| ==> all[|items| - 1 - i] == items[i]
  {
    var top := |items| - 1;
    AllBelowIndex(top);
    hide AllBelow, Chosen;
    var chosen := AllBelow(top);
    forall i | 0 <= i < top
      ensures ([items[top]] + Pick(items, chosen))[top - i] == items[i]
    {
      assert Pick(items, chosen)[top - i - 1] == items[chosen[top - i - 1]];
    }
  }

  lemma {:induction false} AllBelowIndex(n: nat)
    ensures forall i :: 0 <= i < n ==> AllBelow(n)[i] == n - 1 - i
  {
    if n > 0 {
      AllBelowIndex(n - 1);
    }
  }

  // ----- Reading a frame

  /** `r`, decoded after `ranges` and `length` bytes. */
  function After(ranges: seq<Range>, length: nat, r: Option<(seq<Range>, nat)>): Option<(seq<Range>, nat)> {
    if r.None? then None else Some((ranges + r.value.0, length + r.value.1))
  }

  /** The loop of `picoquic_decode_ack_frame` over the ranges. */
  method ReadRanges(buf: array<byte>, pos: nat, max: nat, top: nat, blocks: nat) returns (r: Option<(seq<Range>, nat)>)
    requires pos <= max <= buf.Length
    ensures r == DecodeRanges(buf[pos..max], top, blocks)
  {
    hide Decoding, DecodeRanges;
    ghost var spec := DecodeRanges(buf[pos..max], top, blocks);
    var p: nat, largest: nat, numBlock: nat, ranges: seq<Range> := pos, top, blocks, [];
    AfterNothing(spec);
    while true
      invariant pos <= p <= max
      invariant spec == After(ranges, p - pos, DecodeRanges(buf[p..max], largest, numBlock))
      decreases numBlock
    {
      RangesTurn(buf[p..max], largest, numBlock, ranges, p - pos);
      var x := Decode(buf, p, max);
      if x.None? {
        return None;
      }
      var range: nat := x.value.0 as int + 1;
      if largest + 1 < range {
        return None;
      }
      var afterRange := x.value.1;
      ranges := ranges + [Range(largest + 1 - range, largest)];
      if numBlock == 0 {
        return Some((ranges, afterRange - pos));
      }
      assert buf[p..max][afterRange - p..] == buf[afterRange..max];
      var y := Decode(buf, afterRange, max);
      if y.None? {
        return None;
      }
      var blockToBlock: nat := y.value.0 as int + 1 + range;
      if largest < blockToBlock {
        return None;
      }
      assert buf[p..max][y.value.1 - p..] == buf[y.value.1..max];
      largest := largest - blockToBlock;
      numBlock := numBlock - 1;
      p := y.value.1;
    }
  }

  lemma AfterNothing(r: Option<(seq<Range>, nat)>)
    ensures r == After([], 0, r)
  {
    if r.Some? {
      assert [] + r.value.0 == r.value.0;
    }
  }

  /** One turn of the loop unfolds the specification once. */
  lemma RangesTurn(s: seq<byte>, largest: nat, n: nat, ranges: seq<Range>, length: nat)
    ensures var r := After(ranges, length, DecodeRanges(s, largest, n));
            var x := Decoding(s);
            if x.None? || largest + 1 < x.value.0 + 1 then r == None
            else
              var range, l0 := x.value.0 + 1, x.value.1;
              var more := ranges + [Range(largest + 1 - range, largest)];
              l0 <= |s| &&
              if n == 0 then r == Some((more, length + l0))
              else
                var y := Decoding(s[l0..]);
                if y.None? || largest < y.value.0 + 1 + range then r == None
                else
                  var l1 := y.value.1;
                  l0 + l1 <= |s| &&
                  r == After(more, length + l0 + l1, DecodeRanges(s[l0 + l1..], largest - (y.value.0 + 1 + range), n - 1))
  {
    hide Decoding;
    var x := Decoding(s);
    if x.Some? {
      DecodingBound(s);
      var l0 := x.value.1;
      var y := Decoding(s[l0..]);
      if y.Some? {
        DecodingBound(s[l0..]);
      }
      if largest + 1 >= x.value.0 + 1 {
        var top := Range(largest - x.value.0, largest);
        assert ranges + [top] + [] == ranges + [top];
        if n > 0 && y.Some? && largest >= y.value.0 + 2 + x.value.0 {
          var rest := DecodeRanges(s[l0 + y.value.1..], largest - (y.value.0 + 2 + x.value.0), n - 1);
          if rest.Some? {
            assert ranges + [top] + rest.value.0 == ranges + ([top] + rest.value.0);
          }
        }
      }
    }
  }
}
