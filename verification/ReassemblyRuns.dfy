/** Runs of the receiver on frames that all come from one text, in any order, with any overlap and any
    repetition: what is delivered is exactly the longest covered prefix. */
module ReassemblyRuns {
  import opened Wrappers
  import opened Varint
  import opened StreamFrames
  import opened Reassembly

  /** A frame that a sender of `text` may send; a FIN only when the text is complete. */
  predicate Consistent(f: Segment, text: seq<byte>, complete: bool) {
    && f.End() <= |text|
    && f.data == text[f.offset..f.End()]
    && (f.fin ==> complete && f.End() == |text|)
  }

  ghost predicate AllConsistent(frames: seq<Segment>, text: seq<byte>, complete: bool) {
    forall k :: 0 <= k < |frames| ==> Consistent(frames[k], text, complete)
  }

  ghost predicate Covered(frames: seq<Segment>, i: nat) {
    exists k :: 0 <= k < |frames| && frames[k].offset <= i < frames[k].End()
  }

  ghost predicate FinSeen(frames: seq<Segment>) {
    exists k :: 0 <= k < |frames| && frames[k].fin
  }

  const START: RecvView := RecvView([], [], 0, false, false)

  /** The receiver knows exactly the bytes of `text` that the accepted frames cover. */
  ghost predicate Exact(v: RecvView, text: seq<byte>, frames: seq<Segment>) {
    && v.Valid()
    && v.finOffset <= |text|
    && (forall i: nat :: v.Known(i).Some? <==> Covered(frames, i))
    && (forall i: nat :: v.Known(i).Some? ==> i < |text| && v.Known(i).value == text[i])
    && (v.finReceived <==> FinSeen(frames))
    && (v.finReceived ==> v.finOffset == |text|)
    && (v.finSignalled <==> v.finReceived && |v.delivered| == v.finOffset)
  }

  /** A consistent frame is never a final-size error. */
  lemma NoFinalSizeError(v: RecvView, text: seq<byte>, complete: bool, frames: seq<Segment>, f: Segment)
    requires Exact(v, text, frames) && Consistent(f, text, complete)
    requires v.finReceived
    ensures if f.fin then f.End() == v.finOffset else f.End() <= v.finOffset
  {
  }

  /** Accepting one more frame keeps the correspondence. */
  lemma ExactStep(v: RecvView, v': RecvView, text: seq<byte>, complete: bool, frames: seq<Segment>, f: Segment)
    requires Exact(v, text, frames) && Consistent(f, text, complete)
    requires Accepted(v, v', f.offset, f.fin, f.data)
    ensures Exact(v', text, frames + [f])
  {
    hide At;
    var fs := frames + [f];
    forall i: nat
      ensures v'.Known(i).Some? <==> Covered(fs, i)
      ensures v'.Known(i).Some? ==> i < |text| && v'.Known(i).value == text[i]
    {
      CoveredMore(frames, f, i);
      if i < |v.delivered| {
        assert v'.Known(i) == v.Known(i);
      } else if f.offset <= i < f.End() {
        assert DataAt(f.offset, f.data, i) == Some(text[i]);
      }
    }
    FinSeenMore(frames, f);
    if f.End() < |v.delivered| {
      DuplicateIgnored(v, v', f);
    }
  }

  /** A frame that ends inside the delivered part delivers nothing. */
  lemma DuplicateIgnored(v: RecvView, v': RecvView, f: Segment)
    requires v.Valid() && f.End() < |v.delivered|
    requires Accepted(v, v', f.offset, f.fin, f.data)
    ensures v'.delivered == v.delivered && v'.finOffset == v.finOffset
  {
    hide At;
    var n := |v.delivered|;
    if |v'.delivered| > n {
      assert v'.Known(n) == v.Known(n);
      AtRange(v.tree, n);
    }
  }

  lemma CoveredMore(frames: seq<Segment>, f: Segment, i: nat)
    ensures Covered(frames + [f], i) <==> Covered(frames, i) || f.offset <= i < f.End()
  {
    var fs := frames + [f];
    assert fs[|frames|] == f;
    if Covered(frames, i) {
      var k :| 0 <= k < |frames| && frames[k].offset <= i < frames[k].End();
      assert fs[k] == frames[k];
    }
  }

  lemma FinSeenMore(frames: seq<Segment>, f: Segment)
    ensures FinSeen(frames + [f]) <==> FinSeen(frames) || f.fin
  {
    var fs := frames + [f];
    assert fs[|frames|] == f;
    if FinSeen(frames) {
      var k :| 0 <= k < |frames| && frames[k].fin;
      assert fs[k] == frames[k];
    }
  }

  /** A run: each frame is accepted in turn. */
  ghost predicate Run(views: seq<RecvView>, frames: seq<Segment>) {
    && |views| == |frames| + 1
    && views[0] == START
    && forall k :: 0 <= k < |frames| ==> Accepted(views[k], views[k + 1], frames[k].offset, frames[k].fin, frames[k].data)
  }

  lemma {:induction false} RunIsExact(views: seq<RecvView>, frames: seq<Segment>, text: seq<byte>, complete: bool)
    requires Run(views, frames) && AllConsistent(frames, text, complete)
    ensures Exact(views[|frames|], text, frames)
  {
    if frames != [] {
      var n := |frames| - 1;
      var frames', f := frames[..n], frames[n];
      assert Run(views[..n + 1], frames') by {
        forall k | 0 <= k < n
          ensures Accepted(views[k], views[k + 1], frames'[k].offset, frames'[k].fin, frames'[k].data)
        {
          assert frames'[k] == frames[k];
        }
      }
      RunIsExact(views[..n + 1], frames', text, complete);
      ExactStep(views[n], views[n + 1], text, complete, frames', f);
      assert frames == frames' + [f];
    }
  }

  /** After every run the application has received exactly the longest covered prefix of the text, and the
      FIN event exactly when a FIN was accepted and the whole text is delivered. */
  lemma ReassemblyIsExact(views: seq<RecvView>, frames: seq<Segment>, text: seq<byte>, complete: bool)
    requires Run(views, frames) && AllConsistent(frames, text, complete)
    ensures var v := views[|frames|];
            && v.delivered <= text
            && (forall i :: 0 <= i < |v.delivered| ==> Covered(frames, i))
            && !Covered(frames, |v.delivered|)
            && (v.finSignalled <==> FinSeen(frames) && v.delivered == text)
  {
    hide At;
    RunIsExact(views, frames, text, complete);
    var v := views[|frames|];
    DeliveredPrefix(v, text, frames);
  }

  lemma DeliveredPrefix(v: RecvView, text: seq<byte>, frames: seq<Segment>)
    requires Exact(v, text, frames)
    ensures v.delivered <= text
    ensures forall i :: 0 <= i < |v.delivered| ==> Covered(frames, i)
    ensures !Covered(frames, |v.delivered|)
  {
    hide At;
    var n := |v.delivered|;
    forall i | 0 <= i < n
      ensures Covered(frames, i) && i < |text| && v.delivered[i] == text[i]
    {
      assert v.Known(i) == Some(v.delivered[i]);
    }
    if v.Known(n).Some? {
      AtRange(v.tree, n);
    }
  }

  /** The outcome depends only on which positions were covered and whether a FIN was seen: not on the order,
      the cutting or the repetition of the frames. */
  lemma OrderDoesNotMatter(views1: seq<RecvView>, frames1: seq<Segment>, views2: seq<RecvView>, frames2: seq<Segment>,
                           text: seq<byte>, complete: bool)
    requires Run(views1, frames1) && AllConsistent(frames1, text, complete)
    requires Run(views2, frames2) && AllConsistent(frames2, text, complete)
    requires forall i: nat :: Covered(frames1, i) <==> Covered(frames2, i)
    requires FinSeen(frames1) <==> FinSeen(frames2)
    ensures views1[|frames1|].delivered == views2[|frames2|].delivered
    ensures views1[|frames1|].finSignalled == views2[|frames2|].finSignalled
  {
    ReassemblyIsExact(views1, frames1, text, complete);
    ReassemblyIsExact(views2, frames2, text, complete);
    var d1, d2 := views1[|frames1|].delivered, views2[|frames2|].delivered;
    assert !(|d1| < |d2|) && !(|d2| < |d1|);
  }

  /** Once the FIN event is given, an accepted frame changes nothing for the application: no event is repeated. */
  lemma NothingAfterFin(v: RecvView, v': RecvView, f: Segment)
    requires v.Valid() && v.finSignalled
    requires Accepted(v, v', f.offset, f.fin, f.data)
    requires if f.fin then f.End() == v.finOffset else f.End() <= v.finOffset
    ensures v'.delivered == v.delivered && v'.finSignalled && v'.finOffset == v.finOffset
  {
  }

  // ----- When the FIN event is late

  /** The FIN event is due: everything up to the final size is delivered, but the event was not given. */
  predicate FinOwed(v: RecvView) {
    v.finReceived && |v.delivered| == v.finOffset && !v.finSignalled
  }

  /** The first FIN of the stream, in a frame that ends below the delivered part, when all received is delivered.
      The code accepts the frame, and then takes it for a duplicate. */
  predicate ShortFin(v: RecvView, f: Segment) {
    f.fin && !v.finReceived && f.End() < |v.delivered| && |v.delivered| == v.finOffset
  }

  /** The final-size test that an accepted frame has passed */
  predicate SizeAccepted(v: RecvView, f: Segment) {
    v.finReceived ==> if f.fin then f.End() == v.finOffset else f.End() <= v.finOffset
  }

  /** The event is due after a frame exactly if the frame is such a short FIN, or if the event was due before and the
      frame ends below the delivered part. */
  lemma FinOwedStep(v: RecvView, v': RecvView, f: Segment)
    requires v.Valid() && SizeAccepted(v, f) && Accepted(v, v', f.offset, f.fin, f.data)
    ensures FinOwed(v') <==> ShortFin(v, f) || (FinOwed(v) && f.End() < |v.delivered|)
    ensures FinOwed(v) ==> v'.delivered == v.delivered && (v'.finSignalled <==> f.End() == |v.delivered|)
  {
    hide At;
    if f.End() < |v.delivered| {
      DuplicateIgnored(v, v', f);
    } else if v.finReceived && |v.delivered| == v.finOffset {
      assert |v.delivered| <= |v'.delivered| <= v'.finOffset == v.finOffset;
    }
  }

  /** Frame `k` is a short FIN, and every later frame ends below what is delivered. */
  ghost predicate SilentSince(views: seq<RecvView>, frames: seq<Segment>, k: nat)
    requires |views| == |frames| + 1
  {
    k < |frames| && ShortFin(views[k], frames[k]) && forall j :: k < j < |frames| ==> frames[j].End() < |views[k].delivered|
  }

  /** Over every run the event is due at the end exactly if a short FIN was accepted, and each frame since then
      ended below what was delivered by then: the first other frame brings the event. */
  lemma {:induction false} FinOwedIff(views: seq<RecvView>, frames: seq<Segment>)
    requires Run(views, frames) && forall k :: 0 <= k < |frames| ==> SizeAccepted(views[k], frames[k])
    ensures FinOwed(views[|frames|]) <==> exists k: nat :: SilentSince(views, frames, k)
    ensures forall k: nat :: SilentSince(views, frames, k) ==> views[|frames|].delivered == views[k].delivered
  {
    hide FinOwed, ShortFin, Accepted, SilentSince;
    if frames == [] {
      StartOwesNothing();
    } else {
      var n := |frames| - 1;
      var views', frames' := views[..n + 1], frames[..n];
      assert forall k :: 0 <= k < n ==> frames'[k] == frames[k] && views'[k] == views[k];
      assert views'[|frames'|] == views[n];
      assert Run(views', frames');
      FinOwedIff(views', frames');
      AcceptedValid(views, frames, n);
      FinOwedStep(views[n], views[n + 1], frames[n]);
      forall k: nat
        ensures SilentSince(views, frames, k)
           <==> (k == n && ShortFin(views[n], frames[n]))
                || (k < n && SilentSince(views', frames', k) && frames[n].End() < |views[k].delivered|)
      {
        SilentOneMore(views, frames, n, k);
      }
      if FinOwed(views[n + 1]) && !ShortFin(views[n], frames[n]) {
        var k: nat :| SilentSince(views', frames', k);
        SilentInside(views', frames', k);
        assert SilentSince(views, frames, k);
      }
      ShortDelivers(views[n], views[n + 1], frames[n]);
    }
  }

  lemma SilentOneMore(views: seq<RecvView>, frames: seq<Segment>, n: nat, k: nat)
    requires |views| == |frames| + 1 && |frames| == n + 1
    ensures SilentSince(views, frames, k)
       <==> (k == n && ShortFin(views[n], frames[n]))
            || (k < n && SilentSince(views[..n + 1], frames[..n], k) && frames[n].End() < |views[k].delivered|)
  {
    hide ShortFin;
    assert forall j :: k < j < n ==> frames[..n][j] == frames[j];
    if k < n && SilentSince(views[..n + 1], frames[..n], k) && frames[n].End() < |views[k].delivered| {
      forall j | k < j < |frames|
        ensures frames[j].End() < |views[k].delivered|
      {
        assert j < n ==> frames[..n][j] == frames[j];
      }
    }
  }

  lemma SilentInside(views: seq<RecvView>, frames: seq<Segment>, k: nat)
    requires |views| == |frames| + 1 && SilentSince(views, frames, k)
    ensures k < |frames|
  {
  }

  lemma StartOwesNothing()
    ensures !FinOwed(START)
    ensures forall views, k: nat :: |views| == 1 ==> !SilentSince(views, [], k)
  {
  }

  lemma AcceptedValid(views: seq<RecvView>, frames: seq<Segment>, n: nat)
    requires Run(views, frames) && n <= |frames|
    ensures views[n].Valid()
  {
    assert n > 0 ==> Accepted(views[n - 1], views[n], frames[n - 1].offset, frames[n - 1].fin, frames[n - 1].data);
  }

  lemma ShortDelivers(v: RecvView, v': RecvView, f: Segment)
    requires v.Valid() && Accepted(v, v', f.offset, f.fin, f.data)
    ensures ShortFin(v, f) ==> v'.delivered == v.delivered
  {
    if ShortFin(v, f) {
      DuplicateIgnored(v, v', f);
    }
  }

  /** Such a run: two bytes, then a FIN after the first of them, which the receiver does not signal, then the two
      bytes again, which bring the event. */
  lemma ShortFinRun()
    ensures
      var frames := [Segment(0, 0, [1, 2], false), Segment(0, 0, [1], true), Segment(0, 0, [1, 2], false)];
      var v := RecvView([1, 2], [], 2, false, false);
      var views := [START, v, v.(finReceived := true), v.(finReceived := true, finSignalled := true)];
      && Run(views, frames)
      && (forall k :: 0 <= k < |frames| ==> SizeAccepted(views[k], frames[k]))
      && ShortFin(views[1], frames[1]) && FinOwed(views[2]) && !FinOwed(views[3])
  {
  }
}
