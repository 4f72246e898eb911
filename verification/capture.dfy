/**
 * Photo capture bookkeeping of the page script: the capture throttle, the
 * guards and append of a capture, and the PDF size estimate with the unit
 * it is shown in.
 */
module Capture {
  import opened Wrappers

  /** At most this many photos are kept. */
  const MaxPhotos: nat := 24

  /** Captures closer together than this many milliseconds are dropped. */
  const ThrottleMs: int := 500

  /** Fixed allowance added to the photo bytes for the rest of the PDF. */
  const PdfOverhead: int := 75 * 1024

  /** `state.canvasCaptureEnabled`: `null` before the probe, then its verdict. */
  datatype Capability = Unprobed | Enabled | Disabled

  /** One entry of `state.photosMeta`; `bytes` is absent when never recorded. */
  datatype PhotoMeta = PhotoMeta(w: int, h: int, bytes: Option<int>)

  /** The part of the page state that capture touches; times are whole milliseconds. */
  datatype AppState = AppState(
    photos: seq<string>,
    photosMeta: map<nat, PhotoMeta>,
    lastCaptureTs: int,
    canvasCapture: Capability)

  /** The state the page starts from. */
  const Initial: AppState := AppState([], map[], 0, Unprobed)

  /** The state capture maintains: at most 24 photos, each with its meta entry under its index. */
  ghost predicate Consistent(st: AppState) {
    && |st.photos| <= MaxPhotos
    && forall k: nat :: k in st.photosMeta <==> k < |st.photos|
  }

  // --------------------------------------------------------------- throttle

  /** What `throttleCapture` answers and the capture time stamp it leaves. */
  datatype ThrottleResult = ThrottleResult(throttled: bool, lastCaptureTs: int)

  /**
   * `throttleCapture` at time `now`: a capture less than 500 ms after the last
   * accepted one is refused and forgotten; otherwise it is accepted and stamped.
   */
  function Throttle(last: int, now: int): (r: ThrottleResult)
    ensures r.throttled <==> now < last + ThrottleMs
    ensures r.lastCaptureTs == (if r.throttled then last else now)
  {
    if now - last < ThrottleMs then ThrottleResult(true, last) else ThrottleResult(false, now)
  }

  /** The times among `times` that the throttle accepts, starting from stamp `last`. */
  function Accepted(last: int, times: seq<int>): seq<int>
    decreases |times|
  {
    if |times| == 0 then []
    else
      var t := Throttle(last, times[0]);
      if t.throttled then Accepted(last, times[1..])
      else [times[0]] + Accepted(times[0], times[1..])
  }

  /**
   * Whatever the click times, the accepted ones are at least 500 ms apart,
   * and the first is at least 500 ms after the starting stamp.
   */
  lemma {:induction false} AcceptedAreSpaced(last: int, times: seq<int>)
    ensures var a := Accepted(last, times);
      && (|a| > 0 ==> a[0] >= last + ThrottleMs)
      && forall i :: 0 < i < |a| ==> a[i] >= a[i - 1] + ThrottleMs
    decreases |times|
  {
    if |times| > 0 {
      if Throttle(last, times[0]).throttled {
        AcceptedAreSpaced(last, times[1..]);
      } else {
        AcceptedAreSpaced(times[0], times[1..]);
        var rest := Accepted(times[0], times[1..]);
        var a := [times[0]] + rest;
        forall i | 0 < i < |a| ensures a[i] >= a[i - 1] + ThrottleMs {
          if i > 1 {
            assert a[i] == rest[i - 1] && a[i - 1] == rest[i - 2];
          }
        }
      }
    }
  }

  // ---------------------------------------------------------------- capture

  /** The output of `downscaleToJpeg`: the encoded image, its size and byte estimate. */
  datatype Downscaled = Downscaled(dataUrl: string, w: int, h: int, bytes: int)

  /** How a press of the photo button ended. */
  datatype CaptureOutcome =
    | Blocked          // capture is not enabled
    | CapReached       // 24 photos already
    | Throttled        // within 500 ms of the last accepted capture
    | DecodeFailed     // the downscaling promise rejected
    | Started          // past the guards, waiting for the downscaled image
    | Captured(index: nat)

  datatype CaptureStep = CaptureStep(state: AppState, outcome: CaptureOutcome)

  /**
   * `capturePhotoFromCanvas` at time `now`; `shot` is what downscaling the
   * canvas snapshot produced, absent when the image failed to load.
   */
  function CapturePhoto(st: AppState, now: int, shot: Option<Downscaled>): (r: CaptureStep)
    // The three guards leave the state exactly as it was.
    ensures st.canvasCapture != Enabled ==> r == CaptureStep(st, Blocked)
    ensures st.canvasCapture == Enabled && |st.photos| >= MaxPhotos ==> r == CaptureStep(st, CapReached)
    ensures st.canvasCapture == Enabled && |st.photos| < MaxPhotos && now < st.lastCaptureTs + ThrottleMs ==>
      r == CaptureStep(st, Throttled)
    // Past the guards the capture is stamped, whether or not the image decodes.
    ensures st.canvasCapture == Enabled && |st.photos| < MaxPhotos && now >= st.lastCaptureTs + ThrottleMs ==>
      && r.state.lastCaptureTs == now
      && (if shot.Some? then r.outcome == Captured(|st.photos|) else r.outcome == DecodeFailed)
    ensures r.outcome == DecodeFailed || r.outcome.Captured? ==>
      r.state.lastCaptureTs == now && r.state.canvasCapture == st.canvasCapture
    ensures r.outcome == DecodeFailed ==> shot.None? && r.state.photos == st.photos && r.state.photosMeta == st.photosMeta
    // A capture appends one photo and files its meta under the old length.
    ensures r.outcome.Captured? ==>
      && shot.Some?
      && r.outcome.index == |st.photos|
      && r.state.photos == st.photos + [shot.value.dataUrl]
      && r.state.photosMeta == st.photosMeta[|st.photos| := PhotoMeta(shot.value.w, shot.value.h, Some(shot.value.bytes))]
  {
    if st.canvasCapture != Enabled then CaptureStep(st, Blocked)
    else if |st.photos| >= MaxPhotos then CaptureStep(st, CapReached)
    else
      var t := Throttle(st.lastCaptureTs, now);
      if t.throttled then CaptureStep(st, Throttled)
      else
        var stamped := st.(lastCaptureTs := t.lastCaptureTs);
        match shot
        case None => CaptureStep(stamped, DecodeFailed)
        case Some(d) =>
          var idx := |st.photos|;
          CaptureStep(
            stamped.(photos := st.photos + [d.dataUrl],
                     photosMeta := st.photosMeta[idx := PhotoMeta(d.w, d.h, Some(d.bytes))]),
            Captured(idx))
  }

  /**
   * Capture keeps the state consistent: never more than 24 photos, and the
   * meta entries exactly at the photo indices; a capture adds exactly one.
   */
  lemma CapturePreservesConsistency(st: AppState, now: int, shot: Option<Downscaled>)
    requires Consistent(st)
    ensures var r := CapturePhoto(st, now, shot);
      && Consistent(r.state)
      && |r.state.photos| == |st.photos| + (if r.outcome.Captured? then 1 else 0)
  {
  }

  lemma InitialIsConsistent()
    ensures Consistent(Initial)
  {
  }

  // ------------------------------------------------- overlapping captures

  /*
   * `capturePhotoFromCanvas` awaits the downscaling between its guards and
   * the append, so a second press can run its guards while the first is
   * still waiting. The handler is split at that await.
   */

  /** The guards and the throttle stamp, run when the button is pressed. */
  function BeginCapture(st: AppState, now: int): (r: CaptureStep)
    ensures r.outcome in {Blocked, CapReached, Throttled, Started}
    ensures r.outcome == Started <==>
      st.canvasCapture == Enabled && |st.photos| < MaxPhotos && now >= st.lastCaptureTs + ThrottleMs
    ensures r.outcome == Started ==> r.state == st.(lastCaptureTs := now)
    ensures r.outcome != Started ==> r.state == st
  {
    if st.canvasCapture != Enabled then CaptureStep(st, Blocked)
    else if |st.photos| >= MaxPhotos then CaptureStep(st, CapReached)
    else
      var t := Throttle(st.lastCaptureTs, now);
      if t.throttled then CaptureStep(st, Throttled)
      else CaptureStep(st.(lastCaptureTs := t.lastCaptureTs), Started)
  }

  /** The continuation after the await, as written: append at the current length, with no second cap check. */
  function FinishCapture(st: AppState, shot: Option<Downscaled>): (r: CaptureStep)
    ensures shot.None? ==> r == CaptureStep(st, DecodeFailed)
    ensures shot.Some? ==>
      && r.outcome == Captured(|st.photos|)
      && r.state == st.(photos := st.photos + [shot.value.dataUrl],
                        photosMeta := st.photosMeta[|st.photos| := PhotoMeta(shot.value.w, shot.value.h, Some(shot.value.bytes))])
  {
    match shot
    case None => CaptureStep(st, DecodeFailed)
    case Some(d) =>
      var idx := |st.photos|;
      CaptureStep(
        st.(photos := st.photos + [d.dataUrl],
            photosMeta := st.photosMeta[idx := PhotoMeta(d.w, d.h, Some(d.bytes))]),
        Captured(idx))
  }

  /** Without an overlapping press, the two halves are the whole handler. */
  lemma CaptureIsBeginThenFinish(st: AppState, now: int, shot: Option<Downscaled>)
    ensures var b := BeginCapture(st, now);
      CapturePhoto(st, now, shot) == if b.outcome == Started then FinishCapture(b.state, shot) else b
  {
  }

  /** A press of the photo button, or the completion of the oldest pending downscale. */
  datatype Event = Press(now: int) | ImageReady(shot: Option<Downscaled>)

  /**
   * Runs a series of events; `pending` counts presses still waiting for
   * their image. `capped` selects the corrected continuation.
   */
  function Run(st: AppState, pending: nat, events: seq<Event>, capped: bool): AppState
    decreases |events|
  {
    if |events| == 0 then st
    else match events[0]
      case Press(now) =>
        var b := BeginCapture(st, now);
        Run(b.state, if b.outcome == Started then pending + 1 else pending, events[1..], capped)
      case ImageReady(shot) =>
        if pending == 0 then Run(st, 0, events[1..], capped)
        else
          var f := if capped then FinishCaptureCapped(st, shot) else FinishCapture(st, shot);
          Run(f.state, pending - 1, events[1..], capped)
  }

  /**
   * As written, two presses 600 ms apart while the 24th photo's image is
   * still being downscaled both pass the cap check, and 25 photos are kept.
   */
  lemma OverlappingCapturesExceedCap(st: AppState, d: Downscaled)
    requires |st.photos| == MaxPhotos - 1 && st.canvasCapture == Enabled && st.lastCaptureTs == 0
    ensures |Run(st, 0, [Press(1000), Press(1600), ImageReady(Some(d)), ImageReady(Some(d))], false).photos|
      == MaxPhotos + 1
  {
    var events := [Press(1000), Press(1600), ImageReady(Some(d)), ImageReady(Some(d))];
    var s1 := st.(lastCaptureTs := 1000);
    assert BeginCapture(st, 1000) == CaptureStep(s1, Started);
    var s2 := s1.(lastCaptureTs := 1600);
    assert BeginCapture(s1, 1600) == CaptureStep(s2, Started);
    var s3 := FinishCapture(s2, Some(d)).state;
    var s4 := FinishCapture(s3, Some(d)).state;
    assert events[1..] == [Press(1600), ImageReady(Some(d)), ImageReady(Some(d))];
    assert events[2..] == [ImageReady(Some(d)), ImageReady(Some(d))];
    assert events[3..] == [ImageReady(Some(d))];
    assert Run(st, 0, events, false) == Run(s1, 1, events[1..], false);
    assert Run(s1, 1, events[1..], false) == Run(s2, 2, events[2..], false);
    assert Run(s2, 2, events[2..], false) == Run(s3, 1, events[3..], false);
    assert Run(s3, 1, events[3..], false) == s4;
  }

  /** The corrected continuation: the cap is checked again when the image arrives. */
  function FinishCaptureCapped(st: AppState, shot: Option<Downscaled>): (r: CaptureStep)
    ensures |st.photos| >= MaxPhotos ==> r == CaptureStep(st, CapReached)
    ensures |st.photos| < MaxPhotos ==> r == FinishCapture(st, shot)
  {
    if |st.photos| >= MaxPhotos then CaptureStep(st, CapReached) else FinishCapture(st, shot)
  }

  /**
   * With the corrected continuation the state stays consistent, so never
   * more than 24 photos are kept, however presses and completions interleave.
   */
  lemma {:induction false} CappedRunKeepsConsistency(st: AppState, pending: nat, events: seq<Event>)
    requires Consistent(st)
    ensures Consistent(Run(st, pending, events, true))
    decreases |events|
  {
    if |events| > 0 {
      match events[0]
      case Press(now) =>
        var b := BeginCapture(st, now);
        CappedRunKeepsConsistency(b.state, if b.outcome == Started then pending + 1 else pending, events[1..]);
      case ImageReady(shot) =>
        if pending == 0 {
          CappedRunKeepsConsistency(st, 0, events[1..]);
        } else {
          var f := FinishCaptureCapped(st, shot);
          assert Consistent(f.state);
          CappedRunKeepsConsistency(f.state, pending - 1, events[1..]);
        }
    }
  }

  // ---------------------------------------------------------- size estimate

  /** `m?.bytes || 0`. */
  function BytesOr0(m: PhotoMeta): int {
    m.bytes.GetOr(0)
  }

  /** The sum of the recorded bytes of the entries under `keys`, in any order. */
  ghost function SumBytes(meta: map<nat, PhotoMeta>, keys: set<nat>): int
    requires keys <= meta.Keys
    decreases keys
  {
    if keys == {} then 0
    else
      var k :| k in keys;
      BytesOr0(meta[k]) + SumBytes(meta, keys - {k})
  }

  /** The sum does not depend on which entry is taken first. */
  lemma {:induction false} SumBytesRemove(meta: map<nat, PhotoMeta>, keys: set<nat>, k: nat)
    requires keys <= meta.Keys && k in keys
    ensures SumBytes(meta, keys) == BytesOr0(meta[k]) + SumBytes(meta, keys - {k})
    decreases keys
  {
    var j :| j in keys && SumBytes(meta, keys) == BytesOr0(meta[j]) + SumBytes(meta, keys - {j});
    if j != k {
      SumBytesRemove(meta, keys - {j}, k);
      SumBytesRemove(meta, keys - {k}, j);
      assert keys - {j} - {k} == keys - {k} - {j};
    }
  }

  /** The sum only reads the entries under `keys`. */
  lemma {:induction false} SumBytesFrame(m1: map<nat, PhotoMeta>, m2: map<nat, PhotoMeta>, keys: set<nat>)
    requires keys <= m1.Keys && keys <= m2.Keys
    requires forall k :: k in keys ==> m1[k] == m2[k]
    ensures SumBytes(m1, keys) == SumBytes(m2, keys)
    decreases keys
  {
    if keys != {} {
      var k :| k in keys;
      SumBytesRemove(m1, keys, k);
      SumBytesRemove(m2, keys, k);
      SumBytesFrame(m1, m2, keys - {k});
    }
  }

  /** The unit `bytesHuman` renders a size in. */
  datatype Unit = B | KB | MB

  /** `bytesHuman`'s choice of unit. */
  function BytesHuman(n: int): (u: Unit)
    ensures u == B <==> n < 1024
    ensures u == KB <==> 1024 <= n < 1024 * 1024
    ensures u == MB <==> n >= 1024 * 1024
  {
    if n < 1024 then B
    else if n < 1024 * 1024 then KB
    else MB
  }

  function UnitRank(u: Unit): nat {
    match u
    case B => 0
    case KB => 1
    case MB => 2
  }

  /** A larger size is never shown in a smaller unit. */
  lemma BytesHumanMonotonic(n: int, m: int)
    requires n <= m
    ensures UnitRank(BytesHuman(n)) <= UnitRank(BytesHuman(m))
  {
  }

  /** What `estimatePdfSize` shows: the no-photos text, or a size and its unit. */
  datatype Estimate = NoPhotos | Approx(bytes: int, unit: Unit)

  /**
   * `estimatePdfSize`: with at least one photo, the recorded bytes of every
   * meta entry (0 where missing) plus 75 KiB, in the unit `bytesHuman` picks.
   */
  method EstimatePdfSize(st: AppState) returns (e: Estimate)
    ensures e == NoPhotos <==> |st.photos| == 0
    ensures e.Approx? ==> e.bytes == SumBytes(st.photosMeta, st.photosMeta.Keys) + PdfOverhead
    ensures e.Approx? ==> e.unit == BytesHuman(e.bytes)
  {
    var sum := 0;
    var left := st.photosMeta.Keys;
    while left != {}
      invariant left <= st.photosMeta.Keys
      invariant sum + SumBytes(st.photosMeta, left) == SumBytes(st.photosMeta, st.photosMeta.Keys)
      decreases left
    {
      var k :| k in left;
      SumBytesRemove(st.photosMeta, left, k);
      sum := sum + BytesOr0(st.photosMeta[k]);
      left := left - {k};
    }
    if |st.photos| == 0 {
      e := NoPhotos;
    } else {
      e := Approx(sum + PdfOverhead, BytesHuman(sum + PdfOverhead));
    }
  }

  /** A capture from a consistent state raises the estimated photo bytes by exactly the new photo's bytes. */
  lemma CaptureAddsItsBytes(st: AppState, now: int, d: Downscaled)
    requires Consistent(st)
    requires CapturePhoto(st, now, Some(d)).outcome.Captured?
    ensures var after := CapturePhoto(st, now, Some(d)).state.photosMeta;
      SumBytes(after, after.Keys) == SumBytes(st.photosMeta, st.photosMeta.Keys) + d.bytes
  {
    var after := CapturePhoto(st, now, Some(d)).state.photosMeta;
    var idx := |st.photos|;
    assert idx !in st.photosMeta;
    SumBytesRemove(after, after.Keys, idx);
    assert after.Keys - {idx} == st.photosMeta.Keys;
    SumBytesFrame(after, st.photosMeta, st.photosMeta.Keys);
  }
}
