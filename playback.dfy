/** The frame-sequence playback engine of the hero section.

    A scroll position chooses a frame index; the player draws that frame's
    image on the canvas one display refresh later and keeps a snapshot of
    the last drawn frame for recovery. A non-forced request is refused while
    the in-flight flag `isRendering` is set; the flag is not a count of the
    scheduled draws, since a resize or a finished draw can clear it while
    another draw is still scheduled (`ResizeWhileInFlight`).

    The part of the controller state that drawing touches is the value
    `PlayState`; each operation on it is a function here (`RenderRequest`,
    `DrawStep`, `SafeRender`, `Resize`, `UpdateHook`) whose contract states
    what the operation means. The class `FramePlayer` holds the same state
    as mutable fields, updated in place as the page does, and each of its
    methods is proved to perform the corresponding step. */
module Playback {
  import opened FrameNaming

  /** The configured instance: frames `frame_0001.jpg` … `frame_0251.jpg`. */
  const ConfiguredFrameCount: nat := 251

  datatype Option<T> = None | Some(value: T)

  /** What the browser reports of one image: `complete` is false while it is
      Pending and true once it Loaded or Failed; `naturalWidth` is positive
      only when it Loaded (decoded). */
  datatype ImageStatus = Pending | Loaded | Failed

  datatype FrameImage = FrameImage(src: string, status: ImageStatus)

  /** `images[k]` is an image object (the slot has been filled). */
  predicate HasImage(images: seq<FrameImage>, k: int) {
    0 <= k < |images|
  }

  /** `images[k] && images[k].complete`. */
  predicate IsComplete(images: seq<FrameImage>, k: int) {
    HasImage(images, k) && images[k].status != Pending
  }

  /** `images[k]` exists, is complete and has a positive natural width. */
  predicate IsDecoded(images: seq<FrameImage>, k: int) {
    HasImage(images, k) && images[k].status == Loaded
  }

  /** `Math.max(0, Math.min(frameCount - 1, frameIndex))`. */
  function Clamp(frameIndex: int, frameCount: int): (k: nat)
    requires frameCount >= 1
    ensures k < frameCount
    ensures 0 <= frameIndex < frameCount ==> k == frameIndex
    ensures frameIndex < 0 ==> k == 0
    ensures frameIndex >= frameCount ==> k == frameCount - 1
  {
    var upper := if frameCount - 1 < frameIndex then frameCount - 1 else frameIndex;
    if upper < 0 then 0 else upper
  }

  /** `Math.round` on an exact real: the nearest integer, halves upwards. */
  function RoundHalfUp(x: real): (r: int)
    ensures x - 0.5 < r as real <= x + 0.5
  {
    (x + 0.5).Floor
  }

  /** The frame a scroll progress maps to: `Math.round(progress * (frameCount - 1))`. */
  function ProgressTarget(progress: real, frameCount: int): (k: int)
    requires frameCount >= 1
    ensures 0.0 <= progress <= 1.0 ==> 0 <= k < frameCount
    ensures progress == 0.0 ==> k == 0
    ensures progress == 1.0 ==> k == frameCount - 1
  {
    var x := progress * (frameCount - 1) as real;
    FractionOf(progress, (frameCount - 1) as real);
    RoundHalfUp(x)
  }

  lemma FractionOf(p: real, m: real)
    ensures 0.0 <= p <= 1.0 && m >= 0.0 ==> 0.0 <= p * m <= m
  {
    assert m - p * m == (1.0 - p) * m;
  }

  lemma ProgressMidpoint()
    ensures ProgressTarget(0.5, ConfiguredFrameCount) == 125
  {
    assert 0.5 * 250.0 == 125.0;
  }

  /** Where the cover fit draws an image: top-left corner and scaled size. */
  datatype Placement = Placement(x: real, y: real, w: real, h: real)

  /** The "cover" fit of an image on a canvas, in exact arithmetic: scale by
      the larger of the two ratios and centre on both axes. */
  function CoverFit(canvasW: real, canvasH: real, imageW: real, imageH: real): (p: Placement)
    requires canvasW >= 0.0 && canvasH >= 0.0 && imageW > 0.0 && imageH > 0.0
    ensures p.w >= canvasW && p.h >= canvasH
    ensures p.w == canvasW || p.h == canvasH
    ensures p.w * imageH == p.h * imageW
    ensures p.x + p.w / 2.0 == canvasW / 2.0 && p.y + p.h / 2.0 == canvasH / 2.0
  {
    var sx := canvasW / imageW;
    var sy := canvasH / imageH;
    var scale := if sx >= sy then sx else sy;
    ScaleCovers(imageW, sx, scale);
    ScaleCovers(imageH, sy, scale);
    Placement(canvasW / 2.0 - (imageW / 2.0) * scale, canvasH / 2.0 - (imageH / 2.0) * scale,
              imageW * scale, imageH * scale)
  }

  lemma ScaleCovers(side: real, ratio: real, scale: real)
    requires side > 0.0 && scale >= ratio
    ensures side * scale >= side * ratio
  {
  }

  /** An offscreen copy of the canvas after frame `frame` was drawn on a
      `width` by `height` canvas. */
  datatype Snapshot = Snapshot(frame: nat, width: nat, height: nat)

  /** What the canvas shows: nothing, a frame drawn with the cover fit at the
      current canvas size, or a snapshot copied at the origin. */
  datatype Display = Blank | Shows(frame: nat) | ShowsSnapshot(snap: Snapshot)

  /** How the try block of the draw callback ends: normally, by an exception
      after the canvas was cleared, or by an exception after the image was
      drawn (while the snapshot was being taken). */
  datatype DrawFault = NoFault | ClearedThenFailed | DrawnThenFailed

  /** The controller state drawing works on: `currentFrameIndex`,
      `isRendering`, `lastRenderedFrame`, the canvas contents, the draw
      callbacks scheduled and not yet run (oldest first), and the canvas size. */
  datatype PlayState = PlayState(
    current: nat,
    rendering: bool,
    cache: Option<Snapshot>,
    display: Display,
    pending: seq<nat>,
    width: nat,
    height: nat)

  predicate SizedToCanvas(snap: Snapshot, s: PlayState) {
    snap.width == s.width && snap.height == s.height
  }

  /** The invariant every step keeps: the index is in range, a render in
      flight has a draw scheduled, only decoded frames are scheduled or shown,
      and a snapshot, cached or shown, has the current canvas size. */
  predicate Coherent(s: PlayState, images: seq<FrameImage>, frameCount: nat) {
    && s.current < frameCount
    && (s.rendering ==> s.pending != [])
    && (forall k :: k in s.pending ==> IsDecoded(images, k))
    && (s.cache.Some? ==> SizedToCanvas(s.cache.value, s) && IsDecoded(images, s.cache.value.frame))
    && (s.display.Shows? ==> IsDecoded(images, s.display.frame))
    && (s.display.ShowsSnapshot? ==>
          SizedToCanvas(s.display.snap, s) && IsDecoded(images, s.display.snap.frame))
  }

  /** `createFrameCache(k)`: a snapshot of frame `k` at the canvas size, or
      null when the image is missing or not decoded. */
  function CreateFrameCache(images: seq<FrameImage>, k: int, width: nat, height: nat): (r: Option<Snapshot>)
    ensures r.Some? <==> IsDecoded(images, k)
    ensures r.Some? ==> r.value.frame == k && r.value.width == width && r.value.height == height
  {
    if !HasImage(images, k) then None
    else if images[k].status != Loaded then None
    else Some(Snapshot(k, width, height))
  }

  /** A request is accepted when it is forced or nothing is in flight, and
      the frame's image is decoded. */
  predicate Accepts(s: PlayState, images: seq<FrameImage>, k: int, force: bool) {
    (force || !s.rendering) && IsDecoded(images, k)
  }

  /** `renderFrame(frameIndex, force)`: clamp the index and skip the request
      when it repeats the frame in flight, when the image is missing or not
      decoded, or when a render is in flight and it is not forced; otherwise
      mark a render in flight, move to the frame and schedule one draw. */
  function RenderRequest(s: PlayState, images: seq<FrameImage>, frameCount: nat, frameIndex: int, force: bool): (r: PlayState)
    requires frameCount >= 1
    ensures var k := Clamp(frameIndex, frameCount);
            Accepts(s, images, k, force) ==>
              r == s.(current := k, rendering := true, pending := s.pending + [k])
    ensures !Accepts(s, images, Clamp(frameIndex, frameCount), force) ==> r == s
    ensures Coherent(s, images, frameCount) ==> Coherent(r, images, frameCount)
  {
    var k := Clamp(frameIndex, frameCount);
    if k == s.current && s.rendering && !force then s
    else if !HasImage(images, k) then s
    else if images[k].status != Loaded then s
    else if s.rendering && !force then s
    else s.(current := k, rendering := true, pending := s.pending + [k])
  }

  /** The draw callback scheduled by the oldest accepted request: draw that
      frame at the current canvas size, replace the cached snapshot with one
      of it, and release the in-flight flag whatever happened. */
  function DrawStep(s: PlayState, images: seq<FrameImage>, frameCount: nat, fault: DrawFault): (r: PlayState)
    ensures s.pending == [] ==> r == s
    ensures s.pending != [] ==>
              && !r.rendering
              && r.pending == s.pending[1..]
              && r.current == s.current && r.width == s.width && r.height == s.height
    ensures s.pending != [] && fault == NoFault && IsDecoded(images, s.pending[0]) ==>
              && r.display == Shows(s.pending[0])
              && r.cache == Some(Snapshot(s.pending[0], s.width, s.height))
    ensures s.pending != [] && fault == ClearedThenFailed ==> r.display == Blank && r.cache == s.cache
    ensures s.pending != [] && fault == DrawnThenFailed ==>
              r.display == Shows(s.pending[0]) && r.cache == s.cache
    ensures Coherent(s, images, frameCount) ==> Coherent(r, images, frameCount)
  {
    if s.pending == [] then s
    else
      var k := s.pending[0];
      var next := s.(pending := s.pending[1..], rendering := false);
      match fault
      case NoFault => next.(display := Shows(k), cache := CreateFrameCache(images, k, s.width, s.height))
      case ClearedThenFailed => next.(display := Blank)
      case DrawnThenFailed => next.(display := Shows(k))
  }

  /** `safeRenderFrame(frameIndex)`: force the frame when its image is
      complete; otherwise copy the cached snapshot to the canvas; without a
      snapshot, force frame 0. Completeness alone picks the first tier, so a
      failed image is forced, and the forced request then does nothing. */
  function SafeRender(s: PlayState, images: seq<FrameImage>, frameCount: nat, frameIndex: int): (r: PlayState)
    requires frameCount >= 1
    ensures var k := Clamp(frameIndex, frameCount);
            IsDecoded(images, k) ==> r == s.(current := k, rendering := true, pending := s.pending + [k])
    ensures var k := Clamp(frameIndex, frameCount);
            IsComplete(images, k) && !IsDecoded(images, k) ==> r == s
    ensures var k := Clamp(frameIndex, frameCount);
            !IsComplete(images, k) && s.cache.Some? ==> r == s.(display := ShowsSnapshot(s.cache.value))
    ensures var k := Clamp(frameIndex, frameCount);
            !IsComplete(images, k) && s.cache.None? ==>
              r == if IsDecoded(images, 0) then s.(current := 0, rendering := true, pending := s.pending + [0])
                   else s
    ensures Coherent(s, images, frameCount) ==> Coherent(r, images, frameCount)
  {
    var k := Clamp(frameIndex, frameCount);
    if HasImage(images, k) && images[k].status != Pending then RenderRequest(s, images, frameCount, k, true)
    else if s.cache.Some? then s.(display := ShowsSnapshot(s.cache.value))
    else RenderRequest(s, images, frameCount, 0, true)
  }

  /** `setCanvasSize()` on a viewport of `w` by `h`: resize the canvas (which
      clears it), drop the cached snapshot and, when the current frame's slot
      is filled, release the in-flight flag and re-request that frame. */
  function Resize(s: PlayState, images: seq<FrameImage>, frameCount: nat, w: nat, h: nat): (r: PlayState)
    requires frameCount >= 1
    requires s.current < frameCount
    ensures r.width == w && r.height == h
    ensures r.cache == None && r.display == Blank && r.current == s.current
    ensures HasImage(images, s.current) ==>
              && r.rendering == IsDecoded(images, s.current)
              && r.pending == if IsDecoded(images, s.current) then s.pending + [s.current] else s.pending
    ensures !HasImage(images, s.current) ==> r.rendering == s.rendering && r.pending == s.pending
    ensures Coherent(s, images, frameCount) ==> Coherent(r, images, frameCount)
  {
    var cleared := s.(width := w, height := h, display := Blank, cache := None);
    if HasImage(images, s.current) then
      RenderRequest(cleared.(rendering := false), images, frameCount, s.current, false)
    else cleared
  }

  /** The scroll trigger's `onUpdate` hook with its rounded target: clamp,
      and issue a non-forced request when the image is complete. */
  function UpdateHook(s: PlayState, images: seq<FrameImage>, frameCount: nat, target: int): (r: PlayState)
    requires frameCount >= 1
    ensures var k := Clamp(target, frameCount);
            r != s <==> !s.rendering && IsDecoded(images, k)
    ensures var k := Clamp(target, frameCount);
            r != s ==> r == s.(current := k, rendering := true, pending := s.pending + [k])
    ensures Coherent(s, images, frameCount) ==> Coherent(r, images, frameCount)
  {
    var k := Clamp(target, frameCount);
    if IsComplete(images, k) then RenderRequest(s, images, frameCount, k, false) else s
  }

  /** While a non-forced request is in flight, further non-forced requests,
      for the same frame or any other, are absorbed. */
  lemma NonForcedCoalescing(s: PlayState, images: seq<FrameImage>, frameCount: nat, i: int, j: int)
    requires frameCount >= 1
    requires RenderRequest(s, images, frameCount, i, false).rendering
    ensures var s1 := RenderRequest(s, images, frameCount, i, false);
            RenderRequest(s1, images, frameCount, j, false) == s1
  {
  }

  /** An accepted request followed by its draw leaves the frame on the canvas,
      a snapshot of it at the canvas size in the cache, and nothing in flight. */
  lemma RequestThenDraw(s: PlayState, images: seq<FrameImage>, frameCount: nat, i: int, force: bool)
    requires frameCount >= 1
    requires s.pending == [] && Accepts(s, images, Clamp(i, frameCount), force)
    ensures var k := Clamp(i, frameCount);
            DrawStep(RenderRequest(s, images, frameCount, i, force), images, frameCount, NoFault)
              == s.(current := k, rendering := false, display := Shows(k),
                    cache := Some(Snapshot(k, s.width, s.height)))
  {
  }

  /** After a resize and the draw it schedules, the canvas shows the same
      frame at the new size and the cache holds a snapshot of that size. */
  lemma ResizeThenDraw(s: PlayState, images: seq<FrameImage>, frameCount: nat, w: nat, h: nat)
    requires frameCount >= 1 && s.current < frameCount
    requires s.pending == [] && IsDecoded(images, s.current)
    ensures DrawStep(Resize(s, images, frameCount, w, h), images, frameCount, NoFault)
              == s.(width := w, height := h, rendering := false, display := Shows(s.current),
                    cache := Some(Snapshot(s.current, w, h)))
  {
  }

  /** A resize while a draw is scheduled clears the in-flight flag and
      schedules a second draw of the same frame: two draws from non-forced
      requests are then pending at once. */
  lemma ResizeWhileInFlight(s: PlayState, images: seq<FrameImage>, frameCount: nat, w: nat, h: nat)
    requires frameCount >= 1 && s.current < frameCount && IsDecoded(images, s.current)
    requires s.rendering && s.pending == [s.current]
    ensures var r := Resize(s, images, frameCount, w, h);
            r.rendering && r.pending == [s.current, s.current]
  {
    assert [s.current] + [s.current] == [s.current, s.current];
  }

  /** Four frames, all decoded: a request for 10 paints frame 3 and a request
      for -2 paints frame 0. */
  lemma ScenarioClampedRequests(s: PlayState, images: seq<FrameImage>)
    requires |images| == 4 && forall k :: 0 <= k < 4 ==> images[k].status == Loaded
    requires s.pending == [] && !s.rendering
    ensures var s1 := DrawStep(RenderRequest(s, images, 4, 10, false), images, 4, NoFault);
            var s2 := DrawStep(RenderRequest(s1, images, 4, -2, false), images, 4, NoFault);
            s1.display == Shows(3) && s2.display == Shows(0) && s2.current == 0
  {
    assert IsDecoded(images, 3) && IsDecoded(images, 0);
  }

  /** Four frames, frame 2 failed, frame 1 on the canvas and cached: neither a
      request nor a safe render of frame 2 changes anything, because the safe
      render takes its first tier for the complete (failed) image. */
  lemma ScenarioFailedFrame(s: PlayState, images: seq<FrameImage>)
    requires |images| == 4 && images[2].status == Failed
    requires s.display == Shows(1) && s.cache == Some(Snapshot(1, s.width, s.height))
    ensures RenderRequest(s, images, 4, 2, false) == s
    ensures RenderRequest(s, images, 4, 2, true) == s
    ensures SafeRender(s, images, 4, 2) == s
  {
  }

  /** The number of images that have reported load or error. */
  function CountReported(images: seq<FrameImage>): (c: nat)
    ensures c <= |images|
  {
    if images == [] then 0
    else CountReported(images[..|images| - 1]) + (if images[|images| - 1].status != Pending then 1 else 0)
  }

  /** The number of images that loaded. */
  function CountDecoded(images: seq<FrameImage>): (c: nat)
    ensures c <= CountReported(images)
  {
    if images == [] then 0
    else CountDecoded(images[..|images| - 1]) + (if images[|images| - 1].status == Loaded then 1 else 0)
  }

  /** One image's load or error event raises the reported count by exactly
      one, and the loaded count by one exactly when it loaded. */
  lemma {:induction false} ReportUpdate(images: seq<FrameImage>, i: nat, st: ImageStatus)
    requires i < |images| && images[i].status == Pending && st != Pending
    ensures CountReported(images[i := images[i].(status := st)]) == CountReported(images) + 1
    ensures CountDecoded(images[i := images[i].(status := st)]) ==
              CountDecoded(images) + (if st == Loaded then 1 else 0)
    decreases |images|
  {
    var n := |images|;
    var updated := images[i := images[i].(status := st)];
    if i == n - 1 {
      assert updated[..n - 1] == images[..n - 1];
    } else {
      assert updated[..n - 1] == images[..n - 1][i := images[i].(status := st)];
      ReportUpdate(images[..n - 1], i, st);
    }
  }

  /** The count reaches the number of images only when every image reported. */
  lemma {:induction false} AllReported(images: seq<FrameImage>)
    ensures CountReported(images) == |images| <==> forall k :: 0 <= k < |images| ==> images[k].status != Pending
  {
    if images != [] {
      var n := |images|;
      AllReported(images[..n - 1]);
      assert forall k :: 0 <= k < n - 1 ==> images[..n - 1][k] == images[k];
    }
  }

  /** `frameCount` images, each with its source and nothing reported. */
  function PendingFrames(n: nat): (r: seq<FrameImage>)
    ensures |r| == n
    ensures forall i :: 0 <= i < n ==> r[i] == FrameImage(FrameSource(i), Pending)
    ensures CountReported(r) == 0 && CountDecoded(r) == 0
  {
    if n == 0 then []
    else
      var r := PendingFrames(n - 1) + [FrameImage(FrameSource(n - 1), Pending)];
      assert r[..n - 1] == PendingFrames(n - 1);
      r
  }

  /** `PendingFrames` is the only list of that shape. */
  lemma PendingFramesUnique(images: seq<FrameImage>)
    requires forall j :: 0 <= j < |images| ==> images[j] == FrameImage(FrameSource(j), Pending)
    ensures images == PendingFrames(|images|)
  {
  }

  /** The loading counters agree with the images: `loaded` images reported,
      `decoded` of them loaded, and the frame animation initialised once
      exactly when all `frameCount` reported. */
  predicate Tracked(images: seq<FrameImage>, frameCount: nat, loaded: nat, decoded: nat, initCalls: nat) {
    && |images| <= frameCount
    && loaded == CountReported(images)
    && decoded == CountDecoded(images)
    && initCalls == (if loaded == frameCount then 1 else 0)
  }

  /** Fresh images agree with zero counters. */
  lemma TrackedInitially(n: nat)
    requires n >= 1
    ensures Tracked(PendingFrames(n), n, 0, 0, 0)
  {
  }

  /** The load or error event of a pending image keeps the counters in step:
      one more report, one more decoded image when it loaded, and the
      initialisation when it was the last image to report. */
  lemma TrackedAfterEvent(images: seq<FrameImage>, frameCount: nat, loaded: nat, decoded: nat, initCalls: nat,
                          i: nat, st: ImageStatus)
    requires Tracked(images, frameCount, loaded, decoded, initCalls)
    requires i < |images| && images[i].status == Pending && st != Pending
    ensures initCalls == 0
    ensures Tracked(images[i := images[i].(status := st)], frameCount, loaded + 1,
                    decoded + (if st == Loaded then 1 else 0),
                    if loaded + 1 == frameCount then 1 else 0)
  {
    ReportUpdate(images, i, st);
    PendingNotReported(images, i);
  }

  /** A pending image keeps the reported count below the number of images. */
  lemma {:induction false} PendingNotReported(images: seq<FrameImage>, i: nat)
    requires i < |images| && images[i].status == Pending
    ensures CountReported(images) < |images|
    decreases |images|
  {
    var n := |images|;
    if i < n - 1 {
      PendingNotReported(images[..n - 1], i);
    }
  }

  /** Images only move forward (Pending to Loaded or Failed), so whatever was
      decoded stays decoded and a coherent state stays coherent. */
  lemma CoherentUnderLoad(s: PlayState, images: seq<FrameImage>, frameCount: nat, i: nat, st: ImageStatus)
    requires i < |images| && images[i].status == Pending
    requires Coherent(s, images, frameCount)
    ensures Coherent(s, images[i := images[i].(status := st)], frameCount)
  {
    var updated := images[i := images[i].(status := st)];
    forall k | IsDecoded(images, k) ensures IsDecoded(updated, k) {
      assert k != i;
    }
  }

  /** Before any image exists nothing can be scheduled, cached or shown. */
  lemma NothingToDraw(s: PlayState, frameCount: nat)
    requires Coherent(s, [], frameCount)
    ensures !s.rendering && s.pending == [] && s.cache == None && s.display == Blank
  {
    if s.pending != [] {
      FirstIsMember(s.pending);
      assert false;
    }
  }

  /** A state with nothing scheduled, cached or shown is coherent with any images. */
  lemma IdleCoherent(s: PlayState, images: seq<FrameImage>, frameCount: nat)
    requires s.current < frameCount && !s.rendering && s.pending == []
    requires s.cache == None && s.display == Blank
    ensures Coherent(s, images, frameCount)
  {
  }

  lemma FirstIsMember(p: seq<nat>)
    requires p != []
    ensures p[0] in p
  {
  }

  /** Resizing clears the canvas and drops the snapshot; what is left stays
      coherent, with or without the in-flight flag. */
  lemma ClearedCoherent(s: PlayState, images: seq<FrameImage>, frameCount: nat, w: nat, h: nat)
    requires Coherent(s, images, frameCount)
    ensures var cleared := s.(width := w, height := h, display := Blank, cache := None);
            Coherent(cleared, images, frameCount) && Coherent(cleared.(rendering := false), images, frameCount)
  {
  }

  /** The canvas size set before any image exists: the size changes and
      nothing else, since there is no snapshot and no frame slot to redraw. */
  lemma StartUpResize(frameCount: nat, w: nat, h: nat)
    requires frameCount >= 1
    ensures Resize(PlayState(0, false, None, Blank, [], 300, 150), [], frameCount, w, h)
              == PlayState(0, false, None, Blank, [], w, h)
  {
  }

  /** The loop of `preloadImages()`: create image `i - 1` with its frame
      source for `i` from 1 to `frameCount`. */
  method PreloadImages(frameCount: nat) returns (images: seq<FrameImage>)
    ensures images == PendingFrames(frameCount)
  {
    images := [];
    var i := 1;
    while i <= frameCount
      invariant 1 <= i <= frameCount + 1
      invariant |images| == i - 1
      invariant forall j :: 0 <= j < |images| ==> images[j] == FrameImage(FrameSource(j), Pending)
    {
      images := images + [FrameImage(FrameSource(i - 1), Pending)];
      i := i + 1;
    }
    PendingFramesUnique(images);
  }

  /** The player of one canvas. Fields mirror the page's module-level state;
      `pendingDraws` stands for the animation-frame callbacks scheduled and
      not yet run, `delayedRenders` for the delayed safe renders of the
      re-entry hook, `display` for what the canvas shows. */
  class FramePlayer {
    const frameCount: nat
    var images: seq<FrameImage>
    var imagesLoaded: nat
    var currentFrameIndex: nat
    var isRendering: bool
    var lastRenderedFrame: Option<Snapshot>
    var canvasWidth: nat
    var canvasHeight: nat
    var display: Display
    var pendingDraws: seq<nat>
    var delayedRenders: seq<nat>
    /** The `imagesLoaded` value passed to each progress update. */
    var progressReports: seq<nat>
    /** How many times the frame animation was initialised. */
    var initCalls: nat

    function State(): PlayState
      reads this`currentFrameIndex, this`isRendering, this`lastRenderedFrame, this`display,
            this`pendingDraws, this`canvasWidth, this`canvasHeight
    {
      PlayState(currentFrameIndex, isRendering, lastRenderedFrame, display, pendingDraws,
                canvasWidth, canvasHeight)
    }

    ghost predicate Valid()
      reads this
    {
      frameCount >= 1 && Loading() && Scheduled() && Coherent(State(), images, frameCount)
    }

    /** The image slots carry their frame sources and the counters agree
        with what the images reported. */
    ghost predicate Loading()
      reads this`images, this`imagesLoaded, this`progressReports, this`initCalls
    {
      Tracked(images, frameCount, imagesLoaded, |progressReports|, initCalls)
    }

    /** Every delayed safe render targets a frame in range. */
    ghost predicate Scheduled()
      reads this`delayedRenders
    {
      forall k :: k in delayedRenders ==> k < frameCount
    }

    /** The page's initial state with `frameCount` images of which none has
        reported yet, as `preloadImages()` creates them (see `StartPage`). The first `setCanvasSize()` runs before any image
        exists, so it only sets the size (`StartUpResize`). */
    constructor (frameCount: nat, viewportWidth: nat, viewportHeight: nat, preloaded: seq<FrameImage>)
      requires frameCount >= 1 && |preloaded| == frameCount && CountReported(preloaded) == 0
      ensures Valid()
      ensures this.frameCount == frameCount
      ensures images == preloaded
      ensures imagesLoaded == 0 && progressReports == [] && initCalls == 0
      ensures State() == PlayState(0, false, None, Blank, [], viewportWidth, viewportHeight)
      ensures delayedRenders == []
    {
      this.frameCount := frameCount;
      images := preloaded;
      imagesLoaded := 0;
      currentFrameIndex := 0;
      isRendering := false;
      lastRenderedFrame := None;
      canvasWidth, canvasHeight := viewportWidth, viewportHeight;
      display := Blank;
      pendingDraws := [];
      delayedRenders := [];
      progressReports := [];
      initCalls := 0;
      new;
      IdleCoherent(State(), images, frameCount);
    }

    method RenderFrame(frameIndex: int, forceRender: bool)
      requires Valid()
      modifies this`currentFrameIndex, this`isRendering, this`pendingDraws
      ensures Valid()
      ensures State() == RenderRequest(old(State()), images, frameCount, frameIndex, forceRender)
    {
      var k := Clamp(frameIndex, frameCount);
      if k == currentFrameIndex && isRendering && !forceRender {
        return;
      }
      if k >= |images| {
        return;
      }
      var img := images[k];
      if img.status != Loaded {
        return;
      }
      if isRendering && !forceRender {
        return;
      }
      isRendering := true;
      currentFrameIndex := k;
      pendingDraws := pendingDraws + [k];
    }

    /** Run the oldest scheduled draw callback, if any. */
    method RunNextDraw(fault: DrawFault)
      requires Valid()
      modifies this`pendingDraws, this`display, this`lastRenderedFrame, this`isRendering
      ensures Valid()
      ensures State() == DrawStep(old(State()), images, frameCount, fault)
    {
      if pendingDraws == [] {
        return;
      }
      var frameIndex := pendingDraws[0];
      pendingDraws := pendingDraws[1..];
      match fault {
        case NoFault =>
          display := Shows(frameIndex);
          lastRenderedFrame := CreateFrameCache(images, frameIndex, canvasWidth, canvasHeight);
        case ClearedThenFailed =>
          display := Blank;
        case DrawnThenFailed =>
          display := Shows(frameIndex);
      }
      isRendering := false;
    }

    method SafeRenderFrame(frameIndex: int)
      requires Valid()
      modifies this`currentFrameIndex, this`isRendering, this`pendingDraws, this`display
      ensures Valid()
      ensures State() == SafeRender(old(State()), images, frameCount, frameIndex)
    {
      var k := Clamp(frameIndex, frameCount);
      if k < |images| && images[k].status != Pending {
        RenderFrame(k, true);
      } else if lastRenderedFrame.Some? {
        display := ShowsSnapshot(lastRenderedFrame.value);
      } else {
        RenderFrame(0, true);
      }
    }

    method SetCanvasSize(viewportWidth: nat, viewportHeight: nat)
      requires Valid()
      modifies this`canvasWidth, this`canvasHeight, this`display, this`lastRenderedFrame,
               this`isRendering, this`currentFrameIndex, this`pendingDraws
      ensures Valid()
      ensures State() == Resize(old(State()), images, frameCount, viewportWidth, viewportHeight)
    {
      ghost var before := State();
      ghost var cleared := before.(width := viewportWidth, height := viewportHeight, display := Blank, cache := None);
      ClearedCoherent(before, images, frameCount, viewportWidth, viewportHeight);
      canvasWidth := viewportWidth;
      canvasHeight := viewportHeight;
      display := Blank;
      lastRenderedFrame := None;
      assert State() == cleared;
      if currentFrameIndex < |images| {
        isRendering := false;
        assert State() == cleared.(rendering := false);
        RenderFrame(currentFrameIndex, false);
      }
    }

    /** The load (`ok`) or error handler of image `i`; the browser fires
        exactly one of them per image. */
    method ImageEvent(i: nat, ok: bool)
      requires Valid() && i < |images| && images[i].status == Pending
      modifies this`images, this`imagesLoaded, this`progressReports, this`initCalls,
               this`currentFrameIndex, this`isRendering, this`pendingDraws
      ensures Valid()
      ensures images == old(images)[i := old(images)[i].(status := if ok then Loaded else Failed)]
      ensures imagesLoaded == old(imagesLoaded) + 1
      ensures progressReports == if ok then old(progressReports) + [imagesLoaded] else old(progressReports)
      ensures initCalls == old(initCalls) + (if imagesLoaded == frameCount then 1 else 0)
      ensures imagesLoaded < frameCount ==> State() == old(State())
      ensures imagesLoaded == frameCount ==> State() == RenderRequest(old(State()), images, frameCount, 0, false)
    {
      var st := if ok then Loaded else Failed;
      TrackedAfterEvent(images, frameCount, imagesLoaded, |progressReports|, initCalls, i, st);
      CoherentUnderLoad(State(), images, frameCount, i, st);
      images := images[i := images[i].(status := st)];
      imagesLoaded := imagesLoaded + 1;
      if ok {
        progressReports := progressReports + [imagesLoaded];
      }
      if imagesLoaded == frameCount {
        // initFrameAnimation(): its first action is a non-forced request for frame 0
        initCalls := initCalls + 1;
        RenderFrame(0, false);
      }
    }

    method OnUpdate(target: int)
      requires Valid()
      modifies this`currentFrameIndex, this`isRendering, this`pendingDraws
      ensures Valid()
      ensures State() == UpdateHook(old(State()), images, frameCount, target)
    {
      var frameIndex := Clamp(target, frameCount);
      if frameIndex < |images| && images[frameIndex].status != Pending {
        RenderFrame(frameIndex, false);
      }
    }

    method OnEnter(target: int)
      requires Valid()
      modifies this`currentFrameIndex, this`isRendering, this`pendingDraws, this`display
      ensures Valid()
      ensures State() == SafeRender(old(State()), images, frameCount, target)
    {
      var clampedFrame := Clamp(target, frameCount);
      SafeRenderFrame(clampedFrame);
    }

    /** The re-entry hook delays its safe render; `RunDelayedRender` runs it. */
    method OnEnterBack(target: int)
      requires Valid()
      modifies this`delayedRenders
      ensures Valid()
      ensures delayedRenders == old(delayedRenders) + [Clamp(target, frameCount)]
    {
      var clampedFrame := Clamp(target, frameCount);
      delayedRenders := delayedRenders + [clampedFrame];
    }

    method RunDelayedRender()
      requires Valid()
      modifies this`delayedRenders, this`currentFrameIndex, this`isRendering, this`pendingDraws, this`display
      ensures Valid()
      ensures old(delayedRenders) == [] ==> delayedRenders == [] && State() == old(State())
      ensures old(delayedRenders) != [] ==>
                && delayedRenders == old(delayedRenders)[1..]
                && State() == SafeRender(old(State()), images, frameCount, old(delayedRenders)[0])
    {
      if delayedRenders == [] {
        return;
      }
      var frameIndex := delayedRenders[0];
      ghost var before := State();
      delayedRenders := delayedRenders[1..];
      assert forall k :: k in delayedRenders ==> k in old(delayedRenders);
      assert State() == before;
      SafeRenderFrame(frameIndex);
    }
  }

  /** Page start-up: `preloadImages()` creates the images, and the player
      starts on them with the canvas at the viewport size. */
  method StartPage(frameCount: nat, viewportWidth: nat, viewportHeight: nat) returns (player: FramePlayer)
    requires frameCount >= 1
    ensures fresh(player) && player.Valid() && player.frameCount == frameCount
    ensures player.images == PendingFrames(frameCount)
    ensures player.imagesLoaded == 0 && player.progressReports == [] && player.initCalls == 0
    ensures player.State() == PlayState(0, false, None, Blank, [], viewportWidth, viewportHeight)
    ensures player.delayedRenders == []
  {
    var preloaded := PreloadImages(frameCount);
    player := new FramePlayer(frameCount, viewportWidth, viewportHeight, preloaded);
  }

  /** A page of at least two frames starts up and its first image loads:
      the load is reported as progress and nothing is drawn yet. */
  method ScenarioStartUp(n: nat, w: nat, h: nat)
    requires n >= 2
  {
    var player := StartPage(n, w, h);
    ghost var start := player.State();
    player.ImageEvent(0, true);
    assert player.imagesLoaded == 1 && player.progressReports == [] + [1];
    assert player.State() == start && player.pendingDraws == [] && player.display == Blank;
    assert player.images[0].status == Loaded && player.images[1].status == Pending;
  }

  /** On a page of four frames where three have reported, the last image
      reports: the animation starts, its first request (frame 0) is the one
      draw scheduled, and the draw shows it. */
  method ScenarioLastImage(player: FramePlayer)
    requires player.Valid() && player.frameCount == 4 && player.imagesLoaded == 3 && |player.images| == 4
    requires player.images[0].status == Loaded && player.images[3].status == Pending
    requires player.initCalls == 0 && player.progressReports == [1, 3]
    requires player.State() == PlayState(0, false, None, Blank, [], 800, 600)
    modifies player
  {
    ghost var before := player.State();
    player.ImageEvent(3, true);
    assert player.progressReports == [1, 3] + [4];
    assert IsDecoded(player.images, 0) && Clamp(0, 4) == 0;
    assert player.State() == before.(rendering := true, pending := [] + [0]);
    assert player.pendingDraws == [0] && player.initCalls == 1;
    player.RunNextDraw(NoFault);
    assert player.display == Shows(0) && !player.isRendering;
    assert player.lastRenderedFrame == Some(Snapshot(0, 800, 600));
  }

  /** A fully loaded page of four frames showing frame 3 is resized: the
      cache is dropped and the redraw re-creates it at the new size. */
  method ScenarioResize(player: FramePlayer)
    requires player.Valid() && player.frameCount == 4 && |player.images| == 4
    requires forall k :: 0 <= k < 4 ==> player.images[k].status == Loaded
    requires player.pendingDraws == [] && !player.isRendering
    modifies player
  {
    player.RenderFrame(10, false);
    assert player.pendingDraws == [3];
    player.RunNextDraw(NoFault);
    assert player.display == Shows(3);
    player.SetCanvasSize(1024, 768);
    assert player.lastRenderedFrame == None && player.pendingDraws == [3];
    player.RunNextDraw(NoFault);
    assert player.lastRenderedFrame == Some(Snapshot(3, 1024, 768));
    player.RenderFrame(-2, false);
    player.RunNextDraw(NoFault);
    assert player.display == Shows(0);
  }
}
