/**
 * The scanning session: the start/stop button, the camera request, the
 * detection interval armed when the video starts playing, the detection
 * tick and the clear button, as one state machine over an explicit
 * application state.
 *
 * The browser's timer table and the camera's running tracks are part of
 * the state (`liveIntervals`, `openStreams`), so that "the interval is
 * cleared" and "the tracks are stopped" are observable. The start button
 * does not wait for the camera request, so the request settles in an event
 * of its own, after any number of other events.
 */
module Session {
  import opened Wrappers
  import opened Items
  import opened Scanner

  /** An interval id or a media stream, as handed out by the browser. */
  type Handle = nat

  datatype App = App(
    scanning: bool,
    pending: nat,               // camera requests not yet settled
    stream: Option<Handle>,
    detectTimer: Option<Handle>,
    openStreams: set<Handle>,
    liveIntervals: set<Handle>,
    nextHandle: Handle,
    scan: ScanState,
    dataArr: seq<Item>)

  /** The page just loaded over a store persisted by earlier sessions. */
  function Init(store: seq<Item>): App {
    App(false, 0, None, None, {}, {}, 0, ScanState("", store), [])
  }

  /**
   * The rest of `startVideo`, once `getUserMedia` settles: a granted request
   * binds the new stream, overwriting the handle of any stream bound before
   * without stopping it; a refused request rejects the promise and changes
   * nothing else.
   */
  function StartVideo(a: App, granted: bool): (r: App)
    requires a.pending > 0
    ensures r.pending == a.pending - 1
    ensures !granted ==> r == a.(pending := a.pending - 1)
    ensures granted ==> r.stream == Some(a.nextHandle)
    ensures granted ==> r.openStreams == a.openStreams + {a.nextHandle} && r.nextHandle > a.nextHandle
    ensures r.detectTimer == a.detectTimer && r.liveIntervals == a.liveIntervals
    ensures r.scanning == a.scanning && r.scan == a.scan && r.dataArr == a.dataArr
  {
    if granted then
      a.(pending := a.pending - 1, stream := Some(a.nextHandle),
         openStreams := a.openStreams + {a.nextHandle}, nextHandle := a.nextHandle + 1)
    else
      a.(pending := a.pending - 1)
  }

  /** `stopVideo`: clear the interval, stop the stream's tracks, and null both handles. */
  function StopVideo(a: App): (r: App)
    ensures r.detectTimer.None? && r.stream.None?
    ensures r.liveIntervals == a.liveIntervals - OptSet(a.detectTimer)
    ensures r.openStreams == a.openStreams - OptSet(a.stream)
    ensures r.scanning == a.scanning && r.scan == a.scan && r.dataArr == a.dataArr
  {
    var cleared :=
      if a.detectTimer.Some? then a.(liveIntervals := a.liveIntervals - {a.detectTimer.value}, detectTimer := None)
      else a;
    if cleared.stream.Some? then cleared.(openStreams := cleared.openStreams - {cleared.stream.value}, stream := None)
    else cleared
  }

  /** The `onplaying` handler: clear any previous interval, then arm a new one. */
  function OnPlaying(a: App): (r: App)
    ensures r.detectTimer == Some(a.nextHandle)
    ensures r.liveIntervals == (a.liveIntervals - OptSet(a.detectTimer)) + {a.nextHandle}
    ensures r.stream == a.stream && r.openStreams == a.openStreams
    ensures r.scanning == a.scanning && r.scan == a.scan && r.dataArr == a.dataArr
  {
    var cleared :=
      if a.detectTimer.Some? then a.(liveIntervals := a.liveIntervals - {a.detectTimer.value})
      else a;
    cleared.(detectTimer := Some(a.nextHandle), liveIntervals := cleared.liveIntervals + {a.nextHandle},
             nextHandle := a.nextHandle + 1)
  }

  /**
   * `callbackStartBtn`: when idle, mark the session as scanning and issue a
   * camera request without waiting for it; when scanning, stop at once.
   */
  function ToggleScan(a: App): (r: App)
    ensures r.scanning == !a.scanning
    ensures !a.scanning ==> r == a.(scanning := true, pending := a.pending + 1)
    ensures a.scanning ==> r.stream.None? && r.detectTimer.None? && r.pending == a.pending
    ensures r.scan == a.scan && r.dataArr == a.dataArr
  {
    if !a.scanning then a.(scanning := true, pending := a.pending + 1)
    else StopVideo(a.(scanning := false))
  }

  /** `callbackClearBtn`: after confirmation, forget the in-memory list and the last payload. */
  function Clear(a: App, confirmed: bool): (r: App)
    ensures !confirmed ==> r == a
    ensures confirmed ==> r.dataArr == [] && r.scan.lastText == ""
    ensures r.scan.store == a.scan.store
    ensures ItemNumber(r.scan.store) == ItemNumber(a.scan.store)
  {
    if confirmed then a.(dataArr := [], scan := a.scan.(lastText := "")) else a
  }

  /** A detection tick; it runs whether or not scanning is on. */
  function Tick(a: App, supported: bool, codes: seq<string>, shownAt: string, savedAt: string): (r: App)
    ensures a.scan.store <= r.scan.store
    ensures r.scan == Detect(a.scan, supported, codes, shownAt, savedAt).state
    ensures r.scanning == a.scanning && r.stream == a.stream && r.detectTimer == a.detectTimer
  {
    a.(scan := Detect(a.scan, supported, codes, shownAt, savedAt).state)
  }

  /** The events that drive the session. */
  datatype Event =
    | StartStopPressed
    | CameraSettled(granted: bool)
    | VideoPlaying
    | DetectTick(supported: bool, codes: seq<string>, shownAt: string, savedAt: string)
    | ClearPressed(confirmed: bool)

  /**
   * One event. A camera request can only settle while one is outstanding,
   * and the video only starts playing while a stream is bound to it.
   */
  function Step(a: App, e: Event): (r: App)
    ensures a.scan.store <= r.scan.store
    ensures r.nextHandle >= a.nextHandle
  {
    match e
    case StartStopPressed => ToggleScan(a)
    case CameraSettled(granted) => if a.pending > 0 then StartVideo(a, granted) else a
    case VideoPlaying => if a.stream.Some? then OnPlaying(a) else a
    case DetectTick(supported, codes, shownAt, savedAt) => Tick(a, supported, codes, shownAt, savedAt)
    case ClearPressed(confirmed) => Clear(a, confirmed)
  }

  function Run(a: App, events: seq<Event>): App
    decreases |events|
  {
    if |events| == 0 then a else Run(Step(a, events[0]), events[1..])
  }

  /**
   * The session invariant: the timer handle names exactly the live
   * interval, the stream handle names a running stream, every handle was
   * handed out before, and every stored record has a six-digit identifier.
   */
  predicate Inv(a: App) {
    && a.liveIntervals == OptSet(a.detectTimer)
    && OptSet(a.stream) <= a.openStreams
    && (forall h :: h in a.liveIntervals ==> h < a.nextHandle)
    && (forall h :: h in a.openStreams ==> h < a.nextHandle)
    && AllWellFormed(a.scan.store)
  }

  lemma InitInv(store: seq<Item>)
    requires AllWellFormed(store)
    ensures Inv(Init(store))
  {
  }

  lemma StepInv(a: App, e: Event)
    requires Inv(a)
    ensures Inv(Step(a, e))
  {
  }

  /**
   * From page load, whatever happens, at most one detection interval is
   * live, and the store only grows.
   */
  lemma {:induction false} RunInv(a: App, events: seq<Event>)
    requires Inv(a)
    ensures Inv(Run(a, events))
    ensures |Run(a, events).liveIntervals| <= 1
    ensures a.scan.store <= Run(a, events).scan.store
    decreases |events|
  {
    if |events| > 0 {
      StepInv(a, events[0]);
      RunInv(Step(a, events[0]), events[1..]);
    } else {
      assert |OptSet(a.detectTimer)| <= 1;
    }
  }

  /** A second `stopVideo` changes nothing. */
  lemma StopIdempotent(a: App)
    ensures StopVideo(StopVideo(a)) == StopVideo(a)
  {
  }

  /**
   * Under the invariant, stopping leaves no live interval and stops exactly
   * the stream the handle names.
   */
  lemma StopReleasesAll(a: App)
    requires Inv(a)
    ensures StopVideo(a).liveIntervals == {}
    ensures StopVideo(a).openStreams == a.openStreams - OptSet(a.stream)
    ensures Inv(StopVideo(a))
  {
  }

  /**
   * A refused camera request still leaves the session marked as scanning,
   * with the stream handle as it was.
   */
  lemma RefusedCameraStillScanning(a: App)
    requires !a.scanning
    ensures Step(Step(a, StartStopPressed), CameraSettled(false)).scanning
    ensures Step(Step(a, StartStopPressed), CameraSettled(false)).stream == a.stream
    ensures Step(Step(a, StartStopPressed), CameraSettled(false)).pending == a.pending
  {
  }

  /** A detection result that arrives after stop is still processed and stored. */
  lemma LateDetectionStored(a: App, code: string, shownAt: string, savedAt: string)
    requires !a.scanning && Payload.ValidPayload(code) && code != a.scan.lastText
    ensures |Tick(a, true, [code], shownAt, savedAt).scan.store| == |a.scan.store| + 2
  {
  }

  /**
   * After a confirmed clear the counts are unchanged, and the payload that
   * was last accepted is accepted again when read next.
   */
  lemma ClearReadmits(a: App, code: string, shownAt: string, savedAt: string)
    requires Payload.ValidPayload(code)
    ensures ItemNumber(Clear(a, true).scan.store) == ItemNumber(a.scan.store)
    ensures Detect(Clear(a, true).scan, true, [code], shownAt, savedAt).effect.Accepted?
  {
  }

  // ---------------------------------------------------------------------
  // A camera request that settles late
  // ---------------------------------------------------------------------

  /**
   * Start then stop before the camera answers: the grant still binds the
   * stream and the video arms detection, while the session is idle.
   */
  lemma StreamWhileIdle(store: seq<Item>)
    ensures var a := Run(Init(store), [StartStopPressed, StartStopPressed, CameraSettled(true), VideoPlaying]);
            !a.scanning && a.stream.Some? && a.detectTimer.Some?
  {
    var a0 := Init(store);
    var a1 := Step(a0, StartStopPressed);
    var a2 := Step(a1, StartStopPressed);
    var a3 := Step(a2, CameraSettled(true));
    var a4 := Step(a3, VideoPlaying);
    assert !a4.scanning && a4.stream.Some? && a4.detectTimer.Some?;
    var evs := [StartStopPressed, StartStopPressed, CameraSettled(true), VideoPlaying];
    assert Run(a4, evs[4..]) == a4;
    assert Run(a3, evs[3..]) == a4;
    assert Run(a2, evs[2..]) == a4;
    assert Run(a1, evs[1..]) == a4;
  }

  /**
   * A running stream that no handle names stays running whatever happens:
   * only the stream under the handle is ever stopped.
   */
  lemma {:induction false} OrphanStaysOpen(a: App, events: seq<Event>, h: Handle)
    requires Inv(a) && h in a.openStreams && a.stream != Some(h)
    ensures h in Run(a, events).openStreams && Run(a, events).stream != Some(h)
    decreases |events|
  {
    if |events| > 0 {
      StepInv(a, events[0]);
      OrphanStaysOpen(Step(a, events[0]), events[1..], h);
    }
  }

  /**
   * Start, stop, start, then both camera requests are granted: the first
   * stream loses its handle, so after a stop it is still running, and no
   * later events ever stop it.
   */
  lemma StreamLeak(store: seq<Item>, later: seq<Event>)
    requires AllWellFormed(store)
    ensures var a := Run(Init(store), [StartStopPressed, StartStopPressed, StartStopPressed,
                                       CameraSettled(true), CameraSettled(true), StartStopPressed]);
            && !a.scanning && a.stream.None? && 0 in a.openStreams
            && 0 in Run(a, later).openStreams && Run(a, later).stream != Some(0)
  {
    var evs := [StartStopPressed, StartStopPressed, StartStopPressed,
                CameraSettled(true), CameraSettled(true), StartStopPressed];
    var a0 := Init(store);
    var a1 := Step(a0, evs[0]);
    var a2 := Step(a1, evs[1]);
    var a3 := Step(a2, evs[2]);
    var a4 := Step(a3, evs[3]);
    var a5 := Step(a4, evs[4]);
    assert a5.stream == Some(1) && 0 in a5.openStreams;
    InitInv(store);
    StepInv(a0, evs[0]);
    StepInv(a1, evs[1]);
    StepInv(a2, evs[2]);
    StepInv(a3, evs[3]);
    StepInv(a4, evs[4]);
    RunFrom(a0, evs, 0);
    RunFrom(a1, evs, 1);
    RunFrom(a2, evs, 2);
    RunFrom(a3, evs, 3);
    RunFrom(a4, evs, 4);
    assert evs[0..] == evs;
    OrphanStaysOpen(a5, evs[5..], 0);
    var a6 := Run(a0, evs);
    assert a6 == Run(a5, evs[5..]);
    RunInv(a5, evs[5..]);
    OrphanStaysOpen(a6, later, 0);
  }

  /** Unfolds `Run` at position `i` of a series of events. */
  lemma RunFrom(a: App, events: seq<Event>, i: nat)
    requires i < |events|
    ensures Run(a, events[i..]) == Run(Step(a, events[i]), events[i + 1..])
  {
    assert events[i..][1..] == events[i + 1..];
  }

  // ---------------------------------------------------------------------
  // The camera request as evidently intended
  // ---------------------------------------------------------------------

  /**
   * A settled camera request that binds its stream only when the session
   * is still scanning and has none; otherwise the new stream is stopped at
   * once and never runs.
   */
  function StartVideoChecked(a: App, granted: bool): (r: App)
    requires a.pending > 0
    ensures r.pending == a.pending - 1
    ensures r.stream == (if granted && a.scanning && a.stream.None? then Some(a.nextHandle) else a.stream)
    ensures r.stream == a.stream ==> r.openStreams == a.openStreams
    ensures r.stream != a.stream ==> r.openStreams == a.openStreams + {a.nextHandle}
    ensures r.detectTimer == a.detectTimer && r.liveIntervals == a.liveIntervals
    ensures r.scanning == a.scanning && r.scan == a.scan && r.dataArr == a.dataArr
  {
    if granted && a.scanning && a.stream.None? then StartVideo(a, true)
    else if granted then a.(pending := a.pending - 1, nextHandle := a.nextHandle + 1)
    else StartVideo(a, false)
  }

  /** `Step` with the checked camera request. */
  function CheckedStep(a: App, e: Event): (r: App)
    ensures a.scan.store <= r.scan.store
  {
    match e
    case CameraSettled(granted) => if a.pending > 0 then StartVideoChecked(a, granted) else a
    case _ => Step(a, e)
  }

  function CheckedRun(a: App, events: seq<Event>): App
    decreases |events|
  {
    if |events| == 0 then a else CheckedRun(CheckedStep(a, events[0]), events[1..])
  }

  /**
   * The intended invariant: besides `Inv`, the stream handle names every
   * running stream, and nothing runs while the session is idle.
   */
  predicate CheckedInv(a: App) {
    && Inv(a)
    && a.openStreams == OptSet(a.stream)
    && (!a.scanning ==> a.stream.None? && a.detectTimer.None?)
  }

  lemma CheckedStepInv(a: App, e: Event)
    requires CheckedInv(a)
    ensures CheckedInv(CheckedStep(a, e))
  {
  }

  /**
   * With the checked request, at most one stream runs, and while idle no
   * stream runs and no interval is live, whatever the order of events.
   */
  lemma {:induction false} CheckedRunInv(a: App, events: seq<Event>)
    requires CheckedInv(a)
    ensures CheckedInv(CheckedRun(a, events))
    ensures |CheckedRun(a, events).openStreams| <= 1 && |CheckedRun(a, events).liveIntervals| <= 1
    ensures !CheckedRun(a, events).scanning ==>
              CheckedRun(a, events).openStreams == {} && CheckedRun(a, events).liveIntervals == {}
    decreases |events|
  {
    if |events| > 0 {
      CheckedStepInv(a, events[0]);
      CheckedRunInv(CheckedStep(a, events[0]), events[1..]);
    } else {
      assert |OptSet(a.detectTimer)| <= 1 && |OptSet(a.stream)| <= 1;
    }
  }

  /** Under the intended invariant, stopping releases everything. */
  lemma CheckedStopReleasesAll(a: App)
    requires CheckedInv(a)
    ensures StopVideo(a).liveIntervals == {} && StopVideo(a).openStreams == {}
  {
  }
}
