/**
 * The video-playback state of the desktop application (`BirthdayWisherApp`):
 * whether a capture is open (`self.cap`), whether it is playing
 * (`self.is_playing`), and the frame queue between the reader thread and the
 * user-interface refresh. Decoding and drawing are left out; a video file's
 * existence, whether it opens, whether the rest of `start_video` succeeds,
 * whether a frame draws, and each frame read are parameters.
 */
module Playback {
  import opened Wrappers
  import opened Frames

  /** What one run of `_update_ui_with_frame` does. */
  datatype Tick<F> =
    | Stopped        // not playing, or showing the frame failed: returns without rescheduling
    | Waiting        // queue empty: tries again in 10 ms
    | Shown(frame: F)  // shows the oldest queued frame, reschedules after the frame delay

  /** The playback state: an open capture or not, playing or not, and the queued frames. */
  datatype Player<F> = Player(hasCapture: bool, isPlaying: bool, queue: seq<F>)

  /** The frame queue is within its bound. */
  ghost predicate Bounded<F>(p: Player<F>)
  {
    |p.queue| <= MaxFrames
  }

  /** Within the bound, and playback never runs without an open capture. */
  ghost predicate Consistent<F>(p: Player<F>)
  {
    Bounded(p) && (p.isPlaying ==> p.hasCapture)
  }

  /**
   * `_update_ui_with_frame`: when playing, takes the oldest queued frame, if
   * any, to show it. `shows` says whether drawing that frame succeeds; when
   * it raises, the frame is already taken, playing ends and the `stop_video`
   * scheduled by the handler runs. With `cap` None the opening test raises
   * before the `try`, which ends the callback just as returning does.
   */
  function Refresh<F>(p: Player<F>, shows: bool): (Player<F>, Tick<F>)
  {
    if !p.isPlaying || !p.hasCapture then (p, Stopped)
    else if p.queue == [] then (p, Waiting)
    else if shows then (p.(queue := p.queue[1..]), Shown(p.queue[0]))
    else (Stop(p.(queue := p.queue[1..])), Stopped)
  }

  /** `stop_video`: releases the capture; the queued frames are not cleared. */
  function Stop<F>(p: Player<F>): Player<F>
  {
    p.(hasCapture := false, isPlaying := false)
  }

  /**
   * `start_video` as written: nothing happens when the file is missing;
   * otherwise it stops first. A capture that does not open raises before
   * `is_playing` is set. `launches` says whether the rest of the guarded
   * block (the button updates and starting the reader thread) succeeds;
   * when it raises, the handler only sets `cap` to None, so `is_playing`
   * stays set. Otherwise playing starts with one refresh.
   */
  function Start<F>(p: Player<F>, videoExists: bool, opens: bool, launches: bool, shows: bool)
    : (Player<F>, Tick<F>)
  {
    if !videoExists then (p, Stopped)
    else if !opens then (Stop(p), Stopped)
    else if !launches then (Stop(p).(isPlaying := true), Stopped)
    else Refresh(Stop(p).(hasCapture := true, isPlaying := true), shows)
  }

  /**
   * `start_video` with the handler evidently intended: a failure after the
   * capture opened also clears `is_playing`, as `stop_video` does.
   */
  function StartGuarded<F>(p: Player<F>, videoExists: bool, opens: bool, launches: bool, shows: bool)
    : (Player<F>, Tick<F>)
  {
    if videoExists && opens && !launches then (Stop(p), Stopped)
    else Start(p, videoExists, opens, launches, shows)
  }

  /** `toggle_video_play` */
  function Toggle<F>(p: Player<F>, videoExists: bool, opens: bool, launches: bool, shows: bool)
    : (Player<F>, Tick<F>)
  {
    if !p.hasCapture then Start(p, videoExists, opens, launches, shows)
    else if p.isPlaying then (p.(isPlaying := false), Stopped)
    else Refresh(p.(isPlaying := true), shows)
  }

  /** `toggle_video_play` over the guarded start. */
  function ToggleGuarded<F>(p: Player<F>, videoExists: bool, opens: bool, launches: bool, shows: bool)
    : (Player<F>, Tick<F>)
  {
    if !p.hasCapture then StartGuarded(p, videoExists, opens, launches, shows)
    else Toggle(p, videoExists, opens, launches, shows)
  }

  /**
   * One pass of `_video_read_loop` as written, with `read` the result of
   * `cap.read()` (`None` at the end of the video or on an error). While
   * playing, the frame is pushed with the drop-oldest policy; otherwise
   * the loop ends, clears `is_playing` and the `stop_video` it schedules
   * runs. With `cap` None while playing, the loop test raises outside the
   * `try` and the thread dies without touching the state. The Boolean says
   * whether the loop goes on.
   */
  function ReadStep<F>(p: Player<F>, read: Option<F>): (Player<F>, bool)
    requires Bounded(p)
  {
    if p.isPlaying && !p.hasCapture then (p, false)
    else if p.isPlaying && read.Some? then (p.(queue := PushDropOldest(p.queue, read.value)), true)
    else (Stop(p), false)
  }

  /**
   * The reader pass the pause button evidently expects: while paused with
   * an open capture the reader waits instead of ending playback.
   */
  function ReadStepPausable<F>(p: Player<F>, read: Option<F>): (Player<F>, bool)
    requires Bounded(p)
  {
    if p.hasCapture && !p.isPlaying then (p, true)
    else ReadStep(p, read)
  }

  /** `stop_video` leaves nothing playing and no capture, whatever the state before. */
  lemma StopSpec<F>(p: Player<F>)
    ensures !Stop(p).isPlaying && !Stop(p).hasCapture && Stop(p).queue == p.queue
    ensures Bounded(p) ==> Consistent(Stop(p))
  {
  }

  /**
   * With no capture, toggling is starting; with one, it flips `is_playing`
   * (and a refresh may take one frame), unless resuming fails to draw the
   * frame it takes, which stops the video.
   */
  lemma ToggleSpec<F>(p: Player<F>, videoExists: bool, opens: bool, launches: bool, shows: bool)
    ensures !p.hasCapture ==>
      Toggle(p, videoExists, opens, launches, shows) == Start(p, videoExists, opens, launches, shows)
    ensures p.hasCapture && (p.isPlaying || shows || p.queue == []) ==>
      && Toggle(p, videoExists, opens, launches, shows).0.hasCapture
      && Toggle(p, videoExists, opens, launches, shows).0.isPlaying == !p.isPlaying
    ensures p.hasCapture && !p.isPlaying && !shows && p.queue != [] ==>
      Toggle(p, videoExists, opens, launches, shows) == (Stop(p.(queue := p.queue[1..])), Stopped)
  {
  }

  /**
   * As written, with the file present: playing holds exactly when the
   * capture opened and no later step of the guarded block failed, or it
   * failed after `is_playing` was set; a capture is kept exactly when
   * everything succeeded. With the file missing nothing changes.
   */
  lemma StartSpec<F>(p: Player<F>, videoExists: bool, opens: bool, launches: bool, shows: bool)
    ensures videoExists ==>
      var q := Start(p, videoExists, opens, launches, shows).0;
      && (q.hasCapture <==> opens && launches && (shows || p.queue == []))
      && (q.isPlaying <==> opens && (!launches || shows || p.queue == []))
    ensures !videoExists ==> Start(p, videoExists, opens, launches, shows) == (p, Stopped)
  {
  }

  /**
   * The guarded start: with the file present, playing and having a capture
   * agree, and hold exactly when everything succeeded.
   */
  lemma StartGuardedSpec<F>(p: Player<F>, videoExists: bool, opens: bool, launches: bool, shows: bool)
    ensures videoExists ==>
      var q := StartGuarded(p, videoExists, opens, launches, shows).0;
      && q.hasCapture == q.isPlaying
      && (q.isPlaying <==> opens && launches && (shows || p.queue == []))
    ensures !videoExists ==> StartGuarded(p, videoExists, opens, launches, shows) == (p, Stopped)
  {
  }

  /**
   * A refresh shows frames in queue order and only takes from the front;
   * a frame that fails to draw is dropped and stops the video.
   */
  lemma RefreshSpec<F>(p: Player<F>, shows: bool)
    ensures var (p', t) := Refresh(p, shows);
      && (t.Shown? <==> p.isPlaying && p.hasCapture && p.queue != [] && shows)
      && (t.Shown? ==> [t.frame] + p'.queue == p.queue && p'.hasCapture && p'.isPlaying)
      && (t == Waiting <==> p.isPlaying && p.hasCapture && p.queue == [])
      && (t == Waiting || !p.isPlaying || !p.hasCapture ==> p' == p)
      && (p.isPlaying && p.hasCapture && p.queue != [] && !shows ==>
            t == Stopped && p' == Stop(p).(queue := p.queue[1..]))
  {
  }

  /** The things that can happen to playback, in any order. */
  datatype Action<F> =
    | TogglePlay(videoExists: bool, opens: bool, launches: bool, shows: bool)  // the play/pause button
    | StopButton                                   // the stop button
    | ReaderPass(read: Option<F>)                  // one pass of the reader thread
    | RefreshTick(shows: bool)                     // one scheduled refresh

  /** One action, as written. */
  function Apply<F>(p: Player<F>, a: Action<F>): Player<F>
    requires Bounded(p)
  {
    match a
    case TogglePlay(e, o, l, d) => Toggle(p, e, o, l, d).0
    case StopButton => Stop(p)
    case ReaderPass(read) => ReadStep(p, read).0
    case RefreshTick(d) => Refresh(p, d).0
  }

  /** One action, with the guarded start. */
  function ApplyGuarded<F>(p: Player<F>, a: Action<F>): Player<F>
    requires Bounded(p)
  {
    match a
    case TogglePlay(e, o, l, d) => ToggleGuarded(p, e, o, l, d).0
    case _ => Apply(p, a)
  }

  /** As written, no action ever lets the queue grow past ten frames. */
  lemma ApplyKeepsBound<F>(p: Player<F>, a: Action<F>)
    requires Bounded(p)
    ensures Bounded(Apply(p, a))
    ensures Consistent(p) && !a.TogglePlay? ==> Consistent(Apply(p, a))
  {
  }

  /** With the guarded start, every action keeps the state consistent. */
  lemma ApplyGuardedKeepsConsistent<F>(p: Player<F>, a: Action<F>)
    requires Consistent(p)
    ensures Consistent(ApplyGuarded(p, a))
  {
  }

  /** A sequence of actions, as written. */
  function RunAll<F>(p: Player<F>, actions: seq<Action<F>>): Player<F>
    requires Bounded(p)
    decreases |actions|
  {
    if actions == [] then p
    else
      ApplyKeepsBound(p, actions[0]);
      RunAll(Apply(p, actions[0]), actions[1..])
  }

  /** A sequence of actions, with the guarded start. */
  function RunAllGuarded<F>(p: Player<F>, actions: seq<Action<F>>): Player<F>
    requires Consistent(p)
    decreases |actions|
  {
    if actions == [] then p
    else
      ApplyGuardedKeepsConsistent(p, actions[0]);
      RunAllGuarded(ApplyGuarded(p, actions[0]), actions[1..])
  }

  /** As written, whatever happens, the queue never holds more than ten frames. */
  lemma {:induction false} RunAllKeepsBound<F>(p: Player<F>, actions: seq<Action<F>>)
    requires Bounded(p)
    ensures Bounded(RunAll(p, actions))
    decreases |actions|
  {
    if actions != [] {
      ApplyKeepsBound(p, actions[0]);
      RunAllKeepsBound(Apply(p, actions[0]), actions[1..]);
    }
  }

  /**
   * With the guarded start, whatever happens, in whatever order, playback
   * never runs without a capture and the queue never holds more than ten
   * frames.
   */
  lemma {:induction false} RunAllGuardedKeepsConsistent<F>(p: Player<F>, actions: seq<Action<F>>)
    requires Consistent(p)
    ensures Consistent(RunAllGuarded(p, actions))
    decreases |actions|
  {
    if actions != [] {
      ApplyGuardedKeepsConsistent(p, actions[0]);
      RunAllGuardedKeepsConsistent(ApplyGuarded(p, actions[0]), actions[1..]);
    }
  }

  /**
   * As written, a start whose capture opens but whose reader thread (or a
   * button update) fails leaves playback on with no capture: the handler
   * only clears `cap`. The play button then reads "暂停" while nothing plays.
   */
  lemma StartFailureLeavesPlayingWithoutCapture<F>(p: Player<F>, shows: bool)
    requires Consistent(p) && !p.hasCapture
    ensures var q := Apply(p, TogglePlay(true, true, false, shows));
      q.isPlaying && !q.hasCapture && !Consistent(q)
  {
  }

  /**
   * As written, pausing ends playback: the reader's next pass sees
   * `is_playing` false, leaves its loop and stops the video, so the capture
   * is gone and "继续" (resume) can only start over, which fails once the
   * file is missing.
   */
  lemma PauseReleasesCapture<F>(p: Player<F>, read: Option<F>, opens: bool, launches: bool, shows: bool)
    requires Consistent(p) && p.isPlaying
    ensures var paused := Toggle(p, true, true, launches, shows).0;
      && paused.hasCapture && !paused.isPlaying
      && !ReadStep(paused, read).0.hasCapture
      && !Toggle(ReadStep(paused, read).0, false, opens, launches, shows).0.isPlaying
  {
  }

  /** Any number of reader passes with the pausable reader. */
  function ReadAllPausable<F>(p: Player<F>, passes: seq<Option<F>>): Player<F>
    requires Bounded(p)
    decreases |passes|
  {
    if passes == [] then p
    else
      var (p', _) := ReadStepPausable(p, passes[0]);
      assert Bounded(p');
      ReadAllPausable(p', passes[1..])
  }

  /**
   * With the pausable reader, a paused video keeps its capture through any
   * number of reader passes, and resuming plays on with that capture (when
   * the frame it takes draws), even if the file has since disappeared.
   */
  lemma {:induction false} PausedReaderWaits<F>(p: Player<F>, passes: seq<Option<F>>, opens: bool, launches: bool)
    requires Consistent(p) && p.hasCapture && !p.isPlaying
    ensures ReadAllPausable(p, passes) == p
    ensures Toggle(ReadAllPausable(p, passes), false, opens, launches, true).0.hasCapture
    ensures Toggle(ReadAllPausable(p, passes), false, opens, launches, true).0.isPlaying
    decreases |passes|
  {
    if passes != [] {
      PausedReaderWaits(p, passes[1..], opens, launches);
    }
  }

  class VideoPlayback<F> {
    var hasCapture: bool   // `self.cap` is an open capture, not None
    var isPlaying: bool
    const frameQueue: FrameQueue<F>

    function State(): Player<F>
      reads this, frameQueue
    {
      Player(hasCapture, isPlaying, frameQueue.items)
    }

    /**
     * The queue is within its bound. Playing without a capture is not
     * excluded, since `start_video` as written can leave that state.
     */
    ghost predicate Valid()
      reads this, frameQueue
    {
      frameQueue.Valid()
    }

    constructor ()
      ensures Valid() && fresh(frameQueue)
      ensures State() == Player(false, false, [])
    {
      hasCapture, isPlaying := false, false;
      frameQueue := new FrameQueue();
    }

    /** `stop_video` */
    method StopVideo()
      requires Valid()
      modifies this
      ensures Valid() && State() == Stop(old(State()))
    {
      isPlaying := false;
      hasCapture := false;
    }

    /** `_update_ui_with_frame` */
    method UpdateUiWithFrame(shows: bool) returns (t: Tick<F>)
      requires Valid()
      modifies this, frameQueue
      ensures Valid() && (State(), t) == Refresh(old(State()), shows)
    {
      if !isPlaying || !hasCapture {
        return Stopped;
      }
      var r := frameQueue.TryGet();
      match r
      case None => t := Waiting;
      case Some(f) =>
        if shows {
          t := Shown(f);
        } else {
          isPlaying := false;
          StopVideo();
          t := Stopped;
        }
    }

    /** `start_video` */
    method StartVideo(videoExists: bool, opens: bool, launches: bool, shows: bool) returns (t: Tick<F>)
      requires Valid()
      modifies this, frameQueue
      ensures Valid() && (State(), t) == Start(old(State()), videoExists, opens, launches, shows)
    {
      if !videoExists {
        return Stopped;
      }
      StopVideo();
      if !opens {
        return Stopped;
      }
      hasCapture := true;
      isPlaying := true;
      if !launches {
        hasCapture := false;
        return Stopped;
      }
      t := UpdateUiWithFrame(shows);
    }

    /** `toggle_video_play` */
    method ToggleVideoPlay(videoExists: bool, opens: bool, launches: bool, shows: bool) returns (t: Tick<F>)
      requires Valid()
      modifies this, frameQueue
      ensures Valid() && (State(), t) == Toggle(old(State()), videoExists, opens, launches, shows)
    {
      if !hasCapture {
        t := StartVideo(videoExists, opens, launches, shows);
      } else {
        isPlaying := !isPlaying;
        if isPlaying {
          t := UpdateUiWithFrame(shows);
        } else {
          t := Stopped;
        }
      }
    }

    /** One pass of `_video_read_loop`, the scheduled `stop_video` included when it ends. */
    method ReadLoopStep(read: Option<F>) returns (running: bool)
      requires Valid()
      modifies this, frameQueue
      ensures Valid() && (State(), running) == ReadStep(old(State()), read)
    {
      if isPlaying && !hasCapture {
        return false;
      }
      if isPlaying && read.Some? {
        frameQueue.Push(read.value);
        return true;
      }
      isPlaying := false;
      StopVideo();
      running := false;
    }
  }
}
