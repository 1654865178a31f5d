/**
 * The image browser window (`ImageBrowser`): a thumbnail wall and a
 * single-image viewer over a fixed list of image paths, with the index of
 * the image being viewed. Widgets, images and message boxes are left out;
 * what remains is which view is shown and the current index.
 */
module Browser {
  import opened Wrappers

  /** Which of the two frames is packed, or whether the window is gone. */
  datatype Mode = Thumbnails | Viewer | Closed

  /** The browser's view state: the mode and `current_image_index`. */
  datatype View = View(mode: Mode, index: int)

  /** The state right after the window is created: thumbnail wall, no image chosen. */
  const Initial: View := View(Thumbnails, -1)

  /** `show_image_viewer(i)`: an index outside `[0, n)` only raises an error box. */
  function AfterShowViewer(v: View, n: nat, i: int): View
  {
    if 0 <= i < n then View(Viewer, i) else v
  }

  /** `show_previous_image`: steps back unless already at the first image. */
  function AfterPrevious(v: View): View
  {
    if v.index > 0 then v.(index := v.index - 1) else v
  }

  /** `show_next_image`: steps forward unless already at the last image. */
  function AfterNext(v: View, n: nat): View
  {
    if v.index < n - 1 then v.(index := v.index + 1) else v
  }

  /** `return_to_thumbnails`: the wall is shown again; the index is kept. */
  function AfterReturn(v: View): View
  {
    v.(mode := Thumbnails)
  }

  /** `handle_window_close`: back to the wall from the viewer, else the window is destroyed. */
  function AfterWindowClose(v: View): View
  {
    if v.mode == Viewer then AfterReturn(v) else v.(mode := Closed)
  }

  /**
   * The user actions the window reacts to. Every event is accepted in any
   * open mode, including previous, next and close on the thumbnail wall,
   * where the window offers no control for them (the arrow keys are unbound
   * and the viewer's buttons are not packed there). This admits more
   * runs than the window can produce; the range lemmas hold for all of them.
   */
  datatype Event =
    | ClickThumbnail(i: int)   // a thumbnail button, or any call of show_image_viewer
    | PreviousImage            // the "<" button or the Left key
    | NextImage                // the ">" button or the Right key
    | CloseButton              // the viewer's close button
    | WindowClose              // the title bar's close button

  /** One event on a window over `n` images; a destroyed window reacts to nothing. */
  function Step(v: View, n: nat, e: Event): View
  {
    if v.mode == Closed then v
    else match e
      case ClickThumbnail(i) => AfterShowViewer(v, n, i)
      case PreviousImage => AfterPrevious(v)
      case NextImage => AfterNext(v, n)
      case CloseButton => AfterReturn(v)
      case WindowClose => AfterWindowClose(v)
  }

  /** A sequence of events, in order. */
  function Run(v: View, n: nat, events: seq<Event>): View
    decreases |events|
  {
    if events == [] then v else Run(Step(v, n, events[0]), n, events[1..])
  }

  /**
   * The index is -1 (no image chosen yet) or a valid position, and the
   * viewer only ever shows a valid position.
   */
  ghost predicate InRange(v: View, n: nat)
  {
    && -1 <= v.index < n
    && (v.mode == Viewer ==> 0 <= v.index)
  }

  /**
   * `show_image_viewer(i)`: a valid `i` opens the viewer at `i`; any other
   * leaves both the mode and the index as they were.
   */
  lemma ShowViewerSpec(v: View, n: nat, i: int)
    ensures 0 <= i < n ==> AfterShowViewer(v, n, i) == View(Viewer, i)
    ensures !(0 <= i < n) ==> AfterShowViewer(v, n, i) == v
    ensures InRange(v, n) ==> InRange(AfterShowViewer(v, n, i), n)
  {
  }

  /**
   * Previous and next move the index by exactly one when they can and leave
   * it otherwise; they never change the mode.
   */
  lemma NavigationSteps(v: View, n: nat)
    ensures AfterPrevious(v).mode == v.mode && AfterNext(v, n).mode == v.mode
    ensures AfterPrevious(v).index == if v.index > 0 then v.index - 1 else v.index
    ensures AfterNext(v, n).index == if v.index < n - 1 then v.index + 1 else v.index
    ensures -1 <= AfterPrevious(v).index - v.index <= 0
    ensures 0 <= AfterNext(v, n).index - v.index <= 1
  {
  }

  /** Closing the window from the viewer returns to the wall at the same index; from the wall it closes. */
  lemma WindowCloseSpec(v: View)
    ensures v.mode == Viewer ==> AfterWindowClose(v) == View(Thumbnails, v.index)
    ensures v.mode == Thumbnails ==> AfterWindowClose(v) == View(Closed, v.index)
  {
  }

  /** Every event keeps the index in range and never changes it by more than one, except an open. */
  lemma StepKeepsInRange(v: View, n: nat, e: Event)
    requires InRange(v, n)
    ensures InRange(Step(v, n, e), n)
    ensures !e.ClickThumbnail? ==> -1 <= Step(v, n, e).index - v.index <= 1
    ensures v.index >= 0 ==> Step(v, n, e).index >= 0
  {
  }

  /** From a state in range, any sequence of events stays in range. */
  lemma {:induction false} RunKeepsInRange(v: View, n: nat, events: seq<Event>)
    requires InRange(v, n)
    ensures InRange(Run(v, n, events), n)
    decreases |events|
  {
    if events != [] {
      StepKeepsInRange(v, n, events[0]);
      RunKeepsInRange(Step(v, n, events[0]), n, events[1..]);
    }
  }

  /**
   * Once the viewer has been entered, the index stays a valid position
   * whatever happens next.
   */
  lemma {:induction false} EnteredStaysValid(v: View, n: nat, events: seq<Event>)
    requires InRange(v, n) && v.index >= 0
    ensures 0 <= Run(v, n, events).index < n
    decreases |events|
  {
    if events != [] {
      StepKeepsInRange(v, n, events[0]);
      EnteredStaysValid(Step(v, n, events[0]), n, events[1..]);
    }
  }

  /** A window that has been closed stays closed with its index frozen. */
  lemma {:induction false} ClosedIsFinal(v: View, n: nat, events: seq<Event>)
    requires v.mode == Closed
    ensures Run(v, n, events) == v
    decreases |events|
  {
    if events != [] {
      ClosedIsFinal(Step(v, n, events[0]), n, events[1..]);
    }
  }

  /** `ImageBrowser` */
  class ImageBrowser {
    const imagePaths: seq<string>
    var mode: Mode
    var currentImageIndex: int

    function State(): View
      reads this
    {
      View(mode, currentImageIndex)
    }

    ghost predicate Valid()
      reads this
    {
      InRange(State(), |imagePaths|)
    }

    /** `__init__`: opens on the thumbnail wall with no image chosen. */
    constructor (imagePaths: seq<string>)
      ensures Valid() && State() == Initial && this.imagePaths == imagePaths
    {
      this.imagePaths := imagePaths;
      mode := Thumbnails;
      currentImageIndex := -1;
    }

    /** `update_image_display`: the path of the image shown for the current index. */
    method UpdateImageDisplay() returns (path: string)
      requires 0 <= currentImageIndex < |imagePaths|
      ensures path == imagePaths[currentImageIndex]
    {
      path := imagePaths[currentImageIndex];
    }

    /** `show_image_viewer(index)`: the path now shown, or `None` after the error box. */
    method ShowImageViewer(index: int) returns (shown: Option<string>)
      requires Valid() && mode != Closed
      modifies this
      ensures Valid() && State() == AfterShowViewer(old(State()), |imagePaths|, index)
      ensures shown.Some? <==> 0 <= index < |imagePaths|
      ensures shown.Some? ==> shown.value == imagePaths[index]
    {
      if !(0 <= index < |imagePaths|) {
        return None;
      }
      currentImageIndex := index;
      mode := Viewer;
      var path := UpdateImageDisplay();
      shown := Some(path);
    }

    /** `show_previous_image`: the path now shown, or `None` after "already the first image". */
    method ShowPreviousImage() returns (shown: Option<string>)
      requires Valid() && mode != Closed
      modifies this
      ensures Valid() && State() == AfterPrevious(old(State()))
      ensures shown.Some? <==> old(currentImageIndex) > 0
      ensures shown.Some? ==> shown.value == imagePaths[currentImageIndex]
    {
      if currentImageIndex > 0 {
        currentImageIndex := currentImageIndex - 1;
        var path := UpdateImageDisplay();
        shown := Some(path);
      } else {
        shown := None;
      }
    }

    /** `show_next_image`: the path now shown, or `None` after "already the last image". */
    method ShowNextImage() returns (shown: Option<string>)
      requires Valid() && mode != Closed
      modifies this
      ensures Valid() && State() == AfterNext(old(State()), |imagePaths|)
      ensures shown.Some? <==> old(currentImageIndex) < |imagePaths| - 1
      ensures shown.Some? ==> shown.value == imagePaths[currentImageIndex]
    {
      if currentImageIndex < |imagePaths| - 1 {
        currentImageIndex := currentImageIndex + 1;
        var path := UpdateImageDisplay();
        shown := Some(path);
      } else {
        shown := None;
      }
    }

    /** `return_to_thumbnails` */
    method ReturnToThumbnails()
      requires Valid() && mode != Closed
      modifies this
      ensures Valid() && State() == AfterReturn(old(State()))
    {
      mode := Thumbnails;
    }

    /** `handle_window_close` */
    method HandleWindowClose()
      requires Valid() && mode != Closed
      modifies this
      ensures Valid() && State() == AfterWindowClose(old(State()))
    {
      if mode == Viewer {
        ReturnToThumbnails();
      } else {
        mode := Closed;
      }
    }
  }
}
