# Birthday wisher: a Dafny model of its stateful core

The program is a small birthday-greeting novelty with two front ends. A
desktop application (`daima1.py`) plays a video, browses a folder of
images and shows a random greeting; a web server (`app.py`) answers
`POST /get_wish` with a random greeting addressed to a name. This project
models the parts of both that hold logic of their own and proves what they
promise:

- **Wish loading** (`Wishes`): both loaders keep the stripped, non-blank
  lines of `wishes.txt` in file order and fall back to their built-in lists
  (four on the desktop, seven on the web) when none are left or the file
  cannot be used. The desktop loader catches only OS errors, so a file that
  is not valid UTF-8 makes it fail; the web loader catches everything.
- **Image listing** (`MediaFiles`): the media folder's entries whose
  lower-cased name ends in `.png .jpg .jpeg .gif .bmp .tiff`, joined to the
  folder path and sorted the way Python sorts strings (`PySorted`), or
  nothing when the folder cannot be listed.
- **Greeting** (`Greeting`): `"<name>，<wish>"` with the default name
  `亲爱的朋友` and a wish drawn from the loaded list.
- **Frame queue** (`Frames`): a queue of at most ten frames; a push onto a
  full queue drops the oldest frame first, so the queue always holds the
  newest frames in arrival order.
- **Playback** (`Playback`): the `(cap, is_playing)` state machine driven by
  play/pause, stop, the reader thread's passes and the refresh ticks.
  `stop_video` does not empty the frame queue, so a restarted video first
  shows frames left over from the previous run; the model keeps that.
- **Image browser** (`Browser`): the thumbnail wall / viewer / closed mode
  and `current_image_index`, which starts at -1.

State that the source changes in place is modelled as classes
(`Frames.FrameQueue`, `Playback.VideoPlayback`, `Browser.ImageBrowser`);
their methods are proved against pure transition functions, and the
properties are proved about those functions as lemmas, including lemmas
over arbitrary sequences of user actions. Python's `str.strip`, `lower`,
`endswith` and string ordering are modelled in `PyText` and `PySorted`.

Inputs that come from the outside world are parameters: the lines of
`wishes.txt` or why it could not be read (`Wishes.WishFile`), the result
of `os.listdir` (`None` for an OS error), the request's JSON object, the
index `random.choice` draws, whether the video file exists and opens,
whether the rest of `start_video` (button updates, starting the reader
thread) raises, whether drawing a frame raises, and each frame the reader
gets.

## Model

| member | source | states |
|---|---|---|
| PyText.StripLeadingSpec | daima1.py:63 | `lstrip` keeps a suffix of the string, removes only whitespace, and stops at the first non-whitespace code point |
| PyText.StripTrailingSpec | daima1.py:63 | `rstrip` keeps a prefix, removes only whitespace, and stops at the last non-whitespace code point |
| PyText.StripSlice | app.py:43 | `strip` gives the slice of the line left after cutting the whitespace on both sides, and everything cut is whitespace |
| PyText.StripEnds | app.py:43 | a non-empty `strip` result neither starts nor ends with whitespace |
| PyText.StripBlank | app.py:43 | `strip` gives the empty string exactly when the line is all whitespace, so `if line.strip()` drops exactly the blank lines |
| PyText.StripIdempotent | app.py:43 | stripping a stripped line changes nothing |
| PySorted.Insert | daima1.py:51 | inserting into an ascending list gives an ascending list with one more copy of the element |
| PySorted.Sort | daima1.py:51 | `sorted` returns an ascending permutation of its input under Python's string order |
| PySorted.SortedUnique | daima1.py:51 | two ascending arrangements of the same strings are equal, so `Sort` is exactly what `sorted` returns |
| Wishes.KeptLines | daima1.py:63 | the comprehension's result has only non-empty, already stripped entries, no more than there are lines, and is empty exactly when every line is blank |
| Wishes.KeptLinesInFileOrder | app.py:41-43 | entry k of the result is the stripped line at an increasing position, and a position is used exactly when its line is not blank: the stripped non-blank lines in file order |
| Wishes.DefaultsStripped | app.py:17-25 | both built-in wish lists consist of non-empty, stripped lines |
| Wishes.LoadDesktopWishes | daima1.py:57-74 | fails exactly on a decoding error; otherwise non-empty; the kept lines when some line is non-blank, the four defaults when the file is missing, unreadable or blank |
| Wishes.LoadWebWishes | app.py:9-48 | never empty; the kept lines when some line is non-blank, else the seven defaults (missing, unreadable, undecodable or blank file) |
| MediaFiles.Join | daima1.py:51 | the joined path ends with the entry name and, for a relative name, starts with the folder path |
| MediaFiles.ImagePaths | daima1.py:51-52 | a path is in the comprehension exactly when it joins the folder with a listed entry whose lower-cased name has an image extension |
| MediaFiles.GetImageFiles | daima1.py:43-55 | empty when listing fails; otherwise ascending, the same multiset of paths as the comprehension, and a path is present exactly when it comes from an image entry |
| MediaFiles.GetImageFilesUnique | daima1.py:50-52 | any ascending arrangement of the comprehension's paths is the returned list |
| Greeting.GetWish | app.py:59-79 | fails exactly when the body is not a JSON object; otherwise the answer is the name, the full-width comma and one of the loaded wishes |
| Greeting.EveryWishReachable | app.py:70-73 | the loaded list is never empty and every wish in it is the answer for some random draw |
| Greeting.GreetingParts | app.py:67-76 | the answer splits back into the name, `，` and a loaded wish; without a `name` member it starts with `亲爱的朋友，` |
| Frames.PushDropOldest | daima1.py:204-211 | a push never leaves more than ten frames |
| Frames.PushAll | daima1.py:194-211 | any run of pushes never leaves more than ten frames |
| Frames.PushKeepsNewest | daima1.py:204-211 | a push keeps the newest frames: onto a non-full queue it appends, onto a full one it drops the oldest and keeps the other nine in order before the new frame |
| Frames.PushAllKeepsNewest | daima1.py:32 | after any run of pushes the queue holds the newest ten frames of everything it held and received, in arrival order |
| Frames.FrameQueue.constructor | daima1.py:32 | the queue starts empty |
| Frames.FrameQueue.TryPut | daima1.py:205 | a put succeeds exactly when the queue is not full and then appends; otherwise nothing changes |
| Frames.FrameQueue.Put | daima1.py:209 | a put onto a queue with room appends |
| Frames.FrameQueue.TryGet | daima1.py:208 | `get_nowait` returns and removes the oldest frame, or reports an empty queue and changes nothing |
| Frames.FrameQueue.Push | daima1.py:204-211 | the reader's put, get-then-put on a full queue, leaves exactly the drop-oldest result |
| Playback.StopSpec | daima1.py:259-274 | `stop_video` always leaves nothing playing and no capture, and keeps the queued frames |
| Playback.ToggleSpec | daima1.py:157-166 | with no capture toggling is starting; with a capture it keeps it and flips `is_playing`, unless resuming fails to draw the frame it takes, which stops the video |
| Playback.StartSpec | daima1.py:168-192 | as written, with the file present: a capture is kept exactly when it opened, the rest of the guarded block succeeded and the first refresh did not fail to draw; playing holds exactly when the capture opened and either the block failed after `is_playing` was set or the first refresh did not fail; with the file missing, nothing changes |
| Playback.StartGuardedSpec | daima1.py:168-192 | with a handler that also clears `is_playing`, playing and having a capture agree, and hold exactly when everything in the start succeeded |
| Playback.RefreshSpec | daima1.py:229-257 | a refresh shows a frame exactly when playing with a capture, a non-empty queue and a successful draw, taking it from the front; it waits, changing nothing, exactly when playing with a capture and an empty queue; with no capture or not playing nothing changes; a frame that fails to draw is dropped and playback is stopped (the `except Exception` branch) |
| Playback.ApplyKeepsBound | daima1.py:157-274 | as written, every action keeps the ten-frame bound, and every action but play/pause keeps "playing implies a capture" |
| Playback.RunAllKeepsBound | daima1.py:157-274 | as written, after any sequence of actions the queue holds at most ten frames |
| Playback.StartFailureLeavesPlayingWithoutCapture | daima1.py:175-192 | as written, a start whose capture opens but whose later steps raise leaves `is_playing` set with no capture |
| Playback.ApplyGuardedKeepsConsistent | daima1.py:157-274 | with the guarded start, every action keeps "playing implies a capture" and the ten-frame bound |
| Playback.RunAllGuardedKeepsConsistent | daima1.py:157-274 | with the guarded start, after any sequence of actions, playing implies a capture and the queue holds at most ten frames |
| Playback.PauseReleasesCapture | daima1.py:194-217 | as written, pausing and one reader pass release the capture, and resuming without the file cannot play |
| Playback.PausedReaderWaits | daima1.py:157-166 | with the pausable reader, a paused video keeps its capture through any reader passes and resumes with it |
| Playback.VideoPlayback.constructor | daima1.py:27-32 | no capture, not playing, empty queue |
| Playback.VideoPlayback.StopVideo | daima1.py:259-274 | the new state is `Stop` of the old one |
| Playback.VideoPlayback.UpdateUiWithFrame | daima1.py:229-257 | the new state and the tick are `Refresh` of the old state, for the given drawing outcome |
| Playback.VideoPlayback.StartVideo | daima1.py:168-192 | the new state and the tick are `Start` (as written) of the old state, for the given outcomes of opening, launching and drawing |
| Playback.VideoPlayback.ToggleVideoPlay | daima1.py:157-166 | the new state and the tick are `Toggle` of the old state |
| Playback.VideoPlayback.ReadLoopStep | daima1.py:194-217 | the new state and whether the loop goes on are `ReadStep` of the old state |
| Browser.ShowViewerSpec | daima1.py:383-389 | a valid index opens the viewer at it; any other changes neither mode nor index; the index stays in range |
| Browser.NavigationSteps | daima1.py:453-467 | previous subtracts exactly one when the index is above 0, next adds exactly one when it is below the last position, otherwise unchanged; the mode is kept |
| Browser.WindowCloseSpec | daima1.py:330-335 | closing from the viewer returns to the wall at the same index; from the wall it closes the window |
| Browser.StepKeepsInRange | daima1.py:383-480 | every event keeps the index in range, moves it by at most one unless it opens an image, and never takes it back below 0 |
| Browser.RunKeepsInRange | daima1.py:383-480 | any sequence of events keeps -1 <= index < len, with a valid index whenever the viewer is shown |
| Browser.EnteredStaysValid | daima1.py:385-467 | once the index is a valid position (after an image is opened, or a next step from -1, which the model accepts on the wall), 0 <= index < len after every later event |
| Browser.ClosedIsFinal | daima1.py:482-486 | once closed, the modelled window stays closed under any events; this follows from `Step` ignoring events on a closed window, which stands for Tk delivering no callbacks to a destroyed `Toplevel` rather than for code in the source |
| Browser.ImageBrowser.constructor | daima1.py:307-328 | starts on the thumbnail wall with index -1 |
| Browser.ImageBrowser.ShowImageViewer | daima1.py:383-427 | the new state is `AfterShowViewer` of the old one; an image is shown exactly for a valid index, and it is that index's path |
| Browser.ImageBrowser.ShowPreviousImage | daima1.py:453-459 | the new state is `AfterPrevious`; an image is shown exactly when the index was above 0 |
| Browser.ImageBrowser.ShowNextImage | daima1.py:461-467 | the new state is `AfterNext`; an image is shown exactly when the index was below the last position |
| Browser.ImageBrowser.ReturnToThumbnails | daima1.py:469-480 | the wall is shown again with the index kept |
| Browser.ImageBrowser.HandleWindowClose | daima1.py:330-335 | the new state is `AfterWindowClose` of the old one |

## Findings

| source | as written | input that shows it | evidently intended | confidence | as-written member | corrected member |
|---|---|---|---|---|---|---|
| daima1.py:195 | the reader loop runs only while `is_playing`; when it ends it clears `is_playing` and schedules `stop_video` | play, press pause ("暂停"); the reader's next loop check ends the loop and the video is stopped and released | pause keeps the capture, so "继续" (resume) goes on from the paused frame | medium, not executed (depends on the reader thread reaching its loop check) | Playback.PauseReleasesCapture | Playback.PausedReaderWaits |
| daima1.py:190-192 | the handler of `start_video` only sets `cap` to None; `is_playing` was already set at line 180 | the capture opens, then `video_thread.start()` (or a button `config`) raises; `is_playing` stays True with `cap` None, the button reads "暂停", and a refresh still pending raises on `None.isOpened()` | a failed start leaves playback stopped, so "playing implies a capture" holds | low, not executed (needs a failure after the capture opened) | Playback.StartFailureLeavesPlayingWithoutCapture | Playback.RunAllGuardedKeepsConsistent |

The rest of the model (`Start`, `ReadStep`, the `VideoPlayback` methods,
`RunAll`) keeps the code as written, and proves of it only the queue bound;
`StartGuarded`, `ReadStepPausable` and `RunAllGuarded` state the intended
behaviour, and "playing implies a capture" is proved for the guarded start.

## Left out

- Widget creation, layout, styling, message boxes, the scroll canvas, window titles and key bindings: user-interface calls. Only their effect on mode and index is modelled; an error or information box is a `None` result.
- `open_image_browser` and `show_random_wish`: they only guard an empty list with a message box and create a window or pick at random; the browser and the wish list they use are modelled.
- OpenCV decoding, `cv2.resize`, `cvtColor`, PIL `thumbnail` and `PhotoImage`, and `load_video_thumbnail`: foreign library calls. Frames are an opaque type parameter. Whether drawing a frame in `_update_ui_with_frame` raises is the `shows` input of `Playback.Refresh`, and its `except Exception` branch is modelled.
- Floating-point sizing and timing (`_display_frame` scaling, `_resize_frame_for_queue`, the frame delay from the FPS, the progress percentage): floating point and the clock.
- The reader thread, `join(timeout=1.0)`, the queue's blocking and timeouts: concurrency. The reader is modelled as single passes that the caller interleaves with the other actions, and the `stop_video` it schedules with `after(0, ...)` (daima1.py:217) runs at once; so does the one scheduled by the `except Exception` branch of `_update_ui_with_frame` (daima1.py:257), which `Playback.Refresh` folds into its failing branch.
- Playback.ReadStep: a capture that is open but reports `isOpened()` false is not modelled; an open capture counts as opened.
- File reads and writes, including writing the default wishes to a missing `wishes.txt` and creating the media folder: I/O. Their outcomes are the `WishFile` and listing parameters.
- Flask routing, `render_template` and `jsonify`: the `home` route returns a template and is not modelled.
- Greeting.GetWish: a `name` member that is not a JSON string is formatted by Python's `str()`; the model takes every member's value already formatted.
- PyText.LowerChar: maps only ASCII letters; Unicode case mapping of other code points is not modelled. The image extensions are ASCII, and no code point outside ASCII lower-cases to a string ending in one of them except through its ASCII letters.
- MediaFiles.GetImageFiles: file names with undecodable bytes, which `os.listdir` returns surrogate-escaped as lone U+DC80 to U+DCFF code points, are outside the model, since a Dafny `char` is a Unicode scalar value and cannot be a surrogate.
- Greeting.GetWish: JSON strings with unpaired `\uD800`-`\uDFFF` escapes, which Python decodes into lone surrogates, are outside the model for the same reason.
- MediaFiles.Join: POSIX `os.path.join`; the Windows separator is not modelled.
- Browser: operations on a destroyed window require `mode != Closed`, since Tk delivers no callbacks to it.
- Reading `wishes.txt` is modelled from the lines the file iterator yields; splitting the raw text into lines (universal newlines) is not modelled.
