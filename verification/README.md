# Verified model of the weld pool detector

`pool_detector.py` watches a folder that a server fills with numbered camera frames. It processes every new frame once,
writes an annotated copy of each for a video, and reports the blob it finds in the latest one. This project models the
detector in Dafny and proves what its comments promise: that a restart of the numbering is recognised, that no frame is
skipped, that the annotated sequence has no gaps, that the mask clean-up restores the size of the blob, and that
lowering the threshold helps. Where a promise holds only under a condition, the exact condition is proved.
`dafny verify dfyconfig.toml` verifies the whole project.

## Files

| file | contents |
|---|---|
| `Common.dfy` | options, ascending sequences, ranges, counting |
| `FrameNames.dfy` | `get_frame_number`, zero-padded names, the order of strings, `sorted`, the `?????` pattern |
| `Tracker.dfy` | the scan on frame numbers, over any sequence of snapshots |
| `Protocol.dfy`, `Guarantees.dfy` | server and detector as interleaved processes, their invariant, and what follows from it |
| `Video.dfy` | what the annotated folder holds of each session, and when it has no gap |
| `Morphology.dfy` | erosion, dilation, opening, closing and the clean-up on frames and on the plane |
| `Configuration.dfy` | the four settings, their refresh, and its timer |
| `Detection.dfy` | threshold, regions, the choice of the blob, the verdict on one frame |
| `Machine.dfy` | the detector process as a value, and the lemmas that connect its loop to the tracker |
| `Pictures.dfy` | what a whole run leaves in the annotated folder |
| `Runs.dfy` | what a whole run reports, and how the dashboard's answers get into its settings |
| `Detector.dfy` | the program itself: a class with the module globals, the loop variables and the annotated folder |

The class does what the program does, step by step. Each of its methods equals a function of `Machine.dfy` on the
state before. `Machine.WatchedIsRun` then says that on listings of five-digit names the loop is the tracker's run on the
numbers listed, so that everything proved in `Tracker.dfy` holds of the program; `Detector.Detector.Watch` and these lemmas
meet in `Detector.WatchSession` and `WatchNextSession`, which run the program over one session and over a later one. `Guarantees.RoundsAreScans` connects
the interleaved model to the same tracker.

## Findings

- **A session change can lose frames.** The reset test compares the highest number on disk with `last_processed`
  (lines 247-250). It fires only if the first listing of the new session is still below the last one of the old session.
  Otherwise frames 0 to `last_processed` of the new session are passed over. If the session opened between two batches they
  are never processed (`Guarantees.ExactLoss`, `LossExample`). If it opened in the middle of a batch, the rest of that
  batch may still come upon some of them, and exactly the others are lost (`LostIff`, `NothingLostIff`). In the other
  direction the test is never wrong (`NoFalseReset`). For the program itself, taken up in any state:
  `Machine.SessionResumed`.
- **A clear in the middle of a batch can make a frame count twice**, and never more than twice (`AtMostTwice`,
  `TwiceExample`). It happens to frame f exactly when the rest of the old batch finds f in the new session before that is
  listed, the first listing of the session then falls below `last_processed` (line 248), and the listings of the session
  come to show f (`TwiceIff`).
- **The annotated sequence can break, in two ways.** Lines 95-96 and 252-254 say it never does. First, a frame that is
  listed while it is still being written does not load, leaves no picture (lines 90-92), and is not tried again
  (`BrokenExample`, `NeverRetried`). Second, the frames lost at a session change leave a gap at the very beginning, even if
  every frame is complete at its turn (`Video.GapExample`). The sequence of a session that opened between batches is unbroken
  exactly when the reset test fires or nothing was listed before, and every frame was complete when the detector turned
  to it (`Video.SessionUnbrokenIff`; of the folder, `FolderUnbrokenIff`; of sessions that opened in the middle of a
  batch, `Video.UnbrokenIff`). Before the first clear only the second condition is left (`AnnotatedUnbrokenIff`). For the
  program itself, with its ways out of `detect_pool` and in any state: `Pictures.UnbrokenIff`.
- **The clean-up keeps the size of the blob and moves it when the kernel is even.** Lines 119-130 say opening and closing
  restore the size, and that is so: with an odd kernel the filter is the ideal one, with an even one, as the default 8, its
  outcome is the ideal one moved by two pixels along both axes (`CleanUpDrifts`, `FrameDrifts`, `RectangleDrifts`). What
  the comments do not say is that the centre reported (lines 76-77) moves along: in a 640 x 480 frame a 30 x 30 blob
  at (100, 100) comes out 30 x 30 at (102, 102) (`DriftExample`), and every further pass would move it again
  (`SecondPassMoves`). Nothing moves exactly when the kernel is odd or no pixel of the mask has the whole block inside the
  mask (`RestoresIff`, `IdempotentIff`; in a frame `FrameRestoresIff`). This rests on the assumption about the library
  stated at the head of `Morphology.dfy`.
- **A changed setting can take longer than the ten seconds of README.md:217.** Most do not: a change made in the middle of
  the wait is fetched in time. But the timer starts when a fetch ends and is tested once per iteration, so a change made
  right after a fetch has to wait for the first test past ten seconds and for the fetch itself. It is late exactly when it
  comes less than that excess after the fetch, and then by less than one iteration and one fetch (`ChangeDelay`). Every
  change that a fetch of the run picks up is in time if and only if every fetch starts exactly when the interval is over
  and takes no time (`PromiseKeptIff`); `LateChange` is a run in which one is late.
- **One file with a non-numeric five-character name stops the detector**: the pattern lists it, and reading its number
  raises before anything is processed (`Machine.CrashIff`). `frame_abcde.jpg` is such a name (`CrashExample`).

## Assumptions

- The server's code is not part of this model. Assumed of it, after README.md:24, 31, 33 and 246, the comments in lines
  242-246, and `clearFrames` (FrameWebSocketHandler.java:223-235): it writes the frames of a session as 0, 1, 2, ...; a frame
  is listed before it is complete; clearing empties `frames/` and `annotated/` in one step and starts the numbers again at 0.
  `Tracker.dfy` and `Machine.dfy` need none of this except where a lemma says so.
- A directory lists no name twice. `sorted` returns an ordered permutation; `FrameNames.SortIsCanonical` shows that there
  is only one.
- Of the image library: the block of ones is anchored at its centre k/2 and looks at offsets -k/2 to k-1-k/2, for
  erosion and dilation alike; pixels outside the frame take no part. Contours bound 8-connected regions, their area does
  not shrink when a region grows, and every region lies within an external contour of at least its area
  (`Detection.Faithful`, which `FaithfulExists` shows can be met). Blur is an arbitrary function.

## Model

| member | source | states |
|---|---|---|
| FrameNames.ParsePrinted | pool_detector.py:189-196 | Reading the number of the path printed for frame n gives n, for every n, also with six digits and more. |
| FrameNames.PrintParsed | pool_detector.py:189-196 | Every `frames/frame_ddddd.jpg` has a number below 100000, and printing that number gives the path back. |
| FrameNames.FieldNumber | pool_detector.py:194-196 | Directory, extension and prefix come off whatever the five characters between them are; the rest is what `int` makes of them, including its failure. |
| FrameNames.PyIntIs | pool_detector.py:196 | What `int` makes of any string: white space around it is dropped, a sign counts, single underscores between digits are skipped, and anything else fails. |
| FrameNames.PlainExample | pool_detector.py:189-196 | The documented example: `frames/frame_00042.jpg` has number 42. |
| FrameNames.NegativeExample | pool_detector.py:189-196 | `frames/frame_-0042.jpg`, which the pattern finds too, has number -42. |
| FrameNames.NameExample | pool_detector.py:35-36 | Frame 42 is read as `frames/frame_00042.jpg` and annotated as `annotated/frame_00042.jpg`. |
| FrameNames.LessIff | pool_detector.py:239 | Names are ordered by the first character in which they differ, a prefix coming first. |
| FrameNames.OrderIsNumeric | pool_detector.py:239 | For every width, zero-padded numbers of that width are ordered as strings exactly as they are as numbers. |
| FrameNames.SortIsSorted | pool_detector.py:239 | Sorting orders the listing and keeps every entry. |
| FrameNames.SortIsCanonical | pool_detector.py:239 | Any ordered permutation of the listing is the sorted list: neither algorithm nor order of arrival matter. |
| FrameNames.SortedNumbers | pool_detector.py:239-247 | A listing of five-digit names, sorted as strings, has strictly ascending numbers, namely those of the names listed; the last file carries the highest. |
| FrameNames.GlobSelects | pool_detector.py:239 | The pattern finds the server's name for n exactly when n is below 100000. |
| FrameNames.ServerListing | pool_detector.py:239-244 | Listing a folder with the server's first n frames and sorting gives 0, 1, 2, ... up to n or 100000. |
| Tracker.LastIsPrevious | pool_detector.py:247-269 | After every scan `last_processed` is the highest number of the latest non-empty snapshot, reset or not. |
| Tracker.RunRefinesSpec | pool_detector.py:229-269 | Over any snapshots whatsoever: a snapshot entirely below the one before is processed as a whole, otherwise exactly what lies above; in ascending order; empty ones change nothing. |
| Tracker.PostsExact | pool_detector.py:255-263 | Posts and resets read off the snapshots alone: one post for each snapshot whose highest number differs from the one before, for that number. |
| Tracker.PostsIncrease | pool_detector.py:261-263 | Between two resets the posted numbers strictly increase over the whole run. |
| Tracker.OncePerReset | pool_detector.py:247-269 | With arbitrary snapshots a frame number is processed at most once in every stretch between resets. |
| Tracker.GrowingNeverDrops | pool_detector.py:243-246 | While files are only added, the highest number on disk never falls. |
| Tracker.ProcessedIff | pool_detector.py:247-269 | While the highest number never falls: frame f is processed, and then once, if and only if the first snapshot that reaches f shows f. |
| Tracker.SessionGapFree | pool_detector.py:242-255 | With prefix snapshots no reset fires and the trace is 0, 1, ..., `last_processed` at every point. |
| Tracker.SessionFrom | pool_detector.py:247-269 | Whatever was processed before: a session whose folder only grows is processed from frame 0 if nothing was, or if its first non-empty listing stays below `last_processed`, which is then the one reset; otherwise from `last_processed` + 1; without gaps from there on. |
| Tracker.LowestTestAlwaysResets | pool_detector.py:244-246 | In any growing session, probing the lowest number instead would reset at exactly those scans that come after one with two frames or more, and process the whole folder again at each of them. |
| Protocol.ListingIsGlob | pool_detector.py:239-247 | What the interleaved model takes for a listing is what any answer of glob becomes when sorted and parsed. |
| Protocol.Invariant | pool_detector.py:232-269 | The invariant of every interleaved run: the batch runs on from `last_processed` to the highest number listed; per session, own reads are consecutive from where the session is taken up, stale reads ascend and stay below what was listed before. |
| Guarantees.TimesReadExact | pool_detector.py:247-269 | How often each frame of each session is processed, in any run: once if it lies in the session's consecutive stretch, and once more if a left-over batch read it. |
| Guarantees.AtMostTwice | pool_detector.py:239-269 | With a clear between any two steps: at most twice, at most once if no batch spanned the opening of the session; twice are the frames that the left-over batch read and that the session's own reads, starting at 0 after a reset, have reached. |
| Guarantees.TwiceIff | pool_detector.py:247-269 | For a session read to the end of what was listed of it: frame f is processed twice if and only if some step took f from the session before its first listing, the reset test fired at that listing, and f has been listed. |
| Guarantees.StaleIff | pool_detector.py:252-257 | What a left-over batch reads of a session are the frames it finds present there before the session is first listed, in any run. |
| Guarantees.ExactLoss | pool_detector.py:241-269 | For a session opened between batches, with L the highest number listed before, m and h the highest of its first and latest listing: frames 0..h once each in order if m < L, otherwise L+1..h once each in order and 0..L never. |
| Guarantees.LostIff | pool_detector.py:247-269 | For every session read to the end of what was listed, also one that opened in the middle of a batch: frame f is lost if and only if f is at most the highest number L listed before, the first listing reaches L, and no step took f before that listing; it is processed exactly once if and only if it is passed over and was taken so, or neither. |
| Guarantees.NothingLostIff | pool_detector.py:252-255 | Every frame of such a session is processed exactly once if and only if those passed over are those taken before its first listing; if it opened between batches, if and only if that listing lies below everything listed before, or nothing was listed before. |
| Guarantees.LossExample | pool_detector.py:247-250 | A run of eight steps in which a complete frame of a new session is passed over. |
| Guarantees.TwiceExample | pool_detector.py:247-269 | A run in which one frame is processed twice: the bound two is attained. |
| Guarantees.NoFalseReset | pool_detector.py:242-250 | A listing below `last_processed` occurs only after a clear, and only as the first non-empty listing of the new session. |
| Guarantees.WithinCapacity | pool_detector.py:239 | In no run, with any number of clears, is a frame number of 100000 or more processed; that the listings end there is the pattern's doing (`Protocol.ListingIsGlob`). |
| Guarantees.FirstSessionInOrder | pool_detector.py:252-269 | Before the first clear the i-th frame processed is frame i, and the annotated frames are exactly those that loaded. |
| Guarantees.AnnotatedUnbrokenIff | pool_detector.py:90-98 | Before the first clear every frame up to `last_processed` is annotated if and only if each was completely written when the detector turned to it; the usable prefix ends at the first that was not. |
| Guarantees.BrokenExample | pool_detector.py:90-98 | A run that processes frame 0 while it is being written and leaves it out of the annotated folder for good, although it is completed and listed again. |
| Guarantees.NeverRetried | pool_detector.py:252-269 | A frame that did not load stays out of the annotated folder, and the usable prefix stays where it is, in every continuation without a clear. |
| Video.AnnotatedIsPictures | pool_detector.py:90-98 | In every run the annotated folder holds at any time the frames of the session under way that were processed and loaded, and nothing else. |
| Video.UnbrokenIff | pool_detector.py:95-98 | For every session read to the end of what was listed, also one that opened in the middle of a batch: there is a picture of every frame listed if and only if no frame is lost and every frame processed was complete on one of those occasions. |
| Video.SessionUnbrokenIff | pool_detector.py:252-254 | For a session that opened between batches: there is a picture of every frame listed if and only if its first listing lies below everything listed before, or nothing was listed before, and every frame was complete at its turn; if the test does not fire and something was listed before, the sequence lacks its first frame. |
| Video.FolderUnbrokenIff | pool_detector.py:252-254 | The same of the annotated folder itself, at any moment between batches. |
| Video.GapExample | pool_detector.py:247-254 | A run with a session change in which every frame is complete at its turn and the annotated sequence lacks frame 0. |
| Guarantees.BatchIsScan | pool_detector.py:247-269 | A listing followed by its whole batch without interference does what one scan of the tracker does: same frames in order, same reset, same `last_processed`, and its last frame is the one posted. |
| Guarantees.RoundsAreScans | pool_detector.py:232-269 | Over whole runs whose batches are not disturbed, whatever the server does between them: the interleaved run is the tracker's run over its listings, with as many resets as there are sessions for which the test fired. |
| Guarantees.RoundsAreRun | pool_detector.py:232-269 | These runs are among the interleaved ones, so that all the other guarantees hold of them. |
| Morphology.CleanUpMonotone | pool_detector.py:123-130 | A larger mask stays larger under opening and closing, for any kernel, on any frame. |
| Morphology.Adjunction | pool_detector.py:119-130 | Erosion and the dilation by the same block are adjoint on every frame. |
| Morphology.OpenRemovesCloseAdds | pool_detector.py:119-130 | The ideal opening only removes pixels and the ideal closing only adds some. |
| Morphology.IdealCleanUpIdempotent | pool_detector.py:119-130 | The ideal clean-up, applied again, changes nothing, for every mask, frame and kernel. |
| Morphology.OddCleanUpIdempotent | pool_detector.py:119-130 | With an odd kernel the code's clean-up is the ideal one on every frame: opening removes, closing adds, a second pass changes nothing. |
| Morphology.CleanUpDrifts | pool_detector.py:48-50 | For any kernel, on the plane, opening, closing and clean-up are the ideal ones moved by a fixed distance: none for odd sizes, one, one and two pixels per axis for even ones. |
| Morphology.SecondPassMoves | pool_detector.py:119-130 | A second pass of the clean-up moves the outcome of the first by the same distance and does nothing else. |
| Morphology.RestoresIff | pool_detector.py:119-130 | On the plane the clean-up agrees with the ideal one if and only if the kernel is odd or the block fits nowhere in the mask. |
| Morphology.IdempotentIff | pool_detector.py:119-130 | On the plane a second pass changes nothing if and only if the kernel is odd or the block fits nowhere in the mask. |
| Morphology.FrameDrifts | pool_detector.py:123-130 | In a real frame a mask one kernel size away from the border comes out as from the ideal filter, moved by two pixels per axis for an even kernel. |
| Morphology.FrameRestoresIff | pool_detector.py:123-130 | In a real frame, under the same condition on the border, the blob stays in place if and only if the kernel is odd or the block fits nowhere. |
| Morphology.RectangleDrifts | pool_detector.py:123-130 | A rectangle at least as large as the kernel and one kernel size from the border comes out with the same size, two pixels further right and down for an even kernel. |
| Morphology.DriftExample | pool_detector.py:48-50 | With the default kernel a 30 x 30 blob at (100, 100) of a 640 x 480 frame comes out at (102, 102). |
| Detection.LargestContour | pool_detector.py:139-155 | Filtering by area and then taking the maximum gives the earliest of the overall largest contours if it is large enough, and nothing exactly if all are too small. |
| Detection.RaisingMinimum | pool_detector.py:139-155 | Raising the minimum area keeps the same blob as long as it is large enough, and otherwise finds none. The work is in `LargestContour`, whose loops filter first and maximise then; this follows from its specification. |
| Detection.ReportedIff | pool_detector.py:83-175 | A pool is reported if and only if both reads succeed and some contour has the minimum area; the circle is then that of the earliest contour of overall largest area, and otherwise 0, 0 and 0. Again the work is in `LargestContour`. |
| Detection.AnnotationIs | pool_detector.py:90-168 | A picture is left exactly of a frame that loads; it is the colour frame, as it came if nothing is reported, otherwise with the circle of the earliest contour of overall largest area. |
| Detection.BrightIs | pool_detector.py:105-108 | The thresholded mask consists of exactly those pixels of the image that are brighter than the threshold. |
| Detection.MaskIsMoved | pool_detector.py:103-134 | Whatever shape the pixels of the blurred frame above the threshold have: clear of the border, contours are traced on what the ideal clean-up makes of them, moved by two pixels for an even kernel. |
| Detection.RectangleMask | pool_detector.py:103-134 | A bright rectangle at least as large as the morphological kernel reaches the contours with its size unchanged. |
| Detection.SpecksVanish | pool_detector.py:119-123 | If the block finds a pixel not above the threshold wherever it is laid, contours are traced on an empty mask, on any frame, up to the border. |
| Detection.SpecksNotReported | pool_detector.py:119-137 | Then nothing is reported and the frame is annotated as it came. |
| Detection.RectangleReported | pool_detector.py:103-175 | One bright rectangle as above is reported with the circle around it, moved by two pixels for an even kernel, if it has the minimum area; otherwise nothing is reported. |
| Detection.ComponentGrows | pool_detector.py:132-134 | A connected region of a smaller mask lies inside one region of the larger mask. |
| Detection.LoweringThresholdKeepsPool | pool_detector.py:105-150 | A pool found at one threshold is found at every lower one, for every frame, blur, kernel and minimum area. |
| Detection.CriticalThreshold | README.md:232 | Each 8-bit frame has one critical threshold, at most 255: the pool is found below it and not from it on. |
| Configuration.SettingsProvenance | pool_detector.py:199-217 | Each of the four settings is the value supplied by the latest fetch that supplied one, or the default; failed fetches and missing fields change nothing. |
| Configuration.TimerPaced | pool_detector.py:233-236 | Fetches start at the first test at which ten seconds have passed since the end of the one before, and at no other, whatever the clock does. |
| Configuration.FetchesIff | pool_detector.py:232-236 | The next iteration fetches if and only if at least 10.0 seconds have passed between the end of the latest fetch and its test. |
| Configuration.ExcessBelowOneRound | pool_detector.py:232-236 | The wait is at least ten seconds and exceeds them by less than one loop iteration. |
| Configuration.ChangeDelay | README.md:217 | A change made between two fetches is in effect less than the interval, one iteration and one fetch later; in time exactly if it leaves, after the first fetch, what the second test is late and the second fetch takes; always so once an iteration and a fetch have passed. |
| Configuration.AlwaysInTimeIff | README.md:217 | All changes that one fetch picks up are fetched within the interval if and only if its test comes exactly at the interval, and in effect within it if and only if, besides, the fetch takes no time. |
| Configuration.PromiseKeptIff | README.md:217 | Over a whole run every change that one of its fetches picks up, made between two fetches, is in effect within the interval if and only if every fetch starts exactly at the interval and takes no time. |
| Configuration.LateChange | README.md:217 | A run in which a change made at the start waits longer than ten seconds even for the test. |
| Machine.WatchedIsRun | pool_detector.py:232-269 | The whole loop, on five-digit names, never raises and runs the tracker on the numbers listed. |
| Machine.SessionResumed | pool_detector.py:238-269 | From file names to trace, with the loop in any state: a session that adds frames to a cleared folder is processed as `Tracker.SessionFrom` says, and nothing raises. |
| Machine.SessionEndToEnd | pool_detector.py:238-269 | From file names to trace: over a session in which the server adds frames, every frame below the count and below 100000 is processed once, in order, without a reset. |
| Machine.CrashIff | pool_detector.py:247-255 | A scan raises if and only if some listed name has no number, and then it processes, posts and annotates nothing. |
| Machine.CrashExample | pool_detector.py:239-247 | `frame_abcde.jpg` is found by the pattern and stops the scan, whatever else is in the folder. |
| Machine.SettingsFromFetches | pool_detector.py:227-269 | In every run the settings are what the fetches so far make of the defaults, and all frames of an iteration are judged by the same ones. |
| Runs.FetchesAreAnswers | pool_detector.py:227-236 | In every run that has not raised, the fetches are the answer at start-up and then those given in the iterations in which a fetch was due. |
| Runs.SettingsFollowAnswers | pool_detector.py:42-53 | Each setting of such a run is the value supplied last by those answers, and 200, 7, 8 and 700 as long as none has supplied it. |
| Runs.RunJudged | pool_detector.py:257-263 | In every run over five-digit names: one record per frame processed and one report per post; each is the verdict on the frame of that number as it was read, by the settings in force after the fetch of the same iteration. |
| Runs.CrashStops | pool_detector.py:232-271 | After an exception nothing changes any more. |
| Machine.FetchesPaced | pool_detector.py:227-236 | In every run that has not raised, the fetches follow the timer, plus the one at start-up. |
| Machine.ItemMeaning | pool_detector.py:84-175 | A frame leaves a picture, under its own name, exactly when it loaded, with a circle exactly when a pool was found; the picture is that of `AnnotationIs`, and what is passed on is the verdict on this frame. |
| Machine.AnnotatedExactly | pool_detector.py:84-168 | After a batch without name clashes the annotated folder holds what it held before, overwritten or extended by exactly the pictures of the batch. |
| Pictures.BatchKeysDistinct | pool_detector.py:84 | No two five-digit frames of a batch are annotated under the same name. |
| Pictures.ScanExtends | pool_detector.py:238-269 | A scan of any five-digit listing puts into the annotated folder the pictures, under the settings in force, of those frames above the base that load, and touches nothing else. |
| Pictures.SessionPictured | pool_detector.py:84-269 | From file names to pictures, with the loop in any state: over a growing session the frames with a picture are exactly those, from where the session is taken up, that loaded in the first iteration to list them, each under its own name: the colour frame, with what that iteration's settings find in it; everything else in the folder is untouched. |
| Pictures.UnbrokenIff | pool_detector.py:95-98 | With the loop in any state and an empty folder: the pictures of a session are numbered without a gap if and only if nothing was processed before or the first non-empty listing stays below `last_processed`, and every frame loads in the iteration that lists it first. |
| Machine.LoopIsProcessed | pool_detector.py:257-269 | The batch loop, turn by turn with a post in the last one, adds up to the effect of the batch as a whole. |
| Detector.Detector.constructor | pool_detector.py:42-53 | Start-up: 200, 7, 8 and 700 if the one fetch fails, otherwise with the fields it supplied in their place; nothing processed. |
| Detector.Detector.FetchSettings | pool_detector.py:199-217 | The four globals after a fetch: the supplied fields replace them, a failure replaces none; nothing else changes. |
| Detector.Detector.DetectPool | pool_detector.py:72-175 | The verdict is the one on the earliest overall largest blob, and each of the three exits after loading leaves its picture, the one before loading none. |
| Detector.Detector.ProcessBatch | pool_detector.py:257-269 | The loop with its name comparison processes every file, posts exactly the last one and moves `last_processed` along. |
| Detector.Detector.Poll | pool_detector.py:238-269 | One scan of the folder, for any listing without repetitions, including names that raise. |
| Detector.Detector.Iterate | pool_detector.py:232-271 | One pass of the loop: settings when due, then the scan; nothing after an exception. |
| Detector.Detector.Watch | pool_detector.py:220-271 | Any finite number of passes through the loop. |
| Detector.WatchSession | pool_detector.py:220-271 | The program from its start through a session: no exception, every visible frame once and in order, no reset, and pictures of exactly the frames that loaded in time, each showing its own frame in colour; records and posts are the verdicts on their frames, and the settings come from the dashboard's answers. |
| Detector.WatchNextSession | pool_detector.py:232-271 | The program run on over another session, from any state with an emptied folder: no exception, and no gap in the pictures under exactly the condition of `Pictures.UnbrokenIff`. |

## Left out

- HTTP, JSON and printing: a post is an entry in the history, a fetch an optional record of optional fields. A field that is
  present with a null or with another type than a number is not modelled.
- File system and image files: a read either loads or does not, and writing a picture succeeds. In `Protocol.dfy` the two
  reads of one frame, in grey and in colour, are one step; in `Detection.dfy` they are separate.
- Blur, contour tracing, contour area and enclosing circle are parameters; rounding of centre and radius and the drawing
  itself are not modelled. Exceptions of the image library for kernel sizes it rejects, and its substitute for size 0, are
  not modelled either.
- The debug mask, the pause between two scans, and the end of the process by a signal.
- `os.path.basename` with `/` as the only separator, and `int` on ASCII text only.
- Binary floating point: clock values and areas are real numbers.
- The server, the dashboard and the stitching of the video, except for what the assumptions above say; a clear that removes
  the files one by one, and spares those numbered from 100000 on, is modelled as one that empties both folders at once.
- Even kernels on masks close to the border of a frame: there the two dilations are cut off differently, and only
  monotonicity is proved.
- A setting changed while a fetch is under way: `ChangeDelay` covers changes from the end of one fetch to the test that starts
  the next.
