/** `pool_detector.py` as it runs: its module globals, the variables of its loop, and the folder it writes. */
module Detector {
  import opened Common
  import opened Configuration
  import opened Detection
  import opened FrameNames
  import opened Tracker
  import opened Machine
  import opened Pictures
  import opened Runs

  /** Everything that has happened, for the specification only. */
  datatype History = History(
    trace: seq<int>, posts: seq<Post>, resets: nat, records: seq<Record>, reports: seq<Detection>,
    fetches: seq<Option<Reply>>, attempts: seq<nat>, rounds: nat)

  class Detector {
    const vision: Vision

    // the tunable globals
    var threshold: int
    var blurKernel: int
    var morphKernel: int
    var minBlobArea: int

    // the variables of main
    var lastProcessed: int
    var lastSettingsFetch: real
    var crashed: bool

    // the folder annotated/
    var annotated: map<string, Picture>

    ghost var history: History

    function Current(): Settings
      reads this
    {
      Settings(threshold, blurKernel, morphKernel, minBlobArea)
    }

    ghost function View(): Machine
      reads this
    {
      var h := history;
      Machine(Current(), Timer(lastSettingsFetch, h.attempts, h.rounds),
              Track(lastProcessed, h.trace, h.posts, h.resets),
              crashed, annotated, h.records, h.reports, h.fetches)
    }

    /** Start-up: the defaults, one fetch, and nothing processed. */
    constructor (vision: Vision, reply: Option<Reply>, now: real, folder: map<string, Picture>)
      ensures View() == Initial(reply, now, folder) && this.vision == vision
      ensures reply.None? ==> Current() == Settings(200, 7, 8, 700)
      ensures reply.Some? ==>
        && threshold == Or(reply.value.threshold, 200) && blurKernel == Or(reply.value.blurKernel, 7)
        && morphKernel == Or(reply.value.morphKernel, 8) && minBlobArea == Or(reply.value.minArea, 700)
      ensures lastProcessed == -1 && !crashed && annotated == folder && history.fetches == [reply]
    {
      this.vision := vision;
      threshold, blurKernel := DEFAULTS.threshold, DEFAULTS.blurKernel;
      morphKernel, minBlobArea := DEFAULTS.morphKernel, DEFAULTS.minArea;
      lastProcessed, lastSettingsFetch, crashed, annotated := -1, now, false, folder;
      history := History([], [], 0, [], [], [], [], 0);
      new;
      FetchSettings(reply);
      assert history.fetches == [reply];
    }

    /** fetch_settings: a failure leaves the four globals alone, an answer overwrites the ones it names. */
    method FetchSettings(reply: Option<Reply>)
      modifies this
      ensures View() ==
        old(View()).(settings := Update(old(Current()), reply), fetches := old(history).fetches + [reply])
    {
      match reply {
        case None =>
        case Some(r) =>
          threshold := Or(r.threshold, threshold);
          blurKernel := Or(r.blurKernel, blurKernel);
          morphKernel := Or(r.morphKernel, morphKernel);
          minBlobArea := Or(r.minArea, minBlobArea);
      }
      history := history.(fetches := history.fetches + [reply]);
    }

    /** detect_pool: the verdict, and the annotated picture for every frame that loads. */
    method DetectPool(path: string, shot: Shot) returns (result: Detection)
      modifies this`annotated
      ensures result == Verdict(vision, Current(), shot)
      ensures annotated ==
        match Annotation(vision, Current(), shot)
        case None => old(annotated)
        case Some(picture) => old(annotated)[AnnotatedPath(path) := picture]
    {
      if shot.gray.None? || shot.color.None? {
        return NO_DETECTION;
      }
      var contours := Contours(vision, Current(), shot.gray.value);
      var best := LargestContour(vision.area, contours, minBlobArea as real);
      if best.None? {
        annotated := annotated[AnnotatedPath(path) := Raw(shot.color.value)];
        return NO_DETECTION;
      }
      var circle := vision.circle(best.value);
      annotated := annotated[AnnotatedPath(path) := Circled(shot.color.value, circle)];
      return Detection(true, circle);
    }

    /** One turn of the batch loop. */
    method ProcessFrame(file: string, shot: Shot, post: bool)
      requires GetFrameNumber(file).Some?
      modifies this
      ensures View() == Stepped(old(View()), ItemOf(vision, old(Current()), file, shot), post)
    {
      var number := GetFrameNumber(file).value;
      var result := DetectPool(file, shot);
      lastProcessed := number;
      history := history.(trace := history.trace + [number], records := history.records + [Record(Current(), result)]);
      if post {
        history := history.(posts := history.posts + [Post(history.resets, number)],
                            reports := history.reports + [result]);
      }
    }

    /** Every new file in order, a post for the last one only, last_processed after each. */
    method ProcessBatch(newFiles: seq<string>, camera: string -> Shot)
      requires AllParse(newFiles) && Distinct(newFiles)
      modifies this
      ensures View() == Processed(old(View()), Items(vision, old(Current()), newFiles, camera))
    {
      ghost var before, items := View(), Items(vision, Current(), newFiles, camera);
      for i := 0 to |newFiles|
        invariant View() == LoopState(before, items, i)
      {
        LoopStep(before, items, i);
        ProcessFrame(newFiles[i], camera(newFiles[i]), newFiles[i] == newFiles[|newFiles| - 1]);
      }
    }

    /** The batch loop over the listed files numbered above last_processed. */
    method ProcessNew(files: seq<string>, camera: string -> Shot)
      requires Distinct(files)
      modifies this
      ensures View() == Selected(vision, old(View()), files, camera)
    {
      if !AllParse(files) {
        crashed := true;
        return;
      }
      ParsePart(files, lastProcessed);
      KeepDistinct(files, Numbers(files), lastProcessed);
      ProcessBatch(NewFiles(files, lastProcessed), camera);
    }

    /** The reset test. */
    method TestForReset(highest: int)
      modifies this
      ensures View() == old(View()).(track := ResetIfBelow(old(View()).track, highest))
    {
      if highest < lastProcessed {
        history := history.(resets := history.resets + 1);
        lastProcessed := -1;
      }
    }

    /** The reset test on the last file, then the new files. */
    method ScanFiles(files: seq<string>, camera: string -> Shot)
      requires Distinct(files)
      modifies this
      ensures View() == ScannedFiles(vision, old(View()), files, camera)
    {
      if files == [] {
        return;
      }
      var highest := GetFrameNumber(files[|files| - 1]);
      if highest.None? {
        crashed := true;
        return;
      }
      TestForReset(highest.value);
      ProcessNew(files, camera);
    }

    /** One scan of the folder. */
    method Poll(listing: seq<string>, camera: string -> Shot)
      requires Distinct(listing)
      modifies this
      ensures View() == Scanned(vision, old(View()), listing, camera)
    {
      SortDistinct(listing);
      ScanFiles(Sort(listing), camera);
    }

    /** Fetch the settings when they are due. */
    method Refresh(tick: Tick, reply: Option<Reply>)
      modifies this
      ensures View() == Refreshed(old(View()), tick, reply)
    {
      if tick.check - lastSettingsFetch >= INTERVAL {
        FetchSettings(reply);
        lastSettingsFetch := tick.done;
        history := history.(attempts := history.attempts + [history.rounds]);
      }
      history := history.(rounds := history.rounds + 1);
    }

    /** One pass of the loop: settings first, then the folder. */
    method Iterate(input: Input)
      requires Distinct(input.listing)
      modifies this
      ensures View() == Iterated(vision, old(View()), input)
    {
      if crashed {
        return;
      }
      Refresh(input.tick, input.reply);
      Poll(input.listing, input.camera);
    }

    /** The loop, for any finite number of iterations. */
    method Watch(inputs: seq<Input>)
      requires forall i | 0 <= i < |inputs| :: Distinct(inputs[i].listing)
      modifies this
      ensures View() == Watched(vision, old(View()), inputs)
    {
      for i := 0 to |inputs|
        invariant View() == Watched(vision, old(View()), inputs[..i])
      {
        assert inputs[..i + 1][..i] == inputs[..i];
        Iterate(inputs[i]);
      }
      assert inputs[..|inputs|] == inputs;
    }
  }

  lemma ListsDistinct(inputs: seq<Input>, counts: seq<nat>)
    requires ListsServer(inputs, counts)
    ensures forall i | 0 <= i < |inputs| :: Distinct(inputs[i].listing)
  {
    forall i | 0 <= i < |inputs| ensures Distinct(inputs[i].listing) {
      assert Globs(ServerFolder(counts[i]), inputs[i].listing);
    }
  }

  /**
   * The program run over one session: it does not raise, processes every frame that the pattern can find, once and in
   * order, and has left a picture of exactly those that loaded in time. What it has recorded and posted are its
   * verdicts on the frames in question, and its settings come from the dashboard's answers.
   */
  method WatchSession(vision: Vision, reply: Option<Reply>, now: real, folder: map<string, Picture>,
                      inputs: seq<Input>, ghost counts: seq<nat>) returns (d: Detector)
    requires ListsServer(inputs, counts) && Nondecreasing(counts)
    ensures !d.crashed
    ensures d.lastProcessed + 1 == if counts == [] then 0 else Visible(counts[|counts| - 1])
    ensures d.history.trace == Range(0, d.lastProcessed + 1) && d.history.resets == 0
    ensures forall key :: key in d.annotated <==> key in folder || LoadsAt(inputs, counts, 0, key)
    ensures forall n: nat, i: nat | LoadsIn(inputs, counts, 0, n, i) ::
      Shows(d.annotated, vision, Initial(reply, now, folder), inputs, n, i)
    ensures d.View() == Watched(vision, Initial(reply, now, folder), inputs)
    ensures AllJudged(vision, Initial(reply, now, folder), inputs)
    ensures Answered(d.View(), reply, now, inputs)
  {
    d := new Detector(vision, reply, now, folder);
    ghost var start := d.View();
    ListsDistinct(inputs, counts);
    d.Watch(inputs);
    SessionEndToEnd(vision, start, inputs, counts);
    SessionPictured(vision, start, inputs, counts);
    SnapsOfServer(inputs, counts);
    RunJudged(vision, start, inputs);
    FetchesAreAnswers(vision, reply, now, folder, inputs);
  }

  /**
   * The program run on, over the next session: the server has emptied the folder, and what the program leaves there is
   * numbered without a gap exactly when the reset test fires, or nothing was processed before, and every frame loads.
   */
  method WatchNextSession(d: Detector, inputs: seq<Input>, ghost counts: seq<nat>)
    requires !d.crashed && d.lastProcessed >= -1 && d.annotated == map[]
    requires ListsServer(inputs, counts) && Nondecreasing(counts) && counts != [] && counts[|counts| - 1] > 0
    modifies d
    ensures !d.crashed && d.lastProcessed + 1 == Visible(counts[|counts| - 1])
    ensures Unbroken(d.annotated, Visible(counts[|counts| - 1]))
      <==> FromTheStart(old(d.lastProcessed), counts) && AllLoadInTime(inputs, counts)
  {
    ghost var start := d.View();
    ListsDistinct(inputs, counts);
    d.Watch(inputs);
    SessionResumed(d.vision, start, inputs, counts);
    UnbrokenIff(d.vision, start, inputs, counts);
  }
}
