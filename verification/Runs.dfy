/** Whole runs of the detector: what it reports, and how the dashboard's answers get into its settings. */
module Runs {
  import opened Common
  import opened Configuration
  import opened Detection
  import opened FrameNames
  import opened Tracker
  import opened Machine
  import opened Pictures

  // ---------- what is reported ----------

  /** There is one record for each frame processed, and one report for each post. */
  predicate Aligned(m: Machine) { |m.records| == |m.track.trace| && |m.reports| == |m.track.posts| }

  /** d is the verdict on frame n as the camera shows it. */
  ghost predicate VerdictOn(v: Vision, s: Settings, camera: string -> Shot, n: int, d: Detection) {
    n >= 0 && d == Verdict(v, s, camera(FramePath(n)))
  }

  /** m' has the history of m and possibly more. */
  predicate Extends(m: Machine, m': Machine) {
    && m.records <= m'.records && m.track.trace <= m'.track.trace
    && m.reports <= m'.reports && m.track.posts <= m'.track.posts
  }

  /** What m' has more than m: verdicts, under these settings, on the frames processed and on the frames posted. */
  ghost predicate Added(v: Vision, s: Settings, camera: string -> Shot, m: Machine, m': Machine)
    requires Aligned(m')
  {
    && Extends(m, m')
    && (forall k | |m.records| <= k < |m'.records| ::
          m'.records[k].settings == s && VerdictOn(v, s, camera, m'.track.trace[k], m'.records[k].detection))
    && (forall k | |m.reports| <= k < |m'.reports| ::
          VerdictOn(v, s, camera, m'.track.posts[k].number, m'.reports[k]))
  }

  ghost predicate Judged(v: Vision, s: Settings, camera: string -> Shot, items: seq<Item>) {
    forall i | 0 <= i < |items| :: VerdictOn(v, s, camera, items[i].number, items[i].detection)
  }

  lemma ItemsJudged(v: Vision, s: Settings, files: seq<string>, camera: string -> Shot)
    requires AllParse(files) && DigitPaths(files)
    ensures Judged(v, s, camera, Items(v, s, files, camera))
  {
    var items := Items(v, s, files, camera);
    forall i | 0 <= i < |items| ensures VerdictOn(v, s, camera, items[i].number, items[i].detection) {
      DigitItem(v, s, files[i], camera(files[i]));
    }
  }

  lemma RecordsJudged(v: Vision, s: Settings, camera: string -> Shot, items: seq<Item>, trace: seq<int>,
                      records: seq<Record>, k: nat)
    requires |trace| == |records| <= k < |records| + |items| && Judged(v, s, camera, items)
    ensures var record := (records + Records(s, items))[k];
      record.settings == s && VerdictOn(v, s, camera, (trace + ItemNumbers(items))[k], record.detection)
  {
    var i := k - |records|;
    assert VerdictOn(v, s, camera, items[i].number, items[i].detection);
  }

  lemma ProcessedAdds(v: Vision, m: Machine, items: seq<Item>, camera: string -> Shot)
    requires Aligned(m) && Judged(v, m.settings, camera, items)
    ensures Aligned(Processed(m, items)) && Added(v, m.settings, camera, m, Processed(m, items))
  {
    if items == [] {
    } else {
      var m' := Processed(m, items);
      forall k | |m.records| <= k < |m'.records|
        ensures m'.records[k].settings == m.settings
        ensures VerdictOn(v, m.settings, camera, m'.track.trace[k], m'.records[k].detection)
      {
        RecordsJudged(v, m.settings, camera, items, m.track.trace, m.records, k);
      }
      var last := items[|items| - 1];
      assert VerdictOn(v, m.settings, camera, last.number, last.detection);
      assert Highest(ItemNumbers(items)) == last.number;
    }
  }

  lemma SelectedAdds(v: Vision, m: Machine, files: seq<string>, camera: string -> Shot)
    requires Aligned(m) && AllParse(files) && DigitPaths(files) && Distinct(files)
    ensures Aligned(Selected(v, m, files, camera))
    ensures Added(v, m.settings, camera, m, Selected(v, m, files, camera))
  {
    var batch := NewFiles(files, m.track.last);
    ParsePart(files, m.track.last);
    KeepDistinct(files, Numbers(files), m.track.last);
    assert forall i | 0 <= i < |batch| :: batch[i] in files;
    ItemsJudged(v, m.settings, batch, camera);
    ProcessedAdds(v, m, Items(v, m.settings, batch, camera), camera);
  }

  lemma ScanAdds(v: Vision, m: Machine, listing: seq<string>, camera: string -> Shot)
    requires Aligned(m) && DigitListing(listing)
    ensures Aligned(Scanned(v, m, listing, camera))
    ensures Added(v, m.settings, camera, m, Scanned(v, m, listing, camera))
  {
    var files := Sort(listing);
    SortedPaths(listing);
    if files == [] {
    } else {
      SelectedAfterReset(v, m, files, camera);
      SelectedAdds(v, AfterReset(m, files), files, camera);
    }
  }

  /** The settings an iteration judges by are those it has fetched itself, if it has. */
  lemma IterationAdds(v: Vision, m: Machine, input: Input)
    requires Aligned(m) && DigitListing(input.listing)
    ensures var m' := Iterated(v, m, input);
      Aligned(m') && Added(v, m'.settings, input.camera, m, m')
  {
    if !m.crashed {
      var r := Refreshed(m, input.tick, input.reply);
      ScanAdds(v, r, input.listing, input.camera);
      ScannedKeepsSettings(v, r, Sort(input.listing), input.camera);
    }
  }

  lemma ExtendsTransitive(m: Machine, m': Machine, m'': Machine)
    requires Extends(m, m') && Extends(m', m'')
    ensures Extends(m, m'')
  {
  }

  /** One iteration has led from `before` to `after` as Added says, and all that is still there at the end. */
  ghost predicate Turn(v: Vision, camera: string -> Shot, before: Machine, after: Machine, end: Machine) {
    Aligned(after) && Added(v, after.settings, camera, before, after) && Extends(after, end)
  }

  lemma TurnStays(v: Vision, camera: string -> Shot, before: Machine, after: Machine, end: Machine, end': Machine)
    requires Turn(v, camera, before, after, end) && Extends(end, end')
    ensures Turn(v, camera, before, after, end')
  {
    ExtendsTransitive(after, end, end');
  }

  /**
   * Iteration i has judged the frames it processed as it has read them and by the settings in force after its own
   * fetch, and has reported its verdict on the frame it posted.
   */
  ghost predicate JudgedInTurn(v: Vision, m: Machine, inputs: seq<Input>, i: nat)
    requires i < |inputs|
  {
    Turn(v, inputs[i].camera, Watched(v, m, inputs[..i]), Watched(v, m, inputs[..i + 1]), Watched(v, m, inputs))
  }

  ghost predicate AllInTurn(v: Vision, m: Machine, inputs: seq<Input>, n: nat)
    requires n <= |inputs|
  {
    forall i: nat | i < n :: JudgedInTurn(v, m, inputs, i)
  }

  ghost predicate AllJudged(v: Vision, m: Machine, inputs: seq<Input>) {
    && Aligned(Watched(v, m, inputs)) && Extends(m, Watched(v, m, inputs))
    && AllInTurn(v, m, inputs, |inputs|)
  }

  lemma LatestJudged(v: Vision, m: Machine, inputs: seq<Input>)
    requires inputs != [] && DigitInputs(inputs) && Aligned(Watched(v, m, inputs[..|inputs| - 1]))
    ensures Aligned(Watched(v, m, inputs)) && JudgedInTurn(v, m, inputs, |inputs| - 1)
    ensures Extends(Watched(v, m, inputs[..|inputs| - 1]), Watched(v, m, inputs))
  {
    var n := |inputs| - 1;
    IterationAdds(v, Watched(v, m, inputs[..n]), inputs[n]);
    assert inputs[..n + 1] == inputs;
  }

  lemma JudgedStays(v: Vision, m: Machine, inputs: seq<Input>, i: nat)
    requires i < |inputs| - 1 && JudgedInTurn(v, m, inputs[..|inputs| - 1], i)
    requires Extends(Watched(v, m, inputs[..|inputs| - 1]), Watched(v, m, inputs))
    ensures JudgedInTurn(v, m, inputs, i)
  {
    var before := inputs[..|inputs| - 1];
    assert before[..i] == inputs[..i] && before[..i + 1] == inputs[..i + 1] && before[i] == inputs[i];
    TurnStays(v, inputs[i].camera, Watched(v, m, inputs[..i]), Watched(v, m, inputs[..i + 1]),
              Watched(v, m, before), Watched(v, m, inputs));
  }

  lemma EarlierJudged(v: Vision, m: Machine, inputs: seq<Input>)
    requires inputs != [] && AllInTurn(v, m, inputs[..|inputs| - 1], |inputs| - 1)
    requires Extends(Watched(v, m, inputs[..|inputs| - 1]), Watched(v, m, inputs))
    ensures AllInTurn(v, m, inputs, |inputs| - 1)
  {
    forall i: nat | i < |inputs| - 1 ensures JudgedInTurn(v, m, inputs, i) {
      assert JudgedInTurn(v, m, inputs[..|inputs| - 1], i);
      JudgedStays(v, m, inputs, i);
    }
  }

  lemma JudgedStep(v: Vision, m: Machine, inputs: seq<Input>)
    requires inputs != [] && DigitInputs(inputs) && AllJudged(v, m, inputs[..|inputs| - 1])
    ensures AllJudged(v, m, inputs)
  {
    LatestJudged(v, m, inputs);
    EarlierJudged(v, m, inputs);
    ExtendsTransitive(m, Watched(v, m, inputs[..|inputs| - 1]), Watched(v, m, inputs));
  }

  /** In every run over five-digit names the records and reports of each iteration are its verdicts on those frames. */
  lemma {:induction false} RunJudged(v: Vision, m: Machine, inputs: seq<Input>)
    requires DigitInputs(inputs) && Aligned(m)
    ensures AllJudged(v, m, inputs)
  {
    if inputs == [] {
    } else {
      RunJudged(v, m, inputs[..|inputs| - 1]);
      JudgedStep(v, m, inputs);
    }
  }

  // ---------- what the dashboard answers ----------

  predicate InRange(attempts: seq<nat>, n: nat) { forall i | 0 <= i < |attempts| :: attempts[i] < n }

  /** The answer at start-up, then those given in the iterations that fetched. */
  function Answers(reply: Option<Reply>, inputs: seq<Input>, attempts: seq<nat>): seq<Option<Reply>>
    requires InRange(attempts, |inputs|)
  {
    [reply] + seq(|attempts|, i requires 0 <= i < |attempts| => inputs[attempts[i]].reply)
  }

  lemma AttemptsInRange(start: real, ticks: seq<Tick>)
    ensures InRange(RunTimer(start, ticks).attempts, |ticks|) && RunTimer(start, ticks).rounds == |ticks|
  {
    TimerPaced(start, ticks);
    var attempts := RunTimer(start, ticks).attempts;
    forall i | 0 <= i < |attempts| ensures attempts[i] < |ticks| {
      assert InTime(start, ticks, attempts, i);
    }
  }

  lemma AnswersGrow(reply: Option<Reply>, inputs: seq<Input>, attempts: seq<nat>, input: Input)
    requires InRange(attempts, |inputs|)
    ensures Answers(reply, inputs + [input], attempts) == Answers(reply, inputs, attempts)
    ensures Answers(reply, inputs + [input], attempts + [|inputs|]) == Answers(reply, inputs, attempts) + [input.reply]
  {
  }

  /** The timer has run over the clock's answers, and the fetches are the dashboard's when one was due. */
  ghost predicate Answered(m: Machine, reply: Option<Reply>, now: real, inputs: seq<Input>) {
    && m.timer == RunTimer(now, Ticks(inputs))
    && InRange(m.timer.attempts, |inputs|)
    && m.fetches == Answers(reply, inputs, m.timer.attempts)
  }

  lemma RefreshAnswered(m: Machine, reply: Option<Reply>, now: real, inputs: seq<Input>, input: Input)
    requires Answered(m, reply, now, inputs)
    ensures Answered(Refreshed(m, input.tick, input.reply), reply, now, inputs + [input])
  {
    AttemptsInRange(now, Ticks(inputs));
    AnswersGrow(reply, inputs, m.timer.attempts, input);
    assert Ticks(inputs + [input])[..|inputs|] == Ticks(inputs);
  }

  lemma ScanKeepsFetches(v: Vision, m: Machine, input: Input)
    requires !m.crashed
    ensures var m', r := Iterated(v, m, input), Refreshed(m, input.tick, input.reply);
      m'.fetches == r.fetches && m'.timer == r.timer
  {
    ScannedKeepsSettings(v, Refreshed(m, input.tick, input.reply), Sort(input.listing), input.camera);
  }

  lemma StartAnswered(reply: Option<Reply>, now: real, folder: map<string, Picture>)
    ensures Answered(Initial(reply, now, folder), reply, now, [])
  {
  }

  lemma IterationAnswered(v: Vision, m: Machine, reply: Option<Reply>, now: real, inputs: seq<Input>, input: Input)
    requires !m.crashed && Answered(m, reply, now, inputs)
    ensures Answered(Iterated(v, m, input), reply, now, inputs + [input])
  {
    RefreshAnswered(m, reply, now, inputs, input);
    ScanKeepsFetches(v, m, input);
  }

  lemma LastApart<T>(s: seq<T>)
    requires s != []
    ensures s[..|s| - 1] + [s[|s| - 1]] == s
  {
  }

  lemma AnsweredNext(v: Vision, m: Machine, reply: Option<Reply>, now: real, inputs: seq<Input>)
    requires inputs != [] && !Watched(v, m, inputs[..|inputs| - 1]).crashed
    requires Answered(Watched(v, m, inputs[..|inputs| - 1]), reply, now, inputs[..|inputs| - 1])
    ensures Answered(Watched(v, m, inputs), reply, now, inputs)
  {
    var before, input := inputs[..|inputs| - 1], inputs[|inputs| - 1];
    LastApart(inputs);
    IterationAnswered(v, Watched(v, m, before), reply, now, before, input);
  }

  lemma NotRaisedBefore(v: Vision, m: Machine, inputs: seq<Input>)
    requires inputs != [] && !Watched(v, m, inputs).crashed
    ensures !Watched(v, m, inputs[..|inputs| - 1]).crashed
  {
  }

  /** In a run that has not raised, the fetches are the answers that the dashboard gave when one was due. */
  lemma {:induction false} FetchesAreAnswers(v: Vision, reply: Option<Reply>, now: real,
                                             folder: map<string, Picture>, inputs: seq<Input>)
    requires !Watched(v, Initial(reply, now, folder), inputs).crashed
    ensures Answered(Watched(v, Initial(reply, now, folder), inputs), reply, now, inputs)
  {
    if inputs == [] {
      StartAnswered(reply, now, folder);
    } else {
      var n := |inputs| - 1;
      NotRaisedBefore(v, Initial(reply, now, folder), inputs);
      FetchesAreAnswers(v, reply, now, folder, inputs[..n]);
      AnsweredNext(v, Initial(reply, now, folder), reply, now, inputs);
    }
  }

  /**
   * The settings of a run follow the dashboard: each is the value supplied last by the answer at start-up or by that of
   * an iteration that fetched, and as long as none has supplied it, 200, 7, 8 and 700.
   */
  lemma SettingsFollowAnswers(v: Vision, reply: Option<Reply>, now: real, folder: map<string, Picture>,
                              inputs: seq<Input>)
    requires !Watched(v, Initial(reply, now, folder), inputs).crashed
    ensures var m := Watched(v, Initial(reply, now, folder), inputs);
      && Answered(m, reply, now, inputs)
      && var answers, s := Answers(reply, inputs, m.timer.attempts), m.settings;
         && Latest(s.threshold, Field(answers, (r: Reply) => r.threshold), 200)
         && Latest(s.blurKernel, Field(answers, (r: Reply) => r.blurKernel), 7)
         && Latest(s.morphKernel, Field(answers, (r: Reply) => r.morphKernel), 8)
         && Latest(s.minArea, Field(answers, (r: Reply) => r.minArea), 700)
  {
    FetchesAreAnswers(v, reply, now, folder, inputs);
    SettingsFromFetches(v, reply, now, folder, inputs);
    SettingsProvenance(DEFAULTS, Watched(v, Initial(reply, now, folder), inputs).fetches);
  }

  // ---------- after an exception ----------

  /** Once something has raised, nothing changes any more. */
  lemma {:induction false} CrashStops(v: Vision, m: Machine, inputs: seq<Input>, more: seq<Input>)
    requires Watched(v, m, inputs).crashed
    ensures Watched(v, m, inputs + more) == Watched(v, m, inputs)
  {
    if more == [] {
      assert inputs + more == inputs;
    } else {
      var n := |more| - 1;
      CrashStops(v, m, inputs, more[..n]);
      assert (inputs + more)[..|inputs| + n] == inputs + more[..n];
    }
  }
}
