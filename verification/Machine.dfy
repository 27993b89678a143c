/**
 * The detector process as a value: what one iteration of its loop does to its state and to annotated/, as a function of
 * everything the outside world answers in that iteration.
 */
module Machine {
  import opened Common
  import opened Configuration
  import opened Detection
  import opened FrameNames
  import opened Tracker

  /** One frame processed: the settings in force and the verdict. */
  datatype Record = Record(settings: Settings, detection: Detection)

  /** crashed: an exception has left the loop. records runs parallel to track.trace, reports to track.posts. */
  datatype Machine = Machine(
    settings: Settings,
    timer: Timer,
    track: Track,
    crashed: bool,
    annotated: map<string, Picture>,
    records: seq<Record>,
    reports: seq<Detection>,
    fetches: seq<Option<Reply>>)

  /** The answers of clock, dashboard, directory and image files in one iteration. */
  datatype Input = Input(tick: Tick, reply: Option<Reply>, listing: seq<string>, camera: string -> Shot)

  function Initial(reply: Option<Reply>, now: real, annotated: map<string, Picture>): Machine {
    Machine(Update(DEFAULTS, reply), Timer(now, [], 0), START, false, annotated, [], [], [reply])
  }

  function Refreshed(m: Machine, tick: Tick, reply: Option<Reply>): Machine {
    var ticked := m.(timer := Advance(m.timer, tick));
    if !Due(m.timer, tick) then ticked
    else ticked.(settings := Update(m.settings, reply), fetches := m.fetches + [reply])
  }

  /** The files whose numbers lie above base. */
  function Keep(files: seq<string>, numbers: seq<int>, base: int): seq<string>
    requires |files| == |numbers|
  {
    if files == [] then []
    else
      var n := |files| - 1;
      var kept := Keep(files[..n], numbers[..n], base);
      if numbers[n] > base then kept + [files[n]] else kept
  }

  /** The listed files numbered above base, in the order listed. */
  function NewFiles(files: seq<string>, base: int): seq<string>
    requires AllParse(files)
  {
    Keep(files, Numbers(files), base)
  }

  function AnnotatedPath(path: string): string { ANNOTATED_DIR + BaseName(path) }

  /** A file of the batch: its name in annotated/, its number, the verdict on it, and the picture it leaves. */
  datatype Item = Item(key: string, number: int, detection: Detection, picture: Option<Picture>)

  function ItemOf(v: Vision, s: Settings, path: string, shot: Shot): Item
    requires GetFrameNumber(path).Some?
  {
    Item(AnnotatedPath(path), GetFrameNumber(path).value, Verdict(v, s, shot), Annotation(v, s, shot))
  }

  function Items(v: Vision, s: Settings, files: seq<string>, camera: string -> Shot): (r: seq<Item>)
    requires AllParse(files)
    ensures |r| == |files| && forall i | 0 <= i < |r| :: r[i] == ItemOf(v, s, files[i], camera(files[i]))
  {
    seq(|files|, i requires 0 <= i < |files| => ItemOf(v, s, files[i], camera(files[i])))
  }

  function ItemNumbers(items: seq<Item>): (r: seq<int>)
    ensures |r| == |items| && forall i | 0 <= i < |r| :: r[i] == items[i].number
  {
    seq(|items|, i requires 0 <= i < |items| => items[i].number)
  }

  function Records(s: Settings, items: seq<Item>): (r: seq<Record>)
    ensures |r| == |items| && forall i | 0 <= i < |r| :: r[i] == Record(s, items[i].detection)
  {
    seq(|items|, i requires 0 <= i < |items| => Record(s, items[i].detection))
  }

  function AnnotateOne(annotated: map<string, Picture>, item: Item): map<string, Picture> {
    match item.picture
    case None => annotated
    case Some(picture) => annotated[item.key := picture]
  }

  function AnnotateAll(annotated: map<string, Picture>, items: seq<Item>): map<string, Picture> {
    if items == [] then annotated
    else AnnotateOne(AnnotateAll(annotated, items[..|items| - 1]), items[|items| - 1])
  }

  /** The batch as a whole. */
  function Processed(m: Machine, items: seq<Item>): Machine {
    if items == [] then m
    else
      m.(track := Process(m.track, ItemNumbers(items)),
         annotated := AnnotateAll(m.annotated, items),
         records := m.records + Records(m.settings, items),
         reports := m.reports + [items[|items| - 1].detection])
  }

  /** One turn of the batch loop; the last file of the batch is posted. */
  function Stepped(m: Machine, item: Item, post: bool): Machine {
    var t := m.track;
    m.(track := Track(item.number, t.trace + [item.number],
                      if post then t.posts + [Post(t.resets, item.number)] else t.posts, t.resets),
       annotated := AnnotateOne(m.annotated, item),
       records := m.records + [Record(m.settings, item.detection)],
       reports := if post then m.reports + [item.detection] else m.reports)
  }

  /** The turns before the last one. */
  function Unposted(m: Machine, items: seq<Item>): Machine {
    if items == [] then m else Stepped(Unposted(m, items[..|items| - 1]), items[|items| - 1], false)
  }

  lemma {:induction false} UnpostedIs(m: Machine, items: seq<Item>)
    ensures var m', t := Unposted(m, items), m.track;
      m' == m.(track := Track(if items == [] then t.last else items[|items| - 1].number,
                              t.trace + ItemNumbers(items), t.posts, t.resets),
               annotated := AnnotateAll(m.annotated, items),
               records := m.records + Records(m.settings, items))
  {
    if items == [] {
      assert m.track.trace + [] == m.track.trace && m.records + [] == m.records;
    } else {
      var n := |items| - 1;
      UnpostedIs(m, items[..n]);
      assert ItemNumbers(items) == ItemNumbers(items[..n]) + [items[n].number];
      assert Records(m.settings, items) == Records(m.settings, items[..n]) + [Record(m.settings, items[n].detection)];
      AppendOne(m.track.trace, ItemNumbers(items[..n]), items[n].number);
      AppendOne(m.records, Records(m.settings, items[..n]), Record(m.settings, items[n].detection));
    }
  }

  lemma AppendOne<T>(s: seq<T>, t: seq<T>, x: T)
    ensures (s + t) + [x] == s + (t + [x])
  {
  }

  /** The loop, turn by turn with a post in the last one, has the effect stated for the batch as a whole. */
  lemma LoopIsProcessed(m: Machine, items: seq<Item>)
    requires items != []
    ensures Stepped(Unposted(m, items[..|items| - 1]), items[|items| - 1], true) == Processed(m, items)
  {
    var n := |items| - 1;
    UnpostedIs(m, items[..n]);
    assert ItemNumbers(items) == ItemNumbers(items[..n]) + [items[n].number];
    assert Records(m.settings, items) == Records(m.settings, items[..n]) + [Record(m.settings, items[n].detection)];
    AppendOne(m.track.trace, ItemNumbers(items[..n]), items[n].number);
    AppendOne(m.records, Records(m.settings, items[..n]), Record(m.settings, items[n].detection));
  }

  /** The state after i turns. */
  function LoopState(m: Machine, items: seq<Item>, i: nat): Machine
    requires i <= |items|
  {
    if 0 < i == |items| then Processed(m, items) else Unposted(m, items[..i])
  }

  lemma LoopStep(m: Machine, items: seq<Item>, i: nat)
    requires i < |items|
    ensures Stepped(LoopState(m, items, i), items[i], i + 1 == |items|) == LoopState(m, items, i + 1)
    ensures LoopState(m, items, i).settings == m.settings
  {
    UnpostedIs(m, items[..i]);
    if i + 1 == |items| {
      LoopIsProcessed(m, items);
    } else {
      assert items[..i + 1][..i] == items[..i];
    }
  }

  /** One scan. A name without a number, in the last place or in any other, raises before anything is processed. */
  function ScannedFiles(v: Vision, m: Machine, files: seq<string>, camera: string -> Shot): Machine {
    if files == [] then m
    else
      match GetFrameNumber(files[|files| - 1])
      case None => m.(crashed := true)
      case Some(highest) =>
        Selected(v, m.(track := ResetIfBelow(m.track, highest)), files, camera)
  }

  function Selected(v: Vision, m: Machine, files: seq<string>, camera: string -> Shot): Machine {
    if !AllParse(files) then m.(crashed := true)
    else
      ParsePart(files, m.track.last);
      Processed(m, Items(v, m.settings, NewFiles(files, m.track.last), camera))
  }

  function Scanned(v: Vision, m: Machine, listing: seq<string>, camera: string -> Shot): Machine {
    ScannedFiles(v, m, Sort(listing), camera)
  }

  function Iterated(v: Vision, m: Machine, input: Input): Machine {
    if m.crashed then m
    else Scanned(v, Refreshed(m, input.tick, input.reply), input.listing, input.camera)
  }

  function Watched(v: Vision, m: Machine, inputs: seq<Input>): Machine {
    if inputs == [] then m
    else Iterated(v, Watched(v, m, inputs[..|inputs| - 1]), inputs[|inputs| - 1])
  }

  /** The new files are those whose numbers lie above base, in the same order. */
  lemma {:induction false} ParsePart(files: seq<string>, base: int)
    requires AllParse(files)
    ensures AllParse(NewFiles(files, base)) && Numbers(NewFiles(files, base)) == Above(Numbers(files), base)
  {
    if files == [] {
    } else {
      var n := |files| - 1;
      var rest := files[..n];
      ParsePart(rest, base);
      assert Numbers(files)[..n] == Numbers(rest);
      NumbersAppend(NewFiles(rest, base), files[n]);
    }
  }

  lemma NumbersAppend(files: seq<string>, file: string)
    requires AllParse(files) && GetFrameNumber(file).Some?
    ensures AllParse(files + [file]) && Numbers(files + [file]) == Numbers(files) + [GetFrameNumber(file).value]
    ensures Numbers(files) + [] == Numbers(files)
  {
  }

  lemma {:induction false} KeepDistinct(files: seq<string>, numbers: seq<int>, base: int)
    requires |files| == |numbers| && Distinct(files)
    ensures Distinct(Keep(files, numbers, base)) && forall p | p in Keep(files, numbers, base) :: p in files
  {
    if files == [] {
    } else {
      var n := |files| - 1;
      KeepDistinct(files[..n], numbers[..n], base);
      assert files[n] !in files[..n];
      assert forall p | p in files[..n] :: p in files;
    }
  }

  // ---------- the loop is the tracker ----------

  ghost predicate DigitInputs(inputs: seq<Input>) {
    forall i | 0 <= i < |inputs| :: DigitListing(inputs[i].listing)
  }

  /** The snapshots that a run gets to see, as numbers. */
  ghost function Snaps(inputs: seq<Input>): seq<seq<int>>
    requires DigitInputs(inputs)
  {
    seq(|inputs|, i requires 0 <= i < |inputs| => NumbersOf(inputs[i].listing))
  }

  ghost function NumbersOf(listing: seq<string>): (nums: seq<int>)
    requires DigitListing(listing)
    ensures Snapshot(nums) && forall n: int :: n in nums <==> 0 <= n < CAPACITY && FramePath(n) in listing
  {
    SortedNumbers(listing);
    var nums := Numbers(Sort(listing));
    assert forall i | 0 <= i < |nums| :: nums[i] in nums;
    nums
  }

  /** Where every name has a number a scan never raises, and its effect on the track is the tracker's scan. */
  lemma ScannedFilesIsScan(v: Vision, m: Machine, files: seq<string>, camera: string -> Shot)
    requires AllParse(files)
    ensures ScannedFiles(v, m, files, camera).track == Scan(m.track, Numbers(files))
    ensures ScannedFiles(v, m, files, camera).crashed == m.crashed
  {
    if files != [] {
      var r := m.(track := ResetIfBelow(m.track, Highest(Numbers(files))));
      SelectedIsProcess(v, r, files, camera);
    }
  }

  lemma SelectedIsProcess(v: Vision, m: Machine, files: seq<string>, camera: string -> Shot)
    requires AllParse(files)
    ensures Selected(v, m, files, camera).track == Process(m.track, Above(Numbers(files), m.track.last))
    ensures Selected(v, m, files, camera).crashed == m.crashed
  {
    ParsePart(files, m.track.last);
    var batch := NewFiles(files, m.track.last);
    assert ItemNumbers(Items(v, m.settings, batch, camera)) == Numbers(batch);
  }

  lemma ScannedIsScan(v: Vision, m: Machine, listing: seq<string>, camera: string -> Shot)
    requires DigitListing(listing)
    ensures Scanned(v, m, listing, camera).track == Scan(m.track, NumbersOf(listing))
    ensures Scanned(v, m, listing, camera).crashed == m.crashed
  {
    SortedNumbers(listing);
    ScannedFilesIsScan(v, m, Sort(listing), camera);
  }

  /** The whole loop, over any inputs with five-digit names, runs the tracker on the numbers listed. */
  lemma {:induction false} WatchedIsRunFrom(v: Vision, m: Machine, inputs: seq<Input>)
    requires DigitInputs(inputs) && !m.crashed
    ensures Snapshots(Snaps(inputs))
    ensures Watched(v, m, inputs).track == RunFrom(m.track, Snaps(inputs)) && !Watched(v, m, inputs).crashed
  {
    if inputs == [] {
    } else {
      var n := |inputs| - 1;
      WatchedIsRunFrom(v, m, inputs[..n]);
      assert Snaps(inputs)[..n] == Snaps(inputs[..n]);
      var before := Refreshed(Watched(v, m, inputs[..n]), inputs[n].tick, inputs[n].reply);
      ScannedIsScan(v, before, inputs[n].listing, inputs[n].camera);
    }
  }

  lemma WatchedIsRun(v: Vision, m: Machine, inputs: seq<Input>)
    requires DigitInputs(inputs) && !m.crashed && m.track == START
    ensures Snapshots(Snaps(inputs))
    ensures Watched(v, m, inputs).track == Run(Snaps(inputs)) && !Watched(v, m, inputs).crashed
  {
    WatchedIsRunFrom(v, m, inputs);
    RunFromStart(Snaps(inputs));
  }

  function VisibleAll(counts: seq<nat>): (r: seq<nat>)
    ensures |r| == |counts| && forall i | 0 <= i < |r| :: r[i] == Visible(counts[i])
  {
    seq(|counts|, i requires 0 <= i < |counts| => Visible(counts[i]))
  }

  /** The server's folder holds its first counts[i] frames when iteration i lists it, in whatever order. */
  ghost predicate ListsServer(inputs: seq<Input>, counts: seq<nat>) {
    |counts| == |inputs| && forall i | 0 <= i < |inputs| :: Globs(ServerFolder(counts[i]), inputs[i].listing)
  }

  lemma SnapsOfServer(inputs: seq<Input>, counts: seq<nat>)
    requires ListsServer(inputs, counts)
    ensures DigitInputs(inputs) && Snaps(inputs) == Prefixes(VisibleAll(counts))
  {
    forall i | 0 <= i < |inputs|
      ensures DigitListing(inputs[i].listing) && NumbersOf(inputs[i].listing) == Range(0, Visible(counts[i]))
    {
      ServerListing(counts[i], inputs[i].listing);
    }
  }

  /**
   * The loop taken up in any state, after any sessions, over a session that adds frames to a cleared folder: it is
   * processed from frame 0 if the reset test fires at its first non-empty listing, otherwise from last_processed + 1.
   */
  lemma SessionResumed(v: Vision, m: Machine, inputs: seq<Input>, counts: seq<nat>)
    requires !m.crashed && m.track.last >= -1
    requires ListsServer(inputs, counts) && Nondecreasing(counts)
    ensures !Watched(v, m, inputs).crashed
    ensures SessionAfter(m.track, Watched(v, m, inputs).track, VisibleAll(counts))
  {
    SnapsOfServer(inputs, counts);
    WatchedIsRunFrom(v, m, inputs);
    SessionFrom(m.track, VisibleAll(counts));
  }

  /**
   * End to end for one session, whatever the server's counter, also beyond 99999: every frame below min(count, 100000)
   * has been processed exactly once, in order, no reset was reported, and nothing has raised.
   */
  lemma SessionEndToEnd(v: Vision, m: Machine, inputs: seq<Input>, counts: seq<nat>)
    requires !m.crashed && m.track == START
    requires ListsServer(inputs, counts) && Nondecreasing(counts)
    ensures var t := Watched(v, m, inputs).track;
      && !Watched(v, m, inputs).crashed && t.resets == 0
      && t.trace == Range(0, t.last + 1)
      && t.last + 1 == if counts == [] then 0 else Visible(counts[|counts| - 1])
  {
    SessionResumed(v, m, inputs, counts);
    SessionFromStart(Watched(v, m, inputs).track, VisibleAll(counts));
  }

  lemma AllParseIff(files: seq<string>)
    ensures AllParse(files) <==> forall p | p in files :: GetFrameNumber(p).Some?
  {
    if !AllParse(files) {
      var i :| 0 <= i < |files| && GetFrameNumber(files[i]).None?;
      assert files[i] in files;
    }
  }

  lemma CrashUnlessAllParse(v: Vision, m: Machine, files: seq<string>, camera: string -> Shot)
    requires !m.crashed
    ensures var m' := ScannedFiles(v, m, files, camera);
      && (m'.crashed <==> !AllParse(files))
      && (m'.crashed ==> m' == m.(crashed := true, track := m'.track)
                         && m'.track.trace == m.track.trace && m'.track.posts == m.track.posts)
  {
    if AllParse(files) { ScannedFilesIsScan(v, m, files, camera); }
  }

  /** A scan raises exactly when some listed name has no number, and then it processes, posts and annotates nothing. */
  lemma CrashIff(v: Vision, m: Machine, listing: seq<string>, camera: string -> Shot)
    requires !m.crashed
    ensures var m' := Scanned(v, m, listing, camera);
      && (m'.crashed <==> exists p | p in listing :: GetFrameNumber(p).None?)
      && (m'.crashed ==> m'.track.trace == m.track.trace && m'.track.posts == m.track.posts
                         && m'.annotated == m.annotated && m'.records == m.records)
  {
    SortElements(listing);
    AllParseIff(Sort(listing));
    CrashUnlessAllParse(v, m, Sort(listing), camera);
  }

  lemma CrashWith(v: Vision, m: Machine, frames: seq<string>, bad: string, camera: string -> Shot)
    requires !m.crashed && GetFrameNumber(bad).None?
    ensures Scanned(v, m, frames + [bad], camera).crashed
  {
    CrashIff(v, m, frames + [bad], camera);
    assert (frames + [bad])[|frames|] == bad;
  }

  /** A folder that stops the detector: any frames, and one more file that the pattern finds. */
  lemma CrashExample(v: Vision, m: Machine, frames: seq<string>, camera: string -> Shot)
    requires !m.crashed
    ensures GlobMatch("frame_abcde.jpg") && Scanned(v, m, frames + ["frames/frame_abcde.jpg"], camera).crashed
  {
    BadName();
    CrashWith(v, m, frames, "frames/frame_abcde.jpg", camera);
  }

  lemma SortElements(s: seq<string>)
    ensures |Sort(s)| == |s| && forall p :: p in Sort(s) <==> p in s
  {
    SortIsSorted(s);
    assert |multiset(Sort(s))| == |multiset(s)|;
    forall p ensures p in Sort(s) <==> p in s {
      assert p in Sort(s) <==> p in multiset(Sort(s));
    }
  }

  // ---------- settings ----------

  /** Nothing but records is appended, and they all carry the settings of m. */
  ghost predicate SameSettings(m: Machine, m': Machine) {
    && m'.settings == m.settings && m'.fetches == m.fetches && m'.timer == m.timer
    && m.records <= m'.records
    && forall i | |m.records| <= i < |m'.records| :: m'.records[i].settings == m.settings
  }

  lemma ProcessedKeepsSettings(m: Machine, items: seq<Item>)
    ensures SameSettings(m, Processed(m, items))
  {
  }

  lemma ScannedKeepsSettings(v: Vision, m: Machine, files: seq<string>, camera: string -> Shot)
    ensures SameSettings(m, ScannedFiles(v, m, files, camera))
  {
    if files != [] && GetFrameNumber(files[|files| - 1]).Some? && AllParse(files) {
      var r := m.(track := ResetIfBelow(m.track, GetFrameNumber(files[|files| - 1]).value));
      ParsePart(files, r.track.last);
      ProcessedKeepsSettings(r, Items(v, r.settings, NewFiles(files, r.track.last), camera));
    }
  }

  /** The settings are what the fetches so far make of the defaults. */
  ghost predicate Configured(m: Machine) { m.settings == UpdateAll(DEFAULTS, m.fetches) }

  lemma RefreshConfigures(m: Machine, tick: Tick, reply: Option<Reply>)
    requires Configured(m)
    ensures Configured(Refreshed(m, tick, reply))
  {
    assert (m.fetches + [reply])[..|m.fetches|] == m.fetches;
  }

  /** After an iteration every frame it has processed carries the settings now in force. */
  lemma IterationSettings(v: Vision, m: Machine, input: Input)
    requires Configured(m)
    ensures var m' := Iterated(v, m, input);
      && Configured(m') && m.records <= m'.records
      && forall i | |m.records| <= i < |m'.records| :: m'.records[i].settings == m'.settings
  {
    RefreshConfigures(m, input.tick, input.reply);
    ScannedKeepsSettings(v, Refreshed(m, input.tick, input.reply), Sort(input.listing), input.camera);
  }

  /**
   * At any time the settings are what the fetches so far make of the defaults, and every frame of an iteration is
   * judged by the settings in force after that iteration's own fetch.
   */
  lemma {:induction false} SettingsFromFetches(v: Vision, reply: Option<Reply>, now: real,
                                               annotated: map<string, Picture>, inputs: seq<Input>)
    ensures Configured(Watched(v, Initial(reply, now, annotated), inputs))
    ensures inputs != [] ==>
      var m0 := Initial(reply, now, annotated);
      var before, m := Watched(v, m0, inputs[..|inputs| - 1]), Watched(v, m0, inputs);
      before.records <= m.records
      && forall i | |before.records| <= i < |m.records| :: m.records[i].settings == m.settings
  {
    var m0 := Initial(reply, now, annotated);
    if inputs == [] {
      assert [reply][..0] == [];
    } else {
      var n := |inputs| - 1;
      SettingsFromFetches(v, reply, now, annotated, inputs[..n]);
      IterationSettings(v, Watched(v, m0, inputs[..n]), inputs[n]);
    }
  }

  /** While nothing raises, the fetches keep the timer's pace. */
  lemma {:induction false} FetchesPaced(v: Vision, reply: Option<Reply>, now: real,
                                        annotated: map<string, Picture>, inputs: seq<Input>)
    requires !Watched(v, Initial(reply, now, annotated), inputs).crashed
    ensures var m := Watched(v, Initial(reply, now, annotated), inputs);
      m.timer == RunTimer(now, Ticks(inputs)) && |m.fetches| == |m.timer.attempts| + 1
  {
    if inputs == [] {
    } else {
      var n := |inputs| - 1;
      var before := Watched(v, Initial(reply, now, annotated), inputs[..n]);
      assert Ticks(inputs)[..n] == Ticks(inputs[..n]);
      if !before.crashed {
        FetchesPaced(v, reply, now, annotated, inputs[..n]);
        var r := Refreshed(before, inputs[n].tick, inputs[n].reply);
        ScannedKeepsSettings(v, r, Sort(inputs[n].listing), inputs[n].camera);
      }
    }
  }

  function Ticks(inputs: seq<Input>): seq<Tick> {
    seq(|inputs|, i requires 0 <= i < |inputs| => inputs[i].tick)
  }

  // ---------- annotated/ ----------

  /** The item that frame n becomes: whether it leaves a picture, and which, is decided by the read and the verdict. */
  lemma ItemMeaning(v: Vision, s: Settings, n: nat, shot: Shot)
    ensures GetFrameNumber(FramePath(n)).Some?
    ensures var item := ItemOf(v, s, FramePath(n), shot);
      && item.number == n && item.key == ANNOTATED_DIR + FrameName(n)
      && (item.picture.Some? <==> shot.Loaded())
      && (item.picture.Some? ==> (item.picture.value.Circled? <==> item.detection.found))
      && (item.picture.None? ==> !item.detection.found)
      && item.detection == Verdict(v, s, shot)
      && (item.picture.Some? ==> IsPictureOf(v, s, shot, item.picture.value))
  {
    AnnotationIs(v, s, shot);
    ParsePrinted(n);
    PadValue(n, 5);
    BaseNameOf(FRAMES_DIR, FrameName(n));
  }

  lemma {:induction false} AnnotatedKeys(annotated: map<string, Picture>, items: seq<Item>, key: string)
    ensures key in AnnotateAll(annotated, items) <==>
      key in annotated || exists i | 0 <= i < |items| :: items[i].key == key && items[i].picture.Some?
  {
    if items == [] {
    } else {
      var rest := items[..|items| - 1];
      AnnotatedKeys(annotated, rest, key);
      assert forall i | 0 <= i < |rest| :: rest[i] == items[i];
    }
  }

  /** Keys are distinct. */
  ghost predicate KeysDistinct(items: seq<Item>) {
    forall i, j | 0 <= i < j < |items| :: items[i].key != items[j].key
  }

  lemma {:induction false} AnnotatedPicture(annotated: map<string, Picture>, items: seq<Item>, i: nat)
    requires KeysDistinct(items) && i < |items| && items[i].picture.Some?
    ensures var result := AnnotateAll(annotated, items);
      items[i].key in result && result[items[i].key] == items[i].picture.value
  {
    var n := |items| - 1;
    if i == n {
    } else {
      assert items[..n][i] == items[i];
      AnnotatedPicture(annotated, items[..n], i);
    }
  }

  lemma {:induction false} AnnotatedElsewhere(annotated: map<string, Picture>, items: seq<Item>, key: string)
    requires key in annotated && forall i | 0 <= i < |items| && items[i].picture.Some? :: items[i].key != key
    ensures var result := AnnotateAll(annotated, items);
      key in result && result[key] == annotated[key]
  {
    if items == [] {
    } else {
      AnnotatedElsewhere(annotated, items[..|items| - 1], key);
    }
  }

  /**
   * After a batch, annotated/ holds exactly what it held before, overwritten or extended by the pictures of those
   * frames of the batch that left one.
   */
  lemma {:induction false} AnnotatedExactly(annotated: map<string, Picture>, items: seq<Item>)
    requires KeysDistinct(items)
    ensures var result := AnnotateAll(annotated, items);
      && (forall key :: key in result <==>
            key in annotated || exists i | 0 <= i < |items| :: items[i].key == key && items[i].picture.Some?)
      && (forall i | 0 <= i < |items| && items[i].picture.Some? :: result[items[i].key] == items[i].picture.value)
      && (forall key | key in annotated
              && forall i | 0 <= i < |items| && items[i].picture.Some? :: items[i].key != key ::
            result[key] == annotated[key])
  {
    forall key
      ensures key in AnnotateAll(annotated, items) <==>
        key in annotated || exists i | 0 <= i < |items| :: items[i].key == key && items[i].picture.Some?
    {
      AnnotatedKeys(annotated, items, key);
    }
    forall i | 0 <= i < |items| && items[i].picture.Some?
      ensures AnnotateAll(annotated, items)[items[i].key] == items[i].picture.value
    {
      AnnotatedPicture(annotated, items, i);
    }
    forall key | key in annotated && forall i | 0 <= i < |items| && items[i].picture.Some? :: items[i].key != key
      ensures AnnotateAll(annotated, items)[key] == annotated[key]
    {
      AnnotatedElsewhere(annotated, items, key);
    }
  }
}
