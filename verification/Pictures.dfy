/** What a whole run leaves in annotated/: which frames, and which picture of each. */
module Pictures {
  import opened Common
  import opened Configuration
  import opened Detection
  import opened FrameNames
  import opened Tracker
  import opened Machine

  /** Where frame n goes. */
  function Key(n: nat): string { ANNOTATED_DIR + FrameName(n) }

  lemma KeyInjective(a: nat, b: nat)
    requires Key(a) == Key(b)
    ensures a == b
  {
    assert FrameName(a) == Key(a)[|ANNOTATED_DIR|..] && FrameName(b) == Key(b)[|ANNOTATED_DIR|..];
    ParsePrinted(a);
    ParsePrinted(b);
  }

  /** Of five-digit paths the item is determined by the number. */
  lemma DigitItem(v: Vision, s: Settings, path: string, shot: Shot)
    requires DigitPath(path)
    ensures GetFrameNumber(path).Some?
    ensures var item := ItemOf(v, s, path, shot);
      && item.number >= 0 && path == FramePath(item.number) && item.key == Key(item.number)
      && (item.picture.Some? <==> shot.Loaded())
  {
    PrintParsed(path);
    ItemMeaning(v, s, GetFrameNumber(path).value, shot);
  }

  ghost predicate DigitPaths(files: seq<string>) { forall i | 0 <= i < |files| :: DigitPath(files[i]) }

  /** No two frames of a batch go to the same place. */
  lemma BatchKeysDistinct(v: Vision, s: Settings, files: seq<string>, camera: string -> Shot)
    requires AllParse(files) && DigitPaths(files) && Distinct(files)
    ensures KeysDistinct(Items(v, s, files, camera))
  {
    var items := Items(v, s, files, camera);
    forall i, j | 0 <= i < j < |items| ensures items[i].key != items[j].key {
      DigitItem(v, s, files[i], camera(files[i]));
      DigitItem(v, s, files[j], camera(files[j]));
      if items[i].key == items[j].key { KeyInjective(items[i].number, items[j].number); }
    }
  }

  // ---------- one scan ----------

  /** Frame n is among those processed, and leaves a picture because it loads. */
  ghost predicate Leaves(nums: seq<int>, camera: string -> Shot, n: nat) {
    n in nums && camera(FramePath(n)).Loaded()
  }

  ghost predicate LeavesAt(nums: seq<int>, camera: string -> Shot, key: string) {
    exists n: nat :: Leaves(nums, camera, n) && Key(n) == key
  }

  /** The folder holds what it held before, overwritten or extended by the pictures of the frames that loaded. */
  ghost predicate ExtendedBy(before: map<string, Picture>, after: map<string, Picture>,
                             v: Vision, s: Settings, nums: seq<int>, camera: string -> Shot) {
    && (forall key :: key in after <==> key in before || LeavesAt(nums, camera, key))
    && (forall n: nat | Leaves(nums, camera, n) ::
          Key(n) in after && Some(after[Key(n)]) == Annotation(v, s, camera(FramePath(n))))
    && (forall key | key in before && !LeavesAt(nums, camera, key) :: key in after && after[key] == before[key])
  }

  /** The item that number n of the batch becomes. */
  lemma ItemFor(v: Vision, s: Settings, files: seq<string>, camera: string -> Shot, n: nat) returns (i: nat)
    requires AllParse(files) && DigitPaths(files) && n in Numbers(files)
    ensures i < |files| && files[i] == FramePath(n)
    ensures var item := Items(v, s, files, camera)[i];
      && item.number == n && item.key == Key(n) && item.picture == Annotation(v, s, camera(FramePath(n)))
      && (item.picture.Some? <==> camera(FramePath(n)).Loaded())
  {
    i :| 0 <= i < |files| && Numbers(files)[i] == n;
    DigitItem(v, s, files[i], camera(files[i]));
  }

  lemma ItemsMeanLeaves(v: Vision, s: Settings, files: seq<string>, camera: string -> Shot, key: string)
    requires AllParse(files) && DigitPaths(files)
    ensures var items := Items(v, s, files, camera);
      (exists i | 0 <= i < |items| :: items[i].key == key && items[i].picture.Some?)
      <==> LeavesAt(Numbers(files), camera, key)
  {
    var items := Items(v, s, files, camera);
    if exists i | 0 <= i < |items| :: items[i].key == key && items[i].picture.Some? {
      var i :| 0 <= i < |items| && items[i].key == key && items[i].picture.Some?;
      DigitItem(v, s, files[i], camera(files[i]));
      assert Numbers(files)[i] == items[i].number;
      assert Leaves(Numbers(files), camera, items[i].number);
    }
    if LeavesAt(Numbers(files), camera, key) {
      var n: nat :| Leaves(Numbers(files), camera, n) && Key(n) == key;
      var i := ItemFor(v, s, files, camera, n);
      assert items[i].key == key && items[i].picture.Some?;
    }
  }

  lemma BatchExtends(annotated: map<string, Picture>, v: Vision, s: Settings, files: seq<string>,
                     camera: string -> Shot)
    requires AllParse(files) && DigitPaths(files) && Distinct(files)
    ensures ExtendedBy(annotated, AnnotateAll(annotated, Items(v, s, files, camera)), v, s, Numbers(files), camera)
  {
    var items, nums := Items(v, s, files, camera), Numbers(files);
    var after := AnnotateAll(annotated, items);
    BatchKeysDistinct(v, s, files, camera);
    AnnotatedExactly(annotated, items);
    forall key ensures key in after <==> key in annotated || LeavesAt(nums, camera, key) {
      ItemsMeanLeaves(v, s, files, camera, key);
    }
    forall n: nat | Leaves(nums, camera, n)
      ensures Key(n) in after && Some(after[Key(n)]) == Annotation(v, s, camera(FramePath(n)))
    {
      var i := ItemFor(v, s, files, camera, n);
    }
    forall key | key in annotated && !LeavesAt(nums, camera, key) ensures after[key] == annotated[key] {
      Untouched(annotated, v, s, files, camera, key);
    }
  }

  /** A name that no picture of the batch goes to keeps its picture. */
  lemma Untouched(annotated: map<string, Picture>, v: Vision, s: Settings, files: seq<string>, camera: string -> Shot,
                  key: string)
    requires AllParse(files) && DigitPaths(files)
    requires key in annotated && !LeavesAt(Numbers(files), camera, key)
    ensures var after := AnnotateAll(annotated, Items(v, s, files, camera));
      key in after && after[key] == annotated[key]
  {
    ItemsMeanLeaves(v, s, files, camera, key);
    AnnotatedElsewhere(annotated, Items(v, s, files, camera), key);
  }

  lemma SelectedExtends(v: Vision, m: Machine, files: seq<string>, camera: string -> Shot)
    requires AllParse(files) && DigitPaths(files) && Distinct(files)
    ensures ExtendedBy(m.annotated, Selected(v, m, files, camera).annotated, v, m.settings,
                       Above(Numbers(files), m.track.last), camera)
  {
    var batch := NewFiles(files, m.track.last);
    ParsePart(files, m.track.last);
    KeepDistinct(files, Numbers(files), m.track.last);
    assert forall i | 0 <= i < |batch| :: batch[i] in files;
    BatchExtends(m.annotated, v, m.settings, batch, camera);
  }

  function AfterReset(m: Machine, files: seq<string>): Machine
    requires AllParse(files) && files != []
  {
    m.(track := ResetIfBelow(m.track, Highest(Numbers(files))))
  }

  lemma SelectedAfterReset(v: Vision, m: Machine, files: seq<string>, camera: string -> Shot)
    requires AllParse(files) && files != []
    ensures var r := AfterReset(m, files);
      && ScannedFiles(v, m, files, camera) == Selected(v, r, files, camera)
      && r.annotated == m.annotated && r.settings == m.settings
      && Batch(m.track.last, Numbers(files)) == Above(Numbers(files), r.track.last)
  {
  }

  lemma ScannedFilesExtends(v: Vision, m: Machine, files: seq<string>, camera: string -> Shot)
    requires AllParse(files) && DigitPaths(files) && Distinct(files)
    ensures ExtendedBy(m.annotated, ScannedFiles(v, m, files, camera).annotated, v, m.settings,
                       Batch(m.track.last, Numbers(files)), camera)
  {
    if files == [] {
    } else {
      SelectedAfterReset(v, m, files, camera);
      SelectedExtends(v, AfterReset(m, files), files, camera);
    }
  }

  lemma SortedPaths(listing: seq<string>)
    requires DigitListing(listing)
    ensures AllParse(Sort(listing)) && DigitPaths(Sort(listing)) && Distinct(Sort(listing))
    ensures Numbers(Sort(listing)) == NumbersOf(listing)
  {
    SortedNumbers(listing);
    SortDistinct(listing);
    assert forall i | 0 <= i < |Sort(listing)| :: Sort(listing)[i] in listing;
  }

  /** A scan extends the folder by the frames above last_processed, or by all of them after a reset. */
  lemma ScanExtends(v: Vision, m: Machine, listing: seq<string>, camera: string -> Shot)
    requires DigitListing(listing)
    ensures ExtendedBy(m.annotated, Scanned(v, m, listing, camera).annotated, v, m.settings,
                       Batch(m.track.last, NumbersOf(listing)), camera)
  {
    SortedPaths(listing);
    ScannedFilesExtends(v, m, Sort(listing), camera);
  }

  // ---------- a run ----------

  /** Iteration i is the first to find frame n. */
  ghost predicate FoundIn(counts: seq<nat>, n: nat, i: nat) {
    i < |counts| && n < CAPACITY && n < counts[i] && (i > 0 ==> counts[i - 1] <= n)
  }

  /** And n, not below the number the session is taken up at, is processed there and loads. */
  ghost predicate LoadsIn(inputs: seq<Input>, counts: seq<nat>, from: nat, n: nat, i: nat)
    requires |counts| == |inputs|
  {
    FoundIn(counts, n, i) && from <= n && inputs[i].camera(FramePath(n)).Loaded()
  }

  ghost predicate LoadsAt(inputs: seq<Input>, counts: seq<nat>, from: nat, key: string)
    requires |counts| == |inputs|
  {
    exists n: nat, i: nat :: LoadsIn(inputs, counts, from, n, i) && Key(n) == key
  }

  /** The picture of a frame is the one that the settings of its iteration give. */
  ghost predicate PictureIs(after: map<string, Picture>, v: Vision, m: Machine, inputs: seq<Input>, n: nat, i: nat)
    requires i < |inputs|
  {
    && Key(n) in after
    && Some(after[Key(n)])
         == Annotation(v, Watched(v, m, inputs[..i + 1]).settings, inputs[i].camera(FramePath(n)))
  }

  /**
   * What a session taken up at `from` leaves behind: a picture of every frame from there on that loaded in the first
   * iteration to find it, and of no other; what else was in the folder is still there.
   */
  ghost predicate SessionPictures(v: Vision, m: Machine, inputs: seq<Input>, counts: seq<nat>, from: nat)
    requires |counts| == |inputs|
  {
    var after := Watched(v, m, inputs).annotated;
    && (forall key :: key in after <==> key in m.annotated || LoadsAt(inputs, counts, from, key))
    && (forall n: nat, i: nat | LoadsIn(inputs, counts, from, n, i) :: PictureIs(after, v, m, inputs, n, i))
    && (forall key | key in m.annotated && !LoadsAt(inputs, counts, from, key) ::
          key in after && after[key] == m.annotated[key])
  }

  /** The frames that are new in the latest iteration. */
  function NewNumbers(counts: seq<nat>, from: nat): seq<int>
    requires counts != []
  {
    var n := |counts| - 1;
    var before := if n == 0 then 0 else Visible(counts[n - 1]);
    Range(if before < from then from else before, Visible(counts[n]))
  }

  lemma NewLeaves(inputs: seq<Input>, counts: seq<nat>, from: nat, n: nat)
    requires |counts| == |inputs| && inputs != []
    ensures var k := |inputs| - 1;
      Leaves(NewNumbers(counts, from), inputs[k].camera, n) <==> LoadsIn(inputs, counts, from, n, k)
  {
    var nums := NewNumbers(counts, from);
    if nums != [] && nums[0] <= n < nums[0] + |nums| { assert nums[n - nums[0]] == n; }
  }

  lemma LoadsEarlier(inputs: seq<Input>, counts: seq<nat>, from: nat, n: nat, i: nat)
    requires |counts| == |inputs| && inputs != [] && i < |inputs| - 1
    ensures var k := |inputs| - 1;
      LoadsIn(inputs[..k], counts[..k], from, n, i) <==> LoadsIn(inputs, counts, from, n, i)
  {
  }

  /** One more iteration of a growing session: who leaves a picture. */
  lemma LoadsStep(inputs: seq<Input>, counts: seq<nat>, from: nat, key: string)
    requires |counts| == |inputs| && inputs != []
    ensures var k := |inputs| - 1;
      LoadsAt(inputs, counts, from, key) <==>
        LoadsAt(inputs[..k], counts[..k], from, key) || LeavesAt(NewNumbers(counts, from), inputs[k].camera, key)
  {
    var k := |inputs| - 1;
    if LoadsAt(inputs, counts, from, key) {
      var n: nat, i: nat :| LoadsIn(inputs, counts, from, n, i) && Key(n) == key;
      if i < k { LoadsEarlier(inputs, counts, from, n, i); } else { NewLeaves(inputs, counts, from, n); }
    }
    if LoadsAt(inputs[..k], counts[..k], from, key) {
      var n: nat, i: nat :| LoadsIn(inputs[..k], counts[..k], from, n, i) && Key(n) == key;
      LoadsEarlier(inputs, counts, from, n, i);
    }
    if LeavesAt(NewNumbers(counts, from), inputs[k].camera, key) {
      var n: nat :| Leaves(NewNumbers(counts, from), inputs[k].camera, n) && Key(n) == key;
      NewLeaves(inputs, counts, from, n);
    }
  }

  /** A frame found earlier is not taken again, so its picture stays. */
  lemma NotRetaken(inputs: seq<Input>, counts: seq<nat>, from: nat, n: nat, i: nat)
    requires |counts| == |inputs| && Nondecreasing(counts) && LoadsIn(inputs, counts, from, n, i) && i < |inputs| - 1
    ensures !LeavesAt(NewNumbers(counts, from), inputs[|inputs| - 1].camera, Key(n))
  {
    var k := |inputs| - 1;
    assert counts[i] <= counts[k - 1];
    if LeavesAt(NewNumbers(counts, from), inputs[k].camera, Key(n)) {
      var n': nat :| Leaves(NewNumbers(counts, from), inputs[k].camera, n') && Key(n') == Key(n);
      KeyInjective(n, n');
      NewLeaves(inputs, counts, from, n);
    }
  }

  /** Once the session has shown a frame, `from` is where the detector takes it up. */
  ghost predicate TakenUp(last: int, counts: seq<nat>, from: nat) {
    FirstCount(VisibleAll(counts)) > 0 ==> from == ResumeAt(last, VisibleAll(counts))
  }

  lemma TakenUpBefore(last: int, counts: seq<nat>, from: nat)
    requires counts != [] && TakenUp(last, counts, from)
    ensures TakenUp(last, counts[..|counts| - 1], from)
  {
    assert VisibleAll(counts)[..|counts| - 1] == VisibleAll(counts[..|counts| - 1]);
  }

  /** What the latest iteration finds, and what the detector has seen before it. */
  lemma LatestListing(v: Vision, m: Machine, inputs: seq<Input>, counts: seq<nat>)
    requires !m.crashed && m.track.last >= -1 && inputs != []
    requires ListsServer(inputs, counts) && Nondecreasing(counts)
    ensures var k := |inputs| - 1;
      && DigitListing(inputs[k].listing) && NumbersOf(inputs[k].listing) == Range(0, Visible(counts[k]))
      && !Watched(v, m, inputs[..k]).crashed
      && SessionAfter(m.track, Watched(v, m, inputs[..k]).track, VisibleAll(counts[..k]))
  {
    var k := |inputs| - 1;
    ServerListing(counts[k], inputs[k].listing);
    SessionResumed(v, m, inputs[..k], counts[..k]);
  }

  /** The batch of the latest iteration consists of the new frames. */
  lemma BatchIsNew(t: Track, t': Track, counts: seq<nat>, from: nat)
    requires counts != [] && Nondecreasing(counts) && t.last >= -1 && TakenUp(t.last, counts, from)
    requires SessionAfter(t, t', VisibleAll(counts[..|counts| - 1]))
    ensures Batch(t'.last, Range(0, Visible(counts[|counts| - 1]))) == NewNumbers(counts, from)
  {
    var k := |counts| - 1;
    var n := Visible(counts[k]);
    assert k > 0 ==> counts[k - 1] <= counts[k];
    assert VisibleAll(counts)[..k] == VisibleAll(counts[..k]);
    if n > 0 { AboveRange(n, Base(t'.last, n - 1)); }
  }

  lemma IterationExtends(v: Vision, m: Machine, inputs: seq<Input>, counts: seq<nat>, from: nat)
    requires !m.crashed && m.track.last >= -1 && inputs != []
    requires ListsServer(inputs, counts) && Nondecreasing(counts) && TakenUp(m.track.last, counts, from)
    ensures var k := |inputs| - 1;
      ExtendedBy(Watched(v, m, inputs[..k]).annotated, Watched(v, m, inputs).annotated, v,
                 Watched(v, m, inputs).settings, NewNumbers(counts, from), inputs[k].camera)
  {
    var k := |inputs| - 1;
    LatestListing(v, m, inputs, counts);
    BatchIsNew(m.track, Watched(v, m, inputs[..k]).track, counts, from);
    var r := Refreshed(Watched(v, m, inputs[..k]), inputs[k].tick, inputs[k].reply);
    ScanExtends(v, r, inputs[k].listing, inputs[k].camera);
    ScannedKeepsSettings(v, r, Sort(inputs[k].listing), inputs[k].camera);
  }

  /** The run before the latest iteration is as promised, and that iteration has added its new frames. */
  ghost predicate Continues(v: Vision, m: Machine, inputs: seq<Input>, counts: seq<nat>, from: nat)
    requires |counts| == |inputs| && inputs != []
  {
    var k := |inputs| - 1;
    && SessionPictures(v, m, inputs[..k], counts[..k], from)
    && ExtendedBy(Watched(v, m, inputs[..k]).annotated, Watched(v, m, inputs).annotated, v,
                  Watched(v, m, inputs).settings, NewNumbers(counts, from), inputs[k].camera)
  }

  lemma SameIteration(after: map<string, Picture>, v: Vision, m: Machine, inputs: seq<Input>, k: nat, n: nat, i: nat)
    requires i < k <= |inputs| && PictureIs(after, v, m, inputs[..k], n, i)
    ensures PictureIs(after, v, m, inputs, n, i)
  {
    assert inputs[..k][..i + 1] == inputs[..i + 1];
  }

  lemma WasPicture(v: Vision, m: Machine, inputs: seq<Input>, counts: seq<nat>, from: nat, n: nat, i: nat)
    requires |counts| == |inputs| && i < |inputs| - 1 && LoadsIn(inputs, counts, from, n, i)
    requires SessionPictures(v, m, inputs[..|inputs| - 1], counts[..|inputs| - 1], from)
    ensures PictureIs(Watched(v, m, inputs[..|inputs| - 1]).annotated, v, m, inputs, n, i)
  {
    var k := |inputs| - 1;
    LoadsEarlier(inputs, counts, from, n, i);
    SameIteration(Watched(v, m, inputs[..k]).annotated, v, m, inputs, k, n, i);
  }

  lemma EarlierPicture(v: Vision, m: Machine, inputs: seq<Input>, counts: seq<nat>, from: nat, n: nat, i: nat)
    requires |counts| == |inputs| && inputs != [] && Nondecreasing(counts) && Continues(v, m, inputs, counts, from)
    requires i < |inputs| - 1 && LoadsIn(inputs, counts, from, n, i)
    ensures PictureIs(Watched(v, m, inputs).annotated, v, m, inputs, n, i)
  {
    WasPicture(v, m, inputs, counts, from, n, i);
    NotRetaken(inputs, counts, from, n, i);
  }

  lemma NewPicture(v: Vision, m: Machine, inputs: seq<Input>, counts: seq<nat>, from: nat, n: nat)
    requires |counts| == |inputs| && inputs != [] && Continues(v, m, inputs, counts, from)
    requires LoadsIn(inputs, counts, from, n, |inputs| - 1)
    ensures PictureIs(Watched(v, m, inputs).annotated, v, m, inputs, n, |inputs| - 1)
  {
    NewLeaves(inputs, counts, from, n);
    assert inputs[..|inputs|] == inputs;
  }

  lemma SessionStep(v: Vision, m: Machine, inputs: seq<Input>, counts: seq<nat>, from: nat)
    requires |counts| == |inputs| && inputs != [] && Nondecreasing(counts) && Continues(v, m, inputs, counts, from)
    ensures SessionPictures(v, m, inputs, counts, from)
  {
    forall key
      ensures var k := |inputs| - 1;
        LoadsAt(inputs, counts, from, key) <==>
          LoadsAt(inputs[..k], counts[..k], from, key) || LeavesAt(NewNumbers(counts, from), inputs[k].camera, key)
    {
      LoadsStep(inputs, counts, from, key);
    }
    forall n: nat, i: nat | LoadsIn(inputs, counts, from, n, i)
      ensures PictureIs(Watched(v, m, inputs).annotated, v, m, inputs, n, i)
    {
      if i < |inputs| - 1 {
        EarlierPicture(v, m, inputs, counts, from, n, i);
      } else {
        NewPicture(v, m, inputs, counts, from, n);
      }
    }
  }

  lemma NoIterationYet(v: Vision, m: Machine, from: nat)
    ensures SessionPictures(v, m, [], [], from)
  {
  }

  lemma SessionBefore(m: Machine, inputs: seq<Input>, counts: seq<nat>, from: nat)
    requires inputs != [] && ListsServer(inputs, counts) && Nondecreasing(counts) && TakenUp(m.track.last, counts, from)
    ensures var k := |inputs| - 1;
      ListsServer(inputs[..k], counts[..k]) && Nondecreasing(counts[..k]) && TakenUp(m.track.last, counts[..k], from)
  {
    TakenUpBefore(m.track.last, counts, from);
  }

  lemma IterationPictures(v: Vision, m: Machine, inputs: seq<Input>, counts: seq<nat>, from: nat)
    requires !m.crashed && m.track.last >= -1 && inputs != []
    requires ListsServer(inputs, counts) && Nondecreasing(counts) && TakenUp(m.track.last, counts, from)
    requires SessionPictures(v, m, inputs[..|inputs| - 1], counts[..|inputs| - 1], from)
    ensures SessionPictures(v, m, inputs, counts, from)
  {
    IterationExtends(v, m, inputs, counts, from);
    SessionStep(v, m, inputs, counts, from);
  }

  lemma {:induction false} SessionPicturedFrom(
      v: Vision, m: Machine, inputs: seq<Input>, counts: seq<nat>, from: nat)
    requires !m.crashed && m.track.last >= -1
    requires ListsServer(inputs, counts) && Nondecreasing(counts) && TakenUp(m.track.last, counts, from)
    ensures SessionPictures(v, m, inputs, counts, from)
  {
    if inputs == [] {
      NoIterationYet(v, m, from);
    } else {
      var k := |inputs| - 1;
      SessionBefore(m, inputs, counts, from);
      SessionPicturedFrom(v, m, inputs[..k], counts[..k], from);
      IterationPictures(v, m, inputs, counts, from);
    }
  }

  /** The picture under the name of frame n is the colour frame read in iteration i, with what was found in it. */
  ghost predicate Shows(after: map<string, Picture>, v: Vision, m: Machine, inputs: seq<Input>, n: nat, i: nat)
    requires i < |inputs|
  {
    && Key(n) in after
    && IsPictureOf(v, Watched(v, m, inputs[..i + 1]).settings, inputs[i].camera(FramePath(n)), after[Key(n)])
  }

  lemma PictureShows(after: map<string, Picture>, v: Vision, m: Machine, inputs: seq<Input>, n: nat, i: nat)
    requires i < |inputs| && PictureIs(after, v, m, inputs, n, i)
    ensures Shows(after, v, m, inputs, n, i)
  {
    AnnotationIs(v, Watched(v, m, inputs[..i + 1]).settings, inputs[i].camera(FramePath(n)));
  }

  ghost predicate AllShow(v: Vision, m: Machine, inputs: seq<Input>, counts: seq<nat>, from: nat)
    requires |counts| == |inputs|
  {
    forall n: nat, i: nat | LoadsIn(inputs, counts, from, n, i) ::
      Shows(Watched(v, m, inputs).annotated, v, m, inputs, n, i)
  }

  lemma PicturesShow(v: Vision, m: Machine, inputs: seq<Input>, counts: seq<nat>, from: nat)
    requires |counts| == |inputs| && SessionPictures(v, m, inputs, counts, from)
    ensures AllShow(v, m, inputs, counts, from)
  {
    var after := Watched(v, m, inputs).annotated;
    forall n: nat, i: nat | LoadsIn(inputs, counts, from, n, i) ensures Shows(after, v, m, inputs, n, i) {
      PictureShows(after, v, m, inputs, n, i);
    }
  }

  /**
   * End to end, from the loop in any state and any folder to the pictures: over a session in which the server adds
   * frames, those that get a picture are exactly the frames from where the session is taken up that loaded in the first
   * iteration to find them, each under its own name: the colour frame, with what that iteration's settings find in it.
   */
  lemma SessionPictured(v: Vision, m: Machine, inputs: seq<Input>, counts: seq<nat>)
    requires !m.crashed && m.track.last >= -1
    requires ListsServer(inputs, counts) && Nondecreasing(counts)
    ensures SessionPictures(v, m, inputs, counts, ResumeAt(m.track.last, VisibleAll(counts)))
    ensures AllShow(v, m, inputs, counts, ResumeAt(m.track.last, VisibleAll(counts)))
  {
    SessionPicturedFrom(v, m, inputs, counts, ResumeAt(m.track.last, VisibleAll(counts)));
    PicturesShow(v, m, inputs, counts, ResumeAt(m.track.last, VisibleAll(counts)));
  }

  lemma {:induction false} FoundOnce(counts: seq<nat>, n: nat) returns (i: nat)
    requires counts != [] && Nondecreasing(counts) && n < Visible(counts[|counts| - 1])
    ensures FoundIn(counts, n, i)
    ensures forall j: nat | FoundIn(counts, n, j) :: j == i
  {
    var k := |counts| - 1;
    if k == 0 || counts[k - 1] <= n {
      i := k;
    } else {
      i := FoundOnce(counts[..k], n);
      assert FoundIn(counts[..k], n, i);
      assert forall j: nat | FoundIn(counts, n, j) :: FoundIn(counts[..k], n, j);
    }
  }

  lemma PictureIff(v: Vision, m: Machine, inputs: seq<Input>, counts: seq<nat>, n: nat, i: nat)
    requires !m.crashed && m.track.last >= -1 && m.annotated == map[]
    requires ListsServer(inputs, counts) && Nondecreasing(counts) && FoundIn(counts, n, i)
    ensures n < Visible(counts[|counts| - 1])
    ensures Key(n) in Watched(v, m, inputs).annotated <==>
      LoadsIn(inputs, counts, ResumeAt(m.track.last, VisibleAll(counts)), n, i)
  {
    var from := ResumeAt(m.track.last, VisibleAll(counts));
    SessionPictured(v, m, inputs, counts);
    assert counts[i] <= counts[|counts| - 1];
    var first := FoundOnce(counts, n);
    if LoadsAt(inputs, counts, from, Key(n)) {
      var n': nat, j: nat :| LoadsIn(inputs, counts, from, n', j) && Key(n') == Key(n);
      KeyInjective(n, n');
    }
    assert LoadsIn(inputs, counts, from, n, i) ==> LoadsAt(inputs, counts, from, Key(n));
  }

  /** Every frame can be loaded in the iteration that finds it first. */
  ghost predicate AllLoadInTime(inputs: seq<Input>, counts: seq<nat>)
    requires |counts| == |inputs|
  {
    forall n: nat, i: nat | FoundIn(counts, n, i) :: inputs[i].camera(FramePath(n)).Loaded()
  }

  ghost predicate Unbroken(after: map<string, Picture>, top: nat) { forall n: nat | n < top :: Key(n) in after }

  /** The session is taken up at frame 0: nothing was processed before, or the reset test fires at its first listing. */
  ghost predicate FromTheStart(last: int, counts: seq<nat>) {
    last == -1 || FirstCount(VisibleAll(counts)) - 1 < last
  }

  lemma FromTheStartIff(last: int, counts: seq<nat>)
    requires last >= -1 && FirstCount(VisibleAll(counts)) > 0
    ensures FromTheStart(last, counts) <==> ResumeAt(last, VisibleAll(counts)) == 0
  {
  }

  lemma {:induction false} ShowsSomething(counts: seq<nat>)
    requires counts != [] && Nondecreasing(counts)
    ensures FirstCount(VisibleAll(counts)) == 0 <==> Visible(counts[|counts| - 1]) == 0
  {
    SessionFrom(START, VisibleAll(counts));
  }

  /**
   * The promise to the video, for the loop in any state: over a session that begins with an empty folder, the pictures
   * are numbered without a gap exactly when the session is taken up at frame 0 and each frame was complete in the
   * iteration that found it first.
   */
  lemma UnbrokenIff(v: Vision, m: Machine, inputs: seq<Input>, counts: seq<nat>)
    requires !m.crashed && m.track.last >= -1 && m.annotated == map[]
    requires ListsServer(inputs, counts) && Nondecreasing(counts)
    requires counts != [] && counts[|counts| - 1] > 0
    ensures Unbroken(Watched(v, m, inputs).annotated, Visible(counts[|counts| - 1]))
      <==> FromTheStart(m.track.last, counts) && AllLoadInTime(inputs, counts)
  {
    var after, from := Watched(v, m, inputs).annotated, ResumeAt(m.track.last, VisibleAll(counts));
    ShowsSomething(counts);
    FromTheStartIff(m.track.last, counts);
    if Unbroken(after, Visible(counts[|counts| - 1])) {
      var first := FoundOnce(counts, 0);
      PictureIff(v, m, inputs, counts, 0, first);
      assert Key(0) in after;
      forall n: nat, i: nat | FoundIn(counts, n, i) ensures inputs[i].camera(FramePath(n)).Loaded() {
        PictureIff(v, m, inputs, counts, n, i);
      }
    }
    if from == 0 && AllLoadInTime(inputs, counts) {
      forall n: nat | n < Visible(counts[|counts| - 1]) ensures Key(n) in after {
        var i := FoundOnce(counts, n);
        PictureIff(v, m, inputs, counts, n, i);
      }
    }
  }
}
