/**
 * The server and the detector as two interleaved processes over one folder. Every list of actions is a run; an action
 * that is not enabled changes nothing.
 *
 * The server's own code is not part of the model. Assumed of it: frames of a session are written in the order 0, 1, 2,
 * ...; a file is visible before it is complete; clearing the two folders is atomic and opens a new session.
 */
module Protocol {
  import opened Common
  import opened FrameNames
  import opened Tracker

  datatype Action =
    | Write             // the server creates the next frame; it is listed but does not load yet
    | Complete(i: nat)  // frame i becomes loadable
    | Clear             // the server empties both folders and starts over at frame 0
    | Look              // the detector lists the folder, tests for a reset and selects its batch
    | Read              // the detector processes the next frame of its batch

  /** The first non-empty listing of a session: last_processed before it, and the highest number it shows. */
  datatype First = First(last: int, highest: int)

  /**
   * History of one session: last_processed when it opened, whether a batch was under way then, its first non-empty
   * listing, and the highest number of its latest non-empty listing.
   */
  datatype Session = Session(lastBefore: int, spanned: bool, first: Option<First>, shown: int)

  /**
   * One frame processed: its number, the session of the file found under that name, whether it loaded, and whether
   * the batch stems from a listing of the session the read takes place in.
   */
  datatype Event = Event(number: int, session: Option<nat>, loaded: bool, current: bool)

  datatype State = State(
    disk: seq<bool>,        // disk[n]: frame n exists, and whether it is complete
    last: int,              // last_processed
    queue: seq<int>,        // what is left of the current batch
    annotated: set<int>,    // frame numbers present in annotated/
    log: seq<Event>,      // history
    sessions: seq<Session>  // history
  )

  const INIT := State([], -1, [], {}, [], [Session(-1, false, None, -1)])

  /** Numbers that the five-character pattern finds on this disk. */
  function Listing(disk: seq<bool>): seq<int> { Range(0, Visible(|disk|)) }

  /** Whatever glob returns for a folder with as many frames, in any order: sorted and parsed it is this list. */
  lemma ListingIsGlob(disk: seq<bool>, files: seq<string>)
    requires Globs(ServerFolder(|disk|), files)
    ensures AllParse(Sort(files)) && Numbers(Sort(files)) == Listing(disk)
  {
    ServerListing(|disk|, files);
  }

  function Apply(st: State, a: Action): State
    requires st.sessions != []
  {
    var now := |st.sessions| - 1;
    match a
    case Write => st.(disk := st.disk + [false])
    case Complete(i) => if i < |st.disk| then st.(disk := st.disk[i := true]) else st
    case Clear => st.(disk := [], annotated := {},
                      sessions := st.sessions + [Session(st.last, st.queue != [], None, -1)])
    case Look =>
      var nums := Listing(st.disk);
      if st.queue != [] || nums == [] then st
      else st.(last := Base(st.last, Highest(nums)),
               queue := Batch(st.last, nums),
               sessions := st.sessions[now := Looked(st.sessions[now], st.last, Highest(nums))])
    case Read =>
      if st.queue == [] then st
      else
        var e := Taken(st);
        st.(last := e.number,
            queue := st.queue[1..],
            annotated := if e.loaded then st.annotated + {e.number} else st.annotated,
            log := st.log + [e])
  }

  /** The next frame of the batch, as the disk has it. */
  function Taken(st: State): Event
    requires st.sessions != [] && st.queue != []
  {
    var f, now := st.queue[0], |st.sessions| - 1;
    var present := 0 <= f < |st.disk|;
    Event(f, if present then Some(now) else None, present && st.disk[f], st.sessions[now].first.Some?)
  }

  function Looked(s: Session, last: int, highest: int): Session {
    s.(first := if s.first.Some? then s.first else Some(First(last, highest)), shown := highest)
  }

  function Exec(actions: seq<Action>): (st: State)
    ensures st.sessions != []
  {
    if actions == [] then INIT else Apply(Exec(actions[..|actions| - 1]), actions[|actions| - 1])
  }

  // ---------- reading the history ----------

  /** Numbers read from files of session s by batches selected in session s, in order. */
  function OwnReads(log: seq<Event>, s: nat): seq<int> {
    if log == [] then []
    else
      var e := log[|log| - 1];
      OwnReads(log[..|log| - 1], s) + if e.session == Some(s) && e.current then [e.number] else []
  }

  /** Numbers read from files of session s by the remains of a batch selected before it. */
  function StaleReads(log: seq<Event>, s: nat): seq<int> {
    if log == [] then []
    else
      var e := log[|log| - 1];
      StaleReads(log[..|log| - 1], s) + if e.session == Some(s) && !e.current then [e.number] else []
  }

  /** How often frame f of session s was processed. */
  function TimesRead(log: seq<Event>, s: nat, f: int): nat {
    if log == [] then 0
    else
      var e := log[|log| - 1];
      TimesRead(log[..|log| - 1], s, f) + if e.session == Some(s) && e.number == f then 1 else 0
  }

  /** The highest number of the latest non-empty listing of these sessions. */
  function LastShown(sessions: seq<Session>): int {
    if sessions == [] then -1
    else if sessions[|sessions| - 1].first.Some? then sessions[|sessions| - 1].shown
    else LastShown(sessions[..|sessions| - 1])
  }

  /** Where the detector's own count of a session starts: every frame up to this number is passed over. */
  function Start(s: Session): int
    requires s.first.Some?
  {
    Base(s.first.value.last, s.first.value.highest)
  }

  lemma {:induction false} TimesReadSplit(log: seq<Event>, s: nat, f: int)
    ensures TimesRead(log, s, f) == Count(OwnReads(log, s), f) + Count(StaleReads(log, s), f)
  {
    if log == [] {
    } else {
      var e, before := log[|log| - 1], log[..|log| - 1];
      TimesReadSplit(before, s, f);
      CountConcat(OwnReads(before, s), if e.session == Some(s) && e.current then [e.number] else [], f);
      CountConcat(StaleReads(before, s), if e.session == Some(s) && !e.current then [e.number] else [], f);
      CountConcat([], [e.number], f);
      assert Count([e.number], f) == if e.number == f then 1 else 0 by {
        assert [e.number][..0] == [];
      }
    }
  }

  // ---------- the invariant ----------

  ghost predicate Consecutive(s: seq<int>, lo: int) { forall i | 0 <= i < |s| :: s[i] == lo + i }

  /** prev is the highest number listed before the session. */
  ghost predicate SessionOk(s: Session, prev: int, own: seq<int>, stale: seq<int>) {
    && s.lastBefore >= -1 && prev >= -1
    && Ascending(stale) && (forall x | x in stale :: s.lastBefore < x <= prev) && (!s.spanned ==> stale == [])
    && match s.first
       case None => own == [] && s.shown == -1
       case Some(first) =>
         && first.last == prev && 0 <= first.highest <= s.shown < CAPACITY
         && Consecutive(own, Start(s) + 1) && Start(s) + |own| <= s.shown
  }

  ghost predicate At(sessions: seq<Session>, log: seq<Event>, s: nat)
    requires s < |sessions|
  {
    SessionOk(sessions[s], LastShown(sessions[..s]), OwnReads(log, s), StaleReads(log, s))
  }

  /** A session whose successor opened between batches has been read to the end of what was listed of it. */
  ghost predicate Finished(sessions: seq<Session>, log: seq<Event>, s: nat)
    requires s + 1 < |sessions|
  {
    !sessions[s + 1].spanned && sessions[s].first.Some? ==> Start(sessions[s]) + |OwnReads(log, s)| == sessions[s].shown
  }

  ghost predicate AllAt(sessions: seq<Session>, log: seq<Event>) {
    forall s: nat | s < |sessions| :: At(sessions, log, s)
  }

  ghost predicate AllFinished(sessions: seq<Session>, log: seq<Event>) {
    forall s: nat | s + 1 < |sessions| :: Finished(sessions, log, s)
  }

  ghost predicate SessionsOk(sessions: seq<Session>, log: seq<Event>) {
    && sessions != [] && sessions[0].lastBefore == -1 && !sessions[0].spanned
    && AllAt(sessions, log) && AllFinished(sessions, log)
    && (forall i | 0 <= i < |log| && log[i].session.Some? :: log[i].session.value < |sessions|)
  }

  /** The session under way against the detector's own state. */
  ghost predicate CurrentOk(s: Session, own: seq<int>, stale: seq<int>, last: int, queue: seq<int>, onDisk: nat) {
    if s.first.None? then
      && s.lastBefore <= last
      && (forall x | x in stale :: x <= last)
      && (!s.spanned ==> queue == [])
    else
      && Start(s) + |own| == last
      && s.shown == last + |queue| < onDisk
  }

  ghost predicate QueueOk(last: int, queue: seq<int>, shown: int) {
    && last >= -1 && last + |queue| < CAPACITY
    && Consecutive(queue, last + 1)
    && last + |queue| == shown
  }

  ghost predicate Inv(st: State) {
    && SessionsOk(st.sessions, st.log)
    && QueueOk(st.last, st.queue, LastShown(st.sessions))
    && var now := |st.sessions| - 1;
       CurrentOk(st.sessions[now], OwnReads(st.log, now), StaleReads(st.log, now), st.last, st.queue, |st.disk|)
  }

  lemma {:induction false} NoReadsYet(log: seq<Event>, s: nat)
    requires forall i | 0 <= i < |log| && log[i].session.Some? :: log[i].session.value < s
    ensures OwnReads(log, s) == [] && StaleReads(log, s) == []
  {
    if log == [] {
    } else {
      NoReadsYet(log[..|log| - 1], s);
    }
  }

  /** What is known of session s depends on the history up to s and on the reads of s only. */
  lemma AtFrame(sessions: seq<Session>, log: seq<Event>, sessions': seq<Session>, log': seq<Event>, s: nat)
    requires s < |sessions| && s < |sessions'| && sessions[s] == sessions'[s] && sessions[..s] == sessions'[..s]
    requires OwnReads(log, s) == OwnReads(log', s) && StaleReads(log, s) == StaleReads(log', s)
    ensures At(sessions, log, s) <==> At(sessions', log', s)
  {
  }

  lemma FinishedFrame(sessions: seq<Session>, log: seq<Event>, sessions': seq<Session>, log': seq<Event>, s: nat)
    requires s + 1 < |sessions| && s + 1 < |sessions'|
    requires sessions[s] == sessions'[s] && sessions[s + 1].spanned == sessions'[s + 1].spanned
    requires OwnReads(log, s) == OwnReads(log', s)
    ensures Finished(sessions, log, s) <==> Finished(sessions', log', s)
  {
  }

  lemma ClearKeepsSessions(sessions: seq<Session>, log: seq<Event>, last: int, queue: seq<int>)
    requires SessionsOk(sessions, log) && last >= -1 && LastShown(sessions) >= -1
    requires var now := |sessions| - 1;
      queue == [] && sessions[now].first.Some? ==> Start(sessions[now]) + |OwnReads(log, now)| == sessions[now].shown
    ensures SessionsOk(sessions + [Session(last, queue != [], None, -1)], log)
  {
    var n := |sessions|;
    var sessions' := sessions + [Session(last, queue != [], None, -1)];
    NoReadsYet(log, n);
    assert sessions'[..n] == sessions;
    forall s: nat | s < n + 1 ensures At(sessions', log, s) {
      if s < n {
        assert At(sessions, log, s);
        assert sessions'[..s] == sessions[..s];
        AtFrame(sessions, log, sessions', log, s);
      }
    }
    forall s: nat | s + 1 < n + 1 ensures Finished(sessions', log, s) {
      if s + 1 < n {
        assert Finished(sessions, log, s);
        FinishedFrame(sessions, log, sessions', log, s);
      }
    }
  }

  lemma ClearKeepsInv(st: State)
    requires Inv(st)
    ensures Inv(Apply(st, Clear))
  {
    var n := |st.sessions|;
    ClearKeepsSessions(st.sessions, st.log, st.last, st.queue);
    NoReadsYet(st.log, n);
    assert Apply(st, Clear).sessions[..n] == st.sessions;
  }

  /** Replacing the history of the session under way leaves the earlier ones alone. */
  lemma UpdateCurrent(sessions: seq<Session>, log: seq<Event>, s': Session)
    requires SessionsOk(sessions, log)
    requires s'.lastBefore == sessions[|sessions| - 1].lastBefore && s'.spanned == sessions[|sessions| - 1].spanned
    requires var now := |sessions| - 1;
      SessionOk(s', LastShown(sessions[..now]), OwnReads(log, now), StaleReads(log, now))
    ensures SessionsOk(sessions[|sessions| - 1 := s'], log)
  {
    var now := |sessions| - 1;
    var sessions' := sessions[now := s'];
    forall s: nat | s < |sessions| ensures At(sessions', log, s) {
      assert sessions'[..s] == sessions[..s];
      if s < now {
        assert At(sessions, log, s);
        AtFrame(sessions, log, sessions', log, s);
      }
    }
    forall s: nat | s + 1 < |sessions| ensures Finished(sessions', log, s) {
      assert Finished(sessions, log, s);
      FinishedFrame(sessions, log, sessions', log, s);
    }
  }

  lemma LookAtSession(s: Session, prev: int, own: seq<int>, stale: seq<int>, last: int, highest: int, onDisk: nat)
    requires SessionOk(s, prev, own, stale) && CurrentOk(s, own, stale, last, [], onDisk)
    requires last == if s.first.Some? then s.shown else prev
    requires last < CAPACITY && highest == Visible(onDisk) - 1 >= 0
    ensures SessionOk(Looked(s, last, highest), prev, own, stale)
    ensures Start(Looked(s, last, highest)) + |own| == Base(last, highest) <= highest
  {
  }

  lemma LookKeepsSessions(st: State)
    requires Inv(st) && st.queue == [] && Listing(st.disk) != []
    ensures var now, highest := |st.sessions| - 1, Highest(Listing(st.disk));
      var s' := Looked(st.sessions[now], st.last, highest);
      && SessionsOk(st.sessions[now := s'], st.log)
      && Start(s') + |OwnReads(st.log, now)| == Base(st.last, highest) <= highest
  {
    var now, highest := |st.sessions| - 1, Highest(Listing(st.disk));
    assert At(st.sessions, st.log, now);
    LookAtSession(st.sessions[now], LastShown(st.sessions[..now]), OwnReads(st.log, now), StaleReads(st.log, now),
                  st.last, highest, |st.disk|);
    UpdateCurrent(st.sessions, st.log, Looked(st.sessions[now], st.last, highest));
  }

  /** A batch cut from a prefix listing. */
  lemma BatchOfPrefix(last: int, n: nat)
    requires last >= -1 && n > 0 && Base(last, n - 1) < n
    ensures var b := Batch(last, Range(0, n));
      Consecutive(b, Base(last, n - 1) + 1) && Base(last, n - 1) + |b| == n - 1
  {
    AboveRange(n, Base(last, n - 1));
  }

  lemma LookKeepsInv(st: State)
    requires Inv(st)
    ensures Inv(Apply(st, Look))
  {
    var nums := Listing(st.disk);
    if st.queue == [] && nums != [] {
      LookKeepsSessions(st);
      BatchOfPrefix(st.last, |nums|);
      assert LastShown(Apply(st, Look).sessions) == Highest(nums);
    }
  }

  /** Where an event goes: to the session's own reads, to its stale reads, or to neither. */
  lemma ReadsAppend(log: seq<Event>, e: Event, s: nat)
    ensures OwnReads(log + [e], s) ==
      if e.session == Some(s) && e.current then OwnReads(log, s) + [e.number] else OwnReads(log, s)
    ensures StaleReads(log + [e], s) ==
      if e.session == Some(s) && !e.current then StaleReads(log, s) + [e.number] else StaleReads(log, s)
  {
    assert (log + [e])[..|log|] == log;
  }

  /** One more event for the session under way leaves the earlier sessions alone. */
  lemma AppendKeepsAt(sessions: seq<Session>, log: seq<Event>, e: Event, s: nat)
    requires s < |sessions| && At(sessions, log, s) && e.session != Some(s)
    ensures At(sessions, log + [e], s)
  {
    ReadsAppend(log, e, s);
    AtFrame(sessions, log, sessions, log + [e], s);
  }

  lemma AppendKeepsFinished(sessions: seq<Session>, log: seq<Event>, e: Event, s: nat)
    requires s + 1 < |sessions| && Finished(sessions, log, s) && e.session != Some(s)
    ensures Finished(sessions, log + [e], s)
  {
    ReadsAppend(log, e, s);
    FinishedFrame(sessions, log, sessions, log + [e], s);
  }

  lemma AppendEvent(sessions: seq<Session>, log: seq<Event>, e: Event)
    requires SessionsOk(sessions, log)
    requires e.session.Some? ==> e.session.value == |sessions| - 1
    requires At(sessions, log + [e], |sessions| - 1)
    ensures SessionsOk(sessions, log + [e])
  {
    forall s: nat | s < |sessions| - 1 ensures At(sessions, log + [e], s) {
      assert At(sessions, log, s);
      AppendKeepsAt(sessions, log, e, s);
    }
    forall s: nat | s + 1 < |sessions| ensures Finished(sessions, log + [e], s) {
      assert Finished(sessions, log, s);
      AppendKeepsFinished(sessions, log, e, s);
    }
  }

  lemma AscendingAppend(s: seq<int>, x: int)
    requires Ascending(s) && forall y | y in s :: y < x
    ensures Ascending(s + [x])
  {
    assert forall i | 0 <= i < |s| :: s[i] in s;
  }

  /** Reading the next number: it joins the session's own reads, or, if its file exists, the stale ones. */
  lemma ReadInSession(s: Session, prev: int, own: seq<int>, stale: seq<int>, last: int, queue: seq<int>, onDisk: nat)
    requires SessionOk(s, prev, own, stale) && CurrentOk(s, own, stale, last, queue, onDisk)
    requires queue != [] && (s.first.None? ==> last + |queue| == prev)
    ensures s.first.Some? ==>
      && last + 1 < onDisk
      && SessionOk(s, prev, own + [last + 1], stale)
      && CurrentOk(s, own + [last + 1], stale, last + 1, queue[1..], onDisk)
    ensures s.first.None? ==>
      && SessionOk(s, prev, own, stale + [last + 1])
      && CurrentOk(s, own, stale + [last + 1], last + 1, queue[1..], onDisk)
      && CurrentOk(s, own, stale, last + 1, queue[1..], onDisk)
  {
    if s.first.None? {
      AscendingAppend(stale, last + 1);
      assert forall x | x in stale + [last + 1] :: x in stale || x == last + 1;
    }
  }

  lemma TakenIs(st: State)
    requires Inv(st) && st.queue != []
    ensures var e, now := Taken(st), |st.sessions| - 1;
      && e.number == st.last + 1 && e.current == st.sessions[now].first.Some?
      && e.session == if st.last + 1 < |st.disk| then Some(now) else None
  {
    assert st.queue[0] == st.last + 1;
  }

  lemma ReadInRun(st: State)
    requires Inv(st) && st.queue != []
    ensures var now, e := |st.sessions| - 1, Taken(st);
      var own, stale := OwnReads(st.log + [e], now), StaleReads(st.log + [e], now);
      && SessionOk(st.sessions[now], LastShown(st.sessions[..now]), own, stale)
      && CurrentOk(st.sessions[now], own, stale, st.last + 1, st.queue[1..], |st.disk|)
  {
    var now := |st.sessions| - 1;
    TakenIs(st);
    assert At(st.sessions, st.log, now);
    ReadInSession(st.sessions[now], LastShown(st.sessions[..now]), OwnReads(st.log, now), StaleReads(st.log, now),
                  st.last, st.queue, |st.disk|);
    ReadsAppend(st.log, Taken(st), now);
  }

  lemma ReadEffect(st: State)
    requires Inv(st) && st.queue != []
    ensures var st' := Apply(st, Read);
      && st'.sessions == st.sessions && st'.disk == st.disk && st'.log == st.log + [Taken(st)]
      && st'.last == st.last + 1 && st'.queue == st.queue[1..]
      && QueueOk(st'.last, st'.queue, LastShown(st.sessions))
  {
    TakenIs(st);
  }

  lemma ReadKeepsInv(st: State)
    requires Inv(st) && st.queue != []
    ensures Inv(Apply(st, Read))
  {
    TakenIs(st);
    ReadEffect(st);
    ReadInRun(st);
    assert At(st.sessions, st.log + [Taken(st)], |st.sessions| - 1);
    AppendEvent(st.sessions, st.log, Taken(st));
  }

  lemma {:induction false} Invariant(actions: seq<Action>)
    ensures Inv(Exec(actions))
  {
    if actions == [] {
      assert At(INIT.sessions, INIT.log, 0);
    } else {
      var before, a := actions[..|actions| - 1], actions[|actions| - 1];
      Invariant(before);
      match a
      case Write =>
      case Complete(i) =>
      case Clear => ClearKeepsInv(Exec(before));
      case Look => LookKeepsInv(Exec(before));
      case Read => if Exec(before).queue != [] { ReadKeepsInv(Exec(before)); }
    }
  }
}
