/** What holds of every interleaved run of server and detector. */
module Guarantees {
  import opened Common
  import opened FrameNames
  import opened Tracker
  import opened Protocol

  lemma ExecStep(actions: seq<Action>, a: Action)
    ensures Exec(actions + [a]) == Apply(Exec(actions), a)
  {
    assert (actions + [a])[..|actions|] == actions;
  }

  // ---------- how often each frame of each session is processed ----------

  /** What the history says of one frame of one session. */
  ghost predicate ReadAsListed(st: State, s: nat, f: int)
    requires s < |st.sessions|
  {
    var ses, own := st.sessions[s], OwnReads(st.log, s);
    && (ses.first.None? ==> own == [])
    && (ses.first.Some? ==> own == Range(Start(ses) + 1, Start(ses) + 1 + |own|))
    && TimesRead(st.log, s, f) ==
         (if ses.first.Some? && Start(ses) < f <= Start(ses) + |own| then 1 else 0)
         + (if f in StaleReads(st.log, s) then 1 else 0)
  }

  lemma ReadAsListedInv(st: State, s: nat, f: int)
    requires Inv(st) && s < |st.sessions|
    ensures ReadAsListed(st, s, f)
  {
    assert At(st.sessions, st.log, s);
    TimesReadSplit(st.log, s, f);
    CountInSession(st.sessions[s], LastShown(st.sessions[..s]), OwnReads(st.log, s), StaleReads(st.log, s), f);
  }

  /**
   * Session by session: the detector's own reads run through the numbers after Start without a gap, and on top of
   * them each frame may have been read once more by a batch left over from before the session.
   */
  lemma TimesReadExact(actions: seq<Action>, s: nat, f: int)
    requires s < |Exec(actions).sessions|
    ensures ReadAsListed(Exec(actions), s, f)
  {
    Invariant(actions);
    ReadAsListedInv(Exec(actions), s, f);
  }

  lemma CountInSession(ses: Session, prev: int, own: seq<int>, stale: seq<int>, f: int)
    requires SessionOk(ses, prev, own, stale)
    ensures ses.first.None? ==> own == []
    ensures ses.first.Some? ==> own == Range(Start(ses) + 1, Start(ses) + 1 + |own|)
    ensures Count(own, f) == if ses.first.Some? && Start(ses) < f <= Start(ses) + |own| then 1 else 0
    ensures Count(stale, f) == if f in stale then 1 else 0
  {
    CountDistinct(stale, f);
    if ses.first.Some? { CountConsecutive(own, Start(ses) + 1, f); }
  }

  lemma CountConsecutive(own: seq<int>, lo: int, f: int)
    requires Consecutive(own, lo)
    ensures own == Range(lo, lo + |own|)
    ensures Count(own, f) == if lo <= f < lo + |own| then 1 else 0
    ensures f in own <==> lo <= f < lo + |own|
  {
    CountDistinct(own, f);
    if lo <= f < lo + |own| {
      assert own[f - lo] == f;
    }
  }

  /** The reset test fired at the first listing of the session. */
  ghost predicate TakenForReset(s: Session) { s.first.Some? && s.first.value.highest < s.first.value.last }

  lemma TwiceInv(st: State, s: nat, f: int)
    requires Inv(st) && s < |st.sessions|
    ensures var ses, times := st.sessions[s], TimesRead(st.log, s, f);
      && times <= 2
      && (!ses.spanned ==> times <= 1)
      && (times == 2 <==> f in StaleReads(st.log, s) && TakenForReset(ses) && f < |OwnReads(st.log, s)|)
  {
    ReadAsListedInv(st, s, f);
    assert At(st.sessions, st.log, s);
  }

  /**
   * With the folder cleared at any moment, also in the middle of a batch, every frame of every session is processed
   * at most twice; at most once if no batch was under way when its session opened. Twice are those that the rest of
   * such a batch read and the session's own batches read again, from frame 0 on, after a reset.
   */
  lemma AtMostTwice(actions: seq<Action>, s: nat, f: int)
    requires s < |Exec(actions).sessions|
    ensures var st := Exec(actions);
      var ses, times := st.sessions[s], TimesRead(st.log, s, f);
      && times <= 2
      && (!ses.spanned ==> times <= 1)
      && (times == 2 <==> f in StaleReads(st.log, s) && TakenForReset(ses) && f < |OwnReads(st.log, s)|)
  {
    Invariant(actions);
    TwiceInv(Exec(actions), s, f);
  }

  /** No batch over session s was cut short by the clear that ended it, and none is under way now. */
  ghost predicate Settled(st: State, s: nat)
    requires s < |st.sessions|
  {
    if s + 1 < |st.sessions| then !st.sessions[s + 1].spanned else st.queue == []
  }

  lemma SettledShape(st: State, s: nat)
    requires Inv(st) && s < |st.sessions| && st.sessions[s].first.Some? && Settled(st, s)
    ensures Start(st.sessions[s]) + |OwnReads(st.log, s)| == st.sessions[s].shown
  {
    if s + 1 < |st.sessions| { assert Finished(st.sessions, st.log, s); }
  }

  /** A read now would take frame f of session s, which is there but has not been listed yet. */
  predicate TakesUnlisted(st: State, s: nat, f: int) {
    && |st.sessions| == s + 1 && st.sessions[s].first.None?
    && st.queue != [] && st.queue[0] == f && 0 <= f < |st.disk|
  }

  /** Some step of the run takes frame f of session s before the session is listed for the first time. */
  predicate ReadUnlisted(actions: seq<Action>, s: nat, f: int) {
    if actions == [] then false
    else
      var before, a := actions[..|actions| - 1], actions[|actions| - 1];
      ReadUnlisted(before, s, f) || (a.Read? && TakesUnlisted(Exec(before), s, f))
  }

  lemma StaleStep(st: State, a: Action, s: nat, f: int)
    requires st.sessions != []
    ensures f in StaleReads(Apply(st, a).log, s) <==>
      f in StaleReads(st.log, s) || (a.Read? && TakesUnlisted(st, s, f))
  {
    if a.Read? && st.queue != [] {
      ReadsAppend(st.log, Taken(st), s);
    } else {
      assert Apply(st, a).log == st.log;
    }
  }

  /** What a left-over batch has read of a session is what was taken from it before its first listing. */
  lemma {:induction false} StaleIff(actions: seq<Action>, s: nat, f: int)
    ensures f in StaleReads(Exec(actions).log, s) <==> ReadUnlisted(actions, s, f)
  {
    if actions == [] {
    } else {
      var n := |actions| - 1;
      StaleIff(actions[..n], s, f);
      StaleStep(Exec(actions[..n]), actions[n], s, f);
    }
  }

  /**
   * A frame is processed twice exactly when, first, the rest of an older batch takes it from the new session before the
   * session is listed, second, the session's first listing then falls below last_processed, and third, the listings
   * of the session come to show the frame.
   */
  lemma TwiceIff(actions: seq<Action>, s: nat, f: int)
    requires s < |Exec(actions).sessions| && Settled(Exec(actions), s)
    ensures var st := Exec(actions);
      TimesRead(st.log, s, f) == 2
      <==> ReadUnlisted(actions, s, f) && TakenForReset(st.sessions[s]) && f <= st.sessions[s].shown
  {
    Invariant(actions);
    StaleIff(actions, s, f);
    var st := Exec(actions);
    TwiceInv(st, s, f);
    if TakenForReset(st.sessions[s]) { SettledShape(st, s); }
  }

  /** The session has been listed, and read to the end of what was listed. */
  ghost predicate ReadOut(st: State, s: nat) {
    s < |st.sessions| && st.sessions[s].first.Some? && Settled(st, s)
  }

  /** And it opened between batches. */
  ghost predicate Regular(st: State, s: nat) { ReadOut(st, s) && !st.sessions[s].spanned }

  /** The first frame of session s that the detector does not pass over. */
  ghost function Resumes(st: State, s: nat): int
    requires s < |st.sessions| && st.sessions[s].first.Some?
  {
    var previous := LastShown(st.sessions[..s]);
    if st.sessions[s].first.value.highest < previous then 0 else previous + 1
  }

  lemma RegularShape(st: State, s: nat)
    requires Inv(st) && Regular(st, s)
    ensures StaleReads(st.log, s) == []
    ensures Resumes(st, s) == Start(st.sessions[s]) + 1
    ensures Start(st.sessions[s]) + |OwnReads(st.log, s)| == st.sessions[s].shown
  {
    assert At(st.sessions, st.log, s);
    SettledShape(st, s);
  }

  lemma RegularTimes(st: State, s: nat, f: int)
    requires Inv(st) && Regular(st, s)
    ensures OwnReads(st.log, s) == Range(Resumes(st, s), st.sessions[s].shown + 1)
    ensures TimesRead(st.log, s, f) == if Resumes(st, s) <= f <= st.sessions[s].shown then 1 else 0
  {
    RegularShape(st, s);
    ReadAsListedInv(st, s, f);
  }

  /** Of session s the frames from Resumes to the highest listed are processed, in order, once each, and no others. */
  ghost predicate ReadFromResumes(st: State, s: nat)
    requires s < |st.sessions| && st.sessions[s].first.Some?
  {
    && OwnReads(st.log, s) == Range(Resumes(st, s), st.sessions[s].shown + 1) && StaleReads(st.log, s) == []
    && forall f: int :: TimesRead(st.log, s, f) == if Resumes(st, s) <= f <= st.sessions[s].shown then 1 else 0
  }

  lemma ReadFromResumesInv(st: State, s: nat)
    requires Inv(st) && Regular(st, s)
    ensures ReadFromResumes(st, s)
  {
    RegularShape(st, s);
    RegularTimes(st, s, 0);
    forall f: int ensures TimesRead(st.log, s, f) == if Resumes(st, s) <= f <= st.sessions[s].shown then 1 else 0 {
      RegularTimes(st, s, f);
    }
  }

  /**
   * Exact loss at a session change. Let L be the highest number listed before the session, m the highest number of the
   * session's first non-empty listing, and h that of its latest. If m < L, frames 0..h are processed, in order, once
   * each. If m >= L, frames 0..L are never processed, and L+1..h are, in order, once each. Nothing else is.
   */
  lemma ExactLoss(actions: seq<Action>, s: nat)
    requires Regular(Exec(actions), s)
    ensures ReadFromResumes(Exec(actions), s)
  {
    Invariant(actions);
    ReadFromResumesInv(Exec(actions), s);
  }

  /** The reset test did not fire at the first listing of the session, so frames up to `previous` are passed over. */
  ghost predicate PassedOver(st: State, s: nat, f: int)
    requires s < |st.sessions| && st.sessions[s].first.Some?
  {
    f <= LastShown(st.sessions[..s]) <= st.sessions[s].first.value.highest
  }

  lemma LostInv(st: State, s: nat, f: int)
    requires Inv(st) && ReadOut(st, s) && 0 <= f <= st.sessions[s].shown
    ensures TimesRead(st.log, s, f) ==
      (if PassedOver(st, s, f) then 0 else 1) + (if f in StaleReads(st.log, s) then 1 else 0)
    ensures !st.sessions[s].spanned ==> f !in StaleReads(st.log, s)
  {
    assert At(st.sessions, st.log, s);
    ReadAsListedInv(st, s, f);
    SettledShape(st, s);
  }

  /**
   * Which frames of a session are lost, also if it opened in the middle of a batch: those up to the highest number L
   * listed before, if the first listing of the session reaches L, except what the rest of the batch took before that.
   */
  lemma LostIff(actions: seq<Action>, s: nat, f: int)
    requires ReadOut(Exec(actions), s) && 0 <= f <= Exec(actions).sessions[s].shown
    ensures var st := Exec(actions);
      && (TimesRead(st.log, s, f) == 0 <==> PassedOver(st, s, f) && !ReadUnlisted(actions, s, f))
      && (TimesRead(st.log, s, f) == 1 <==> (PassedOver(st, s, f) <==> ReadUnlisted(actions, s, f)))
      && (!st.sessions[s].spanned ==> !ReadUnlisted(actions, s, f))
  {
    Invariant(actions);
    StaleIff(actions, s, f);
    LostInv(Exec(actions), s, f);
  }

  /** The listed frames of session s are processed, each of them exactly once. */
  ghost predicate EachOnce(st: State, s: nat)
    requires s < |st.sessions|
  {
    forall f | 0 <= f <= st.sessions[s].shown :: TimesRead(st.log, s, f) == 1
  }

  lemma FirstIsListed(st: State, s: nat)
    requires Inv(st) && s < |st.sessions| && st.sessions[s].first.Some?
    ensures 0 <= st.sessions[s].first.value.highest <= st.sessions[s].shown && LastShown(st.sessions[..s]) >= -1
  {
    assert At(st.sessions, st.log, s);
  }

  /**
   * "Process every new frame", each one once: this holds for a session that opened between batches exactly when its
   * first non-empty listing stays below everything listed before, or nothing was listed before. If it opened in the
   * middle of a batch, it holds exactly when the rest of the batch took all frames that are passed over, and no other.
   */
  lemma NothingLostIff(actions: seq<Action>, s: nat)
    requires ReadOut(Exec(actions), s)
    ensures var st := Exec(actions);
      var ses, previous := st.sessions[s], LastShown(st.sessions[..s]);
      && (EachOnce(st, s) <==>
            forall f | 0 <= f <= ses.shown :: PassedOver(st, s, f) <==> ReadUnlisted(actions, s, f))
      && (!ses.spanned ==> (EachOnce(st, s) <==> ses.first.value.highest < previous || previous == -1))
  {
    Invariant(actions);
    var st := Exec(actions);
    FirstIsListed(st, s);
    forall f | 0 <= f <= st.sessions[s].shown
      ensures TimesRead(st.log, s, f) == 1 <==> (PassedOver(st, s, f) <==> ReadUnlisted(actions, s, f))
      ensures !st.sessions[s].spanned ==> !ReadUnlisted(actions, s, f)
    {
      LostIff(actions, s, f);
    }
    if EachOnce(st, s) && !st.sessions[s].spanned {
      assert TimesRead(st.log, s, 0) == 1;
    }
  }

  ghost predicate AllLoaded(log: seq<Event>) { forall i | 0 <= i < |log| :: log[i].loaded }

  const FIRST_READ := Event(0, Some(0), true, true)

  const FIRST_SESSION := Session(-1, false, Some(First(-1, 0)), 0)

  lemma ThreeSteps(actions: seq<Action>, a: Action, b: Action, c: Action)
    ensures Exec(actions + [a] + [b] + [c]) == Apply(Apply(Apply(Exec(actions), a), b), c)
  {
    ExecStep(actions, a);
    ExecStep(actions + [a], b);
    ExecStep(actions + [a] + [b], c);
  }

  lemma LookAtOneFrame(st: State)
    requires st == INIT.(disk := [true])
    ensures Apply(st, Look) == State([true], -1, [0], {}, [], [FIRST_SESSION])
  {
    AboveRange(1, -1);
    assert Listing(st.disk) == [0];
  }

  lemma OneFrameListed() returns (actions: seq<Action>)
    ensures Exec(actions) == State([true], -1, [0], {}, [], [FIRST_SESSION])
  {
    var none: seq<Action> := [];
    actions := none + [Write] + [Complete(0)] + [Look];
    ThreeSteps(none, Write, Complete(0), Look);
    LookAtOneFrame(Apply(Apply(INIT, Write), Complete(0)));
  }

  /** One frame is written and processed, and the folder is cleared. */
  lemma OneFrameSession() returns (actions: seq<Action>)
    ensures Exec(actions) == State([], 0, [], {}, [FIRST_READ], [FIRST_SESSION, Session(0, false, None, -1)])
  {
    var a := OneFrameListed();
    actions := a + [Read] + [Clear];
    ExecStep(a, Read);
    assert Exec(a + [Read]) == State([true], 0, [], {0}, [FIRST_READ], [FIRST_SESSION]);
    ExecStep(a + [Read], Clear);
  }

  /** A session change that loses a frame: after such a session the next frame 0 comes, complete and listed. */
  lemma LossExample() returns (actions: seq<Action>)
    ensures var st := Exec(actions);
      && Regular(st, 1) && st.disk == [true] && TimesRead(st.log, 1, 0) == 0
      && |st.sessions| == 2 && st.annotated == {} && AllLoaded(st.log)
  {
    var a := OneFrameSession();
    actions := a + [Write] + [Complete(0)] + [Look];
    ThreeSteps(a, Write, Complete(0), Look);
    AboveRange(1, 0);
    var st := Exec(actions);
    assert st.log == [FIRST_READ];
    assert st.log[..0] == [];
  }

  /** Two frames are listed, the folder is cleared before they are processed, and one frame of the new session comes. */
  lemma ClearedMidBatch() returns (actions: seq<Action>)
    ensures Exec(actions) ==
      State([false], -1, [0, 1], {}, [], [Session(-1, false, Some(First(-1, 1)), 1), Session(-1, true, None, -1)])
  {
    var a1 := [Write];
    var a2 := a1 + [Write];
    var a3 := a2 + [Look];
    var a4 := a3 + [Clear];
    assert a1 == [] + [Write];
    ExecStep([], Write);
    ExecStep(a1, Write);
    ExecStep(a2, Look);
    AboveRange(2, -1);
    assert Exec(a3).queue == [0, 1];
    ExecStep(a3, Clear);
    ExecStep(a4, Write);
    actions := a4 + [Write];
  }

  const STALE := Event(0, Some(1), false, false)
  const MISSING := Event(1, None, false, false)
  const AGAIN := Event(0, Some(1), false, true)

  /** The detector then works off its batch, finds frame 1 gone, looks again, and takes the lower number for a reset. */
  lemma TwiceSteps(st: State)
    requires st == State([false], -1, [0, 1], {}, [],
                         [Session(-1, false, Some(First(-1, 1)), 1), Session(-1, true, None, -1)])
    ensures var end := Apply(Apply(Apply(Apply(st, Read), Read), Look), Read);
      && |end.sessions| == 2
      && end.log == [STALE] + [MISSING] + [AGAIN]
  {
    var one := Apply(st, Read);
    assert one.queue == [1] && one.log == [STALE];
    var two := Apply(one, Read);
    assert two.queue == [] && two.log == one.log + [MISSING];
    AboveRange(1, -1);
    var three := Apply(two, Look);
    assert three.queue == [0] && three.log == two.log;
  }

  /** A frame processed twice: the clear comes in the middle of a batch, and the new session starts slowly. */
  lemma TwiceExample() returns (actions: seq<Action>)
    ensures |Exec(actions).sessions| == 2 && TimesRead(Exec(actions).log, 1, 0) == 2
  {
    var a := ClearedMidBatch();
    actions := a + [Read] + [Read] + [Look] + [Read];
    ExecStep(a, Read);
    ExecStep(a + [Read], Read);
    ExecStep(a + [Read] + [Read], Look);
    ExecStep(a + [Read] + [Read] + [Look], Read);
    TwiceSteps(Exec(a));
    TwiceCount();
  }

  lemma TwiceCount()
    ensures TimesRead([STALE] + [MISSING] + [AGAIN], 1, 0) == 2
  {
    TimesReadAppend([], STALE, 1, 0);
    assert [] + [STALE] == [STALE];
    TimesReadAppend([STALE], MISSING, 1, 0);
    TimesReadAppend([STALE] + [MISSING], AGAIN, 1, 0);
  }

  lemma TimesReadAppend(log: seq<Event>, e: Event, s: nat, f: int)
    ensures TimesRead(log + [e], s, f) == TimesRead(log, s, f) + if e.session == Some(s) && e.number == f then 1 else 0
  {
    assert (log + [e])[..|log|] == log;
  }

  // ---------- resets ----------

  lemma NoFalseResetInv(st: State)
    requires Inv(st) && st.queue == [] && Listing(st.disk) != []
    ensures Highest(Listing(st.disk)) < st.last ==> |st.sessions| >= 2 && st.sessions[|st.sessions| - 1].first.None?
  {
    assert At(st.sessions, st.log, |st.sessions| - 1);
    assert |st.sessions| == 1 ==> LastShown(st.sessions[..0]) == -1;
  }

  /**
   * A reset is never reported falsely: when a listing falls below last_processed, the folder has been cleared since the
   * listing before, and this is the first listing of the new session that shows anything.
   */
  lemma NoFalseReset(actions: seq<Action>)
    requires Exec(actions).queue == [] && Listing(Exec(actions).disk) != []
    ensures var st := Exec(actions);
      Highest(Listing(st.disk)) < st.last ==> |st.sessions| >= 2 && st.sessions[|st.sessions| - 1].first.None?
  {
    Invariant(actions);
    NoFalseResetInv(Exec(actions));
  }

  // ---------- capacity ----------

  /** Whatever the server writes, frames from 100000 on are never processed: the pattern hides them. */
  lemma {:induction false} WithinCapacity(actions: seq<Action>)
    ensures forall i | 0 <= i < |Exec(actions).log| :: 0 <= Exec(actions).log[i].number < CAPACITY
  {
    if actions == [] {
    } else {
      var before, a := actions[..|actions| - 1], actions[|actions| - 1];
      WithinCapacity(before);
      Invariant(before);
      var st := Exec(before);
      if a == Read && st.queue != [] {
        TakenIs(st);
      } else {
        assert Apply(st, a).log == st.log;
      }
    }
  }

  // ---------- one session: the annotated sequence ----------

  ghost predicate ClearFree(actions: seq<Action>) {
    forall i | 0 <= i < |actions| :: !actions[i].Clear?
  }

  /**
   * Before the first clear: the i-th frame processed is frame i, up to last_processed, and annotated/ holds exactly
   * those that loaded when they were processed.
   */
  ghost predicate InOrder(st: State) {
    && |st.sessions| == 1 && |st.log| == st.last + 1
    && (forall i | 0 <= i < |st.log| :: st.log[i].number == i && st.log[i].session == Some(0))
    && (forall n: int :: n in st.annotated <==> 0 <= n < |st.log| && st.log[n].loaded)
  }

  lemma LookWithoutReset(st: State)
    requires Inv(st) && |st.sessions| == 1
    ensures Apply(st, Look).last == st.last
  {
    assert At(st.sessions, st.log, 0);
    assert LastShown(st.sessions[..0]) == -1;
  }

  lemma ReadInOrder(st: State)
    requires Inv(st) && st.queue != [] && InOrder(st)
    ensures InOrder(Apply(st, Read))
  {
    assert At(st.sessions, st.log, 0);
    assert LastShown(st.sessions[..0]) == -1;
    assert st.queue[0] == st.last + 1 < |st.disk|;
    AppendInOrder(st, Apply(st, Read));
  }

  lemma AppendInOrder(st: State, st': State)
    requires InOrder(st) && st'.sessions == st.sessions && st'.last == st.last + 1 && |st'.log| == |st.log| + 1
    requires st'.log[..|st.log|] == st.log
    requires st'.log[|st.log|].number == |st.log| && st'.log[|st.log|].session == Some(0)
    requires st'.annotated == st.annotated + if st'.log[|st.log|].loaded then {|st.log|} else {}
    ensures InOrder(st')
  {
    assert forall i | 0 <= i < |st.log| :: st'.log[i] == st.log[i];
  }

  lemma {:induction false} FirstSessionInOrder(actions: seq<Action>)
    requires ClearFree(actions)
    ensures InOrder(Exec(actions))
  {
    if actions == [] {
    } else {
      var before, a := actions[..|actions| - 1], actions[|actions| - 1];
      FirstSessionInOrder(before);
      Invariant(before);
      match a
      case Write =>
      case Complete(i) =>
      case Look => LookWithoutReset(Exec(before));
      case Read => if Exec(before).queue != [] { ReadInOrder(Exec(before)); }
    }
  }

  /** The number of frames a player gets from annotated/: it stops at the first missing number. */
  ghost predicate UsablePrefix(annotated: set<int>, n: nat) {
    (forall i | 0 <= i < n :: i in annotated) && n !in annotated
  }

  function FirstUnloaded(log: seq<Event>): (n: nat)
    ensures n <= |log|
    ensures forall i | 0 <= i < n :: log[i].loaded
    ensures n < |log| ==> !log[n].loaded
  {
    if log == [] || !log[0].loaded then 0 else 1 + FirstUnloaded(log[1..])
  }

  /** The frame about to be processed, if any, is completely written. */
  predicate NextIsComplete(st: State) {
    st.queue == [] || (0 <= st.queue[0] < |st.disk| && st.disk[st.queue[0]])
  }

  /** Whenever the detector turns to a frame, the server has finished writing it. */
  predicate ReadsComplete(actions: seq<Action>) {
    if actions == [] then true
    else
      var before, a := actions[..|actions| - 1], actions[|actions| - 1];
      ReadsComplete(before) && (a.Read? ==> NextIsComplete(Exec(before)))
  }

  lemma LoadedStep(st: State, a: Action)
    requires st.sessions != []
    ensures AllLoaded(Apply(st, a).log) <==> AllLoaded(st.log) && (a.Read? ==> NextIsComplete(st))
  {
    if a.Read? && st.queue != [] {
      var log := st.log + [Taken(st)];
      assert log[|st.log|] == Taken(st);
      assert forall i | 0 <= i < |st.log| :: log[i] == st.log[i];
    } else {
      assert Apply(st, a).log == st.log;
    }
  }

  lemma {:induction false} LoadedIff(actions: seq<Action>)
    ensures AllLoaded(Exec(actions).log) <==> ReadsComplete(actions)
  {
    if actions == [] {
    } else {
      var n := |actions| - 1;
      LoadedIff(actions[..n]);
      LoadedStep(Exec(actions[..n]), actions[n]);
    }
  }

  /**
   * The annotated sequence is unbroken exactly when every frame was completely written by the time it was processed;
   * in any case its usable part ends at the first frame that did not load.
   */
  lemma AnnotatedUnbrokenIff(actions: seq<Action>)
    requires ClearFree(actions)
    ensures var st := Exec(actions);
      && ((forall f | 0 <= f <= st.last :: f in st.annotated) <==> ReadsComplete(actions))
      && UsablePrefix(st.annotated, FirstUnloaded(st.log))
  {
    FirstSessionInOrder(actions);
    LoadedIff(actions);
    var st := Exec(actions);
    if forall f | 0 <= f <= st.last :: f in st.annotated {
      forall i | 0 <= i < |st.log| ensures st.log[i].loaded {
        assert i in st.annotated;
      }
    }
  }

  lemma {:induction false} LogGrows(actions: seq<Action>, more: seq<Action>)
    ensures Exec(actions).log <= Exec(actions + more).log
  {
    if more == [] {
      assert actions + more == actions;
    } else {
      LogGrows(actions, more[..|more| - 1]);
      assert (actions + more)[..|actions + more| - 1] == actions + more[..|more| - 1];
    }
  }

  /** A frame that did not load is not tried again as long as the session goes on: the sequence stays broken there. */
  lemma NeverRetried(actions: seq<Action>, more: seq<Action>)
    requires ClearFree(actions + more)
    ensures ClearFree(actions)
    ensures var log, later := Exec(actions).log, Exec(actions + more);
      && (forall f: nat | f < |log| && !log[f].loaded :: f !in later.annotated)
      && (FirstUnloaded(log) < |log| ==> UsablePrefix(later.annotated, FirstUnloaded(log)))
  {
    LogGrows(actions, more);
    FirstSessionInOrder(actions + more);
    forall i | 0 <= i < |actions| ensures !actions[i].Clear? {
      assert (actions + more)[i] == actions[i];
    }
  }

  /**
   * A run that breaks the sequence: frame 0 is listed while the server is still writing it, does not load, and stays
   * out of annotated/ although it is completed later and the folder is listed again.
   */
  lemma BrokenExample() returns (actions: seq<Action>)
    ensures ClearFree(actions) && !ReadsComplete(actions)
    ensures var st := Exec(actions);
      st.disk == [true] && st.last == 0 && st.queue == [] && 0 !in st.annotated
  {
    var a1 := [Write];
    var a2 := a1 + [Look];
    var a3 := a2 + [Read];
    var a4 := a3 + [Complete(0)];
    actions := a4 + [Look];
    assert a1 == [] + [Write];
    ExecStep([], Write);
    ExecStep(a1, Look);
    AboveRange(1, -1);
    assert Exec(a2).queue == [0];
    ExecStep(a2, Read);
    assert Exec(a3).log == [Event(0, Some(0), false, true)];
    ExecStep(a3, Complete(0));
    ExecStep(a4, Look);
    AboveRange(1, 0);
    LoadedIff(actions);
    assert !Exec(actions).log[0].loaded;
  }

  // ---------- a batch without interference is a scan ----------

  function ReadAll(st: State): (st': State)
    requires st.sessions != []
    ensures st'.sessions != []
    decreases |st.queue|
  {
    if st.queue == [] then st else ReadAll(Apply(st, Read))
  }

  function NumbersRead(log: seq<Event>): seq<int> {
    seq(|log|, i requires 0 <= i < |log| => log[i].number)
  }

  lemma {:induction false} ReadAllEffect(st: State)
    requires st.sessions != []
    ensures ReadAll(st).last == if st.queue == [] then st.last else Highest(st.queue)
    ensures NumbersRead(ReadAll(st).log) == NumbersRead(st.log) + st.queue
    ensures ReadAll(st).queue == [] && ReadAll(st).sessions == st.sessions
    decreases |st.queue|
  {
    if st.queue == [] {
    } else {
      ReadAllEffect(Apply(st, Read));
    }
  }

  /**
   * A listing whose batch runs to its end undisturbed does what one scan of the tracker does: it resets when the
   * tracker does, takes the same frames in the same order, and ends with the frame that the tracker posts.
   */
  lemma BatchIsScan(st: State, t: Track)
    requires st.sessions != [] && st.queue == [] && t.last == st.last >= -1
    ensures var listed, t' := Apply(st, Look), Scan(t, Listing(st.disk));
      var st' := ReadAll(listed);
      && st'.queue == [] && st'.last == t'.last >= -1
      && t'.resets == t.resets + (if listed.last < st.last then 1 else 0)
      && t'.trace == t.trace + listed.queue && NumbersRead(st'.log) == NumbersRead(st.log) + listed.queue
      && t'.posts == t.posts + if listed.queue == [] then [] else [Post(t'.resets, Highest(listed.queue))]
  {
    ReadAllEffect(Apply(st, Look));
    var nums := Listing(st.disk);
    if nums != [] {
      ScanStep(t, nums);
      BatchSelects(t.last, nums);
    }
  }

  function ApplyAll(st: State, actions: seq<Action>): (st': State)
    requires st.sessions != []
    ensures st'.sessions != []
  {
    if actions == [] then st else Apply(ApplyAll(st, actions[..|actions| - 1]), actions[|actions| - 1])
  }

  predicate ByServer(actions: seq<Action>) {
    forall i | 0 <= i < |actions| :: !actions[i].Look? && !actions[i].Read?
  }

  /** Round by round: the server does what it likes, then the detector lists the folder and processes its batch. */
  function Rounds(changes: seq<seq<Action>>): (st: State)
    ensures st.sessions != []
  {
    if changes == [] then INIT
    else ReadAll(Apply(ApplyAll(Rounds(changes[..|changes| - 1]), changes[|changes| - 1]), Look))
  }

  /** What the detector sees of the folder in each round. */
  function Listings(changes: seq<seq<Action>>): (r: seq<seq<int>>)
    ensures |r| == |changes|
  {
    if changes == [] then []
    else
      var before, latest := changes[..|changes| - 1], changes[|changes| - 1];
      Listings(before) + [Listing(ApplyAll(Rounds(before), latest).disk)]
  }

  lemma {:induction false} ExecAppend(actions: seq<Action>, more: seq<Action>)
    ensures Exec(actions + more) == ApplyAll(Exec(actions), more)
  {
    if more == [] {
      assert actions + more == actions;
    } else {
      var n := |more| - 1;
      ExecAppend(actions, more[..n]);
      assert (actions + more)[..|actions| + n] == actions + more[..n];
    }
  }

  lemma {:induction false} ReadAllIsRun(actions: seq<Action>) returns (more: seq<Action>)
    ensures Exec(actions + more) == ReadAll(Exec(actions))
    decreases |Exec(actions).queue|
  {
    if Exec(actions).queue == [] {
      more := [];
      assert actions + more == actions;
    } else {
      ExecStep(actions, Read);
      var rest := ReadAllIsRun(actions + [Read]);
      more := [Read] + rest;
      assert actions + more == actions + [Read] + rest;
    }
  }

  /** The rounds make up one of the interleaved runs, and so does every round up to its listing. */
  lemma {:induction false} RoundsAreRun(changes: seq<seq<Action>>) returns (actions: seq<Action>)
    ensures Exec(actions) == Rounds(changes)
  {
    if changes == [] {
      actions := [];
    } else {
      var n := |changes| - 1;
      var before := RoundsAreRun(changes[..n]);
      ExecAppend(before, changes[n]);
      var listed := before + changes[n] + [Look];
      ExecStep(before + changes[n], Look);
      var more := ReadAllIsRun(listed);
      actions := listed + more;
    }
  }

  /** In how many sessions the reset test fired. */
  ghost function ResetsIn(sessions: seq<Session>): nat {
    if sessions == [] then 0
    else ResetsIn(sessions[..|sessions| - 1]) + if TakenForReset(sessions[|sessions| - 1]) then 1 else 0
  }

  lemma {:induction false} ServerLeaves(st: State, actions: seq<Action>)
    requires st.sessions != [] && ByServer(actions)
    ensures var st' := ApplyAll(st, actions);
      && st'.last == st.last && st'.queue == st.queue && st'.log == st.log
      && ResetsIn(st'.sessions) == ResetsIn(st.sessions)
  {
    if actions == [] {
    } else {
      var n := |actions| - 1;
      ServerLeaves(st, actions[..n]);
      var before := ApplyAll(st, actions[..n]);
      if actions[n].Clear? {
        var sessions := Apply(before, Clear).sessions;
        assert sessions[..|sessions| - 1] == before.sessions;
      }
    }
  }

  lemma LookCountsResets(st: State)
    requires Inv(st) && st.queue == []
    ensures var st' := Apply(st, Look);
      ResetsIn(st'.sessions) == ResetsIn(st.sessions) + if st'.last < st.last then 1 else 0
  {
    var now, nums := |st.sessions| - 1, Listing(st.disk);
    if nums != [] {
      var sessions := Apply(st, Look).sessions;
      assert sessions[..now] == st.sessions[..now];
      LookCountsOnce(st);
    }
  }

  lemma LookCountsOnce(st: State)
    requires Inv(st) && st.queue == [] && Listing(st.disk) != []
    ensures var ses, highest := st.sessions[|st.sessions| - 1], Highest(Listing(st.disk));
      && (ses.first.Some? ==> st.last <= highest)
      && (ses.first.None? ==> (TakenForReset(Looked(ses, st.last, highest)) <==> Base(st.last, highest) < st.last))
  {
  }

  /** State and tracker agree between two rounds. */
  ghost predicate Agree(st: State, t: Track) {
    && st.queue == [] && st.last == t.last >= -1
    && NumbersRead(st.log) == t.trace
    && ResetsIn(st.sessions) == t.resets
  }

  lemma RoundKeepsAgree(st: State, t: Track)
    requires Inv(st) && Agree(st, t)
    ensures Agree(ReadAll(Apply(st, Look)), Scan(t, Listing(st.disk)))
  {
    BatchIsScan(st, t);
    ReadAllEffect(Apply(st, Look));
    LookCountsResets(st);
  }

  /**
   * If no batch is disturbed, the interleaved run is the tracker's run over the listings: the same frames in the same
   * order, the same last_processed, and as many resets as there are sessions for which the test fired.
   */
  lemma {:induction false} RoundsAreScans(changes: seq<seq<Action>>)
    requires forall i | 0 <= i < |changes| :: ByServer(changes[i])
    ensures Agree(Rounds(changes), Run(Listings(changes)))
  {
    if changes == [] {
      assert INIT.sessions[..0] == [];
    } else {
      var n := |changes| - 1;
      RoundsAreScans(changes[..n]);
      var before, listings := Rounds(changes[..n]), Listings(changes);
      ServerLeaves(before, changes[n]);
      var actions := RoundsAreRun(changes[..n]);
      ExecAppend(actions, changes[n]);
      Invariant(actions + changes[n]);
      RoundKeepsAgree(ApplyAll(before, changes[n]), Run(listings[..n]));
    }
  }
}
