/** What annotated/ holds of each session, and so what can become of it in the video. */
module Video {
  import opened Common
  import opened Tracker
  import opened Protocol
  import opened Guarantees

  /** Frames of session s that were processed and loaded. */
  function Pictures(log: seq<Event>, s: nat): set<int> {
    if log == [] then {}
    else
      var e := log[|log| - 1];
      Pictures(log[..|log| - 1], s) + if e.session == Some(s) && e.loaded then {e.number} else {}
  }

  lemma PicturesAppend(log: seq<Event>, e: Event, s: nat)
    ensures Pictures(log + [e], s) ==
      if e.session == Some(s) && e.loaded then Pictures(log, s) + {e.number} else Pictures(log, s)
  {
    assert (log + [e])[..|log|] == log;
  }

  lemma {:induction false} NoPicturesYet(log: seq<Event>, s: nat)
    requires forall i | 0 <= i < |log| && log[i].session.Some? :: log[i].session.value < s
    ensures Pictures(log, s) == {}
  {
    if log == [] {
    } else {
      NoPicturesYet(log[..|log| - 1], s);
    }
  }

  /** At any time annotated/ holds the pictures of the session under way, and nothing else. */
  ghost predicate HoldsPictures(st: State)
    requires st.sessions != []
  {
    st.annotated == Pictures(st.log, |st.sessions| - 1)
  }

  lemma StepHolds(st: State, a: Action)
    requires Inv(st) && HoldsPictures(st)
    ensures HoldsPictures(Apply(st, a))
  {
    match a
    case Write =>
    case Complete(i) =>
    case Clear => NoPicturesYet(st.log, |st.sessions|);
    case Look =>
    case Read => if st.queue != [] { PicturesAppend(st.log, Taken(st), |st.sessions| - 1); }
  }

  lemma {:induction false} AnnotatedIsPictures(actions: seq<Action>)
    ensures HoldsPictures(Exec(actions))
  {
    if actions == [] {
    } else {
      var n := |actions| - 1;
      AnnotatedIsPictures(actions[..n]);
      Invariant(actions[..n]);
      StepHolds(Exec(actions[..n]), actions[n]);
    }
  }

  // ---------- pictures and reads ----------

  ghost predicate IsRead(e: Event, s: nat, f: int) { e.session == Some(s) && e.number == f }

  lemma {:induction false} PicturedIsRead(log: seq<Event>, s: nat, f: int)
    ensures f in Pictures(log, s) ==> TimesRead(log, s, f) >= 1
  {
    if log == [] {
    } else {
      PicturedIsRead(log[..|log| - 1], s, f);
    }
  }

  lemma {:induction false} ReadIsCounted(log: seq<Event>, s: nat, f: int, i: nat)
    requires i < |log| && IsRead(log[i], s, f)
    ensures TimesRead(log, s, f) >= 1
    ensures log[i].loaded ==> f in Pictures(log, s)
  {
    if i == |log| - 1 {
    } else {
      ReadIsCounted(log[..|log| - 1], s, f, i);
    }
  }

  lemma {:induction false} CountedIsRead(log: seq<Event>, s: nat, f: int) returns (i: nat)
    requires TimesRead(log, s, f) >= 1
    ensures i < |log| && IsRead(log[i], s, f)
  {
    if IsRead(log[|log| - 1], s, f) {
      i := |log| - 1;
    } else {
      i := CountedIsRead(log[..|log| - 1], s, f);
    }
  }

  /** A frame that failed to load and has a picture all the same was processed twice. */
  lemma {:induction false} UnloadedOnceMore(log: seq<Event>, s: nat, f: int, i: nat)
    requires i < |log| && IsRead(log[i], s, f) && !log[i].loaded && f in Pictures(log, s)
    ensures TimesRead(log, s, f) >= 2
  {
    var n := |log| - 1;
    if i == n {
      PicturedIsRead(log[..n], s, f);
    } else if IsRead(log[n], s, f) {
      ReadIsCounted(log[..n], s, f, i);
    } else {
      UnloadedOnceMore(log[..n], s, f, i);
    }
  }

  // ---------- reads as steps ----------

  /** A read now would take frame f of session s. */
  predicate Takes(st: State, s: nat, f: int) {
    |st.sessions| == s + 1 && st.queue != [] && st.queue[0] == f && 0 <= f < |st.disk|
  }

  /** Some step of the run takes frame f of session s when it is complete. */
  predicate TakenComplete(actions: seq<Action>, s: nat, f: int) {
    if actions == [] then false
    else
      var before, a := actions[..|actions| - 1], actions[|actions| - 1];
      TakenComplete(before, s, f) || (a.Read? && Takes(Exec(before), s, f) && Exec(before).disk[f])
  }

  lemma {:induction false} PicturedIff(actions: seq<Action>, s: nat, f: int)
    ensures f in Pictures(Exec(actions).log, s) <==> TakenComplete(actions, s, f)
  {
    if actions == [] {
    } else {
      var n := |actions| - 1;
      PicturedIff(actions[..n], s, f);
      PictureStep(Exec(actions[..n]), actions[n], s, f);
    }
  }

  lemma PictureStep(st: State, a: Action, s: nat, f: int)
    requires st.sessions != []
    ensures f in Pictures(Apply(st, a).log, s) <==>
      f in Pictures(st.log, s) || (a.Read? && Takes(st, s, f) && st.disk[f])
  {
    if a.Read? && st.queue != [] {
      PicturesAppend(st.log, Taken(st), s);
    } else {
      assert Apply(st, a).log == st.log;
    }
  }

  /** Whenever the run takes a frame of session s, the server has finished writing it. */
  predicate TakesComplete(actions: seq<Action>, s: nat) {
    if actions == [] then true
    else
      var before, a := actions[..|actions| - 1], actions[|actions| - 1];
      TakesComplete(before, s)
      && (a.Read? && Exec(before).queue != [] && Takes(Exec(before), s, Exec(before).queue[0]) ==>
            Exec(before).disk[Exec(before).queue[0]])
  }

  ghost predicate LoadedIn(log: seq<Event>, s: nat) {
    forall i | 0 <= i < |log| && log[i].session == Some(s) :: log[i].loaded
  }

  lemma LoadedInStep(st: State, a: Action, s: nat)
    requires st.sessions != []
    ensures LoadedIn(Apply(st, a).log, s) <==>
      LoadedIn(st.log, s) && (a.Read? && st.queue != [] && Takes(st, s, st.queue[0]) ==> st.disk[st.queue[0]])
  {
    if a.Read? && st.queue != [] {
      var log := st.log + [Taken(st)];
      assert log[|st.log|] == Taken(st);
      assert forall i | 0 <= i < |st.log| :: log[i] == st.log[i];
    } else {
      assert Apply(st, a).log == st.log;
    }
  }

  lemma {:induction false} LoadedInIff(actions: seq<Action>, s: nat)
    ensures LoadedIn(Exec(actions).log, s) <==> TakesComplete(actions, s)
  {
    if actions == [] {
    } else {
      var n := |actions| - 1;
      LoadedInIff(actions[..n], s);
      LoadedInStep(Exec(actions[..n]), actions[n], s);
    }
  }

  // ---------- when the sequence of a session is unbroken ----------

  /** Of everything listed of session s there is a picture. */
  ghost predicate Unbroken(st: State, s: nat)
    requires s < |st.sessions|
  {
    forall f | 0 <= f <= st.sessions[s].shown :: f in Pictures(st.log, s)
  }

  /** What a frame needs to have a picture: not to be lost at the session change, and to be complete at its turn. */
  lemma FramePictured(actions: seq<Action>, s: nat, f: int)
    requires ReadOut(Exec(actions), s) && 0 <= f <= Exec(actions).sessions[s].shown
    ensures var st := Exec(actions);
      f in Pictures(st.log, s)
      <==> (PassedOver(st, s, f) ==> ReadUnlisted(actions, s, f))
           && (TimesRead(st.log, s, f) > 0 ==> TakenComplete(actions, s, f))
  {
    PicturedIff(actions, s, f);
    PicturedIsRead(Exec(actions).log, s, f);
    LostIff(actions, s, f);
  }

  /** No frame is passed over after the session change but those that the rest of an older batch took. */
  ghost predicate NoneLost(actions: seq<Action>, s: nat)
    requires ReadOut(Exec(actions), s)
  {
    var st := Exec(actions);
    forall f | 0 <= f <= st.sessions[s].shown :: PassedOver(st, s, f) ==> ReadUnlisted(actions, s, f)
  }

  /** Every frame that is processed at all is complete on one of those occasions. */
  ghost predicate EachComplete(actions: seq<Action>, s: nat)
    requires ReadOut(Exec(actions), s)
  {
    var st := Exec(actions);
    forall f | 0 <= f <= st.sessions[s].shown :: TimesRead(st.log, s, f) > 0 ==> TakenComplete(actions, s, f)
  }

  /** The sequence of any session is unbroken exactly under these two conditions. */
  lemma UnbrokenIff(actions: seq<Action>, s: nat)
    requires ReadOut(Exec(actions), s)
    ensures Unbroken(Exec(actions), s) <==> NoneLost(actions, s) && EachComplete(actions, s)
  {
    var st := Exec(actions);
    if Unbroken(st, s) {
      forall f | 0 <= f <= st.sessions[s].shown
        ensures PassedOver(st, s, f) ==> ReadUnlisted(actions, s, f)
        ensures TimesRead(st.log, s, f) > 0 ==> TakenComplete(actions, s, f)
      {
        assert f in Pictures(st.log, s);
        FramePictured(actions, s, f);
      }
    }
    if NoneLost(actions, s) && EachComplete(actions, s) {
      forall f | 0 <= f <= st.sessions[s].shown ensures f in Pictures(st.log, s) {
        assert PassedOver(st, s, f) ==> ReadUnlisted(actions, s, f);
        FramePictured(actions, s, f);
      }
    }
  }

  /** In a session that opened between batches: with a full sequence, every read has loaded. */
  lemma UnbrokenLoads(st: State, s: nat)
    requires Inv(st) && Regular(st, s) && Unbroken(st, s)
    ensures LoadedIn(st.log, s)
  {
    ReadFromResumesInv(st, s);
    forall i | 0 <= i < |st.log| && st.log[i].session == Some(s) ensures st.log[i].loaded {
      var f := st.log[i].number;
      ReadIsCounted(st.log, s, f, i);
      FirstIsListed(st, s);
      assert TimesRead(st.log, s, f) == 1;
      if !st.log[i].loaded { UnloadedOnceMore(st.log, s, f, i); }
    }
  }

  lemma ReadLoads(st: State, s: nat)
    requires LoadedIn(st.log, s) && s < |st.sessions|
    requires forall f | 0 <= f <= st.sessions[s].shown :: TimesRead(st.log, s, f) == 1
    ensures Unbroken(st, s)
  {
    forall f | 0 <= f <= st.sessions[s].shown ensures f in Pictures(st.log, s) {
      var i := CountedIsRead(st.log, s, f);
      ReadIsCounted(st.log, s, f, i);
    }
  }

  /**
   * The sequence of a session that opened between batches is unbroken exactly when its first listing stays below
   * everything listed before, or nothing was listed before, and every frame was complete when the detector turned to
   * it. If the first condition fails, the sequence does not even begin: frame 0 is missing.
   */
  lemma SessionUnbrokenIff(actions: seq<Action>, s: nat)
    requires Regular(Exec(actions), s)
    ensures var st := Exec(actions);
      var highest, previous := st.sessions[s].first.value.highest, LastShown(st.sessions[..s]);
      && (Unbroken(st, s) <==> (highest < previous || previous == -1) && TakesComplete(actions, s))
      && (0 <= previous <= highest ==> UsablePrefix(Pictures(st.log, s), 0))
  {
    var st := Exec(actions);
    Invariant(actions);
    NothingLostIff(actions, s);
    LoadedInIff(actions, s);
    FirstIsListed(st, s);
    LostIff(actions, s, 0);
    PicturedIsRead(st.log, s, 0);
    if Unbroken(st, s) { UnbrokenLoads(st, s); }
    if EachOnce(st, s) && LoadedIn(st.log, s) { ReadLoads(st, s); }
  }

  /** The same of the folder itself, at any moment between two batches, and so when the server makes the video. */
  lemma FolderUnbrokenIff(actions: seq<Action>)
    requires Regular(Exec(actions), |Exec(actions).sessions| - 1)
    ensures var st := Exec(actions);
      var now := |st.sessions| - 1;
      var highest, previous := st.sessions[now].first.value.highest, LastShown(st.sessions[..now]);
      && ((forall f | 0 <= f <= st.sessions[now].shown :: f in st.annotated)
          <==> (highest < previous || previous == -1) && TakesComplete(actions, now))
      && (0 <= previous <= highest ==> UsablePrefix(st.annotated, 0))
  {
    AnnotatedIsPictures(actions);
    SessionUnbrokenIff(actions, |Exec(actions).sessions| - 1);
  }

  /** A run in which every frame is complete at its turn and a session change breaks the sequence all the same. */
  lemma GapExample() returns (actions: seq<Action>)
    ensures Regular(Exec(actions), 1) && |Exec(actions).sessions| == 2
    ensures ReadsComplete(actions) && TakesComplete(actions, 1)
    ensures Exec(actions).disk == [true] && UsablePrefix(Exec(actions).annotated, 0)
  {
    actions := LossExample();
    LoadedIff(actions);
    LoadedInIff(actions, 1);
  }
}
