/** The four tunable settings, their refresh from the dashboard, and its timer. */
module Configuration {
  import opened Common

  datatype Settings = Settings(threshold: int, blurKernel: int, morphKernel: int, minArea: int)

  const DEFAULTS := Settings(200, 7, 8, 700)

  /** The fields that the dashboard's answer carries. */
  datatype Reply = Reply(
    threshold: Option<int>, blurKernel: Option<int>, morphKernel: Option<int>, minArea: Option<int>)

  function Or(supplied: Option<int>, current: int): int { if supplied.Some? then supplied.value else current }

  /** fetch_settings; no reply stands for any exception. */
  function Update(s: Settings, reply: Option<Reply>): Settings {
    match reply
    case None => s
    case Some(r) => Settings(Or(r.threshold, s.threshold), Or(r.blurKernel, s.blurKernel),
                             Or(r.morphKernel, s.morphKernel), Or(r.minArea, s.minArea))
  }

  function UpdateAll(s: Settings, replies: seq<Option<Reply>>): Settings {
    if replies == [] then s else Update(UpdateAll(s, replies[..|replies| - 1]), replies[|replies| - 1])
  }

  /** v is the value that the latest fetch to supply one has supplied, or else the initial one. */
  ghost predicate Latest(v: int, supplied: seq<Option<int>>, initial: int) {
    || (v == initial && forall i | 0 <= i < |supplied| :: supplied[i].None?)
    || exists i | 0 <= i < |supplied| ::
         supplied[i] == Some(v) && forall j | i < j < |supplied| :: supplied[j].None?
  }

  function Field(replies: seq<Option<Reply>>, get: Reply -> Option<int>): (r: seq<Option<int>>)
    ensures |r| == |replies|
    ensures forall i | 0 <= i < |r| :: r[i] == if replies[i].None? then None else get(replies[i].value)
  {
    seq(|replies|, i requires 0 <= i < |replies| => if replies[i].None? then None else get(replies[i].value))
  }

  lemma LatestStep(v: int, supplied: seq<Option<int>>, initial: int, x: Option<int>)
    requires Latest(v, supplied, initial)
    ensures Latest(Or(x, v), supplied + [x], initial)
  {
    var all := supplied + [x];
    if x.Some? {
      assert all[|supplied|] == Some(x.value);
    } else if exists i | 0 <= i < |supplied| ::
      supplied[i] == Some(v) && forall j | i < j < |supplied| :: supplied[j].None?
    {
      var i :| 0 <= i < |supplied| && supplied[i] == Some(v) && forall j | i < j < |supplied| :: supplied[j].None?;
      assert all[i] == Some(v);
    }
  }

  /** One setting, whichever it is: `get` reads it from a reply, `read` from the settings. */
  lemma {:induction false} FieldIsLatest(
      s: Settings, replies: seq<Option<Reply>>, get: Reply -> Option<int>, read: Settings -> int)
    requires forall u, r: Reply :: read(Update(u, Some(r))) == Or(get(r), read(u))
    ensures Latest(read(UpdateAll(s, replies)), Field(replies, get), read(s))
  {
    if replies == [] {
    } else {
      var before, reply := replies[..|replies| - 1], replies[|replies| - 1];
      FieldIsLatest(s, before, get, read);
      var x := if reply.None? then None else get(reply.value);
      LatestStep(read(UpdateAll(s, before)), Field(before, get), read(s), x);
      assert Field(replies, get) == Field(before, get) + [x];
    }
  }

  /** Each of the four settings is at any time the one supplied last, whatever mixture of answers and failures came. */
  lemma SettingsProvenance(s: Settings, replies: seq<Option<Reply>>)
    ensures var u := UpdateAll(s, replies);
      && Latest(u.threshold, Field(replies, (r: Reply) => r.threshold), s.threshold)
      && Latest(u.blurKernel, Field(replies, (r: Reply) => r.blurKernel), s.blurKernel)
      && Latest(u.morphKernel, Field(replies, (r: Reply) => r.morphKernel), s.morphKernel)
      && Latest(u.minArea, Field(replies, (r: Reply) => r.minArea), s.minArea)
  {
    FieldIsLatest(s, replies, (r: Reply) => r.threshold, (u: Settings) => u.threshold);
    FieldIsLatest(s, replies, (r: Reply) => r.blurKernel, (u: Settings) => u.blurKernel);
    FieldIsLatest(s, replies, (r: Reply) => r.morphKernel, (u: Settings) => u.morphKernel);
    FieldIsLatest(s, replies, (r: Reply) => r.minArea, (u: Settings) => u.minArea);
  }

  // ---------- the refresh timer ----------

  const INTERVAL := 10.0

  /** The clock in one loop iteration: when the timer is tested, and when a fetch would be over. */
  datatype Tick = Tick(check: real, done: real)

  /** last_settings_fetch, the iterations that fetched, and the number of iterations so far. */
  datatype Timer = Timer(last: real, attempts: seq<nat>, rounds: nat)

  predicate Due(t: Timer, tick: Tick) { tick.check - t.last >= INTERVAL }

  function Advance(t: Timer, tick: Tick): Timer {
    if Due(t, tick) then Timer(tick.done, t.attempts + [t.rounds], t.rounds + 1) else t.(rounds := t.rounds + 1)
  }

  function RunTimer(start: real, ticks: seq<Tick>): Timer {
    if ticks == [] then Timer(start, [], 0)
    else Advance(RunTimer(start, ticks[..|ticks| - 1]), ticks[|ticks| - 1])
  }

  /** When attempt n's waiting time began: at the end of the attempt before, or at the start. */
  ghost function Since(start: real, ticks: seq<Tick>, attempts: seq<nat>, n: nat): real
    requires n <= |attempts| && (n > 0 ==> attempts[n - 1] < |ticks|)
  {
    if n == 0 then start else ticks[attempts[n - 1]].done
  }

  /** The first iteration after attempt n - 1. */
  ghost function From(attempts: seq<nat>, n: nat): nat
    requires n <= |attempts|
  {
    if n == 0 then 0 else attempts[n - 1] + 1
  }

  /** In the iterations from `from` up to `to` the interval is not over. */
  ghost predicate Waits(ticks: seq<Tick>, since: real, from: nat, to: nat)
    requires to <= |ticks|
  {
    forall k | from <= k < to :: ticks[k].check - since < INTERVAL
  }

  /** Attempt n comes at the first test since the attempt before that finds the interval over. */
  ghost predicate InTime(start: real, ticks: seq<Tick>, attempts: seq<nat>, n: nat)
    requires n < |attempts|
  {
    && From(attempts, n) <= attempts[n] < |ticks|
    && ticks[attempts[n]].check - Since(start, ticks, attempts, n) >= INTERVAL
    && Waits(ticks, Since(start, ticks, attempts, n), From(attempts, n), attempts[n])
  }

  ghost predicate Paced(start: real, ticks: seq<Tick>, t: Timer) {
    && t.rounds == |ticks| && From(t.attempts, |t.attempts|) <= |ticks|
    && (forall n: nat | n < |t.attempts| :: InTime(start, ticks, t.attempts, n))
    && t.last == Since(start, ticks, t.attempts, |t.attempts|)
    && Waits(ticks, t.last, From(t.attempts, |t.attempts|), |ticks|)
  }

  lemma InTimeStays(start: real, ticks: seq<Tick>, tick: Tick, attempts: seq<nat>, more: seq<nat>, n: nat)
    requires n < |attempts| && InTime(start, ticks, attempts, n)
    ensures InTime(start, ticks + [tick], attempts + more, n)
  {
    var all := ticks + [tick];
    assert forall k | 0 <= k < |ticks| :: all[k] == ticks[k];
    assert forall i | 0 <= i < |attempts| :: (attempts + more)[i] == attempts[i];
  }

  lemma PacedStep(start: real, ticks: seq<Tick>, tick: Tick, t: Timer)
    requires Paced(start, ticks, t)
    ensures Paced(start, ticks + [tick], Advance(t, tick))
  {
    var all, m := ticks + [tick], |t.attempts|;
    var more := if Due(t, tick) then [t.rounds] else [];
    assert forall k | 0 <= k < |ticks| :: all[k] == ticks[k];
    assert t.attempts + [] == t.attempts;
    forall n: nat | n < m ensures InTime(start, all, t.attempts + more, n) {
      InTimeStays(start, ticks, tick, t.attempts, more, n);
    }
  }

  /** Whatever the clock does, attempts come at the first test that finds the interval over, and at no other. */
  lemma {:induction false} TimerPaced(start: real, ticks: seq<Tick>)
    ensures Paced(start, ticks, RunTimer(start, ticks))
  {
    if ticks == [] {
    } else {
      var before, tick := ticks[..|ticks| - 1], ticks[|ticks| - 1];
      TimerPaced(start, before);
      PacedStep(start, before, tick, RunTimer(start, before));
      assert ticks == before + [tick];
    }
  }

  /** The iterations in which a run fetches. */
  ghost function Fetches(start: real, ticks: seq<Tick>): (attempts: seq<nat>)
    ensures forall n: nat | n < |attempts| :: InTime(start, ticks, attempts, n)
  {
    TimerPaced(start, ticks);
    RunTimer(start, ticks).attempts
  }

  /** The next iteration fetches if and only if its test finds ten seconds gone since the end of the latest fetch. */
  lemma FetchesIff(start: real, ticks: seq<Tick>, tick: Tick)
    ensures var attempts, later := Fetches(start, ticks), Fetches(start, ticks + [tick]);
      && From(attempts, |attempts|) <= |ticks|
      && later == attempts
           + if tick.check - Since(start, ticks, attempts, |attempts|) >= 10.0 then [|ticks|] else []
  {
    TimerPaced(start, ticks);
    assert (ticks + [tick])[..|ticks|] == ticks;
  }

  /** The wait beyond the interval is shorter than the iteration that ends it, if a fetch takes no negative time. */
  lemma ExcessBelowOneRound(start: real, ticks: seq<Tick>, n: nat)
    requires n < |RunTimer(start, ticks).attempts|
    requires forall i | 0 <= i < |ticks| :: ticks[i].check <= ticks[i].done
    ensures var attempts := RunTimer(start, ticks).attempts;
      && InTime(start, ticks, attempts, n)
      && (attempts[n] > 0 ==>
            var j := attempts[n];
            INTERVAL <= ticks[j].check - Since(start, ticks, attempts, n)
                     < INTERVAL + (ticks[j].check - ticks[j - 1].check))
  {
    TimerPaced(start, ticks);
    var attempts := RunTimer(start, ticks).attempts;
    assert InTime(start, ticks, attempts, n);
  }

  // ---------- how long a change takes ----------

  /** What is changed at time c takes effect by time t within the ten seconds promised for it. */
  predicate WithinInterval(c: real, t: real) { t - c <= 10.0 }

  /** The change at c finds fetch n - 1 over and the test that starts fetch n still to come. */
  ghost predicate AwaitsFetch(start: real, ticks: seq<Tick>, attempts: seq<nat>, n: nat, c: real)
    requires n < |attempts| && InTime(start, ticks, attempts, n)
  {
    Since(start, ticks, attempts, n) <= c <= ticks[attempts[n]].check
  }

  /**
   * A change made on the dashboard between two fetches is in effect when the second one is over. That takes less than
   * the interval, one loop iteration and the fetch together. It takes no longer than the interval exactly when the
   * change comes so long after the first fetch as the test for the second is late and the second takes; an iteration
   * and a fetch are always long enough.
   */
  lemma ChangeDelay(start: real, ticks: seq<Tick>, n: nat, c: real)
    requires n < |Fetches(start, ticks)| && AwaitsFetch(start, ticks, Fetches(start, ticks), n, c)
    requires forall i | 0 <= i < |ticks| :: ticks[i].check <= ticks[i].done
    ensures var attempts := Fetches(start, ticks);
      var fetch, since := ticks[attempts[n]], Since(start, ticks, attempts, n);
      && (attempts[n] > 0 ==> fetch.done - c < 10.0 + (fetch.done - ticks[attempts[n] - 1].check))
      && (WithinInterval(c, fetch.done) <==>
            c - since >= (fetch.check - since - 10.0) + (fetch.done - fetch.check))
      && (attempts[n] > 0 && c - since >= fetch.done - ticks[attempts[n] - 1].check ==> WithinInterval(c, fetch.done))
  {
    ExcessBelowOneRound(start, ticks, n);
  }

  /**
   * Every change that fetch n picks up reaches the test within the interval if and only if that test comes exactly when
   * the interval is over; and is in effect within it if and only if, besides, the fetch takes no time.
   */
  lemma AlwaysInTimeIff(start: real, ticks: seq<Tick>, attempts: seq<nat>, n: nat)
    requires n < |attempts| && InTime(start, ticks, attempts, n)
    requires ticks[attempts[n]].check <= ticks[attempts[n]].done
    ensures var fetch, since := ticks[attempts[n]], Since(start, ticks, attempts, n);
      && ((forall c: real | AwaitsFetch(start, ticks, attempts, n, c) :: WithinInterval(c, fetch.check))
          <==> fetch.check - since == 10.0)
      && ((forall c: real | AwaitsFetch(start, ticks, attempts, n, c) :: WithinInterval(c, fetch.done))
          <==> fetch.check - since == 10.0 && fetch.done == fetch.check)
  {
    assert AwaitsFetch(start, ticks, attempts, n, Since(start, ticks, attempts, n));
  }

  /** Whatever fetch n picks up is in effect within the interval. */
  ghost predicate KeepsPromise(start: real, ticks: seq<Tick>, attempts: seq<nat>, n: nat)
    requires n < |attempts| && InTime(start, ticks, attempts, n)
  {
    forall c: real | AwaitsFetch(start, ticks, attempts, n, c) :: WithinInterval(c, ticks[attempts[n]].done)
  }

  /** Fetch n starts exactly when the interval is over, and takes no time. */
  ghost predicate OnTheDot(start: real, ticks: seq<Tick>, attempts: seq<nat>, n: nat)
    requires n < |attempts| && InTime(start, ticks, attempts, n)
  {
    && ticks[attempts[n]].check - Since(start, ticks, attempts, n) == 10.0
    && ticks[attempts[n]].done == ticks[attempts[n]].check
  }

  /**
   * Over a whole run, "within ten seconds" holds of every change that one of its fetches waits for if and only if every
   * fetch is on the dot.
   */
  lemma PromiseKeptIff(start: real, ticks: seq<Tick>)
    requires forall i | 0 <= i < |ticks| :: ticks[i].check <= ticks[i].done
    ensures var attempts := Fetches(start, ticks);
      (forall n: nat | n < |attempts| :: KeepsPromise(start, ticks, attempts, n))
      <==> forall n: nat | n < |attempts| :: OnTheDot(start, ticks, attempts, n)
  {
    var attempts := Fetches(start, ticks);
    forall n: nat | n < |attempts|
      ensures KeepsPromise(start, ticks, attempts, n) <==> OnTheDot(start, ticks, attempts, n)
    {
      AlwaysInTimeIff(start, ticks, attempts, n);
    }
  }

  /** A run in which a change takes longer than promised: the loop comes round every 0.1 s, a fetch takes 0.01 s. */
  lemma LateChange() returns (ticks: seq<Tick>)
    ensures var attempts := Fetches(0.0, ticks);
      && attempts == [1] && AwaitsFetch(0.0, ticks, attempts, 0, 0.0)
      && !WithinInterval(0.0, ticks[1].check)
  {
    ticks := [Tick(9.95, 9.95), Tick(10.05, 10.06)];
    assert ticks[..1] == [Tick(9.95, 9.95)] && ticks[..1][..0] == [];
    assert RunTimer(0.0, ticks).attempts == [1];
  }
}
