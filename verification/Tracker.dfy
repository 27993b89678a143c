/**
 * The scan of `main` on frame numbers, run over a sequence of snapshots of the folder. Nothing is assumed here about
 * how one snapshot relates to the next unless a lemma says so.
 */
module Tracker {
  import opened Common

  /** The listed numbers above base, in the order listed. */
  function Above(nums: seq<int>, base: int): seq<int> {
    if nums == [] then []
    else Above(nums[..|nums| - 1], base) + if nums[|nums| - 1] > base then [nums[|nums| - 1]] else []
  }

  function Highest(nums: seq<int>): int
    requires nums != []
  {
    nums[|nums| - 1]
  }

  /** last_processed after the reset test; the code probes with the highest number on disk. */
  function Base(last: int, probe: int): int { if probe < last then -1 else last }

  function Batch(last: int, nums: seq<int>): seq<int> {
    if nums == [] then [] else Above(nums, Base(last, Highest(nums)))
  }

  /** A post attempt; epoch counts the resets before it. */
  datatype Post = Post(epoch: nat, number: int)

  datatype Track = Track(last: int, trace: seq<int>, posts: seq<Post>, resets: nat)

  const START := Track(-1, [], [], 0)

  function ResetIfBelow(t: Track, probe: int): Track {
    if probe < t.last then t.(last := -1, resets := t.resets + 1) else t
  }

  /** The batch loop: every frame is processed, the last one is posted, last_processed follows. */
  function Process(t: Track, batch: seq<int>): Track {
    if batch == [] then t
    else Track(Highest(batch), t.trace + batch, t.posts + [Post(t.resets, Highest(batch))], t.resets)
  }

  function Scan(t: Track, nums: seq<int>): Track {
    if nums == [] then t
    else var r := ResetIfBelow(t, Highest(nums)); Process(r, Above(nums, r.last))
  }

  function Run(snaps: seq<seq<int>>): Track {
    if snaps == [] then START else Scan(Run(snaps[..|snaps| - 1]), snaps[|snaps| - 1])
  }

  /** A snapshot: the numbers of a directory listing, sorted. */
  ghost predicate Snapshot(nums: seq<int>) {
    Ascending(nums) && forall i | 0 <= i < |nums| :: nums[i] >= 0
  }

  ghost predicate Snapshots(snaps: seq<seq<int>>) {
    forall i | 0 <= i < |snaps| :: Snapshot(snaps[i])
  }

  // ---------- what a snapshot alone determines ----------

  /** The highest number of the latest non-empty snapshot, -1 when there is none. */
  function Previous(snaps: seq<seq<int>>): int {
    if snaps == [] then -1
    else if snaps[|snaps| - 1] != [] then Highest(snaps[|snaps| - 1])
    else Previous(snaps[..|snaps| - 1])
  }

  /** How many snapshots fall below the one before. */
  function Drops(snaps: seq<seq<int>>): nat {
    if snaps == [] then 0
    else
      var earlier, s := snaps[..|snaps| - 1], snaps[|snaps| - 1];
      Drops(earlier) + if s != [] && Highest(s) < Previous(earlier) then 1 else 0
  }

  function Shown(nums: seq<int>): set<int> { set x | x in nums }

  /** The set-level reading of one scan: everything, if all of it lies below prev; otherwise what lies above prev. */
  function ToProcess(prev: int, shown: set<int>): set<int> {
    if forall m | m in shown :: m < prev then shown else set m | m in shown && m > prev
  }

  lemma {:induction false} AboveSelects(nums: seq<int>, base: int)
    ensures forall x :: x in Above(nums, base) <==> x in nums && x > base
    ensures Ascending(nums) ==> Ascending(Above(nums, base))
  {
    if nums == [] {
    } else {
      var t, m := nums[..|nums| - 1], nums[|nums| - 1];
      AboveSelects(t, base);
      assert nums == t + [m];
      if Ascending(nums) {
        forall i | 0 <= i < |Above(t, base)| ensures Above(t, base)[i] < m {
          assert Above(t, base)[i] in Above(t, base);
        }
      }
    }
  }

  lemma HighestBounds(nums: seq<int>)
    requires Ascending(nums) && nums != []
    ensures Highest(nums) in nums && forall x | x in nums :: x <= Highest(nums)
  {
  }

  /** The batch as a set, its order, and its last element. */
  lemma BatchSelects(last: int, nums: seq<int>)
    requires Snapshot(nums) && nums != [] && last >= -1
    ensures Ascending(Batch(last, nums))
    ensures forall x :: x in Batch(last, nums) <==> x in nums && (Highest(nums) < last || x > last)
    ensures Batch(last, nums) != [] <==> Highest(nums) != last
    ensures Batch(last, nums) != [] ==> Highest(Batch(last, nums)) == Highest(nums)
  {
    var b := Batch(last, nums);
    AboveSelects(nums, Base(last, Highest(nums)));
    HighestBounds(nums);
    if b != [] {
      HighestBounds(b);
      assert Highest(nums) in b;
    } else {
      assert Highest(nums) !in b;
    }
  }

  lemma CountBatch(last: int, nums: seq<int>, f: int)
    requires Snapshot(nums) && nums != [] && last >= -1
    ensures Count(Batch(last, nums), f) == if f in nums && (Highest(nums) < last || f > last) then 1 else 0
  {
    BatchSelects(last, nums);
    CountDistinct(Batch(last, nums), f);
  }

  /** One scan in terms of the snapshot's highest number alone. */
  lemma ScanStep(t: Track, nums: seq<int>)
    requires Snapshot(nums) && nums != [] && t.last >= -1
    ensures Scan(t, nums).last == Highest(nums) >= 0
    ensures Scan(t, nums).trace == t.trace + Batch(t.last, nums)
    ensures Scan(t, nums).resets == t.resets + if Highest(nums) < t.last then 1 else 0
    ensures Scan(t, nums).posts ==
      t.posts + if Highest(nums) != t.last then [Post(Scan(t, nums).resets, Highest(nums))] else []
  {
    BatchSelects(t.last, nums);
  }

  /** The last scan of a run. */
  lemma RunStep(snaps: seq<seq<int>>)
    requires Snapshots(snaps) && snaps != []
    ensures Snapshots(snaps[..|snaps| - 1]) && Snapshot(snaps[|snaps| - 1])
    ensures var t, s := Run(snaps[..|snaps| - 1]), snaps[|snaps| - 1];
      && t.last == Previous(snaps[..|snaps| - 1]) >= -1
      && Run(snaps) == Scan(t, s)
      && Run(snaps).last == Previous(snaps)
  {
    LastIsPrevious(snaps[..|snaps| - 1]);
    LastIsPrevious(snaps);
  }

  /** After every scan last_processed is the highest number of the latest non-empty snapshot, reset or not. */
  lemma {:induction false} LastIsPrevious(snaps: seq<seq<int>>)
    requires Snapshots(snaps)
    ensures Run(snaps).last == Previous(snaps) >= -1
  {
    if snaps == [] {
    } else {
      var earlier, s := snaps[..|snaps| - 1], snaps[|snaps| - 1];
      LastIsPrevious(earlier);
      if s != [] { ScanStep(Run(earlier), s); }
    }
  }

  /**
   * Over any sequence of snapshots whatsoever, each scan processes exactly the set-level reading of its snapshot
   * against the one before, in ascending order; an empty snapshot changes nothing.
   */
  lemma RunRefinesSpec(snaps: seq<seq<int>>)
    requires Snapshots(snaps) && snaps != []
    ensures var earlier, s := snaps[..|snaps| - 1], snaps[|snaps| - 1];
      var b := Batch(Previous(earlier), s);
      && Ascending(b) && Shown(b) == ToProcess(Previous(earlier), Shown(s))
      && Run(snaps).trace == Run(earlier).trace + b
      && (s == [] ==> Run(snaps) == Run(earlier))
  {
    RunStep(snaps);
    var earlier, s := snaps[..|snaps| - 1], snaps[|snaps| - 1];
    if s != [] {
      ScanStep(Run(earlier), s);
      BatchSelects(Previous(earlier), s);
      HighestBounds(s);
      assert Highest(s) in Shown(s);
    }
  }

  // ---------- posting ----------

  /** One post for every snapshot whose highest number differs from the one before, and for that number. */
  function PostsFor(snaps: seq<seq<int>>): seq<Post> {
    if snaps == [] then []
    else
      var earlier, s := snaps[..|snaps| - 1], snaps[|snaps| - 1];
      PostsFor(earlier) + if s != [] && Highest(s) != Previous(earlier) then [Post(Drops(snaps), Highest(s))] else []
  }

  /**
   * A scan with new files makes exactly one post attempt, for its highest frame; a scan without makes none. Both are
   * read off the snapshots alone, and so is the number of resets.
   */
  lemma {:induction false} PostsExact(snaps: seq<seq<int>>)
    requires Snapshots(snaps)
    ensures Run(snaps).posts == PostsFor(snaps) && Run(snaps).resets == Drops(snaps)
  {
    if snaps == [] {
    } else {
      var earlier, s := snaps[..|snaps| - 1], snaps[|snaps| - 1];
      PostsExact(earlier);
      LastIsPrevious(earlier);
      if s != [] { ScanStep(Run(earlier), s); }
    }
  }

  /** Within one epoch the posted numbers strictly increase, up to last_processed in the current one. */
  ghost predicate PostsOrdered(t: Track) {
    && (forall i, j | 0 <= i < j < |t.posts| && t.posts[i].epoch == t.posts[j].epoch ::
          t.posts[i].number < t.posts[j].number)
    && (forall i | 0 <= i < |t.posts| :: t.posts[i].epoch <= t.resets)
    && (forall i | 0 <= i < |t.posts| && t.posts[i].epoch == t.resets :: t.posts[i].number <= t.last)
  }

  lemma PostsStep(t: Track, nums: seq<int>)
    requires Snapshot(nums) && nums != [] && t.last >= -1 && PostsOrdered(t)
    ensures PostsOrdered(Scan(t, nums))
  {
    ScanStep(t, nums);
    var h, r := Highest(nums), t.resets + if Highest(nums) < t.last then 1 else 0;
    OrderedAfter(t, h, r, if h != t.last then [Post(r, h)] else [], t.trace + Batch(t.last, nums));
  }

  lemma OrderedAfter(t: Track, h: int, resets: nat, more: seq<Post>, trace: seq<int>)
    requires PostsOrdered(t)
    requires resets == t.resets + if h < t.last then 1 else 0
    requires more == if h != t.last then [Post(resets, h)] else []
    ensures PostsOrdered(Track(h, trace, t.posts + more, resets))
  {
  }

  /** Between two resets the posted numbers strictly increase over the whole run. */
  lemma {:induction false} PostsIncrease(snaps: seq<seq<int>>)
    requires Snapshots(snaps)
    ensures PostsOrdered(Run(snaps))
  {
    if snaps == [] {
    } else {
      PostsIncrease(snaps[..|snaps| - 1]);
      RunStep(snaps);
      if snaps[|snaps| - 1] != [] { PostsStep(Run(snaps[..|snaps| - 1]), snaps[|snaps| - 1]); }
    }
  }

  // ---------- how often a frame is processed ----------

  /** With arbitrary snapshots: at most once in every stretch between resets. */
  lemma {:induction false} OncePerReset(snaps: seq<seq<int>>, f: int)
    requires Snapshots(snaps)
    ensures Count(Run(snaps).trace, f) <= Run(snaps).resets + if f <= Run(snaps).last then 1 else 0
  {
    if snaps == [] {
    } else {
      var earlier, s := snaps[..|snaps| - 1], snaps[|snaps| - 1];
      OncePerReset(earlier, f);
      RunStep(snaps);
      if s != [] {
        var t := Run(earlier);
        ScanStep(t, s);
        HighestBounds(s);
        CountConcat(t.trace, Batch(t.last, s), f);
        CountBatch(t.last, s, f);
      }
    }
  }

  /** The highest number on disk never falls; in particular so when files are only ever added. */
  ghost predicate HighestNeverDrops(snaps: seq<seq<int>>) {
    forall i, j | 0 <= i < j < |snaps| && snaps[i] != [] && snaps[j] != [] :: Highest(snaps[i]) <= Highest(snaps[j])
  }

  lemma GrowingNeverDrops(snaps: seq<seq<int>>)
    requires Snapshots(snaps)
    requires forall i, j | 0 <= i < j < |snaps| :: Shown(snaps[i]) <= Shown(snaps[j])
    ensures HighestNeverDrops(snaps)
  {
    forall i, j | 0 <= i < j < |snaps| && snaps[i] != [] && snaps[j] != []
      ensures Highest(snaps[i]) <= Highest(snaps[j])
    {
      HighestBounds(snaps[i]);
      HighestBounds(snaps[j]);
      assert Highest(snaps[i]) in Shown(snaps[i]);
      assert Highest(snaps[i]) in Shown(snaps[j]);
    }
  }

  /** Snapshot i is the first to reach number f, and it shows f. */
  ghost predicate FirstToReach(snaps: seq<seq<int>>, i: nat, f: int)
    requires i < |snaps|
  {
    && f in snaps[i] && f <= Highest(snaps[i])
    && forall j | 0 <= j < i && snaps[j] != [] :: Highest(snaps[j]) < f
  }

  ghost predicate SeenInTime(snaps: seq<seq<int>>, f: int) {
    exists i: nat | i < |snaps| :: FirstToReach(snaps, i, f)
  }

  lemma {:induction false} PreviousBounds(snaps: seq<seq<int>>)
    requires Snapshots(snaps) && HighestNeverDrops(snaps)
    ensures forall j | 0 <= j < |snaps| && snaps[j] != [] :: Highest(snaps[j]) <= Previous(snaps)
    ensures Previous(snaps) == -1
      || exists j :: 0 <= j < |snaps| && snaps[j] != [] && Highest(snaps[j]) == Previous(snaps)
  {
    if snaps != [] && snaps[|snaps| - 1] == [] {
      PreviousBounds(snaps[..|snaps| - 1]);
    }
  }

  /**
   * While the highest number on disk never falls, frame f is processed exactly once if the first snapshot to reach f
   * shows f, and never otherwise: a file that turns up later than that is lost.
   */
  lemma {:induction false} ProcessedIff(snaps: seq<seq<int>>, f: int)
    requires Snapshots(snaps) && HighestNeverDrops(snaps)
    ensures Count(Run(snaps).trace, f) == if SeenInTime(snaps, f) then 1 else 0
    ensures Run(snaps).resets == 0
  {
    if snaps == [] {
    } else {
      var earlier, s := snaps[..|snaps| - 1], snaps[|snaps| - 1];
      var t := Run(earlier);
      ProcessedIff(earlier, f);
      RunStep(snaps);
      SeenStep(snaps, f);
      if s != [] {
        ScanStep(t, s);
        CountConcat(t.trace, Batch(t.last, s), f);
        CountBatch(t.last, s, f);
        HighestGrows(snaps);
        FirstReachIsNew(snaps, f);
        if SeenInTime(earlier, f) { SeenIsBounded(earlier, f); }
      }
    }
  }

  lemma HighestGrows(snaps: seq<seq<int>>)
    requires Snapshots(snaps) && HighestNeverDrops(snaps) && snaps != [] && snaps[|snaps| - 1] != []
    ensures Previous(snaps[..|snaps| - 1]) <= Highest(snaps[|snaps| - 1])
  {
    var earlier := snaps[..|snaps| - 1];
    PreviousBounds(earlier);
    if Previous(earlier) != -1 {
      var j :| 0 <= j < |earlier| && earlier[j] != [] && Highest(earlier[j]) == Previous(earlier);
      assert snaps[j] == earlier[j];
    }
  }

  lemma FirstReachIsNew(snaps: seq<seq<int>>, f: int)
    requires Snapshots(snaps) && HighestNeverDrops(snaps) && snaps != [] && snaps[|snaps| - 1] != []
    ensures var n := |snaps| - 1;
      FirstToReach(snaps, n, f) <==> f in snaps[n] && f > Previous(snaps[..n])
  {
    var n := |snaps| - 1;
    var earlier := snaps[..n];
    PreviousBounds(earlier);
    HighestBounds(snaps[n]);
    assert forall j | 0 <= j < n :: snaps[j] == earlier[j];
  }

  lemma SeenIsBounded(snaps: seq<seq<int>>, f: int)
    requires Snapshots(snaps) && HighestNeverDrops(snaps) && SeenInTime(snaps, f)
    ensures f <= Previous(snaps)
  {
    PreviousBounds(snaps);
    var i: nat :| i < |snaps| && FirstToReach(snaps, i, f);
    assert Highest(snaps[i]) <= Previous(snaps);
  }

  lemma SeenStep(snaps: seq<seq<int>>, f: int)
    requires snaps != []
    ensures var n := |snaps| - 1;
      SeenInTime(snaps, f) <==> SeenInTime(snaps[..n], f) || FirstToReach(snaps, n, f)
  {
    var n := |snaps| - 1;
    assert forall i: nat | i < n :: FirstToReach(snaps, i, f) <==> FirstToReach(snaps[..n], i, f);
  }

  // ---------- one session seen in prefixes ----------

  ghost predicate Nondecreasing(counts: seq<nat>) {
    forall i, j | 0 <= i < j < |counts| :: counts[i] <= counts[j]
  }

  /** Snapshot i shows frames 0, ..., counts[i] - 1. */
  function Prefixes(counts: seq<nat>): seq<seq<int>> {
    seq(|counts|, i requires 0 <= i < |counts| => Range(0, counts[i]))
  }

  lemma AboveRange(n: nat, base: int)
    requires base >= -1
    ensures Above(Range(0, n), base) == Range(base + 1, n)
  {
    AboveSelects(Range(0, n), base);
    var r := Range(base + 1, n);
    forall x ensures x in r <==> x in Range(0, n) && x > base {
      if x in Range(0, n) && x > base {
        assert r[x - base - 1] == x;
      }
      if x in r {
        assert Range(0, n)[x] == x;
      }
    }
    AscendingUnique(Above(Range(0, n), base), r);
  }

  /** One scan of a prefix that has not shrunk. */
  lemma PrefixScan(t: Track, n: nat)
    requires -1 <= t.last < n && t.trace == Range(0, t.last + 1)
    ensures n > 0 ==> var t' := Scan(t, Range(0, n));
      t'.last == n - 1 && t'.trace == Range(0, n) && t'.resets == t.resets
  {
    AboveRange(n, t.last);
    assert Range(0, t.last + 1) + Range(t.last + 1, n) == Range(0, n);
  }

  /** Within one session nothing resets or is skipped: the trace is 0, 1, ..., last_processed at every point. */
  lemma {:induction false} SessionGapFree(counts: seq<nat>)
    requires Nondecreasing(counts)
    ensures var t := Run(Prefixes(counts));
      && t.resets == 0
      && t.last + 1 == (if counts == [] then 0 else counts[|counts| - 1])
      && t.trace == Range(0, t.last + 1)
  {
    if counts == [] {
    } else {
      var n := |counts| - 1;
      var snaps := Prefixes(counts);
      assert snaps[..n] == Prefixes(counts[..n]) && snaps[n] == Range(0, counts[n]);
      SessionGapFree(counts[..n]);
      assert n > 0 ==> counts[n - 1] <= counts[n];
      if counts[n] == 0 {
        assert Run(snaps) == Run(snaps[..n]);
      } else {
        PrefixScan(Run(snaps[..n]), counts[n]);
      }
    }
  }

  // ---------- a session that follows on others ----------

  function RunFrom(t: Track, snaps: seq<seq<int>>): Track {
    if snaps == [] then t else Scan(RunFrom(t, snaps[..|snaps| - 1]), snaps[|snaps| - 1])
  }

  lemma {:induction false} RunFromStart(snaps: seq<seq<int>>)
    ensures RunFrom(START, snaps) == Run(snaps)
  {
    if snaps == [] {
    } else {
      RunFromStart(snaps[..|snaps| - 1]);
    }
  }

  /** How many frames the first non-empty listing shows, 0 if there is none. */
  function FirstCount(counts: seq<nat>): nat {
    if counts == [] then 0
    else
      var n := |counts| - 1;
      if FirstCount(counts[..n]) > 0 then FirstCount(counts[..n]) else counts[n]
  }

  /** Where the session is taken up: the reset test compares the highest number of that listing with last_processed. */
  function ResumeAt(last: int, counts: seq<nat>): (r: int)
    ensures last >= -1 ==> r >= 0
  {
    if FirstCount(counts) == 0 then last + 1 else Base(last, FirstCount(counts) - 1) + 1
  }

  /** What a session with these listings makes of a detector that has seen others before. */
  ghost predicate SessionAfter(t: Track, t': Track, counts: seq<nat>) {
    var found, from := if counts == [] then 0 else counts[|counts| - 1], ResumeAt(t.last, counts);
    && t'.last == (if found == 0 then t.last else found - 1)
    && t'.trace == t.trace + Range(from, found)
    && t'.resets == t.resets + (if t.last >= 0 && from == 0 then 1 else 0)
    && (FirstCount(counts) == 0 <==> found == 0)
    && (found > 0 ==> 0 <= from <= found)
  }

  lemma ScanPrefix(t: Track, n: nat)
    requires t.last >= -1 && n > 0
    ensures var t', from := Scan(t, Range(0, n)), Base(t.last, n - 1) + 1;
      && t'.last == n - 1 && 0 <= from <= n
      && t'.trace == t.trace + Range(from, n)
      && t'.resets == t.resets + (if t.last >= 0 && from == 0 then 1 else 0)
  {
    AboveRange(n, Base(t.last, n - 1));
  }

  lemma RangeGrows(trace: seq<int>, from: int, found: int, count: int)
    requires from <= found <= count
    ensures (trace + Range(from, found)) + Range(found, count) == trace + Range(from, count)
  {
  }

  /** The first listing that shows anything. */
  lemma SessionBegins(t: Track, t': Track, earlier: seq<nat>, count: nat)
    requires t.last >= -1 && SessionAfter(t, t', earlier) && count > 0
    requires earlier == [] || earlier[|earlier| - 1] == 0
    ensures SessionAfter(t, Scan(t', Range(0, count)), earlier + [count])
  {
    assert (earlier + [count])[..|earlier|] == earlier;
    ScanPrefix(t', count);
    assert t.trace + Range(t.last + 1, 0) == t.trace;
  }

  lemma SessionContinues(t: Track, t': Track, earlier: seq<nat>, count: nat)
    requires t.last >= -1 && SessionAfter(t, t', earlier)
    requires earlier != [] && 0 < earlier[|earlier| - 1] <= count
    ensures SessionAfter(t, Scan(t', Range(0, count)), earlier + [count])
  {
    assert (earlier + [count])[..|earlier|] == earlier;
    ScanPrefix(t', count);
    RangeGrows(t.trace, ResumeAt(t.last, earlier), earlier[|earlier| - 1], count);
  }

  lemma SessionStillEmpty(t: Track, t': Track, earlier: seq<nat>)
    requires t.last >= -1 && SessionAfter(t, t', earlier) && Nondecreasing(earlier + [0])
    ensures SessionAfter(t, t', earlier + [0])
  {
    var counts, n := earlier + [0], |earlier|;
    assert counts[..n] == earlier;
    assert n > 0 ==> counts[n - 1] <= counts[n];
  }

  /**
   * Whatever the detector has processed before: a session whose folder only grows is processed from frame 0 if the
   * reset test fires at its first non-empty listing, and otherwise from last_processed + 1; without gaps from there on.
   */
  lemma {:induction false} SessionFrom(t: Track, counts: seq<nat>)
    requires t.last >= -1 && Nondecreasing(counts)
    ensures SessionAfter(t, RunFrom(t, Prefixes(counts)), counts)
  {
    if counts == [] {
      assert t.trace + Range(t.last + 1, 0) == t.trace;
    } else {
      var n := |counts| - 1;
      var snaps := Prefixes(counts);
      assert snaps[..n] == Prefixes(counts[..n]) && snaps[n] == Range(0, counts[n]);
      SessionFrom(t, counts[..n]);
      assert counts == counts[..n] + [counts[n]];
      assert n > 0 ==> counts[n - 1] <= counts[n];
      if counts[n] == 0 {
        SessionStillEmpty(t, RunFrom(t, snaps[..n]), counts[..n]);
      } else if n == 0 || counts[n - 1] == 0 {
        SessionBegins(t, RunFrom(t, snaps[..n]), counts[..n], counts[n]);
      } else {
        SessionContinues(t, RunFrom(t, snaps[..n]), counts[..n], counts[n]);
      }
    }
  }

  /** With nothing processed before, a session is taken up at frame 0. */
  lemma SessionFromStart(t': Track, counts: seq<nat>)
    requires SessionAfter(START, t', counts)
    ensures t'.resets == 0 && t'.trace == Range(0, t'.last + 1)
    ensures t'.last + 1 == if counts == [] then 0 else counts[|counts| - 1]
  {
  }

  // ---------- the rejected test ----------

  /** The same scan with the reset test probing the lowest number instead. */
  function ScanLowest(t: Track, nums: seq<int>): Track {
    if nums == [] then t
    else var r := ResetIfBelow(t, nums[0]); Process(r, Above(nums, r.last))
  }

  function RunLowest(snaps: seq<seq<int>>): Track {
    if snaps == [] then START else ScanLowest(RunLowest(snaps[..|snaps| - 1]), snaps[|snaps| - 1])
  }

  /** How many scans come after one that found two frames or more, and so left last_processed at 1 or above. */
  function LaterScans(counts: seq<nat>): nat {
    if |counts| < 2 then 0
    else LaterScans(counts[..|counts| - 1]) + if counts[|counts| - 2] >= 2 then 1 else 0
  }

  /** The frames of each scan: all on disk after such a scan, otherwise the new ones. */
  function Reprocessed(counts: seq<nat>): seq<int> {
    if counts == [] then []
    else
      var n := |counts| - 1;
      var passed := if n == 0 || counts[n - 1] >= 2 then 0 else counts[n - 1];
      Reprocessed(counts[..n]) + Range(passed, counts[n])
  }

  lemma LowestScan(t: Track, n: nat)
    requires -1 <= t.last < n
    ensures var t' := ScanLowest(t, Range(0, n));
      && t'.last == n - 1
      && t'.resets == t.resets + (if t.last >= 1 then 1 else 0)
      && t'.trace == t.trace + Range(if t.last >= 1 then 0 else t.last + 1, n)
  {
    AboveRange(n, if t.last >= 1 then -1 else t.last);
  }

  ghost predicate LowestAfter(t: Track, counts: seq<nat>) {
    && t.resets == LaterScans(counts)
    && t.trace == Reprocessed(counts)
    && t.last + 1 == if counts == [] then 0 else counts[|counts| - 1]
  }

  lemma LowestStep(t: Track, earlier: seq<nat>, count: nat)
    requires LowestAfter(t, earlier) && t.last < count
    ensures LowestAfter(ScanLowest(t, Range(0, count)), earlier + [count])
  {
    var counts := earlier + [count];
    assert counts[..|earlier|] == earlier;
    LowestScan(t, count);
  }

  /** An empty folder, and so all before were empty too. */
  lemma LowestEmpty(t: Track, earlier: seq<nat>)
    requires LowestAfter(t, earlier) && t.last == -1
    ensures LowestAfter(t, earlier + [0])
  {
    assert (earlier + [0])[..|earlier|] == earlier;
    assert t.trace + Range(0, 0) == t.trace;
  }

  /**
   * Testing the lowest number would report a reset at every scan once last_processed has reached 1, and process the
   * whole folder again each time, in the very sessions where the code's own test never fires.
   */
  lemma {:induction false} LowestTestAlwaysResets(counts: seq<nat>)
    requires Nondecreasing(counts)
    ensures LowestAfter(RunLowest(Prefixes(counts)), counts)
  {
    if counts == [] {
    } else {
      var n := |counts| - 1;
      var snaps := Prefixes(counts);
      assert snaps[..n] == Prefixes(counts[..n]) && snaps[n] == Range(0, counts[n]);
      LowestTestAlwaysResets(counts[..n]);
      assert counts == counts[..n] + [counts[n]];
      assert n > 0 ==> counts[n - 1] <= counts[n];
      if counts[n] == 0 {
        LowestEmpty(RunLowest(snaps[..n]), counts[..n]);
      } else {
        LowestStep(RunLowest(snaps[..n]), counts[..n], counts[n]);
      }
    }
  }
}
