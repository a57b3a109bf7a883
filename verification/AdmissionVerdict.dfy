/**
 When the shared admission latch is latched, said of the polls alone: which polls count is decided by their arrival
 times, and the verdict by the red and the calming ones among them.
 */
module AdmissionVerdict {
  import opened Prelude
  import opened AdmissionGate

  // ----- which polls count -----

  /** The time of the latest counted poll: one that no counted poll precedes by less than the sample interval. */
  function LastCounted(ps: seq<Poll>): Option<Time> {
    if ps == [] then None
    else
      var t, now := LastCounted(ps[..|ps| - 1]), ps[|ps| - 1].now;
      if t.Some? && now - t.value < 1500 then t else Some(now)
  }

  ghost predicate CountedAt(ps: seq<Poll>, k: int) {
    0 <= k < |ps| && var t := LastCounted(ps[..k]); t.None? || ps[k].now - t.value >= 1500
  }

  /** Poll `k` came more than two minutes after the counted one before it. */
  ghost predicate StaleAt(ps: seq<Poll>, k: int) {
    0 <= k < |ps| && var t := LastCounted(ps[..k]); t.Some? && ps[k].now - t.value > 120_000
  }

  ghost predicate RedAt(ps: seq<Poll>, k: int) { CountedAt(ps, k) && ps[k].o.red }
  ghost predicate CalmAt(ps: seq<Poll>, k: int) { CountedAt(ps, k) && !ps[k].o.red && ps[k].o.recovered }

  lemma OneMore(ps: seq<Poll>, p: Poll, k: int)
    requires k < |ps|
    ensures CountedAt(ps + [p], k) == CountedAt(ps, k) && StaleAt(ps + [p], k) == StaleAt(ps, k)
    ensures RedAt(ps + [p], k) == RedAt(ps, k) && CalmAt(ps + [p], k) == CalmAt(ps, k)
  {
    if 0 <= k { assert (ps + [p])[..k] == ps[..k]; }
  }

  lemma {:induction false} LastCountedIs(l: Limits, ps: seq<Poll>)
    ensures Run(EMPTY, l, ps).observedAt == LastCounted(ps)
  {
    if ps != [] { LastCountedIs(l, ps[..|ps| - 1]); }
  }

  lemma LastPoll(l: Limits, ps: seq<Poll>, p: Poll)
    ensures Run(EMPTY, l, ps + [p]) == Gate(Run(EMPTY, l, ps), l, p)
    ensures CountedAt(ps + [p], |ps|) == Counted(Run(EMPTY, l, ps), p.now)
    ensures StaleAt(ps + [p], |ps|) == Stale(Run(EMPTY, l, ps), p.now)
  {
    assert (ps + [p])[..|ps|] == ps;
    LastCountedIs(l, ps);
  }

  // ----- the red count -----

  /** How many of the polls from `i` on were counted red. */
  ghost function RedsFrom(ps: seq<Poll>, i: int): nat {
    if ps == [] || i >= |ps| then 0
    else RedsFrom(ps[..|ps| - 1], i) + if RedAt(ps, |ps| - 1) then 1 else 0
  }

  /** The count starts at `i`: just after a calming poll, at a stale one, or at the very first, with none of these
      later. */
  ghost predicate CountStartsAt(ps: seq<Poll>, i: int) {
    && 0 <= i <= |ps| && (i == 0 || CalmAt(ps, i - 1) || StaleAt(ps, i))
    && (forall k :: i <= k < |ps| ==> !CalmAt(ps, k))
    && (forall k :: i < k < |ps| ==> !StaleAt(ps, k))
  }

  lemma RedsFromStep(ps: seq<Poll>, p: Poll, i: int)
    ensures i <= |ps| ==> RedsFrom(ps + [p], i) == RedsFrom(ps, i) + if RedAt(ps + [p], |ps|) then 1 else 0
    ensures i > |ps| ==> RedsFrom(ps + [p], i) == 0
  {
    assert (ps + [p])[..|ps|] == ps;
  }

  lemma {:induction false} CountStartExists(ps: seq<Poll>) returns (i: int)
    ensures CountStartsAt(ps, i)
  {
    i := 0;
    if ps != [] {
      var init, p, n := ps[..|ps| - 1], ps[|ps| - 1], |ps| - 1;
      i := CountStartExists(init);
      assert ps == init + [p];
      forall k | k < n ensures CalmAt(ps, k) == CalmAt(init, k) && StaleAt(ps, k) == StaleAt(init, k) {
        OneMore(init, p, k);
      }
      hide CalmAt, StaleAt;
      if CalmAt(ps, n) { i := n + 1; } else if StaleAt(ps, n) { i := n; }
    }
  }

  /** The count started before the last poll unless that poll was calming or stale. */
  lemma StartedBefore(ps: seq<Poll>, p: Poll, i: int)
    requires CountStartsAt(ps + [p], i) && !CalmAt(ps + [p], |ps|) && !StaleAt(ps + [p], |ps|)
    ensures CountStartsAt(ps, i)
  {
    forall k | k < |ps| ensures CalmAt(ps + [p], k) == CalmAt(ps, k) && StaleAt(ps + [p], k) == StaleAt(ps, k) {
      OneMore(ps, p, k);
    }
    hide CalmAt, StaleAt;
    assert i != |ps| + 1;
    assert i == |ps| ==> i == 0 || CalmAt(ps, i - 1);
  }

  /** `red` is the number of counted red polls since the last counted calming or stale one. */
  lemma {:induction false} RedIsCount(l: Limits, ps: seq<Poll>, i: int)
    requires CountStartsAt(ps, i)
    ensures Run(EMPTY, l, ps).red == RedsFrom(ps, i)
  {
    if ps != [] {
      var init, p, n := ps[..|ps| - 1], ps[|ps| - 1], |ps| - 1;
      assert ps == init + [p];
      LastPoll(l, init, p);
      RedsFromStep(init, p, i);
      if CalmAt(ps, n) {
        assert i == n + 1;
      } else if StaleAt(ps, n) {
        assert i == n;
        RedsFromEnd(init, n);
      } else {
        StartedBefore(init, p, i);
        RedIsCount(l, init, i);
      }
    }
  }

  lemma RedsFromEnd(ps: seq<Poll>, i: int)
    requires i >= |ps|
    ensures RedsFrom(ps, i) == 0
  {
  }

  // ----- the verdict -----

  ghost predicate RedRun(ps: seq<Poll>, n: int) { exists i :: CountStartsAt(ps, i) && RedsFrom(ps, i) >= n }

  /** The red poll `k` brings its count to the block limit. */
  ghost predicate BlocksAt(ps: seq<Poll>, l: Limits, k: int) {
    RedAt(ps, k) && RedRun(ps[..k + 1], Max(1, l.blockSamples))
  }

  ghost function CountedFrom(ps: seq<Poll>, i: int): nat {
    if ps == [] || i >= |ps| then 0
    else CountedFrom(ps[..|ps| - 1], i) + if CountedAt(ps, |ps| - 1) then 1 else 0
  }

  /** Every counted poll from `i` on is calming. */
  ghost predicate CalmFrom(ps: seq<Poll>, i: int) {
    0 <= i <= |ps| && forall k :: i <= k < |ps| && CountedAt(ps, k) ==> CalmAt(ps, k)
  }

  ghost predicate CalmRun(ps: seq<Poll>, n: int) { exists i :: CalmFrom(ps, i) && CountedFrom(ps, i) >= n }

  /** Poll `k` completes as many consecutive counted calming polls as the release limit asks for. */
  ghost predicate ReleasesAt(ps: seq<Poll>, l: Limits, k: int) {
    CalmAt(ps, k) && CalmRun(ps[..k + 1], Max(1, l.releaseSamples))
  }

  ghost predicate HoldsSince(ps: seq<Poll>, l: Limits, j: int) {
    BlocksAt(ps, l, j) && forall k :: j < k < |ps| ==> !ReleasesAt(ps, l, k) && !StaleAt(ps, k)
  }

  /** The reds reached the block limit, and since then nothing released the latch or let it expire. */
  ghost predicate Blocked(ps: seq<Poll>, l: Limits) { exists j :: HoldsSince(ps, l, j) }

  lemma BlocksOneMore(ps: seq<Poll>, p: Poll, l: Limits, k: int)
    requires k < |ps|
    ensures BlocksAt(ps + [p], l, k) == BlocksAt(ps, l, k) && ReleasesAt(ps + [p], l, k) == ReleasesAt(ps, l, k)
  {
    OneMore(ps, p, k);
    if 0 <= k { assert (ps + [p])[..k + 1] == ps[..k + 1]; }
    hide RedAt, CalmAt, CountStartsAt, CalmRun;
  }

  /** The verdict after one more poll. */
  lemma BlockedStep(ps: seq<Poll>, p: Poll, l: Limits)
    ensures var all, n := ps + [p], |ps|;
            Blocked(all, l) <==> BlocksAt(all, l, n) || (Blocked(ps, l) && !ReleasesAt(all, l, n) && !StaleAt(all, n))
  {
    var all, n := ps + [p], |ps|;
    forall k | k < n
      ensures BlocksAt(all, l, k) == BlocksAt(ps, l, k) && ReleasesAt(all, l, k) == ReleasesAt(ps, l, k)
      ensures StaleAt(all, k) == StaleAt(ps, k)
    {
      BlocksOneMore(ps, p, l, k);
      OneMore(ps, p, k);
    }
    hide BlocksAt, ReleasesAt, StaleAt;
    if j :| HoldsSince(all, l, j) {
      BlocksInRange(all, l, j);
      if j < n { assert HoldsSince(ps, l, j); }
    }
    if BlocksAt(all, l, n) { assert HoldsSince(all, l, n); }
    if !ReleasesAt(all, l, n) && !StaleAt(all, n) {
      if j :| HoldsSince(ps, l, j) {
        BlocksInRange(ps, l, j);
        assert HoldsSince(all, l, j);
      }
    }
  }

  lemma BlocksInRange(ps: seq<Poll>, l: Limits, k: int)
    requires BlocksAt(ps, l, k)
    ensures 0 <= k < |ps|
  {
  }

  // ----- the recovery count while latched -----

  /** Poll `m` was counted and not calming, and `n` counted polls followed, all calming. */
  ghost predicate LastUnrest(ps: seq<Poll>, m: int, n: int) {
    CountedAt(ps, m) && !CalmAt(ps, m) && CalmFrom(ps, m + 1) && CountedFrom(ps, m + 1) == n
  }

  lemma CountedFromStep(ps: seq<Poll>, p: Poll, i: int)
    ensures i <= |ps| ==> CountedFrom(ps + [p], i) == CountedFrom(ps, i) + if CountedAt(ps + [p], |ps|) then 1 else 0
    ensures i > |ps| ==> CountedFrom(ps + [p], i) == 0
  {
    assert (ps + [p])[..|ps|] == ps;
  }

  lemma UnrestStep(ps: seq<Poll>, p: Poll, m: int, n: int)
    requires LastUnrest(ps, m, n)
    ensures var all, at := ps + [p], |ps|;
            && (!CountedAt(all, at) ==> LastUnrest(all, m, n))
            && (CalmAt(all, at) ==> LastUnrest(all, m, n + 1))
  {
    var all := ps + [p];
    forall k | k < |ps| ensures CountedAt(all, k) == CountedAt(ps, k) && CalmAt(all, k) == CalmAt(ps, k) {
      OneMore(ps, p, k);
    }
    CountedFromStep(ps, p, m + 1);
    assert 0 <= m < |ps|;
    hide CountedFrom;
  }

  lemma UnrestNow(ps: seq<Poll>, p: Poll)
    requires CountedAt(ps + [p], |ps|) && !CalmAt(ps + [p], |ps|)
    ensures LastUnrest(ps + [p], |ps|, 0)
  {
    CountedFromStep(ps, p, |ps| + 1);
  }

  /** While the latch holds, its recovery counter is the number of counted calming polls since the last other one. */
  lemma {:induction false} RecoveryIsCount(l: Limits, ps: seq<Poll>) returns (m: int)
    ensures Run(EMPTY, l, ps).latched ==> LastUnrest(ps, m, Run(EMPTY, l, ps).recovery)
  {
    m := 0;
    if ps != [] {
      var init, p, n := ps[..|ps| - 1], ps[|ps| - 1], |ps| - 1;
      assert ps == init + [p];
      m := RecoveryIsCount(l, init);
      LastPoll(l, init, p);
      hide LastUnrest, Run;
      if Run(EMPTY, l, init).latched { UnrestStep(init, p, m, Run(EMPTY, l, init).recovery); }
      if CountedAt(ps, n) && !CalmAt(ps, n) {
        UnrestNow(init, p);
        m := n;
      }
    }
  }

  /** A run of calming polls cannot reach back over an unrest. */
  lemma RunAfterUnrest(ps: seq<Poll>, m: int, n: int, want: int)
    requires LastUnrest(ps, m, n)
    ensures CalmRun(ps, want) <==> n >= want
  {
    if i :| CalmFrom(ps, i) && CountedFrom(ps, i) >= want {
      assert i > m;
      FewerLater(ps, m + 1, i);
    }
    if n >= want { assert CalmFrom(ps, m + 1); }
  }

  lemma {:induction false} FewerLater(ps: seq<Poll>, i: int, j: int)
    requires i <= j
    ensures CountedFrom(ps, j) <= CountedFrom(ps, i)
  {
    if ps != [] && j < |ps| { FewerLater(ps[..|ps| - 1], i, j); }
  }

  // ----- the theorem -----

  lemma BlocksNow(l: Limits, ps: seq<Poll>, p: Poll)
    ensures BlocksAt(ps + [p], l, |ps|) <==>
            RedAt(ps + [p], |ps|) && Run(EMPTY, l, ps + [p]).red >= Max(1, l.blockSamples)
  {
    var all := ps + [p];
    assert all[..|ps| + 1] == all;
    var i := CountStartExists(all);
    RedIsCount(l, all, i);
    hide RedAt, CountStartsAt, RedsFrom, Run;
    if j :| CountStartsAt(all, j) && RedsFrom(all, j) >= Max(1, l.blockSamples) { RedIsCount(l, all, j); }
  }

  lemma ReleasesNow(l: Limits, ps: seq<Poll>, p: Poll)
    requires Run(EMPTY, l, ps).latched
    ensures ReleasesAt(ps + [p], l, |ps|) <==>
            CalmAt(ps + [p], |ps|) && Run(EMPTY, l, ps).recovery + 1 >= Max(1, l.releaseSamples)
  {
    var all := ps + [p];
    assert all[..|ps| + 1] == all;
    var m := RecoveryIsCount(l, ps);
    UnrestStep(ps, p, m, Run(EMPTY, l, ps).recovery);
    hide LastUnrest, CalmAt, CalmRun, Run;
    if CalmAt(all, |ps|) {
      RunAfterUnrest(all, m, Run(EMPTY, l, ps).recovery + 1, Max(1, l.releaseSamples));
    }
  }

  /**
   Whatever the arrival times, the latch is latched if and only if the counted red polls since the last calming or
   stale one once reached the block limit, and since then no run of calming polls reached the release limit and no
   poll came too late.
   */
  lemma {:induction false} LatchedIffBlocked(l: Limits, ps: seq<Poll>)
    ensures Run(EMPTY, l, ps).latched <==> Blocked(ps, l)
  {
    if ps == [] {
      if j :| HoldsSince(ps, l, j) { BlocksInRange(ps, l, j); }
    } else {
      var init, p, n := ps[..|ps| - 1], ps[|ps| - 1], |ps| - 1;
      assert ps == init + [p];
      LatchedIffBlocked(l, init);
      BlockedStep(init, p, l);
      BlocksNow(l, init, p);
      LastPoll(l, init, p);
      var c := Run(EMPTY, l, init);
      if c.latched { ReleasesNow(l, init, p); }
      hide Run, Blocked, BlocksAt, ReleasesAt;
      CountersStayBounded(l, init);
    }
  }

  lemma LatchTime(c: Core, l: Limits, p: Poll)
    requires Gate(c, l, p).latched
    ensures Gate(c, l, p).latchedAt == if c.latched && !Stale(c, p.now) then c.latchedAt else Some(p.now)
  {
  }

  /** `latchedAt` is the time of the poll that latched: blocked from it on, and before it not blocked, or stale. */
  lemma {:induction false} LatchedAtIs(l: Limits, ps: seq<Poll>) returns (j: int)
    requires Blocked(ps, l)
    ensures 0 <= j < |ps| && Run(EMPTY, l, ps).latchedAt == Some(ps[j].now)
    ensures !Blocked(ps[..j], l) || StaleAt(ps, j)
    ensures forall k :: j < k <= |ps| ==> Blocked(ps[..k], l)
  {
    hide Blocked, Gate, StaleAt;
    LatchedIffBlocked(l, ps);
    NoneBlocked(l);
    var init, p := ps[..|ps| - 1], ps[|ps| - 1];
    assert ps == init + [p] && ps[..|ps|] == ps;
    LatchedIffBlocked(l, init);
    LastPoll(l, init, p);
    LatchTime(Run(EMPTY, l, init), l, p);
    j := |ps| - 1;
    hide Run;
    if Blocked(init, l) && !StaleAt(ps, |init|) {
      j := LatchedAtIs(l, init);
      OneMore(init, p, j);
      forall k | 0 <= k <= |init| ensures ps[..k] == init[..k] { }
    }
  }

  lemma NoneBlocked(l: Limits)
    ensures !Blocked([], l)
  {
    LatchedIffBlocked(l, []);
  }
}
