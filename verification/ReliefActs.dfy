/**
 Exactly when a sample makes the resident submit a tree, in terms of the samples of this process; and which tree.
 */
module ReliefActs {
  import opened Prelude
  import opened Relief

  // ----- what a run of samples shows -----

  /** The sample shows a tree with this root that is old enough and idle. */
  ghost predicate IdleTree(o: Observation, root: int, p: Policy) {
    exists i :: 0 <= i < |o.trees| && o.trees[i].root == root && Idle(o.trees[i], p)
  }

  predicate Idle(x: Tree, p: Policy) { x.age >= p.minAge && x.cpuValid && x.cpu <= p.maxCPU }

  /** Each of the last `n` samples shows it. */
  ghost predicate IdleFor(life: seq<Observation>, n: int, root: int, p: Policy) {
    0 <= n <= |life| && forall i :: |life| - n <= i < |life| ==> IdleTree(life[i], root, p)
  }

  /** Each of the last `n` samples is critical on memory alone. */
  ghost predicate CriticalFor(life: seq<Observation>, n: int, p: Policy) {
    0 <= n <= |life| && forall i :: |life| - n <= i < |life| ==> MemoryCritical(life[i].readings, p.thresholds)
  }

  lemma IdleForStep(life: seq<Observation>, o: Observation, n: int, root: int, p: Policy)
    requires n >= 1
    ensures IdleFor(life + [o], n, root, p) <==> IdleTree(o, root, p) && IdleFor(life, n - 1, root, p)
  {
    hide IdleTree;
    var all := life + [o];
    assert all[|life|] == o && forall i :: 0 <= i < |life| ==> all[i] == life[i];
    if IdleFor(all, n, root, p) {
      forall i | |life| - (n - 1) <= i < |life| ensures IdleTree(life[i], root, p) { assert all[i] == life[i]; }
    }
  }

  lemma CriticalForStep(life: seq<Observation>, o: Observation, n: int, p: Policy)
    requires n >= 1
    ensures CriticalFor(life + [o], n, p) <==> MemoryCritical(o.readings, p.thresholds) && CriticalFor(life, n - 1, p)
  {
    hide MemoryCritical;
    var all := life + [o];
    assert all[|life|] == o && forall i :: 0 <= i < |life| ==> all[i] == life[i];
    if CriticalFor(all, n, p) {
      forall i | |life| - (n - 1) <= i < |life| ensures MemoryCritical(life[i].readings, p.thresholds) {
        assert all[i] == life[i];
      }
    }
  }

  // ----- the counters are exact -----

  /** A streak is the exact number of samples, up to now, that showed the tree old enough and idle. */
  ghost predicate StreaksExact(s: Streaks, life: seq<Observation>, p: Policy) {
    forall r: int, n: int :: n >= 0 ==> (IdleFor(life, n, r, p) <==> n <= Streak(s, r))
  }

  /** While critical, `consecutive` is the exact number of samples critical on memory alone. */
  ghost predicate LevelExact(l: Loop, life: seq<Observation>, p: Policy) {
    forall n: int :: n >= 0 ==>
      (CriticalFor(life, n, p) <==> n <= if l.lastLevel == Some(Critical) then l.consecutive else 0)
  }

  ghost predicate Exact(l: Loop, life: seq<Observation>, p: Policy) {
    StreaksExact(l.streaks, life, p) && LevelExact(l, life, p) && l.consecutive >= 0
  }

  lemma {:induction false} NextStreakIs(before: Streaks, o: Observation, p: Policy, r: int)
    requires DistinctRoots(o.trees)
    ensures Streak(Restreaked(before, o.trees, p), r) == if IdleTree(o, r, p) then Streak(before, r) + 1 else 0
  {
    RestreakedIs(before, o.trees, p);
    hide Restreaked;
    var after := Restreaked(before, o.trees, p);
    if r in after {
      var i :| 0 <= i < |o.trees| && o.trees[i].root == r;
      assert after[r] == NextStreak(before, o.trees[i], p);
      if IdleTree(o, r, p) {
        var j :| 0 <= j < |o.trees| && o.trees[j].root == r && Idle(o.trees[j], p);
        assert i == j;
      }
    }
  }

  lemma {:induction false} StreaksStayExact(before: Streaks, life: seq<Observation>, o: Observation, p: Policy)
    requires DistinctRoots(o.trees) && StreaksExact(before, life, p)
    ensures StreaksExact(Restreaked(before, o.trees, p), life + [o], p)
  {
    hide Restreaked, IdleFor, IdleTree;
    forall r: int, n: int | n >= 0
      ensures IdleFor(life + [o], n, r, p) <==> n <= Streak(Restreaked(before, o.trees, p), r)
    {
      NextStreakIs(before, o, p, r);
      if n == 0 {
        IdleForNone(life + [o], r, p);
        IdleForNone(life, r, p);
      } else {
        IdleForStep(life, o, n, r, p);
        IdleForNone(life, r, p);
      }
    }
  }

  lemma IdleForNone(life: seq<Observation>, r: int, p: Policy)
    ensures IdleFor(life, 0, r, p)
  {
  }

  lemma CriticalForNone(life: seq<Observation>, p: Policy)
    ensures CriticalFor(life, 0, p)
  {
  }

  lemma SampledCritical(o: Observation, p: Policy)
    ensures SampledLevel(o, p) == Critical <==> MemoryCritical(o.readings, p.thresholds)
    ensures ActingLevel(o, p) == Critical <==> MemoryCritical(o.readings, p.thresholds)
  {
    FullLevelIs(o.readings.(swapLatched := false), p.thresholds);
    FullLevelIs(o.readings.(swapLatched := o.latched), p.thresholds);
    hide Evaluate;
  }

  lemma {:induction false} LevelStaysExact(l: Loop, life: seq<Observation>, o: Observation, p: Policy)
    requires LevelExact(l, life, p) && l.consecutive >= 0
    ensures LevelExact(CountedIn(l, o, p), life + [o], p) && CountedIn(l, o, p).consecutive >= 0
  {
    hide SampledLevel, CriticalFor, MemoryCritical, Restreaked;
    SampledCritical(o, p);
    var c := CountedIn(l, o, p);
    forall n: int | n >= 0
      ensures CriticalFor(life + [o], n, p) <==> n <= if c.lastLevel == Some(Critical) then c.consecutive else 0
    {
      CriticalForNone(life, p);
      if n == 0 { CriticalForNone(life + [o], p); } else { CriticalForStep(life, o, n, p); }
    }
  }

  lemma {:induction false} PassStaysExact(s: System, o: Observation, p: Policy)
    requires DistinctRoots(o.trees) && Exact(s.loop, s.life, p)
    ensures Exact(Next(s, Sampled(o), p).loop, Next(s, Sampled(o), p).life, p)
  {
    StreaksStayExact(s.loop.streaks, s.life, o, p);
    LevelStaysExact(s.loop, s.life, o, p);
    hide Submitted, StreaksExact, CriticalFor, Restreaked, SampledLevel;
    var c, l := CountedIn(s.loop, o, p), Next(s, Sampled(o), p).loop;
    assert l.lastLevel == c.lastLevel && l.consecutive == c.consecutive && l.streaks == c.streaks;
  }

  lemma {:induction false} StartIsExact(log: seq<Action>, now: Time, p: Policy)
    ensures Exact(Restarted(log, now, p), [], p)
  {
    ReplayKeepsCounters(STARTED, ReadActions(log, now - HistoryWindow(p)));
    hide ReadActions;
  }

  /** Over every run, the counters are exactly what the samples of this process show. */
  lemma {:induction false} CountersAlwaysExact(steps: seq<Step>, p: Policy)
    requires RootsDistinct(steps)
    ensures Exact(Live(steps, p).loop, Live(steps, p).life, p)
  {
    if steps == [] {
      assert Exact(STARTED, [], p);
    } else {
      var init, last := steps[..|steps| - 1], steps[|steps| - 1];
      CountersAlwaysExact(init, p);
      hide Exact, Passed, Restarted, Missed, DistinctRoots;
      var s := Live(init, p);
      match last
      case Failed =>
      case Restart(now) => StartIsExact(s.log, now, p);
      case Sampled(o) =>
        assert steps[|steps| - 1].Sampled?;
        PassStaysExact(s, o, p);
    }
  }

  // ----- when a tree is submitted -----

  /** The tree can be chosen: idle for long enough, not busy, and not rejected since the host became critical. */
  ghost predicate Candidate(life: seq<Observation>, x: Tree, rejected: set<int>, p: Policy) {
    Idle(x, p) && IdleFor(life, p.sustain, x.root, p) && x.semantic != Busy && x.key !in rejected
  }

  /** Every gate is open at `o`, the last sample of `life`; `l` is the loop before it. */
  ghost predicate GatesOpen(l: Loop, life: seq<Observation>, o: Observation, p: Policy) {
    && p.autoShed && o.guard.resident && o.guard.budgetOK && o.guard.baselineProven && o.guard.inventoryFresh
    && o.guard.policyCurrent
    && CriticalFor(life, p.sustain, p)
    && (l.lastAttempt == 0 || o.now - l.lastAttempt >= p.cooldown)
    && (l.lastRevalidation == 0 || o.now - l.lastRevalidation >= 180 * 1_000_000_000)
  }

  lemma {:induction false} EligibleIff(l: Loop, life: seq<Observation>, o: Observation, p: Policy, i: int,
                                       rejected: set<int>)
    requires DistinctRoots(o.trees) && StreaksExact(l.streaks, life, p) && 0 <= i < |o.trees| && p.sustain >= 1
    ensures Eligible(Annotated(l.streaks, o.trees, p)[i], p, rejected)
            <==> Candidate(life + [o], o.trees[i], rejected, p)
  {
    var x := o.trees[i];
    StreaksStayExact(l.streaks, life, o, p);
    RestreakedIs(l.streaks, o.trees, p);
    hide Restreaked, Annotated, IdleFor, IdleTree;
    assert Streak(Restreaked(l.streaks, o.trees, p), x.root) == NextStreak(l.streaks, x, p);
    assert IdleFor(life + [o], p.sustain, x.root, p) <==> p.sustain <= NextStreak(l.streaks, x, p);
  }

  /**
   A sample of a running process submits a tree if and only if every gate is open, the last `sustain` samples were each
   critical on memory alone, and some tree is a candidate. The one submitted is a candidate.
   */
  lemma {:induction false} SubmissionIff(steps: seq<Step>, o: Observation, p: Policy)
    requires RootsDistinct(steps + [Sampled(o)]) && p.sustain >= 1
    ensures var s := Live(steps, p);
            Submitted(s.loop, CountedIn(s.loop, o, p), o, p).Some? <==>
            && GatesOpen(s.loop, s.life + [o], o, p)
            && exists i :: 0 <= i < |o.trees| && Candidate(s.life + [o], o.trees[i], s.loop.rejected, p)
  {
    var s, all := Live(steps, p), steps + [Sampled(o)];
    assert all[|steps|] == Sampled(o) && forall i :: 0 <= i < |steps| ==> all[i] == steps[i];
    CountersAlwaysExact(steps, p);
    hide Live, RootsDistinct, DistinctRoots;
    SubmittedIff(s.loop, s.life, o, p);
  }

  lemma {:induction false} SubmittedIff(l: Loop, life: seq<Observation>, o: Observation, p: Policy)
    requires DistinctRoots(o.trees) && Exact(l, life, p) && p.sustain >= 1
    ensures Submitted(l, CountedIn(l, o, p), o, p).Some? <==>
            && GatesOpen(l, life + [o], o, p)
            && exists i :: 0 <= i < |o.trees| && Candidate(life + [o], o.trees[i], l.rejected, p)
  {
    hide StreaksExact, Restreaked, Annotated, Eligible, Candidate, MemoryCritical, SampledLevel, ActingLevel,
         CriticalFor;
    var c, marked := CountedIn(l, o, p), Annotated(l.streaks, o.trees, p);
    LevelStaysExact(l, life, o, p);
    SampledCritical(o, p);
    ChoiceIsBest(marked, p, c.rejected);
    hide Choice;
    forall i | 0 <= i < |o.trees|
      ensures Eligible(marked[i], p, l.rejected) <==> Candidate(life + [o], o.trees[i], l.rejected, p)
    {
      EligibleIff(l, life, o, p, i, l.rejected);
    }
    CriticalForOne(life + [o], p);
  }

  /** A sustained critical level includes the last sample. */
  lemma CriticalForOne(life: seq<Observation>, p: Policy)
    requires life != [] && p.sustain >= 1
    ensures CriticalFor(life, p.sustain, p) ==> MemoryCritical(life[|life| - 1].readings, p.thresholds)
  {
  }

  // ----- which tree -----

  /** The submitted tree against every other candidate: hook-ready first, then the largest, then the least CPU, then the
      lowest PID. */
  lemma {:induction false} SubmittedComesFirst(l: Loop, o: Observation, p: Policy, x: Tree, y: Tree)
    requires Submitted(l, CountedIn(l, o, p), o, p) == Some(x)
    requires y in Annotated(l.streaks, o.trees, p) && Eligible(y, p, CountedIn(l, o, p).rejected)
    ensures || (x.semantic == Ready && y.semantic != Ready)
            || ((x.semantic == Ready <==> y.semantic == Ready) &&
                (|| x.rss > y.rss || (x.rss == y.rss && x.cpu < y.cpu)
                 || (x.rss == y.rss && x.cpu == y.cpu && x.root <= y.root)))
  {
    ChoiceIsBest(Annotated(l.streaks, o.trees, p), p, CountedIn(l, o, p).rejected);
    hide Choice, Annotated, Evaluate;
  }

  // ----- a rejected tree -----

  /** Samples that failed or were critical on memory. */
  ghost predicate StaysCritical(rest: seq<Step>, p: Policy) {
    forall i :: 0 <= i < |rest| ==>
      rest[i].Failed? || (rest[i].Sampled? && MemoryCritical(rest[i].o.readings, p.thresholds))
  }

  lemma {:induction false} RejectionStays(steps: seq<Step>, rest: seq<Step>, p: Policy, key: int)
    requires key in Live(steps, p).loop.rejected && StaysCritical(rest, p)
    ensures key in Live(steps + rest, p).loop.rejected
  {
    if rest == [] {
      assert steps + rest == steps;
    } else {
      var init, last := rest[..|rest| - 1], rest[|rest| - 1];
      assert forall i :: 0 <= i < |init| ==> init[i] == rest[i];
      RejectionStays(steps, init, p, key);
      assert (steps + rest)[..|steps + rest| - 1] == steps + init && (steps + rest)[|steps + rest| - 1] == last;
      hide MemoryCritical, Submitted;
      if last.Sampled? { CriticalKeepsRejections(Live(steps + init, p), last.o, p, key); }
    }
  }

  lemma CriticalKeepsRejections(s: System, o: Observation, p: Policy, key: int)
    requires key in s.loop.rejected && MemoryCritical(o.readings, p.thresholds)
    ensures key in Next(s, Sampled(o), p).loop.rejected
  {
    SampledCritical(o, p);
    hide SampledLevel, MemoryCritical, Submitted, Restreaked;
  }

  /** A tree whose submission was rejected is not submitted again in this process while the host stays critical. */
  lemma {:induction false} RejectedIsNotRetried(steps: seq<Step>, first: Observation, rest: seq<Step>,
                                                again: Observation, p: Policy, x: Tree, y: Tree)
    requires first.rejects && StaysCritical(rest, p)
    requires var s := Live(steps, p); Submitted(s.loop, CountedIn(s.loop, first, p), first, p) == Some(x)
    requires var s := Live(steps + [Sampled(first)] + rest, p);
             Submitted(s.loop, CountedIn(s.loop, again, p), again, p) == Some(y)
    ensures y.key != x.key
  {
    var s := Live(steps, p);
    assert (steps + [Sampled(first)])[..|steps|] == steps;
    assert x.key in Live(steps + [Sampled(first)], p).loop.rejected by { hide Submitted, CountedIn; }
    RejectionStays(steps + [Sampled(first)], rest, p, x.key);
    hide Live;
    NotRejected(Live(steps + [Sampled(first)] + rest, p).loop, again, p, y);
  }

  lemma {:induction false} NotRejected(l: Loop, o: Observation, p: Policy, y: Tree)
    requires Submitted(l, CountedIn(l, o, p), o, p) == Some(y)
    ensures y.key !in l.rejected
  {
    var c, marked := CountedIn(l, o, p), Annotated(l.streaks, o.trees, p);
    ChoiceIsBest(marked, p, c.rejected);
    SampledCritical(o, p);
    hide SampledLevel, ActingLevel, MemoryCritical, Choice, Annotated, Restreaked, Quiet;
    assert y.key !in c.rejected;
  }

  // ----- what a restart knows of rejections -----

  lemma {:induction false} ReplayRejections(l: Loop, rows: seq<Action>, key: int)
    ensures key in Replayed(l, rows).rejected
            <==> key in l.rejected || exists a :: a in rows && a.rejected && a.key == key
    ensures Replayed(l, rows).lastRevalidation >= l.lastRevalidation
    ensures forall a :: a in rows && a.rejected ==> Replayed(l, rows).lastRevalidation >= a.at
  {
    if rows != [] {
      var init, last := rows[..|rows| - 1], rows[|rows| - 1];
      ReplayRejections(l, init, key);
      assert rows == init + [last];
      assert last in rows;
    }
  }

  /** A restart takes over exactly the rejected trees among the actions it reads, and waits from the latest of them. */
  lemma {:induction false} RestartKnowsRejections(log: seq<Action>, now: Time, p: Policy, key: int)
    ensures var l, rows := Restarted(log, now, p), ReadActions(log, now - HistoryWindow(p));
            && (key in l.rejected <==> exists a :: a in rows && a.rejected && a.key == key)
            && (forall a :: a in rows && a.rejected ==> a.at <= l.lastRevalidation)
  {
    hide ReadActions;
    ReplayRejections(STARTED, ReadActions(log, now - HistoryWindow(p)), key);
  }

  /** No submission within three minutes of a rejected one, while the host stays critical. */
  lemma {:induction false} RejectionCools(steps: seq<Step>, first: Observation, rest: seq<Step>, again: Observation,
                                          p: Policy)
    requires first.rejects && first.now > 0 && StaysCritical(rest, p)
    requires var s := Live(steps, p); Submitted(s.loop, CountedIn(s.loop, first, p), first, p).Some?
    requires forall i :: 0 <= i < |rest| && rest[i].Sampled? ==> rest[i].o.now > 0
    requires var s := Live(steps + [Sampled(first)] + rest, p);
             Submitted(s.loop, CountedIn(s.loop, again, p), again, p).Some?
    ensures again.now - first.now >= 180 * 1_000_000_000
  {
    assert (steps + [Sampled(first)])[..|steps|] == steps;
    var begun := steps + [Sampled(first)];
    assert Live(begun, p).loop.lastRevalidation == first.now by { hide Submitted, CountedIn; }
    RevalidationAdvances(begun, rest, p, first.now);
    hide Live;
    CooledDown(Live(begun + rest, p).loop, again, p);
  }

  lemma {:induction false} RevalidationAdvances(steps: seq<Step>, rest: seq<Step>, p: Policy, t: Time)
    requires 0 < t <= Live(steps, p).loop.lastRevalidation && StaysCritical(rest, p)
    requires forall i :: 0 <= i < |rest| && rest[i].Sampled? ==> rest[i].o.now > 0
    ensures Live(steps + rest, p).loop.lastRevalidation >= t
  {
    if rest == [] {
      assert steps + rest == steps;
    } else {
      var init, last := rest[..|rest| - 1], rest[|rest| - 1];
      assert forall i :: 0 <= i < |init| ==> init[i] == rest[i];
      RevalidationAdvances(steps, init, p, t);
      assert (steps + rest)[..|steps + rest| - 1] == steps + init && (steps + rest)[|steps + rest| - 1] == last;
      hide MemoryCritical, Submitted;
      if last.Sampled? { RevalidationStep(Live(steps + init, p), last.o, p); }
    }
  }

  lemma RevalidationStep(s: System, o: Observation, p: Policy)
    requires s.loop.lastRevalidation > 0 && MemoryCritical(o.readings, p.thresholds)
    ensures Next(s, Sampled(o), p).loop.lastRevalidation >= s.loop.lastRevalidation
  {
    SampledCritical(o, p);
    if Submitted(s.loop, CountedIn(s.loop, o, p), o, p).Some? { CooledDown(s.loop, o, p); }
    hide SampledLevel, MemoryCritical, Submitted, Restreaked;
  }

  lemma CooledDown(l: Loop, o: Observation, p: Policy)
    requires Submitted(l, CountedIn(l, o, p), o, p).Some? && l.lastRevalidation != NO_TIME
    ensures o.now - l.lastRevalidation >= 180 * 1_000_000_000
  {
    SampledCritical(o, p);
    hide SampledLevel, ActingLevel, MemoryCritical, Choice, Annotated, Restreaked;
  }
}
