/**
 The relief cooldown over whole runs: exactly when the action ledger stays spaced across restarts, whatever the clock
 does, and which clocks are enough.
 */
module ReliefCooldown {
  import opened Prelude
  import opened Relief

  /** Nothing is recorded for a whole cooldown after an attempt, an action that revalidation did not reject. */
  ghost predicate Spaced(log: seq<Action>, cooldown: int) {
    forall i, j :: 0 <= i < j < |log| && !log[i].rejected ==> log[j].at - log[i].at >= cooldown
  }

  /** Every attempt of the ledger is a cooldown older than `now`. */
  ghost predicate Clear(log: seq<Action>, now: Time, cooldown: int) {
    forall a :: a in log && !a.rejected ==> now - a.at >= cooldown
  }

  lemma SpacedStep(log: seq<Action>, x: Action, cooldown: int)
    ensures Spaced(log + [x], cooldown) <==> Spaced(log, cooldown) && Clear(log, x.at, cooldown)
  {
    var all := log + [x];
    assert all[|log|] == x && forall i :: 0 <= i < |log| ==> all[i] == log[i];
    if Spaced(all, cooldown) {
      forall i, j | 0 <= i < j < |log| && !log[i].rejected ensures log[j].at - log[i].at >= cooldown {
        assert all[i] == log[i] && all[j] == log[j];
      }
      forall a | a in log && !a.rejected ensures x.at - a.at >= cooldown {
        var i :| 0 <= i < |log| && log[i] == a;
        assert all[i] == a;
      }
    }
  }

  // ----- what a start reads -----

  lemma {:induction false} InsertedHas(rows: seq<Action>, a: Action, x: Action)
    ensures x in Inserted(rows, a) <==> x in rows || x == a
    ensures |Inserted(rows, a)| == |rows| + 1
  {
    if rows != [] && rows[|rows| - 1].at > a.at {
      var init := rows[..|rows| - 1];
      InsertedHas(init, a, x);
      assert rows == init + [rows[|rows| - 1]];
    }
  }

  lemma {:induction false} SortedHas(rows: seq<Action>, x: Action)
    ensures x in Sorted(rows) <==> x in rows
    ensures |Sorted(rows)| == |rows|
  {
    if rows != [] {
      var init := rows[..|rows| - 1];
      SortedHas(init, x);
      InsertedHas(Sorted(init), rows[|rows| - 1], x);
      assert rows == init + [rows[|rows| - 1]];
    }
  }

  ghost predicate Ordered(rows: seq<Action>) { forall i, j :: 0 <= i < j < |rows| ==> rows[i].at <= rows[j].at }

  lemma {:induction false} SortedSame(rows: seq<Action>)
    requires Ordered(rows)
    ensures Sorted(rows) == rows
  {
    if rows != [] {
      var init, last := rows[..|rows| - 1], rows[|rows| - 1];
      assert rows == init + [last];
      assert Ordered(init);
      SortedSame(init);
      assert Inserted(init, last) == init + [last];
    }
  }

  lemma {:induction false} SinceHas(log: seq<Action>, since: Time, x: Action)
    ensures x in Since(log, since) <==> x in log && x.at >= since
  {
    if log != [] {
      var init := log[..|log| - 1];
      SinceHas(init, since, x);
      assert log == init + [log[|log| - 1]];
    }
  }

  /** More rows lie in the history window than a start reads. */
  predicate Crowded(log: seq<Action>, now: Time, p: Policy) { |Since(log, now - HistoryWindow(p))| > ACTION_LIMIT }

  /** A start reads the whole window, unless it is crowded. */
  lemma ReadsWindow(log: seq<Action>, now: Time, p: Policy, x: Action)
    requires !Crowded(log, now, p) && x in log && x.at >= now - HistoryWindow(p)
    ensures x in ReadActions(log, now - HistoryWindow(p))
  {
    var since := now - HistoryWindow(p);
    SortedHas(Since(log, since), x);
    SinceHas(log, since, x);
  }

  /** A start always reads the last row of a window that is in time order. */
  lemma ReadsLast(log: seq<Action>, since: Time)
    requires log != [] && log[|log| - 1].at >= since && Ordered(Since(log, since))
    ensures log[|log| - 1] in ReadActions(log, since)
  {
    var rows := Since(log, since);
    SortedSame(rows);
    assert rows[|rows| - 1] == log[|log| - 1];
    var read := ReadActions(log, since);
    assert read[|read| - 1] == log[|log| - 1];
  }

  lemma {:induction false} ReplayNonNegative(l: Loop, rows: seq<Action>)
    requires l.lastAttempt >= NO_TIME
    ensures Replayed(l, rows).lastAttempt >= NO_TIME
  {
    if rows != [] { ReplayNonNegative(l, rows[..|rows| - 1]); }
  }

  lemma {:induction false} ReplayRemembers(l: Loop, rows: seq<Action>, a: Action)
    requires a in rows && !a.rejected && a.at > NO_TIME && l.lastAttempt >= NO_TIME
    ensures Replayed(l, rows).lastAttempt >= a.at
  {
    var init := rows[..|rows| - 1];
    assert rows == init + [rows[|rows| - 1]];
    if a in init { ReplayRemembers(l, init, a); } else { ReplayNonNegative(l, init); }
  }

  // ----- the loop knows every attempt its start did not miss -----

  ghost predicate Positive(log: seq<Action>) { forall a :: a in log ==> a.at > NO_TIME }

  ghost predicate Knows(s: System) {
    && s.loop.lastAttempt >= NO_TIME && Positive(s.log)
    && (forall a :: a in s.missed ==> a in s.log && !a.rejected)
    && (forall a :: a in s.log && !a.rejected && a !in s.missed ==>
          s.loop.lastAttempt != NO_TIME && a.at <= s.loop.lastAttempt)
  }

  lemma {:induction false} RestartKnows(s: System, now: Time, p: Policy)
    requires Knows(s)
    ensures Knows(Next(s, Restart(now), p))
  {
    var rows := ReadActions(s.log, now - HistoryWindow(p));
    hide ReadActions;
    ReplayNonNegative(STARTED, rows);
    forall a | a in s.log && !a.rejected && a in rows ensures a.at <= Replayed(STARTED, rows).lastAttempt {
      ReplayRemembers(STARTED, rows, a);
    }
  }

  /** The pass records an action: `x` is the tree submitted. */
  predicate Records(s: System, o: Observation, p: Policy) { Submitted(s.loop, CountedIn(s.loop, o, p), o, p).Some? }

  /** The action a pass records. */
  function RowOf(s: System, o: Observation, p: Policy): Action
    requires Records(s, o, p)
  {
    var x := Submitted(s.loop, CountedIn(s.loop, o, p), o, p).value;
    Action(o.now, x.key, x.root, o.rejects)
  }

  /** What a pass does to the ledger and to the remembered attempt; it records nothing while one cools. */
  lemma PassRecords(s: System, o: Observation, p: Policy)
    ensures var next := Next(s, Sampled(o), p);
            && next.missed == s.missed && next.started == s.started
            && (!Records(s, o, p) ==> next.log == s.log && next.loop.lastAttempt == s.loop.lastAttempt)
            && (Records(s, o, p) ==>
                  && !Cooling(s.loop.lastAttempt, o.now, p.cooldown) && next.log == s.log + [RowOf(s, o, p)]
                  && next.loop.lastAttempt == if o.rejects then s.loop.lastAttempt else o.now)
  {
    hide Restreaked, Annotated, Choice, Evaluate, Permitted;
  }

  lemma {:induction false} PassKnows(s: System, o: Observation, p: Policy)
    requires Knows(s) && o.now > NO_TIME && p.cooldown >= 0
    ensures Knows(Next(s, Sampled(o), p))
  {
    PassRecords(s, o, p);
    hide Next, Records;
  }

  ghost predicate PositiveClock(steps: seq<Step>) {
    forall i :: 0 <= i < |steps| && steps[i].Sampled? ==> steps[i].o.now > NO_TIME
  }

  lemma {:induction false} KnowsAlways(steps: seq<Step>, p: Policy)
    requires PositiveClock(steps) && p.cooldown >= 0
    ensures Knows(Live(steps, p))
  {
    if steps != [] {
      var init, last := steps[..|steps| - 1], steps[|steps| - 1];
      KnowsAlways(init, p);
      hide Knows, Next;
      match last
      case Failed => FailedChanges(Live(init, p), p);
      case Restart(now) => RestartKnows(Live(init, p), now, p);
      case Sampled(o) =>
        assert steps[|steps| - 1].Sampled?;
        PassKnows(Live(init, p), o, p);
    }
  }

  lemma FailedChanges(s: System, p: Policy)
    ensures Next(s, Failed, p) == s
  {
  }

  // ----- exactly when the ledger stays spaced -----

  /** The attempts a process missed at its start are a cooldown old whenever it records an action. */
  ghost predicate Careful(steps: seq<Step>, p: Policy) {
    steps == [] ||
    var init, last := steps[..|steps| - 1], steps[|steps| - 1];
    var s := Live(init, p);
    && Careful(init, p)
    && (last.Sampled? && Records(s, last.o, p) ==> forall a :: a in s.missed ==> last.o.now - a.at >= p.cooldown)
  }

  /** A pass over a spaced ledger keeps it spaced iff it records nothing or every missed attempt is a cooldown old. */
  lemma {:induction false} PassSpacedIff(s: System, o: Observation, p: Policy)
    requires Knows(s)
    ensures Spaced(Next(s, Sampled(o), p).log, p.cooldown)
            <==> Spaced(s.log, p.cooldown)
                 && (Records(s, o, p) ==> forall a :: a in s.missed ==> o.now - a.at >= p.cooldown)
  {
    PassRecords(s, o, p);
    hide Next, Spaced;
    if Records(s, o, p) {
      SpacedStep(s.log, RowOf(s, o, p), p.cooldown);
      hide Records;
      if Clear(s.log, o.now, p.cooldown) {
        forall a | a in s.missed ensures o.now - a.at >= p.cooldown { }
      }
      if forall a :: a in s.missed ==> o.now - a.at >= p.cooldown {
        forall a | a in s.log && !a.rejected ensures o.now - a.at >= p.cooldown {
          if a !in s.missed { assert o.now - s.loop.lastAttempt >= p.cooldown; }
        }
      }
    }
  }

  /** Over every run, whatever the clock does, nothing is recorded within a cooldown of an attempt if and only if
      whenever a process records an action, the attempts its start did not read are a cooldown old. */
  lemma {:induction false} SpacedIffCareful(steps: seq<Step>, p: Policy)
    requires PositiveClock(steps) && p.cooldown >= 0
    ensures Spaced(Live(steps, p).log, p.cooldown) <==> Careful(steps, p)
  {
    if steps != [] {
      var init, last := steps[..|steps| - 1], steps[|steps| - 1];
      SpacedIffCareful(init, p);
      KnowsAlways(init, p);
      hide Knows, Spaced, Records;
      match last
      case Failed =>
      case Restart(now) =>
      case Sampled(o) => PassSpacedIff(Live(init, p), o, p);
    }
  }

  // ----- clocks that are enough -----

  ghost predicate Dated(log: seq<Action>, clock: Time) { forall a :: a in log ==> a.at <= clock }

  /** No sample precedes the start of its own process, and no start precedes a recorded action or finds a crowded
      window out of time order. */
  ghost predicate SoberStep(s: System, step: Step, p: Policy) {
    match step
    case Failed => true
    case Sampled(o) => o.now > NO_TIME && o.now >= s.started
    case Restart(now) =>
      Dated(s.log, now) && (Crowded(s.log, now, p) ==> Ordered(Since(s.log, now - HistoryWindow(p))))
  }

  ghost predicate Sober(steps: seq<Step>, p: Policy) {
    steps == [] ||
    var init := steps[..|steps| - 1];
    Sober(init, p) && SoberStep(Live(init, p), steps[|steps| - 1], p)
  }

  /** Although a start reads a bounded window and a bounded number of rows, it misses no attempt that still cools:
      such an attempt is the last row, because nothing is recorded while it cools. */
  lemma {:induction false} RestartMissesNothingCooling(log: seq<Action>, now: Time, p: Policy, a: Action)
    requires Spaced(log, p.cooldown) && Dated(log, now) && a in Missed(log, now, p)
    requires Crowded(log, now, p) ==> Ordered(Since(log, now - HistoryWindow(p)))
    ensures now - a.at >= p.cooldown
  {
    hide ReadActions, Crowded, Ordered;
    if now - a.at < p.cooldown {
      var i :| 0 <= i < |log| && log[i] == a;
      assert log[|log| - 1] in log;
      assert log[|log| - 1].at - log[i].at < p.cooldown;
      assert i == |log| - 1;
      if Crowded(log, now, p) { ReadsLast(log, now - HistoryWindow(p)); } else { ReadsWindow(log, now, p, a); }
    }
  }

  ghost predicate MissedIsOld(s: System, cooldown: int) { forall a :: a in s.missed ==> s.started - a.at >= cooldown }

  /** Across any number of restarts, and with a clock that may step back within a process, nothing is recorded
      within a cooldown of an attempt. */
  lemma {:induction false} CooldownSurvivesRestarts(steps: seq<Step>, p: Policy)
    requires Sober(steps, p) && p.cooldown >= 0
    ensures Spaced(Live(steps, p).log, p.cooldown) && MissedIsOld(Live(steps, p), p.cooldown)
    ensures PositiveClock(steps)
  {
    if steps != [] {
      var init, last := steps[..|steps| - 1], steps[|steps| - 1];
      CooldownSurvivesRestarts(init, p);
      hide Next, Spaced, MissedIsOld, Knows, SoberStep;
      KnowsAlways(init, p);
      SoberStepIsSpaced(Live(init, p), last, p);
      assert steps == init + [last];
    }
  }

  lemma SoberStepIsSpaced(s: System, step: Step, p: Policy)
    requires Knows(s) && Spaced(s.log, p.cooldown) && MissedIsOld(s, p.cooldown) && SoberStep(s, step, p)
    ensures var next := Next(s, step, p); Spaced(next.log, p.cooldown) && MissedIsOld(next, p.cooldown)
    ensures step.Sampled? ==> step.o.now > NO_TIME
  {
    hide Spaced, Knows, Ordered, Crowded, Records;
    match step
    case Failed =>
    case Restart(now) =>
      forall a | a in Missed(s.log, now, p) ensures now - a.at >= p.cooldown {
        RestartMissesNothingCooling(s.log, now, p, a);
      }
      hide Missed, Restarted;
    case Sampled(o) =>
      hide Next;
      PassRecords(s, o, p);
      PassSpacedIff(s, o, p);
  }

  // ----- a clock that never steps back -----

  function Clock(steps: seq<Step>): Time {
    if steps == [] then 0
    else match steps[|steps| - 1]
         case Failed => Clock(steps[..|steps| - 1])
         case Sampled(o) => o.now
         case Restart(now) => now
  }

  ghost predicate Monotone(steps: seq<Step>) {
    steps == [] ||
    var init, last := steps[..|steps| - 1], steps[|steps| - 1];
    && Monotone(init)
    && (last.Sampled? ==> last.o.now > NO_TIME && Clock(init) <= last.o.now)
    && (last.Restart? ==> Clock(init) <= last.now)
  }

  lemma {:induction false} SinceOrdered(log: seq<Action>, since: Time)
    requires Ordered(log)
    ensures Ordered(Since(log, since))
  {
    if log != [] {
      var init, last := log[..|log| - 1], log[|log| - 1];
      SinceOrdered(init, since);
      var rows := Since(init, since);
      forall i | 0 <= i < |rows| ensures rows[i].at <= last.at {
        SinceHas(init, since, rows[i]);
        assert rows[i] in init;
      }
    }
  }

  /** A clock that never steps back is enough, however crowded the window is. */
  lemma {:induction false} MonotoneIsSober(steps: seq<Step>, p: Policy)
    requires Monotone(steps)
    ensures Sober(steps, p)
    ensures var s := Live(steps, p); Ordered(s.log) && Dated(s.log, Clock(steps)) && s.started <= Clock(steps)
  {
    if steps != [] {
      var init, last := steps[..|steps| - 1], steps[|steps| - 1];
      MonotoneIsSober(init, p);
      hide Next, Ordered, Dated, SoberStep;
      TimelyIsSober(Live(init, p), last, Clock(init), p);
    }
  }

  lemma TimelyIsSober(s: System, step: Step, clock: Time, p: Policy)
    requires Ordered(s.log) && Dated(s.log, clock) && s.started <= clock
    requires step.Sampled? ==> step.o.now > NO_TIME && clock <= step.o.now
    requires step.Restart? ==> clock <= step.now
    ensures SoberStep(s, step, p)
    ensures var next := Next(s, step, p);
            var now := if step.Sampled? then step.o.now else if step.Restart? then step.now else clock;
            Ordered(next.log) && Dated(next.log, now) && next.started <= now
  {
    hide Next, Ordered, Crowded;
    match step
    case Failed => FailedChanges(s, p);
    case Restart(now) => RestartStaysOrdered(s, now, clock, p);
    case Sampled(o) => PassStaysOrdered(s, o, clock, p);
  }

  lemma RestartStaysOrdered(s: System, now: Time, clock: Time, p: Policy)
    requires Ordered(s.log) && Dated(s.log, clock) && clock <= now
    ensures Ordered(Since(s.log, now - HistoryWindow(p))) && Dated(s.log, now)
    ensures var next := Next(s, Restart(now), p); next.log == s.log && next.started == now
  {
    hide Restarted, Missed, Ordered;
    SinceOrdered(s.log, now - HistoryWindow(p));
  }

  lemma PassStaysOrdered(s: System, o: Observation, clock: Time, p: Policy)
    requires Ordered(s.log) && Dated(s.log, clock) && clock <= o.now
    ensures var next := Next(s, Sampled(o), p);
            Ordered(next.log) && Dated(next.log, o.now) && next.started == s.started
  {
    PassRecords(s, o, p);
    hide Next, Records, Ordered;
    if Records(s, o, p) { OrderedGrows(s.log, RowOf(s, o, p), clock); }
  }

  lemma OrderedGrows(log: seq<Action>, x: Action, clock: Time)
    requires Ordered(log) && Dated(log, clock) && clock <= x.at
    ensures Ordered(log + [x]) && Dated(log + [x], x.at)
  {
    forall i | 0 <= i < |log| ensures log[i].at <= x.at { assert log[i] in log; }
  }

  // ----- a clock set back after a restart -----

  const OPEN_GUARD := Guard(true, true, true, true, true)
  const NEVER := Bounds(1000.0, 1000.0, 1000.0)
  const LADDER := Thresholds(Bounds(5.0, 10.0, 20.0), NEVER, NEVER, NEVER, 0.0, 0.0, 100.0, 100.0)
  const FIVE_MINUTES := Policy(true, 1, 300 * SECOND, 0, 5.0, LADDER)
  const IDLE := Tree(7, 7, 60, true, 0.0, 10.0, Ready, 0)

  /** A critical sample at `now` with one idle tree. */
  function CriticalAt(now: Time): Observation {
    Observation(Readings(1.0, 0.0, None, 0.0, false, 0.0, false, false, 0.0), false, [IDLE], now, OPEN_GUARD, false)
  }

  const SET_BACK: seq<Step> := [
    Sampled(CriticalAt(SECOND)), Restart(1000 * SECOND), Sampled(CriticalAt(2 * SECOND))]

  /** A restart that sees a clock past the history window misses the attempt; a clock then set back lets the next
      attempt come a second after the first. */
  lemma {:induction false} RolledBackClockBreaksCooldown()
    ensures var log := Live(SET_BACK, FIVE_MINUTES).log;
            log == [Action(SECOND, 7, 7, false), Action(2 * SECOND, 7, 7, false)] && !Spaced(log, 300 * SECOND)
    ensures !Careful(SET_BACK, FIVE_MINUTES)
  {
    var p, row := FIVE_MINUTES, Action(SECOND, 7, 7, false);
    hide Next, Spaced, Careful, Live, Restarted;
    ThreeSteps(SET_BACK[0], SET_BACK[1], SET_BACK[2], p);
    assert SET_BACK == [SET_BACK[0], SET_BACK[1], SET_BACK[2]];
    ActsOnIt(NEW_SYSTEM, CriticalAt(SECOND), p);
    var s1 := Next(NEW_SYSTEM, SET_BACK[0], p);
    assert s1.log == [] + [row] == [row];
    StaleRestart(s1, row, p);
    ActsOnIt(Next(s1, SET_BACK[1], p), CriticalAt(2 * SECOND), p);
    var log := Live(SET_BACK, p).log;
    assert log == [row] + [Action(2 * SECOND, 7, 7, false)];
    TooClose(log);
    SpacedIffCareful(SET_BACK, p);
  }

  lemma TooClose(log: seq<Action>)
    requires |log| == 2 && !log[0].rejected && log[1].at - log[0].at < 300 * SECOND
    ensures !Spaced(log, 300 * SECOND)
  {
  }

  lemma StaleRestart(s: System, row: Action, p: Policy)
    requires s.log == [row] && row.at == SECOND && p == FIVE_MINUTES
    ensures var next := Next(s, Restart(1000 * SECOND), p); next.loop == STARTED && next.log == [row]
  {
    hide Missed, Restarted;
    StaleStart(row, 1000 * SECOND, p);
  }

  /** A start after the history window of the only row reads nothing. */
  lemma {:induction false} StaleStart(row: Action, now: Time, p: Policy)
    requires row.at < now - HistoryWindow(p)
    ensures Restarted([row], now, p) == STARTED
  {
    var since := now - HistoryWindow(p);
    assert [row][..0] == [];
    assert Since([], since) == [];
    assert Since([row], since) == [];
  }

  lemma {:induction false} ThreeSteps(a: Step, b: Step, c: Step, p: Policy)
    ensures Live([a, b, c], p) == Next(Next(Next(NEW_SYSTEM, a, p), b, p), c, p)
  {
    hide Next;
    assert [a, b, c][..2] == [a, b] && [a, b][..1] == [a] && [a][..0] == [];
    assert Live([], p) == NEW_SYSTEM;
    assert Live([a], p) == Next(Live([], p), a, p);
    assert Live([a, b], p) == Next(Live([a], p), b, p);
    assert Live([a, b, c], p) == Next(Live([a, b], p), c, p);
  }

  /** A started process that sustains one sample acts on the idle tree at its first critical sample. */
  lemma {:induction false} ActsOnIt(s: System, o: Observation, p: Policy)
    requires s.loop == STARTED && p == FIVE_MINUTES && o == CriticalAt(o.now)
    ensures Next(s, Sampled(o), p).log == s.log + [Action(o.now, 7, 7, false)]
  {
    var c, marked := CountedIn(s.loop, o, p), Annotated(s.loop.streaks, o.trees, p);
    assert SampledLevel(o, p) == Critical && ActingLevel(o, p) == Critical;
    hide Evaluate, Annotated, Restreaked;
    var y := marked[0];
    assert Eligible(y, p, c.rejected);
    assert marked == [y] && marked[..0] == [];
    assert Choice(marked[..0], p, c.rejected) == None;
    assert Choice(marked, p, c.rejected) == Some(y);
  }
}
