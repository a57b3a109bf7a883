/**
 The resident's relief loop: the pressure ladder, the counters that must be sustained before an agent tree
 is submitted for termination, and the cooldown that survives restarts.
 */
module Relief {
  import opened Prelude

  const REVALIDATION_RETRY: int := 180 * SECOND
  const ACTION_LIMIT: int := 1024

  // ----- the pressure ladder -----

  datatype Level = Normal | Warning | Red | Critical

  function Rank(l: Level): int {
    match l
    case Normal => 0
    case Warning => 1
    case Red => 2
    case Critical => 3
  }

  function MaxLevel(a: Level, b: Level): Level { if Rank(b) > Rank(a) then b else a }

  /** Critical, red and warning bounds of one dimension. */
  datatype Bounds = Bounds(critical: real, red: real, warning: real)

  datatype Thresholds = Thresholds(free: Bounds, agents: Bounds, tree: Bounds, swap: Bounds,
                                   swapOutThrash: real, swapOutWarning: real, cpuRed: real, cpuWarning: real)

  /** What a sample measures; `topTree` is the RSS of the largest agent tree, if there is one. */
  datatype Readings = Readings(free: real, agents: real, topTree: Option<real>, swapUsed: real,
                               swapIOAvailable: bool, swapOut: real, swapLatched: bool,
                               cpuAvailable: bool, cpu: real)

  function AtMost(x: real, b: Bounds): Level {
    if x <= b.critical then Critical else if x <= b.red then Red else if x <= b.warning then Warning else Normal
  }

  function AtLeast(x: real, b: Bounds): Level {
    if x >= b.critical then Critical else if x >= b.red then Red else if x >= b.warning then Warning else Normal
  }

  function LiveMemory(r: Readings, t: Thresholds): Level {
    MaxLevel(MaxLevel(AtMost(r.free, t.free), AtLeast(r.agents, t.agents)),
             if r.topTree.Some? then AtLeast(r.topTree.value, t.tree) else Normal)
  }

  /** Swap use only corroborates live memory pressure, by at most one rung. */
  function StickySwap(r: Readings, t: Thresholds, live: Level): Level {
    if r.swapUsed >= t.swap.critical && Rank(live) >= Rank(Red) then Critical
    else if r.swapUsed >= t.swap.red && Rank(live) >= Rank(Warning) then Red
    else if r.swapUsed >= t.swap.warning && Rank(live) >= Rank(Warning) then Warning
    else Normal
  }

  function SwapOut(r: Readings, t: Thresholds): Level {
    if !r.swapIOAvailable then Normal
    else if t.swapOutThrash > 0.0 && r.swapOut >= t.swapOutThrash then Warning
    else if r.swapLatched then Warning
    else if t.swapOutWarning > 0.0 && r.swapOut >= t.swapOutWarning then Warning
    else Normal
  }

  function HostCPU(r: Readings, t: Thresholds): Level {
    if !(r.cpuAvailable || r.cpu > 0.0) then Normal
    else if r.cpu >= t.cpuRed then Red
    else if r.cpu >= t.cpuWarning then Warning
    else Normal
  }

  function Evaluate(r: Readings, t: Thresholds, includeCPU: bool): Level {
    var live := LiveMemory(r, t);
    var memory := MaxLevel(live, StickySwap(r, t, live));
    if includeCPU then MaxLevel(MaxLevel(memory, SwapOut(r, t)), HostCPU(r, t)) else memory
  }

  /** What memory alone must show: free memory, all agents together, the largest agent tree, and swap use as far as one
      of those corroborates it. */
  predicate MemoryCritical(r: Readings, t: Thresholds) {
    || r.free <= t.free.critical || r.agents >= t.agents.critical
    || (r.topTree.Some? && r.topTree.value >= t.tree.critical)
    || (r.swapUsed >= t.swap.critical &&
        (r.free <= t.free.red || r.agents >= t.agents.red || (r.topTree.Some? && r.topTree.value >= t.tree.red)))
  }

  predicate MemoryRed(r: Readings, t: Thresholds) {
    || r.free <= t.free.red || r.agents >= t.agents.red || (r.topTree.Some? && r.topTree.value >= t.tree.red)
    || (r.swapUsed >= t.swap.red &&
        (r.free <= t.free.warning || r.agents >= t.agents.warning
         || (r.topTree.Some? && r.topTree.value >= t.tree.warning)))
  }

  predicate MemoryWarning(r: Readings, t: Thresholds) {
    || r.free <= t.free.warning || r.agents >= t.agents.warning
    || (r.topTree.Some? && r.topTree.value >= t.tree.warning)
  }

  /** The memory level, from the readings and the bounds. */
  lemma MemoryLevelIs(r: Readings, t: Thresholds)
    ensures Evaluate(r, t, false) == Critical <==> MemoryCritical(r, t)
    ensures Rank(Evaluate(r, t, false)) >= Rank(Red) <==> MemoryRed(r, t) || MemoryCritical(r, t)
    ensures Rank(Evaluate(r, t, false)) >= Rank(Warning) <==>
            MemoryWarning(r, t) || MemoryRed(r, t) || MemoryCritical(r, t)
  {
  }

  /** The full level: CPU adds at most red, and swap-out or the thrash latch at most a warning. */
  lemma FullLevelIs(r: Readings, t: Thresholds)
    ensures Evaluate(r, t, true) == Critical <==> MemoryCritical(r, t)
    ensures var busy := r.cpuAvailable || r.cpu > 0.0;
            && (Rank(Evaluate(r, t, true)) >= Rank(Red) <==>
                  MemoryRed(r, t) || MemoryCritical(r, t) || (busy && r.cpu >= t.cpuRed))
            && (Rank(Evaluate(r, t, true)) >= Rank(Warning) <==>
                  || MemoryWarning(r, t) || MemoryRed(r, t) || MemoryCritical(r, t)
                  || (busy && (r.cpu >= t.cpuRed || r.cpu >= t.cpuWarning))
                  || (r.swapIOAvailable &&
                      (|| r.swapLatched || (t.swapOutThrash > 0.0 && r.swapOut >= t.swapOutThrash)
                       || (t.swapOutWarning > 0.0 && r.swapOut >= t.swapOutWarning))))
  {
    MemoryLevelIs(r, t);
  }

  /** CPU, swap-out and the thrash latch never create a critical level, and never hide a memory level. */
  lemma CriticalIsMemoryOnly(r: Readings, t: Thresholds, latched: bool)
    ensures Evaluate(r.(swapLatched := latched), t, true) == Critical <==> Evaluate(r, t, false) == Critical
    ensures Rank(Evaluate(r, t, true)) >= Rank(Evaluate(r, t, false))
    ensures Rank(Evaluate(r, t, true)) > Rank(Evaluate(r, t, false)) ==> Rank(Evaluate(r, t, true)) <= Rank(Red)
  {
  }

  /** Historical swap alone raises nothing, and on a live signal it raises at most one rung. */
  lemma SwapOnlyCorroborates(r: Readings, t: Thresholds)
    ensures LiveMemory(r, t) == Normal ==> Evaluate(r, t, false) == Normal
    ensures Rank(Evaluate(r, t, false)) <= Rank(LiveMemory(r, t)) + 1
  {
  }

  // ----- trees and policy -----

  datatype Semantic = Unknown | Ready | Busy

  /** An agent tree of a snapshot; `quiescent` is the streak annotated on it. */
  datatype Tree = Tree(root: int, key: int, age: int, cpuValid: bool, cpu: real, rss: real, semantic: Semantic,
                       quiescent: int)

  datatype Policy = Policy(autoShed: bool, sustain: int, cooldown: int, minAge: int, maxCPU: real,
                           thresholds: Thresholds)

  predicate Quiet(x: Tree, p: Policy) { x.age >= p.minAge && x.cpuValid && x.cpu <= p.maxCPU }

  ghost predicate DistinctRoots(trees: seq<Tree>) {
    forall i, j :: 0 <= i < j < |trees| ==> trees[i].root != trees[j].root
  }

  ghost predicate QuietHere(trees: seq<Tree>, root: int, p: Policy) {
    exists i :: 0 <= i < |trees| && trees[i].root == root && Quiet(trees[i], p)
  }

  // ----- quiescence streaks -----

  type Streaks = map<int, int>
  function Streak(s: Streaks, root: int): int { if root in s then s[root] else 0 }

  function NextStreak(before: Streaks, x: Tree, p: Policy): int {
    if Quiet(x, p) then Streak(before, x.root) + 1 else 0
  }

  /** The streaks after a sample: one longer for a quiet tree, zero for a busy one, none for an absent one. */
  function Restreaked(before: Streaks, trees: seq<Tree>, p: Policy): Streaks {
    if trees == [] then map[]
    else
      var init, x := trees[..|trees| - 1], trees[|trees| - 1];
      Restreaked(before, init, p)[x.root := NextStreak(before, x, p)]
  }

  function Annotated(before: Streaks, trees: seq<Tree>, p: Policy): (r: seq<Tree>)
    ensures |r| == |trees|
    ensures forall i :: 0 <= i < |r| ==> r[i] == trees[i].(quiescent := NextStreak(before, trees[i], p))
  {
    if trees == [] then []
    else Annotated(before, trees[..|trees| - 1], p)
         + [trees[|trees| - 1].(quiescent := NextStreak(before, trees[|trees| - 1], p))]
  }

  ghost predicate HasRoot(trees: seq<Tree>, r: int) { exists i :: 0 <= i < |trees| && trees[i].root == r }

  lemma {:induction false} RestreakedIs(before: Streaks, trees: seq<Tree>, p: Policy)
    requires DistinctRoots(trees)
    ensures forall i :: 0 <= i < |trees| ==>
              && trees[i].root in Restreaked(before, trees, p)
              && Restreaked(before, trees, p)[trees[i].root] == NextStreak(before, trees[i], p)
    ensures forall r :: r in Restreaked(before, trees, p) ==> HasRoot(trees, r)
  {
    if trees != [] {
      var n := |trees| - 1;
      var init := trees[..n];
      RestreakedIs(before, init, p);
      assert forall i :: 0 <= i < n ==> init[i] == trees[i];
      forall r | r in Restreaked(before, trees, p) ensures HasRoot(trees, r) {
        if r == trees[n].root {
        } else {
          assert r in Restreaked(before, init, p) && HasRoot(init, r);
          var i :| 0 <= i < |init| && init[i].root == r;
          assert trees[i].root == r;
        }
      }
    }
  }

  lemma {:induction false} AnnotateStep(before: Streaks, trees: seq<Tree>, p: Policy, i: nat)
    requires i < |trees|
    ensures Restreaked(before, trees[..i + 1], p)
            == Restreaked(before, trees[..i], p)[trees[i].root := NextStreak(before, trees[i], p)]
    ensures Annotated(before, trees[..i + 1], p)
            == Annotated(before, trees[..i], p) + [trees[i].(quiescent := NextStreak(before, trees[i], p))]
  {
    assert trees[..i + 1][..i] == trees[..i];
  }

  /** The streak map once the roots no longer seen have been deleted. */
  lemma PrunedIs(current: Streaks, seen: set<int>, spec: Streaks)
    requires seen == spec.Keys && forall r :: r in seen ==> r in current && current[r] == spec[r]
    ensures (map r | r in current && r in seen :: current[r]) == spec
  {
    var m := map r | r in current && r in seen :: current[r];
    forall r ensures r in m <==> r in spec { }
    assert forall r :: r in spec ==> m[r] == spec[r];
    assert m == spec;
  }

  method AnnotateQuiescence(trees: seq<Tree>, p: Policy, streaks: Streaks)
    returns (annotated: seq<Tree>, after: Streaks)
    requires DistinctRoots(trees)
    ensures annotated == Annotated(streaks, trees, p) && after == Restreaked(streaks, trees, p)
  {
    hide Restreaked, Annotated, HasRoot, DistinctRoots, Quiet;
    annotated := [];
    var current := streaks;
    var seen: set<int> := {};
    ghost var spec: Streaks := map[];
    AnnotateNone(streaks, trees, p);
    for i := 0 to |trees|
      invariant annotated == Annotated(streaks, trees[..i], p) && spec == Restreaked(streaks, trees[..i], p)
      invariant seen == spec.Keys
      invariant forall r :: r in seen ==> r in current && current[r] == spec[r]
      invariant forall r :: r !in seen ==> Streak(current, r) == Streak(streaks, r)
      invariant forall r :: r in seen ==> HasRoot(trees[..i], r)
    {
      var x := trees[i];
      NewRoot(trees, i, seen);
      AnnotateStep(streaks, trees, p, i);
      spec := spec[x.root := NextStreak(streaks, x, p)];
      seen := seen + {x.root};
      current := current[x.root := if Quiet(x, p) then Streak(current, x.root) + 1 else 0];
      annotated := annotated + [x.(quiescent := current[x.root])];
    }
    assert trees[..|trees|] == trees;
    PrunedIs(current, seen, spec);
    after := map r | r in current && r in seen :: current[r];
  }

  lemma AnnotateNone(before: Streaks, trees: seq<Tree>, p: Policy)
    ensures Annotated(before, trees[..0], p) == [] && Restreaked(before, trees[..0], p) == map[]
  {
  }

  lemma NewRoot(trees: seq<Tree>, i: nat, seen: set<int>)
    requires DistinctRoots(trees) && i < |trees| && forall r :: r in seen ==> HasRoot(trees[..i], r)
    ensures trees[i].root !in seen
    ensures forall r :: r in seen + {trees[i].root} ==> HasRoot(trees[..i + 1], r)
  {
    forall r | r in seen + {trees[i].root} ensures HasRoot(trees[..i + 1], r) {
      if r == trees[i].root {
        assert trees[..i + 1][i].root == r;
      } else {
        var j :| 0 <= j < i && trees[..i][j].root == r;
        assert trees[..i + 1][j].root == r;
      }
    }
  }

  // ----- the candidate -----

  predicate Eligible(x: Tree, p: Policy, rejected: set<int>) {
    Quiet(x, p) && x.quiescent >= p.sustain && x.semantic != Busy && x.key !in rejected
  }

  /** Hook-ready trees first, then the largest, then the idlest, then the lowest PID. */
  predicate Better(a: Tree, b: Tree) {
    if (a.semantic == Ready) != (b.semantic == Ready) then a.semantic == Ready
    else if a.rss != b.rss then a.rss > b.rss
    else if a.cpu != b.cpu then a.cpu < b.cpu
    else a.root < b.root
  }

  ghost predicate IsChoice(trees: seq<Tree>, p: Policy, rejected: set<int>, choice: Option<Tree>) {
    if choice.None? then forall i :: 0 <= i < |trees| ==> !Eligible(trees[i], p, rejected)
    else
      && (exists i :: 0 <= i < |trees| && trees[i] == choice.value && Eligible(trees[i], p, rejected))
      && (forall i :: 0 <= i < |trees| && Eligible(trees[i], p, rejected) ==> !Better(trees[i], choice.value))
  }

  function Chosen(best: Option<Tree>, x: Tree, p: Policy, rejected: set<int>): Option<Tree> {
    if Eligible(x, p, rejected) && (best.None? || Better(x, best.value)) then Some(x) else best
  }

  function Choice(trees: seq<Tree>, p: Policy, rejected: set<int>): Option<Tree> {
    if trees == [] then None else Chosen(Choice(trees[..|trees| - 1], p, rejected), trees[|trees| - 1], p, rejected)
  }

  /** The choice is an eligible tree that no eligible tree precedes; there is none only if none is eligible. */
  lemma {:induction false} ChoiceIsBest(trees: seq<Tree>, p: Policy, rejected: set<int>)
    ensures IsChoice(trees, p, rejected, Choice(trees, p, rejected))
  {
    if trees != [] {
      var init, x := trees[..|trees| - 1], trees[|trees| - 1];
      ChoiceIsBest(init, p, rejected);
      var before := Choice(init, p, rejected);
      assert forall j :: 0 <= j < |init| ==> trees[j] == init[j];
      if before.Some? {
        var j :| 0 <= j < |init| && init[j] == before.value && Eligible(init[j], p, rejected);
        assert trees[j] == before.value;
      }
    }
  }

  method SelectReliefCandidate(trees: seq<Tree>, p: Policy, rejected: set<int>) returns (choice: Option<Tree>)
    ensures choice == Choice(trees, p, rejected) && IsChoice(trees, p, rejected, choice)
  {
    choice := None;
    for i := 0 to |trees|
      invariant choice == Choice(trees[..i], p, rejected)
    {
      assert trees[..i + 1][..i] == trees[..i];
      if Eligible(trees[i], p, rejected) && (choice.None? || Better(trees[i], choice.value)) {
        choice := Some(trees[i]);
      }
    }
    assert trees[..|trees|] == trees;
    ChoiceIsBest(trees, p, rejected);
  }

  // ----- one pass of the loop -----

  /** The guard's own state at a sample, and whether the persisted policy is still the loaded one. */
  datatype Guard = Guard(resident: bool, budgetOK: bool, baselineProven: bool, inventoryFresh: bool,
                         policyCurrent: bool)

  /** One successful sample: readings, the thrash latch after it, the trees, the time, the guard, and whether the
      signaller's own revalidation will reject the tree. */
  datatype Observation = Observation(readings: Readings, latched: bool, trees: seq<Tree>, now: Time, guard: Guard,
                                     rejects: bool)

  datatype Loop = Loop(lastLevel: Option<Level>, consecutive: int, streaks: Streaks,
                       lastAttempt: Time, lastRevalidation: Time, rejected: set<int>)
  const STARTED := Loop(None, 0, map[], NO_TIME, NO_TIME, {})

  /** A durable row of the action ledger. */
  datatype Action = Action(at: Time, key: int, root: int, rejected: bool)

  function SampledLevel(o: Observation, p: Policy): Level {
    Evaluate(o.readings.(swapLatched := false), p.thresholds, true)
  }

  function ActingLevel(o: Observation, p: Policy): Level {
    Evaluate(o.readings.(swapLatched := o.latched), p.thresholds, true)
  }

  function MemoryLevel(o: Observation, p: Policy): Level { Evaluate(o.readings, p.thresholds, false) }

  /** The loop variables after a sample has been counted, before relief is considered. */
  function CountedIn(l: Loop, o: Observation, p: Policy): Loop {
    var level := SampledLevel(o, p);
    l.(consecutive := if l.lastLevel == Some(level) then l.consecutive + 1 else 1,
       lastLevel := Some(level),
       streaks := Restreaked(l.streaks, o.trees, p),
       rejected := if level == Critical then l.rejected else {},
       lastRevalidation := if level == Critical then l.lastRevalidation else NO_TIME)
  }

  predicate Cooling(last: Time, now: Time, span: int) { last != NO_TIME && now - last < span }

  /** The gates that do not depend on the loop's counters. */
  predicate Permitted(o: Observation, p: Policy) {
    && o.guard.resident && p.autoShed && o.guard.budgetOK && o.guard.baselineProven
    && o.guard.inventoryFresh && o.guard.policyCurrent
  }

  /** The tree submitted for termination, if any; `c` is the loop with this sample counted in. */
  function Submitted(l: Loop, c: Loop, o: Observation, p: Policy): Option<Tree> {
    if !Permitted(o, p) || ActingLevel(o, p) != Critical || c.consecutive < p.sustain
       || Cooling(c.lastAttempt, o.now, p.cooldown) || Cooling(c.lastRevalidation, o.now, REVALIDATION_RETRY)
    then None
    else Choice(Annotated(l.streaks, o.trees, p), p, c.rejected)
  }

  function Passed(l: Loop, log: seq<Action>, o: Observation, p: Policy): (Loop, seq<Action>) {
    var c := CountedIn(l, o, p);
    var x := Submitted(l, c, o, p);
    if x.None? then (c, log)
    else
      var row := Action(o.now, x.value.key, x.value.root, o.rejects);
      if o.rejects then (c.(rejected := c.rejected + {row.key}, lastRevalidation := o.now), log + [row])
      else (c.(lastAttempt := o.now), log + [row])
  }

  /** The rows no older than `since`. */
  function Since(log: seq<Action>, since: Time): seq<Action> {
    if log == [] then []
    else Since(log[..|log| - 1], since) + if log[|log| - 1].at >= since then [log[|log| - 1]] else []
  }

  function HistoryWindow(p: Policy): int { Max(p.cooldown, REVALIDATION_RETRY) }

  /** `rows` with `a` after every row that is not later. */
  function Inserted(rows: seq<Action>, a: Action): seq<Action> {
    if rows == [] || rows[|rows| - 1].at <= a.at then rows + [a]
    else Inserted(rows[..|rows| - 1], a) + [rows[|rows| - 1]]
  }

  /** The stable sort by timestamp. */
  function Sorted(rows: seq<Action>): seq<Action> {
    if rows == [] then [] else Inserted(Sorted(rows[..|rows| - 1]), rows[|rows| - 1])
  }

  /** The rows of the history window by time, at most the newest `ACTION_LIMIT` of them. */
  function ReadActions(log: seq<Action>, since: Time): seq<Action> {
    var rows := Sorted(Since(log, since));
    if |rows| > ACTION_LIMIT then rows[|rows| - ACTION_LIMIT..] else rows
  }

  function Replayed(l: Loop, rows: seq<Action>): Loop {
    if rows == [] then l
    else
      var before, a := Replayed(l, rows[..|rows| - 1]), rows[|rows| - 1];
      if a.rejected then
        before.(rejected := before.rejected + {a.key},
                lastRevalidation := if a.at > before.lastRevalidation then a.at else before.lastRevalidation)
      else before.(lastAttempt := if a.at > before.lastAttempt then a.at else before.lastAttempt)
  }

  function Restarted(log: seq<Action>, now: Time, p: Policy): Loop {
    Replayed(STARTED, ReadActions(log, now - HistoryWindow(p)))
  }

  // ----- whole runs -----

  datatype Step = Failed | Sampled(o: Observation) | Restart(now: Time)

  /** The attempts of a ledger that a process starting at `now` does not read. */
  function Missed(log: seq<Action>, now: Time, p: Policy): set<Action> {
    set a | a in log && !a.rejected && a !in ReadActions(log, now - HistoryWindow(p))
  }

  /** The loop, the durable ledger, and of this process the clock at its start, its successful samples, and the
      attempts its start did not read. */
  datatype System = System(loop: Loop, log: seq<Action>, started: Time, life: seq<Observation>, missed: set<Action>)
  const NEW_SYSTEM := System(STARTED, [], 0, [], {})

  function Next(s: System, step: Step, p: Policy): System {
    match step
    case Failed => s
    case Restart(now) => System(Restarted(s.log, now, p), s.log, now, [], Missed(s.log, now, p))
    case Sampled(o) =>
      var (l, log) := Passed(s.loop, s.log, o, p);
      s.(loop := l, log := log, life := s.life + [o])
  }

  function Live(steps: seq<Step>, p: Policy): System {
    if steps == [] then NEW_SYSTEM else Next(Live(steps[..|steps| - 1], p), steps[|steps| - 1], p)
  }

  ghost predicate RootsDistinct(steps: seq<Step>) {
    forall i :: 0 <= i < |steps| && steps[i].Sampled? ==> DistinctRoots(steps[i].o.trees)
  }

  // ----- what must hold before a tree is submitted -----

  ghost predicate LevelHeld(life: seq<Observation>, n: int, level: Level, p: Policy) {
    0 <= n <= |life| && forall i :: |life| - n <= i < |life| ==> SampledLevel(life[i], p) == level
  }

  ghost predicate QuietHeld(life: seq<Observation>, n: int, root: int, p: Policy) {
    0 <= n <= |life| && forall i :: |life| - n <= i < |life| ==> QuietHere(life[i].trees, root, p)
  }

  /** The counters never claim more than the samples show. */
  ghost predicate CountersSound(l: Loop, life: seq<Observation>, p: Policy) {
    && (l.lastLevel.Some? ==> LevelHeld(life, l.consecutive, l.lastLevel.value, p))
    && (l.lastLevel.None? ==> l.consecutive == 0)
    && (forall r :: r in l.streaks ==> QuietHeld(life, l.streaks[r], r, p))
  }

  lemma {:induction false} StreaksSound(before: Streaks, life: seq<Observation>, o: Observation, p: Policy, r: int)
    requires DistinctRoots(o.trees) && r in Restreaked(before, o.trees, p)
    requires r in before ==> QuietHeld(life, before[r], r, p)
    ensures QuietHeld(life + [o], Restreaked(before, o.trees, p)[r], r, p)
  {
    RestreakedIs(before, o.trees, p);
    var i :| 0 <= i < |o.trees| && o.trees[i].root == r;
    if Quiet(o.trees[i], p) { assert QuietHere(o.trees, r, p); }
  }

  lemma {:induction false} CountingIsSound(l: Loop, life: seq<Observation>, o: Observation, p: Policy)
    requires DistinctRoots(o.trees) && CountersSound(l, life, p)
    ensures CountersSound(CountedIn(l, o, p), life + [o], p)
  {
    hide SampledLevel, Restreaked, QuietHeld;
    forall r | r in Restreaked(l.streaks, o.trees, p)
      ensures QuietHeld(life + [o], Restreaked(l.streaks, o.trees, p)[r], r, p)
    {
      StreaksSound(l.streaks, life, o, p, r);
    }
  }

  lemma {:induction false} ReplayKeepsCounters(l: Loop, rows: seq<Action>)
    ensures var r := Replayed(l, rows);
            r.lastLevel == l.lastLevel && r.consecutive == l.consecutive && r.streaks == l.streaks
  {
    if rows != [] { ReplayKeepsCounters(l, rows[..|rows| - 1]); }
  }

  lemma {:induction false} FreshCounters(log: seq<Action>, now: Time, p: Policy)
    ensures CountersSound(Restarted(log, now, p), [], p)
  {
    ReplayKeepsCounters(STARTED, ReadActions(log, now - HistoryWindow(p)));
  }

  lemma {:induction false} PassIsSound(s: System, o: Observation, p: Policy)
    requires DistinctRoots(o.trees) && CountersSound(s.loop, s.life, p)
    ensures CountersSound(Next(s, Sampled(o), p).loop, Next(s, Sampled(o), p).life, p)
  {
    CountingIsSound(s.loop, s.life, o, p);
    hide CountedIn, Submitted, LevelHeld, QuietHeld;
    var c, l := CountedIn(s.loop, o, p), Next(s, Sampled(o), p).loop;
    assert l.lastLevel == c.lastLevel && l.consecutive == c.consecutive && l.streaks == c.streaks;
  }

  lemma {:induction false} CountersAlwaysSound(steps: seq<Step>, p: Policy)
    requires RootsDistinct(steps)
    ensures CountersSound(Live(steps, p).loop, Live(steps, p).life, p)
  {
    if steps != [] {
      var init, last := steps[..|steps| - 1], steps[|steps| - 1];
      CountersAlwaysSound(init, p);
      hide CountersSound, Passed, CountedIn, Restreaked, Evaluate, DistinctRoots;
      var s := Live(init, p);
      match last
      case Failed =>
      case Restart(now) => FreshCounters(s.log, now, p);
      case Sampled(o) =>
        assert steps[|steps| - 1].Sampled?;
        PassIsSound(s, o, p);
    }
  }

  /**
   A tree is submitted for termination only if each of the last `sustain` successful samples of this process
   was critical on memory alone and showed a tree with that root, old enough and CPU-quiet.
   */
  lemma {:induction false} SubmissionIsSustained(steps: seq<Step>, o: Observation, p: Policy, x: Tree)
    requires RootsDistinct(steps + [Sampled(o)])
    requires var s := Live(steps, p); Submitted(s.loop, CountedIn(s.loop, o, p), o, p) == Some(x)
    ensures var life := Live(steps, p).life + [o];
            && p.sustain <= |life|
            && (forall i :: |life| - p.sustain <= i < |life| && 0 <= i ==>
                  MemoryLevel(life[i], p) == Critical && QuietHere(life[i].trees, x.root, p))
    ensures x.semantic != Busy && QuietHere(o.trees, x.root, p)
  {
    var s := Live(steps, p);
    var all := steps + [Sampled(o)];
    assert all[|steps|] == Sampled(o) && forall i :: 0 <= i < |steps| ==> all[i] == steps[i];
    CountersAlwaysSound(steps, p);
    SubmittedFacts(s.loop, s.life, o, p, x);
  }

  lemma {:induction false} SubmittedFacts(l: Loop, life: seq<Observation>, o: Observation, p: Policy, x: Tree)
    requires DistinctRoots(o.trees) && CountersSound(l, life, p)
    requires Submitted(l, CountedIn(l, o, p), o, p) == Some(x)
    ensures var all := life + [o];
            && p.sustain <= |all| && x.semantic != Busy && QuietHere(o.trees, x.root, p)
            && (forall i :: |all| - p.sustain <= i < |all| && 0 <= i ==>
                  MemoryLevel(all[i], p) == Critical && QuietHere(all[i].trees, x.root, p))
  {
    hide Evaluate, Restreaked, Choice, Annotated, Permitted, Quiet;
    SubmittedWasQuiet(l, o, p, x);
    StreaksSound(l.streaks, life, o, p, x.root);
    SubmittedWasCritical(l, life, o, p, x);
  }

  lemma {:induction false} SubmittedWasCritical(l: Loop, life: seq<Observation>, o: Observation, p: Policy, x: Tree)
    requires DistinctRoots(o.trees) && CountersSound(l, life, p)
    requires Submitted(l, CountedIn(l, o, p), o, p) == Some(x)
    ensures var all := life + [o];
            && p.sustain <= |all|
            && (forall i :: |all| - p.sustain <= i < |all| && 0 <= i ==> MemoryLevel(all[i], p) == Critical)
  {
    hide Evaluate, Restreaked, Choice, Annotated, Permitted, Quiet, QuietHeld;
    var c, all := CountedIn(l, o, p), life + [o];
    CountingIsSound(l, life, o, p);
    CriticalIsMemoryOnly(o.readings, p.thresholds, o.latched);
    CriticalIsMemoryOnly(o.readings, p.thresholds, false);
    assert c.lastLevel == Some(Critical);
    forall i | |all| - p.sustain <= i < |all| && 0 <= i ensures MemoryLevel(all[i], p) == Critical {
      CriticalIsMemoryOnly(all[i].readings, p.thresholds, false);
    }
  }

  lemma {:induction false} SubmittedWasQuiet(l: Loop, o: Observation, p: Policy, x: Tree)
    requires DistinctRoots(o.trees) && Submitted(l, CountedIn(l, o, p), o, p) == Some(x)
    ensures x.semantic != Busy && QuietHere(o.trees, x.root, p)
    ensures x.root in Restreaked(l.streaks, o.trees, p) && Restreaked(l.streaks, o.trees, p)[x.root] >= p.sustain
  {
    var c, marked := CountedIn(l, o, p), Annotated(l.streaks, o.trees, p);
    ChoiceIsBest(marked, p, c.rejected);
    RestreakedIs(l.streaks, o.trees, p);
    hide Evaluate, Restreaked, Choice, Annotated;
    var j :| 0 <= j < |marked| && marked[j] == x && Eligible(marked[j], p, c.rejected);
    var y := o.trees[j];
    assert y.root == x.root && Quiet(y, p) && NextStreak(l.streaks, y, p) >= p.sustain;
  }

  // ----- the loop itself -----

  /** The variables of the resident's loop, and the durable action ledger it appends to. */
  class Monitor {
    const policy: Policy
    var lastLevel: Option<Level>
    var consecutive: int
    var streaks: Streaks
    var lastAttempt: Time
    var lastRevalidation: Time
    var rejected: set<int>
    var log: seq<Action>

    ghost function State(): Loop
      reads this
    {
      Loop(lastLevel, consecutive, streaks, lastAttempt, lastRevalidation, rejected)
    }

    /** A process start over an existing ledger. */
    constructor (p: Policy, ledger: seq<Action>, now: Time)
      ensures policy == p && log == ledger && State() == Restarted(ledger, now, p)
    {
      policy, log := p, ledger;
      lastLevel, consecutive, streaks := None, 0, map[];
      lastAttempt, lastRevalidation, rejected := NO_TIME, NO_TIME, {};
      new;
      var actions := ReadActions(ledger, now - HistoryWindow(p));
      for i := 0 to |actions|
        invariant log == ledger && State() == Replayed(STARTED, actions[..i])
      {
        assert actions[..i + 1][..i] == actions[..i];
        var a := actions[i];
        if a.rejected {
          rejected := rejected + {a.key};
          if a.at > lastRevalidation { lastRevalidation := a.at; }
        } else if a.at > lastAttempt {
          lastAttempt := a.at;
        }
      }
      assert actions[..|actions|] == actions;
    }

    /** Decides on relief for a counted sample, changing nothing. */
    method MaybeRelieve(ghost before: Loop, marked: seq<Tree>, o: Observation) returns (x: Option<Tree>)
      requires marked == Annotated(before.streaks, o.trees, policy)
      ensures x == Submitted(before, State(), o, policy)
    {
      hide Evaluate, Annotated, Choice;
      if !o.guard.resident || !policy.autoShed || ActingLevel(o, policy) != Critical { return None; }
      if !o.guard.budgetOK || !o.guard.baselineProven || !o.guard.inventoryFresh { return None; }
      if consecutive < policy.sustain { return None; }
      if Cooling(lastAttempt, o.now, policy.cooldown) { return None; }
      if Cooling(lastRevalidation, o.now, REVALIDATION_RETRY) { return None; }
      if !o.guard.policyCurrent { return None; }
      x := SelectReliefCandidate(marked, policy, rejected);
    }

    /** One pass over a successful sample. */
    method Pass(o: Observation) returns (x: Option<Tree>)
      requires DistinctRoots(o.trees)
      modifies this
      ensures (State(), log) == Passed(old(State()), old(log), o, policy)
      ensures x == Submitted(old(State()), CountedIn(old(State()), o, policy), o, policy)
    {
      hide Evaluate, Restreaked, Annotated, Choice;
      ghost var before := State();
      var marked, after := AnnotateQuiescence(o.trees, policy, streaks);
      streaks := after;
      var level := SampledLevel(o, policy);
      if lastLevel == Some(level) {
        consecutive := consecutive + 1;
      } else {
        lastLevel, consecutive := Some(level), 1;
      }
      if level != Critical {
        rejected, lastRevalidation := {}, NO_TIME;
      }
      x := MaybeRelieve(before, marked, o);
      if x.Some? {
        log := log + [Action(o.now, x.value.key, x.value.root, o.rejects)];
        if o.rejects {
          rejected, lastRevalidation := rejected + {x.value.key}, o.now;
        } else {
          lastAttempt := o.now;
        }
      }
    }
  }
}
