/**
 The shared admission state of the work coordinator: one CPU latch fed by many pollers, and the records
 of the processes parked at the gate. Every method is one `withState` transaction.
 */
module AdmissionGate {
  import opened Prelude

  const SAMPLE_INTERVAL: int := 1500    // milliseconds between two counted observations
  const LATCH_STALE: int := 120_000     // milliseconds without an observer before the latch is dropped
  const CLOCK_SKEW: int := 60_000

  // ----- the latch -----

  datatype Observation = Observation(red: bool, recovered: bool, dimension: string, reason: string)

  /** What the verdict depends on. */
  datatype Core = Core(latched: bool, latchedAt: Option<Time>, red: nat, recovery: nat, observedAt: Option<Time>)
  const EMPTY := Core(false, None, 0, 0, None)

  datatype AdmissionLatch = AdmissionLatch(core: Core, dimension: string, reason: string, block: nat, release: nat)

  /** The two sample limits of a policy; a limit below one reads as one. */
  datatype Limits = Limits(blockSamples: int, releaseSamples: int)
  function Block(l: Limits): (n: nat) ensures n >= 1 { Max(1, l.blockSamples) }
  function Release(l: Limits): (n: nat) ensures n >= 1 { Max(1, l.releaseSamples) }

  datatype Poll = Poll(now: Time, o: Observation)

  predicate Stale(c: Core, now: Time) { c.observedAt.Some? && now - c.observedAt.value > LATCH_STALE }
  predicate Counted(c: Core, now: Time) { c.observedAt.None? || now - c.observedAt.value >= SAMPLE_INTERVAL }

  /** A counted observation that counts toward release. */
  predicate Calming(o: Observation) { !o.red && o.recovered }

  function Gate(c: Core, l: Limits, p: Poll): Core {
    if !Counted(c, p.now) then c
    else Tally(if Stale(c, p.now) then EMPTY else c, l, p).(observedAt := Some(p.now))
  }

  function Tally(c: Core, l: Limits, p: Poll): Core {
    if p.o.red then
      var latches := !c.latched && c.red + 1 >= Block(l);
      c.(recovery := 0, red := c.red + 1, latched := c.latched || latches,
         latchedAt := if latches then Some(p.now) else c.latchedAt)
    else if p.o.recovered then
      if c.latched && c.recovery + 1 >= Release(l) then
        c.(red := 0, recovery := 0, latched := false, latchedAt := None)
      else c.(red := 0, recovery := c.recovery + 1)
    else c.(recovery := 0)
  }

  function Run(c: Core, l: Limits, ps: seq<Poll>): Core {
    if ps == [] then c else Gate(Run(c, l, ps[..|ps| - 1]), l, ps[|ps| - 1])
  }

  ghost predicate Counts(c: Core, l: Limits, ps: seq<Poll>, k: int) {
    0 <= k < |ps| && Counted(Run(c, l, ps[..k]), ps[k].now)
  }

  ghost predicate Expires(c: Core, l: Limits, ps: seq<Poll>, k: int) {
    0 <= k < |ps| && Stale(Run(c, l, ps[..k]), ps[k].now)
  }

  /** The polls that are counted when `ps` arrives at `c`. */
  function CountedPolls(c: Core, l: Limits, ps: seq<Poll>): seq<Poll> {
    if ps == [] then []
    else
      var init := ps[..|ps| - 1];
      CountedPolls(c, l, init) + if Counted(Run(c, l, init), ps[|ps| - 1].now) then [ps[|ps| - 1]] else []
  }

  /** However many pollers there are, only the counted polls decide the latch, its counters and its times. */
  lemma {:induction false} UncountedPollsAreInvisible(c: Core, l: Limits, ps: seq<Poll>)
    ensures Run(c, l, CountedPolls(c, l, ps)) == Run(c, l, ps)
    ensures CountedPolls(c, l, CountedPolls(c, l, ps)) == CountedPolls(c, l, ps)
  {
    if ps != [] {
      var init, p := ps[..|ps| - 1], ps[|ps| - 1];
      UncountedPollsAreInvisible(c, l, init);
      var kept := CountedPolls(c, l, init);
      assert (kept + [p])[..|kept|] == kept;
      assert kept + [] == kept;
    }
  }

  /** Two crowds of pollers whose counted polls agree see the same latch. */
  lemma ObserverCountIndependence(c: Core, l: Limits, ps: seq<Poll>, qs: seq<Poll>)
    requires CountedPolls(c, l, ps) == CountedPolls(c, l, qs)
    ensures Run(c, l, ps) == Run(c, l, qs)
  {
    UncountedPollsAreInvisible(c, l, ps);
    UncountedPollsAreInvisible(c, l, qs);
  }

  /** Neither counter ever stands at or past the threshold that would have flipped the latch. */
  ghost predicate Bounded(c: Core, l: Limits) {
    && (!c.latched ==> c.red < Block(l) && c.latchedAt == None)
    && (c.latched ==> c.recovery < Release(l) && c.latchedAt.Some?)
    && (c.red > 0 || c.recovery > 0 || c.latched ==> c.observedAt.Some?)
  }

  lemma {:induction false} CountersStayBounded(l: Limits, ps: seq<Poll>)
    ensures Bounded(Run(EMPTY, l, ps), l)
  {
    if ps != [] { CountersStayBounded(l, ps[..|ps| - 1]); }
  }

  /** Poll `i` was counted red, and since then no counted poll was calming and the latch never expired. */
  ghost predicate RedSince(l: Limits, ps: seq<Poll>, i: int) {
    && Counts(EMPTY, l, ps, i) && ps[i].o.red
    && forall k :: i < k < |ps| && Counts(EMPTY, l, ps, k) ==> !Calming(ps[k].o) && !Expires(EMPTY, l, ps, k)
  }

  /** Poll `i` was counted and not calming, and every counted poll since was calming and in time. */
  ghost predicate CalmSince(l: Limits, ps: seq<Poll>, i: int) {
    && Counts(EMPTY, l, ps, i) && !Calming(ps[i].o)
    && forall k :: i < k < |ps| && Counts(EMPTY, l, ps, k) ==> Calming(ps[k].o) && !Expires(EMPTY, l, ps, k)
  }

  lemma {:induction false} PrefixCounts(l: Limits, ps: seq<Poll>, p: Poll)
    ensures Run(EMPTY, l, ps + [p]) == Gate(Run(EMPTY, l, ps), l, p)
    ensures forall k :: 0 <= k < |ps| ==>
              Counts(EMPTY, l, ps + [p], k) == Counts(EMPTY, l, ps, k)
              && Expires(EMPTY, l, ps + [p], k) == Expires(EMPTY, l, ps, k)
    ensures Counts(EMPTY, l, ps + [p], |ps|) == Counted(Run(EMPTY, l, ps), p.now)
    ensures Expires(EMPTY, l, ps + [p], |ps|) == Stale(Run(EMPTY, l, ps), p.now)
  {
    assert (ps + [p])[..|ps|] == ps;
    assert forall k :: 0 <= k < |ps| ==> (ps + [p])[..k] == ps[..k];
  }

  ghost predicate RedSpan(l: Limits, ps: seq<Poll>, i: int) {
    var c := Run(EMPTY, l, ps);
    c.observedAt.Some? && RedSince(l, ps, i) && c.observedAt.value - ps[i].now >= (c.red - 1) * SAMPLE_INTERVAL
  }

  lemma {:induction false} RedsAreSpaced(l: Limits, ps: seq<Poll>) returns (i: int)
    ensures Run(EMPTY, l, ps).red > 0 ==> RedSpan(l, ps, i)
  {
    i := 0;
    if ps != [] {
      var init, p := ps[..|ps| - 1], ps[|ps| - 1];
      assert init + [p] == ps;
      i := RedsAreSpaced(l, init);
      PrefixCounts(l, init, p);
      var c := Run(EMPTY, l, init);
      if Counted(c, p.now) && p.o.red && (c.red == 0 || Stale(c, p.now)) { i := |init|; }
    }
  }

  ghost predicate CalmSpan(l: Limits, ps: seq<Poll>, i: int) {
    var c := Run(EMPTY, l, ps);
    c.observedAt.Some? && CalmSince(l, ps, i) && c.observedAt.value - ps[i].now >= c.recovery * SAMPLE_INTERVAL
  }

  lemma {:induction false} CalmsAreSpaced(l: Limits, ps: seq<Poll>) returns (i: int)
    ensures Run(EMPTY, l, ps).latched ==> CalmSpan(l, ps, i)
  {
    i := 0;
    if ps != [] {
      var init, p := ps[..|ps| - 1], ps[|ps| - 1];
      assert init + [p] == ps;
      i := CalmsAreSpaced(l, init);
      PrefixCounts(l, init, p);
      CountersStayBounded(l, init);
      if Counted(Run(EMPTY, l, init), p.now) && !Calming(p.o) { i := |init|; }
    }
  }

  /** Whatever the arrival times, latching takes block - 1 full intervals from a red of the same count. */
  lemma LatchingTakesTime(l: Limits, ps: seq<Poll>, p: Poll)
    requires !Run(EMPTY, l, ps).latched && Run(EMPTY, l, ps + [p]).latched
    ensures exists i :: RedSince(l, ps + [p], i) && p.now - (ps + [p])[i].now >= (Block(l) - 1) * SAMPLE_INTERVAL
  {
    var i := RedsAreSpaced(l, ps + [p]);
    PrefixCounts(l, ps, p);
    assert RedSpan(l, ps + [p], i);
  }

  /** Unless it expires, release takes `release` full intervals after the last counted poll that was not calming. */
  lemma ReleaseTakesTime(l: Limits, ps: seq<Poll>, p: Poll)
    requires Run(EMPTY, l, ps).latched && !Run(EMPTY, l, ps + [p]).latched && !Stale(Run(EMPTY, l, ps), p.now)
    ensures exists i :: CalmSince(l, ps + [p], i) && p.now - (ps + [p])[i].now >= Release(l) * SAMPLE_INTERVAL
  {
    var i := CalmsAreSpaced(l, ps);
    PrefixCounts(l, ps, p);
    CountersStayBounded(l, ps);
    assert CalmSince(l, ps + [p], i);
  }

  // ----- the holds -----

  datatype Hold = Hold(op: string, class_: string, weight: int, pid: int, owner: string,
                       heldSince: Time, heartbeatAt: Time, dimension: string, reason: string)

  predicate ValidPrivateID(id: string) {
    |id| == 32 && forall i :: 0 <= i < 32 ==> '0' <= id[i] <= '9' || 'a' <= id[i] <= 'f'
  }

  predicate Blank(s: string) { forall i :: 0 <= i < |s| ==> s[i] in " \t\r\n" }

  /** What the host knows when the state is read: the weighted classes, and who runs under each PID. */
  datatype Host = Host(weights: map<string, int>, alive: set<int>, identities: map<int, string>, now: Time)

  predicate ValidHold(h: Hold, host: Host) {
    && ValidPrivateID(h.op) && h.class_ in host.weights && h.pid > 0 && !Blank(h.owner)
    && h.heldSince != NO_TIME && h.heldSince <= host.now + CLOCK_SKEW
  }

  /** The PID still runs the process that took the hold. */
  predicate Owned(h: Hold, host: Host) {
    && h.pid in host.alive && h.pid in host.identities
    && !Blank(host.identities[h.pid]) && host.identities[h.pid] == h.owner
  }

  /** The two questions reconciliation asks of a record. */
  datatype Checks = Checks(valid: Hold -> bool, owned: Hold -> bool)
  function ChecksOf(host: Host): Checks { Checks(h => ValidHold(h, host), h => Owned(h, host)) }

  function Survivors(s: seq<Hold>, c: Checks): (r: seq<Hold>)
    ensures |r| <= |s|
  {
    if s == [] then []
    else Survivors(s[..|s| - 1], c) + if c.owned(s[|s| - 1]) then [s[|s| - 1]] else []
  }

  function Without(s: seq<Hold>, op: string): (r: seq<Hold>)
    ensures |r| <= |s|
  {
    if s == [] then []
    else Without(s[..|s| - 1], op) + if s[|s| - 1].op != op then [s[|s| - 1]] else []
  }

  /** The slice `was` after its first cells were overwritten with `kept`. */
  function Overlay(kept: seq<Hold>, was: seq<Hold>): (r: seq<Hold>)
    requires |kept| <= |was|
    ensures |r| == |was|
  {
    kept + was[|kept|..]
  }

  lemma {:induction false} WithoutStep(s: seq<Hold>, op: string, i: nat)
    requires i < |s|
    ensures Without(s[..i + 1], op) == Without(s[..i], op) + if s[i].op != op then [s[i]] else []
  {
    assert s[..i + 1][..i] == s[..i];
  }

  ghost predicate DistinctOps(s: seq<Hold>) {
    forall i, j :: 0 <= i < j < |s| ==> s[i].op != s[j].op
  }

  ghost predicate Sound(s: seq<Hold>, c: Checks) {
    DistinctOps(s) && forall h :: h in s ==> c.valid(h)
  }

  /** Record `i` is the first that fails validation or repeats an operation. */
  ghost predicate FirstBad(s: seq<Hold>, c: Checks, i: int) {
    && 0 <= i < |s| && Sound(s[..i], c)
    && (!c.valid(s[i]) || exists j :: 0 <= j < i && s[j].op == s[i].op)
  }

  ghost function Ops(s: seq<Hold>): set<string> { set h | h in s :: h.op }

  /** One more record: either it is the first bad one, or the records up to it are sound. */
  lemma {:induction false} SoundStep(s: seq<Hold>, c: Checks, i: nat)
    requires i < |s| && Sound(s[..i], c)
    ensures Survivors(s[..i + 1], c) == Survivors(s[..i], c) + if c.owned(s[i]) then [s[i]] else []
    ensures Ops(s[..i + 1]) == Ops(s[..i]) + {s[i].op}
    ensures if c.valid(s[i]) && s[i].op !in Ops(s[..i]) then Sound(s[..i + 1], c)
            else FirstBad(s, c, i) && !Sound(s, c)
  {
    assert s[..i + 1] == s[..i] + [s[i]];
    assert s[..i + 1][..i] == s[..i];
    OpsHas(s[..i], s[i].op);
    if c.valid(s[i]) && s[i].op !in Ops(s[..i]) {
      SoundGrows(s[..i], s[i], c);
    } else {
      hide Survivors;
      BadHere(s, c, i);
    }
  }

  lemma OpsHas(s: seq<Hold>, op: string)
    ensures op in Ops(s) <==> exists j :: 0 <= j < |s| && s[j].op == op
  {
    if op in Ops(s) {
      var h :| h in s && h.op == op;
      var j :| 0 <= j < |s| && s[j] == h;
    }
  }

  lemma SoundGrows(s: seq<Hold>, h: Hold, c: Checks)
    requires Sound(s, c) && c.valid(h) && h.op !in Ops(s)
    ensures Sound(s + [h], c)
  {
    OpsHas(s, h.op);
  }

  lemma BadHere(s: seq<Hold>, c: Checks, i: nat)
    requires i < |s| && Sound(s[..i], c) && (!c.valid(s[i]) || exists j :: 0 <= j < i && s[..i][j].op == s[i].op)
    ensures FirstBad(s, c, i) && !Sound(s, c)
  {
    assert s[i] in s;
    assert forall j :: 0 <= j < i ==> s[..i][j] == s[j];
  }

  predicate HasOp(s: seq<Hold>, op: string) { exists h :: h in s && h.op == op }

  /** `after` is `before` with hold `h` recorded, or refreshed in place with its start kept. */
  ghost predicate Recorded(before: seq<Hold>, after: seq<Hold>, h: Hold) {
    if HasOp(before, h.op) then
      exists i :: RefreshedAt(before, after, h, i)
    else after == before + [h]
  }

  ghost predicate RefreshedAt(before: seq<Hold>, after: seq<Hold>, h: Hold, i: int) {
    && 0 <= i < |before| && before[i].op == h.op && (forall j :: 0 <= j < i ==> before[j].op != h.op)
    && after == before[i := before[i].(heartbeatAt := h.heartbeatAt, dimension := h.dimension, reason := h.reason)]
  }

  /** Recording, refreshing, releasing and pruning keep one hold per operation. */
  lemma HoldsStayDistinct(s: seq<Hold>, t: seq<Hold>, h: Hold, c: Checks)
    requires DistinctOps(s) && Recorded(s, t, h)
    ensures DistinctOps(t) && DistinctOps(Without(s, h.op)) && DistinctOps(Survivors(s, c))
    ensures Without(t, h.op) == Without(s, h.op)
  {
    WithoutIsSubsequence(s, h.op);
    SurvivorsDistinct(s, c);
    if HasOp(s, h.op) {
      var i :| RefreshedAt(s, t, h, i);
      WithoutIgnores(s, t, h.op);
    } else {
      assert (s + [h])[..|s|] == s;
    }
  }

  lemma {:induction false} WithoutIgnores(s: seq<Hold>, t: seq<Hold>, op: string)
    requires |s| == |t| && forall k :: 0 <= k < |s| ==> s[k] == t[k] || (s[k].op == op && t[k].op == op)
    ensures Without(s, op) == Without(t, op)
  {
    if s != [] { WithoutIgnores(s[..|s| - 1], t[..|t| - 1], op); }
  }

  lemma {:induction false} WithoutIsSubsequence(s: seq<Hold>, op: string)
    requires DistinctOps(s)
    ensures DistinctOps(Without(s, op))
    ensures forall h :: h in Without(s, op) <==> h in s && h.op != op
  {
    if s != [] {
      WithoutIsSubsequence(s[..|s| - 1], op);
      assert s == s[..|s| - 1] + [s[|s| - 1]];
      forall h | h in Without(s[..|s| - 1], op) ensures h.op != s[|s| - 1].op {
        assert h in s[..|s| - 1];
      }
    }
  }

  lemma {:induction false} SurvivorsDistinct(s: seq<Hold>, c: Checks)
    requires DistinctOps(s)
    ensures DistinctOps(Survivors(s, c))
    ensures forall h :: h in Survivors(s, c) <==> h in s && c.owned(h)
  {
    if s != [] {
      SurvivorsDistinct(s[..|s| - 1], c);
      assert s == s[..|s| - 1] + [s[|s| - 1]];
      forall h | h in Survivors(s[..|s| - 1], c) ensures h.op != s[|s| - 1].op {
        assert h in s[..|s| - 1];
      }
    }
  }

  /** Some character of the text is not blank. */
  ghost predicate Says(s: string) {
    exists i :: 0 <= i < |s| && s[i] != ' ' && s[i] != '\t' && s[i] != '\r' && s[i] != '\n'
  }

  lemma BlankIs(s: string)
    ensures Blank(s) <==> !Says(s)
  {
  }

  /** A reconciliation succeeds on distinct operations with well-formed identities, weighted classes, positive PIDs,
      named owners and past starts, and keeps the holds whose PID is alive and still runs the process that took them. */
  lemma {:induction false} ReconcileIs(s: seq<Hold>, host: Host)
    ensures Sound(s, ChecksOf(host)) <==>
            && DistinctOps(s)
            && forall h :: h in s ==>
                 && |h.op| == 32 && (forall i :: 0 <= i < 32 ==> '0' <= h.op[i] <= '9' || 'a' <= h.op[i] <= 'f')
                 && h.class_ in host.weights && h.pid > 0 && Says(h.owner)
                 && h.heldSince != 0 && h.heldSince <= host.now + 60_000
    ensures DistinctOps(s) ==> forall h :: h in Survivors(s, ChecksOf(host)) <==>
              && h in s && h.pid in host.alive && h.pid in host.identities
              && Says(h.owner) && host.identities[h.pid] == h.owner
  {
    forall t: string ensures Blank(t) <==> !Says(t) { BlankIs(t); }
    hide Blank, Says, Survivors, DistinctOps;
    if DistinctOps(s) { SurvivorsDistinct(s, ChecksOf(host)); }
  }

  // ----- what a failed reconciliation leaves behind -----

  /** Some hold that survives stands after one that was pruned, both before record `i`. */
  ghost predicate MovesDown(s: seq<Hold>, c: Checks, i: int) {
    exists p, k :: 0 <= p < k < i <= |s| && !c.owned(s[p]) && c.owned(s[k])
  }

  lemma {:induction false} AllOwnedSurvive(s: seq<Hold>, c: Checks)
    ensures (forall k :: 0 <= k < |s| ==> c.owned(s[k])) <==> |Survivors(s, c)| == |s|
    ensures |Survivors(s, c)| == |s| ==> Survivors(s, c) == s
  {
    if s != [] {
      var init, last := s[..|s| - 1], s[|s| - 1];
      AllOwnedSurvive(init, c);
      assert s == init + [last] && Survivors(s, c) == Survivors(init, c) + if c.owned(last) then [last] else [];
      hide Survivors;
      assert forall k :: 0 <= k < |init| ==> s[k] == init[k];
      if c.owned(last) && |Survivors(init, c)| != |init| {
        var k :| 0 <= k < |init| && !c.owned(init[k]);
        assert !c.owned(s[k]);
      }
    }
  }

  lemma MovesDownStep(s: seq<Hold>, c: Checks)
    requires s != []
    ensures MovesDown(s, c, |s|) <==>
            || MovesDown(s[..|s| - 1], c, |s| - 1)
            || (c.owned(s[|s| - 1]) && exists p :: 0 <= p < |s| - 1 && !c.owned(s[p]))
  {
    var init := s[..|s| - 1];
    assert forall k :: 0 <= k < |init| ==> init[k] == s[k];
  }

  lemma {:induction false} UnmovedSurvivorsArePrefix(s: seq<Hold>, c: Checks)
    requires !MovesDown(s, c, |s|)
    ensures Survivors(s, c) <= s
  {
    if s != [] {
      MovesDownStep(s, c);
      UnmovedSurvivorsArePrefix(s[..|s| - 1], c);
      if c.owned(s[|s| - 1]) { AllOwnedSurvive(s[..|s| - 1], c); }
    }
  }

  lemma {:induction false} MovedSurvivorsAreNoPrefix(s: seq<Hold>, c: Checks)
    requires MovesDown(s, c, |s|) && DistinctOps(s)
    ensures !(Survivors(s, c) <= s)
  {
    var init, last := s[..|s| - 1], s[|s| - 1];
    var r := Survivors(init, c);
    MovesDownStep(s, c);
    assert Survivors(s, c) == r + if c.owned(last) then [last] else [];
    assert s[..|r|] == init[..|r|];
    hide Survivors, MovesDown;
    if MovesDown(init, c, |init|) {
      MovedSurvivorsAreNoPrefix(init, c);
      assert r <= Survivors(s, c);
    } else {
      AllOwnedSurvive(init, c);
      assert |r| < |init| && Survivors(s, c)[|r|] == last;
      assert s[|r|].op != last.op;
    }
  }

  /**
   A reconciliation that fails at record `i` leaves the slice as it was if and only if no survivor
   stands after a pruned hold among the records before `i`.
   */
  lemma FailedReconcileKeepsSliceIff(s: seq<Hold>, c: Checks, i: int)
    requires FirstBad(s, c, i)
    ensures var kept := Survivors(s[..i], c);
            Overlay(kept, s) == s <==> !MovesDown(s, c, i)
  {
    var kept := Survivors(s[..i], c);
    assert MovesDown(s, c, i) == MovesDown(s[..i], c, i) by {
      assert forall k :: 0 <= k < i ==> s[..i][k] == s[k];
    }
    if MovesDown(s, c, i) {
      MovedSurvivorsAreNoPrefix(s[..i], c);
      assert Overlay(kept, s)[..|kept|] == kept;
      assert s[..i][..|kept|] == s[..|kept|];
    } else {
      UnmovedSurvivorsArePrefix(s[..i], c);
      assert kept == s[..|kept|];
    }
  }

  /** Some survivor still stands where it stood, behind the cells that the survivors were moved down to. */
  lemma {:induction false} SurvivorStaysBehind(s: seq<Hold>, c: Checks) returns (k: int)
    requires MovesDown(s, c, |s|)
    ensures |Survivors(s, c)| <= k < |s| && c.owned(s[k])
  {
    MovesDownStep(s, c);
    AllOwnedSurvive(s, c);
    if c.owned(s[|s| - 1]) {
      k := |s| - 1;
    } else {
      k := SurvivorStaysBehind(s[..|s| - 1], c);
    }
  }

  /** A reconciliation that fails at an invalid record leaves two holds for some operation if and only if a survivor
      stood after a pruned hold. */
  lemma {:induction false} FailedReconcileDistinctIff(s: seq<Hold>, c: Checks, i: int)
    requires FirstBad(s, c, i) && DistinctOps(s)
    ensures DistinctOps(Overlay(Survivors(s[..i], c), s)) <==> !MovesDown(s, c, i)
  {
    FailedReconcileKeepsSliceIff(s, c, i);
    if MovesDown(s, c, i) {
      var before := s[..i];
      assert MovesDown(before, c, i) by { MovesDownPrefix(s, c, i); }
      var k := SurvivorStaysBehind(before, c);
      SurvivorsDistinct(before, c);
      hide Survivors, MovesDown, FirstBad;
      StandsTwice(Survivors(before, c), s, k);
    }
  }

  lemma MovesDownPrefix(s: seq<Hold>, c: Checks, i: int)
    requires 0 <= i <= |s| && MovesDown(s, c, i)
    ensures MovesDown(s[..i], c, i)
  {
    var p, k :| 0 <= p < k < i && !c.owned(s[p]) && c.owned(s[k]);
    assert !c.owned(s[..i][p]) && c.owned(s[..i][k]);
  }

  /** A kept hold that also stands behind the kept cells stands twice. */
  lemma StandsTwice(kept: seq<Hold>, s: seq<Hold>, k: int)
    requires |kept| <= k < |s| && s[k] in kept
    ensures !DistinctOps(Overlay(kept, s))
  {
    var j :| 0 <= j < |kept| && kept[j] == s[k];
    var after := Overlay(kept, s);
    assert after[j] == s[k] && after[k] == s[k];
  }

  const HOST := Host(map["test" := 1], {11}, map[11 := "here"], 10)
  const DEAD := Hold("aaaaaaaaaaaaaaaaaaaaaaaaaaaaaaaa", "test", 1, 10, "gone", 1, 1, "", "")
  const OWNED := Hold("bbbbbbbbbbbbbbbbbbbbbbbbbbbbbbbb", "test", 1, 11, "here", 1, 1, "", "")
  const BROKEN := Hold("cccccccccccccccccccccccccccccccc", "none", 1, 12, "here", 1, 1, "", "")

  /** A dead hold, an owned one and one of an unknown class: the failure leaves the owned hold twice. */
  lemma {:induction false} FailedReconcileDuplicates()
    ensures var s, c := [DEAD, OWNED, BROKEN], ChecksOf(HOST);
            FirstBad(s, c, 2) && Overlay(Survivors(s[..2], c), s) == [OWNED, OWNED, BROKEN]
  {
    HostJudges();
    hide ValidHold, Owned;
    DuplicatesWith(ChecksOf(HOST));
  }

  lemma HostJudges()
    ensures ValidHold(DEAD, HOST) && ValidHold(OWNED, HOST) && !ValidHold(BROKEN, HOST)
    ensures !Owned(DEAD, HOST) && Owned(OWNED, HOST) && DEAD.op != OWNED.op
  {
    hide ValidPrivateID;
    DeadID();
    OwnedID();
    assert DEAD.owner[0] == 'g' && OWNED.owner[0] == 'h';
    assert "test"[0] == 't' && "none"[0] == 'n';
  }

  lemma DeadID()
    ensures ValidPrivateID(DEAD.op) && DEAD.op[0] == 'a'
  {
  }

  lemma OwnedID()
    ensures ValidPrivateID(OWNED.op) && OWNED.op[0] == 'b'
  {
  }

  lemma {:induction false} DuplicatesWith(c: Checks)
    requires c.valid(DEAD) && c.valid(OWNED) && !c.valid(BROKEN) && !c.owned(DEAD) && c.owned(OWNED)
    requires DEAD.op != OWNED.op
    ensures var s := [DEAD, OWNED, BROKEN];
            FirstBad(s, c, 2) && Overlay(Survivors(s[..2], c), s) == [OWNED, OWNED, BROKEN]
  {
    var s := [DEAD, OWNED, BROKEN];
    assert s[..2] == [DEAD, OWNED] && [DEAD, OWNED][..1] == [DEAD] && [DEAD][..0] == [];
    assert Survivors([], c) == [] && Survivors([DEAD], c) == [];
    assert Survivors([DEAD, OWNED], c) == [OWNED];
  }

  // ----- the durable holds over whole runs -----

  /** One transaction on the durable holds: a reconciliation that fails writes nothing back; otherwise the survivors
      are written, after one hold was recorded or released or neither. */
  ghost predicate Transacts(before: seq<Hold>, after: seq<Hold>, c: Checks) {
    if !Sound(before, c) then after == before
    else
      var kept := Survivors(before, c);
      || after == kept
      || (exists op :: after == Without(kept, op))
      || (exists h :: Recorded(kept, after, h))
  }

  /** Over every run of transactions, whoever dies in between, no operation has two durable holds. */
  lemma {:induction false} DurableHoldsStayDistinct(states: seq<seq<Hold>>, checks: seq<Checks>, n: nat)
    requires n < |states| <= |checks| + 1 && states[0] == []
    requires forall i :: 0 <= i < |states| - 1 ==> Transacts(states[i], states[i + 1], checks[i])
    ensures DistinctOps(states[n])
  {
    if n > 0 {
      DurableHoldsStayDistinct(states, checks, n - 1);
      TransactsDistinct(states[n - 1], states[n], checks[n - 1]);
    }
  }

  lemma TransactsDistinct(before: seq<Hold>, after: seq<Hold>, c: Checks)
    requires DistinctOps(before) && Transacts(before, after, c)
    ensures DistinctOps(after)
  {
    if Sound(before, c) {
      var kept := Survivors(before, c);
      SurvivorsDistinct(before, c);
      if op :| after == Without(kept, op) {
        WithoutIsSubsequence(kept, op);
      } else if h :| Recorded(kept, after, h) {
        HoldsStayDistinct(kept, after, h, c);
      }
    }
  }

  /** The cells hold `kept`, then what `was` held there. */
  ghost predicate Laid(a: array<Hold>, was: seq<Hold>, kept: seq<Hold>)
    requires |was| <= a.Length
    reads a
  {
    && |kept| <= |was|
    && (forall j :: 0 <= j < |kept| ==> a[j] == kept[j])
    && (forall j :: |kept| <= j < |was| ==> a[j] == was[j])
  }

  lemma LaidIsOverlay(a: array<Hold>, was: seq<Hold>, kept: seq<Hold>)
    requires |was| <= a.Length && Laid(a, was, kept)
    ensures a[..|was|] == Overlay(kept, was) && a[..|kept|] == kept
  {
  }

  /** Moves the record at `i` down to the next kept cell. */
  method Keep(a: array<Hold>, i: nat, k: nat, ghost was: seq<Hold>, ghost kept: seq<Hold>)
    requires |kept| == k <= i < |was| <= a.Length && Laid(a, was, kept)
    modifies a
    ensures Laid(a, was, kept + [was[i]])
  {
    a[k] := a[i];
  }

  /** Compacts `a[..n]` in place to the holds of other operations. */
  method CompactWithout(a: array<Hold>, n: nat, op: string) returns (k: nat)
    requires n <= a.Length
    modifies a
    ensures k <= n && a[..k] == Without(old(a[..n]), op)
  {
    ghost var was, kept := a[..n], [];
    k := 0;
    for i := 0 to n
      invariant |kept| == k <= i && kept == Without(was[..i], op) && Laid(a, was, kept)
    {
      WithoutStep(was, op, i);
      if a[i].op != op {
        Keep(a, i, k, was, kept);
        k, kept := k + 1, kept + [was[i]];
      }
    }
    assert was[..n] == was;
    LaidIsOverlay(a, was, kept);
  }

  lemma NothingBad(s: seq<Hold>, c: Checks)
    ensures Sound(s[..0], c) && Ops(s[..0]) == {} && Survivors(s[..0], c) == []
  {
  }

  /** Compacts `a[..n]` in place to the owned holds, stopping at the first bad record. */
  method CompactOwned(a: array<Hold>, n: nat, c: Checks) returns (ok: bool, k: nat, ghost bad: int)
    requires n <= a.Length
    modifies a
    ensures ok <==> Sound(old(a[..n]), c)
    ensures ok ==> k <= n && a[..k] == Survivors(old(a[..n]), c)
    ensures !ok ==> FirstBad(old(a[..n]), c, bad)
                    && a[..n] == Overlay(Survivors(old(a[..n])[..bad], c), old(a[..n]))
  {
    ghost var was, kept := a[..n], [];
    var seen: set<string> := {};
    k := 0;
    NothingBad(was, c);
    hide Sound, FirstBad, Ops, Survivors;
    for i := 0 to n
      invariant Sound(was[..i], c) && seen == Ops(was[..i])
      invariant |kept| == k <= i && kept == Survivors(was[..i], c) && Laid(a, was, kept)
    {
      SoundStep(was, c, i);
      if !c.valid(a[i]) || a[i].op in seen {
        LaidIsOverlay(a, was, kept);
        return false, k, i;
      }
      seen := seen + {a[i].op};
      if c.owned(a[i]) {
        Keep(a, i, k, was, kept);
        k, kept := k + 1, kept + [was[i]];
      }
    }
    assert was[..n] == was;
    LaidIsOverlay(a, was, kept);
    return true, k, -1;
  }

  const NO_LATCH := AdmissionLatch(EMPTY, "", "", 0, 0)

  /** The latch a poll starts from: a missing or stale one counts for nothing, its labels included. */
  function Standing(latch: Option<AdmissionLatch>, now: Time): AdmissionLatch {
    if latch.None? || Stale(latch.value.core, now) then NO_LATCH else latch.value
  }

  /** The coordinator's durable state that the gate touches; `holds[..count]` is the slice of holds. */
  class WorkState {
    var latch: Option<AdmissionLatch>
    var holds: array<Hold>
    var count: nat

    ghost predicate Valid() reads this { count <= holds.Length }
    ghost function Holds(): seq<Hold> requires Valid() reads this, holds { holds[..count] }
    ghost function LatchCore(): Core reads this { if latch.None? then EMPTY else latch.value.core }

    /** Folds one waiter's view into the shared latch. */
    method ObserveAdmissionLatch(o: Observation, l: Limits, now: Time) returns (r: AdmissionLatch)
      modifies this`latch
      ensures latch == Some(r)
      ensures r.core == Gate(old(LatchCore()), l, Poll(now, o))
      ensures r.block == Block(l) && r.release == Release(l)
      ensures r.dimension == if o.dimension != "" then o.dimension else Standing(old(latch), now).dimension
      ensures r.reason == if o.reason != "" then o.reason else Standing(old(latch), now).reason
    {
      var current := if latch.None? then NO_LATCH else latch.value;
      if Stale(current.core, now) { current := NO_LATCH; }
      var c := current.core;
      if c.observedAt.None? || now - c.observedAt.value >= SAMPLE_INTERVAL {
        if o.red {
          c := c.(recovery := 0, red := c.red + 1);
          if !c.latched && c.red >= Max(1, l.blockSamples) { c := c.(latched := true, latchedAt := Some(now)); }
        } else if o.recovered {
          c := c.(red := 0, recovery := c.recovery + 1);
          if c.latched && c.recovery >= Max(1, l.releaseSamples) {
            c := c.(latched := false, latchedAt := None, recovery := 0);
          }
        } else {
          c := c.(recovery := 0);
        }
        c := c.(observedAt := Some(now));
      }
      r := AdmissionLatch(c,
                          if o.dimension != "" then o.dimension else current.dimension,
                          if o.reason != "" then o.reason else current.reason,
                          Max(1, l.blockSamples), Max(1, l.releaseSamples));
      latch := Some(r);
    }

    /** Records the hold of process `pid`, or refreshes it on a later poll. */
    method HoldAdmission(op: string, class_: string, pid: int, o: Observation, host: Host) returns (ok: bool)
      requires Valid()
      modifies this`holds, this`count, holds
      ensures Valid()
      ensures ok <==>
              && ValidPrivateID(op) && class_ in host.weights
              && pid in host.identities && !Blank(host.identities[pid])
      ensures !ok ==> Holds() == old(Holds())
      ensures ok ==> Recorded(old(Holds()), Holds(),
                              Hold(op, class_, host.weights[class_], pid, host.identities[pid],
                                   host.now, host.now, o.dimension, o.reason))
    {
      if !ValidPrivateID(op) || class_ !in host.weights || pid !in host.identities || Blank(host.identities[pid]) {
        return false;
      }
      var h := Hold(op, class_, host.weights[class_], pid, host.identities[pid],
                    host.now, host.now, o.dimension, o.reason);
      Record(h);
      return true;
    }

    method Record(h: Hold)
      requires Valid()
      modifies this`holds, this`count, holds
      ensures Valid() && Recorded(old(Holds()), Holds(), h)
    {
      ghost var was := Holds();
      var i := 0;
      while i < count
        invariant 0 <= i <= count && Holds() == was && holds == old(holds)
        invariant forall j :: 0 <= j < i ==> was[j].op != h.op
      {
        if holds[i].op == h.op {
          holds[i] := holds[i].(heartbeatAt := h.heartbeatAt, dimension := h.dimension, reason := h.reason);
          assert was[i] in was;
          assert RefreshedAt(was, Holds(), h, i);
          return;
        }
        i := i + 1;
      }
      var grown := new Hold[count + 1](j requires 0 <= j <= count && count <= holds.Length reads this, holds =>
        if j < count then holds[j] else h);
      holds, count := grown, count + 1;
      assert Holds() == was + [h];
    }

    /** Removes the hold of an operation; releasing an absent hold is not an error. */
    method ReleaseAdmission(op: string) returns (ok: bool)
      requires Valid()
      modifies this`count, holds
      ensures Valid() && ok == ValidPrivateID(op)
      ensures Holds() == if ok then Without(old(Holds()), op) else old(Holds())
    {
      ok := ValidPrivateID(op);
      if ok { count := CompactWithout(holds, count, op); }
    }

    /** Drops the holds whose owner is gone, compacting the slice in place. */
    method ReconcileAdmissionHolds(host: Host) returns (ok: bool, pruned: nat, ghost bad: int)
      requires Valid()
      modifies this`count, holds
      ensures Valid()
      ensures ok <==> Sound(old(Holds()), ChecksOf(host))
      ensures ok ==> Holds() == Survivors(old(Holds()), ChecksOf(host)) && pruned == old(count) - count
      ensures !ok ==> FirstBad(old(Holds()), ChecksOf(host), bad) && pruned == 0
                      && Holds() == Overlay(Survivors(old(Holds())[..bad], ChecksOf(host)), old(Holds()))
    {
      var kept;
      ok, kept, bad := CompactOwned(holds, count, ChecksOf(host));
      if ok {
        pruned, count := count - kept, kept;
      } else {
        pruned := 0;
      }
    }
  }
}
