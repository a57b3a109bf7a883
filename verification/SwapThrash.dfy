/**
 The resident swap-thrash latch: a hysteretic verdict over the swap-out rate, the attribution of
 each latched episode to leased work or to the rest of the host, and the transition log.
 */
module SwapThrash {
  import opened Prelude

  const ENTER_SAMPLES := 2
  const RELEASE_SAMPLES := 2
  const RESUME_MAX_AGE: int := 180 * SECOND
  const DEFAULT_EXTERNAL_RELEASE_SECONDS := 300
  const DEFAULT_AGENT_SHARE_PERCENT := 25

  datatype Cause = NoCause | Agents | Unattributed | External

  /** Thresholds (MB/s) and the two work limits that attribution reads. */
  datatype Policy = Policy(thrash: real, release: real, externalReleaseSeconds: int, agentSharePercent: int)

  /** The part of a snapshot that the latch reads. */
  datatype Sample = Sample(at: Time, available: bool, swapOut: real,
                           physicalMB: real, workAvailable: bool, workRSSMB: real)

  /** The part of the last published snapshot that `Resume` reads. */
  datatype Published = Published(at: Time, available: bool, latched: bool, cause: Cause, since: Time)

  datatype Transition =
    | Entered(cause: Cause, since: Time, resumed: bool)
    | DerateReleased(cause: Cause, since: Time)
    | DerateResumed(cause: Cause, since: Time)
    | Released(cause: Cause, since: Time, episode: int, external: int)

  datatype Latch = Latch(
    latched: bool, hot: nat, calm: nat,
    since: Time, quietSince: Time, proven: bool,
    external: bool, externalSince: Time, externalTotal: int,
    cause: Cause, lastExternalRelease: Time, resumed: bool)

  const FRESH: Latch := Latch(false, 0, 0, NO_TIME, NO_TIME, false, false, NO_TIME, 0, NoCause, NO_TIME, false)

  // ----- what a sample says -----

  datatype Band = Dark | Hot | Calm | Between

  /** A sample as the latch sees it: when, in which band, and whether leased work is below its share. */
  datatype Reading = Reading(at: Time, band: Band, below: bool)

  function BandOf(p: Policy, s: Sample): Band {
    if !s.available || p.thrash <= 0.0 then Dark
    else if s.swapOut >= p.thrash then Hot
    else if s.swapOut <= p.release then Calm
    else Between
  }

  /** The external-release window; zero when the policy is strict (negative). */
  function Window(p: Policy): (w: nat) {
    var seconds := if p.externalReleaseSeconds == 0 then DEFAULT_EXTERNAL_RELEASE_SECONDS else p.externalReleaseSeconds;
    if seconds <= 0 then 0 else seconds * SECOND
  }

  function AgentShareMB(p: Policy, s: Sample): real {
    var percent := if p.agentSharePercent == 0 then DEFAULT_AGENT_SHARE_PERCENT else p.agentSharePercent;
    if s.physicalMB <= 0.0 || percent <= 0 then 0.0 else s.physicalMB * percent as real / 100.0
  }

  function LeasedRSSMB(s: Sample): real {
    if !s.workAvailable || s.workRSSMB < 0.0 then 0.0 else s.workRSSMB
  }

  /** Missing inventory or memory size counts as small leased work. */
  predicate BelowShare(p: Policy, s: Sample) {
    AgentShareMB(p, s) <= 0.0 || LeasedRSSMB(s) < AgentShareMB(p, s)
  }

  function Read(p: Policy, s: Sample): Reading { Reading(s.at, BandOf(p, s), BelowShare(p, s)) }

  // ----- the latch as a function of its state -----

  function Observed(l: Latch, r: Reading): Latch {
    if r.band == Dark then FRESH
    else
      var hot := if r.band == Hot then l.hot + 1 else 0;
      var calm := if r.band == Calm then l.calm + 1 else 0;
      var entered := l.latched || hot >= ENTER_SAMPLES;
      l.(hot := hot, calm := calm, latched := entered && calm < RELEASE_SAMPLES)
  }

  function WithExternal(l: Latch, external: bool, now: Time): Latch {
    if external == l.external then l
    else if external then l.(external := true, externalSince := now)
    else l.(external := false, externalSince := NO_TIME, externalTotal := l.externalTotal + (now - l.externalSince))
  }

  function Attributed(l: Latch, w: nat, r: Reading): Latch {
    if !r.below then
      WithExternal(l.(quietSince := NO_TIME), false, r.at).(cause := Agents)
    else
      var quiet := if l.quietSince == NO_TIME then r.at else l.quietSince;
      if w > 0 && (l.proven || r.at - quiet >= w) then
        WithExternal(l.(quietSince := quiet, proven := true), true, r.at).(cause := External)
      else
        WithExternal(l.(quietSince := quiet), false, r.at).(cause := Unattributed)
  }

  /** A proven storm ended less than a window ago. */
  predicate Carries(l: Latch, w: nat, now: Time) {
    w > 0 && l.lastExternalRelease != NO_TIME && now - l.lastExternalRelease < w
  }

  function EntryState(before: Latch, w: nat, r: Reading): Latch {
    Attributed(Observed(before, r).(
                 since := r.at, quietSince := NO_TIME, proven := Carries(before, w, r.at),
                 external := false, externalSince := NO_TIME, externalTotal := 0,
                 lastExternalRelease := before.lastExternalRelease), w, r)
  }

  function ReleaseState(before: Latch, r: Reading): Latch {
    var o := Observed(before, r);
    FRESH.(hot := o.hot, calm := o.calm, lastExternalRelease := if before.proven then r.at else NO_TIME)
  }

  function ReleaseRow(before: Latch, now: Time): Transition {
    var total := before.externalTotal + if before.external then now - before.externalSince else 0;
    Released(if before.proven then External else before.cause, before.since,
             Max(0, now - before.since), Max(0, total))
  }

  function HoldState(before: Latch, w: nat, r: Reading): Latch {
    Attributed(Observed(before, r), w, r).(resumed := false)
  }

  function HoldRow(before: Latch, after: Latch): Option<Transition> {
    if before.resumed then Some(Entered(after.cause, after.since, true))
    else if after.external && !before.external then Some(DerateReleased(after.cause, after.since))
    else if !after.external && before.external then Some(DerateResumed(after.cause, after.since))
    else None
  }

  function Advanced(l: Latch, w: nat, r: Reading): (Latch, Option<Transition>) {
    var o := Observed(l, r);
    if !l.latched && o.latched then
      var e := EntryState(l, w, r); (e, Some(Entered(e.cause, e.since, false)))
    else if l.latched && !o.latched then
      (ReleaseState(l, r), Some(ReleaseRow(l, r.at)))
    else if o.latched then
      var h := HoldState(l, w, r); (h, HoldRow(l, h))
    else (o, None)
  }

  function Resumed(l: Latch, latest: Published, now: Time): Latch {
    var age := now - latest.at;
    if !latest.available || !latest.latched || age < -5 * SECOND || age > RESUME_MAX_AGE then l
    else
      var external := latest.cause == External;
      FRESH.(latched := true, hot := ENTER_SAMPLES, cause := latest.cause, resumed := true,
             since := if latest.since == NO_TIME then latest.at else latest.since,
             proven := external, external := external,
             externalSince := if external then latest.at else NO_TIME)
  }

  /** The latch that the resident updates in place. */
  class SwapThrashLatch {
    var latched: bool
    var hot: nat
    var calm: nat
    var since: Time
    var quietSince: Time
    var proven: bool
    var external: bool
    var externalSince: Time
    var externalTotal: int
    var cause: Cause
    var lastExternalRelease: Time
    var resumed: bool

    function State(): Latch
      reads this
    {
      Latch(latched, hot, calm, since, quietSince, proven, external, externalSince, externalTotal,
            cause, lastExternalRelease, resumed)
    }

    method Assign(l: Latch)
      modifies this
      ensures State() == l
    {
      latched, hot, calm, since, quietSince, proven := l.latched, l.hot, l.calm, l.since, l.quietSince, l.proven;
      external, externalSince, externalTotal := l.external, l.externalSince, l.externalTotal;
      cause, lastExternalRelease, resumed := l.cause, l.lastExternalRelease, l.resumed;
    }

    method Resume(latest: Published, now: Time)
      modifies this
      ensures State() == Resumed(old(State()), latest, now)
    {
      if !latest.available || !latest.latched { return; }
      var age := now - latest.at;
      if age < -5 * SECOND || age > RESUME_MAX_AGE { return; }
      Assign(FRESH);
      latched, hot, since, cause, resumed := true, ENTER_SAMPLES, latest.since, latest.cause, true;
      if since == NO_TIME { since := latest.at; }
      if latest.cause == External {
        proven, external, externalSince := true, true, latest.at;
      }
    }

    method Observe(p: Policy, s: Sample)
      modifies this
      ensures State() == Observed(old(State()), Read(p, s))
    {
      if !s.available || p.thrash <= 0.0 {
        Assign(FRESH);
        return;
      }
      if s.swapOut >= p.thrash {
        hot, calm := hot + 1, 0;
      } else if s.swapOut <= p.release {
        hot, calm := 0, calm + 1;
      } else {
        hot, calm := 0, 0;
      }
      if !latched && hot >= ENTER_SAMPLES { latched := true; }
      if latched && calm >= RELEASE_SAMPLES { latched := false; }
    }

    method SetExternal(on: bool, now: Time)
      modifies this
      ensures State() == WithExternal(old(State()), on, now)
    {
      if on && !external {
        external, externalSince := true, now;
      } else if !on && external {
        externalTotal := externalTotal + (now - externalSince);
        external, externalSince := false, NO_TIME;
      }
    }

    method Attribute(p: Policy, s: Sample)
      modifies this
      ensures State() == Attributed(old(State()), Window(p), Read(p, s))
    {
      hide BandOf, Window, LeasedRSSMB, AgentShareMB, WithExternal;
      var share := AgentShareMB(p, s);
      if share > 0.0 && LeasedRSSMB(s) >= share {
        quietSince := NO_TIME;
        SetExternal(false, s.at);
        cause := Agents;
      } else {
        if quietSince == NO_TIME { quietSince := s.at; }
        var window := Window(p);
        if window > 0 && (proven || s.at - quietSince >= window) {
          proven := true;
          SetExternal(true, s.at);
          cause := External;
        } else {
          SetExternal(false, s.at);
          cause := Unattributed;
        }
      }
    }

    method EnterEpisode(before: Latch, p: Policy, s: Sample)
      requires State() == Observed(before, Read(p, s))
      modifies this
      ensures State() == EntryState(before, Window(p), Read(p, s))
    {
      hide Attributed, Observed, BandOf, BelowShare, Window;
      since, quietSince := s.at, NO_TIME;
      proven, external, externalSince, externalTotal := false, false, NO_TIME, 0;
      var window := Window(p);
      if window > 0 && before.lastExternalRelease != NO_TIME && s.at - before.lastExternalRelease < window {
        proven := true;
      }
      lastExternalRelease := before.lastExternalRelease;
      Attribute(p, s);
    }

    method LeaveEpisode(before: Latch, p: Policy, s: Sample)
      requires State() == Observed(before, Read(p, s))
      modifies this
      ensures State() == ReleaseState(before, Read(p, s))
    {
      var h, c := hot, calm;
      Assign(FRESH);
      hot, calm := h, c;
      if before.proven { lastExternalRelease := s.at; }
    }

    method HoldEpisode(before: Latch, p: Policy, s: Sample) returns (t: Option<Transition>)
      requires State() == Observed(before, Read(p, s))
      modifies this
      ensures State() == HoldState(before, Window(p), Read(p, s))
      ensures t == HoldRow(before, State())
    {
      Attribute(p, s);
      resumed := false;
      if before.resumed { return Some(Entered(cause, since, true)); }
      if external != before.external {
        return Some(if external then DerateReleased(cause, since) else DerateResumed(cause, since));
      }
      return None;
    }

    method Advance(p: Policy, s: Sample) returns (t: Option<Transition>)
      modifies this
      ensures (State(), t) == Advanced(old(State()), Window(p), Read(p, s))
    {
      var before := State();
      Observe(p, s);
      if !before.latched && latched {
        EnterEpisode(before, p, s);
        t := Some(Entered(cause, since, false));
      } else if before.latched && !latched {
        LeaveEpisode(before, p, s);
        t := Some(ReleaseRow(before, s.at));
      } else if latched {
        t := HoldEpisode(before, p, s);
      } else {
        t := None;
      }
    }
  }

  // ----- runs of one resident process -----

  /** The latch after the readings `rs`, starting from `l0`. */
  function Run(l0: Latch, w: nat, rs: seq<Reading>): Latch {
    if rs == [] then l0
    else Advanced(Run(l0, w, rs[..|rs| - 1]), w, rs[|rs| - 1]).0
  }

  // ----- the verdict refines a statement about the history of rates -----

  ghost predicate Pair(band: Band, rs: seq<Reading>, j: int) {
    1 <= j < |rs| && rs[j - 1].band == band && rs[j].band == band
  }

  ghost predicate Undone(rs: seq<Reading>, k: int) {
    0 <= k < |rs| && (Pair(Calm, rs, k) || rs[k].band == Dark)
  }

  /** The latest adjacent hot pair is newer than every adjacent calm pair and every dark sample. */
  ghost predicate StormStands(rs: seq<Reading>) {
    exists j :: Pair(Hot, rs, j) && forall k :: j < k < |rs| ==> !Undone(rs, k)
  }

  ghost predicate CountersMatch(rs: seq<Reading>, l: Latch) {
    && (l.hot >= 1 <==> |rs| > 0 && rs[|rs| - 1].band == Hot)
    && (l.hot >= 2 <==> Pair(Hot, rs, |rs| - 1))
    && (l.calm >= 1 <==> |rs| > 0 && rs[|rs| - 1].band == Calm)
    && (l.calm >= 2 <==> Pair(Calm, rs, |rs| - 1))
  }

  lemma {:induction false} AdvanceCounters(l: Latch, w: nat, r: Reading)
    ensures var a := Advanced(l, w, r).0; var o := Observed(l, r);
            a.hot == o.hot && a.calm == o.calm && a.latched == o.latched
  {
  }

  lemma {:induction false} CountersFollowHistory(w: nat, rs: seq<Reading>)
    ensures CountersMatch(rs, Run(FRESH, w, rs))
  {
    if rs != [] {
      var init, last := rs[..|rs| - 1], rs[|rs| - 1];
      CountersFollowHistory(w, init);
      AdvanceCounters(Run(FRESH, w, init), w, last);
    }
  }

  lemma {:induction false} StormExtends(rs: seq<Reading>)
    requires |rs| > 0
    ensures var n := |rs| - 1;
            StormStands(rs) <==> !Undone(rs, n) && (Pair(Hot, rs, n) || StormStands(rs[..n]))
  {
    var n := |rs| - 1;
    var init := rs[..n];
    assert forall k :: 0 <= k < n ==> Pair(Hot, init, k) == Pair(Hot, rs, k);
    assert forall k :: 0 <= k < n ==> Undone(init, k) == Undone(rs, k);
    if StormStands(init) && !Undone(rs, n) {
      var j :| Pair(Hot, init, j) && forall k :: j < k < n ==> !Undone(init, k);
      assert Pair(Hot, rs, j);
    }
    if StormStands(rs) && !Pair(Hot, rs, n) {
      var j :| Pair(Hot, rs, j) && forall k :: j < k < |rs| ==> !Undone(rs, k);
      assert Pair(Hot, init, j);
      assert !Undone(rs, n);
    }
    if Pair(Hot, rs, n) {
      assert !Undone(rs, n);
      assert StormStands(rs);
    }
  }

  /** The hysteretic counters decide exactly what the history of rates says. */
  lemma {:induction false} LatchedIffStormStands(w: nat, rs: seq<Reading>)
    ensures Run(FRESH, w, rs).latched <==> StormStands(rs)
  {
    if rs != [] {
      var init := rs[..|rs| - 1];
      LatchedIffStormStands(w, init);
      CountersFollowHistory(w, rs);
      AdvanceCounters(Run(FRESH, w, init), w, rs[|rs| - 1]);
      StormExtends(rs);
    }
  }

  // ----- the transition log -----

  /** What a reader of the log believes. */
  datatype Belief = Belief(latched: bool, external: bool)
  const QUIET := Belief(false, false)

  function Replay(b: Belief, t: Option<Transition>): Belief {
    match t
    case None => b
    case Some(Entered(cause, _, _)) => Belief(true, cause == External)
    case Some(DerateReleased(_, _)) => b.(external := true)
    case Some(DerateResumed(_, _)) => b.(external := false)
    case Some(Released(_, _, _, _)) => QUIET
  }

  function Actual(l: Latch): Belief { Belief(l.latched, l.external) }

  /** An unlatched latch carries no episode. */
  predicate Coherent(l: Latch) { l.latched || (!l.external && !l.resumed) }

  lemma {:induction false} AdvanceKeepsLogExact(l: Latch, w: nat, r: Reading, b: Belief)
    requires Coherent(l)
    requires l.resumed || b == Actual(l)
    ensures var (l', t) := Advanced(l, w, r);
            Coherent(l') && !l'.resumed && Replay(b, t) == Actual(l')
  {
  }

  function ProcessLog(l0: Latch, w: nat, rs: seq<Reading>): Belief {
    if rs == [] then QUIET
    else Replay(ProcessLog(l0, w, rs[..|rs| - 1]), Advanced(Run(l0, w, rs[..|rs| - 1]), w, rs[|rs| - 1]).1)
  }

  /** Within one process the log is exact after every sample, resumed or fresh, whatever the counters do. */
  lemma {:induction false} ProcessLogExact(latest: Published, now: Time, w: nat, rs: seq<Reading>)
    requires |rs| > 0
    ensures var l0 := Resumed(FRESH, latest, now);
            ProcessLog(l0, w, rs) == Actual(Run(l0, w, rs))
            && Coherent(Run(l0, w, rs)) && !Run(l0, w, rs).resumed
  {
    var l0 := Resumed(FRESH, latest, now);
    var init := rs[..|rs| - 1];
    if init != [] { ProcessLogExact(latest, now, w, init); }
    AdvanceKeepsLogExact(Run(l0, w, init), w, rs[|rs| - 1], ProcessLog(l0, w, init));
  }

  /** A resident's life: it samples, or it is replaced by a process that resumes from `latest`. */
  datatype Step = Advance(r: Reading) | Restart(latest: Published, now: Time)

  /**
   The latch, what a reader of the durable log believes, what the reader believed when this process
   started, and whether this process has sampled and has written a row.
   */
  datatype System = System(latch: Latch, log: Belief, base: Belief, sampled: bool, wrote: bool)

  function Next(sys: System, w: nat, step: Step): System {
    match step
    case Advance(r) =>
      var (l, t) := Advanced(sys.latch, w, r);
      sys.(latch := l, log := Replay(sys.log, t), sampled := true, wrote := sys.wrote || t.Some?)
    case Restart(latest, now) =>
      System(Resumed(FRESH, latest, now), sys.log, sys.log, false, false)
  }

  function Live(w: nat, steps: seq<Step>): System {
    if steps == [] then System(FRESH, QUIET, QUIET, false, false)
    else Next(Live(w, steps[..|steps| - 1]), w, steps[|steps| - 1])
  }

  ghost predicate LogInvariant(sys: System) {
    && Coherent(sys.latch)
    && (sys.sampled ==> !sys.latch.resumed)
    && (sys.wrote ==> sys.sampled && sys.log == Actual(sys.latch))
    && (!sys.wrote ==> sys.log == sys.base && (Actual(sys.latch) == QUIET || (!sys.sampled && sys.latch.resumed)))
  }

  lemma {:induction false} LogInvariantHolds(w: nat, steps: seq<Step>)
    ensures LogInvariant(Live(w, steps))
  {
    if steps != [] {
      var sys := Live(w, steps[..|steps| - 1]);
      LogInvariantHolds(w, steps[..|steps| - 1]);
      match steps[|steps| - 1]
      case Advance(r) =>
        AdvanceKeepsLogExact(sys.latch, w, r, if sys.wrote then sys.log else Actual(sys.latch));
      case Restart(_, _) =>
    }
  }

  /**
   Over any number of restarts, replaying the durable log gives the latch's exact state after a sample
   if and only if this process has written a row, or the log read "released" when it started.
   */
  lemma {:induction false} DurableLogExactness(w: nat, steps: seq<Step>)
    ensures var sys := Live(w, steps);
            sys.sampled ==> (sys.log == Actual(sys.latch) <==> sys.wrote || sys.base == QUIET)
  {
    LogInvariantHolds(w, steps);
  }

  const STALE_RESTART: seq<Step> := [
    Advance(Reading(30 * SECOND, Hot, true)), Advance(Reading(60 * SECOND, Hot, true)),
    Restart(Published(60 * SECOND, true, true, Unattributed, 60 * SECOND), 900 * SECOND),
    Advance(Reading(930 * SECOND, Calm, true))]

  /** A restart that finds only stale evidence leaves the log reading "latched" although nothing is. */
  lemma {:induction false} StaleRestartLeavesLogLatched()
    ensures var sys := Live(300 * SECOND, STALE_RESTART);
            sys.sampled && Actual(sys.latch) == QUIET && sys.log == Belief(true, false)
  {
    var w := 300 * SECOND;
    assert STALE_RESTART[..4] == STALE_RESTART;
    assert forall n :: 0 <= n < 4 ==> STALE_RESTART[..n + 1][..n] == STALE_RESTART[..n];
    assert Live(w, STALE_RESTART[..0]).latch == FRESH;
    assert Live(w, STALE_RESTART[..1]).latch.hot == 1;
    assert Live(w, STALE_RESTART[..2]).log == Belief(true, false);
    assert Live(w, STALE_RESTART[..3]).latch == FRESH;
    assert Live(w, STALE_RESTART[..4]).log == Belief(true, false);
  }

  // ----- external time -----

  /** Sample times are real instants in non-decreasing order, and none precedes `from`. */
  ghost predicate Chronological(from: Time, rs: seq<Reading>) {
    && (forall i :: 0 <= i < |rs| ==> rs[i].at > NO_TIME && from <= rs[i].at)
    && forall i, j :: 0 <= i < j < |rs| ==> rs[i].at <= rs[j].at
  }

  function LastAt(from: Time, rs: seq<Reading>): Time { if rs == [] then from else rs[|rs| - 1].at }

  /** Summed length of the sampling intervals of the current episode that began with the derate lifted. */
  function ExternalIntegral(l0: Latch, w: nat, from: Time, rs: seq<Reading>): int {
    if rs == [] then 0
    else
      var init := rs[..|rs| - 1];
      var before := Run(l0, w, init);
      if !before.latched then 0
      else ExternalIntegral(l0, w, from, init) + if before.external then rs[|rs| - 1].at - LastAt(from, init) else 0
  }

  /** A process starts fresh or resumes a snapshot published at `from` about an episode no younger. */
  ghost predicate StartsAt(l0: Latch, from: Time) {
    l0 == FRESH || exists latest: Published, now: Time ::
      latest.at == from && 0 < from && latest.since <= from && l0 == Resumed(FRESH, latest, now)
  }

  ghost predicate TimeKept(l: Latch, at: Time, integral: int) {
    && Coherent(l)
    && (l.latched ==>
      && l.externalTotal + (if l.external then at - l.externalSince else 0) == integral
      && l.since <= at
      && 0 <= integral <= at - l.since)
  }

  lemma {:induction false} TimeKeptStep(l: Latch, w: nat, at: Time, integral: int, r: Reading)
    requires TimeKept(l, at, integral) && at <= r.at
    ensures TimeKept(Advanced(l, w, r).0, r.at,
                     if !l.latched then 0 else integral + if l.external then r.at - at else 0)
  {
  }

  lemma {:induction false} EpisodeTimeKept(l0: Latch, w: nat, from: Time, rs: seq<Reading>)
    requires StartsAt(l0, from) && Chronological(from, rs)
    ensures TimeKept(Run(l0, w, rs), LastAt(from, rs), ExternalIntegral(l0, w, from, rs))
  {
    if rs != [] {
      var init := rs[..|rs| - 1];
      EpisodeTimeKept(l0, w, from, init);
      TimeKeptStep(Run(l0, w, init), w, LastAt(from, init), ExternalIntegral(l0, w, from, init), rs[|rs| - 1]);
    }
  }

  /** The released row reports exactly the time spent external, and never more than the episode. */
  lemma {:induction false} ReleaseReportsExternalTime(l0: Latch, w: nat, from: Time, rs: seq<Reading>)
    requires StartsAt(l0, from) && |rs| > 0 && Chronological(from, rs)
    requires Run(l0, w, rs[..|rs| - 1]).latched && !Run(l0, w, rs).latched
    ensures var before := Run(l0, w, rs[..|rs| - 1]);
            var now := rs[|rs| - 1].at;
            var row := Advanced(before, w, rs[|rs| - 1]).1;
            && row == Some(Released(if before.proven then External else before.cause, before.since,
                                    now - before.since, ExternalIntegral(l0, w, from, rs)))
            && 0 <= row.value.external <= row.value.episode
  {
    hide Advanced, TimeKept, ReleaseRow, StartsAt;
    var init, r := rs[..|rs| - 1], rs[|rs| - 1];
    EpisodeTimeKept(l0, w, from, init);
    assert LastAt(from, init) <= r.at;
    ReleaseEmits(Run(l0, w, init), w, r);
    ReleaseTime(Run(l0, w, init), LastAt(from, init), r.at, ExternalIntegral(l0, w, from, init));
  }

  lemma ReleaseEmits(l: Latch, w: nat, r: Reading)
    requires l.latched && !Advanced(l, w, r).0.latched
    ensures Advanced(l, w, r).1 == Some(ReleaseRow(l, r.at))
  {
    AdvanceCounters(l, w, r);
  }

  /** The row of a release, from the time kept up to the sample before it. */
  lemma ReleaseTime(before: Latch, at: Time, now: Time, integral: int)
    requires TimeKept(before, at, integral) && before.latched && at <= now
    ensures var total := integral + if before.external then now - at else 0;
            && ReleaseRow(before, now) == Released(if before.proven then External else before.cause, before.since,
                                                   now - before.since, total)
            && 0 <= total <= now - before.since
  {
  }

  // ----- the proof that a storm is external -----

  /** Index of the sample that opened the current episode; -1 when the process started inside it. */
  function EpisodeStart(l0: Latch, w: nat, rs: seq<Reading>): (e: int)
    ensures -1 <= e < |rs|
  {
    if rs == [] then -1
    else if Run(l0, w, rs[..|rs| - 1]).latched then EpisodeStart(l0, w, rs[..|rs| - 1])
    else |rs| - 1
  }

  /** From sample `i` to sample `j` leased work stayed below its share, for a whole window. */
  ghost predicate QuietWindow(w: nat, rs: seq<Reading>, i: int, j: int) {
    && 0 <= i <= j < |rs|
    && (forall k :: i <= k <= j ==> rs[k].below)
    && rs[j].at - rs[i].at >= w
  }

  /** The proof that the current episode started with. */
  ghost predicate Inherited(l0: Latch, w: nat, rs: seq<Reading>) {
    var e := EpisodeStart(l0, w, rs);
    if e == -1 then l0.proven
    else
      var released := Run(l0, w, rs[..e]).lastExternalRelease;
      w > 0 && released != NO_TIME && rs[e].at - released < w
  }

  ghost predicate Evidence(l0: Latch, w: nat, rs: seq<Reading>) {
    Inherited(l0, w, rs) || HasWindow(w, rs, EpisodeStart(l0, w, rs))
  }

  /** `q` opens the run of below-share samples of the episode (from `e`) that reaches the present. */
  ghost predicate QuietFrom(rs: seq<Reading>, e: int, q: int) {
    && e <= q && 0 <= q <= |rs|
    && (forall k :: q <= k < |rs| ==> rs[k].below)
    && (e < q && 0 < q ==> !rs[q - 1].below)
  }

  ghost predicate QuietKept(l: Latch, rs: seq<Reading>, e: int, q: int) {
    QuietFrom(rs, e, q) && l.quietSince == if q == |rs| then NO_TIME else rs[q].at
  }

  /** Positive times, so that `quietSince` is set whenever a below-share run is under way. */
  lemma {:induction false} QuietStep(l: Latch, w: nat, rs: seq<Reading>, e: int, q: int, r: Reading)
    requires -1 <= e < |rs| && QuietKept(l, rs, e, q) && Chronological(0, rs + [r])
    requires l.latched && Observed(l, r).latched
    ensures QuietKept(Advanced(l, w, r).0, rs + [r], e, if r.below then q else |rs| + 1)
  {
    var rs' := rs + [r];
    assert forall k :: 0 <= k < |rs| ==> rs'[k] == rs[k];
    if q < |rs| { assert rs'[q].at > NO_TIME; }
  }

  ghost predicate HasWindow(w: nat, rs: seq<Reading>, e: int) {
    exists i, j :: e <= i && QuietWindow(w, rs, i, j)
  }

  lemma {:induction false} WindowStep(w: nat, rs: seq<Reading>, e: int, q: int, r: Reading)
    requires w > 0 && Chronological(0, rs + [r]) && -1 <= e < |rs| && QuietFrom(rs, e, q)
    ensures HasWindow(w, rs + [r], e) <==>
            HasWindow(w, rs, e) || (r.below && q < |rs| && r.at - rs[q].at >= w)
  {
    var rs' := rs + [r];
    forall i, j | 0 <= i <= j < |rs| ensures QuietWindow(w, rs, i, j) == QuietWindow(w, rs', i, j) {
      assert forall k :: i <= k <= j ==> rs'[k] == rs[k];
    }
    assert q > 0 ==> rs'[q - 1] == rs[q - 1];
    if r.below && q < |rs| && r.at - rs[q].at >= w {
      assert QuietWindow(w, rs', q, |rs|);
    }
    forall i, j | e <= i && QuietWindow(w, rs', i, j)
      ensures QuietWindow(w, rs, i, j) || (r.below && q < |rs| && r.at - rs[q].at >= w)
    {
      if j == |rs| {
        if i < q { assert false; }
        assert rs'[q].at <= rs'[i].at;
      }
    }
  }

  lemma {:induction false} ProvenHold(l: Latch, w: nat, r: Reading)
    requires l.latched && Observed(l, r).latched && w > 0
    ensures var quiet := if l.quietSince == NO_TIME then r.at else l.quietSince;
            Advanced(l, w, r).0.proven <==> l.proven || (r.below && r.at - quiet >= w)
  {
  }

  lemma {:induction false} ProvenEntry(l: Latch, w: nat, r: Reading)
    requires !l.latched && Observed(l, r).latched && w > 0
    ensures var a := Advanced(l, w, r).0;
            a.proven == Carries(l, w, r.at) && a.quietSince == if r.below then r.at else NO_TIME
  {
  }

  lemma {:induction false} InheritedStep(l0: Latch, w: nat, rs: seq<Reading>, r: Reading)
    ensures Run(l0, w, rs + [r]) == Advanced(Run(l0, w, rs), w, r).0
    ensures EpisodeStart(l0, w, rs + [r]) == if Run(l0, w, rs).latched then EpisodeStart(l0, w, rs) else |rs|
    ensures Run(l0, w, rs).latched ==> Inherited(l0, w, rs + [r]) == Inherited(l0, w, rs)
    ensures !Run(l0, w, rs).latched ==> Inherited(l0, w, rs + [r]) == Carries(Run(l0, w, rs), w, r.at)
  {
    var rs', e := rs + [r], EpisodeStart(l0, w, rs);
    assert rs'[..|rs|] == rs;
    assert e >= 0 ==> rs'[..e] == rs[..e];
  }

  /**
   While an episode lasts, `proven` says exactly that the episode inherited a proof or that leased work
   once stayed below its share for a whole window of the episode.
   */
  lemma {:induction false} ProvenIffEvidence(l0: Latch, w: nat, from: Time, rs: seq<Reading>) returns (q: int)
    requires w > 0 && StartsAt(l0, from) && Chronological(0, rs)
    ensures Run(l0, w, rs).latched ==>
              && QuietKept(Run(l0, w, rs), rs, EpisodeStart(l0, w, rs), q)
              && (Run(l0, w, rs).proven <==> Evidence(l0, w, rs))
  {
    q := 0;
    if rs != [] {
      var init, r := rs[..|rs| - 1], rs[|rs| - 1];
      assert init + [r] == rs;
      var p := ProvenIffEvidence(l0, w, from, init);
      q := ProofStep(l0, w, init, p, r);
    }
  }

  lemma {:induction false} ProofStep(l0: Latch, w: nat, rs: seq<Reading>, p: int, r: Reading) returns (q: int)
    requires w > 0 && Chronological(0, rs + [r])
    requires Run(l0, w, rs).latched ==>
              && QuietKept(Run(l0, w, rs), rs, EpisodeStart(l0, w, rs), p)
              && (Run(l0, w, rs).proven <==> Evidence(l0, w, rs))
    ensures Run(l0, w, rs + [r]).latched ==>
              && QuietKept(Run(l0, w, rs + [r]), rs + [r], EpisodeStart(l0, w, rs + [r]), q)
              && (Run(l0, w, rs + [r]).proven <==> Evidence(l0, w, rs + [r]))
  {
    q := 0;
    var before, e := Run(l0, w, rs), EpisodeStart(l0, w, rs);
    InheritedStep(l0, w, rs, r);
    AdvanceCounters(before, w, r);
    if Observed(before, r).latched {
      if before.latched {
        QuietStep(before, w, rs, e, p, r);
        WindowStep(w, rs, e, p, r);
        ProvenHold(before, w, r);
        assert p < |rs| ==> (rs + [r])[p].at > NO_TIME;
        return if r.below then p else |rs| + 1;
      } else {
        ProvenEntry(before, w, r);
        assert forall i, j :: |rs| <= i ==> !QuietWindow(w, rs + [r], i, j);
        return if r.below then |rs| else |rs| + 1;
      }
    }
  }

  /**
   After a sample of an episode the derate is lifted if and only if the policy has a window, leased work
   is below its share now, and there is evidence that the storm is external.
   */
  lemma {:induction false} ExternalIffBelowAndProven(l0: Latch, w: nat, from: Time, rs: seq<Reading>)
    requires StartsAt(l0, from) && Chronological(0, rs) && |rs| > 0 && Run(l0, w, rs).latched
    ensures Run(l0, w, rs).external <==> w > 0 && rs[|rs| - 1].below && Evidence(l0, w, rs)
  {
    var r := rs[|rs| - 1];
    AdvanceCounters(Run(l0, w, rs[..|rs| - 1]), w, r);
    if w > 0 {
      var _ := ProvenIffEvidence(l0, w, from, rs);
    }
  }

  ghost predicate LatchedAfter(l0: Latch, w: nat, rs: seq<Reading>, k: int) {
    0 <= k <= |rs| && Run(l0, w, rs[..k]).latched
  }

  /** Sample `x` released a proven episode, and since then nothing latched and no counter went dark. */
  ghost predicate ProvenRelease(l0: Latch, w: nat, rs: seq<Reading>, x: int) {
    && 0 <= x < |rs|
    && LatchedAfter(l0, w, rs, x) && Run(l0, w, rs[..x]).proven
    && (forall k :: x < k <= |rs| ==> !LatchedAfter(l0, w, rs, k))
    && (forall k :: x < k < |rs| ==> rs[k].band != Dark)
  }

  lemma {:induction false} ProvenReleaseStep(l0: Latch, w: nat, rs: seq<Reading>, r: Reading, x: int)
    requires !LatchedAfter(l0, w, rs + [r], |rs| + 1)
    ensures ProvenRelease(l0, w, rs + [r], x) <==>
            if Run(l0, w, rs).latched then x == |rs| && Run(l0, w, rs).proven
            else ProvenRelease(l0, w, rs, x) && r.band != Dark
  {
    hide Run, LatchedAfter;
    var rs' := rs + [r];
    assert rs'[|rs|] == r && forall k :: 0 <= k < |rs| ==> rs'[k] == rs[k];
    forall k | 0 <= k <= |rs| ensures LatchedAfter(l0, w, rs', k) == LatchedAfter(l0, w, rs, k) {
      SamePast(l0, w, rs, r, k);
    }
    LatchedNow(l0, w, rs);
    if 0 <= x <= |rs| { SamePast(l0, w, rs, r, x); }
    assert rs[..|rs|] == rs;
  }

  lemma SamePast(l0: Latch, w: nat, rs: seq<Reading>, r: Reading, k: nat)
    requires k <= |rs|
    ensures (rs + [r])[..k] == rs[..k] && LatchedAfter(l0, w, rs + [r], k) == LatchedAfter(l0, w, rs, k)
  {
    hide Run;
    assert (rs + [r])[..k] == rs[..k];
  }

  lemma LatchedNow(l0: Latch, w: nat, rs: seq<Reading>)
    ensures LatchedAfter(l0, w, rs, |rs|) == Run(l0, w, rs).latched
  {
    hide Run;
    assert rs[..|rs|] == rs;
  }

  /** The proof that an episode can inherit is the last proven release, and only that. */
  lemma {:induction false} InheritedProofIsRecentRelease(l0: Latch, w: nat, from: Time, rs: seq<Reading>)
    requires StartsAt(l0, from) && Chronological(0, rs) && !Run(l0, w, rs).latched
    ensures Run(l0, w, rs).lastExternalRelease != NO_TIME ==>
              exists x :: ProvenRelease(l0, w, rs, x) && rs[x].at == Run(l0, w, rs).lastExternalRelease
    ensures forall x :: ProvenRelease(l0, w, rs, x) ==> rs[x].at == Run(l0, w, rs).lastExternalRelease
  {
    if rs != [] {
      var init, r := rs[..|rs| - 1], rs[|rs| - 1];
      assert init + [r] == rs;
      var before := Run(l0, w, init);
      AdvanceCounters(before, w, r);
      assert rs[..|rs|] == rs;
      forall x ensures ProvenRelease(l0, w, rs, x) <==>
            if before.latched then x == |init| && before.proven
            else ProvenRelease(l0, w, init, x) && r.band != Dark
      {
        ProvenReleaseStep(l0, w, init, r, x);
      }
      if !before.latched {
        InheritedProofIsRecentRelease(l0, w, from, init);
        UnlatchedStep(before, w, r);
        if Run(l0, w, rs).lastExternalRelease != NO_TIME {
          var x :| ProvenRelease(l0, w, init, x) && init[x].at == before.lastExternalRelease;
          assert ProvenRelease(l0, w, rs, x);
        }
      } else {
        ReleaseStep(before, w, r);
        assert before.proven ==> ProvenRelease(l0, w, rs, |init|);
      }
    }
  }

  lemma {:induction false} UnlatchedStep(l: Latch, w: nat, r: Reading)
    requires !l.latched && !Observed(l, r).latched
    ensures Advanced(l, w, r).0.lastExternalRelease == if r.band == Dark then NO_TIME else l.lastExternalRelease
  {
  }

  lemma {:induction false} ReleaseStep(l: Latch, w: nat, r: Reading)
    requires l.latched && !Observed(l, r).latched
    ensures Advanced(l, w, r).0.lastExternalRelease == if l.proven then r.at else NO_TIME
  {
  }
}
