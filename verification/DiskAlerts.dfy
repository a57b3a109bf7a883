/**
 The write-ahead alert state of the disk-write observer: a daily cap and one alert per incident, both of
 which must survive restarts and failed saves.
 */
module DiskAlerts {
  import opened Prelude

  const ALERT_LIMIT_PER_DAY: nat := 4

  /** A local day such as 20260301; `NO_DAY` is the empty string of a new observer. */
  type Day = nat
  const NO_DAY: Day := 0

  datatype DiskWriteState = Disabled | Unavailable | Learning | Normal | Unusual | High

  /** The alert state in memory; `invalid` means the saved one could not be read. */
  datatype Memory = Memory(day: Day, alerts: nat, open: bool, invalid: bool)
  datatype Saved = Saved(day: Day, alerts: nat, open: bool)

  /** The part of a summary that the alert step reads. */
  datatype Summary = Summary(day: Day, state: DiskWriteState, windowSeconds: int, gapRebased: bool)

  /** One call to the alert step, with the outcome of the saves it may try. */
  datatype Call = Call(summary: Summary, notify: bool, daySaves: bool, stateSaves: bool)

  /** An incident ends on a normal summary, or on a learning one measured over a window that is not a gap. */
  predicate EndsIncident(s: Summary) {
    s.state == Normal || (s.state == Learning && s.windowSeconds > 0 && !s.gapRebased)
  }

  /** What the call leaves: memory, disk, whether a close was saved and whether an alert is emitted. */
  datatype Outcome = Outcome(memory: Memory, disk: Option<Saved>, closed: bool, alerted: bool)

  function Turned(m: Memory, disk: Option<Saved>, c: Call): (Memory, Option<Saved>) {
    var today := c.summary.day;
    if today != m.day && c.daySaves then (m.(day := today, alerts := 0), Some(Saved(today, 0, m.open)))
    else (m, disk)
  }

  function Alert(m: Memory, disk: Option<Saved>, c: Call): Outcome {
    var (m', disk') := Turned(m, disk, c);
    if m.invalid || m'.day != c.summary.day then
      if m.invalid then Outcome(m, disk, false, false) else Outcome(m', disk', false, false)
    else if EndsIncident(c.summary) && m'.open && c.stateSaves then
      Outcome(m'.(open := false), Some(Saved(m'.day, m'.alerts, false)), true, false)
    else if c.summary.state == High && c.notify && !m'.open && m'.alerts < ALERT_LIMIT_PER_DAY && c.stateSaves then
      Outcome(m'.(open := true, alerts := m'.alerts + 1), Some(Saved(m'.day, m'.alerts + 1, true)), false, true)
    else Outcome(m', disk', false, false)
  }

  predicate Loadable(r: Saved) { r.day != NO_DAY && r.alerts <= ALERT_LIMIT_PER_DAY }

  function Loaded(disk: Option<Saved>, readFails: bool): Memory {
    if readFails || (disk.Some? && !Loadable(disk.value)) then Memory(NO_DAY, 0, false, true)
    else if disk.None? then Memory(NO_DAY, 0, false, false)
    else Memory(disk.value.day, disk.value.alerts, disk.value.open, false)
  }

  /** The observer and its store. */
  class AlertObserver {
    var day: Day
    var alertsToday: nat
    var incidentOpen: bool
    var alertStateInvalid: bool
    var disk: Option<Saved>

    ghost function InMemory(): Memory reads this { Memory(day, alertsToday, incidentOpen, alertStateInvalid) }

    method Restore(readFails: bool)
      modifies this
      ensures InMemory() == Loaded(old(disk), readFails) && disk == old(disk)
    {
      day, alertsToday, incidentOpen, alertStateInvalid := NO_DAY, 0, false, false;
      if readFails || (disk.Some? && !Loadable(disk.value)) {
        alertStateInvalid := true;
      } else if disk.Some? {
        day, alertsToday, incidentOpen := disk.value.day, disk.value.alerts, disk.value.open;
      }
    }

    method SaveAlertState(r: Saved, succeeds: bool) returns (ok: bool)
      modifies this`disk
      ensures ok == succeeds && disk == if ok then Some(r) else old(disk)
    {
      if succeeds { disk := Some(r); }
      return succeeds;
    }

    method AlertLocked(c: Call) returns (alert: bool)
      modifies this
      ensures var o := Alert(old(InMemory()), old(disk), c);
              InMemory() == o.memory && disk == o.disk && alert == o.alerted
    {
      if alertStateInvalid { return false; }
      if c.summary.day != day {
        var ok := SaveAlertState(Saved(c.summary.day, 0, incidentOpen), c.daySaves);
        if !ok { return false; }
        day, alertsToday := c.summary.day, 0;
      }
      var s := c.summary;
      if s.state != High {
        if (s.state == Normal || (s.state == Learning && s.windowSeconds > 0 && !s.gapRebased)) && incidentOpen {
          var ok := SaveAlertState(Saved(day, alertsToday, false), c.stateSaves);
          if !ok { return false; }
          incidentOpen := false;
        }
        return false;
      }
      if !c.notify || incidentOpen || alertsToday >= ALERT_LIMIT_PER_DAY { return false; }
      var ok := SaveAlertState(Saved(day, alertsToday + 1, true), c.stateSaves);
      if !ok { return false; }
      incidentOpen, alertsToday := true, alertsToday + 1;
      return true;
    }
  }

  // ----- whole runs: samples, failed saves and restarts -----

  datatype Step = Sampled(c: Call) | Restarted(readFails: bool)
  datatype Row = Alerted(day: Day) | CloseSaved

  /** The observer, its store, the days sampled so far, and the alerts and saved closes in order. */
  datatype System = System(memory: Memory, disk: Option<Saved>, days: seq<Day>, rows: seq<Row>)

  function Next(s: System, step: Step): System {
    match step
    case Restarted(readFails) => s.(memory := Loaded(s.disk, readFails))
    case Sampled(c) =>
      var o := Alert(s.memory, s.disk, c);
      System(o.memory, o.disk, s.days + [c.summary.day],
             s.rows + (if o.closed then [CloseSaved] else []) + (if o.alerted then [Alerted(c.summary.day)] else []))
  }

  function Live(steps: seq<Step>): System {
    if steps == [] then System(Memory(NO_DAY, 0, false, false), None, [], [])
    else Next(Live(steps[..|steps| - 1]), steps[|steps| - 1])
  }

  ghost predicate RealDays(steps: seq<Step>) {
    forall i :: 0 <= i < |steps| && steps[i].Sampled? ==> steps[i].c.summary.day != NO_DAY
  }

  /** Memory is what a restart would load: nothing is believed that was not saved first. */
  ghost predicate WriteAhead(s: System) {
    && (s.disk.Some? ==> Loadable(s.disk.value))
    && (!s.memory.invalid ==> s.memory == Loaded(s.disk, false))
  }

  lemma AlertWritesAhead(m: Memory, disk: Option<Saved>, c: Call)
    requires c.summary.day != NO_DAY && (disk.Some? ==> Loadable(disk.value))
    requires (!m.invalid ==> m == Loaded(disk, false))
    ensures var o := Alert(m, disk, c);
            (o.disk.Some? ==> Loadable(o.disk.value)) && (!o.memory.invalid ==> o.memory == Loaded(o.disk, false))
  {
  }

  /** Over every run, in-memory alert state never runs ahead of what was persisted. */
  lemma {:induction false} MemoryNeverRunsAhead(steps: seq<Step>)
    requires RealDays(steps)
    ensures WriteAhead(Live(steps))
  {
    if steps != [] {
      var init, last := steps[..|steps| - 1], steps[|steps| - 1];
      MemoryNeverRunsAhead(init);
      var s := Live(init);
      if last.Sampled? { AlertWritesAhead(s.memory, s.disk, last.c); }
    }
  }

  // ----- when a sample alerts -----

  /** A sample after any run alerts if and only if its state is high, notifications are on, the saved state was
      readable, no incident is open, fewer than four alerts are saved for its day, and the saves it needs succeed. */
  lemma {:induction false} AlertIff(steps: seq<Step>, c: Call)
    requires RealDays(steps) && c.summary.day != NO_DAY
    ensures var s := Live(steps);
            var open := s.disk.Some? && s.disk.value.open;
            var today := s.disk.Some? && s.disk.value.day == c.summary.day;
            Live(steps + [Sampled(c)]).rows == s.rows + [Alerted(c.summary.day)] <==>
            && !s.memory.invalid && c.summary.state == High && c.notify && !open && c.stateSaves
            && (if today then s.disk.value.alerts < 4 else c.daySaves)
  {
    MemoryNeverRunsAhead(steps);
    LiveStep(steps, Sampled(c));
    hide Live;
    var s := Live(steps);
    var o := Alert(s.memory, s.disk, c);
    RowsAfter(s.rows, o.closed, o.alerted, c.summary.day);
  }

  /** A sample after any run closes the open incident if and only if its state is normal, or learning over a measured
      window that is no gap, and the saves it needs succeed. */
  lemma {:induction false} CloseIff(steps: seq<Step>, c: Call)
    requires RealDays(steps) && c.summary.day != NO_DAY
    ensures var s, m := Live(steps), c.summary;
            Live(steps + [Sampled(c)]).rows == s.rows + [CloseSaved] <==>
            && !s.memory.invalid && s.disk.Some? && s.disk.value.open && c.stateSaves
            && (m.state == Normal || (m.state == Learning && m.windowSeconds > 0 && !m.gapRebased))
            && (s.disk.value.day == m.day || c.daySaves)
  {
    MemoryNeverRunsAhead(steps);
    LiveStep(steps, Sampled(c));
    hide Live;
    var s := Live(steps);
    var o := Alert(s.memory, s.disk, c);
    RowsAfter(s.rows, o.closed, o.alerted, c.summary.day);
  }

  lemma RowsAfter(rows: seq<Row>, closed: bool, alerted: bool, d: Day)
    ensures var after := rows + (if closed then [CloseSaved] else []) + (if alerted then [Alerted(d)] else []);
            && (after == rows + [Alerted(d)] <==> alerted && !closed)
            && (after == rows + [CloseSaved] <==> closed && !alerted)
  {
    var after := rows + (if closed then [CloseSaved] else []) + (if alerted then [Alerted(d)] else []);
    assert (rows + [Alerted(d)])[|rows|] == Alerted(d) && (rows + [CloseSaved])[|rows|] == CloseSaved;
    assert |after| == |rows| + (if closed then 1 else 0) + (if alerted then 1 else 0);
    assert closed && !alerted ==> after == rows + [CloseSaved];
    assert alerted && !closed ==> after == rows + [Alerted(d)];
  }

  // ----- one alert per incident -----

  /** No alert is waiting for its incident to close. */
  ghost predicate Settled(rows: seq<Row>) { rows == [] || rows[|rows| - 1] == CloseSaved }

  /** Alerts and saved closes alternate, beginning with an alert. */
  ghost predicate Alternating(rows: seq<Row>) {
    && (rows != [] ==> rows[0].Alerted?)
    && forall i :: 0 < i < |rows| ==> rows[i].Alerted? == !rows[i - 1].Alerted?
  }

  ghost predicate IncidentKept(s: System) {
    Alternating(s.rows) && (Settled(s.rows) <==> !(s.disk.Some? && s.disk.value.open))
  }

  lemma IncidentStep(s: System, c: Call)
    requires c.summary.day != NO_DAY && WriteAhead(s) && IncidentKept(s)
    ensures IncidentKept(Next(s, Sampled(c)))
  {
    var o := Alert(s.memory, s.disk, c);
    assert !(o.closed && o.alerted);
    assert o.closed ==> s.disk.Some? && s.disk.value.open && !o.disk.value.open;
    assert o.alerted ==> !(s.disk.Some? && s.disk.value.open) && o.disk.value.open;
  }

  lemma {:induction false} IncidentsKept(steps: seq<Step>)
    requires RealDays(steps)
    ensures IncidentKept(Live(steps))
  {
    if steps != [] {
      var init, last := steps[..|steps| - 1], steps[|steps| - 1];
      IncidentsKept(init);
      MemoryNeverRunsAhead(init);
      if last.Sampled? { IncidentStep(Live(init), last.c); }
    }
  }

  /** Between two alerts an incident close was durably saved. */
  lemma {:induction false} AlertsAlternateWithCloses(steps: seq<Step>, i: nat, j: nat)
    requires RealDays(steps) && i < j < |Live(steps).rows|
    requires Live(steps).rows[i].Alerted? && Live(steps).rows[j].Alerted?
    ensures i + 1 < j && Live(steps).rows[i + 1] == CloseSaved
  {
    IncidentsKept(steps);
  }

  // ----- the daily cap -----

  function AlertsOn(rows: seq<Row>, d: Day): nat {
    if rows == [] then 0
    else AlertsOn(rows[..|rows| - 1], d) + if rows[|rows| - 1] == Alerted(d) then 1 else 0
  }

  /** The number of unbroken stretches of samples on day `d`. */
  function Visits(days: seq<Day>, d: Day): nat {
    if days == [] then 0
    else
      var init := days[..|days| - 1];
      Visits(init, d) + if days[|days| - 1] == d && (init == [] || init[|init| - 1] != d) then 1 else 0
  }

  /** Alerts on day `d`, bounded by the visits before this one plus what the disk has counted in this one. */
  ghost predicate Capped(s: System, d: Day) {
    var a, v := AlertsOn(s.rows, d), Visits(s.days, d);
    && a <= 4 * v
    && (s.disk.Some? && s.disk.value.day == d ==> v >= 1 && a <= 4 * (v - 1) + s.disk.value.alerts)
    && (s.days != [] && s.days[|s.days| - 1] == d && !(s.disk.Some? && s.disk.value.day == d) ==> a <= 4 * (v - 1))
  }

  lemma RowsAdd(rows: seq<Row>, closed: bool, alerted: bool, c: Day, d: Day)
    ensures AlertsOn(rows + (if closed then [CloseSaved] else []) + (if alerted then [Alerted(c)] else []), d)
            == AlertsOn(rows, d) + if alerted && c == d then 1 else 0
  {
    var r1 := rows + if closed then [CloseSaved] else [];
    if closed { assert r1[..|rows|] == rows; } else { assert r1 == rows; }
    if alerted { assert (r1 + [Alerted(c)])[..|r1|] == r1; } else { assert r1 + [] == r1; }
  }

  lemma VisitsAdd(days: seq<Day>, c: Day, d: Day)
    ensures Visits(days + [c], d) == Visits(days, d) + if c == d && (days == [] || days[|days| - 1] != d) then 1 else 0
    ensures days != [] ==> Visits(days, days[|days| - 1]) >= 1
  {
    assert (days + [c])[..|days|] == days;
    VisitedAtLeastOnce(days);
  }

  lemma {:induction false} VisitedAtLeastOnce(days: seq<Day>)
    ensures days != [] ==> Visits(days, days[|days| - 1]) >= 1
  {
    if days != [] { VisitedAtLeastOnce(days[..|days| - 1]); }
  }

  lemma CappedStep(s: System, c: Call, d: Day)
    requires c.summary.day != NO_DAY && WriteAhead(s) && Capped(s, d)
    ensures Capped(Next(s, Sampled(c)), d)
  {
    var o := Alert(s.memory, s.disk, c);
    RowsAdd(s.rows, o.closed, o.alerted, c.summary.day, d);
    VisitsAdd(s.days, c.summary.day, d);
  }

  /** Alerts on any day never exceed four per visit to that day, whatever is saved, lost or restarted. */
  lemma {:induction false} FourAlertsPerVisit(steps: seq<Step>, d: Day)
    requires RealDays(steps)
    ensures Capped(Live(steps), d)
  {
    if steps != [] {
      var init, last := steps[..|steps| - 1], steps[|steps| - 1];
      FourAlertsPerVisit(init, d);
      MemoryNeverRunsAhead(init);
      if last.Sampled? { CappedStep(Live(init), last.c, d); }
    }
  }

  ghost predicate NonDecreasing(days: seq<Day>) {
    forall i, j :: 0 <= i < j < |days| ==> days[i] <= days[j]
  }

  lemma {:induction false} OneVisit(days: seq<Day>, d: Day)
    requires NonDecreasing(days)
    ensures Visits(days, d) <= 1
    ensures Visits(days, d) == 1 <==> d in days
  {
    if days != [] {
      OneVisit(days[..|days| - 1], d);
      assert days == days[..|days| - 1] + [days[|days| - 1]];
    }
  }

  /** While days do not run backwards, at most four alerts are emitted per day. */
  lemma {:induction false} AlertCapSurvivesRestarts(steps: seq<Step>, d: Day)
    requires RealDays(steps)
    requires NonDecreasing(Live(steps).days)
    ensures AlertsOn(Live(steps).rows, d) <= ALERT_LIMIT_PER_DAY
  {
    FourAlertsPerVisit(steps, d);
    OneVisit(Live(steps).days, d);
  }

  // ----- a clock that comes back to a day -----

  function On(d: Day, state: DiskWriteState): Step { Sampled(Call(Summary(d, state, 900, false), true, true, true)) }

  /** Four incidents, each high and then normal, a glance at another day, and a fifth incident. */
  function DayRollback(d: Day, other: Day): seq<Step> {
    Incidents(d, 4) + [On(other, Learning), On(d, High)]
  }

  function Incidents(d: Day, n: nat): seq<Step> {
    if n == 0 then [] else Incidents(d, n - 1) + [On(d, High), On(d, Normal)]
  }

  lemma LiveStep(steps: seq<Step>, step: Step)
    ensures Live(steps + [step]) == Next(Live(steps), step)
  {
    assert (steps + [step])[..|steps|] == steps;
  }

  lemma LiveTwo(steps: seq<Step>, a: Step, b: Step)
    ensures Live(steps + [a, b]) == Next(Next(Live(steps), a), b)
  {
    assert steps + [a, b] == (steps + [a]) + [b];
    LiveStep(steps, a);
    LiveStep(steps + [a], b);
  }

  lemma AlertsOnTwo(rows: seq<Row>, d: Day)
    ensures AlertsOn(rows + [Alerted(d)] + [CloseSaved], d) == AlertsOn(rows + [Alerted(d)], d) == AlertsOn(rows, d) + 1
  {
    assert (rows + [Alerted(d)])[..|rows|] == rows;
    assert (rows + [Alerted(d)] + [CloseSaved])[..|rows| + 1] == rows + [Alerted(d)];
  }

  /** Up to four incidents on one day, each is alerted and closed. */
  lemma {:induction false} IncidentsAlert(d: Day, n: nat)
    requires d != NO_DAY && 1 <= n <= 4
    ensures var s := Live(Incidents(d, n));
            s.memory == Memory(d, n, false, false) && s.disk == Some(Saved(d, n, false)) && AlertsOn(s.rows, d) == n
  {
    var before := Live(Incidents(d, n - 1));
    LiveTwo(Incidents(d, n - 1), On(d, High), On(d, Normal));
    if n > 1 {
      IncidentsAlert(d, n - 1);
    } else {
      assert before == System(Memory(NO_DAY, 0, false, false), None, [], []);
    }
    IncidentAlerts(before, d, n - 1);
  }

  lemma IncidentAlerts(s: System, d: Day, n: nat)
    requires d != NO_DAY && n < 4 && AlertsOn(s.rows, d) == n
    requires s.memory == Memory(d, n, false, false) || (s.memory == Memory(NO_DAY, 0, false, false) && n == 0)
    ensures var after := Next(Next(s, On(d, High)), On(d, Normal));
            && after.memory == Memory(d, n + 1, false, false) && after.disk == Some(Saved(d, n + 1, false))
            && AlertsOn(after.rows, d) == n + 1
  {
    var high := Next(s, On(d, High));
    assert high.memory == Memory(d, n + 1, true, false);
    assert high.rows == s.rows + [Alerted(d)];
    var normal := Next(high, On(d, Normal));
    assert normal.rows == high.rows + [CloseSaved];
    AlertsOnTwo(s.rows, d);
  }

  /** A clock that leaves an exhausted day and comes back gets a fifth alert on it. */
  lemma {:induction false} DayRollbackResetsCap(d: Day, other: Day)
    requires d != NO_DAY && other != NO_DAY && d != other
    ensures RealDays(DayRollback(d, other)) && AlertsOn(Live(DayRollback(d, other)).rows, d) == ALERT_LIMIT_PER_DAY + 1
  {
    hide Incidents, Live, Next, AlertsOn;
    IncidentsAlert(d, 4);
    IncidentsReal(d, 4);
    LiveTwo(Incidents(d, 4), On(other, Learning), On(d, High));
    ComesBack(Live(Incidents(d, 4)), d, other);
  }

  lemma ComesBack(s: System, d: Day, other: Day)
    requires d != NO_DAY && other != NO_DAY && d != other && s.memory == Memory(d, 4, false, false)
    ensures AlertsOn(Next(Next(s, On(other, Learning)), On(d, High)).rows, d) == AlertsOn(s.rows, d) + 1
  {
    var away := Next(s, On(other, Learning));
    assert away.memory == Memory(other, 0, false, false) && away.rows == s.rows;
    var back := Next(away, On(d, High));
    assert back.rows == s.rows + [Alerted(d)];
    AlertsOnTwo(s.rows, d);
  }

  lemma {:induction false} IncidentsReal(d: Day, n: nat)
    requires d != NO_DAY
    ensures RealDays(Incidents(d, n))
  {
    if n > 0 { IncidentsReal(d, n - 1); }
  }
}
