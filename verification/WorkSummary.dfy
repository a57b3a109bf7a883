/**
 The summarising fold over the work-event ledger. Each counter it keeps is the number of operations whose own
 rows, read in order, answer one question; its conservation laws follow.
 */
module WorkSummary {
  import opened Prelude
  import opened WorkLedger
  import opened WorkLifecycle
  import opened LateTerminals

  const SCHEMA_VERSION: int := 4

  // ----- questions about the rows of one operation -----

  datatype Attribution = Unattributed | Unavailable | Active | Idle

  /** Whether coordinated work was using the CPU, as one row shows it. */
  function Classified(e: Event): Attribution {
    if !e.workKnown || !e.workCPUKnown then Unavailable else if e.workCPU > 0.0 then Active else Idle
  }

  function FirstDeferral(own: seq<Event>): Dimension {
    if own == [] then Undeferred
    else
      var before := FirstDeferral(own[..|own| - 1]);
      if before != Undeferred then before else own[|own| - 1].dimension
  }

  /** The first usable evidence of a CPU-deferred row. */
  function FirstEvidence(own: seq<Event>): Attribution {
    if own == [] then Unavailable
    else
      var before, e := FirstEvidence(own[..|own| - 1]), own[|own| - 1];
      if before == Unavailable && e.dimension == CPU then Classified(e) else before
  }

  function Attributed(own: seq<Event>): Attribution {
    if FirstDeferral(own) == CPU then FirstEvidence(own) else Unattributed
  }

  /** Row `k` is the first CPU-deferred one whose attribution and CPU reading are both available. */
  ghost predicate FirstUsable(own: seq<Event>, k: int) {
    && 0 <= k < |own| && own[k].dimension == CPU && own[k].workKnown && own[k].workCPUKnown
    && forall j :: 0 <= j < k && own[j].dimension == CPU ==> !own[j].workKnown || !own[j].workCPUKnown
  }

  /** Row `k` is the first that was deferred at all. */
  ghost predicate FirstDeferred(own: seq<Event>, k: int) {
    0 <= k < |own| && own[k].dimension != Undeferred && forall j :: 0 <= j < k ==> own[j].dimension == Undeferred
  }

  lemma {:induction false} FirstDeferralIs(own: seq<Event>, d: Dimension)
    requires d != Undeferred
    ensures FirstDeferral(own) == d <==> exists k :: FirstDeferred(own, k) && own[k].dimension == d
    ensures FirstDeferral(own) == Undeferred <==> forall k :: 0 <= k < |own| ==> own[k].dimension == Undeferred
  {
    if own != [] {
      var init, n := own[..|own| - 1], |own| - 1;
      FirstDeferralIs(init, d);
      forall k | 0 <= k < n ensures FirstDeferred(own, k) == FirstDeferred(init, k) && own[k] == init[k] {
        assert forall j :: 0 <= j <= k ==> own[j] == init[j];
      }
      if k :| FirstDeferred(init, k) && init[k].dimension == d { assert FirstDeferred(own, k); }
      assert FirstDeferral(init) == Undeferred && own[n].dimension == d ==> FirstDeferred(own, n);
    }
  }

  lemma {:induction false} FirstEvidenceIs(own: seq<Event>)
    ensures FirstEvidence(own) == Active <==> exists k :: FirstUsable(own, k) && own[k].workCPU > 0.0
    ensures FirstEvidence(own) == Idle <==> exists k :: FirstUsable(own, k) && own[k].workCPU <= 0.0
    ensures FirstEvidence(own) == Unavailable <==> forall k :: !FirstUsable(own, k)
  {
    if own != [] {
      var init, n := own[..|own| - 1], |own| - 1;
      FirstEvidenceIs(init);
      forall k | 0 <= k < n ensures FirstUsable(own, k) == FirstUsable(init, k) && own[k] == init[k] {
        assert forall j :: 0 <= j <= k ==> own[j] == init[j];
      }
      EvidenceOrNone(init);
      if FirstEvidence(init) == Unavailable {
        assert own == init + [own[n]];
        NoneUsable(init, own[n]);
      } else {
        var k :| FirstUsable(init, k);
        assert FirstUsable(own, k);
        assert !FirstUsable(own, n);
      }
    }
  }

  lemma {:induction false} EvidenceOrNone(own: seq<Event>)
    ensures FirstEvidence(own) != Unattributed
  {
    if own != [] { EvidenceOrNone(own[..|own| - 1]); }
  }

  /** Without earlier usable evidence, the last row is the first usable one if it is usable. */
  lemma NoneUsable(before: seq<Event>, e: Event)
    requires forall k :: !FirstUsable(before, k)
    ensures FirstUsable(before + [e], |before|) <==> e.dimension == CPU && e.workKnown && e.workCPUKnown
  {
    var own := before + [e];
    NoUsableRow(before, |before|);
    forall j | 0 <= j < |before| && own[j].dimension == CPU ensures !own[j].workKnown || !own[j].workCPUKnown {
      assert own[j] == before[j];
    }
  }

  lemma {:induction false} NoUsableRow(own: seq<Event>, n: nat)
    requires n <= |own| && forall k :: !FirstUsable(own, k)
    ensures forall j :: 0 <= j < n && own[j].dimension == CPU ==> !own[j].workKnown || !own[j].workCPUKnown
  {
    if n > 0 {
      NoUsableRow(own, n - 1);
      assert !FirstUsable(own, n - 1);
    }
  }

  /** An operation is attributed if and only if CPU was its first deferral, and then by the first CPU-deferred row that
      knows: active if that row saw coordinated work use the CPU, idle if it saw none, unavailable if no row knew. */
  lemma {:induction false} AttributedIs(own: seq<Event>)
    ensures var cpuFirst := exists k :: FirstDeferred(own, k) && own[k].dimension == CPU;
            && (Attributed(own) == Active <==> cpuFirst && exists k :: FirstUsable(own, k) && own[k].workCPU > 0.0)
            && (Attributed(own) == Idle <==> cpuFirst && exists k :: FirstUsable(own, k) && own[k].workCPU <= 0.0)
            && (Attributed(own) == Unavailable <==> cpuFirst && forall k :: !FirstUsable(own, k))
  {
    FirstDeferralIs(own, CPU);
    FirstEvidenceIs(own);
    hide FirstDeferral, FirstEvidence;
  }

  ghost predicate Queues(own: seq<Event>) { exists i :: 0 <= i < |own| && own[i].kind == Queued }
  ghost predicate QueuesDeferred(own: seq<Event>) {
    exists i :: 0 <= i < |own| && own[i].kind == Queued && own[i].dimension != Undeferred
  }
  ghost predicate Expires(own: seq<Event>) { exists i :: 0 <= i < |own| && own[i].kind == Expired }

  /** The wait of the latest acquisition. */
  function LeaseWait(own: seq<Event>): int {
    if own == [] then 0
    else if own[|own| - 1].kind in {Acquired, Reacquired} then own[|own| - 1].wait else LeaseWait(own[..|own| - 1])
  }

  /** The wait a row reports, or the one its lease had. */
  function WaitAt(before: seq<Event>, e: Event): int { if e.wait == 0 then LeaseWait(before) else e.wait }

  function StartWait(own: seq<Event>): Option<int> {
    if own == [] then None
    else
      var init, e := own[..|own| - 1], own[|own| - 1];
      if e.kind == Started then Some(WaitAt(init, e)) else StartWait(init)
  }

  datatype Sample = NoSample | Boundary | Legacy | BadSplit | Eligible

  /** Runs that ended with an outcome of their own. */
  predicate Runs(k: Kind) { k in {Completed, Failed, Cancelled} }

  /** How a terminal row's runtime enters the pressure-conditioned view. */
  ghost function SampleAt(before: seq<Event>, e: Event): Sample {
    var wait := if StartWait(before).Some? then StartWait(before).value else WaitAt(before, e);
    var excluded := e.pressureWait + if QueuesDeferred(before) then e.admissionWait else 0;
    if !(e.kind == Completed || e.kind == Failed || e.kind == Cancelled) || e.runtime <= 0 then NoSample
    else if !Queues(before) then Boundary
    else if e.schema < 4 then Legacy
    else if excluded < 0 || excluded > wait then BadSplit
    else Eligible
  }

  /** Only the first terminal row is sampled. */
  ghost function Sampled(own: seq<Event>): Sample {
    if own == [] then NoSample
    else
      var init, e := own[..|own| - 1], own[|own| - 1];
      if FirstTerminal(init).Some? then Sampled(init) else SampleAt(init, e)
  }

  datatype Query =
    | OpenedIn(workClass: int)
    | EndedAs(kind: Kind, workClass: int)
    | EndedIn(workClass: int)
    | StillOpen
    | DeferredBy(dimension: Dimension)
    | AttributedTo(attribution: Attribution)
    | SampledAs(sample: Sample)
    | SampledIn(workClass: int)
    | AnySample
    | HasExpired

  ghost predicate Holds(q: Query, own: seq<Event>) {
    own != [] &&
    var end := FirstTerminal(own);
    match q
    case OpenedIn(c) => own[0].workClass == c
    case EndedAs(k, c) => end.Some? && end.value.kind == k && end.value.workClass == c
    case EndedIn(c) => end.Some? && end.value.workClass == c
    case StillOpen => end.None?
    case DeferredBy(d) => FirstDeferral(own) == d
    case AttributedTo(a) => Attributed(own) == a
    case SampledAs(s) => Sampled(own) == s
    case SampledIn(c) => Sampled(own) != NoSample && end.Some? && end.value.workClass == c
    case AnySample => Sampled(own) != NoSample
    case HasExpired => Expires(own)
  }

  // ----- counting operations -----

  function Operations(rows: seq<Event>): set<int> {
    if rows == [] then {} else Operations(rows[..|rows| - 1]) + {rows[|rows| - 1].op}
  }

  ghost function Matching(rows: seq<Event>, q: Query): set<int> {
    set op | op in Operations(rows) && Holds(q, Own(rows, op))
  }

  ghost function Count(rows: seq<Event>, q: Query): int { |Matching(rows, q)| }

  function Bit(b: bool): int { if b then 1 else 0 }

  lemma OperationsStep(rows: seq<Event>, e: Event)
    ensures Operations(rows + [e]) == Operations(rows) + {e.op}
  {
    assert (rows + [e])[..|rows|] == rows;
  }

  lemma {:induction false} OperationsOwn(rows: seq<Event>, op: int)
    ensures op in Operations(rows) <==> Own(rows, op) != []
  {
    if rows != [] { OperationsOwn(rows[..|rows| - 1], op); }
  }

  lemma SizeStep(before: set<int>, after: set<int>, x: int)
    requires forall y :: y != x ==> (y in after <==> y in before)
    ensures |after| == |before| + Bit(x in after) - Bit(x in before)
  {
    assert after - {x} == before - {x} by {
      forall y ensures y in after - {x} <==> y in before - {x} { if y != x { assert y in after <==> y in before; } }
    }
    SizeWithout(after, x);
    SizeWithout(before, x);
  }

  lemma SizeWithout(s: set<int>, x: int)
    ensures |s| == |s - {x}| + Bit(x in s)
  {
    if x in s { assert s == (s - {x}) + {x}; } else { assert s == s - {x}; }
  }

  lemma MatchingIs(rows: seq<Event>, q: Query, op: int)
    ensures op in Matching(rows, q) <==> Holds(q, Own(rows, op))
  {
    hide Holds, Own, Operations;
    OperationsOwn(rows, op);
    NothingHolds(q);
  }

  lemma CountStep(rows: seq<Event>, e: Event, q: Query)
    ensures Count(rows + [e], q)
            == Count(rows, q) + Bit(Holds(q, Own(rows, e.op) + [e])) - Bit(Holds(q, Own(rows, e.op)))
  {
    hide Holds, Own, Operations, Matching;
    var before, after := Matching(rows, q), Matching(rows + [e], q);
    forall op ensures op != e.op ==> (op in after <==> op in before) {
      OwnStep(rows, e, op);
      MatchingIs(rows, q, op);
      MatchingIs(rows + [e], q, op);
    }
    OwnStep(rows, e, e.op);
    MatchingIs(rows, q, e.op);
    MatchingIs(rows + [e], q, e.op);
    SizeStep(before, after, e.op);
  }

  lemma NothingHolds(q: Query)
    ensures !Holds(q, [])
  {
  }

  // ----- the state the fold keeps for an operation -----

  datatype OperationState = OperationState(
    terminal: bool, deferred: bool, attribution: Attribution, leaseWait: int, waitRecorded: bool, wait: int,
    queued: bool, initialPressure: bool, expiredSeen: bool)
  const UNKNOWN := OperationState(false, false, Unattributed, 0, false, 0, false, false, false)

  function RowWait(st: OperationState, e: Event): int { if e.wait == 0 then st.leaseWait else e.wait }

  /** The row records a wait: every start, and the first terminal row of an operation that never started. */
  predicate RecordsWait(st: OperationState, e: Event) {
    e.kind == Started || (!st.terminal && !st.waitRecorded && (Runs(e.kind) || e.kind == Expired))
  }

  function AttributionStep(st: OperationState, e: Event): Attribution {
    if e.dimension == CPU && (!st.deferred || st.attribution == Unavailable) then Classified(e) else st.attribution
  }

  function StateStep(st: OperationState, e: Event): OperationState {
    OperationState(
      st.terminal || Terminal(e.kind),
      st.deferred || e.dimension != Undeferred,
      AttributionStep(st, e),
      if e.kind in {Acquired, Reacquired} then e.wait else st.leaseWait,
      st.waitRecorded || RecordsWait(st, e),
      if RecordsWait(st, e) then RowWait(st, e) else st.wait,
      st.queued || e.kind == Queued,
      st.initialPressure || (e.kind == Queued && e.dimension != Undeferred),
      st.expiredSeen || e.kind == Expired)
  }

  function StateOf(own: seq<Event>): OperationState {
    if own == [] then UNKNOWN else StateStep(StateOf(own[..|own| - 1]), own[|own| - 1])
  }

  function SampleOf(st: OperationState, e: Event): Sample {
    var wait := if st.waitRecorded then st.wait else RowWait(st, e);
    var excluded := e.pressureWait + if st.initialPressure then e.admissionWait else 0;
    if st.terminal || !Runs(e.kind) || e.runtime <= 0 then NoSample
    else if !st.queued then Boundary
    else if e.schema < SCHEMA_VERSION then Legacy
    else if excluded < 0 || excluded > wait then BadSplit
    else Eligible
  }

  // ----- the state answers the questions -----

  lemma StateOfStep(own: seq<Event>, e: Event)
    ensures StateOf(own + [e]) == StateStep(StateOf(own), e)
  {
    assert (own + [e])[..|own|] == own;
  }

  lemma {:induction false} StateFlags(own: seq<Event>)
    ensures var st := StateOf(own);
            && (st.terminal <==> FirstTerminal(own).Some?)
            && (st.queued <==> Queues(own)) && (st.initialPressure <==> QueuesDeferred(own))
            && (st.expiredSeen <==> Expires(own))
  {
    if own != [] {
      var init, e := own[..|own| - 1], own[|own| - 1];
      StateFlags(init);
      assert own == init + [e];
      hide StateOf, Terminals, AttributionStep, RecordsWait, RowWait, Terminal, Queues, QueuesDeferred, Expires;
      TerminalsStep(init, e);
      StateOfStep(init, e);
      FlagsStep(init, e);
    }
  }

  lemma FlagsStep(own: seq<Event>, e: Event)
    ensures Queues(own + [e]) <==> Queues(own) || e.kind == Queued
    ensures QueuesDeferred(own + [e]) <==> QueuesDeferred(own) || (e.kind == Queued && e.dimension != Undeferred)
    ensures Expires(own + [e]) <==> Expires(own) || e.kind == Expired
  {
    var all := own + [e];
    assert all[|own|] == e;
    assert forall i :: 0 <= i < |own| ==> all[i] == own[i];
    assert forall i :: 0 <= i < |own| ==> own[i] == all[i];
  }

  lemma {:induction false} StateDeferral(own: seq<Event>)
    ensures var st := StateOf(own);
            && (st.deferred <==> FirstDeferral(own) != Undeferred) && st.attribution == Attributed(own)
            && (FirstDeferral(own) == Undeferred ==> FirstEvidence(own) == Unavailable)
  {
    if own != [] { StateDeferral(own[..|own| - 1]); }
  }

  /** Until the first terminal row, the wait recorded is that of the latest start. */
  lemma {:induction false} StateWaits(own: seq<Event>)
    ensures var st := StateOf(own);
            && st.leaseWait == LeaseWait(own)
            && (Terminals(own) == [] ==>
                  && (st.waitRecorded <==> StartWait(own).Some?)
                  && (StartWait(own).Some? ==> st.wait == StartWait(own).value))
  {
    if own != [] {
      StateFlags(own);
      StateWaits(own[..|own| - 1]);
    }
  }

  lemma SampleIs(own: seq<Event>, e: Event)
    ensures SampleOf(StateOf(own), e) == if FirstTerminal(own).Some? then NoSample else SampleAt(own, e)
  {
    StateFlags(own);
    StateWaits(own);
    hide StateOf, StartWait, LeaseWait, Queues, QueuesDeferred, Terminals;
  }

  // ----- how one row changes an answer -----

  lemma FirstTerminalStep(own: seq<Event>, e: Event)
    ensures FirstTerminal(own + [e])
            == if FirstTerminal(own).Some? then FirstTerminal(own) else if Terminal(e.kind) then Some(e) else None
  {
    TerminalsStep(own, e);
  }

  lemma OpenedDelta(own: seq<Event>, e: Event, c: int)
    ensures Bit(Holds(OpenedIn(c), own + [e])) - Bit(Holds(OpenedIn(c), own)) == Bit(own == [] && e.workClass == c)
  {
    if own != [] { assert (own + [e])[0] == own[0]; }
  }

  lemma EndedDelta(own: seq<Event>, e: Event, k: Kind, c: int)
    requires Terminal(k)
    ensures Bit(Holds(EndedAs(k, c), own + [e])) - Bit(Holds(EndedAs(k, c), own))
            == Bit(!StateOf(own).terminal && e.kind == k && e.workClass == c)
  {
    StateFlags(own);
    FirstTerminalStep(own, e);
    hide StateOf, FirstTerminal;
    assert FirstTerminal([]) == None by { NoTerminal(); }
  }

  lemma NoTerminal()
    ensures FirstTerminal([]) == None
  {
  }

  lemma SampledStep(own: seq<Event>, e: Event)
    ensures Sampled(own + [e])
            == if SampleOf(StateOf(own), e) != NoSample then SampleOf(StateOf(own), e) else Sampled(own)
    ensures SampleOf(StateOf(own), e) != NoSample ==>
              Sampled(own) == NoSample && FirstTerminal(own) == None && Terminal(e.kind)
  {
    assert (own + [e])[..|own|] == own;
    SampleIs(own, e);
    StillUnsampled(own);
    hide StateOf, SampleAt, FirstTerminal;
  }

  lemma {:induction false} StillUnsampled(own: seq<Event>)
    ensures FirstTerminal(own) == None ==> Sampled(own) == NoSample
  {
    if own != [] {
      var init, e := own[..|own| - 1], own[|own| - 1];
      StillUnsampled(init);
      assert own == init + [e];
      FirstTerminalStep(init, e);
    }
  }

  lemma SampledDelta(own: seq<Event>, e: Event, s: Sample)
    requires s != NoSample
    ensures Bit(Holds(SampledAs(s), own + [e])) - Bit(Holds(SampledAs(s), own)) == Bit(SampleOf(StateOf(own), e) == s)
    ensures Bit(Holds(AnySample, own + [e])) - Bit(Holds(AnySample, own)) == Bit(SampleOf(StateOf(own), e) != NoSample)
  {
    SampledStep(own, e);
    assert Sampled([]) == NoSample;
    hide StateOf, Sampled, SampleOf;
  }

  lemma SampledInDelta(own: seq<Event>, e: Event, c: int)
    ensures Bit(Holds(SampledIn(c), own + [e])) - Bit(Holds(SampledIn(c), own))
            == Bit(SampleOf(StateOf(own), e) != NoSample && e.workClass == c)
  {
    assert Sampled([]) == NoSample;
    hide StateOf, Sampled, SampleOf, FirstTerminal, Terminal;
    SampledStep(own, e);
    SampledEnded(own);
    FirstTerminalStep(own, e);
    var before, after := FirstTerminal(own), FirstTerminal(own + [e]);
    assert Holds(SampledIn(c), own) <==> Sampled(own) != NoSample && before.Some? && before.value.workClass == c;
    assert Holds(SampledIn(c), own + [e])
        <==> Sampled(own + [e]) != NoSample && after.Some? && after.value.workClass == c;
    hide Holds;
  }

  lemma SampledEnded(own: seq<Event>)
    ensures Sampled(own) != NoSample ==> FirstTerminal(own).Some?
  {
    StillUnsampled(own);
  }

  lemma DeferredDelta(own: seq<Event>, e: Event, d: Dimension)
    requires d != Undeferred
    ensures Bit(Holds(DeferredBy(d), own + [e])) - Bit(Holds(DeferredBy(d), own))
            == Bit(!StateOf(own).deferred && e.dimension == d)
  {
    StateDeferral(own);
    assert (own + [e])[..|own|] == own;
  }

  lemma AttributedDelta(own: seq<Event>, e: Event, a: Attribution)
    requires a != Unattributed
    ensures Bit(Holds(AttributedTo(a), own + [e])) - Bit(Holds(AttributedTo(a), own))
            == Bit(AttributionStep(StateOf(own), e) == a) - Bit(StateOf(own).attribution == a)
  {
    StateDeferral(own);
    StateDeferral(own + [e]);
    StateOfStep(own, e);
    hide StateOf, FirstDeferral, FirstEvidence, AttributionStep;
    assert Attributed([]) == Unattributed by { NoDeferral(); }
  }

  lemma NoDeferral()
    ensures FirstDeferral([]) == Undeferred
  {
  }

  lemma ExpiredDelta(own: seq<Event>, e: Event)
    ensures Bit(Holds(HasExpired, own + [e])) - Bit(Holds(HasExpired, own))
            == Bit(!StateOf(own).expiredSeen && e.kind == Expired)
  {
    StateFlags(own);
    FlagsStep(own, e);
    hide StateOf, Expires;
    assert !Expires([]) by { NoneExpire(); }
  }

  lemma NoneExpire()
    ensures !Expires([])
  {
  }

  // ----- the counters -----

  datatype ClassStats = ClassStats(operations: int, acquired: int, completed: int, failed: int, cancelled: int,
                                   expired: int, reused: int, samples: int)
  const NO_STATS := ClassStats(0, 0, 0, 0, 0, 0, 0, 0)

  datatype Signals = Signals(cpuOnly: int, active: int, idle: int, unavailable: int,
                             storage: int, swap: int, memory: int, expiredOwners: int)

  /** The pressure-conditioned view. */
  datatype Conditioned = Conditioned(terminalRuntime: int, boundary: int, legacy: int, badSplit: int, eligible: int)

  function ClassStep(s: ClassStats, known: bool, st: OperationState, e: Event): ClassStats {
    var a := if known then s else s.(operations := s.operations + 1);
    var b := a.(samples := a.samples + Bit(SampleOf(st, e) != NoSample));
    if e.kind == Acquired then b.(acquired := b.acquired + 1)
    else if st.terminal then b
    else match e.kind
         case Completed => b.(completed := b.completed + 1)
         case Failed => b.(failed := b.failed + 1)
         case Cancelled => b.(cancelled := b.cancelled + 1)
         case Expired => b.(expired := b.expired + 1)
         case Reused => b.(reused := b.reused + 1)
         case _ => b
  }

  function AddAttribution(g: Signals, a: Attribution, delta: int): Signals {
    match a
    case Active => g.(active := g.active + delta)
    case Idle => g.(idle := g.idle + delta)
    case _ => g.(unavailable := g.unavailable + delta)
  }

  function DeferralStep(g: Signals, st: OperationState, e: Event): Signals {
    if !st.deferred then
      match e.dimension
      case CPU => AddAttribution(g.(cpuOnly := g.cpuOnly + 1), Classified(e), 1)
      case Storage => g.(storage := g.storage + 1)
      case Swap => g.(swap := g.swap + 1)
      case Memory => g.(memory := g.memory + 1)
      case Undeferred => g
    else if e.dimension == CPU && st.attribution == Unavailable && Classified(e) != Unavailable then
      AddAttribution(AddAttribution(g, st.attribution, -1), Classified(e), 1)
    else g
  }

  function SignalStep(g: Signals, st: OperationState, e: Event): Signals {
    var d := DeferralStep(g, st, e);
    if e.kind == Expired && !st.expiredSeen then d.(expiredOwners := d.expiredOwners + 1) else d
  }

  function ConditionedStep(c: Conditioned, s: Sample): Conditioned {
    match s
    case NoSample => c
    case Boundary => c.(terminalRuntime := c.terminalRuntime + 1, boundary := c.boundary + 1)
    case Legacy => c.(terminalRuntime := c.terminalRuntime + 1, legacy := c.legacy + 1)
    case BadSplit => c.(terminalRuntime := c.terminalRuntime + 1, badSplit := c.badSplit + 1)
    case Eligible => c.(terminalRuntime := c.terminalRuntime + 1, eligible := c.eligible + 1)
  }

  // ----- what the counters mean -----

  function AcquiredRows(rows: seq<Event>, c: int): int {
    if rows == [] then 0
    else AcquiredRows(rows[..|rows| - 1], c) + Bit(rows[|rows| - 1].kind == Acquired && rows[|rows| - 1].workClass == c)
  }

  ghost function StatsOf(rows: seq<Event>, c: int): ClassStats {
    ClassStats(Count(rows, OpenedIn(c)), AcquiredRows(rows, c), Count(rows, EndedAs(Completed, c)),
               Count(rows, EndedAs(Failed, c)), Count(rows, EndedAs(Cancelled, c)), Count(rows, EndedAs(Expired, c)),
               Count(rows, EndedAs(Reused, c)), Count(rows, SampledIn(c)))
  }

  ghost function SignalsOf(rows: seq<Event>, recoveries: int): Signals {
    Signals(Count(rows, DeferredBy(CPU)), Count(rows, AttributedTo(Active)), Count(rows, AttributedTo(Idle)),
            Count(rows, AttributedTo(Unavailable)), Count(rows, DeferredBy(Storage)), Count(rows, DeferredBy(Swap)),
            Count(rows, DeferredBy(Memory)), recoveries + Count(rows, HasExpired))
  }

  ghost function ConditionedOf(rows: seq<Event>): Conditioned {
    Conditioned(Count(rows, AnySample), Count(rows, SampledAs(Boundary)), Count(rows, SampledAs(Legacy)),
                Count(rows, SampledAs(BadSplit)), Count(rows, SampledAs(Eligible)))
  }

  // ----- a step of the counters is a step of their meaning -----

  lemma OperationsCountStep(rows: seq<Event>, e: Event, c: int)
    ensures Count(rows + [e], OpenedIn(c))
            == Count(rows, OpenedIn(c)) + Bit(e.op !in Operations(rows) && e.workClass == c)
  {
    hide Count, Holds, Own, Operations;
    OperationsOwn(rows, e.op);
    CountStep(rows, e, OpenedIn(c));
    OpenedDelta(Own(rows, e.op), e, c);
  }

  lemma EndedCountStep(rows: seq<Event>, e: Event, k: Kind, c: int)
    requires Terminal(k)
    ensures Count(rows + [e], EndedAs(k, c))
            == Count(rows, EndedAs(k, c)) + Bit(!StateOf(Own(rows, e.op)).terminal && e.kind == k && e.workClass == c)
  {
    hide Count, Holds, Own, StateOf;
    CountStep(rows, e, EndedAs(k, c));
    EndedDelta(Own(rows, e.op), e, k, c);
  }

  lemma SampledInCountStep(rows: seq<Event>, e: Event, c: int)
    ensures Count(rows + [e], SampledIn(c))
            == Count(rows, SampledIn(c)) + Bit(SampleOf(StateOf(Own(rows, e.op)), e) != NoSample && e.workClass == c)
  {
    hide Count, Holds, Own, StateOf;
    CountStep(rows, e, SampledIn(c));
    SampledInDelta(Own(rows, e.op), e, c);
  }

  lemma StatsStep(rows: seq<Event>, e: Event, c: int)
    ensures var known, st := e.op in Operations(rows), StateOf(Own(rows, e.op));
            StatsOf(rows + [e], c)
            == if e.workClass == c then ClassStep(StatsOf(rows, c), known, st, e) else StatsOf(rows, c)
  {
    hide Count, Own, StateOf, SampleOf, Operations;
    assert (rows + [e])[..|rows|] == rows;
    OperationsCountStep(rows, e, c);
    SampledInCountStep(rows, e, c);
    EndedCountStep(rows, e, Completed, c);
    EndedCountStep(rows, e, Failed, c);
    EndedCountStep(rows, e, Cancelled, c);
    EndedCountStep(rows, e, Expired, c);
    EndedCountStep(rows, e, Reused, c);
  }

  lemma DeferredCountStep(rows: seq<Event>, e: Event, d: Dimension)
    requires d != Undeferred
    ensures Count(rows + [e], DeferredBy(d))
            == Count(rows, DeferredBy(d)) + Bit(!StateOf(Own(rows, e.op)).deferred && e.dimension == d)
  {
    hide Count, Holds, Own, StateOf;
    CountStep(rows, e, DeferredBy(d));
    DeferredDelta(Own(rows, e.op), e, d);
  }

  lemma AttributedCountStep(rows: seq<Event>, e: Event, a: Attribution)
    requires a != Unattributed
    ensures var st := StateOf(Own(rows, e.op));
            Count(rows + [e], AttributedTo(a))
            == Count(rows, AttributedTo(a)) + Bit(AttributionStep(st, e) == a) - Bit(st.attribution == a)
  {
    hide Count, Holds, Own, StateOf;
    CountStep(rows, e, AttributedTo(a));
    AttributedDelta(Own(rows, e.op), e, a);
  }

  lemma ExpiredCountStep(rows: seq<Event>, e: Event)
    ensures Count(rows + [e], HasExpired)
            == Count(rows, HasExpired) + Bit(!StateOf(Own(rows, e.op)).expiredSeen && e.kind == Expired)
  {
    hide Count, Holds, Own, StateOf;
    CountStep(rows, e, HasExpired);
    ExpiredDelta(Own(rows, e.op), e);
  }

  /** An operation that is not deferred yet has no attribution. */
  lemma Undetermined(own: seq<Event>)
    ensures !StateOf(own).deferred ==> StateOf(own).attribution == Unattributed
  {
    StateDeferral(own);
  }

  lemma SignalsStep(rows: seq<Event>, e: Event, recoveries: int)
    ensures SignalsOf(rows + [e], recoveries) == SignalStep(SignalsOf(rows, recoveries), StateOf(Own(rows, e.op)), e)
  {
    hide Count, Own, StateOf, Classified;
    Undetermined(Own(rows, e.op));
    DeferredCountStep(rows, e, CPU);
    DeferredCountStep(rows, e, Storage);
    DeferredCountStep(rows, e, Swap);
    DeferredCountStep(rows, e, Memory);
    AttributedCountStep(rows, e, Active);
    AttributedCountStep(rows, e, Idle);
    AttributedCountStep(rows, e, Unavailable);
    ExpiredCountStep(rows, e);
    assert Classified(e) != Unattributed by { ClassifiedIs(e); }
  }

  lemma ClassifiedIs(e: Event)
    ensures Classified(e) != Unattributed
  {
  }

  lemma SampledCountStep(rows: seq<Event>, e: Event, s: Sample)
    requires s != NoSample
    ensures Count(rows + [e], SampledAs(s))
            == Count(rows, SampledAs(s)) + Bit(SampleOf(StateOf(Own(rows, e.op)), e) == s)
    ensures Count(rows + [e], AnySample)
            == Count(rows, AnySample) + Bit(SampleOf(StateOf(Own(rows, e.op)), e) != NoSample)
  {
    hide Count, Holds, Own, StateOf, SampleOf;
    CountStep(rows, e, SampledAs(s));
    CountStep(rows, e, AnySample);
    SampledDelta(Own(rows, e.op), e, s);
  }

  lemma ConditionedOfStep(rows: seq<Event>, e: Event)
    ensures ConditionedOf(rows + [e]) == ConditionedStep(ConditionedOf(rows), SampleOf(StateOf(Own(rows, e.op)), e))
  {
    hide Count, Own, StateOf, SampleOf;
    SampledCountStep(rows, e, Boundary);
    SampledCountStep(rows, e, Legacy);
    SampledCountStep(rows, e, BadSplit);
    SampledCountStep(rows, e, Eligible);
  }

  // ----- the fold -----

  datatype WorkStats = WorkStats(eventCount: int, operationCount: int, open: int, byClass: seq<(int, ClassStats)>,
                                 signals: Signals, conditioned: Conditioned)

  ghost predicate Distinct(classes: seq<int>) { forall i, j :: 0 <= i < j < |classes| ==> classes[i] != classes[j] }

  /** The classes that report: the known ones in which some operation opened. */
  ghost function Shown(classes: seq<int>, rows: seq<Event>): seq<int> {
    if classes == [] then []
    else
      var c := classes[|classes| - 1];
      Shown(classes[..|classes| - 1], rows) + if Count(rows, OpenedIn(c)) == 0 then [] else [c]
  }

  ghost function Reports(shown: seq<int>, rows: seq<Event>): seq<(int, ClassStats)> {
    if shown == [] then []
    else Reports(shown[..|shown| - 1], rows) + [(shown[|shown| - 1], StatsOf(rows, shown[|shown| - 1]))]
  }

  /** Each counter is the number of operations of the normalised ledger that answer its question. */
  ghost function SummaryOf(events: seq<Event>, classes: seq<int>): WorkStats {
    var rows := Normalized(events);
    WorkStats(|events|, |Operations(rows)|, Count(rows, StillOpen), Reports(Shown(classes, rows), rows),
              SignalsOf(rows, |Recovered(events)|), ConditionedOf(rows))
  }

  function Found(operations: map<int, OperationState>, op: int): OperationState {
    if op in operations then operations[op] else UNKNOWN
  }

  ghost predicate StatesFollow(operations: map<int, OperationState>, rows: seq<Event>) {
    && operations.Keys == Operations(rows)
    && forall op :: Found(operations, op) == StateOf(Own(rows, op))
  }

  ghost predicate ClassesFollow(byClass: map<int, ClassStats>, classes: seq<int>, rows: seq<Event>) {
    forall c :: c in classes ==> c in byClass && byClass[c] == StatsOf(rows, c)
  }

  lemma StatesStep(operations: map<int, OperationState>, rows: seq<Event>, e: Event)
    requires StatesFollow(operations, rows)
    ensures StatesFollow(operations[e.op := StateStep(Found(operations, e.op), e)], rows + [e])
  {
    hide StateOf, Own, Operations, StateStep;
    OperationsStep(rows, e);
    var after := operations[e.op := StateStep(Found(operations, e.op), e)];
    forall op ensures Found(after, op) == StateOf(Own(rows + [e], op)) {
      OwnStep(rows, e, op);
      if op == e.op { StateOfStep(Own(rows, op), e); } else { assert Found(after, op) == Found(operations, op); }
    }
  }

  lemma ClassesStep(byClass: map<int, ClassStats>, classes: seq<int>, rows: seq<Event>, e: Event, known: bool,
                    st: OperationState, s: ClassStats)
    requires ClassesFollow(byClass, classes, rows) && known == (e.op in Operations(rows))
    requires st == StateOf(Own(rows, e.op))
    requires e.workClass in byClass ==> s == ClassStep(byClass[e.workClass], known, st, e)
    ensures ClassesFollow(byClass[e.workClass := s], classes, rows + [e])
  {
    hide StatsOf, StateOf, Own, Operations, ClassStep;
    forall c | c in classes ensures byClass[e.workClass := s][c] == StatsOf(rows + [e], c) { StatsStep(rows, e, c); }
  }

  method SummarizeWorkEvents(events: seq<Event>, classes: seq<int>) returns (r: WorkStats)
    ensures r == SummaryOf(events, classes)
  {
    hide *;
    var rows, recoveries := NormalizeLateReconciliationTerminals(events);
    var byClass := map c | c in classes :: NO_STATS;
    var operations: map<int, OperationState> := map[];
    var signals := Signals(0, 0, 0, 0, 0, 0, 0, recoveries);
    var conditioned := Conditioned(0, 0, 0, 0, 0);
    NothingCounted(rows, classes, recoveries);
    for i := 0 to |rows|
      invariant StatesFollow(operations, rows[..i])
      invariant ClassesFollow(byClass, classes, rows[..i])
      invariant signals == SignalsOf(rows[..i], recoveries) && conditioned == ConditionedOf(rows[..i])
    {
      var e, before := rows[i], rows[..i];
      assert rows[..i + 1] == before + [e];
      var known, state := e.op in operations, Found(operations, e.op);
      StateFollows(operations, before, e.op);
      // an operation that opens in a class nobody listed is not counted in it
      var listed := e.workClass in byClass;
      var stats := ClassStep(if listed then byClass[e.workClass] else NO_STATS, known || !listed, state, e);
      ClassesStep(byClass, classes, before, e, known, state, stats);
      byClass := byClass[e.workClass := stats];
      SignalsStep(before, e, recoveries);
      signals := SignalStep(signals, state, e);
      ConditionedOfStep(before, e);
      conditioned := ConditionedStep(conditioned, SampleOf(state, e));
      StatesStep(operations, before, e);
      operations := operations[e.op := StateStep(state, e)];
    }
    assert rows[..|rows|] == rows;
    var open := |set op | op in operations && !operations[op].terminal|;
    OpenIs(operations, rows);
    var reports := Report(byClass, classes, rows);
    r := WorkStats(|events|, |operations|, open, reports, signals, conditioned);
    SummaryIs(events, classes, operations, r);
  }

  lemma SummaryIs(events: seq<Event>, classes: seq<int>, operations: map<int, OperationState>, r: WorkStats)
    requires var rows := Normalized(events);
             && StatesFollow(operations, rows)
             && r == WorkStats(|events|, |operations|, Count(rows, StillOpen), Reports(Shown(classes, rows), rows),
                               SignalsOf(rows, |Recovered(events)|), ConditionedOf(rows))
    ensures r == SummaryOf(events, classes)
  {
    hide Count, Reports, Shown, SignalsOf, ConditionedOf, Operations, Normalized, Recovered, Own, StateOf;
    assert |operations| == |operations.Keys|;
  }

  lemma StateFollows(operations: map<int, OperationState>, rows: seq<Event>, op: int)
    requires StatesFollow(operations, rows)
    ensures (op in operations <==> op in Operations(rows)) && Found(operations, op) == StateOf(Own(rows, op))
  {
    hide Found, StateOf, Own, Operations;
  }

  lemma CountNone(q: Query)
    ensures Count([], q) == 0
  {
  }

  lemma NothingCounted(rows: seq<Event>, classes: seq<int>, recoveries: int)
    ensures StatesFollow(map[], rows[..0]) && ClassesFollow(map c | c in classes :: NO_STATS, classes, rows[..0])
    ensures SignalsOf(rows[..0], recoveries) == Signals(0, 0, 0, 0, 0, 0, 0, recoveries)
    ensures ConditionedOf(rows[..0]) == Conditioned(0, 0, 0, 0, 0)
  {
    assert rows[..0] == [];
    forall q ensures Count([], q) == 0 { CountNone(q); }
    hide Count;
  }

  lemma OpenIs(operations: map<int, OperationState>, rows: seq<Event>)
    requires StatesFollow(operations, rows)
    ensures |set op | op in operations && !operations[op].terminal| == Count(rows, StillOpen)
  {
    hide StateOf, Own, Operations, FirstTerminal;
    var found := set op | op in operations && !operations[op].terminal;
    forall op ensures op in found <==> op in Matching(rows, StillOpen) {
      StateFlags(Own(rows, op));
      assert Found(operations, op) == StateOf(Own(rows, op));
      OperationsOwn(rows, op);
    }
    assert found == Matching(rows, StillOpen);
  }

  /** The list of class reports, in the order the classes are listed. */
  method Report(byClass: map<int, ClassStats>, classes: seq<int>, ghost rows: seq<Event>)
    returns (reports: seq<(int, ClassStats)>)
    requires ClassesFollow(byClass, classes, rows)
    ensures reports == Reports(Shown(classes, rows), rows)
  {
    hide Count, StatsOf, ClassesFollow, Shown, Reports;
    reports := [];
    ReportNone(classes, rows);
    for i := 0 to |classes|
      invariant reports == Reports(Shown(classes[..i], rows), rows)
    {
      var c := classes[i];
      ReportStep(byClass, classes, rows, i);
      if byClass[c].operations > 0 {
        reports := reports + [(c, byClass[c])];
      }
    }
    assert classes[..|classes|] == classes;
  }

  lemma ReportNone(classes: seq<int>, rows: seq<Event>)
    ensures Reports(Shown(classes[..0], rows), rows) == []
  {
  }

  lemma ReportStep(byClass: map<int, ClassStats>, classes: seq<int>, rows: seq<Event>, i: nat)
    requires i < |classes| && ClassesFollow(byClass, classes, rows)
    ensures classes[i] in byClass
    ensures var c, before := classes[i], Reports(Shown(classes[..i], rows), rows);
            Reports(Shown(classes[..i + 1], rows), rows)
            == if byClass[c].operations > 0 then before + [(c, byClass[c])] else before
  {
    var c, shown := classes[i], Shown(classes[..i], rows);
    assert classes[..i + 1][..i] == classes[..i];
    assert c in byClass && byClass[c] == StatsOf(rows, c);
    assert (shown + [c])[..|shown|] == shown;
    assert shown + [] == shown;
    hide StatsOf;
    assert StatsOf(rows, c).operations == Count(rows, OpenedIn(c)) by { OperationsField(rows, c); }
  }

  lemma OperationsField(rows: seq<Event>, c: int)
    ensures StatsOf(rows, c).operations == Count(rows, OpenedIn(c)) >= 0
  {
  }
}
