/**
 The work-event ledger: rows of many interleaved operations, the per-operation lifecycle validator, and the
 tolerant partition that drops the operations the validator refuses.
 */
module WorkLedger {
  import opened Prelude

  const MAX_LATE_LAG: int := 5 * SECOND
  /** An absent lease, session or command identity. */
  const NONE: int := 0

  datatype Kind = Queued | OverrideRequested | Acquired | Reserved | Reacquired | Started
                | Completed | Failed | Cancelled | Expired | Reused

  datatype Outcome = DeadLeaseOwner | ReusedLeasePID | DeadWaiterOwner | ReusedWaiterPID | OtherOutcome

  /** What first deferred the operation, as one row reports it. */
  datatype Dimension = Undeferred | CPU | Storage | Swap | Memory

  /** A row. `commandValid` says that the command digest is a well-formed SHA-256 digest; the fields after
      `at` matter to the summary only, and their durations are in milliseconds. */
  datatype Event = Event(
    op: int, kind: Kind, workClass: int, weight: int, lease: int, command: int, commandValid: bool, session: int,
    outcome: Outcome, exitCode: Option<int>, pid: int, at: Time,
    schema: int, dimension: Dimension, workKnown: bool, workCPUKnown: bool, workCPU: real,
    wait: int, admissionWait: int, pressureWait: int, runtime: int)

  predicate Terminal(k: Kind) { k in {Completed, Failed, Cancelled, Expired, Reused} }

  /** The kinds a lifecycle may repeat. */
  predicate Repeatable(k: Kind) { k in {OverrideRequested, Reserved, Reacquired} }

  predicate Reconciliation(o: Outcome) { o != OtherOutcome }

  function Order(k: Kind): int {
    match k
    case Queued => 0
    case OverrideRequested => 1
    case Acquired => 2
    case Reserved => 3
    case Reacquired => 4
    case Started => 5
    case _ => 6
  }

  /** `late` is the real outcome of the lease that `expired` cleaned up, written within the allowed lag. */
  predicate IsLate(expired: Event, late: Event) {
    && expired.kind == Expired && expired.outcome in {DeadLeaseOwner, ReusedLeasePID}
    && late.kind in {Completed, Failed, Cancelled} && late.exitCode.Some? && late.commandValid
    && expired.op == late.op && expired.workClass == late.workClass && expired.weight == late.weight
    && expired.lease != NONE && expired.lease == late.lease && expired.pid > 0 && expired.pid == late.pid
    && 0 <= late.at - expired.at <= MAX_LATE_LAG
  }

  /** A cleanup receipt written after the real outcome. */
  predicate IsStaleCleanup(terminal: Event, e: Event) {
    e.kind == Expired && terminal.kind != Expired && Reconciliation(e.outcome)
  }

  // ----- the lifecycle of one operation -----

  datatype Lifecycle = Lifecycle(workClass: int, weight: int, lease: int, command: int, session: int,
                                 reserved: bool, lastOrder: int, seen: set<Kind>, terminal: Option<Event>)

  function Fresh(e: Event): Lifecycle { Lifecycle(e.workClass, e.weight, NONE, NONE, NONE, false, -1, {}, None) }

  predicate InOrder(l: Lifecycle, e: Event) {
    if e.kind == OverrideRequested then l.terminal.None?
    else Order(e.kind) >= l.lastOrder || (e.kind == Reserved && l.lastOrder == Order(Reacquired) && !l.reserved)
  }

  predicate SameIdentity(before: int, now: int) { now == NONE || before == NONE || before == now }

  /** The row keeps class and weight, repeats only what may repeat, and comes in order. */
  predicate StageOK(l: Lifecycle, e: Event) {
    && e.workClass == l.workClass && e.weight == l.weight
    && (e.kind in l.seen ==> Repeatable(e.kind))
    && InOrder(l, e)
  }

  /** The row keeps the lease unless it reacquires a reserved one, and reservations alternate. */
  predicate LeaseOK(l: Lifecycle, e: Event) {
    && (SameIdentity(l.lease, e.lease) || (e.kind == Reacquired && l.reserved))
    && (e.kind == Reserved ==> !l.reserved)
    && (e.kind == Reacquired ==> l.reserved)
  }

  /** The row keeps the digests, and a second terminal row is a stale cleanup or a late real outcome. */
  predicate EndOK(l: Lifecycle, e: Event) {
    && SameIdentity(l.command, e.command) && SameIdentity(l.session, e.session)
    && (Terminal(e.kind) && l.terminal.Some? ==> IsStaleCleanup(l.terminal.value, e) || IsLate(l.terminal.value, e))
  }

  predicate Acceptable(l: Lifecycle, e: Event) { StageOK(l, e) && LeaseOK(l, e) && EndOK(l, e) }

  function Latest(before: int, now: int): int { if now != NONE then now else before }

  function StageMoved(l: Lifecycle, e: Event): Lifecycle {
    l.(seen := l.seen + {e.kind}, lastOrder := if e.kind == OverrideRequested then l.lastOrder else Order(e.kind))
  }

  function LeaseMoved(l: Lifecycle, e: Event): Lifecycle {
    l.(lease := Latest(l.lease, e.lease),
       reserved := if e.kind == Reserved then true else if e.kind == Reacquired then false else l.reserved)
  }

  function EndMoved(l: Lifecycle, e: Event): Lifecycle {
    l.(command := Latest(l.command, e.command), session := Latest(l.session, e.session),
       terminal := if !Terminal(e.kind) || (l.terminal.Some? && IsStaleCleanup(l.terminal.value, e))
                   then l.terminal else Some(e))
  }

  /** The lifecycle once an acceptable row has been added. */
  function Moved(l: Lifecycle, e: Event): Lifecycle { EndMoved(LeaseMoved(StageMoved(l, e), e), e) }

  datatype Verdict = Unseen | Valid(life: Lifecycle) | Invalid

  function After(v: Verdict, e: Event): Verdict {
    match v
    case Unseen => if Acceptable(Fresh(e), e) then Valid(Moved(Fresh(e), e)) else Invalid
    case Valid(l) => if Acceptable(l, e) then Valid(Moved(l, e)) else Invalid
    case Invalid => Invalid
  }

  /** What the validator makes of the rows of one operation. */
  function Judged(own: seq<Event>): Verdict {
    if own == [] then Unseen else After(Judged(own[..|own| - 1]), own[|own| - 1])
  }

  // ----- the rows of an operation in an interleaved ledger -----

  function Own(rows: seq<Event>, op: int): seq<Event> {
    if rows == [] then []
    else Own(rows[..|rows| - 1], op) + if rows[|rows| - 1].op == op then [rows[|rows| - 1]] else []
  }

  ghost predicate Of(own: seq<Event>, op: int) { forall i :: 0 <= i < |own| ==> own[i].op == op }

  lemma {:induction false} OwnIsOf(rows: seq<Event>, op: int)
    ensures Of(Own(rows, op), op)
    ensures forall i :: 0 <= i < |Own(rows, op)| ==> Own(rows, op)[i] in rows
  {
    if rows != [] { OwnIsOf(rows[..|rows| - 1], op); }
  }

  lemma OwnStep(rows: seq<Event>, e: Event, op: int)
    ensures Own(rows + [e], op) == if e.op == op then Own(rows, op) + [e] else Own(rows, op)
  {
    assert (rows + [e])[..|rows|] == rows;
  }

  lemma JudgedStep(own: seq<Event>, e: Event)
    ensures Judged(own + [e]) == After(Judged(own), e)
  {
    assert (own + [e])[..|own|] == own;
  }

  // ----- the validator -----

  class WorkEventLifecycleValidator {
    var operations: map<int, Lifecycle>

    constructor ()
      ensures operations == map[]
    {
      operations := map[];
    }

    /** Adds a row, or refuses it; a refusal leaves the state of its own operation unspecified and that of
        every other operation as it was. */
    method Add(e: Event) returns (ok: bool)
      modifies this
      ensures var before := if e.op in old(operations) then old(operations)[e.op] else Fresh(e);
              && ok == Acceptable(before, e)
              && (ok ==> operations == old(operations)[e.op := Moved(before, e)])
      ensures e.op in operations && operations - {e.op} == old(operations) - {e.op}
    {
      hide Acceptable, Moved;
      var state := if e.op in operations then operations[e.op] else Fresh(e);
      ok, state := AddTo(state, e);
      Elsewhere(operations, e.op, state);
      operations := operations[e.op := state];
    }
  }

  /** The body of `Add` on the state it has looked up; a refused row leaves the updates made before its refusal. */
  method AddTo(before: Lifecycle, e: Event) returns (ok: bool, state: Lifecycle)
    ensures ok == Acceptable(before, e) && (ok ==> state == Moved(before, e))
  {
    hide InOrder, SameIdentity, IsStaleCleanup, IsLate, Order, Repeatable, Terminal;
    ok, state := AddStage(before, e);
    if ok { ok, state := AddLease(state, e); }
    if ok { ok, state := AddEnd(state, e); }
  }

  method AddStage(before: Lifecycle, e: Event) returns (ok: bool, state: Lifecycle)
    ensures ok == StageOK(before, e) && (ok ==> state == StageMoved(before, e))
  {
    state := before;
    if e.workClass != state.workClass || e.weight != state.weight { return false, state; }
    if e.kind in state.seen && !Repeatable(e.kind) { return false, state; }
    state := state.(seen := state.seen + {e.kind});
    if e.kind == OverrideRequested {
      if state.terminal.Some? { return false, state; }
    } else {
      var pressureCycle := e.kind == Reserved && state.lastOrder == Order(Reacquired) && !state.reserved;
      if Order(e.kind) < state.lastOrder && !pressureCycle { return false, state; }
      state := state.(lastOrder := Order(e.kind));
    }
    ok := true;
  }

  method AddLease(before: Lifecycle, e: Event) returns (ok: bool, state: Lifecycle)
    ensures ok == LeaseOK(before, e) && (ok ==> state == LeaseMoved(before, e))
  {
    state := before;
    if e.lease != NONE {
      if state.lease != NONE && state.lease != e.lease && (e.kind != Reacquired || !state.reserved) {
        return false, state;
      }
      state := state.(lease := e.lease);
    }
    if e.kind == Reserved {
      if state.reserved { return false, state; }
      state := state.(reserved := true);
    }
    if e.kind == Reacquired {
      if !state.reserved { return false, state; }
      state := state.(reserved := false);
    }
    ok := true;
  }

  method AddEnd(before: Lifecycle, e: Event) returns (ok: bool, state: Lifecycle)
    ensures ok == EndOK(before, e) && (ok ==> state == EndMoved(before, e))
  {
    hide IsLate, IsStaleCleanup, Terminal;
    state := before;
    if e.command != NONE {
      if state.command != NONE && state.command != e.command { return false, state; }
      state := state.(command := e.command);
    }
    if e.session != NONE {
      if state.session != NONE && state.session != e.session { return false, state; }
      state := state.(session := e.session);
    }
    if Terminal(e.kind) {
      if state.terminal.Some? && IsStaleCleanup(state.terminal.value, e) { return true, state; }
      if state.terminal.Some? && !IsLate(state.terminal.value, e) { return false, state; }
      state := state.(terminal := Some(e));
    }
    ok := true;
  }

  lemma Elsewhere(all: map<int, Lifecycle>, op: int, state: Lifecycle)
    ensures all[op := state] - {op} == all - {op}
  {
  }

  // ----- the partition -----

  /** The validator's entry for an operation agrees with the verdict on its own rows, as long as that is not invalid. */
  ghost predicate Tracks(operations: map<int, Lifecycle>, op: int, v: Verdict) {
    match v
    case Unseen => op !in operations
    case Valid(l) => op in operations && operations[op] == l
    case Invalid => true
  }

  ghost predicate Agrees(operations: map<int, Lifecycle>, failed: set<int>, rows: seq<Event>) {
    forall op :: (op in failed <==> Judged(Own(rows, op)).Invalid?) && Tracks(operations, op, Judged(Own(rows, op)))
  }

  lemma AgreesStep(operations: map<int, Lifecycle>, after: map<int, Lifecycle>, failed: set<int>, rows: seq<Event>,
                   e: Event, ok: bool)
    requires Agrees(operations, failed, rows) && e.op !in failed
    requires var before := if e.op in operations then operations[e.op] else Fresh(e);
             && ok == Acceptable(before, e) && (ok ==> after == operations[e.op := Moved(before, e)])
             && after - {e.op} == operations - {e.op}
    ensures Agrees(after, if ok then failed else failed + {e.op}, rows + [e])
  {
    hide Acceptable, Moved, Own, Judged;
    forall op
      ensures (op in if ok then failed else failed + {e.op}) <==> Judged(Own(rows + [e], op)).Invalid?
      ensures Tracks(after, op, Judged(Own(rows + [e], op)))
    {
      OwnStep(rows, e, op);
      if op == e.op {
        JudgedStep(Own(rows, op), e);
      } else {
        assert op in after <==> op in after - {e.op};
        assert op in operations <==> op in operations - {e.op};
        assert op in operations ==> operations[op] == (operations - {e.op})[op] == after[op];
      }
    }
  }

  lemma AgreesSkip(operations: map<int, Lifecycle>, failed: set<int>, rows: seq<Event>, e: Event)
    requires Agrees(operations, failed, rows) && e.op in failed
    ensures Agrees(operations, failed, rows + [e])
  {
    hide Own, Judged;
    forall op
      ensures op in failed <==> Judged(Own(rows + [e], op)).Invalid?
      ensures Tracks(operations, op, Judged(Own(rows + [e], op)))
    {
      OwnStep(rows, e, op);
      JudgedStep(Own(rows, op), e);
    }
  }

  function Kept(rows: seq<Event>, failed: set<int>): seq<Event> {
    if rows == [] then []
    else Kept(rows[..|rows| - 1], failed) + if rows[|rows| - 1].op in failed then [] else [rows[|rows| - 1]]
  }

  /**
   An operation fails exactly when the validator refuses its own rows alone, whatever the other operations
   recorded; and the kept rows and the skipped rows are all the rows.
   */
  method PartitionWorkEventLifecycle(rows: seq<Event>)
    returns (failed: set<int>, skippedOperations: int, skippedEvents: int)
    ensures forall op :: op in failed <==> Judged(Own(rows, op)).Invalid?
    ensures skippedOperations == |failed| && |Kept(rows, failed)| + skippedEvents == |rows|
  {
    hide Acceptable, Moved, Judged, Own;
    var validator := new WorkEventLifecycleValidator();
    failed := {};
    AgreesNone();
    for i := 0 to |rows|
      invariant Agrees(validator.operations, failed, rows[..i])
    {
      var e := rows[i];
      assert rows[..i + 1] == rows[..i] + [e];
      if e.op in failed {
        AgreesSkip(validator.operations, failed, rows[..i], e);
      } else {
        ghost var before := validator.operations;
        var ok := validator.Add(e);
        AgreesStep(before, validator.operations, failed, rows[..i], e, ok);
        if !ok { failed := failed + {e.op}; }
      }
    }
    assert rows[..|rows|] == rows;
    skippedOperations, skippedEvents := |failed|, 0;
    if |failed| == 0 {
      KeptAll(rows, failed);
      return;
    }
    for i := 0 to |rows|
      invariant |Kept(rows[..i], failed)| + skippedEvents == i
    {
      assert rows[..i + 1][..i] == rows[..i];
      if rows[i].op in failed { skippedEvents := skippedEvents + 1; }
    }
    assert rows[..|rows|] == rows;
  }

  lemma AgreesNone()
    ensures Agrees(map[], {}, [])
  {
  }

  lemma {:induction false} KeptAll(rows: seq<Event>, failed: set<int>)
    requires failed == {}
    ensures |Kept(rows, failed)| == |rows|
  {
    if rows != [] { KeptAll(rows[..|rows| - 1], failed); }
  }

  /** The whole ledger passes exactly when each operation does on its own. */
  method ValidateWorkEventLifecycle(rows: seq<Event>) returns (ok: bool)
    ensures ok <==> forall op :: !Judged(Own(rows, op)).Invalid?
  {
    hide Acceptable, Moved, Judged, Own;
    var validator := new WorkEventLifecycleValidator();
    AgreesNone();
    for i := 0 to |rows|
      invariant Agrees(validator.operations, {}, rows[..i])
    {
      var e := rows[i];
      assert rows[..i + 1] == rows[..i] + [e];
      ghost var before := validator.operations;
      ok := validator.Add(e);
      AgreesStep(before, validator.operations, {}, rows[..i], e, ok);
      if !ok {
        assert Judged(Own(rows[..i + 1], e.op)).Invalid?;
        InvalidStays(rows, i + 1, e.op);
        return;
      }
    }
    assert rows[..|rows|] == rows;
    ok := true;
  }

  lemma {:induction false} InvalidStays(rows: seq<Event>, n: nat, op: int)
    requires n <= |rows| && Judged(Own(rows[..n], op)).Invalid?
    ensures Judged(Own(rows, op)).Invalid?
    decreases |rows| - n
  {
    if n == |rows| {
      assert rows[..n] == rows;
    } else {
      assert rows[..n + 1] == rows[..n] + [rows[n]];
      OwnStep(rows[..n], rows[n], op);
      JudgedStep(Own(rows[..n], op), rows[n]);
      InvalidStays(rows, n + 1, op);
    }
  }

  /** Dropping the failed operations leaves every other operation's rows as they were, so what is kept passes. */
  lemma {:induction false} KeptPasses(rows: seq<Event>, failed: set<int>, op: int)
    requires forall o :: o in failed <==> Judged(Own(rows, o)).Invalid?
    ensures Own(Kept(rows, failed), op) == if op in failed then [] else Own(rows, op)
    ensures !Judged(Own(Kept(rows, failed), op)).Invalid?
  {
    KeptOwn(rows, failed, op);
  }

  lemma {:induction false} KeptOwn(rows: seq<Event>, failed: set<int>, op: int)
    ensures Own(Kept(rows, failed), op) == if op in failed then [] else Own(rows, op)
  {
    if rows != [] {
      var init, e := rows[..|rows| - 1], rows[|rows| - 1];
      KeptOwn(init, failed, op);
      if e.op !in failed {
        OwnStep(Kept(init, failed), e, op);
      } else {
        assert Kept(rows, failed) == Kept(init, failed);
      }
    }
  }
}
