/**
 Batch singleflight and receipt reuse as a protocol: any number of processes fingerprint their inputs, lock
 the fingerprint, fingerprint again, reuse a receipt or run, fingerprint once more and publish, while anyone
 may edit the inputs, the clock moves, receipts are pruned and processes die.
 */
module Singleflight {
  import opened Prelude

  const RETRIES := 3

  /** A key digest; digests are injective, so a key is the manifest and the state of its declared inputs. */
  datatype Key = Key(manifest: int, inputs: int)

  /** Where a process is in `RunWorkBatch`; from `Locked` to `Checked` it holds the lock of its key. */
  datatype PC =
    | Begin(attempt: int)
    | Waiting(attempt: int, first: Key)
    | Locked(attempt: int, first: Key)
    | Keyed(key: Key)
    | Running(key: Key)
    | Ran(key: Key)
    | Checked(key: Key)
    | Finished

  datatype Proc = Proc(manifest: int, maxAge: int, pc: PC)

  datatype Receipt = Receipt(key: Key, created: int, expires: int)

  datatype State = State(world: map<int, int>, now: int, procs: seq<Proc>, locks: map<Key, int>,
                         receipts: map<Key, Receipt>)

  /** What `fingerprintWorkBatch` returns at this moment. */
  function Fingerprint(s: State, manifest: int): Key {
    Key(manifest, if manifest in s.world then s.world[manifest] else 0)
  }

  function Held(pc: PC): Option<Key> {
    match pc
    case Locked(_, k) => Some(k)
    case Keyed(k) => Some(k)
    case Running(k) => Some(k)
    case Ran(k) => Some(k)
    case Checked(k) => Some(k)
    case _ => None
  }

  datatype Step =
    | Read(p: int)                     // fingerprint before the lock
    | Acquire(p: int)                  // take the lock if it is free
    | Reread(p: int)                   // fingerprint under the lock: go on, retry or give up
    | Lookup(p: int)                   // reuse a valid receipt, or start one leased run
    | Exit(p: int, code: int)          // the run ends
    | Recheck(p: int)                  // fingerprint after the run
    | Publish(p: int)                  // write the receipt and unlock
    | Abandon(p: int)                  // a timeout, an error or the death of the process
    | Edit(manifest: int, inputs: int) // anyone changes declared inputs
    | Tick(delta: int)
    | Prune(key: Key)                  // an expired, unsafe or invalid receipt is removed

  function Moved(s: State, p: int, pc: PC): State
    requires 0 <= p < |s.procs|
  {
    s.(procs := s.procs[p := s.procs[p].(pc := pc)])
  }

  /** Leaves the protocol or retries, unlocking what was held. */
  function Left(s: State, p: int, pc: PC): State
    requires 0 <= p < |s.procs|
  {
    var k := Held(s.procs[p].pc);
    Moved(s, p, pc).(locks := if k.Some? then s.locks - {k.value} else s.locks)
  }

  predicate Usable(s: State, k: Key) { k in s.receipts && s.receipts[k].key == k && s.now < s.receipts[k].expires }

  function NextOf(s: State, p: int, step: Step): State
    requires 0 <= p < |s.procs|
  {
    var me := s.procs[p];
    match (step, me.pc)
    case (Read(_), Begin(attempt)) => Moved(s, p, Waiting(attempt, Fingerprint(s, me.manifest)))
    case (Acquire(_), Waiting(attempt, k)) =>
      if k in s.locks then s else Moved(s, p, Locked(attempt, k)).(locks := s.locks[k := p])
    case (Reread(_), Locked(attempt, k)) =>
      var locked := Fingerprint(s, me.manifest);
      if locked == k then Moved(s, p, Keyed(locked))
      else Left(s, p, if attempt + 1 < RETRIES then Begin(attempt + 1) else Finished)
    case (Lookup(_), Keyed(k)) =>
      if Usable(s, k) then Left(s, p, Finished) else Moved(s, p, Running(k)).(receipts := s.receipts - {k})
    case (Exit(_, code), Running(k)) => if code == 0 then Moved(s, p, Ran(k)) else Left(s, p, Finished)
    case (Recheck(_), Ran(k)) =>
      if Fingerprint(s, me.manifest) == k then Moved(s, p, Checked(k)) else Left(s, p, Finished)
    case (Publish(_), Checked(k)) =>
      Left(s, p, Finished).(receipts := s.receipts[k := Receipt(k, s.now, s.now + me.maxAge)])
    case (Abandon(_), _) => Left(s, p, Finished)
    case _ => s
  }

  function Actor(step: Step): int {
    match step
    case Edit(_, _) => -1
    case Tick(_) => -1
    case Prune(_) => -1
    case _ => step.p
  }

  function Next(s: State, step: Step): State {
    match step
    case Edit(m, v) => s.(world := s.world[m := v])
    case Tick(d) => if d < 0 then s else s.(now := s.now + d)
    case Prune(k) => s.(receipts := s.receipts - {k})
    case _ => if 0 <= Actor(step) < |s.procs| then NextOf(s, Actor(step), step) else s
  }

  /** Any number of processes about to enter, any inputs, nothing locked, nothing published. */
  ghost predicate Initial(s: State) {
    && (forall p :: 0 <= p < |s.procs| ==> s.procs[p].pc == Begin(0) && s.procs[p].maxAge >= 1)
    && s.locks == map[] && s.receipts == map[]
  }

  function Run(s: State, steps: seq<Step>): State {
    if steps == [] then s else Next(Run(s, steps[..|steps| - 1]), steps[|steps| - 1])
  }

  // ----- what one step does -----

  /** A step of another process, an edit, a tick or a pruning leaves a process where it was. */
  lemma OthersStay(s: State, step: Step, q: int)
    requires 0 <= q < |s.procs| && Actor(step) != q
    ensures |Next(s, step).procs| == |s.procs| && Next(s, step).procs[q] == s.procs[q]
  {
  }

  /** A process keeps its manifest and its maximum age. */
  lemma ActorStays(s: State, step: Step, p: int)
    requires 0 <= p < |s.procs| && Actor(step) == p
    ensures |Next(s, step).procs| == |s.procs|
    ensures Next(s, step).procs[p] == s.procs[p].(pc := Next(s, step).procs[p].pc)
  {
  }

  /** The lock a process must hold: what it holds, it holds alone. */
  ghost predicate LocksHeld(s: State) {
    forall p :: 0 <= p < |s.procs| && Held(s.procs[p].pc).Some? ==>
      Held(s.procs[p].pc).value in s.locks && s.locks[Held(s.procs[p].pc).value] == p
  }

  lemma LeavingKeepsLocks(s: State, p: int, pc: PC)
    requires 0 <= p < |s.procs| && LocksHeld(s) && Held(pc).None?
    ensures LocksHeld(Left(s, p, pc))
  {
  }

  lemma StayingKeepsLocks(s: State, p: int, pc: PC)
    requires 0 <= p < |s.procs| && LocksHeld(s) && Held(pc) == Held(s.procs[p].pc)
    ensures LocksHeld(Moved(s, p, pc))
  {
  }

  lemma LocksKept(s: State, step: Step)
    requires LocksHeld(s)
    ensures LocksHeld(Next(s, step))
  {
    var p := Actor(step);
    if 0 <= p < |s.procs| {
      match (step, s.procs[p].pc)
      case (Reread(_), Locked(attempt, k)) =>
        LeavingKeepsLocks(s, p, if attempt + 1 < RETRIES then Begin(attempt + 1) else Finished);
        StayingKeepsLocks(s, p, Keyed(k));
      case (Lookup(_), Keyed(k)) =>
        LeavingKeepsLocks(s, p, Finished);
        StayingKeepsLocks(s, p, Running(k));
      case (Exit(_, _), Running(k)) =>
        LeavingKeepsLocks(s, p, Finished);
        StayingKeepsLocks(s, p, Ran(k));
      case (Recheck(_), Ran(k)) =>
        LeavingKeepsLocks(s, p, Finished);
        StayingKeepsLocks(s, p, Checked(k));
      case (Publish(_), Checked(k)) => LeavingKeepsLocks(s, p, Finished);
      case (Abandon(_), _) => LeavingKeepsLocks(s, p, Finished);
      case _ =>
    }
  }

  /** Nobody has published under a key whose run is still under way. */
  ghost predicate Unpublished(s: State) {
    forall p :: 0 <= p < |s.procs| && InRun(s.procs[p].pc) ==> s.procs[p].pc.key !in s.receipts
  }

  predicate InRun(pc: PC) { pc.Running? || pc.Ran? || pc.Checked? }

  /** A step adds a receipt only by publishing it. */
  lemma ReceiptStep(s: State, step: Step, k: Key)
    requires k in Next(s, step).receipts
    ensures Published(s, step, k) || (k in s.receipts && Next(s, step).receipts[k] == s.receipts[k])
  {
  }

  /** The step publishes a receipt for `k`. */
  predicate Published(s: State, step: Step, k: Key) {
    && step.Publish? && 0 <= step.p < |s.procs| && s.procs[step.p].pc == Checked(k)
    && Next(s, step).receipts == s.receipts[k := Receipt(k, s.now, s.now + s.procs[step.p].maxAge)]
  }

  /** How a process gets past each gate. */
  lemma Gates(s: State, step: Step, p: int)
    requires 0 <= p < |s.procs| && Actor(step) == p
    ensures |Next(s, step).procs| == |s.procs|
    ensures var pc, pc' := s.procs[p].pc, Next(s, step).procs[p].pc;
            pc' == pc ||
            match pc'
            case Keyed(k) => step == Reread(p) && Held(pc) == Some(k) && Fingerprint(s, s.procs[p].manifest) == k
            case Running(k) => step == Lookup(p) && pc == Keyed(k) && !Usable(s, k)
            case Ran(k) => step == Exit(p, 0) && pc == Running(k)
            case Checked(k) => step == Recheck(p) && pc == Ran(k) && Fingerprint(s, s.procs[p].manifest) == k
            case _ => true
  {
    match step
    case Read(_) =>
    case Acquire(_) =>
    case Reread(_) =>
    case Lookup(_) =>
    case Exit(_, _) =>
    case Recheck(_) =>
    case Publish(_) =>
    case Abandon(_) =>
  }

  /** Only a lookup that misses and a publication touch the receipts. */
  lemma ReceiptsAfter(s: State, step: Step, p: int)
    requires 0 <= p < |s.procs| && Actor(step) == p
    ensures |Next(s, step).procs| == |s.procs|
    ensures var pc, pc', after := s.procs[p].pc, Next(s, step).procs[p].pc, Next(s, step).receipts;
            || after == s.receipts
            || (pc.Keyed? && pc' == Running(pc.key) && after == s.receipts - {pc.key})
            || (pc.Checked? && pc' == Finished)
  {
    match step
    case Read(_) =>
    case Acquire(_) =>
    case Reread(_) =>
    case Lookup(_) =>
    case Exit(_, _) =>
    case Recheck(_) =>
    case Publish(_) =>
    case Abandon(_) =>
  }

  /** A process enters a run only by a lookup that clears the receipt of its key. */
  lemma EnterRun(s: State, step: Step, p: int)
    requires 0 <= p < |s.procs| && Actor(step) == p && InRun(Next(s, step).procs[p].pc)
    ensures |Next(s, step).procs| == |s.procs|
    ensures var k := Next(s, step).procs[p].pc.key;
            || (InRun(s.procs[p].pc) && s.procs[p].pc.key == k && Next(s, step).receipts == s.receipts)
            || (s.procs[p].pc == Keyed(k) && k !in Next(s, step).receipts)
  {
    Gates(s, step, p);
    ReceiptsAfter(s, step, p);
    if s.procs[p].pc.Keyed? { Cleared(s, step, p); }
    hide Next, Usable;
  }

  lemma Cleared(s: State, step: Step, p: int)
    requires 0 <= p < |s.procs| && Actor(step) == p && s.procs[p].pc.Keyed?
    ensures |Next(s, step).procs| == |s.procs|
    ensures Next(s, step).procs[p].pc.Running? ==> s.procs[p].pc.key !in Next(s, step).receipts
  {
  }

  lemma UnpublishedKept(s: State, step: Step)
    requires LocksHeld(s) && Unpublished(s)
    ensures Unpublished(Next(s, step))
  {
    LocksKept(s, step);
    var s' := Next(s, step);
    forall p | 0 <= p < |s'.procs| && InRun(s'.procs[p].pc) ensures s'.procs[p].pc.key !in s'.receipts {
      ProcsStay(s, step);
      if Actor(step) == p {
        EnterRun(s, step, p);
      } else {
        OthersStay(s, step, p);
        var k := s.procs[p].pc.key;
        assert Held(s.procs[p].pc) == Some(k) && k !in s.receipts;
        assert !Published(s, step, k);
        assert k !in s'.receipts by { if k in s'.receipts { ReceiptStep(s, step, k); } }
      }
    }
  }

  lemma ProcsStay(s: State, step: Step)
    ensures |Next(s, step).procs| == |s.procs|
  {
  }

  // ----- the trace of a process -----

  /** The state just before step `i`. */
  function At(s0: State, steps: seq<Step>, i: int): State
    requires 0 <= i <= |steps|
  {
    Run(s0, steps[..i])
  }

  /** Before step `i`, process `p` holds the lock of `k`, and nobody else does. */
  ghost predicate HoldsAt(s0: State, steps: seq<Step>, p: int, k: Key, i: int) {
    0 <= i <= |steps| &&
    var s := At(s0, steps, i);
    0 <= p < |s.procs| && Held(s.procs[p].pc) == Some(k) && k in s.locks && s.locks[k] == p
  }

  ghost predicate HoldsThrough(s0: State, steps: seq<Step>, p: int, k: Key, i: int, j: int) {
    forall n :: i <= n <= j ==> HoldsAt(s0, steps, p, k, n)
  }

  /** Step `i` is `step`, and the inputs that `p` declares have fingerprint `k` at that moment. */
  ghost predicate ReadsAt(s0: State, steps: seq<Step>, p: int, k: Key, i: int, step: Step) {
    0 <= i < |steps| && steps[i] == step &&
    var s := At(s0, steps, i);
    0 <= p < |s.procs| && Fingerprint(s, s.procs[p].manifest) == k
  }

  /** When a process re-read its key under the lock, looked for a receipt, saw its run exit and checked again. */
  datatype Trail = Trail(reread: int, lookup: int, exit: int, recheck: int)

  /** Under the lock, the inputs were `k`; the lock has been held ever since, up to `now`. */
  ghost predicate Entered(s0: State, steps: seq<Step>, p: int, k: Key, t: Trail, now: int) {
    && ReadsAt(s0, steps, p, k, t.reread, Reread(p)) && t.reread < now
    && HoldsThrough(s0, steps, p, k, t.reread, now)
  }

  ghost predicate Started(s0: State, steps: seq<Step>, p: int, k: Key, t: Trail, now: int) {
    && Entered(s0, steps, p, k, t, now)
    && t.reread < t.lookup < now && t.lookup < |steps| && steps[t.lookup] == Lookup(p)
    && !Usable(At(s0, steps, t.lookup), k)
  }

  ghost predicate Succeeded(s0: State, steps: seq<Step>, p: int, k: Key, t: Trail, now: int) {
    && Started(s0, steps, p, k, t, now)
    && t.lookup < t.exit < now && t.exit < |steps| && steps[t.exit] == Exit(p, 0)
  }

  /** Under the lock the inputs were `k` before the run and again after it, and the run exited 0 in between. */
  ghost predicate Earned(s0: State, steps: seq<Step>, p: int, k: Key, t: Trail, now: int) {
    && Succeeded(s0, steps, p, k, t, now)
    && t.exit < t.recheck < now && ReadsAt(s0, steps, p, k, t.recheck, Recheck(p))
  }

  ghost predicate Fits(s0: State, steps: seq<Step>, p: int, pc: PC, t: Trail) {
    match pc
    case Keyed(k) => Entered(s0, steps, p, k, t, |steps|)
    case Running(k) => Started(s0, steps, p, k, t, |steps|)
    case Ran(k) => Succeeded(s0, steps, p, k, t, |steps|)
    case Checked(k) => Earned(s0, steps, p, k, t, |steps|)
    case _ => true
  }

  // ----- a longer run has the same beginning -----

  lemma SamePast(s0: State, steps: seq<Step>, step: Step, i: int)
    requires 0 <= i <= |steps|
    ensures At(s0, steps + [step], i) == At(s0, steps, i)
  {
    assert (steps + [step])[..i] == steps[..i];
  }

  lemma LastState(s0: State, steps: seq<Step>, step: Step)
    ensures At(s0, steps + [step], |steps| + 1) == Next(Run(s0, steps), step)
    ensures At(s0, steps, |steps|) == Run(s0, steps)
    ensures Run(s0, steps + [step]) == Next(Run(s0, steps), step)
  {
    assert (steps + [step])[..|steps| + 1] == steps + [step] && steps[..|steps|] == steps;
    assert (steps + [step])[..|steps|] == steps;
  }

  lemma HoldsLonger(s0: State, steps: seq<Step>, step: Step, p: int, k: Key, i: int, j: int)
    requires 0 <= i && j <= |steps| && HoldsThrough(s0, steps, p, k, i, j)
    ensures HoldsThrough(s0, steps + [step], p, k, i, j)
  {
    hide Run;
    forall n | i <= n <= j ensures HoldsAt(s0, steps + [step], p, k, n) {
      assert HoldsAt(s0, steps, p, k, n);
      SamePast(s0, steps, step, n);
    }
  }

  lemma ReadsLonger(s0: State, steps: seq<Step>, step: Step, p: int, k: Key, i: int, what: Step)
    requires ReadsAt(s0, steps, p, k, i, what)
    ensures ReadsAt(s0, steps + [step], p, k, i, what)
  {
    hide Run;
    SamePast(s0, steps, step, i);
  }

  /** What a process has earned by step `now` stays earned. */
  lemma EarnedLonger(s0: State, steps: seq<Step>, step: Step, p: int, k: Key, t: Trail, now: int)
    requires now <= |steps| && Entered(s0, steps, p, k, t, now)
    ensures Entered(s0, steps + [step], p, k, t, now)
    ensures Started(s0, steps, p, k, t, now) ==> Started(s0, steps + [step], p, k, t, now)
    ensures Succeeded(s0, steps, p, k, t, now) ==> Succeeded(s0, steps + [step], p, k, t, now)
    ensures Earned(s0, steps, p, k, t, now) ==> Earned(s0, steps + [step], p, k, t, now)
  {
    hide Run, HoldsThrough, ReadsAt, Usable;
    HoldsLonger(s0, steps, step, p, k, t.reread, now) by { FromReread(s0, steps, p, k, t); }
    ReadsLonger(s0, steps, step, p, k, t.reread, Reread(p));
    if Started(s0, steps, p, k, t, now) { SamePast(s0, steps, step, t.lookup) by { FromReread(s0, steps, p, k, t); } }
    if Earned(s0, steps, p, k, t, now) { ReadsLonger(s0, steps, step, p, k, t.recheck, Recheck(p)); }
  }

  lemma FromReread(s0: State, steps: seq<Step>, p: int, k: Key, t: Trail)
    requires ReadsAt(s0, steps, p, k, t.reread, Reread(p))
    ensures 0 <= t.reread < |steps|
  {
  }

  // ----- every process has a trail -----

  lemma {:induction false} LocksAlways(s0: State, steps: seq<Step>)
    requires Initial(s0)
    ensures LocksHeld(Run(s0, steps)) && Unpublished(Run(s0, steps)) && |Run(s0, steps).procs| == |s0.procs|
  {
    if steps != [] {
      var init, last := steps[..|steps| - 1], steps[|steps| - 1];
      LocksAlways(s0, init);
      hide LocksHeld, Unpublished, Next;
      LocksKept(Run(s0, init), last);
      UnpublishedKept(Run(s0, init), last);
      ProcsStay(Run(s0, init), last);
    }
  }

  /** A process that holds a lock after a run holds it alone. */
  lemma HoldsNow(s0: State, steps: seq<Step>, p: int, k: Key)
    requires Initial(s0) && 0 <= p < |s0.procs|
    requires |Run(s0, steps).procs| == |s0.procs| && Held(Run(s0, steps).procs[p].pc) == Some(k)
    ensures HoldsAt(s0, steps, p, k, |steps|)
  {
    hide Run;
    LocksAlways(s0, steps);
    assert steps[..|steps|] == steps;
  }

  /** Holding the lock one step longer keeps everything a process has done. */
  lemma OneLonger(s0: State, steps: seq<Step>, step: Step, p: int, k: Key, t: Trail)
    requires Entered(s0, steps, p, k, t, |steps|) && HoldsAt(s0, steps + [step], p, k, |steps| + 1)
    ensures var all, now := steps + [step], |steps| + 1;
            && Entered(s0, all, p, k, t, now)
            && (Started(s0, steps, p, k, t, |steps|) ==> Started(s0, all, p, k, t, now))
            && (Succeeded(s0, steps, p, k, t, |steps|) ==> Succeeded(s0, all, p, k, t, now))
            && (Earned(s0, steps, p, k, t, |steps|) ==> Earned(s0, all, p, k, t, now))
  {
    hide Run, ReadsAt, HoldsAt, Usable, At;
    EarnedLonger(s0, steps, step, p, k, t, |steps|);
  }

  lemma {:induction false} FitsLonger(s0: State, steps: seq<Step>, step: Step, p: int, pc: PC, t: Trail)
    requires Initial(s0) && 0 <= p < |s0.procs| && Fits(s0, steps, p, pc, t)
    requires |Run(s0, steps + [step]).procs| == |s0.procs| && Run(s0, steps + [step]).procs[p].pc == pc
    ensures Fits(s0, steps + [step], p, pc, t)
  {
    hide Run, Entered, Started, Succeeded, Earned;
    if pc.Keyed? || InRun(pc) {
      HoldsNow(s0, steps + [step], p, pc.key);
      assert Entered(s0, steps, p, pc.key, t, |steps|) by { FitsEntered(s0, steps, p, pc, t); }
      OneLonger(s0, steps, step, p, pc.key, t);
    }
  }

  lemma FitsEntered(s0: State, steps: seq<Step>, p: int, pc: PC, t: Trail)
    requires Fits(s0, steps, p, pc, t) && (pc.Keyed? || InRun(pc))
    ensures Entered(s0, steps, p, pc.key, t, |steps|)
  {
    hide Entered;
  }

  /** The step that passes a gate extends the trail. */
  lemma {:induction false} GatePassed(s0: State, steps: seq<Step>, step: Step, p: int, pc: PC, pc': PC, t: Trail)
      returns (t': Trail)
    requires Initial(s0) && 0 <= p < |s0.procs| && Actor(step) == p && pc' != pc
    requires |Run(s0, steps).procs| == |s0.procs| && Run(s0, steps).procs[p].pc == pc && Fits(s0, steps, p, pc, t)
    requires |Run(s0, steps + [step]).procs| == |s0.procs| && Run(s0, steps + [step]).procs[p].pc == pc'
    ensures Fits(s0, steps + [step], p, pc', t')
  {
    hide Run, Next, Entered, Started, Succeeded, Earned, Usable, Fingerprint, ReadsAt, At, HoldsAt;
    t' := t;
    LastState(s0, steps, step);
    SamePast(s0, steps, step, |steps|);
    Gates(Run(s0, steps), step, p);
    if pc'.Keyed? {
      t' := Trail(|steps|, 0, 0, 0);
      GateEntered(s0, steps, step, p, pc'.key, t');
    } else if InRun(pc') {
      var k := pc'.key;
      HoldsNow(s0, steps + [step], p, k);
      FitsEntered(s0, steps, p, pc, t);
      OneLonger(s0, steps, step, p, k, t);
      if pc'.Checked? { ReadNow(s0, steps, step, p, k); }
      t' := GateMarked(s0, steps, step, p, pc, pc', t);
    }
  }

  lemma {:induction false} GateEntered(s0: State, steps: seq<Step>, step: Step, p: int, k: Key, t: Trail)
    requires Initial(s0) && 0 <= p < |s0.procs| && step == Reread(p) && t.reread == |steps|
    requires |Run(s0, steps).procs| == |s0.procs| && Held(Run(s0, steps).procs[p].pc) == Some(k)
    requires Fingerprint(Run(s0, steps), Run(s0, steps).procs[p].manifest) == k
    requires |Run(s0, steps + [step]).procs| == |s0.procs| && Held(Run(s0, steps + [step]).procs[p].pc) == Some(k)
    ensures Entered(s0, steps + [step], p, k, t, |steps| + 1)
  {
    hide Run, HoldsAt, ReadsAt;
    HoldsNow(s0, steps + [step], p, k);
    HoldsNow(s0, steps, p, k);
    HoldsLonger(s0, steps, step, p, k, |steps|, |steps|);
    ReadNow(s0, steps, step, p, k);
  }

  lemma ReadNow(s0: State, steps: seq<Step>, step: Step, p: int, k: Key)
    requires 0 <= p < |Run(s0, steps).procs| && Fingerprint(Run(s0, steps), Run(s0, steps).procs[p].manifest) == k
    ensures ReadsAt(s0, steps + [step], p, k, |steps|, step)
  {
    hide Run;
    SamePast(s0, steps, step, |steps|);
    FirstState(s0, steps);
  }

  lemma {:induction false} GateMarked(s0: State, steps: seq<Step>, step: Step, p: int, pc: PC, pc': PC, t: Trail)
      returns (t': Trail)
    requires InRun(pc') && Fits(s0, steps, p, pc, t) && (pc.Keyed? || InRun(pc)) && pc.key == pc'.key
    requires var k, s := pc'.key, At(s0, steps + [step], |steps|);
             match pc'
             case Running(_) => step == Lookup(p) && pc == Keyed(k) && !Usable(s, k)
             case Ran(_) => step == Exit(p, 0) && pc == Running(k)
             case Checked(_) => pc == Ran(k) && ReadsAt(s0, steps + [step], p, k, |steps|, Recheck(p))
             case _ => true
    requires var k, all, now := pc'.key, steps + [step], |steps| + 1;
             && Entered(s0, all, p, k, t, now)
             && (Started(s0, steps, p, k, t, |steps|) ==> Started(s0, all, p, k, t, now))
             && (Succeeded(s0, steps, p, k, t, |steps|) ==> Succeeded(s0, all, p, k, t, now))
    ensures Fits(s0, steps + [step], p, pc', t')
  {
    hide Run, ReadsAt, HoldsThrough, At, Usable;
    match pc'
    case Running(_) => t' := t.(lookup := |steps|);
    case Ran(_) => t' := t.(exit := |steps|);
    case Checked(_) => t' := t.(recheck := |steps|);
  }

  /** Every process that is past a gate has the trail that gate asks for. */
  lemma {:induction false} TrailOf(s0: State, steps: seq<Step>, p: int) returns (t: Trail)
    requires Initial(s0) && 0 <= p < |s0.procs|
    ensures |Run(s0, steps).procs| == |s0.procs| && Fits(s0, steps, p, Run(s0, steps).procs[p].pc, t)
  {
    LocksAlways(s0, steps);
    t := Trail(0, 0, 0, 0);
    if steps == [] {
      hide Entered, Started, Succeeded, Earned;
    } else {
      var init, last := steps[..|steps| - 1], steps[|steps| - 1];
      var t0 := TrailOf(s0, init, p);
      hide Fits, Next, LocksHeld, Unpublished, Initial;
      assert steps == init + [last];
      var s := Run(s0, init);
      var pc, pc' := s.procs[p].pc, Run(s0, steps).procs[p].pc;
      if pc' == pc {
        t := t0;
        FitsLonger(s0, init, last, p, pc, t);
      } else {
        if Actor(last) != p { OthersStay(s, last, p); }
        t := GatePassed(s0, init, last, p, pc, pc', t0);
      }
    }
  }

  // ----- what every run of the protocol promises -----

  /** Singleflight: at most one process holds the lock of a key, so at most one leased run per key is active. */
  lemma {:induction false} OneRunPerKey(s0: State, steps: seq<Step>, p: int, q: int)
    requires Initial(s0)
    requires var s := Run(s0, steps);
             0 <= p < |s.procs| && 0 <= q < |s.procs| &&
             Held(s.procs[p].pc).Some? && Held(s.procs[p].pc) == Held(s.procs[q].pc)
    ensures p == q
  {
    LocksAlways(s0, steps);
  }

  /** Process `p` published `r` at step `w`, having earned its key up to then. */
  ghost predicate EarnedReceipt(s0: State, steps: seq<Step>, r: Receipt, p: int, t: Trail, w: int) {
    && 0 <= w < |steps| && steps[w] == Publish(p) && Earned(s0, steps, p, r.key, t, w)
    && var s := At(s0, steps, w);
       && 0 <= p < |s.procs| && s.procs[p].maxAge >= 1
       && r.created == s.now && r.expires == s.now + s.procs[p].maxAge
  }

  lemma EarnedReceiptLonger(s0: State, steps: seq<Step>, step: Step, r: Receipt, p: int, t: Trail, w: int)
    requires EarnedReceipt(s0, steps, r, p, t, w)
    ensures EarnedReceipt(s0, steps + [step], r, p, t, w)
  {
    hide Run, Earned;
    assert Entered(s0, steps, p, r.key, t, w) by { EarnedIsEntered(s0, steps, p, r.key, t, w); }
    EarnedLonger(s0, steps, step, p, r.key, t, w);
    SamePast(s0, steps, step, w);
  }

  lemma EarnedIsEntered(s0: State, steps: seq<Step>, p: int, k: Key, t: Trail, now: int)
    requires Earned(s0, steps, p, k, t, now)
    ensures Entered(s0, steps, p, k, t, now)
  {
    hide Entered;
  }

  lemma {:induction false} MaxAgeKept(s0: State, steps: seq<Step>, p: int)
    requires Initial(s0) && 0 <= p < |s0.procs|
    ensures |Run(s0, steps).procs| == |s0.procs|
    ensures Run(s0, steps).procs[p].maxAge == s0.procs[p].maxAge >= 1
    ensures Run(s0, steps).procs[p].manifest == s0.procs[p].manifest
  {
    if steps != [] {
      var init, last := steps[..|steps| - 1], steps[|steps| - 1];
      MaxAgeKept(s0, init, p);
      hide Next;
      if Actor(last) == p { ActorStays(Run(s0, init), last, p); } else { OthersStay(Run(s0, init), last, p); }
    }
  }

  /**
   Every receipt in the store was published by a process that, while it held the lock without a break, found its
   inputs to have exactly this key, ran with exit 0, and found them to have this key again.
   */
  lemma {:induction false} ReceiptsAreEarned(s0: State, steps: seq<Step>, k: Key)
    requires Initial(s0) && k in Run(s0, steps).receipts
    ensures Run(s0, steps).receipts[k].key == k
    ensures exists p, t, w :: EarnedReceipt(s0, steps, Run(s0, steps).receipts[k], p, t, w)
  {
    if steps != [] {
      var init, last := steps[..|steps| - 1], steps[|steps| - 1];
      var s := Run(s0, init);
      assert steps == init + [last];
      ReceiptStep(s, last, k);
      if !Published(s, last, k) {
        ReceiptsAreEarned(s0, init, k);
        var p, t, w :| EarnedReceipt(s0, init, s.receipts[k], p, t, w);
        EarnedReceiptLonger(s0, init, last, s.receipts[k], p, t, w);
      } else {
        LocksAlways(s0, init);
        hide Next;
        var t := PublishIsEarned(s0, init, last.p, k, Receipt(k, s.now, s.now + s.procs[last.p].maxAge));
        assert EarnedReceipt(s0, steps, Run(s0, steps).receipts[k], last.p, t, |init|);
      }
    }
  }

  lemma {:induction false} PublishIsEarned(s0: State, steps: seq<Step>, p: int, k: Key, r: Receipt) returns (t: Trail)
    requires Initial(s0) && 0 <= p < |s0.procs|
    requires |Run(s0, steps).procs| == |s0.procs| && Run(s0, steps).procs[p].pc == Checked(k)
    requires var s := Run(s0, steps); r == Receipt(k, s.now, s.now + s.procs[p].maxAge)
    ensures EarnedReceipt(s0, steps + [Publish(p)], r, p, t, |steps|)
  {
    hide Run, Earned, Entered, Next;
    t := TrailOf(s0, steps, p);
    MaxAgeKept(s0, steps, p);
    LastState(s0, steps, Publish(p));
    SamePast(s0, steps, Publish(p), |steps|);
    EarnedIsEntered(s0, steps, p, k, t, |steps|);
    EarnedLonger(s0, steps, Publish(p), p, k, t, |steps|);
  }

  lemma TimePasses(s: State, step: Step)
    ensures s.now <= Next(s, step).now
  {
  }

  /** The clock does not run backwards. */
  lemma {:induction false} ClockForward(s0: State, steps: seq<Step>, i: int)
    requires 0 <= i <= |steps|
    ensures At(s0, steps, i).now <= Run(s0, steps).now
  {
    if i == |steps| {
      assert steps[..i] == steps;
    } else {
      var init := steps[..|steps| - 1];
      ClockForward(s0, init, i);
      assert init[..i] == steps[..i];
      hide Next;
      TimePasses(Run(s0, init), steps[|steps| - 1]);
    }
  }

  /**
   Whenever a lookup reuses a receipt, the process re-read this very key under the lock and has held the lock
   since; the receipt is for that key, unexpired, and earned.
   */
  lemma {:induction false} HitsAreEarned(s0: State, steps: seq<Step>, p: int, k: Key)
    requires Initial(s0) && 0 <= p < |s0.procs| == |Run(s0, steps).procs|
    requires Run(s0, steps).procs[p].pc == Keyed(k) && Usable(Run(s0, steps), k)
    ensures var s := Run(s0, steps); var r := s.receipts[k];
            && (exists t :: Entered(s0, steps, p, k, t, |steps|))
            && r.key == k && r.created <= s.now < r.expires
            && (exists q, t, w :: EarnedReceipt(s0, steps, r, q, t, w))
            && Next(s, Lookup(p)) == Left(s, p, Finished)
  {
    hide Run, Entered, EarnedReceipt;
    var mine := TrailOf(s0, steps, p);
    assert Entered(s0, steps, p, k, mine, |steps|);
    ReceiptsAreEarned(s0, steps, k);
    var r := Run(s0, steps).receipts[k];
    var q, t, w :| EarnedReceipt(s0, steps, r, q, t, w);
    EarnedInThePast(s0, steps, r, q, t, w);
  }

  lemma EarnedInThePast(s0: State, steps: seq<Step>, r: Receipt, p: int, t: Trail, w: int)
    requires EarnedReceipt(s0, steps, r, p, t, w)
    ensures r.created <= Run(s0, steps).now
  {
    hide Run, Earned;
    ClockForward(s0, steps, w);
  }

  // ----- reuse and retry -----

  /** A lookup under the lock reuses exactly the receipts of its key that have not expired: it then leaves without a run
      and without touching a receipt; otherwise it starts the run, still holding the lock. */
  lemma LookupReusesIff(s: State, p: int, k: Key)
    requires 0 <= p < |s.procs| && s.procs[p].pc == Keyed(k)
    ensures var next := Next(s, Lookup(p));
            && |next.procs| == |s.procs|
            && (next.procs[p].pc == Finished <==>
                  k in s.receipts && s.receipts[k].key == k && s.now < s.receipts[k].expires)
            && (next.procs[p].pc == Finished ==> next.receipts == s.receipts && k !in next.locks)
            && (next.procs[p].pc != Finished ==> next.procs[p].pc == Running(k) && next.locks == s.locks)
  {
  }

  /** A process goes on with the key it locked exactly when its inputs still have it; otherwise it unlocks, and tries
      again unless this was its third attempt. */
  lemma RereadRetriesIff(s: State, p: int, attempt: int, k: Key)
    requires 0 <= p < |s.procs| && s.procs[p].pc == Locked(attempt, k)
    ensures var next := Next(s, Reread(p));
            && |next.procs| == |s.procs|
            && (next.procs[p].pc == Keyed(k) <==> Fingerprint(s, s.procs[p].manifest) == k)
            && (next.procs[p].pc != Keyed(k) ==>
                  k !in next.locks && next.procs[p].pc == if attempt < 2 then Begin(attempt + 1) else Finished)
  {
  }

  /** Undisturbed, a process with a free lock gets past its first attempt, and reuses a usable receipt of its inputs. */
  lemma UndisturbedReuse(s: State, p: int, attempt: int)
    requires 0 <= p < |s.procs| && s.procs[p].pc == Begin(attempt)
    requires Fingerprint(s, s.procs[p].manifest) !in s.locks
    ensures var k := Fingerprint(s, s.procs[p].manifest);
            var keyed := Next(Next(Next(s, Read(p)), Acquire(p)), Reread(p));
            && |keyed.procs| == |s.procs| && keyed.procs[p].pc == Keyed(k) && keyed.receipts == s.receipts
            && (k in s.receipts && s.receipts[k].key == k && s.now < s.receipts[k].expires ==>
                  var end := Next(keyed, Lookup(p));
                  |end.procs| == |s.procs| && end.procs[p].pc == Finished && end.receipts == s.receipts)
  {
    var k := Fingerprint(s, s.procs[p].manifest);
    var waiting := Next(s, Read(p));
    assert waiting == s.(procs := s.procs[p := s.procs[p].(pc := Waiting(attempt, k))]);
    var locked := Next(waiting, Acquire(p));
    assert locked == s.(procs := s.procs[p := s.procs[p].(pc := Locked(attempt, k))], locks := s.locks[k := p]);
    var keyed := Next(locked, Reread(p));
    assert keyed == locked.(procs := s.procs[p := s.procs[p].(pc := Keyed(k))]);
    hide Next, Fingerprint;
    LookupReusesIff(keyed, p, k);
  }

  // ----- attempts -----

  /** How often process `p` took the fingerprint it then tried to lock. */
  function Attempts(s0: State, steps: seq<Step>, p: int): int {
    if steps == [] then 0
    else
      var init := steps[..|steps| - 1];
      var s := Run(s0, init);
      Attempts(s0, init, p) + (if TriesNow(s, steps[|steps| - 1], p) then 1 else 0)
  }

  predicate TriesNow(s: State, step: Step, p: int) { step == Read(p) && 0 <= p < |s.procs| && s.procs[p].pc.Begin? }

  predicate AttemptsMatch(pc: PC, n: int) {
    match pc
    case Begin(a) => n == a && 0 <= a < RETRIES
    case Waiting(a, _) => n == a + 1 && 0 <= a < RETRIES
    case Locked(a, _) => n == a + 1 && 0 <= a < RETRIES
    case _ => 0 <= n <= RETRIES
  }

  /** The loop tries at most three times, whatever is edited while it waits. */
  lemma {:induction false} AtMostThreeAttempts(s0: State, steps: seq<Step>, p: int)
    requires Initial(s0) && 0 <= p < |s0.procs|
    ensures |Run(s0, steps).procs| == |s0.procs|
    ensures AttemptsMatch(Run(s0, steps).procs[p].pc, Attempts(s0, steps, p))
    ensures Attempts(s0, steps, p) <= RETRIES
  {
    if steps != [] {
      var init, last := steps[..|steps| - 1], steps[|steps| - 1];
      AtMostThreeAttempts(s0, init, p);
      hide Next, AttemptsMatch;
      var s := Run(s0, init);
      if Actor(last) == p { AttemptOfActor(s, last, p, Attempts(s0, init, p)); } else { OthersStay(s, last, p); }
      MatchIsBounded(Run(s0, steps).procs[p].pc, Attempts(s0, steps, p));
    }
  }

  lemma MatchIsBounded(pc: PC, n: int)
    requires AttemptsMatch(pc, n)
    ensures n <= RETRIES
  {
  }

  predicate Entering(pc: PC) { pc.Begin? || pc.Waiting? || pc.Locked? }

  lemma AttemptOfActor(s: State, step: Step, p: int, n: int)
    requires 0 <= p < |s.procs| && AttemptsMatch(s.procs[p].pc, n) && Actor(step) == p
    ensures |Next(s, step).procs| == |s.procs|
    ensures AttemptsMatch(Next(s, step).procs[p].pc, n + if TriesNow(s, step, p) then 1 else 0)
  {
    if Entering(s.procs[p].pc) { EnteringStep(s, step, p); } else { PastEntering(s, step, p); }
    hide Next;
  }

  /** Each attempt is one pass from `Begin` through `Locked`. */
  lemma EnteringStep(s: State, step: Step, p: int)
    requires 0 <= p < |s.procs| && Entering(s.procs[p].pc) && Actor(step) == p
    ensures |Next(s, step).procs| == |s.procs|
    ensures var pc, pc' := s.procs[p].pc, Next(s, step).procs[p].pc;
            || pc' == pc || !Entering(pc')
            || (TriesNow(s, step, p) && pc'.Waiting? && pc'.attempt == pc.attempt)
            || (!pc.Begin? && pc'.Locked? && pc'.attempt == pc.attempt)
            || (!pc.Begin? && pc'.Begin? && pc'.attempt == pc.attempt + 1 < RETRIES)
    ensures TriesNow(s, step, p) ==> Next(s, step).procs[p].pc.Waiting?
  {
  }

  lemma PastEntering(s: State, step: Step, p: int)
    requires 0 <= p < |s.procs| && !Entering(s.procs[p].pc) && Actor(step) == p
    ensures |Next(s, step).procs| == |s.procs| && !Entering(Next(s, step).procs[p].pc)
  {
  }

  // ----- what the two fingerprints do not see -----

  /** With a run under way and the inputs now being `world`, its end leaves a receipt for its key if and only if it
      exits 0 and the key is what the inputs have now. */
  lemma PublishedIff(s: State, p: int, k: Key, code: int, world: map<int, int>)
    requires LocksHeld(s) && Unpublished(s) && 0 <= p < |s.procs| && s.procs[p].pc == Running(k)
    ensures var now := s.(world := world);
            var end := Next(Next(Next(now, Exit(p, code)), Recheck(p)), Publish(p));
            k in end.receipts <==> code == 0 && Fingerprint(now, s.procs[p].manifest) == k
  {
    hide Next;
    var now := s.(world := world);
    assert k !in now.receipts;
    ExitStep(now, p, k, code);
    var s1 := Next(now, Exit(p, code));
    EndSteps(s1, p, k);
  }

  lemma ExitStep(s: State, p: int, k: Key, code: int)
    requires 0 <= p < |s.procs| && s.procs[p].pc == Running(k)
    ensures var next := Next(s, Exit(p, code));
            && next.receipts == s.receipts && next.world == s.world && |next.procs| == |s.procs|
            && next.procs[p] == s.procs[p].(pc := if code == 0 then Ran(k) else Finished)
  {
  }

  lemma EndSteps(s: State, p: int, k: Key)
    requires 0 <= p < |s.procs| && (s.procs[p].pc == Ran(k) || s.procs[p].pc == Finished) && k !in s.receipts
    ensures k in Next(Next(s, Recheck(p)), Publish(p)).receipts
            <==> s.procs[p].pc == Ran(k) && Fingerprint(s, s.procs[p].manifest) == k
  {
    var next := Next(s, Recheck(p));
    var good := s.procs[p].pc == Ran(k) && Fingerprint(s, s.procs[p].manifest) == k;
    assert next.receipts == s.receipts && |next.procs| == |s.procs|;
    assert next.procs[p].pc == if good then Checked(k) else Finished;
  }

  const ESCAPE: seq<Step> := [
    Read(0), Acquire(0), Reread(0), Lookup(0), Edit(1, 8), Edit(1, 7), Exit(0, 0), Recheck(0), Publish(0)]
  const ALONE := State(map[1 := 7], 100, [Proc(1, 60, Begin(0))], map[], map[])
  const KEY := Key(1, 7)

  /** One process at `pc`, holding the lock of its key, while the inputs are `inputs`. */
  function Solo(pc: PC, inputs: int): State {
    State(map[1 := inputs], 100, [Proc(1, 60, pc)], map[KEY := 0], map[])
  }

  /** The guarantee is about the two fingerprints, not about the time between them: inputs edited while the batch
      runs, and edited back before it ends, still earn a receipt. */
  lemma {:induction false} EditsBetweenFingerprintsEscape()
    ensures Initial(ALONE) && KEY in Run(ALONE, ESCAPE).receipts
    ensures At(ALONE, ESCAPE, 5) == Solo(Running(KEY), 8) && Fingerprint(Solo(Running(KEY), 8), 1) != KEY
  {
    EscapeStarts();
    OneStep(ALONE, ESCAPE, 6);
    OneStep(ALONE, ESCAPE, 7);
    OneStep(ALONE, ESCAPE, 8);
    SoloPublishes();
    FirstState(ALONE, ESCAPE);
    hide Run, At, Next, Solo;
    assert ESCAPE[6] == Exit(0, 0) && ESCAPE[7] == Recheck(0) && ESCAPE[8] == Publish(0) && |ESCAPE| == 9;
  }

  lemma {:induction false} EscapeStarts()
    ensures At(ALONE, ESCAPE, 5) == Solo(Running(KEY), 8) && At(ALONE, ESCAPE, 6) == Solo(Running(KEY), 7)
  {
    hide Run, At, Next, Solo;
    FirstState(ALONE, ESCAPE);
    OneStep(ALONE, ESCAPE, 0);
    OneStep(ALONE, ESCAPE, 1);
    OneStep(ALONE, ESCAPE, 2);
    SoloLocks();
    assert ESCAPE[0] == Read(0) && ESCAPE[1] == Acquire(0) && ESCAPE[2] == Reread(0);
    assert At(ALONE, ESCAPE, 3) == Solo(Keyed(KEY), 7);
    OneStep(ALONE, ESCAPE, 3);
    OneStep(ALONE, ESCAPE, 4);
    OneStep(ALONE, ESCAPE, 5);
    SoloRuns();
    assert ESCAPE[3] == Lookup(0) && ESCAPE[4] == Edit(1, 8) && ESCAPE[5] == Edit(1, 7);
  }

  lemma SoloLocks()
    ensures Next(Next(Next(ALONE, Read(0)), Acquire(0)), Reread(0)) == Solo(Keyed(KEY), 7)
  {
    var waiting := Next(ALONE, Read(0));
    assert waiting == ALONE.(procs := [Proc(1, 60, Waiting(0, KEY))]);
    assert Next(waiting, Acquire(0)) == Solo(Locked(0, KEY), 7);
    assert Next(Solo(Locked(0, KEY), 7), Reread(0)) == Solo(Keyed(KEY), 7);
  }

  lemma SoloRuns()
    ensures Next(Solo(Keyed(KEY), 7), Lookup(0)) == Solo(Running(KEY), 7)
    ensures Next(Solo(Running(KEY), 7), Edit(1, 8)) == Solo(Running(KEY), 8)
    ensures Next(Solo(Running(KEY), 8), Edit(1, 7)) == Solo(Running(KEY), 7)
  {
    assert Solo(Keyed(KEY), 7).receipts - {KEY} == map[];
  }

  lemma SoloPublishes()
    ensures KEY in Next(Next(Next(Solo(Running(KEY), 7), Exit(0, 0)), Recheck(0)), Publish(0)).receipts
  {
    assert Next(Solo(Running(KEY), 7), Exit(0, 0)) == Solo(Ran(KEY), 7);
    assert Next(Solo(Ran(KEY), 7), Recheck(0)) == Solo(Checked(KEY), 7);
  }

  lemma FirstState(s0: State, steps: seq<Step>)
    ensures At(s0, steps, 0) == s0 && At(s0, steps, |steps|) == Run(s0, steps)
  {
    assert steps[..0] == [] && steps[..|steps|] == steps;
  }

  lemma OneStep(s0: State, steps: seq<Step>, i: int)
    requires 0 <= i < |steps|
    ensures At(s0, steps, i + 1) == Next(At(s0, steps, i), steps[i])
  {
    assert steps[..i + 1][..i] == steps[..i];
  }
}
