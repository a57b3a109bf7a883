/**
 Hourly accounting of the disk-write observer: cumulative device counters are split into scored and gap
 bytes, hours are flushed to an append-only store, a partial hour is checkpointed on a clean shutdown,
 and everything is restored after a restart.
 */
module DiskLedger {
  import opened Prelude
  import DiskHistogram

  const HOUR: int := 3600 * SECOND

  datatype Counter = Counter(bytes: nat, identity: string)

  /** The traffic of one hour and the device counter at its last sample. */
  datatype HourRecord = HourRecord(hour: int, bytes: nat, gap: nat, samples: nat,
                                   lastAt: Time, identity: string, device: nat)

  function HourOf(at: Time): int { at / HOUR }
  function NewHour(at: Time): HourRecord { HourRecord(HourOf(at), 0, 0, 0, NO_TIME, "", 0) }
  function Traffic(r: HourRecord): nat { r.bytes + r.gap }

  /** An hour that saw no scored sample and no device is not written. */
  predicate Persistable(r: HourRecord) { r.samples > 0 || r.identity != "" }

  datatype Store = Store(records: seq<HourRecord>, checkpoint: Option<HourRecord>)
  datatype Memory = Memory(previousAt: Time, previous: Counter, hour: Option<HourRecord>)
  const FORGOTTEN := Memory(NO_TIME, Counter(0, ""), None)

  predicate Supersedes(r: HourRecord, c: HourRecord) {
    r.hour == c.hour && r.lastAt >= c.lastAt && r.identity == c.identity && r.device >= c.device
  }

  predicate Superseded(records: seq<HourRecord>, c: HourRecord) {
    exists i :: 0 <= i < |records| && Supersedes(records[i], c)
  }

  /** The checkpoint that still stands for traffic no record holds. */
  function LiveCheckpoint(s: Store): Option<HourRecord> {
    if s.checkpoint.Some? && !Superseded(s.records, s.checkpoint.value) then s.checkpoint else None
  }

  // ----- the operations as functions -----

  /** Whether the append of a flush succeeds, whether its fallback checkpoint is written if not, and whether the old
      checkpoint is removed if so. */
  datatype Outcome = Outcome(appends: bool, parks: bool, removes: bool)

  function Flushed(m: Memory, s: Store, io: Outcome): (Memory, Store) {
    if m.hour.None? then (m, s)
    else if !Persistable(m.hour.value) then (m.(hour := None), s)
    else if !io.appends then (m.(hour := None), if io.parks then s.(checkpoint := m.hour) else s)
    else (m.(hour := None), Store(s.records + [m.hour.value], if io.removes then None else s.checkpoint))
  }

  function Ensured(m: Memory, s: Store, at: Time, io: Outcome): (Memory, Store) {
    if m.hour.Some? && m.hour.value.hour == HourOf(at) then (m, s)
    else
      var (m', s') := Flushed(m, s, io);
      (m'.(hour := Some(NewHour(at))), s')
  }

  function Recorded(r: HourRecord, at: Time, delta: nat, device: Counter, hasPrevious: bool, valid: bool): HourRecord {
    var counted :=
      if valid then r.(bytes := DiskHistogram.SaturatingAdd(r.bytes, delta), samples := r.samples + 1)
      else if hasPrevious then r.(gap := DiskHistogram.SaturatingAdd(r.gap, delta))
      else r;
    counted.(lastAt := at, identity := device.identity, device := device.bytes)
  }

  predicate HasPrevious(m: Memory, device: Counter) {
    m.previousAt != NO_TIME && device.identity == m.previous.identity && device.bytes >= m.previous.bytes
  }

  predicate ValidWindow(m: Memory, at: Time, device: Counter, intervalSeconds: int) {
    var elapsed := at - m.previousAt;
    && HasPrevious(m, device) && 0 < elapsed <= Max(45, intervalSeconds * 3) * SECOND
    && elapsed >= Max(1, intervalSeconds / 3) * SECOND
  }

  function Delta(m: Memory, device: Counter): nat {
    if HasPrevious(m, device) then device.bytes - m.previous.bytes else 0
  }

  function Sampled(m: Memory, s: Store, at: Time, device: Counter, interval: int, io: Outcome): (Memory, Store) {
    var (m', s') := Ensured(m, s, at, io);
    var r := if m'.hour.Some? then m'.hour.value else NewHour(at);
    var valid := ValidWindow(m, at, device, interval);
    (Memory(at, device, Some(Recorded(r, at, Delta(m, device), device, HasPrevious(m, device), valid))), s')
  }

  function Checkpointed(m: Memory, s: Store, writes: bool): Store {
    if m.hour.Some? && Persistable(m.hour.value) && writes then s.(checkpoint := m.hour) else s
  }

  /** The record with the latest sample of a known device. */
  function Newest(records: seq<HourRecord>): Option<HourRecord> {
    if records == [] then None
    else
      var best, r := Newest(records[..|records| - 1]), records[|records| - 1];
      if r.lastAt != NO_TIME && r.identity != "" && (best.None? || r.lastAt > best.value.lastAt) then Some(r) else best
  }

  function Readable(s: Store): seq<HourRecord> {
    var live := LiveCheckpoint(s);
    if live.Some? then s.records + [live.value] else s.records
  }

  function Restored(s: Store): Memory {
    var newest := Newest(Readable(s));
    if newest.None? then FORGOTTEN.(hour := LiveCheckpoint(s))
    else Memory(newest.value.lastAt, Counter(newest.value.device, newest.value.identity), LiveCheckpoint(s))
  }

  // ----- the observer that is updated in place -----

  class DiskWriteObserver {
    var previousAt: Time
    var previousDevice: Counter
    var currentHour: Option<HourRecord>
    var records: seq<HourRecord>
    var checkpoint: Option<HourRecord>
    var sampleIntervalSeconds: int

    ghost function InMemory(): Memory reads this { Memory(previousAt, previousDevice, currentHour) }
    ghost function OnDisk(): Store reads this { Store(records, checkpoint) }

    method FlushHour(io: Outcome)
      modifies this`currentHour, this`records, this`checkpoint
      ensures (InMemory(), OnDisk()) == Flushed(old(InMemory()), old(OnDisk()), io)
    {
      if currentHour.None? { return; }
      var record := currentHour.value;
      currentHour := None;
      if record.samples == 0 && record.identity == "" { return; }
      if !io.appends {
        if io.parks { checkpoint := Some(record); }
        return;
      }
      records := records + [record];
      if io.removes { checkpoint := None; }
    }

    method EnsureCurrentHour(at: Time, io: Outcome)
      modifies this`currentHour, this`records, this`checkpoint
      ensures (InMemory(), OnDisk()) == Ensured(old(InMemory()), old(OnDisk()), at, io)
    {
      if currentHour.None? || currentHour.value.hour != HourOf(at) {
        FlushHour(io);
        currentHour := Some(NewHour(at));
      }
    }

    method CheckpointHour(writes: bool)
      modifies this`checkpoint
      ensures OnDisk() == Checkpointed(old(InMemory()), old(OnDisk()), writes)
    {
      if currentHour.None? { return; }
      if currentHour.value.samples == 0 && currentHour.value.identity == "" { return; }
      if writes { checkpoint := currentHour; }
    }

    method Sample(at: Time, device: Counter, io: Outcome)
      modifies this`previousAt, this`previousDevice, this`currentHour, this`records, this`checkpoint
      ensures (InMemory(), OnDisk()) ==
              Sampled(old(InMemory()), old(OnDisk()), at, device, sampleIntervalSeconds, io)
    {
      var elapsed := at - previousAt;
      var hasPrevious := previousAt != NO_TIME && device.identity == previousDevice.identity
                         && device.bytes >= previousDevice.bytes;
      var validWindow := hasPrevious && elapsed > 0 && elapsed <= Max(45, sampleIntervalSeconds * 3) * SECOND;
      validWindow := validWindow && elapsed >= Max(1, sampleIntervalSeconds / 3) * SECOND;
      var delta := 0;
      if hasPrevious { delta := device.bytes - previousDevice.bytes; }
      previousAt, previousDevice := at, device;
      EnsureCurrentHour(at, io);
      var hour := currentHour.value;
      if validWindow {
        hour := hour.(bytes := DiskHistogram.SaturatingAdd(hour.bytes, delta), samples := hour.samples + 1);
      } else if hasPrevious {
        hour := hour.(gap := DiskHistogram.SaturatingAdd(hour.gap, delta));
      }
      currentHour := Some(hour.(lastAt := at, identity := device.identity, device := device.bytes));
    }

    method Restore()
      modifies this`previousAt, this`previousDevice, this`currentHour
      ensures InMemory() == Restored(OnDisk())
    {
      previousAt, previousDevice, currentHour := NO_TIME, Counter(0, ""), None;
      var readable := records;
      if checkpoint.Some? {
        var superseded := CheckpointSuperseded(records, checkpoint.value);
        if !superseded {
          readable := records + [checkpoint.value];
          currentHour := checkpoint;
        }
      }
      var newest: Option<HourRecord> := None;
      for i := 0 to |readable|
        invariant newest == Newest(readable[..i])
      {
        var r := readable[i];
        assert readable[..i + 1][..i] == readable[..i];
        if r.lastAt != NO_TIME && r.identity != "" && (newest.None? || r.lastAt > newest.value.lastAt) {
          newest := Some(r);
        }
      }
      assert readable[..|readable|] == readable;
      if newest.Some? {
        previousAt, previousDevice := newest.value.lastAt, Counter(newest.value.device, newest.value.identity);
      }
    }
  }

  method CheckpointSuperseded(records: seq<HourRecord>, c: HourRecord) returns (b: bool)
    ensures b == Superseded(records, c)
  {
    for i := 0 to |records|
      invariant forall j :: 0 <= j < i ==> !Supersedes(records[j], c)
    {
      if records[i].hour != c.hour { continue; }
      if records[i].lastAt >= c.lastAt && records[i].identity == c.identity && records[i].device >= c.device {
        assert Supersedes(records[i], c);
        return true;
      }
    }
    return false;
  }

  // ----- whole runs: samples, flushes, shutdowns, crashes and restores -----

  /**
   A sample, with the outcome of the flush it may cause; or the death of the process and the start of the next,
   cleanly (the partial hour is checkpointed if the write succeeds) or by a crash.
   A crash between the append of an hour and the removal of its checkpoint is a failed removal and a crash.
   */
  datatype Step =
    | Sample(at: Time, bytes: nat, interval: int, io: Outcome)
    | Restart(clean: bool, writes: bool)

  /** `anchor` is the counter at the last sample that had no previous one to measure from. */
  datatype System = System(memory: Memory, store: Store, anchor: nat)

  function Next(sys: System, id: string, step: Step): System {
    match step
    case Sample(at, bytes, interval, io) =>
      var device := Counter(bytes, id);
      var (m, s) := Sampled(sys.memory, sys.store, at, device, interval, io);
      System(m, s, if HasPrevious(sys.memory, device) then sys.anchor else bytes)
    case Restart(clean, writes) =>
      var s := if clean then Checkpointed(sys.memory, sys.store, writes) else sys.store;
      System(Restored(s), s, sys.anchor)
  }

  function Live(id: string, steps: seq<Step>): System {
    if steps == [] then System(FORGOTTEN, Store([], None), 0)
    else Next(Live(id, steps[..|steps| - 1]), id, steps[|steps| - 1])
  }

  function Sum(records: seq<HourRecord>): nat {
    if records == [] then 0 else Sum(records[..|records| - 1]) + Traffic(records[|records| - 1])
  }

  function OpenTraffic(m: Memory): nat { if m.hour.Some? then Traffic(m.hour.value) else 0 }

  /** Scored and gap bytes of the persisted records and of the hour in memory. */
  function Accounted(sys: System): nat { Sum(sys.store.records) + OpenTraffic(sys.memory) }

  /** What a reader of the store alone adds up: the records and a checkpoint none of them supersedes. */
  function Durable(s: Store): nat {
    Sum(s.records) + if LiveCheckpoint(s).Some? then Traffic(LiveCheckpoint(s).value) else 0
  }

  /** Appends succeed, sample times strictly increase from a positive instant, and the 64-bit counter never
      decreases. */
  ghost predicate Steady(steps: seq<Step>) {
    && (forall i :: 0 <= i < |steps| && steps[i].Sample? ==>
          steps[i].at > 0 && steps[i].bytes <= DiskHistogram.MAX64 && steps[i].io.appends)
    && forall i, j :: 0 <= i < j < |steps| && steps[i].Sample? && steps[j].Sample? ==>
         steps[i].at < steps[j].at && steps[i].bytes <= steps[j].bytes
  }

  // ----- the invariant -----

  /** A record is at or before sample time `at` and counter `bytes`. */
  predicate Before(r: HourRecord, id: string, at: Time, bytes: nat) {
    r.identity == id && NO_TIME < r.lastAt <= at && r.device <= bytes && r.hour == HourOf(r.lastAt)
  }

  ghost predicate OnTape(records: seq<HourRecord>, id: string, anchor: nat) {
    && (forall i :: 0 <= i < |records| ==>
          Before(records[i], id, records[|records| - 1].lastAt, records[|records| - 1].device))
    && (forall i :: 0 <= i < |records| - 1 ==> records[i].lastAt < records[|records| - 1].lastAt)
    && (records != [] ==>
          anchor <= records[|records| - 1].device && Sum(records) == records[|records| - 1].device - anchor)
  }

  /** An hour still to be flushed: newer than every record, and with them it accounts for its counter. */
  ghost predicate Pending(r: HourRecord, records: seq<HourRecord>, id: string, anchor: nat) {
    && Before(r, id, r.lastAt, r.device)
    && (forall i :: 0 <= i < |records| ==> records[i].lastAt < r.lastAt && records[i].device <= r.device)
    && anchor <= r.device && Sum(records) + Traffic(r) == r.device - anchor
  }

  ghost predicate Covered(c: HourRecord, m: Memory) {
    m.hour.Some? && Supersedes(m.hour.value, c)
  }

  ghost predicate Conserves(sys: System, id: string) {
    var m, s := sys.memory, sys.store;
    && OnTape(s.records, id, sys.anchor)
    && (m.hour.Some? ==> Pending(m.hour.value, s.records, id, sys.anchor)
                         && m.previousAt == m.hour.value.lastAt && m.previous == Counter(m.hour.value.device, id))
    && (m.hour.None? && s.records != [] ==>
          && m.previousAt == s.records[|s.records| - 1].lastAt
          && m.previous == Counter(s.records[|s.records| - 1].device, id))
    && (m.hour.None? && s.records == [] ==> m == FORGOTTEN)
    && (LiveCheckpoint(s).Some? ==>
          Pending(s.checkpoint.value, s.records, id, sys.anchor) && Covered(s.checkpoint.value, m))
  }

  lemma {:induction false} SumSnoc(records: seq<HourRecord>, r: HourRecord)
    ensures Sum(records + [r]) == Sum(records) + Traffic(r)
  {
    assert (records + [r])[..|records|] == records;
  }

  lemma {:induction false} NewestIsLast(records: seq<HourRecord>, id: string)
    requires id != "" && records != []
    requires forall i :: 0 <= i < |records| ==> records[i].identity == id && records[i].lastAt > NO_TIME
    requires forall i :: 0 <= i < |records| - 1 ==> records[i].lastAt < records[|records| - 1].lastAt
    ensures Newest(records) == Some(records[|records| - 1])
  {
    var init := records[..|records| - 1];
    NewestIsOne(init);
    assert forall x :: x in init ==> exists i :: 0 <= i < |records| - 1 && records[i] == x;
  }

  lemma {:induction false} NewestIsOne(records: seq<HourRecord>)
    ensures Newest(records).Some? ==> Newest(records).value in records
  {
    if records != [] { NewestIsOne(records[..|records| - 1]); }
  }

  lemma {:induction false} RestoreConserves(s: Store, id: string, anchor: nat)
    requires id != "" && OnTape(s.records, id, anchor)
    requires LiveCheckpoint(s).Some? ==> Pending(s.checkpoint.value, s.records, id, anchor)
    ensures Conserves(System(Restored(s), s, anchor), id)
  {
    assert Newest([]).None?;
    hide Sum, Newest, Superseded;
    var readable := Readable(s);
    assert LiveCheckpoint(s).Some? ==> readable == s.records + [s.checkpoint.value];
    assert LiveCheckpoint(s).None? ==> readable == s.records;
    if readable != [] {
      NewestIsLast(readable, id);
      assert Newest(readable) == Some(readable[|readable| - 1]);
    }
  }

  lemma {:induction false} CheckpointStandsAlone(r: HourRecord, records: seq<HourRecord>, id: string, anchor: nat)
    requires Pending(r, records, id, anchor)
    ensures !Superseded(records, r)
  {
  }

  /** A restart, clean or not, loses no accounted byte and never moves the previous sample forward. */
  lemma {:induction false} RestartConserves(sys: System, id: string, clean: bool, writes: bool)
    requires id != "" && Conserves(sys, id)
    ensures var next := Next(sys, id, Restart(clean, writes));
            && Conserves(next, id) && next.memory.previousAt <= Max(0, sys.memory.previousAt)
            && next.memory.previous.bytes <= sys.memory.previous.bytes
  {
    hide Sum, Newest, Superseded;
    var s := if clean then Checkpointed(sys.memory, sys.store, writes) else sys.store;
    if s != sys.store {
      CheckpointStandsAlone(sys.memory.hour.value, s.records, id, sys.anchor);
    }
    RestoreConserves(s, id, sys.anchor);
  }

  lemma {:induction false} FlushConserves(m: Memory, s: Store, id: string, anchor: nat, io: Outcome)
    requires Conserves(System(m, s, anchor), id) && m.hour.Some? && id != "" && io.appends
    ensures var (m', s') := Flushed(m, s, io);
            && OnTape(s'.records, id, anchor) && s'.records != [] && LiveCheckpoint(s').None?
            && s'.records[|s'.records| - 1] == m.hour.value
  {
    var r := m.hour.value;
    TapeGrows(s.records, r, id, anchor);
    FlushedCheckpoint(s, r) by { if LiveCheckpoint(s).Some? { assert Covered(s.checkpoint.value, m); } }
    hide OnTape, Superseded;
    PendingIsPersistable(r, s.records, id, anchor);
  }

  /** Appending a pending hour keeps the records in order and their sum exact. */
  lemma {:induction false} TapeGrows(records: seq<HourRecord>, r: HourRecord, id: string, anchor: nat)
    requires OnTape(records, id, anchor) && Pending(r, records, id, anchor)
    ensures OnTape(records + [r], id, anchor)
  {
    hide Sum, HourOf;
    SumSnoc(records, r);
    var all := records + [r];
    assert all[|all| - 1] == r && forall i :: 0 <= i < |records| ==> all[i] == records[i];
  }

  /** An appended hour supersedes the checkpoint it covers, whether or not that checkpoint is removed. */
  lemma {:induction false} FlushedCheckpoint(s: Store, r: HourRecord)
    requires LiveCheckpoint(s).Some? ==> Supersedes(r, s.checkpoint.value)
    ensures LiveCheckpoint(s.(records := s.records + [r])).None?
  {
    var records := s.records + [r];
    assert records[|s.records|] == r && forall i :: 0 <= i < |s.records| ==> records[i] == s.records[i];
    if s.checkpoint.Some? {
      var c := s.checkpoint.value;
      if Superseded(s.records, c) {
        var i :| 0 <= i < |s.records| && Supersedes(s.records[i], c);
        assert Supersedes(records[i], c);
      } else {
        assert Supersedes(records[|s.records|], c);
      }
    }
  }

  /** Recording a sample in the hour of the last one. */
  lemma {:induction false} RecordConserves(r: HourRecord, records: seq<HourRecord>, id: string, anchor: nat,
                                           at: Time, bytes: nat, valid: bool)
    requires Pending(r, records, id, anchor) && r.lastAt < at && r.hour == HourOf(at)
    requires r.device <= bytes <= DiskHistogram.MAX64
    ensures var r' := Recorded(r, at, bytes - r.device, Counter(bytes, id), true, valid);
            Pending(r', records, id, anchor) && Supersedes(r', r)
  {
  }

  /** Recording a sample that opens an hour after `records`. */
  lemma {:induction false} OpenConserves(records: seq<HourRecord>, id: string, anchor: nat, at: Time, bytes: nat,
                                         valid: bool)
    requires OnTape(records, id, anchor) && records != [] && 0 < at
    requires var last := records[|records| - 1]; last.lastAt < at && last.device <= bytes <= DiskHistogram.MAX64
    ensures var last := records[|records| - 1];
            var r := Recorded(NewHour(at), at, bytes - last.device, Counter(bytes, id), true, valid);
            Pending(r, records, id, anchor)
  {
  }

  /** A system whose hour is pending, whose previous sample is that hour's last, and whose checkpoint is covered. */
  lemma {:induction false} PendingConserves(r: HourRecord, s: Store, id: string, anchor: nat)
    requires OnTape(s.records, id, anchor) && Pending(r, s.records, id, anchor)
    requires LiveCheckpoint(s).Some? ==>
               Pending(s.checkpoint.value, s.records, id, anchor) && Supersedes(r, s.checkpoint.value)
    ensures Conserves(System(Memory(r.lastAt, Counter(r.device, id), Some(r)), s, anchor), id)
  {
  }

  lemma {:induction false} PreviousIsKnown(sys: System, id: string)
    requires Conserves(sys, id) && sys.memory != FORGOTTEN
    ensures sys.memory.previousAt > NO_TIME && sys.memory.previous.identity == id
  {
  }

  lemma {:induction false} FirstConserves(id: string, at: Time, bytes: nat)
    requires 0 < at
    ensures Pending(Recorded(NewHour(at), at, 0, Counter(bytes, id), false, false), [], id, bytes)
  {
    assert Sum([]) == 0;
  }

  ghost predicate SampleGood(sys: System, id: string, at: Time, bytes: nat, interval: int, io: Outcome) {
    var next := Next(sys, id, Sample(at, bytes, interval, io));
    Conserves(next, id) && next.memory.previousAt == at && next.memory.previous == Counter(bytes, id)
  }

  lemma {:induction false} FirstSampleGood(sys: System, id: string, at: Time, bytes: nat, interval: int, io: Outcome)
    requires Conserves(sys, id) && sys.memory == FORGOTTEN && 0 < at
    ensures SampleGood(sys, id, at, bytes, interval, io)
  {
    FirstConserves(id, at, bytes);
    assert OnTape([], id, bytes);
    hide Pending, OnTape, HourOf;
    PendingConserves(Recorded(NewHour(at), at, 0, Counter(bytes, id), false, false), sys.store, id, bytes);
  }

  lemma {:induction false} OpeningSampleGood(sys: System, id: string, at: Time, bytes: nat, interval: int, io: Outcome)
    requires Conserves(sys, id) && sys.memory != FORGOTTEN && sys.memory.hour.None? && sys.memory.previousAt < at
    requires sys.memory.previous.bytes <= bytes <= DiskHistogram.MAX64
    ensures SampleGood(sys, id, at, bytes, interval, io)
  {
    var m, device := sys.memory, Counter(bytes, id);
    var valid := ValidWindow(m, at, device, interval);
    PreviousIsKnown(sys, id);
    OpenConserves(sys.store.records, id, sys.anchor, at, bytes, valid);
    hide Pending, OnTape, HourOf, ValidWindow;
    PendingConserves(Recorded(NewHour(at), at, Delta(m, device), device, true, valid), sys.store, id, sys.anchor);
  }

  lemma {:induction false} SameHourSampleGood(sys: System, id: string, at: Time, bytes: nat, interval: int, io: Outcome)
    requires Conserves(sys, id) && sys.memory.hour.Some? && sys.memory.hour.value.hour == HourOf(at)
    requires sys.memory.previousAt < at
    requires sys.memory.previous.bytes <= bytes <= DiskHistogram.MAX64
    ensures SampleGood(sys, id, at, bytes, interval, io)
  {
    var m, s, device := sys.memory, sys.store, Counter(bytes, id);
    var valid := ValidWindow(m, at, device, interval);
    PreviousIsKnown(sys, id);
    RecordConserves(m.hour.value, s.records, id, sys.anchor, at, bytes, valid);
    hide Pending, OnTape, HourOf, ValidWindow;
    PendingConserves(Recorded(m.hour.value, at, Delta(m, device), device, true, valid), s, id, sys.anchor);
  }

  lemma {:induction false} NextHourSampleGood(sys: System, id: string, at: Time, bytes: nat, interval: int, io: Outcome)
    requires Conserves(sys, id) && sys.memory.hour.Some? && sys.memory.hour.value.hour != HourOf(at)
    requires sys.memory.previousAt < at
    requires io.appends && id != "" && sys.memory.previous.bytes <= bytes <= DiskHistogram.MAX64
    ensures SampleGood(sys, id, at, bytes, interval, io)
  {
    hide Pending, OnTape, HourOf, ValidWindow, LiveCheckpoint, Flushed, Recorded, Sum, Next;
    var m, s, device := sys.memory, sys.store, Counter(bytes, id);
    var valid := ValidWindow(m, at, device, interval);
    PreviousIsKnown(sys, id);
    FlushConserves(m, s, id, sys.anchor, io);
    var s' := Flushed(m, s, io).1;
    OpenConserves(s'.records, id, sys.anchor, at, bytes, valid);
    var r := Recorded(NewHour(at), at, bytes - m.previous.bytes, device, true, valid);
    RecordedSample(NewHour(at), at, bytes - m.previous.bytes, device, true, valid);
    PendingConserves(r, s', id, sys.anchor);
    NextHourState(sys, id, at, bytes, interval, io);
  }

  /** A sample in another hour starts that hour after the flush. */
  lemma NextHourState(sys: System, id: string, at: Time, bytes: nat, interval: int, io: Outcome)
    requires sys.memory.hour.Some? && sys.memory.hour.value.hour != HourOf(at) && sys.memory.previousAt != NO_TIME
    requires sys.memory.previous.identity == id && sys.memory.previous.bytes <= bytes
    ensures var m, device := sys.memory, Counter(bytes, id);
            var valid := ValidWindow(m, at, device, interval);
            var r := Recorded(NewHour(at), at, bytes - m.previous.bytes, device, true, valid);
            Next(sys, id, Sample(at, bytes, interval, io))
            == System(Memory(at, device, Some(r)), Flushed(m, sys.store, io).1, sys.anchor)
  {
    hide HourOf, ValidWindow, Flushed, Recorded, NewHour;
  }

  lemma RecordedSample(r: HourRecord, at: Time, delta: nat, device: Counter, hasPrevious: bool, valid: bool)
    ensures var next := Recorded(r, at, delta, device, hasPrevious, valid);
            next.lastAt == at && next.device == device.bytes && next.identity == device.identity
  {
  }

  /** A sample adds exactly its distance from the previous one, across an hour boundary or not. */
  lemma {:induction false} SampleConserves(sys: System, id: string, at: Time, bytes: nat, interval: int, io: Outcome)
    requires io.appends && id != "" && Conserves(sys, id) && Max(0, sys.memory.previousAt) < at
    requires sys.memory.previous.bytes <= bytes <= DiskHistogram.MAX64
    ensures SampleGood(sys, id, at, bytes, interval, io)
  {
    hide Conserves, SampleGood, HourOf;
    if sys.memory == FORGOTTEN {
      FirstSampleGood(sys, id, at, bytes, interval, io);
    } else if sys.memory.hour.None? {
      OpeningSampleGood(sys, id, at, bytes, interval, io);
    } else if sys.memory.hour.value.hour == HourOf(at) {
      SameHourSampleGood(sys, id, at, bytes, interval, io);
    } else {
      NextHourSampleGood(sys, id, at, bytes, interval, io);
    }
  }

  /** Index of the latest sample of a run, or -1. */
  function LastSample(steps: seq<Step>): (i: int)
    ensures -1 <= i < |steps| && (i >= 0 ==> steps[i].Sample?)
    ensures forall k :: i < k < |steps| ==> !steps[k].Sample?
  {
    if steps == [] then -1
    else if steps[|steps| - 1].Sample? then |steps| - 1
    else LastSample(steps[..|steps| - 1])
  }

  ghost predicate PreviousIsPast(m: Memory, steps: seq<Step>) {
    var i := LastSample(steps);
    if i == -1 then m.previousAt <= 0 && m.previous.bytes == 0
    else m.previousAt <= steps[i].at && m.previous.bytes <= steps[i].bytes
  }

  lemma {:induction false} ConservesAlways(id: string, steps: seq<Step>)
    requires id != "" && Steady(steps)
    ensures Conserves(Live(id, steps), id) && PreviousIsPast(Live(id, steps).memory, steps)
  {
    if steps != [] {
      hide Conserves;
      var init, last := steps[..|steps| - 1], steps[|steps| - 1];
      assert Steady(init);
      ConservesAlways(id, init);
      var sys := Live(id, init);
      match last
      case Sample(at, bytes, interval, io) =>
        var i := LastSample(init);
        if i >= 0 { assert steps[i] == init[i]; }
        SampleConserves(sys, id, at, bytes, interval, io);
      case Restart(clean, writes) =>
        RestartConserves(sys, id, clean, writes);
    } else {
      assert Sum([]) == 0;
    }
  }

  /**
   Whatever the interleaving of samples, flushes, shutdowns and crashes, the bytes accounted for are the
   distance from the anchor to the counter of the latest sample that survived.
   */
  lemma {:induction false} BytesAreConserved(id: string, steps: seq<Step>)
    requires id != "" && Steady(steps) && Live(id, steps).memory.previousAt != NO_TIME
    ensures var sys := Live(id, steps);
            sys.anchor <= sys.memory.previous.bytes && Accounted(sys) == sys.memory.previous.bytes - sys.anchor
    ensures LastSample(steps) == |steps| - 1 ==> Live(id, steps).memory.previous.bytes == steps[|steps| - 1].bytes
  {
    hide Sum;
    ConservesAlways(id, steps);
  }

  // ----- what a restart keeps -----

  /** A crash between the append of an hour and the removal of its checkpoint: a reader of the store adds up the same
      total as if the removal had happened, the flushed hour included once. */
  lemma {:induction false} CutOffFlushKeepsDurable(m: Memory, s: Store, id: string, anchor: nat, parks: bool)
    requires Conserves(System(m, s, anchor), id) && m.hour.Some? && id != ""
    ensures var cut, whole := Flushed(m, s, Outcome(true, parks, false)).1, Flushed(m, s, Outcome(true, parks, true)).1;
            Durable(cut) == Durable(whole) == Accounted(System(m, s, anchor))
  {
    FlushConserves(m, s, id, anchor, Outcome(true, parks, false));
    FlushConserves(m, s, id, anchor, Outcome(true, parks, true));
    SumSnoc(s.records, m.hour.value);
    hide OnTape, Pending, LiveCheckpoint;
    assert Persistable(m.hour.value) by { PendingIsPersistable(m.hour.value, s.records, id, anchor); }
  }

  lemma PendingIsPersistable(r: HourRecord, records: seq<HourRecord>, id: string, anchor: nat)
    requires Pending(r, records, id, anchor) && id != ""
    ensures Persistable(r)
  {
  }

  /** A clean restart whose checkpoint is written resumes at the very sample it left, with every accounted byte
      durable. */
  lemma {:induction false} CleanRestartLosesNothing(sys: System, id: string)
    requires id != "" && Conserves(sys, id)
    ensures var next := Next(sys, id, Restart(true, true));
            && next.memory.previous == sys.memory.previous && Durable(next.store) == Accounted(sys) == Accounted(next)
            && next.memory.hour == sys.memory.hour
  {
    hide Sum, Newest, Superseded;
    var s := Checkpointed(sys.memory, sys.store, true);
    if sys.memory.hour.Some? { CheckpointStandsAlone(sys.memory.hour.value, s.records, id, sys.anchor); }
    RestoreConserves(s, id, sys.anchor);
  }

  /** After any run, a clean shutdown leaves in the store exactly the counter's distance from the anchor. */
  lemma {:induction false} ShutdownIsComplete(id: string, steps: seq<Step>)
    requires id != "" && Steady(steps) && Live(id, steps).memory.previousAt != NO_TIME
    ensures var sys, after := Live(id, steps), Live(id, steps + [Restart(true, true)]);
            && Durable(after.store) == sys.memory.previous.bytes - sys.anchor
            && after.memory.previous == sys.memory.previous
  {
    assert (steps + [Restart(true, true)])[..|steps|] == steps;
    hide Conserves, Accounted, Durable, Next;
    ConservesAlways(id, steps);
    BytesAreConserved(id, steps);
    CleanRestartLosesNothing(Live(id, steps), id);
  }

  // ----- which counter the total is measured from -----

  function FirstSample(steps: seq<Step>): (i: int)
    ensures -1 <= i < |steps| && (i >= 0 ==> steps[i].Sample?)
    ensures forall k :: 0 <= k < |steps| && k < i ==> !steps[k].Sample?
    ensures i == -1 ==> forall k :: 0 <= k < |steps| ==> !steps[k].Sample?
  {
    if steps == [] then -1
    else
      var i := FirstSample(steps[..|steps| - 1]);
      if i >= 0 then i else if steps[|steps| - 1].Sample? then |steps| - 1 else -1
  }

  /** Nothing durable yet. */
  predicate Bare(s: Store) { s.records == [] && s.checkpoint.None? }

  /** Sample `j` is not the first, but it follows a restart that found nothing to restore. */
  ghost predicate Unmoored(id: string, steps: seq<Step>, j: int) {
    && 0 <= j < |steps| && steps[j].Sample? && FirstSample(steps[..j]) >= 0
    && Bare(Live(id, steps[..j]).store) && Live(id, steps[..j]).memory.hour.None?
  }

  ghost predicate Anchors(anchor: nat, id: string, steps: seq<Step>) {
    var f := FirstSample(steps);
    f >= 0 ==>
      && (anchor == steps[f].bytes || exists j :: Unmoored(id, steps, j) && anchor == steps[j].bytes)
      && forall j :: Unmoored(id, steps, j) ==> steps[j].bytes <= anchor
  }

  lemma {:induction false} UnmooredPrefix(id: string, steps: seq<Step>, last: Step, j: int)
    ensures var all := steps + [last];
            j < |steps| ==> Unmoored(id, all, j) == Unmoored(id, steps, j)
    ensures var sys := Live(id, steps);
            Unmoored(id, steps + [last], |steps|) <==>
              last.Sample? && FirstSample(steps) >= 0 && Bare(sys.store) && sys.memory.hour.None?
  {
    var all := steps + [last];
    assert all[..|steps|] == steps;
    if 0 <= j < |steps| { assert all[..j] == steps[..j]; }
  }

  lemma {:induction false} ForgottenIffBare(id: string, sys: System)
    requires Conserves(sys, id)
    ensures sys.memory == FORGOTTEN <==> Bare(sys.store) && sys.memory.hour.None?
  {
  }

  lemma SteadyPrefix(steps: seq<Step>, last: Step)
    requires Steady(steps + [last])
    ensures Steady(steps)
  {
    var all := steps + [last];
    assert forall i :: 0 <= i < |steps| ==> all[i] == steps[i];
  }

  lemma {:induction false} AnchorsAlways(id: string, steps: seq<Step>)
    requires id != "" && Steady(steps)
    ensures Anchors(Live(id, steps).anchor, id, steps)
  {
    if steps == [] {
      hide Conserves;
    } else {
      var init, last := steps[..|steps| - 1], steps[|steps| - 1];
      assert init + [last] == steps;
      SteadyPrefix(init, last);
      hide Anchors, Steady, Conserves, PreviousIsPast, Live;
      AnchorsAlways(id, init);
      ConservesAlways(id, init);
      AnchorStep(id, init, last);
    }
  }

  lemma {:induction false} NextAnchor(id: string, init: seq<Step>, last: Step)
    requires Steady(init + [last])
    requires Conserves(Live(id, init), id) && PreviousIsPast(Live(id, init).memory, init)
    ensures var sys := Live(id, init);
            Live(id, init + [last]).anchor ==
              if last.Sample? && Bare(sys.store) && sys.memory.hour.None? then last.bytes else sys.anchor
    ensures FirstSample(init) < 0 ==> Bare(Live(id, init).store) && Live(id, init).memory.hour.None?
  {
    var steps, sys := init + [last], Live(id, init);
    assert steps[..|init|] == init;
    ForgottenIffBare(id, sys);
    if sys.memory != FORGOTTEN { PreviousIsKnown(sys, id); }
    var i := LastSample(init);
    if i >= 0 { assert steps[i] == init[i] && steps[|init|] == last; }
  }

  lemma {:induction false} FirstSampleStep(init: seq<Step>, last: Step)
    ensures FirstSample(init + [last])
            == if FirstSample(init) >= 0 then FirstSample(init) else if last.Sample? then |init| else -1
  {
    assert (init + [last])[..|init|] == init;
  }

  lemma {:induction false} AnchorStep(id: string, init: seq<Step>, last: Step)
    requires Steady(init + [last]) && Anchors(Live(id, init).anchor, id, init)
    requires Conserves(Live(id, init), id) && PreviousIsPast(Live(id, init).memory, init)
    ensures Anchors(Live(id, init + [last]).anchor, id, init + [last])
  {
    hide Conserves, Unmoored, Live, PreviousIsPast, FirstSample;
    var steps, f := init + [last], FirstSample(init);
    NextAnchor(id, init, last);
    FirstSampleStep(init, last);
    UnmooredPrefix(id, init, last, 0);
    forall j
      ensures Unmoored(id, steps, j)
              <==> if j < |init| then Unmoored(id, init, j) else j == |init| && Unmoored(id, steps, |init|)
    {
      UnmooredPrefix(id, init, last, j);
      UnmooredInRange(id, steps, j);
    }
    forall j | Unmoored(id, init, j) ensures 0 <= j < |init| && init[j].Sample? && steps[j] == init[j] {
      UnmooredInRange(id, init, j);
    }
    if f >= 0 {
      assert steps[f] == init[f];
      assert Unmoored(id, steps, |init|) ==> steps[|init|] == last;
    } else {
      forall j ensures !Unmoored(id, init, j) {
        if Unmoored(id, init, j) { UnmooredInRange(id, init, j); UnmooredIsLater(id, init, j); }
      }
    }
  }

  lemma {:induction false} UnmooredInRange(id: string, steps: seq<Step>, j: int)
    ensures Unmoored(id, steps, j) ==> 0 <= j < |steps| && steps[j].Sample?
  {
  }

  /**
   The total is measured from the very first counter if and only if no sample that followed a restart
   with an empty store read a larger one.
   */
  lemma {:induction false} ConservedFromFirstIff(id: string, steps: seq<Step>)
    requires id != "" && Steady(steps) && Live(id, steps).memory.previousAt != NO_TIME && FirstSample(steps) >= 0
    ensures var sys, first := Live(id, steps), steps[FirstSample(steps)].bytes;
            Accounted(sys) == sys.memory.previous.bytes - first <==>
            forall j :: Unmoored(id, steps, j) ==> steps[j].bytes == first
  {
    BytesAreConserved(id, steps);
    AnchorsAlways(id, steps);
    hide Live, Unmoored;
    var f := FirstSample(steps);
    forall j | Unmoored(id, steps, j) ensures steps[f].bytes <= steps[j].bytes {
      UnmooredIsLater(id, steps, j);
    }
  }

  lemma {:induction false} UnmooredIsLater(id: string, steps: seq<Step>, j: int)
    requires Unmoored(id, steps, j)
    ensures FirstSample(steps) < j
  {
    var i := FirstSample(steps[..j]);
    assert steps[i] == steps[..j][i] && steps[i].Sample?;
  }

  const WELL := Outcome(true, true, true)
  const FULL := Outcome(false, true, true)
  const BARE_CRASH: seq<Step> := [
    Sample(HOUR, 100, 15, WELL), Restart(false, true), Sample(HOUR + 15 * SECOND, 150, 15, WELL)]

  /** A crash before anything is durable: fifty bytes are never accounted for. */
  lemma {:induction false} BareCrashLosesBytes()
    ensures Steady(BARE_CRASH) && Accounted(Live("ssd", BARE_CRASH)) == 0
  {
    assert BARE_CRASH[..1][..0] == [] && BARE_CRASH[..2][..1] == BARE_CRASH[..1] && BARE_CRASH[..3] == BARE_CRASH;
    assert BARE_CRASH[..3][..2] == BARE_CRASH[..2];
    assert Live("ssd", BARE_CRASH[..1]).store == Store([], None);
    assert Live("ssd", BARE_CRASH[..2]).memory == FORGOTTEN;
    assert Sum([]) == 0;
  }

  // ----- an append that fails -----

  /** Two samples that each open an hour: the flush of the first fails to append, that of the second succeeds. */
  ghost predicate FailsThenSucceeds(sys: System, first: Step, second: Step) {
    && first.Sample? && second.Sample? && !first.io.appends && second.io.appends && second.io.removes
    && sys.memory.hour.Some? && sys.memory.previousAt < first.at < second.at
    && HourOf(first.at) != sys.memory.hour.value.hour && HourOf(second.at) != HourOf(first.at)
    && sys.memory.previous.bytes <= first.bytes <= second.bytes <= DiskHistogram.MAX64
  }

  /**
   An hour whose append fails is parked at best, and the next successful flush removes what was parked: the bytes are
   still conserved if and only if that hour had no traffic.
   */
  lemma {:induction false} FailedAppendConservesIff(sys: System, id: string, first: Step, second: Step)
    requires id != "" && Conserves(sys, id) && FailsThenSucceeds(sys, first, second)
    ensures var end := Next(Next(sys, id, first), id, second);
            && Accounted(end) + Traffic(sys.memory.hour.value) == second.bytes - end.anchor
            && LiveCheckpoint(end.store).None? && end.anchor == sys.anchor
            && (Accounted(end) == second.bytes - end.anchor <==> Traffic(sys.memory.hour.value) == 0)
  {
    hide ValidWindow, HourOf, Supersedes, Next, Sum, Conserves;
    var r, records := sys.memory.hour.value, sys.store.records;
    OpenHour(sys, id);
    NextHourState(sys, id, first.at, first.bytes, first.interval, first.io);
    var s1 := Next(sys, id, first);
    assert s1.store.records == records && s1.anchor == sys.anchor;
    assert Traffic(s1.memory.hour.value) == first.bytes - r.device && Persistable(s1.memory.hour.value);
    NextHourState(s1, id, second.at, second.bytes, second.interval, second.io);
    SumSnoc(records, s1.memory.hour.value);
  }

  /** The open hour of a conserving system, with the records, accounts for its counter. */
  lemma OpenHour(sys: System, id: string)
    requires id != "" && Conserves(sys, id) && sys.memory.hour.Some?
    ensures var r, m := sys.memory.hour.value, sys.memory;
            && m.previousAt > NO_TIME && m.previous == Counter(r.device, id) && Persistable(r)
            && sys.anchor <= r.device && Sum(sys.store.records) + Traffic(r) == r.device - sys.anchor
  {
    hide Sum, LiveCheckpoint;
  }

  const FAILED_APPEND: seq<Step> := [
    Sample(HOUR, 100, 15, WELL), Sample(HOUR + 15 * SECOND, 150, 15, WELL), Sample(2 * HOUR, 200, 15, FULL),
    Sample(3 * HOUR, 260, 15, WELL)]

  /** Fifty bytes of the first hour are gone although nothing crashed. */
  lemma {:induction false} FailedAppendLosesHour()
    ensures var end := Live("ssd", FAILED_APPEND);
            && end.anchor == 100 && end.memory.previous.bytes == 260 && Accounted(end) == 110
            && LiveCheckpoint(end.store).None?
  {
    var two := [FAILED_APPEND[0], FAILED_APPEND[1]];
    var sys := Live("ssd", two);
    TwoSamples();
    ConservesAlways("ssd", two);
    FailedAppendConservesIff(sys, "ssd", FAILED_APPEND[2], FAILED_APPEND[3]);
    hide Next, Accounted, Conserves;
    assert FAILED_APPEND[..2] == two && FAILED_APPEND[..3][..2] == two && FAILED_APPEND[..3][2] == FAILED_APPEND[2];
    assert Live("ssd", FAILED_APPEND[..3]) == Next(sys, "ssd", FAILED_APPEND[2]);
    assert Live("ssd", FAILED_APPEND) == Next(Live("ssd", FAILED_APPEND[..3]), "ssd", FAILED_APPEND[3]);
    SampleSetsCounter(Live("ssd", FAILED_APPEND[..3]), "ssd", FAILED_APPEND[3]);
  }

  lemma SampleSetsCounter(sys: System, id: string, step: Step)
    requires step.Sample?
    ensures Next(sys, id, step).memory.previous == Counter(step.bytes, id)
  {
  }

  /** The first hour of that run: two samples fifty bytes apart. */
  lemma {:induction false} TwoSamples()
    ensures var two := [FAILED_APPEND[0], FAILED_APPEND[1]]; var m := Live("ssd", two).memory;
            && Steady(two) && Live("ssd", two).anchor == 100 && m.hour.Some? && m.hour.value.hour == 1
            && Traffic(m.hour.value) == 50 && m.previous == Counter(150, "ssd") && m.previousAt == HOUR + 15 * SECOND
  {
    var two := [FAILED_APPEND[0], FAILED_APPEND[1]];
    assert two[..1] == [two[0]] && two[..1][..0] == [];
    var one := Live("ssd", two[..1]);
    assert Live("ssd", two[..1][..0]) == System(FORGOTTEN, Store([], None), 0);
    assert one.memory == Memory(HOUR, Counter(100, "ssd"), Some(HourRecord(1, 0, 0, 0, HOUR, "ssd", 100)));
  }
}
