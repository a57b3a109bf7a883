/**
 Which bytes are scored and which are gap, hour by hour: over every steady run, the accounts are sums of counter
 differences that are read off the steps alone.
 */
module DiskSplit {
  import opened Prelude
  import opened DiskLedger
  import DiskHistogram

  // ----- the samples that survive -----

  /** The samples of a run that no crash has undone, and how many of them the store alone accounts for. */
  datatype Timeline = Timeline(kept: seq<Step>, durable: nat)

  /** A sample of another hour makes the hours before it durable, and so does a checkpoint; a crash undoes the rest. */
  function TimelineAfter(t: Timeline, step: Step): (after: Timeline)
    requires t.durable <= |t.kept|
    ensures after.durable <= |after.kept|
  {
    match step
    case Sample(_, _, _, _) =>
      var turned := t.kept != [] && HourOfStep(t.kept[|t.kept| - 1]) != HourOfStep(step);
      Timeline(t.kept + [step], if turned then |t.kept| else t.durable)
    case Restart(clean, writes) =>
      if clean && writes then t.(durable := |t.kept|) else Timeline(t.kept[..t.durable], t.durable)
  }

  function TimelineOf(steps: seq<Step>): (t: Timeline)
    ensures t.durable <= |t.kept|
  {
    if steps == [] then Timeline([], 0) else TimelineAfter(TimelineOf(steps[..|steps| - 1]), steps[|steps| - 1])
  }

  function AtOf(step: Step): Time { if step.Sample? then step.at else 0 }
  function BytesOf(step: Step): int { if step.Sample? then step.bytes else 0 }
  function IntervalOf(step: Step): int { if step.Sample? then step.interval else 0 }
  function HourOfStep(step: Step): int { AtOf(step) / (3600 * SECOND) }

  // ----- scored and gap differences -----

  /** The two samples are neither too far apart nor too close to be scored. */
  predicate InWindow(a: Step, b: Step) {
    Max(1, IntervalOf(b) / 3) * SECOND <= AtOf(b) - AtOf(a) <= Max(45, 3 * IntervalOf(b)) * SECOND
  }

  datatype Account = Account(bytes: int, gap: int, samples: int)
  const NOTHING := Account(0, 0, 0)

  function Plus(a: Account, b: Account): Account { Account(a.bytes + b.bytes, a.gap + b.gap, a.samples + b.samples) }

  /** What the sample `b` after `a` adds: its counter difference, as scored bytes or as a gap. */
  function Added(a: Step, b: Step): Account {
    var d := BytesOf(b) - BytesOf(a);
    if InWindow(a, b) then Account(d, 0, 1) else Account(0, d, 0)
  }

  /** The hours asked about: one of them, or all. */
  predicate Asked(h: Option<int>, hour: int) { h.None? || h.value == hour }

  /** The account of consecutive samples, each difference in the hour of its later sample. */
  function AccountOf(kept: seq<Step>, h: Option<int>): Account {
    if |kept| < 2 then NOTHING
    else
      var a, b := kept[|kept| - 2], kept[|kept| - 1];
      var before := AccountOf(kept[..|kept| - 1], h);
      if Asked(h, HourOfStep(b)) then Plus(before, Added(a, b)) else before
  }

  function RecordAccount(r: HourRecord, h: Option<int>): Account {
    if Asked(h, r.hour) then Account(r.bytes, r.gap, r.samples) else NOTHING
  }

  function RecordsAccount(records: seq<HourRecord>, h: Option<int>): Account {
    if records == [] then NOTHING
    else Plus(RecordsAccount(records[..|records| - 1], h), RecordAccount(records[|records| - 1], h))
  }

  function OpenAccount(hour: Option<HourRecord>, h: Option<int>): Account {
    if hour.Some? then RecordAccount(hour.value, h) else NOTHING
  }

  /** Persisted records and the open hour. */
  function Ledger(m: Memory, s: Store, h: Option<int>): Account {
    Plus(RecordsAccount(s.records, h), OpenAccount(m.hour, h))
  }

  // ----- the invariant -----

  /** The memory stands at the last of the samples, and with the records accounts for them. */
  ghost predicate StandsAt(m: Memory, s: Store, kept: seq<Step>, h: Option<int>) {
    && Ledger(m, s, h) == AccountOf(kept, h)
    && (kept == [] ==> m == FORGOTTEN)
    && (kept != [] ==>
          var last := kept[|kept| - 1];
          last.Sample? && m.previousAt == last.at > 0 && m.previous.bytes == last.bytes)
  }

  ghost predicate Splits(sys: System, id: string, t: Timeline, h: Option<int>) {
    && StandsAt(sys.memory, sys.store, t.kept, h)
    && t.durable <= |t.kept| && StandsAt(Restored(sys.store), sys.store, t.kept[..t.durable], h)
    && (sys.memory.hour.None? ==> t.durable == |t.kept|)
  }

  // ----- one record more -----

  lemma RecordsSnoc(records: seq<HourRecord>, r: HourRecord, h: Option<int>)
    ensures RecordsAccount(records + [r], h) == Plus(RecordsAccount(records, h), RecordAccount(r, h))
  {
    assert (records + [r])[..|records|] == records;
  }

  lemma AccountSnoc(kept: seq<Step>, b: Step, h: Option<int>)
    requires kept != []
    ensures AccountOf(kept + [b], h)
            == if Asked(h, HourOfStep(b)) then Plus(AccountOf(kept, h), Added(kept[|kept| - 1], b))
               else AccountOf(kept, h)
  {
    assert (kept + [b])[..|kept|] == kept;
  }

  /** A counted sample adds its difference to the record of its hour, unsaturated. */
  lemma RecordedAdds(r: HourRecord, a: Step, b: Step, device: Counter, h: Option<int>)
    requires a.Sample? && b.Sample? && a.bytes <= b.bytes && r.hour == HourOfStep(b)
    requires r.bytes + r.gap + (b.bytes - a.bytes) <= DiskHistogram.MAX64
    ensures var next := Recorded(r, b.at, b.bytes - a.bytes, device, true, InWindow(a, b));
            && next.hour == r.hour
            && RecordAccount(next, h)
               == if Asked(h, HourOfStep(b)) then Plus(RecordAccount(r, h), Added(a, b)) else RecordAccount(r, h)
  {
  }

  // ----- a sample -----

  /** What a sample after `last` makes of the hour it lands in. */
  function Landed(sys: System, id: string, last: Step, step: Step): HourRecord
    requires last.Sample? && step.Sample? && last.bytes <= step.bytes
  {
    var r := if SameHour(sys, step) then sys.memory.hour.value else NewHour(step.at);
    Recorded(r, step.at, step.bytes - last.bytes, Counter(step.bytes, id), true, InWindow(last, step))
  }

  predicate SameHour(sys: System, step: Step) {
    step.Sample? && sys.memory.hour.Some? && sys.memory.hour.value.hour == HourOf(step.at)
  }

  function StoreAfter(sys: System, step: Step): Store
    requires step.Sample?
  {
    if SameHour(sys, step) then sys.store else Flushed(sys.memory, sys.store, step.io).1
  }

  /** The memory's previous sample is `last`. */
  ghost predicate Follows(sys: System, id: string, last: Step) {
    last.Sample? && sys.memory.previousAt == last.at > 0 && sys.memory.previous == Counter(last.bytes, id)
  }

  lemma SampleShape(sys: System, id: string, last: Step, step: Step)
    requires Follows(sys, id, last) && step.Sample? && last.bytes <= step.bytes
    ensures Next(sys, id, step) == System(Memory(step.at, Counter(step.bytes, id), Some(Landed(sys, id, last, step))),
                                          StoreAfter(sys, step), sys.anchor)
  {
    hide Recorded, Flushed;
    assert ValidWindow(sys.memory, step.at, Counter(step.bytes, id), step.interval) == InWindow(last, step);
  }

  lemma FirstShape(sys: System, id: string, step: Step, h: Option<int>)
    requires sys.memory == FORGOTTEN && step.Sample?
    ensures var next := Next(sys, id, step);
            && next.store == sys.store && next.memory.previousAt == step.at && next.memory.previous.bytes == step.bytes
            && next.memory.hour.Some? && RecordAccount(next.memory.hour.value, h) == NOTHING
  {
  }

  /** The hour a sample lands in, whether open already or new. */
  lemma LandedAdds(sys: System, id: string, last: Step, step: Step, h: Option<int>)
    requires id != "" && Conserves(sys, id) && Follows(sys, id, last)
    requires step.Sample? && last.bytes <= step.bytes <= DiskHistogram.MAX64
    ensures var before := if SameHour(sys, step) then OpenAccount(sys.memory.hour, h) else NOTHING;
            RecordAccount(Landed(sys, id, last, step), h)
            == if Asked(h, HourOfStep(step)) then Plus(before, Added(last, step)) else before
  {
    hide Recorded, RecordAccount, Conserves;
    if SameHour(sys, step) {
      OpenHour(sys, id);
      RecordedAdds(sys.memory.hour.value, last, step, Counter(step.bytes, id), h);
    } else {
      RecordedAdds(NewHour(step.at), last, step, Counter(step.bytes, id), h);
      EmptyHour(step.at, h);
    }
  }

  lemma EmptyHour(at: Time, h: Option<int>)
    ensures RecordAccount(NewHour(at), h) == NOTHING
  {
  }

  /** A flush moves the account of the hour from memory to the records. */
  lemma FlushMoves(sys: System, id: string, step: Step, h: Option<int>)
    requires id != "" && Conserves(sys, id) && step.Sample? && step.io.appends && !SameHour(sys, step)
    ensures RecordsAccount(StoreAfter(sys, step).records, h) == Ledger(sys.memory, sys.store, h)
  {
    hide Conserves, RecordAccount, RecordsAccount;
    if sys.memory.hour.Some? {
      OpenHour(sys, id);
      RecordsSnoc(sys.store.records, sys.memory.hour.value, h);
    }
  }

  /** The hour in memory is that of the last sample. */
  lemma HourOfLast(sys: System, id: string, last: Step)
    requires id != "" && Conserves(sys, id) && Follows(sys, id, last) && sys.memory.hour.Some?
    ensures sys.memory.hour.value.hour == HourOfStep(last)
  {
    hide Sum;
  }

  /** After a flush the store alone stands at the last sample before it. */
  lemma FlushedStandsAt(sys: System, id: string, kept: seq<Step>, step: Step, h: Option<int>)
    requires id != "" && Conserves(sys, id) && sys.memory.hour.Some? && StandsAt(sys.memory, sys.store, kept, h)
    requires step.Sample? && step.io.appends && !SameHour(sys, step)
    ensures StandsAt(Restored(StoreAfter(sys, step)), StoreAfter(sys, step), kept, h)
  {
    hide Sum, RecordsAccount, AccountOf, OnTape, Flushed, Restored;
    var s' := StoreAfter(sys, step);
    FlushMoves(sys, id, step, h);
    FlushConserves(sys.memory, sys.store, id, sys.anchor, step.io);
    RestoreConserves(s', id, sys.anchor);
    RestoredHour(s');
  }

  lemma RestoredHour(s: Store)
    ensures Restored(s).hour == LiveCheckpoint(s)
  {
  }

  lemma SampleSplits(sys: System, id: string, t: Timeline, step: Step, h: Option<int>)
    requires id != "" && Conserves(sys, id) && Splits(sys, id, t, h) && t.kept != []
    requires step.Sample? && step.io.appends && step.at > 0
    requires sys.memory.previous.bytes <= step.bytes <= DiskHistogram.MAX64
    ensures var turned := HourOfStep(t.kept[|t.kept| - 1]) != HourOfStep(step);
            Splits(Next(sys, id, step), id, Timeline(t.kept + [step], if turned then |t.kept| else t.durable), h)
  {
    hide Conserves, AccountOf, RecordsAccount, RecordAccount, Landed, Restored, Flushed, Added;
    var last, kept' := t.kept[|t.kept| - 1], t.kept + [step];
    assert Follows(sys, id, last) by { IdentityKnown(sys, id); }
    SampleShape(sys, id, last, step);
    LandedAdds(sys, id, last, step, h);
    AccountSnoc(t.kept, step, h);
    assert kept'[..|t.kept|] == t.kept && t.kept[..|t.kept|] == t.kept && kept'[..t.durable] == t.kept[..t.durable];
    if sys.memory.hour.Some? { HourOfLast(sys, id, last); }
    if !SameHour(sys, step) {
      FlushMoves(sys, id, step, h);
      if sys.memory.hour.Some? {
        FlushedStandsAt(sys, id, t.kept, step, h);
      } else {
        NothingToFlush(sys, step);
      }
    }
  }

  lemma NothingToFlush(sys: System, step: Step)
    requires sys.memory.hour.None? && step.Sample?
    ensures StoreAfter(sys, step) == sys.store
  {
  }

  lemma IdentityKnown(sys: System, id: string)
    requires Conserves(sys, id) && sys.memory.previousAt != NO_TIME
    ensures sys.memory.previous.identity == id
  {
    PreviousIsKnown(sys, id);
  }

  lemma FewSamples(step: Step, h: Option<int>)
    ensures AccountOf([], h) == NOTHING == AccountOf([step], h)
  {
  }

  lemma FirstSplits(sys: System, id: string, t: Timeline, step: Step, h: Option<int>)
    requires Splits(sys, id, t, h) && t.kept == [] && step.Sample? && step.at > 0
    ensures Splits(Next(sys, id, step), id, Timeline([step], t.durable), h)
  {
    FewSamples(step, h);
    hide RecordAccount, RecordsAccount, Restored, Next, AccountOf;
    FirstShape(sys, id, step, h);
    assert t.durable == 0 && t.kept[..0] == [] == [step][..0];
  }

  // ----- a restart -----

  lemma RestartSplits(sys: System, id: string, t: Timeline, clean: bool, writes: bool, h: Option<int>)
    requires id != "" && Conserves(sys, id) && Splits(sys, id, t, h)
    ensures var after := if clean && writes then t.(durable := |t.kept|) else Timeline(t.kept[..t.durable], t.durable);
            Splits(Next(sys, id, Restart(clean, writes)), id, after, h)
  {
    hide Conserves, AccountOf, RecordsAccount, RecordAccount, Restored, StandsAt;
    assert t.kept[..|t.kept|] == t.kept && t.kept[..t.durable][..t.durable] == t.kept[..t.durable];
    if clean && writes {
      var s := Checkpointed(sys.memory, sys.store, true);
      CheckpointResumes(sys, id);
      assert StandsAt(Restored(s), s, t.kept, h) by {
        if sys.memory.hour.Some? {
          assert StandsAt(sys.memory, sys.store, t.kept, h);
          SameRecords(sys.memory, sys.store, s, t.kept, h);
        }
      }
    }
  }

  lemma SameRecords(m: Memory, s: Store, s': Store, kept: seq<Step>, h: Option<int>)
    requires s.records == s'.records && StandsAt(m, s, kept, h)
    ensures StandsAt(m, s', kept, h)
  {
  }

  /** A written checkpoint restores the memory it was taken from. */
  lemma CheckpointResumes(sys: System, id: string)
    requires id != "" && Conserves(sys, id)
    ensures var s := Checkpointed(sys.memory, sys.store, true);
            && s.records == sys.store.records && (sys.memory.hour.None? ==> s == sys.store)
            && (sys.memory.hour.Some? ==> Restored(s) == sys.memory)
  {
    hide Sum, Restored, Superseded, OnTape;
    CleanRestartLosesNothing(sys, id);
    RestartConserves(sys, id, true, true);
  }

  // ----- the theorem -----

  lemma SplitsStep(id: string, init: seq<Step>, step: Step, t: Timeline, h: Option<int>)
    requires id != "" && Steady(init + [step])
    requires Conserves(Live(id, init), id) && PreviousIsPast(Live(id, init).memory, init)
    requires Splits(Live(id, init), id, t, h)
    ensures Splits(Next(Live(id, init), id, step), id, TimelineAfter(t, step), h)
  {
    hide Next, Conserves, StandsAt, PreviousIsPast, Live;
    var sys := Live(id, init);
    match step
    case Restart(clean, writes) => RestartSplits(sys, id, t, clean, writes, h);
    case Sample(_, _, _, _) =>
      CounterGrows(id, init, step);
      assert (init + [step])[|init|] == step;
      hide Steady;
      if t.kept == [] {
        FirstSplits(sys, id, t, step, h);
        assert t.kept + [step] == [step];
      } else {
        SampleSplits(sys, id, t, step, h);
      }
  }

  lemma {:induction false} SplitsAlways(id: string, steps: seq<Step>, h: Option<int>)
    requires id != "" && Steady(steps)
    ensures Splits(Live(id, steps), id, TimelineOf(steps), h)
  {
    hide Steady, Conserves, Splits, Next, PreviousIsPast, Live, TimelineOf, TimelineAfter;
    if steps == [] {
      NothingYet(id, h);
      NothingLives(id);
    } else {
      var init, step := steps[..|steps| - 1], steps[|steps| - 1];
      assert steps == init + [step];
      SteadyPrefix(init, step);
      SplitsAlways(id, init, h);
      ConservesAlways(id, init);
      SplitsStep(id, init, step, TimelineOf(init), h);
      OneStepMore(id, init, step);
    }
  }

  lemma OneStepMore(id: string, init: seq<Step>, step: Step)
    ensures Live(id, init + [step]) == Next(Live(id, init), id, step)
    ensures TimelineOf(init + [step]) == TimelineAfter(TimelineOf(init), step)
  {
    hide Next, TimelineAfter;
    assert (init + [step])[..|init|] == init;
  }

  lemma NothingLives(id: string)
    ensures Live(id, []) == System(FORGOTTEN, Store([], None), 0) && TimelineOf([]) == Timeline([], 0)
  {
  }

  /** The counter a sample reads is no smaller than the one it is measured from. */
  lemma CounterGrows(id: string, init: seq<Step>, step: Step)
    requires Steady(init + [step]) && step.Sample? && PreviousIsPast(Live(id, init).memory, init)
    ensures Live(id, init).memory.previous.bytes <= step.bytes
  {
    hide Live;
    var all, i := init + [step], LastSample(init);
    assert all[|init|] == step;
    if i >= 0 { assert all[i] == init[i]; }
  }

  lemma NothingYet(id: string, h: Option<int>)
    ensures Splits(System(FORGOTTEN, Store([], None), 0), id, Timeline([], 0), h)
  {
    var s := Store([], None);
    assert Newest([]).None?;
    assert Restored(s) == FORGOTTEN;
    assert RecordsAccount([], h) == NOTHING == AccountOf([], h);
  }

  /**
   Over every steady run, for any hour and for all of them together: the scored bytes, the gap bytes and the scored
   samples of the records and the open hour are the counter differences of consecutive surviving samples within the
   sampling window, those outside it, and the number of the former; and the store alone holds those of the durable
   samples.
   */
  lemma {:induction false} BytesAreSplit(id: string, steps: seq<Step>, h: Option<int>)
    requires id != "" && Steady(steps)
    ensures var sys, t := Live(id, steps), TimelineOf(steps);
            && Ledger(sys.memory, sys.store, h) == AccountOf(t.kept, h)
            && Plus(RecordsAccount(sys.store.records, h), OpenAccount(LiveCheckpoint(sys.store), h))
               == AccountOf(t.kept[..t.durable], h)
  {
    SplitsAlways(id, steps, h);
    RestoredHour(Live(id, steps).store);
    hide Live, TimelineOf, AccountOf, RecordsAccount, Restored;
  }

  /** Without restarts every sample survives. */
  lemma {:induction false} AllSurvive(steps: seq<Step>)
    requires forall i :: 0 <= i < |steps| ==> steps[i].Sample?
    ensures TimelineOf(steps).kept == steps
  {
    if steps != [] {
      var init, step := steps[..|steps| - 1], steps[|steps| - 1];
      assert steps == init + [step] && step.Sample?;
      AllSurvive(init);
      OneStepMore("", init, step);
      hide TimelineOf;
    }
  }
}
