/**
 Conservation laws of the work summary, and its agreement with the lifecycle validator.
 */
module WorkConservation {
  import opened Prelude
  import opened WorkLedger
  import opened WorkLifecycle
  import opened LateTerminals
  import opened WorkSummary

  // ----- laws that hold on every ledger -----

  /** The three CPU attributions always add up to the CPU deferrals, whatever later rows reclassified. */
  lemma {:induction false} AttributionsConserved(rows: seq<Event>)
    ensures Count(rows, AttributedTo(Active)) + Count(rows, AttributedTo(Idle)) + Count(rows, AttributedTo(Unavailable))
            == Count(rows, DeferredBy(CPU))
  {
    if rows == [] {
      forall q ensures Count([], q) == 0 { CountNone(q); }
    } else {
      var init, e := rows[..|rows| - 1], rows[|rows| - 1];
      AttributionsConserved(init);
      assert rows == init + [e];
      hide Count, Own, StateOf, Classified;
      AttributedCountStep(init, e, Active);
      AttributedCountStep(init, e, Idle);
      AttributedCountStep(init, e, Unavailable);
      DeferredCountStep(init, e, CPU);
      Undetermined(Own(init, e.op));
      ClassifiedIs(e);
    }
  }

  /** Every runtime sample is at the window boundary, of an old schema, badly split, or eligible; never two of them. */
  lemma {:induction false} SamplesConserved(rows: seq<Event>)
    ensures var c := ConditionedOf(rows); c.terminalRuntime == c.boundary + c.legacy + c.badSplit + c.eligible
  {
    hide ConditionedOf, Own, StateOf, SampleOf;
    if rows == [] {
      NoConditioned();
    } else {
      var init, e := rows[..|rows| - 1], rows[|rows| - 1];
      SamplesConserved(init);
      assert rows == init + [e];
      ConditionedOfStep(init, e);
    }
  }

  lemma NoConditioned()
    ensures ConditionedOf([]) == Conditioned(0, 0, 0, 0, 0)
  {
    NothingCounted([], [], 0);
  }

  function Ended(s: ClassStats): int { s.completed + s.failed + s.cancelled + s.expired + s.reused }

  lemma EndedInCountStep(rows: seq<Event>, e: Event, c: int)
    ensures Count(rows + [e], EndedIn(c))
            == Count(rows, EndedIn(c)) + Bit(!StateOf(Own(rows, e.op)).terminal && Terminal(e.kind) && e.workClass == c)
  {
    CountStep(rows, e, EndedIn(c));
    var own := Own(rows, e.op);
    hide Count, Own, StateOf, FirstTerminal;
    StateFlags(own);
    FirstTerminalStep(own, e);
    NoTerminal();
  }

  /** The terminal counters of a class add up to the operations that ended in it. */
  lemma {:induction false} EndingsConserved(rows: seq<Event>, c: int)
    ensures Ended(StatsOf(rows, c)) == Count(rows, EndedIn(c))
  {
    hide StatsOf, Count, Own, StateOf, SampleOf, Ended, ClassStep, Operations;
    if rows == [] {
      NoEndings(c);
    } else {
      var init, e := rows[..|rows| - 1], rows[|rows| - 1];
      EndingsConserved(init, c);
      assert rows == init + [e];
      EndedInCountStep(init, e, c);
      StatsStep(init, e, c);
      EndedStep(StatsOf(init, c), e.op in Operations(init), StateOf(Own(init, e.op)), e);
    }
  }

  lemma NoEndings(c: int)
    ensures Ended(StatsOf([], c)) == Count([], EndedIn(c))
  {
    forall q ensures Count([], q) == 0 { CountNone(q); }
    hide Count;
  }

  lemma EndedStep(s: ClassStats, known: bool, st: OperationState, e: Event)
    ensures Ended(ClassStep(s, known, st, e)) == Ended(s) + Bit(!st.terminal && Terminal(e.kind))
  {
  }

  // ----- sums over the classes reported -----

  function SumOperations(reports: seq<(int, ClassStats)>): int {
    if reports == [] then 0 else SumOperations(reports[..|reports| - 1]) + reports[|reports| - 1].1.operations
  }

  function SumEnded(reports: seq<(int, ClassStats)>): int {
    if reports == [] then 0 else SumEnded(reports[..|reports| - 1]) + Ended(reports[|reports| - 1].1)
  }

  /** The class of an operation's first row. */
  ghost predicate OpenedWithin(rows: seq<Event>, op: int, classes: seq<int>) {
    Own(rows, op) != [] && Own(rows, op)[0].workClass in classes
  }

  ghost predicate EndsSomewhere(rows: seq<Event>, op: int) { FirstTerminal(Own(rows, op)).Some? }

  ghost predicate EndedWithin(rows: seq<Event>, op: int, classes: seq<int>) {
    FirstTerminal(Own(rows, op)).Some? && FirstTerminal(Own(rows, op)).value.workClass in classes
  }

  ghost function OpenedSet(rows: seq<Event>, classes: seq<int>): set<int> {
    set op | op in Operations(rows) && OpenedWithin(rows, op, classes)
  }

  ghost function EndedSet(rows: seq<Event>, classes: seq<int>): set<int> {
    set op | op in Operations(rows) && EndedWithin(rows, op, classes)
  }

  lemma {:induction false} SumOperationsIs(rows: seq<Event>, shown: seq<int>)
    requires Distinct(shown)
    ensures SumOperations(Reports(shown, rows)) == |OpenedSet(rows, shown)|
  {
    if shown == [] {
      assert OpenedSet(rows, shown) == {};
    } else {
      hide OpenedSet, StatsOf, Count, Distinct;
      var init, c := shown[..|shown| - 1], shown[|shown| - 1];
      assert shown == init + [c];
      NotAmong(init, c);
      SumOperationsIs(rows, init);
      OpenedGrows(rows, init, c);
      OperationsField(rows, c);
      var reports := Reports(shown, rows);
      assert reports[..|reports| - 1] == Reports(init, rows);
    }
  }

  lemma OpenedGrows(rows: seq<Event>, classes: seq<int>, c: int)
    requires Distinct(classes + [c])
    ensures |OpenedSet(rows, classes + [c])| == |OpenedSet(rows, classes)| + Count(rows, OpenedIn(c))
  {
    hide Operations, Own;
    var all := classes + [c];
    NotAmong(classes, c);
    var a, b, both := OpenedSet(rows, classes), Matching(rows, OpenedIn(c)), OpenedSet(rows, all);
    forall op ensures (op in both <==> op in a || op in b) && !(op in a && op in b) { }
    assert both == a + b && a !! b;
  }

  lemma NotAmong(classes: seq<int>, c: int)
    requires Distinct(classes + [c])
    ensures c !in classes && Distinct(classes)
  {
    var all := classes + [c];
    assert all[|classes|] == c;
    forall i | 0 <= i < |classes| ensures classes[i] != c { assert all[i] == classes[i]; }
    forall i, j | 0 <= i < j < |classes| ensures classes[i] != classes[j] {
      assert all[i] == classes[i] && all[j] == classes[j];
    }
  }

  lemma {:induction false} SumEndedIs(rows: seq<Event>, shown: seq<int>)
    requires Distinct(shown)
    ensures SumEnded(Reports(shown, rows)) == |EndedSet(rows, shown)|
  {
    if shown == [] {
      assert EndedSet(rows, shown) == {};
    } else {
      hide EndedSet, StatsOf, Count, Distinct, Ended;
      var init, c := shown[..|shown| - 1], shown[|shown| - 1];
      assert shown == init + [c];
      NotAmong(init, c);
      SumEndedIs(rows, init);
      EndedGrows(rows, init, c);
      EndingsConserved(rows, c);
      var reports := Reports(shown, rows);
      assert reports[..|reports| - 1] == Reports(init, rows);
    }
  }

  lemma EndedGrows(rows: seq<Event>, classes: seq<int>, c: int)
    requires Distinct(classes + [c])
    ensures |EndedSet(rows, classes + [c])| == |EndedSet(rows, classes)| + Count(rows, EndedIn(c))
  {
    hide Operations, Own, FirstTerminal;
    var all := classes + [c];
    NotAmong(classes, c);
    var a, b, both := EndedSet(rows, classes), Matching(rows, EndedIn(c)), EndedSet(rows, all);
    forall op ensures (op in both <==> op in a || op in b) && !(op in a && op in b) {
      OperationsOwn(rows, op);
    }
    assert both == a + b && a !! b;
  }

  lemma {:induction false} ShownAre(classes: seq<int>, rows: seq<Event>)
    requires Distinct(classes)
    ensures Distinct(Shown(classes, rows))
    ensures forall c :: c in Shown(classes, rows) <==> c in classes && Count(rows, OpenedIn(c)) != 0
  {
    if classes != [] {
      var init, c := classes[..|classes| - 1], classes[|classes| - 1];
      assert classes == init + [c];
      NotAmong(init, c);
      ShownAre(init, rows);
      hide Count;
    }
  }

  // ----- conservation over the whole summary -----

  lemma SubsetSize(a: set<int>, b: set<int>)
    requires a <= b
    ensures |a| == |b| <==> a == b
  {
    assert b == a + (b - a);
    assert |b| == |a| + |b - a|;
  }

  /** The reported operations add up to the operation count exactly when every operation opened in a listed class. */
  lemma OperationsConservedIff(rows: seq<Event>, classes: seq<int>)
    requires Distinct(classes)
    ensures SumOperations(Reports(Shown(classes, rows), rows)) == |Operations(rows)|
            <==> forall op :: op in Operations(rows) ==> OpenedWithin(rows, op, classes)
  {
    var shown := Shown(classes, rows);
    ShownAre(classes, rows);
    SumOperationsIs(rows, shown);
    var a := OpenedSet(rows, shown);
    SubsetSize(a, Operations(rows));
    forall op | op in Operations(rows) ensures OpenedWithin(rows, op, shown) <==> OpenedWithin(rows, op, classes) {
      ShownIfOpened(rows, op);
    }
    hide Operations, OpenedWithin, Shown, Reports;
    if forall op :: op in Operations(rows) ==> OpenedWithin(rows, op, classes) {
      assert a == Operations(rows);
    }
    if a == Operations(rows) {
      forall op | op in Operations(rows) ensures OpenedWithin(rows, op, classes) { assert op in a; }
    }
  }

  lemma ShownIfOpened(rows: seq<Event>, op: int)
    requires op in Operations(rows)
    ensures Own(rows, op) != [] && Count(rows, OpenedIn(Own(rows, op)[0].workClass)) != 0
  {
    OperationsOwn(rows, op);
    hide Operations, Own;
    assert op in Matching(rows, OpenedIn(Own(rows, op)[0].workClass));
  }

  /** Reported endings and open operations add up to the operation count exactly when every operation that ended
      did so in a listed class in which some operation opened. */
  lemma EndingsConservedIff(rows: seq<Event>, classes: seq<int>)
    requires Distinct(classes)
    ensures var shown := Shown(classes, rows);
            SumEnded(Reports(shown, rows)) + Count(rows, StillOpen) == |Operations(rows)|
            <==> forall op :: op in Operations(rows) && EndsSomewhere(rows, op) ==> EndedWithin(rows, op, shown)
  {
    var shown := Shown(classes, rows);
    ShownAre(classes, rows);
    SumEndedIs(rows, shown);
    EndedOrOpen(rows, shown);
  }

  lemma EndedOrOpen(rows: seq<Event>, shown: seq<int>)
    ensures |EndedSet(rows, shown)| + Count(rows, StillOpen) == |Operations(rows)|
            <==> forall op :: op in Operations(rows) && EndsSomewhere(rows, op) ==> EndedWithin(rows, op, shown)
  {
    hide Operations, Own, FirstTerminal;
    var a, b, all := EndedSet(rows, shown), Matching(rows, StillOpen), Operations(rows);
    forall op ensures op in b <==> op in all && FirstTerminal(Own(rows, op)).None? { OperationsOwn(rows, op); }
    assert a !! b && a + b <= all;
    assert |a + b| == |a| + |b|;
    SubsetSize(a + b, all);
    if forall op :: op in all && EndsSomewhere(rows, op) ==> EndedWithin(rows, op, shown) {
      forall op | op in all ensures op in a + b { }
      assert a + b == all;
    }
    if a + b == all {
      forall op | op in all && EndsSomewhere(rows, op) ensures EndedWithin(rows, op, shown) { assert op in a + b; }
    }
  }

  /** Every operation keeps one class, and that class is listed. */
  ghost predicate OneKnownClass(rows: seq<Event>, classes: seq<int>) {
    && (forall e :: e in rows ==> e.workClass in classes)
    && (forall e, f :: e in rows && f in rows && e.op == f.op ==> e.workClass == f.workClass)
  }

  lemma OneClassOwn(rows: seq<Event>, classes: seq<int>, op: int)
    requires OneKnownClass(rows, classes)
    ensures var own := Own(rows, op);
            forall i :: 0 <= i < |own| ==> own[i].workClass in classes && own[i].workClass == own[0].workClass
  {
    OwnIsOf(rows, op);
    hide Own;
    var own := Own(rows, op);
    forall i | 0 <= i < |own| ensures own[i].workClass in classes && own[i].workClass == own[0].workClass {
      assert own[i] in rows && own[0] in rows && own[i].op == op && own[0].op == op;
    }
  }

  lemma RowsConserved(rows: seq<Event>, classes: seq<int>)
    requires Distinct(classes) && OneKnownClass(rows, classes)
    ensures SumOperations(Reports(Shown(classes, rows), rows)) == |Operations(rows)|
    ensures SumEnded(Reports(Shown(classes, rows), rows)) + Count(rows, StillOpen) == |Operations(rows)|
  {
    hide Operations, Own, Count, FirstTerminal, Reports, SumOperations, SumEnded, OneKnownClass, Shown;
    OperationsConservedIff(rows, classes);
    EndingsConservedIff(rows, classes);
    ShownAre(classes, rows);
    forall op | op in Operations(rows)
      ensures OpenedWithin(rows, op, classes)
      ensures FirstTerminal(Own(rows, op)).Some? ==> EndedWithin(rows, op, Shown(classes, rows))
    {
      OneClassOwn(rows, classes, op);
      ShownIfOpened(rows, op);
      FirstTerminalIn(Own(rows, op));
    }
  }

  lemma FirstTerminalIn(own: seq<Event>)
    ensures FirstTerminal(own).Some? ==> FirstTerminal(own).value in own
  {
    TerminalsAre(own);
  }

  // ----- the summary and the raw ledger -----

  lemma {:induction false} StrippedOf(own: seq<Event>, op: int, gone: set<int>)
    requires Of(own, op)
    ensures op !in gone ==> Stripped(own, gone) == own
    ensures op in gone ==> !Expires(Stripped(own, gone))
  {
    if own != [] {
      var init, e := own[..|own| - 1], own[|own| - 1];
      StrippedOf(init, op, gone);
      assert own == init + [e] && e.op == op;
      StrippedStep(init, e, gone);
      hide Stripped, Expires, Of;
      FlagsStep(Stripped(init, gone), e);
    }
  }

  lemma {:induction false} StrippedKeeps(own: seq<Event>, gone: set<int>, e: Event)
    requires e in own && e.kind != Expired
    ensures e in Stripped(own, gone)
  {
    var init, last := own[..|own| - 1], own[|own| - 1];
    assert own == init + [last];
    if e in init { StrippedKeeps(init, gone, e); }
  }

  lemma {:induction false} RecoveredExpires(own: seq<Event>, op: int)
    requires op in Recovered(own)
    ensures Expires(own) && exists e :: e in own && e.kind != Expired
  {
    RecoveredIff(own, op);
    var i, j :| LatePair(own, op, i, j);
    assert own[i].kind == Expired && own[j] in own && own[j].kind != Expired;
  }

  /** Normalising loses no operation. */
  lemma OperationsKept(rows: seq<Event>)
    ensures Operations(Normalized(rows)) == Operations(rows)
  {
    forall op ensures op in Operations(Normalized(rows)) <==> op in Operations(rows) {
      hide Operations, Own, Normalized;
      OperationsOwn(rows, op);
      OperationsOwn(Normalized(rows), op);
      NormalizedOwn(rows, op);
      NormalizedEmpty(rows, op);
    }
  }

  lemma NormalizedEmpty(rows: seq<Event>, op: int)
    ensures Normalized(Own(rows, op)) == [] <==> Own(rows, op) == []
    ensures Expires(Normalized(Own(rows, op))) <==> Expires(Own(rows, op)) && op !in Recovered(rows)
    ensures op in Recovered(rows) ==> Expires(Own(rows, op))
  {
    OwnIsOf(rows, op);
    RecoveredOwn(rows, op);
    hide Own, Recovered, Stripped, Expires, IsLate;
    var own := Own(rows, op);
    StrippedOf(own, op, Recovered(own));
    if op in Recovered(own) {
      RecoveredExpires(own, op);
      var e :| e in own && e.kind != Expired;
      StrippedKeeps(own, Recovered(own), e);
    }
  }

  lemma {:induction false} StrippedRows(rows: seq<Event>, gone: set<int>)
    ensures forall e :: e in Stripped(rows, gone) ==> e in rows
  {
    if rows != [] { StrippedRows(rows[..|rows| - 1], gone); }
  }

  /** With one listed class per operation, the reported operations add up to the operations of the ledger, and
      so do the reported endings and the open operations. */
  lemma SummaryConserves(events: seq<Event>, classes: seq<int>)
    requires Distinct(classes) && OneKnownClass(events, classes)
    ensures var r := SummaryOf(events, classes);
            r.operationCount == |Operations(events)| == SumOperations(r.byClass) == SumEnded(r.byClass) + r.open
  {
    StrippedRows(events, Recovered(events));
    hide Stripped, Recovered, Operations, Count, Reports, Shown, SignalsOf, ConditionedOf, SumOperations, SumEnded;
    OperationsKept(events);
    RowsConserved(Normalized(events), classes);
  }

  /** A ledger the validator passes, with listed classes only, is conserved. */
  lemma ValidLedgerConserves(events: seq<Event>, classes: seq<int>)
    requires Distinct(classes) && (forall e :: e in events ==> e.workClass in classes)
    requires forall op :: !Judged(Own(events, op)).Invalid?
    ensures var r := SummaryOf(events, classes);
            r.operationCount == |Operations(events)| == SumOperations(r.byClass) == SumEnded(r.byClass) + r.open
  {
    hide SummaryOf, Operations, SumOperations, SumEnded, Own, Judged;
    forall e, f | e in events && f in events && e.op == f.op ensures e.workClass == f.workClass {
      OwnHas(events, e);
      OwnHas(events, f);
      ValidIsOneClass(Own(events, e.op), e, f);
    }
    SummaryConserves(events, classes);
  }

  lemma {:induction false} OwnHas(rows: seq<Event>, e: Event)
    requires e in rows
    ensures e in Own(rows, e.op)
  {
    var init := rows[..|rows| - 1];
    assert rows == init + [rows[|rows| - 1]];
    if e in init { OwnHas(init, e); }
  }

  lemma {:induction false} ValidIsOneClass(own: seq<Event>, e: Event, f: Event)
    requires !Judged(own).Invalid? && e in own && f in own
    ensures e.workClass == f.workClass
  {
    ValidIffWellFormed(own);
    hide OncePerKind, Phased, Alternates, OneLease, OneDigest, Settles, Rep;
    assert Judged(own).Valid? by { SeenIsJudged(own); }
    var i :| 0 <= i < |own| && own[i] == e;
    var j :| 0 <= j < |own| && own[j] == f;
  }

  lemma SeenIsJudged(own: seq<Event>)
    requires own != []
    ensures Judged(own) != Unseen
  {
  }

  /** An operation that opens in a class nobody listed is in the count and in no report. */
  lemma UnlistedClassIsLost(e: Event, classes: seq<int>)
    requires Distinct(classes) && e.workClass !in classes
    ensures SumOperations(Reports(Shown(classes, [e]), [e])) != |Operations([e])|
  {
    OperationsConservedIff([e], classes);
    assert [] + [e] == [e];
    OperationsStep([], e);
    hide Operations, Own, Reports, Shown, SumOperations;
    assert !OpenedWithin([e], e.op, classes) by { assert Own([e], e.op)[0].workClass !in classes by { OwnSingle(e); } }
    assert e.op in Operations([e]);
  }

  lemma OwnSingle(e: Event)
    ensures Own([e], e.op) == [e]
  {
    assert [e][..0] == [];
    assert Own([], e.op) == [];
  }

  /** The expired-owner count is the number of operations with an expiration in the raw ledger: each recovered
      race is counted once, although its expiration row is gone. */
  lemma ExpiredOwnersCounted(events: seq<Event>, classes: seq<int>)
    ensures SummaryOf(events, classes).signals.expiredOwners == Count(events, HasExpired)
  {
    hide Count;
    ExpiredOwnersSplit(events);
  }

  lemma ExpiredOwnersSplit(events: seq<Event>)
    ensures |Recovered(events)| + Count(Normalized(events), HasExpired) == Count(events, HasExpired)
  {
    hide Recovered, Normalized, Operations, Own, Holds;
    var rows := Normalized(events);
    var gone, left, all := Recovered(events), Matching(rows, HasExpired), Matching(events, HasExpired);
    forall op ensures (op in all <==> op in gone || op in left) && !(op in gone && op in left) {
      ExpiredOwner(events, op);
    }
    assert all == gone + left && gone !! left;
  }

  lemma ExpiredOwner(events: seq<Event>, op: int)
    ensures op in Matching(Normalized(events), HasExpired)
            <==> op in Matching(events, HasExpired) && op !in Recovered(events)
    ensures op in Recovered(events) ==> op in Matching(events, HasExpired)
  {
    hide Recovered, Normalized, Operations, Own, Expires;
    MatchingIs(events, HasExpired, op);
    MatchingIs(Normalized(events), HasExpired, op);
    NormalizedOwn(events, op);
    NormalizedEmpty(events, op);
    NoneExpire();
  }

  /** An operation the validator passes is counted in the bucket of the validator's own terminal row, or as open. */
  lemma SummaryFollowsValidator(events: seq<Event>, op: int, k: Kind, c: int)
    requires Judged(Own(events, op)).Valid?
    ensures var rows, terminal := Normalized(events), Judged(Own(events, op)).life.terminal;
            && (op in Matching(rows, EndedAs(k, c)) <==>
                  terminal.Some? && terminal.value.kind == k && terminal.value.workClass == c)
            && (op in Matching(rows, StillOpen) <==> terminal.None?)
  {
    hide Normalized, Own, Judged, FirstTerminal, Operations;
    var rows := Normalized(events);
    TerminalAgreement(events, op);
    MatchingIs(rows, EndedAs(k, c), op);
    MatchingIs(rows, StillOpen, op);
    NormalizedOwn(events, op);
    NormalizedEmpty(events, op);
    NoTerminal();
    assert Own(events, op) != [] by { NothingJudged(); }
  }

  lemma NothingJudged()
    ensures Judged([]) == Unseen
  {
  }

  /** How the operations interleave does not matter: ledgers with the same rows per operation answer alike. */
  lemma InterleavingIsInvisible(a: seq<Event>, b: seq<Event>, q: Query)
    requires forall op :: Own(a, op) == Own(b, op)
    ensures Operations(a) == Operations(b) && Count(Normalized(a), q) == Count(Normalized(b), q)
  {
    hide Operations, Own, Normalized, Holds;
    forall op ensures op in Operations(a) <==> op in Operations(b) {
      OperationsOwn(a, op);
      OperationsOwn(b, op);
    }
    forall op ensures op in Matching(Normalized(a), q) <==> op in Matching(Normalized(b), q) {
      MatchingIs(Normalized(a), q, op);
      MatchingIs(Normalized(b), q, op);
      NormalizedOwn(a, op);
      NormalizedOwn(b, op);
    }
    assert Matching(Normalized(a), q) == Matching(Normalized(b), q);
  }
}
