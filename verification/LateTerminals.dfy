/**
 The batch normaliser for late terminals, and its agreement with the lifecycle validator on which terminal row
 of an operation counts.
 */
module LateTerminals {
  import opened Prelude
  import opened WorkLedger
  import opened WorkLifecycle

  /** The latest expiration row of an operation. */
  function LastExpired(rows: seq<Event>, op: int): Option<Event> {
    if rows == [] then None
    else
      var e := rows[|rows| - 1];
      if e.op == op && e.kind == Expired then Some(e) else LastExpired(rows[..|rows| - 1], op)
  }

  predicate Recovers(expired: Option<Event>, e: Event) {
    e.kind != Expired && expired.Some? && IsLate(expired.value, e)
  }

  /** The operations whose expiration is followed by the late real outcome of the same lease. */
  function Recovered(rows: seq<Event>): set<int> {
    if rows == [] then {}
    else
      var init, e := rows[..|rows| - 1], rows[|rows| - 1];
      Recovered(init) + if Recovers(LastExpired(init, e.op), e) then {e.op} else {}
  }

  /** The rows without the expirations of the operations in `gone`. */
  function Stripped(rows: seq<Event>, gone: set<int>): seq<Event> {
    if rows == [] then []
    else
      var e := rows[|rows| - 1];
      Stripped(rows[..|rows| - 1], gone) + if e.kind == Expired && e.op in gone then [] else [e]
  }

  function Normalized(rows: seq<Event>): seq<Event> { Stripped(rows, Recovered(rows)) }

  // ----- steps -----

  lemma RecoveredStep(rows: seq<Event>, e: Event)
    ensures Recovered(rows + [e]) == Recovered(rows) + if Recovers(LastExpired(rows, e.op), e) then {e.op} else {}
  {
    assert (rows + [e])[..|rows|] == rows;
  }

  lemma LastExpiredStep(rows: seq<Event>, e: Event, op: int)
    ensures LastExpired(rows + [e], op) == if e.op == op && e.kind == Expired then Some(e) else LastExpired(rows, op)
  {
    assert (rows + [e])[..|rows|] == rows;
  }

  lemma StrippedStep(rows: seq<Event>, e: Event, gone: set<int>)
    ensures Stripped(rows + [e], gone) == Stripped(rows, gone) + if e.kind == Expired && e.op in gone then [] else [e]
  {
    assert (rows + [e])[..|rows|] == rows;
  }

  lemma {:induction false} StrippedNone(rows: seq<Event>)
    ensures Stripped(rows, {}) == rows
  {
    if rows != [] {
      StrippedNone(rows[..|rows| - 1]);
      assert rows == rows[..|rows| - 1] + [rows[|rows| - 1]];
    }
  }

  // ----- the normaliser -----

  function Entry(expired: map<int, Event>, op: int): Option<Event> { if op in expired then Some(expired[op]) else None }

  method NormalizeLateReconciliationTerminals(events: seq<Event>) returns (normalized: seq<Event>, count: int)
    ensures normalized == Normalized(events) && count == |Recovered(events)|
  {
    hide Recovered, LastExpired, Stripped, IsLate;
    var expiredByOperation: map<int, Event> := map[];
    var recovered: set<int> := {};
    NoneYet(events);
    for i := 0 to |events|
      invariant recovered == Recovered(events[..i])
      invariant forall op :: LastExpired(events[..i], op) == Entry(expiredByOperation, op)
    {
      var e := events[i];
      assert events[..i + 1] == events[..i] + [e];
      RecoveredStep(events[..i], e);
      forall op { LastExpiredStep(events[..i], e, op); }
      if e.kind == Expired {
        expiredByOperation := expiredByOperation[e.op := e];
      } else if e.op in expiredByOperation && IsLate(expiredByOperation[e.op], e) {
        recovered := recovered + {e.op};
      }
    }
    assert events[..|events|] == events;
    if |recovered| == 0 {
      StrippedNone(events);
      return events, 0;
    }
    normalized := [];
    for i := 0 to |events|
      invariant normalized == Stripped(events[..i], recovered)
    {
      var e := events[i];
      assert events[..i + 1] == events[..i] + [e];
      StrippedStep(events[..i], e, recovered);
      if !(e.kind == Expired && e.op in recovered) {
        normalized := normalized + [e];
      }
    }
    assert events[..|events|] == events;
    count := |recovered|;
  }

  lemma NoneYet(events: seq<Event>)
    ensures Recovered(events[..0]) == {} && Stripped(events[..0], Recovered(events)) == []
    ensures forall op :: LastExpired(events[..0], op) == None
  {
  }

  // ----- each operation is normalised on its own -----

  lemma {:induction false} LastExpiredOwn(rows: seq<Event>, op: int)
    ensures LastExpired(Own(rows, op), op) == LastExpired(rows, op)
    ensures LastExpired(rows, op).Some? ==>
              LastExpired(rows, op).value.op == op && LastExpired(rows, op).value.kind == Expired
  {
    if rows != [] {
      var init, e := rows[..|rows| - 1], rows[|rows| - 1];
      LastExpiredOwn(init, op);
      assert rows == init + [e];
      OwnStep(init, e, op);
      LastExpiredStep(init, e, op);
      if e.op == op { LastExpiredStep(Own(init, op), e, op); }
    }
  }

  lemma {:induction false} RecoveredOwn(rows: seq<Event>, op: int)
    ensures op in Recovered(Own(rows, op)) <==> op in Recovered(rows)
  {
    if rows != [] {
      var init, e := rows[..|rows| - 1], rows[|rows| - 1];
      RecoveredOwn(init, op);
      LastExpiredOwn(init, op);
      assert rows == init + [e];
      OwnStep(init, e, op);
      if e.op == op { RecoveredStep(Own(init, op), e); }
    }
  }

  lemma {:induction false} StrippedOwn(rows: seq<Event>, gone: set<int>, hers: set<int>, op: int)
    requires op in gone <==> op in hers
    ensures Own(Stripped(rows, gone), op) == Stripped(Own(rows, op), hers)
  {
    if rows != [] {
      var init, e := rows[..|rows| - 1], rows[|rows| - 1];
      StrippedOwn(init, gone, hers, op);
      assert rows == init + [e];
      OwnStep(init, e, op);
      StrippedStep(init, e, gone);
      OwnStep(Stripped(init, gone), e, op);
      StrippedStep(Own(init, op), e, hers);
      if e.op == op && e.kind == Expired && op in gone {
        assert Stripped(rows, gone) == Stripped(init, gone);
      } else if e.op != op && e.kind == Expired && e.op in gone {
        assert Stripped(rows, gone) == Stripped(init, gone);
      }
    }
  }

  /** Normalising a ledger normalises each operation's rows on their own. */
  lemma {:induction false} NormalizedOwn(rows: seq<Event>, op: int)
    ensures Own(Normalized(rows), op) == Normalized(Own(rows, op))
  {
    RecoveredOwn(rows, op);
    StrippedOwn(rows, Recovered(rows), Recovered(Own(rows, op)), op);
  }

  // ----- only terminal rows matter -----

  lemma {:induction false} LastExpiredTerminals(own: seq<Event>, op: int)
    ensures LastExpired(Terminals(own), op) == LastExpired(own, op)
  {
    if own != [] {
      var init, e := own[..|own| - 1], own[|own| - 1];
      LastExpiredTerminals(init, op);
      if Terminal(e.kind) {
        LastExpiredStep(Terminals(init), e, op);
      } else {
        assert Terminals(own) == Terminals(init);
      }
    }
  }

  lemma {:induction false} RecoveredTerminals(own: seq<Event>)
    ensures Recovered(Terminals(own)) == Recovered(own)
  {
    if own != [] {
      var init, e := own[..|own| - 1], own[|own| - 1];
      RecoveredTerminals(init);
      LastExpiredTerminals(init, e.op);
      if Terminal(e.kind) { RecoveredStep(Terminals(init), e); } else { assert Terminals(own) == Terminals(init); }
    }
  }

  lemma {:induction false} StrippedTerminals(own: seq<Event>, gone: set<int>)
    ensures Terminals(Stripped(own, gone)) == Stripped(Terminals(own), gone)
  {
    if own != [] {
      var init, e := own[..|own| - 1], own[|own| - 1];
      StrippedTerminals(init, gone);
      if e.kind == Expired && e.op in gone {
        assert Stripped(own, gone) == Stripped(init, gone);
        StrippedStep(Terminals(init), e, gone);
      } else {
        TerminalsStep(Stripped(init, gone), e);
        if Terminal(e.kind) {
          StrippedStep(Terminals(init), e, gone);
        } else {
          assert Terminals(own) == Terminals(init);
        }
      }
    }
  }

  // ----- agreement -----

  function First(t: seq<Event>): Option<Event> { if t == [] then None else Some(t[0]) }

  /** The terminal row the summary counts, the first one left. */
  function FirstTerminal(own: seq<Event>): Option<Event> { First(Terminals(own)) }

  lemma {:induction false} OneTerminal(a: Event)
    ensures Recovered([a]) == {}
  {
    assert [a][..0] == [];
    assert LastExpired([], a.op) == None;
    assert Recovered([]) == {};
  }

  lemma {:induction false} TwoTerminalsRecover(a: Event, b: Event)
    ensures var expired := if a.kind == Expired && a.op == b.op then Some(a) else None;
            Recovered([a, b]) == if Recovers(expired, b) then {b.op} else {}
  {
    OneTerminal(a);
    assert [a, b] == [a] + [b] && [a] == [] + [a];
    RecoveredStep([a], b);
    LastExpiredStep([], a, b.op);
  }

  /** On terminal rows that settle, what is left first is the authority. */
  lemma {:induction false} SettledFirst(t: seq<Event>)
    requires |t| <= 1 || (|t| == 2 && (IsStaleCleanup(t[0], t[1]) || IsLate(t[0], t[1])))
    ensures First(Normalized(t)) == Authority(t)
  {
    if |t| == 1 {
      OneTerminal(t[0]);
      assert t == [t[0]];
      StrippedNone(t);
    } else if |t| == 2 {
      assert t == [t[0], t[1]];
      TwoTerminalsRecover(t[0], t[1]);
      if IsStaleCleanup(t[0], t[1]) {
        StrippedNone(t);
      } else {
        var gone := Recovered(t);
        assert t == [t[0]] + [t[1]] && [t[0]] == [] + [t[0]];
        StrippedStep([t[0]], t[1], gone);
        StrippedStep([], t[0], gone);
      }
    }
  }

  /** The first terminal row left by the normaliser is exactly the validator's authority. */
  lemma {:induction false} TerminalAgreement(rows: seq<Event>, op: int)
    requires Judged(Own(rows, op)).Valid?
    ensures FirstTerminal(Own(Normalized(rows), op)) == Judged(Own(rows, op)).life.terminal
  {
    var own := Own(rows, op);
    NormalizedOwn(rows, op);
    ValidIffWellFormed(own);
    RecoveredTerminals(own);
    StrippedTerminals(own, Recovered(own));
    SettledFirst(Terminals(own));
  }

  /** When an operation that passes was expired first and ended later, both rows are of one lease and one process, and
      the outcome came with its exit code and digest at most five seconds after. */
  lemma {:induction false} LatePairIs(rows: seq<Event>, op: int, i: nat, j: nat)
    requires Judged(Own(rows, op)).Valid?
    requires var own := Own(rows, op); i < j < |own| && own[i].kind == Expired && Terminal(own[j].kind)
    ensures var a, b := Own(rows, op)[i], Own(rows, op)[j];
            && a.outcome in {DeadLeaseOwner, ReusedLeasePID} && b.kind in {Completed, Failed, Cancelled}
            && b.exitCode.Some? && b.commandValid
            && a.op == b.op == op && a.workClass == b.workClass && a.weight == b.weight
            && a.lease == b.lease != NONE && a.pid == b.pid > 0 && 0 <= b.at - a.at <= 5_000_000_000
    ensures Judged(Own(rows, op)).life.terminal == Some(Own(rows, op)[j])
  {
    var own := Own(rows, op);
    OwnIsOf(rows, op);
    ValidIffWellFormed(own);
    hide Own, Judged, OneClass, OncePerKind, Phased, Alternates, OneLease, OneDigest;
    assert Terminal(own[i].kind);
    SettledPair(own, i, j);
  }

  lemma SettledPair(own: seq<Event>, i: nat, j: nat)
    requires Settles(own) && i < j < |own| && own[i].kind == Expired && Terminal(own[j].kind)
    ensures IsLate(own[i], own[j]) && Authority(Terminals(own)) == Some(own[j])
  {
    TerminalPair(own, i, j);
    hide Terminals;
    var t := Terminals(own);
    assert t == [own[i], own[j]];
    assert !IsStaleCleanup(t[0], t[1]);
  }

  /** When an operation that passes ended first and was expired later, the expiration is a reconciliation receipt, and
      the outcome stays the authority. */
  lemma {:induction false} StalePairIs(rows: seq<Event>, op: int, i: nat, j: nat)
    requires Judged(Own(rows, op)).Valid?
    requires var own := Own(rows, op); i < j < |own| && Terminal(own[i].kind) && own[j].kind == Expired
    ensures Own(rows, op)[i].kind != Expired && Own(rows, op)[j].outcome != OtherOutcome
    ensures Judged(Own(rows, op)).life.terminal == Some(Own(rows, op)[i])
  {
    var own := Own(rows, op);
    ValidIffWellFormed(own);
    hide Own, Judged, OneClass, OncePerKind, Phased, Alternates, OneLease, OneDigest;
    TerminalPair(own, i, j);
    assert Terminals(own) == [own[i], own[j]];
    assert !IsLate(own[i], own[j]);
  }

  /** An operation that passes has at most one real terminal row and at most one expiration. */
  lemma {:induction false} OneRealTerminal(rows: seq<Event>, op: int)
    requires Judged(Own(rows, op)).Valid?
    ensures var own := Own(rows, op);
            && (forall i, j :: 0 <= i < j < |own| && Terminal(own[i].kind) && Terminal(own[j].kind) ==>
                  (own[i].kind == Expired) != (own[j].kind == Expired))
            && (forall i, j :: 0 <= i < j < |own| && Terminal(own[i].kind) ==> Terminal(own[j].kind))
  {
    hide Own, Judged, OneClass, OncePerKind, Phased, Alternates, OneLease, OneDigest, Settles, Rep, Terminal;
    var own := Own(rows, op);
    ValidIffWellFormed(own);
    forall i, j | 0 <= i < j < |own| && Terminal(own[i].kind) ensures Terminal(own[j].kind) {
      OnlyTerminalsAfter(own, i, j);
    }
    forall i, j | 0 <= i < j < |own| && Terminal(own[i].kind) && Terminal(own[j].kind)
      ensures (own[i].kind == Expired) != (own[j].kind == Expired)
    {
      RealAndExpired(own, i, j);
    }
  }

  lemma OnlyTerminalsAfter(own: seq<Event>, i: nat, j: nat)
    requires Phased(own) && i < j < |own| && Terminal(own[i].kind)
    ensures Terminal(own[j].kind)
  {
    assert own[i].kind != OverrideRequested && Order(own[i].kind) == 6;
  }

  lemma RealAndExpired(own: seq<Event>, i: nat, j: nat)
    requires Settles(own) && i < j < |own| && Terminal(own[i].kind) && Terminal(own[j].kind)
    ensures (own[i].kind == Expired) != (own[j].kind == Expired)
  {
    TerminalPair(own, i, j);
    hide Terminals;
    var t := Terminals(own);
    assert t == [own[i], own[j]];
  }

  /** With at most two terminal rows, two terminal positions are those two rows. */
  lemma {:induction false} TerminalPair(own: seq<Event>, i: nat, j: nat)
    requires i < j < |own| && Terminal(own[i].kind) && Terminal(own[j].kind) && |Terminals(own)| <= 2
    ensures Terminals(own) == [own[i], own[j]]
  {
    TerminalsSplit(own, j);
    TerminalsSplit(own[..j], i);
    assert own[..j][..i] == own[..i];
  }

  lemma {:induction false} TerminalsSplit(own: seq<Event>, j: nat)
    requires j < |own| && Terminal(own[j].kind)
    ensures exists rest :: Terminals(own) == Terminals(own[..j]) + [own[j]] + rest
  {
    var init, e := own[..|own| - 1], own[|own| - 1];
    if j == |own| - 1 {
      assert Terminals(own) == Terminals(own[..j]) + [own[j]] + [];
    } else {
      TerminalsSplit(init, j);
      assert init[..j] == own[..j];
      var rest :| Terminals(init) == Terminals(own[..j]) + [own[j]] + rest;
      assert Terminals(own) == Terminals(own[..j]) + [own[j]] + (rest + if Terminal(e.kind) then [e] else []);
    }
  }

  // ----- what normalising leaves -----

  /** Row `j` is the late outcome of the expiration `i`, the latest one of its operation before it. */
  ghost predicate LatePair(rows: seq<Event>, op: int, i: int, j: int) {
    && 0 <= i < j < |rows| && rows[i].op == op && IsLate(rows[i], rows[j])
    && forall k :: i < k < j && rows[k].op == op ==> rows[k].kind != Expired
  }

  lemma {:induction false} LastExpiredIs(rows: seq<Event>, op: int)
    ensures match LastExpired(rows, op)
            case None => forall k :: 0 <= k < |rows| && rows[k].op == op ==> rows[k].kind != Expired
            case Some(x) => exists i :: 0 <= i < |rows| && rows[i] == x && x.op == op && x.kind == Expired
                                        && forall k :: i < k < |rows| && rows[k].op == op ==> rows[k].kind != Expired
  {
    if rows != [] {
      var init, e := rows[..|rows| - 1], rows[|rows| - 1];
      LastExpiredIs(init, op);
      assert forall k :: 0 <= k < |init| ==> rows[k] == init[k];
      if e.op == op && e.kind == Expired {
        assert rows[|rows| - 1] == e;
      } else if LastExpired(init, op).Some? {
        var i :| 0 <= i < |init| && init[i] == LastExpired(init, op).value
                 && forall k :: i < k < |init| && init[k].op == op ==> init[k].kind != Expired;
        assert rows[i] == LastExpired(rows, op).value;
      }
    }
  }

  /** An operation is recovered exactly when one of its rows is the late outcome of its latest expiration. */
  lemma {:induction false} RecoveredIff(rows: seq<Event>, op: int)
    ensures op in Recovered(rows) <==> exists i, j :: LatePair(rows, op, i, j)
  {
    if rows != [] {
      var init, e := rows[..|rows| - 1], rows[|rows| - 1];
      RecoveredIff(init, op);
      hide Recovered, LastExpired, IsLate;
      assert rows == init + [e];
      RecoveredStep(init, e);
      if op in Recovered(init) {
        var i, j :| LatePair(init, op, i, j);
        assert LatePair(rows, op, i, j);
      } else if op in Recovered(rows) {
        LateFromLast(init, e, op);
      }
      if i, j :| LatePair(rows, op, i, j) {
        if j < |init| { assert LatePair(init, op, i, j); } else { LateIsLast(init, e, op, i); }
      }
    }
  }

  /** The same, field by field. */
  lemma {:induction false} RecoveredIs(rows: seq<Event>, op: int)
    ensures op in Recovered(rows) <==> exists i, j :: RecoveredBy(rows, op, i, j)
  {
    RecoveredIff(rows, op);
    hide Recovered, OutcomeAfter, IsLate;
    forall i, j ensures LatePair(rows, op, i, j) == RecoveredBy(rows, op, i, j) {
      if 0 <= i < j < |rows| { PairsAgree(rows[i], rows[j]); }
    }
    hide LatePair, RecoveredBy;
  }

  /** Row `j` is the outcome of the lease that row `i` of the operation expired, with no expiration of it in between. */
  ghost predicate RecoveredBy(rows: seq<Event>, op: int, i: int, j: int) {
    && 0 <= i < j < |rows| && rows[i].op == op && OutcomeAfter(rows[i], rows[j])
    && forall k :: i < k < j && rows[k].op == op ==> rows[k].kind != Expired
  }

  lemma {:induction false} LateFromLast(init: seq<Event>, e: Event, op: int)
    requires Recovers(LastExpired(init, op), e)
    ensures exists i :: LatePair(init + [e], op, i, |init|)
  {
    hide LastExpired, IsLate;
    LastExpiredIs(init, op);
    var x := LastExpired(init, op).value;
    var i :| 0 <= i < |init| && init[i] == x && x.op == op && x.kind == Expired
             && forall k :: i < k < |init| && init[k].op == op ==> init[k].kind != Expired;
    assert LatePair(init + [e], op, i, |init|);
  }

  lemma {:induction false} LateIsLast(init: seq<Event>, e: Event, op: int, i: int)
    requires LatePair(init + [e], op, i, |init|)
    ensures e.op == op && Recovers(LastExpired(init, op), e)
  {
    hide LastExpired;
    LastExpiredIs(init, op);
    var rows := init + [e];
    assert rows[i] == init[i] && init[i].kind == Expired && init[i].op == op;
    var x := LastExpired(init, op).value;
    var m :| 0 <= m < |init| && init[m] == x
             && forall k :: m < k < |init| && init[k].op == op ==> init[k].kind != Expired;
    assert m >= i;
    assert rows[m] == init[m];
    assert m == i;
  }
}
