/**
 What the lifecycle validator accepts, said of the rows themselves: an operation passes exactly when its rows
 are well formed.
 */
module WorkLifecycle {
  import opened Prelude
  import opened WorkLedger

  /** Reservations not yet reacquired. */
  function Balance(own: seq<Event>): int {
    if own == [] then 0
    else Balance(own[..|own| - 1])
         + (if own[|own| - 1].kind == Reserved then 1 else if own[|own| - 1].kind == Reacquired then -1 else 0)
  }

  function Terminals(own: seq<Event>): seq<Event> {
    if own == [] then []
    else Terminals(own[..|own| - 1]) + if Terminal(own[|own| - 1].kind) then [own[|own| - 1]] else []
  }

  // ----- the eight conditions -----

  ghost predicate OneClass(own: seq<Event>) {
    forall i, j :: 0 <= i < j < |own| ==> own[i].workClass == own[j].workClass && own[i].weight == own[j].weight
  }

  ghost predicate OncePerKind(own: seq<Event>) {
    forall i, j :: 0 <= i < j < |own| && own[i].kind == own[j].kind ==> Repeatable(own[i].kind)
  }

  /** `b` may come after `a`: phases do not go back, except that a reacquired lease may be reserved again. */
  predicate MayFollow(a: Kind, b: Kind) { Order(a) <= Order(b) || (a == Reacquired && b == Reserved) }

  /** Overrides may come anywhere before the first terminal row; everything else comes in order. */
  ghost predicate Phased(own: seq<Event>) {
    forall i, j :: 0 <= i < j < |own| && own[i].kind != OverrideRequested ==>
      if own[j].kind == OverrideRequested then !Terminal(own[i].kind) else MayFollow(own[i].kind, own[j].kind)
  }

  /** Reserving and reacquiring alternate, reserving first. */
  ghost predicate Alternates(own: seq<Event>) {
    forall n :: 0 <= n <= |own| ==> 0 <= Balance(own[..n]) <= 1
  }

  /** No lease is named strictly between rows `i` and `j`. */
  ghost predicate Unleased(own: seq<Event>, i: int, j: int) {
    forall k :: i < k < j && 0 <= k < |own| ==> own[k].lease == NONE
  }

  /** The lease changes only on the row that reacquires it. */
  ghost predicate OneLease(own: seq<Event>) {
    forall i, j :: 0 <= i < j < |own| && Unleased(own, i, j) ==>
      SameIdentity(own[i].lease, own[j].lease) || own[j].kind == Reacquired
  }

  ghost predicate OneDigest(own: seq<Event>) {
    forall i, j :: 0 <= i < j < |own| ==>
      SameIdentity(own[i].command, own[j].command) && SameIdentity(own[i].session, own[j].session)
  }

  /** One terminal row; or the real one and a stale cleanup; or an expiration and the real one, late. */
  ghost predicate Settles(own: seq<Event>) {
    var t := Terminals(own);
    |t| <= 1 || (|t| == 2 && (IsStaleCleanup(t[0], t[1]) || IsLate(t[0], t[1])))
  }

  ghost predicate WellFormed(own: seq<Event>) {
    && OneClass(own) && OncePerKind(own) && Phased(own) && Alternates(own)
    && OneLease(own) && OneDigest(own) && Settles(own)
  }

  // ----- what the validator's state says about the rows -----

  ghost predicate ReachedOrder(own: seq<Event>, order: int) {
    exists i :: 0 <= i < |own| && own[i].kind != OverrideRequested && Order(own[i].kind) == order
  }

  ghost predicate StageRep(l: Lifecycle, own: seq<Event>) {
    && (forall i :: 0 <= i < |own| ==> own[i].workClass == l.workClass && own[i].weight == l.weight)
    && (forall i :: 0 <= i < |own| ==> own[i].kind in l.seen)
    && (forall k :: k in l.seen ==> exists i :: 0 <= i < |own| && own[i].kind == k)
    && (forall i :: 0 <= i < |own| && own[i].kind != OverrideRequested ==>
          Order(own[i].kind) <= l.lastOrder || (own[i].kind == Reacquired && l.lastOrder == Order(Reserved)))
    && (l.lastOrder == -1 || ReachedOrder(own, l.lastOrder))
  }

  ghost predicate LastLeaseIs(own: seq<Event>, lease: int) {
    if lease == NONE then forall i :: 0 <= i < |own| ==> own[i].lease == NONE
    else exists i :: 0 <= i < |own| && own[i].lease == lease && Unleased(own, i, |own|)
  }

  ghost predicate LeaseRep(l: Lifecycle, own: seq<Event>) {
    && Balance(own) == (if l.reserved then 1 else 0)
    && (l.reserved ==> l.lastOrder != Order(Reacquired))
    && LastLeaseIs(own, l.lease)
  }

  ghost predicate IdentityIs(own: seq<Event>, command: int, session: int) {
    && (forall i :: 0 <= i < |own| ==> own[i].command in {NONE, command} && own[i].session in {NONE, session})
    && (command == NONE || exists i :: 0 <= i < |own| && own[i].command == command)
    && (session == NONE || exists i :: 0 <= i < |own| && own[i].session == session)
  }

  /** The authority among the terminal rows. */
  function Authority(t: seq<Event>): Option<Event> {
    if t == [] then None
    else if |t| >= 2 && !IsStaleCleanup(t[0], t[1]) then Some(t[1]) else Some(t[0])
  }

  ghost predicate EndRep(l: Lifecycle, own: seq<Event>) {
    IdentityIs(own, l.command, l.session) && l.terminal == Authority(Terminals(own))
  }

  ghost predicate Rep(l: Lifecycle, own: seq<Event>) { StageRep(l, own) && LeaseRep(l, own) && EndRep(l, own) }

  // ----- one row more: class, kinds and phases -----

  lemma {:induction false} TerminalsAre(own: seq<Event>)
    ensures Terminals(own) == [] <==> forall i :: 0 <= i < |own| ==> !Terminal(own[i].kind)
    ensures forall t :: t in Terminals(own) ==> t in own && Terminal(t.kind)
  {
    if own != [] {
      var init := own[..|own| - 1];
      TerminalsAre(init);
      assert own == init + [own[|own| - 1]];
    }
  }

  lemma ClassIff(l: Lifecycle, own: seq<Event>, e: Event)
    requires StageRep(l, own) && OneClass(own) && (own == [] ==> l.workClass == e.workClass && l.weight == e.weight)
    ensures OneClass(own + [e]) <==> e.workClass == l.workClass && e.weight == l.weight
  {
    var all := own + [e];
    if own != [] { assert all[0] == own[0] && all[|own|] == e; }
  }

  lemma KindIff(l: Lifecycle, own: seq<Event>, e: Event)
    requires StageRep(l, own) && OncePerKind(own)
    ensures OncePerKind(own + [e]) <==> (e.kind in l.seen ==> Repeatable(e.kind))
  {
    hide Repeatable;
    var all := own + [e];
    if e.kind in l.seen {
      var i :| 0 <= i < |own| && own[i].kind == e.kind;
      assert all[i] == own[i] && all[|own|] == e;
    }
  }

  lemma PhaseIff(l: Lifecycle, own: seq<Event>, e: Event)
    requires StageRep(l, own) && Phased(own) && (l.reserved ==> l.lastOrder != Order(Reacquired))
    requires l.terminal.None? <==> forall i :: 0 <= i < |own| ==> !Terminal(own[i].kind)
    ensures Phased(own + [e]) <==> InOrder(l, e)
  {
    if e.kind == OverrideRequested { OverrideIff(l, own, e); } else { StepIff(l, own, e); }
  }

  lemma OverrideIff(l: Lifecycle, own: seq<Event>, e: Event)
    requires Phased(own) && e.kind == OverrideRequested
    requires l.terminal.None? <==> forall i :: 0 <= i < |own| ==> !Terminal(own[i].kind)
    ensures Phased(own + [e]) <==> InOrder(l, e)
  {
    var all := own + [e];
    assert all[|own|] == e && forall i :: 0 <= i < |own| ==> all[i] == own[i];
    if Phased(all) {
      forall i | 0 <= i < |own| ensures !Terminal(own[i].kind) {
        assert all[i] == own[i];
      }
    }
  }

  lemma StepIff(l: Lifecycle, own: seq<Event>, e: Event)
    requires StageRep(l, own) && Phased(own) && (l.reserved ==> l.lastOrder != Order(Reacquired))
    requires e.kind != OverrideRequested
    ensures Phased(own + [e]) <==> InOrder(l, e)
  {
    hide MayFollow, InOrder;
    PhasedGrows(own, e);
    if AllPrecede(own, e) && l.lastOrder != -1 {
      var i :| 0 <= i < |own| && own[i].kind != OverrideRequested && Order(own[i].kind) == l.lastOrder;
      LastDecides(l, own[i].kind, e);
    }
    if l.lastOrder == -1 { FirstInOrder(l, e); }
    if InOrder(l, e) {
      forall i | 0 <= i < |own| && own[i].kind != OverrideRequested ensures MayFollow(own[i].kind, e.kind) {
        EarlierFollow(l, own[i].kind, e);
      }
    }
  }

  /** The row may follow each of the earlier ones that is not an override. */
  ghost predicate AllPrecede(own: seq<Event>, e: Event) {
    forall i :: 0 <= i < |own| && own[i].kind != OverrideRequested ==> MayFollow(own[i].kind, e.kind)
  }

  lemma PhasedGrows(own: seq<Event>, e: Event)
    requires Phased(own) && e.kind != OverrideRequested
    ensures Phased(own + [e]) <==> AllPrecede(own, e)
  {
    hide MayFollow, Terminal;
    var all := own + [e];
    assert all[|own|] == e && forall i :: 0 <= i < |own| ==> all[i] == own[i];
    if Phased(all) {
      forall i | 0 <= i < |own| && own[i].kind != OverrideRequested ensures MayFollow(own[i].kind, e.kind) {
        assert all[i] == own[i];
      }
    }
  }

  lemma FirstInOrder(l: Lifecycle, e: Event)
    requires l.lastOrder == -1 && e.kind != OverrideRequested
    ensures InOrder(l, e)
  {
  }

  lemma LastDecides(l: Lifecycle, k: Kind, e: Event)
    requires Order(k) == l.lastOrder && k != OverrideRequested && e.kind != OverrideRequested && MayFollow(k, e.kind)
    requires l.reserved ==> l.lastOrder != Order(Reacquired)
    ensures InOrder(l, e)
  {
  }

  lemma EarlierFollow(l: Lifecycle, k: Kind, e: Event)
    requires Order(k) <= l.lastOrder || (k == Reacquired && l.lastOrder == Order(Reserved))
    requires InOrder(l, e) && k != OverrideRequested && e.kind != OverrideRequested
    ensures MayFollow(k, e.kind)
  {
  }

  lemma StageIff(l: Lifecycle, own: seq<Event>, e: Event)
    requires Rep(l, own) && OneClass(own) && OncePerKind(own) && Phased(own)
    requires own == [] ==> l.workClass == e.workClass && l.weight == e.weight
    ensures OneClass(own + [e]) && OncePerKind(own + [e]) && Phased(own + [e]) <==> StageOK(l, e)
    ensures StageOK(l, e) ==> StageRep(StageMoved(l, e), own + [e])
  {
    hide InOrder, OneClass, OncePerKind, Phased, Order, Repeatable, Terminal;
    TerminalsAre(own);
    ClassIff(l, own, e);
    KindIff(l, own, e);
    PhaseIff(l, own, e);
    if StageOK(l, e) { StageRepStep(l, own, e); }
  }

  lemma StageRepStep(l: Lifecycle, own: seq<Event>, e: Event)
    requires StageRep(l, own) && StageOK(l, e)
    ensures StageRep(StageMoved(l, e), own + [e])
  {
    hide InOrder, Order, Repeatable;
    var all := own + [e];
    assert all[|own|] == e && forall i :: 0 <= i < |own| ==> all[i] == own[i];
    OrdersStep(l, own, e);
    ReachedStep(l, own, e);
    forall k | k in l.seen + {e.kind} ensures exists i :: 0 <= i < |all| && all[i].kind == k {
      if k == e.kind {
        assert all[|own|].kind == k;
      } else {
        var i :| 0 <= i < |own| && own[i].kind == k;
        assert all[i].kind == k;
      }
    }
  }

  lemma OrdersStep(l: Lifecycle, own: seq<Event>, e: Event)
    requires StageRep(l, own) && InOrder(l, e)
    ensures var all, last := own + [e], StageMoved(l, e).lastOrder;
            forall i :: 0 <= i < |all| && all[i].kind != OverrideRequested ==>
              Order(all[i].kind) <= last || (all[i].kind == Reacquired && last == Order(Reserved))
  {
    var all, last := own + [e], StageMoved(l, e).lastOrder;
    forall i | 0 <= i < |all| && all[i].kind != OverrideRequested
      ensures Order(all[i].kind) <= last || (all[i].kind == Reacquired && last == Order(Reserved))
    {
      if i < |own| { assert all[i] == own[i]; }
    }
  }

  lemma ReachedStep(l: Lifecycle, own: seq<Event>, e: Event)
    requires StageRep(l, own)
    ensures var all, last := own + [e], StageMoved(l, e).lastOrder;
            last == -1 || ReachedOrder(all, last)
  {
    hide Order;
    var all, last := own + [e], StageMoved(l, e).lastOrder;
    if e.kind != OverrideRequested {
      assert all[|own|].kind != OverrideRequested && Order(all[|own|].kind) == last;
    } else if l.lastOrder != -1 {
      var i :| 0 <= i < |own| && own[i].kind != OverrideRequested && Order(own[i].kind) == l.lastOrder;
      assert all[i].kind != OverrideRequested && Order(all[i].kind) == last;
    }
  }

  // ----- one row more: reservations and leases -----

  lemma BalanceStep(own: seq<Event>, e: Event)
    ensures Balance(own + [e]) == Balance(own)
            + (if e.kind == Reserved then 1 else if e.kind == Reacquired then -1 else 0)
  {
    assert (own + [e])[..|own|] == own;
  }

  lemma AlternatesIff(own: seq<Event>, e: Event)
    requires Alternates(own)
    ensures Alternates(own + [e]) <==> 0 <= Balance(own + [e]) <= 1
  {
    var all := own + [e];
    assert all[..|all|] == all;
    forall n | 0 <= n <= |own| ensures 0 <= Balance(all[..n]) <= 1 {
      assert all[..n] == own[..n];
    }
  }

  lemma LeasePairIff(lease: int, own: seq<Event>, e: Event)
    requires LastLeaseIs(own, lease) && OneLease(own)
    ensures OneLease(own + [e]) <==> SameIdentity(lease, e.lease) || e.kind == Reacquired
    ensures LastLeaseIs(own + [e], Latest(lease, e.lease))
  {
    var all := own + [e];
    assert all[|own|] == e && forall i :: 0 <= i < |own| ==> all[i] == own[i];
    forall i, j | 0 <= i < j < |own| ensures Unleased(all, i, j) <==> Unleased(own, i, j) {
      UnleasedStep(own, e, i, j);
    }
    if lease != NONE {
      var k :| 0 <= k < |own| && own[k].lease == lease && Unleased(own, k, |own|);
      UnleasedStep(own, e, k, |own|);
      if e.lease == NONE { assert all[k].lease == lease && Unleased(all, k, |all|); }
      forall i | 0 <= i < |own| && Unleased(all, i, |own|) ensures own[i].lease in {NONE, lease} {
        assert all[k].lease == lease;
        assert i >= k;
      }
    }
    if e.lease != NONE { assert all[|own|].lease == e.lease && Unleased(all, |own|, |all|); }
    if SameIdentity(lease, e.lease) || e.kind == Reacquired { OneLeaseGrows(lease, own, e); }
  }

  lemma UnleasedStep(own: seq<Event>, e: Event, i: int, j: int)
    requires 0 <= i < j <= |own|
    ensures Unleased(own + [e], i, j) <==> Unleased(own, i, j)
  {
    var all := own + [e];
    assert forall k :: 0 <= k < |own| ==> all[k] == own[k];
    if Unleased(all, i, j) {
      forall k | i < k < j && 0 <= k < |own| ensures own[k].lease == NONE { assert all[k].lease == NONE; }
    }
  }

  lemma OneLeaseGrows(lease: int, own: seq<Event>, e: Event)
    requires LastLeaseIs(own, lease) && OneLease(own) && (SameIdentity(lease, e.lease) || e.kind == Reacquired)
    ensures OneLease(own + [e])
  {
    var all := own + [e];
    forall i, j | 0 <= i < j < |all| && Unleased(all, i, j)
      ensures SameIdentity(all[i].lease, all[j].lease) || all[j].kind == Reacquired
    {
      UnleasedStep(own, e, i, j);
      if j == |own| && lease != NONE {
        var k :| 0 <= k < |own| && own[k].lease == lease && Unleased(own, k, |own|);
        assert i >= k;
        if k < i { assert own[i].lease == NONE; }
      }
    }
  }

  lemma LeaseIff(l: Lifecycle, own: seq<Event>, e: Event)
    requires LeaseRep(l, own) && Alternates(own) && OneLease(own)
    ensures Alternates(own + [e]) && OneLease(own + [e]) <==> LeaseOK(l, e)
    ensures LeaseOK(l, e) ==> Balance(own + [e]) == (if LeaseMoved(l, e).reserved then 1 else 0)
    ensures LastLeaseIs(own + [e], LeaseMoved(l, e).lease)
  {
    hide Alternates, OneLease, LastLeaseIs, Balance;
    BalanceStep(own, e);
    AlternatesIff(own, e);
    LeasePairIff(l.lease, own, e);
  }

  // ----- one row more: digests and terminals -----

  lemma DigestIff(l: Lifecycle, own: seq<Event>, e: Event)
    requires IdentityIs(own, l.command, l.session) && OneDigest(own)
    ensures OneDigest(own + [e]) <==> SameIdentity(l.command, e.command) && SameIdentity(l.session, e.session)
  {
    var all := own + [e];
    assert all[|own|] == e && forall i :: 0 <= i < |own| ==> all[i] == own[i];
    if OneDigest(all) {
      if l.command != NONE {
        var i :| 0 <= i < |own| && own[i].command == l.command;
        assert SameIdentity(all[i].command, all[|own|].command);
      }
      if l.session != NONE {
        var i :| 0 <= i < |own| && own[i].session == l.session;
        assert SameIdentity(all[i].session, all[|own|].session);
      }
    }
  }

  lemma DigestStep(own: seq<Event>, e: Event, command: int, session: int)
    requires IdentityIs(own, command, session) && SameIdentity(command, e.command) && SameIdentity(session, e.session)
    ensures IdentityIs(own + [e], Latest(command, e.command), Latest(session, e.session))
  {
    var all := own + [e];
    assert all[|own|] == e && forall i :: 0 <= i < |own| ==> all[i] == own[i];
    if command != NONE {
      var i :| 0 <= i < |own| && own[i].command == command;
      assert all[i].command == command;
    }
    if session != NONE {
      var i :| 0 <= i < |own| && own[i].session == session;
      assert all[i].session == session;
    }
  }

  lemma TerminalsStep(own: seq<Event>, e: Event)
    ensures Terminals(own + [e]) == Terminals(own) + if Terminal(e.kind) then [e] else []
  {
    assert (own + [e])[..|own|] == own;
  }

  /** Two terminal rows are already one expiration and one real outcome, which is the authority. */
  lemma TwoTerminals(t: seq<Event>)
    requires |t| == 2 && (IsStaleCleanup(t[0], t[1]) || IsLate(t[0], t[1]))
    ensures Authority(t).value.kind != Expired && (t[0].kind == Expired || t[1].kind == Expired)
  {
  }

  lemma SettlesIff(l: Lifecycle, own: seq<Event>, e: Event)
    requires l.terminal == Authority(Terminals(own)) && Settles(own) && OncePerKind(own + [e])
    ensures Settles(own + [e]) <==>
            (Terminal(e.kind) && l.terminal.Some? ==>
              IsStaleCleanup(l.terminal.value, e) || IsLate(l.terminal.value, e))
    ensures Settles(own + [e]) ==> EndMoved(l, e).terminal == Authority(Terminals(own + [e]))
  {
    TerminalsStep(own, e);
    var t := Terminals(own);
    if Terminal(e.kind) && |t| == 2 {
      TwoTerminals(t);
      NotExpiredTwice(own, e, t);
    }
  }

  lemma NotExpiredTwice(own: seq<Event>, e: Event, t: seq<Event>)
    requires t == Terminals(own) && |t| == 2 && (t[0].kind == Expired || t[1].kind == Expired) && OncePerKind(own + [e])
    ensures e.kind != Expired
  {
    TerminalsAre(own);
    var x := if t[0].kind == Expired then t[0] else t[1];
    assert x in t;
    var i :| 0 <= i < |own| && own[i] == x;
    var all := own + [e];
    assert all[i].kind == Expired && all[|own|] == e;
  }

  lemma EndIff(l: Lifecycle, own: seq<Event>, e: Event)
    requires EndRep(l, own) && OneDigest(own) && Settles(own) && OncePerKind(own + [e])
    ensures OneDigest(own + [e]) && Settles(own + [e]) <==> EndOK(l, e)
    ensures EndOK(l, e) ==> EndRep(EndMoved(l, e), own + [e])
  {
    hide OneDigest, Settles, IdentityIs, SameIdentity, OncePerKind, IsLate, IsStaleCleanup, Terminal, Terminals,
         Authority;
    DigestIff(l, own, e);
    SettlesIff(l, own, e);
    if EndOK(l, e) { DigestStep(own, e, l.command, l.session); }
  }

  // ----- the characterisation -----

  lemma Prefix(own: seq<Event>, e: Event)
    requires WellFormed(own + [e])
    ensures WellFormed(own)
  {
    var all := own + [e];
    assert forall i :: 0 <= i < |own| ==> all[i] == own[i];
    PrefixPairs(own, e);
    TerminalsStep(own, e);
    forall n | 0 <= n <= |own| ensures 0 <= Balance(own[..n]) <= 1 { assert all[..n] == own[..n]; }
    forall i, j | 0 <= i < j < |own| && Unleased(own, i, j)
      ensures SameIdentity(own[i].lease, own[j].lease) || own[j].kind == Reacquired
    {
      UnleasedStep(own, e, i, j);
      assert all[i] == own[i] && all[j] == own[j];
    }
  }

  lemma PrefixPairs(own: seq<Event>, e: Event)
    requires WellFormed(own + [e])
    ensures OneClass(own) && OncePerKind(own) && Phased(own) && OneDigest(own)
  {
    var all := own + [e];
    hide SameIdentity, Repeatable, MayFollow, Terminal, Alternates, OneLease, Settles;
    assert forall i :: 0 <= i < |own| ==> own[i] == all[i];
  }

  lemma StepFrom(l: Lifecycle, own: seq<Event>, e: Event)
    requires Rep(l, own) && WellFormed(own) && (own == [] ==> l.workClass == e.workClass && l.weight == e.weight)
    ensures WellFormed(own + [e]) <==> Acceptable(l, e)
    ensures Acceptable(l, e) ==> Rep(Moved(l, e), own + [e])
  {
    hide OneClass, OncePerKind, Phased, Alternates, OneLease, OneDigest, Settles, StageRep, IdentityIs, LastLeaseIs,
         Balance, Terminals, Authority, InOrder, SameIdentity, IsStaleCleanup, IsLate, Terminal, Repeatable;
    StageIff(l, own, e);
    LeaseIff(l, own, e);
    if OncePerKind(own + [e]) { EndIff(l, own, e); }
    if Acceptable(l, e) { MovedRep(l, own, e); }
  }

  lemma MovedRep(l: Lifecycle, own: seq<Event>, e: Event)
    requires StageRep(StageMoved(l, e), own + [e]) && EndRep(EndMoved(l, e), own + [e])
    requires Balance(own + [e]) == (if LeaseMoved(l, e).reserved then 1 else 0)
    requires LastLeaseIs(own + [e], LeaseMoved(l, e).lease)
    requires LeaseRep(l, own) && Acceptable(l, e)
    ensures Rep(Moved(l, e), own + [e])
  {
    hide IdentityIs, LastLeaseIs, Balance, Terminals, Authority, SameIdentity, IsStaleCleanup, IsLate, Terminal,
         Repeatable;
    var s, m := StageMoved(l, e), Moved(l, e);
    assert StageRep(m, own + [e]) by {
      assert m.workClass == s.workClass && m.weight == s.weight && m.seen == s.seen && m.lastOrder == s.lastOrder;
    }
    assert LeaseRep(m, own + [e]);
    assert EndRep(m, own + [e]);
  }

  /** An operation passes the validator exactly when it has rows and they are well formed. */
  lemma {:induction false} ValidIffWellFormed(own: seq<Event>)
    ensures Judged(own).Valid? <==> own != [] && WellFormed(own)
    ensures Judged(own).Valid? ==> Rep(Judged(own).life, own)
  {
    if own == [] { return; }
    var init, e := own[..|own| - 1], own[|own| - 1];
    ValidIffWellFormed(init);
    assert own == init + [e];
    JudgedStep(init, e);
    hide Rep, WellFormed, Acceptable, Moved;
    if init == [] {
      FreshRep(e);
      StepFrom(Fresh(e), init, e);
    } else if Judged(init).Valid? {
      StepFrom(Judged(init).life, init, e);
    } else if WellFormed(own) {
      Prefix(init, e);
    }
  }

  lemma FreshRep(e: Event)
    ensures Rep(Fresh(e), []) && WellFormed([])
  {
  }

  // ----- legal histories, kind by kind and field by field -----

  /** A row that ends an operation. */
  predicate Ends(k: Kind) { k == Completed || k == Failed || k == Cancelled || k == Expired || k == Reused }

  /** A row of kind `b` may come after one of kind `a`; neither is an override. */
  predicate PhaseAllows(a: Kind, b: Kind) {
    || Ends(b)
    || a == Queued
    || (a == Acquired && (b == Acquired || b == Reserved || b == Reacquired || b == Started))
    || (a == Reserved && (b == Reserved || b == Reacquired || b == Started))
    || (a == Reacquired && (b == Reserved || b == Reacquired || b == Started))
    || (a == Started && b == Started)
  }

  predicate Agree(a: int, b: int) { a == 0 || b == 0 || a == b }

  /** The real outcome of the lease that `a` expired, at most five seconds after it. */
  predicate OutcomeAfter(a: Event, b: Event) {
    && a.kind == Expired && (a.outcome == DeadLeaseOwner || a.outcome == ReusedLeasePID)
    && (b.kind == Completed || b.kind == Failed || b.kind == Cancelled) && b.exitCode.Some? && b.commandValid
    && a.op == b.op && a.workClass == b.workClass && a.weight == b.weight
    && a.lease == b.lease != 0 && a.pid == b.pid > 0 && 0 <= b.at - a.at <= 5_000_000_000
  }

  /** A cleanup receipt of a reconciliation after an outcome. */
  predicate CleanupAfter(a: Event, b: Event) {
    && a.kind != Expired && b.kind == Expired
    && (b.outcome == DeadLeaseOwner || b.outcome == ReusedLeasePID
        || b.outcome == DeadWaiterOwner || b.outcome == ReusedWaiterPID)
  }

  function EndRows(own: seq<Event>): seq<Event> {
    if own == [] then []
    else EndRows(own[..|own| - 1]) + if Ends(own[|own| - 1].kind) then [own[|own| - 1]] else []
  }

  ghost predicate LegalKinds(own: seq<Event>) {
    forall i, j :: 0 <= i < j < |own| && own[i].kind == own[j].kind ==>
      own[i].kind == OverrideRequested || own[i].kind == Reserved || own[i].kind == Reacquired
  }

  ghost predicate LegalOrder(own: seq<Event>) {
    forall i, j :: 0 <= i < j < |own| && own[i].kind != OverrideRequested ==>
      if own[j].kind == OverrideRequested then !Ends(own[i].kind) else PhaseAllows(own[i].kind, own[j].kind)
  }

  ghost predicate LegalLeases(own: seq<Event>) {
    forall i, j :: 0 <= i < j < |own| && (forall k :: i < k < j ==> own[k].lease == 0) ==>
      Agree(own[i].lease, own[j].lease) || own[j].kind == Reacquired
  }

  ghost predicate LegalDigests(own: seq<Event>) {
    forall i, j :: 0 <= i < j < |own| ==> Agree(own[i].command, own[j].command) && Agree(own[i].session, own[j].session)
  }

  ghost predicate LegalEnds(own: seq<Event>) {
    var t := EndRows(own);
    |t| <= 1 || (|t| == 2 && (CleanupAfter(t[0], t[1]) || OutcomeAfter(t[0], t[1])))
  }

  /** One class and weight; only overrides and reservations repeat; the phases in order, and no override after an end;
      reserving and reacquiring alternate; the lease changes only when reacquired; the digests stay; and at most one
      end, but for a cleanup receipt after it or the real outcome of an expiration. */
  ghost predicate Legal(own: seq<Event>) {
    && OneClass(own) && LegalKinds(own) && LegalOrder(own) && Alternates(own)
    && LegalLeases(own) && LegalDigests(own) && LegalEnds(own)
  }

  lemma KindsAgree(a: Kind, b: Kind)
    ensures Ends(a) == Terminal(a)
    ensures a != OverrideRequested && b != OverrideRequested ==> PhaseAllows(a, b) == MayFollow(a, b)
    ensures Repeatable(a) <==> a == OverrideRequested || a == Reserved || a == Reacquired
  {
  }

  lemma PairsAgree(a: Event, b: Event)
    ensures OutcomeAfter(a, b) == IsLate(a, b) && CleanupAfter(a, b) == IsStaleCleanup(a, b)
  {
  }

  lemma {:induction false} EndRowsAre(own: seq<Event>)
    ensures EndRows(own) == Terminals(own)
  {
    if own != [] {
      EndRowsAre(own[..|own| - 1]);
      KindsAgree(own[|own| - 1].kind, Queued);
      hide Ends, Terminal;
    }
  }

  lemma OrderAgrees(own: seq<Event>)
    ensures LegalOrder(own) <==> Phased(own)
    ensures LegalKinds(own) <==> OncePerKind(own)
  {
    forall a: Kind, b: Kind
      ensures Ends(a) == Terminal(a)
      ensures a != OverrideRequested && b != OverrideRequested ==> PhaseAllows(a, b) == MayFollow(a, b)
      ensures Repeatable(a) <==> a == OverrideRequested || a == Reserved || a == Reacquired
    {
      KindsAgree(a, b);
    }
    hide Ends, Terminal, PhaseAllows, MayFollow, Repeatable;
  }

  lemma LeasesAgree(own: seq<Event>)
    ensures LegalLeases(own) <==> OneLease(own)
  {
    forall i, j | 0 <= i < j < |own|
      ensures Unleased(own, i, j) <==> forall k :: i < k < j ==> own[k].lease == 0
    {
    }
    assert forall a, b :: Agree(a, b) == SameIdentity(a, b);
    hide Agree, SameIdentity, Unleased;
    if LegalLeases(own) {
      forall i, j | 0 <= i < j < |own| && Unleased(own, i, j)
        ensures SameIdentity(own[i].lease, own[j].lease) || own[j].kind == Reacquired
      {
        assert Agree(own[i].lease, own[j].lease) || own[j].kind == Reacquired;
      }
    }
    if OneLease(own) {
      forall i, j | 0 <= i < j < |own| && (forall k :: i < k < j ==> own[k].lease == 0)
        ensures Agree(own[i].lease, own[j].lease) || own[j].kind == Reacquired
      {
        assert Unleased(own, i, j);
      }
    }
  }

  lemma EndsAgree(own: seq<Event>)
    ensures LegalEnds(own) <==> Settles(own)
    ensures LegalDigests(own) <==> OneDigest(own)
  {
    EndRowsAre(own);
    var t := Terminals(own);
    if |t| == 2 { PairsAgree(t[0], t[1]); }
    hide OutcomeAfter, IsLate, CleanupAfter, IsStaleCleanup, Terminals, EndRows;
    assert forall a, b :: Agree(a, b) == SameIdentity(a, b);
    hide Agree, SameIdentity;
  }

  /** An operation passes the validator exactly when it has rows and they are a legal history. */
  lemma {:induction false} PassesIffLegal(own: seq<Event>)
    ensures Judged(own).Valid? <==> own != [] && Legal(own)
  {
    hide Judged, OneClass, OncePerKind, Phased, Alternates, OneLease, OneDigest, Settles, Rep, LegalKinds, LegalOrder,
         LegalLeases, LegalDigests, LegalEnds;
    ValidIffWellFormed(own);
    OrderAgrees(own);
    LeasesAgree(own);
    EndsAgree(own);
  }
}
