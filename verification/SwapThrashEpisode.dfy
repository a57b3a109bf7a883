/**
 One episode of the swap-thrash latch: what a sample says, what a restart resumes, and what an episode's cause, start
 and rows are, in the terms of the samples.
 */
module SwapThrashEpisode {
  import opened Prelude
  import opened SwapThrash

  // ----- what a sample says -----

  /** The band of a sample, and when leased work counts as below its share, from the readings and the policy. */
  lemma ReadingIs(p: Policy, s: Sample)
    ensures var r := Read(p, s);
            && r.at == s.at
            && (r.band == Dark <==> !s.available || p.thrash <= 0.0)
            && (r.band == Hot <==> s.available && 0.0 < p.thrash <= s.swapOut)
            && (r.band == Calm <==> s.available && 0.0 < p.thrash && s.swapOut < p.thrash && s.swapOut <= p.release)
    ensures var percent := if p.agentSharePercent == 0 then 25 else p.agentSharePercent;
            Read(p, s).below <==>
            || s.physicalMB <= 0.0 || percent <= 0
            || (if s.workAvailable && s.workRSSMB > 0.0 then s.workRSSMB else 0.0)
               < s.physicalMB * percent as real / 100.0
    ensures Window(p) == if p.externalReleaseSeconds == 0 then 300 * 1_000_000_000
                         else if p.externalReleaseSeconds < 0 then 0 else p.externalReleaseSeconds * 1_000_000_000
  {
    var percent := if p.agentSharePercent == 0 then 25 else p.agentSharePercent;
    if s.physicalMB > 0.0 && percent > 0 { PositiveShare(s.physicalMB, percent as real); }
  }

  lemma PositiveShare(memory: real, percent: real)
    requires memory > 0.0 && percent > 0.0
    ensures memory * percent / 100.0 > 0.0
  {
  }

  // ----- what a restart resumes -----

  /** The published snapshot is of a latched episode and between five seconds ahead and three minutes old. */
  predicate Resumable(latest: Published, now: Time) {
    latest.available && latest.latched && -5 * 1_000_000_000 <= now - latest.at <= 180 * 1_000_000_000
  }

  /** A new process resumes exactly the fresh latched snapshots: with their cause and start, and with the proof and the
      lifted derate if and only if the cause is external. */
  lemma ResumedIff(latest: Published, now: Time)
    ensures var l := Resumed(FRESH, latest, now);
            && (l.latched <==> Resumable(latest, now))
            && (!l.latched ==> l == FRESH)
            && (l.latched ==>
                  && l.resumed && l.cause == latest.cause
                  && l.since == (if latest.since == NO_TIME then latest.at else latest.since)
                  && l.proven == l.external == (latest.cause == External)
                  && l.externalSince == (if l.external then latest.at else NO_TIME)
                  && l.externalTotal == 0 && l.quietSince == NO_TIME && l.lastExternalRelease == NO_TIME)
  {
  }

  // ----- a resumed episode lasts as long as one that was never interrupted -----

  /** Two hot samples. */
  const STORM: seq<Reading> := [Reading(0, Hot, true), Reading(0, Hot, true)]

  lemma StormLatches(w: nat)
    ensures var l := Run(FRESH, w, STORM); l.latched && l.hot == 2 && l.calm == 0
  {
    var hot := Reading(0, Hot, true);
    assert STORM[..1] == [hot] && [hot][..0] == [];
    assert Run(FRESH, w, []) == FRESH;
    AdvanceCounters(FRESH, w, hot);
    assert Run(FRESH, w, [hot]) == Advanced(FRESH, w, hot).0;
    AdvanceCounters(Run(FRESH, w, [hot]), w, hot);
  }

  predicate SameVerdict(a: Latch, b: Latch) { a.latched == b.latched && a.hot == b.hot && a.calm == b.calm }

  lemma {:induction false} AsIfStorm(l0: Latch, w: nat, rs: seq<Reading>)
    requires l0.latched && l0.hot == 2 && l0.calm == 0
    ensures SameVerdict(Run(l0, w, rs), Run(FRESH, w, STORM + rs))
  {
    if rs == [] {
      assert STORM + rs == STORM;
      StormLatches(w);
    } else {
      var init, r := rs[..|rs| - 1], rs[|rs| - 1];
      AsIfStorm(l0, w, init);
      assert (STORM + rs)[..|STORM + rs| - 1] == STORM + init && (STORM + rs)[|STORM + rs| - 1] == r;
      AdvanceCounters(Run(l0, w, init), w, r);
      AdvanceCounters(Run(FRESH, w, STORM + init), w, r);
      hide Advanced;
    }
  }

  /** No adjacent calm pair and no dark sample. */
  ghost predicate NeverUndone(rs: seq<Reading>) { forall k :: 0 <= k < |rs| ==> !Undone(rs, k) }

  lemma StormBefore(rs: seq<Reading>)
    ensures StormStands(STORM + rs) <==> NeverUndone(rs) || StormStands(rs)
  {
    var all := STORM + rs;
    forall k | 0 <= k < |rs|
      ensures Undone(all, k + 2) == Undone(rs, k) && (k >= 1 ==> Pair(Hot, all, k + 2) == Pair(Hot, rs, k))
    {
      Shifted(rs, k);
    }
    assert Pair(Hot, all, 1);
    StandsIff(all);
    StandsIff(rs);
    hide Undone, Pair, StormStands;
    if j :| StandsFrom(all, j) {
      PairInRange(all, j);
      if j >= 3 {
        assert Pair(Hot, rs, j - 2);
        StandsShifted(rs, j - 2);
        assert StandsFrom(rs, j - 2);
      } else {
        NeverUndoneFrom(rs, j);
      }
    }
    if NeverUndone(rs) {
      forall k | 1 < k < |all| ensures !Undone(all, k) { Shifted(rs, k - 2); }
      assert StandsFrom(all, 1);
    }
    if j :| StandsFrom(rs, j) {
      PairInRange(rs, j);
      StandsShifted(rs, j);
      assert StandsFrom(all, j + 2);
    }
  }

  ghost predicate StandsFrom(rs: seq<Reading>, j: int) {
    Pair(Hot, rs, j) && forall k :: j < k < |rs| ==> !Undone(rs, k)
  }

  lemma StandsIff(rs: seq<Reading>)
    ensures StormStands(rs) <==> exists j :: StandsFrom(rs, j)
  {
    hide Pair, Undone;
    if StormStands(rs) {
      var j :| Pair(Hot, rs, j) && forall k :: j < k < |rs| ==> !Undone(rs, k);
      assert StandsFrom(rs, j);
    }
  }

  lemma PairInRange(rs: seq<Reading>, j: int)
    requires Pair(Hot, rs, j)
    ensures 1 <= j < |rs|
  {
  }

  lemma Shifted(rs: seq<Reading>, k: int)
    requires 0 <= k < |rs|
    ensures Undone(STORM + rs, k + 2) == Undone(rs, k)
    ensures k >= 1 ==> Pair(Hot, STORM + rs, k + 2) == Pair(Hot, rs, k)
  {
    var all := STORM + rs;
    assert all[k + 2] == rs[k] && all[1].band == Hot;
    if k > 0 { assert all[k + 1] == rs[k - 1]; }
  }

  lemma StandsShifted(rs: seq<Reading>, j: int)
    requires 1 <= j < |rs|
    ensures StandsFrom(STORM + rs, j + 2) <==> StandsFrom(rs, j)
  {
    var all := STORM + rs;
    Shifted(rs, j);
    hide Undone, Pair;
    forall k | j < k < |rs| ensures Undone(all, k + 2) == Undone(rs, k) { Shifted(rs, k); }
    if StandsFrom(rs, j) {
      forall k | j + 2 < k < |all| ensures !Undone(all, k) { Shifted(rs, k - 2); }
    }
    if StandsFrom(all, j + 2) {
      forall k | j < k < |rs| ensures !Undone(rs, k) { assert !Undone(all, k + 2); }
    }
  }

  /** A storm that stands from one of the first three samples was never undone. */
  lemma NeverUndoneFrom(rs: seq<Reading>, j: int)
    requires StandsFrom(STORM + rs, j) && j <= 2
    ensures NeverUndone(rs)
  {
    var all := STORM + rs;
    forall k | 0 <= k < |rs| ensures !Undone(rs, k) {
      Shifted(rs, k);
      if k + 2 > j { assert !Undone(all, k + 2); } else { assert all[j] == rs[k]; }
    }
  }

  /** A resumed latch is latched exactly while no calm pair and no dark sample has come, or after a new hot pair. */
  lemma {:induction false} ResumedVerdict(latest: Published, now: Time, w: nat, rs: seq<Reading>)
    requires Resumable(latest, now)
    ensures Run(Resumed(FRESH, latest, now), w, rs).latched <==> NeverUndone(rs) || StormStands(rs)
  {
    AsIfStorm(Resumed(FRESH, latest, now), w, rs);
    LatchedIffStormStands(w, STORM + rs);
    StormBefore(rs);
  }

  // ----- an episode across a restart -----

  /** What a snapshot of an available sample at `at` publishes about the latch. */
  function Publishes(l: Latch, at: Time): Published { Published(at, true, l.latched, l.cause, l.since) }

  /** While latched, the derate is lifted exactly when the cause says so, and the start is a real instant. */
  ghost predicate CauseAgrees(l: Latch) { l.latched ==> (l.external <==> l.cause == External) && l.since > NO_TIME }

  lemma {:induction false} CauseAlwaysAgrees(l0: Latch, w: nat, rs: seq<Reading>)
    requires CauseAgrees(l0) && Chronological(0, rs)
    ensures CauseAgrees(Run(l0, w, rs))
  {
    if rs != [] {
      var init, r := rs[..|rs| - 1], rs[|rs| - 1];
      assert r.at > NO_TIME;
      assert forall i :: 0 <= i < |init| ==> init[i] == rs[i];
      CauseAlwaysAgrees(l0, w, init);
      CauseStep(Run(l0, w, init), w, r);
    }
  }

  lemma CauseStep(l: Latch, w: nat, r: Reading)
    requires CauseAgrees(l) && r.at > NO_TIME
    ensures CauseAgrees(Advanced(l, w, r).0)
  {
  }

  /** A latch that is not undone keeps the start of its episode. */
  lemma {:induction false} StartKept(l0: Latch, w: nat, rs: seq<Reading>)
    requires l0.latched && forall n :: 0 <= n <= |rs| ==> Run(l0, w, rs[..n]).latched
    ensures Run(l0, w, rs).since == l0.since
  {
    if rs != [] {
      var init, r := rs[..|rs| - 1], rs[|rs| - 1];
      assert rs[..|rs|] == rs;
      forall n | 0 <= n <= |init| ensures Run(l0, w, init[..n]).latched { assert init[..n] == rs[..n]; }
      StartKept(l0, w, init);
      AdvanceCounters(Run(l0, w, init), w, r);
      assert Run(l0, w, rs).latched && init[..|init|] == init;
      HoldKeepsStart(Run(l0, w, init), w, r);
    }
  }

  lemma HoldKeepsStart(l: Latch, w: nat, r: Reading)
    requires l.latched && Advanced(l, w, r).0.latched
    ensures Advanced(l, w, r).0.since == l.since
  {
    AdvanceCounters(l, w, r);
  }

  /**
   An episode that one process published and the next resumed in time stays latched, with its start, until an adjacent
   calm pair or a dark sample; and it resumes with the derate lifted exactly if the first process had lifted it.
   */
  lemma {:induction false} EpisodeSurvivesRestart(w: nat, first: seq<Reading>, now: Time, rs: seq<Reading>)
    requires first != [] && Chronological(0, first) && Run(FRESH, w, first).latched
    requires -5 * 1_000_000_000 <= now - first[|first| - 1].at <= 180 * 1_000_000_000
    ensures var before := Run(FRESH, w, first);
            var l0 := Resumed(FRESH, Publishes(before, first[|first| - 1].at), now);
            && l0.latched && l0.external == before.external && l0.cause == before.cause && l0.since == before.since
            && (Run(l0, w, rs).latched <==> NeverUndone(rs) || StormStands(rs))
            && (NeverUndone(rs) ==> Run(l0, w, rs).since == before.since)
  {
    var before := Run(FRESH, w, first);
    var latest := Publishes(before, first[|first| - 1].at);
    var l0 := Resumed(FRESH, latest, now);
    CauseAlwaysAgrees(FRESH, w, first);
    ResumedIff(latest, now);
    ResumedVerdict(latest, now, w, rs);
    hide Run, Resumed, Undone;
    if NeverUndone(rs) {
      forall n | 0 <= n <= |rs| ensures Run(l0, w, rs[..n]).latched {
        PrefixNeverUndone(rs, n);
        ResumedVerdict(latest, now, w, rs[..n]);
      }
      StartKept(l0, w, rs);
    }
  }

  lemma PrefixNeverUndone(rs: seq<Reading>, n: nat)
    requires n <= |rs| && NeverUndone(rs)
    ensures NeverUndone(rs[..n])
  {
    forall k | 0 <= k < n ensures !Undone(rs[..n], k) { assert !Undone(rs, k); }
  }

  // ----- cause and start of an episode -----

  /** After a sample of an episode the cause is `Agents` iff leased work is at its share or above, `External` iff the
      derate is lifted, and otherwise unattributed. */
  lemma {:induction false} CauseIs(l0: Latch, w: nat, rs: seq<Reading>)
    requires rs != [] && Run(l0, w, rs).latched
    ensures var l := Run(l0, w, rs);
            && (l.cause == Agents <==> !rs[|rs| - 1].below)
            && (l.cause == External <==> l.external)
            && (l.cause == Unattributed <==> rs[|rs| - 1].below && !l.external)
  {
    CauseOf(Run(l0, w, rs[..|rs| - 1]), w, rs[|rs| - 1]);
  }

  lemma CauseOf(l: Latch, w: nat, r: Reading)
    requires Advanced(l, w, r).0.latched
    ensures var a := Advanced(l, w, r).0;
            && (a.cause == Agents <==> !r.below) && (a.cause == External <==> a.external)
            && (a.cause == Unattributed <==> r.below && !a.external)
  {
    AdvanceCounters(l, w, r);
  }

  /** An episode starts at the sample that latched. */
  lemma {:induction false} StartIs(l0: Latch, w: nat, rs: seq<Reading>)
    requires Run(l0, w, rs).latched
    ensures var e := EpisodeStart(l0, w, rs);
            Run(l0, w, rs).since == if e >= 0 then rs[e].at else l0.since
  {
    if rs != [] {
      var init, r := rs[..|rs| - 1], rs[|rs| - 1];
      var before := Run(l0, w, init);
      if before.latched {
        StartIs(l0, w, init);
        HoldKeepsStart(before, w, r);
      } else {
        EntryStart(before, w, r);
      }
    }
  }

  lemma EntryStart(l: Latch, w: nat, r: Reading)
    requires !l.latched && Advanced(l, w, r).0.latched
    ensures Advanced(l, w, r).0.since == r.at
  {
    AdvanceCounters(l, w, r);
  }

  // ----- the rows -----

  /** A latch that is not resumed writes a row exactly when what the log should say changes. */
  lemma RowIffChange(l: Latch, w: nat, r: Reading)
    requires Coherent(l) && !l.resumed
    ensures Advanced(l, w, r).1.Some? <==> Actual(Advanced(l, w, r).0) != Actual(l)
  {
    AdvanceCounters(l, w, r);
  }

  /** Every row but a release names the cause and start the latch has after it. */
  lemma RowNamesEpisode(l: Latch, w: nat, r: Reading)
    requires Advanced(l, w, r).1.Some? && Advanced(l, w, r).0.latched
    ensures var a, t := Advanced(l, w, r).0, Advanced(l, w, r).1.value;
            && !t.Released? && t.cause == a.cause && t.since == a.since
            && (t.Entered? ==> t.resumed == (l.latched && l.resumed))
  {
    AdvanceCounters(l, w, r);
  }
}
