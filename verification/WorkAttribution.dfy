/**
 Attribution of running processes to leased work: each process is charged to the class of its nearest
 ancestor-or-self that holds a lease.
 */
module WorkAttribution {
  import opened Prelude
  import opened ProcessForest

  /** A work class, by number. */
  type Class = int
  datatype Lease = Lease(pid: int, class_: Class)

  // ----- the nearest lease -----

  /** The k-th ancestor of `p` holds a lease and no nearer one does. */
  ghost predicate NearestAt(t: Table, roots: map<int, Class>, p: int, k: nat) {
    && Up(t, p, k) > 0 && Up(t, p, k) in roots
    && forall j :: 0 <= j < k ==> !(Up(t, p, j) > 0 && Up(t, p, j) in roots)
  }

  /** Specification: the class of the nearest lease holder, with no bound on the length of the chain. */
  ghost predicate Charged(t: Table, roots: map<int, Class>, p: int, c: Class) {
    exists k :: NearestAt(t, roots, p, k) && roots[Up(t, p, k)] == c
  }

  ghost predicate Uncharged(t: Table, roots: map<int, Class>, p: int) {
    forall k: nat :: !(Up(t, p, k) > 0 && Up(t, p, k) in roots)
  }

  /** The first `n` processes of the chain are in the table and hold no lease. */
  ghost predicate Passed(t: Table, roots: map<int, Class>, p: int, n: nat) {
    forall j :: 0 <= j < n ==> Up(t, p, j) in t && Up(t, p, j) !in roots
  }

  lemma {:induction false} PassedOut(t: Table, roots: map<int, Class>, p: int, n: nat)
    requires WellFormed(t) && Passed(t, roots, p, n)
    requires (Up(t, p, n) <= 0 || (Up(t, p, n) !in t && Up(t, p, n) !in roots))
    ensures Uncharged(t, roots, p)
  {
    forall k: nat ensures !(Up(t, p, k) > 0 && Up(t, p, k) in roots) {
      if k > n { UpStaysOut(t, p, n, k); }
    }
  }

  lemma {:induction false} PassedRound(t: Table, roots: map<int, Class>, p: int, a: nat, b: nat)
    requires Passed(t, roots, p, b) && a < b && Up(t, p, a) == Up(t, p, b)
    ensures Uncharged(t, roots, p)
  {
    forall k: nat ensures !(Up(t, p, k) > 0 && Up(t, p, k) in roots) {
      if k >= b { var j := UpRepeats(t, p, a, b, k); }
    }
  }

  /** A chain longer than the table has a repeat. */
  lemma {:induction false} Pigeonhole(t: Table, p: int, n: nat, s: set<int>) returns (a: nat, b: nat)
    requires n > |s| && forall j :: 0 <= j < n ==> Up(t, p, j) in s
    ensures a < b < n && Up(t, p, a) == Up(t, p, b)
    decreases n
  {
    var last := Up(t, p, n - 1);
    if j :| 0 <= j < n - 1 && Up(t, p, j) == last {
      return j, n - 1;
    }
    assert forall j :: 0 <= j < n - 1 ==> Up(t, p, j) in s - {last};
    a, b := Pigeonhole(t, p, n - 1, s - {last});
  }

  /** The walk stops after |t| + 1 processes, and that is always enough. */
  method ClosestWorkRootClass(p: int, t: Table, roots: map<int, Class>) returns (r: Option<Class>)
    requires WellFormed(t)
    ensures r.Some? ==> Charged(t, roots, p, r.value)
    ensures r.None? ==> Uncharged(t, roots, p)
  {
    var pid, visited := p, 0;
    while pid > 0 && visited <= |t|
      invariant 0 <= visited <= |t| + 1 && pid == Up(t, p, visited) && Passed(t, roots, p, visited)
      decreases |t| + 1 - visited
    {
      if pid in roots {
        assert NearestAt(t, roots, p, visited);
        return Some(roots[pid]);
      }
      if pid !in t || t[pid].ppid <= 0 || t[pid].ppid == pid {
        if pid !in t {
          PassedOut(t, roots, p, visited);
        } else if t[pid].ppid <= 0 {
          PassedOut(t, roots, p, visited + 1);
        } else {
          assert Up(t, p, visited + 1) == pid;
          PassedRound(t, roots, p, visited, visited + 1);
        }
        return None;
      }
      pid := t[pid].ppid;
      visited := visited + 1;
    }
    if pid <= 0 {
      PassedOut(t, roots, p, visited);
    } else {
      ghost var a, b := Pigeonhole(t, p, visited, t.Keys);
      PassedRound(t, roots, p, a, b);
    }
    return None;
  }

  /** A process is charged to one class at most, and to some class exactly when a lease is above it. */
  lemma ChargedOnce(t: Table, roots: map<int, Class>, p: int, c: Class, d: Class)
    requires Charged(t, roots, p, c) && Charged(t, roots, p, d)
    ensures c == d && !Uncharged(t, roots, p)
  {
    var j :| NearestAt(t, roots, p, j) && roots[Up(t, p, j)] == c;
    var k :| NearestAt(t, roots, p, k) && roots[Up(t, p, k)] == d;
    assert j == k;
  }

  // ----- totals -----

  /** Per-class counters; a class without an entry counts zero. */
  type Counters = map<Class, int>
  function Get(m: Counters, c: Class): int { if c in m then m[c] else 0 }
  function Bump(m: Counters, c: Class, d: int): Counters { m[c := Get(m, c) + d] }

  /** Sum of the counters of the listed classes. */
  function Over(classes: seq<Class>, m: Counters): int {
    if classes == [] then 0 else Over(classes[..|classes| - 1], m) + Get(m, classes[|classes| - 1])
  }

  ghost predicate DistinctClasses(classes: seq<Class>) {
    forall i, j :: 0 <= i < j < |classes| ==> classes[i] != classes[j]
  }

  lemma {:induction false} OverBump(classes: seq<Class>, m: Counters, c: Class, d: int)
    requires DistinctClasses(classes)
    ensures Over(classes, Bump(m, c, d)) == Over(classes, m) + if c in classes then d else 0
  {
    if classes != [] {
      var init, last := classes[..|classes| - 1], classes[|classes| - 1];
      OverBump(init, m, c, d);
      assert classes == init + [last];
      assert last == c ==> c !in init;
    }
  }

  lemma {:induction false} OverNothing(classes: seq<Class>, m: Counters)
    requires forall c :: c in classes ==> Get(m, c) == 0
    ensures Over(classes, m) == 0
  {
    if classes != [] { OverNothing(classes[..|classes| - 1], m); }
  }

  /** The root map: a later lease of the same process replaces an earlier one. */
  function RootsOf(leases: seq<Lease>): map<int, Class> {
    if leases == [] then map[]
    else RootsOf(leases[..|leases| - 1])[leases[|leases| - 1].pid := leases[|leases| - 1].class_]
  }

  function LeasesOf(leases: seq<Lease>, c: Class): nat {
    if leases == [] then 0 else LeasesOf(leases[..|leases| - 1], c) + if leases[|leases| - 1].class_ == c then 1 else 0
  }

  /** How many leases have their process in the table. */
  function LeasesIn(leases: seq<Lease>, t: Table): nat {
    if leases == [] then 0 else LeasesIn(leases[..|leases| - 1], t) + if leases[|leases| - 1].pid in t then 1 else 0
  }

  lemma {:induction false} RootsAreLeased(leases: seq<Lease>, q: int)
    requires q in RootsOf(leases)
    ensures LeasesOf(leases, RootsOf(leases)[q]) > 0
  {
    var init, l := leases[..|leases| - 1], leases[|leases| - 1];
    if q != l.pid { RootsAreLeased(init, q); }
  }

  /** Sum of `f` over the first `n` processes that are charged to `c`. */
  ghost function ChargedTo(f: Process -> int, processes: seq<Process>, n: nat, t: Table, roots: map<int, Class>,
                           c: Class): int
    requires n <= |processes|
  {
    if n == 0 then 0
    else ChargedTo(f, processes, n - 1, t, roots, c)
         + if Charged(t, roots, processes[n - 1].pid, c) then f(processes[n - 1]) else 0
  }

  ghost const ONE: Process -> int := (p: Process) => 1
  ghost const RSS: Process -> int := (p: Process) => p.rssKB

  /** A process is charged to a class that is not listed. */
  ghost predicate ChargedOut(t: Table, roots: map<int, Class>, p: int, classes: seq<Class>) {
    exists c :: Charged(t, roots, p, c) && c !in classes
  }

  /** Sum of `f` over the first `n` processes that are charged to an unlisted class. */
  ghost function Unlisted(f: Process -> int, processes: seq<Process>, n: nat, t: Table, roots: map<int, Class>,
                          classes: seq<Class>): int
    requires n <= |processes|
  {
    if n == 0 then 0
    else Unlisted(f, processes, n - 1, t, roots, classes)
         + if ChargedOut(t, roots, processes[n - 1].pid, classes) then f(processes[n - 1]) else 0
  }

  /** `m` holds what the first `n` processes charge each class, and `total` what they charge in all. */
  ghost predicate Tallied(m: Counters, total: int, f: Process -> int, classes: seq<Class>,
                          processes: seq<Process>, n: nat, t: Table, roots: map<int, Class>) {
    && n <= |processes|
    && (forall c :: Get(m, c) == ChargedTo(f, processes, n, t, roots, c))
    && Over(classes, m) + Unlisted(f, processes, n, t, roots, classes) == total
  }

  lemma {:induction false} TallyCharged(m: Counters, total: int, f: Process -> int, classes: seq<Class>,
                                        processes: seq<Process>, n: nat, t: Table, roots: map<int, Class>, c: Class)
    requires DistinctClasses(classes) && n < |processes|
    requires Tallied(m, total, f, classes, processes, n, t, roots) && Charged(t, roots, processes[n].pid, c)
    ensures Tallied(Bump(m, c, f(processes[n])), total + f(processes[n]), f, classes, processes, n + 1, t, roots)
  {
    OverBump(classes, m, c, f(processes[n]));
    ChargedOutIff(t, roots, processes[n].pid, c, classes);
    hide ChargedOut;
    var m' := Bump(m, c, f(processes[n]));
    hide Charged;
    forall e ensures Get(m', e) == ChargedTo(f, processes, n + 1, t, roots, e) {
      if e != c && Charged(t, roots, processes[n].pid, e) { ChargedOnce(t, roots, processes[n].pid, c, e); }
    }
  }

  lemma {:induction false} TallyUncharged(m: Counters, total: int, f: Process -> int, classes: seq<Class>,
                                          processes: seq<Process>, n: nat, t: Table, roots: map<int, Class>)
    requires n < |processes| && Tallied(m, total, f, classes, processes, n, t, roots)
    requires Uncharged(t, roots, processes[n].pid)
    ensures Tallied(m, total, f, classes, processes, n + 1, t, roots)
  {
    forall e ensures !Charged(t, roots, processes[n].pid, e) {}
    assert !ChargedOut(t, roots, processes[n].pid, classes);
    hide Charged, ChargedOut;
    forall e ensures Get(m, e) == ChargedTo(f, processes, n + 1, t, roots, e) {}
  }

  lemma ChargedOutIff(t: Table, roots: map<int, Class>, p: int, c: Class, classes: seq<Class>)
    requires Charged(t, roots, p, c)
    ensures ChargedOut(t, roots, p, classes) <==> c !in classes
  {
    hide Charged;
    if d :| Charged(t, roots, p, d) && d !in classes { ChargedOnce(t, roots, p, c, d); }
  }

  /** Every lease is of a listed class. */
  ghost predicate AllListed(leases: seq<Lease>, classes: seq<Class>) {
    forall i :: 0 <= i < |leases| ==> leases[i].class_ in classes
  }

  function LeasesOutside(leases: seq<Lease>, classes: seq<Class>): nat {
    if leases == [] then 0
    else LeasesOutside(leases[..|leases| - 1], classes) + if leases[|leases| - 1].class_ in classes then 0 else 1
  }

  lemma {:induction false} OutsideIff(leases: seq<Lease>, classes: seq<Class>)
    ensures LeasesOutside(leases, classes) == 0 <==> AllListed(leases, classes)
  {
    if leases != [] {
      var init := leases[..|leases| - 1];
      OutsideIff(init, classes);
      assert forall i :: 0 <= i < |init| ==> init[i] == leases[i];
      if AllListed(leases, classes) {
        forall i | 0 <= i < |init| ensures init[i].class_ in classes { assert leases[i].class_ in classes; }
      }
    }
  }

  /** With only listed classes leased, nothing is charged outside them. */
  lemma {:induction false} NothingUnlisted(f: Process -> int, processes: seq<Process>, n: nat, t: Table,
                                           leases: seq<Lease>, classes: seq<Class>)
    requires n <= |processes| && AllListed(leases, classes)
    ensures Unlisted(f, processes, n, t, RootsOf(leases), classes) == 0
  {
    if n > 0 {
      NothingUnlisted(f, processes, n - 1, t, leases, classes);
      hide Charged, RootsOf, AllListed;
      if c :| Charged(t, RootsOf(leases), processes[n - 1].pid, c) && c !in classes {
        ChargedIsLeased(leases, t, processes[n - 1].pid, c);
        LeasedIsListed(leases, classes, c);
      }
    }
  }

  lemma {:induction false} LeasedIsListed(leases: seq<Lease>, classes: seq<Class>, c: Class)
    requires AllListed(leases, classes) && LeasesOf(leases, c) > 0
    ensures c in classes
  {
    var init := leases[..|leases| - 1];
    if leases[|leases| - 1].class_ != c {
      assert forall i :: 0 <= i < |init| ==> init[i] == leases[i];
      LeasedIsListed(init, classes, c);
    }
  }

  lemma ChargedIsLeased(leases: seq<Lease>, t: Table, p: int, c: Class)
    requires Charged(t, RootsOf(leases), p, c)
    ensures LeasesOf(leases, c) > 0
  {
    var k :| NearestAt(t, RootsOf(leases), p, k) && RootsOf(leases)[Up(t, p, k)] == c;
    RootsAreLeased(leases, Up(t, p, k));
  }

  lemma {:induction false} UnleasedIsUncharged(f: Process -> int, processes: seq<Process>, n: nat, t: Table,
                                               leases: seq<Lease>, c: Class)
    requires n <= |processes| && LeasesOf(leases, c) == 0
    ensures ChargedTo(f, processes, n, t, RootsOf(leases), c) == 0
  {
    if n > 0 {
      UnleasedIsUncharged(f, processes, n - 1, t, leases, c);
      if Charged(t, RootsOf(leases), processes[n - 1].pid, c) { ChargedIsLeased(leases, t, processes[n - 1].pid, c); }
    }
  }

  method RegisterLeases(leases: seq<Lease>, t: Table, ghost classes: seq<Class>)
    returns (roots: map<int, Class>, count: Counters, attributed: nat, unattributed: nat)
    requires DistinctClasses(classes)
    ensures roots == RootsOf(leases) && forall c :: Get(count, c) == LeasesOf(leases, c)
    ensures attributed == LeasesIn(leases, t) && attributed + unattributed == |leases|
    ensures Over(classes, count) + LeasesOutside(leases, classes) == |leases|
  {
    roots, count, attributed, unattributed := map[], map[], 0, 0;
    OverNothing(classes, count);
    for i := 0 to |leases|
      invariant roots == RootsOf(leases[..i]) && forall c :: Get(count, c) == LeasesOf(leases[..i], c)
      invariant attributed == LeasesIn(leases[..i], t) && attributed + unattributed == i
      invariant Over(classes, count) + LeasesOutside(leases[..i], classes) == i
    {
      var l := leases[i];
      assert leases[..i + 1][..i] == leases[..i];
      OverBump(classes, count, l.class_, 1);
      roots, count := roots[l.pid := l.class_], Bump(count, l.class_, 1);
      if l.pid in t { attributed := attributed + 1; } else { unattributed := unattributed + 1; }
    }
    assert leases[..|leases|] == leases;
  }

  // ----- the report -----

  datatype Row = Row(class_: Class, leases: int, processes: int, rssKB: int)
  datatype Snapshot = Snapshot(attributed: nat, unattributed: nat, leaseCount: int, processCount: int, rssKB: int,
                               byClass: seq<Row>)

  /** Column sums of the rows. */
  function Sums(rows: seq<Row>): Row {
    if rows == [] then Row(0, 0, 0, 0)
    else
      var s, r := Sums(rows[..|rows| - 1]), rows[|rows| - 1];
      Row(0, s.leases + r.leases, s.processes + r.processes, s.rssKB + r.rssKB)
  }

  function RowOf(c: Class, leases: Counters, processes: Counters, rss: Counters): Row {
    Row(c, Get(leases, c), Get(processes, c), Get(rss, c))
  }

  /** One row per class with a lease; the other classes must have been charged nothing. */
  method ReportClasses(classes: seq<Class>, leases: Counters, processes: Counters, rss: Counters)
    returns (rows: seq<Row>)
    requires forall c :: Get(leases, c) >= 0 && (Get(leases, c) == 0 ==> Get(processes, c) == 0 && Get(rss, c) == 0)
    ensures Sums(rows) == Row(0, Over(classes, leases), Over(classes, processes), Over(classes, rss))
    ensures forall r :: r in rows ==> r == RowOf(r.class_, leases, processes, rss)
  {
    rows := [];
    for n := 0 to |classes|
      invariant Sums(rows) == Row(0, Over(classes[..n], leases), Over(classes[..n], processes), Over(classes[..n], rss))
      invariant forall r :: r in rows ==> r == RowOf(r.class_, leases, processes, rss)
    {
      var c := classes[n];
      assert classes[..n + 1][..n] == classes[..n];
      if Get(leases, c) > 0 {
        var row := RowOf(c, leases, processes, rss);
        assert (rows + [row])[..|rows|] == rows;
        rows := rows + [row];
      }
    }
    assert classes[..|classes|] == classes;
  }

  /** A row of the report is what the leases and the nearest-lease rule give its class. */
  ghost predicate RowIsExact(r: Row, processes: seq<Process>, t: Table, leases: seq<Lease>) {
    && r.leases == LeasesOf(leases, r.class_)
    && r.processes == ChargedTo(ONE, processes, |processes|, t, RootsOf(leases), r.class_)
    && r.rssKB == ChargedTo(RSS, processes, |processes|, t, RootsOf(leases), r.class_)
  }

  /** What a snapshot charges in all is what its rows charge and what goes to classes that are not listed. */
  ghost predicate TotalsAddUp(s: Snapshot, processes: seq<Process>, t: Table, leases: seq<Lease>, classes: seq<Class>) {
    var sums, n, roots := Sums(s.byClass), |processes|, RootsOf(leases);
    && s.leaseCount == sums.leases + LeasesOutside(leases, classes)
    && s.processCount == sums.processes + Unlisted(ONE, processes, n, t, roots, classes)
    && s.rssKB == sums.rssKB + Unlisted(RSS, processes, n, t, roots, classes)
  }

  /** Every lease is counted once and every row is exact. The lease totals equal the sums over the rows if and only if
      every leased class is listed, and then so do the process and memory totals. */
  method AttributeCoordinatedWork(processes: seq<Process>, t: Table, leases: seq<Lease>, classes: seq<Class>)
    returns (s: Snapshot)
    requires WellFormed(t) && DistinctClasses(classes)
    ensures s.leaseCount == |leases| == s.attributed + s.unattributed && s.attributed == LeasesIn(leases, t)
    ensures forall r :: r in s.byClass ==> RowIsExact(r, processes, t, leases)
    ensures TotalsAddUp(s, processes, t, leases, classes)
    ensures Sums(s.byClass).leases == s.leaseCount <==> AllListed(leases, classes)
    ensures AllListed(leases, classes) ==> Sums(s.byClass) == Row(0, s.leaseCount, s.processCount, s.rssKB)
  {
    var roots, count, attributed, unattributed := RegisterLeases(leases, t, classes);
    var procs: Counters, rss: Counters, processCount, rssKB := map[], map[], 0, 0;
    OverNothing(classes, procs);
    assert Tallied(procs, 0, ONE, classes, processes, 0, t, roots);
    assert Tallied(rss, 0, RSS, classes, processes, 0, t, roots);
    hide Tallied, Charged, Uncharged, WellFormed, Over, Bump, Sums, RootsOf, Unlisted, AllListed, LeasesOutside;
    for n := 0 to |processes|
      invariant Tallied(procs, processCount, ONE, classes, processes, n, t, roots)
      invariant Tallied(rss, rssKB, RSS, classes, processes, n, t, roots)
    {
      var p := processes[n];
      var class_ := ClosestWorkRootClass(p.pid, t, roots);
      if class_.Some? {
        TallyCharged(procs, processCount, ONE, classes, processes, n, t, roots, class_.value);
        TallyCharged(rss, rssKB, RSS, classes, processes, n, t, roots, class_.value);
        procs, processCount := Bump(procs, class_.value, 1), processCount + 1;
        rss, rssKB := Bump(rss, class_.value, p.rssKB), rssKB + p.rssKB;
      } else {
        TallyUncharged(procs, processCount, ONE, classes, processes, n, t, roots);
        TallyUncharged(rss, rssKB, RSS, classes, processes, n, t, roots);
      }
    }
    TalliedMeans(procs, processCount, ONE, classes, processes, t, leases);
    TalliedMeans(rss, rssKB, RSS, classes, processes, t, leases);
    var rows := ReportClasses(classes, count, procs, rss);
    s := Snapshot(attributed, unattributed, |leases|, processCount, rssKB, rows);
    OutsideIff(leases, classes);
    if AllListed(leases, classes) {
      NothingUnlisted(ONE, processes, |processes|, t, leases, classes);
      NothingUnlisted(RSS, processes, |processes|, t, leases, classes);
    }
    SumsRow(rows);
  }

  lemma {:induction false} TalliedMeans(m: Counters, total: int, f: Process -> int, classes: seq<Class>,
                                        processes: seq<Process>, t: Table, leases: seq<Lease>)
    requires Tallied(m, total, f, classes, processes, |processes|, t, RootsOf(leases))
    ensures Over(classes, m) + Unlisted(f, processes, |processes|, t, RootsOf(leases), classes) == total
    ensures forall c :: Get(m, c) == ChargedTo(f, processes, |processes|, t, RootsOf(leases), c)
    ensures forall c :: LeasesOf(leases, c) == 0 ==> Get(m, c) == 0
  {
    forall c | LeasesOf(leases, c) == 0 ensures Get(m, c) == 0 {
      UnleasedIsUncharged(f, processes, |processes|, t, leases, c);
    }
  }

  lemma SumsRow(rows: seq<Row>)
    ensures Sums(rows) == Row(0, Sums(rows).leases, Sums(rows).processes, Sums(rows).rssKB)
  {
  }
}
