/**
 The process forest: which recognised agents are roots, which processes belong to each agent tree, in what
 order a tree is signalled, and which leased work each process is charged to. Parent links may form cycles.
 */
module ProcessForest {
  datatype Process = Process(pid: int, ppid: int, rssKB: nat, agent: bool)

  /** The table by PID. PIDs are positive; parents are arbitrary. */
  type Table = map<int, Process>
  ghost predicate WellFormed(t: Table) {
    forall p :: p in t ==> p > 0 && t[p].pid == p
  }

  // ----- ancestry -----

  function Parent(t: Table, p: int): int { if p in t then t[p].ppid else 0 }

  /** The k-th ancestor; 0 once the chain leaves the table. */
  function Up(t: Table, p: int, k: nat): int { if k == 0 then p else Parent(t, Up(t, p, k - 1)) }

  lemma {:induction false} UpAdds(t: Table, p: int, a: nat, b: nat)
    ensures Up(t, Up(t, p, a), b) == Up(t, p, a + b)
  {
    if b > 0 { UpAdds(t, p, a, b - 1); }
  }

  lemma {:induction false} UpStaysOut(t: Table, p: int, n: nat, k: nat)
    requires WellFormed(t) && n < k && Up(t, p, n) !in t
    ensures Up(t, p, k) == 0
  {
    if n + 1 < k { UpStaysOut(t, p, n, k - 1); }
  }

  /** Once a chain repeats, everything above is among what was already seen. */
  lemma {:induction false} UpRepeats(t: Table, p: int, a: nat, b: nat, k: nat) returns (j: nat)
    requires a < b && Up(t, p, a) == Up(t, p, b) && a <= k
    ensures a <= j < b && Up(t, p, k) == Up(t, p, j)
    decreases k
  {
    if k < b {
      j := k;
    } else {
      UpAdds(t, p, a, k - b);
      UpAdds(t, p, b, k - b);
      j := UpRepeats(t, p, a, b, k - (b - a));
      assert a + (k - b) == k - (b - a);
    }
  }

  ghost predicate HasAncestorIn(t: Table, s: set<int>, p: int) {
    exists k :: k >= 1 && Up(t, p, k) in s
  }

  ghost predicate IsDescendant(t: Table, root: int, p: int) {
    p in t && exists k :: k >= 0 && Up(t, p, k) == root
  }

  ghost function Descendants(t: Table, root: int): set<int> {
    set p | p in t && IsDescendant(t, root, p)
  }

  function Agents(t: Table): set<int> { set p | p in t && t[p].agent }

  /** An agent is a root when no agent, itself included, is above it. */
  ghost predicate IsRoot(t: Table, p: int) { p in Agents(t) && !HasAncestorIn(t, Agents(t), p) }

  /** No process belongs to the trees of two roots. */
  lemma TreesAreDisjoint(t: Table, r: int, r': int, p: int)
    requires IsRoot(t, r) && IsRoot(t, r') && IsDescendant(t, r, p) && IsDescendant(t, r', p)
    ensures r == r'
  {
    var a :| a >= 0 && Up(t, p, a) == r;
    var b :| b >= 0 && Up(t, p, b) == r';
    if a < b {
      UpAdds(t, p, a, b - a);
      assert false;
    } else if b < a {
      UpAdds(t, p, b, a - b);
      assert false;
    }
  }

  /** The first `n` ancestors of `p` are the set `seen`, all in the table and none of them an agent. */
  ghost predicate Climbed(t: Table, agents: set<int>, p: int, n: nat, seen: set<int>) {
    && seen <= t.Keys
    && (forall j :: 1 <= j <= n ==> Up(t, p, j) in seen && Up(t, p, j) !in agents)
    && (forall x :: x in seen ==> exists j :: 1 <= j <= n && Up(t, p, j) == x)
  }

  lemma ClimbOne(t: Table, agents: set<int>, p: int, n: nat, seen: set<int>)
    requires Climbed(t, agents, p, n, seen) && Up(t, p, n + 1) in t && Up(t, p, n + 1) !in agents
    ensures Climbed(t, agents, p, n + 1, seen + {Up(t, p, n + 1)})
  {
  }

  lemma CycleHasNone(t: Table, agents: set<int>, p: int, n: nat, seen: set<int>)
    requires Climbed(t, agents, p, n, seen) && Up(t, p, n + 1) in seen
    ensures !HasAncestorIn(t, agents, p)
  {
    var a :| 1 <= a <= n && Up(t, p, a) == Up(t, p, n + 1);
    forall k: nat | k >= 1 ensures Up(t, p, k) !in agents {
      if k > n { var j := UpRepeats(t, p, a, n + 1, k); }
    }
  }

  /** Walks the ancestors of `p`, stopping at the first repeat. */
  method HasAgentAncestor(t: Table, agents: set<int>, p: int) returns (found: bool)
    requires WellFormed(t) && agents <= t.Keys && p in t
    ensures found <==> HasAncestorIn(t, agents, p)
  {
    var ancestor, seen: set<int> := t[p].ppid, {};
    ghost var n := 0;
    assert Up(t, p, 0) == p && Climbed(t, agents, p, 0, {});
    while ancestor > 0 && ancestor !in seen
      invariant ancestor == Up(t, p, n + 1) && Climbed(t, agents, p, n, seen)
      decreases t.Keys - seen
    {
      if ancestor in agents { return true; }
      if ancestor !in t {
        NoneAbove(t, agents, p, n + 1);
        return false;
      }
      ClimbOne(t, agents, p, n, seen);
      seen := seen + {ancestor};
      ancestor := t[ancestor].ppid;
      n := n + 1;
    }
    if ancestor in seen {
      CycleHasNone(t, agents, p, n, seen);
    } else {
      NoneAbove(t, agents, p, n + 1);
    }
    return false;
  }

  lemma NoneAbove(t: Table, agents: set<int>, p: int, n: nat)
    requires WellFormed(t) && agents <= t.Keys && n >= 1 && Up(t, p, n) !in t
    requires forall j :: 1 <= j < n ==> Up(t, p, j) !in agents
    ensures !HasAncestorIn(t, agents, p)
  {
    forall k | k >= 1 ensures Up(t, p, k) !in agents {
      if k > n { UpStaysOut(t, p, n, k); }
    }
  }

  // ----- the depth-first walk -----

  type Children = map<int, seq<int>>

  function ChildrenOf(c: Children, p: int): seq<int> { if p in c then c[p] else [] }

  /** `c` lists every process under its parent. */
  ghost predicate Lists(t: Table, c: Children) {
    && (forall q :: q in t ==> q in ChildrenOf(c, t[q].ppid))
    && (forall p, q :: q in ChildrenOf(c, p) ==> q in t && t[q].ppid == p)
  }

  function Elements(s: seq<int>): set<int> { set x | x in s }

  ghost predicate Distinct(s: seq<int>) { forall i, j :: 0 <= i < j < |s| ==> s[i] != s[j] }

  /** Every process but the first comes after its parent. */
  ghost predicate ParentsFirst(t: Table, s: seq<int>) {
    forall i :: 0 < i < |s| ==> s[i] in t && t[s[i]].ppid in s[..i]
  }

  ghost predicate ChildrenIn(c: Children, p: int, s: set<int>) {
    forall q :: q in ChildrenOf(c, p) ==> q in s
  }

  /** `order` is a walk from `p` that found everything new: it grew `visited` to `after`. */
  ghost predicate Walked(t: Table, c: Children, p: int, visited: set<int>, order: seq<int>, after: set<int>) {
    && after == visited + Elements(order) && Elements(order) !! visited && Elements(order) <= t.Keys
    && Distinct(order) && ParentsFirst(t, order)
    && (if p in visited then order == [] else order != [] && order[0] == p)
    && (forall x :: x in order ==> ChildrenIn(c, x, after))
  }

  lemma AppendKeepsParentsFirst(t: Table, a: seq<int>, b: seq<int>)
    requires ParentsFirst(t, a) && ParentsFirst(t, b) && a != []
    requires b != [] ==> b[0] in t && t[b[0]].ppid in a
    ensures ParentsFirst(t, a + b)
  {
    var s := a + b;
    forall i | 0 < i < |s| ensures s[i] in t && t[s[i]].ppid in s[..i] {
      if i < |a| {
        assert s[..i] == a[..i];
      } else {
        assert s[i] == b[i - |a|];
        assert s[..i] == a + b[..i - |a|];
      }
    }
  }

  lemma AppendKeepsDistinct(a: seq<int>, b: seq<int>)
    requires Distinct(a) && Distinct(b) && Elements(a) !! Elements(b)
    ensures Distinct(a + b) && Elements(a + b) == Elements(a) + Elements(b)
  {
    var s := a + b;
    forall i, j | 0 <= i < j < |s| ensures s[i] != s[j] {
      if i < |a| <= j {
        assert s[i] in Elements(a) && s[j] in Elements(b);
      }
    }
  }

  /** The state of a walk of `p` after its first `n` children. */
  ghost predicate Walking(t: Table, c: Children, p: int, visited: set<int>, order: seq<int>, now: set<int>, n: nat) {
    && now == visited + Elements(order) && Elements(order) !! visited && Elements(order) <= t.Keys
    && Distinct(order) && ParentsFirst(t, order) && order != [] && order[0] == p
    && (forall x :: x in order && x != p ==> ChildrenIn(c, x, now))
    && (forall i :: 0 <= i < n && i < |ChildrenOf(c, p)| ==> ChildrenOf(c, p)[i] in now)
  }

  lemma ChildrenStayIn(c: Children, x: int, now: set<int>, after: set<int>)
    requires ChildrenIn(c, x, now) && now <= after
    ensures ChildrenIn(c, x, after)
  {
  }

  lemma WalkingStep(t: Table, c: Children, p: int, visited: set<int>, order: seq<int>, now: set<int>, n: nat,
                    sub: seq<int>, after: set<int>)
    requires Lists(t, c) && Walking(t, c, p, visited, order, now, n) && n < |ChildrenOf(c, p)|
    requires Walked(t, c, ChildrenOf(c, p)[n], now, sub, after)
    ensures Walking(t, c, p, visited, order + sub, after, n + 1)
  {
    var q := ChildrenOf(c, p)[n];
    assert q in ChildrenOf(c, p);
    assert p in order;
    hide ParentsFirst, Distinct, ChildrenIn;
    AppendKeepsParentsFirst(t, order, sub);
    AppendKeepsDistinct(order, sub);
    assert now <= after && q in after;
    forall x | x in order && x != p ensures ChildrenIn(c, x, after) { ChildrenStayIn(c, x, now, after); }
  }

  lemma WalkStarts(t: Table, c: Children, p: int, visited: set<int>)
    requires p in t && p !in visited
    ensures Walking(t, c, p, visited, [p], visited + {p}, 0)
  {
  }

  lemma WalkGrows(t: Table, c: Children, p: int, visited: set<int>, order: seq<int>, now: set<int>, n: nat)
    requires Walking(t, c, p, visited, order, now, n)
    ensures t.Keys - now < t.Keys - visited
    ensures n == |ChildrenOf(c, p)| ==> Walked(t, c, p, visited, order, now)
  {
    assert p in order && p in Elements(order) && p in t.Keys - visited && p !in t.Keys - now;
  }

  lemma ChildInTable(t: Table, c: Children, p: int, n: nat)
    requires Lists(t, c) && n < |ChildrenOf(c, p)|
    ensures ChildrenOf(c, p)[n] in t
  {
    var q := ChildrenOf(c, p)[n];
    assert q in ChildrenOf(c, p);
  }

  method Walk(t: Table, c: Children, p: int, visited: set<int>) returns (order: seq<int>, after: set<int>)
    requires Lists(t, c) && p in t
    ensures Walked(t, c, p, visited, order, after)
    decreases t.Keys - visited
  {
    if p in visited { return [], visited; }
    var kids := ChildrenOf(c, p);
    order, after := [p], visited + {p};
    WalkStarts(t, c, p, visited);
    hide Walking, Walked, Lists, ChildrenOf;
    for n := 0 to |kids|
      invariant Walking(t, c, p, visited, order, after, n)
    {
      ChildInTable(t, c, p, n);
      WalkGrows(t, c, p, visited, order, after, n);
      var sub, grown := Walk(t, c, kids[n], after);
      WalkingStep(t, c, p, visited, order, after, n, sub, grown);
      order, after := order + sub, grown;
    }
    WalkGrows(t, c, p, visited, order, after, |kids|);
  }

  // ----- a finished walk is a tree -----

  lemma {:induction false} OrderIsBelow(t: Table, root: int, order: seq<int>, i: nat)
    requires ParentsFirst(t, order) && order != [] && order[0] == root && root in t && i < |order|
    ensures IsDescendant(t, root, order[i])
  {
    if i == 0 {
      assert Up(t, root, 0) == root;
    } else {
      var q := order[i];
      var j :| 0 <= j < i && order[..i][j] == t[q].ppid;
      OrderIsBelow(t, root, order, j);
      var k :| k >= 0 && Up(t, t[q].ppid, k) == root;
      UpAdds(t, q, 1, k);
      assert Up(t, q, 0) == q && Up(t, q, 1) == t[q].ppid;
      assert Up(t, q, 1 + k) == root;
    }
  }

  lemma {:induction false} BelowIsInOrder(t: Table, c: Children, root: int, order: seq<int>, p: int, k: nat)
    requires WellFormed(t) && Lists(t, c) && root in t && p in t && Up(t, p, k) == root
    requires root in order && forall x :: x in order ==> ChildrenIn(c, x, Elements(order))
    ensures p in order
    decreases k
  {
    if k > 0 {
      var q := t[p].ppid;
      UpAdds(t, p, 1, k - 1);
      assert Up(t, p, 0) == p && Up(t, p, 1) == q;
      if q !in t && k > 1 { UpStaysOut(t, p, 1, k); }
      BelowIsInOrder(t, c, root, order, q, k - 1);
      assert p in ChildrenOf(c, q);
    }
  }

  /** A walk from a process with nothing visited is exactly its descendants. */
  lemma WalkIsSubtree(t: Table, c: Children, root: int, order: seq<int>, after: set<int>)
    requires WellFormed(t) && Lists(t, c) && root in t && Walked(t, c, root, {}, order, after)
    ensures Elements(order) == Descendants(t, root)
  {
    forall p | p in order ensures p in Descendants(t, root) {
      var i :| 0 <= i < |order| && order[i] == p;
      OrderIsBelow(t, root, order, i);
      assert p in Elements(order);
    }
    forall p | p in Descendants(t, root) ensures p in order {
      var k :| k >= 0 && Up(t, p, k) == root;
      assert root in order;
      BelowIsInOrder(t, c, root, order, p, k);
    }
  }

  // ----- the agent trees -----

  datatype AgentTree = AgentTree(root: int, pids: seq<int>)

  /** The PIDs are the root's descendants, each once, every process after its parent. */
  ghost predicate IsTree(t: Table, tree: AgentTree) {
    && IsRoot(t, tree.root) && tree.pids != [] && tree.pids[0] == tree.root
    && Elements(tree.pids) == Descendants(t, tree.root) && Distinct(tree.pids) && ParentsFirst(t, tree.pids)
  }

  ghost predicate PairwiseDisjoint(trees: seq<AgentTree>) {
    forall i, j :: 0 <= i < j < |trees| ==> Elements(trees[i].pids) !! Elements(trees[j].pids)
  }

  lemma DistinctRootsAreDisjoint(t: Table, a: AgentTree, b: AgentTree)
    requires IsTree(t, a) && IsTree(t, b) && a.root != b.root
    ensures Elements(a.pids) !! Elements(b.pids)
  {
    forall p | p in Elements(a.pids) && p in Elements(b.pids) ensures false {
      assert p in Descendants(t, a.root) && p in Descendants(t, b.root);
      TreesAreDisjoint(t, a.root, b.root, p);
    }
  }

  lemma ChildAdded(c: Children, x: Process)
    ensures var grown := c[x.ppid := ChildrenOf(c, x.ppid) + [x.pid]];
            forall p, q :: q in ChildrenOf(grown, p) <==> q in ChildrenOf(c, p) || (p == x.ppid && q == x.pid)
  {
  }

  method ListChildren(processes: seq<Process>, ghost t: Table) returns (c: Children)
    requires Tabulates(processes, t)
    ensures Lists(t, c)
  {
    c := map[];
    for i := 0 to |processes|
      invariant forall j :: 0 <= j < i ==> processes[j].pid in ChildrenOf(c, processes[j].ppid)
      invariant forall p, q :: q in ChildrenOf(c, p) ==> q in t && t[q].ppid == p
    {
      var x := processes[i];
      ChildAdded(c, x);
      c := c[x.ppid := ChildrenOf(c, x.ppid) + [x.pid]];
    }
    forall q | q in t ensures q in ChildrenOf(c, t[q].ppid) {
      var i :| 0 <= i < |processes| && processes[i].pid == q;
    }
  }

  /** `t` indexes a process list with distinct positive PIDs. */
  ghost predicate Tabulates(processes: seq<Process>, t: Table) {
    && WellFormed(t)
    && (forall i :: 0 <= i < |processes| ==> processes[i].pid in t && t[processes[i].pid] == processes[i])
    && (forall q :: q in t ==> exists i :: 0 <= i < |processes| && processes[i].pid == q)
    && (forall i, j :: 0 <= i < j < |processes| ==> processes[i].pid != processes[j].pid)
  }

  /** The trees are exactly one per root among the first `n` processes. */
  ghost predicate Built(t: Table, processes: seq<Process>, n: nat, trees: seq<AgentTree>) {
    && (forall i :: 0 <= i < |trees| ==> IsTree(t, trees[i]) && RootIn(processes, n, trees[i].root))
    && PairwiseDisjoint(trees)
    && (forall j :: 0 <= j < n && j < |processes| && IsRoot(t, processes[j].pid) ==> HasTree(trees, processes[j].pid))
  }

  ghost predicate RootIn(processes: seq<Process>, n: nat, r: int) {
    exists j :: 0 <= j < n && j < |processes| && processes[j].pid == r
  }

  ghost predicate HasTree(trees: seq<AgentTree>, r: int) {
    exists i :: 0 <= i < |trees| && trees[i].root == r
  }

  lemma BuiltSkip(t: Table, processes: seq<Process>, n: nat, trees: seq<AgentTree>)
    requires n < |processes| && Built(t, processes, n, trees) && !IsRoot(t, processes[n].pid)
    ensures Built(t, processes, n + 1, trees)
  {
    hide IsTree, IsRoot, PairwiseDisjoint;
    forall i | 0 <= i < |trees| ensures RootIn(processes, n + 1, trees[i].root) {
      assert RootIn(processes, n, trees[i].root);
    }
  }

  lemma BuiltAdd(t: Table, processes: seq<Process>, n: nat, trees: seq<AgentTree>, tree: AgentTree)
    requires Tabulates(processes, t) && n < |processes| && Built(t, processes, n, trees)
    requires IsTree(t, tree) && tree.root == processes[n].pid
    ensures Built(t, processes, n + 1, trees + [tree])
  {
    var all := trees + [tree];
    forall i | 0 <= i < |trees|
      ensures Elements(trees[i].pids) !! Elements(tree.pids) && RootIn(processes, n + 1, trees[i].root)
    {
      assert RootIn(processes, n, trees[i].root);
      DistinctRootsAreDisjoint(t, trees[i], tree);
    }
    hide IsTree, IsRoot;
    forall j | 0 <= j < n + 1 && IsRoot(t, processes[j].pid) ensures HasTree(all, processes[j].pid) {
      if j < n {
        var i :| 0 <= i < |trees| && trees[i].root == processes[j].pid;
        assert all[i] == trees[i];
      } else {
        assert all[|trees|].root == processes[j].pid;
      }
    }
    assert RootIn(processes, n + 1, tree.root);
  }

  /** One tree per root, pairwise disjoint, each exactly its root's descendants, for any parent links. */
  method BuildAgentTrees(processes: seq<Process>, t: Table) returns (trees: seq<AgentTree>)
    requires Tabulates(processes, t)
    ensures forall i :: 0 <= i < |trees| ==> IsTree(t, trees[i])
    ensures PairwiseDisjoint(trees)
    ensures forall j :: 0 <= j < |processes| && IsRoot(t, processes[j].pid) ==> HasTree(trees, processes[j].pid)
  {
    var c := ListChildren(processes, t);
    var agents := Agents(t);
    trees := [];
    hide IsTree, PairwiseDisjoint, Lists, HasAncestorIn, Walked, HasTree;
    assert Built(t, processes, 0, trees) by { NoTrees(t, processes); }
    for n := 0 to |processes|
      invariant Built(t, processes, n, trees)
    {
      var r := processes[n].pid;
      var has := true;
      if r in agents { has := HasAgentAncestor(t, agents, r); }
      if has {
        BuiltSkip(t, processes, n, trees);
      } else {
        var order, after := Walk(t, c, r, {});
        WalkMakesTree(t, c, r, order, after);
        BuiltAdd(t, processes, n, trees, AgentTree(r, order));
        trees := trees + [AgentTree(r, order)];
      }
    }
  }

  lemma NoTrees(t: Table, processes: seq<Process>)
    ensures Built(t, processes, 0, [])
  {
  }

  lemma WalkMakesTree(t: Table, c: Children, r: int, order: seq<int>, after: set<int>)
    requires WellFormed(t) && Lists(t, c) && IsRoot(t, r) && Walked(t, c, r, {}, order, after)
    ensures IsTree(t, AgentTree(r, order))
  {
    WalkIsSubtree(t, c, r, order, after);
  }

  // ----- signalling -----

  /** Signals a tree in reverse and keeps going past failures; `fails` are the PIDs that cannot be signalled. */
  method SignalTreePIDs(pids: seq<int>, fails: set<int>) returns (signalled: seq<int>, failures: seq<int>)
    ensures |signalled| == |pids| && forall i :: 0 <= i < |pids| ==> signalled[i] == pids[|pids| - 1 - i]
    ensures forall x :: x in failures <==> x in pids && x in fails
  {
    signalled, failures := [], [];
    var i := |pids|;
    while i > 0
      invariant 0 <= i <= |pids| && |signalled| == |pids| - i
      invariant forall j :: 0 <= j < |signalled| ==> signalled[j] == pids[|pids| - 1 - j]
      invariant forall x :: x in failures <==> x in pids[i..] && x in fails
    {
      i := i - 1;
      signalled := signalled + [pids[i]];
      assert pids[i..] == [pids[i]] + pids[i + 1..];
      if pids[i] in fails { failures := failures + [pids[i]]; }
    }
    assert pids[0..] == pids;
  }

  /** Every process of a tree but its root is signalled before its parent. */
  lemma ChildrenSignalledFirst(t: Table, tree: AgentTree, signalled: seq<int>, i: nat)
    requires IsTree(t, tree) && |signalled| == |tree.pids| && i < |signalled|
    requires forall k :: 0 <= k < |signalled| ==> signalled[k] == tree.pids[|tree.pids| - 1 - k]
    requires signalled[i] != tree.root
    ensures signalled[i] in t && exists j :: i < j < |signalled| && signalled[j] == t[signalled[i]].ppid
  {
    var m := |tree.pids| - 1 - i;
    var q := t[tree.pids[m]].ppid;
    assert q in tree.pids[..m];
    var j :| 0 <= j < m && tree.pids[..m][j] == q;
    assert signalled[|tree.pids| - 1 - j] == q;
  }
}
