// Dependency-first publish order and its validation (scripts/publish-order.py).
module PublishOrder {
  import opened Wrappers
  import opened Domain
  import opened TextOrder

  type Name = seq<byte>

  // What a package depends on, for every package of the workspace.
  type Edges = map<Name, set<Name>>

  // ------------------------------------------------------------------ specification

  // The workspace graph: distinct nodes, each with dependencies among the nodes.
  ghost predicate Workspace(nodes: seq<Name>, edges: Edges) {
    && Distinct(nodes)
    && (forall n :: n in nodes <==> n in edges)
    && forall n :: n in edges ==> edges[n] <= edges.Keys
  }

  ghost predicate Precedes(edges: Edges, r: seq<Name>) {
    forall i, j :: 0 <= i < |r| && 0 <= j < |r| && r[j] in edges && r[i] in edges[r[j]] ==> i < j
  }

  // Every node once, and every dependency before its dependents.
  ghost predicate IsOrder(nodes: seq<Name>, edges: Edges, r: seq<Name>) {
    && Distinct(r)
    && (forall n :: n in r <==> n in nodes)
    && Precedes(edges, r)
  }

  // Each entry depends on the next.
  predicate DependencyPath(edges: Edges, path: seq<Name>) {
    forall k :: 0 <= k < |path| - 1 ==> path[k] in edges && path[k + 1] in edges[path[k]]
  }

  ghost predicate HasCycle(edges: Edges) {
    exists path :: |path| >= 2 && DependencyPath(edges, path) && path[0] == path[|path| - 1]
  }

  // Lexicographic order of sequences of names, by the first difference.
  ghost predicate Before(a: seq<Name>, b: seq<Name>) {
    exists k :: 0 <= k < |a| && k < |b| && a[..k] == b[..k] && Less(a[k], b[k])
  }

  function Elements(s: seq<Name>): (e: set<Name>)
    ensures forall x :: x in e <==> x in s
  {
    set x | x in s
  }

  // A node that is not done although everything it depends on is.
  ghost predicate Available(edges: Edges, done: seq<Name>, n: Name) {
    n in edges && n !in done && forall m :: m in edges[n] ==> m in done
  }

  // Nothing available comes before `n`.
  ghost predicate LeastAvailable(edges: Edges, done: seq<Name>, n: Name) {
    Available(edges, done, n) && forall m :: Available(edges, done, m) ==> AtMost(n, m)
  }

  // Each entry is the least one available when it was taken.
  ghost predicate Greedy(edges: Edges, r: seq<Name>) {
    forall i :: 0 <= i < |r| ==> LeastAvailable(edges, r[..i], r[i])
  }

  // ------------------------------------------------------------------------ theory

  lemma GreedyIsOrder(nodes: seq<Name>, edges: Edges, r: seq<Name>)
    requires Workspace(nodes, edges) && Greedy(edges, r) && forall n :: n in nodes ==> n in r
    ensures IsOrder(nodes, edges, r)
  {
    forall i, j | 0 <= i < j < |r| ensures r[i] != r[j] {
      assert LeastAvailable(edges, r[..j], r[j]);
      assert r[..j][i] == r[i];
    }
    forall n | n in r ensures n in nodes {
      var i :| 0 <= i < |r| && r[i] == n;
      assert LeastAvailable(edges, r[..i], r[i]);
    }
    forall i, j | 0 <= i < |r| && 0 <= j < |r| && r[j] in edges && r[i] in edges[r[j]] ensures i < j {
      assert LeastAvailable(edges, r[..j], r[j]);
      var k :| 0 <= k < j && r[..j][k] == r[i];
      assert r[k] == r[i];
    }
  }

  // The entries of two orders of the same nodes first differ somewhere.
  lemma FirstDifference(a: seq<Name>, b: seq<Name>, k: nat) returns (i: nat)
    requires |a| == |b| && a != b && k <= |a| && a[..k] == b[..k]
    ensures k <= i < |a| && a[..i] == b[..i] && a[i] != b[i]
    decreases |a| - k
  {
    assert a == a[..k] + a[k..] && b == b[..k] + b[k..];
    if a[k] != b[k] {
      i := k;
    } else {
      assert a[..k + 1] == a[..k] + [a[k]] && b[..k + 1] == b[..k] + [b[k]];
      i := FirstDifference(a, b, k + 1);
    }
  }

  lemma SameElementsSameLength(a: seq<Name>, b: seq<Name>)
    requires Distinct(a) && Distinct(b) && forall x :: x in a <==> x in b
    ensures |a| == |b|
  {
    DistinctIffCount(a);
    DistinctIffCount(b);
    assert Elements(a) == Elements(b);
  }

  lemma DistinctSnoc(s: seq<Name>, last: Name)
    ensures Distinct(s + [last]) <==> Distinct(s) && last !in s
  {
    var longer := s + [last];
    if Distinct(longer) {
      forall i, j | 0 <= i < j < |s| ensures s[i] != s[j] {
        assert longer[i] != longer[j];
      }
      forall i | 0 <= i < |s| ensures s[i] != last {
        assert longer[i] != longer[|s|];
      }
    }
  }

  lemma {:induction false} DistinctIffCount(a: seq<Name>)
    ensures |Elements(a)| <= |a|
    ensures |Elements(a)| == |a| <==> Distinct(a)
  {
    if a != [] {
      var rest, last := a[..|a| - 1], a[|a| - 1];
      DistinctIffCount(rest);
      assert a == rest + [last];
      DistinctSnoc(rest, last);
      assert Elements(a) == Elements(rest) + {last};
    }
  }

  lemma NotAmongEarlier(r: seq<Name>, i: nat)
    requires Distinct(r) && i < |r|
    ensures r[i] !in r[..i]
  {
    forall j | 0 <= j < i ensures r[..i][j] != r[i] {
      assert r[..i][j] == r[j];
    }
  }

  // The greedy order comes before every other order.
  lemma GreedyIsLeast(nodes: seq<Name>, edges: Edges, r: seq<Name>, other: seq<Name>)
    requires Workspace(nodes, edges) && Greedy(edges, r) && IsOrder(nodes, edges, r)
    requires IsOrder(nodes, edges, other) && other != r
    ensures Before(r, other)
  {
    SameElementsSameLength(r, other);
    var i := FirstDifference(r, other, 0);
    var n := other[i];
    forall m | m in edges[n] ensures m in r[..i] {
      assert m in nodes;
      var j :| 0 <= j < |other| && other[j] == m;
      assert j < i;
      assert other[..i][j] == m;
    }
    NotAmongEarlier(other, i);
    assert Available(edges, r[..i], n) && LeastAvailable(edges, r[..i], r[i]);
    LessTotal(r[i], n);
  }

  // An order and a cycle exclude each other: positions fall along a path.
  lemma {:induction false} PositionsFall(nodes: seq<Name>, edges: Edges, r: seq<Name>, path: seq<Name>, k: nat) returns (i: nat, j: nat)
    requires Workspace(nodes, edges) && IsOrder(nodes, edges, r)
    requires DependencyPath(edges, path) && 1 <= k < |path|
    ensures i < |r| && j < |r| && r[i] == path[0] && r[j] == path[k] && j < i
    decreases k
  {
    var p, q := path[k - 1], path[k];
    assert q in edges[p] && p in r && q in r;
    j :| 0 <= j < |r| && r[j] == q;
    if k == 1 {
      i :| 0 <= i < |r| && r[i] == p;
    } else {
      var middle;
      i, middle := PositionsFall(nodes, edges, r, path, k - 1);
    }
  }

  lemma OrderedHasNoCycle(nodes: seq<Name>, edges: Edges, r: seq<Name>)
    requires Workspace(nodes, edges) && IsOrder(nodes, edges, r)
    ensures !HasCycle(edges)
  {
    forall path: seq<Name> | |path| >= 2 && DependencyPath(edges, path) ensures path[0] != path[|path| - 1] {
      var i, j := PositionsFall(nodes, edges, r, path, |path| - 1);
    }
  }

  predicate Waits(edges: Edges, stuck: set<Name>, n: Name) {
    n in edges && exists m :: m in edges[n] && m in stuck
  }

  ghost predicate Stuck(edges: Edges, stuck: set<Name>) {
    forall n {:trigger Waits(edges, stuck, n)} :: n in stuck ==> Waits(edges, stuck, n)
  }

  // A set of nodes that each depend on one of the set contains a cycle: walk
  // along dependencies until a node repeats.
  lemma {:induction false} StuckHasCycle(edges: Edges, stuck: set<Name>, path: seq<Name>)
    requires Stuck(edges, stuck)
    requires path != [] && DependencyPath(edges, path) && Distinct(path) && Elements(path) <= stuck
    ensures HasCycle(edges)
    decreases |stuck| - |path|
  {
    var last := path[|path| - 1];
    assert last in Elements(path);
    assert Waits(edges, stuck, last);
    var next :| next in edges[last] && next in stuck;
    var longer := path + [next];
    if next in path {
      var k :| 0 <= k < |path| && path[k] == next;
      RepeatIsCycle(edges, path, next, k);
    } else {
      assert Elements(longer) == Elements(path) + {next};
      assert Distinct(longer) && DependencyPath(edges, longer);
      DistinctIffCount(longer);
      SubsetCount(Elements(longer), stuck);
      StuckHasCycle(edges, stuck, longer);
    }
  }

  lemma RepeatIsCycle(edges: Edges, path: seq<Name>, next: Name, k: nat)
    requires k < |path| && path[k] == next && DependencyPath(edges, path)
    requires path[|path| - 1] in edges && next in edges[path[|path| - 1]]
    ensures HasCycle(edges)
  {
    var cycle := path[k..] + [next];
    forall i | 0 <= i < |cycle| - 1 ensures cycle[i] in edges && cycle[i + 1] in edges[cycle[i]] {
      assert cycle[i] == path[k + i];
      if i < |cycle| - 2 {
        assert cycle[i + 1] == path[k + i + 1];
      }
    }
    assert cycle[0] == cycle[|cycle| - 1];
  }

  lemma {:induction false} SubsetCount(a: set<Name>, b: set<Name>)
    requires a <= b
    ensures |a| <= |b|
    decreases |a|
  {
    if a != {} {
      var x :| x in a;
      SubsetCount(a - {x}, b - {x});
    }
  }

  // ------------------------------------------------------------------- the algorithm

  // Who depends on a node, leaving out those in `todo`.
  function DependentsOf(edges: Edges, todo: set<Name>, n: Name): set<Name> {
    set d | d in edges && d !in todo && n in edges[d]
  }

  ghost predicate Entered(edges: Edges, todo: set<Name>, dependents: map<Name, set<Name>>) {
    && dependents.Keys == edges.Keys
    && forall n :: n in edges ==> dependents[n] == DependentsOf(edges, todo, n)
  }

  method Enter(edges: Edges, before: map<Name, set<Name>>, dependent: Name) returns (dependents: map<Name, set<Name>>)
    requires dependent in edges && edges[dependent] <= edges.Keys && before.Keys == edges.Keys
    ensures dependents.Keys == edges.Keys
    ensures forall n :: n in edges ==>
      dependents[n] == if n in edges[dependent] then before[n] + {dependent} else before[n]
  {
    dependents := before;
    var dependencies := edges[dependent];
    while dependencies != {}
      invariant dependencies <= edges[dependent] && dependents.Keys == edges.Keys
      invariant forall n :: n in edges ==>
        dependents[n] == if n in edges[dependent] && n !in dependencies then before[n] + {dependent} else before[n]
      decreases dependencies
    {
      var dependency :| dependency in dependencies;
      dependents := dependents[dependency := dependents[dependency] + {dependent}];
      dependencies := dependencies - {dependency};
    }
  }

  lemma EnteredOneMore(edges: Edges, todo: set<Name>, dependent: Name, n: Name)
    requires dependent in todo && dependent in edges
    ensures DependentsOf(edges, todo - {dependent}, n)
         == if n in edges[dependent] then DependentsOf(edges, todo, n) + {dependent} else DependentsOf(edges, todo, n)
  {
  }

  method Dependents(nodes: seq<Name>, edges: Edges) returns (dependents: map<Name, set<Name>>)
    requires Workspace(nodes, edges)
    ensures Entered(edges, {}, dependents)
  {
    dependents := map n | n in edges :: {};
    var todo := edges.Keys;
    while todo != {}
      invariant todo <= edges.Keys && Entered(edges, todo, dependents)
      decreases todo
    {
      var dependent :| dependent in todo;
      dependents := Enter(edges, dependents, dependent);
      forall n | n in edges ensures dependents[n] == DependentsOf(edges, todo - {dependent}, n) {
        EnteredOneMore(edges, todo, dependent, n);
      }
      todo := todo - {dependent};
    }
  }

  // How many dependencies are not done yet.
  function Missing(edges: Edges, done: set<Name>, n: Name): nat
    requires n in edges
  {
    |edges[n] - done|
  }

  lemma MissingAfter(edges: Edges, done: set<Name>, node: Name, n: Name)
    requires n in edges && node !in done
    ensures Missing(edges, done + {node}, n) == Missing(edges, done, n) - (if node in edges[n] then 1 else 0)
  {
    var before, after := edges[n] - done, edges[n] - (done + {node});
    if node in edges[n] {
      assert after == before - {node};
    } else {
      assert after == before;
    }
  }

  lemma MissingIsAvailable(edges: Edges, done: seq<Name>, n: Name)
    requires n in edges && n !in done
    ensures Missing(edges, Elements(done), n) == 0 <==> Available(edges, done, n)
  {
    forall m ensures m in edges[n] - Elements(done) <==> m in edges[n] && m !in done {
    }
    if Missing(edges, Elements(done), n) != 0 {
      var m :| m in edges[n] - Elements(done);
    }
  }

  // What the counters and the heap say about one node between two rounds.
  ghost predicate Counted(edges: Edges, done: seq<Name>, remaining: map<Name, int>, ready: set<Name>, n: Name)
    requires n in edges
  {
    && n in remaining && remaining[n] == Missing(edges, Elements(done), n)
    && (n in ready <==> n !in done && remaining[n] == 0)
    && (n in done ==> remaining[n] == 0)
  }

  ghost predicate Counting(edges: Edges, done: seq<Name>, remaining: map<Name, int>, ready: set<Name>) {
    && ready <= edges.Keys
    && forall n {:trigger Counted(edges, done, remaining, ready, n)} :: n in edges ==> Counted(edges, done, remaining, ready, n)
  }

  // A node after the round's inner loop has, or has not yet, visited it.
  ghost predicate Visited(before: map<Name, int>, waitingBefore: set<Name>, remaining: map<Name, int>, ready: set<Name>, n: Name, visited: bool) {
    && n in before && n in remaining
    && remaining[n] == (if visited then before[n] - 1 else before[n])
    && (n in ready <==> if visited then remaining[n] == 0 else n in waitingBefore)
  }

  // A dependent of an available node is neither done nor ready.
  lemma DependentWaits(edges: Edges, done: seq<Name>, remaining: map<Name, int>, ready: set<Name>, node: Name, dependent: Name)
    requires Available(edges, done, node) && dependent in edges && node in edges[dependent]
    requires Counted(edges, done, remaining, ready, dependent)
    ensures remaining[dependent] >= 1 && dependent !in ready && dependent !in done
  {
    assert node in edges[dependent] - Elements(done);
  }

  lemma NodeReleased(edges: Edges, done: seq<Name>, node: Name, before: map<Name, int>, ready: set<Name>,
                     remaining: map<Name, int>, after: set<Name>, n: Name)
    requires n in edges && Available(edges, done, node) && node in ready
    requires Counted(edges, done, before, ready, n)
    requires Visited(before, ready - {node}, remaining, after, n, node in edges[n])
    ensures Counted(edges, done + [node], remaining, after, n)
  {
    assert Elements(done + [node]) == Elements(done) + {node};
    MissingAfter(edges, Elements(done), node, n);
    if node in edges[n] {
      DependentWaits(edges, done, before, ready, node, n);
    }
  }

  // One round's inner loop: every dependent of the finished node has one less to
  // wait for, and those with nothing left become ready.
  method Release(edges: Edges, dependents: map<Name, set<Name>>, ghost done: seq<Name>, node: Name, before: map<Name, int>, ghost ready0: set<Name>, rest: set<Name>)
    returns (remaining: map<Name, int>, ready: set<Name>)
    requires Entered(edges, {}, dependents) && Available(edges, done, node)
    requires Counting(edges, done, before, ready0) && node in ready0 && rest == ready0 - {node}
    ensures Counting(edges, done + [node], remaining, ready)
  {
    remaining, ready := before, rest;
    var waiting := dependents[node];
    forall n | n in edges ensures Visited(before, rest, remaining, ready, n, false) {
      assert Counted(edges, done, before, ready0, n);
    }
    while waiting != {}
      invariant waiting <= dependents[node] && ready <= edges.Keys
      invariant forall n :: n in edges ==> Visited(before, rest, remaining, ready, n, n in dependents[node] && n !in waiting)
      decreases waiting
    {
      var dependent, others := PopLeast(waiting);
      assert Counted(edges, done, before, ready0, dependent);
      DependentWaits(edges, done, before, ready0, node, dependent);
      ghost var was, had := remaining, ready;
      assert Visited(before, rest, was, had, dependent, false);
      remaining := remaining[dependent := remaining[dependent] - 1];
      if remaining[dependent] == 0 {
        ready := ready + {dependent};
      }
      waiting := others;
      forall n | n in edges ensures Visited(before, rest, remaining, ready, n, n in dependents[node] && n !in waiting) {
        if n != dependent {
          assert Visited(before, rest, was, had, n, n in dependents[node] && n !in waiting);
        }
      }
    }
    forall n | n in edges ensures Counted(edges, done + [node], remaining, ready, n) {
      assert Counted(edges, done, before, ready0, n);
      NodeReleased(edges, done, node, before, ready0, remaining, ready, n);
    }
  }

  lemma ReadyIffAvailable(edges: Edges, done: seq<Name>, remaining: map<Name, int>, ready: set<Name>, n: Name)
    requires Counting(edges, done, remaining, ready)
    ensures n in ready <==> Available(edges, done, n)
  {
    if n in edges {
      assert Counted(edges, done, remaining, ready, n);
      if n !in done {
        MissingIsAvailable(edges, done, n);
      }
    }
  }

  lemma GreedyExtends(edges: Edges, done: seq<Name>, node: Name)
    requires Greedy(edges, done) && LeastAvailable(edges, done, node)
    ensures Greedy(edges, done + [node])
  {
    var next := done + [node];
    forall i | 0 <= i < |next| ensures LeastAvailable(edges, next[..i], next[i]) {
      if i < |done| {
        assert next[..i] == done[..i];
      } else {
        assert next[..i] == done;
      }
    }
  }

  // The least ready node is the greedy choice.
  lemma LeastIsGreedy(edges: Edges, done: seq<Name>, remaining: map<Name, int>, ready: set<Name>, node: Name)
    requires Counting(edges, done, remaining, ready) && Greedy(edges, done)
    requires node in ready && forall n :: n in ready ==> AtMost(node, n)
    ensures Available(edges, done, node) && Greedy(edges, done + [node])
  {
    ReadyIffAvailable(edges, done, remaining, ready, node);
    forall m | Available(edges, done, m) ensures AtMost(node, m) {
      ReadyIffAvailable(edges, done, remaining, ready, m);
    }
    GreedyExtends(edges, done, node);
  }

  // With nothing ready and something left, what is left is stuck.
  lemma LeftoverIsStuck(nodes: seq<Name>, edges: Edges, done: seq<Name>, remaining: map<Name, int>)
    requires Workspace(nodes, edges) && Counting(edges, done, remaining, {})
    requires !forall n :: n in nodes ==> n in done
    ensures HasCycle(edges)
  {
    var missing :| missing in nodes && missing !in done;
    var stuck := edges.Keys - Elements(done);
    LeftoverWaitsOnItself(nodes, edges, done, remaining);
    assert Elements([missing]) == {missing};
    StuckHasCycle(edges, stuck, [missing]);
  }

  lemma LeftoverWaitsOnItself(nodes: seq<Name>, edges: Edges, done: seq<Name>, remaining: map<Name, int>)
    requires Workspace(nodes, edges) && Counting(edges, done, remaining, {})
    ensures Stuck(edges, edges.Keys - Elements(done))
  {
    var stuck := edges.Keys - Elements(done);
    forall n | n in stuck ensures Waits(edges, stuck, n) {
      LeftoverWaits(nodes, edges, done, remaining, n);
    }
  }

  lemma LeftoverWaits(nodes: seq<Name>, edges: Edges, done: seq<Name>, remaining: map<Name, int>, n: Name)
    requires Workspace(nodes, edges) && Counting(edges, done, remaining, {})
    requires n in edges && n !in done
    ensures Waits(edges, edges.Keys - Elements(done), n)
  {
    assert Counted(edges, done, remaining, {}, n);
    assert edges[n] - Elements(done) != {};
    var m :| m in edges[n] - Elements(done);
    assert m in edges;
  }

  // The order comes before every other one.
  ghost predicate Canonical(nodes: seq<Name>, edges: Edges, r: seq<Name>) {
    forall other :: IsOrder(nodes, edges, other) && other != r ==> Before(r, other)
  }

  lemma CompletedIsCanonical(nodes: seq<Name>, edges: Edges, r: seq<Name>)
    requires Workspace(nodes, edges) && Greedy(edges, r) && forall n :: n in nodes ==> n in r
    ensures IsOrder(nodes, edges, r) && Canonical(nodes, edges, r) && !HasCycle(edges)
  {
    GreedyIsOrder(nodes, edges, r);
    OrderedHasNoCycle(nodes, edges, r);
    forall other | IsOrder(nodes, edges, other) && other != r ensures Before(r, other) {
      GreedyIsLeast(nodes, edges, r, other);
    }
  }

  // `order`: dependencies first, least name first among the ready; it raises
  // exactly on a cycle, and otherwise returns the least of all orders.
  method Order(nodes: seq<Name>, edges: Edges) returns (r: Option<seq<Name>>)
    requires Workspace(nodes, edges)
    ensures r.None? <==> HasCycle(edges)
    ensures r.Some? ==> IsOrder(nodes, edges, r.value) && Canonical(nodes, edges, r.value)
  {
    var dependents := Dependents(nodes, edges);
    var remaining: map<Name, int> := map n | n in edges :: |edges[n]|;
    var ready := set n | n in edges && |edges[n]| == 0;
    var result: seq<Name> := [];
    StartIsCounted(edges, remaining, ready);
    while ready != {}
      invariant Counting(edges, result, remaining, ready) && Taken(edges, result)
      decreases edges.Keys - Elements(result)
    {
      var node, rest := PopLeast(ready);
      TakenOneMore(edges, result, remaining, ready, node);
      remaining, ready := Release(edges, dependents, result, node, remaining, ready, rest);
      result := result + [node];
    }
    CompleteIff(nodes, edges, result);
    if |result| != |nodes| {
      LeftoverIsStuck(nodes, edges, result, remaining);
      return None;
    }
    CompletedIsCanonical(nodes, edges, result);
    return Some(result);
  }

  // What has been taken so far: distinct nodes, greedily.
  ghost predicate Taken(edges: Edges, done: seq<Name>) {
    Greedy(edges, done) && Distinct(done) && Elements(done) <= edges.Keys
  }

  lemma TakenOneMore(edges: Edges, done: seq<Name>, remaining: map<Name, int>, ready: set<Name>, node: Name)
    requires Counting(edges, done, remaining, ready) && Taken(edges, done)
    requires node in ready && forall n :: n in ready ==> AtMost(node, n)
    ensures Available(edges, done, node) && Taken(edges, done + [node])
    ensures edges.Keys - Elements(done + [node]) < edges.Keys - Elements(done)
  {
    LeastIsGreedy(edges, done, remaining, ready, node);
    assert Elements(done + [node]) == Elements(done) + {node};
    assert node in edges.Keys - Elements(done);
  }

  lemma StartIsCounted(edges: Edges, remaining: map<Name, int>, ready: set<Name>)
    requires remaining == map n | n in edges :: |edges[n]|
    requires ready == set n | n in edges && |edges[n]| == 0
    ensures Counting(edges, [], remaining, ready)
  {
    forall n | n in edges ensures Counted(edges, [], remaining, ready, n) {
      assert edges[n] - Elements([]) == edges[n];
    }
  }

  // The result has every node exactly when it has as many entries.
  lemma CompleteIff(nodes: seq<Name>, edges: Edges, r: seq<Name>)
    requires Workspace(nodes, edges) && Distinct(r) && Elements(r) <= edges.Keys
    ensures |r| == |nodes| <==> forall n :: n in nodes ==> n in r
  {
    DistinctIffCount(r);
    DistinctIffCount(nodes);
    assert Elements(nodes) == edges.Keys;
    if |r| == |nodes| {
      SubsetOfSameCount(Elements(r), edges.Keys);
    }
    if forall n :: n in nodes ==> n in r {
      assert Elements(r) == edges.Keys;
    }
  }

  lemma SubsetOfSameCount(a: set<Name>, b: set<Name>)
    requires a <= b && |a| == |b|
    ensures a == b
  {
    if x :| x in b && x !in a {
      SubsetCount(a, b - {x});
    }
  }

  // ---------------------------------------------------------------------- validation

  datatype Violation = AppearsTwice | IsMissing(crate: Name) | IsForeign(crate: Name) | MustPrecede(dependency: Name, dependent: Name)

  // The last position of a name, or -1: what the position table returns.
  function Position(given: seq<Name>, n: Name): (p: int)
    ensures -1 <= p < |given|
    ensures p >= 0 ==> given[p] == n
    ensures p == -1 <==> n !in given
    ensures forall k :: p < k < |given| ==> given[k] != n
  {
    if given == [] then -1
    else if given[|given| - 1] == n then |given| - 1
    else
      var p := Position(given[..|given| - 1], n);
      assert given == given[..|given| - 1] + [given[|given| - 1]];
      p
  }

  ghost predicate Violated(nodes: seq<Name>, edges: Edges, given: seq<Name>, v: Violation) {
    match v
    case AppearsTwice => !Distinct(given)
    case IsMissing(crate) => crate in nodes && crate !in given
    case IsForeign(crate) => crate in given && crate !in nodes
    case MustPrecede(dependency, dependent) =>
      && dependent in edges && dependency in edges[dependent]
      && Position(given, dependency) > Position(given, dependent)
  }

  method Misplaced(edges: Edges, given: seq<Name>) returns (violations: seq<Violation>)
    ensures forall v :: v in violations <==>
      && v.MustPrecede? && v.dependent in edges && v.dependency in edges[v.dependent]
      && Position(given, v.dependency) > Position(given, v.dependent)
  {
    violations := [];
    var todo := edges.Keys;
    while todo != {}
      invariant todo <= edges.Keys
      invariant forall v :: v in violations <==>
        && v.MustPrecede? && v.dependent in edges && v.dependent !in todo && v.dependency in edges[v.dependent]
        && Position(given, v.dependency) > Position(given, v.dependent)
      decreases todo
    {
      var dependent :| dependent in todo;
      ghost var before := violations;
      var dependencies := edges[dependent];
      while dependencies != {}
        invariant dependencies <= edges[dependent]
        invariant forall v :: v in violations <==> (v in before || (
          && v.MustPrecede? && v.dependent == dependent && v.dependency in edges[dependent] && v.dependency !in dependencies
          && Position(given, v.dependency) > Position(given, v.dependent)))
        decreases dependencies
      {
        var dependency :| dependency in dependencies;
        if Position(given, dependency) > Position(given, dependent) {
          violations := violations + [MustPrecede(dependency, dependent)];
        }
        dependencies := dependencies - {dependency};
      }
      todo := todo - {dependent};
    }
  }

  // `validate_order` on the names already read from the lines: it reports exactly
  // what is violated.
  method ValidateOrder(nodes: seq<Name>, edges: Edges, given: seq<Name>) returns (violations: seq<Violation>)
    ensures forall v :: v in violations <==> Violated(nodes, edges, given, v)
  {
    violations := [];
    DistinctIffCount(given);
    if |given| != |Elements(given)| {
      violations := [AppearsTwice];
    }
    var missing := InOrder(Elements(nodes) - Elements(given));
    for i := 0 to |missing|
      invariant forall v :: v in violations <==>
        (v == AppearsTwice && !Distinct(given)) || (v.IsMissing? && v.crate in missing[..i])
    {
      violations := violations + [IsMissing(missing[i])];
      assert missing[..i + 1] == missing[..i] + [missing[i]];
    }
    assert missing[..|missing|] == missing;
    var foreign := InOrder(Elements(given) - Elements(nodes));
    for i := 0 to |foreign|
      invariant forall v :: v in violations <==>
        (v == AppearsTwice && !Distinct(given)) || (v.IsMissing? && v.crate in missing) || (v.IsForeign? && v.crate in foreign[..i])
    {
      violations := violations + [IsForeign(foreign[i])];
      assert foreign[..i + 1] == foreign[..i] + [foreign[i]];
    }
    assert foreign[..|foreign|] == foreign;
    var misplaced := Misplaced(edges, given);
    violations := violations + misplaced;
  }

  function WithoutLoops(edges: Edges): Edges {
    map n | n in edges :: edges[n] - {n}
  }

  // Nothing is reported exactly for the orders of the graph without its
  // self-dependencies: a crate's dependency on itself is never reported.
  lemma NothingViolatedIff(nodes: seq<Name>, edges: Edges, given: seq<Name>)
    requires Workspace(nodes, edges)
    ensures (forall v :: !Violated(nodes, edges, given, v)) <==> IsOrder(nodes, WithoutLoops(edges), given)
  {
    if forall v :: !Violated(nodes, edges, given, v) {
      AcceptedIsOrder(nodes, edges, given);
    }
    if IsOrder(nodes, WithoutLoops(edges), given) {
      OrderIsAccepted(nodes, edges, given);
    }
  }

  lemma AcceptedIsOrder(nodes: seq<Name>, edges: Edges, given: seq<Name>)
    requires Workspace(nodes, edges) && forall v :: !Violated(nodes, edges, given, v)
    ensures IsOrder(nodes, WithoutLoops(edges), given)
  {
    assert !Violated(nodes, edges, given, AppearsTwice);
    forall n ensures n in given <==> n in nodes {
      assert !Violated(nodes, edges, given, IsMissing(n)) && !Violated(nodes, edges, given, IsForeign(n));
    }
    var loopless := WithoutLoops(edges);
    forall i, j | 0 <= i < |given| && 0 <= j < |given| && given[j] in loopless && given[i] in loopless[given[j]] ensures i < j {
      assert !Violated(nodes, edges, given, MustPrecede(given[i], given[j]));
      assert Position(given, given[i]) == i && Position(given, given[j]) == j;
    }
  }

  lemma InPlace(nodes: seq<Name>, edges: Edges, given: seq<Name>, dependency: Name, dependent: Name)
    requires Workspace(nodes, edges) && IsOrder(nodes, WithoutLoops(edges), given)
    requires dependent in edges && dependency in edges[dependent]
    ensures Position(given, dependency) <= Position(given, dependent)
  {
    assert dependency in nodes && dependent in nodes;
    if dependency != dependent {
      assert dependency in WithoutLoops(edges)[dependent];
    }
  }

  lemma OrderIsAccepted(nodes: seq<Name>, edges: Edges, given: seq<Name>)
    requires Workspace(nodes, edges) && IsOrder(nodes, WithoutLoops(edges), given)
    ensures forall v :: !Violated(nodes, edges, given, v)
  {
    forall v ensures !Violated(nodes, edges, given, v) {
      if v.MustPrecede? && v.dependent in edges && v.dependency in edges[v.dependent] {
        InPlace(nodes, edges, given, v.dependency, v.dependent);
      }
    }
  }

  // What `order` returns passes the validation.
  lemma OrderedIsAccepted(nodes: seq<Name>, edges: Edges, r: seq<Name>)
    requires Workspace(nodes, edges) && IsOrder(nodes, edges, r)
    ensures forall v :: !Violated(nodes, edges, r, v)
  {
    var loopless := WithoutLoops(edges);
    forall i, j | 0 <= i < |r| && 0 <= j < |r| && r[j] in loopless && r[i] in loopless[r[j]] ensures i < j {
      assert r[i] in edges[r[j]];
    }
    OrderIsAccepted(nodes, edges, r);
  }

  // A crate depending on itself: there is no order, yet validation accepts one.
  lemma SelfDependencyIsAccepted(n: Name)
    ensures var edges: Edges := map[n := {n}];
      && Workspace([n], edges) && HasCycle(edges)
      && forall v :: !Violated([n], edges, [n], v)
  {
    var edges: Edges := map[n := {n}];
    assert DependencyPath(edges, [n, n]);
    OrderIsAccepted([n], edges, [n]);
  }
}
