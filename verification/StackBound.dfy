// The worst call chain of a closed call graph (scripts/analyze-riscv-stack.py).
module StackBound {
  import opened Wrappers
  import opened Domain

  type Name = seq<byte>

  // Children of every function, and the size of every frame.
  type Graph = map<Name, seq<Name>>
  type Frames = map<Name, nat>

  // ------------------------------------------------------------------ specification

  predicate Calls(graph: Graph, a: Name, b: Name) {
    a in graph && b in graph[a]
  }

  // A chain of calls.
  ghost predicate IsChain(graph: Graph, chain: seq<Name>) {
    chain != [] && forall k :: 0 <= k < |chain| - 1 ==> Calls(graph, chain[k], chain[k + 1])
  }

  ghost predicate ChainFrom(graph: Graph, name: Name, chain: seq<Name>) {
    IsChain(graph, chain) && chain[0] == name
  }

  ghost predicate Repeats(chain: seq<Name>) {
    exists i, j :: 0 <= i < j < |chain| && chain[i] == chain[j]
  }

  // A chain from `name` enters some function twice.
  ghost predicate Recursive(graph: Graph, name: Name) {
    exists chain :: ChainFrom(graph, name, chain) && Repeats(chain)
  }

  function FrameOf(frames: Frames, name: Name): nat {
    if name in frames then frames[name] else 0
  }

  function Sum(frames: Frames, chain: seq<Name>): nat {
    if chain == [] then 0 else FrameOf(frames, chain[0]) + Sum(frames, chain[1..])
  }

  // The graph is closed: children of functions are functions.
  ghost predicate Closed(graph: Graph) {
    forall a, b :: Calls(graph, a, b) ==> b in graph
  }

  // The total is the largest sum of any chain from `name`, and `chain` attains it.
  ghost predicate Worst(graph: Graph, frames: Frames, name: Name, total: nat, chain: seq<Name>) {
    && ChainFrom(graph, name, chain) && Sum(frames, chain) == total
    && (forall other :: ChainFrom(graph, name, other) ==> Sum(frames, other) <= total)
    && !Recursive(graph, name)
  }

  // ------------------------------------------------------------------------ theory

  lemma ChainTail(graph: Graph, chain: seq<Name>)
    requires IsChain(graph, chain) && |chain| > 1
    ensures ChainFrom(graph, chain[1], chain[1..]) && Calls(graph, chain[0], chain[1])
  {
    forall k | 0 <= k < |chain[1..]| - 1 ensures Calls(graph, chain[1..][k], chain[1..][k + 1]) {
      assert Calls(graph, chain[k + 1], chain[k + 2]);
    }
  }

  lemma ChainCons(graph: Graph, name: Name, chain: seq<Name>)
    requires IsChain(graph, chain) && Calls(graph, name, chain[0])
    ensures ChainFrom(graph, name, [name] + chain)
  {
    var longer := [name] + chain;
    forall k | 0 <= k < |longer| - 1 ensures Calls(graph, longer[k], longer[k + 1]) {
      if k > 0 {
        assert Calls(graph, chain[k - 1], chain[k]);
      }
    }
  }

  lemma ChainSnoc(graph: Graph, chain: seq<Name>, name: Name)
    requires chain != [] ==> IsChain(graph, chain) && Calls(graph, chain[|chain| - 1], name)
    ensures IsChain(graph, chain + [name])
  {
    var longer := chain + [name];
    forall k | 0 <= k < |longer| - 1 ensures Calls(graph, longer[k], longer[k + 1]) {
      if k < |chain| - 1 {
        assert Calls(graph, chain[k], chain[k + 1]);
      }
    }
  }

  // The names with totals: closed under calls.
  ghost predicate ClosedUnderCalls(graph: Graph, known: set<Name>) {
    forall a, b :: a in known && Calls(graph, a, b) ==> b in known
  }

  lemma {:induction false} ChainStaysKnown(graph: Graph, known: set<Name>, chain: seq<Name>)
    requires ClosedUnderCalls(graph, known) && IsChain(graph, chain) && chain[0] in known
    ensures forall k :: 0 <= k < |chain| ==> chain[k] in known
  {
    if |chain| > 1 {
      ChainTail(graph, chain);
      ChainStaysKnown(graph, known, chain[1..]);
      forall k | 0 <= k < |chain| ensures chain[k] in known {
        if k > 0 {
          assert chain[k] == chain[1..][k - 1];
        }
      }
    }
  }

  // A chain from a function whose callees are all known, itself not among them,
  // never comes back to it.
  lemma NoRepeatFrom(graph: Graph, known: set<Name>, name: Name, chain: seq<Name>)
    requires ClosedUnderCalls(graph, known) && name !in known && ChainFrom(graph, name, chain)
    requires forall child :: Calls(graph, name, child) ==> child in known && !Recursive(graph, child)
    ensures !Repeats(chain)
  {
    if |chain| > 1 {
      ChainTail(graph, chain);
      var rest := chain[1..];
      ChainStaysKnown(graph, known, rest);
      assert !Repeats(rest);
      forall i, j | 0 <= i < j < |chain| ensures chain[i] != chain[j] {
        assert chain[j] == rest[j - 1];
        if i > 0 {
          assert chain[i] == rest[i - 1];
        }
      }
    }
  }

  // The worst chain of a function from those of its callees.
  lemma WorstOfCallees(graph: Graph, frames: Frames, known: set<Name>, name: Name, child: Option<Name>, total: nat, chain: seq<Name>)
    requires ClosedUnderCalls(graph, known) && name !in known && name in graph
    requires child.None? ==> graph[name] == [] && total == 0 && chain == []
    requires child.Some? ==> Calls(graph, name, child.value) && Worst(graph, frames, child.value, total, chain)
    requires forall c :: Calls(graph, name, c) ==> c in known && !Recursive(graph, c)
    requires forall c, other :: Calls(graph, name, c) && ChainFrom(graph, c, other) ==> Sum(frames, other) <= total
    ensures Worst(graph, frames, name, FrameOf(frames, name) + total, [name] + chain)
  {
    if child.Some? {
      ChainCons(graph, name, chain);
    }
    assert ([name] + chain)[1..] == chain;
    forall other | ChainFrom(graph, name, other) ensures Sum(frames, other) <= FrameOf(frames, name) + total && !Repeats(other) {
      NoRepeatFrom(graph, known, name, other);
      if |other| > 1 {
        ChainTail(graph, other);
        assert Sum(frames, other[1..]) <= total;
      } else {
        assert other[1..] == [];
      }
    }
  }

  // -------------------------------------------------------------------- memo tables

  // The first of the children with the largest total.
  predicate FirstMost(totals: map<Name, nat>, children: seq<Name>, k: nat) {
    && k < |children| && children[k] in totals
    && forall j :: 0 <= j < |children| ==> (
         && children[j] in totals && totals[children[j]] <= totals[children[k]]
         && (j < k ==> totals[children[j]] < totals[children[k]]))
  }

  // The recorded chain continues with the first worst child's own chain.
  ghost predicate Recorded(graph: Graph, totals: map<Name, nat>, chains: map<Name, seq<Name>>, n: Name)
    requires n in graph && n in chains
  {
    if graph[n] == [] then chains[n] == [n]
    else exists k: nat :: FirstMost(totals, graph[n], k) && graph[n][k] in chains && chains[n] == [n] + chains[graph[n][k]]
  }

  ghost predicate Entry(graph: Graph, frames: Frames, totals: map<Name, nat>, chains: map<Name, seq<Name>>, n: Name) {
    && n in graph && n in totals && n in chains
    && Worst(graph, frames, n, totals[n], chains[n])
    && Recorded(graph, totals, chains, n)
  }

  ghost predicate Remembers(graph: Graph, frames: Frames, totals: map<Name, nat>, chains: map<Name, seq<Name>>) {
    && totals.Keys == chains.Keys <= graph.Keys
    && ClosedUnderCalls(graph, totals.Keys)
    && forall n {:trigger Entry(graph, frames, totals, chains, n)} :: n in totals ==> Entry(graph, frames, totals, chains, n)
  }

  // Entering one more function keeps the tables sound.
  lemma OneMoreRemembered(graph: Graph, frames: Frames, totals: map<Name, nat>, chains: map<Name, seq<Name>>,
                          name: Name, total: nat, chain: seq<Name>)
    requires Remembers(graph, frames, totals, chains)
    requires name in graph && name !in totals && Worst(graph, frames, name, total, chain)
    requires forall c :: Calls(graph, name, c) ==> c in totals
    requires Recorded(graph, totals, chains[name := chain], name)
    ensures Remembers(graph, frames, totals[name := total], chains[name := chain])
  {
    var totals1, chains1 := totals[name := total], chains[name := chain];
    forall n | n in totals1 ensures Entry(graph, frames, totals1, chains1, n) {
      if n != name {
        assert Entry(graph, frames, totals, chains, n);
        RecordedStays(graph, totals, chains, name, total, chain, n);
      } else {
        RecordedStays(graph, totals, chains1, name, total, chain, n);
      }
    }
  }

  lemma RecordedStays(graph: Graph, totals: map<Name, nat>, chains: map<Name, seq<Name>>, name: Name, total: nat, chain: seq<Name>, n: Name)
    requires n in graph && n in chains && Recorded(graph, totals, chains, n)
    requires name !in totals && (n == name || name !in chains) && (name in chains ==> chains[name] == chain)
    ensures Recorded(graph, totals[name := total], chains[name := chain], n)
  {
    if graph[n] != [] {
      var k: nat :| FirstMost(totals, graph[n], k) && graph[n][k] in chains && chains[n] == [n] + chains[graph[n][k]];
      assert FirstMost(totals[name := total], graph[n], k);
    }
  }

  // ------------------------------------------------------------------- the analysis

  class CallAnalysis {
    const graph: Graph
    const frames: Frames
    var active: set<Name>
    var totals: map<Name, nat>
    var chains: map<Name, seq<Name>>

    constructor (graph: Graph, frames: Frames)
      ensures this.graph == graph && this.frames == frames && active == {} && totals == map[] && chains == map[]
    {
      this.graph, this.frames := graph, frames;
      active, totals, chains := {}, map[], map[];
    }

    ghost predicate Sound()
      reads this
    {
      Remembers(graph, frames, totals, chains)
    }

    // The functions being bounded form the chain of calls that led here.
    ghost predicate OnStack(stack: seq<Name>)
      reads this
    {
      && (forall n :: n in active <==> n in stack)
      && active <= graph.Keys && active !! totals.Keys
      && (stack != [] ==> IsChain(graph, stack))
    }

    // Totals are only ever added.
    twostate predicate Extended()
      reads this
    {
      forall n :: n in old(totals) ==> n in totals && totals[n] == old(totals)[n]
    }

    // `bound`: remembers what it has bounded, and raises exactly when a call
    // chain re-enters a function.
    method Bound(name: Name, ghost stack: seq<Name>) returns (total: Option<nat>)
      requires Closed(graph) && name in graph && Sound() && OnStack(stack)
      requires stack != [] ==> Calls(graph, stack[|stack| - 1], name)
      modifies this
      ensures total.Some? ==> Sound() && OnStack(stack) && active == old(active) && Extended()
      ensures total.Some? ==> name in totals && totals[name] == total.value
      ensures total.None? ==> Recursive(graph, (stack + [name])[0])
      decreases graph.Keys - active, 1
    {
      ChainSnoc(graph, stack, name);
      if name in active {
        ReentryIsRecursive(graph, stack, name);
        return None;
      }
      if name in totals {
        return Some(totals[name]);
      }
      active := active + {name};
      var found, child := WorstChild(name, stack + [name]);
      if !found {
        return None;
      }
      var most, chain := 0, [];
      if child.Some? {
        most, chain := totals[child.value], chains[child.value];
      }
      Remember(name, child, most, chain);
      active := active - {name};
      return Some(totals[name]);
    }

    // Records the total and the chain of a function whose children are bounded.
    method Remember(name: Name, child: Option<Name>, most: nat, chain: seq<Name>)
      requires Sound() && name in graph && name !in totals && ChildIs(graph, totals, name, child)
      requires child.None? ==> most == 0 && chain == []
      requires child.Some? ==> child.value in totals && most == totals[child.value] && chain == chains[child.value]
      modifies this`totals, this`chains
      ensures Sound() && totals == old(totals)[name := FrameOf(frames, name) + most]
    {
      NewEntry(graph, frames, totals, chains, name, child, most, chain);
      totals := totals[name := FrameOf(frames, name) + most];
      chains := chains[name := [name] + chain];
    }

    // Bounds every child in turn and keeps the first of the worst.
    method WorstChild(name: Name, ghost stack: seq<Name>) returns (found: bool, child: Option<Name>)
      requires Closed(graph) && name in graph && Sound() && OnStack(stack)
      requires stack != [] && stack[|stack| - 1] == name
      modifies this
      ensures found ==> Sound() && OnStack(stack) && active == old(active) && Extended()
      ensures found ==> ChildIs(graph, totals, name, child)
      ensures !found ==> Recursive(graph, stack[0])
      decreases graph.Keys - active, 2
    {
      child := None;
      ghost var best := 0;
      var children := graph[name];
      for i := 0 to |children|
        invariant Sound() && OnStack(stack) && active == old(active) && Extended()
        invariant i == 0 ==> child.None?
        invariant i > 0 ==> child.Some? && FirstMost(totals, children[..i], best) && child.value == children[best]
      {
        assert Calls(graph, name, children[i]);
        ghost var before := totals;
        var total := Bound(children[i], stack);
        if total.None? {
          return false, None;
        }
        if i > 0 {
          FirstMostStays(before, totals, children[..i], best);
        }
        FirstMostExtends(totals, children[..i], children[i], best);
        assert children[..i + 1] == children[..i] + [children[i]];
        if child.None? || totals[child.value] < total.value {
          child := Some(children[i]);
          best := i;
        }
      }
      assert children[..|children|] == children;
      return true, child;
    }
  }

  ghost predicate ChildIs(graph: Graph, totals: map<Name, nat>, name: Name, child: Option<Name>)
    requires name in graph
  {
    match child
    case None => graph[name] == []
    case Some(c) => exists k: nat :: FirstMost(totals, graph[name], k) && graph[name][k] == c
  }

  lemma FirstMostStays(before: map<Name, nat>, totals: map<Name, nat>, children: seq<Name>, k: nat)
    requires FirstMost(before, children, k) && forall n :: n in before ==> n in totals && totals[n] == before[n]
    ensures FirstMost(totals, children, k)
  {
  }

  lemma FirstMostExtends(totals: map<Name, nat>, children: seq<Name>, next: Name, k: nat)
    requires next in totals && (children != [] ==> FirstMost(totals, children, k))
    ensures children == [] || totals[children[k]] < totals[next] ==> FirstMost(totals, children + [next], |children|)
    ensures children != [] && totals[next] <= totals[children[k]] ==> FirstMost(totals, children + [next], k)
  {
  }

  lemma ReentryIsRecursive(graph: Graph, stack: seq<Name>, name: Name)
    requires IsChain(graph, stack + [name]) && name in stack
    ensures Recursive(graph, (stack + [name])[0])
  {
    var around := stack + [name];
    var i :| 0 <= i < |stack| && stack[i] == name;
    assert around[i] == around[|stack|];
    assert ChainFrom(graph, around[0], around);
  }

  lemma NewEntry(graph: Graph, frames: Frames, totals: map<Name, nat>, chains: map<Name, seq<Name>>,
                 name: Name, child: Option<Name>, most: nat, chain: seq<Name>)
    requires Remembers(graph, frames, totals, chains) && name in graph && name !in totals
    requires ChildIs(graph, totals, name, child)
    requires child.None? ==> most == 0 && chain == []
    requires child.Some? ==> child.value in totals && most == totals[child.value] && chain == chains[child.value]
    ensures Remembers(graph, frames, totals[name := FrameOf(frames, name) + most], chains[name := [name] + chain])
  {
    forall c | Calls(graph, name, c) ensures c in totals && totals[c] <= most {
      var k: nat :| FirstMost(totals, graph[name], k) && graph[name][k] == child.value;
      var j :| 0 <= j < |graph[name]| && graph[name][j] == c;
    }
    forall c | Calls(graph, name, c) ensures !Recursive(graph, c) {
      assert Entry(graph, frames, totals, chains, c);
    }
    forall c, other | Calls(graph, name, c) && ChainFrom(graph, c, other) ensures Sum(frames, other) <= most {
      assert Entry(graph, frames, totals, chains, c);
    }
    if child.Some? {
      assert Entry(graph, frames, totals, chains, child.value);
    }
    WorstOfCallees(graph, frames, totals.Keys, name, child, most, chain);
    OneMoreRemembered(graph, frames, totals, chains, name, FrameOf(frames, name) + most, [name] + chain);
  }

  // The analysis from the entry: a total that is the largest sum over all call
  // chains, with a chain that attains it, unless the calls are recursive.
  method StackBoundOf(graph: Graph, frames: Frames, entry: Name) returns (bound: Option<(nat, seq<Name>)>)
    requires Closed(graph) && entry in graph
    ensures bound.None? <==> Recursive(graph, entry)
    ensures bound.Some? ==> Worst(graph, frames, entry, bound.value.0, bound.value.1)
  {
    var analysis := new CallAnalysis(graph, frames);
    var total := analysis.Bound(entry, []);
    if total.None? {
      return None;
    }
    assert Entry(graph, frames, analysis.totals, analysis.chains, entry);
    return Some((total.value, analysis.chains[entry]));
  }

  // In an acyclic graph no chain is longer than the graph is large, so the
  // recursion cannot run away.
  lemma ChainsAreShort(graph: Graph, name: Name, chain: seq<Name>)
    requires Closed(graph) && name in graph && !Recursive(graph, name) && ChainFrom(graph, name, chain)
    ensures |chain| <= |graph|
  {
    ClosedChainStays(graph, chain);
    assert Distinct(chain) by {
      assert !Repeats(chain);
    }
    DistinctFits(chain, graph.Keys);
  }

  lemma {:induction false} ClosedChainStays(graph: Graph, chain: seq<Name>)
    requires Closed(graph) && IsChain(graph, chain) && chain[0] in graph
    ensures forall k :: 0 <= k < |chain| ==> chain[k] in graph
  {
    forall a, b | a in graph.Keys && Calls(graph, a, b) ensures b in graph.Keys {
    }
    ChainStaysKnown(graph, graph.Keys, chain);
  }
}
