// The call graph of a disassembled binary, and the bound over it
// (scripts/analyze-riscv-stack.py).
module CallGraphs {
  import opened Wrappers
  import opened Domain
  import opened TextOrder
  import opened StackFrames
  import opened StackBound

  // Every function with its rows, as disassembled.
  type Functions = map<Name, seq<Row>>

  datatype GraphError =
    | OverlappingDisassembly | MissingFunction | UnsupportedTransfer | UnresolvedCall | TransferOutside
    | TransferIntoInterior | RecursiveWithin | ReturnOperands

  // ------------------------------------------------------------------ specification

  // Row `k` of a function has this address.
  predicate Holds(functions: Functions, name: Name, k: nat, address: nat) {
    name in functions && k < |functions[name]| && functions[name][k].address == address
  }

  // No two rows of the binary share an address.
  ghost predicate NoOverlap(functions: Functions) {
    forall a, i: nat, b, j: nat, address {:trigger Holds(functions, a, i, address), Holds(functions, b, j, address)} ::
      Holds(functions, a, i, address) && Holds(functions, b, j, address) ==> a == b && i == j
  }

  // Which function owns an address, and which start where.
  datatype Index = Index(owners: map<nat, Name>, starts: map<nat, Name>)

  // The recorded owner of the address does hold it.
  ghost predicate OwnerHolds(functions: Functions, owners: map<nat, Name>, address: nat)
    requires address in owners
  {
    exists k: nat :: Holds(functions, owners[address], k, address)
  }

  ghost predicate Indexes(functions: Functions, index: Index) {
    && (forall address {:trigger OwnerHolds(functions, index.owners, address)} :: address in index.owners ==>
          OwnerHolds(functions, index.owners, address))
    && (forall name, k: nat, address {:trigger Holds(functions, name, k, address)} :: Holds(functions, name, k, address) ==>
          address in index.owners && index.owners[address] == name)
    && (forall address :: address in index.starts <==> address in index.owners && Holds(functions, index.owners[address], 0, address))
  }

  // The other function a row transfers to, if any.
  function Callee(functions: Functions, index: Index, name: Name, k: nat): (r: Result<Option<Name>, GraphError>)
    requires name in functions && k < |functions[name]|
  {
    var row := functions[name][k];
    match row.operation
    case Trap => Err(UnsupportedTransfer)
    case Return(operands) => if operands then Err(ReturnOperands) else Ok(None)
    case Call => Destination(index, name, row)
    case Jump => Destination(index, name, row)
    case Branch => Destination(index, name, row)
    case _ => Ok(None)
  }

  function Destination(index: Index, name: Name, row: Row): Result<Option<Name>, GraphError> {
    var written := if row.target.Some? then row.target else row.paired;
    if written.None? then Err(UnresolvedCall)
    else if written.value !in index.owners then Err(TransferOutside)
    else
      var target := index.owners[written.value];
      if target != name then if written.value !in index.starts then Err(TransferIntoInterior) else Ok(Some(target))
      else if row.operation.Call? then Err(RecursiveWithin) else Ok(None)
  }

  // The row transfers control to this address: the written one, or else the one the
  // preceding row completes.
  predicate TransfersTo(row: Row, address: nat) {
    && (row.operation.Call? || row.operation.Jump? || row.operation.Branch?)
    && (row.target == Some(address) || (row.target.None? && row.paired == Some(address)))
  }

  // Row `k` calls, jumps or branches to the first row of another function.
  ghost predicate CalleeIs(functions: Functions, name: Name, k: nat, callee: Name) {
    && name in functions && k < |functions[name]| && callee != name
    && exists address :: TransfersTo(functions[name][k], address) && Holds(functions, callee, 0, address)
  }

  // What is wrong with row `k`.
  ghost predicate RowRefused(functions: Functions, name: Name, k: nat, e: GraphError) {
    && name in functions && k < |functions[name]|
    && var row := functions[name][k];
    match e
    case UnsupportedTransfer => row.operation.Trap?
    case ReturnOperands => row.operation == Return(true)
    case UnresolvedCall =>
      (row.operation.Call? || row.operation.Jump? || row.operation.Branch?) && row.target.None? && row.paired.None?
    case TransferOutside =>
      exists address :: TransfersTo(row, address) && forall n, i: nat :: !Holds(functions, n, i, address)
    case TransferIntoInterior =>
      exists address, n, i: nat :: TransfersTo(row, address) && n != name && i > 0 && Holds(functions, n, i, address)
    case RecursiveWithin =>
      row.operation.Call? && exists address, i: nat :: TransfersTo(row, address) && Holds(functions, name, i, address)
    case _ => false
  }

  lemma DestinationSays(functions: Functions, index: Index, name: Name, k: nat, address: nat)
    requires Indexes(functions, index) && NoOverlap(functions) && name in functions && k < |functions[name]|
    requires TransfersTo(functions[name][k], address)
    ensures var r := Destination(index, name, functions[name][k]);
      && (forall c :: r == Ok(Some(c)) <==> CalleeIs(functions, name, k, c))
      && (r.Err? ==> RowRefused(functions, name, k, r.error))
      && (r.Ok? ==> forall e :: !RowRefused(functions, name, k, e))
  {
    if address in index.owners {
      assert OwnerHolds(functions, index.owners, address);
    }
  }

  // Under the index, a row's callee and its refusal are what the rows themselves say.
  lemma CalleeSays(functions: Functions, index: Index, name: Name, k: nat)
    requires Indexes(functions, index) && NoOverlap(functions) && name in functions && k < |functions[name]|
    ensures forall c :: Callee(functions, index, name, k) == Ok(Some(c)) <==> CalleeIs(functions, name, k, c)
    ensures Callee(functions, index, name, k).Err? ==> RowRefused(functions, name, k, Callee(functions, index, name, k).error)
    ensures Callee(functions, index, name, k).Ok? ==> forall e :: !RowRefused(functions, name, k, e)
  {
    var row := functions[name][k];
    if row.target.Some? && TransfersTo(row, row.target.value) {
      DestinationSays(functions, index, name, k, row.target.value);
    } else if row.target.None? && row.paired.Some? && TransfersTo(row, row.paired.value) {
      DestinationSays(functions, index, name, k, row.paired.value);
    }
  }

  ghost predicate CallsTo(functions: Functions, a: Name, b: Name) {
    exists k: nat :: CalleeIs(functions, a, k, b)
  }

  ghost predicate IsRoute(functions: Functions, route: seq<Name>) {
    route != [] && forall k :: 0 <= k < |route| - 1 ==> CallsTo(functions, route[k], route[k + 1])
  }

  ghost predicate ReachedFrom(functions: Functions, entry: Name, name: Name) {
    exists route :: IsRoute(functions, route) && route[0] == entry && route[|route| - 1] == name
  }

  // A function that is missing or holds a row the analysis refuses.
  ghost predicate Refused(functions: Functions, name: Name) {
    name !in functions || exists k: nat, e :: RowRefused(functions, name, k, e)
  }

  // Why the function is refused.
  ghost predicate RefusedFor(functions: Functions, name: Name, e: GraphError) {
    if name !in functions then e == MissingFunction else exists k: nat :: RowRefused(functions, name, k, e)
  }

  // The children of a function, once each and in order.
  ghost predicate Lists(functions: Functions, name: Name, children: seq<Name>) {
    && (forall c :: c in children <==> CallsTo(functions, name, c))
    && (forall i, j :: 0 <= i < j < |children| ==> Less(children[i], children[j]))
  }

  // The graph holds exactly the functions reached from the entry, none of them
  // refused, each with exactly its children.
  ghost predicate IsCallGraph(functions: Functions, entry: Name, graph: Graph) {
    && (forall n :: n in graph <==> ReachedFrom(functions, entry, n))
    && (forall n {:trigger n in graph} :: n in graph ==> !Refused(functions, n) && Lists(functions, n, graph[n]))
  }

  lemma EntryIsReached(functions: Functions, entry: Name)
    ensures ReachedFrom(functions, entry, entry)
  {
    assert IsRoute(functions, [entry]);
  }

  lemma RouteExtends(functions: Functions, entry: Name, a: Name, b: Name)
    requires ReachedFrom(functions, entry, a) && CallsTo(functions, a, b)
    ensures ReachedFrom(functions, entry, b)
  {
    var route :| IsRoute(functions, route) && route[0] == entry && route[|route| - 1] == a;
    var longer := route + [b];
    forall k | 0 <= k < |longer| - 1 ensures CallsTo(functions, longer[k], longer[k + 1]) {
      if k < |route| - 1 {
        assert CallsTo(functions, route[k], route[k + 1]);
      }
    }
    assert IsRoute(functions, longer) && longer[|longer| - 1] == b;
  }

  // ------------------------------------------------------------------------ children

  // Scans the rows of one function.
  method Children(functions: Functions, index: Index, name: Name) returns (r: Result<seq<Name>, GraphError>)
    requires name in functions && Indexes(functions, index) && NoOverlap(functions)
    ensures r.Err? <==> Refused(functions, name)
    ensures r.Err? ==> exists k: nat :: RowRefused(functions, name, k, r.error)
    ensures r.Ok? ==> Lists(functions, name, r.value)
  {
    var children: set<Name> := {};
    for k := 0 to |functions[name]|
      invariant forall i: nat, e :: i < k ==> !RowRefused(functions, name, i, e)
      invariant forall c :: c in children <==> exists i: nat :: i < k && CalleeIs(functions, name, i, c)
    {
      var callee := Callee(functions, index, name, k);
      CalleeSays(functions, index, name, k);
      if callee.Err? {
        return Err(callee.error);
      }
      if callee.value.Some? {
        assert CalleeIs(functions, name, k, callee.value.value);
        children := children + {callee.value.value};
      }
    }
    var listed := InOrder(children);
    forall c ensures c in listed <==> CallsTo(functions, name, c) {
      if CallsTo(functions, name, c) {
        var k: nat :| CalleeIs(functions, name, k, c);
      }
    }
    return Ok(listed);
  }

  // ------------------------------------------------------------------------ worklist

  ghost predicate Noted(functions: Functions, graph: Graph, pending: seq<Name>, n: Name)
    requires n in graph
  {
    && !Refused(functions, n) && Lists(functions, n, graph[n])
    && forall c :: c in graph[n] ==> c in graph || c in pending
  }

  ghost predicate Growing(functions: Functions, entry: Name, graph: Graph, pending: seq<Name>) {
    && (entry in graph || entry in pending)
    && (forall n :: n in graph || n in pending ==> ReachedFrom(functions, entry, n))
    && (forall n {:trigger Noted(functions, graph, pending, n)} :: n in graph ==> Noted(functions, graph, pending, n))
  }

  lemma KnownIsDropped(functions: Functions, entry: Name, graph: Graph, pending: seq<Name>, name: Name)
    requires Growing(functions, entry, graph, pending + [name]) && name in graph
    ensures Growing(functions, entry, graph, pending)
  {
    forall n | n in graph ensures Noted(functions, graph, pending, n) {
      assert Noted(functions, graph, pending + [name], n);
    }
    forall n | n in graph || n in pending ensures ReachedFrom(functions, entry, n) {
      assert n in graph || n in pending + [name];
    }
  }

  lemma FunctionIsEntered(functions: Functions, entry: Name, graph: Graph, pending: seq<Name>, name: Name, children: seq<Name>)
    requires Growing(functions, entry, graph, pending + [name]) && name !in graph
    requires !Refused(functions, name) && Lists(functions, name, children)
    ensures Growing(functions, entry, graph[name := children], pending + children)
  {
    var graph1, pending1 := graph[name := children], pending + children;
    forall n | n in graph1 ensures Noted(functions, graph1, pending1, n) {
      if n != name {
        assert Noted(functions, graph, pending + [name], n);
      }
    }
    assert ReachedFrom(functions, entry, name) by {
      assert (pending + [name])[|pending|] == name;
    }
    forall n | n in graph1 || n in pending1 ensures ReachedFrom(functions, entry, n) {
      if n in children {
        RouteExtends(functions, entry, name, n);
      } else if n != name {
        assert n in graph || n in pending + [name];
      }
    }
  }

  lemma {:induction false} RouteIsInGraph(functions: Functions, entry: Name, graph: Graph, route: seq<Name>)
    requires Growing(functions, entry, graph, []) && IsRoute(functions, route) && route[0] == entry
    ensures route[|route| - 1] in graph
  {
    if |route| > 1 {
      var before := route[..|route| - 1];
      RouteIsInGraph(functions, entry, graph, before);
      assert Noted(functions, graph, [], before[|before| - 1]);
      assert CallsTo(functions, route[|route| - 2], route[|route| - 1]);
    }
  }

  lemma GrownIsCallGraph(functions: Functions, entry: Name, graph: Graph)
    requires Growing(functions, entry, graph, [])
    ensures IsCallGraph(functions, entry, graph) && Closed(graph)
  {
    forall n ensures n in graph <==> ReachedFrom(functions, entry, n) {
      if ReachedFrom(functions, entry, n) {
        var route :| IsRoute(functions, route) && route[0] == entry && route[|route| - 1] == n;
        RouteIsInGraph(functions, entry, graph, route);
      }
    }
    forall n | n in graph ensures !Refused(functions, n) && Lists(functions, n, graph[n]) {
      assert Noted(functions, graph, [], n);
    }
    forall a, b | Calls(graph, a, b) ensures b in graph {
      assert Noted(functions, graph, [], a);
    }
  }

  // The worklist of `call_graph`: every function reached from the entry, or a
  // refusal of one that is.
  method CallGraph(functions: Functions, index: Index, entry: Name) returns (r: Result<Graph, GraphError>)
    requires Indexes(functions, index) && NoOverlap(functions)
    ensures r.Ok? ==> IsCallGraph(functions, entry, r.value) && Closed(r.value) && entry in r.value
    ensures r.Err? ==> exists n :: ReachedFrom(functions, entry, n) && RefusedFor(functions, n, r.error)
  {
    var graph: Graph := map[];
    var pending := [entry];
    EntryIsReached(functions, entry);
    while pending != []
      invariant Growing(functions, entry, graph, pending) && graph.Keys <= functions.Keys
      decreases functions.Keys - graph.Keys, |pending|
    {
      var name := pending[|pending| - 1];
      ghost var whole := pending;
      pending := pending[..|pending| - 1];
      assert whole == pending + [name];
      if name in graph {
        KnownIsDropped(functions, entry, graph, pending, name);
      } else {
        assert ReachedFrom(functions, entry, name);
        if name !in functions {
          assert Refused(functions, name);
          return Err(MissingFunction);
        }
        var children := Children(functions, index, name);
        if children.Err? {
          return Err(children.error);
        }
        FunctionIsEntered(functions, entry, graph, pending, name, children.value);
        assert name in functions.Keys - graph.Keys;
        graph := graph[name := children.value];
        pending := pending + children.value;
      }
    }
    GrownIsCallGraph(functions, entry, graph);
    return Ok(graph);
  }

  // -------------------------------------------------------------------- address index

  type Position = (Name, nat)

  // The owner table while rows are being entered into it.
  ghost predicate EnteredAt(functions: Functions, owners: map<nat, Name>, p: Position) {
    && p.0 in functions && p.1 < |functions[p.0]|
    && functions[p.0][p.1].address in owners && owners[functions[p.0][p.1].address] == p.0
  }

  ghost predicate OwnerEntered(functions: Functions, owners: map<nat, Name>, entered: set<Position>, address: nat)
    requires address in owners
  {
    exists k: nat :: (owners[address], k) in entered && Holds(functions, owners[address], k, address)
  }

  // Two rows with one address are one row.
  ghost predicate Apart(functions: Functions, p: Position, q: Position) {
    p.0 in functions && p.1 < |functions[p.0]| && Holds(functions, q.0, q.1, functions[p.0][p.1].address) ==> p == q
  }

  ghost predicate Owned(functions: Functions, owners: map<nat, Name>, entered: set<Position>) {
    && (forall p {:trigger EnteredAt(functions, owners, p)} :: p in entered ==> EnteredAt(functions, owners, p))
    && (forall address {:trigger OwnerEntered(functions, owners, entered, address)} :: address in owners ==>
          OwnerEntered(functions, owners, entered, address))
    && (forall p, q {:trigger Apart(functions, p, q)} :: p in entered && q in entered ==> Apart(functions, p, q))
  }

  lemma OneMoreOwned(functions: Functions, owners: map<nat, Name>, entered: set<Position>, name: Name, k: nat)
    requires Owned(functions, owners, entered) && name in functions && k < |functions[name]|
    requires functions[name][k].address !in owners
    ensures Owned(functions, owners[functions[name][k].address := name], entered + {(name, k)})
  {
    var address := functions[name][k].address;
    var owners1, entered1 := owners[address := name], entered + {(name, k)};
    forall p | p in entered1 ensures EnteredAt(functions, owners1, p) {
      if p in entered {
        assert EnteredAt(functions, owners, p);
      }
    }
    forall a | a in owners1 ensures OwnerEntered(functions, owners1, entered1, a) {
      if a == address {
        assert (name, k) in entered1 && Holds(functions, name, k, address);
      } else {
        assert OwnerEntered(functions, owners, entered, a);
        var i: nat :| (owners[a], i) in entered && Holds(functions, owners[a], i, a);
        assert (owners1[a], i) in entered1;
      }
    }
    forall p, q | p in entered1 && q in entered1 ensures Apart(functions, p, q) {
      if p in entered {
        assert EnteredAt(functions, owners, p);
      }
      if q in entered {
        assert EnteredAt(functions, owners, q);
      }
      if p in entered && q in entered {
        assert Apart(functions, p, q);
      }
    }
  }

  // All rows of the finished functions, and the first rows of the current one.
  ghost predicate EnteredAre(functions: Functions, entered: set<Position>, todo: set<Name>, current: Name, upTo: nat) {
    forall n, k: nat :: (n, k) in entered <==>
      n in functions && k < |functions[n]| && (n !in todo || (n == current && k < upTo))
  }

  lemma TakenAddressOverlaps(functions: Functions, owners: map<nat, Name>, entered: set<Position>, name: Name, k: nat)
    requires Owned(functions, owners, entered) && name in functions && k < |functions[name]|
    requires (name, k) !in entered && functions[name][k].address in owners
    ensures !NoOverlap(functions)
  {
    var address := functions[name][k].address;
    assert OwnerEntered(functions, owners, entered, address);
    var i: nat :| (owners[address], i) in entered && Holds(functions, owners[address], i, address);
    assert Holds(functions, name, k, address);
  }

  lemma OwnedIsIndex(functions: Functions, owners: map<nat, Name>, entered: set<Position>)
    requires Owned(functions, owners, entered)
    requires forall n, k: nat :: (n, k) in entered <==> n in functions && k < |functions[n]|
    ensures NoOverlap(functions) && Indexes(functions, Index(owners, Starts(functions, owners)))
  {
    forall a, i: nat, b, j: nat, address | Holds(functions, a, i, address) && Holds(functions, b, j, address)
      ensures a == b && i == j
    {
      assert (a, i) in entered && (b, j) in entered;
      assert Apart(functions, (a, i), (b, j));
    }
    forall name, k: nat, address | Holds(functions, name, k, address) ensures address in owners && owners[address] == name {
      assert (name, k) in entered;
      assert EnteredAt(functions, owners, (name, k));
    }
    forall address | address in owners ensures OwnerHolds(functions, owners, address) {
      assert OwnerEntered(functions, owners, entered, address);
    }
  }

  // The addresses that begin their owner.
  function Starts(functions: Functions, owners: map<nat, Name>): map<nat, Name> {
    map address | address in owners && Holds(functions, owners[address], 0, address) :: owners[address]
  }

  // Builds the index, or finds an address that occurs twice.
  method BuildIndex(functions: Functions) returns (r: Option<Index>)
    ensures r.Some? <==> NoOverlap(functions)
    ensures r.Some? ==> Indexes(functions, r.value)
  {
    var owners: map<nat, Name> := map[];
    var todo := functions.Keys;
    ghost var entered: set<Position> := {};
    while todo != {}
      invariant todo <= functions.Keys && Owned(functions, owners, entered)
      invariant EnteredAre(functions, entered, todo, [], 0)
      decreases todo
    {
      var name :| name in todo;
      var taken;
      taken, owners, entered := EnterFunction(functions, owners, entered, todo, name);
      if taken {
        return None;
      }
      todo := todo - {name};
    }
    OwnedIsIndex(functions, owners, entered);
    return Some(Index(owners, Starts(functions, owners)));
  }

  method EnterFunction(functions: Functions, owners0: map<nat, Name>, ghost entered0: set<Position>, ghost todo: set<Name>, name: Name)
    returns (taken: bool, owners: map<nat, Name>, ghost entered: set<Position>)
    requires name in todo && name in functions && Owned(functions, owners0, entered0) && EnteredAre(functions, entered0, todo, [], 0)
    ensures taken ==> !NoOverlap(functions)
    ensures !taken ==> Owned(functions, owners, entered) && EnteredAre(functions, entered, todo - {name}, [], 0)
  {
    owners, entered := owners0, entered0;
    for k := 0 to |functions[name]|
      invariant Owned(functions, owners, entered) && EnteredAre(functions, entered, todo, name, k)
    {
      var address := functions[name][k].address;
      if address in owners {
        TakenAddressOverlaps(functions, owners, entered, name, k);
        return true, owners, entered;
      }
      OneMoreOwned(functions, owners, entered, name, k);
      owners := owners[address := name];
      entered := entered + {(name, k)};
    }
    taken := false;
  }

  // ------------------------------------------------------------------------ the whole

  // Frames from compiler records where there are any, from the control flow otherwise.
  ghost predicate Framed(functions: Functions, compiled: map<Name, nat>, graph: Graph, frames: Frames) {
    forall n :: n in graph ==>
      && n in functions && n in frames
      && (n in compiled ==> frames[n] == compiled[n])
      && (n !in compiled ==> Bounds(functions[n], frames[n]))
  }

  method FrameSizes(functions: Functions, compiled: map<Name, nat>, graph: Graph) returns (frames: Result<Frames, FrameError>)
    requires graph.Keys <= functions.Keys && forall n :: n in functions ==> functions[n] != []
    ensures frames.Ok? ==> Framed(functions, compiled, graph, frames.value)
    ensures frames.Err? ==> exists n, at :: n in graph && n !in compiled && Blamed(functions[n], at, frames.error)
  {
    var sizes: Frames := map[];
    var todo := graph.Keys;
    while todo != {}
      invariant todo <= graph.Keys
      invariant forall n :: n in graph && n !in todo ==>
        && n in sizes && (n in compiled ==> sizes[n] == compiled[n]) && (n !in compiled ==> Bounds(functions[n], sizes[n]))
      decreases todo
    {
      var name :| name in todo;
      if name in compiled {
        sizes := sizes[name := compiled[name]];
      } else {
        var frame := DisassembledFrame(functions[name]);
        if frame.Err? {
          return Err(frame.error);
        }
        BoundIsNatural(functions[name], frame.value);
        sizes := sizes[name := frame.value];
      }
      todo := todo - {name};
    }
    return Ok(sizes);
  }

  lemma BoundIsNatural(rows: seq<Row>, maximum: int)
    requires Bounds(rows, maximum)
    ensures maximum >= 0
  {
    StartIsReached(rows);
  }

  // --------------------------------------------------------------------- stack usage

  // A function under execution at a row, with what it has taken off the stack.
  datatype Activation = Activation(name: Name, at: Point)

  // A compiled function is charged its recorded frame wherever it stands.
  function Weight(compiled: map<Name, nat>, a: Activation): int {
    if a.name in compiled then compiled[a.name] else a.at.depth
  }

  function Usage(compiled: map<Name, nat>, stack: seq<Activation>): int {
    if stack == [] then 0 else Weight(compiled, stack[0]) + Usage(compiled, stack[1..])
  }

  // The innermost function goes on: along its rows, or anywhere if it is compiled.
  ghost predicate Continues(functions: Functions, compiled: map<Name, nat>, a: Activation, b: Activation) {
    && a.name == b.name && a.name in functions
    && (a.name !in compiled ==> Follows(functions[a.name], a.at, b.at))
  }

  // One step of the binary: the innermost function goes on, transfers to another
  // function, or gives control back. It may give control back at any row, which
  // takes in every return and every way a function entered by a jump can end.
  ghost predicate Steps(functions: Functions, compiled: map<Name, nat>, a: seq<Activation>, b: seq<Activation>) {
    && a != [] && b != []
    && var outer, top := a[..|a| - 1], a[|a| - 1];
    || (b == outer + [b[|b| - 1]] && Continues(functions, compiled, top, b[|b| - 1]))
    || (b == a + [Activation(b[|b| - 1].name, Point(0, 0))] && CalleeIs(functions, top.name, top.at.index, b[|b| - 1].name))
    || b == outer
  }

  // The stacks of activations a run of the binary from the entry goes through.
  ghost predicate IsRun(functions: Functions, compiled: map<Name, nat>, entry: Name, run: seq<seq<Activation>>) {
    && run != [] && run[0] == [Activation(entry, Point(0, 0))]
    && forall k :: 0 <= k < |run| - 1 ==> Steps(functions, compiled, run[k], run[k + 1])
  }

  // Whatever the binary does, the active functions together stay within the total.
  ghost predicate UsageWithin(functions: Functions, compiled: map<Name, nat>, entry: Name, total: nat) {
    forall run :: IsRun(functions, compiled, entry, run) ==> Usage(compiled, run[|run| - 1]) <= total
  }

  function NamesOf(stack: seq<Activation>): (names: seq<Name>)
    ensures |names| == |stack|
  {
    seq(|stack|, i requires 0 <= i < |stack| => stack[i].name)
  }

  ghost predicate AtReached(functions: Functions, compiled: map<Name, nat>, a: Activation) {
    a.name !in compiled ==> a.name in functions && Reached(functions[a.name], a.at)
  }

  // The active functions form a call chain, each at a row its control flow reaches.
  ghost predicate IsStack(functions: Functions, compiled: map<Name, nat>, graph: Graph, entry: Name, stack: seq<Activation>) {
    && ChainFrom(graph, entry, NamesOf(stack))
    && forall k :: 0 <= k < |stack| ==> AtReached(functions, compiled, stack[k])
  }

  lemma ChainPrefix(graph: Graph, chain: seq<Name>, n: nat)
    requires IsChain(graph, chain) && 0 < n <= |chain|
    ensures IsChain(graph, chain[..n])
  {
    forall k | 0 <= k < n - 1 ensures Calls(graph, chain[..n][k], chain[..n][k + 1]) {
      assert Calls(graph, chain[k], chain[k + 1]);
    }
  }

  lemma StackContinues(functions: Functions, compiled: map<Name, nat>, graph: Graph, entry: Name, a: seq<Activation>, next: Activation)
    requires IsStack(functions, compiled, graph, entry, a) && Continues(functions, compiled, a[|a| - 1], next)
    ensures IsStack(functions, compiled, graph, entry, a[..|a| - 1] + [next])
  {
    var top := a[|a| - 1];
    assert NamesOf(a[..|a| - 1] + [next]) == NamesOf(a);
    assert AtReached(functions, compiled, top);
    if next.name !in compiled {
      FlowExtends(functions[top.name], top.at, next.at);
    }
  }

  lemma StackEnters(functions: Functions, compiled: map<Name, nat>, graph: Graph, entry: Name, a: seq<Activation>, callee: Name)
    requires IsCallGraph(functions, entry, graph) && IsStack(functions, compiled, graph, entry, a)
    requires CalleeIs(functions, a[|a| - 1].name, a[|a| - 1].at.index, callee)
    requires a[|a| - 1].name in graph && callee in functions
    ensures IsStack(functions, compiled, graph, entry, a + [Activation(callee, Point(0, 0))])
  {
    assert CallsTo(functions, a[|a| - 1].name, callee);
    ChainSnoc(graph, NamesOf(a), callee);
    assert NamesOf(a + [Activation(callee, Point(0, 0))]) == NamesOf(a) + [callee];
    StartIsReached(functions[callee]);
  }

  lemma StackLeaves(functions: Functions, compiled: map<Name, nat>, graph: Graph, entry: Name, a: seq<Activation>)
    requires IsStack(functions, compiled, graph, entry, a) && |a| > 1
    ensures IsStack(functions, compiled, graph, entry, a[..|a| - 1])
  {
    ChainPrefix(graph, NamesOf(a), |a| - 1);
    assert NamesOf(a[..|a| - 1]) == NamesOf(a)[..|a| - 1];
  }

  lemma TopIsInGraph(functions: Functions, graph: Graph, entry: Name, chain: seq<Name>)
    requires IsCallGraph(functions, entry, graph) && Closed(graph) && ChainFrom(graph, entry, chain)
    ensures chain[|chain| - 1] in graph && chain[|chain| - 1] in functions
  {
    EntryIsReached(functions, entry);
    ClosedChainStays(graph, chain);
    assert !Refused(functions, chain[|chain| - 1]);
  }

  lemma StepKeepsStack(functions: Functions, compiled: map<Name, nat>, graph: Graph, entry: Name, a: seq<Activation>, b: seq<Activation>)
    requires IsCallGraph(functions, entry, graph) && Closed(graph)
    requires IsStack(functions, compiled, graph, entry, a) && Steps(functions, compiled, a, b)
    ensures IsStack(functions, compiled, graph, entry, b)
  {
    var outer, top, next := a[..|a| - 1], a[|a| - 1], b[|b| - 1];
    TopIsInGraph(functions, graph, entry, NamesOf(a));
    if b == outer + [next] && Continues(functions, compiled, top, next) {
      StackContinues(functions, compiled, graph, entry, a, next);
    } else if b == outer {
      StackLeaves(functions, compiled, graph, entry, a);
    } else {
      assert CallsTo(functions, top.name, next.name) && Calls(graph, top.name, next.name);
      assert !Refused(functions, next.name);
      StackEnters(functions, compiled, graph, entry, a, next.name);
    }
  }

  lemma {:induction false} RunKeepsStack(functions: Functions, compiled: map<Name, nat>, graph: Graph, entry: Name, run: seq<seq<Activation>>)
    requires IsCallGraph(functions, entry, graph) && Closed(graph) && IsRun(functions, compiled, entry, run)
    ensures IsStack(functions, compiled, graph, entry, run[|run| - 1])
  {
    if |run| == 1 {
      EntryIsReached(functions, entry);
      assert entry in graph && !Refused(functions, entry);
      StartIsReached(functions[entry]);
      assert NamesOf(run[0]) == [entry];
    } else {
      var before := run[..|run| - 1];
      RunKeepsStack(functions, compiled, graph, entry, before);
      assert Steps(functions, compiled, run[|run| - 2], run[|run| - 1]);
      StepKeepsStack(functions, compiled, graph, entry, run[|run| - 2], run[|run| - 1]);
    }
  }

  lemma WeightIsFramed(functions: Functions, compiled: map<Name, nat>, frames: Frames, graph: Graph, a: Activation)
    requires Framed(functions, compiled, graph, frames) && AtReached(functions, compiled, a) && a.name in graph
    ensures Weight(compiled, a) <= FrameOf(frames, a.name)
  {
  }

  ghost predicate AllInGraph(functions: Functions, compiled: map<Name, nat>, graph: Graph, stack: seq<Activation>) {
    forall k :: 0 <= k < |stack| ==> AtReached(functions, compiled, stack[k]) && stack[k].name in graph
  }

  lemma NamesTail(stack: seq<Activation>)
    requires stack != []
    ensures NamesOf(stack)[0] == stack[0].name && NamesOf(stack)[1..] == NamesOf(stack[1..])
  {
  }

  lemma {:induction false} UsageIsFramed(functions: Functions, compiled: map<Name, nat>, frames: Frames, graph: Graph, stack: seq<Activation>)
    requires Framed(functions, compiled, graph, frames) && AllInGraph(functions, compiled, graph, stack)
    ensures Usage(compiled, stack) <= Sum(frames, NamesOf(stack))
  {
    if stack != [] {
      var top, rest := stack[0], stack[1..];
      forall k | 0 <= k < |rest| ensures AtReached(functions, compiled, rest[k]) && rest[k].name in graph {
        assert rest[k] == stack[k + 1];
      }
      UsageIsFramed(functions, compiled, frames, graph, rest);
      WeightIsFramed(functions, compiled, frames, graph, top);
      NamesTail(stack);
    }
  }

  // The total of the analysis bounds every run of the binary.
  lemma WorstBoundsUsage(functions: Functions, compiled: map<Name, nat>, graph: Graph, frames: Frames, entry: Name,
                         total: nat, chain: seq<Name>)
    requires IsCallGraph(functions, entry, graph) && Closed(graph)
    requires Framed(functions, compiled, graph, frames) && Worst(graph, frames, entry, total, chain)
    ensures UsageWithin(functions, compiled, entry, total)
  {
    EntryIsReached(functions, entry);
    forall run: seq<seq<Activation>> | IsRun(functions, compiled, entry, run) ensures Usage(compiled, run[|run| - 1]) <= total {
      var stack := run[|run| - 1];
      RunKeepsStack(functions, compiled, graph, entry, run);
      ClosedChainStays(graph, NamesOf(stack));
      forall k | 0 <= k < |stack| ensures stack[k].name in graph {
        assert NamesOf(stack)[k] in graph;
      }
      UsageIsFramed(functions, compiled, frames, graph, stack);
    }
  }

  datatype AnalysisError = Overlapping | RefusedCall(call: GraphError) | UnboundedFrame(frame: FrameError) | RecursiveCalls

  // `analyze`: the total and chain it reports are worst over the real call graph
  // of the entry and real frames; each failure says what some row or chain is at
  // fault for.
  method Analyze(functions: Functions, compiled: map<Name, nat>, entry: Name)
    returns (r: Result<(nat, seq<Name>), AnalysisError>, ghost graph: Graph, ghost frames: Frames)
    requires forall n :: n in functions ==> functions[n] != []
    ensures r == Err(Overlapping) <==> !NoOverlap(functions)
    ensures r.Err? && r.error.RefusedCall? ==> exists n :: ReachedFrom(functions, entry, n) && RefusedFor(functions, n, r.error.call)
    ensures r.Ok? || r.error.UnboundedFrame? || r.error.RecursiveCalls? ==> IsCallGraph(functions, entry, graph)
    ensures r.Err? && r.error.UnboundedFrame? ==>
      exists n, at :: n in graph && n in functions && n !in compiled && Blamed(functions[n], at, r.error.frame)
    ensures r == Err(RecursiveCalls) ==> Recursive(graph, entry)
    ensures r.Ok? ==> Framed(functions, compiled, graph, frames) && Worst(graph, frames, entry, r.value.0, r.value.1)
    ensures r.Ok? ==> UsageWithin(functions, compiled, entry, r.value.0)
  {
    graph, frames := map[], map[];
    var built := BuildIndex(functions);
    if built.None? {
      return Err(Overlapping), graph, frames;
    }
    var called := CallGraph(functions, built.value, entry);
    if called.Err? {
      return Err(RefusedCall(called.error)), graph, frames;
    }
    graph := called.value;
    forall n | n in called.value ensures n in functions {
      assert !Refused(functions, n);
    }
    var sizes := FrameSizes(functions, compiled, called.value);
    if sizes.Err? {
      return Err(UnboundedFrame(sizes.error)), graph, frames;
    }
    frames := sizes.value;
    var bound := StackBoundOf(called.value, sizes.value, entry);
    if bound.None? {
      return Err(RecursiveCalls), graph, frames;
    }
    WorstBoundsUsage(functions, compiled, graph, frames, entry, bound.value.0, bound.value.1);
    return Ok(bound.value), graph, frames;
  }
}
