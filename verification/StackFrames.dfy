// Stack-pointer tracking over the control flow of one function
// (scripts/analyze-riscv-stack.py).
module StackFrames {
  import opened Wrappers

  // One disassembled instruction. `target` is the destination written in its
  // operands, when there is one; `paired` also resolves an address built by the
  // preceding instruction.
  datatype Operation = AdjustStack(delta: int) | OtherStackWrite | Return(operands: bool) | Jump | Branch | Call | Trap | Other

  datatype Row = Row(address: nat, operation: Operation, target: Option<nat>, paired: Option<nat>)

  datatype FrameError =
    | InconsistentDepth | UnsupportedStackWrite | UnbalancedStack | ReturnUnbalanced | UnresolvedTransfer | UnexpectedFallthrough

  // --------------------------------------------------------------- one instruction

  // The row table keeps the last row of an address.
  function RowOf(rows: seq<Row>, address: nat): (index: Option<nat>)
    ensures index.Some? ==> index.value < |rows| && rows[index.value].address == address
    ensures index.Some? ==> forall k :: index.value < k < |rows| ==> rows[k].address != address
    ensures index.None? ==> forall k :: 0 <= k < |rows| ==> rows[k].address != address
  {
    if rows == [] then None
    else if rows[|rows| - 1].address == address then Some(|rows| - 1)
    else RowOf(rows[..|rows| - 1], address)
  }

  function DepthAfter(row: Row, depth: int): Result<int, FrameError> {
    match row.operation
    case OtherStackWrite => Err(UnsupportedStackWrite)
    case AdjustStack(delta) => if depth - delta < 0 || (depth - delta) % 16 != 0 then Err(UnbalancedStack) else Ok(depth - delta)
    case _ => Ok(depth)
  }

  // Where control may go next inside the function, in the order it is queued.
  function Successors(rows: seq<Row>, index: nat): (next: Result<seq<nat>, FrameError>)
    requires index < |rows|
    ensures next.Ok? ==> forall k :: 0 <= k < |next.value| ==> next.value[k] < |rows|
  {
    var row := rows[index];
    var transfers := row.operation.Jump? || row.operation.Branch?;
    if row.operation.Return? then Ok([])
    else if transfers && row.target.None? then Err(UnresolvedTransfer)
    else
      var jumped := if transfers then Listed(RowOf(rows, row.target.value)) else [];
      if row.operation.Jump? then Ok(jumped)
      else if index + 1 < |rows| then Ok(jumped + [index + 1])
      else if row.operation.Call? then Ok(jumped)
      else Err(UnexpectedFallthrough)
  }

  // A row about to execute at a depth.
  datatype Point = Point(index: nat, depth: int)

  // Executing a row: the depth it leaves and the rows that may follow.
  function Visit(rows: seq<Row>, at: Point): (r: Result<(int, seq<nat>), FrameError>)
    requires at.index < |rows|
    ensures r.Ok? ==> forall k :: 0 <= k < |r.value.1| ==> r.value.1[k] < |rows|
  {
    var depth := DepthAfter(rows[at.index], at.depth);
    if depth.Err? then Err(depth.error)
    else if rows[at.index].operation.Return? && depth.value != 0 then Err(ReturnUnbalanced)
    else
      var next := Successors(rows, at.index);
      if next.Err? then Err(next.error) else Ok((depth.value, next.value))
  }

  // ------------------------------------------------------------------ specification

  // The row an address names: the last one there.
  predicate IsAt(rows: seq<Row>, k: nat, address: nat) {
    k < |rows| && rows[k].address == address && forall j :: k < j < |rows| ==> rows[j].address != address
  }

  // What is on the stack after the row: an adjustment moves the stack pointer by
  // `delta`, and downwards is deeper.
  function Left(row: Row, depth: int): int {
    depth - (if row.operation.AdjustStack? then row.operation.delta else 0)
  }

  // Where the machine may go next: a return goes nowhere, a jump to its target, a
  // branch to its target or the next row, anything else to the next row. Targets
  // outside the function are not followed.
  predicate Follows(rows: seq<Row>, a: Point, b: Point) {
    a.index < |rows| && b.depth == Left(rows[a.index], a.depth) && LeadsTo(rows, a.index, b.index)
  }

  predicate LeadsTo(rows: seq<Row>, index: nat, next: nat)
    requires index < |rows|
  {
    && next < |rows|
    && var target := rows[index].target;
    match rows[index].operation
    case Return(_) => false
    case Jump => target.Some? && IsAt(rows, next, target.value)
    case Branch => target.Some? && (IsAt(rows, next, target.value) || next == index + 1)
    case _ => next == index + 1
  }

  // What is wrong with executing a row at a depth.
  predicate Wrong(rows: seq<Row>, at: Point, e: FrameError) {
    && at.index < |rows|
    && var row := rows[at.index];
    match e
    case UnsupportedStackWrite => row.operation.OtherStackWrite?
    case UnbalancedStack => row.operation.AdjustStack? && (Left(row, at.depth) < 0 || Left(row, at.depth) % 16 != 0)
    case ReturnUnbalanced => row.operation.Return? && at.depth != 0
    case UnresolvedTransfer => (row.operation.Jump? || row.operation.Branch?) && row.target.None?
    case UnexpectedFallthrough =>
      at.index + 1 == |rows| && !row.operation.Return? && !row.operation.Jump? && !row.operation.Call?
    case InconsistentDepth => false
  }

  ghost predicate Fails(rows: seq<Row>, at: Point) {
    exists e :: Wrong(rows, at, e)
  }

  // Executing a row fails exactly when something is wrong with it, as the error
  // says, and otherwise it is followed by exactly where the machine may go.
  lemma VisitSays(rows: seq<Row>, at: Point)
    requires at.index < |rows|
    ensures Visit(rows, at).Ok? <==> !Fails(rows, at)
    ensures Visit(rows, at).Err? ==> Wrong(rows, at, Visit(rows, at).error)
    ensures Visit(rows, at).Ok? ==> Visit(rows, at).value.0 == Left(rows[at.index], at.depth)
    ensures Visit(rows, at).Ok? ==>
      forall b :: Follows(rows, at, b) <==> b.index in Visit(rows, at).value.1 && b.depth == Visit(rows, at).value.0
  {
    VisitFails(rows, at);
    if Visit(rows, at).Ok? {
      forall b: Point ensures LeadsTo(rows, at.index, b.index) <==> b.index in Visit(rows, at).value.1 {
        SuccessorsSay(rows, at.index, b.index);
      }
    }
  }

  lemma VisitFails(rows: seq<Row>, at: Point)
    requires at.index < |rows|
    ensures Visit(rows, at).Ok? <==> !Fails(rows, at)
    ensures Visit(rows, at).Err? ==> Wrong(rows, at, Visit(rows, at).error)
    ensures Visit(rows, at).Ok? ==> Visit(rows, at).value.0 == Left(rows[at.index], at.depth)
  {
    if Visit(rows, at).Err? {
      assert Wrong(rows, at, Visit(rows, at).error);
    }
  }

  lemma SuccessorsSay(rows: seq<Row>, index: nat, next: nat)
    requires index < |rows| && Successors(rows, index).Ok?
    ensures LeadsTo(rows, index, next) <==> next in Successors(rows, index).value
  {
    var row := rows[index];
    if row.target.Some? {
      TargetIsLast(rows, row.target.value, next);
    }
  }

  lemma TargetIsLast(rows: seq<Row>, address: nat, k: nat)
    ensures IsAt(rows, k, address) <==> RowOf(rows, address) == Some(k)
  {
  }

  ghost predicate IsFlow(rows: seq<Row>, path: seq<Point>) {
    && path != [] && path[0] == Point(0, 0)
    && forall k :: 0 <= k < |path| - 1 ==> Follows(rows, path[k], path[k + 1])
  }

  // Some control-flow path from the first row leads to this point.
  ghost predicate Reached(rows: seq<Row>, at: Point) {
    exists path :: IsFlow(rows, path) && path[|path| - 1] == at
  }

  lemma FlowExtends(rows: seq<Row>, a: Point, b: Point)
    requires Reached(rows, a) && Follows(rows, a, b)
    ensures Reached(rows, b)
  {
    var path :| IsFlow(rows, path) && path[|path| - 1] == a;
    var longer := path + [b];
    forall k | 0 <= k < |longer| - 1 ensures Follows(rows, longer[k], longer[k + 1]) {
      if k < |path| - 1 {
        assert Follows(rows, path[k], path[k + 1]);
      }
    }
    assert IsFlow(rows, longer) && longer[|longer| - 1] == b;
  }

  // Its row is reached at another depth too.
  ghost predicate Conflicts(rows: seq<Row>, at: Point) {
    exists other :: Reached(rows, other) && other.index == at.index && other.depth != at.depth
  }

  // A reached point that cannot be executed, or whose row is reached at two depths.
  ghost predicate Faulty(rows: seq<Row>, at: Point) {
    Reached(rows, at) && at.index < |rows| && (Fails(rows, at) || Conflicts(rows, at))
  }

  // What the error says of a reached point.
  ghost predicate Blamed(rows: seq<Row>, at: Point, e: FrameError) {
    Reached(rows, at) && at.index < |rows| && if e == InconsistentDepth then Conflicts(rows, at) else Wrong(rows, at, e)
  }

  // Every reached point executes, at one depth per row, between 0 and the bound
  // and aligned; the bound is attained unless it is 0.
  ghost predicate Bounds(rows: seq<Row>, maximum: int) {
    && (forall at :: Reached(rows, at) ==> at.index < |rows| && !Fails(rows, at))
    && (forall at :: Reached(rows, at) ==> 0 <= at.depth <= maximum && at.depth % 16 == 0)
    && (forall at :: Reached(rows, at) ==> 0 <= Left(rows[at.index], at.depth) <= maximum && Left(rows[at.index], at.depth) % 16 == 0)
    && (forall a, b :: Reached(rows, a) && Reached(rows, b) && a.index == b.index ==> a.depth == b.depth)
    && (maximum == 0 || exists at :: Reached(rows, at) && Left(rows[at.index], at.depth) == maximum)
  }

  // ---------------------------------------------------------------------- worklist

  // The point is queued or already recorded.
  predicate Covered(states: map<nat, int>, pending: seq<Point>, at: Point) {
    at in pending || (at.index in states && states[at.index] == at.depth)
  }

  predicate InRange(depth: int, maximum: int) {
    0 <= depth <= maximum && depth % 16 == 0
  }

  ghost predicate Queued(rows: seq<Row>, maximum: int, at: Point) {
    Reached(rows, at) && at.index < |rows| && InRange(at.depth, maximum)
  }

  // A recorded row: reached, executed, within the bound, and followed up.
  ghost predicate Recorded(rows: seq<Row>, states: map<nat, int>, pending: seq<Point>, maximum: int, at: Point) {
    && Queued(rows, maximum, at)
    && !Fails(rows, at) && InRange(Left(rows[at.index], at.depth), maximum)
    && forall next :: Follows(rows, at, next) ==> Covered(states, pending, next)
  }

  ghost predicate Attained(rows: seq<Row>, maximum: int) {
    maximum == 0 || exists at :: Reached(rows, at) && at.index < |rows| && Left(rows[at.index], at.depth) == maximum
  }

  ghost predicate Exploring(rows: seq<Row>, states: map<nat, int>, pending: seq<Point>, maximum: int) {
    && Covered(states, pending, Point(0, 0))
    && (forall k :: 0 <= k < |pending| ==> Queued(rows, maximum, pending[k]))
    && (forall i {:trigger i in states} :: i in states ==> Recorded(rows, states, pending, maximum, Point(i, states[i])))
    && Attained(rows, maximum)
  }

  function PointsAt(next: seq<nat>, depth: int): (points: seq<Point>)
    ensures |points| == |next| && forall k :: 0 <= k < |next| ==> points[k] == Point(next[k], depth)
  {
    seq(|next|, k requires 0 <= k < |next| => Point(next[k], depth))
  }

  lemma VisitedIsInRange(rows: seq<Row>, at: Point, maximum: int)
    requires Queued(rows, maximum, at) && Visit(rows, at).Ok?
    ensures 0 <= Visit(rows, at).value.0 && Visit(rows, at).value.0 % 16 == 0
  {
  }

  // Dropping a repeated point from the queue loses nothing.
  lemma RepeatedPointDrops(rows: seq<Row>, states: map<nat, int>, pending: seq<Point>, maximum: int, at: Point)
    requires Exploring(rows, states, pending + [at], maximum)
    requires at.index in states && states[at.index] == at.depth
    ensures Exploring(rows, states, pending, maximum)
  {
    var all := pending + [at];
    forall k | 0 <= k < |pending| ensures Queued(rows, maximum, pending[k]) {
      assert Queued(rows, maximum, all[k]);
    }
    forall i | i in states ensures Recorded(rows, states, pending, maximum, Point(i, states[i])) {
      CoverMoves(rows, states, all, states, pending, maximum, maximum, Point(i, states[i]));
    }
  }

  // A recorded row stays recorded when everything covered stays covered.
  lemma CoverMoves(rows: seq<Row>, states: map<nat, int>, pending: seq<Point>, states1: map<nat, int>, pending1: seq<Point>,
                   maximum: int, maximum1: int, at: Point)
    requires Recorded(rows, states, pending, maximum, at) && maximum <= maximum1
    requires forall p :: Covered(states, pending, p) ==> Covered(states1, pending1, p)
    ensures Recorded(rows, states1, pending1, maximum1, at)
  {
  }

  // Recording a new row and queueing what follows keeps the exploration sound.
  lemma NewPointRecords(rows: seq<Row>, states: map<nat, int>, pending: seq<Point>, maximum: int, at: Point)
    requires Exploring(rows, states, pending + [at], maximum)
    requires at.index !in states && at.index < |rows| && Visit(rows, at).Ok?
    ensures var depth, next := Visit(rows, at).value.0, Visit(rows, at).value.1;
      Exploring(rows, states[at.index := at.depth], pending + PointsAt(next, depth), if depth > maximum then depth else maximum)
  {
    var all := pending + [at];
    var depth, next := Visit(rows, at).value.0, Visit(rows, at).value.1;
    var states1, pending1 := states[at.index := at.depth], pending + PointsAt(next, depth);
    var maximum1 := if depth > maximum then depth else maximum;
    assert all[|pending|] == at && Queued(rows, maximum, at);
    VisitedIsInRange(rows, at, maximum);
    VisitSays(rows, at);
    forall p | Covered(states, all, p) ensures Covered(states1, pending1, p) {
    }
    forall k | 0 <= k < |pending1| ensures Queued(rows, maximum1, pending1[k]) {
      if k < |pending| {
        assert Queued(rows, maximum, all[k]);
      } else {
        assert pending1[k] == PointsAt(next, depth)[k - |pending|];
        FlowExtends(rows, at, pending1[k]);
      }
    }
    forall i | i in states1 ensures Recorded(rows, states1, pending1, maximum1, Point(i, states1[i])) {
      if i in states {
        CoverMoves(rows, states, all, states1, pending1, maximum, maximum1, Point(i, states[i]));
      } else {
        NextAreQueued(rows, at, states1, pending, next, depth);
      }
    }
  }

  lemma NextAreQueued(rows: seq<Row>, at: Point, states: map<nat, int>, pending: seq<Point>, next: seq<nat>, depth: int)
    requires at.index < |rows| && Visit(rows, at) == Ok((depth, next))
    ensures forall p :: Follows(rows, at, p) ==> Covered(states, pending + PointsAt(next, depth), p)
  {
    VisitSays(rows, at);
    forall p | Follows(rows, at, p) ensures Covered(states, pending + PointsAt(next, depth), p) {
      var k :| 0 <= k < |next| && next[k] == p.index;
      assert PointsAt(next, depth)[k] == p;
      assert (pending + PointsAt(next, depth))[|pending| + k] == p;
    }
  }

  // With an empty queue, every reached point is recorded.
  lemma {:induction false} FlowIsRecorded(rows: seq<Row>, states: map<nat, int>, maximum: int, path: seq<Point>)
    requires Exploring(rows, states, [], maximum) && IsFlow(rows, path)
    ensures var at := path[|path| - 1]; at.index in states && states[at.index] == at.depth
  {
    if |path| > 1 {
      var before := path[..|path| - 1];
      FlowIsRecorded(rows, states, maximum, before);
      var at := before[|before| - 1];
      assert Follows(rows, at, path[|path| - 1]);
      assert Recorded(rows, states, [], maximum, Point(at.index, states[at.index]));
      assert Covered(states, [], path[|path| - 1]);
    }
  }

  lemma ReachedIsRecorded(rows: seq<Row>, states: map<nat, int>, maximum: int, at: Point)
    requires Exploring(rows, states, [], maximum) && Reached(rows, at)
    ensures at.index in states && states[at.index] == at.depth && Recorded(rows, states, [], maximum, at)
  {
    var path :| IsFlow(rows, path) && path[|path| - 1] == at;
    FlowIsRecorded(rows, states, maximum, path);
    assert Point(at.index, states[at.index]) == at;
  }

  lemma ExploredBounds(rows: seq<Row>, states: map<nat, int>, maximum: int)
    requires Exploring(rows, states, [], maximum)
    ensures Bounds(rows, maximum)
  {
    forall at | Reached(rows, at)
      ensures at.index < |rows| && !Fails(rows, at) && InRange(at.depth, maximum) && InRange(Left(rows[at.index], at.depth), maximum)
      ensures at.index in states && states[at.index] == at.depth
    {
      ReachedIsRecorded(rows, states, maximum, at);
    }
  }

  function Unrecorded(rows: seq<Row>, states: map<nat, int>): set<nat> {
    set i: nat | i < |rows| && i !in states
  }

  // Every reached return leaves the stack as it found it.
  ghost predicate ReturnsBalanced(rows: seq<Row>) {
    forall at :: Reached(rows, at) && at.index < |rows| && rows[at.index].operation.Return? ==> at.depth == 0
  }

  // `disassembled_frame`: it returns a bound exactly when the control flow has one,
  // and raises exactly when some reached point is at fault.
  method DisassembledFrame(rows: seq<Row>) returns (frame: Result<int, FrameError>)
    requires rows != []
    ensures frame.Ok? ==> Bounds(rows, frame.value) && ReturnsBalanced(rows)
    ensures frame.Ok? <==> exists maximum :: Bounds(rows, maximum)
    ensures frame.Err? <==> exists at :: Faulty(rows, at)
    ensures frame.Err? ==> exists at :: Blamed(rows, at, frame.error)
  {
    var states: map<nat, int> := map[];
    var pending := [Point(0, 0)];
    var maximum := 0;
    StartIsReached(rows);
    while pending != []
      invariant Exploring(rows, states, pending, maximum)
      decreases Unrecorded(rows, states), |pending|
    {
      var at := pending[|pending| - 1];
      ghost var whole := pending;
      pending := pending[..|pending| - 1];
      assert whole == pending + [at];
      assert Queued(rows, maximum, whole[|pending|]);
      if at.index in states {
        if states[at.index] != at.depth {
          ConflictIsFaulty(rows, states, whole, maximum, at);
          assert Blamed(rows, at, InconsistentDepth);
          FaultyHasNoBound(rows, at);
          return Err(InconsistentDepth);
        }
        RepeatedPointDrops(rows, states, pending, maximum, at);
      } else {
        var visit := Visit(rows, at);
        VisitSays(rows, at);
        if visit.Err? {
          assert Faulty(rows, at) && Blamed(rows, at, visit.error);
          FaultyHasNoBound(rows, at);
          return Err(visit.error);
        }
        NewPointRecords(rows, states, pending, maximum, at);
        assert at.index in Unrecorded(rows, states);
        states := states[at.index := at.depth];
        maximum := if visit.value.0 > maximum then visit.value.0 else maximum;
        pending := pending + PointsAt(visit.value.1, visit.value.0);
      }
    }
    ExploredBounds(rows, states, maximum);
    BoundedHasNoFault(rows, maximum);
    return Ok(maximum);
  }

  lemma StartIsReached(rows: seq<Row>)
    ensures Reached(rows, Point(0, 0))
  {
    assert IsFlow(rows, [Point(0, 0)]);
  }

  lemma ConflictIsFaulty(rows: seq<Row>, states: map<nat, int>, pending: seq<Point>, maximum: int, at: Point)
    requires Exploring(rows, states, pending, maximum) && Queued(rows, maximum, at)
    requires at.index in states && states[at.index] != at.depth
    ensures Faulty(rows, at) && Conflicts(rows, at)
  {
    var other := Point(at.index, states[at.index]);
    assert Recorded(rows, states, pending, maximum, other);
  }

  // A bound and a fault exclude each other, so the method decides which holds.
  lemma FaultyHasNoBound(rows: seq<Row>, at: Point)
    requires Faulty(rows, at)
    ensures !exists maximum :: Bounds(rows, maximum)
  {
  }

  lemma BoundedHasNoFault(rows: seq<Row>, maximum: int)
    requires Bounds(rows, maximum)
    ensures ReturnsBalanced(rows) && !exists at :: Faulty(rows, at)
  {
    forall at | Reached(rows, at) && at.index < |rows| && rows[at.index].operation.Return? ensures at.depth == 0 {
      assert !Wrong(rows, at, ReturnUnbalanced);
    }
  }

  // The bound is determined by the function's control flow.
  lemma BoundIsUnique(rows: seq<Row>, a: int, b: int)
    requires Bounds(rows, a) && Bounds(rows, b)
    ensures a == b
  {
    StartIsReached(rows);
  }
}
