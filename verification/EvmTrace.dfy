/** The contract run one step at a time on an explicit stack, with saved states for rollback, and
    the proof that the call-tree semantics visits exactly the states this machine does. */
module EvmTrace {
  import opened EvmJournal
  import opened Settlement
  import opened EvmEscrow
  import opened EvmRuns

  /** What is left to do: a call, the return of a payout, or the end of a foreign frame. The last
      two carry the state to go back to if what they close has failed. */
  datatype Task =
    | Do(call: Call)
    | Return(before: Contract, accepts: bool)
    | Leave(before: Contract, reverts: bool)

  datatype Machine = Machine(now: Contract, todo: seq<Task>)

  function Tasks(calls: seq<Call>): (r: seq<Task>)
    ensures |r| == |calls|
  {
    if calls == [] then [] else [Do(calls[0])] + Tasks(calls[1..])
  }

  /** Marks the escrow settled, moves the ether and enters the payee's code; without the ether the
      call reverts. */
  function Enter(s: Contract, id: nat, record: Event<nat, Address>, payee: Payee, rest: seq<Task>): Machine {
    if s.balance < Slot(s, id).amount then Machine(s, rest)
    else Machine(PayingOut(s, id, record), Tasks(payee.calls) + ([Return(s, payee.accepts)] + rest))
  }

  /** One step. */
  function Next(d: Deployment, m: Machine): Machine
    requires m.todo != []
  {
    var s, rest := m.now, m.todo[1..];
    match m.todo[0]
    case Do(Create(caller, value, recipient, finishAfter, cancelAfter, conditionId)) =>
      Machine(CreateStep(s, caller, value, recipient, finishAfter, cancelAfter, conditionId).after, rest)
    case Do(Finish(caller, id, seal, journal, payee)) =>
      if FinishGuard(d, s, caller, id, seal, journal).Fail? then Machine(s, rest)
      else Enter(s, id, FinishRecord(s, id, seal, journal), payee, rest)
    case Do(Cancel(caller, id, payee)) =>
      if CancelGuard(s, caller, id).Fail? then Machine(s, rest)
      else Enter(s, id, CancelRecord(s, id), payee, rest)
    case Do(Force(ether)) => Machine(s.(balance := s.balance + ether, forced := s.forced + ether), rest)
    case Do(Frame(calls, reverts)) => Machine(s, Tasks(calls) + ([Leave(s, reverts)] + rest))
    case Return(before, accepts) => Machine(if accepts then s.(entered := false) else before, rest)
    case Leave(before, reverts) => Machine(if reverts then before else s, rest)
  }

  // ---------------------------------------------------------------- the machine stops

  function Weight(c: Call): nat
    decreases c, 1
  {
    match c
    case Create(_, _, _, _, _, _) => 1
    case Finish(_, _, _, _, payee) => 2 + WeightAll(payee.calls)
    case Cancel(_, _, payee) => 2 + WeightAll(payee.calls)
    case Force(_) => 1
    case Frame(calls, _) => 2 + WeightAll(calls)
  }

  function WeightAll(calls: seq<Call>): nat
    decreases calls, 0
  {
    if calls == [] then 0 else Weight(calls[0]) + WeightAll(calls[1..])
  }

  /** The steps left. */
  function Load(todo: seq<Task>): nat {
    if todo == [] then 0
    else (if todo[0].Do? then Weight(todo[0].call) else 1) + Load(todo[1..])
  }

  lemma LoadOnto(task: Task, rest: seq<Task>)
    ensures Load([task] + rest) == (if task.Do? then Weight(task.call) else 1) + Load(rest)
  {
    assert ([task] + rest)[1..] == rest;
  }

  lemma {:induction false} LoadOfTasks(calls: seq<Call>, rest: seq<Task>)
    ensures Load(Tasks(calls) + rest) == WeightAll(calls) + Load(rest)
  {
    hide Weight, Load;
    if calls == [] {
      assert Tasks(calls) + rest == rest;
    } else {
      LoadOfTasks(calls[1..], rest);
      LoadOnto(Do(calls[0]), Tasks(calls[1..]) + rest);
      assert Tasks(calls) + rest == [Do(calls[0])] + (Tasks(calls[1..]) + rest);
    }
  }

  /** Every step leaves less to do. */
  lemma NextLighter(d: Deployment, m: Machine)
    requires m.todo != []
    ensures Load(Next(d, m).todo) < Load(m.todo)
  {
    hide FinishGuard, CancelGuard, CreateStep, PayingOut, Tasks, WeightAll;
    var rest := m.todo[1..];
    match m.todo[0] {
      case Do(Finish(_, _, _, _, payee)) =>
        LoadOfTasks(payee.calls, [Return(m.now, payee.accepts)] + rest);
        LoadOnto(Return(m.now, payee.accepts), rest);
      case Do(Cancel(_, _, payee)) =>
        LoadOfTasks(payee.calls, [Return(m.now, payee.accepts)] + rest);
        LoadOnto(Return(m.now, payee.accepts), rest);
      case Do(Frame(calls, reverts)) =>
        LoadOfTasks(calls, [Leave(m.now, reverts)] + rest);
        LoadOnto(Leave(m.now, reverts), rest);
      case _ =>
    }
  }

  /** Every state the machine passes through until nothing is left to do. */
  function Trace(d: Deployment, m: Machine): seq<Contract>
    decreases Load(m.todo)
  {
    if m.todo == [] then []
    else
      NextLighter(d, m);
      [Next(d, m).now] + Trace(d, Next(d, m))
  }

  // ---------------------------------------------------------------- it agrees with the call trees

  lemma TraceStep(d: Deployment, s: Contract, task: Task, rest: seq<Task>)
    ensures var m := Machine(s, [task] + rest);
            m.todo[1..] == rest && Trace(d, m) == [Next(d, m).now] + Trace(d, Next(d, m))
  {
  }

  lemma ReturnStep(d: Deployment, inner: Contract, before: Contract, accepts: bool, rest: seq<Task>)
    ensures Next(d, Machine(inner, [Return(before, accepts)] + rest)) ==
            Machine(if accepts then inner.(entered := false) else before, rest)
  {
  }

  lemma {:induction false} TraceOfPayout(d: Deployment, s: Contract, id: nat, record: Event<nat, Address>,
                                         payee: Payee, rest: seq<Task>)
    requires s.balance >= Slot(s, id).amount
    ensures var m, paying := Enter(s, id, record, payee, rest), PayingOut(s, id, record);
            var after := Payout(d, s, id, record, payee).after;
            Trace(d, m) == PointsAll(d, paying, payee.calls) + ([after] + Trace(d, Machine(after, rest)))
    decreases payee, 1
  {
    hide PayingOut, Points, Exec, Next;
    var paying := PayingOut(s, id, record);
    var closing := Return(s, payee.accepts);
    TraceOfCalls(d, paying, payee.calls, [closing] + rest);
    var inner := ExecAll(d, paying, payee.calls);
    TraceStep(d, inner, closing, rest);
    ReturnStep(d, inner, s, payee.accepts, rest);
  }

  lemma {:induction false} TraceOfFrame(d: Deployment, s: Contract, calls: seq<Call>, reverts: bool, rest: seq<Task>)
    ensures var after := Exec(d, s, Frame(calls, reverts)).after;
            Trace(d, Machine(s, Tasks(calls) + ([Leave(s, reverts)] + rest))) ==
            PointsAll(d, s, calls) + ([after] + Trace(d, Machine(after, rest)))
    decreases calls, 1
  {
    hide Points, Trace, PointsAll, ExecAll;
    TraceOfCalls(d, s, calls, [Leave(s, reverts)] + rest);
    TraceStep(d, ExecAll(d, s, calls), Leave(s, reverts), rest);
  }

  lemma {:induction false} TraceOfCall(d: Deployment, s: Contract, c: Call, rest: seq<Task>)
    ensures Trace(d, Machine(s, [Do(c)] + rest)) ==
            Points(d, s, c) + Trace(d, Machine(Exec(d, s, c).after, rest))
    decreases c, 2
  {
    hide FinishGuard, CancelGuard, CreateStep, PayingOut, Trace, ExecAll, PointsAll, Tasks;
    TraceStep(d, s, Do(c), rest);
    match c {
      case Create(_, _, _, _, _, _) =>
      case Finish(caller, id, seal, journal, payee) =>
        if FinishGuard(d, s, caller, id, seal, journal).Pass? && s.balance >= Slot(s, id).amount {
          TraceOfPayout(d, s, id, FinishRecord(s, id, seal, journal), payee, rest);
        }
      case Cancel(caller, id, payee) =>
        if CancelGuard(s, caller, id).Pass? && s.balance >= Slot(s, id).amount {
          TraceOfPayout(d, s, id, CancelRecord(s, id), payee, rest);
        }
      case Force(_) =>
      case Frame(calls, reverts) =>
        TraceOfFrame(d, s, calls, reverts, rest);
    }
  }

  lemma {:induction false} TraceOfCalls(d: Deployment, s: Contract, calls: seq<Call>, rest: seq<Task>)
    ensures Trace(d, Machine(s, Tasks(calls) + rest)) ==
            PointsAll(d, s, calls) + Trace(d, Machine(ExecAll(d, s, calls), rest))
    decreases calls, 0
  {
    hide Trace, Points, Exec;
    if calls == [] {
      assert Tasks(calls) + rest == rest;
    } else {
      var next := Exec(d, s, calls[0]).after;
      assert Tasks(calls) + rest == [Do(calls[0])] + (Tasks(calls[1..]) + rest);
      TraceOfCall(d, s, calls[0], Tasks(calls[1..]) + rest);
      TraceOfCalls(d, next, calls[1..], rest);
    }
  }

  /** The points of a call are the trace of the machine, state for state, and its outcome is the
      state the machine stops in. */
  lemma TraceIsPoints(d: Deployment, s: Contract, c: Call)
    ensures Trace(d, Machine(s, [Do(c)])) == Points(d, s, c)
    ensures var trace := Trace(d, Machine(s, [Do(c)]));
            trace != [] && trace[|trace| - 1] == Exec(d, s, c).after
  {
    hide Exec, PointsAll;
    TraceOfCall(d, s, c, []);
    assert [Do(c)] + [] == [Do(c)];
  }

  /** The contract is solvent after every single step of every transaction. */
  lemma SolventAtEveryStep(d: Deployment, s: Contract, c: Call)
    requires Reachable(d, s)
    ensures forall t | t in Trace(d, Machine(s, [Do(c)])) :: Solvent(t)
  {
    hide Trace, Points, Solvent;
    TraceIsPoints(d, s, c);
    SolventThroughout(d, s, c);
  }
}
