/** Bounded concurrent reads: tasks behind a semaphore, under any schedule. */
module Gather {
  import opened Wrappers
  import opened Grid

  // ---- The schedule ------------------------------------------------------

  /** One spawned task; its read has no effect before it holds a permit. */
  datatype Task = Waiting | Running | Finished | Joined

  /** The tasks spawned so far, the free permits, and the collected outcomes. */
  datatype State<T> = State(tasks: seq<Task>, permits: nat, slots: seq<Option<T>>)

  datatype Step = Spawn | Start(i: nat) | Complete(i: nat) | Join(i: nat)

  function Initial<T>(count: nat, limit: nat): State<T> {
    State([], Max(limit, 1), seq(count, _ => None))
  }

  /** One atomic step; `outcomes[i]` is what the read of slot `i` yields. Joining
      starts only after every task has been spawned. */
  predicate Next<T(==)>(outcomes: seq<T>, s: State<T>, s': State<T>, step: Step) {
    match step
    case Spawn => |s.tasks| < |outcomes| && s' == s.(tasks := s.tasks + [Waiting])
    case Start(i) =>
      && i < |s.tasks| && s.tasks[i] == Waiting && s.permits > 0
      && s' == s.(tasks := s.tasks[i := Running], permits := s.permits - 1)
    case Complete(i) =>
      && i < |s.tasks| && s.tasks[i] == Running
      && s' == s.(tasks := s.tasks[i := Finished], permits := s.permits + 1)
    case Join(i) =>
      && |s.tasks| == |outcomes| && i < |s.tasks| && s.tasks[i] == Finished && i < |s.slots|
      && s' == s.(tasks := s.tasks[i := Joined], slots := s.slots[i := Some(outcomes[i])])
  }

  function InFlight(tasks: seq<Task>): nat {
    if tasks == [] then 0
    else InFlight(tasks[..|tasks| - 1]) + (if tasks[|tasks| - 1] == Running then 1 else 0)
  }

  /** How many steps the tasks still have to take. */
  function Left(tasks: seq<Task>): nat {
    if tasks == [] then 0
    else Left(tasks[..|tasks| - 1])
         + (match tasks[|tasks| - 1] case Waiting => 3 case Running => 2 case Finished => 1 case Joined => 0)
  }

  lemma {:induction false} OneTaskChanges(tasks: seq<Task>, i: nat, t: Task)
    requires i < |tasks|
    ensures InFlight(tasks[i := t]) + (if tasks[i] == Running then 1 else 0) == InFlight(tasks) + (if t == Running then 1 else 0)
    ensures Left(tasks[i := t]) + Left([tasks[i]]) == Left(tasks) + Left([t])
  {
    var n := |tasks| - 1;
    assert [tasks[i]][..0] == [] && [t][..0] == [];
    if i < n {
      assert tasks[i := t][..n] == tasks[..n][i := t];
      OneTaskChanges(tasks[..n], i, t);
    } else {
      assert tasks[i := t][..n] == tasks[..n];
    }
  }

  ghost predicate Inv<T>(outcomes: seq<T>, limit: nat, s: State<T>) {
    && |s.tasks| <= |outcomes| == |s.slots|
    && InFlight(s.tasks) + s.permits == Max(limit, 1)
    && forall i :: 0 <= i < |s.slots| ==> s.slots[i] == if i < |s.tasks| && s.tasks[i] == Joined then Some(outcomes[i]) else None
  }

  /** Steps still to take, spawning included. */
  function Remaining<T>(count: nat, s: State<T>): int {
    4 * (count - |s.tasks|) + Left(s.tasks)
  }

  lemma StepKeepsInv<T>(outcomes: seq<T>, limit: nat, s: State<T>, s': State<T>, step: Step)
    requires Inv(outcomes, limit, s) && Next(outcomes, s, s', step)
    ensures Inv(outcomes, limit, s') && Remaining(|outcomes|, s') == Remaining(|outcomes|, s) - 1
  {
    match step
    case Spawn => assert (s.tasks + [Waiting])[..|s.tasks|] == s.tasks;
    case Start(i) => OneTaskChanges(s.tasks, i, Running);
    case Complete(i) => OneTaskChanges(s.tasks, i, Finished);
    case Join(i) => OneTaskChanges(s.tasks, i, Joined);
  }

  /** A run of the executor. */
  ghost predicate Run<T>(outcomes: seq<T>, limit: nat, states: seq<State<T>>, steps: seq<Step>) {
    && |states| == |steps| + 1 && states[0] == Initial(|outcomes|, limit)
    && forall i :: 0 <= i < |steps| ==> Next(outcomes, states[i], states[i + 1], steps[i])
  }

  /** Never more reads in flight than the cap, and never more than four steps a
      task, whatever the schedule. */
  lemma {:induction false} RunsAreBounded<T>(outcomes: seq<T>, limit: nat, states: seq<State<T>>, steps: seq<Step>, k: nat)
    requires Run(outcomes, limit, states, steps) && k < |states|
    ensures Inv(outcomes, limit, states[k])
    ensures InFlight(states[k].tasks) <= Max(limit, 1)
    ensures Remaining(|outcomes|, states[k]) == 4 * |outcomes| - k && k <= 4 * |outcomes|
  {
    if k > 0 {
      RunsAreBounded(outcomes, limit, states, steps, k - 1);
      StepKeepsInv(outcomes, limit, states[k - 1], states[k], steps[k - 1]);
    }
  }

  lemma {:induction false} NothingLeft(tasks: seq<Task>)
    ensures Left(tasks) == 0 <==> forall i :: 0 <= i < |tasks| ==> tasks[i] == Joined
    ensures InFlight(tasks) > 0 <==> exists i :: 0 <= i < |tasks| && tasks[i] == Running
  {
    if tasks != [] {
      var front := tasks[..|tasks| - 1];
      NothingLeft(front);
      if exists i :: 0 <= i < |front| && tasks[i] == Running {
        var j :| 0 <= j < |front| && tasks[j] == Running;
        assert front[j] == Running;
      }
      if InFlight(front) > 0 {
        var i :| 0 <= i < |front| && front[i] == Running;
        assert tasks[i] == Running;
      }
      if Left(tasks) == 0 { assert forall i :: 0 <= i < |front| ==> tasks[i] == front[i]; }
      if forall i :: 0 <= i < |tasks| ==> tasks[i] == Joined { assert forall i :: 0 <= i < |front| ==> front[i] == tasks[i]; }
    }
  }

  /** No schedule gets stuck: some step is possible until all outcomes are in. */
  lemma NeverStuck<T>(outcomes: seq<T>, limit: nat, s: State<T>)
    requires Inv(outcomes, limit, s)
    ensures (exists step, s' :: Next(outcomes, s, s', step)) <==> Remaining(|outcomes|, s) > 0
    ensures Remaining(|outcomes|, s) == 0 <==> forall i :: 0 <= i < |outcomes| ==> s.slots[i] == Some(outcomes[i])
  {
    NothingLeft(s.tasks);
    if |s.tasks| < |outcomes| {
      assert Next(outcomes, s, s.(tasks := s.tasks + [Waiting]), Spawn);
      assert s.slots[|s.tasks|] == None;
    } else if Left(s.tasks) > 0 {
      var i :| 0 <= i < |s.tasks| && s.tasks[i] != Joined;
      assert s.slots[i] == None;
      if s.tasks[i] == Finished {
        assert Next(outcomes, s, s.(tasks := s.tasks[i := Joined], slots := s.slots[i := Some(outcomes[i])]), Join(i));
      } else if InFlight(s.tasks) > 0 {
        var j :| 0 <= j < |s.tasks| && s.tasks[j] == Running;
        assert Next(outcomes, s, s.(tasks := s.tasks[j := Finished], permits := s.permits + 1), Complete(j));
      } else {
        assert s.tasks[i] == Waiting;
        assert Next(outcomes, s, s.(tasks := s.tasks[i := Running], permits := s.permits - 1), Start(i));
      }
    } else {
      forall step, s' ensures !Next(outcomes, s, s', step) {
      }
    }
  }

  // ---- The answer --------------------------------------------------------

  /** Every value in slot order, or the failure of the lowest failing slot. */
  ghost predicate Gathered<T, E>(outcomes: seq<Result<T, E>>, r: Result<seq<T>, (nat, E)>) {
    match r
    case Ok(values) =>
      |values| == |outcomes| && forall i :: 0 <= i < |outcomes| ==> outcomes[i] == Ok(values[i])
    case Err((slot, error)) =>
      && slot < |outcomes| && outcomes[slot] == Err(error)
      && forall i :: 0 <= i < slot ==> outcomes[i].Ok?
  }

  /** The collected slots, read out in order once nothing is left to do; so
      the answer depends on the reads and not on the schedule. */
  method Collect<T, E>(ghost outcomes: seq<Result<T, E>>, limit: nat, s: State<Result<T, E>>)
    returns (r: Result<seq<T>, (nat, E)>)
    requires Inv(outcomes, limit, s) && Remaining(|outcomes|, s) == 0
    ensures Gathered(outcomes, r)
  {
    NeverStuck(outcomes, limit, s);
    var out: seq<T> := [];
    for slot := 0 to |s.slots|
      invariant |out| == slot && forall i :: 0 <= i < slot ==> outcomes[i] == Ok(out[i])
    {
      assert s.slots[slot] == Some(outcomes[slot]);
      match s.slots[slot].value {
        case Ok(value) => out := out + [value];
        case Err(error) => return Err((slot, error));
      }
    }
    return Ok(out);
  }

  /** One task that can move: some task always can. */
  lemma SomeTaskMoves<T>(outcomes: seq<T>, limit: nat, s: State<T>)
    requires Inv(outcomes, limit, s) && |s.tasks| == |outcomes| && Remaining(|outcomes|, s) > 0
    ensures exists i: nat :: i < |s.tasks| && CanMove(s, i)
  {
    NeverStuck(outcomes, limit, s);
    var step, s' :| Next(outcomes, s, s', step);
    match step
    case Start(i) => assert CanMove(s, i);
    case Complete(i) => assert CanMove(s, i);
    case Join(i) => assert CanMove(s, i);
    case Spawn =>
  }

  predicate CanMove<T>(s: State<T>, i: nat)
    requires i < |s.tasks|
  {
    s.tasks[i] == Running || s.tasks[i] == Finished || (s.tasks[i] == Waiting && s.permits > 0)
  }

  /** Spawns every read and drives them in an arbitrary order to the end. */
  method GatherBounded<T, E>(outcomes: seq<Result<T, E>>, limit: nat) returns (r: Result<seq<T>, (nat, E)>)
    ensures Gathered(outcomes, r)
  {
    var s: State<Result<T, E>> := Initial(|outcomes|, limit);
    while |s.tasks| < |outcomes|
      invariant Inv(outcomes, limit, s)
    {
      ghost var before := s;
      s := s.(tasks := s.tasks + [Waiting]);
      StepKeepsInv(outcomes, limit, before, s, Spawn);
    }
    while Remaining(|outcomes|, s) > 0
      invariant Inv(outcomes, limit, s) && |s.tasks| == |outcomes|
      decreases Remaining(|outcomes|, s)
    {
      SomeTaskMoves(outcomes, limit, s);
      ghost var before := s;
      var i: nat :| i < |s.tasks| && CanMove(s, i);
      match s.tasks[i] {
        case Waiting =>
          s := s.(tasks := s.tasks[i := Running], permits := s.permits - 1);
          StepKeepsInv(outcomes, limit, before, s, Start(i));
        case Running =>
          s := s.(tasks := s.tasks[i := Finished], permits := s.permits + 1);
          StepKeepsInv(outcomes, limit, before, s, Complete(i));
        case Finished =>
          s := s.(tasks := s.tasks[i := Joined], slots := s.slots[i := Some(outcomes[i])]);
          StepKeepsInv(outcomes, limit, before, s, Join(i));
        case Joined =>
      }
    }
    r := Collect(outcomes, limit, s);
  }

  lemma GatheredIsUnique<T, E>(outcomes: seq<Result<T, E>>, a: Result<seq<T>, (nat, E)>, b: Result<seq<T>, (nat, E)>)
    requires Gathered(outcomes, a) && Gathered(outcomes, b)
    ensures a == b
  {
    if a.Ok? && b.Ok? {
      forall i | 0 <= i < |outcomes| ensures a.value[i] == b.value[i] { assert outcomes[i] == Ok(a.value[i]) == Ok(b.value[i]); }
      assert a.value == b.value;
    }
  }
}
