/** The per-tenant admission gate: a lock-free permit counter with a bounded
    queue in front of it, and the shares that set its limit. */
module Admission {
  import opened Grid

  // ---- One request, step by step -----------------------------------------

  /** Where a request is between two atomic operations. `place` is the queue
      position it took, if it went to the queue. */
  datatype Place = Fast | Queued(position: nat)

  datatype Task =
    | Trying(place: Place)                // about to load `active`
    | Loaded(place: Place, seen: nat)     // about to load `limit`
    | Swapping(place: Place, seen: nat)   // saw room, about to compare-exchange
    | Full                                // no room, about to take a place in the queue
    | Checking(position: nat)             // about to compare the place with the capacity
    | TurnedAway(position: nat)           // about to give the place back
    | Parked(position: nat)               // waiting for a notification or the deadline
    | Leaving(position: nat, permit: bool) // about to give the place back and finish
    | Admitted                            // holds a permit
    | Over

  /** The gate's atomics, the requests so far, and three histories: the order
      in which places were taken, and the largest settings ever stored. */
  datatype Gate = Gate(active: nat, limit: nat, capacity: nat, depth: nat, tasks: seq<Task>,
                       entered: seq<nat>, maxLimit: nat, maxCapacity: nat)

  predicate HoldsPermit(t: Task) { t == Admitted || (t.Leaving? && t.permit) }

  /** Took a place in the queue and has not given it back or been dropped. */
  predicate InQueue(t: Task) {
    || t.Checking? || t.TurnedAway? || t.Parked? || t.Leaving?
    || ((t.Trying? || t.Loaded? || t.Swapping?) && t.place.Queued?)
  }

  function Position(t: Task): nat
    requires InQueue(t)
  {
    if t.Trying? || t.Loaded? || t.Swapping? then t.place.position else t.position
  }

  /** Let into the queue and waiting there. */
  predicate Waits(t: Task) { InQueue(t) && !t.Checking? && !t.TurnedAway? }

  datatype Step =
    | Arrive
    | LoadActive(i: nat)
    | LoadLimit(i: nat)
    | CompareExchange(i: nat)
    | TakePlace(i: nat)
    | CheckCapacity(i: nat)
    | Wake(i: nat)
    | Expire(i: nat)
    | Cancel(i: nat)
    | GivePlaceBack(i: nat)
    | DropPermit(i: nat)
    | StoreLimit(value: nat)
    | StoreCapacity(value: nat)

  function Moved(g: Gate, i: nat, t: Task): Gate
    requires i < |g.tasks|
  {
    g.(tasks := g.tasks[i := t])
  }

  function Without(entered: seq<nat>, i: nat): seq<nat> {
    if entered == [] then []
    else Without(entered[..|entered| - 1], i) + (if entered[|entered| - 1] == i then [] else [entered[|entered| - 1]])
  }

  /** The request a step belongs to. */
  function Subject(step: Step): nat {
    match step
    case Arrive => 0
    case LoadActive(i) => i
    case LoadLimit(i) => i
    case CompareExchange(i) => i
    case TakePlace(i) => i
    case CheckCapacity(i) => i
    case Wake(i) => i
    case Expire(i) => i
    case Cancel(i) => i
    case GivePlaceBack(i) => i
    case DropPermit(i) => i
    case StoreLimit(_) => 0
    case StoreCapacity(_) => 0
  }

  /** One atomic operation of one thread. */
  predicate Next(g: Gate, g': Gate, step: Step) {
    if step.Arrive? then g' == g.(tasks := g.tasks + [Trying(Fast)])
    else if step.StoreLimit? then g' == g.(limit := step.value, maxLimit := Max(g.maxLimit, step.value))
    else if step.StoreCapacity? then g' == g.(capacity := step.value, maxCapacity := Max(g.maxCapacity, step.value))
    else
      var i := Subject(step);
      i < |g.tasks|
      && var t := g.tasks[i];
         match step
         case LoadActive(_) => t.Trying? && g' == Moved(g, i, Loaded(t.place, g.active))
         case LoadLimit(_) =>
           t.Loaded? && g' == Moved(g, i, if t.seen < g.limit then Swapping(t.place, t.seen)
                                          else if t.place.Fast? then Full else Parked(t.place.position))
         case CompareExchange(_) =>
           t.Swapping? && g' == if g.active != t.seen then Moved(g, i, Trying(t.place))
                                else Moved(g, i, if t.place.Fast? then Admitted else Leaving(t.place.position, true)).(active := t.seen + 1)
         case TakePlace(_) =>
           t.Full? && g' == Moved(g, i, Checking(g.depth + 1)).(depth := g.depth + 1, entered := g.entered + [i])
         case CheckCapacity(_) =>
           t.Checking? && g' == Moved(g, i, if t.position > g.capacity then TurnedAway(t.position) else Trying(Queued(t.position)))
         case Wake(_) => t.Parked? && g' == Moved(g, i, Trying(Queued(t.position)))
         case Expire(_) => t.Parked? && g' == Moved(g, i, Leaving(t.position, false))
         case Cancel(_) => t.Parked? && g' == Moved(g, i, Over).(entered := Without(g.entered, i))
         case GivePlaceBack(_) =>
           && (t.TurnedAway? || t.Leaving?) && g.depth > 0
           && g' == Moved(g, i, if t.Leaving? && t.permit then Admitted else Over).(depth := g.depth - 1, entered := Without(g.entered, i))
         case DropPermit(_) => t.Admitted? && g.active > 0 && g' == Moved(g, i, Over).(active := g.active - 1)
         case _ => false
  }

  // ---- What every run keeps ----------------------------------------------

  ghost function Holders(tasks: seq<Task>): set<nat> { set i: nat | i < |tasks| && HoldsPermit(tasks[i]) }

  ghost function Waiters(tasks: seq<Task>): set<nat> { set i: nat | i < |tasks| && Waits(tasks[i]) }

  /** No request is on its way to more permits than were ever allowed. */
  predicate SeenRoom(g: Gate, t: Task) { t.Swapping? ==> t.seen < g.maxLimit }

  ghost predicate PermitInv(g: Gate) {
    && g.active == |Holders(g.tasks)| && g.active <= g.maxLimit && g.limit <= g.maxLimit
    && forall i :: 0 <= i < |g.tasks| ==> SeenRoom(g, g.tasks[i])
  }

  /** Places are remembered in the order they were taken; a place is at least
      its rank among those still held, and was within a capacity once stored if
      its holder waits. */
  ghost predicate QueueInv(g: Gate) {
    && |g.entered| <= g.depth && g.capacity <= g.maxCapacity
    && (forall a, b :: 0 <= a < b < |g.entered| ==> g.entered[a] != g.entered[b])
    && (forall k :: 0 <= k < |g.entered| ==>
          g.entered[k] < |g.tasks| && InQueue(g.tasks[g.entered[k]]) && k < Position(g.tasks[g.entered[k]]))
    && (forall i: nat :: i < |g.tasks| && InQueue(g.tasks[i]) ==> i in g.entered)
    && (forall i: nat :: i < |g.tasks| && Waits(g.tasks[i]) ==> Position(g.tasks[i]) <= g.maxCapacity)
  }

  function Fresh(limit: nat, capacity: nat): Gate {
    Gate(0, limit, capacity, 0, [], [], limit, capacity)
  }

  lemma HoldersOfUpdate(tasks: seq<Task>, i: nat, t: Task)
    requires i < |tasks|
    ensures Holders(tasks[i := t]) == if HoldsPermit(t) then Holders(tasks) + {i} else Holders(tasks) - {i}
  {
  }

  /** A task moves on and the counter follows its permit. */
  lemma MoveKeepsPermits(g: Gate, g': Gate, i: nat, t: Task)
    requires PermitInv(g) && i < |g.tasks| && g'.tasks == g.tasks[i := t]
    requires g'.limit == g.limit && g'.maxLimit == g.maxLimit && g'.active <= g.maxLimit && SeenRoom(g, t)
    requires g'.active + (if HoldsPermit(g.tasks[i]) then 1 else 0) == g.active + (if HoldsPermit(t) then 1 else 0)
    ensures PermitInv(g')
  {
    HoldersOfUpdate(g.tasks, i, t);
    assert HoldsPermit(g.tasks[i]) <==> i in Holders(g.tasks);
    hide Holders, HoldsPermit;
    forall k | 0 <= k < |g'.tasks| ensures SeenRoom(g', g'.tasks[k]) {
      assert SeenRoom(g, g.tasks[k]);
    }
  }

  lemma StepKeepsPermits(g: Gate, g': Gate, step: Step)
    requires PermitInv(g) && Next(g, g', step)
    ensures PermitInv(g')
  {
    if step.Arrive? {
      assert Holders(g'.tasks) == Holders(g.tasks);
    } else if !step.StoreLimit? && !step.StoreCapacity? {
      var i := Subject(step);
      assert SeenRoom(g, g.tasks[i]);
      hide Holders, SeenRoom, InQueue, Without;
      MoveKeepsPermits(g, g', i, g'.tasks[i]) by { SeenAfter(g, g', step); }
    }
  }

  lemma SeenAfter(g: Gate, g': Gate, step: Step)
    requires Next(g, g', step) && !step.Arrive? && !step.StoreLimit? && !step.StoreCapacity?
    requires g.limit <= g.maxLimit
    ensures SeenRoom(g, g'.tasks[Subject(step)])
  {
  }

  lemma {:induction false} WithoutDrops(entered: seq<nat>, i: nat)
    requires forall a, b :: 0 <= a < b < |entered| ==> entered[a] != entered[b]
    ensures var r := Without(entered, i);
            && |r| == (if i in entered then |entered| - 1 else |entered|)
            && (forall x :: x in r <==> x in entered && x != i)
            && (forall a, b :: 0 <= a < b < |r| ==> r[a] != r[b])
            && (forall k :: 0 <= k < |r| ==> exists j :: k <= j < |entered| && entered[j] == r[k])
  {
    if entered != [] {
      var front, last := entered[..|entered| - 1], entered[|entered| - 1];
      WithoutDrops(front, i);
      var r, f := Without(entered, i), Without(front, i);
      assert forall x :: x in entered <==> x in front || x == last;
      assert last !in front;
      forall k | 0 <= k < |r| ensures exists j :: k <= j < |entered| && entered[j] == r[k] {
        if k < |f| {
          var j :| k <= j < |front| && front[j] == f[k];
          assert entered[j] == r[k];
        } else {
          assert entered[|entered| - 1] == r[k];
        }
      }
    }
  }

  /** A task moves on inside the queue, or outside it. */
  lemma MoveKeepsQueue(g: Gate, g': Gate, i: nat, t: Task)
    requires QueueInv(g) && i < |g.tasks| && g'.tasks == g.tasks[i := t]
    requires g'.depth == g.depth && g'.entered == g.entered && g'.capacity == g.capacity && g'.maxCapacity == g.maxCapacity
    requires InQueue(t) == InQueue(g.tasks[i]) && (InQueue(t) ==> Position(t) == Position(g.tasks[i]))
    requires Waits(t) ==> Position(t) <= g.maxCapacity
    ensures QueueInv(g')
  {
    hide InQueue, Waits, Position;
  }

  lemma JoinKeepsQueue(g: Gate, g': Gate, i: nat)
    requires QueueInv(g) && Next(g, g', TakePlace(i))
    ensures QueueInv(g')
  {
    assert !InQueue(g.tasks[i]) && i !in g.entered;
    assert !Waits(g'.tasks[i]) && InQueue(g'.tasks[i]) && Position(g'.tasks[i]) == g.depth + 1;
    assert forall x :: x in g'.entered <==> x in g.entered || x == i;
    hide InQueue, Waits, Position, Next;
  }

  lemma LeaveKeepsQueue(g: Gate, g': Gate, i: nat, t: Task)
    requires QueueInv(g) && i < |g.tasks| && InQueue(g.tasks[i]) && !InQueue(t)
    requires g'.tasks == g.tasks[i := t] && g'.entered == Without(g.entered, i) && g.depth - 1 <= g'.depth
    requires g'.capacity == g.capacity && g'.maxCapacity == g.maxCapacity
    ensures QueueInv(g')
  {
    WithoutDrops(g.entered, i);
    hide InQueue, Position, Without;
    forall k | 0 <= k < |g'.entered|
      ensures g'.entered[k] < |g'.tasks| && InQueue(g'.tasks[g'.entered[k]]) && k < Position(g'.tasks[g'.entered[k]])
    {
      var j :| k <= j < |g.entered| && g.entered[j] == g'.entered[k];
      assert g'.entered[k] in g'.entered;
    }
  }

  lemma StepKeepsQueue(g: Gate, g': Gate, step: Step)
    requires QueueInv(g) && Next(g, g', step)
    ensures QueueInv(g')
  {
    var i := Subject(step);
    match step {
      case Arrive =>
      case StoreLimit(_) =>
      case StoreCapacity(_) =>
      case TakePlace(_) => JoinKeepsQueue(g, g', i);
      case Cancel(_) => LeaveKeepsQueue(g, g', i, g'.tasks[i]);
      case GivePlaceBack(_) => LeaveKeepsQueue(g, g', i, g'.tasks[i]);
      case _ =>
        hide QueueInv;
        MoveInQueue(g, g', step);
        MoveKeepsQueue(g, g', i, g'.tasks[i]);
    }
  }

  lemma MoveInQueue(g: Gate, g': Gate, step: Step)
    requires QueueInv(g) && Next(g, g', step) && !step.Arrive? && !step.StoreLimit? && !step.StoreCapacity?
    requires !step.TakePlace? && !step.Cancel? && !step.GivePlaceBack?
    ensures var i := Subject(step);
            var t, t' := g.tasks[i], g'.tasks[i];
            && g'.tasks == g.tasks[i := t'] && g'.depth == g.depth && g'.entered == g.entered
            && InQueue(t') == InQueue(t) && (InQueue(t') ==> Position(t') == Position(t))
            && (Waits(t') ==> Position(t') <= g.maxCapacity)
  {
  }

  lemma SubsetSize(a: set<nat>, b: set<nat>)
    requires a <= b
    ensures |a| <= |b|
  {
    if a != {} {
      var x :| x in a;
      SubsetSize(a - {x}, b - {x});
    }
  }

  ghost function Elements(s: seq<nat>): set<nat> { set x | x in s }

  lemma {:induction false} ElementCount(s: seq<nat>)
    ensures |Elements(s)| <= |s|
  {
    if s == [] {
      assert Elements(s) == {};
    } else {
      ElementCount(s[..|s| - 1]);
      assert Elements(s) == Elements(s[..|s| - 1]) + {s[|s| - 1]};
    }
  }

  lemma WaitsInQueue(t: Task)
    ensures Waits(t) ==> InQueue(t)
  {
  }

  /** The waiting requests are among the first places still held. */
  lemma FewWait(g: Gate)
    requires QueueInv(g)
    ensures |Waiters(g.tasks)| <= g.maxCapacity
  {
    var m := Min(|g.entered|, g.maxCapacity);
    var early := Elements(g.entered[..m]);
    hide Waits, Position, InQueue;
    forall i | i in Waiters(g.tasks) ensures i in early {
      assert Waits(g.tasks[i]) && InQueue(g.tasks[i]) by { WaitsInQueue(g.tasks[i]); }
      var k :| 0 <= k < |g.entered| && g.entered[k] == i;
      assert k < Position(g.tasks[i]) <= g.maxCapacity;
      assert g.entered[..m][k] == i;
    }
    ElementCount(g.entered[..m]);
    SubsetSize(Waiters(g.tasks), early);
  }

  /** A run of the gate under any schedule. */
  ghost predicate Run(states: seq<Gate>, steps: seq<Step>, limit: nat, capacity: nat) {
    && |states| == |steps| + 1 && states[0] == Fresh(limit, capacity)
    && forall i :: 0 <= i < |steps| ==> Next(states[i], states[i + 1], steps[i])
  }

  /** Whatever the interleaving: the counter is the number of live permits and
      never passes the largest limit ever stored; no more requests wait than
      the largest capacity ever stored, although a cancelled request leaves
      the depth too high. */
  lemma {:induction false} RunsAreBounded(states: seq<Gate>, steps: seq<Step>, limit: nat, capacity: nat, k: nat)
    requires Run(states, steps, limit, capacity) && k < |states|
    ensures PermitInv(states[k]) && QueueInv(states[k])
    ensures states[k].active == |Holders(states[k].tasks)| <= states[k].maxLimit
    ensures |Waiters(states[k].tasks)| <= states[k].maxCapacity
  {
    hide Next, QueueInv, Waiters;
    if k > 0 {
      RunsAreBounded(states, steps, limit, capacity, k - 1);
      StepKeepsPermits(states[k - 1], states[k], steps[k - 1]);
      StepKeepsQueue(states[k - 1], states[k], steps[k - 1]);
    } else {
      FreshIsFine(limit, capacity);
    }
    FewWait(states[k]);
  }

  lemma FreshIsFine(limit: nat, capacity: nat)
    ensures PermitInv(Fresh(limit, capacity)) && QueueInv(Fresh(limit, capacity))
  {
    assert Holders([]) == {};
  }

  /** Neither counter is ever taken below zero: who gives something back still
      holds it. */
  lemma CountersNeverWrap(g: Gate, i: nat)
    requires PermitInv(g) && QueueInv(g) && i < |g.tasks|
    ensures g.tasks[i].Admitted? ==> g.active > 0
    ensures g.tasks[i].TurnedAway? || g.tasks[i].Leaving? ==> g.depth > 0
  {
    if g.tasks[i].Admitted? {
      assert i in Holders(g.tasks);
      SubsetSize({i}, Holders(g.tasks));
    }
    if g.tasks[i].TurnedAway? || g.tasks[i].Leaving? { assert i in g.entered; }
  }

  /** The histories are the true maxima: the largest of the initial setting and
      everything stored since. */
  lemma {:induction false} HistoriesAreMaxima(states: seq<Gate>, steps: seq<Step>, limit: nat, capacity: nat, k: nat)
    requires Run(states, steps, limit, capacity) && k < |states|
    ensures states[k].maxLimit == limit || exists i :: 0 <= i < k && steps[i] == StoreLimit(states[k].maxLimit)
    ensures states[k].maxCapacity == capacity || exists i :: 0 <= i < k && steps[i] == StoreCapacity(states[k].maxCapacity)
  {
    if k > 0 { HistoriesAreMaxima(states, steps, limit, capacity, k - 1); }
  }

  // ---- The current limit -------------------------------------------------

  /** A gate within its limit leaves it in exactly two ways: the limit is stored
      below the permits that are out, or a request gets its permit that saw room
      which is no longer there. */
  lemma StepPassesLimitIff(g: Gate, g': Gate, step: Step)
    requires PermitInv(g) && g.active <= g.limit && Next(g, g', step)
    ensures g'.active > g'.limit <==>
              || (step.StoreLimit? && step.value < g.active)
              || (step.CompareExchange? && g.tasks[step.i].seen == g.active && g.tasks[step.i].seen >= g.limit)
  {
    hide Holders, SeenRoom, Without;
  }

  /** The limits stored by a run, in order. */
  function StoredLimits(steps: seq<Step>): seq<nat> {
    if steps == [] then []
    else
      var last := steps[|steps| - 1];
      StoredLimits(steps[..|steps| - 1]) + (if last.StoreLimit? then [last.value] else [])
  }

  predicate Ascends(limits: seq<nat>) {
    forall i, j :: 0 <= i < j < |limits| ==> limits[i] <= limits[j]
  }

  /** A run that stores exactly these limits after the one it starts with. */
  ghost predicate RunStoring(states: seq<Gate>, steps: seq<Step>, limit: nat, limits: seq<nat>, capacity: nat) {
    Run(states, steps, limit, capacity) && StoredLimits(steps) == limits
  }

  ghost predicate WithinLimit(states: seq<Gate>) {
    forall k :: 0 <= k < |states| ==> states[k].active <= states[k].limit
  }

  /** The limit a run ends with. */
  function LastLimit(limit: nat, limits: seq<nat>): nat { if limits == [] then limit else limits[|limits| - 1] }

  lemma StepOfLimit(g: Gate, g': Gate, step: Step)
    requires Next(g, g', step)
    ensures g'.limit == if step.StoreLimit? then step.value else g.limit
    ensures g'.maxLimit == if step.StoreLimit? then Max(g.maxLimit, step.value) else g.maxLimit
  {
    hide Without;
  }

  /** After `k` steps the limit is the last one stored and the largest ever, if
      limits only ever rise. */
  lemma {:induction false} RisingLimits(states: seq<Gate>, steps: seq<Step>, limit: nat, capacity: nat, k: nat)
    requires Run(states, steps, limit, capacity) && k < |states| && Ascends([limit] + StoredLimits(steps[..k]))
    ensures states[k].limit == states[k].maxLimit == LastLimit(limit, StoredLimits(steps[..k]))
  {
    if k > 0 {
      var before, now := StoredLimits(steps[..k - 1]), StoredLimits(steps[..k]);
      assert steps[..k][..k - 1] == steps[..k - 1];
      assert now == before + (if steps[k - 1].StoreLimit? then [steps[k - 1].value] else []);
      StepOfLimit(states[k - 1], states[k], steps[k - 1]);
      hide Next, StoredLimits;
      assert forall i :: 0 <= i <= |before| ==> ([limit] + before)[i] == ([limit] + now)[i];
      RisingLimits(states, steps, limit, capacity, k - 1);
      if steps[k - 1].StoreLimit? {
        assert ([limit] + now)[|before|] == LastLimit(limit, before) && ([limit] + now)[|now|] == steps[k - 1].value;
      }
    }
  }

  lemma {:induction false} StoredPrefix(steps: seq<Step>, k: nat)
    requires k <= |steps|
    ensures StoredLimits(steps[..k]) <= StoredLimits(steps)
  {
    if k < |steps| {
      StoredPrefix(steps[..|steps| - 1], k);
      assert steps[..|steps| - 1][..k] == steps[..k];
    } else {
      assert steps[..k] == steps;
    }
  }

  /** Limits that only rise are never passed. */
  lemma RisingLimitsHold(states: seq<Gate>, steps: seq<Step>, limit: nat, limits: seq<nat>, capacity: nat)
    requires RunStoring(states, steps, limit, limits, capacity) && Ascends([limit] + limits)
    ensures WithinLimit(states)
  {
    hide Run, Next, PermitInv, QueueInv;
    forall k | 0 <= k < |states| ensures states[k].active <= states[k].limit {
      RunLength(states, steps, limit, capacity);
      StoredPrefix(steps, k);
      var front := StoredLimits(steps[..k]);
      assert forall i :: 0 <= i <= |front| ==> ([limit] + front)[i] == ([limit] + limits)[i];
      RisingLimits(states, steps, limit, capacity, k);
      RunsAreBounded(states, steps, limit, capacity, k);
    }
  }

  lemma RunLength(states: seq<Gate>, steps: seq<Step>, limit: nat, capacity: nat)
    requires Run(states, steps, limit, capacity)
    ensures |states| == |steps| + 1
  {
  }

  /** One more step of a run. */
  lemma RunOn(states: seq<Gate>, steps: seq<Step>, limit: nat, capacity: nat, step: Step, g: Gate)
    requires Run(states, steps, limit, capacity) && Next(states[|steps|], g, step)
    ensures Run(states + [g], steps + [step], limit, capacity)
    ensures StoredLimits(steps + [step]) == StoredLimits(steps) + (if step.StoreLimit? then [step.value] else [])
  {
    hide Next;
    var more, longer := states + [g], steps + [step];
    assert longer[..|steps|] == steps;
    forall i | 0 <= i < |longer| ensures Next(more[i], more[i + 1], longer[i]) {
      if i < |steps| { assert more[i] == states[i] && more[i + 1] == states[i + 1] && longer[i] == steps[i]; }
    }
  }

  /** A run that ends in an idle, admitting gate: `n` requests have been let in
      one after the other and nothing else has happened since. */
  lemma {:induction false} Fill(states: seq<Gate>, steps: seq<Step>, limit: nat, capacity: nat, n: nat) returns (more: seq<Gate>, longer: seq<Step>)
    requires Run(states, steps, limit, capacity) && states[|steps|].active + n <= states[|steps|].limit
    ensures Run(more, longer, limit, capacity) && StoredLimits(longer) == StoredLimits(steps)
    ensures more[|longer|].active == states[|steps|].active + n && more[|longer|].limit == states[|steps|].limit
  {
    more, longer := states, steps;
    if n > 0 {
      more, longer := Fill(states, steps, limit, capacity, n - 1);
      more, longer := AdmitOne(more, longer, limit, capacity);
    }
  }

  lemma AdmitOne(states: seq<Gate>, steps: seq<Step>, limit: nat, capacity: nat) returns (more: seq<Gate>, longer: seq<Step>)
    requires Run(states, steps, limit, capacity) && states[|steps|].active < states[|steps|].limit
    ensures Run(more, longer, limit, capacity) && StoredLimits(longer) == StoredLimits(steps)
    ensures more[|longer|].active == states[|steps|].active + 1 && more[|longer|].limit == states[|steps|].limit
  {
    var g := states[|steps|];
    var i := |g.tasks|;
    var a := g.(tasks := g.tasks + [Trying(Fast)]);
    var b := Moved(a, i, Loaded(Fast, g.active));
    var c := Moved(b, i, Swapping(Fast, g.active));
    var d := Moved(c, i, Admitted).(active := g.active + 1);
    assert Next(g, a, Arrive) && Next(a, b, LoadActive(i)) && Next(b, c, LoadLimit(i)) && Next(c, d, CompareExchange(i));
    hide Next, Run, StoredLimits;
    RunLength(states, steps, limit, capacity);
    RunOn(states, steps, limit, capacity, Arrive, a);
    RunOn(states + [a], steps + [Arrive], limit, capacity, LoadActive(i), b);
    RunOn(states + [a] + [b], steps + [Arrive] + [LoadActive(i)], limit, capacity, LoadLimit(i), c);
    RunOn(states + [a] + [b] + [c], steps + [Arrive] + [LoadActive(i)] + [LoadLimit(i)], limit, capacity, CompareExchange(i), d);
    more := states + [a] + [b] + [c] + [d];
    longer := steps + [Arrive] + [LoadActive(i)] + [LoadLimit(i)] + [CompareExchange(i)];
  }

  /** Stores these limits one after the other. */
  lemma {:induction false} StoreAll(states: seq<Gate>, steps: seq<Step>, limit: nat, capacity: nat, limits: seq<nat>)
    returns (more: seq<Gate>, longer: seq<Step>)
    requires Run(states, steps, limit, capacity)
    ensures Run(more, longer, limit, capacity) && states <= more && StoredLimits(longer) == StoredLimits(steps) + limits
    ensures more[|longer|].active == states[|steps|].active
    ensures more[|longer|].limit == if limits == [] then states[|steps|].limit else limits[|limits| - 1]
  {
    more, longer := states, steps;
    if limits != [] {
      var n := |limits| - 1;
      more, longer := StoreAll(states, steps, limit, capacity, limits[..n]);
      var g := more[|longer|];
      var g' := g.(limit := limits[n], maxLimit := Max(g.maxLimit, limits[n]));
      assert Next(g, g', StoreLimit(limits[n]));
      hide Next;
      RunOn(more, longer, limit, capacity, StoreLimit(limits[n]), g');
      assert limits == limits[..n] + [limits[n]];
      more, longer := more + [g'], longer + [StoreLimit(limits[n])];
    }
  }

  lemma StartRun(limit: nat, capacity: nat)
    ensures Run([Fresh(limit, capacity)], [], limit, capacity) && StoredLimits([]) == []
  {
  }

  /** A fall from one limit to the next: fill to the first, then store the
      second, then whatever else was to be stored. */
  lemma FallingLimitIsPassed(limit: nat, limits: seq<nat>, capacity: nat, i: nat) returns (states: seq<Gate>, steps: seq<Step>)
    requires i < |limits| && limits[i] < ([limit] + limits)[i]
    ensures RunStoring(states, steps, limit, limits, capacity) && !WithinLimit(states)
  {
    hide Next, Run, StoredLimits;
    StartRun(limit, capacity);
    states, steps := StoreAll([Fresh(limit, capacity)], [], limit, capacity, limits[..i]);
    RunLength(states, steps, limit, capacity);
    var top := ([limit] + limits)[i];
    assert states[|steps|].active == 0 && states[|steps|].limit == top;
    states, steps := Fill(states, steps, limit, capacity, top);
    RunLength(states, steps, limit, capacity);
    states, steps := StoreAll(states, steps, limit, capacity, [limits[i]]);
    RunLength(states, steps, limit, capacity);
    ghost var passed := |steps|;
    assert states[passed].active == top && states[passed].limit == limits[i];
    var before := states;
    states, steps := StoreAll(states, steps, limit, capacity, limits[i + 1..]);
    assert states[passed] == before[passed];
    assert limits == limits[..i] + [limits[i]] + limits[i + 1..];
  }

  /** The permits stay within the current limit, in every state of every run
      that stores these limits, if and only if the limits never fall. */
  lemma LimitHoldsIff(limit: nat, limits: seq<nat>, capacity: nat)
    ensures (forall states, steps :: RunStoring(states, steps, limit, limits, capacity) ==> WithinLimit(states)) <==> Ascends([limit] + limits)
  {
    if Ascends([limit] + limits) {
      forall states, steps | RunStoring(states, steps, limit, limits, capacity) ensures WithinLimit(states) {
        RisingLimitsHold(states, steps, limit, limits, capacity);
      }
    } else {
      var i := FirstFall([limit] + limits);
      var states, steps := FallingLimitIsPassed(limit, limits, capacity, i);
      assert RunStoring(states, steps, limit, limits, capacity);
    }
  }

  predicate Falls(limits: seq<nat>, i: nat) { i + 1 < |limits| && limits[i + 1] < limits[i] }

  /** A sequence that falls in no step ascends. */
  lemma {:induction false} NoFallAscends(limits: seq<nat>)
    requires forall i :: !Falls(limits, i)
    ensures Ascends(limits)
  {
    if |limits| > 1 {
      var front := limits[..|limits| - 1];
      forall i ensures !Falls(front, i) { assert !Falls(limits, i); }
      NoFallAscends(front);
      assert !Falls(limits, |limits| - 2);
      forall i, j | 0 <= i < j < |limits| ensures limits[i] <= limits[j] {
        if j < |front| {
          assert front[i] <= front[j];
        } else if i < j - 1 {
          assert front[i] <= front[j - 1];
        }
      }
    }
  }

  lemma FirstFall(limits: seq<nat>) returns (i: nat)
    requires !Ascends(limits)
    ensures Falls(limits, i)
  {
    if forall i :: !Falls(limits, i) {
      NoFallAscends(limits);
    }
    i :| Falls(limits, i);
  }

  /** The smallest such case a registry can bring about: two slots lowered to
      one while a second request has already seen room. */
  lemma LoweredLimitIsPassed() returns (states: seq<Gate>, steps: seq<Step>)
    ensures RunStoring(states, steps, 2, [1], 0)
    ensures states[|steps| - 1].active <= states[|steps| - 1].limit && states[|steps|].active > states[|steps|].limit
  {
    StartRun(2, 0);
    states, steps := AdmitOne([Fresh(2, 0)], [], 2, 0);
    var g := states[|steps|];
    var i := |g.tasks|;
    var a := g.(tasks := g.tasks + [Trying(Fast)]);
    var b := Moved(a, i, Loaded(Fast, 1));
    var c := Moved(b, i, Swapping(Fast, 1));
    var d := c.(limit := 1, maxLimit := Max(c.maxLimit, 1));
    var e := Moved(d, i, Admitted).(active := 2);
    assert Next(g, a, Arrive) && Next(a, b, LoadActive(i)) && Next(b, c, LoadLimit(i));
    assert Next(c, d, StoreLimit(1)) && Next(d, e, CompareExchange(i));
    hide Next, Run, StoredLimits;
    RunLength(states, steps, 2, 0);
    RunOn(states, steps, 2, 0, Arrive, a);
    RunOn(states + [a], steps + [Arrive], 2, 0, LoadActive(i), b);
    RunOn(states + [a] + [b], steps + [Arrive] + [LoadActive(i)], 2, 0, LoadLimit(i), c);
    RunOn(states + [a] + [b] + [c], steps + [Arrive] + [LoadActive(i)] + [LoadLimit(i)], 2, 0, StoreLimit(1), d);
    var late := steps + [Arrive] + [LoadActive(i)] + [LoadLimit(i)] + [StoreLimit(1)];
    RunOn(states + [a] + [b] + [c] + [d], late, 2, 0, CompareExchange(i), e);
    states, steps := states + [a] + [b] + [c] + [d] + [e], late + [CompareExchange(i)];
  }
}
