/** The outbox applier: any number of replicas drain one append-only log into a
    version-gated index whose own high-water is the only cursor. */
module Applier {
  import opened Wrappers
  import opened Grid

  datatype Mutation = Upsert(document: string) | Delete

  datatype Obligation = Obligation(sequence: nat, feature: string, kind: Mutation) {
    /** A mutation's version is its place in the log. */
    function Version(): nat { sequence }
  }

  datatype Stored = Stored(version: nat, kind: Mutation)

  type Documents = map<string, Stored>

  // ---- The sink's and the source's contracts -----------------------------

  /** Version-gated upsert: an older or equal version changes nothing. */
  function Applied(docs: Documents, o: Obligation): Documents {
    if o.feature in docs && o.Version() <= docs[o.feature].version then docs
    else docs[o.feature := Stored(o.Version(), o.kind)]
  }

  ghost function MaxOf(s: set<nat>): (m: nat)
    ensures forall x :: x in s ==> x <= m
    ensures s != {} ==> m in s
    ensures s == {} ==> m == 0
  {
    if s == {} then 0
    else
      var x :| x in s;
      assert forall y :: y in s ==> y == x || y in s - {x};
      Max(x, MaxOf(s - {x}))
  }

  ghost function Versions(docs: Documents): set<nat> {
    set f | f in docs :: docs[f].version
  }

  /** The greatest applied version; zero for an empty index. */
  ghost function HighWater(docs: Documents): nat { MaxOf(Versions(docs)) }

  /** Sequences ascend from one. */
  predicate Log(log: seq<Obligation>) {
    && (forall i :: 0 <= i < |log| ==> log[i].sequence > 0)
    && (forall i, j :: 0 <= i < j < |log| ==> log[i].sequence < log[j].sequence)
  }

  /** How many obligations have a sequence up to `h`. */
  function UpTo(log: seq<Obligation>, h: nat): (n: nat)
    ensures n <= |log|
  {
    if log == [] then 0 else if log[|log| - 1].sequence <= h then |log| else UpTo(log[..|log| - 1], h)
  }

  /** How far into the log an index has come. */
  ghost function Position(docs: Documents, log: seq<Obligation>): (n: nat)
    ensures n <= |log|
  {
    UpTo(log, HighWater(docs))
  }

  /** At most `limit` obligations after sequence `after`, in order. */
  function ReadAfter(log: seq<Obligation>, after: nat, limit: nat): seq<Obligation> {
    var n := UpTo(log, after);
    log[n..Min(|log|, n + limit)]
  }

  /** The index that results from the first `n` obligations, in order. */
  function Replay(log: seq<Obligation>, n: nat): Documents
    requires n <= |log|
  {
    if n == 0 then map[] else Applied(Replay(log, n - 1), log[n - 1])
  }

  /** No obligation among the first `n` after this one is about its feature. */
  predicate LastOf(log: seq<Obligation>, n: nat, i: nat)
    requires i < n <= |log|
  {
    forall j :: i < j < n ==> log[j].feature != log[i].feature
  }

  /** The index holds the features of the first `n` obligations and no others,
      each as its last obligation there left it. */
  ghost predicate LastWrites(docs: Documents, log: seq<Obligation>, n: nat)
    requires n <= |log|
  {
    && (forall f :: f in docs ==> exists i :: 0 <= i < n && log[i].feature == f)
    && (forall i :: 0 <= i < n ==> log[i].feature in docs)
    && (forall i :: 0 <= i < n && LastOf(log, n, i) ==>
          docs[log[i].feature].version == log[i].sequence && docs[log[i].feature].kind == log[i].kind)
  }

  // ---- What the contracts give -------------------------------------------

  lemma {:induction false} UpToSplits(log: seq<Obligation>, h: nat)
    requires Log(log)
    ensures forall i :: 0 <= i < |log| ==> (log[i].sequence <= h <==> i < UpTo(log, h))
  {
    if log != [] && log[|log| - 1].sequence > h {
      UpToSplits(log[..|log| - 1], h);
    }
  }

  lemma UpToIs(log: seq<Obligation>, h: nat, n: nat)
    requires Log(log) && n <= |log| && (n > 0 ==> log[n - 1].sequence <= h) && (n < |log| ==> h < log[n].sequence)
    ensures UpTo(log, h) == n
  {
    UpToSplits(log, h);
  }

  /** A prefix applied in order has that prefix's last sequence as high-water,
      and holds every feature of it at its version or a later one. */
  lemma {:induction false} ReplayHighWater(log: seq<Obligation>, n: nat)
    requires Log(log) && n <= |log|
    ensures HighWater(Replay(log, n)) == if n == 0 then 0 else log[n - 1].sequence
    ensures Position(Replay(log, n), log) == n
    ensures forall i :: 0 <= i < n ==> log[i].feature in Replay(log, n) && log[i].sequence <= Replay(log, n)[log[i].feature].version
  {
    hide UpTo, MaxOf;
    if n > 0 {
      ReplayHighWater(log, n - 1);
      var before, o, after := Replay(log, n - 1), log[n - 1], Replay(log, n);
      assert forall f :: f in before ==> before[f].version in Versions(before);
      assert after == before[o.feature := Stored(o.sequence, o.kind)];
      assert after[o.feature].version in Versions(after);
      assert forall v :: v in Versions(after) ==> v == o.sequence || v in Versions(before);
    }
    UpToIs(log, HighWater(Replay(log, n)), n);
  }

  /** Replaying a prefix leaves the last write of every feature. */
  lemma {:induction false} ReplayKeepsLast(log: seq<Obligation>, n: nat)
    requires Log(log) && n <= |log|
    ensures LastWrites(Replay(log, n), log, n)
  {
    hide LastWrites, Log, Applied;
    if n == 0 {
      NothingWritten(log);
    } else {
      ReplayKeepsLast(log, n - 1);
      NewestIsApplied(log, n);
      NewestWins(Replay(log, n - 1), log, n);
    }
  }

  lemma NothingWritten(log: seq<Obligation>)
    ensures LastWrites(map[], log, 0)
  {
  }

  lemma NewestIsApplied(log: seq<Obligation>, n: nat)
    requires Log(log) && 0 < n <= |log|
    ensures Replay(log, n) == Replay(log, n - 1)[log[n - 1].feature := Stored(log[n - 1].sequence, log[n - 1].kind)]
  {
    hide UpTo, MaxOf;
    ReplayHighWater(log, n - 1);
    var before := Replay(log, n - 1);
    assert forall f :: f in before ==> before[f].version in Versions(before);
  }

  lemma NewestWins(docs: Documents, log: seq<Obligation>, n: nat)
    requires 0 < n <= |log| && LastWrites(docs, log, n - 1)
    ensures LastWrites(docs[log[n - 1].feature := Stored(log[n - 1].sequence, log[n - 1].kind)], log, n)
  {
    forall i | 0 <= i < n - 1 && LastOf(log, n, i) ensures LastOf(log, n - 1, i) && log[i].feature != log[n - 1].feature {
    }
  }

  /** A longer log replays alike on what it shares. */
  lemma {:induction false} ReplayExtends(log: seq<Obligation>, more: seq<Obligation>, n: nat)
    requires n <= |log|
    ensures Replay(log + more, n) == Replay(log, n)
  {
    if n > 0 { ReplayExtends(log, more, n - 1); }
  }

  /** The index is the log replayed up to its own high-water. */
  ghost predicate InSync(docs: Documents, log: seq<Obligation>) {
    docs == Replay(log, Position(docs, log))
  }

  /** Applying an obligation whose predecessors are all in keeps the index in
      sync and never lowers its high-water. */
  lemma ApplyKeepsSync(docs: Documents, log: seq<Obligation>, i: nat)
    requires Log(log) && InSync(docs, log) && i < |log| && i <= Position(docs, log)
    ensures InSync(Applied(docs, log[i]), log)
    ensures Position(Applied(docs, log[i]), log) == Max(i + 1, Position(docs, log))
  {
    hide HighWater, UpTo, Log, Position;
    var n := Position(docs, log);
    ReplayHighWater(log, n);
    if i == n {
      ReplayHighWater(log, n + 1);
      assert Applied(docs, log[i]) == Replay(log, n + 1);
    } else {
      assert Applied(docs, log[i]) == docs;
    }
  }

  /** Appending leaves the index in sync where it was. */
  lemma AppendKeepsSync(docs: Documents, log: seq<Obligation>, more: seq<Obligation>)
    requires Log(log + more) && InSync(docs, log)
    ensures Log(log) && InSync(docs, log + more)
    ensures Position(docs, log + more) == Position(docs, log)
  {
    hide HighWater, UpTo;
    assert forall i :: 0 <= i < |log| ==> (log + more)[i] == log[i];
    var n := Position(docs, log);
    ReplayHighWater(log, n);
    ReplayExtends(log, more, n);
    ReplayHighWater(log + more, n);
  }

  // ---- One pass ----------------------------------------------------------

  datatype PassError = Poison

  /** The in-memory sink: documents, the order of applications, and the
      sequences it refuses. */
  class Index {
    var documents: Documents
    var appliedOrder: seq<nat>
    const reject: set<nat>

    constructor (reject: set<nat>)
      ensures documents == map[] && appliedOrder == [] && this.reject == reject
    {
      documents, appliedOrder, this.reject := map[], [], reject;
    }

    method Apply(o: Obligation) returns (r: Result<(), PassError>)
      modifies this
      ensures r.Err? <==> o.sequence in reject
      ensures r.Err? ==> documents == old(documents) && appliedOrder == old(appliedOrder)
      ensures r.Ok? ==> appliedOrder == old(appliedOrder) + [o.sequence]
      ensures r.Ok? ==> documents == Applied(old(documents), o)
      ensures r.Ok? ==>
        var newer := o.feature !in old(documents) || o.sequence > old(documents)[o.feature].version;
        documents == if newer then old(documents)[o.feature := Stored(o.sequence, o.kind)] else old(documents)
    {
      if o.sequence in reject {
        return Err(Poison);
      }
      if o.feature !in documents || o.Version() > documents[o.feature].version {
        documents := documents[o.feature := Stored(o.Version(), o.kind)];
      }
      appliedOrder := appliedOrder + [o.sequence];
      return Ok(());
    }

    method AppliedHighWater() returns (h: nat)
      ensures h == HighWater(documents)
    {
      h := 0;
      var rest := documents.Keys;
      while rest != {}
        invariant rest <= documents.Keys
        invariant forall f :: f in documents.Keys - rest ==> documents[f].version <= h
        invariant h == 0 || h in Versions(documents)
      {
        var f :| f in rest;
        assert documents[f].version in Versions(documents);
        h := Max(h, documents[f].version);
        rest := rest - {f};
      }
      assert forall v :: v in Versions(documents) ==> v <= h;
    }
  }

  /** The first place from `from` on that the sink refuses, or the end. */
  function Stop(log: seq<Obligation>, reject: set<nat>, from: nat): (p: nat)
    requires from <= |log|
    ensures from <= p <= |log|
    ensures p < |log| ==> log[p].sequence in reject
    ensures forall i :: from <= i < p ==> log[i].sequence !in reject
    decreases |log| - from
  {
    if from == |log| || log[from].sequence in reject then from else Stop(log, reject, from + 1)
  }

  lemma NextReplayed(log: seq<Obligation>, n: nat)
    requires n < |log|
    ensures Applied(Replay(log, n), log[n]) == Replay(log, n + 1)
  {
  }

  /** One drain pass alone: it advances by the batch or to the end of the log,
      stops in front of the first obligation the sink refuses, and skips nothing. */
  method DrainOnce(log: seq<Obligation>, index: Index, batchSize: nat) returns (r: Result<nat, PassError>)
    requires Log(log) && InSync(index.documents, log)
    modifies index
    ensures var from := old(Position(index.documents, log));
            var goal := Min(|log|, from + batchSize);
            var stop := Stop(log, index.reject, from);
            && index.documents == Replay(log, Min(goal, stop))
            && LastWrites(index.documents, log, Min(goal, stop))
            && r == (if goal <= stop then Ok(goal - from) else Err(Poison))
    ensures InSync(index.documents, log)
  {
    hide HighWater, UpTo, Log, Applied, Stop, Replay, LastWrites;
    var cursor := index.AppliedHighWater();
    ghost var from := Position(index.documents, log);
    ghost var stop := Stop(log, index.reject, from);
    var obligations := ReadAfter(log, cursor, batchSize);
    for k := 0 to |obligations|
      invariant from + k <= stop
      invariant index.documents == Replay(log, from + k)
    {
      assert obligations[k] == log[from + k];
      NextReplayed(log, from + k);
      var applied := index.Apply(obligations[k]);
      if applied.Err? {
        ReplayHighWater(log, from + k);
        ReplayKeepsLast(log, from + k);
        return Err(Poison);
      }
    }
    ReplayHighWater(log, from + |obligations|);
    ReplayKeepsLast(log, from + |obligations|);
    return Ok(|obligations|);
  }

  // ---- The loop ----------------------------------------------------------

  /** What the coordinator answers if asked for the lease. */
  datatype Answer = Granted | HeldElsewhere | Unreachable

  /** Why the wait for the next pass ends. */
  datatype Wake = PollInterval | Signalled(stop: bool) | SenderDropped

  /** One turn of the loop: what was appended since the last one, whether a
      held lease is still live, and the answers of coordinator and shutdown. */
  datatype Tick = Tick(appended: seq<Obligation>, live: bool, answer: Answer, wake: Wake)

  predicate Stops(wake: Wake) { wake == SenderDropped || wake == Signalled(true) }

  /** One task's view of its leadership, kept across ticks. */
  class Leadership {
    var held: bool
    var announcedFollower: bool

    constructor ()
      ensures !held && !announcedFollower
    {
      held, announcedFollower := false, false;
    }

    /** Whether this task may drain now; without a lease always, with one only
        while it holds it. */
    method LeadsThisPass(leased: bool, tick: Tick) returns (leads: bool)
      modifies this
      ensures leads == (!leased || (old(held) && tick.live) || tick.answer == Granted)
      ensures leased ==> held == leads
      ensures leased && !leads ==>
        announcedFollower == (tick.answer == HeldElsewhere)
      ensures !leased ==> held == old(held) && announcedFollower == old(announcedFollower)
    {
      if !leased {
        return true;
      }
      if held && tick.live {
        return true;
      }
      if held {
        held, announcedFollower := false, false;
      }
      match tick.answer {
        case Granted =>
          held, announcedFollower := true, false;
          return true;
        case HeldElsewhere =>
          if !announcedFollower {
            announcedFollower := true;
          }
          return false;
        case Unreachable =>
          announcedFollower := false;
          return false;
      }
    }
  }

  function Front<T>(s: seq<T>): seq<T>
    requires s != []
  {
    s[..|s| - 1]
  }

  /** The log after these ticks. */
  function Grown(log: seq<Obligation>, ticks: seq<Tick>): seq<Obligation> {
    if ticks == [] then log else Grown(log, Front(ticks)) + ticks[|ticks| - 1].appended
  }

  /** Whether the last of these ticks drains. */
  predicate Leads(leased: bool, ticks: seq<Tick>) {
    ticks != []
    && var tick := ticks[|ticks| - 1];
       (!leased || (tick.live && Leads(leased, Front(ticks))) || tick.answer == Granted)
  }

  /** How many of these ticks run: up to the first that is told to stop. */
  function Ran(ticks: seq<Tick>): (n: nat)
    ensures n <= |ticks|
    ensures forall i :: 0 <= i < n - 1 ==> ticks[i].wake == PollInterval || ticks[i].wake == Signalled(false)
    ensures n < |ticks| ==> n > 0 && (ticks[n - 1].wake == SenderDropped || ticks[n - 1].wake == Signalled(true))
  {
    if ticks == [] then 0
    else if Stops(ticks[0].wake) then 1
    else
      var n := Ran(ticks[1..]);
      assert forall i :: 0 < i < |ticks| ==> ticks[i] == ticks[1..][i - 1];
      n + 1
  }

  /** One pass from `from`: a batch, the end of the log, or a refused
      obligation, whichever comes first. */
  function PassEnd(log: seq<Obligation>, reject: set<nat>, batchSize: nat, from: nat): (p: nat)
    requires from <= |log|
    ensures from <= p <= Stop(log, reject, from) <= |log|
  {
    Min(from + batchSize, Stop(log, reject, from))
  }

  /** How far the log has been drained after these ticks. */
  function DrainedTo(log: seq<Obligation>, ticks: seq<Tick>, leased: bool, reject: set<nat>, batchSize: nat, from: nat): (p: nat)
    requires from <= |log|
    ensures p <= |Grown(log, ticks)|
  {
    if ticks == [] then from
    else
      var here := DrainedTo(log, Front(ticks), leased, reject, batchSize, from);
      if Leads(leased, ticks) then PassEnd(Grown(log, ticks), reject, batchSize, here) else here
  }

  lemma {:induction false} GrownPrefix(log: seq<Obligation>, ticks: seq<Tick>, k: nat)
    requires k <= |ticks| && Log(Grown(log, ticks))
    ensures Log(Grown(log, ticks[..k])) && Grown(log, ticks[..k]) <= Grown(log, ticks)
  {
    if k < |ticks| {
      var before, now := Grown(log, Front(ticks)), Grown(log, ticks);
      assert forall i :: 0 <= i < |before| ==> before[i] == now[i];
      GrownPrefix(log, Front(ticks), k);
      assert Front(ticks)[..k] == ticks[..k];
    } else {
      assert ticks[..k] == ticks;
    }
  }

  lemma RanIs(ticks: seq<Tick>, n: nat)
    requires n <= |ticks| && forall i :: 0 <= i < n - 1 ==> !Stops(ticks[i].wake)
    requires n == |ticks| || (n > 0 && Stops(ticks[n - 1].wake))
    ensures Ran(ticks) == n
  {
  }

  /** What one more tick adds. */
  lemma TickAdds(log: seq<Obligation>, ticks: seq<Tick>, tick: Tick, leased: bool, reject: set<nat>, batchSize: nat, from: nat)
    requires from <= |log|
    ensures Grown(log, ticks + [tick]) == Grown(log, ticks) + tick.appended
    ensures Leads(leased, ticks + [tick]) <==> !leased || (tick.live && Leads(leased, ticks)) || tick.answer == Granted
    ensures var here := DrainedTo(log, ticks, leased, reject, batchSize, from);
            DrainedTo(log, ticks + [tick], leased, reject, batchSize, from)
            == if Leads(leased, ticks + [tick]) then PassEnd(Grown(log, ticks + [tick]), reject, batchSize, here) else here
  {
    hide PassEnd;
    assert Front(ticks + [tick]) == ticks;
  }

  /** A tick on the log as it is by now. */
  method RunTick(log: seq<Obligation>, index: Index, batchSize: nat, leased: bool, leadership: Leadership, tick: Tick)
    requires Log(log) && InSync(index.documents, log)
    modifies index, leadership
    ensures InSync(index.documents, log)
    ensures leased ==> (leadership.held <==> (old(leadership.held) && tick.live) || tick.answer == Granted)
    ensures var from := old(Position(index.documents, log));
            Position(index.documents, log)
            == if !leased || (old(leadership.held) && tick.live) || tick.answer == Granted then PassEnd(log, index.reject, batchSize, from) else from
  {
    hide HighWater, UpTo, Log, Position, Replay, Stop, LastWrites, InSync;
    var leads := leadership.LeadsThisPass(leased, tick);
    if leads {
      ReplayHighWater(log, PassEnd(log, index.reject, batchSize, Position(index.documents, log)));
      var result := DrainOnce(log, index, batchSize);
    }
  }

  /** The applier's loop: a tick that leads drains one batch, a failed pass is
      retried on the next one, and the loop ends where it is told to stop. */
  method RunApplier(log: seq<Obligation>, index: Index, batchSize: nat, leased: bool, ticks: seq<Tick>)
    requires Log(Grown(log, ticks)) && InSync(index.documents, log)
    modifies index
    ensures var ran := ticks[..Ran(ticks)];
            && InSync(index.documents, Grown(log, ran))
            && Position(index.documents, Grown(log, ran))
               == DrainedTo(log, ran, leased, index.reject, batchSize, old(Position(index.documents, log)))
            && LastWrites(index.documents, Grown(log, ran), Position(index.documents, Grown(log, ran)))
  {
    hide HighWater, UpTo, Log, Position, Replay, Stop, Stops, PassEnd, Grown, Leads, DrainedTo, InSync, LastWrites;
    var leadership := new Leadership();
    var outbox := log;
    ghost var from := Position(index.documents, log);
    NoTicks(log, leased, index.reject, batchSize, from);
    var n := 0;
    var stopped := false;
    while n < |ticks| && !stopped
      invariant n <= |ticks| && outbox == Grown(log, ticks[..n])
      invariant InSync(index.documents, outbox)
      invariant leased ==> (leadership.held <==> Leads(leased, ticks[..n]))
      invariant Position(index.documents, outbox) == DrainedTo(log, ticks[..n], leased, index.reject, batchSize, from)
      invariant forall i :: 0 <= i < n - (if stopped then 1 else 0) ==> !Stops(ticks[i].wake)
      invariant stopped ==> n > 0 && Stops(ticks[n - 1].wake)
    {
      assert ticks[..n + 1] == ticks[..n] + [ticks[n]];
      TickAdds(log, ticks[..n], ticks[n], leased, index.reject, batchSize, from);
      GrownPrefix(log, ticks, n + 1);
      AppendKeepsSync(index.documents, outbox, ticks[n].appended);
      outbox := outbox + ticks[n].appended;
      RunTick(outbox, index, batchSize, leased, leadership, ticks[n]);
      stopped := Stops(ticks[n].wake);
      n := n + 1;
    }
    RanIs(ticks, n);
    GrownPrefix(log, ticks, n);
    SyncKeepsLast(index.documents, outbox);
  }

  lemma SyncKeepsLast(docs: Documents, log: seq<Obligation>)
    requires Log(log) && InSync(docs, log)
    ensures LastWrites(docs, log, Position(docs, log))
  {
    hide LastWrites, Position;
    ReplayKeepsLast(log, Position(docs, log));
  }

  lemma NoTicks(log: seq<Obligation>, leased: bool, reject: set<nat>, batchSize: nat, from: nat)
    requires from <= |log|
    ensures Grown(log, []) == log && !Leads(leased, []) && DrainedTo(log, [], leased, reject, batchSize, from) == from
  {
  }

  lemma {:induction false} StopAgain(log: seq<Obligation>, reject: set<nat>, from: nat, at: nat)
    requires from <= at <= |log| && at <= Stop(log, reject, from)
    ensures Stop(log, reject, at) == Stop(log, reject, from)
    decreases at - from
  {
    if from < at { StopAgain(log, reject, from + 1, at); }
  }

  /** A leased task drains on a tick exactly if it was granted the lease then or
      before and the lease has been live on every tick since. */
  lemma {:induction false} LeadsIff(ticks: seq<Tick>)
    ensures Leads(true, ticks) <==>
            exists k :: 0 <= k < |ticks| && ticks[k].answer == Granted && forall j :: k < j < |ticks| ==> ticks[j].live
  {
    if ticks != [] {
      var front, n := Front(ticks), |ticks| - 1;
      LeadsIff(front);
      if ticks[n].live && Leads(true, front) {
        var k :| 0 <= k < n && front[k].answer == Granted && forall j :: k < j < n ==> front[j].live;
        assert ticks[k].answer == Granted && forall j :: k < j < |ticks| ==> ticks[j].live;
      }
      if exists k :: 0 <= k < |ticks| && ticks[k].answer == Granted && forall j :: k < j < |ticks| ==> ticks[j].live {
        var k :| 0 <= k < |ticks| && ticks[k].answer == Granted && forall j :: k < j < |ticks| ==> ticks[j].live;
        if k < n { assert front[k].answer == Granted && forall j :: k < j < n ==> front[j].live; }
      }
    }
  }

  /** How many of the ticks `later` drain, coming after `earlier`. */
  function Passes(leased: bool, earlier: seq<Tick>, later: seq<Tick>): nat {
    if later == [] then 0
    else Passes(leased, earlier, Front(later)) + if Leads(leased, earlier + later) then 1 else 0
  }

  /** Once nothing is appended any more, every pass that leads moves on by a
      full batch until the end of the log or the first refused obligation. */
  lemma {:induction false} QuietTicksDrain(log: seq<Obligation>, earlier: seq<Tick>, later: seq<Tick>, leased: bool, reject: set<nat>, batchSize: nat, from: nat)
    requires from <= |log| && forall i :: 0 <= i < |later| ==> later[i].appended == []
    ensures Grown(log, earlier + later) == Grown(log, earlier)
    ensures var here := DrainedTo(log, earlier, leased, reject, batchSize, from);
            DrainedTo(log, earlier + later, leased, reject, batchSize, from)
            == Min(here + Mul(Passes(leased, earlier, later), batchSize), Stop(Grown(log, earlier), reject, here))
  {
    hide Leads, Stop, Mul, Grown, DrainedTo;
    var here := DrainedTo(log, earlier, leased, reject, batchSize, from);
    if later == [] {
      assert earlier + later == earlier;
      MulStep(0, batchSize);
    } else {
      var front, tick := Front(later), later[|later| - 1];
      assert earlier + later == earlier + front + [tick] && tick.appended == [];
      QuietTicksDrain(log, earlier, front, leased, reject, batchSize, from);
      TickAdds(log, earlier + front, tick, leased, reject, batchSize, from);
      MulStep(Passes(leased, earlier, front), batchSize);
      StopAgain(Grown(log, earlier), reject, here, DrainedTo(log, earlier + front, leased, reject, batchSize, from));
    }
  }

  /** However the log grows meanwhile, the applier neither goes back nor passes
      an obligation that is refused. */
  lemma {:induction false} NothingIsSkipped(log: seq<Obligation>, ticks: seq<Tick>, leased: bool, reject: set<nat>, batchSize: nat, from: nat)
    requires from <= |log|
    ensures |log| <= |Grown(log, ticks)|
    ensures from <= DrainedTo(log, ticks, leased, reject, batchSize, from) <= Stop(Grown(log, ticks), reject, from)
  {
    hide Leads;
    if ticks != [] {
      NothingIsSkipped(log, Front(ticks), leased, reject, batchSize, from);
      var before, now := Grown(log, Front(ticks)), Grown(log, ticks);
      var here := DrainedTo(log, Front(ticks), leased, reject, batchSize, from);
      StopRises(before, now, reject, from);
      StopAgain(now, reject, from, here);
    }
  }

  /** A longer log stops no earlier. */
  lemma StopRises(log: seq<Obligation>, longer: seq<Obligation>, reject: set<nat>, from: nat)
    requires log <= longer && from <= |log|
    ensures Stop(log, reject, from) <= Stop(longer, reject, from)
  {
    var p := Stop(longer, reject, from);
    assert p < |log| ==> log[p] == longer[p];
  }

  // ---- Many replicas -----------------------------------------------------

  /** Where one replica is in its pass. */
  datatype Replica = Idle | HasCursor(cursor: nat) | Draining(batch: seq<Obligation>, next: nat)

  datatype System = System(log: seq<Obligation>, docs: Documents, replicas: seq<Replica>)

  datatype Step =
    | Append(o: Obligation)
    | ReadCursor(r: nat)
    | ReadBatch(r: nat, limit: nat)
    | ApplyNext(r: nat)
    | Finish(r: nat)
    | Crash(r: nat)
    | Join

  /** One atomic step; a failed application ends that replica's pass like a
      crash. The sequences in `reject` are refused for ever. */
  ghost predicate Next(s: System, s': System, step: Step, reject: set<nat>) {
    match step
    case Append(o) => Log(s.log + [o]) && s' == s.(log := s.log + [o])
    case ReadCursor(r) => r < |s.replicas| && s.replicas[r] == Idle && s' == s.(replicas := s.replicas[r := HasCursor(HighWater(s.docs))])
    case ReadBatch(r, limit) =>
      && r < |s.replicas| && s.replicas[r].HasCursor?
      && s' == s.(replicas := s.replicas[r := Draining(ReadAfter(s.log, s.replicas[r].cursor, limit), 0)])
    case ApplyNext(r) =>
      && r < |s.replicas| && s.replicas[r].Draining? && s.replicas[r].next < |s.replicas[r].batch|
      && var o := s.replicas[r].batch[s.replicas[r].next];
         && o.sequence !in reject
         && s' == s.(docs := Applied(s.docs, o), replicas := s.replicas[r := Draining(s.replicas[r].batch, s.replicas[r].next + 1)])
    case Finish(r) =>
      && r < |s.replicas| && s.replicas[r].Draining? && s.replicas[r].next == |s.replicas[r].batch|
      && s' == s.(replicas := s.replicas[r := Idle])
    case Crash(r) => r < |s.replicas| && s' == s.(replicas := s.replicas[r := Idle])
    case Join => s' == s.(replicas := s.replicas + [Idle])
  }

  /** A replica's batch is a stretch of the log, and everything in front of its
      next obligation is already in the index. */
  ghost predicate ReplicaOk(s: System, replica: Replica) {
    match replica
    case Idle => true
    case HasCursor(cursor) => cursor <= HighWater(s.docs)
    case Draining(batch, next) =>
      && next <= |batch|
      && exists start: nat :: Stretch(s.log, start, batch) && start + next <= Position(s.docs, s.log)
  }

  ghost predicate Stretch(log: seq<Obligation>, start: nat, batch: seq<Obligation>) {
    start + |batch| <= |log| && forall k :: 0 <= k < |batch| ==> batch[k] == log[start + k]
  }

  ghost predicate Inv(s: System, reject: set<nat>) {
    && Log(s.log) && InSync(s.docs, s.log)
    && (forall r :: 0 <= r < |s.replicas| ==> ReplicaOk(s, s.replicas[r]))
    && (forall i :: 0 <= i < |s.log| && s.log[i].sequence in reject ==> Position(s.docs, s.log) <= i)
  }

  ghost predicate Init(s: System) {
    s.log == [] && s.docs == map[] && forall r :: 0 <= r < |s.replicas| ==> s.replicas[r] == Idle
  }

  lemma InitInv(s: System, reject: set<nat>)
    requires Init(s)
    ensures Inv(s, reject)
  {
  }

  /** A replica is not disturbed by what others append or apply. */
  lemma ReplicaKept(s: System, s': System, replica: Replica)
    requires Log(s'.log) && Log(s.log) && InSync(s.docs, s.log) && InSync(s'.docs, s'.log) && ReplicaOk(s, replica)
    requires s.log <= s'.log && Position(s.docs, s.log) <= Position(s'.docs, s'.log)
    ensures ReplicaOk(s', replica)
  {
    hide HighWater, UpTo, Replay, Position;
    match replica
    case Idle =>
    case HasCursor(cursor) =>
      ReplayHighWater(s.log, Position(s.docs, s.log));
      ReplayHighWater(s'.log, Position(s'.docs, s'.log));
    case Draining(batch, next) =>
      var start: nat :| Stretch(s.log, start, batch) && start + next <= Position(s.docs, s.log);
      assert Stretch(s'.log, start, batch);
  }

  lemma BatchIsStretch(s: System, cursor: nat, limit: nat)
    requires Log(s.log) && InSync(s.docs, s.log) && cursor <= HighWater(s.docs)
    ensures ReplicaOk(s, Draining(ReadAfter(s.log, cursor, limit), 0))
  {
    var n := UpTo(s.log, cursor);
    UpToSplits(s.log, cursor);
    UpToSplits(s.log, HighWater(s.docs));
    assert n > 0 ==> s.log[n - 1].sequence <= HighWater(s.docs);
    assert Stretch(s.log, n, ReadAfter(s.log, cursor, limit));
  }

  /** Replica `r` moves to a sound place while the rest of the system goes on. */
  lemma OneMoves(s: System, s': System, r: nat, moved: Replica, reject: set<nat>)
    requires Inv(s, reject) && Log(s'.log) && InSync(s'.docs, s'.log) && s.log <= s'.log
    requires Position(s.docs, s.log) <= Position(s'.docs, s'.log)
    requires r <= |s.replicas| && s'.replicas == s.replicas[..r] + [moved] + s.replicas[Min(r + 1, |s.replicas|)..]
    requires ReplicaOk(s', moved)
    ensures forall k :: 0 <= k < |s'.replicas| ==> ReplicaOk(s', s'.replicas[k])
  {
    hide Log, InSync, HighWater, UpTo, Position, ReplicaOk;
    forall k | 0 <= k < |s'.replicas| ensures ReplicaOk(s', s'.replicas[k]) {
      if k != r { ReplicaKept(s, s', s.replicas[k]); }
    }
  }

  lemma ApplyStep(s: System, s': System, r: nat, reject: set<nat>)
    requires Inv(s, reject) && Next(s, s', ApplyNext(r), reject)
    ensures Inv(s', reject) && Position(s.docs, s.log) <= Position(s'.docs, s'.log)
  {
    hide Log, InSync, HighWater, UpTo, Position, Applied, ReadAfter;
    var replica := s.replicas[r];
    var start: nat :| Stretch(s.log, start, replica.batch) && start + replica.next <= Position(s.docs, s.log);
    ApplyKeepsSync(s.docs, s.log, start + replica.next);
    assert Stretch(s'.log, start, replica.batch);
    OneMoves(s, s', r, s'.replicas[r], reject);
  }

  /** Every step keeps the index equal to the log replayed up to its
      high-water, which never falls. */
  lemma StepKeepsInv(s: System, s': System, step: Step, reject: set<nat>)
    requires Inv(s, reject) && Next(s, s', step, reject)
    ensures Inv(s', reject)
    ensures Position(s.docs, s.log) <= Position(s'.docs, s'.log)
  {
    hide Log, InSync, HighWater, UpTo, Position, Applied, ReadAfter, Stretch;
    match step {
      case Append(o) =>
        AppendKeepsSync(s.docs, s.log, [o]);
        forall r | 0 <= r < |s.replicas| ensures ReplicaOk(s', s.replicas[r]) { ReplicaKept(s, s', s.replicas[r]); }
      case ApplyNext(r) => ApplyStep(s, s', r, reject);
      case ReadBatch(r, limit) =>
        BatchIsStretch(s', s.replicas[r].cursor, limit);
        OneMoves(s, s', r, s'.replicas[r], reject);
      case ReadCursor(r) => OneMoves(s, s', r, s'.replicas[r], reject);
      case Finish(r) => OneMoves(s, s', r, Idle, reject);
      case Crash(r) => OneMoves(s, s', r, Idle, reject);
      case Join => OneMoves(s, s', |s.replicas|, Idle, reject);
    }
  }

  /** A run of the whole system. */
  ghost predicate Run(states: seq<System>, steps: seq<Step>, reject: set<nat>) {
    && |states| == |steps| + 1 && Init(states[0])
    && forall i :: 0 <= i < |steps| ==> Next(states[i], states[i + 1], steps[i], reject)
  }

  /** In every state of every run: the index is the log replayed up to the
      high-water and shows the last write of every feature there, no obligation
      at or below it is missing, and a refused obligation holds it back for ever. */
  lemma {:induction false} RunsStayInSync(states: seq<System>, steps: seq<Step>, reject: set<nat>, k: nat)
    requires Run(states, steps, reject) && k < |states|
    ensures Inv(states[k], reject)
    ensures forall i :: 0 <= i < |states[k].log| && states[k].log[i].sequence <= HighWater(states[k].docs) ==>
              && states[k].log[i].feature in states[k].docs
              && states[k].log[i].sequence <= states[k].docs[states[k].log[i].feature].version
    ensures forall i :: 0 <= i < |states[k].log| && states[k].log[i].sequence in reject ==>
              HighWater(states[k].docs) < states[k].log[i].sequence
    ensures var n := Position(states[k].docs, states[k].log);
            && LastWrites(states[k].docs, states[k].log, n)
            && forall i :: 0 <= i < |states[k].log| ==> (i < n <==> states[k].log[i].sequence <= HighWater(states[k].docs))
  {
    hide LastWrites, HighWater, Position, Next, Init;
    if k > 0 {
      RunsStayInSync(states, steps, reject, k - 1);
      StepKeepsInv(states[k - 1], states[k], steps[k - 1], reject);
    } else {
      InitInv(states[0], reject);
    }
    var s := states[k];
    SyncedIndex(s.docs, s.log);
  }

  /** What an index in sync with the log says about it. */
  lemma SyncedIndex(docs: Documents, log: seq<Obligation>)
    requires Log(log) && InSync(docs, log)
    ensures LastWrites(docs, log, Position(docs, log))
    ensures forall i :: 0 <= i < |log| ==> (i < Position(docs, log) <==> log[i].sequence <= HighWater(docs))
    ensures forall i :: 0 <= i < |log| && log[i].sequence <= HighWater(docs) ==>
              log[i].feature in docs && log[i].sequence <= docs[log[i].feature].version
  {
    hide LastWrites, UpTo, MaxOf;
    UpToSplits(log, HighWater(docs));
    ReplayHighWater(log, Position(docs, log));
    SyncKeepsLast(docs, log);
  }

  // ---- Every log can be drained ------------------------------------------

  lemma OneMoreStep(states: seq<System>, steps: seq<Step>, reject: set<nat>, s: System, step: Step)
    requires Run(states, steps, reject) && Next(states[|steps|], s, step, reject)
    ensures Run(states + [s], steps + [step], reject)
  {
    hide Next, Init;
    var longer, more := states + [s], steps + [step];
    forall i | 0 <= i < |more| ensures Next(longer[i], longer[i + 1], more[i], reject) {
      if i < |steps| { assert longer[i] == states[i] && longer[i + 1] == states[i + 1] && more[i] == steps[i]; }
    }
  }

  lemma {:induction false} AppendAll(log: seq<Obligation>, reject: set<nat>) returns (states: seq<System>, steps: seq<Step>)
    requires Log(log)
    ensures Run(states, steps, reject) && |states| == |steps| + 1 && states[|steps|] == System(log, map[], [])
  {
    if log == [] {
      states, steps := [System([], map[], [])], [];
    } else {
      var front, last := log[..|log| - 1], log[|log| - 1];
      states, steps := AppendAll(front, reject);
      assert front + [last] == log;
      OneMoreStep(states, steps, reject, System(log, map[], []), Append(last));
      states, steps := states + [System(log, map[], [])], steps + [Append(last)];
    }
  }

  /** A replica that joins once everything is in the log reads all of it. */
  lemma JoinAndRead(log: seq<Obligation>, reject: set<nat>) returns (states: seq<System>, steps: seq<Step>)
    requires Log(log)
    ensures Run(states, steps, reject) && |states| == |steps| + 1 && states[|steps|] == System(log, map[], [Draining(log, 0)])
  {
    hide Run, MaxOf;
    states, steps := AppendAll(log, reject);
    var joined, cursor, draining := System(log, map[], [Idle]), System(log, map[], [HasCursor(0)]), System(log, map[], [Draining(log, 0)]);
    OneMoreStep(states, steps, reject, joined, Join);
    states, steps := states + [joined], steps + [Join];
    assert HighWater(map[]) == 0 by { NothingIsLow(); }
    OneMoreStep(states, steps, reject, cursor, ReadCursor(0));
    states, steps := states + [cursor], steps + [ReadCursor(0)];
    UpToIs(log, 0, 0);
    assert ReadAfter(log, 0, |log|) == log;
    OneMoreStep(states, steps, reject, draining, ReadBatch(0, |log|));
    states, steps := states + [draining], steps + [ReadBatch(0, |log|)];
  }

  lemma NothingIsLow()
    ensures HighWater(map[]) == 0
  {
    assert Versions(map[]) == {};
  }

  /** For every log that holds nothing refused there is a run that drains it. */
  lemma {:induction false} EveryLogIsDrained(log: seq<Obligation>, reject: set<nat>, n: nat) returns (states: seq<System>, steps: seq<Step>)
    requires Log(log) && n <= |log| && forall i :: 0 <= i < |log| ==> log[i].sequence !in reject
    ensures Run(states, steps, reject) && |states| == |steps| + 1 && states[|steps|] == System(log, Replay(log, n), [Draining(log, n)])
  {
    hide Run, Applied;
    if n == 0 {
      states, steps := JoinAndRead(log, reject);
      assert Replay(log, 0) == map[];
    } else {
      states, steps := EveryLogIsDrained(log, reject, n - 1);
      var next := System(log, Replay(log, n), [Draining(log, n)]);
      OneMoreStep(states, steps, reject, next, ApplyNext(0));
      states, steps := states + [next], steps + [ApplyNext(0)];
    }
  }
}
