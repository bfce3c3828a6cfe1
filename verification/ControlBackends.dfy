/** The SQLite and the PostgreSQL control store: the same transaction with its
    checks in two different orders. */
module ControlBackends {
  import opened Wrappers
  import opened ControlModel
  import opened ControlRows
  import opened ControlTables

  /** What a backend must answer and leave behind for an abstract result. */
  ghost predicate Answers<T>(r: Result<T, ControlError>, before: Tables, after: Tables, s: Store, goal: Result<(Store, T), ControlError>) {
    if goal.Ok? then r == Ok(goal.value.1) && Represents(after, goal.value.0)
    else r.Err? && after == before
  }

  /** The tables after a committed change. */
  lemma ExtendedIsRepresented(t: Tables, s: Store, a: Authorization, c: ChangeSet, applied: Applied, p: Projection, now: nat, instance: string, t': Tables)
    requires Represents(t, s) && Project(applied.snapshot) == Some(p)
    requires var revision := s.Revision() + 1;
             t' == Tables(Some(revision), t.revisions[revision := RevisionRow(applied.snapshot, now)],
                          p.resources, p.roleBindings, p.pathPolicies, p.tombstones, applied.versions,
                          t.audit[revision := AuditRow(a.principal, a.request, c.key, applied.changed, now, instance)],
                          t.outbox[(revision, 0) := applied.changed],
                          if c.key.Some? then t.idempotency[c.key.value := Recorded(c, Commit(revision, applied.changed, false), Some(a.fingerprint))]
                          else t.idempotency)
    ensures Represents(t', Extended(s, a, c, applied).0)
  {
    hide Project;
    HistoryExtends(t, s, a, c, applied, now, instance, t');
  }

  lemma HistoryExtends(t: Tables, s: Store, a: Authorization, c: ChangeSet, applied: Applied, now: nat, instance: string, t': Tables)
    requires HistoryTables(t, s)
    requires var revision := s.Revision() + 1;
             && t'.state == Some(revision)
             && t'.revisions == t.revisions[revision := RevisionRow(applied.snapshot, now)]
             && t'.audit == t.audit[revision := AuditRow(a.principal, a.request, c.key, applied.changed, now, instance)]
             && t'.outbox == t.outbox[(revision, 0) := applied.changed]
    ensures HistoryTables(t', Extended(s, a, c, applied).0)
  {
    var after := Extended(s, a, c, applied).0;
    RevisionsExtend(t.revisions, s, after, RevisionRow(applied.snapshot, now));
    AuditExtends(t.audit, s, after, AuditRow(a.principal, a.request, c.key, applied.changed, now, instance));
    OutboxExtends(t.outbox, s, after);
    hide RevisionTable, AuditTable, OutboxTable;
  }

  /** `after` has one entry more. */
  ghost predicate OneMore(s: Store, after: Store) {
    after.Revision() == s.Revision() + 1 && forall i :: 0 <= i < |s.history| ==> after.history[i] == s.history[i]
  }

  lemma RevisionsExtend(revisions: map<nat, RevisionRow>, s: Store, after: Store, row: RevisionRow)
    requires RevisionTable(revisions, s) && OneMore(s, after) && row.snapshot == after.Current()
    ensures RevisionTable(revisions[after.Revision() := row], after)
  {
  }

  lemma AuditExtends(audit: map<nat, AuditRow>, s: Store, after: Store, row: AuditRow)
    requires AuditTable(audit, s) && OneMore(s, after) && AuditOf(row, after.history[|s.history|])
    ensures AuditTable(audit[after.Revision() := row], after)
  {
    hide AuditOf;
  }

  lemma OutboxExtends(outbox: map<(nat, nat), seq<string>>, s: Store, after: Store)
    requires OutboxTable(outbox, s) && OneMore(s, after)
    ensures OutboxTable(outbox[(after.Revision(), 0) := after.history[|s.history|].changed], after)
  {
  }

  /** Everything a committed change writes. */
  method Record(t: Tables, revision: nat, a: Authorization, c: ChangeSet, applied: Applied, now: nat, instance: string, ghost s: Store)
    returns (r: Result<(Tables, Commit), ControlError>)
    requires Represents(t, s) && revision == s.Revision() + 1
    ensures r.Err? <==> revision >= I64_LIMIT || Project(applied.snapshot).None? || (c.key.Some? && c.key.value in t.idempotency)
    ensures r.Err? ==> r.error == Storage
    ensures r.Ok? ==> r.value.1 == Extended(s, a, c, applied).1 && Represents(r.value.0, Extended(s, a, c, applied).0)
    ensures Project(applied.snapshot).Some? <==> Writable(applied.snapshot)
    ensures r.Ok? ==> r.value.1 == Commit(revision, applied.changed, false) && NextRows(t, revision, a, c, applied, now, instance, r.value.0)
  {
    hide Project, Writable, ShowsSnapshot;
    ProjectionShowsSnapshot(applied.snapshot);
    ghost var t0 := t;
    var t := t;
    t :- RecordRevision(t, revision, applied.snapshot, a.principal, a.request, c.key, applied.changed, now, instance);
    t :- ReplaceCurrentResources(t, applied.snapshot);
    t := ReplaceEntityVersions(t, applied.versions);
    var commit := Commit(revision, applied.changed, false);
    if c.key.Some? {
      var idempotency :- Insert(t.idempotency, c.key.value, Recorded(c, commit, Some(a.fingerprint)));
      t := t.(idempotency := idempotency);
    }
    ExtendedIsRepresented(t0, s, a, c, applied, Project(applied.snapshot).value, now, instance, t);
    return Ok((t, commit));
  }

  /** An already recorded key: the answer is the abstract store's, and a commit
      handed out again names the one revision committed under the key. */
  method Replay(domain: Domain, t: Tables, a: Authorization, c: ChangeSet, ghost s: Store) returns (r: Result<Commit, ControlError>)
    requires KeyTable(t, s) && Consistent(domain, s) && domain.accepts(a, c)
    requires c.key.Some? && c.key.value in t.idempotency
    ensures var goal := Transacted(domain, s, a, c);
            && (r.Ok? ==> goal == Ok((s, r.value))) && (r.Err? ==> goal == Err(r.error))
    ensures r.Ok? <==> Replays(domain, t, a, c)
    ensures r.Err? ==> IsTrue(domain, t, a, c, r.error)
    ensures r.Ok? ==> r.value == t.idempotency[c.key.value].commit.(replayed := true)
    ensures r.Ok? ==>
      && r.value.replayed && 0 < r.value.revision <= s.Revision()
      && forall i :: 0 <= i < |s.history| ==> (s.history[i].key == c.key <==> i + 1 == r.value.revision)
  {
    hide Project;
    var key := c.key.value;
    var recorded := t.idempotency[key];
    if recorded.changes != c {
      return Err(IdempotencyConflict(key));
    }
    if recorded.fingerprint != Some(a.fingerprint) {
      return Err(AuthorizationConflict(key));
    }
    return Ok(recorded.commit.(replayed := true));
  }

  method WriteSeed(t: Tables, seed: Snapshot, actor: Principal, now: nat, instance: string)
    returns (r: Result<Tables, ControlError>)
    ensures r.Err? <==> 1 in t.revisions || (1, 0) in t.outbox || 1 in t.audit || Project(seed).None?
    ensures r.Err? ==> r.error == Storage
    ensures Project(seed).Some? <==> Writable(seed)
    ensures r.Ok? ==> FirstRevision(t, seed, actor, now, instance, r.value)
    ensures r.Ok? ==>
      var p := Project(seed).value;
      r.value == Tables(Some(1), t.revisions[1 := RevisionRow(seed, now)],
                        p.resources, p.roleBindings, p.pathPolicies, p.tombstones, t.entityVersions,
                        t.audit[1 := AuditRow(actor, BOOTSTRAP, None, ["snapshot"], now, instance)],
                        t.outbox[(1, 0) := ["snapshot"]], t.idempotency)
  {
    hide Project, Writable, ShowsSnapshot;
    ProjectionShowsSnapshot(seed);
    var t := t;
    t :- RecordRevision(t, 1, seed, actor, BOOTSTRAP, None, ["snapshot"], now, instance);
    r := ReplaceCurrentResources(t, seed);
  }

  /** The first revision, in both backends. */
  method SeedTables(domain: Domain, t: Tables, seed: Snapshot, actor: Principal, now: nat, instance: string, ghost s: Store)
    returns (r: Result<Bootstrap, ControlError>, after: Tables)
    requires Represents(t, s) && Consistent(domain, s)
    ensures Answers(r, t, after, s, Seeded(domain, s, seed, actor))
    ensures r.Err? ==> r == Err(Seeded(domain, s, seed, actor).error)
    ensures SeedOutcome(domain, t, seed, actor, now, instance, r, after)
  {
    hide Project, Writable, ShowsSnapshot;
    if t.state.Some? {
      return Ok(AlreadyInitialized(t.state.value)), t;
    }
    if !domain.bootable(seed, actor) {
      return Err(Invalid), t;
    }
    var written := WriteSeed(t, seed, actor, now, instance);
    match written {
      case Err(error) => return Err(error), t;
      case Ok(rows) => return Ok(Bootstrapped(1)), rows;
    }
  }

  /** The part of a transaction after every check has passed. */
  method ApplyAndRecord(domain: Domain, t: Tables, a: Authorization, c: ChangeSet, now: nat, instance: string, ghost s: Store)
    returns (r: Result<(Tables, Commit), ControlError>)
    requires Represents(t, s) && Consistent(domain, s)
    requires s.history != [] ==> a.expected == s.Revision() && (c.key.Some? ==> c.key.value !in s.done)
    ensures domain.accepts(a, c) && !a.replayOnly && s.history != [] ==>
      var o := Transacted(domain, s, a, c);
      && (r.Ok? <==> o.Ok?) && (r.Err? ==> r.error == o.error)
      && (r.Ok? ==> r.value.1 == o.value.1 && Represents(r.value.0, o.value.0))
    ensures domain.accepts(a, c) && !a.replayOnly && t.state == Some(a.expected) && (c.key.Some? ==> c.key.value !in t.idempotency) ==>
      (r.Ok? <==> Commits(domain, t, a, c)) && (r.Ok? ==> Committed(domain, t, a, c, now, instance, r.value.1, r.value.0))
      && (r.Err? ==> IsTrue(domain, t, a, c, r.error))
  {
    hide Project, Consistent, HistoryTables, CurrentTables, Writable, NextRows;
    var versioned :- LoadSnapshot(domain, t, s);
    var (snapshot, _, versions) := versioned;
    var applied := domain.apply(snapshot, versions, a.expected + 1, a, c);
    if applied.None? {
      return Err(Rejected);
    }
    r := Record(t, a.expected + 1, a, c, applied.value, now, instance, s);
  }

  class SqliteStore {
    var tables: Tables
    const domain: Domain

    constructor (domain: Domain)
      ensures tables == NO_ROWS && this.domain == domain && Represents(tables, EMPTY)
    {
      tables, this.domain := NO_ROWS, domain;
    }

    /** Looks for a recorded key first, then for a usable snapshot. */
    method Transact(a: Authorization, c: ChangeSet, now: nat, ghost s: Store) returns (r: Result<Commit, ControlError>)
      requires Represents(tables, s) && Consistent(domain, s) && Sound(domain)
      modifies this
      ensures Answers(r, old(tables), tables, s, Transacted(domain, s, a, c))
      ensures Outcome(domain, old(tables), a, c, now, "sqlite-control-store", r, tables)
      ensures r.Ok? && r.value.replayed ==> tables == old(tables)
      ensures r.Err? ==> r == Err(Transacted(domain, s, a, c).error)
    {
      hide Project, Consistent, Writable, NextRows, RevisionTable, AuditTable, OutboxTable, CurrentTables, ShowsSnapshot;
      if !domain.accepts(a, c) {
        return Err(Invalid);
      }
      var t := tables;
      if c.key.Some? && c.key.value in t.idempotency {
        r := Replay(domain, t, a, c, s);
        return;
      }
      if a.replayOnly {
        return Err(AuthorizationConflict(if c.key.Some? then c.key.value else ""));
      }
      var versioned :- LoadSnapshot(domain, t, s);
      var (snapshot, current, versions) := versioned;
      if current != a.expected {
        return Err(RevisionConflict(a.expected, current));
      }
      var applied := domain.apply(snapshot, versions, a.expected + 1, a, c);
      if applied.None? {
        return Err(Rejected);
      }
      var done :- Record(t, a.expected + 1, a, c, applied.value, now, "sqlite-control-store", s);
      tables := done.0;
      return Ok(done.1);
    }

    method BootstrapIfEmpty(seed: Snapshot, actor: Principal, now: nat, ghost s: Store) returns (r: Result<Bootstrap, ControlError>)
      requires Represents(tables, s) && Consistent(domain, s)
      modifies this
      ensures Answers(r, old(tables), tables, s, Seeded(domain, s, seed, actor))
      ensures r.Err? ==> r == Err(Seeded(domain, s, seed, actor).error)
      ensures SeedOutcome(domain, old(tables), seed, actor, now, "sqlite-control-store", r, tables)
    {
      r, tables := SeedTables(domain, tables, seed, actor, now, "sqlite-control-store", s);
    }

    /** Any sequence of operations on an empty database: the tables stand for
        what the abstract store would hold, and agree with one another. */
    method Serve(ops: seq<Op>, clock: nat -> nat)
      requires tables == NO_ROWS && Sound(domain)
      modifies this
      ensures Represents(tables, AfterAll(domain, EMPTY, ops)) && RowsAgree(tables)
    {
      hide Project, Consistent, Represents, Sound, RowsAgree, Seeded, Transacted;
      NoRowsAreEmpty();
      EmptyIsConsistent(domain);
      for i := 0 to |ops|
        invariant Represents(tables, AfterAll(domain, EMPTY, ops[..i])) && Consistent(domain, AfterAll(domain, EMPTY, ops[..i]))
      {
        ghost var s := AfterAll(domain, EMPTY, ops[..i]);
        assert ops[..i + 1][..i] == ops[..i];
        StepKeepsConsistent(domain, s, ops[i]);
        match ops[i] {
          case Seed(seed, actor) => var seeded := BootstrapIfEmpty(seed, actor, clock(i), s);
          case Change(a, c) => var changed := Transact(a, c, clock(i), s);
        }
      }
      assert ops[..|ops|] == ops;
      RepresentedRowsAgree(domain, tables, AfterAll(domain, EMPTY, ops));
    }
  }

  class PostgresStore {
    var tables: Tables
    const domain: Domain

    constructor (domain: Domain)
      ensures tables == NO_ROWS && this.domain == domain && Represents(tables, EMPTY)
    {
      tables, this.domain := NO_ROWS, domain;
    }

    /** Locks the state row first, so an empty store is noticed before
        anything else, and compares revisions before it loads the snapshot. */
    method Transact(a: Authorization, c: ChangeSet, now: nat, ghost s: Store) returns (r: Result<Commit, ControlError>)
      requires Represents(tables, s) && Consistent(domain, s) && Sound(domain)
      modifies this
      ensures Answers(r, old(tables), tables, s, Transacted(domain, s, a, c))
      ensures Outcome(domain, old(tables), a, c, now, "postgres-control-store", r, tables)
      ensures r.Ok? && r.value.replayed ==> tables == old(tables)
      ensures r.Err? ==>
        r == if domain.accepts(a, c) && s.history == [] then Err(Uninitialized) else Err(Transacted(domain, s, a, c).error)
    {
      hide Project, Consistent, Writable, NextRows, RevisionTable, AuditTable, OutboxTable, CurrentTables, ShowsSnapshot;
      if !domain.accepts(a, c) {
        return Err(Invalid);
      }
      var t := tables;
      if t.state.None? {
        EmptyHasNoKeys(domain, s);
        return Err(Uninitialized);
      }
      var current := t.state.value;
      if c.key.Some? && c.key.value in t.idempotency {
        r := Replay(domain, t, a, c, s);
        return;
      }
      if a.replayOnly {
        return Err(AuthorizationConflict(if c.key.Some? then c.key.value else ""));
      }
      if current != a.expected {
        return Err(RevisionConflict(a.expected, current));
      }
      var done :- ApplyAndRecord(domain, t, a, c, now, "postgres-control-store", s);
      tables := done.0;
      return Ok(done.1);
    }

    method BootstrapIfEmpty(seed: Snapshot, actor: Principal, now: nat, ghost s: Store) returns (r: Result<Bootstrap, ControlError>)
      requires Represents(tables, s) && Consistent(domain, s)
      modifies this
      ensures Answers(r, old(tables), tables, s, Seeded(domain, s, seed, actor))
      ensures r.Err? ==> r == Err(Seeded(domain, s, seed, actor).error)
      ensures SeedOutcome(domain, old(tables), seed, actor, now, "postgres-control-store", r, tables)
    {
      r, tables := SeedTables(domain, tables, seed, actor, now, "postgres-control-store", s);
    }

    /** Any sequence of operations on an empty database: the tables stand for
        what the abstract store would hold, and agree with one another. */
    method Serve(ops: seq<Op>, clock: nat -> nat)
      requires tables == NO_ROWS && Sound(domain)
      modifies this
      ensures Represents(tables, AfterAll(domain, EMPTY, ops)) && RowsAgree(tables)
    {
      hide Project, Consistent, Represents, Sound, RowsAgree, Seeded, Transacted;
      NoRowsAreEmpty();
      EmptyIsConsistent(domain);
      for i := 0 to |ops|
        invariant Represents(tables, AfterAll(domain, EMPTY, ops[..i])) && Consistent(domain, AfterAll(domain, EMPTY, ops[..i]))
      {
        ghost var s := AfterAll(domain, EMPTY, ops[..i]);
        assert ops[..i + 1][..i] == ops[..i];
        StepKeepsConsistent(domain, s, ops[i]);
        match ops[i] {
          case Seed(seed, actor) => var seeded := BootstrapIfEmpty(seed, actor, clock(i), s);
          case Change(a, c) => var changed := Transact(a, c, clock(i), s);
        }
      }
      assert ops[..|ops|] == ops;
      RepresentedRowsAgree(domain, tables, AfterAll(domain, EMPTY, ops));
    }
  }

  lemma EmptyHasNoKeys(domain: Domain, s: Store)
    requires Consistent(domain, s) && s.history == []
    ensures s.done == map[]
  {
  }

  /** The two backends side by side: from equal states both commit the same and
      stay equal, or both refuse and change nothing; only the reason may differ,
      and only for a replay-only request to an empty store. */
  method TransactOnBoth(sqlite: SqliteStore, postgres: PostgresStore, a: Authorization, c: ChangeSet, now: nat, later: nat, ghost s: Store)
    returns (one: Result<Commit, ControlError>, two: Result<Commit, ControlError>)
    requires sqlite.domain == postgres.domain && Sound(sqlite.domain) && Consistent(sqlite.domain, s)
    requires Represents(sqlite.tables, s) && Represents(postgres.tables, s)
    modifies sqlite, postgres
    ensures one.Ok? <==> two.Ok?
    ensures one.Ok? ==> one == two
    ensures one.Err? ==> sqlite.tables == old(sqlite.tables) && postgres.tables == old(postgres.tables)
    ensures one != two <==> sqlite.domain.accepts(a, c) && s.history == [] && a.replayOnly
    ensures var s' := After(sqlite.domain, s, Change(a, c));
            Represents(sqlite.tables, s') && Represents(postgres.tables, s') && Consistent(sqlite.domain, s')
  {
    hide Project, Consistent, Represents, Sound;
    StepKeepsConsistent(sqlite.domain, s, Change(a, c));
    if s.history == [] { EmptyHasNoKeys(sqlite.domain, s); }
    one := sqlite.Transact(a, c, now, s);
    two := postgres.Transact(a, c, later, s);
  }
}
