/** The ten tables behind the control store and the two databases that keep
    them. A transaction works on a copy and either replaces the tables or, on
    any error, is dropped. */
module ControlTables {
  import opened Wrappers
  import opened ControlModel
  import opened ControlRows

  datatype RevisionRow = RevisionRow(snapshot: Snapshot, recordedAt: nat)

  datatype AuditRow = AuditRow(actor: Principal, request: Request, key: Option<string>, changed: seq<string>, recordedAt: nat, instance: string)

  datatype Recorded = Recorded(changes: ChangeSet, commit: Commit, fingerprint: Option<string>)

  datatype Tables = Tables(
    state: Option<nat>,
    revisions: map<nat, RevisionRow>,
    resources: map<string, Resource>,
    roleBindings: map<BindingKey, string>,
    pathPolicies: map<string, string>,
    tombstones: map<string, string>,
    entityVersions: map<string, string>,
    audit: map<nat, AuditRow>,
    outbox: map<(nat, nat), seq<string>>,
    idempotency: map<string, Recorded>)

  const NO_ROWS := Tables(None, map[], map[], map[], map[], map[], map[], map[], map[], map[])

  // ---- What the tables stand for -----------------------------------------

  /** Revisions are exactly 1 to the current one, each with its snapshot. */
  ghost predicate RevisionTable(revisions: map<nat, RevisionRow>, s: Store) {
    && (forall r: nat :: r in revisions <==> 0 < r <= s.Revision())
    && (forall r: nat :: r in revisions ==> revisions[r].snapshot == s.history[r - 1].snapshot)
  }

  /** One audit row for each revision. */
  ghost predicate AuditTable(audit: map<nat, AuditRow>, s: Store) {
    && (forall r: nat :: r in audit <==> 0 < r <= s.Revision())
    && (forall r: nat :: r in audit ==> AuditOf(audit[r], s.history[r - 1]))
  }

  predicate AuditOf(row: AuditRow, e: Entry) {
    row.actor == e.actor && row.request == e.request && row.key == e.key && row.changed == e.changed
  }

  /** One event for each revision. */
  ghost predicate OutboxTable(outbox: map<(nat, nat), seq<string>>, s: Store) {
    && (forall r: nat, o: nat :: (r, o) in outbox <==> 0 < r <= s.Revision() && o == 0)
    && (forall r: nat :: (r, 0) in outbox ==> outbox[(r, 0)] == s.history[r - 1].changed)
  }

  ghost predicate HistoryTables(t: Tables, s: Store) {
    && t.state == (if s.history == [] then None else Some(s.Revision()))
    && RevisionTable(t.revisions, s) && AuditTable(t.audit, s) && OutboxTable(t.outbox, s)
  }

  /** The derived tables are the projection of the current snapshot. */
  ghost predicate CurrentTables(t: Tables, s: Store) {
    && t.entityVersions == s.versions
    && Projection(t.resources, t.roleBindings, t.pathPolicies, t.tombstones) ==
         if s.history == [] then Projection(map[], map[], map[], map[]) else
         var p := Project(s.Current()); if p.Some? then p.value else Projection(map[], map[], map[], map[])
  }

  ghost predicate KeyTable(t: Tables, s: Store) {
    && t.idempotency.Keys == s.done.Keys
    && forall k :: k in s.done ==> t.idempotency[k] == Recorded(s.done[k].changes, s.done[k].commit, Some(s.done[k].fingerprint))
  }

  ghost predicate Represents(t: Tables, s: Store) {
    HistoryTables(t, s) && CurrentTables(t, s) && KeyTable(t, s)
  }

  lemma NoRowsAreEmpty()
    ensures Represents(NO_ROWS, EMPTY)
  {
  }

  // ---- The same without the abstract store -------------------------------

  function CurrentRevision(t: Tables): nat { if t.state.Some? then t.state.value else 0 }

  /** Revisions run from 1 to the current one with one snapshot, one event and
      one audit row each, and event and audit row name the same changes. */
  ghost predicate HistoryRows(t: Tables) {
    var current := CurrentRevision(t);
    && (t.state.Some? ==> current > 0)
    && (forall r: nat :: r in t.revisions <==> 0 < r <= current)
    && (forall r: nat :: r in t.audit <==> 0 < r <= current)
    && (forall r: nat, o: nat :: (r, o) in t.outbox <==> 0 < r <= current && o == 0)
    && (forall r: nat :: r in t.audit ==> t.audit[r].changed == t.outbox[(r, 0)])
  }

  function Derived(t: Tables): Projection { Projection(t.resources, t.roleBindings, t.pathPolicies, t.tombstones) }

  /** The derived tables show the current snapshot, and nothing else. */
  ghost predicate DerivedRows(t: Tables) {
    var current := CurrentRevision(t);
    if current in t.revisions then Writable(t.revisions[current].snapshot) && ShowsSnapshot(Derived(t), t.revisions[current].snapshot)
    else Derived(t) == Projection(map[], map[], map[], map[])
  }

  /** Every recorded key names the one revision that was committed under it. */
  ghost predicate KeyRows(t: Tables) {
    && (forall k :: k in t.idempotency ==>
          var commit := t.idempotency[k].commit;
          && commit.revision in t.audit && !commit.replayed
          && t.audit[commit.revision].key == Some(k) && t.audit[commit.revision].changed == commit.changed)
    && (forall r: nat :: r in t.audit && t.audit[r].key.Some? ==>
          t.audit[r].key.value in t.idempotency && t.idempotency[t.audit[r].key.value].commit.revision == r)
  }

  ghost predicate RowsAgree(t: Tables) {
    HistoryRows(t) && DerivedRows(t) && KeyRows(t)
  }

  lemma HistoryRowsAgree(t: Tables, s: Store)
    requires HistoryTables(t, s)
    ensures HistoryRows(t)
  {
    forall r: nat | r in t.audit ensures t.audit[r].changed == t.outbox[(r, 0)] {
      assert AuditOf(t.audit[r], s.history[r - 1]) && (r, 0) in t.outbox;
    }
  }

  lemma KeyRowsAgree(domain: Domain, t: Tables, s: Store)
    requires AuditTable(t.audit, s) && KeyTable(t, s) && Consistent(domain, s)
    ensures KeyRows(t)
  {
    hide Project;
    forall r: nat | r in t.audit ensures AuditOf(t.audit[r], s.history[r - 1]) {
    }
  }

  lemma DerivedRowsAgree(t: Tables, s: Store)
    requires RevisionTable(t.revisions, s) && t.state == (if s.history == [] then None else Some(s.Revision()))
    requires CurrentTables(t, s) && (s.history != [] ==> Project(s.Current()).Some?)
    ensures DerivedRows(t)
  {
    hide Project, Writable, ShowsSnapshot;
    if s.history != [] { ProjectionShowsSnapshot(s.Current()); }
  }

  lemma RepresentedRowsAgree(domain: Domain, t: Tables, s: Store)
    requires Represents(t, s) && Consistent(domain, s)
    ensures RowsAgree(t)
  {
    hide Project, KeyRows, HistoryRows, DerivedRows, Consistent, RevisionTable, AuditTable, OutboxTable, CurrentTables, KeyTable;
    HistoryRowsAgree(t, s);
    KeyRowsAgree(domain, t, s);
    if s.history != [] { CurrentProjects(domain, s); }
    DerivedRowsAgree(t, s);
  }

  lemma CurrentProjects(domain: Domain, s: Store)
    requires Consistent(domain, s) && s.history != []
    ensures Project(s.Current()).Some?
  {
  }

  // ---- What a transaction does to the tables -----------------------------

  /** The request is well formed and new, was prepared against the current
      revision, and leaves a snapshot that can be written. */
  ghost predicate Commits(domain: Domain, t: Tables, a: Authorization, c: ChangeSet) {
    && domain.accepts(a, c) && !a.replayOnly && (c.key.Some? ==> c.key.value !in t.idempotency)
    && t.state == Some(a.expected) && a.expected in t.revisions && a.expected + 1 < 0x8000_0000_0000_0000
    && var applied := domain.apply(t.revisions[a.expected].snapshot, t.entityVersions, a.expected + 1, a, c);
       applied.Some? && Writable(applied.value.snapshot)
  }

  /** The next revision: the changed snapshot under it, one event and one audit
      row, the derived tables, the versions, and the key if there is one. */
  ghost predicate NextRows(t: Tables, revision: nat, a: Authorization, c: ChangeSet, applied: Applied, now: nat, instance: string, t': Tables) {
    && t'.state == Some(revision)
    && t'.revisions == t.revisions[revision := RevisionRow(applied.snapshot, now)]
    && t'.outbox == t.outbox[(revision, 0) := applied.changed]
    && t'.audit == t.audit[revision := AuditRow(a.principal, a.request, c.key, applied.changed, now, instance)]
    && Writable(applied.snapshot) && ShowsSnapshot(Derived(t'), applied.snapshot) && t'.entityVersions == applied.versions
    && t'.idempotency ==
       if c.key.Some? then t.idempotency[c.key.value := Recorded(c, Commit(revision, applied.changed, false), Some(a.fingerprint))]
       else t.idempotency
  }

  /** The change is applied to the current snapshot and recorded. */
  ghost predicate Committed(domain: Domain, t: Tables, a: Authorization, c: ChangeSet, now: nat, instance: string, commit: Commit, t': Tables)
    requires Commits(domain, t, a, c)
  {
    var applied := domain.apply(t.revisions[a.expected].snapshot, t.entityVersions, a.expected + 1, a, c).value;
    commit == Commit(a.expected + 1, applied.changed, false) && NextRows(t, a.expected + 1, a, c, applied, now, instance, t')
  }

  /** The request was committed before, by the same principal for the same
      changes. */
  predicate Replays(domain: Domain, t: Tables, a: Authorization, c: ChangeSet) {
    && domain.accepts(a, c) && c.key.Some? && c.key.value in t.idempotency
    && t.idempotency[c.key.value].changes == c && t.idempotency[c.key.value].fingerprint == Some(a.fingerprint)
  }

  /** A new commit, a recorded one handed out again, or an error; only the first
      changes anything. */
  ghost predicate Outcome(domain: Domain, t: Tables, a: Authorization, c: ChangeSet, now: nat, instance: string, r: Result<Commit, ControlError>, t': Tables) {
    if Commits(domain, t, a, c) then r.Ok? && Committed(domain, t, a, c, now, instance, r.value, t')
    else
      && t' == t
      && (if Replays(domain, t, a, c) then r == Ok(t.idempotency[c.key.value].commit.(replayed := true))
          else r.Err? && IsTrue(domain, t, a, c, r.error))
  }

  /** What an error says is so. */
  ghost predicate IsTrue(domain: Domain, t: Tables, a: Authorization, c: ChangeSet, error: ControlError) {
    var recorded := c.key.Some? && c.key.value in t.idempotency;
    match error
    case Invalid => !domain.accepts(a, c)
    case Uninitialized => t.state.None?
    case IdempotencyConflict(key) => c.key == Some(key) && recorded && t.idempotency[key].changes != c
    case AuthorizationConflict(_) => if recorded then t.idempotency[c.key.value].fingerprint != Some(a.fingerprint) else a.replayOnly
    case RevisionConflict(expected, current) => expected == a.expected && t.state == Some(current) && current != expected
    case Rejected => a.expected in t.revisions && domain.apply(t.revisions[a.expected].snapshot, t.entityVersions, a.expected + 1, a, c).None?
    case Storage =>
      a.expected in t.revisions
      && var applied := domain.apply(t.revisions[a.expected].snapshot, t.entityVersions, a.expected + 1, a, c);
         applied.Some? && (a.expected + 1 >= I64_LIMIT || !Writable(applied.value.snapshot))
  }

  /** Revision 1 in a store that has none. */
  ghost predicate FirstRevision(t: Tables, seed: Snapshot, actor: Principal, now: nat, instance: string, t': Tables)
    requires Writable(seed)
  {
    && t'.state == Some(1) && t'.revisions == t.revisions[1 := RevisionRow(seed, now)] && t'.outbox == t.outbox[(1, 0) := ["snapshot"]]
    && t'.audit == t.audit[1 := AuditRow(actor, Request("BOOTSTRAP", "/_control/v1/platform", "bootstrap"), None, ["snapshot"], now, instance)]
    && ShowsSnapshot(Derived(t'), seed) && t'.entityVersions == t.entityVersions && t'.idempotency == t.idempotency
  }

  /** Only an empty store takes a seed, and only a sound one that can be written. */
  ghost predicate SeedOutcome(domain: Domain, t: Tables, seed: Snapshot, actor: Principal, now: nat, instance: string,
                              r: Result<Bootstrap, ControlError>, t': Tables)
  {
    if t.state.Some? then r == Ok(AlreadyInitialized(t.state.value)) && t' == t
    else if domain.bootable(seed, actor) && Writable(seed) then r == Ok(Bootstrapped(1)) && FirstRevision(t, seed, actor, now, instance, t')
    else r.Err? && t' == t
  }

  // ---- Statements --------------------------------------------------------

  /** `INSERT` under a primary key. */
  function Insert<K(==), V>(table: map<K, V>, key: K, value: V): Result<map<K, V>, ControlError> {
    if key in table then Err(Storage) else Ok(table[key := value])
  }

  /** One row per element, in order; stops at the first repeated key. */
  method InsertEach<K(==), V>(table: map<K, V>, rows: seq<(K, V)>) returns (r: Result<map<K, V>, ControlError>)
    ensures r == (var all := InsertAll(table, rows); if all.Some? then Ok(all.value) else Err(Storage))
  {
    var t := table;
    for i := 0 to |rows|
      invariant InsertAll(table, rows[..i]) == Some(t)
    {
      assert rows[..i + 1][..i] == rows[..i];
      assert rows == rows[..i + 1] + rows[i + 1..];
      InsertAllSplits(table, rows[..i + 1], rows[i + 1..]);
      t :- Insert(t, rows[i].0, rows[i].1);
    }
    assert rows[..|rows|] == rows;
    return Ok(t);
  }

  /** The collections' rows, each under the catalog it names. */
  method InsertCollections(table: map<string, Resource>, catalogs: seq<Catalog>, collections: seq<Collection>)
    returns (r: Result<map<string, Resource>, ControlError>)
    ensures var rows := CollectionRows(catalogs, collections);
            var all := if rows.None? then None else InsertAll(table, rows.value);
            r == if all.Some? then Ok(all.value) else Err(Storage)
  {
    hide InsertAll, CollectionRows, CollectionRow;
    NoCollections(table, catalogs);
    var t := table;
    for i := 0 to |collections|
      invariant CollectionRows(catalogs, collections[..i]).Some?
      invariant InsertAll(table, CollectionRows(catalogs, collections[..i]).value) == Some(t)
    {
      NextCollection(table, catalogs, collections, i);
      var row := CollectionRow(catalogs, collections[i]);
      if row.None? {
        return Err(Storage);
      }
      t :- Insert(t, row.value.0, row.value.1);
    }
    assert collections[..|collections|] == collections;
    return Ok(t);
  }

  lemma NoCollections(table: map<string, Resource>, catalogs: seq<Catalog>)
    ensures CollectionRows(catalogs, []) == Some([]) && InsertAll(table, []) == Some(table)
  {
  }

  /** What one more collection does to the rows, and what its failure means. */
  lemma NextCollection(table: map<string, Resource>, catalogs: seq<Catalog>, collections: seq<Collection>, i: nat)
    requires i < |collections| && CollectionRows(catalogs, collections[..i]).Some?
    requires InsertAll(table, CollectionRows(catalogs, collections[..i]).value).Some?
    ensures var row, t := CollectionRow(catalogs, collections[i]), InsertAll(table, CollectionRows(catalogs, collections[..i]).value).value;
            var rows, next := CollectionRows(catalogs, collections), CollectionRows(catalogs, collections[..i + 1]);
            && (row.None? ==> rows.None?)
            && (row.Some? ==> next.Some?)
            && (row.Some? && row.value.0 !in t ==> InsertAll(table, next.value) == Some(t[row.value.0 := row.value.1]))
            && (row.Some? && row.value.0 in t ==> rows.None? || InsertAll(table, rows.value).None?)
  {
    hide CollectionRow;
    assert collections[..i + 1][..i] == collections[..i];
    CollectionPrefix(table, catalogs, collections, i + 1);
  }

  /** What fails on the first collections fails on all of them. */
  lemma {:induction false} CollectionPrefix(table: map<string, Resource>, catalogs: seq<Catalog>, collections: seq<Collection>, n: nat)
    requires n <= |collections|
    ensures var part, all := CollectionRows(catalogs, collections[..n]), CollectionRows(catalogs, collections);
            all.Some? ==> part.Some? && (InsertAll(table, all.value).Some? ==> InsertAll(table, part.value).Some?)
    decreases |collections|
  {
    if n == |collections| {
      assert collections[..n] == collections;
    } else {
      assert collections[..|collections| - 1][..n] == collections[..n];
      CollectionPrefix(table, catalogs, collections[..|collections| - 1], n);
    }
  }

  /** The rows of all tenants' own roles. */
  method InsertTenantRoles(table: map<string, Resource>, policies: seq<TenantPolicy>)
    returns (r: Result<map<string, Resource>, ControlError>)
    ensures r == (var all := InsertAll(table, TenantRoleRows(policies)); if all.Some? then Ok(all.value) else Err(Storage))
  {
    var t := table;
    for i := 0 to |policies|
      invariant InsertAll(table, TenantRoleRows(policies[..i])) == Some(t)
    {
      assert policies[..i + 1][..i] == policies[..i];
      var rows := Map(role => TenantRoleRow(policies[i].tenant, role), policies[i].roles);
      InsertAllSplits(table, TenantRoleRows(policies[..i]), rows);
      TenantRolePrefix(table, policies, i + 1);
      t :- InsertEach(t, rows);
    }
    assert policies[..|policies|] == policies;
    return Ok(t);
  }

  lemma {:induction false} TenantRolePrefix(table: map<string, Resource>, policies: seq<TenantPolicy>, n: nat)
    requires n <= |policies|
    ensures InsertAll(table, TenantRoleRows(policies)).Some? ==> InsertAll(table, TenantRoleRows(policies[..n])).Some?
    decreases |policies|
  {
    if n == |policies| {
      assert policies[..n] == policies;
    } else {
      var front, last := policies[..|policies| - 1], policies[|policies| - 1];
      assert front[..n] == policies[..n];
      TenantRolePrefix(table, front, n);
      InsertAllSplits(table, TenantRoleRows(front), Map(role => TenantRoleRow(last.tenant, role), last.roles));
    }
  }

  /** The resource table, section by section. */
  method InsertResources(s: Snapshot) returns (r: Result<map<string, Resource>, ControlError>)
    ensures var rows := ResourceRows(s);
            var all := if rows.None? then None else InsertAll(map[], rows.value);
            r == if all.Some? then Ok(all.value) else Err(Storage)
    ensures r.Ok? <==> Filed(s) && KeysDiffer(s)
    ensures r.Ok? ==> ShowsResources(r.value, s)
  {
    hide InsertAll, Map, CollectionRows, TenantRoleRows, Filed, KeysDiffer, ShowsResources;
    ResourcesShown(s);
    ghost var a, b, c := [("platform", Resource("platform", s.body))], Map(TenantRow, s.tenants), Map(CatalogRow, s.catalogs);
    ghost var e, f := Map(RoleRow, s.roles), TenantRoleRows(s.tenantPolicies);
    ghost var rows := CollectionRows(s.catalogs, s.collections);
    if rows.Some? {
      var d := rows.value;
      InsertAllSplits(map[], a + b + c + d + e, f);
      InsertAllSplits(map[], a + b + c + d, e);
      InsertAllSplits(map[], a + b + c, d);
    }
    InsertAllSplits(map[], a + b, c);
    InsertAllSplits(map[], a, b);
    var t: map<string, Resource> := map[];
    t :- InsertEach(t, [("platform", Resource("platform", s.body))]);
    t :- InsertEach(t, Map(TenantRow, s.tenants));
    t :- InsertEach(t, Map(CatalogRow, s.catalogs));
    t :- InsertCollections(t, s.catalogs, s.collections);
    t :- InsertEach(t, Map(RoleRow, s.roles));
    t :- InsertTenantRoles(t, s.tenantPolicies);
    return Ok(t);
  }

  /** Empties the four derived tables and fills them from the snapshot. */
  method ReplaceCurrentResources(t: Tables, s: Snapshot) returns (r: Result<Tables, ControlError>)
    ensures r == (var p := Project(s);
                  if p.None? then Err(Storage)
                  else Ok(t.(resources := p.value.resources, roleBindings := p.value.roleBindings,
                             pathPolicies := p.value.pathPolicies, tombstones := p.value.tombstones)))
    ensures r.Ok? <==> Writable(s)
    ensures r.Ok? ==> ShowsSnapshot(Derived(r.value), s)
  {
    hide InsertAll, ResourceRows, Filed, KeysDiffer, ShowsResources, Distinct, IsTable;
    ProjectionShowsSnapshot(s);
    var resources :- InsertResources(s);
    var bindings :- InsertEach(map[], s.roleBindings);
    var policies :- InsertEach(map[], s.pathPolicies);
    var tombstones :- InsertEach(map[], s.tombstones);
    return Ok(t.(resources := resources, roleBindings := bindings, pathPolicies := policies, tombstones := tombstones));
  }

  /** Empties the version table and copies the versions into it. */
  method ReplaceEntityVersions(t: Tables, versions: map<string, string>) returns (t': Tables)
    ensures t' == t.(entityVersions := versions)
  {
    var copied: map<string, string> := map[];
    var rest := versions.Keys;
    while rest != {}
      invariant rest <= versions.Keys
      invariant copied == map k | k in versions.Keys - rest :: versions[k]
    {
      var k :| k in rest;
      copied := copied[k := versions[k]];
      rest := rest - {k};
    }
    assert copied == versions;
    t' := t.(entityVersions := copied);
  }

  /** The snapshot of the current revision with the entity versions. */
  method LoadSnapshot(domain: Domain, t: Tables, ghost s: Store)
    returns (r: Result<(Snapshot, nat, map<string, string>), ControlError>)
    requires Represents(t, s) && Consistent(domain, s)
    ensures r == if s.history == [] then Err(Uninitialized) else Ok((s.Current(), s.Revision(), s.versions))
    ensures r.Err? <==> t.state.None?
    ensures r.Ok? ==> t.state == Some(r.value.1) && r.value.1 in t.revisions
                      && r.value.0 == t.revisions[r.value.1].snapshot && r.value.2 == t.entityVersions
  {
    hide Project;
    if t.state.None? {
      return Err(Uninitialized);
    }
    var revision := t.state.value;
    if revision !in t.revisions {
      return Err(Storage);
    }
    var snapshot := t.revisions[revision].snapshot;
    if !domain.valid(snapshot) {
      return Err(Invalid);
    }
    return Ok((snapshot, revision, t.entityVersions));
  }

  /** One row each in revisions, outbox and audit, and the new state. */
  method RecordRevision(t: Tables, revision: nat, snapshot: Snapshot, actor: Principal, request: Request, key: Option<string>,
                        changed: seq<string>, now: nat, instance: string)
    returns (r: Result<Tables, ControlError>)
    ensures r == if revision >= I64_LIMIT || revision in t.revisions || (revision, 0) in t.outbox || revision in t.audit then Err(Storage)
                 else Ok(t.(state := Some(revision), revisions := t.revisions[revision := RevisionRow(snapshot, now)],
                            outbox := t.outbox[(revision, 0) := changed],
                            audit := t.audit[revision := AuditRow(actor, request, key, changed, now, instance)]))
  {
    if revision >= I64_LIMIT {
      return Err(Storage);
    }
    var revisions :- Insert(t.revisions, revision, RevisionRow(snapshot, now));
    var outbox :- Insert(t.outbox, (revision, 0), changed);
    var audit :- Insert(t.audit, revision, AuditRow(actor, request, key, changed, now, instance));
    return Ok(t.(state := Some(revision), revisions := revisions, outbox := outbox, audit := audit));
  }
}
