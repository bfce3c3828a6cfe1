/** The control store, seen from outside: a history of snapshots, and what the
    tables derived from the newest one must contain. */
module ControlModel {
  import opened Wrappers

  // ---- Snapshots and their projection ------------------------------------

  datatype Tenant = Tenant(id: string, body: string)
  datatype Catalog = Catalog(id: string, tenant: string, body: string)
  datatype Collection = Collection(id: string, catalog: string, body: string)
  datatype Role = Role(name: string, body: string)
  datatype TenantPolicy = TenantPolicy(tenant: string, roles: seq<Role>)
  datatype BindingKey = BindingKey(issuer: string, subject: string, role: string, scopeKey: string)

  /** A validated configuration; `body` stands for an entity's whole JSON. */
  datatype Snapshot = Snapshot(body: string, tenants: seq<Tenant>, catalogs: seq<Catalog>, collections: seq<Collection>,
                               roles: seq<Role>, tenantPolicies: seq<TenantPolicy>,
                               roleBindings: seq<(BindingKey, string)>, pathPolicies: seq<(string, string)>, tombstones: seq<(string, string)>)

  datatype Resource = Resource(kind: string, body: string)

  type Row = (string, Resource)

  function TenantRow(t: Tenant): Row { ("tenant/" + t.id, Resource("tenant", t.body)) }

  function CatalogRow(c: Catalog): Row { ("tenant/" + c.tenant + "/catalog/" + c.id, Resource("catalog", c.body)) }

  /** The first catalog with this id. */
  function FindCatalog(catalogs: seq<Catalog>, id: string): (r: Option<Catalog>)
    ensures r.None? <==> forall k :: 0 <= k < |catalogs| ==> catalogs[k].id != id
    ensures r.Some? ==> exists k :: 0 <= k < |catalogs| && catalogs[k] == r.value && r.value.id == id && forall j :: 0 <= j < k ==> catalogs[j].id != id
  {
    if catalogs == [] then None else if catalogs[0].id == id then Some(catalogs[0]) else FindCatalog(catalogs[1..], id)
  }

  function CollectionRow(catalogs: seq<Catalog>, c: Collection): Option<Row> {
    var catalog := FindCatalog(catalogs, c.catalog);
    if catalog.None? then None
    else Some(("tenant/" + catalog.value.tenant + "/catalog/" + catalog.value.id + "/collection/" + c.id, Resource("collection", c.body)))
  }

  function RoleRow(r: Role): Row { ("role/platform/" + r.name, Resource("role", r.body)) }

  function TenantRoleRow(tenant: string, r: Role): Row { ("role/tenant/" + tenant + "/" + r.name, Resource("role", r.body)) }

  function Map<A, B>(f: A -> B, s: seq<A>): (r: seq<B>)
    ensures |r| == |s| && forall i :: 0 <= i < |s| ==> r[i] == f(s[i])
  {
    if s == [] then [] else Map(f, s[..|s| - 1]) + [f(s[|s| - 1])]
  }

  /** Every collection's row; nothing if one names an unknown catalog. */
  function CollectionRows(catalogs: seq<Catalog>, collections: seq<Collection>): Option<seq<Row>> {
    if collections == [] then Some([])
    else
      var front, last := CollectionRows(catalogs, collections[..|collections| - 1]), CollectionRow(catalogs, collections[|collections| - 1]);
      if front.None? || last.None? then None else Some(front.value + [last.value])
  }

  function TenantRoleRows(policies: seq<TenantPolicy>): seq<Row> {
    if policies == [] then []
    else
      var last := policies[|policies| - 1];
      TenantRoleRows(policies[..|policies| - 1]) + Map(r => TenantRoleRow(last.tenant, r), last.roles)
  }

  /** All rows of the resource table, in the order they are written. */
  function ResourceRows(s: Snapshot): Option<seq<Row>> {
    var collections := CollectionRows(s.catalogs, s.collections);
    if collections.None? then None
    else Some([("platform", Resource("platform", s.body))] + Map(TenantRow, s.tenants) + Map(CatalogRow, s.catalogs)
              + collections.value + Map(RoleRow, s.roles) + TenantRoleRows(s.tenantPolicies))
  }

  /** Rows inserted one by one under a primary key. */
  function InsertAll<K(==), V>(table: map<K, V>, rows: seq<(K, V)>): Option<map<K, V>> {
    if rows == [] then Some(table)
    else
      var front, last := InsertAll(table, rows[..|rows| - 1]), rows[|rows| - 1];
      if front.None? || last.0 in front.value then None else Some(front.value[last.0 := last.1])
  }

  /** The four tables derived from a snapshot. */
  datatype Projection = Projection(resources: map<string, Resource>, roleBindings: map<BindingKey, string>,
                                   pathPolicies: map<string, string>, tombstones: map<string, string>)

  function Project(s: Snapshot): Option<Projection> {
    var rows := ResourceRows(s);
    var resources := if rows.None? then None else InsertAll(map[], rows.value);
    var bindings, policies, tombstones := InsertAll(map[], s.roleBindings), InsertAll(map[], s.pathPolicies), InsertAll(map[], s.tombstones);
    if resources.None? || bindings.None? || policies.None? || tombstones.None? then None
    else Some(Projection(resources.value, bindings.value, policies.value, tombstones.value))
  }

  lemma {:induction false} InsertAllSplits<K, V>(table: map<K, V>, a: seq<(K, V)>, b: seq<(K, V)>)
    ensures var front := InsertAll(table, a);
            InsertAll(table, a + b) == if front.None? then None else InsertAll(front.value, b)
  {
    if b == [] {
      assert a + b == a;
    } else {
      InsertAllSplits(table, a, b[..|b| - 1]);
      assert (a + b)[..|a + b| - 1] == a + b[..|b| - 1];
    }
  }

  /** A table holds exactly its rows, and exists exactly when no key repeats. */
  lemma {:induction false} TableIsRows<K, V>(rows: seq<(K, V)>)
    ensures var t := InsertAll(map[], rows);
            && (t.Some? <==> forall i, j :: 0 <= i < j < |rows| ==> rows[i].0 != rows[j].0)
            && (t.Some? ==> (forall i :: 0 <= i < |rows| ==> rows[i].0 in t.value && t.value[rows[i].0] == rows[i].1)
                            && forall k :: k in t.value ==> exists i :: 0 <= i < |rows| && rows[i].0 == k)
  {
    if rows != [] {
      var front, last := rows[..|rows| - 1], rows[|rows| - 1];
      TableIsRows(front);
      var t := InsertAll(map[], front);
      if t.Some? && last.0 in t.value {
        var i :| 0 <= i < |front| && front[i].0 == last.0;
        assert rows[i].0 == rows[|rows| - 1].0;
      }
      if t.None? {
        var i, j :| 0 <= i < j < |front| && front[i].0 == front[j].0;
        assert rows[i].0 == rows[j].0;
      }
    }
  }

  // ---- Requests ----------------------------------------------------------

  datatype Principal = Principal(issuer: string, subject: string)
  datatype Request = Request(verb: string, path: string, correlation: string)
  datatype ChangeSet = ChangeSet(key: Option<string>, operations: string)

  /** An authorized mutation, prepared against snapshot `expected`. */
  datatype Authorization = Authorization(principal: Principal, request: Request, expected: nat, fingerprint: string, replayOnly: bool)

  datatype Commit = Commit(revision: nat, changed: seq<string>, replayed: bool)

  datatype Applied = Applied(snapshot: Snapshot, versions: map<string, string>, changed: seq<string>)

  /** What the store takes from the control model: which requests and seeds are
      well formed, which snapshots are valid, and what a change does. */
  datatype Domain = Domain(accepts: (Authorization, ChangeSet) -> bool,
                           valid: Snapshot -> bool,
                           bootable: (Snapshot, Principal) -> bool,
                           apply: (Snapshot, map<string, string>, nat, Authorization, ChangeSet) -> Option<Applied>)

  /** A change applied to a snapshot leaves a valid one; so is a seed. */
  ghost predicate Sound(domain: Domain) {
    && (forall s, v, n, a, c :: domain.apply(s, v, n, a, c).Some? ==> domain.valid(domain.apply(s, v, n, a, c).value.snapshot))
    && (forall s, p :: domain.bootable(s, p) ==> domain.valid(s))
  }

  datatype ControlError =
    | Invalid
    | Uninitialized
    | IdempotencyConflict(key: string)
    | AuthorizationConflict(key: string)
    | RevisionConflict(expected: nat, current: nat)
    | Rejected
    | Storage

  // ---- The abstract store ------------------------------------------------

  datatype Entry = Entry(snapshot: Snapshot, changed: seq<string>, actor: Principal, request: Request, key: Option<string>)

  datatype Done = Done(changes: ChangeSet, commit: Commit, fingerprint: string)

  /** The committed entries, oldest first: entry `i` is revision `i + 1`. */
  datatype Store = Store(history: seq<Entry>, versions: map<string, string>, done: map<string, Done>) {
    function Revision(): nat { |history| }

    function Current(): Snapshot
      requires history != []
    {
      history[|history| - 1].snapshot
    }
  }

  const EMPTY := Store([], map[], map[])

  const I64_LIMIT: nat := 0x8000_0000_0000_0000

  function Extended(s: Store, a: Authorization, c: ChangeSet, applied: Applied): (Store, Commit) {
    var commit := Commit(s.Revision() + 1, applied.changed, false);
    var entry := Entry(applied.snapshot, applied.changed, a.principal, a.request, c.key);
    var done := if c.key.Some? then s.done[c.key.value := Done(c, commit, a.fingerprint)] else s.done;
    (Store(s.history + [entry], applied.versions, done), commit)
  }

  /** One transaction on the abstract store. */
  function Transacted(domain: Domain, s: Store, a: Authorization, c: ChangeSet): Result<(Store, Commit), ControlError> {
    if !domain.accepts(a, c) then Err(Invalid)
    else if c.key.Some? && c.key.value in s.done then
      var done := s.done[c.key.value];
      if done.changes != c then Err(IdempotencyConflict(c.key.value))
      else if done.fingerprint != a.fingerprint then Err(AuthorizationConflict(c.key.value))
      else Ok((s, done.commit.(replayed := true)))
    else if a.replayOnly then Err(AuthorizationConflict(if c.key.Some? then c.key.value else ""))
    else if s.history == [] then Err(Uninitialized)
    else if a.expected != s.Revision() then Err(RevisionConflict(a.expected, s.Revision()))
    else
      var applied := domain.apply(s.Current(), s.versions, s.Revision() + 1, a, c);
      if applied.None? then Err(Rejected)
      else if s.Revision() + 1 >= I64_LIMIT || Project(applied.value.snapshot).None? then Err(Storage)
      else Ok(Extended(s, a, c, applied.value))
  }

  const BOOTSTRAP := Request("BOOTSTRAP", "/_control/v1/platform", "bootstrap")

  datatype Bootstrap = Bootstrapped(revision: nat) | AlreadyInitialized(revision: nat)

  /** The first revision, written only into an empty store. */
  function Seeded(domain: Domain, s: Store, seed: Snapshot, actor: Principal): Result<(Store, Bootstrap), ControlError> {
    if s.history != [] then Ok((s, AlreadyInitialized(s.Revision())))
    else if !domain.bootable(seed, actor) then Err(Invalid)
    else if Project(seed).None? then Err(Storage)
    else Ok((s.(history := [Entry(seed, ["snapshot"], actor, BOOTSTRAP, None)]), Bootstrapped(1)))
  }

  datatype Op = Seed(seed: Snapshot, actor: Principal) | Change(a: Authorization, c: ChangeSet)

  /** A failed operation leaves the store alone. */
  function After(domain: Domain, s: Store, op: Op): Store {
    match op
    case Seed(seed, actor) => (match Seeded(domain, s, seed, actor) case Ok(r) => r.0 case Err(_) => s)
    case Change(a, c) => (match Transacted(domain, s, a, c) case Ok(r) => r.0 case Err(_) => s)
  }

  function AfterAll(domain: Domain, s: Store, ops: seq<Op>): Store {
    if ops == [] then s else After(domain, AfterAll(domain, s, ops[..|ops| - 1]), ops[|ops| - 1])
  }

  // ---- What every run keeps ----------------------------------------------

  /** Recorded keys and history tell the same story: each key has exactly one
      entry, the one its commit names. */
  ghost predicate Consistent(domain: Domain, s: Store) {
    && s.Revision() < I64_LIMIT
    && (forall i :: 0 <= i < |s.history| ==> domain.valid(s.history[i].snapshot) && Project(s.history[i].snapshot).Some?)
    && (s.history == [] ==> s.versions == map[] && s.done == map[])
    && (forall k :: k in s.done ==>
          var commit := s.done[k].commit;
          && !commit.replayed && 0 < commit.revision <= |s.history|
          && s.done[k].changes.key == Some(k)
          && s.history[commit.revision - 1].key == Some(k) && s.history[commit.revision - 1].changed == commit.changed)
    && (forall i :: 0 <= i < |s.history| && s.history[i].key.Some? ==>
          s.history[i].key.value in s.done && s.done[s.history[i].key.value].commit.revision == i + 1)
  }

  /** A new revision under a new key keeps the stories equal. */
  lemma ExtendedIsConsistent(domain: Domain, s: Store, a: Authorization, c: ChangeSet, applied: Applied)
    requires Consistent(domain, s) && s.Revision() + 1 < I64_LIMIT
    requires domain.valid(applied.snapshot) && Project(applied.snapshot).Some?
    requires c.key.Some? ==> c.key.value !in s.done
    ensures Consistent(domain, Extended(s, a, c, applied).0)
  {
    hide Project;
    var after := Extended(s, a, c, applied).0;
    forall k | k in after.done
      ensures var commit := after.done[k].commit;
              && !commit.replayed && 0 < commit.revision <= |after.history|
              && after.done[k].changes.key == Some(k)
              && after.history[commit.revision - 1].key == Some(k) && after.history[commit.revision - 1].changed == commit.changed
    {
      if c.key != Some(k) { assert after.history[s.done[k].commit.revision - 1] == s.history[s.done[k].commit.revision - 1]; }
    }
    forall i | 0 <= i < |after.history| && after.history[i].key.Some?
      ensures after.history[i].key.value in after.done && after.done[after.history[i].key.value].commit.revision == i + 1
    {
      if i < |s.history| { assert after.history[i] == s.history[i]; }
    }
  }

  lemma StepKeepsConsistent(domain: Domain, s: Store, op: Op)
    requires Sound(domain) && Consistent(domain, s)
    ensures Consistent(domain, After(domain, s, op))
    ensures s.history <= After(domain, s, op).history
    ensures forall k :: k in s.done ==> k in After(domain, s, op).done && After(domain, s, op).done[k] == s.done[k]
  {
    hide Project, Consistent;
    match op {
      case Change(a, c) =>
        if Transacted(domain, s, a, c).Ok? && !(c.key.Some? && c.key.value in s.done) {
          ExtendedIsConsistent(domain, s, a, c, domain.apply(s.Current(), s.versions, s.Revision() + 1, a, c).value);
        }
      case Seed(seed, actor) =>
        if s.history == [] && domain.bootable(seed, actor) && Project(seed).Some? { SeedIsConsistent(domain, s, seed, actor); }
    }
  }

  lemma SeedIsConsistent(domain: Domain, s: Store, seed: Snapshot, actor: Principal)
    requires Consistent(domain, s) && s.history == [] && domain.valid(seed) && Project(seed).Some?
    ensures Consistent(domain, s.(history := [Entry(seed, ["snapshot"], actor, BOOTSTRAP, None)]))
  {
    hide Project;
    assert forall k :: k !in s.done;
  }

  lemma {:induction false} RunKeepsConsistent(domain: Domain, s: Store, ops: seq<Op>)
    requires Sound(domain) && Consistent(domain, s)
    ensures Consistent(domain, AfterAll(domain, s, ops))
    ensures s.history <= AfterAll(domain, s, ops).history
    ensures forall k :: k in s.done ==> k in AfterAll(domain, s, ops).done && AfterAll(domain, s, ops).done[k] == s.done[k]
  {
    hide Consistent, Sound, After;
    if ops != [] {
      RunKeepsConsistent(domain, s, ops[..|ops| - 1]);
      StepKeepsConsistent(domain, AfterAll(domain, s, ops[..|ops| - 1]), ops[|ops| - 1]);
    }
  }

  lemma EmptyIsConsistent(domain: Domain)
    ensures Consistent(domain, EMPTY)
  {
  }

  /** No key commits twice, whatever is sent in whatever order. */
  lemma KeysCommitOnce(domain: Domain, ops: seq<Op>, i: nat, j: nat)
    requires Sound(domain)
    requires i < j < |AfterAll(domain, EMPTY, ops).history|
    ensures var h := AfterAll(domain, EMPTY, ops).history;
            h[i].key.Some? ==> h[i].key != h[j].key
  {
    EmptyIsConsistent(domain);
    RunKeepsConsistent(domain, EMPTY, ops);
  }

  /** A matching resend, however much later and whatever revision it expects,
      returns the recorded commit and changes nothing. */
  lemma ResendReplays(domain: Domain, s: Store, a: Authorization, c: ChangeSet, later: seq<Op>, resend: Authorization)
    requires Sound(domain) && Consistent(domain, s)
    requires c.key.Some? && Transacted(domain, s, a, c).Ok?
    requires domain.accepts(resend, c) && resend.fingerprint == a.fingerprint
    ensures var first := Transacted(domain, s, a, c).value;
            var now := AfterAll(domain, first.0, later);
            Transacted(domain, now, resend, c) == Ok((now, first.1.(replayed := true)))
  {
    hide Project, Consistent, Sound;
    var first := Transacted(domain, s, a, c).value;
    assert After(domain, s, Change(a, c)) == first.0;
    StepKeepsConsistent(domain, s, Change(a, c));
    RunKeepsConsistent(domain, first.0, later);
  }

  /** A reused key with another change set is refused for ever. */
  lemma KeyReuseIsRefused(domain: Domain, s: Store, a: Authorization, c: ChangeSet, later: seq<Op>, b: Authorization, d: ChangeSet)
    requires Sound(domain) && Consistent(domain, s)
    requires c.key.Some? && Transacted(domain, s, a, c).Ok? && !Transacted(domain, s, a, c).value.1.replayed
    requires d.key == c.key && d != c && domain.accepts(b, d)
    ensures Transacted(domain, AfterAll(domain, Transacted(domain, s, a, c).value.0, later), b, d) == Err(IdempotencyConflict(c.key.value))
  {
    hide Project, Consistent, Sound;
    var first := Transacted(domain, s, a, c).value;
    assert After(domain, s, Change(a, c)) == first.0;
    StepKeepsConsistent(domain, s, Change(a, c));
    RunKeepsConsistent(domain, first.0, later);
  }

  /** No lost update: once a change prepared against a snapshot has committed,
      no other change prepared against the same snapshot ever commits. */
  lemma OneWinnerPerRevision(domain: Domain, s: Store, a: Authorization, c: ChangeSet, later: seq<Op>, b: Authorization, d: ChangeSet)
    requires Sound(domain) && Consistent(domain, s)
    requires Transacted(domain, s, a, c).Ok? && !Transacted(domain, s, a, c).value.1.replayed
    requires a.expected == b.expected
    ensures var second := Transacted(domain, AfterAll(domain, Transacted(domain, s, a, c).value.0, later), b, d);
            second.Ok? ==> second.value.1.replayed
  {
    hide Project, Consistent, Sound;
    var first := Transacted(domain, s, a, c).value;
    assert After(domain, s, Change(a, c)) == first.0;
    StepKeepsConsistent(domain, s, Change(a, c));
    RunKeepsConsistent(domain, first.0, later);
  }
}
