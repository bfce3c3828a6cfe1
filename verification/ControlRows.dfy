/** What the tables derived from a snapshot show of it: a row for everything in
    it, and no other. */
module ControlRows {
  import opened Wrappers
  import opened ControlModel

  /** Everything in a snapshot that has a row of its own. */
  datatype Item = Platform | OfTenant(i: nat) | OfCatalog(i: nat) | OfCollection(i: nat) | OfRole(i: nat) | OfTenantRole(i: nat, j: nat)

  predicate IsItem(s: Snapshot, item: Item) {
    match item
    case Platform => true
    case OfTenant(i) => i < |s.tenants|
    case OfCatalog(i) => i < |s.catalogs|
    case OfCollection(i) => i < |s.collections|
    case OfRole(i) => i < |s.roles|
    case OfTenantRole(i, j) => i < |s.tenantPolicies| && j < |s.tenantPolicies[i].roles|
  }

  /** Every collection names a catalog. */
  predicate Filed(s: Snapshot) {
    forall i :: 0 <= i < |s.collections| ==> FindCatalog(s.catalogs, s.collections[i].catalog).Some?
  }

  function KeyOf(s: Snapshot, item: Item): string
    requires IsItem(s, item) && Filed(s)
  {
    match item
    case Platform => "platform"
    case OfTenant(i) => "tenant/" + s.tenants[i].id
    case OfCatalog(i) => "tenant/" + s.catalogs[i].tenant + "/catalog/" + s.catalogs[i].id
    case OfCollection(i) =>
      var c := s.collections[i];
      "tenant/" + FindCatalog(s.catalogs, c.catalog).value.tenant + "/catalog/" + c.catalog + "/collection/" + c.id
    case OfRole(i) => "role/platform/" + s.roles[i].name
    case OfTenantRole(i, j) => "role/tenant/" + s.tenantPolicies[i].tenant + "/" + s.tenantPolicies[i].roles[j].name
  }

  function ResourceOf(s: Snapshot, item: Item): Resource
    requires IsItem(s, item)
  {
    match item
    case Platform => Resource("platform", s.body)
    case OfTenant(i) => Resource("tenant", s.tenants[i].body)
    case OfCatalog(i) => Resource("catalog", s.catalogs[i].body)
    case OfCollection(i) => Resource("collection", s.collections[i].body)
    case OfRole(i) => Resource("role", s.roles[i].body)
    case OfTenantRole(i, j) => Resource("role", s.tenantPolicies[i].roles[j].body)
  }

  ghost predicate Distinct<K, V>(rows: seq<(K, V)>) {
    forall i, j :: 0 <= i < j < |rows| ==> rows[i].0 != rows[j].0
  }

  /** The table holds exactly these rows. */
  ghost predicate IsTable<K, V>(table: map<K, V>, rows: seq<(K, V)>) {
    && (forall i :: 0 <= i < |rows| ==> rows[i].0 in table && table[rows[i].0] == rows[i].1)
    && forall k :: k in table ==> exists i :: 0 <= i < |rows| && rows[i].0 == k
  }

  /** No two rows of the resource table have one key. */
  ghost predicate KeysDiffer(s: Snapshot)
    requires Filed(s)
  {
    forall a, b :: IsItem(s, a) && IsItem(s, b) && a != b ==> KeyOf(s, a) != KeyOf(s, b)
  }

  /** Everything in the snapshot is there under its own key, and nothing else. */
  ghost predicate ShowsResources(resources: map<string, Resource>, s: Snapshot)
    requires Filed(s)
  {
    && (forall a :: IsItem(s, a) ==> KeyOf(s, a) in resources && resources[KeyOf(s, a)] == ResourceOf(s, a))
    && forall k :: k in resources ==> exists a :: IsItem(s, a) && KeyOf(s, a) == k
  }

  /** The snapshot can be written: its collections name catalogs, and no two
      rows of a table have one key. */
  ghost predicate Writable(s: Snapshot) {
    && Filed(s) && KeysDiffer(s)
    && Distinct(s.roleBindings) && Distinct(s.pathPolicies) && Distinct(s.tombstones)
  }

  /** The four tables show the snapshot. */
  ghost predicate ShowsSnapshot(p: Projection, s: Snapshot)
    requires Filed(s)
  {
    && ShowsResources(p.resources, s)
    && IsTable(p.roleBindings, s.roleBindings) && IsTable(p.pathPolicies, s.pathPolicies) && IsTable(p.tombstones, s.tombstones)
  }

  // ---- Items in the order of their rows ----------------------------------

  /** Row by row, these are the items' own rows. */
  ghost predicate Aligned(s: Snapshot, items: seq<Item>, rows: seq<Row>) {
    && Filed(s) && |items| == |rows|
    && forall n :: 0 <= n < |rows| ==> IsItem(s, items[n]) && rows[n] == (KeyOf(s, items[n]), ResourceOf(s, items[n]))
  }

  function TenantRoleItems(policies: seq<TenantPolicy>): seq<Item> {
    if policies == [] then []
    else
      var n: nat := |policies| - 1;
      TenantRoleItems(policies[..n]) + seq(|policies[n].roles|, (j: nat) => OfTenantRole(n, j))
  }

  function Items(s: Snapshot): seq<Item> {
    [Platform] + seq(|s.tenants|, (i: nat) => OfTenant(i)) + seq(|s.catalogs|, (i: nat) => OfCatalog(i))
    + seq(|s.collections|, (i: nat) => OfCollection(i)) + seq(|s.roles|, (i: nat) => OfRole(i)) + TenantRoleItems(s.tenantPolicies)
  }

  lemma {:induction false} TenantRoleItemIff(policies: seq<TenantPolicy>, item: Item)
    ensures item in TenantRoleItems(policies) <==>
              item.OfTenantRole? && item.i < |policies| && item.j < |policies[item.i].roles|
  {
    if policies != [] {
      var n: nat := |policies| - 1;
      var last := seq(|policies[n].roles|, (j: nat) => OfTenantRole(n, j));
      TenantRoleItemIff(policies[..n], item);
      if item.OfTenantRole? && item.i == n && item.j < |last| { assert last[item.j] == item; }
    }
  }

  lemma {:induction false} TenantRolesAligned(s: Snapshot, n: nat)
    requires Filed(s) && n <= |s.tenantPolicies|
    ensures Aligned(s, TenantRoleItems(s.tenantPolicies[..n]), TenantRoleRows(s.tenantPolicies[..n]))
  {
    if n > 0 {
      TenantRolesAligned(s, n - 1);
      assert s.tenantPolicies[..n][..n - 1] == s.tenantPolicies[..n - 1];
    }
  }

  /** No item is listed twice. */
  ghost predicate NoRepeats(items: seq<Item>) { forall n, m :: 0 <= n < m < |items| ==> items[n] != items[m] }

  lemma {:induction false} TenantRolesOnce(policies: seq<TenantPolicy>)
    ensures NoRepeats(TenantRoleItems(policies))
  {
    if policies != [] {
      var n := |policies| - 1;
      TenantRolesOnce(policies[..n]);
      forall item | item in TenantRoleItems(policies[..n]) ensures item.OfTenantRole? && item.i < n { TenantRoleItemIff(policies[..n], item); }
    }
  }

  lemma {:induction false} CollectionsAligned(catalogs: seq<Catalog>, collections: seq<Collection>)
    ensures CollectionRows(catalogs, collections).Some? <==> forall i :: 0 <= i < |collections| ==> FindCatalog(catalogs, collections[i].catalog).Some?
    ensures CollectionRows(catalogs, collections).Some? ==>
      var rows := CollectionRows(catalogs, collections).value;
      |rows| == |collections| && forall i :: 0 <= i < |collections| ==> Some(rows[i]) == CollectionRow(catalogs, collections[i])
  {
    hide FindCatalog;
    if collections != [] { CollectionsAligned(catalogs, collections[..|collections| - 1]); }
  }

  lemma AlignedJoins(s: Snapshot, items: seq<Item>, rows: seq<Row>, moreItems: seq<Item>, moreRows: seq<Row>)
    requires Aligned(s, items, rows) && Aligned(s, moreItems, moreRows)
    ensures Aligned(s, items + moreItems, rows + moreRows)
  {
  }

  lemma ItemsAligned(s: Snapshot)
    requires Filed(s)
    ensures ResourceRows(s).Some? && Aligned(s, Items(s), ResourceRows(s).value)
  {
    hide Map, FindCatalog, TenantRoleItems, TenantRoleRows, CollectionRows, Aligned;
    CollectionsAligned(s.catalogs, s.collections);
    var d := CollectionRows(s.catalogs, s.collections).value;
    TenantsAligned(s);
    CatalogsAligned(s);
    FiledAligned(s);
    RolesAligned(s);
    TenantRolesAligned(s, |s.tenantPolicies|);
    assert s.tenantPolicies[..|s.tenantPolicies|] == s.tenantPolicies;
    var platform := [("platform", Resource("platform", s.body))];
    var b, c, e := Map(TenantRow, s.tenants), Map(CatalogRow, s.catalogs), Map(RoleRow, s.roles);
    var ib, ic := seq(|s.tenants|, (i: nat) => OfTenant(i)), seq(|s.catalogs|, (i: nat) => OfCatalog(i));
    var id, ie := seq(|s.collections|, (i: nat) => OfCollection(i)), seq(|s.roles|, (i: nat) => OfRole(i));
    AlignedJoins(s, [Platform], platform, ib, b);
    AlignedJoins(s, [Platform] + ib, platform + b, ic, c);
    AlignedJoins(s, [Platform] + ib + ic, platform + b + c, id, d);
    AlignedJoins(s, [Platform] + ib + ic + id, platform + b + c + d, ie, e);
    AlignedJoins(s, [Platform] + ib + ic + id + ie, platform + b + c + d + e, TenantRoleItems(s.tenantPolicies), TenantRoleRows(s.tenantPolicies));
  }

  lemma TenantsAligned(s: Snapshot)
    requires Filed(s)
    ensures Aligned(s, [Platform], [("platform", Resource("platform", s.body))])
    ensures Aligned(s, seq(|s.tenants|, (i: nat) => OfTenant(i)), Map(TenantRow, s.tenants))
  {
    hide FindCatalog;
  }

  lemma CatalogsAligned(s: Snapshot)
    requires Filed(s)
    ensures Aligned(s, seq(|s.catalogs|, (i: nat) => OfCatalog(i)), Map(CatalogRow, s.catalogs))
  {
    hide FindCatalog;
  }

  lemma FiledAligned(s: Snapshot)
    requires Filed(s) && CollectionRows(s.catalogs, s.collections).Some?
    ensures Aligned(s, seq(|s.collections|, (i: nat) => OfCollection(i)), CollectionRows(s.catalogs, s.collections).value)
  {
    hide FindCatalog, CollectionRows;
    CollectionsAligned(s.catalogs, s.collections);
  }

  lemma RolesAligned(s: Snapshot)
    requires Filed(s)
    ensures Aligned(s, seq(|s.roles|, (i: nat) => OfRole(i)), Map(RoleRow, s.roles))
  {
    hide FindCatalog;
  }

  function Section(item: Item): nat {
    match item
    case Platform => 0
    case OfTenant(_) => 1
    case OfCatalog(_) => 2
    case OfCollection(_) => 3
    case OfRole(_) => 4
    case OfTenantRole(_, _) => 5
  }

  /** Items of the sections before `k`. */
  ghost predicate Before(items: seq<Item>, k: nat) { forall n :: 0 <= n < |items| ==> Section(items[n]) < k }

  lemma SectionJoins(items: seq<Item>, more: seq<Item>, k: nat)
    requires NoRepeats(items) && Before(items, k) && NoRepeats(more) && forall n :: 0 <= n < |more| ==> Section(more[n]) == k
    ensures NoRepeats(items + more) && Before(items + more, k + 1)
  {
  }

  lemma ItemsOnce(s: Snapshot)
    ensures NoRepeats(Items(s))
  {
    hide TenantRoleItems;
    var b, c := seq(|s.tenants|, (i: nat) => OfTenant(i)), seq(|s.catalogs|, (i: nat) => OfCatalog(i));
    var d, e, f := seq(|s.collections|, (i: nat) => OfCollection(i)), seq(|s.roles|, (i: nat) => OfRole(i)), TenantRoleItems(s.tenantPolicies);
    TenantRolesOnce(s.tenantPolicies);
    forall n | 0 <= n < |f| ensures Section(f[n]) == 5 {
      assert f[n] in f;
      TenantRoleItemIff(s.tenantPolicies, f[n]);
    }
    assert NoRepeats(b) && NoRepeats(c) && NoRepeats(d) && NoRepeats(e);
    hide NoRepeats, Before;
    assert NoRepeats([Platform]) && Before([Platform], 1) by { PlatformOnce(); }
    SectionJoins([Platform], b, 1);
    SectionJoins([Platform] + b, c, 2);
    SectionJoins([Platform] + b + c, d, 3);
    SectionJoins([Platform] + b + c + d, e, 4);
    SectionJoins([Platform] + b + c + d + e, f, 5);
  }

  lemma PlatformOnce()
    ensures NoRepeats([Platform]) && Before([Platform], 1)
  {
  }

  lemma ItemIff(s: Snapshot, item: Item)
    ensures item in Items(s) <==> IsItem(s, item)
  {
    hide TenantRoleItems;
    TenantRoleItemIff(s.tenantPolicies, item);
    var b, c := seq(|s.tenants|, (i: nat) => OfTenant(i)), seq(|s.catalogs|, (i: nat) => OfCatalog(i));
    var d, e := seq(|s.collections|, (i: nat) => OfCollection(i)), seq(|s.roles|, (i: nat) => OfRole(i));
    if IsItem(s, item) {
      match item {
        case Platform => assert [Platform][0] == item;
        case OfTenant(i) => assert b[i] == item;
        case OfCatalog(i) => assert c[i] == item;
        case OfCollection(i) => assert d[i] == item;
        case OfRole(i) => assert e[i] == item;
        case OfTenantRole(i, j) =>
      }
    }
  }

  /** A table of aligned rows shows every item under its key and nothing else,
      and exists exactly if no two items have one key. */
  lemma AlignedTable(s: Snapshot, items: seq<Item>, rows: seq<Row>)
    requires Aligned(s, items, rows) && NoRepeats(items) && forall a :: a in items <==> IsItem(s, a)
    ensures var t := InsertAll(map[], rows);
            (t.Some? <==> KeysDiffer(s)) && (t.Some? ==> ShowsResources(t.value, s))
  {
    hide KeyOf, ResourceOf, InsertAll, IsItem, Filed;
    TableIsRows(rows);
    var t := InsertAll(map[], rows);
    if t.Some? {
      forall a, b | IsItem(s, a) && IsItem(s, b) && a != b ensures KeyOf(s, a) != KeyOf(s, b) {
        var n :| 0 <= n < |items| && items[n] == a;
        var m :| 0 <= m < |items| && items[m] == b;
        assert rows[n].0 != rows[m].0;
      }
      forall a | IsItem(s, a) ensures KeyOf(s, a) in t.value && t.value[KeyOf(s, a)] == ResourceOf(s, a) {
        var n :| 0 <= n < |items| && items[n] == a;
        assert rows[n] == (KeyOf(s, a), ResourceOf(s, a));
      }
      forall k | k in t.value ensures exists a :: IsItem(s, a) && KeyOf(s, a) == k {
        var n :| 0 <= n < |rows| && rows[n].0 == k;
        assert items[n] in items;
      }
    } else {
      var n, m :| 0 <= n < m < |rows| && rows[n].0 == rows[m].0;
      assert items[n] in items && items[m] in items;
    }
  }

  /** The rows of a snapshot make a table exactly if its collections name
      catalogs and its keys differ; the table shows it. */
  lemma ResourcesShown(s: Snapshot)
    ensures ResourceRows(s).Some? <==> Filed(s)
    ensures Filed(s) ==>
      var t := InsertAll(map[], ResourceRows(s).value); (t.Some? <==> KeysDiffer(s)) && (t.Some? ==> ShowsResources(t.value, s))
  {
    hide KeyOf, ResourceOf, InsertAll, IsItem, Aligned, NoRepeats, FindCatalog, CollectionRows, TenantRoleRows, Items, KeysDiffer, ShowsResources;
    CollectionsAligned(s.catalogs, s.collections);
    if Filed(s) {
      ItemsAligned(s);
      ItemsOnce(s);
      forall a ensures a in Items(s) <==> IsItem(s, a) { ItemIff(s, a); }
      AlignedTable(s, Items(s), ResourceRows(s).value);
    }
  }

  lemma RowsMakeTable<K, V>(rows: seq<(K, V)>)
    ensures var t := InsertAll(map[], rows); (t.Some? <==> Distinct(rows)) && (t.Some? ==> IsTable(t.value, rows))
  {
    hide InsertAll;
    TableIsRows(rows);
  }

  /** The tables derived from a snapshot exist exactly if it can be written, and
      show it. */
  lemma ProjectionShowsSnapshot(s: Snapshot)
    ensures Project(s).Some? <==> Writable(s)
    ensures Project(s).Some? ==> ShowsSnapshot(Project(s).value, s)
  {
    hide InsertAll, ResourceRows, Filed, KeysDiffer, ShowsResources, Distinct, IsTable;
    ResourcesShown(s);
    RowsMakeTable(s.roleBindings);
    RowsMakeTable(s.pathPolicies);
    RowsMakeTable(s.tombstones);
  }
}
