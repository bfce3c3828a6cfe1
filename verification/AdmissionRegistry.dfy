/** The registry of admission gates, kept across a reload of the tenants. */
module AdmissionRegistry {
  import opened Wrappers
  import opened Grid
  import opened FairShares

  datatype Tenant = Tenant(id: string, weight: nat, capacity: nat)

  function Weights(tenants: seq<Tenant>): (w: seq<nat>)
    ensures |w| == |tenants| && forall i :: 0 <= i < |w| ==> w[i] == tenants[i].weight
  {
    if tenants == [] then [] else Weights(tenants[..|tenants| - 1]) + [tenants[|tenants| - 1].weight]
  }

  /** The declaration that counts for an id: the last one. */
  function Declared(tenants: seq<Tenant>, id: string): Option<Tenant> {
    if tenants == [] then None
    else if tenants[|tenants| - 1].id == id then Some(tenants[|tenants| - 1])
    else Declared(tenants[..|tenants| - 1], id)
  }

  lemma {:induction false} DeclaredIsLast(tenants: seq<Tenant>, id: string)
    ensures Declared(tenants, id).None? <==> forall i :: 0 <= i < |tenants| ==> tenants[i].id != id
    ensures Declared(tenants, id).Some? ==>
              exists i :: 0 <= i < |tenants| && tenants[i] == Declared(tenants, id).value && tenants[i].id == id
                          && forall j :: i < j < |tenants| ==> tenants[j].id != id
  {
    if tenants != [] {
      var n := |tenants| - 1;
      DeclaredIsLast(tenants[..n], id);
      if tenants[n].id == id {
        assert tenants[n] == Declared(tenants, id).value;
      } else if Declared(tenants, id).Some? {
        var i :| 0 <= i < n && tenants[..n][i] == Declared(tenants, id).value && tenants[..n][i].id == id
                 && forall j :: i < j < n ==> tenants[..n][j].id != id;
        assert forall j :: i < j < n ==> tenants[j] == tenants[..n][j];
        assert tenants[i] == Declared(tenants, id).value;
      } else {
        assert forall i :: 0 <= i < n ==> tenants[i] == tenants[..n][i];
      }
    }
  }

  lemma NoneDeclared()
    ensures forall id :: Declared([], id) == None
  {
  }

  lemma NextDeclared(tenants: seq<Tenant>, n: nat)
    requires n < |tenants|
    ensures Declared(tenants, tenants[n].id).Some?
    ensures forall id :: Declared(tenants[..n + 1], id) == if id == tenants[n].id then Some(tenants[n]) else Declared(tenants[..n], id)
  {
    DeclaredIsLast(tenants, tenants[n].id);
    var more := tenants[..n + 1];
    assert more[..n] == tenants[..n] && more[n] == tenants[n];
    forall id ensures Declared(more, id) == if id == tenants[n].id then Some(tenants[n]) else Declared(tenants[..n], id) {
      LastFirst(more, id);
    }
  }

  lemma LastFirst(tenants: seq<Tenant>, id: string)
    requires tenants != []
    ensures var n := |tenants| - 1;
            Declared(tenants, id) == if tenants[n].id == id then Some(tenants[n]) else Declared(tenants[..n], id)
  {
  }

  class TenantGate {
    var limit: nat
    var capacity: nat
    var active: nat

    constructor (limit: nat, capacity: nat)
      ensures this.limit == limit && this.capacity == capacity && active == 0
    {
      this.limit, this.capacity, active := limit, capacity, 0;
    }

    /** New settings; what is admitted stays admitted. */
    method Reconfigure(limit: nat, capacity: nat)
      modifies this`limit, this`capacity
      ensures this.limit == limit && this.capacity == capacity
    {
      this.limit, this.capacity := limit, capacity;
    }
  }

  class Registry {
    var gates: map<string, TenantGate>

    /** No two tenants share a gate. */
    ghost predicate Valid()
      reads this
    {
      forall a, b :: a in gates && b in gates && gates[a] == gates[b] ==> a == b
    }

    constructor ()
      ensures Valid() && gates == map[]
    {
      gates := map[];
    }

    /** One tenant's settings, on its own gate or on a new one. */
    method Install(id: string, limit: nat, capacity: nat)
      requires Valid()
      modifies this, gates.Values
      ensures Valid() && gates.Keys == old(gates).Keys + {id}
      ensures gates[id].limit == limit && gates[id].capacity == capacity
      ensures if id in old(gates) then gates == old(gates) && gates[id].active == old(gates[id].active)
              else fresh(gates[id]) && gates[id].active == 0 && gates == old(gates)[id := gates[id]]
      ensures forall other :: other in old(gates) && other != id ==>
                && gates[other].active == old(gates[other].active) && gates[other].limit == old(gates[other].limit)
                && gates[other].capacity == old(gates[other].capacity)
    {
      if id in gates {
        gates[id].Reconfigure(limit, capacity);
      } else {
        var gate := new TenantGate(limit, capacity);
        gates := gates[id := gate];
      }
    }

    /** The gates of the first `n` tenants have their settings. */
    ghost predicate Settled(tenants: seq<Tenant>, n: nat, ceiling: nat, total: nat)
      reads this, gates.Values
      requires n <= |tenants|
    {
      forall id :: Declared(tenants[..n], id).Some? ==>
        var t := Declared(tenants[..n], id).value;
        id in gates && gates[id].limit == FairShare(ceiling, t.weight, total) && gates[id].capacity == t.capacity
    }

    method InstallNext(tenants: seq<Tenant>, n: nat, ceiling: nat, total: nat)
      requires Valid() && n < |tenants| && Settled(tenants, n, ceiling, total)
      modifies this, gates.Values
      ensures Valid() && Settled(tenants, n + 1, ceiling, total)
      ensures gates.Keys == old(gates).Keys + {tenants[n].id}
      ensures forall id :: id in old(gates) ==> gates[id] == old(gates)[id] && gates[id].active == old(gates[id].active)
      ensures forall id :: id in gates && id !in old(gates) ==> fresh(gates[id]) && gates[id].active == 0
    {
      hide FairShare, Declared;
      var t := tenants[n];
      NextDeclared(tenants, n);
      Install(t.id, FairShare(ceiling, t.weight, total), t.capacity);
    }

    /** Reconciles the gates with the tenants: a tenant that survives keeps its
        gate and the permits charged to it, a new one starts empty, one that is
        gone loses its gate, and every limit is the fair share. */
    method Reconfigure(tenants: seq<Tenant>, ceiling: nat)
      requires Valid()
      modifies this, gates.Values
      ensures Valid() && forall id :: id in gates <==> Declared(tenants, id).Some?
      ensures forall id :: id in gates && id in old(gates) ==> gates[id] == old(gates)[id] && gates[id].active == old(gates[id].active)
      ensures forall id :: id in gates && id !in old(gates) ==> fresh(gates[id]) && gates[id].active == 0
      ensures Settled(tenants, |tenants|, ceiling, Max(Sum(Weights(tenants)), 1))
    {
      hide FairShare, Sum, Weights, Declared, Settled;
      var total := Max(Sum(Weights(tenants)), 1);
      ghost var was := gates;
      gates := map id | id in gates && Declared(tenants, id).Some? :: gates[id];
      NoneDeclared();
      assert tenants[..0] == [] && tenants[..|tenants|] == tenants;
      NothingSettled(tenants, ceiling, total);
      for n := 0 to |tenants|
        invariant Valid() && Settled(tenants, n, ceiling, total)
        invariant forall id :: id in gates <==> (id in was && Declared(tenants, id).Some?) || Declared(tenants[..n], id).Some?
        invariant forall id :: id in gates && id in was ==> gates[id] == was[id] && gates[id].active == old(was[id].active)
        invariant forall id :: id in gates && id !in was ==> fresh(gates[id]) && gates[id].active == 0
      {
        NextDeclared(tenants, n);
        InstallNext(tenants, n, ceiling, total);
      }
    }

    lemma NothingSettled(tenants: seq<Tenant>, ceiling: nat, total: nat)
      ensures Settled(tenants, 0, ceiling, total)
    {
    }
  }
}
