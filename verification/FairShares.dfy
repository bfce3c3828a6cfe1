/** How the global ceiling is split into per-tenant limits by weight. */
module FairShares {
  import opened Grid

  /** Floor of the weighted part, at least one and at most the ceiling. */
  function FairShare(ceiling: nat, weight: nat, total: nat): (share: nat)
    ensures 1 <= share <= Max(ceiling, 1)
  {
    var c, w, t := Max(ceiling, 1), Max(weight, 1), Max(total, 1);
    Min(Max(Div(Mul(w, c), t), 1), c)
  }

  function Sum(s: seq<nat>): nat {
    if s == [] then 0 else Sum(s[..|s| - 1]) + s[|s| - 1]
  }

  /** How many of the weights are worth less than one whole slot. */
  function Starved(weights: seq<nat>, ceiling: nat, total: nat): nat {
    if weights == [] then 0
    else Starved(weights[..|weights| - 1], ceiling, total) + (if Mul(weights[|weights| - 1], ceiling) < total then 1 else 0)
  }

  function Shares(weights: seq<nat>, ceiling: nat, total: nat): (s: seq<nat>)
    ensures |s| == |weights|
    ensures forall i :: 0 <= i < |s| ==> 1 <= s[i] <= Max(ceiling, 1)
  {
    if weights == [] then []
    else Shares(weights[..|weights| - 1], ceiling, total) + [FairShare(ceiling, weights[|weights| - 1], total)]
  }

  lemma {:induction false} SumHasPart(s: seq<nat>, i: nat)
    requires i < |s|
    ensures s[i] <= Sum(s)
  {
    if i < |s| - 1 { SumHasPart(s[..|s| - 1], i); }
  }

  /** One share against its exact part `weight * ceiling / total`. */
  lemma OneShare(ceiling: nat, weight: nat, total: nat)
    requires ceiling > 0 && 0 < weight <= total
    ensures var share, whole := FairShare(ceiling, weight, total), Mul(weight, ceiling);
            && whole < Mul(share, total) + total
            && Mul(share, total) <= whole + (if whole < total then total else 0)
  {
    hide Mul, Div, Mod;
    var whole := Mul(weight, ceiling);
    var q := Div(whole, total);
    OffJoin(total, whole);
    MulLe(weight, total, ceiling);
    MulLaws(total, ceiling, 0);
    MulStep(ceiling, total);
    MulStep(0, total);
    if q > ceiling { MulLe(ceiling + 1, q, total); }
    if q > 0 { MulLe(1, q, total); }
  }

  /** The shares of the first tenants against their exact parts. */
  lemma {:induction false} SharesSoFar(weights: seq<nat>, ceiling: nat, total: nat)
    requires ceiling > 0 && forall i :: 0 <= i < |weights| ==> 0 < weights[i] <= total
    ensures Mul(Sum(weights), ceiling) + |weights| <= Mul(Sum(Shares(weights, ceiling, total)), total) + Mul(|weights|, total)
    ensures Mul(Sum(Shares(weights, ceiling, total)), total) <= Mul(Sum(weights), ceiling) + Mul(Starved(weights, ceiling, total), total)
  {
    hide Mul, FairShare;
    MulStep(0, ceiling);
    MulStep(0, total);
    if weights != [] {
      var n := |weights| - 1;
      var front, last, share := weights[..n], weights[n], FairShare(ceiling, weights[n], total);
      SharesSoFar(front, ceiling, total);
      OneShare(ceiling, last, total);
      var all := Shares(weights, ceiling, total);
      assert all[..n] == Shares(front, ceiling, total);
      MulDistributes(Sum(front), last, ceiling);
      MulDistributes(Sum(Shares(front, ceiling, total)), share, total);
      MulStep(n, total);
      MulStep(Starved(front, ceiling, total), total);
    }
  }

  /** Every share is between one and the ceiling; together they lose less than
      one slot a tenant, and exceed the ceiling by no more than the tenants that
      would have been starved. */
  lemma SharesAddUp(weights: seq<nat>, ceiling: nat)
    requires weights != [] && ceiling > 0 && forall i :: 0 <= i < |weights| ==> weights[i] > 0
    ensures var shares := Shares(weights, ceiling, Sum(weights));
            && (forall i :: 0 <= i < |shares| ==> 1 <= shares[i] <= ceiling)
            && ceiling - |weights| < Sum(shares) <= ceiling + Starved(weights, ceiling, Sum(weights))
  {
    hide Mul, Sum, Starved, Shares;
    var total := Sum(weights);
    forall i: nat | i < |weights| ensures weights[i] <= total { SumHasPart(weights, i); }
    assert 0 < weights[0] <= total;
    SharesSoFar(weights, ceiling, total);
    var s, n, x := Sum(Shares(weights, ceiling, total)), |weights|, Starved(weights, ceiling, total);
    MulLaws(total, ceiling, 0);
    MulDistributes(s, n, total);
    MulDistributes(ceiling, x, total);
    if s + n <= ceiling { MulLe(s + n, ceiling, total); }
    if s > ceiling + x { MulLe(ceiling + x, s, total); }
  }

  /** The limits handed out when the registry is built. */
  method BuildShares(weights: seq<nat>, ceiling: nat) returns (shares: seq<nat>)
    ensures shares == Shares(weights, ceiling, Max(Sum(weights), 1))
  {
    var total := 0;
    for i := 0 to |weights|
      invariant total == Sum(weights[..i])
    {
      assert weights[..i + 1][..i] == weights[..i];
      total := total + weights[i];
    }
    assert weights[..|weights|] == weights;
    total := Max(total, 1);
    shares := [];
    for i := 0 to |weights|
      invariant shares == Shares(weights[..i], ceiling, total)
    {
      assert weights[..i + 1][..i] == weights[..i];
      shares := shares + [FairShare(ceiling, weights[i], total)];
    }
  }
}
