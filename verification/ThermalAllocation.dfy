/** Splitting a power budget over the cooling devices bound to a sensor. */
module ThermalAllocation {
  import opened Common
  import opened ThermalSeverity

  /** A bound device with its weight at the target level, NaN (None) when it takes no part,
      and the power it draws in each of its states. */
  datatype Device = Device(name: string, weight: Option<real>, state2power: seq<real>)

  /** Every device that takes part has at least one state. */
  predicate Usable(devices: seq<Device>) {
    forall i :: 0 <= i < |devices| && devices[i].weight.Some? ==> devices[i].state2power != []
  }

  predicate DistinctNames(devices: seq<Device>) {
    forall i, j :: 0 <= i < j < |devices| ==> devices[i].name != devices[j].name
  }

  function Weight(d: Device): real {
    if d.weight.Some? then d.weight.value else 0.0
  }

  function TotalWeight(devices: seq<Device>): real {
    if devices == [] then 0.0 else TotalWeight(devices[..|devices| - 1]) + Weight(devices[|devices| - 1])
  }

  function Share(budget: real, weight: real, total: real): real
    requires total != 0.0
  {
    budget * (weight / total)
  }

  /** The first state from `j` on that draws less than the share, or the last state. */
  function PickState(share: real, state2power: seq<real>, j: nat := 0): (r: nat)
    requires j < |state2power|
    ensures j <= r < |state2power|
    ensures forall k :: j <= k < r ==> state2power[k] >= share
    ensures r < |state2power| - 1 ==> state2power[r] < share
    decreases |state2power| - j
  {
    if j == |state2power| - 1 || share > state2power[j] then j else PickState(share, state2power, j + 1)
  }

  /** The state each participating device is asked for. */
  function Choice(d: Device, budget: real, total: real): nat
    requires total != 0.0 && d.weight.Some? && d.state2power != []
  {
    PickState(Share(budget, d.weight.value, total), d.state2power)
  }

  /** The request map after an allocation: participating devices get their choice, every
      other entry stays. */
  predicate Allocated(devices: seq<Device>, budget: real, before: map<string, int>, after: map<string, int>)
    requires Usable(devices) && TotalWeight(devices) != 0.0
  {
    && after.Keys == before.Keys
    && (forall i :: 0 <= i < |devices| && devices[i].weight.Some? && devices[i].name in after ==>
          after[devices[i].name] == Choice(devices[i], budget, TotalWeight(devices)))
    && (forall n :: n in before && Spared(devices, n) ==> after[n] == before[n])
  }

  predicate Spared(devices: seq<Device>, name: string) {
    forall i :: 0 <= i < |devices| && devices[i].weight.Some? ==> devices[i].name != name
  }

  method SumWeights(devices: seq<Device>) returns (totalWeight: real)
    ensures totalWeight == TotalWeight(devices)
  {
    totalWeight := 0.0;
    for i := 0 to |devices|
      invariant totalWeight == TotalWeight(devices[..i])
    {
      assert devices[..i + 1][..i] == devices[..i];
      if devices[i].weight.Some? {
        totalWeight := totalWeight + devices[i].weight.value;
      }
    }
    assert devices[..|devices|] == devices;
  }

  method MapStateByPower(cdevPowerBudget: real, state2power: seq<real>) returns (j: nat)
    requires state2power != []
    ensures j == PickState(cdevPowerBudget, state2power)
  {
    j := 0;
    while j < |state2power| - 1
      invariant j < |state2power|
      invariant PickState(cdevPowerBudget, state2power) == PickState(cdevPowerBudget, state2power, j)
    {
      if cdevPowerBudget > state2power[j] {
        break;
      }
      j := j + 1;
    }
  }

  method RequestCdevByPower(devices: seq<Device>, totalPowerBudget: real, pidRequest: map<string, int>)
    returns (ok: bool, pidRequest': map<string, int>)
    requires Usable(devices) && DistinctNames(devices)
    requires forall i :: 0 <= i < |devices| && devices[i].weight.Some? ==> devices[i].name in pidRequest
    ensures ok <==> TotalWeight(devices) != 0.0
    ensures ok ==> Allocated(devices, totalPowerBudget, pidRequest, pidRequest')
    ensures !ok ==> pidRequest' == pidRequest
  {
    pidRequest' := pidRequest;
    var totalWeight := SumWeights(devices);
    if totalWeight == 0.0 {
      return false, pidRequest;
    }
    for i := 0 to |devices|
      invariant pidRequest'.Keys == pidRequest.Keys
      invariant forall k :: 0 <= k < i && devices[k].weight.Some? ==>
        pidRequest'[devices[k].name] == Choice(devices[k], totalPowerBudget, totalWeight)
      invariant forall n :: n in pidRequest && Spared(devices[..i], n) ==> pidRequest'[n] == pidRequest[n]
    {
      SparedSnoc(devices, i, pidRequest.Keys);
      if devices[i].weight.Some? {
        var share := Share(totalPowerBudget, devices[i].weight.value, totalWeight);
        var j := MapStateByPower(share, devices[i].state2power);
        pidRequest' := pidRequest'[devices[i].name := j];
      }
    }
    assert devices[..|devices|] == devices;
    ok := true;
  }

  lemma SparedSnoc(devices: seq<Device>, i: nat, names: set<string>)
    requires i < |devices|
    ensures forall n :: n in names && Spared(devices[..i + 1], n) ==>
      Spared(devices[..i], n) && (devices[i].weight.Some? ==> devices[i].name != n)
  {
    forall n | n in names && Spared(devices[..i + 1], n)
      ensures Spared(devices[..i], n) && (devices[i].weight.Some? ==> devices[i].name != n)
    {
      assert devices[..i + 1][i] == devices[i];
      assert forall k :: 0 <= k < i ==> devices[..i][k] == devices[..i + 1][k];
    }
  }

  // ------------------------------------------------------------ what an allocation is worth

  /** The shares of the participating devices among the first ones. */
  function SumOfShares(devices: seq<Device>, budget: real, total: real): real
    requires total != 0.0
  {
    if devices == [] then 0.0 else
    var d := devices[|devices| - 1];
    SumOfShares(devices[..|devices| - 1], budget, total)
    + if d.weight.Some? then Share(budget, d.weight.value, total) else 0.0
  }

  /** The power drawn by the chosen states of the participating devices. */
  function PowerDrawn(devices: seq<Device>, budget: real, total: real): real
    requires total != 0.0 && Usable(devices)
  {
    if devices == [] then 0.0 else
    var d := devices[|devices| - 1];
    PowerDrawn(devices[..|devices| - 1], budget, total)
    + if d.weight.Some? then d.state2power[Choice(d, budget, total)] else 0.0
  }

  lemma ShareAdds(budget: real, a: real, b: real, total: real)
    requires total != 0.0
    ensures Share(budget, a, total) + Share(budget, b, total) == Share(budget, a + b, total)
  {
    assert a / total + b / total == (a + b) / total;
  }

  lemma {:induction false} SharesOfPrefix(devices: seq<Device>, budget: real, total: real)
    requires total != 0.0
    ensures SumOfShares(devices, budget, total) == Share(budget, TotalWeight(devices), total)
  {
    if devices == [] {
      assert 0.0 / total == 0.0;
    } else {
      var init, d := devices[..|devices| - 1], devices[|devices| - 1];
      SharesOfPrefix(init, budget, total);
      ShareAdds(budget, TotalWeight(init), Weight(d), total);
      assert 0.0 / total == 0.0;
    }
  }

  /** Conserving: the shares add up to the budget, whatever the signs of the weights. */
  lemma SharesSumToBudget(devices: seq<Device>, budget: real)
    requires TotalWeight(devices) != 0.0
    ensures SumOfShares(devices, budget, TotalWeight(devices)) == budget
  {
    var total := TotalWeight(devices);
    SharesOfPrefix(devices, budget, total);
    assert total / total == 1.0;
  }

  /** Minimal and feasible: the choice is the least state below the share, or the last one;
      its power is within the share exactly when the last state's is, or an earlier one lies
      strictly below. */
  lemma ChoiceIsLeast(d: Device, budget: real, total: real)
    requires total != 0.0 && d.weight.Some? && d.state2power != []
    ensures var share, last := Share(budget, d.weight.value, total), |d.state2power| - 1;
      var j := Choice(d, budget, total);
      && (forall k :: 0 <= k < j ==> d.state2power[k] >= share)
      && (j == last || d.state2power[j] < share)
      && (d.state2power[j] <= share <==>
            d.state2power[last] <= share || exists k :: 0 <= k < last && d.state2power[k] < share)
  {
  }

  /** A device that fits into its share in its last state. */
  predicate FitsShare(d: Device, budget: real, total: real)
    requires total != 0.0
  {
    d.weight.Some? && d.state2power != [] ==>
      d.state2power[|d.state2power| - 1] <= Share(budget, d.weight.value, total)
  }

  lemma {:induction false} DrawnBelowShares(devices: seq<Device>, budget: real, total: real)
    requires total != 0.0 && Usable(devices)
    requires forall i :: 0 <= i < |devices| ==> FitsShare(devices[i], budget, total)
    ensures PowerDrawn(devices, budget, total) <= SumOfShares(devices, budget, total)
  {
    if devices != [] {
      var d := devices[|devices| - 1];
      DrawnBelowShares(devices[..|devices| - 1], budget, total);
      if d.weight.Some? {
        assert FitsShare(d, budget, total);
        ChoiceIsLeast(d, budget, total);
      }
    }
  }

  /** If each device's last state fits into its share, the chosen states together draw no
      more than the budget. */
  lemma DrawnWithinBudget(devices: seq<Device>, budget: real)
    requires TotalWeight(devices) != 0.0 && Usable(devices)
    requires forall i :: 0 <= i < |devices| ==> FitsShare(devices[i], budget, TotalWeight(devices))
    ensures PowerDrawn(devices, budget, TotalWeight(devices)) <= budget
  {
    DrawnBelowShares(devices, budget, TotalWeight(devices));
    SharesSumToBudget(devices, budget);
  }
}
