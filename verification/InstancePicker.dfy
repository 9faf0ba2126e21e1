/** The weighted random choice of a service instance: every weight gets exactly its share of the draws. */
module InstancePicker {
  import opened Wrappers

  datatype Instance = Instance(id: int, health: string, zone: string, weight: int)

  datatype Request = Request(resolveMode: string, preferredZone: string)

  datatype PickError = NoHealthyInstance

  predicate Healthy(req: Request, inst: Instance) {
    req.resolveMode == "all" || inst.health == "" || inst.health == "healthy"
  }

  predicate InZone(req: Request, inst: Instance) {
    req.preferredZone == "" || inst.zone == "" || inst.zone == req.preferredZone
  }

  /** The healthy instances, of the preferred zone only if `zoned`, in their order. */
  function Select(req: Request, instances: seq<Instance>, zoned: bool): seq<Instance> {
    if instances == [] then []
    else
      var before, last := Select(req, instances[..|instances| - 1], zoned), instances[|instances| - 1];
      if Healthy(req, last) && (zoned ==> InZone(req, last)) then before + [last] else before
  }

  /** The preferred zone, or everywhere if it has no healthy instance. */
  function Candidates(req: Request, instances: seq<Instance>): seq<Instance> {
    var zoned := Select(req, instances, true);
    if zoned == [] && req.preferredZone != "" then Select(req, instances, false) else zoned
  }

  function Share(inst: Instance): nat {
    if inst.weight < 0 then 0 else inst.weight
  }

  /** The draws taken by the first `n` candidates. */
  function SharesUpTo(candidates: seq<Instance>, n: nat): nat
    requires n <= |candidates|
  {
    if n == 0 then 0 else SharesUpTo(candidates, n - 1) + Share(candidates[n - 1])
  }

  function Total(candidates: seq<Instance>): nat {
    SharesUpTo(candidates, |candidates|)
  }

  /** How many draws there are: the total weight, or one for each candidate if that is zero. */
  function Draws(candidates: seq<Instance>): nat {
    if Total(candidates) == 0 then |candidates| else Total(candidates)
  }

  /** The draw falls into the share of candidate `i`. */
  predicate Wins(candidates: seq<Instance>, i: nat, draw: int)
    requires i < |candidates|
  {
    if Total(candidates) == 0 then i == draw
    else SharesUpTo(candidates, i) <= draw < SharesUpTo(candidates, i + 1)
  }

  /** Healthy, or anything if the caller asks for all. */
  ghost predicate Usable(req: Request, inst: Instance) {
    req.resolveMode != "all" ==> inst.health in {"", "healthy"}
  }

  /** The caller prefers no zone, or the instance names none or the preferred one. */
  ghost predicate Local(req: Request, inst: Instance) {
    req.preferredZone != "" ==> inst.zone in {"", req.preferredZone}
  }

  /** What the instance is for the caller, if some local one is usable. */
  ghost predicate Eligible(req: Request, instances: seq<Instance>, inst: Instance) {
    && Usable(req, inst)
    && ((exists other :: other in instances && Usable(req, other) && Local(req, other)) ==> Local(req, inst))
  }

  /**
    The candidates are exactly the usable instances, only the local ones if there are any,
    each as often and in the same order as they come.
  */
  lemma CandidatesAreEligible(req: Request, instances: seq<Instance>)
    ensures Candidates(req, instances) == Filtered(instances, (inst: Instance) => Eligible(req, instances, inst))
  {
    var zoned := exists other :: other in instances && Usable(req, other) && Local(req, other);
    SelectIsFiltered(req, instances, true);
    SelectIsFiltered(req, instances, false);
    FilteredEmpty(instances, (inst: Instance) => Usable(req, inst) && (true ==> Local(req, inst)));
    if zoned || req.preferredZone == "" {
      SameFilter(instances, (inst: Instance) => Usable(req, inst) && (true ==> Local(req, inst)),
                 (inst: Instance) => Eligible(req, instances, inst));
    } else {
      SameFilter(instances, (inst: Instance) => Usable(req, inst) && (false ==> Local(req, inst)),
                 (inst: Instance) => Eligible(req, instances, inst));
    }
  }

  ghost function Filtered(instances: seq<Instance>, keep: Instance -> bool): seq<Instance> {
    if instances == [] then []
    else
      var n := |instances| - 1;
      Filtered(instances[..n], keep) + if keep(instances[n]) then [instances[n]] else []
  }

  lemma {:induction false} SelectIsFiltered(req: Request, instances: seq<Instance>, zoned: bool)
    ensures Select(req, instances, zoned) ==
            Filtered(instances, (inst: Instance) => Usable(req, inst) && (zoned ==> Local(req, inst)))
  {
    if instances != [] {
      SelectIsFiltered(req, instances[..|instances| - 1], zoned);
    }
  }

  lemma {:induction false} FilteredEmpty(instances: seq<Instance>, keep: Instance -> bool)
    ensures Filtered(instances, keep) == [] <==> forall inst :: inst in instances ==> !keep(inst)
  {
    if instances != [] {
      var n := |instances| - 1;
      FilteredEmpty(instances[..n], keep);
      assert instances == instances[..n] + [instances[n]];
    }
  }

  lemma {:induction false} SameFilter(instances: seq<Instance>, keep: Instance -> bool, keep': Instance -> bool)
    requires forall inst :: inst in instances ==> keep(inst) == keep'(inst)
    ensures Filtered(instances, keep) == Filtered(instances, keep')
  {
    if instances != [] {
      SameFilter(instances[..|instances| - 1], keep, keep');
    }
  }

  /**
    `draw` is the random number. The pick fails exactly when no instance is healthy, and
    otherwise takes the candidate into whose share the draw falls.
  */
  method Pick(req: Request, instances: seq<Instance>, draw: nat) returns (r: Result<nat, PickError>)
    requires Candidates(req, instances) != [] ==> draw < Draws(Candidates(req, instances))
    ensures r.Err? <==> forall i :: 0 <= i < |instances| ==> !Usable(req, instances[i])
    ensures r.Ok? ==> r.value < |Candidates(req, instances)| && Wins(Candidates(req, instances), r.value, draw)
  {
    var candidates := [];
    for k := 0 to |instances|
      invariant candidates == Select(req, instances[..k], true)
    {
      var inst := instances[k];
      assert instances[..k + 1][..k] == instances[..k];
      if req.resolveMode != "all" && inst.health != "" && inst.health != "healthy" {
        continue;
      }
      if req.preferredZone != "" && inst.zone != "" && inst.zone != req.preferredZone {
        continue;
      }
      candidates := candidates + [inst];
    }
    assert instances[..|instances|] == instances;
    if candidates == [] && req.preferredZone != "" {
      candidates := Select(req, instances, false);
    }
    CandidatesExist(req, instances);
    if candidates == [] {
      return Err(NoHealthyInstance);
    }
    var total := 0;
    for k := 0 to |candidates|
      invariant total == SharesUpTo(candidates, k)
    {
      total := total + if candidates[k].weight < 0 then 0 else candidates[k].weight;
    }
    if total <= 0 {
      return Ok(draw);
    }
    var pick: int := draw;
    for k := 0 to |candidates|
      invariant pick == draw - SharesUpTo(candidates, k) && pick >= 0
    {
      if candidates[k].weight <= 0 {
        continue;
      }
      pick := pick - candidates[k].weight;
      if pick < 0 {
        return Ok(k);
      }
    }
    assert false;  // the last candidate is never the answer of last resort
    r := Err(NoHealthyInstance);
  }

  lemma {:induction false} SelectEmpty(req: Request, instances: seq<Instance>, zoned: bool)
    ensures Select(req, instances, zoned) == [] <==>
            forall i :: 0 <= i < |instances| ==> !(Healthy(req, instances[i]) && (zoned ==> InZone(req, instances[i])))
  {
    if instances != [] {
      var n := |instances| - 1;
      SelectEmpty(req, instances[..n], zoned);
      assert forall i :: 0 <= i < n ==> instances[i] == instances[..n][i];
    }
  }

  /** There is a candidate exactly when some instance is healthy, whatever its zone. */
  lemma CandidatesExist(req: Request, instances: seq<Instance>)
    ensures Candidates(req, instances) == [] <==>
            forall i :: 0 <= i < |instances| ==> !Usable(req, instances[i])
  {
    SelectEmpty(req, instances, true);
    SelectEmpty(req, instances, false);
  }

  // ---------- Proportionality ----------

  lemma {:induction false} SharesMonotone(candidates: seq<Instance>, i: nat, j: nat)
    requires i <= j <= |candidates|
    ensures SharesUpTo(candidates, i) <= SharesUpTo(candidates, j)
    decreases j
  {
    if i < j {
      SharesMonotone(candidates, i, j - 1);
    }
  }

  /** No draw has two winners. */
  lemma OneWinner(candidates: seq<Instance>, i: nat, j: nat, draw: int)
    requires i < |candidates| && j < |candidates|
    requires Wins(candidates, i, draw) && Wins(candidates, j, draw)
    ensures i == j
  {
    if i < j {
      SharesMonotone(candidates, i + 1, j);
    } else if j < i {
      SharesMonotone(candidates, j + 1, i);
    }
  }

  function Interval(lo: int, hi: int): (s: set<int>)
    requires lo <= hi
    ensures forall x :: x in s <==> lo <= x < hi
    ensures |s| == hi - lo
    decreases hi - lo
  {
    if lo == hi then {} else Interval(lo, hi - 1) + {hi - 1}
  }

  lemma {:induction false} NothingToShare(candidates: seq<Instance>, n: nat)
    requires n <= |candidates|
    ensures SharesUpTo(candidates, n) == 0 <==> forall j :: 0 <= j < n ==> candidates[j].weight <= 0
  {
    if n > 0 {
      NothingToShare(candidates, n - 1);
    }
  }

  /**
    Exact proportionality: with a positive total weight, a candidate of weight w wins
    exactly max(0, w) of the possible draws; with none, every candidate wins one.
  */
  lemma PickIsProportional(candidates: seq<Instance>, i: nat)
    requires i < |candidates|
    ensures var wins := set d | 0 <= d < Draws(candidates) && Wins(candidates, i, d);
            |wins| == if (forall c :: c in candidates ==> c.weight <= 0) then 1
                      else if candidates[i].weight > 0 then candidates[i].weight else 0
  {
    var wins := set d | 0 <= d < Draws(candidates) && Wins(candidates, i, d);
    var lo, hi := if Total(candidates) > 0 then SharesUpTo(candidates, i) else i,
                  if Total(candidates) > 0 then SharesUpTo(candidates, i + 1) else i + 1;
    SharesMonotone(candidates, i + 1, |candidates|);
    NothingToShare(candidates, |candidates|);
    assert wins == Interval(lo, hi);
  }
}
