/**
  Unique numbers: the in-memory allocator with its wrap-around scan, and the leased
  numbers of the Redis and Mongo backends under any interleaving.
*/
module UniqueNumbers {
  import opened Wrappers

  datatype NumberError = NoAvailableNumber

  /** The numbers 0, 1, ..., n - 1. */
  function Range(n: nat): (s: set<int>)
    ensures forall x :: x in s <==> 0 <= x < n
    ensures |s| == n
  {
    if n == 0 then {} else Range(n - 1) + {n - 1}
  }

  /** The number that a scan from `start` looks at after `k` others. */
  function Probe(start: int, k: int, max: int): int
    requires 0 < max
  {
    (start + k) % max
  }

  /** The offset at which a scan from `start` meets `x`. */
  function Offset(start: int, x: int, max: int): int
    requires 0 <= start < max && 0 <= x < max
  {
    if start <= x then x - start else x - start + max
  }

  /** A scan of `max` steps from anywhere meets every number below `max`. */
  lemma ScanMeets(start: int, x: int, max: int)
    requires 0 <= start < max && 0 <= x < max
    ensures 0 <= Offset(start, x, max) < max
    ensures Probe(start, Offset(start, x, max), max) == x
  {
    if start > x {
      assert (start + Offset(start, x, max)) == x + max;
      assert (x + max) % max == x;
    }
  }

  /** If a whole scan meets only allocated numbers, at least `max` numbers are allocated. */
  lemma FullScanMeansFull(start: int, max: int, taken: set<int>)
    requires 0 <= start < max
    requires forall k :: 0 <= k < max ==> Probe(start, k, max) in taken
    ensures |taken| >= max
  {
    forall x | x in Range(max)
      ensures x in taken
    {
      ScanMeets(start, x, max);
    }
    Contained(Range(max), taken);
  }

  lemma {:induction false} Contained<T>(a: set<T>, b: set<T>)
    requires a <= b
    ensures |a| <= |b|
  {
    if a == {} {
    } else {
      var x :| x in a;
      Contained(a - {x}, b - {x});
    }
  }

  class InMemoryAtomic {
    var taken: set<int>

    constructor ()
      ensures taken == {}
    {
      taken := {};
    }

    /**
      `start` is the random draw. The call fails exactly when `max` is not positive or at
      least `max` numbers are allocated; otherwise it returns the first free number of the
      scan, which is below `max`, and allocates that one only.
    */
    method GetUniqueRandomNumber(max: int, start: int) returns (r: Result<int, NumberError>)
      requires 0 < max ==> 0 <= start < max
      modifies this
      ensures r.Err? <==> max <= 0 || |old(taken)| >= max
      ensures r.Err? ==> taken == old(taken)
      ensures r.Ok? ==> 0 <= r.value < max && r.value !in old(taken) && taken == old(taken) + {r.value}
      ensures r.Ok? ==> exists k ::
                && 0 <= k < max && r.value == Probe(start, k, max)
                && forall j :: 0 <= j < k ==> Probe(start, j, max) in old(taken)
    {
      if max <= 0 {
        return Err(NoAvailableNumber);
      }
      if |taken| >= max {
        return Err(NoAvailableNumber);
      }
      for offset := 0 to max
        invariant taken == old(taken)
        invariant forall k :: 0 <= k < offset ==> Probe(start, k, max) in taken
      {
        var num := Probe(start, offset, max);
        if num !in taken {
          taken := taken + {num};
          return Ok(num);
        }
      }
      FullScanMeansFull(start, max, taken);
      assert false;
      r := Err(NoAvailableNumber);
    }
  }

  /**
    A history of successful calls: the sets of taken numbers before each call and after
    the last, and the numbers returned, each related as the contract of
    `GetUniqueRandomNumber` says.
  */
  ghost predicate History(taken: seq<set<int>>, returned: seq<int>) {
    && |taken| == |returned| + 1
    && forall k :: 0 <= k < |returned| ==>
      returned[k] !in taken[k] && taken[k + 1] == taken[k] + {returned[k]}
  }

  /** No number is ever returned twice, and what was taken stays taken. */
  lemma {:induction false} ReturnedOnce(taken: seq<set<int>>, returned: seq<int>, i: nat, j: nat)
    requires History(taken, returned)
    requires i < j < |returned|
    ensures returned[i] in taken[j] && returned[i] != returned[j]
    decreases j
  {
    if i < j - 1 {
      ReturnedOnce(taken, returned, i, j - 1);
    }
    assert taken[j - 1 + 1] == taken[j - 1] + {returned[j - 1]};
  }

  // ---------- Leased numbers ----------

  /** A number handed to a caller until a moment. */
  datatype Grant = Grant(num: int, until: int)

  /** The stored numbers with their expiries, and as history everything ever handed out. */
  datatype State = State(now: int, store: map<int, int>, grants: seq<Grant>)

  datatype Step =
    | Clock(to: int)
    | Purge(cutoff: int)                            // Mongo: delete_many of what expired by a past clock reading
    | Reap(num: int)                                // Redis expiry or the Mongo TTL index
    | SetNx(num: int, px: int)                      // Redis: SET NX PX
    | InsertOne(num: int, at: int, lease: int)      // Mongo: insert, stamped with a past clock reading

  predicate Enabled(s: State, a: Step) {
    match a
    case Clock(to) => s.now <= to
    case Purge(cutoff) => cutoff <= s.now
    case Reap(num) => num in s.store && s.store[num] <= s.now
    case SetNx(_, _) => true
    case InsertOne(_, at, _) => at <= s.now
  }

  /** The number is handed out until `until`. */
  function HandOut(s: State, num: int, until: int): State {
    s.(store := s.store[num := until], grants := s.grants + [Grant(num, until)])
  }

  function Apply(s: State, a: Step): State
    requires Enabled(s, a)
  {
    match a
    case Clock(to) => s.(now := to)
    case Purge(cutoff) => s.(store := map n | n in s.store && cutoff < s.store[n] :: s.store[n])
    case Reap(num) => s.(store := s.store - {num})
    case SetNx(num, px) =>
      if num in s.store && s.now < s.store[num] then s else HandOut(s, num, s.now + px)
    case InsertOne(num, at, lease) =>
      if num in s.store then s else HandOut(s, num, at + lease)
  }

  ghost predicate Run(ss: seq<State>, steps: seq<Step>) {
    && |ss| == |steps| + 1
    && forall k :: 0 <= k < |steps| ==> Enabled(ss[k], steps[k]) && ss[k + 1] == Apply(ss[k], steps[k])
  }

  /** A grant that has not run out is stored, and is the only one of its number. */
  ghost predicate Inv(s: State) {
    && (forall g :: 0 <= g < |s.grants| && s.now < s.grants[g].until ==>
          s.grants[g].num in s.store && s.store[s.grants[g].num] == s.grants[g].until)
    && (forall g, h :: 0 <= g < h < |s.grants| && s.now < s.grants[g].until && s.now < s.grants[h].until ==>
          s.grants[g].num != s.grants[h].num)
  }

  lemma InvStep(s: State, a: Step)
    requires Inv(s) && Enabled(s, a)
    ensures Inv(Apply(s, a))
  {
  }

  /** In every interleaving, two leases that have not run out never name the same number. */
  lemma {:induction false} LeasesAreDistinct(ss: seq<State>, steps: seq<Step>, k: nat)
    requires Run(ss, steps) && k < |ss|
    requires ss[0].store == map[] && ss[0].grants == []
    ensures Inv(ss[k])
  {
    if k > 0 {
      LeasesAreDistinct(ss, steps, k - 1);
      assert Enabled(ss[k - 1], steps[k - 1]);
      InvStep(ss[k - 1], steps[k - 1]);
    }
  }
}
