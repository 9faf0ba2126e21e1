/**
  The scans of the Redis and Mongo backends for a free number, in the form of their code:
  one store command for each number tried, with other callers, expiry and reaping in
  between. They are proved to be runs of the steps in `UniqueNumbers`.
*/
module LeasedNumbers {
  import opened Wrappers
  import opened P = UniqueNumbers
  import R = Runs

  ghost function Moves(): (State, Step, State) -> bool {
    (s: State, a: Step, s': State) => Enabled(s, a) && s' == Apply(s, a)
  }

  ghost predicate Reaches(s: State, s': State) {
    R.Reaches(Moves(), s, s')
  }

  lemma ReachesInv(s: State, s': State)
    requires Inv(s) && Reaches(s, s')
    ensures Inv(s')
  {
    forall t, a, t' | Inv(t) && Moves()(t, a, t')
      ensures Inv(t')
    {
      P.InvStep(t, a);
    }
    R.Keeps(Moves(), t => Inv(t), s, s');
  }

  /** The command of a scan for its `k`-th number: Redis' SET NX PX, or Mongo's insert stamped at `at`. */
  datatype Scan = RedisScan(start: int, max: int, px: int) | MongoScan(start: int, max: int, at: int, lease: int)

  function Command(scan: Scan, k: nat): Step
    requires 0 < scan.max
  {
    match scan
    case RedisScan(start, max, px) => SetNx(Probe(start, k, max), px)
    case MongoScan(start, max, at, lease) => InsertOne(Probe(start, k, max), at, lease)
  }

  /** In state `w` the number cannot be had: it is stored and, for Redis, has not run out. */
  predicate TakenIn(scan: Scan, w: State, num: int) {
    num in w.store && (scan.RedisScan? ==> w.now < w.store[num])
  }

  /**
    The commands of a scan that began in `s0` were given one by one in the states `met`,
    others moving in between, and now the state is `s`.
  */
  ghost predicate Scanned(scan: Scan, s0: State, met: seq<State>, s: State)
    requires 0 < scan.max
  {
    if met == [] then Reaches(s0, s)
    else
      var k := |met| - 1;
      && Enabled(met[k], Command(scan, k))
      && Scanned(scan, s0, met[..k], met[k])
      && Reaches(Apply(met[k], Command(scan, k)), s)
  }

  /** Each of the numbers tried was taken when it was tried. */
  ghost predicate AllTaken(scan: Scan, met: seq<State>)
    requires 0 < scan.max
  {
    forall k :: 0 <= k < |met| ==> TakenIn(scan, met[k], Probe(scan.start, k, scan.max))
  }

  lemma ScannedMoves(scan: Scan, s0: State, met: seq<State>, s: State, s': State)
    requires 0 < scan.max && Scanned(scan, s0, met, s) && Reaches(s, s')
    ensures Scanned(scan, s0, met, s')
  {
    if met == [] {
      R.Trans(Moves(), s0, s, s');
    } else {
      var k := |met| - 1;
      R.Trans(Moves(), Apply(met[k], Command(scan, k)), s, s');
    }
  }

  lemma NothingYet(scan: Scan, s0: State)
    requires 0 < scan.max
    ensures Scanned(scan, s0, [], s0) && AllTaken(scan, [])
  {
    R.Self(Moves(), s0);
  }

  /** One more command. */
  lemma ScannedMore(scan: Scan, s0: State, met: seq<State>, w: State, s: State)
    requires 0 < scan.max && Scanned(scan, s0, met, w)
    requires Enabled(w, Command(scan, |met|)) && s == Apply(w, Command(scan, |met|))
    ensures Scanned(scan, s0, met + [w], s)
  {
    assert (met + [w])[..|met|] == met;
    R.Self(Moves(), s);
  }

  ghost predicate WasTaken(scan: Scan, met: seq<State>, num: int) {
    exists k :: 0 <= k < |met| && TakenIn(scan, met[k], num)
  }

  /** A scan that found every number it tried taken has tried every number. */
  lemma EveryNumberProbed(scan: Scan, met: seq<State>)
    requires 0 <= scan.start < scan.max == |met| && AllTaken(scan, met)
    ensures forall x :: 0 <= x < scan.max ==> WasTaken(scan, met, x)
  {
    forall x | 0 <= x < scan.max
      ensures WasTaken(scan, met, x)
    {
      ScanMeets(scan.start, x, scan.max);
      assert TakenIn(scan, met[Offset(scan.start, x, scan.max)], x);
    }
  }

  /**
    How a scan ends: with the first number that was not taken when it was tried, by the
    very command that takes it, or with an error after every number was found taken.
  */
  ghost predicate ScanEnds(scan: Scan, s0: State, met: seq<State>, s: State, r: Result<int, NumberError>)
    requires 0 < scan.max
  {
    && Scanned(scan, s0, met, s)
    && match r
       case Ok(num) =>
         && 0 <= num < scan.max && 0 < |met| <= scan.max && num == Probe(scan.start, |met| - 1, scan.max)
         && AllTaken(scan, met[..|met| - 1]) && !TakenIn(scan, met[|met| - 1], num)
         && s == Apply(met[|met| - 1], Command(scan, |met| - 1))
         && Granted(s, num, scan)
       case Err(_) =>
         && |met| == scan.max && AllTaken(scan, met)
         && forall x :: 0 <= x < scan.max ==> WasTaken(scan, met, x)
  }

  /** The number was handed out last, for the whole lease: from this moment on, or from the start of the call. */
  ghost predicate Granted(s: State, num: int, scan: Scan) {
    && s.grants != []
    && s.grants[|s.grants| - 1] ==
       Grant(num, match scan case RedisScan(_, _, px) => s.now + px case MongoScan(_, _, at, lease) => at + lease)
  }

  /** The command in state `w` went through. */
  lemma ScanWins(scan: Scan, s0: State, met: seq<State>, w: State, s: State)
    requires 0 <= scan.start < scan.max && |met| < scan.max && Scanned(scan, s0, met, w) && AllTaken(scan, met)
    requires !TakenIn(scan, w, Probe(scan.start, |met|, scan.max))
    requires Enabled(w, Command(scan, |met|)) && s == Apply(w, Command(scan, |met|))
    ensures ScanEnds(scan, s0, met + [w], s, Ok(Probe(scan.start, |met|, scan.max)))
  {
    hide AllTaken, Scanned;
    ScannedMore(scan, s0, met, w, s);
    assert (met + [w])[..|met + [w]| - 1] == met;
  }

  /** The command in state `w` was refused. */
  lemma ScanGoesOn(scan: Scan, s0: State, met: seq<State>, w: State, s: State)
    requires 0 < scan.max && Scanned(scan, s0, met, w) && AllTaken(scan, met)
    requires TakenIn(scan, w, Probe(scan.start, |met|, scan.max))
    requires Enabled(w, Command(scan, |met|)) && s == Apply(w, Command(scan, |met|))
    ensures Scanned(scan, s0, met + [w], s) && AllTaken(scan, met + [w])
  {
    ScannedMore(scan, s0, met, w, s);
  }

  /** The stored numbers with their expiries, and the clock. */
  class Store {
    var now: int
    var numbers: map<int, int>
    /** The whole system, with everything handed out. */
    ghost var sys: State
    ghost const origin: State

    ghost predicate Valid()
      reads this
    {
      Synced(origin) && origin.store == map[] && origin.grants == []
    }

    ghost predicate Synced(s0: State)
      reads this
    {
      sys.now == now && sys.store == numbers && Reaches(s0, sys)
    }

    constructor (now: int)
      ensures Valid() && sys == State(now, map[], [])
    {
      this.now, numbers := now, map[];
      origin := State(now, map[], []);
      sys := origin;
      new;
      R.Self(Moves(), origin);
    }

    /** The other callers and the clock move. Callers know this contract only. */
    method Interfere(ghost s0: State)
      requires Synced(s0)
      modifies this
      ensures Synced(s0) && old(now) <= now && Reaches(old(sys), sys)
    {
      R.Self(Moves(), sys);
    }

    /** Records that the command just given is step `a`. */
    ghost method Took(s0: State, a: Step)
      requires Reaches(s0, sys) && Enabled(sys, a)
      modifies this`sys
      ensures sys == Apply(old(sys), a) && Reaches(s0, sys)
    {
      R.Step(Moves(), s0, sys, a, Apply(sys, a));
      sys := Apply(sys, a);
    }

    /** Redis: SET NX PX. */
    method SetNx(num: int, px: int) returns (ok: bool)
      modifies this`numbers
      ensures ok <==> !(num in old(numbers) && now < old(numbers)[num])
      ensures numbers == if ok then old(numbers)[num := now + px] else old(numbers)
    {
      ok := !(num in numbers && now < numbers[num]);
      if ok {
        numbers := numbers[num := now + px];
      }
    }

    /** Mongo: an insert fails on a number that is stored, run out or not. */
    method InsertOne(num: int, expires: int) returns (ok: bool)
      modifies this`numbers
      ensures ok <==> num !in old(numbers)
      ensures numbers == if ok then old(numbers)[num := expires] else old(numbers)
    {
      ok := num !in numbers;
      if ok {
        numbers := numbers[num := expires];
      }
    }

    /** Mongo: deletes what has run out by `cutoff`. */
    method DeleteExpired(cutoff: int)
      modifies this`numbers
      ensures numbers == map n | n in old(numbers) && cutoff < old(numbers)[n] :: old(numbers)[n]
    {
      numbers := map n | n in numbers && cutoff < numbers[n] :: numbers[n];
    }

    /** At the end of a call that began at `s0`. */
    lemma Returned(s0: State)
      requires Synced(s0) && Reaches(origin, s0) && origin.store == map[] && origin.grants == []
      ensures Valid() && Inv(sys)
    {
      R.Trans(Moves(), origin, s0, sys);
      ReachesInv(origin, sys);
    }
  }

  class RedisAtomic {
    const client: Store
    const leaseMs: nat

    constructor (client: Store, leaseMs: nat)
      ensures this.client == client && this.leaseMs == leaseMs
    {
      this.client, this.leaseMs := client, leaseMs;
    }

    /**
      `start` is the random draw. The call tries the numbers in the order of the scan, one
      command each, given in the states `met`. It returns the first that is not leased when
      it is tried, which it is granted for the whole lease from then on; it fails only if
      `max` is not positive or every number was leased when it was tried.
    */
    method GetUniqueRandomNumber(max: int, start: int) returns (r: Result<int, NumberError>, ghost met: seq<State>)
      requires client.Valid() && (0 < max ==> 0 <= start < max)
      modifies client
      ensures client.Valid() && Reaches(old(client.sys), client.sys) && Inv(client.sys)
      ensures max <= 0 ==> r.Err? && client.sys == old(client.sys)
      ensures 0 < max ==> ScanEnds(RedisScan(start, max, leaseMs), old(client.sys), met, client.sys, r)
    {
      hide Scanned, AllTaken, WasTaken, Inv;
      ghost var s0 := client.sys;
      R.Self(Moves(), s0);
      client.Returned(s0);
      met := [];
      if max <= 0 {
        return Err(NoAvailableNumber), met;
      }
      ghost var scan := RedisScan(start, max, leaseMs);
      NothingYet(scan, s0);
      for offset := 0 to max
        invariant client.Synced(s0) && |met| == offset
        invariant Scanned(scan, s0, met, client.sys) && AllTaken(scan, met)
      {
        var num := Probe(start, offset, max);
        ghost var before := client.sys;
        client.Interfere(s0);
        ghost var w := client.sys;
        ScannedMoves(scan, s0, met, before, w);
        var ok := client.SetNx(num, leaseMs);
        client.Took(s0, SetNx(num, leaseMs));
        if ok {
          ScanWins(scan, s0, met, w, client.sys);
          met := met + [w];
          client.Returned(s0);
          return Ok(num), met;
        }
        ScanGoesOn(scan, s0, met, w, client.sys);
        met := met + [w];
      }
      EveryNumberProbed(scan, met);
      client.Returned(s0);
      r := Err(NoAvailableNumber);
    }
  }

  class MongoAtomic {
    const random: Store
    const lease: nat

    constructor (random: Store, lease: nat)
      ensures this.random == random && this.lease == lease
    {
      this.random, this.lease := random, lease;
    }

    /**
      As with Redis, but a number is taken as long as it is stored, run out or not. The scan
      begins in the state `purged`, in which nothing is stored that had run out when the
      call began, and the lease counts from there.
    */
    method GetUniqueRandomNumber(max: int, start: int)
        returns (r: Result<int, NumberError>, ghost purged: State, ghost met: seq<State>)
      requires random.Valid() && (0 < max ==> 0 <= start < max)
      modifies random
      ensures random.Valid() && Reaches(old(random.sys), random.sys) && Inv(random.sys)
      ensures Reaches(old(random.sys), purged)
      ensures max <= 0 ==> r.Err? && random.sys == old(random.sys)
      ensures 0 < max ==> forall n :: n in purged.store ==> old(random.now) < purged.store[n]
      ensures 0 < max ==> ScanEnds(MongoScan(start, max, old(random.now), lease), purged, met, random.sys, r)
    {
      hide Scanned, AllTaken, WasTaken, Inv;
      ghost var s0 := random.sys;
      R.Self(Moves(), s0);
      random.Returned(s0);
      purged, met := s0, [];
      if max <= 0 {
        return Err(NoAvailableNumber), purged, met;
      }
      var at := random.now;
      random.Interfere(s0);
      random.DeleteExpired(at);
      random.Took(s0, Purge(at));
      purged := random.sys;
      R.Self(Moves(), purged);
      ghost var scan := MongoScan(start, max, at, lease);
      NothingYet(scan, purged);
      for offset := 0 to max
        invariant random.Synced(purged) && at <= random.now && |met| == offset
        invariant Scanned(scan, purged, met, random.sys) && AllTaken(scan, met)
      {
        var num := Probe(start, offset, max);
        ghost var before := random.sys;
        random.Interfere(purged);
        ghost var w := random.sys;
        ScannedMoves(scan, purged, met, before, w);
        var ok := random.InsertOne(num, at + lease);
        random.Took(purged, InsertOne(num, at, lease));
        if ok {
          ScanWins(scan, purged, met, w, random.sys);
          met := met + [w];
          R.Trans(Moves(), s0, purged, random.sys);
          random.Returned(s0);
          return Ok(num), purged, met;
        }
        ScanGoesOn(scan, purged, met, w, random.sys);
        met := met + [w];
      }
      EveryNumberProbed(scan, met);
      R.Trans(Moves(), s0, purged, random.sys);
      random.Returned(s0);
      r := Err(NoAvailableNumber);
    }
  }
}
