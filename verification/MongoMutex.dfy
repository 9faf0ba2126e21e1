/**
  The Mongo-backed mutex object in the form of its code: calls that issue store commands
  one at a time, with the rest of the world moving in between. Each call is proved to be
  a run of `MongoMutexProtocol`, so everything proved of all runs holds of it; the lock is
  exclusive as long as every step, of any object, was gentle.
*/
module MongoMutex {
  import opened Wrappers
  import opened P = MongoMutexProtocol
  import R = Runs

  /** The document of one lock key, and the clock. */
  class Collection {
    var now: int
    var doc: Option<Record>
    /** The whole system, every mutex object included, and whether all steps so far were gentle. */
    ghost var world: World
    ghost const origin: World
    ghost const owner: map<string, nat>

    /** The fields are those of the system, and the system got here by a run. */
    ghost predicate Valid()
      reads this
    {
      Synced(origin) && Init(origin.sys) && origin.gentle
    }

    ghost predicate Synced(w0: World)
      reads this
    {
      world.sys.now == now && world.sys.doc == doc && Reaches(w0, world, owner)
    }

    constructor (now: int, objects: nat, ghost owner: map<string, nat>)
      ensures Valid() && this.owner == owner
      ensures world == World(State(now, None, seq(objects, i => Client(None, Idle))), true)
    {
      this.now, this.doc := now, None;
      this.owner := owner;
      origin := World(State(now, None, seq(objects, i => Client(None, Idle))), true);
      world := origin;
      new;
      R.Self(Moves(owner), origin);
    }

    /**
      The rest of the world moves. Callers know this contract only: anything may have
      happened, except a move of object `me`.
    */
    method Interfere(ghost w0: World, ghost me: nat)
      requires Synced(w0) && me < |world.sys.clients|
      modifies this
      ensures Synced(w0) && old(now) <= now
      ensures |world.sys.clients| == |old(world.sys).clients| && world.sys.clients[me] == old(world.sys).clients[me]
    {
    }

    /** Waits at least `d`, while anything may happen. */
    method Sleep(ghost w0: World, ghost me: nat, d: nat)
      requires Synced(w0) && me < |world.sys.clients|
      modifies this
      ensures Synced(w0) && old(now) + d <= now
      ensures |world.sys.clients| == |old(world.sys).clients| && world.sys.clients[me] == old(world.sys).clients[me]
    {
      now := now + d;
      Took(w0, Tick(now));
    }

    /** Records that the step just taken on the fields is step `a` of the protocol. */
    ghost method Took(w0: World, a: Step)
      requires Reaches(w0, world, owner)
      requires Enabled(world.sys, a) && OwnIdentities(a, owner)
      modifies this`world
      ensures world == Moved(old(world), a) && Reaches(w0, world, owner)
    {
      R.Step(Moves(owner), w0, world, a, Moved(world, a));
      world := Moved(world, a);
    }

    method InsertOne(rec: Record) returns (inserted: bool)
      modifies this`doc
      ensures inserted == old(doc).None?
      ensures doc == if inserted then Some(rec) else old(doc)
    {
      inserted := doc.None?;
      if inserted {
        doc := Some(rec);
      }
    }

    /** Replaces the document if it still has the given expiry. */
    method UpdateOne(expires: int, rec: Record) returns (matched: bool)
      modifies this`doc
      ensures matched == (old(doc).Some? && old(doc).value.expires == expires)
      ensures doc == if matched then Some(rec) else old(doc)
    {
      matched := doc.Some? && doc.value.expires == expires;
      if matched {
        doc := Some(rec);
      }
    }

    /** Deletes the document if it still has the given expiry. */
    method DeleteOne(expires: int) returns (deleted: bool)
      modifies this`doc
      ensures deleted == (old(doc).Some? && old(doc).value.expires == expires)
      ensures doc == if deleted then None else old(doc)
    {
      deleted := doc.Some? && doc.value.expires == expires;
      if deleted {
        doc := None;
      }
    }

    method DeleteKey()
      modifies this`doc
      ensures doc.None?
    {
      doc := None;
    }
  }

  class MongoMutex {
    const collection: Collection
    const me: nat
    var lockDetail: Option<Record>

    constructor (collection: Collection, me: nat)
      requires collection.Valid() && me < |collection.world.sys.clients|
      requires collection.world.sys.clients[me] == Client(None, Idle)
      ensures Valid() && this.collection == collection && this.me == me && lockDetail.None?
    {
      this.collection, this.me, lockDetail := collection, me, None;
    }

    /** The object is between calls and the protocol knows what it holds. */
    ghost predicate Valid()
      reads this, collection
    {
      && collection.Valid()
      && me < |collection.world.sys.clients|
      && collection.world.sys.clients[me] == Client(lockDetail, Idle)
    }

    ghost predicate Mine(opt: Opt) {
      OwnOpt(opt, me, collection.owner)
    }

    /**
      True: the object has a detail that had not run out when the call began. As long as it
      has not run out, and every step was gentle, it is the stored document and no other
      object holds the lock.
      False: it has none, and the last command of the call, given in the state `refused`,
      met a document of somebody else, or one that changed since it was read.
    */
    method TryLock(opt: Opt) returns (locked: bool, ghost refused: World)
      requires Valid() && Mine(opt) && 0 < opt.ttl
      modifies this`lockDetail, collection
      ensures Valid() && old(collection.now) <= collection.now
      ensures Reaches(old(collection.world), collection.world, collection.owner)
      ensures locked == lockDetail.Some?
      ensures !locked ==> Reaches(old(collection.world), refused, collection.owner)
      ensures !locked ==> Refused(refused, collection.world, me)
      ensures locked ==> old(collection.now) <= lockDetail.value.expires
      ensures locked && collection.now < lockDetail.value.expires && collection.world.gentle ==>
                collection.doc == lockDetail && Holds(collection.world.sys, me)
    {
      ghost var w0 := collection.world;
      R.Self(Moves(collection.owner), w0);
      var at := collection.now;
      collection.Took(w0, Begin(me, opt));
      locked := false;
      refused := w0;
      if lockDetail.Some? {
        ghost var seen;
        locked, seen := Recheck(w0, opt, at);
      }
      if !locked {
        locked, refused := Search(w0, opt, at);
      }
      Returned(w0);
    }

    /** The part of `TryLock` that runs when the object has no detail (any more). */
    method Search(ghost w0: World, opt: Opt, at: int) returns (locked: bool, ghost refused: World)
      requires InCall(w0, Finding(opt, at)) && lockDetail.None? && 0 < opt.ttl
      modifies this`lockDetail, collection
      ensures old(collection.now) <= collection.now && InCall(w0, Idle)
      ensures locked == lockDetail.Some?
      ensures !locked ==> Reaches(w0, refused, collection.owner) && Refused(refused, collection.world, me)
      ensures locked ==> at <= lockDetail.value.expires
    {
      collection.Interfere(w0, me);
      var found := collection.doc;
      refused := collection.world;
      collection.Took(w0, Find(me));
      if found.None? {
        locked, refused := InsertNew(w0, opt, at);
      } else if found.value.expires < at {
        locked, refused := TakeOver(w0, opt, at, found.value);
      } else {
        locked := opt.identity != "" && found.value.identity == opt.identity;
        if locked {
          lockDetail := found;
        }
      }
    }

    /**
      The part of `TryLock` that looks whether the detail it has is still stored. It is
      held exactly when the document found, in the state `seen`, runs out after the call
      began and has the identity and the expiry that were recorded.
    */
    method Recheck(ghost w0: World, opt: Opt, at: int) returns (held: bool, ghost seen: World)
      requires InCall(w0, CheckingHeld(opt, at)) && lockDetail.Some?
      modifies this`lockDetail, collection
      ensures old(collection.now) <= collection.now
      ensures InCall(w0, if held then Idle else Finding(opt, at))
      ensures Reaches(w0, seen, collection.owner)
      ensures held <==>
              && seen.sys.doc.Some? && at < seen.sys.doc.value.expires
              && seen.sys.doc.value.identity == old(lockDetail).value.identity
              && seen.sys.doc.value.expires == old(lockDetail).value.expires
      ensures collection.world.sys.doc == seen.sys.doc
      ensures lockDetail == if held then old(lockDetail) else None
    {
      collection.Interfere(w0, me);
      seen := collection.world;
      var doc := collection.doc;
      collection.Took(w0, CheckHeld(me));
      held := && doc.Some?
              && doc.value.expires > at
              && doc.value.identity == lockDetail.value.identity
              && doc.value.expires == lockDetail.value.expires;
      if !held {
        lockDetail := None;
      }
    }

    /** The part of `TryLock` that found no document. */
    method InsertNew(ghost w0: World, opt: Opt, at: int) returns (locked: bool, ghost refused: World)
      requires InCall(w0, Inserting(opt, at)) && lockDetail.None?
      modifies this`lockDetail, collection
      ensures old(collection.now) <= collection.now && InCall(w0, Idle)
      ensures lockDetail == if locked then Some(Record(opt.identity, at + opt.ttl, me)) else None
      ensures !locked ==> Reaches(w0, refused, collection.owner) && Refused(refused, collection.world, me)
    {
      collection.Interfere(w0, me);
      refused := collection.world;
      var rec := Record(opt.identity, at + opt.ttl, me);
      locked := collection.InsertOne(rec);
      collection.Took(w0, Insert(me));
      if locked {
        Settled(w0, rec);
      }
    }

    /** The part of `TryLock` that found an expired document: compare-and-set on its expiry. */
    method TakeOver(ghost w0: World, opt: Opt, at: int, seen: Record)
        returns (locked: bool, ghost refused: World)
      requires InCall(w0, Replacing(opt, at, seen)) && lockDetail.None?
      modifies this`lockDetail, collection
      ensures old(collection.now) <= collection.now && InCall(w0, Idle)
      ensures lockDetail == if locked then Some(Record(opt.identity, at + opt.ttl, me)) else None
      ensures !locked ==> Reaches(w0, refused, collection.owner) && Refused(refused, collection.world, me)
    {
      collection.Interfere(w0, me);
      refused := collection.world;
      var rec := Record(opt.identity, at + opt.ttl, me);
      locked := collection.UpdateOne(seen.expires, rec);
      collection.Took(w0, Replace(me));
      if locked {
        Settled(w0, rec);
      }
    }

    /** The reply of a won write arrives and the detail is recorded. */
    method Settled(ghost w0: World, rec: Record)
      requires InCall(w0, Won(rec))
      modifies this`lockDetail, collection
      ensures old(collection.now) <= collection.now && InCall(w0, Idle)
      ensures lockDetail == Some(rec)
    {
      collection.Interfere(w0, me);
      lockDetail := Some(rec);
      collection.Took(w0, Settle(me));
    }

    /**
      From state `w` to `w'` a `try_lock` of object `i` is refused: it finds a live document
      that does not carry its identity, its insert meets a document, or its compare-and-set
      meets another expiry than it read.
    */
    static ghost predicate Refused(w: World, w': World, i: nat) {
      var s := w.sys;
      && i < |s.clients|
      && w' == World(WithCall(s, i, Idle), w.gentle)
      && match s.clients[i].call {
           case Finding(opt, at) =>
             s.doc.Some? && at <= s.doc.value.expires && (opt.identity == "" || s.doc.value.identity != opt.identity)
           case Inserting(_, _) => s.doc.Some?
           case Replacing(_, _, seen) => s.doc.None? || s.doc.value.expires != seen.expires
           case _ => false
         }
    }

    /** The object is at the given point of a call that began in a run from `w0`. */
    ghost predicate InCall(w0: World, call: Call)
      reads this, collection
    {
      && collection.Synced(w0)
      && me < |collection.world.sys.clients|
      && collection.world.sys.clients[me] == Client(lockDetail, call)
    }

    /** At the end of a call that began at `w0`. */
    lemma Returned(w0: World)
      requires InCall(w0, Idle)
      requires Init(collection.origin.sys) && collection.origin.gentle
      requires Reaches(collection.origin, w0, collection.owner)
      ensures Valid()
      ensures lockDetail.Some? && collection.now < lockDetail.value.expires && collection.world.gentle ==>
                collection.doc == lockDetail && Holds(collection.world.sys, me)
    {
      R.Trans(Moves(collection.owner), collection.origin, w0, collection.world);
      HeldIsLive();
    }

    lemma HeldIsLive()
      requires Valid()
      ensures lockDetail.Some? && collection.now < lockDetail.value.expires && collection.world.gentle ==>
                collection.doc == lockDetail && Holds(collection.world.sys, me)
    {
      InvInit(collection.origin.sys, collection.owner);
      ReachesInv(collection.origin, collection.world, collection.owner);
      assert collection.world.gentle ==> ClientOk(collection.world.sys, me, collection.owner);
    }

    /**
      Releases the lock. It fails, and keeps the detail, exactly when the object has none
      or its delete, given in the state `met`, does not meet the document it took; a
      failure removes nothing.
    */
    method Unlock() returns (unlocked: bool, ghost met: World)
      requires Valid()
      modifies this`lockDetail, collection
      ensures Valid() && Reaches(old(collection.world), collection.world, collection.owner)
      ensures lockDetail == if unlocked then None else old(lockDetail)
      ensures Reaches(old(collection.world), met, collection.owner)
      ensures unlocked <==>
              old(lockDetail).Some? && met.sys.doc.Some? && met.sys.doc.value.expires == old(lockDetail).value.expires
      ensures unlocked ==> UnlockedFrom(met)
      ensures !unlocked ==> collection.world == met
    {
      ghost var w0 := collection.world;
      met := w0;
      R.Self(Moves(collection.owner), w0);
      if lockDetail.None? {
        return false, met;
      }
      collection.Interfere(w0, me);
      met := collection.world;
      unlocked := collection.DeleteOne(lockDetail.value.expires);
      collection.Took(w0, UnlockDelete(me));
      if unlocked {
        Unlocked(w0, met);
      }
      Returned(w0);
    }

    /** The delete went through in state `met`; what happened since is a run from there. */
    ghost predicate UnlockedFrom(met: World)
      reads this, collection
    {
      && Enabled(met.sys, UnlockDelete(me))
      && Moved(met, UnlockDelete(me)).sys.doc.None?
      && Reaches(Moved(met, UnlockDelete(me)), collection.world, collection.owner)
    }

    /** The reply of the delete arrives. */
    method Unlocked(ghost w0: World, ghost met: World)
      requires Enabled(met.sys, UnlockDelete(me)) && collection.world == Moved(met, UnlockDelete(me))
      requires collection.world.sys.doc.None? && InCall(w0, UnlockWon)
      modifies this`lockDetail, collection
      ensures InCall(w0, Idle) && lockDetail.None? && UnlockedFrom(met)
    {
      ghost var w1 := collection.world;
      assert InCall(w0, UnlockWon);
      R.Self(Moves(collection.owner), w1);
      collection.Interfere(w1, me);
      R.Trans(Moves(collection.owner), w0, w1, collection.world);
      lockDetail := None;
      collection.Took(w1, UnlockSettle(me));
      R.Trans(Moves(collection.owner), w0, w1, collection.world);
    }

    /**
      Says whether the document that it finds, in the state `seen`, had not run out when
      the call began. An expired one it deletes by its key alone, whatever is stored in the
      state `met` of the delete: the run stays gentle only if that is no live lock.
    */
    method ExistLock() returns (locked: bool, ghost seen: World, ghost met: World)
      requires Valid()
      modifies collection
      ensures Valid() && lockDetail == old(lockDetail)
      ensures Reaches(old(collection.world), collection.world, collection.owner)
      ensures Reaches(old(collection.world), seen, collection.owner) && Enabled(seen.sys, ExistFind(me))
      ensures locked <==> seen.sys.doc.Some? && old(collection.now) < seen.sys.doc.value.expires
      ensures locked || seen.sys.doc.None? ==> collection.world == Moved(seen, ExistFind(me))
      ensures !locked && seen.sys.doc.Some? ==>
                Reaches(Moved(seen, ExistFind(me)), met, collection.owner) && DeletedFrom(met)
    {
      ghost var w0 := collection.world;
      R.Self(Moves(collection.owner), w0);
      var at := collection.now;
      collection.Took(w0, ExistBegin(me));
      collection.Interfere(w0, me);
      seen := collection.world;
      met := seen;
      var found := collection.doc;
      collection.Took(w0, ExistFind(me));
      locked := found.Some? && at < found.value.expires;
      if found.Some? && !locked {
        met := DeleteExpired(w0, Moved(seen, ExistFind(me)));
      }
      Returned(w0);
    }

    /** The part of `ExistLock` that found an expired document. */
    method DeleteExpired(ghost w0: World, ghost w1: World) returns (ghost met: World)
      requires InCall(w0, ExistDeleting) && collection.world == w1
      modifies collection
      ensures InCall(w0, Idle) && old(collection.now) <= collection.now
      ensures Reaches(w1, met, collection.owner) && DeletedFrom(met)
    {
      R.Self(Moves(collection.owner), w1);
      collection.Interfere(w1, me);
      met := collection.world;
      collection.DeleteKey();
      collection.Took(w1, ExistDelete(me));
      ghost var w2 := collection.world;
      R.Trans(Moves(collection.owner), w0, w1, w2);
      R.Self(Moves(collection.owner), w2);
      collection.Interfere(w2, me);
      WasGentle(w2, collection.world, collection.owner);
      R.Trans(Moves(collection.owner), w0, w2, collection.world);
    }

    /** The delete by key went through in state `met`; what happened since is a run from there. */
    ghost predicate DeletedFrom(met: World)
      reads this, collection
    {
      && Enabled(met.sys, ExistDelete(me))
      && Moved(met, ExistDelete(me)).sys.doc.None?
      && Reaches(Moved(met, ExistDelete(me)), collection.world, collection.owner)
      && (collection.world.gentle ==> Gentle(met.sys, ExistDelete(me)))
    }

    /** The sleep between two tries: `spin`, or what is left of a limited wait if that is shorter. */
    method Wait(start: int, spin: nat, maxWait: nat) returns (ghost planned: (int, nat))
      requires Valid() && (0 < maxWait ==> collection.now < start + maxWait)
      modifies collection
      ensures Valid() && Reaches(old(collection.world), collection.world, collection.owner)
      ensures old(collection.now) + spin <= collection.now || (0 < maxWait && start + maxWait <= collection.now)
      ensures PlannedWell(planned, start, spin, maxWait)
    {
      ghost var w0 := collection.world;
      R.Self(Moves(collection.owner), w0);
      collection.Interfere(w0, me);
      var sleepFor := spin;
      if maxWait > 0 {
        var left := if collection.now - start < maxWait then maxWait - (collection.now - start) else 0;
        sleepFor := if spin < left then spin else left;
      }
      planned := (collection.now, sleepFor);
      collection.Sleep(w0, me, sleepFor);
      R.Trans(Moves(collection.owner), collection.origin, w0, collection.world);
    }

    /**
      Tries until it has the lock or a limited wait, `maxWait` above zero, is over. A
      failure is reported only after the whole wait; there are at most
      ceil(maxWait / spin) + 1 tries, and it sleeps once between two of them: one interval,
      or what is left of the wait. Without a limit it never gives up: it is followed for
      `patience` tries.
    */
    method Lock(opt: Opt, spin: nat, maxWait: nat, patience: nat)
        returns (outcome: LockOutcome, tries: nat, ghost sleeps: seq<(int, nat)>)
      requires Valid() && Mine(opt) && 0 < opt.ttl
      requires 0 < spin && 0 < patience
      modifies this`lockDetail, collection
      ensures Valid() && Reaches(old(collection.world), collection.world, collection.owner)
      ensures outcome.Locked? == lockDetail.Some?
      ensures outcome.Locked? && collection.now < lockDetail.value.expires && collection.world.gentle ==>
                Holds(collection.world.sys, me)
      ensures outcome.NotAcquired? ==> 0 < maxWait && old(collection.now) + maxWait <= collection.now
      ensures outcome.StillTrying? ==> maxWait == 0 && tries == patience
      ensures 1 <= tries <= if 0 < maxWait then MaxTries(maxWait, spin) else patience
      ensures |sleeps| == tries - 1
      ensures forall k :: 0 <= k < |sleeps| ==> PlannedWell(sleeps[k], old(collection.now), spin, maxWait)
    {
      ghost var w0 := collection.world;
      R.Self(Moves(collection.owner), w0);
      var start := collection.now;
      tries, sleeps := 0, [];
      ghost var left: int, most: nat := maxWait, MaxTries(maxWait, spin);
      while true
        invariant Valid() && start <= collection.now
        invariant Reaches(w0, collection.world, collection.owner)
        invariant 0 < maxWait ==> start + maxWait - left <= collection.now || start + maxWait <= collection.now
        invariant if 0 < maxWait then tries + MaxTries(left, spin) == most else tries < patience
        invariant |sleeps| == tries
        invariant forall k :: 0 <= k < |sleeps| ==> PlannedWell(sleeps[k], start, spin, maxWait)
        decreases if 0 < maxWait then left + spin else patience - tries
      {
        ghost var w1, refused := collection.world, collection.world;
        var locked;
        locked, refused := TryLock(opt);
        R.Trans(Moves(collection.owner), w0, w1, collection.world);
        tries := tries + 1;
        if locked {
          return Locked, tries, sleeps;
        }
        if maxWait > 0 && collection.now - start >= maxWait {
          return NotAcquired, tries, sleeps;
        }
        if maxWait == 0 && tries == patience {
          return StillTrying, tries, sleeps;
        }
        ghost var left' := left - spin;
        if maxWait > 0 {
          OneMoreTry(left, left', spin);
        }
        w1 := collection.world;
        ghost var planned := Wait(start, spin, maxWait);
        sleeps := sleeps + [planned];
        R.Trans(Moves(collection.owner), w0, w1, collection.world);
        left := left';
      }
    }
  }

  /** How a call of `lock` ends; the last only says that it has not ended yet. */
  datatype LockOutcome = Locked | NotAcquired | StillTrying

  /** A sleep, as begun and how long: one interval, or what is left of a limited wait if that is shorter. */
  ghost predicate PlannedWell(planned: (int, nat), start: int, spin: nat, maxWait: nat) {
    var end := start + maxWait;
    planned.1 ==
    if maxWait == 0 || planned.0 + spin <= end then spin else if planned.0 <= end then end - planned.0 else 0
  }

  /** How often a caller that waits `wait` can try: once, and once more after each interval begun. */
  function MaxTries(wait: int, spin: nat): nat
    requires 0 < spin
    decreases if wait < 0 then 0 else wait
  {
    if wait <= 0 then 1 else 1 + MaxTries(wait - spin, spin)
  }

  lemma OneMoreTry(wait: int, wait': int, spin: nat)
    requires 0 < spin && 0 < wait && wait' == wait - spin
    ensures MaxTries(wait, spin) == 1 + MaxTries(wait', spin)
  {
  }

  /** For a positive wait this is ceil(wait / spin) + 1. */
  lemma {:induction false} MaxTriesIsCeiling(wait: int, spin: nat)
    requires 0 < spin && 0 < wait
    ensures var intervals := MaxTries(wait, spin) - 1; (intervals - 1) * spin < wait <= intervals * spin
    decreases wait
  {
    var intervals := MaxTries(wait, spin) - 1;
    assert intervals * spin == (intervals - 1) * spin + spin;
    if spin < wait {
      MaxTriesIsCeiling(wait - spin, spin);
      assert (intervals - 1) * spin == (intervals - 2) * spin + spin;
    } else {
      assert MaxTries(wait - spin, spin) == 1;
    }
  }
}
