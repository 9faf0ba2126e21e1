/**
  The Redis-backed mutex object in the form of its code. As with the Mongo mutex, each
  call is proved to be a run of `RedisMutexProtocol`, with the rest of the world moving
  between its commands; the lock is exclusive as long as every step, of any object, was gentle.
*/
module RedisMutex {
  import opened Wrappers
  import opened P = RedisMutexProtocol
  import R = Runs

  /** The key of one lock, and the clock of the store in milliseconds. */
  class Store {
    var now: int
    var key: Option<Entry>
    /** The whole system, every mutex object included, and whether all steps so far were gentle. */
    ghost var world: World
    ghost const origin: World
    ghost const owner: map<string, nat>

    /** The fields are those of the system, and the system got here by a run. */
    ghost predicate Valid()
      reads this
    {
      Synced(origin) && Init(origin.sys, owner) && origin.gentle
    }

    ghost predicate Synced(w0: World)
      reads this
    {
      world.sys.now == now && world.sys.key == key && Reaches(w0, world, owner)
    }

    constructor (now: int, objects: seq<Client>, ghost owner: map<string, nat>)
      requires Init(State(now, None, objects), owner)
      ensures Valid() && this.owner == owner && world == World(State(now, None, objects), true)
    {
      this.now, this.key := now, None;
      this.owner := owner;
      origin := World(State(now, None, objects), true);
      world := origin;
      new;
      R.Self(Moves(owner), origin);
    }

    /**
      The rest of the world moves. Callers know this contract only: anything may have
      happened, except a move of object `me`.
    */
    method Interfere(ghost w0: World, ghost me: nat)
      requires Synced(w0) && me < |world.sys.clients|
      modifies this
      ensures Synced(w0) && old(now) <= now
      ensures |world.sys.clients| == |old(world.sys).clients| && world.sys.clients[me] == old(world.sys).clients[me]
    {
    }

    /** Records that the command just given is step `a` of the protocol. */
    ghost method Took(w0: World, a: Step)
      requires Reaches(w0, world, owner)
      requires Enabled(world.sys, a) && OwnIdentities(a, owner)
      modifies this`world
      ensures world == Moved(old(world), a) && Reaches(w0, world, owner)
    {
      R.Step(Moves(owner), w0, world, a, Moved(world, a));
      world := Moved(world, a);
    }

    /** The entry, unless it has run out. */
    function LiveEntry(): Option<Entry>
      reads this
    {
      if key.Some? && now < key.value.until then key else None
    }

    method Get() returns (entry: Option<Entry>)
      ensures entry == LiveEntry()
    {
      entry := LiveEntry();
    }

    method Set(entry: Entry)
      modifies this`key
      ensures key == Some(entry)
    {
      key := Some(entry);
    }

    method SetNx(entry: Entry) returns (ok: bool)
      modifies this`key
      ensures ok == old(LiveEntry()).None?
      ensures key == if ok then Some(entry) else old(key)
    {
      ok := LiveEntry().None?;
      if ok {
        key := Some(entry);
      }
    }

    /** The script: deletes the key if it has the given token. */
    method DeleteIf(token: string) returns (deleted: bool)
      modifies this`key
      ensures deleted == (old(LiveEntry()).Some? && old(LiveEntry()).value.token == token)
      ensures key == if deleted then None else old(key)
    {
      deleted := LiveEntry().Some? && LiveEntry().value.token == token;
      if deleted {
        key := None;
      }
    }
  }

  class RedisMutex {
    const store: Store
    const me: nat
    const own: string
    var lockedOwner: string

    /** `own` is the random token of the object. */
    constructor (store: Store, me: nat, own: string)
      requires store.Valid() && me < |store.world.sys.clients|
      requires store.world.sys.clients[me] == Client(own, "", Idle, None)
      ensures Valid() && this.store == store && this.me == me && this.own == own && lockedOwner == ""
    {
      this.store, this.me, this.own := store, me, own;
      lockedOwner := "";
    }

    /** The object is between calls and the protocol knows its fields. */
    ghost predicate Valid()
      reads this, store
    {
      store.Valid() && InCall(store.origin, Idle)
    }

    /** The object is at the given point of a call that began in a run from `w0`. */
    ghost predicate InCall(w0: World, call: Call)
      reads this, store
    {
      && store.Synced(w0)
      && me < |store.world.sys.clients|
      && At(store.world.sys.clients[me], call)
    }

    ghost predicate At(c: Client, call: Call)
      reads this
    {
      c.own == own && c.lockedOwner == lockedOwner && c.call == call
    }

    /** The lease this object was last granted, and has not given back. */
    ghost function Lease(): Option<Entry>
      reads this, store
      requires me < |store.world.sys.clients|
    {
      store.world.sys.clients[me].lease
    }

    /**
      True: the object was granted a lease of `px` from some moment of the call on. As long
      as it has not run out, and every step was gentle, its token is the stored one and no
      other object holds the lock. False: the last command of the call, given in the state `refused`, met a live
      entry.
    */
    method TryLock(identity: string, px: nat) returns (locked: bool, ghost refused: World)
      requires Valid() && (identity != "" ==> OwnToken(identity, me, store.owner))
      modifies this`lockedOwner, store
      ensures Valid() && old(store.now) <= store.now
      ensures Reaches(old(store.world), store.world, store.owner)
      ensures lockedOwner == if !locked then old(lockedOwner) else if identity != "" then identity else own
      ensures locked ==>
                && Lease().Some? && Lease().value.token == lockedOwner
                && old(store.now) + px <= Lease().value.until <= store.now + px
      ensures locked && store.now < Lease().value.until && store.world.gentle ==>
                store.key == Lease() && Holds(store.world.sys, me)
      ensures !locked ==> Reaches(old(store.world), refused, store.owner) && Refused(refused, store.world, me)
    {
      ghost var w0 := store.world;
      refused := w0;
      R.Self(Moves(store.owner), w0);
      store.Took(w0, Begin(me, identity, px));
      var token := if identity != "" then identity else own;
      store.Interfere(w0, me);
      var existing := store.Get();
      store.Took(w0, P.Get(me));
      if existing.Some? && existing.value.token == token {
        ghost var met := RefreshIt(w0, token, px, existing.value.until);
        locked := true;
      } else {
        locked, refused := SetIt(w0, token, px);
      }
      Returned(w0);
    }

    /**
      The part of `TryLock` that saw its own token: an unconditional SET, whatever is stored
      in the state `met` of the command. The run stays gentle only if that is no live entry
      of another object.
    */
    method RefreshIt(ghost w0: World, token: string, px: nat, ghost seenUntil: int) returns (ghost met: World)
      requires InCall(w0, Refreshing(token, px, seenUntil))
      modifies this`lockedOwner, store
      ensures old(store.now) <= store.now && InCall(w0, Idle) && lockedOwner == token
      ensures GrantedSince(old(store.now), token, px)
      ensures Reaches(old(store.world), met, store.owner) && RefreshedFrom(met)
    {
      ghost var w1 := store.world;
      R.Self(Moves(store.owner), w1);
      store.Interfere(w1, me);
      met := store.world;
      store.Set(Entry(token, store.now + px, me));
      store.Took(w1, Refresh(me));
      ghost var w2 := store.world;
      R.Trans(Moves(store.owner), w0, w1, w2);
      R.Self(Moves(store.owner), w2);
      Settled(w2, token);
      WasGentle(w2, store.world, store.owner);
      R.Trans(Moves(store.owner), w0, w2, store.world);
    }

    /** The SET went through in state `met`; what happened since is a run from there. */
    ghost predicate RefreshedFrom(met: World)
      reads this, store
    {
      && Enabled(met.sys, Refresh(me))
      && Reaches(Moved(met, Refresh(me)), store.world, store.owner)
      && (store.world.gentle ==> Gentle(met.sys, Refresh(me)))
    }

    /** The part of `TryLock` that saw no token, or another one. */
    method SetIt(ghost w0: World, token: string, px: nat) returns (ok: bool, ghost refused: World)
      requires InCall(w0, Setting(token, px))
      modifies this`lockedOwner, store
      ensures old(store.now) <= store.now && InCall(w0, Idle)
      ensures lockedOwner == if ok then token else old(lockedOwner)
      ensures ok ==> GrantedSince(old(store.now), token, px)
      ensures !ok ==> Reaches(w0, refused, store.owner) && Refused(refused, store.world, me)
    {
      store.Interfere(w0, me);
      refused := store.world;
      ok := store.SetNx(Entry(token, store.now + px, me));
      store.Took(w0, SetNx(me));
      if ok {
        Settled(w0, token);
      }
    }

    /** The reply of a write that went through arrives. */
    method Settled(ghost w0: World, token: string)
      requires InCall(w0, Won(token))
      modifies this`lockedOwner, store
      ensures old(store.now) <= store.now && InCall(w0, Idle)
      ensures lockedOwner == token && Lease() == old(Lease())
    {
      store.Interfere(w0, me);
      lockedOwner := token;
      store.Took(w0, Settle(me));
    }

    /** The lease was written at or after the moment `start`. */
    ghost predicate GrantedSince(start: int, token: string, px: nat)
      reads this, store
    {
      && me < |store.world.sys.clients|
      && Lease().Some? && Lease().value.token == token
      && start + px <= Lease().value.until <= store.now + px
    }

    /** From state `w` to `w'` a `try_lock` of object `i` is refused: its SET NX meets a live entry. */
    static predicate Refused(w: World, w': World, i: nat) {
      && i < |w.sys.clients| && w.sys.clients[i].call.Setting? && Live(w.sys).Some?
      && w' == World(WithClient(w.sys, i, w.sys.clients[i].(call := Idle)), w.gentle)
    }

    /** At the end of a call that began at `w0`. */
    lemma Returned(w0: World)
      requires InCall(w0, Idle)
      requires Init(store.origin.sys, store.owner) && store.origin.gentle && Reaches(store.origin, w0, store.owner)
      ensures Valid()
      ensures store.world.gentle && Holds(store.world.sys, me) ==> store.key == Lease()
    {
      R.Trans(Moves(store.owner), store.origin, w0, store.world);
      InvInit(store.origin.sys, store.owner);
      ReachesInv(store.origin, store.world, store.owner);
      assert store.world.gentle ==> ClientOk(store.world.sys, me, store.owner);
    }

    /**
      Releases the lock. It succeeds exactly when the script, run in the state `met`, finds
      live the token under which the object locked, or its own if it did not lock; so it
      succeeds as long as the object holds a lease under this token. Then the object holds
      nothing any more. A failure changes nothing.
    */
    method Unlock() returns (unlocked: bool, ghost met: World)
      requires Valid()
      modifies this`lockedOwner, store
      ensures Valid() && Reaches(old(store.world), met, store.owner)
      ensures unlocked <==>
              && met.sys.key.Some? && met.sys.now < met.sys.key.value.until
              && met.sys.key.value.token == if old(lockedOwner) != "" then old(lockedOwner) else own
      ensures met.gentle && Holds(met.sys, me) && old(lockedOwner) != "" ==>
                met.sys.clients[me].lease.value.token == old(lockedOwner) ==> unlocked
      ensures lockedOwner == if unlocked then "" else old(lockedOwner)
      ensures unlocked ==> Lease().None? && UnlockedFrom(met)
      ensures !unlocked ==> store.world == met
    {
      ghost var w0 := store.world;
      R.Self(Moves(store.owner), w0);
      var token := if lockedOwner != "" then lockedOwner else own;
      store.Interfere(w0, me);
      met := store.world;
      Returned(w0);
      unlocked := store.DeleteIf(token);
      store.Took(w0, UnlockEval(me));
      if unlocked {
        ghost var w1 := store.world;
        R.Self(Moves(store.owner), w1);
        store.Interfere(w1, me);
        lockedOwner := "";
        store.Took(w1, UnlockSettle(me));
        R.Trans(Moves(store.owner), w0, w1, store.world);
      }
      Returned(w0);
    }

    /** The script went through in state `met` and left no key; what happened since is a run from there. */
    ghost predicate UnlockedFrom(met: World)
      reads this, store
    {
      && Enabled(met.sys, UnlockEval(me))
      && Moved(met, UnlockEval(me)).sys.key.None?
      && Reaches(Moved(met, UnlockEval(me)), store.world, store.owner)
    }
  }
}
