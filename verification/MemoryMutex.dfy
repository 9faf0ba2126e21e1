/**
  The in-memory mutex: entries that ran out stay in the shared map until somebody trips
  over them. It is proved to answer every call like a lock whose holder vanishes at the
  moment its lease runs out.
*/
module MemoryMutex {
  import opened Wrappers

  datatype Entry = Entry(owner: string, expiresAt: int)

  /** What one call to one mutex object returns; `Refused` is the error of an unlock. */
  datatype Outcome = Yes | No | Refused

  // ---------- The code, on values ----------

  /** Takes the lock at clock reading `t`, stamping the lease at the later reading `stamp`. */
  function TryLockStep(e: Option<Entry>, identity: string, own: string, t: int, stamp: int, ttl: int)
    : (Option<Entry>, Outcome)
  {
    if e.Some? && t < e.value.expiresAt && e.value.owner != identity then
      (e, No)
    else
      (Some(Entry(if identity != "" then identity else own, stamp + ttl)), Yes)
  }

  function UnlockStep(e: Option<Entry>, owner: string, t: int): (Option<Entry>, Outcome) {
    match e
    case None => (None, Refused)
    case Some(entry) =>
      if entry.expiresAt <= t then (None, Refused)
      else if entry.owner != owner then (e, Refused)
      else (None, Yes)
  }

  function ExistStep(e: Option<Entry>, t: int): (Option<Entry>, Outcome) {
    match e
    case None => (None, No)
    case Some(entry) => if entry.expiresAt <= t then (None, No) else (e, Yes)
  }

  /** The map of all locks and its guard. */
  class Locks {
    var entries: map<string, Entry>

    constructor ()
      ensures entries == map[]
    {
      entries := map[];
    }

    function At(key: string): Option<Entry>
      reads this
    {
      if key in entries then Some(entries[key]) else None
    }
  }

  class InMemoryMutex {
    const locks: Locks
    const key: string
    const defaultTtl: int
    const own: string
    var lockedOwner: string

    constructor (locks: Locks, key: string, defaultTtl: int, own: string)
      ensures this.locks == locks && this.key == key && this.own == own && lockedOwner == ""
    {
      this.locks, this.key, this.defaultTtl, this.own := locks, key, defaultTtl, own;
      lockedOwner := "";
    }

    method TryLock(identity: string, ttl: int, t: int, stamp: int) returns (locked: bool)
      requires t <= stamp
      modifies this, locks
      ensures var (e, out) := TryLockStep(old(locks.At(key)), identity, own, t, stamp, ttl);
              locks.At(key) == e && locked == out.Yes?
      ensures lockedOwner == if !locked then old(lockedOwner) else if identity == "" then own else identity
      ensures locks.entries - {key} == old(locks.entries) - {key}
    {
      if key in locks.entries {
        var existing := locks.entries[key];
        if !(existing.expiresAt <= t) && existing.owner != identity {
          return false;
        }
      }
      var owner := if identity != "" then identity else own;
      locks.entries := locks.entries[key := Entry(owner, stamp + ttl)];
      lockedOwner := owner;
      return true;
    }

    /** Unlocks under the owner under which the object locked, or under its own if it did not lock. */
    method Unlock(t: int) returns (unlocked: bool)
      modifies this, locks
      ensures var owner := if old(lockedOwner) == "" then own else old(lockedOwner);
              var (e, out) := UnlockStep(old(locks.At(key)), owner, t);
              locks.At(key) == e && unlocked == out.Yes?
      ensures lockedOwner == if unlocked then "" else old(lockedOwner)
      ensures locks.entries - {key} == old(locks.entries) - {key}
    {
      var owner := if lockedOwner != "" then lockedOwner else own;
      if key !in locks.entries {
        return false;
      }
      var existing := locks.entries[key];
      if existing.expiresAt <= t {
        locks.entries := locks.entries - {key};
        return false;
      }
      if existing.owner != owner {
        return false;
      }
      locks.entries := locks.entries - {key};
      lockedOwner := "";
      return true;
    }

    method ExistLock(t: int) returns (locked: bool)
      modifies locks
      ensures var (e, out) := ExistStep(old(locks.At(key)), t);
              locks.At(key) == e && locked == out.Yes?
      ensures locks.entries - {key} == old(locks.entries) - {key}
    {
      if key !in locks.entries {
        return false;
      }
      if locks.entries[key].expiresAt <= t {
        locks.entries := locks.entries - {key};
        return false;
      }
      return true;
    }
  }

  // ---------- The lock it implements ----------

  /** A lock with a holder that vanishes when its lease runs out. */
  datatype Holder = Nobody | Somebody(owner: string, until: int)

  /** Time passes for the lock: at `t` a lease that ran out is gone. */
  function At(h: Holder, t: int): Holder {
    if h.Somebody? && h.until <= t then Nobody else h
  }

  datatype Op =
    | TryLock(identity: string, own: string, t: int, stamp: int, ttl: int)
    | Unlock(owner: string, t: int)
    | Exist(t: int)

  function Concrete(e: Option<Entry>, op: Op): (Option<Entry>, Outcome) {
    match op
    case TryLock(identity, own, t, stamp, ttl) => TryLockStep(e, identity, own, t, stamp, ttl)
    case Unlock(owner, t) => UnlockStep(e, owner, t)
    case Exist(t) => ExistStep(e, t)
  }

  /** The same calls on the abstract lock. */
  function Abstract(h: Holder, op: Op): (Holder, Outcome) {
    match op
    case TryLock(identity, own, t, stamp, ttl) =>
      var now := At(h, t);
      if now.Nobody? || now.owner == identity then
        (Somebody(if identity != "" then identity else own, stamp + ttl), Yes)
      else
        (now, No)
    case Unlock(owner, t) =>
      var now := At(h, t);
      if now.Somebody? && now.owner == owner then (Nobody, Yes) else (now, Refused)
    case Exist(t) =>
      (At(h, t), if At(h, t).Somebody? then Yes else No)
  }

  /** When the calls are made: each at or after the one before it. */
  predicate Ordered(ops: seq<Op>, from: int)
    decreases |ops|
  {
    ops == [] || (from <= ops[0].t && Ordered(ops[1..], ops[0].t))
  }

  function ConcreteResults(e: Option<Entry>, ops: seq<Op>): seq<Outcome>
    decreases |ops|
  {
    if ops == [] then [] else
      var (e', out) := Concrete(e, ops[0]);
      [out] + ConcreteResults(e', ops[1..])
  }

  function AbstractResults(h: Holder, ops: seq<Op>): seq<Outcome>
    decreases |ops|
  {
    if ops == [] then [] else
      var (h', out) := Abstract(h, ops[0]);
      [out] + AbstractResults(h', ops[1..])
  }

  /** A stored entry stands for the holder it names, unless it has run out by `t`. */
  function View(e: Option<Entry>, t: int): Holder {
    match e
    case None => Nobody
    case Some(entry) => At(Somebody(entry.owner, entry.expiresAt), t)
  }

  /** In every sequence of calls, from any entry left behind, the answers are those of the lock. */
  lemma {:induction false} SameAnswers(e: Option<Entry>, h: Holder, ops: seq<Op>, from: int)
    requires Ordered(ops, from)
    requires View(e, from) == At(h, from)
    ensures ConcreteResults(e, ops) == AbstractResults(h, ops)
    decreases |ops|
  {
    if ops != [] {
      var t := ops[0].t;
      assert View(e, t) == At(h, t);
      var (e', out) := Concrete(e, ops[0]);
      var (h', out') := Abstract(h, ops[0]);
      assert View(e', t) == At(h', t) && out == out';
      SameAnswers(e', h', ops[1..], t);
    }
  }

  /** An unlock succeeds exactly when the caller's name holds an entry that has not run out, and then frees it. */
  lemma UnlockIffHeld(e: Option<Entry>, owner: string, t: int)
    ensures var (e', out) := UnlockStep(e, owner, t);
            && (out == Yes <==> e.Some? && e.value.owner == owner && t < e.value.expiresAt)
            && (out == Yes ==> e'.None?)
            && (out != Yes ==> View(e', t) == View(e, t))
  {
  }

  /** A live lock is taken over by nobody who does not present the identity that holds it. */
  lemma TryLockIffFree(e: Option<Entry>, identity: string, own: string, t: int, stamp: int, ttl: int)
    ensures var (e', out) := TryLockStep(e, identity, own, t, stamp, ttl);
            && (out == Yes <==> View(e, t).Nobody? || View(e, t).owner == identity)
            && (out != Yes ==> e' == e)
  {
  }
}
