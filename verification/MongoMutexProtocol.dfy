/**
  The Mongo-backed mutex as a state machine: one lock document shared by any number of
  mutex objects. Every store command (find, insert, compare-and-set, delete) is one
  atomic step, and any other object, the TTL reaper or the clock may move between two
  of them.
*/
module MongoMutexProtocol {
  import opened Wrappers
  import L = LeaseRegister
  import R = Runs

  /**
    The lock document. `writer` is a history field: the number of the mutex object that
    wrote the document. No step reads it.
  */
  datatype Record = Record(identity: string, expires: int, writer: nat)

  /** The options of one call: the reentrant identity ("" for none) and the ttl. */
  datatype Opt = Opt(identity: string, ttl: int)

  /** Where a mutex object is inside its current call. `at` is the clock read on entry. */
  datatype Call =
    | Idle
    | CheckingHeld(opt: Opt, at: int)              // about to find the document it believes it holds
    | Finding(opt: Opt, at: int)                   // about to find the current document
    | Inserting(opt: Opt, at: int)                 // saw no document, about to insert
    | Replacing(opt: Opt, at: int, seen: Record)   // saw an expired document, about to compare-and-set
    | Won(detail: Record)                          // the store took the write; the reply is on its way
    | UnlockWon                                    // the store deleted; the reply is on its way
    | ExistFinding(at: int)
    | ExistDeleting

  /** A mutex object: its `_lock_detail` and the call it is in. */
  datatype Client = Client(detail: Option<Record>, call: Call)

  datatype State = State(now: int, doc: Option<Record>, clients: seq<Client>)

  datatype Step =
    | Tick(to: int)
    | Reap                          // the TTL index removes an expired document
    | Begin(i: nat, opt: Opt)
    | CheckHeld(i: nat)
    | Find(i: nat)
    | Insert(i: nat)
    | Replace(i: nat)
    | Settle(i: nat)                // the reply of a won insert or compare-and-set arrives
    | Abandon(i: nat)               // a try_lock call ends with an exception
    | UnlockDelete(i: nat)
    | UnlockSettle(i: nat)
    | ExistBegin(i: nat)
    | ExistFind(i: nat)
    | ExistDelete(i: nat)

  predicate Enabled(s: State, a: Step) {
    match a
    case Tick(to) => s.now <= to
    case Reap => s.doc.Some? && s.doc.value.expires < s.now
    case Begin(i, _) => i < |s.clients| && s.clients[i].call.Idle?
    case CheckHeld(i) => i < |s.clients| && s.clients[i].call.CheckingHeld?
    case Find(i) => i < |s.clients| && s.clients[i].call.Finding?
    case Insert(i) => i < |s.clients| && s.clients[i].call.Inserting?
    case Replace(i) => i < |s.clients| && s.clients[i].call.Replacing?
    case Settle(i) => i < |s.clients| && s.clients[i].call.Won?
    case Abandon(i) =>
      && i < |s.clients|
      && var c := s.clients[i].call;
      (c.CheckingHeld? || c.Finding? || c.Inserting? || c.Replacing? || c.Won?)
    case UnlockDelete(i) => i < |s.clients| && s.clients[i].call.Idle? && s.clients[i].detail.Some?
    case UnlockSettle(i) => i < |s.clients| && s.clients[i].call.UnlockWon?
    case ExistBegin(i) => i < |s.clients| && s.clients[i].call.Idle?
    case ExistFind(i) => i < |s.clients| && s.clients[i].call.ExistFinding?
    case ExistDelete(i) => i < |s.clients| && s.clients[i].call.ExistDeleting?
  }

  function WithCall(s: State, i: nat, call: Call): State
    requires i < |s.clients|
  {
    s.(clients := s.clients[i := s.clients[i].(call := call)])
  }

  function WithClient(s: State, i: nat, c: Client): State
    requires i < |s.clients|
  {
    s.(clients := s.clients[i := c])
  }

  /** The document still is the one this object recorded when it took the lock. */
  predicate StillHeld(doc: Option<Record>, mine: Record, at: int) {
    && doc.Some?
    && doc.value.expires > at
    && doc.value.identity == mine.identity
    && doc.value.expires == mine.expires
  }

  function AfterFind(s: State, i: nat): State
    requires i < |s.clients| && s.clients[i].call.Finding?
  {
    var Finding(opt, at) := s.clients[i].call;
    match s.doc
    case None => WithCall(s, i, Inserting(opt, at))
    case Some(seen) =>
      if seen.expires < at then
        WithCall(s, i, Replacing(opt, at, seen))
      else if opt.identity != "" && seen.identity == opt.identity then
        WithClient(s, i, Client(Some(seen), Idle))
      else
        WithCall(s, i, Idle)
  }

  function Apply(s: State, a: Step): State
    requires Enabled(s, a)
  {
    match a
    case Tick(to) => s.(now := to)
    case Reap => s.(doc := None)
    case Begin(i, opt) =>
      WithCall(s, i, if s.clients[i].detail.Some? then CheckingHeld(opt, s.now) else Finding(opt, s.now))
    case CheckHeld(i) =>
      var c := s.clients[i];
      if c.detail.Some? && StillHeld(s.doc, c.detail.value, c.call.at) then
        WithCall(s, i, Idle)
      else
        WithClient(s, i, Client(None, Finding(c.call.opt, c.call.at)))
    case Find(i) => AfterFind(s, i)
    case Insert(i) =>
      var c := s.clients[i].call;
      if s.doc.None? then
        var rec := Record(c.opt.identity, c.at + c.opt.ttl, i);
        WithCall(s, i, Won(rec)).(doc := Some(rec))
      else
        WithCall(s, i, Idle)
    case Replace(i) =>
      var c := s.clients[i].call;
      if s.doc.Some? && s.doc.value.expires == c.seen.expires then
        var rec := Record(c.opt.identity, c.at + c.opt.ttl, i);
        WithCall(s, i, Won(rec)).(doc := Some(rec))
      else
        WithCall(s, i, Idle)
    case Settle(i) => WithClient(s, i, Client(Some(s.clients[i].call.detail), Idle))
    case Abandon(i) => WithCall(s, i, Idle)
    case UnlockDelete(i) =>
      if s.doc.Some? && s.doc.value.expires == s.clients[i].detail.value.expires then
        WithCall(s, i, UnlockWon).(doc := None)
      else
        s
    case UnlockSettle(i) => WithClient(s, i, Client(None, Idle))
    case ExistBegin(i) => WithCall(s, i, ExistFinding(s.now))
    case ExistFind(i) =>
      WithCall(s, i, if s.doc.Some? && s.doc.value.expires <= s.clients[i].call.at then ExistDeleting else Idle)
    case ExistDelete(i) => WithCall(s, i, Idle).(doc := None)
  }

  // ---------- Assumptions ----------

  /**
    A reentrant identity belongs to one mutex object: `owner` says to which. An object
    that uses none passes "".
  */
  predicate OwnIdentities(a: Step, owner: map<string, nat>) {
    a.Begin? && a.opt.identity != "" ==> a.opt.identity in owner && owner[a.opt.identity] == a.i
  }

  /** The delete of `exist_lock`, which names only the key, does not land on a live lock. */
  predicate Gentle(s: State, a: Step) {
    a.ExistDelete? && s.doc.Some? ==> s.doc.value.expires <= s.now
  }

  ghost predicate Run(ss: seq<State>, steps: seq<Step>, owner: map<string, nat>) {
    && |ss| == |steps| + 1
    && forall k :: 0 <= k < |steps| ==>
      && Enabled(ss[k], steps[k]) && OwnIdentities(steps[k], owner)
      && ss[k + 1] == Apply(ss[k], steps[k])
  }

  ghost predicate GentleRun(ss: seq<State>, steps: seq<Step>, owner: map<string, nat>) {
    && Run(ss, steps, owner)
    && forall k :: 0 <= k < |steps| ==> Gentle(ss[k], steps[k])
  }

  predicate Init(s: State) {
    && s.doc.None?
    && forall i :: 0 <= i < |s.clients| ==> s.clients[i] == Client(None, Idle)
  }

  // ---------- The invariant ----------

  /** What object `i` believes, or is about to be told, it holds; nothing once its unlock went through. */
  function Claim(c: Client): Option<Record> {
    match c.call
    case Won(rec) => Some(rec)
    case UnlockWon => None
    case _ => c.detail
  }

  predicate OwnedIdentity(rec: Record, owner: map<string, nat>) {
    rec.identity != "" ==> rec.identity in owner && owner[rec.identity] == rec.writer
  }

  /** Inside a call: the clock read on entry is past, and no detail is kept while a new lock is sought. */
  predicate CallOk(s: State, i: nat, c: Client, owner: map<string, nat>) {
    match c.call
    case CheckingHeld(opt, at) => at <= s.now && OwnOpt(opt, i, owner)
    case Finding(opt, at) => c.detail.None? && at <= s.now && OwnOpt(opt, i, owner)
    case Inserting(opt, at) => c.detail.None? && at <= s.now && OwnOpt(opt, i, owner)
    case Replacing(opt, at, seen) => c.detail.None? && seen.expires < at <= s.now && OwnOpt(opt, i, owner)
    case Won(_) => c.detail.None?
    case ExistFinding(at) => at <= s.now
    case _ => true
  }

  predicate OwnOpt(opt: Opt, i: nat, owner: map<string, nat>) {
    opt.identity != "" ==> opt.identity in owner && owner[opt.identity] == i
  }

  /** A claim that has not run out is the stored document, and its owner wrote it. */
  predicate ClientOk(s: State, i: nat, owner: map<string, nat>)
    requires i < |s.clients|
  {
    var claim := Claim(s.clients[i]);
    && (claim.Some? && s.now < claim.value.expires ==> s.doc == claim && claim.value.writer == i)
    && CallOk(s, i, s.clients[i], owner)
  }

  ghost predicate Inv(s: State, owner: map<string, nat>) {
    && (s.doc.Some? ==> OwnedIdentity(s.doc.value, owner))
    && forall i: nat :: i < |s.clients| ==> ClientOk(s, i, owner)
  }

  lemma InvInit(s: State, owner: map<string, nat>)
    requires Init(s)
    ensures Inv(s, owner)
  {
  }

  /** The object that moves keeps its part of the invariant. */
  lemma MoverOk(s: State, a: Step, owner: map<string, nat>)
    requires Inv(s, owner) && Enabled(s, a) && OwnIdentities(a, owner) && Gentle(s, a)
    requires !a.Tick? && !a.Reap?
    ensures ClientOk(Apply(s, a), a.i, owner)
    ensures Apply(s, a).doc.Some? ==> OwnedIdentity(Apply(s, a).doc.value, owner)
  {
    assert ClientOk(s, a.i, owner);
  }

  /** A live document outlives every step that its own writer does not take. */
  lemma LiveDocStays(s: State, a: Step, owner: map<string, nat>)
    requires Inv(s, owner) && Enabled(s, a) && Gentle(s, a)
    requires s.doc.Some? && s.now < s.doc.value.expires
    requires a.Tick? || a.Reap? || a.i != s.doc.value.writer
    ensures Apply(s, a).doc == s.doc
  {
    if !a.Tick? && !a.Reap? {
      assert ClientOk(s, a.i, owner);
    }
  }

  lemma OthersUntouched(s: State, a: Step, j: nat)
    requires Enabled(s, a)
    requires j < |s.clients| && (a.Tick? || a.Reap? || a.i != j)
    ensures var s' := Apply(s, a);
            |s'.clients| == |s.clients| && s'.clients[j] == s.clients[j] && s.now <= s'.now
  {
  }

  /** Nobody else's move disturbs a claim that has not run out. */
  lemma BystanderOk(s: State, a: Step, owner: map<string, nat>, j: nat)
    requires Inv(s, owner) && Enabled(s, a) && Gentle(s, a)
    requires j < |s.clients| && (a.Tick? || a.Reap? || a.i != j)
    ensures ClientOk(Apply(s, a), j, owner)
  {
    assert ClientOk(s, j, owner);
    OthersUntouched(s, a, j);
    var claim := Claim(s.clients[j]);
    if claim.Some? && s.now < claim.value.expires {
      LiveDocStays(s, a, owner);
    }
  }

  lemma InvStep(s: State, a: Step, owner: map<string, nat>)
    requires Inv(s, owner) && Enabled(s, a) && OwnIdentities(a, owner) && Gentle(s, a)
    ensures Inv(Apply(s, a), owner)
  {
    if !a.Tick? && !a.Reap? {
      MoverOk(s, a, owner);
    }
    forall j: nat | j < |s.clients|
      ensures ClientOk(Apply(s, a), j, owner)
    {
      if a.Tick? || a.Reap? || a.i != j {
        BystanderOk(s, a, owner, j);
      }
    }
  }

  lemma {:induction false} InvRun(ss: seq<State>, steps: seq<Step>, owner: map<string, nat>, k: nat)
    requires GentleRun(ss, steps, owner) && Inv(ss[0], owner)
    requires k < |ss|
    ensures Inv(ss[k], owner)
  {
    if k > 0 {
      InvRun(ss, steps, owner, k - 1);
      assert Enabled(ss[k - 1], steps[k - 1]) && Gentle(ss[k - 1], steps[k - 1]);
      InvStep(ss[k - 1], steps[k - 1], owner);
    }
  }

  // ---------- Refinement of the lease register ----------

  function Abs(s: State): L.Lease {
    L.Lease(s.now, if s.doc.None? then L.Free else L.Held(s.doc.value.writer, s.doc.value.expires))
  }

  /** What a step means to the register. */
  function AbsLabel(s: State, a: Step): L.Label
    requires Enabled(s, a)
  {
    var s' := Apply(s, a);
    if a.Tick? then L.Tick(a.to)
    else if s'.doc == s.doc then L.Stutter
    else if s'.doc.Some? then L.Grant(a.i, s'.doc.value.expires)
    else if a.UnlockDelete? && s.now < s.doc.value.expires then L.Release(a.i)
    else L.Drop
  }

  /** The lock document implements the lease register, step by step. */
  lemma Refines(s: State, a: Step, owner: map<string, nat>)
    requires Inv(s, owner) && Enabled(s, a) && OwnIdentities(a, owner) && Gentle(s, a)
    ensures L.Next(Abs(s), AbsLabel(s, a), Abs(Apply(s, a)))
  {
    if !a.Tick? && !a.Reap? {
      assert ClientOk(s, a.i, owner);
    }
  }

  /**
    `exist_lock` deletes by key alone after a separate read. From any good state its
    delete is a step of the lease register (and no release) exactly when it does not hit
    a live lock.
  */
  lemma ExistDeleteRefinesIffGentle(s: State, a: Step, owner: map<string, nat>)
    requires Inv(s, owner) && Enabled(s, a) && a.ExistDelete?
    ensures (exists l: L.Label :: L.Next(Abs(s), l, Abs(Apply(s, a))) && !l.Release?) <==> Gentle(s, a)
  {
    if Gentle(s, a) {
      var l := if s.doc.None? then L.Stutter else L.Drop;
      assert L.Next(Abs(s), l, Abs(Apply(s, a)));
    }
  }

  lemma RunRefines(ss: seq<State>, steps: seq<Step>, owner: map<string, nat>)
      returns (ls: seq<L.Lease>, labels: seq<L.Label>)
    requires GentleRun(ss, steps, owner) && Inv(ss[0], owner)
    ensures L.Run(ls, labels) && |ls| == |ss|
    ensures forall k :: 0 <= k < |ss| ==> ls[k] == Abs(ss[k])
    ensures forall k :: 0 <= k < |steps| ==> labels[k] == AbsLabel(ss[k], steps[k])
  {
    ls := seq(|ss|, k requires 0 <= k < |ss| => Abs(ss[k]));
    labels := seq(|steps|, k requires 0 <= k < |steps| => AbsLabel(ss[k], steps[k]));
    forall k | 0 <= k < |steps|
      ensures L.Next(ls[k], labels[k], ls[k + 1])
    {
      InvRun(ss, steps, owner, k);
      Refines(ss[k], steps[k], owner);
    }
  }

  // ---------- Reachability ----------

  /** The system, and whether every step that led to it was gentle. */
  datatype World = World(sys: State, gentle: bool)

  function Moved(w: World, a: Step): World
    requires Enabled(w.sys, a)
  {
    World(Apply(w.sys, a), w.gentle && Gentle(w.sys, a))
  }

  ghost function Moves(owner: map<string, nat>): (World, Step, World) -> bool {
    (w: World, a: Step, w': World) => Enabled(w.sys, a) && OwnIdentities(a, owner) && w' == Moved(w, a)
  }

  ghost predicate Reaches(w: World, w': World, owner: map<string, nat>) {
    R.Reaches(Moves(owner), w, w')
  }

  ghost predicate InvWhileGentle(w: World, owner: map<string, nat>) {
    w.gentle ==> Inv(w.sys, owner)
  }

  lemma ReachesInv(w: World, w': World, owner: map<string, nat>)
    requires InvWhileGentle(w, owner) && Reaches(w, w', owner)
    ensures InvWhileGentle(w', owner)
  {
    forall t, a, t' | InvWhileGentle(t, owner) && Moves(owner)(t, a, t')
      ensures InvWhileGentle(t', owner)
    {
      if t'.gentle {
        InvStep(t.sys, a, owner);
      }
    }
    R.Keeps(Moves(owner), t => InvWhileGentle(t, owner), w, w');
  }

  /** A run that is gentle so far was gentle before. */
  lemma WasGentle(w: World, w': World, owner: map<string, nat>)
    requires Reaches(w, w', owner)
    ensures w'.gentle ==> w.gentle
  {
    if !w.gentle {
      R.Keeps(Moves(owner), (t: World) => !t.gentle, w, w');
    }
  }

  // ---------- What callers rely on ----------

  /** Object `i` holds the lock: its `_lock_detail` has not run out and it is not past its own unlock. */
  predicate Holds(s: State, i: nat) {
    && i < |s.clients|
    && s.clients[i].detail.Some?
    && s.now < s.clients[i].detail.value.expires
    && !s.clients[i].call.UnlockWon?
    && !s.clients[i].call.Won?
  }

  /** Mutual exclusion, in every state of every run and whatever the interleaving. */
  lemma MutualExclusion(ss: seq<State>, steps: seq<Step>, owner: map<string, nat>, k: nat, i: nat, j: nat)
    requires GentleRun(ss, steps, owner) && Init(ss[0])
    requires k < |ss|
    requires Holds(ss[k], i) && Holds(ss[k], j)
    ensures i == j
    ensures L.LiveFor(Abs(ss[k]), i)
  {
    InvInit(ss[0], owner);
    InvRun(ss, steps, owner, k);
    assert ClientOk(ss[k], i, owner) && ClientOk(ss[k], j, owner);
  }

  /** The lock passes to another object only after an unlock by its writer, or once its lease ran out. */
  lemma LockHandover(ss: seq<State>, steps: seq<Step>, owner: map<string, nat>, a: nat, b: nat)
      returns (k: nat)
    requires GentleRun(ss, steps, owner) && Init(ss[0])
    requires a < b < |ss|
    requires ss[a].doc.Some? && ss[b].doc.Some? && ss[a].doc.value.writer != ss[b].doc.value.writer
    ensures a <= k < b && ss[k].doc.Some? && ss[k].doc.value.writer == ss[a].doc.value.writer
    ensures steps[k] == UnlockDelete(ss[a].doc.value.writer) || ss[k].doc.value.expires <= ss[k].now
  {
    InvInit(ss[0], owner);
    var ls, labels := RunRefines(ss, steps, owner);
    var h := ss[a].doc.value.writer;
    L.Handover(ls, labels, a, b, h);
    k :| a <= k < b && L.EndsTenure(ls, labels, k, h);
    assert L.Next(ls[k], labels[k], ls[k + 1]);
  }

  /** An unlock never removes a live lock that somebody else wrote, however stale the caller is. */
  lemma StaleUnlockIsHarmless(ss: seq<State>, steps: seq<Step>, owner: map<string, nat>, k: nat)
    requires GentleRun(ss, steps, owner) && Init(ss[0])
    requires k < |steps| && steps[k].UnlockDelete?
    ensures var s := ss[k];
            s.doc.Some? && s.now < s.doc.value.expires && ss[k + 1].doc != s.doc ==>
              s.doc.value.writer == steps[k].i && Holds(s, steps[k].i)
  {
    InvInit(ss[0], owner);
    InvRun(ss, steps, owner, k);
    assert Enabled(ss[k], steps[k]) && ss[k + 1] == Apply(ss[k], steps[k]);
    assert ClientOk(ss[k], steps[k].i, owner);
  }

  // ---------- Calls that nobody disturbs ----------

  /** The steps are those of one whole call of object `i`, which the first step begins. */
  ghost predicate OneCall(steps: seq<Step>, first: Step, i: nat) {
    && steps != [] && steps[0] == first
    && forall k :: 0 < k < |steps| ==> InsideCall(steps[k], i)
  }

  predicate InsideCall(a: Step, i: nat) {
    && !a.Tick? && !a.Reap? && a.i == i
    && !a.Begin? && !a.ExistBegin? && !a.UnlockDelete? && !a.Abandon?
  }

  /**
    The answer of an undisturbed `try_lock`, by what is stored when it begins: yes if
    nothing is, or something that ran out, or a document with the caller's identity, or,
    unchanged and live, the very document that the object recorded when it took the lock.
  */
  ghost predicate Takes(s: State, i: nat, opt: Opt)
    requires i < |s.clients|
  {
    || s.doc.None?
    || s.doc.value.expires < s.now
    || (opt.identity != "" && s.doc.value.identity == opt.identity)
    || (&& s.clients[i].detail.Some? && s.now < s.doc.value.expires
        && s.doc.value.identity == s.clients[i].detail.value.identity
        && s.doc.value.expires == s.clients[i].detail.value.expires)
  }

  /**
    A `try_lock` that nobody disturbs succeeds exactly as `Takes` says. It writes only
    where nothing live is stored, and leaves every other object alone; with success the
    detail has the identity and the expiry of the stored document.
  */
  lemma UndisturbedTryLock(s: State, i: nat, opt: Opt) returns (ss: seq<State>, steps: seq<Step>)
    requires i < |s.clients| && s.clients[i].call.Idle?
    ensures Run(ss, steps, map[opt.identity := i]) && ss[0] == s && OneCall(steps, Begin(i, opt), i)
    ensures Tried(s, i, opt, ss[|steps|]) && (ss[|steps|].clients[i].detail.Some? <==> Takes(s, i, opt))
  {
    var owner := map[opt.identity := i];
    ss, steps := [s, Apply(s, Begin(i, opt))], [Begin(i, opt)];
    if s.clients[i].detail.Some? {
      ss, steps := MoreOf(ss, steps, owner, CheckHeld(i));
    }
    if ss[|steps|].clients[i].call.Finding? {
      hide Takes, Tried;
      var s1 := s.(clients := s.clients[i := Client(None, Finding(opt, s.now))]);
      assert ss[|steps|] == s1;
      var ss', steps' := SearchFrom(s1, i, opt);
      ss, steps := Joined(ss, steps, ss', steps', owner);
    }
  }

  /** What an undisturbed `try_lock` leaves behind. */
  ghost predicate Tried(s: State, i: nat, opt: Opt, s': State)
    requires i < |s.clients|
  {
    && s'.now == s.now && |s'.clients| == |s.clients| && s'.clients[i].call.Idle?
    && (forall j :: 0 <= j < |s.clients| && j != i ==> s'.clients[j] == s.clients[j])
    && s'.doc == (if s.doc.None? || s.doc.value.expires < s.now
                  then Some(Record(opt.identity, s.now + opt.ttl, i)) else s.doc)
    && (s'.clients[i].detail.Some? ==>
          && s'.doc.Some?
          && s'.clients[i].detail.value.identity == s'.doc.value.identity
          && s'.clients[i].detail.value.expires == s'.doc.value.expires)
  }

  /** The part of it that has no detail (any more). */
  lemma SearchFrom(s: State, i: nat, opt: Opt) returns (ss: seq<State>, steps: seq<Step>)
    requires i < |s.clients| && s.clients[i] == Client(None, Finding(opt, s.now))
    ensures Run(ss, steps, map[opt.identity := i]) && ss[0] == s
    ensures forall k :: 0 <= k < |steps| ==> InsideCall(steps[k], i)
    ensures Tried(s, i, opt, ss[|steps|]) && (ss[|steps|].clients[i].detail.Some? <==> Takes(s, i, opt))
  {
    ss, steps := [s, Apply(s, Find(i))], [Find(i)];
    if s.doc.None? || s.doc.value.expires < s.now {
      var write := if s.doc.None? then Insert(i) else Replace(i);
      var s2 := Apply(ss[1], write);
      ss, steps := [s, ss[1], s2, Apply(s2, Settle(i))], [Find(i), write, Settle(i)];
    }
  }

  lemma Joined(ss: seq<State>, steps: seq<Step>, ss': seq<State>, steps': seq<Step>, owner: map<string, nat>)
      returns (all: seq<State>, moves: seq<Step>)
    requires Run(ss, steps, owner) && Run(ss', steps', owner) && ss[|steps|] == ss'[0]
    ensures Run(all, moves, owner) && moves == steps + steps'
    ensures all[0] == ss[0] && all[|moves|] == ss'[|steps'|]
  {
    all, moves := ss[..|steps|] + ss', steps + steps';
    forall k | 0 <= k < |moves|
      ensures Enabled(all[k], moves[k]) && OwnIdentities(moves[k], owner) && all[k + 1] == Apply(all[k], moves[k])
    {
      if k < |steps| {
        assert all[k] == ss[k] && all[k + 1] == ss[k + 1] && moves[k] == steps[k];
      } else {
        assert all[k] == ss'[k - |steps|] && all[k + 1] == ss'[k - |steps| + 1] && moves[k] == steps'[k - |steps|];
      }
    }
  }

  lemma MoreOf(ss: seq<State>, steps: seq<Step>, owner: map<string, nat>, a: Step)
      returns (ss': seq<State>, steps': seq<Step>)
    requires Run(ss, steps, owner) && Enabled(ss[|steps|], a) && OwnIdentities(a, owner)
    ensures Run(ss', steps', owner) && ss'[0] == ss[0] && ss'[|steps'|] == Apply(ss[|steps|], a)
    ensures steps' == steps + [a]
  {
    ss', steps' := ss + [Apply(ss[|steps|], a)], steps + [a];
  }

  /** So the holder of a live lock that tries again, with any identity or none, still holds it. */
  lemma HolderKeepsLock(s: State, i: nat, opt: Opt) returns (ss: seq<State>, steps: seq<Step>)
    requires i < |s.clients| && s.clients[i] == Client(s.doc, Idle)
    requires s.doc.Some? && s.now < s.doc.value.expires
    ensures Run(ss, steps, map[opt.identity := i]) && ss[0] == s && OneCall(steps, Begin(i, opt), i)
    ensures ss[|steps|] == s && Holds(s, i)
  {
    ss, steps := [s, Apply(s, Begin(i, opt))], [Begin(i, opt)];
    ss, steps := MoreOf(ss, steps, map[opt.identity := i], CheckHeld(i));
    assert ss[|steps|].clients == s.clients;
  }

  /**
    An unlock that nobody disturbs removes the document, and the detail with it, exactly
    when the object has a detail with the expiry of the stored document.
  */
  lemma UndisturbedUnlock(s: State, i: nat) returns (ss: seq<State>, steps: seq<Step>)
    requires i < |s.clients| && s.clients[i].call.Idle? && s.clients[i].detail.Some?
    ensures Run(ss, steps, map[]) && ss[0] == s && OneCall(steps, UnlockDelete(i), i)
    ensures var mine := s.doc.Some? && s.doc.value.expires == s.clients[i].detail.value.expires;
            ss[|steps|] == if mine then State(s.now, None, s.clients[i := Client(None, Idle)]) else s
  {
    ss, steps := [s, Apply(s, UnlockDelete(i))], [UnlockDelete(i)];
    if ss[1].clients[i].call.UnlockWon? {
      ss, steps := MoreOf(ss, steps, map[], UnlockSettle(i));
      assert ss[|steps|].clients == s.clients[i := Client(None, Idle)];
    }
  }

  /** An `exist_lock` that nobody disturbs removes a document that has run out and changes nothing else. */
  lemma UndisturbedExistLock(s: State, i: nat) returns (ss: seq<State>, steps: seq<Step>)
    requires i < |s.clients| && s.clients[i].call.Idle?
    ensures Run(ss, steps, map[]) && ss[0] == s && OneCall(steps, ExistBegin(i), i)
    ensures ss[|steps|] == if s.doc.Some? && s.doc.value.expires <= s.now then s.(doc := None) else s
  {
    ss, steps := [s, Apply(s, ExistBegin(i))], [ExistBegin(i)];
    ss, steps := MoreOf(ss, steps, map[], ExistFind(i));
    if ss[|steps|].clients[i].call.ExistDeleting? {
      ss, steps := MoreOf(ss, steps, map[], ExistDelete(i));
    }
    assert ss[|steps|].clients == s.clients;
  }

  /** An undisturbed `try_lock` of object `i` without an identity, appended to a run. */
  lemma ExtendTryLock(ss: seq<State>, steps: seq<Step>, i: nat, ttl: int)
      returns (ss': seq<State>, steps': seq<Step>)
    requires Run(ss, steps, map[])
    requires i < |ss[|steps|].clients| && ss[|steps|].clients[i] == Client(None, Idle)
    requires ss[|steps|].doc.Some? ==> ss[|steps|].doc.value.expires < ss[|steps|].now
    ensures Run(ss', steps', map[]) && ss'[0] == ss[0]
    ensures var s, rec := ss[|steps|], Record("", ss[|steps|].now + ttl, i);
            ss'[|steps'|] == State(s.now, Some(rec), s.clients[i := Client(Some(rec), Idle)])
  {
    var s := ss[|steps|];
    var rec := Record("", s.now + ttl, i);
    ss', steps' := MoreOf(ss, steps, map[], Begin(i, Opt("", ttl)));
    ss', steps' := MoreOf(ss', steps', map[], Find(i));
    ss', steps' := MoreOf(ss', steps', map[], if s.doc.None? then Insert(i) else Replace(i));
    assert ss'[|steps'|] == State(s.now, Some(rec), s.clients[i := Client(None, Won(rec))]);
    ss', steps' := MoreOf(ss', steps', map[], Settle(i));
  }

  /**
    The assumption on `exist_lock` is needed: a run in which its delete lands late lets
    two objects hold the lock at once. Object 0 looks at its expired document, object 1
    takes the lock over, object 0 deletes it, and object 2 takes it too.
  */
  lemma LateExistDeleteBreaksMutualExclusion() returns (ss: seq<State>, steps: seq<Step>)
    ensures Run(ss, steps, map[]) && Init(ss[0])
    ensures Holds(ss[|steps|], 1) && Holds(ss[|steps|], 2)
  {
    var idle := Client(None, Idle);
    ss, steps := [State(0, None, [idle, idle, idle])], [];
    ss, steps := ExtendTryLock(ss, steps, 0, 5);
    ss, steps := MoreOf(ss, steps, map[], Tick(6));
    ss, steps := MoreOf(ss, steps, map[], ExistBegin(0));
    ss, steps := MoreOf(ss, steps, map[], ExistFind(0));
    ss, steps := ExtendTryLock(ss, steps, 1, 5);
    ss, steps := MoreOf(ss, steps, map[], ExistDelete(0));
    ss, steps := ExtendTryLock(ss, steps, 2, 5);
  }
}
