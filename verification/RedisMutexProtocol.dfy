/**
  The Redis-backed mutex as a state machine: one key with an expiry, shared by any number
  of mutex objects with distinct tokens. GET, SET NX PX, SET PX and the compare-and-delete
  script are one atomic step each.
*/
module RedisMutexProtocol {
  import opened Wrappers
  import L = LeaseRegister
  import R = Runs

  /**
    The stored value with its expiry in milliseconds. An entry past its expiry is as good
    as absent; `Live` hides it. `writer` is a history field that no step reads.
  */
  datatype Entry = Entry(token: string, until: int, writer: nat)

  datatype Call =
    | Idle
    | Getting(token: string, px: nat)
    | Refreshing(token: string, px: nat, seenUntil: int)   // GET saw its own token; about to SET PX
    | Setting(token: string, px: nat)                      // about to SET NX PX
    | Won(token: string)                                   // the reply is on its way
    | UnlockWon

  /**
    A mutex object: its own token, its `_locked_owner` ("" for none), the call it is in
    and, as history, the lease it was last granted and has not given back.
  */
  datatype Client = Client(own: string, lockedOwner: string, call: Call, lease: Option<Entry>)

  datatype State = State(now: int, key: Option<Entry>, clients: seq<Client>)

  datatype Step =
    | Tick(to: int)
    | Begin(i: nat, identity: string, px: nat)
    | Get(i: nat)
    | Refresh(i: nat)
    | SetNx(i: nat)
    | Settle(i: nat)
    | Abandon(i: nat)
    | UnlockEval(i: nat)
    | UnlockSettle(i: nat)

  /** What a command sees: an entry is gone from the moment its expiry is reached. */
  function Live(s: State): Option<Entry> {
    if s.key.Some? && s.now < s.key.value.until then s.key else None
  }

  predicate Enabled(s: State, a: Step) {
    match a
    case Tick(to) => s.now <= to
    case Begin(i, _, _) => i < |s.clients| && s.clients[i].call.Idle?
    case Get(i) => i < |s.clients| && s.clients[i].call.Getting?
    case Refresh(i) => i < |s.clients| && s.clients[i].call.Refreshing?
    case SetNx(i) => i < |s.clients| && s.clients[i].call.Setting?
    case Settle(i) => i < |s.clients| && s.clients[i].call.Won?
    case Abandon(i) => i < |s.clients| && !s.clients[i].call.Idle?
    case UnlockEval(i) => i < |s.clients| && s.clients[i].call.Idle?
    case UnlockSettle(i) => i < |s.clients| && s.clients[i].call.UnlockWon?
  }

  function WithClient(s: State, i: nat, c: Client): State
    requires i < |s.clients|
  {
    s.(clients := s.clients[i := c])
  }

  /** The store takes the write of `i`: the key and the lease of `i` become the same entry. */
  function Write(s: State, i: nat, token: string, px: nat): State
    requires i < |s.clients|
  {
    var entry := Entry(token, s.now + px, i);
    WithClient(s, i, s.clients[i].(call := Won(token), lease := Some(entry))).(key := Some(entry))
  }

  function UnlockToken(c: Client): string {
    if c.lockedOwner != "" then c.lockedOwner else c.own
  }

  function Apply(s: State, a: Step): State
    requires Enabled(s, a)
  {
    match a
    case Tick(to) => s.(now := to)
    case Begin(i, identity, px) =>
      var c := s.clients[i];
      WithClient(s, i, c.(call := Getting(if identity != "" then identity else c.own, px)))
    case Get(i) =>
      var c := s.clients[i];
      var Getting(token, px) := c.call;
      var existing := Live(s);
      WithClient(s, i, c.(call :=
        if existing.Some? && existing.value.token == token
        then Refreshing(token, px, existing.value.until)
        else Setting(token, px)))
    case Refresh(i) => Write(s, i, s.clients[i].call.token, s.clients[i].call.px)
    case SetNx(i) =>
      var c := s.clients[i];
      if Live(s).None? then Write(s, i, c.call.token, c.call.px) else WithClient(s, i, c.(call := Idle))
    case Settle(i) =>
      var c := s.clients[i];
      WithClient(s, i, c.(call := Idle, lockedOwner := c.call.token))
    case Abandon(i) => WithClient(s, i, s.clients[i].(call := Idle))
    case UnlockEval(i) =>
      var c := s.clients[i];
      var existing := Live(s);
      if existing.Some? && existing.value.token == UnlockToken(c) then
        WithClient(s, i, c.(call := UnlockWon, lease := None)).(key := None)
      else
        s
    case UnlockSettle(i) => WithClient(s, i, s.clients[i].(call := Idle, lockedOwner := ""))
  }

  // ---------- Assumptions ----------

  predicate OwnToken(token: string, i: nat, owner: map<string, nat>) {
    token in owner && owner[token] == i
  }

  /** Every token, generated or passed as an identity, belongs to one object. */
  predicate OwnIdentities(a: Step, owner: map<string, nat>) {
    a.Begin? && a.identity != "" ==> OwnToken(a.identity, a.i, owner)
  }

  /** The unconditional SET of a refresh does not land on a live entry of another object. */
  predicate Gentle(s: State, a: Step) {
    a.Refresh? ==> Live(s).None? || s.key.value.writer == a.i
  }

  ghost predicate Run(ss: seq<State>, steps: seq<Step>, owner: map<string, nat>) {
    && |ss| == |steps| + 1
    && forall k :: 0 <= k < |steps| ==>
      && Enabled(ss[k], steps[k]) && OwnIdentities(steps[k], owner)
      && ss[k + 1] == Apply(ss[k], steps[k])
  }

  ghost predicate GentleRun(ss: seq<State>, steps: seq<Step>, owner: map<string, nat>) {
    && Run(ss, steps, owner)
    && forall k :: 0 <= k < |steps| ==> Gentle(ss[k], steps[k])
  }

  predicate Init(s: State, owner: map<string, nat>) {
    && s.key.None?
    && forall i :: 0 <= i < |s.clients| ==>
      OwnToken(s.clients[i].own, i, owner) && s.clients[i] == Client(s.clients[i].own, "", Idle, None)
  }

  // ---------- The invariant ----------

  predicate CallOk(i: nat, call: Call, owner: map<string, nat>) {
    match call
    case Getting(token, _) => OwnToken(token, i, owner)
    case Setting(token, _) => OwnToken(token, i, owner)
    case Won(token) => OwnToken(token, i, owner)
    case Refreshing(token, _, _) => OwnToken(token, i, owner)
    case _ => true
  }

  /** A granted lease that has not run out is the stored entry. */
  predicate ClientOk(s: State, i: nat, owner: map<string, nat>)
    requires i < |s.clients|
  {
    var c := s.clients[i];
    && OwnToken(c.own, i, owner)
    && (c.lockedOwner != "" ==> OwnToken(c.lockedOwner, i, owner))
    && CallOk(i, c.call, owner)
    && (c.lease.Some? && s.now < c.lease.value.until ==> s.key == c.lease && c.lease.value.writer == i)
  }

  /** A live entry is the lease of the object that wrote it. */
  predicate LiveIsLeased(s: State) {
    Live(s).Some? ==> s.key.value.writer < |s.clients| && s.clients[s.key.value.writer].lease == s.key
  }

  ghost predicate Inv(s: State, owner: map<string, nat>) {
    && (s.key.Some? ==> OwnToken(s.key.value.token, s.key.value.writer, owner))
    && LiveIsLeased(s)
    && forall i: nat :: i < |s.clients| ==> ClientOk(s, i, owner)
  }

  lemma InvInit(s: State, owner: map<string, nat>)
    requires Init(s, owner)
    ensures Inv(s, owner)
  {
  }

  /** A live entry outlives every step that its own writer does not take. */
  lemma LiveEntryStays(s: State, a: Step, owner: map<string, nat>)
    requires Inv(s, owner) && Enabled(s, a) && Gentle(s, a)
    requires Live(s).Some?
    requires a.Tick? || a.i != s.key.value.writer
    ensures Apply(s, a).key == s.key
  {
    if !a.Tick? {
      assert ClientOk(s, a.i, owner);
    }
  }

  lemma InvStep(s: State, a: Step, owner: map<string, nat>)
    requires Inv(s, owner) && Enabled(s, a) && OwnIdentities(a, owner) && Gentle(s, a)
    ensures Inv(Apply(s, a), owner)
  {
    if !a.Tick? {
      assert ClientOk(s, a.i, owner);
    }
    forall j: nat | j < |s.clients|
      ensures ClientOk(Apply(s, a), j, owner)
    {
      assert ClientOk(s, j, owner);
      if Live(s).Some? && (a.Tick? || a.i != s.key.value.writer) {
        LiveEntryStays(s, a, owner);
      }
    }
  }

  lemma {:induction false} InvRun(ss: seq<State>, steps: seq<Step>, owner: map<string, nat>, k: nat)
    requires GentleRun(ss, steps, owner) && Inv(ss[0], owner)
    requires k < |ss|
    ensures Inv(ss[k], owner)
  {
    if k > 0 {
      InvRun(ss, steps, owner, k - 1);
      assert Enabled(ss[k - 1], steps[k - 1]) && Gentle(ss[k - 1], steps[k - 1]);
      InvStep(ss[k - 1], steps[k - 1], owner);
    }
  }

  // ---------- Refinement of the lease register ----------

  function Abs(s: State): L.Lease {
    L.Lease(s.now, if s.key.None? then L.Free else L.Held(s.key.value.writer, s.key.value.until))
  }

  function AbsLabel(s: State, a: Step): L.Label
    requires Enabled(s, a)
  {
    var s' := Apply(s, a);
    if a.Tick? then L.Tick(a.to)
    else if s'.key == s.key then L.Stutter
    else if s'.key.Some? then L.Grant(a.i, s'.key.value.until)
    else L.Release(a.i)
  }

  /** The key implements the lease register, step by step. */
  lemma Refines(s: State, a: Step, owner: map<string, nat>)
    requires Inv(s, owner) && Enabled(s, a) && OwnIdentities(a, owner) && Gentle(s, a)
    ensures L.Next(Abs(s), AbsLabel(s, a), Abs(Apply(s, a)))
  {
    if !a.Tick? {
      assert ClientOk(s, a.i, owner);
    }
  }

  /**
    The refresh is an unconditional SET. From any good state, landing late or not, it is
    a step of the lease register exactly when the key does not carry the live token of
    another object.
  */
  lemma RefreshRefinesIff(s: State, a: Step, owner: map<string, nat>)
    requires Inv(s, owner) && Enabled(s, a) && a.Refresh?
    ensures (exists l: L.Label :: L.Next(Abs(s), l, Abs(Apply(s, a)))) <==> Gentle(s, a)
    ensures Gentle(s, a) <==> Live(s).None? || OwnToken(Live(s).value.token, a.i, owner)
  {
    if Gentle(s, a) {
      assert L.Next(Abs(s), L.Grant(a.i, s.now + s.clients[a.i].call.px), Abs(Apply(s, a)));
    }
  }

  lemma RunRefines(ss: seq<State>, steps: seq<Step>, owner: map<string, nat>)
      returns (ls: seq<L.Lease>, labels: seq<L.Label>)
    requires GentleRun(ss, steps, owner) && Inv(ss[0], owner)
    ensures L.Run(ls, labels) && |ls| == |ss|
    ensures forall k :: 0 <= k < |ss| ==> ls[k] == Abs(ss[k])
    ensures forall k :: 0 <= k < |steps| ==> labels[k] == AbsLabel(ss[k], steps[k])
  {
    ls := seq(|ss|, k requires 0 <= k < |ss| => Abs(ss[k]));
    labels := seq(|steps|, k requires 0 <= k < |steps| => AbsLabel(ss[k], steps[k]));
    forall k | 0 <= k < |steps|
      ensures L.Next(ls[k], labels[k], ls[k + 1])
    {
      InvRun(ss, steps, owner, k);
      Refines(ss[k], steps[k], owner);
    }
  }

  // ---------- Reachability ----------

  /** The system, and whether every step that led to it was gentle. */
  datatype World = World(sys: State, gentle: bool)

  function Moved(w: World, a: Step): World
    requires Enabled(w.sys, a)
  {
    World(Apply(w.sys, a), w.gentle && Gentle(w.sys, a))
  }

  ghost function Moves(owner: map<string, nat>): (World, Step, World) -> bool {
    (w: World, a: Step, w': World) => Enabled(w.sys, a) && OwnIdentities(a, owner) && w' == Moved(w, a)
  }

  ghost predicate Reaches(w: World, w': World, owner: map<string, nat>) {
    R.Reaches(Moves(owner), w, w')
  }

  ghost predicate InvWhileGentle(w: World, owner: map<string, nat>) {
    w.gentle ==> Inv(w.sys, owner)
  }

  lemma ReachesInv(w: World, w': World, owner: map<string, nat>)
    requires InvWhileGentle(w, owner) && Reaches(w, w', owner)
    ensures InvWhileGentle(w', owner)
  {
    forall t, a, t' | InvWhileGentle(t, owner) && Moves(owner)(t, a, t')
      ensures InvWhileGentle(t', owner)
    {
      if t'.gentle {
        InvStep(t.sys, a, owner);
      }
    }
    R.Keeps(Moves(owner), t => InvWhileGentle(t, owner), w, w');
  }

  /** A run that is gentle so far was gentle before. */
  lemma WasGentle(w: World, w': World, owner: map<string, nat>)
    requires Reaches(w, w', owner)
    ensures w'.gentle ==> w.gentle
  {
    if !w.gentle {
      R.Keeps(Moves(owner), (t: World) => !t.gentle, w, w');
    }
  }

  // ---------- What callers rely on ----------

  /** Object `i` was granted a lease that has not run out and that it has not given back. */
  predicate Holds(s: State, i: nat) {
    i < |s.clients| && s.clients[i].lease.Some? && s.now < s.clients[i].lease.value.until
  }

  /** A live lease is the stored token, so no two objects ever hold one together. */
  lemma MutualExclusion(ss: seq<State>, steps: seq<Step>, owner: map<string, nat>, k: nat, i: nat, j: nat)
    requires GentleRun(ss, steps, owner) && Init(ss[0], owner)
    requires k < |ss| && Holds(ss[k], i) && Holds(ss[k], j)
    ensures i == j && Live(ss[k]) == ss[k].clients[i].lease
    ensures L.LiveFor(Abs(ss[k]), i)
  {
    InvInit(ss[0], owner);
    InvRun(ss, steps, owner, k);
    assert ClientOk(ss[k], i, owner) && ClientOk(ss[k], j, owner);
  }

  /**
    The exact condition: a refresh with a positive time, from any good state, lets two
    objects hold leases at once if and only if it lands on a live entry of another object.
  */
  lemma RefreshBreaksExclusionIff(s: State, a: Step, owner: map<string, nat>)
    requires Inv(s, owner) && Enabled(s, a) && a.Refresh? && s.clients[a.i].call.px > 0
    ensures (exists i, j :: i != j && Holds(Apply(s, a), i) && Holds(Apply(s, a), j)) <==> !Gentle(s, a)
  {
    var s' := Apply(s, a);
    if Gentle(s, a) {
      forall i | Holds(s', i)
        ensures i == a.i
      {
        assert ClientOk(s, i, owner);
      }
    } else {
      assert Holds(s', a.i) && Holds(s', s.key.value.writer);
    }
  }

  /** The lock passes on only after its writer released it or its lease, as last refreshed, ran out. */
  lemma LockHandover(ss: seq<State>, steps: seq<Step>, owner: map<string, nat>, a: nat, b: nat)
      returns (k: nat)
    requires GentleRun(ss, steps, owner) && Init(ss[0], owner)
    requires a < b < |ss|
    requires ss[a].key.Some? && ss[b].key.Some? && ss[a].key.value.writer != ss[b].key.value.writer
    ensures a <= k < b && ss[k].key.Some? && ss[k].key.value.writer == ss[a].key.value.writer
    ensures steps[k] == UnlockEval(ss[a].key.value.writer) || ss[k].key.value.until <= ss[k].now
  {
    InvInit(ss[0], owner);
    var ls, labels := RunRefines(ss, steps, owner);
    var h := ss[a].key.value.writer;
    L.Handover(ls, labels, a, b, h);
    k :| a <= k < b && L.EndsTenure(ls, labels, k, h);
    assert L.Next(ls[k], labels[k], ls[k + 1]);
  }

  /** An unlock removes only the caller's own live token. */
  lemma UnlockRemovesOwnOnly(ss: seq<State>, steps: seq<Step>, owner: map<string, nat>, k: nat)
    requires GentleRun(ss, steps, owner) && Init(ss[0], owner)
    requires k < |steps| && steps[k].UnlockEval? && ss[k + 1].key != ss[k].key
    ensures Live(ss[k]).Some? && Live(ss[k]).value.writer == steps[k].i && ss[k + 1].key.None?
    ensures !Holds(ss[k + 1], steps[k].i)
  {
    InvInit(ss[0], owner);
    InvRun(ss, steps, owner, k);
    assert Enabled(ss[k], steps[k]) && ss[k + 1] == Apply(ss[k], steps[k]);
    assert ClientOk(ss[k], steps[k].i, owner);
  }

  // ---------- Timely refreshes are gentle ----------

  /** A refresh lands before the lease that its GET saw runs out. */
  predicate Timely(s: State, a: Step)
    requires Enabled(s, a)
  {
    a.Refresh? ==> s.now < s.clients[a.i].call.seenUntil
  }

  ghost predicate TimelyRun(ss: seq<State>, steps: seq<Step>, owner: map<string, nat>) {
    && Run(ss, steps, owner)
    && forall k :: 0 <= k < |steps| ==> Timely(ss[k], steps[k])
  }

  /** What the GET of a refresh saw is still stored as long as it has not run out. */
  ghost predicate SeenIsStored(s: State) {
    forall i: nat :: i < |s.clients| ==> SeenOk(s, i)
  }

  predicate SeenOk(s: State, i: nat)
    requires i < |s.clients|
  {
    var call := s.clients[i].call;
    call.Refreshing? && s.now < call.seenUntil ==>
      s.key.Some? && s.key.value.writer == i && s.key.value.until == call.seenUntil
  }

  lemma TimelyStep(s: State, a: Step, owner: map<string, nat>)
    requires Inv(s, owner) && SeenIsStored(s) && Enabled(s, a) && OwnIdentities(a, owner) && Timely(s, a)
    ensures Gentle(s, a) && SeenIsStored(Apply(s, a))
  {
    if !a.Tick? {
      assert SeenOk(s, a.i) && ClientOk(s, a.i, owner);
    }
    forall j: nat | j < |s.clients|
      ensures SeenOk(Apply(s, a), j)
    {
      assert SeenOk(s, j) && ClientOk(s, j, owner);
      if Live(s).Some? && (a.Tick? || a.i != s.key.value.writer) {
        LiveEntryStays(s, a, owner);
      }
    }
  }

  /** So the guarantees hold in every run in which each refresh lands before the lease that its GET saw runs out. */
  lemma {:induction false} TimelyIsGentle(ss: seq<State>, steps: seq<Step>, owner: map<string, nat>, k: nat)
    requires TimelyRun(ss, steps, owner) && Init(ss[0], owner) && k < |ss|
    ensures Inv(ss[k], owner) && SeenIsStored(ss[k])
    ensures forall j :: 0 <= j < k ==> Gentle(ss[j], steps[j])
  {
    InvInit(ss[0], owner);
    if k > 0 {
      TimelyIsGentle(ss, steps, owner, k - 1);
      assert Enabled(ss[k - 1], steps[k - 1]) && Timely(ss[k - 1], steps[k - 1]);
      TimelyStep(ss[k - 1], steps[k - 1], owner);
      InvStep(ss[k - 1], steps[k - 1], owner);
    }
  }

  // ---------- Granted time ----------

  function Ceil(x: real): int {
    -((-x).Floor)
  }

  /** The PX argument for a ttl in seconds. */
  function TtlMs(ttl: real): int {
    var ms := Ceil(ttl * 1000.0);
    if 1 < ms then ms else 1
  }

  /** The granted milliseconds cover the requested ttl, and are the fewest positive ones that do. */
  lemma TtlMsCovers(ttl: real, ms: int)
    ensures 1 <= TtlMs(ttl) && ttl * 1000.0 <= TtlMs(ttl) as real
    ensures 1 <= ms && ttl * 1000.0 <= ms as real ==> TtlMs(ttl) <= ms
  {
  }

  // ---------- Calls that nobody disturbs ----------

  /** The steps are those of one whole call of object `i`, which the first step begins. */
  ghost predicate OneCall(steps: seq<Step>, first: Step, i: nat) {
    && steps != [] && steps[0] == first
    && forall k :: 0 < k < |steps| ==>
      !steps[k].Tick? && !steps[k].Begin? && !steps[k].UnlockEval? && !steps[k].Abandon? && steps[k].i == i
  }

  lemma Extend(ss: seq<State>, steps: seq<Step>, a: Step, owner: map<string, nat>)
      returns (ss': seq<State>, steps': seq<Step>)
    requires Run(ss, steps, owner)
    requires Enabled(ss[|steps|], a) && OwnIdentities(a, owner)
    ensures Run(ss', steps', owner) && ss'[0] == ss[0] && ss'[|steps'|] == Apply(ss[|steps|], a)
    ensures steps' == steps + [a]
  {
    ss', steps' := ss + [Apply(ss[|steps|], a)], steps + [a];
  }

  /**
    What an undisturbed `try_lock` leaves behind: it succeeds if the key is absent, has
    run out, or carries the very token that is asked for, the identity or else the
    object's own. Then the key carries this token for the whole time, and so does the
    object. Otherwise nothing changes.
  */
  function AfterTryLock(s: State, i: nat, identity: string, px: nat): State
    requires i < |s.clients|
  {
    var c := s.clients[i];
    var token := if identity == "" then c.own else identity;
    if s.key.None? || s.key.value.until <= s.now || s.key.value.token == token then
      var entry := Some(Entry(token, s.now + px, i));
      State(s.now, entry, s.clients[i := Client(c.own, token, Idle, entry)])
    else
      s
  }

  lemma UndisturbedTryLock(ss: seq<State>, steps: seq<Step>, owner: map<string, nat>, i: nat, identity: string, px: nat)
      returns (ss': seq<State>, steps': seq<Step>, call: seq<Step>)
    requires Run(ss, steps, owner) && OwnIdentities(Begin(i, identity, px), owner)
    requires i < |ss[|steps|].clients| && ss[|steps|].clients[i].call.Idle?
    ensures Run(ss', steps', owner) && ss'[0] == ss[0]
    ensures steps' == steps + call && OneCall(call, Begin(i, identity, px), i)
    ensures ss'[|steps'|] == AfterTryLock(ss[|steps|], i, identity, px)
  {
    var s, c := ss[|steps|], ss[|steps|].clients[i];
    var token := if identity == "" then c.own else identity;
    ss', steps' := Extend(ss, steps, Begin(i, identity, px), owner);
    ss', steps' := Extend(ss', steps', Get(i), owner);
    var write := if ss'[|steps'|].clients[i].call.Refreshing? then Refresh(i) else SetNx(i);
    ss', steps' := Extend(ss', steps', write, owner);
    call := [Begin(i, identity, px), Get(i), write];
    if ss'[|steps'|].clients[i].call.Won? {
      assert ss'[|steps'|].clients ==
             s.clients[i := c.(call := Won(token), lease := Some(Entry(token, s.now + px, i)))];
      ss', steps' := Extend(ss', steps', Settle(i), owner);
      call := call + [Settle(i)];
    } else {
      assert ss'[|steps'|].clients == s.clients;
    }
  }

  /**
    An undisturbed unlock removes the key, and with it the object's token and lease,
    exactly when the live key carries the token under which the object locked, or its own
    if it did not lock. Otherwise nothing changes.
  */
  lemma UndisturbedUnlock(ss: seq<State>, steps: seq<Step>, owner: map<string, nat>, i: nat)
      returns (ss': seq<State>, steps': seq<Step>, call: seq<Step>)
    requires Run(ss, steps, owner)
    requires i < |ss[|steps|].clients| && ss[|steps|].clients[i].call.Idle?
    ensures Run(ss', steps', owner) && ss'[0] == ss[0]
    ensures steps' == steps + call && OneCall(call, UnlockEval(i), i)
    ensures var s, c := ss[|steps|], ss[|steps|].clients[i];
            var mine := && s.key.Some? && s.now < s.key.value.until
                        && s.key.value.token == if c.lockedOwner == "" then c.own else c.lockedOwner;
            ss'[|steps'|] == if mine then State(s.now, None, s.clients[i := Client(c.own, "", Idle, None)]) else s
  {
    var s, c := ss[|steps|], ss[|steps|].clients[i];
    ss', steps' := Extend(ss, steps, UnlockEval(i), owner);
    call := [UnlockEval(i)];
    if ss'[|steps'|].clients[i].call.UnlockWon? {
      assert ss'[|steps'|].clients == s.clients[i := c.(call := UnlockWon, lease := None)];
      ss', steps' := Extend(ss', steps', UnlockSettle(i), owner);
      call := call + [UnlockSettle(i)];
    }
  }

  /** So whatever identity it used, an object that takes the lock and unlocks leaves no key behind. */
  lemma LockThenUnlock(s: State, owner: map<string, nat>, i: nat, identity: string, px: nat)
      returns (ss: seq<State>, steps: seq<Step>)
    requires i < |s.clients| && s.clients[i].call.Idle? && OwnIdentities(Begin(i, identity, px), owner)
    requires s.key.None? || s.key.value.until <= s.now
    requires px > 0
    ensures Run(ss, steps, owner) && ss[0] == s
    ensures ss[|steps|] == State(s.now, None, s.clients[i := Client(s.clients[i].own, "", Idle, None)])
    ensures exists lock, unlock ::
              steps == lock + unlock && OneCall(lock, Begin(i, identity, px), i) && OneCall(unlock, UnlockEval(i), i)
  {
    var lock, unlock;
    ss, steps, lock := UndisturbedTryLock([s], [], owner, i, identity, px);
    ss, steps, unlock := UndisturbedUnlock(ss, steps, owner, i);
    assert [] + lock == lock;
  }

  // ---------- The assumption is needed ----------

  /**
    A refresh that lands after the lease its GET saw ran out can overwrite the next
    holder: object 0 reads its token, its lease runs out, object 1 takes the lock, and
    the refresh of object 0 still goes through.
  */
  lemma LateRefreshBreaksMutualExclusion() returns (ss: seq<State>, steps: seq<Step>, owner: map<string, nat>)
    ensures Run(ss, steps, owner) && Init(ss[0], owner)
    ensures Holds(ss[|steps|], 0) && Holds(ss[|steps|], 1)
  {
    owner := map["a" := 0, "b" := 1];
    ss, steps := [State(0, None, [Client("a", "", Idle, None), Client("b", "", Idle, None)])], [];
    var call;
    ss, steps, call := UndisturbedTryLock(ss, steps, owner, 0, "", 5);
    ss, steps := Extend(ss, steps, Begin(0, "", 5), owner);
    ss, steps := Extend(ss, steps, Get(0), owner);
    ss, steps := Extend(ss, steps, Tick(6), owner);
    ss, steps, call := UndisturbedTryLock(ss, steps, owner, 1, "", 5);
    ss, steps := Extend(ss, steps, Refresh(0), owner);
  }
}
