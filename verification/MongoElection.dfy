/**
  Leader election over one Mongo record: every node ticks on its own, and the find,
  insert, compare-and-set and delete commands of all nodes interleave.
*/
module MongoElection {
  import opened Wrappers
  import L = LeaseRegister
  import R = Runs

  /** The leader record of one isolation group; nodes are numbered by their distinct node keys. */
  datatype Record = Record(node: nat, expires: int)

  /** Where a node is inside its tick. `at` is the clock read when the tick began. */
  datatype Call =
    | Idle
    | Looking(at: int)
    | Renewing(at: int)
    | Inserting(at: int)
    | Replacing(at: int, seen: Record)
    | Notifying

  /**
    A node: its unhealthy time, its `_last_is_leader`, and as history the clock of its
    last tick and the expiry of the lease it was last granted and has not given back.
  */
  datatype Node = Node(span: nat, call: Call, lastIsLeader: bool, tickAt: int, lease: Option<int>)

  datatype State = State(now: int, doc: Option<Record>, nodes: seq<Node>)

  datatype Step =
    | Clock(to: int)
    | Reap
    | TickBegin(i: nat)
    | Look(i: nat, canElect: bool)
    | Renew(i: nat)
    | Insert(i: nat)
    | Replace(i: nat)
    | Notify(i: nat)
    | Abandon(i: nat)       // the tick ends with an exception; the loop goes on
    | Cleanup(i: nat)       // close: the loop has stopped

  predicate Enabled(s: State, a: Step) {
    match a
    case Clock(to) => s.now <= to
    case Reap => s.doc.Some? && s.doc.value.expires < s.now
    case TickBegin(i) => i < |s.nodes| && s.nodes[i].call.Idle?
    case Look(i, _) => i < |s.nodes| && s.nodes[i].call.Looking?
    case Renew(i) => i < |s.nodes| && s.nodes[i].call.Renewing?
    case Insert(i) => i < |s.nodes| && s.nodes[i].call.Inserting?
    case Replace(i) => i < |s.nodes| && s.nodes[i].call.Replacing?
    case Notify(i) => i < |s.nodes| && s.nodes[i].call.Notifying?
    case Abandon(i) => i < |s.nodes| && !s.nodes[i].call.Idle?
    case Cleanup(i) => i < |s.nodes| && s.nodes[i].call.Idle?
  }

  function WithNode(s: State, i: nat, n: Node): State
    requires i < |s.nodes|
  {
    s.(nodes := s.nodes[i := n])
  }

  /** The store takes a write by `i`: the record names it until `expires`. */
  function Write(s: State, i: nat, expires: int): State
    requires i < |s.nodes|
  {
    WithNode(s, i, s.nodes[i].(call := Notifying, lease := Some(expires))).(doc := Some(Record(i, expires)))
  }

  /** What the record says at this moment. */
  predicate IsLeader(s: State, i: nat) {
    s.doc.Some? && s.doc.value.node == i && s.now < s.doc.value.expires
  }

  function AfterLook(s: State, i: nat, canElect: bool): Call
    requires i < |s.nodes| && s.nodes[i].call.Looking?
  {
    var at := s.nodes[i].call.at;
    var alive := s.doc.Some? && s.doc.value.expires > at;
    if alive && s.doc.value.node == i then Renewing(at)
    else if !alive && canElect then
      if s.doc.None? then Inserting(at) else Replacing(at, s.doc.value)
    else Notifying
  }

  function Apply(s: State, a: Step): State
    requires Enabled(s, a)
  {
    match a
    case Clock(to) => s.(now := to)
    case Reap => s.(doc := None)
    case TickBegin(i) => WithNode(s, i, s.nodes[i].(call := Looking(s.now), tickAt := s.now))
    case Look(i, canElect) => WithNode(s, i, s.nodes[i].(call := AfterLook(s, i, canElect)))
    case Renew(i) =>
      var at := s.nodes[i].call.at;
      if s.doc.Some? && s.doc.value.node == i && s.doc.value.expires > at then
        Write(s, i, at + s.nodes[i].span)
      else
        WithNode(s, i, s.nodes[i].(call := Notifying))
    case Insert(i) =>
      if s.doc.None? then
        Write(s, i, s.nodes[i].call.at + s.nodes[i].span)
      else
        WithNode(s, i, s.nodes[i].(call := Notifying))
    case Replace(i) =>
      if s.doc == Some(s.nodes[i].call.seen) then
        Write(s, i, s.nodes[i].call.at + s.nodes[i].span)
      else
        WithNode(s, i, s.nodes[i].(call := Notifying))
    case Notify(i) => WithNode(s, i, s.nodes[i].(call := Idle, lastIsLeader := IsLeader(s, i)))
    case Abandon(i) => WithNode(s, i, s.nodes[i].(call := Idle))
    case Cleanup(i) =>
      var s' := WithNode(s, i, s.nodes[i].(lastIsLeader := false, lease := None));
      if s.doc.Some? && s.doc.value.node == i then s'.(doc := None) else s'
  }

  ghost predicate Run(ss: seq<State>, steps: seq<Step>) {
    && |ss| == |steps| + 1
    && forall k :: 0 <= k < |steps| ==> Enabled(ss[k], steps[k]) && ss[k + 1] == Apply(ss[k], steps[k])
  }

  predicate Init(s: State) {
    && s.doc.None?
    && forall i :: 0 <= i < |s.nodes| ==>
      s.nodes[i].call.Idle? && s.nodes[i].lease.None? && s.nodes[i].tickAt <= s.now
  }

  // ---------- The invariant ----------

  predicate CallOk(n: Node) {
    match n.call
    case Looking(at) => at == n.tickAt
    case Renewing(at) => at == n.tickAt
    case Inserting(at) => at == n.tickAt
    case Replacing(at, seen) => at == n.tickAt && seen.expires <= at
    case _ => true
  }

  /** A lease that has not run out is the stored record. */
  predicate NodeOk(s: State, i: nat)
    requires i < |s.nodes|
  {
    var n := s.nodes[i];
    && n.tickAt <= s.now && CallOk(n)
    && (n.lease.Some? && s.now < n.lease.value ==> s.doc == Some(Record(i, n.lease.value)))
  }

  /** The record ends no later than a write by its node in its latest tick would make it end. */
  predicate DocOk(s: State) {
    s.doc.Some? ==>
      && s.doc.value.node < |s.nodes|
      && s.doc.value.expires <= s.nodes[s.doc.value.node].tickAt + s.nodes[s.doc.value.node].span
  }

  ghost predicate Inv(s: State) {
    DocOk(s) && forall i: nat :: i < |s.nodes| ==> NodeOk(s, i)
  }

  lemma InvStep(s: State, a: Step)
    requires Inv(s) && Enabled(s, a)
    ensures Inv(Apply(s, a))
  {
    if !a.Clock? && !a.Reap? {
      assert NodeOk(s, a.i);
    }
    forall j: nat | j < |s.nodes|
      ensures NodeOk(Apply(s, a), j)
    {
      assert NodeOk(s, j);
    }
  }

  lemma {:induction false} InvRun(ss: seq<State>, steps: seq<Step>, k: nat)
    requires Run(ss, steps) && Init(ss[0])
    requires k < |ss|
    ensures Inv(ss[k])
  {
    if k > 0 {
      InvRun(ss, steps, k - 1);
      assert Enabled(ss[k - 1], steps[k - 1]);
      InvStep(ss[k - 1], steps[k - 1]);
    }
  }

  // ---------- Reachability ----------

  ghost function Moves(): (State, Step, State) -> bool {
    (s: State, a: Step, s': State) => Enabled(s, a) && s' == Apply(s, a)
  }

  ghost predicate Reaches(s: State, s': State) {
    R.Reaches(Moves(), s, s')
  }

  predicate OwnStep(a: Step, i: nat) {
    !a.Clock? && !a.Reap? && a.i == i
  }

  /** The steps that node `i` does not take. */
  ghost function OthersMove(i: nat): (State, Step, State) -> bool {
    (s: State, a: Step, s': State) => Enabled(s, a) && !OwnStep(a, i) && s' == Apply(s, a)
  }

  /** Nobody else makes the record name a node, or changes the node. */
  ghost predicate LeftAlone(s: State, s': State, i: nat) {
    && s.now <= s'.now && |s.nodes| == |s'.nodes| && i < |s.nodes| && s'.nodes[i] == s.nodes[i]
    && (s'.doc.Some? && s'.doc.value.node == i ==> s'.doc == s.doc)
  }

  lemma OthersLeaveAlone(s: State, s': State, i: nat)
    requires R.Reaches(OthersMove(i), s, s') && i < |s.nodes|
    ensures LeftAlone(s, s', i)
  {
    forall t, a, t' | LeftAlone(s, t, i) && OthersMove(i)(t, a, t')
      ensures LeftAlone(s, t', i)
    {
      assert Enabled(t, a) && t' == Apply(t, a);
    }
    R.Keeps(OthersMove(i), (t: State) => LeftAlone(s, t, i), s, s');
  }

  lemma ReachesInv(s: State, s': State)
    requires Inv(s) && Reaches(s, s')
    ensures Inv(s')
  {
    forall t, a, t' | Inv(t) && Moves()(t, a, t')
      ensures Inv(t')
    {
      InvStep(t, a);
    }
    R.Keeps(Moves(), t => Inv(t), s, s');
  }

  // ---------- Refinement of the lease register ----------

  function Abs(s: State): L.Lease {
    L.Lease(s.now, if s.doc.None? then L.Free else L.Held(s.doc.value.node, s.doc.value.expires))
  }

  function AbsLabel(s: State, a: Step): L.Label
    requires Enabled(s, a)
  {
    var s' := Apply(s, a);
    if a.Clock? then L.Tick(a.to)
    else if s'.doc == s.doc then L.Stutter
    else if s'.doc.Some? then L.Grant(a.i, s'.doc.value.expires)
    else if a.Cleanup? then L.Release(a.i)
    else L.Drop
  }

  /** The leader record implements the lease register, step by step. */
  lemma Refines(s: State, a: Step)
    requires Inv(s) && Enabled(s, a)
    ensures L.Next(Abs(s), AbsLabel(s, a), Abs(Apply(s, a)))
  {
    if !a.Clock? && !a.Reap? {
      assert NodeOk(s, a.i);
    }
  }

  lemma RunRefines(ss: seq<State>, steps: seq<Step>) returns (ls: seq<L.Lease>, labels: seq<L.Label>)
    requires Run(ss, steps) && Init(ss[0])
    ensures L.Run(ls, labels) && |ls| == |ss|
    ensures forall k :: 0 <= k < |ss| ==> ls[k] == Abs(ss[k])
    ensures forall k :: 0 <= k < |steps| ==> labels[k] == AbsLabel(ss[k], steps[k])
  {
    ls := seq(|ss|, k requires 0 <= k < |ss| => Abs(ss[k]));
    labels := seq(|steps|, k requires 0 <= k < |steps| => AbsLabel(ss[k], steps[k]));
    forall k | 0 <= k < |steps|
      ensures L.Next(ls[k], labels[k], ls[k + 1])
    {
      InvRun(ss, steps, k);
      Refines(ss[k], steps[k]);
    }
  }

  // ---------- What nodes rely on ----------

  /** Node `i` was granted a lease that has not run out and that it has not given back. */
  predicate HoldsLease(s: State, i: nat) {
    i < |s.nodes| && s.nodes[i].lease.Some? && s.now < s.nodes[i].lease.value
  }

  /** Two nodes never both hold a lease that has not run out, and the record names the one that does. */
  lemma OneLeader(ss: seq<State>, steps: seq<Step>, k: nat, i: nat, j: nat)
    requires Run(ss, steps) && Init(ss[0])
    requires k < |ss| && HoldsLease(ss[k], i) && HoldsLease(ss[k], j)
    ensures i == j && IsLeader(ss[k], i)
  {
    InvRun(ss, steps, k);
    assert NodeOk(ss[k], i) && NodeOk(ss[k], j);
  }

  /** The leader changes only after it closed or its lease, as last renewed, ran out. */
  lemma LeaderHandover(ss: seq<State>, steps: seq<Step>, a: nat, b: nat) returns (k: nat)
    requires Run(ss, steps) && Init(ss[0])
    requires a < b < |ss|
    requires ss[a].doc.Some? && ss[b].doc.Some? && ss[a].doc.value.node != ss[b].doc.value.node
    ensures a <= k < b && ss[k].doc.Some? && ss[k].doc.value.node == ss[a].doc.value.node
    ensures steps[k] == Cleanup(ss[a].doc.value.node) || ss[k].doc.value.expires <= ss[k].now
  {
    var ls, labels := RunRefines(ss, steps);
    var h := ss[a].doc.value.node;
    L.Handover(ls, labels, a, b, h);
    k :| a <= k < b && L.EndsTenure(ls, labels, k, h);
    assert L.Next(ls[k], labels[k], ls[k + 1]);
  }

  /** While one record lives, through renewals and take-overs alike, its expiry never goes back. */
  lemma {:induction false} ExpiryNeverGoesBack(ss: seq<State>, steps: seq<Step>, a: nat, b: nat)
    requires Run(ss, steps) && Init(ss[0])
    requires a <= b < |ss|
    requires forall k :: a <= k <= b ==> ss[k].doc.Some?
    ensures ss[a].doc.value.expires <= ss[b].doc.value.expires
    decreases b - a
  {
    if a < b {
      InvRun(ss, steps, a);
      assert Enabled(ss[a], steps[a]) && ss[a + 1] == Apply(ss[a], steps[a]);
      assert ss[a + 1].doc.Some?;
      if !steps[a].Clock? && !steps[a].Reap? {
        assert NodeOk(ss[a], steps[a].i);
      }
      ExpiryNeverGoesBack(ss, steps, a + 1, b);
    }
  }

  // ---------- Ticks ----------

  /** The steps are those of one whole tick of node `i` that `canElect` lets stand for election, or not. */
  ghost predicate OneTick(steps: seq<Step>, i: nat, canElect: bool) {
    && |steps| >= 3 && steps[0] == TickBegin(i) && steps[1] == Look(i, canElect) && steps[|steps| - 1] == Notify(i)
    && forall k :: 1 < k < |steps| - 1 ==> OwnStep(steps[k], i) && !steps[k].Cleanup? && !steps[k].Abandon?
  }

  /**
    A tick that nobody disturbs: a record that has not run out is left to its node, or
    renewed for the whole span if it is the node's own; in place of no record, or one that
    ran out, the node is put if it may stand, and nothing is written if it may not.
  */
  lemma UndisturbedTick(s: State, i: nat, canElect: bool) returns (ss: seq<State>, steps: seq<Step>)
    requires i < |s.nodes| && s.nodes[i].call.Idle?
    ensures Run(ss, steps) && ss[0] == s && OneTick(steps, i, canElect)
    ensures var alive := s.doc.Some? && s.now < s.doc.value.expires;
            var writes := if alive then s.doc.value.node == i else canElect;
            var until, n := s.now + s.nodes[i].span, s.nodes[i];
            var doc := if writes then Some(Record(i, until)) else s.doc;
            var leads := doc.Some? && doc.value.node == i && s.now < doc.value.expires;
            ss[|steps|] == State(s.now, doc, s.nodes[i :=
              Node(n.span, Idle, leads, s.now, if writes then Some(until) else n.lease)])
  {
    var s1 := Apply(s, TickBegin(i));
    var s2 := Apply(s1, Look(i, canElect));
    if s2.nodes[i].call.Notifying? {
      ss, steps := [s, s1, s2, Apply(s2, Notify(i))], [TickBegin(i), Look(i, canElect), Notify(i)];
    } else {
      var write :=
        if s2.nodes[i].call.Inserting? then Insert(i) else if s2.nodes[i].call.Replacing? then Replace(i) else Renew(i);
      var s3 := Apply(s2, write);
      ss, steps := [s, s1, s2, s3, Apply(s3, Notify(i))], [TickBegin(i), Look(i, canElect), write, Notify(i)];
    }
  }

  /** The record names the node and has not run out, or the node is about to write. */
  predicate MayLead(s: State, i: nat)
    requires i < |s.nodes|
  {
    || s.nodes[i].call.Renewing? || s.nodes[i].call.Inserting? || s.nodes[i].call.Replacing?
    || (&& s.doc.Some? && s.doc.value.node == i
        && if s.nodes[i].call.Looking? then s.nodes[i].call.at < s.doc.value.expires else s.now < s.doc.value.expires)
  }

  /** Through any run, a node that leads nothing and may not stand is never made leader. */
  lemma {:induction false} NeverLeadsUnlessStanding(ss: seq<State>, steps: seq<Step>, a: nat, b: nat, i: nat)
    requires Run(ss, steps) && Init(ss[0])
    requires a <= b < |ss| && i < |ss[a].nodes| && ss[a].nodes[i].call.Idle?
    requires ss[a].doc.Some? && ss[a].doc.value.node == i ==> ss[a].doc.value.expires <= ss[a].now
    requires forall k :: a <= k < b && steps[k].Look? && steps[k].i == i ==> !steps[k].canElect
    ensures i < |ss[b].nodes| && !MayLead(ss[b], i)
    ensures ss[b].doc.Some? && ss[b].doc.value.node == i ==> ss[b].doc.value.expires <= ss[b].now
    decreases b
  {
    if a < b {
      NeverLeadsUnlessStanding(ss, steps, a, b - 1, i);
      InvRun(ss, steps, b - 1);
      assert NodeOk(ss[b - 1], i);
      assert Enabled(ss[b - 1], steps[b - 1]) && ss[b - 1 + 1] == Apply(ss[b - 1], steps[b - 1]);
    }
  }
}
