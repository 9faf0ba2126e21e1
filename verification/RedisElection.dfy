/**
  Leader election over one Redis key: GET, SET NX PX, the conditional PEXPIRE script and
  the conditional delete of all nodes interleave.
*/
module RedisElection {
  import opened Wrappers
  import L = LeaseRegister
  import R = Runs

  /** The leader key of one isolation group. An entry past its expiry is as good as absent. */
  datatype Entry = Entry(node: nat, until: int)

  datatype Call =
    | Idle
    | Looking
    | Renewing        // GET saw its own node key
    | Setting         // GET saw nothing
    | Notifying

  /** A node: the lease in milliseconds, its `_last_is_leader` and, as history, its last lease. */
  datatype Node = Node(leaseMs: nat, call: Call, lastIsLeader: bool, lease: Option<int>)

  datatype State = State(now: int, key: Option<Entry>, nodes: seq<Node>)

  datatype Step =
    | Clock(to: int)
    | TickBegin(i: nat)
    | Look(i: nat, canElect: bool)
    | Pexpire(i: nat)
    | SetNx(i: nat)
    | Notify(i: nat)
    | Abandon(i: nat)
    | Cleanup(i: nat)

  function Live(s: State): Option<Entry> {
    if s.key.Some? && s.now < s.key.value.until then s.key else None
  }

  predicate IsLeader(s: State, i: nat) {
    Live(s).Some? && Live(s).value.node == i
  }

  predicate Enabled(s: State, a: Step) {
    match a
    case Clock(to) => s.now <= to
    case TickBegin(i) => i < |s.nodes| && s.nodes[i].call.Idle?
    case Look(i, _) => i < |s.nodes| && s.nodes[i].call.Looking?
    case Pexpire(i) => i < |s.nodes| && s.nodes[i].call.Renewing?
    case SetNx(i) => i < |s.nodes| && s.nodes[i].call.Setting?
    case Notify(i) => i < |s.nodes| && s.nodes[i].call.Notifying?
    case Abandon(i) => i < |s.nodes| && !s.nodes[i].call.Idle?
    case Cleanup(i) => i < |s.nodes| && s.nodes[i].call.Idle?
  }

  function WithNode(s: State, i: nat, n: Node): State
    requires i < |s.nodes|
  {
    s.(nodes := s.nodes[i := n])
  }

  function Write(s: State, i: nat): State
    requires i < |s.nodes|
  {
    var until := s.now + s.nodes[i].leaseMs;
    WithNode(s, i, s.nodes[i].(call := Notifying, lease := Some(until))).(key := Some(Entry(i, until)))
  }

  function Apply(s: State, a: Step): State
    requires Enabled(s, a)
  {
    match a
    case Clock(to) => s.(now := to)
    case TickBegin(i) => WithNode(s, i, s.nodes[i].(call := Looking))
    case Look(i, canElect) =>
      WithNode(s, i, s.nodes[i].(call :=
        if IsLeader(s, i) then Renewing
        else if Live(s).None? && canElect then Setting
        else Notifying))
    case Pexpire(i) => if IsLeader(s, i) then Write(s, i) else WithNode(s, i, s.nodes[i].(call := Notifying))
    case SetNx(i) => if Live(s).None? then Write(s, i) else WithNode(s, i, s.nodes[i].(call := Notifying))
    case Notify(i) => WithNode(s, i, s.nodes[i].(call := Idle, lastIsLeader := IsLeader(s, i)))
    case Abandon(i) => WithNode(s, i, s.nodes[i].(call := Idle))
    case Cleanup(i) =>
      var s' := WithNode(s, i, s.nodes[i].(lastIsLeader := false, lease := None));
      if IsLeader(s, i) then s'.(key := None) else s'
  }

  ghost predicate Run(ss: seq<State>, steps: seq<Step>) {
    && |ss| == |steps| + 1
    && forall k :: 0 <= k < |steps| ==> Enabled(ss[k], steps[k]) && ss[k + 1] == Apply(ss[k], steps[k])
  }

  predicate Init(s: State) {
    && s.key.None?
    && forall i :: 0 <= i < |s.nodes| ==> s.nodes[i].call.Idle? && s.nodes[i].lease.None?
  }

  // ---------- The invariant ----------

  /** A lease that has not run out is the stored entry. */
  predicate NodeOk(s: State, i: nat)
    requires i < |s.nodes|
  {
    var n := s.nodes[i];
    n.lease.Some? && s.now < n.lease.value ==> s.key == Some(Entry(i, n.lease.value))
  }

  ghost predicate Inv(s: State) {
    forall i: nat :: i < |s.nodes| ==> NodeOk(s, i)
  }

  lemma InvStep(s: State, a: Step)
    requires Inv(s) && Enabled(s, a)
    ensures Inv(Apply(s, a))
  {
    if !a.Clock? {
      assert NodeOk(s, a.i);
    }
    forall j: nat | j < |s.nodes|
      ensures NodeOk(Apply(s, a), j)
    {
      assert NodeOk(s, j);
    }
  }

  lemma {:induction false} InvRun(ss: seq<State>, steps: seq<Step>, k: nat)
    requires Run(ss, steps) && Init(ss[0])
    requires k < |ss|
    ensures Inv(ss[k])
  {
    if k > 0 {
      InvRun(ss, steps, k - 1);
      assert Enabled(ss[k - 1], steps[k - 1]);
      InvStep(ss[k - 1], steps[k - 1]);
    }
  }

  // ---------- Reachability ----------

  ghost function Moves(): (State, Step, State) -> bool {
    (s: State, a: Step, s': State) => Enabled(s, a) && s' == Apply(s, a)
  }

  ghost predicate Reaches(s: State, s': State) {
    R.Reaches(Moves(), s, s')
  }

  predicate OwnStep(a: Step, i: nat) {
    !a.Clock? && a.i == i
  }

  /** The steps that node `i` does not take. */
  ghost function OthersMove(i: nat): (State, Step, State) -> bool {
    (s: State, a: Step, s': State) => Enabled(s, a) && !OwnStep(a, i) && s' == Apply(s, a)
  }

  /** Nobody else makes the key name a node, or changes the node. */
  ghost predicate LeftAlone(s: State, s': State, i: nat) {
    && s.now <= s'.now && |s.nodes| == |s'.nodes| && i < |s.nodes| && s'.nodes[i] == s.nodes[i]
    && (s'.key.Some? && s'.key.value.node == i ==> s'.key == s.key)
  }

  lemma OthersLeaveAlone(s: State, s': State, i: nat)
    requires R.Reaches(OthersMove(i), s, s') && i < |s.nodes|
    ensures LeftAlone(s, s', i)
  {
    forall t, a, t' | LeftAlone(s, t, i) && OthersMove(i)(t, a, t')
      ensures LeftAlone(s, t', i)
    {
      assert Enabled(t, a) && t' == Apply(t, a);
    }
    R.Keeps(OthersMove(i), (t: State) => LeftAlone(s, t, i), s, s');
  }

  lemma ReachesInv(s: State, s': State)
    requires Inv(s) && Reaches(s, s')
    ensures Inv(s')
  {
    forall t, a, t' | Inv(t) && Moves()(t, a, t')
      ensures Inv(t')
    {
      InvStep(t, a);
    }
    R.Keeps(Moves(), t => Inv(t), s, s');
  }

  // ---------- Refinement of the lease register ----------

  function Abs(s: State): L.Lease {
    L.Lease(s.now, if s.key.None? then L.Free else L.Held(s.key.value.node, s.key.value.until))
  }

  function AbsLabel(s: State, a: Step): L.Label
    requires Enabled(s, a)
  {
    var s' := Apply(s, a);
    if a.Clock? then L.Tick(a.to)
    else if s'.key == s.key then L.Stutter
    else if s'.key.Some? then L.Grant(a.i, s'.key.value.until)
    else L.Release(a.i)
  }

  /** The leader key implements the lease register, step by step and without any assumption on timing. */
  lemma Refines(s: State, a: Step)
    requires Enabled(s, a)
    ensures L.Next(Abs(s), AbsLabel(s, a), Abs(Apply(s, a)))
  {
  }

  lemma RunRefines(ss: seq<State>, steps: seq<Step>) returns (ls: seq<L.Lease>, labels: seq<L.Label>)
    requires Run(ss, steps)
    ensures L.Run(ls, labels) && |ls| == |ss|
    ensures forall k :: 0 <= k < |ss| ==> ls[k] == Abs(ss[k])
    ensures forall k :: 0 <= k < |steps| ==> labels[k] == AbsLabel(ss[k], steps[k])
  {
    ls := seq(|ss|, k requires 0 <= k < |ss| => Abs(ss[k]));
    labels := seq(|steps|, k requires 0 <= k < |steps| => AbsLabel(ss[k], steps[k]));
    forall k | 0 <= k < |steps|
      ensures L.Next(ls[k], labels[k], ls[k + 1])
    {
      Refines(ss[k], steps[k]);
    }
  }

  // ---------- What nodes rely on ----------

  predicate HoldsLease(s: State, i: nat) {
    i < |s.nodes| && s.nodes[i].lease.Some? && s.now < s.nodes[i].lease.value
  }

  /** Two nodes never both hold a lease that has not run out, and the key names the one that does. */
  lemma OneLeader(ss: seq<State>, steps: seq<Step>, k: nat, i: nat, j: nat)
    requires Run(ss, steps) && Init(ss[0])
    requires k < |ss| && HoldsLease(ss[k], i) && HoldsLease(ss[k], j)
    ensures i == j && Live(ss[k]) == Some(Entry(i, ss[k].nodes[i].lease.value))
  {
    InvRun(ss, steps, k);
    assert NodeOk(ss[k], i) && NodeOk(ss[k], j);
  }

  /** The leader changes only after it closed or its lease, as last renewed, ran out. */
  lemma LeaderHandover(ss: seq<State>, steps: seq<Step>, a: nat, b: nat) returns (k: nat)
    requires Run(ss, steps)
    requires a < b < |ss|
    requires ss[a].key.Some? && ss[b].key.Some? && ss[a].key.value.node != ss[b].key.value.node
    ensures a <= k < b && ss[k].key.Some? && ss[k].key.value.node == ss[a].key.value.node
    ensures steps[k] == Cleanup(ss[a].key.value.node) || ss[k].key.value.until <= ss[k].now
  {
    var ls, labels := RunRefines(ss, steps);
    var h := ss[a].key.value.node;
    L.Handover(ls, labels, a, b, h);
    k :| a <= k < b && L.EndsTenure(ls, labels, k, h);
    assert L.Next(ls[k], labels[k], ls[k + 1]);
  }

  // ---------- Ticks ----------

  /** The steps are those of one whole tick of node `i` that `canElect` lets stand for election, or not. */
  ghost predicate OneTick(steps: seq<Step>, i: nat, canElect: bool) {
    && |steps| >= 3 && steps[0] == TickBegin(i) && steps[1] == Look(i, canElect) && steps[|steps| - 1] == Notify(i)
    && forall k :: 1 < k < |steps| - 1 ==> OwnStep(steps[k], i) && !steps[k].Cleanup? && !steps[k].Abandon?
  }

  /**
    A tick that nobody disturbs: a live key is left to its node, or renewed for the whole
    lease if it is the node's own; an absent one or one that ran out becomes the node's if
    it may stand, and stays as it is if it may not.
  */
  lemma UndisturbedTick(s: State, i: nat, canElect: bool) returns (ss: seq<State>, steps: seq<Step>)
    requires i < |s.nodes| && s.nodes[i].call.Idle?
    ensures Run(ss, steps) && ss[0] == s && OneTick(steps, i, canElect)
    ensures var alive := s.key.Some? && s.now < s.key.value.until;
            var writes := if alive then s.key.value.node == i else canElect;
            var until, n := s.now + s.nodes[i].leaseMs, s.nodes[i];
            var key := if writes then Some(Entry(i, until)) else s.key;
            var leads := key.Some? && key.value.node == i && s.now < key.value.until;
            ss[|steps|] == State(s.now, key, s.nodes[i :=
              Node(n.leaseMs, Idle, leads, if writes then Some(until) else n.lease)])
  {
    var s1 := Apply(s, TickBegin(i));
    var s2 := Apply(s1, Look(i, canElect));
    if s2.nodes[i].call.Notifying? {
      ss, steps := [s, s1, s2, Apply(s2, Notify(i))], [TickBegin(i), Look(i, canElect), Notify(i)];
    } else {
      var write := if s2.nodes[i].call.Setting? then SetNx(i) else Pexpire(i);
      var s3 := Apply(s2, write);
      ss, steps := [s, s1, s2, s3, Apply(s3, Notify(i))], [TickBegin(i), Look(i, canElect), write, Notify(i)];
    }
  }

  /** Through any run, a node that leads nothing and may not stand is never made leader. */
  lemma {:induction false} NeverLeadsUnlessStanding(ss: seq<State>, steps: seq<Step>, a: nat, b: nat, i: nat)
    requires Run(ss, steps)
    requires a <= b < |ss| && i < |ss[a].nodes| && ss[a].nodes[i].call.Idle?
    requires ss[a].key.Some? && ss[a].key.value.node == i ==> ss[a].key.value.until <= ss[a].now
    requires forall k :: a <= k < b && steps[k].Look? && steps[k].i == i ==> !steps[k].canElect
    ensures i < |ss[b].nodes| && !ss[b].nodes[i].call.Renewing? && !ss[b].nodes[i].call.Setting?
    ensures ss[b].key.Some? && ss[b].key.value.node == i ==> ss[b].key.value.until <= ss[b].now
    decreases b
  {
    if a < b {
      NeverLeadsUnlessStanding(ss, steps, a, b - 1, i);
      assert Enabled(ss[b - 1], steps[b - 1]) && ss[b - 1 + 1] == Apply(ss[b - 1], steps[b - 1]);
    }
  }
}
