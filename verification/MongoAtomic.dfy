/**
  The election of the Mongo backend in the form of its code: the tick of a node, its
  close and `is_leader`, each proved to be a run of `MongoElection` with the other nodes
  moving between the commands.
*/
module MongoAtomic {
  import opened Wrappers
  import opened P = MongoElection
  import R = Runs

  /** The leader record of one isolation group, and the clock. */
  class Collection {
    var now: int
    var doc: Option<Record>
    /** The whole system, every node included. */
    ghost var sys: State
    ghost const origin: State

    ghost predicate Valid()
      reads this
    {
      Synced(origin) && Init(origin)
    }

    ghost predicate Synced(s0: State)
      reads this
    {
      sys.now == now && sys.doc == doc && Reaches(s0, sys)
    }

    constructor (now: int, nodes: seq<Node>)
      requires Init(State(now, None, nodes))
      ensures Valid() && sys == State(now, None, nodes)
    {
      this.now, this.doc := now, None;
      origin := State(now, None, nodes);
      sys := origin;
      new;
      R.Self(Moves(), origin);
    }

    /**
      The rest of the world moves. Callers know this contract only: anything may have
      happened, except a move of node `me`.
    */
    method Interfere(ghost s0: State, ghost me: nat)
      requires Synced(s0) && me < |sys.nodes|
      modifies this
      ensures Synced(s0) && old(now) <= now
      ensures R.Reaches(OthersMove(me), old(sys), sys) && LeftAlone(old(sys), sys, me)
    {
      R.Self(OthersMove(me), sys);
    }

    /** Records that the command just given is step `a` of the protocol. */
    ghost method Took(s0: State, a: Step)
      requires Reaches(s0, sys) && Enabled(sys, a)
      modifies this`sys
      ensures sys == Apply(old(sys), a) && Reaches(s0, sys)
    {
      R.Step(Moves(), s0, sys, a, Apply(sys, a));
      sys := Apply(sys, a);
    }

    method InsertOne(rec: Record) returns (inserted: bool)
      modifies this`doc
      ensures inserted == old(doc).None?
      ensures doc == if inserted then Some(rec) else old(doc)
    {
      inserted := doc.None?;
      if inserted {
        doc := Some(rec);
      }
    }

    /** Replaces the record if it is exactly the one that was seen. */
    method UpdateSeen(seen: Record, rec: Record) returns (matched: bool)
      modifies this`doc
      ensures matched == (old(doc) == Some(seen))
      ensures doc == if matched then Some(rec) else old(doc)
    {
      matched := doc == Some(seen);
      if matched {
        doc := Some(rec);
      }
    }

    /** Replaces the record if it names the node and runs out after `at`. */
    method UpdateOwn(node: nat, at: int, rec: Record) returns (matched: bool)
      modifies this`doc
      ensures matched == (old(doc).Some? && old(doc).value.node == node && old(doc).value.expires > at)
      ensures doc == if matched then Some(rec) else old(doc)
    {
      matched := doc.Some? && doc.value.node == node && doc.value.expires > at;
      if matched {
        doc := Some(rec);
      }
    }

    method DeleteOf(node: nat)
      modifies this`doc
      ensures doc == if old(doc).Some? && old(doc).value.node == node then None else old(doc)
    {
      if doc.Some? && doc.value.node == node {
        doc := None;
      }
    }
  }

  /** What the handler of leader changes is told: whether the node leads now, and who does. */
  datatype LeaderChanged = LeaderChanged(isLeader: bool, leader: Option<nat>)

  class MongoAtomic {
    const elections: Collection
    const me: nat
    const unhealthyTime: nat
    const hasHandler: bool
    var lastIsLeader: bool

    constructor (elections: Collection, me: nat, unhealthyTime: nat, hasHandler: bool)
      requires elections.Valid() && me < |elections.sys.nodes|
      requires elections.sys.nodes[me].call.Idle? && elections.sys.nodes[me].span == unhealthyTime
      requires !elections.sys.nodes[me].lastIsLeader
      ensures Valid() && this.elections == elections && this.me == me && this.hasHandler == hasHandler && !lastIsLeader
    {
      this.elections, this.me, this.unhealthyTime := elections, me, unhealthyTime;
      this.hasHandler := hasHandler;
      lastIsLeader := false;
    }

    ghost predicate Valid()
      reads this, elections
    {
      elections.Valid() && InTick(elections.origin, Idle)
    }

    /** The node is at the given point of a tick that began in a run from `s0`. */
    ghost predicate InTick(s0: State, call: Call)
      reads this, elections
    {
      && elections.Synced(s0)
      && me < |elections.sys.nodes|
      && var n := elections.sys.nodes[me];
      n.span == unhealthyTime && n.lastIsLeader == lastIsLeader && n.call == call
    }

    /**
      One tick. Afterwards `lastIsLeader` tells whether the record names the node, and if it
      does, no other node holds a lease that has not run out. A node that may not stand and
      does not lead when the tick begins does not lead afterwards.
    */
    method TickElection(canElect: bool) returns (event: Option<LeaderChanged>)
      requires Valid()
      modifies this`lastIsLeader, elections
      ensures Valid() && old(elections.now) <= elections.now
      ensures Reaches(old(elections.sys), elections.sys)
      ensures lastIsLeader == 
              (elections.doc.Some? && elections.doc.value.node == me && elections.now < elections.doc.value.expires)
      ensures event.Some? <==> hasHandler && lastIsLeader != old(lastIsLeader)
      ensures event.Some? ==>
                && event.value.isLeader == lastIsLeader
                && event.value.leader == if elections.doc.Some? && elections.now < elections.doc.value.expires
                                         then Some(elections.doc.value.node) else None
      ensures lastIsLeader ==> forall j :: HoldsLease(elections.sys, j) ==> j == me
      ensures !canElect && !old(elections.doc.Some? && elections.doc.value.node == me
                                && elections.now < elections.doc.value.expires) ==>
                !lastIsLeader && elections.sys.nodes[me].lease == old(elections.sys.nodes[me].lease)
    {
      ghost var s0 := elections.sys;
      R.Self(Moves(), s0);
      var at := elections.now;
      elections.Took(s0, TickBegin(me));
      elections.Interfere(s0, me);
      var leader := elections.doc;
      elections.Took(s0, Look(me, canElect));
      LeadOrStand(s0, leader, at, canElect);
      event := NotifyLeaderChange(s0);
      Reached(s0);
    }

    /** Where a tick goes on after it found the given record. */
    ghost function AfterFinding(leader: Option<Record>, at: int, canElect: bool): Call {
      if leader.Some? && leader.value.expires > at then (if leader.value.node == me then Renewing(at) else Notifying)
      else if !canElect then Notifying
      else if leader.None? then Inserting(at)
      else Replacing(at, leader.value)
    }

    /** The node renews its record, or tries to become leader if nobody is and it may. */
    method LeadOrStand(ghost s0: State, leader: Option<Record>, at: int, canElect: bool)
      requires InTick(s0, AfterFinding(leader, at, canElect))
      modifies elections
      ensures old(elections.now) <= elections.now && InTick(s0, Notifying)
      ensures !canElect && !(leader.Some? && leader.value.expires > at && leader.value.node == me) ==>
                elections.sys == old(elections.sys) && elections.doc == old(elections.doc)
                && elections.now == old(elections.now)
    {
      var leaderAlive := leader.Some? && leader.value.expires > at;
      if leaderAlive && leader.value.node == me {
        elections.Interfere(s0, me);
        var _ := elections.UpdateOwn(me, at, Record(me, at + unhealthyTime));
        elections.Took(s0, Renew(me));
      } else if !leaderAlive && canElect {
        TryBecomeLeader(s0, leader, at);
      }
    }

    /** Inserts the record, or replaces the very one that was seen. */
    method TryBecomeLeader(ghost s0: State, leader: Option<Record>, at: int)
      requires InTick(s0, if leader.None? then Inserting(at) else Replacing(at, leader.value))
      modifies elections
      ensures old(elections.now) <= elections.now && InTick(s0, Notifying)
    {
      var nextLeader := Record(me, at + unhealthyTime);
      elections.Interfere(s0, me);
      if leader.None? {
        var _ := elections.InsertOne(nextLeader);
        elections.Took(s0, Insert(me));
      } else {
        var _ := elections.UpdateSeen(leader.value, nextLeader);
        elections.Took(s0, Replace(me));
      }
    }

    method NotifyLeaderChange(ghost s0: State) returns (event: Option<LeaderChanged>)
      requires InTick(s0, Notifying)
      modifies this`lastIsLeader, elections
      ensures old(elections.now) <= elections.now && InTick(s0, Idle)
      ensures elections.sys.nodes[me].lease == old(elections.sys.nodes[me].lease)
      ensures elections.doc.Some? && elections.doc.value.node == me ==> elections.doc == old(elections.doc)
      ensures lastIsLeader == 
              (elections.doc.Some? && elections.doc.value.node == me && elections.now < elections.doc.value.expires)
      ensures event.Some? <==> hasHandler && lastIsLeader != old(lastIsLeader)
      ensures event.Some? ==>
                && event.value.isLeader == lastIsLeader
                && event.value.leader == if elections.doc.Some? && elections.now < elections.doc.value.expires
                                         then Some(elections.doc.value.node) else None
    {
      elections.Interfere(s0, me);
      var leader := elections.doc;
      var leaderKey := if leader.Some? && leader.value.expires > elections.now then Some(leader.value.node) else None;
      var isLeader := leaderKey == Some(me);
      event := if !hasHandler || isLeader == lastIsLeader then None else Some(LeaderChanged(isLeader, leaderKey));
      lastIsLeader := isLeader;
      elections.Took(s0, Notify(me));
    }

    /** At the end of a call that began at `s0`. */
    lemma Reached(s0: State)
      requires InTick(s0, Idle) && Init(elections.origin) && Reaches(elections.origin, s0)
      ensures Valid()
      ensures IsLeader(elections.sys, me) ==> forall j :: HoldsLease(elections.sys, j) ==> j == me
    {
      R.Trans(Moves(), elections.origin, s0, elections.sys);
      ReachesInv(elections.origin, elections.sys);
      forall j | HoldsLease(elections.sys, j)
        ensures IsLeader(elections.sys, me) ==> j == me
      {
        assert NodeOk(elections.sys, j);
      }
    }

    /** Gives leadership up: the node holds no lease any more, and the record does not name it. */
    method Close()
      requires Valid()
      modifies this`lastIsLeader, elections
      ensures Valid() && Reaches(old(elections.sys), elections.sys)
      ensures !lastIsLeader && !HoldsLease(elections.sys, me)
      ensures elections.doc.Some? ==> elections.doc.value.node != me
    {
      ghost var s0 := elections.sys;
      R.Self(Moves(), s0);
      elections.Interfere(s0, me);
      elections.DeleteOf(me);
      lastIsLeader := false;
      elections.Took(s0, Cleanup(me));
      Reached(s0);
    }

    /** `is_leader`: true only for a node such that no other holds a lease. */
    method AskIsLeader() returns (leads: bool)
      requires Valid()
      modifies elections
      ensures Valid() && Reaches(old(elections.sys), elections.sys)
      ensures leads <==>
              elections.doc.Some? && elections.doc.value.node == me && elections.now < elections.doc.value.expires
      ensures leads ==> forall j :: HoldsLease(elections.sys, j) ==> j == me
    {
      ghost var s0 := elections.sys;
      R.Self(Moves(), s0);
      elections.Interfere(s0, me);
      var leader := elections.doc;
      leads := leader.Some? && leader.value.node == me && leader.value.expires > elections.now;
      Reached(s0);
    }
  }
}
