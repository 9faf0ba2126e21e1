/**
  The election of the Redis backend in the form of its code: the tick of a node, its
  close and `is_leader`, each proved to be a run of `RedisElection` with the other nodes
  moving between the commands.
*/
module RedisAtomic {
  import opened Wrappers
  import opened P = RedisElection
  import R = Runs

  /** The leader key of one isolation group, and the clock of the store in milliseconds. */
  class Store {
    var now: int
    var key: Option<Entry>
    /** The whole system, every node included. */
    ghost var sys: State
    ghost const origin: State

    ghost predicate Valid()
      reads this
    {
      Synced(origin) && Init(origin)
    }

    ghost predicate Synced(s0: State)
      reads this
    {
      sys.now == now && sys.key == key && Reaches(s0, sys)
    }

    constructor (now: int, nodes: seq<Node>)
      requires Init(State(now, None, nodes))
      ensures Valid() && sys == State(now, None, nodes)
    {
      this.now, this.key := now, None;
      origin := State(now, None, nodes);
      sys := origin;
      new;
      R.Self(Moves(), origin);
    }

    /**
      The rest of the world moves. Callers know this contract only: anything may have
      happened, except a move of node `me`.
    */
    method Interfere(ghost s0: State, ghost me: nat)
      requires Synced(s0) && me < |sys.nodes|
      modifies this
      ensures Synced(s0) && old(now) <= now
      ensures R.Reaches(OthersMove(me), old(sys), sys) && LeftAlone(old(sys), sys, me)
    {
      R.Self(OthersMove(me), sys);
    }

    /** Records that the command just given is step `a` of the protocol. */
    ghost method Took(s0: State, a: Step)
      requires Reaches(s0, sys) && Enabled(sys, a)
      modifies this`sys
      ensures sys == Apply(old(sys), a) && Reaches(s0, sys)
    {
      R.Step(Moves(), s0, sys, a, Apply(sys, a));
      sys := Apply(sys, a);
    }

    /** The node that the key names, unless it has run out. */
    function Get(): Option<nat>
      reads this
    {
      if key.Some? && now < key.value.until then Some(key.value.node) else None
    }

    method SetNx(node: nat, px: nat)
      modifies this`key
      ensures key == if old(Get()).None? then Some(Entry(node, now + px)) else old(key)
    {
      if Get().None? {
        key := Some(Entry(node, now + px));
      }
    }

    /** The script: moves the expiry of the key if it names the node. */
    method PexpireIf(node: nat, px: nat)
      modifies this`key
      ensures key == if old(Get()) == Some(node) then Some(Entry(node, now + px)) else old(key)
    {
      if Get() == Some(node) {
        key := Some(key.value.(until := now + px));
      }
    }

    /** The script: deletes the key if it names the node. */
    method DeleteIf(node: nat)
      modifies this`key
      ensures key == if old(Get()) == Some(node) then None else old(key)
    {
      if Get() == Some(node) {
        key := None;
      }
    }
  }

  /** What the handler of leader changes is told: whether the node leads now, and who does. */
  datatype LeaderChanged = LeaderChanged(isLeader: bool, leader: Option<nat>)

  class RedisAtomic {
    const client: Store
    const me: nat
    const leaseMs: nat
    const hasHandler: bool
    var lastIsLeader: bool

    constructor (client: Store, me: nat, leaseMs: nat, hasHandler: bool)
      requires client.Valid() && me < |client.sys.nodes|
      requires client.sys.nodes[me].call.Idle? && client.sys.nodes[me].leaseMs == leaseMs
      requires !client.sys.nodes[me].lastIsLeader
      ensures Valid() && this.client == client && this.me == me && this.hasHandler == hasHandler && !lastIsLeader
    {
      this.client, this.me, this.leaseMs := client, me, leaseMs;
      this.hasHandler := hasHandler;
      lastIsLeader := false;
    }

    ghost predicate Valid()
      reads this, client
    {
      client.Valid() && InTick(client.origin, Idle)
    }

    /** The node is at the given point of a tick that began in a run from `s0`. */
    ghost predicate InTick(s0: State, call: Call)
      reads this, client
    {
      && client.Synced(s0)
      && me < |client.sys.nodes|
      && var n := client.sys.nodes[me];
      n.leaseMs == leaseMs && n.lastIsLeader == lastIsLeader && n.call == call
    }

    /**
      One tick. Afterwards `lastIsLeader` tells whether the key names the node, and if it
      does, no other node holds a lease that has not run out. A node that may not stand and
      does not lead when the tick begins does not lead afterwards.
    */
    method TickElection(canElect: bool) returns (event: Option<LeaderChanged>)
      requires Valid()
      modifies this`lastIsLeader, client
      ensures Valid() && old(client.now) <= client.now
      ensures Reaches(old(client.sys), client.sys)
      ensures lastIsLeader ==
              (client.key.Some? && client.key.value.node == me && client.now < client.key.value.until)
      ensures event.Some? <==> hasHandler && lastIsLeader != old(lastIsLeader)
      ensures event.Some? ==>
                && event.value.isLeader == lastIsLeader
                && event.value.leader == if client.key.Some? && client.now < client.key.value.until
                                         then Some(client.key.value.node) else None
      ensures lastIsLeader ==> forall j :: HoldsLease(client.sys, j) ==> j == me
      ensures !canElect && !old(client.key.Some? && client.key.value.node == me
                                && client.now < client.key.value.until) ==>
                !lastIsLeader && client.sys.nodes[me].lease == old(client.sys.nodes[me].lease)
    {
      ghost var s0 := client.sys;
      R.Self(Moves(), s0);
      client.Took(s0, TickBegin(me));
      client.Interfere(s0, me);
      var leader := client.Get();
      client.Took(s0, Look(me, canElect));
      LeadOrStand(s0, leader, canElect);
      event := NotifyLeaderChange(s0);
      Reached(s0);
    }

    /** The node renews its key, or tries to become leader if nobody is and it may. */
    method LeadOrStand(ghost s0: State, leader: Option<nat>, canElect: bool)
      requires InTick(s0, if leader == Some(me) then Renewing
                          else if leader.None? && canElect then Setting else Notifying)
      modifies client
      ensures old(client.now) <= client.now && InTick(s0, Notifying)
      ensures leader != Some(me) && !canElect ==>
                client.sys == old(client.sys) && client.key == old(client.key) && client.now == old(client.now)
    {
      if leader == Some(me) {
        client.Interfere(s0, me);
        client.PexpireIf(me, leaseMs);
        client.Took(s0, Pexpire(me));
      } else if leader.None? && canElect {
        client.Interfere(s0, me);
        client.SetNx(me, leaseMs);
        client.Took(s0, SetNx(me));
      }
    }

    method NotifyLeaderChange(ghost s0: State) returns (event: Option<LeaderChanged>)
      requires InTick(s0, Notifying)
      modifies this`lastIsLeader, client
      ensures old(client.now) <= client.now && InTick(s0, Idle)
      ensures client.sys.nodes[me].lease == old(client.sys.nodes[me].lease)
      ensures client.key.Some? && client.key.value.node == me ==> client.key == old(client.key)
      ensures lastIsLeader ==
              (client.key.Some? && client.key.value.node == me && client.now < client.key.value.until)
      ensures event.Some? <==> hasHandler && lastIsLeader != old(lastIsLeader)
      ensures event.Some? ==>
                && event.value.isLeader == lastIsLeader
                && event.value.leader == if client.key.Some? && client.now < client.key.value.until
                                         then Some(client.key.value.node) else None
    {
      client.Interfere(s0, me);
      var leader := client.Get();
      var isLeader := leader == Some(me);
      event := if !hasHandler || isLeader == lastIsLeader then None else Some(LeaderChanged(isLeader, leader));
      lastIsLeader := isLeader;
      client.Took(s0, Notify(me));
    }

    /** At the end of a call that began at `s0`. */
    lemma Reached(s0: State)
      requires InTick(s0, Idle) && Init(client.origin) && Reaches(client.origin, s0)
      ensures Valid()
      ensures IsLeader(client.sys, me) ==> forall j :: HoldsLease(client.sys, j) ==> j == me
    {
      R.Trans(Moves(), client.origin, s0, client.sys);
      ReachesInv(client.origin, client.sys);
      forall j | HoldsLease(client.sys, j)
        ensures IsLeader(client.sys, me) ==> j == me
      {
        assert NodeOk(client.sys, j);
      }
    }

    /** Gives leadership up: the node holds no lease any more, and the live key does not name it. */
    method Close()
      requires Valid()
      modifies this`lastIsLeader, client
      ensures Valid() && Reaches(old(client.sys), client.sys)
      ensures !lastIsLeader && !HoldsLease(client.sys, me)
      ensures client.key.Some? && client.key.value.node == me ==> client.key.value.until <= client.now
    {
      ghost var s0 := client.sys;
      R.Self(Moves(), s0);
      client.Interfere(s0, me);
      client.DeleteIf(me);
      lastIsLeader := false;
      client.Took(s0, Cleanup(me));
      Reached(s0);
    }

    /** `is_leader`: true only for a node such that no other holds a lease. */
    method AskIsLeader() returns (leads: bool)
      requires Valid()
      modifies client
      ensures Valid() && Reaches(old(client.sys), client.sys)
      ensures leads <==> client.key.Some? && client.key.value.node == me && client.now < client.key.value.until
      ensures leads ==> forall j :: HoldsLease(client.sys, j) ==> j == me
    {
      ghost var s0 := client.sys;
      R.Self(Moves(), s0);
      client.Interfere(s0, me);
      leads := client.Get() == Some(me);
      Reached(s0);
    }
  }
}
