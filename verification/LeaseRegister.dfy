/**
  The abstract lease register: one place that names at most one holder and the time
  its lease runs out. The Mongo and Redis mutexes and the Mongo and Redis leader
  records are each proved to be an implementation of it, whatever way the steps of
  their clients interleave.
*/
module LeaseRegister {

  /** Clients and nodes are numbered; times are exact ticks of one monotone clock. */
  datatype Register = Free | Held(holder: nat, until: int)

  datatype Lease = Lease(now: int, reg: Register)

  datatype Label =
    | Stutter
    | Tick(to: int)
    | Grant(holder: nat, until: int)
    | Release(holder: nat)
    | Drop

  /** `who` has a lease that has not run out. */
  predicate LiveFor(l: Lease, who: nat) {
    l.reg.Held? && l.reg.holder == who && l.now < l.reg.until
  }

  /**
    What an implementation may do. A lease is granted only when the register is free,
    the recorded lease has run out, or the same holder renews; it is given up only by
    its holder; and only a lease that ran out may be dropped by anybody else.
  */
  predicate Next(l: Lease, a: Label, l': Lease) {
    match a
    case Stutter => l' == l
    case Tick(to) => l.now <= to && l' == l.(now := to)
    case Grant(h, until) =>
      && (l.reg.Free? || l.reg.until <= l.now || l.reg.holder == h)
      && l' == l.(reg := Held(h, until))
    case Release(h) => l.reg.Held? && l.reg.holder == h && l' == l.(reg := Free)
    case Drop => l.reg.Held? && l.reg.until <= l.now && l' == l.(reg := Free)
  }

  ghost predicate Run(ls: seq<Lease>, labels: seq<Label>) {
    && |ls| == |labels| + 1
    && forall k :: 0 <= k < |labels| ==> Next(ls[k], labels[k], ls[k + 1])
  }

  /** Step `k` of the run ends the tenure of `h`: it gives the lease up, or it has run out. */
  ghost predicate EndsTenure(ls: seq<Lease>, labels: seq<Label>, k: nat, h: nat)
    requires Run(ls, labels) && k < |labels|
  {
    || labels[k] == Release(h)
    || (ls[k].reg.Held? && ls[k].reg.holder == h && ls[k].reg.until <= ls[k].now)
  }

  /**
    Leases never overlap: when the register names `h` in one state of a run and
    somebody else in a later one, then in between `h` gave the lease up or its lease,
    as last renewed, ran out.
  */
  lemma {:induction false} Handover(ls: seq<Lease>, labels: seq<Label>, a: nat, b: nat, h: nat)
    requires Run(ls, labels)
    requires a < b < |ls|
    requires ls[a].reg.Held? && ls[a].reg.holder == h
    requires ls[b].reg.Held? && ls[b].reg.holder != h
    ensures exists k: nat :: a <= k < b && EndsTenure(ls, labels, k, h)
    decreases b - a
  {
    assert Next(ls[a], labels[a], ls[a + 1]);
    if EndsTenure(ls, labels, a, h) {
    } else {
      assert ls[a + 1].reg.Held? && ls[a + 1].reg.holder == h;
      Handover(ls, labels, a + 1, b, h);
    }
  }
}
