/** Runs of any state machine: what a state can reach, and what every step keeps. */
module Runs {

  ghost predicate Path<S(!new), A(!new)>(next: (S, A, S) -> bool, ss: seq<S>, steps: seq<A>) {
    |ss| == |steps| + 1 && forall k :: 0 <= k < |steps| ==> next(ss[k], steps[k], ss[k + 1])
  }

  /** Some run, of any length, leads from `s` to `s'`. */
  ghost predicate Reaches<S(!new), A(!new)>(next: (S, A, S) -> bool, s: S, s': S) {
    exists ss: seq<S>, steps: seq<A> :: Path(next, ss, steps) && ss[0] == s && ss[|steps|] == s'
  }

  lemma Self<S(!new), A(!new)>(next: (S, A, S) -> bool, s: S)
    ensures Reaches(next, s, s)
  {
    assert Path(next, [s], []);
  }

  lemma Step<S(!new), A(!new)>(next: (S, A, S) -> bool, s0: S, s: S, a: A, s': S)
    requires Reaches(next, s0, s) && next(s, a, s')
    ensures Reaches(next, s0, s')
  {
    var ss, steps :| Path(next, ss, steps) && ss[0] == s0 && ss[|steps|] == s;
    var ss', steps' := ss + [s'], steps + [a];
    assert Path(next, ss', steps') && ss'[0] == s0 && ss'[|steps'|] == s';
  }

  lemma Trans<S(!new), A(!new)>(next: (S, A, S) -> bool, s0: S, s1: S, s2: S)
    requires Reaches(next, s0, s1) && Reaches(next, s1, s2)
    ensures Reaches(next, s0, s2)
  {
    var ss, steps :| Path(next, ss, steps) && ss[0] == s0 && ss[|steps|] == s1;
    var ss', steps' :| Path(next, ss', steps') && ss'[0] == s1 && ss'[|steps'|] == s2;
    Join(next, ss, steps, ss', steps');
    var all, moves := ss[..|steps|] + ss', steps + steps';
    assert Path(next, all, moves) && all[0] == s0 && all[|moves|] == s2;
  }

  lemma Join<S(!new), A(!new)>(next: (S, A, S) -> bool, ss: seq<S>, steps: seq<A>, ss': seq<S>, steps': seq<A>)
    requires Path(next, ss, steps) && Path(next, ss', steps') && ss[|steps|] == ss'[0]
    ensures Path(next, ss[..|steps|] + ss', steps + steps')
  {
    var all, moves := ss[..|steps|] + ss', steps + steps';
    forall k | 0 <= k < |moves|
      ensures next(all[k], moves[k], all[k + 1])
    {
      if k < |steps| {
        assert all[k] == ss[k] && all[k + 1] == ss[k + 1];
      } else {
        assert all[k] == ss'[k - |steps|] && all[k + 1] == ss'[k - |steps| + 1];
      }
    }
  }

  /** What holds at the start and is kept by every step holds in every state reached. */
  lemma Keeps<S(!new), A(!new)>(next: (S, A, S) -> bool, inv: S -> bool, s: S, s': S)
    requires Reaches(next, s, s') && inv(s)
    requires forall t, a, t' :: inv(t) && next(t, a, t') ==> inv(t')
    ensures inv(s')
  {
    var ss, steps :| Path(next, ss, steps) && ss[0] == s && ss[|steps|] == s';
    PathKeeps(next, inv, ss, steps, |steps|);
  }

  lemma {:induction false} PathKeeps<S(!new), A(!new)>(next: (S, A, S) -> bool, inv: S -> bool, ss: seq<S>,
                                                       steps: seq<A>, k: nat)
    requires Path(next, ss, steps) && inv(ss[0]) && k <= |steps|
    requires forall t, a, t' :: inv(t) && next(t, a, t') ==> inv(t')
    ensures inv(ss[k])
  {
    if k > 0 {
      PathKeeps(next, inv, ss, steps, k - 1);
      assert next(ss[k - 1], steps[k - 1], ss[k - 1 + 1]);
    }
  }
}
