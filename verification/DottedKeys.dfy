/**
  Dotted keys: how the patch builder and the configuration name a value inside nested
  mappings, and when such a name can be read back.
*/
module DottedKeys {

  /** The key of something below `parent`; the empty parent is the top. */
  function GenDbKey(parent: string, key: string): string {
    if parent == "" then key else parent + "." + key
  }

  /** `x` is the key `base` or a dotted key below it. */
  predicate Under(x: string, base: string) {
    |base| <= |x| && x[..|base|] == base && (|x| == |base| || x[|base|] == '.')
  }

  predicate DotFree(key: string) {
    key != "" && '.' !in key
  }

  lemma DotAfter(x: string, parent: string, k1: string, k2: string)
    requires Under(x, GenDbKey(parent, k1)) && Under(x, GenDbKey(parent, k2)) && |k1| < |k2|
    ensures k2[|k1|] == '.'
  {
    var b1, b2 := GenDbKey(parent, k1), GenDbKey(parent, k2);
    assert k2[|k1|] == b2[|b1|] == x[..|b2|][|b1|];
  }

  lemma UnderUnique(x: string, parent: string, k1: string, k2: string)
    requires DotFree(k1) && DotFree(k2)
    requires Under(x, GenDbKey(parent, k1)) && Under(x, GenDbKey(parent, k2))
    ensures k1 == k2
  {
    if |k1| < |k2| {
      DotAfter(x, parent, k1, k2);
    } else if |k2| < |k1| {
      DotAfter(x, parent, k2, k1);
    } else {
      var b1, b2 := GenDbKey(parent, k1), GenDbKey(parent, k2);
      assert b1 == x[..|b1|] == b2;
      assert k1 == b1[|b1| - |k1|..] && k2 == b2[|b2| - |k2|..];
    }
  }

  lemma UnderTrans(x: string, base: string, parent: string)
    requires Under(x, base) && Under(base, parent)
    ensures Under(x, parent)
  {
    assert x[..|parent|] == base[..|parent|];
  }

  lemma GenDbKeyUnder(parent: string, key: string)
    requires parent != ""
    ensures Under(GenDbKey(parent, key), parent)
  {
  }

  // ---------- Paths of keys ----------

  /** The dotted key of a path of keys below `parent`. */
  function Dotted(parent: string, nodes: seq<string>): string
    decreases |nodes|
  {
    if nodes == [] then parent else Dotted(GenDbKey(parent, nodes[0]), nodes[1..])
  }

  ghost predicate Clean(nodes: seq<string>) {
    nodes != [] && forall i :: 0 <= i < |nodes| ==> DotFree(nodes[i])
  }

  lemma {:induction false} DottedUnder(parent: string, nodes: seq<string>)
    requires Clean(nodes)
    ensures Under(Dotted(parent, nodes), GenDbKey(parent, nodes[0]))
    ensures |nodes| > 1 ==> |Dotted(parent, nodes)| > |GenDbKey(parent, nodes[0])|
    decreases |nodes|
  {
    if |nodes| > 1 {
      var top, rest := GenDbKey(parent, nodes[0]), nodes[1..];
      DottedUnder(top, rest);
      GenDbKeyUnder(top, rest[0]);
      UnderTrans(Dotted(parent, nodes), GenDbKey(top, rest[0]), top);
    }
  }

  /** Non-empty keys without dots can be told from their dotted key. */
  lemma {:induction false} DottedInjective(parent: string, a: seq<string>, b: seq<string>)
    requires Clean(a) && Clean(b) && Dotted(parent, a) == Dotted(parent, b)
    ensures a == b
    decreases |a|
  {
    DottedUnder(parent, a);
    DottedUnder(parent, b);
    UnderUnique(Dotted(parent, a), parent, a[0], b[0]);
    if |a| > 1 && |b| > 1 {
      DottedInjective(GenDbKey(parent, a[0]), a[1..], b[1..]);
      assert a == [a[0]] + a[1..] && b == [b[0]] + b[1..];
    }
  }
}
