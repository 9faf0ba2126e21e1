/**
  What the store's `$set` does with dotted keys: it descends into nested documents, makes
  those that are missing, and leaves everything beside the named paths alone.
*/
module DottedSet {
  import opened Codec
  import opened DottedKeys
  import opened Wrappers

  /** The key of the document itself that a dotted key goes through. */
  function Head(key: string): string {
    if key == "" || key[0] == '.' then "" else [key[0]] + Head(key[1..])
  }

  function Heads(p: Doc): set<string> {
    set k | k in p :: Head(k)
  }

  /** The dotted keys below a key, without it and its dot. */
  function TailsBelow(p: Doc, h: string): set<string> {
    set k | k in p && Under(k, h) && k != h :: k[|h| + 1..]
  }

  function Below(p: Doc, h: string): (q: Doc)
    ensures forall t :: t in q <==> h + "." + t in p
    ensures forall t :: t in q ==> q[t] == p[h + "." + t]
  {
    TailsAreBelow(p, h);
    map t | t in TailsBelow(p, h) :: p[h + "." + t]
  }

  lemma TailsAreBelow(p: Doc, h: string)
    ensures forall t :: t in TailsBelow(p, h) <==> h + "." + t in p
  {
    forall t
      ensures t in TailsBelow(p, h) <==> h + "." + t in p
    {
      var k := h + "." + t;
      if k in p {
        assert Under(k, h) && k != h && k[|h| + 1..] == t;
      }
      if t in TailsBelow(p, h) {
        var k' :| k' in p && Under(k', h) && k' != h && k'[|h| + 1..] == t;
        assert k' == k'[..|h|] + [k'[|h|]] + k'[|h| + 1..] == k;
      }
    }
  }

  /** One more than the length of the longest key; for termination. */
  ghost function Size(keys: set<string>): (n: nat)
    ensures forall k :: k in keys ==> |k| < n
    ensures n > 0 ==> exists k :: k in keys && n == |k| + 1
  {
    if keys == {} then 0
    else
      var k :| k in keys;
      var rest := Size(keys - {k});
      if rest <= |k| then |k| + 1 else rest
  }

  lemma BelowIsSmaller(p: Doc, h: string)
    requires Below(p, h) != map[]
    ensures Size(Below(p, h).Keys) < Size(p.Keys)
  {
    var q := Below(p, h);
    var t :| t in q.Keys;
    var longest :| longest in q.Keys && Size(q.Keys) == |longest| + 1;
    assert h + "." + longest in p.Keys;
  }

  function Inner(d: Doc, h: string): Doc {
    if h in d && d[h].Dict? then d[h].entries else map[]
  }

  /** The document after `$set` of the given dotted keys. */
  function SetFields(d: Doc, p: Doc): Doc
    decreases Size(p.Keys)
  {
    map h | h in d.Keys + Heads(p) ::
      if h in p then p[h]
      else if Below(p, h) == map[] then (if h in d then d[h] else Null)
      else
        BelowIsSmaller(p, h);
        Dict(SetFields(Inner(d, h), Below(p, h)))
  }

  /**
    The store accepts the update: no empty key on the way, no key below another one, and
    nothing but documents where the keys lead through.
  */
  predicate Settable(d: Doc, p: Doc)
    decreases Size(p.Keys)
  {
    forall h :: h in Heads(p) ==>
      && h != ""
      && (h in p ==> Below(p, h) == map[])
      && (Below(p, h) != map[] ==>
            && (h in d ==> d[h].Dict?)
            && (BelowIsSmaller(p, h); Settable(Inner(d, h), Below(p, h))))
  }

  // ---------- What a key goes through ----------

  lemma {:induction false} HeadOf(h: string, t: string)
    requires '.' !in h
    ensures Head(h) == h && Head(h + "." + t) == h
  {
    var k := h + "." + t;
    if h != "" {
      HeadOf(h[1..], t);
      assert k[1..] == h[1..] + "." + t;
    }
  }

  lemma {:induction false} HeadSplits(k: string) returns (t: string)
    ensures k == Head(k) || k == Head(k) + "." + t
  {
    if k == "" || k[0] == '.' {
      t := if k == "" then "" else k[1..];
    } else {
      t := HeadSplits(k[1..]);
      assert k == [k[0]] + k[1..];
    }
  }

  /** A key that nothing is named at or below is not touched. */
  lemma NotAHead(p: Doc, h: string)
    requires h !in p && Below(p, h) == map[]
    ensures h !in Heads(p)
  {
    if h in Heads(p) {
      var k :| k in p && Head(k) == h;
      var t := HeadSplits(k);
      assert false;
    }
  }

  lemma BelowIsHead(p: Doc, h: string)
    requires '.' !in h && Below(p, h) != map[]
    ensures h in Heads(p)
  {
    var t :| t in Below(p, h).Keys;
    HeadOf(h, t);
    assert h + "." + t in p;
  }

  /** Keys of the document itself are set as they are. */
  lemma SetsTopKeys(d: Doc, p: Doc)
    requires forall k :: k in p ==> DotFree(k)
    ensures Settable(d, p) && SetFields(d, p) == d + p
  {
    forall k | k in p
      ensures Head(k) == k
    {
      HeadOf(k, "");
    }
    assert Heads(p) == p.Keys;
    forall h
      ensures Below(p, h) == map[]
    {
      forall t: string
        ensures h + "." + t !in p
      {
        assert (h + "." + t)[|h|] == '.';
      }
      assert Below(p, h).Keys == {};
    }
  }

  // ---------- The law of `$set` ----------

  /** The leaf at a path of keys below a value. */
  function LeafIn(v: Val, nodes: seq<string>): Option<Val>
    decreases |nodes|
  {
    if nodes == [] then (if v.Dict? then None else Some(v))
    else if v.Dict? && nodes[0] in v.entries then LeafIn(v.entries[nodes[0]], nodes[1..])
    else None
  }

  function LeafAt(d: Doc, nodes: seq<string>): Option<Val> {
    LeafIn(Dict(d), nodes)
  }

  /** The first `i` keys of the path are named by the update. */
  predicate Names(p: Doc, nodes: seq<string>, i: int) {
    0 < i <= |nodes| && Dotted("", nodes[..i]) in p
  }

  /** Named paths get their values; every other leaf stays as it was. */
  ghost predicate LeafLaw(d: Doc, p: Doc, result: Doc, nodes: seq<string>) {
    && (forall i {:trigger Names(p, nodes, i)} :: Names(p, nodes, i) ==>
          LeafAt(result, nodes) == LeafIn(p[Dotted("", nodes[..i])], nodes[i..]))
    && ((forall i :: !Names(p, nodes, i)) ==> LeafAt(result, nodes) == LeafAt(d, nodes))
  }

  lemma {:induction false} DottedFrom(parent: string, nodes: seq<string>)
    requires parent != "" && Clean(nodes)
    ensures Dotted(parent, nodes) == parent + "." + Dotted("", nodes)
    decreases |nodes|
  {
    var first, rest := nodes[0], nodes[1..];
    if rest != [] {
      DottedFrom(parent + "." + first, rest);
      DottedFrom(first, rest);
      Regroup(parent, first, Dotted("", rest));
    }
  }

  lemma Regroup(a: string, b: string, c: string)
    ensures (a + "." + b) + "." + c == a + "." + (b + "." + c)
  {
  }

  /** A path is named in the update exactly when its rest is named below its first key. */
  lemma NamesBelow(p: Doc, nodes: seq<string>, i: int)
    requires Clean(nodes) && 1 < i <= |nodes|
    ensures var rest := nodes[1..];
            && Dotted("", nodes[..i]) == nodes[0] + "." + Dotted("", rest[..i - 1])
            && (Names(p, nodes, i) <==> Names(Below(p, nodes[0]), rest, i - 1))
            && nodes[i..] == rest[i - 1..]
  {
    assert nodes[..i][1..] == nodes[1..][..i - 1];
    DottedFrom(nodes[0], nodes[..i][1..]);
  }

  lemma NamesFirst(p: Doc, nodes: seq<string>)
    requires nodes != []
    ensures Dotted("", nodes[..1]) == nodes[0]
    ensures Names(p, nodes, 1) <==> nodes[0] in p
  {
    assert nodes[..1] == [nodes[0]];
  }

  lemma {:induction false} LeafOfSet(d: Doc, p: Doc, nodes: seq<string>)
    requires Settable(d, p) && Clean(nodes)
    ensures LeafLaw(d, p, SetFields(d, p), nodes)
    decreases |nodes|
  {
    var h, rest := nodes[0], nodes[1..];
    if h in p {
      HeadOf(h, "");
      assert h in Heads(p);
      NamedHere(d, p, nodes);
    } else if Below(p, h) == map[] {
      NotAHead(p, h);
      NothingNamed(d, p, nodes);
    } else {
      BelowIsHead(p, h);
      if rest == [] {
        assert nodes == [h];
        IsDocument(d, p, h);
        OnlyBelowNamed(d, p, SetFields(d, p), h);
      } else {
        LeafOfSet(Inner(d, h), Below(p, h), rest);
        NamedBelow(d, p, nodes);
      }
    }
  }

  lemma NothingNamed(d: Doc, p: Doc, nodes: seq<string>)
    requires Clean(nodes) && nodes[0] !in p && nodes[0] !in Heads(p) && Below(p, nodes[0]) == map[]
    ensures LeafLaw(d, p, SetFields(d, p), nodes)
  {
    NamesFirst(p, nodes);
    forall i
      ensures !Names(p, nodes, i)
    {
      if 1 < i <= |nodes| {
        NamesBelow(p, nodes, i);
      }
    }
  }

  /** A path that ends where the update leads through has no leaf before and none after. */
  lemma OnlyBelowNamed(d: Doc, p: Doc, result: Doc, h: string)
    requires h !in p && (h in d ==> d[h].Dict?) && h in result && result[h].Dict?
    ensures LeafLaw(d, p, result, [h])
  {
    NamesFirst(p, [h]);
    OneKeyLeaf(d, h);
    OneKeyLeaf(result, h);
    assert forall i :: Names(p, [h], i) ==> i == 1;
  }

  lemma OneKeyLeaf(d: Doc, h: string)
    requires h in d ==> d[h].Dict?
    ensures LeafAt(d, [h]) == None
  {
    assert [h][1..] == [];
    if h in d {
      assert LeafIn(Dict(d), [h]) == LeafIn(d[h], []);
    }
  }

  lemma IsDocument(d: Doc, p: Doc, h: string)
    requires h !in p && h in Heads(p) && Below(p, h) != map[]
    ensures h in SetFields(d, p) && SetFields(d, p)[h].Dict?
  {
  }

  lemma NamedHere(d: Doc, p: Doc, nodes: seq<string>)
    requires Clean(nodes) && nodes[0] in p && nodes[0] in Heads(p) && Below(p, nodes[0]) == map[]
    ensures LeafLaw(d, p, SetFields(d, p), nodes)
  {
    NamesFirst(p, nodes);
    forall i | Names(p, nodes, i)
      ensures i == 1
    {
      if i > 1 {
        NamesBelow(p, nodes, i);
      }
    }
    assert Names(p, nodes, 1);
  }

  lemma NamedBelow(d: Doc, p: Doc, nodes: seq<string>)
    requires Clean(nodes) && |nodes| > 1 && nodes[0] !in p && nodes[0] in Heads(p) && Below(p, nodes[0]) != map[]
    requires nodes[0] in d ==> d[nodes[0]].Dict?
    requires var q := Below(p, nodes[0]); LeafLaw(Inner(d, nodes[0]), q, SetFields(Inner(d, nodes[0]), q), nodes[1..])
    ensures LeafLaw(d, p, SetFields(d, p), nodes)
  {
    var h, rest, q := nodes[0], nodes[1..], Below(p, nodes[0]);
    NamesFirst(p, nodes);
    assert LeafAt(SetFields(d, p), nodes) == LeafAt(SetFields(Inner(d, h), q), rest);
    assert LeafAt(d, nodes) == LeafAt(Inner(d, h), rest);
    forall i | Names(p, nodes, i)
      ensures LeafAt(SetFields(d, p), nodes) == LeafIn(p[Dotted("", nodes[..i])], nodes[i..])
    {
      NamesBelow(p, nodes, i);
      assert Names(q, rest, i - 1);
    }
    forall j
      ensures Names(q, rest, j) ==> Names(p, nodes, j + 1)
    {
      if 0 < j <= |rest| {
        NamesBelow(p, nodes, j + 1);
      }
    }
  }
}
