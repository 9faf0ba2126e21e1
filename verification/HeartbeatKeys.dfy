/**
  The Redis key layout: every component is encoded, so keys can be told apart, and the
  live nodes of an isolation group can be read off the keys.
*/
module HeartbeatKeys {
  import opened Base64Url
  import opened Sorting
  import opened Wrappers

  type Bytes = seq<byte>

  function MutexKey(prefix: string, key: string): string {
    prefix + ":mutex:" + key
  }

  function RandomKey(prefix: string, num: string): string {
    prefix + ":random:" + num
  }

  function LeaderKey(prefix: string, isolation: Bytes): string {
    prefix + ":leader:" + EncodeComponent(isolation)
  }

  function HeartbeatPrefix(prefix: string, isolation: Bytes): string {
    prefix + ":heartbeat:" + EncodeComponent(isolation)
  }

  function HeartbeatKey(prefix: string, isolation: Bytes, node: Bytes): string {
    HeartbeatPrefix(prefix, isolation) + ":" + EncodeComponent(node)
  }

  /** What keys look like: "Zg" is "f" encoded. */
  lemma KeysLookLike()
    ensures MutexKey("dkit", "a") == "dkit:mutex:a" && RandomKey("dkit", "7") == "dkit:random:7"
    ensures LeaderKey("dkit", []) == "dkit:leader:" && LeaderKey("dkit", [0x66]) == "dkit:leader:Zg"
    ensures HeartbeatKey("dkit", [], [0x66]) == "dkit:heartbeat::Zg"
  {
    hide EncodeComponent;
    Vectors();
  }

  // ---------- Keys can be told apart ----------

  /** Text without a colon, followed by one, can be read back from its start. */
  lemma SplitAtColon(a: string, x: string, b: string, y: string)
    requires ':' !in a && ':' !in b
    requires a + ":" + x == b + ":" + y
    ensures a == b && x == y
  {
    var s, t := a + ":" + x, b + ":" + y;
    if |a| < |b| {
      ColonInside(a, x, b, y);
    } else if |b| < |a| {
      ColonInside(b, y, a, x);
    } else {
      assert a == s[..|a|] && b == t[..|b|];
      assert x == s[|a| + 1..] && y == t[|b| + 1..];
    }
  }

  lemma ColonInside(a: string, x: string, b: string, y: string)
    requires a + ":" + x == b + ":" + y && |a| < |b|
    ensures b[|a|] == ':'
  {
    assert (a + ":" + x)[|a|] == (b + ":" + y)[|a|] == b[|a|];
  }

  /** The part of a heartbeat key after the fixed prefix. */
  function Tail(isolation: Bytes, node: Bytes): string {
    EncodeComponent(isolation) + ":" + EncodeComponent(node)
  }

  lemma KeyIsTail(prefix: string, isolation: Bytes, node: Bytes)
    ensures HeartbeatKey(prefix, isolation, node) == prefix + ":heartbeat:" + Tail(isolation, node)
  {
  }

  /** A heartbeat key determines its isolation group and its node. */
  lemma HeartbeatKeyInjective(prefix: string, i1: Bytes, n1: Bytes, i2: Bytes, n2: Bytes)
    requires HeartbeatKey(prefix, i1, n1) == HeartbeatKey(prefix, i2, n2)
    ensures i1 == i2 && n1 == n2
  {
    KeyIsTail(prefix, i1, n1);
    KeyIsTail(prefix, i2, n2);
    var head := prefix + ":heartbeat:";
    assert Tail(i1, n1) == (head + Tail(i1, n1))[|head|..] == (head + Tail(i2, n2))[|head|..] == Tail(i2, n2);
    ComponentRoundTrip(i1);
    ComponentRoundTrip(i2);
    SplitAtColon(EncodeComponent(i1), EncodeComponent(n1), EncodeComponent(i2), EncodeComponent(n2));
    EncodeInjective(i1, i2);
    EncodeInjective(n1, n2);
  }

  /** Exactly the heartbeats of the own group match the group's pattern. */
  lemma OwnPrefixOnly(prefix: string, own: Bytes, isolation: Bytes, node: Bytes)
    ensures HeartbeatPrefix(prefix, own) + ":" <= HeartbeatKey(prefix, isolation, node) <==> isolation == own
    ensures isolation == own ==>
              HeartbeatKey(prefix, isolation, node)[|HeartbeatPrefix(prefix, own) + ":"|..] == EncodeComponent(node)
  {
    var start, key := HeartbeatPrefix(prefix, own) + ":", HeartbeatKey(prefix, isolation, node);
    if start <= key {
      var head, rest := prefix + ":heartbeat:", key[|start|..];
      KeyIsTail(prefix, isolation, node);
      assert key == start + rest;
      assert start == head + (EncodeComponent(own) + ":");
      assert key[|head|..] == EncodeComponent(own) + ":" + rest;
      assert key[|head|..] == Tail(isolation, node);
      ComponentRoundTrip(own);
      ComponentRoundTrip(isolation);
      SplitAtColon(EncodeComponent(own), rest, EncodeComponent(isolation), EncodeComponent(node));
      EncodeInjective(own, isolation);
    }
  }

  /** No mutex, random-number or leader key starts like a heartbeat key. */
  lemma OtherKeysDiffer(prefix: string, own: Bytes, text: string, isolation: Bytes)
    ensures !(HeartbeatPrefix(prefix, own) + ":" <= MutexKey(prefix, text))
    ensures !(HeartbeatPrefix(prefix, own) + ":" <= RandomKey(prefix, text))
    ensures !(HeartbeatPrefix(prefix, own) + ":" <= LeaderKey(prefix, isolation))
  {
    var start, at := HeartbeatPrefix(prefix, own) + ":", |prefix| + 1;
    assert start[at] == 'h';
    assert MutexKey(prefix, text)[at] == 'm' && RandomKey(prefix, text)[at] == 'r';
    assert LeaderKey(prefix, isolation)[at] == 'l';
  }

  // ---------- Live nodes ----------

  /** Byte strings in dictionary order. */
  predicate Less(a: Bytes, b: Bytes) {
    Lexicographic((x: byte, y: byte) => x < y, a, b)
  }

  /** The first byte string is a proper start of the second, or has the smaller byte where they first differ. */
  ghost predicate Earlier(a: Bytes, b: Bytes) {
    exists k :: 0 <= k <= |a| && k < |b| && a[..k] == b[..k] && (k == |a| || a[k] < b[k])
  }

  lemma {:induction false} LessIsEarlier(a: Bytes, b: Bytes)
    ensures Less(a, b) <==> Earlier(a, b)
  {
    if a != [] && b != [] && a[0] == b[0] {
      LessIsEarlier(a[1..], b[1..]);
      if Less(a[1..], b[1..]) {
        var k :| 0 <= k <= |a[1..]| && k < |b[1..]| && a[1..][..k] == b[1..][..k]
                 && (k == |a[1..]| || a[1..][k] < b[1..][k]);
        assert a[..k + 1] == [a[0]] + a[1..][..k] && b[..k + 1] == [b[0]] + b[1..][..k];
        assert a[..k + 1] == b[..k + 1] && (k + 1 == |a| || a[k + 1] < b[k + 1]);
      }
      if k :| 0 <= k <= |a| && k < |b| && a[..k] == b[..k] && (k == |a| || a[k] < b[k]) {
        assert k > 0;
        assert a[1..][..k - 1] == a[..k][1..] == b[..k][1..] == b[1..][..k - 1];
        assert Earlier(a[1..], b[1..]);
      }
    } else if Less(a, b) {
      assert a[..0] == b[..0];
    }
  }

  lemma NodesAreOrdered()
    ensures StrictTotalOrder(Less) && StrictWeakOrder(Less)
  {
    DictionaryIsTotal((x: byte, y: byte) => x < y, Less);
    TotalIsWeak(Less);
  }

  /** A key that the atomic's prefix owns. */
  datatype Owned =
    | Mutex(text: string)
    | Random(num: string)
    | Leader(group: Bytes)
    | Heartbeat(isolation: Bytes, node: Bytes)

  function KeyOf(prefix: string, k: Owned): string {
    match k
    case Mutex(text) => MutexKey(prefix, text)
    case Random(num) => RandomKey(prefix, num)
    case Leader(group) => LeaderKey(prefix, group)
    case Heartbeat(isolation, node) => HeartbeatKey(prefix, isolation, node)
  }

  /** The pattern of a group matches the heartbeats of this group and no other key. */
  lemma PatternMatches(prefix: string, own: Bytes, k: Owned)
    ensures HeartbeatPrefix(prefix, own) + ":" <= KeyOf(prefix, k) <==> k.Heartbeat? && k.isolation == own
    ensures k.Heartbeat? && k.isolation == own ==>
              DecodeComponent(KeyOf(prefix, k)[|HeartbeatPrefix(prefix, own) + ":"|..]) == Some(k.node)
  {
    match k
    case Heartbeat(isolation, node) =>
      OwnPrefixOnly(prefix, own, isolation, node);
      ComponentRoundTrip(node);
    case Mutex(text) => OtherKeysDiffer(prefix, own, text, []);
    case Random(num) => OtherKeysDiffer(prefix, own, num, []);
    case Leader(group) => OtherKeysDiffer(prefix, own, "", group);
  }

  /** A key that the pattern of the group matches is one of the atomic's own. */
  ghost predicate OwnedIfMatched(prefix: string, own: Bytes, key: string) {
    HeartbeatPrefix(prefix, own) + ":" <= key ==> exists k :: key == KeyOf(prefix, k)
  }

  /** A matched key is the heartbeat key of the node that is decoded from it. */
  lemma MatchedIsHeartbeat(prefix: string, own: Bytes, key: string)
    requires OwnedIfMatched(prefix, own, key) && HeartbeatPrefix(prefix, own) + ":" <= key
    ensures var node := DecodeComponent(key[|HeartbeatPrefix(prefix, own) + ":"|..]);
            node.Some? && key == HeartbeatKey(prefix, own, node.value)
  {
    var k :| key == KeyOf(prefix, k);
    PatternMatches(prefix, own, k);
  }

  /** The nodes whose heartbeat keys are among the given ones. */
  ghost predicate Found(prefix: string, own: Bytes, nodes: seq<Bytes>, keys: seq<string>) {
    forall n :: n in nodes <==> HeartbeatKey(prefix, own, n) in keys
  }

  lemma FoundMore(prefix: string, own: Bytes, nodes: seq<Bytes>, keys: seq<string>, node: Bytes)
    requires Found(prefix, own, nodes, keys)
    ensures var key := HeartbeatKey(prefix, own, node);
            && Found(prefix, own, nodes + [node], keys + [key])
            && (Distinct(nodes) && key !in keys ==> Distinct(nodes + [node]))
  {
    hide HeartbeatKey;
    var key := HeartbeatKey(prefix, own, node);
    forall n
      ensures n in nodes + [node] <==> HeartbeatKey(prefix, own, n) in keys + [key]
    {
      if HeartbeatKey(prefix, own, n) == key {
        HeartbeatKeyInjective(prefix, own, n, own, node);
      }
    }
  }

  lemma FoundNoMore(prefix: string, own: Bytes, nodes: seq<Bytes>, keys: seq<string>, key: string)
    requires Found(prefix, own, nodes, keys) && !(HeartbeatPrefix(prefix, own) + ":" <= key)
    ensures Found(prefix, own, nodes, keys + [key])
  {
    hide HeartbeatKey, HeartbeatPrefix;
    forall n
      ensures n in nodes <==> HeartbeatKey(prefix, own, n) in keys + [key]
    {
      OwnPrefixOnly(prefix, own, own, n);
    }
  }

  lemma SortKeepsFound(prefix: string, own: Bytes, nodes: seq<Bytes>, keys: seq<string>)
    requires Found(prefix, own, nodes, keys)
    ensures Found(prefix, own, Sort(Less, nodes), keys)
  {
    hide HeartbeatKey;
    NodesAreOrdered();
    forall n
      ensures n in Sort(Less, nodes) <==> n in nodes
    {
      SortKeepsItems(Less, nodes, n);
    }
  }

  lemma OrderedPair(nodes: seq<Bytes>, i: nat, j: nat)
    requires InOrder(Less, nodes) && i < j < |nodes|
    ensures nodes[i] == nodes[j] || Earlier(nodes[i], nodes[j])
  {
    NodesAreOrdered();
    LessIsEarlier(nodes[i], nodes[j]);
    assert !Less(nodes[j], nodes[i]);
  }

  lemma LessIsIrreflexive(nodes: seq<Bytes>, i: nat, j: nat)
    requires Ascending(Less, nodes) && i < j < |nodes|
    ensures nodes[i] != nodes[j]
  {
    NodesAreOrdered();
    assert Less(nodes[i], nodes[j]);
  }

  /**
    Scans the live keys, in any order and possibly some of them twice, among keys of any
    other kind: the answer is, in order, exactly the nodes with a live heartbeat in the
    own group, each of them once if the scan names each key once.
  */
  method AliveNodes(prefix: string, isolation: Bytes, scan: seq<string>) returns (nodes: seq<Bytes>)
    requires forall i :: 0 <= i < |scan| ==> OwnedIfMatched(prefix, isolation, scan[i])
    ensures forall i, j :: 0 <= i < j < |nodes| ==> nodes[i] == nodes[j] || Earlier(nodes[i], nodes[j])
    ensures forall n :: n in nodes <==> HeartbeatKey(prefix, isolation, n) in scan
    ensures Distinct(scan) ==> Distinct(nodes)
  {
    hide HeartbeatKey, HeartbeatPrefix, DecodeComponent, OwnedIfMatched;
    var found: seq<Bytes> := [];
    var start := HeartbeatPrefix(prefix, isolation) + ":";
    for i := 0 to |scan|
      invariant Found(prefix, isolation, found, scan[..i])
      invariant Distinct(scan) ==> Distinct(found)
    {
      var key := scan[i];
      assert scan[..i + 1] == scan[..i] + [key];
      if start <= key {
        MatchedIsHeartbeat(prefix, isolation, key);
        var node := DecodeComponent(key[|start|..]).value;
        FoundMore(prefix, isolation, found, scan[..i], node);
        found := found + [node];
      } else {
        FoundNoMore(prefix, isolation, found, scan[..i], key);
      }
    }
    assert scan[..|scan|] == scan;
    nodes := Sort(Less, found);
    NodesAreOrdered();
    SortSorts(Less, found);
    SortKeepsFound(prefix, isolation, found, scan);
    if Distinct(scan) {
      SortedDistinct(Less, found);
    }
    forall i, j | 0 <= i < j < |nodes|
      ensures nodes[i] == nodes[j] || Earlier(nodes[i], nodes[j])
      ensures Distinct(scan) ==> nodes[i] != nodes[j]
    {
      OrderedPair(nodes, i, j);
      if Distinct(scan) {
        LessIsIrreflexive(nodes, i, j);
      }
    }
  }
}
