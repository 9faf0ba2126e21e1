/** Orders, and the sort that the feed and the list of live nodes have in common. */
module Sorting {

  // ---------- Orders ----------

  ghost predicate StrictTotalOrder<T(!new)>(less: (T, T) -> bool) {
    && (forall a :: !less(a, a))
    && (forall a, b, c :: less(a, b) && less(b, c) ==> less(a, c))
    && (forall a, b :: a != b ==> less(a, b) || less(b, a))
  }

  /** An order in which different items may rank the same. */
  ghost predicate StrictWeakOrder<T(!new)>(before: (T, T) -> bool) {
    && (forall a, b :: before(a, b) ==> !before(b, a))
    && (forall a, b, c :: !before(b, a) && !before(c, b) ==> !before(c, a))
  }

  lemma TotalIsWeak<T(!new)>(less: (T, T) -> bool)
    requires StrictTotalOrder(less)
    ensures StrictWeakOrder(less)
  {
    forall a, b, c | !less(b, a) && !less(c, b)
      ensures !less(c, a)
    {
      assert b == c || less(b, c);
    }
  }

  lemma NotBefore<T(!new)>(before: (T, T) -> bool, x: T, first: T, y: T)
    requires StrictWeakOrder(before) && before(x, first) && (y == first || !before(y, first))
    ensures !before(y, x)
  {
    assert !before(first, x);
  }

  /** Sequences in dictionary order. */
  predicate Lexicographic<T(==)>(less: (T, T) -> bool, a: seq<T>, b: seq<T>) {
    b != [] && (a == [] || less(a[0], b[0]) || (a[0] == b[0] && Lexicographic(less, a[1..], b[1..])))
  }

  lemma {:induction false} Irreflexive<T(!new)>(less: (T, T) -> bool, a: seq<T>)
    requires StrictTotalOrder(less)
    ensures !Lexicographic(less, a, a)
  {
    if a != [] {
      Irreflexive(less, a[1..]);
    }
  }

  lemma {:induction false} Transitive<T(!new)>(less: (T, T) -> bool, a: seq<T>, b: seq<T>, c: seq<T>)
    requires StrictTotalOrder(less) && Lexicographic(less, a, b) && Lexicographic(less, b, c)
    ensures Lexicographic(less, a, c)
  {
    if a != [] && a[0] == b[0] == c[0] {
      Transitive(less, a[1..], b[1..], c[1..]);
    }
  }

  lemma {:induction false} Total<T(!new)>(less: (T, T) -> bool, a: seq<T>, b: seq<T>)
    requires StrictTotalOrder(less) && a != b
    ensures Lexicographic(less, a, b) || Lexicographic(less, b, a)
  {
    if a != [] && b != [] && a[0] == b[0] {
      assert a == [a[0]] + a[1..] && b == [b[0]] + b[1..];
      Total(less, a[1..], b[1..]);
    }
  }

  lemma DictionaryIsTotal<T(!new)>(less: (T, T) -> bool, order: (seq<T>, seq<T>) -> bool)
    requires StrictTotalOrder(less)
    requires forall a, b :: order(a, b) <==> Lexicographic(less, a, b)
    ensures StrictTotalOrder(order)
  {
    forall a
      ensures !order(a, a)
    {
      Irreflexive(less, a);
    }
    forall a, b, c | order(a, b) && order(b, c)
      ensures order(a, c)
    {
      Transitive(less, a, b, c);
    }
    forall a, b | a != b
      ensures order(a, b) || order(b, a)
    {
      Total(less, a, b);
    }
  }

  // ---------- The sort ----------

  function Insert<T>(before: (T, T) -> bool, x: T, sorted: seq<T>): seq<T> {
    if sorted == [] || before(x, sorted[0]) then [x] + sorted
    else [sorted[0]] + Insert(before, x, sorted[1..])
  }

  function Sort<T>(before: (T, T) -> bool, items: seq<T>): seq<T> {
    if items == [] then [] else Insert(before, items[0], Sort(before, items[1..]))
  }

  ghost predicate InOrder<T>(before: (T, T) -> bool, items: seq<T>) {
    forall i, j :: 0 <= i < j < |items| ==> !before(items[j], items[i])
  }

  ghost predicate Ascending<T>(before: (T, T) -> bool, items: seq<T>) {
    forall i, j :: 0 <= i < j < |items| ==> before(items[i], items[j])
  }

  ghost predicate Distinct<T>(items: seq<T>) {
    forall i, j :: 0 <= i < j < |items| ==> items[i] != items[j]
  }

  lemma InOrderTail<T>(before: (T, T) -> bool, s: seq<T>)
    requires s != [] && InOrder(before, s)
    ensures InOrder(before, s[1..])
  {
    var t := s[1..];
    forall i, j | 0 <= i < j < |t|
      ensures !before(t[j], t[i])
    {
      assert t[i] == s[i + 1] && t[j] == s[j + 1];
    }
  }

  lemma {:induction false} InsertKeepsItems<T>(before: (T, T) -> bool, x: T, s: seq<T>)
    ensures multiset(Insert(before, x, s)) == multiset(s) + multiset{x}
    ensures forall y :: y in Insert(before, x, s) ==> y == x || y in s
  {
    if s != [] && !before(x, s[0]) {
      InsertKeepsItems(before, x, s[1..]);
      assert s == [s[0]] + s[1..];
    }
  }

  lemma {:induction false} InsertKeepsOrder<T(!new)>(before: (T, T) -> bool, x: T, s: seq<T>)
    requires StrictWeakOrder(before) && InOrder(before, s)
    ensures InOrder(before, Insert(before, x, s))
  {
    hide StrictWeakOrder;
    if s == [] {
    } else if before(x, s[0]) {
      forall j | 0 <= j < |s|
        ensures !before(s[j], x)
      {
        NotBefore(before, x, s[0], s[j]);
      }
    } else {
      InOrderTail(before, s);
      InsertKeepsOrder(before, x, s[1..]);
      InsertKeepsItems(before, x, s[1..]);
      var t := Insert(before, x, s[1..]);
      forall j | 0 <= j < |t|
        ensures !before(t[j], s[0])
      {
        assert t[j] == x || t[j] in s[1..];
      }
    }
  }

  lemma {:induction false} SortSorts<T(!new)>(before: (T, T) -> bool, items: seq<T>)
    requires StrictWeakOrder(before)
    ensures InOrder(before, Sort(before, items)) && multiset(Sort(before, items)) == multiset(items)
  {
    if items != [] {
      SortSorts(before, items[1..]);
      InsertKeepsOrder(before, items[0], Sort(before, items[1..]));
      InsertKeepsItems(before, items[0], Sort(before, items[1..]));
      assert items == [items[0]] + items[1..];
    }
  }

  lemma SortKeepsItems<T(!new)>(before: (T, T) -> bool, items: seq<T>, x: T)
    requires StrictWeakOrder(before)
    ensures x in Sort(before, items) <==> x in items
  {
    SortSorts(before, items);
    assert x in Sort(before, items) <==> x in multiset(Sort(before, items));
    assert x in items <==> x in multiset(items);
  }

  /** Distinct items, of which no two rank the same, are sorted into ascending order. */
  lemma SortedDistinct<T(!new)>(before: (T, T) -> bool, items: seq<T>)
    requires StrictWeakOrder(before) && Distinct(items)
    requires forall x, y :: x in items && y in items && x != y ==> before(x, y) || before(y, x)
    ensures Ascending(before, Sort(before, items))
  {
    var sorted := Sort(before, items);
    SortSorts(before, items);
    forall i, j | 0 <= i < j < |sorted|
      ensures before(sorted[i], sorted[j])
    {
      SortKeepsItems(before, items, sorted[i]);
      SortKeepsItems(before, items, sorted[j]);
      if sorted[i] == sorted[j] {
        OnlyOnce(items, sorted[i]);
        Twice(sorted, i, j);
      }
    }
  }

  lemma Twice<T>(items: seq<T>, i: nat, j: nat)
    requires i < j < |items| && items[i] == items[j]
    ensures multiset(items)[items[i]] >= 2
  {
    assert items == items[..j] + items[j..];
    assert items[i] in items[..j] && items[j] in items[j..];
  }

  lemma {:induction false} OnlyOnce<T>(items: seq<T>, x: T)
    requires Distinct(items)
    ensures multiset(items)[x] <= 1
  {
    if items != [] {
      assert items == [items[0]] + items[1..];
      OnlyOnce(items[1..], x);
      if items[0] == x {
        assert x !in items[1..];
      }
    }
  }
}
