/** Stable sorting: the order in which the library's stable sort visits the positions of a key list. */
module StableSort {
  import opened Wrappers

  /** A sort key; a missing one sorts last. */
  type Key = Option<nat>

  predicate Below(a: Key, b: Key) {
    a.Some? && (b.None? || a.value < b.value)
  }

  /** Position `i` comes before position `j`: by key, and by position among equal keys. */
  predicate Precedes(keys: seq<Key>, i: nat, j: nat)
    requires i < |keys| && j < |keys|
  {
    Below(keys[i], keys[j]) || (keys[i] == keys[j] && i < j)
  }

  lemma PrecedesIsStrictOrder(keys: seq<Key>, i: nat, j: nat, k: nat)
    requires i < |keys| && j < |keys| && k < |keys|
    ensures !Precedes(keys, i, i)
    ensures Precedes(keys, i, j) && Precedes(keys, j, k) ==> Precedes(keys, i, k)
    ensures Precedes(keys, i, j) || i == j || Precedes(keys, j, i)
  {
  }

  /** `order` lists the positions below `n`, each once. */
  ghost predicate Lists(order: seq<nat>, n: nat) {
    |order| == n && multiset(order) == multiset(Positions(n))
  }

  function Positions(n: nat): (r: seq<nat>)
    ensures |r| == n
  {
    seq(n, i requires 0 <= i < n => i)
  }

  /** Every earlier entry precedes every later one. */
  ghost predicate InOrder(keys: seq<Key>, order: seq<nat>) {
    && (forall i :: 0 <= i < |order| ==> order[i] < |keys|)
    && (forall i, j :: 0 <= i < j < |order| ==> Precedes(keys, order[i], order[j]))
  }

  /** `order` is the stable sort of `keys`. */
  ghost predicate SortsStably(keys: seq<Key>, order: seq<nat>) {
    Lists(order, |keys|) && InOrder(keys, order)
  }

  /** Puts `k`, a position behind all of `order`, after those whose key is no larger. */
  function InsertPosition(keys: seq<Key>, order: seq<nat>, k: nat): (r: seq<nat>)
    requires k < |keys| && forall i :: 0 <= i < |order| ==> order[i] < |keys|
    ensures |r| == |order| + 1
    ensures forall i :: 0 <= i < |r| ==> r[i] == k || r[i] in order
  {
    if order == [] || Below(keys[k], keys[order[0]]) then [k] + order
    else [order[0]] + InsertPosition(keys, order[1..], k)
  }

  function StableOrder(keys: seq<Key>, n: nat): (order: seq<nat>)
    requires n <= |keys|
    ensures |order| == n && forall i :: 0 <= i < n ==> order[i] < n
  {
    if n == 0 then [] else InsertPosition(keys, StableOrder(keys, n - 1), n - 1)
  }

  lemma {:induction false} InsertPositionAdds(keys: seq<Key>, order: seq<nat>, k: nat)
    requires k < |keys| && forall i :: 0 <= i < |order| ==> order[i] < |keys|
    ensures multiset(InsertPosition(keys, order, k)) == multiset(order) + multiset{k}
  {
    if order != [] {
      assert order == [order[0]] + order[1..];
      if !Below(keys[k], keys[order[0]]) {
        InsertPositionAdds(keys, order[1..], k);
      }
    }
  }

  lemma {:induction false} InsertPositionInOrder(keys: seq<Key>, order: seq<nat>, k: nat)
    requires InOrder(keys, order) && k < |keys| && forall i :: 0 <= i < |order| ==> order[i] < k
    ensures InOrder(keys, InsertPosition(keys, order, k))
  {
    hide Precedes, Below;
    if order != [] {
      if Below(keys[k], keys[order[0]]) {
        BelowPrecedes(keys, k, order[0]);
        forall j | 0 <= j < |order| ensures Precedes(keys, k, order[j]) {
          PrecedesIsStrictOrder(keys, k, order[0], order[j]);
        }
      } else {
        InsertPositionInOrder(keys, order[1..], k);
        NotBelowPrecedes(keys, order[0], k);
      }
    }
  }

  lemma BelowPrecedes(keys: seq<Key>, i: nat, j: nat)
    requires i < |keys| && j < |keys| && Below(keys[i], keys[j])
    ensures Precedes(keys, i, j)
  {
  }

  lemma NotBelowPrecedes(keys: seq<Key>, i: nat, j: nat)
    requires i < j < |keys| && !Below(keys[j], keys[i])
    ensures Precedes(keys, i, j)
  {
  }

  lemma {:induction false} StableOrderAscends(keys: seq<Key>, n: nat)
    requires n <= |keys|
    ensures InOrder(keys, StableOrder(keys, n))
  {
    hide Precedes, InsertPosition, InOrder;
    if n > 0 {
      StableOrderAscends(keys, n - 1);
      InsertPositionInOrder(keys, StableOrder(keys, n - 1), n - 1);
    } else {
      NothingInOrder(keys);
    }
  }

  lemma {:induction false} StableOrderLists(keys: seq<Key>, n: nat)
    requires n <= |keys|
    ensures Lists(StableOrder(keys, n), n)
  {
    hide InsertPosition, Positions;
    if n > 0 {
      StableOrderLists(keys, n - 1);
      InsertPositionAdds(keys, StableOrder(keys, n - 1), n - 1);
      OneMorePosition(n - 1);
    }
  }

  lemma OneMorePosition(n: nat)
    ensures multiset(Positions(n + 1)) == multiset(Positions(n)) + multiset{n}
  {
    assert Positions(n + 1) == Positions(n) + [n];
  }

  lemma NothingInOrder(keys: seq<Key>)
    ensures InOrder(keys, [])
  {
  }

  /** Sorting lists every position once, by key, keeping the order of equal keys. */
  lemma StableOrderSorts(keys: seq<Key>)
    ensures SortsStably(keys, StableOrder(keys, |keys|))
  {
    StableOrderAscends(keys, |keys|);
    StableOrderLists(keys, |keys|);
  }

  /** There is only one such order. */
  lemma StableOrderIsUnique(keys: seq<Key>, a: seq<nat>, b: seq<nat>)
    requires SortsStably(keys, a) && SortsStably(keys, b)
    ensures a == b
  {
    SameListing(keys, a, b);
  }

  lemma {:induction false} SameListing(keys: seq<Key>, a: seq<nat>, b: seq<nat>)
    requires InOrder(keys, a) && InOrder(keys, b) && multiset(a) == multiset(b)
    ensures a == b
  {
    hide Precedes;
    SameLength(a, b);
    if a != [] {
      SameFirst(keys, a, b);
      Head(a);
      Head(b);
      SameListing(keys, a[1..], b[1..]);
      assert a == [a[0]] + a[1..];
      assert b == [b[0]] + b[1..];
    }
  }

  lemma SameFirst(keys: seq<Key>, a: seq<nat>, b: seq<nat>)
    requires InOrder(keys, a) && InOrder(keys, b) && multiset(a) == multiset(b) && a != [] && b != []
    ensures a[0] == b[0]
  {
    hide Precedes;
    assert a[0] in multiset(b) && b[0] in multiset(a) by {
      assert a[0] in multiset(a) && b[0] in multiset(b);
    }
    var i :| 0 <= i < |b| && b[i] == a[0];
    var j :| 0 <= j < |a| && a[j] == b[0];
    PrecedesIsStrictOrder(keys, a[0], b[0], a[0]);
  }

  lemma Head<T>(a: seq<T>)
    requires a != []
    ensures multiset(a[1..]) == multiset(a) - multiset{a[0]}
  {
    assert a == [a[0]] + a[1..];
  }

  lemma SameLength(a: seq<nat>, b: seq<nat>)
    requires multiset(a) == multiset(b)
    ensures |a| == |b|
  {
    assert |multiset(a)| == |a|;
  }

  /** Keys that never decrease are in order already. */
  lemma AlreadySorted(keys: seq<Key>)
    requires forall i, j :: 0 <= i < j < |keys| ==> !Below(keys[j], keys[i])
    ensures StableOrder(keys, |keys|) == Positions(|keys|)
  {
    StableOrderSorts(keys);
    var id := Positions(|keys|);
    forall i, j | 0 <= i < j < |id| ensures Precedes(keys, id[i], id[j]) {
      NotBelowPrecedes(keys, i, j);
    }
    StableOrderIsUnique(keys, StableOrder(keys, |keys|), id);
  }

  // ---------------------------------------------------------------------------
  // Taking the elements of a list in a given order
  // ---------------------------------------------------------------------------

  function Taken<T>(s: seq<T>, order: seq<nat>): (r: seq<T>)
    requires forall i :: 0 <= i < |order| ==> order[i] < |s|
    ensures |r| == |order|
    ensures forall i :: 0 <= i < |r| ==> r[i] == s[order[i]]
  {
    seq(|order|, i requires 0 <= i < |order| => s[order[i]])
  }

  lemma ListsInRange(order: seq<nat>, n: nat)
    requires Lists(order, n)
    ensures forall i :: 0 <= i < |order| ==> order[i] < n
  {
    forall i | 0 <= i < |order| ensures order[i] < n {
      assert order[i] in multiset(Positions(n));
      assert order[i] in Positions(n);
    }
  }

  ghost predicate InRange(order: seq<nat>, n: nat) {
    forall i :: 0 <= i < |order| ==> order[i] < n
  }

  /** `order` without its entry at `j`. */
  function Dropped(order: seq<nat>, j: nat): seq<nat>
    requires j < |order|
  {
    order[..j] + order[j + 1..]
  }

  /** Orders with the same entries take the same elements. */
  lemma {:induction false} SameEntriesSameElements<T>(s: seq<T>, a: seq<nat>, b: seq<nat>)
    requires InRange(a, |s|) && InRange(b, |s|) && multiset(a) == multiset(b)
    ensures multiset(Taken(s, a)) == multiset(Taken(s, b))
    decreases |a|
  {
    hide Taken, InRange, Dropped;
    if a == [] {
      SameLength(a, b);
      assert a == b;
    } else {
      var j := WhereIs(a[0], a, b);
      DroppedInRange(a, 0, |s|);
      DroppedInRange(b, j, |s|);
      SameWithoutFirst(a, b, j);
      SameEntriesSameElements(s, Dropped(a, 0), Dropped(b, j));
      OneBack(s, a, b, j);
    }
  }

  lemma DroppedInRange(order: seq<nat>, j: nat, n: nat)
    requires j < |order| && InRange(order, n)
    ensures InRange(Dropped(order, j), n) && |Dropped(order, j)| < |order|
  {
  }

  lemma OneBack<T>(s: seq<T>, a: seq<nat>, b: seq<nat>, j: nat)
    requires InRange(a, |s|) && InRange(b, |s|) && a != [] && j < |b| && b[j] == a[0]
    requires InRange(Dropped(a, 0), |s|) && InRange(Dropped(b, j), |s|)
    requires multiset(Taken(s, Dropped(a, 0))) == multiset(Taken(s, Dropped(b, j)))
    ensures multiset(Taken(s, a)) == multiset(Taken(s, b))
  {
    hide Taken;
    TakenRest(s, a, 0);
    TakenRest(s, b, j);
    BothWith(multiset(Taken(s, a)), multiset(Taken(s, b)), s[a[0]]);
  }

  lemma WhereIs(x: nat, a: seq<nat>, b: seq<nat>) returns (j: nat)
    requires x in a && multiset(a) == multiset(b)
    ensures j < |b| && b[j] == x
  {
    assert x in multiset(b);
    j :| 0 <= j < |b| && b[j] == x;
  }

  lemma SameWithoutFirst(a: seq<nat>, b: seq<nat>, j: nat)
    requires a != [] && j < |b| && b[j] == a[0] && multiset(a) == multiset(b)
    ensures multiset(Dropped(a, 0)) == multiset(Dropped(b, j))
  {
    Without(a, 0);
    Without(b, j);
  }

  /** Leaving out one entry leaves out its element. */
  lemma TakenRest<T>(s: seq<T>, b: seq<nat>, j: nat)
    requires j < |b| && forall i :: 0 <= i < |b| ==> b[i] < |s|
    ensures s[b[j]] in multiset(Taken(s, b))
    ensures multiset(Taken(s, b[..j] + b[j + 1..])) == multiset(Taken(s, b)) - multiset{s[b[j]]}
  {
    Without(Taken(s, b), j);
    assert Taken(s, b)[..j] + Taken(s, b)[j + 1..] == Taken(s, b[..j] + b[j + 1..]);
    assert Taken(s, b)[j] in multiset(Taken(s, b));
  }

  lemma BothWith<T>(m: multiset<T>, n: multiset<T>, x: T)
    requires x in m && x in n && m - multiset{x} == n - multiset{x}
    ensures m == n
  {
    assert m == (m - multiset{x}) + multiset{x};
    assert n == (n - multiset{x}) + multiset{x};
  }

  lemma Without<T>(b: seq<T>, j: nat)
    requires j < |b|
    ensures multiset(b[..j] + b[j + 1..]) == multiset(b) - multiset{b[j]}
  {
    assert b == b[..j] + [b[j]] + b[j + 1..];
  }

  /** Taking every position once permutes the list. */
  lemma TakenPermutes<T>(s: seq<T>, order: seq<nat>)
    requires Lists(order, |s|)
    requires forall i :: 0 <= i < |order| ==> order[i] < |s|
    ensures multiset(Taken(s, order)) == multiset(s)
  {
    SameEntriesSameElements(s, order, Positions(|s|));
    assert Taken(s, Positions(|s|)) == s;
  }
}
