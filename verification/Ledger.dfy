/** A map beside a duplicate-free list of its keys, with a total over the values. */
module Ledger {
  import opened Recency

  ghost predicate Covers<K(!new), V>(entries: map<K, V>, order: seq<K>) {
    Distinct(order) && forall key :: key in order <==> key in entries
  }

  ghost function Total<K, V>(size: V -> nat, entries: map<K, V>, order: seq<K>): nat
    requires forall key | key in order :: key in entries
  {
    if order == [] then 0 else size(entries[order[0]]) + Total(size, entries, order[1..])
  }

  lemma SameSize<K(!new), V>(entries: map<K, V>, order: seq<K>)
    requires Covers(entries, order)
    ensures |entries| == |order|
  {
    DistinctSize(order, entries.Keys);
  }

  lemma {:induction false} DistinctSize<K(!new)>(order: seq<K>, keys: set<K>)
    requires Distinct(order) && forall key :: key in order <==> key in keys
    ensures |keys| == |order|
  {
    if order == [] {
      assert keys == {};
    } else {
      var rest := order[1..];
      assert order == [order[0]] + rest;
      DistinctSize(rest, keys - {order[0]});
    }
  }

  lemma {:induction false} TotalSame<K, V>(size: V -> nat, a: map<K, V>, b: map<K, V>, order: seq<K>)
    requires forall key | key in order :: key in a && key in b && size(a[key]) == size(b[key])
    ensures Total(size, a, order) == Total(size, b, order)
  {
    if order != [] {
      TotalSame(size, a, b, order[1..]);
    }
  }

  lemma {:induction false} TotalConcat<K, V>(size: V -> nat, entries: map<K, V>, a: seq<K>, b: seq<K>)
    requires forall key | key in a + b :: key in entries
    ensures (forall key | key in a :: key in entries) && (forall key | key in b :: key in entries)
    ensures Total(size, entries, a + b) == Total(size, entries, a) + Total(size, entries, b)
  {
    assert forall key | key in b :: key in a + b;
    assert forall key | key in a :: key in a + b;
    if a == [] {
      assert a + b == b;
    } else {
      assert (a + b)[1..] == a[1..] + b;
      assert forall key | key in a[1..] + b :: key in a + b;
      TotalConcat(size, entries, a[1..], b);
    }
  }

  lemma {:induction false} TotalWithout<K, V>(size: V -> nat, entries: map<K, V>, order: seq<K>, key: K)
    requires key in order && forall k | k in order :: k in entries
    ensures forall k | k in Without(order, key) :: k in entries
    ensures Total(size, entries, Without(order, key)) + size(entries[key]) == Total(size, entries, order)
  {
    if order[0] != key {
      TotalWithout(size, entries, order[1..], key);
      assert Without(order, key)[1..] == Without(order[1..], key);
    }
  }
}
