/** The multi-entry prefix cache, in memory: longest strict prefix, expiry by age, least recently
    used out first. A key stands for its token sequence: hash collisions are not modelled. */
module PrefixCaches {
  import opened Ledger
  import opened Recency
  import opened Wrappers

  type Key = seq<int>

  datatype Entry<S> = Entry(state: S, size: nat, storedAt: int, usedAt: int)

  type Table<S> = map<Key, Entry<S>>

  ghost function Sum<S>(entries: Table<S>, order: seq<Key>): nat
    requires forall key | key in order :: key in entries
  {
    Total((e: Entry<S>) => e.size, entries, order)
  }

  // ---------- filtering ----------

  /** The members of `order` that are keys of `alive`, in order. */
  ghost function Keep<V>(order: seq<Key>, alive: map<Key, V>): seq<Key> {
    if order == [] then []
    else (if order[0] in alive then [order[0]] else []) + Keep(order[1..], alive)
  }

  lemma {:induction false} KeepMembers<V>(order: seq<Key>, alive: map<Key, V>)
    requires Distinct(order)
    ensures Distinct(Keep(order, alive))
    ensures forall key :: key in Keep(order, alive) <==> key in order && key in alive
  {
    if order != [] {
      assert order == [order[0]] + order[1..];
      KeepMembers(order[1..], alive);
      ConsDistinct(order[0], Keep(order[1..], alive));
    }
  }

  lemma {:induction false} KeepWithout<V>(order: seq<Key>, alive: map<Key, V>, key: Key)
    requires key !in alive
    ensures Keep(Without(order, key), alive) == Keep(order, alive)
  {
    if order != [] && order[0] != key {
      KeepWithout(order[1..], alive, key);
      assert Without(order, key)[1..] == Without(order[1..], key);
    }
  }

  lemma {:induction false} KeepAll<V>(order: seq<Key>, alive: map<Key, V>)
    requires forall key | key in order :: key in alive
    ensures Keep(order, alive) == order
  {
    if order != [] {
      KeepAll(order[1..], alive);
      assert order == [order[0]] + order[1..];
    }
  }

  // ---------- age ----------

  predicate Fresh<S>(entry: Entry<S>, ttl: int, now: int) {
    ttl <= 0 || now - entry.storedAt <= ttl
  }

  ghost function Alive<S>(entries: Table<S>, ttl: int, now: int): Table<S> {
    map key | key in entries && Fresh(entries[key], ttl, now) :: entries[key]
  }

  // ---------- prefixes ----------

  /** A stored sequence that a request may reuse: not empty, and strictly shorter. */
  ghost predicate Reusable<V>(entries: map<Key, V>, tokens: Key, n: nat) {
    0 < n < |tokens| && tokens[..n] in entries
  }

  /** The length of the longest one, 0 when there is none. */
  ghost predicate IsLongest<V>(entries: map<Key, V>, tokens: Key, n: nat) {
    && (n == 0 || Reusable(entries, tokens, n))
    && forall m | n < m :: !Reusable(entries, tokens, m)
  }

  lemma LongestUnique<V>(entries: map<Key, V>, tokens: Key, a: nat, b: nat)
    requires IsLongest(entries, tokens, a) && IsLongest(entries, tokens, b)
    ensures a == b
  {
    assert !(a < b && Reusable(entries, tokens, b)) && !(b < a && Reusable(entries, tokens, a));
  }

  /** Every longer end of the order is over a limit. */
  ghost predicate WithinLimits<S>(maxEntries: int, maxBytes: int, entries: Table<S>, order: seq<Key>)
    requires forall key | key in order :: key in entries
  {
    (maxEntries > 0 ==> |order| <= maxEntries) && (maxBytes > 0 ==> Sum(entries, order) <= maxBytes)
  }

  ghost predicate LastWithin<S>(maxEntries: int, maxBytes: int, entries: Table<S>, order: seq<Key>, n: nat)
    requires (forall key | key in order :: key in entries) && n <= |order|
  {
    WithinLimits(maxEntries, maxBytes, entries, order[|order| - n..])
  }

  ghost predicate TooMuch<S>(maxEntries: int, maxBytes: int, entries: Table<S>, order: seq<Key>, kept: nat)
    requires forall key | key in order :: key in entries
  {
    forall n | kept < n <= |order| :: !LastWithin(maxEntries, maxBytes, entries, order, n)
  }

  /** The recent end of the order, unchanged, with nothing dropped that the limits allow. */
  ghost predicate Trimmed<S>(
      maxEntries: int, maxBytes: int, entries: Table<S>, order: seq<Key>, left: Table<S>, kept: seq<Key>)
  {
    && (forall key | key in order :: key in entries)
    && IsSuffix(kept, order)
    && (forall key | key in kept :: key in entries && key in left && left[key] == entries[key])
    && TooMuch(maxEntries, maxBytes, entries, order, |kept|)
  }

  /** Exactly as many of the most recent entries as the limits allow. */
  ghost predicate Evicted<S>(
      maxEntries: int, maxBytes: int, entries: Table<S>, order: seq<Key>, left: Table<S>, kept: seq<Key>)
  {
    Trimmed(maxEntries, maxBytes, entries, order, left, kept) && WithinLimits(maxEntries, maxBytes, left, kept)
  }

  class CacheManager<S(!new)> {
    const maxEntries: int
    const maxBytes: int
    const ttl: int
    /** What is kept of a state: a copy, perhaps without its raw rows. */
    const pack: S -> S
    const size: S -> nat
    var entries: Table<S>
    var order: seq<Key>
    var bytes: int
    /** The state and time last stored for each key. */
    ghost var stored: map<Key, (S, int)>

    constructor (maxEntries: int, maxBytes: int, ttl: int, pack: S -> S, size: S -> nat)
      ensures Valid() && entries == map[] && stored == map[]
      ensures this.maxEntries == maxEntries && this.maxBytes == maxBytes && this.ttl == ttl
      ensures this.pack == pack && this.size == size
    {
      this.maxEntries, this.maxBytes, this.ttl, this.pack, this.size := maxEntries, maxBytes, ttl, pack, size;
      entries, order, bytes, stored := map[], [], 0, map[];
    }

    ghost predicate Balanced()
      reads this
    {
      Covers(entries, order) && bytes == Sum(entries, order)
    }

    /** Every entry holds what was last stored for its key. */
    ghost predicate Faithful()
      reads this
    {
      forall key | key in entries ::
        && key in stored
        && entries[key].state == pack(stored[key].0) && entries[key].storedAt == stored[key].1
        && entries[key].size == size(entries[key].state)
    }

    ghost predicate Valid()
      reads this
    {
      Balanced() && Faithful() && WithinLimits(maxEntries, maxBytes, entries, order)
    }

    method RemoveEntryLocked(key: Key)
      requires Balanced() && key in entries
      modifies this`entries, this`bytes, this`order
      ensures Balanced() && entries == old(entries) - {key} && order == Without(old(order), key)
    {
      TotalWithout((e: Entry<S>) => e.size, entries, order, key);
      WithoutKeeps(order, key);
      bytes := bytes - entries[key].size;
      entries := entries - {key};
      order := RemoveFirst(order, key);
      TotalSame((e: Entry<S>) => e.size, old(entries), entries, order);
    }

    method EvictOldestLocked()
      requires Balanced() && order != []
      modifies this`entries, this`bytes, this`order
      ensures Balanced() && order == old(order)[1..] && entries == old(entries) - {old(order)[0]}
    {
      RemoveEntryLocked(order[0]);
    }

    /** The keys whose time is up, found in whatever order the map is walked. */
    method ExpiredKeys(now: int) returns (expired: seq<Key>)
      requires ttl > 0
      ensures forall key :: key in expired <==> key in entries && now - entries[key].storedAt > ttl
    {
      expired := [];
      var keys := entries.Keys;
      while keys != {}
        invariant keys <= entries.Keys
        invariant forall key ::
                    key in expired <==> key in entries && key !in keys && now - entries[key].storedAt > ttl
        decreases |keys|
      {
        var key :| key in keys;
        if now - entries[key].storedAt > ttl {
          expired := expired + [key];
        }
        keys := keys - {key};
      }
    }

    method RemoveAll(expired: seq<Key>, ghost alive: Table<S>)
      requires Balanced() && forall key | key in expired :: key !in alive
      modifies this`entries, this`bytes, this`order
      ensures Balanced() && entries == old(entries) - (set key | key in expired)
      ensures Keep(order, alive) == Keep(old(order), alive)
    {
      hide Sum, Covers, Keep, Without;
      ghost var gone: set<Key> := {};
      for i := 0 to |expired|
        invariant gone == set key | key in expired[..i]
        invariant Balanced() && entries == old(entries) - gone
        invariant Keep(order, alive) == Keep(old(order), alive)
      {
        assert expired[..i + 1] == expired[..i] + [expired[i]];
        gone := gone + {expired[i]};
        if expired[i] in entries {
          KeepWithout(order, alive, expired[i]);
          RemoveEntryLocked(expired[i]);
        }
      }
      assert expired[..|expired|] == expired;
    }

    /** Removes every entry older than the time to live, and nothing else. */
    method ExpireLocked(now: int)
      requires Balanced()
      modifies this`entries, this`bytes, this`order
      ensures Balanced() && entries == Alive(old(entries), ttl, now) && order == Keep(old(order), entries)
    {
      hide Sum, Keep;
      if ttl <= 0 {
        assert Alive(entries, ttl, now) == entries;
        KeepAll(order, entries);
        return;
      }
      ghost var alive := Alive(entries, ttl, now);
      var expired := ExpiredKeys(now);
      RemoveAll(expired, alive);
      assert entries == alive;
      KeepAll(order, entries);
    }

    /** The longest stored strict prefix, found in whatever order the map is walked. */
    method Longest(tokens: Key) returns (best: Option<Key>)
      ensures best.None? ==> IsLongest(entries, tokens, 0)
      ensures best.Some? ==> |best.value| > 0 && best.value <= tokens && IsLongest(entries, tokens, |best.value|)
    {
      best := None;
      var bestLength := 0;
      var keys := entries.Keys;
      while keys != {}
        invariant keys <= entries.Keys
        invariant bestLength == if best.Some? then |best.value| else 0
        invariant best.Some? ==> best.value in entries && 0 < |best.value| < |tokens| && best.value <= tokens
        invariant forall m | bestLength < m :: Reusable(entries, tokens, m) ==> tokens[..m] in keys
        decreases |keys|
      {
        var key :| key in keys;
        keys := keys - {key};
        if !(|key| == 0 || |key| >= |tokens| || |key| <= bestLength) {
          var matched := Matches(key, tokens);
          if matched {
            best, bestLength := Some(key), |key|;
          }
        }
      }
      if best.Some? {
        assert tokens[..|best.value|] == best.value;
      }
    }

    /** Marks an entry used and moves it to the recent end. */
    method Use(key: Key, now: int)
      requires Valid() && key in entries
      modifies this`entries, this`order
      ensures Valid() && order == Touch(old(order), key)
      ensures entries == old(entries)[key := old(entries)[key].(usedAt := now)]
    {
      hide Sum, Covers, Without;
      UseKeepsLimits(maxEntries, maxBytes, entries, order, key, now);
      entries := entries[key := entries[key].(usedAt := now)];
      order := RemoveFirst(order, key);
      order := order + [key];
    }

    /** A lookup first expires what is too old, then returns the longest stored sequence the request
        strictly extends and a copy of its state, and makes that entry the most recently used. */
    method Lookup(tokens: Key, now: int) returns (hit: Option<(S, nat)>)
      requires Valid()
      modifies this`entries, this`bytes, this`order
      ensures Valid()
      ensures var alive := Alive(old(entries), ttl, now);
              match hit {
                case None => IsLongest(alive, tokens, 0) && entries == alive && order == Keep(old(order), alive)
                case Some((state, length)) =>
                  && length > 0 && IsLongest(alive, tokens, length)
                  && tokens[..length] in stored && state == pack(stored[tokens[..length]].0)
                  && entries == alive[tokens[..length] := alive[tokens[..length]].(usedAt := now)]
                  && order == Touch(Keep(old(order), alive), tokens[..length])
              }
      ensures hit.Some? && ttl > 0 ==> now - stored[tokens[..hit.value.1]].1 <= ttl
      ensures forall m: nat ::
                m < |tokens| && tokens[..m] in old(entries) && m > (if hit.Some? then hit.value.1 else 0) ==>
                  ttl > 0 && now - stored[tokens[..m]].1 > ttl
    {
      hide Sum, Keep, IsLongest, Covers, Without;
      ExpireLimits(maxEntries, maxBytes, entries, order, ttl, now);
      StillStored(entries, ttl, now, tokens);
      ExpireLocked(now);
      var best := Longest(tokens);
      if best.None? {
        return None;
      }
      var key := best.value;
      LongestStored(entries, tokens, key);
      hit := Some((entries[key].state, |key|));
      Use(key, now);
    }

    /** One turn of an eviction loop, entered only while a limit is broken. */
    method EvictOver(ghost all: Table<S>, ghost whole: seq<Key>)
      requires Balanced() && order != [] && Trimmed(maxEntries, maxBytes, all, whole, entries, order)
      requires !WithinLimits(maxEntries, maxBytes, entries, order)
      modifies this`entries, this`bytes, this`order
      ensures Balanced() && Trimmed(maxEntries, maxBytes, all, whole, entries, order) && order == old(order)[1..]
    {
      hide Sum, WithinLimits, TooMuch;
      LimitsSame(maxEntries, maxBytes, all, entries, order);
      OneMore(maxEntries, maxBytes, all, whole, order);
      EvictOldestLocked();
    }

    /** Drops from the old end until both limits hold. */
    method EvictLocked()
      requires Balanced()
      modifies this`entries, this`bytes, this`order
      ensures Balanced() && Evicted(maxEntries, maxBytes, old(entries), old(order), entries, order)
    {
      hide Sum, Trimmed;
      ghost var all, whole := entries, order;
      NothingTrimmed(maxEntries, maxBytes, entries, order);
      SameSize(entries, order);
      while maxEntries > 0 && |entries| > maxEntries && |order| > 0
        invariant Balanced() && |entries| == |order| && Trimmed(maxEntries, maxBytes, all, whole, entries, order)
        decreases |order|
      {
        EvictOver(all, whole);
        SameSize(entries, order);
      }
      while maxBytes > 0 && bytes > maxBytes && |order| > 0
        invariant Balanced() && Trimmed(maxEntries, maxBytes, all, whole, entries, order)
        invariant maxEntries > 0 ==> |order| <= maxEntries
        decreases |order|
      {
        EvictOver(all, whole);
      }
      EmptySum(entries, order);
    }

    /** A store replaces what the key held, puts it at the recent end, and then drops from the old end
        exactly as much as the limits require, the new entry itself included when it is too large. */
    method Store(tokens: Key, state: Option<S>, now: int)
      requires Valid()
      modifies this
      ensures Valid()
      ensures state.None? ==> entries == old(entries) && order == old(order) && stored == old(stored)
      ensures state.Some? ==>
                var kept := pack(state.value);
                && stored == old(stored)[tokens := (state.value, now)]
                && Evicted(maxEntries, maxBytes, old(entries)[tokens := Entry(kept, size(kept), now, now)],
                           Touch(old(order), tokens), entries, order)
    {
      hide Sum, Covers, WithinLimits, TooMuch, IsSuffix, Without;
      if state.None? {
        return;
      }
      Members(entries, order);
      if tokens in entries {
        RemoveEntryLocked(tokens);
      }
      var kept := pack(state.value);
      var entry := Entry(kept, size(kept), now, now);
      Appended(entries, order, tokens, entry);
      assert entries[tokens := entry] == old(entries)[tokens := entry];
      entries := entries[tokens := entry];
      order := order + [tokens];
      bytes := bytes + entry.size;
      stored := stored[tokens := (state.value, now)];
      EvictLocked();
      Members(entries, order);
    }

    method Invalidate()
      requires Valid()
      modifies this`entries, this`order, this`bytes
      ensures Valid() && entries == map[] && order == []
    {
      entries, order, bytes := map[], [], 0;
    }
  }

  method Matches(key: Key, tokens: Key) returns (matched: bool)
    requires |key| <= |tokens|
    ensures matched <==> key == tokens[..|key|]
  {
    for index := 0 to |key|
      invariant key[..index] == tokens[..index]
    {
      if key[index] != tokens[index] {
        assert tokens[..|key|][index] == tokens[index];
        return false;
      }
    }
    assert key[..|key|] == key;
    matched := true;
  }

  /** What a longest live prefix says about the longer ones: their time is up. */
  lemma StillStored<S(!new)>(entries: Table<S>, ttl: int, now: int, tokens: Key)
    ensures forall n: nat | IsLongest(Alive(entries, ttl, now), tokens, n) ::
              && (n > 0 && ttl > 0 ==> tokens[..n] in entries && now - entries[tokens[..n]].storedAt <= ttl)
              && forall m: nat | n < m < |tokens| && tokens[..m] in entries ::
                   ttl > 0 && now - entries[tokens[..m]].storedAt > ttl
  {
    var alive := Alive(entries, ttl, now);
    forall n: nat, m: nat | IsLongest(alive, tokens, n) && n < m < |tokens| && tokens[..m] in entries
      ensures ttl > 0 && now - entries[tokens[..m]].storedAt > ttl
    {
      assert !Reusable(alive, tokens, m);
    }
  }

  lemma LongestStored<V>(entries: map<Key, V>, tokens: Key, key: Key)
    requires |key| > 0 && key <= tokens && IsLongest(entries, tokens, |key|)
    ensures key in entries && tokens[..|key|] == key
  {
    assert Reusable(entries, tokens, |key|);
    assert tokens[..|key|] == key;
  }

  /** Expiry only removes, so it cannot break a limit. */
  lemma ExpireLimits<S(!new)>(
      maxEntries: int, maxBytes: int, entries: Table<S>, order: seq<Key>, ttl: int, now: int)
    requires Covers(entries, order) && WithinLimits(maxEntries, maxBytes, entries, order)
    ensures var alive := Alive(entries, ttl, now);
            && (forall key | key in Keep(order, alive) :: key in alive)
            && WithinLimits(maxEntries, maxBytes, alive, Keep(order, alive))
  {
    var alive := Alive(entries, ttl, now);
    KeepMembers(order, alive);
    KeepLess(entries, order, alive);
  }

  lemma {:induction false} KeepLess<S>(entries: Table<S>, order: seq<Key>, alive: Table<S>)
    requires forall key | key in order :: key in entries
    requires forall key | key in alive :: key in entries && alive[key] == entries[key]
    ensures |Keep(order, alive)| <= |order|
    ensures forall key | key in Keep(order, alive) :: key in alive
    ensures Sum(alive, Keep(order, alive)) <= Sum(entries, order)
  {
    hide Sum;
    if order == [] {
      assert Sum(alive, []) == Sum(entries, []) by {
        EmptySum(alive, []);
        EmptySum(entries, []);
      }
    } else {
      KeepLess(entries, order[1..], alive);
      SumStep(entries, order);
      var kept, rest := Keep(order, alive), Keep(order[1..], alive);
      if order[0] in alive {
        assert kept[0] == order[0] && kept[1..] == rest;
        SumStep(alive, kept);
      } else {
        assert kept == rest;
      }
    }
  }

  lemma SumStep<S>(entries: Table<S>, order: seq<Key>)
    requires order != [] && forall key | key in order :: key in entries
    ensures Sum(entries, order) == entries[order[0]].size + Sum(entries, order[1..])
  {
  }

  /** Using an entry moves it without changing any size. */
  lemma UseKeepsLimits<S(!new)>(
      maxEntries: int, maxBytes: int, entries: Table<S>, order: seq<Key>, key: Key, now: int)
    requires Covers(entries, order) && key in entries
    ensures var after := entries[key := entries[key].(usedAt := now)];
            && Covers(after, Touch(order, key))
            && Sum(after, Touch(order, key)) == Sum(entries, order)
            && |Touch(order, key)| == |order|
  {
    hide Touch;
    var after := entries[key := entries[key].(usedAt := now)];
    TouchDistinct(order, key);
    TouchSum(after, order, key);
    TotalSame((e: Entry<S>) => e.size, entries, after, order);
  }

  lemma TouchSum<S(!new)>(entries: Table<S>, order: seq<Key>, key: Key)
    requires Covers(entries, order) && key in entries
    ensures forall k | k in Touch(order, key) :: k in entries
    ensures Sum(entries, Touch(order, key)) == Sum(entries, order)
  {
    TotalWithout((e: Entry<S>) => e.size, entries, order, key);
    TotalConcat((e: Entry<S>) => e.size, entries, Without(order, key), [key]);
  }

  lemma Members<S(!new)>(entries: Table<S>, order: seq<Key>)
    requires Covers(entries, order)
    ensures forall key :: key in order <==> key in entries
  {
  }

  lemma NothingTrimmed<S>(maxEntries: int, maxBytes: int, entries: Table<S>, order: seq<Key>)
    requires forall key | key in order :: key in entries
    ensures Trimmed(maxEntries, maxBytes, entries, order, entries, order)
  {
  }

  lemma LimitsSame<S>(maxEntries: int, maxBytes: int, a: Table<S>, b: Table<S>, order: seq<Key>)
    requires forall key | key in order :: key in a && key in b && a[key] == b[key]
    ensures WithinLimits(maxEntries, maxBytes, a, order) == WithinLimits(maxEntries, maxBytes, b, order)
  {
    TotalSame((e: Entry<S>) => e.size, a, b, order);
  }

  lemma OneMore<S>(maxEntries: int, maxBytes: int, entries: Table<S>, order: seq<Key>, kept: seq<Key>)
    requires (forall key | key in order :: key in entries) && IsSuffix(kept, order) && kept != []
    requires TooMuch(maxEntries, maxBytes, entries, order, |kept|)
    requires (forall key | key in kept :: key in entries) && !WithinLimits(maxEntries, maxBytes, entries, kept)
    ensures TooMuch(maxEntries, maxBytes, entries, order, |kept| - 1)
    ensures IsSuffix(kept[1..], order)
  {
    hide WithinLimits;
  }

  lemma EmptySum<S>(entries: Table<S>, order: seq<Key>)
    requires forall key | key in order :: key in entries
    ensures order == [] ==> Sum(entries, order) == 0
  {
  }

  lemma Appended<S(!new)>(entries: Table<S>, order: seq<Key>, key: Key, entry: Entry<S>)
    requires Covers(entries, order) && key !in entries
    ensures var after := entries[key := entry];
            Covers(after, order + [key]) && Sum(after, order + [key]) == Sum(entries, order) + entry.size
  {
    var after := entries[key := entry];
    TotalSame((e: Entry<S>) => e.size, entries, after, order);
    TotalConcat((e: Entry<S>) => e.size, after, order, [key]);
  }
}
