/** The domain bank: models kept within a byte and a count budget, least recently used out first. */
module Banks {
  import opened Ledger
  import opened Recency
  import opened Wrappers

  datatype Entry<M> = Entry(model: M, bytes: nat, used: nat)

  datatype Acquired<M> = Model(model: M) | UnknownDomain | LoadFailed

  ghost function Sum<M>(entries: map<string, Entry<M>>, order: seq<string>): nat
    requires forall id | id in order :: id in entries
  {
    Total((e: Entry<M>) => e.bytes, entries, order)
  }

  /** Oldest first by clock. */
  ghost predicate ByClock<M>(entries: map<string, Entry<M>>, order: seq<string>, clock: nat)
    requires forall id | id in order :: id in entries
  {
    && (forall i, j | 0 <= i < j < |order| :: entries[order[i]].used < entries[order[j]].used)
    && forall i | 0 <= i < |order| :: entries[order[i]].used <= clock
  }

  ghost predicate Within<M>(maxBytes: int, maxModels: int, entries: map<string, Entry<M>>, order: seq<string>)
    requires forall id | id in order :: id in entries
  {
    && (maxModels > 0 ==> |order| <= maxModels)
    && (maxBytes > 0 ==> Sum(entries, order) <= maxBytes)
  }

  /** The last `n` of the order alone would be within the budgets. */
  ghost predicate LastWithin<M>(
      maxBytes: int, maxModels: int, entries: map<string, Entry<M>>, order: seq<string>, n: nat)
    requires forall id | id in order :: id in entries
    requires n <= |order|
  {
    Within(maxBytes, maxModels, entries, order[|order| - n..])
  }

  lemma SumSame<M>(a: map<string, Entry<M>>, b: map<string, Entry<M>>, order: seq<string>)
    requires forall id | id in order :: id in a && id in b && a[id].bytes == b[id].bytes
    ensures Sum(a, order) == Sum(b, order)
  {
    TotalSame((e: Entry<M>) => e.bytes, a, b, order);
  }

  lemma SumConcat<M>(entries: map<string, Entry<M>>, a: seq<string>, id: string)
    requires id in entries && forall k | k in a :: k in entries
    ensures forall k | k in a + [id] :: k in entries
    ensures Sum(entries, a + [id]) == Sum(entries, a) + entries[id].bytes
  {
    TotalConcat((e: Entry<M>) => e.bytes, entries, a, [id]);
  }

  lemma SumWithout<M>(entries: map<string, Entry<M>>, order: seq<string>, id: string)
    requires id in order && forall k | k in order :: k in entries
    ensures forall k | k in Without(order, id) :: k in entries
    ensures Sum(entries, Without(order, id)) + entries[id].bytes == Sum(entries, order)
  {
    TotalWithout((e: Entry<M>) => e.bytes, entries, order, id);
  }

  /** The first id that is not `keep`, the empty string when there is none. */
  ghost predicate FirstOther(order: seq<string>, keep: string, victim: string) {
    if forall i | 0 <= i < |order| :: order[i] == keep then victim == ""
    else exists i | 0 <= i < |order| :: order[i] == victim != keep && forall j | 0 <= j < i :: order[j] == keep
  }

  /** How many of the ranked ids a count budget leaves. */
  ghost function Kept(maxModels: int, ranked: nat): nat {
    if 0 < maxModels < ranked then maxModels else ranked
  }

  class Bank<M> {
    const ids: set<string>
    const maxBytes: int
    const maxModels: int
    var entries: map<string, Entry<M>>
    var order: seq<string>
    var bytes: int
    var clock: nat
    /** Every acquire that succeeded, in order. */
    ghost var history: seq<string>

    /** A manifest's ids are not empty. */
    constructor (ids: set<string>, maxBytes: int, maxModels: int)
      requires "" !in ids
      ensures Valid() && history == [] && order == []
      ensures this.ids == ids && this.maxBytes == maxBytes && this.maxModels == maxModels
    {
      this.ids, this.maxBytes, this.maxModels := ids, maxBytes, maxModels;
      entries, order, bytes, clock, history := map[], [], 0, 0, [];
    }

    /** The order, the map, the byte count and the clock agree; what is held is the most recently
        used part of the history; and the budgets hold, or one model alone exceeds them. */
    ghost predicate Valid()
      reads this
    {
      Sound(clock)
    }

    ghost predicate Sound(clock: nat)
      reads this
    {
      && Covers(entries, order)
      && "" !in ids && (forall id | id in order :: id in ids)
      && bytes == Sum(entries, order)
      && ByClock(entries, order, clock)
      && IsSuffix(order, Ranked(history))
      && (Within(maxBytes, maxModels, entries, order) || |order| == 1)
      && (maxBytes <= 0 ==> |order| == Kept(maxModels, |Ranked(history)|))
    }

    method TouchLocked(id: string)
      modifies this`order
      ensures order == Touch(old(order), id)
    {
      order := RemoveFirst(order, id);
      order := order + [id];
    }

    method RemoveLocked(id: string)
      requires Covers(entries, order) && bytes == Sum(entries, order)
      modifies this`entries, this`bytes, this`order
      ensures id in old(entries) ==> entries == old(entries) - {id} && order == Without(old(order), id)
      ensures id !in old(entries) ==> entries == old(entries) && order == old(order)
      ensures Covers(entries, order) && bytes == Sum(entries, order)
    {
      if id !in entries {
        return;
      }
      SumWithout(entries, order, id);
      WithoutKeeps(order, id);
      bytes := bytes - entries[id].bytes;
      entries := entries - {id};
      order := RemoveFirst(order, id);
      SumSame(old(entries), entries, order);
    }

    /** The first id that is not the one to keep, or the empty string. */
    method Victim(keep: string) returns (victim: string)
      ensures FirstOther(order, keep, victim)
    {
      for i := 0 to |order|
        invariant forall j | 0 <= j < i :: order[j] == keep
      {
        if order[i] != keep {
          return order[i];
        }
      }
      victim := "";
    }

    /** One turn of the eviction loop: done, or the oldest other model dropped. */
    method EvictOne(keep: string) returns (done: bool)
      requires Covers(entries, order) && bytes == Sum(entries, order) && "" !in order
      requires order != [] && order[|order| - 1] == keep
      modifies this`entries, this`bytes, this`order
      ensures Covers(entries, order) && bytes == Sum(entries, order)
      ensures done ==> order == old(order) && entries == old(entries)
                       && (Within(maxBytes, maxModels, entries, order) || order == [keep])
      ensures !done ==> |old(order)| > 1 && order == old(order)[1..] && entries == old(entries) - {old(order)[0]}
                        && !Within(maxBytes, maxModels, old(entries), old(order))
    {
      SameSize(entries, order);
      var overCount := maxModels > 0 && |entries| > maxModels;
      var overBytes := maxBytes > 0 && bytes > maxBytes;
      if !overCount && !overBytes {
        return true;
      }
      var victim := Victim(keep);
      if victim == "" {
        OnlyKeep(order, keep);
        return true;
      }
      FrontVictim(order, keep, victim);
      RemoveLocked(victim);
      done := false;
    }

    /** Drops from the front until the budgets hold or only `keep`, the last, is left, and drops
        nothing more than that takes. */
    method EvictLocked(keep: string)
      requires Covers(entries, order) && bytes == Sum(entries, order) && "" !in order
      requires order != [] && order[|order| - 1] == keep
      modifies this`entries, this`bytes, this`order
      ensures Covers(entries, order) && bytes == Sum(entries, order)
      ensures Evicted(maxBytes, maxModels, old(entries), old(order), entries, order)
    {
      hide Sum, Within;
      var done := false;
      NothingEvicted(maxBytes, maxModels, entries, order);
      while !done
        invariant Covers(entries, order) && bytes == Sum(entries, order)
        invariant order != [] && order[|order| - 1] == keep && IsSuffix(order, old(order))
        invariant forall id | id in order :: id in old(entries) && entries[id] == old(entries[id])
        invariant TooMuch(maxBytes, maxModels, old(entries), old(order), |order|)
        invariant done ==> Within(maxBytes, maxModels, entries, order) || order == [keep]
        decreases |order|, !done
      {
        ghost var before := order;
        WithinSame(maxBytes, maxModels, old(entries), entries, order);
        done := EvictOne(keep);
        if !done {
          OneMore(maxBytes, maxModels, old(entries), old(order), before);
        }
      }
    }

    /** A resident model: its clock is set and it moves to the recent end. */
    method Hit(id: string)
      requires clock > 0 && Sound(clock - 1) && id in entries
      modifies this`entries, this`order, this`history
      ensures Valid()
      ensures entries == old(entries)[id := old(entries)[id].(used := clock)] && order == Touch(old(order), id)
      ensures history == old(history) + [id]
    {
      hide Sum, Within, ByClock, Covers, IsSuffix, Ranked, Touch;
      KeptAfterHit(maxBytes, maxModels, entries, order, history, id, clock);
      entries := entries[id := entries[id].(used := clock)];
      TouchLocked(id);
      history := history + [id];
    }

    /** A freshly loaded model joins at the recent end, and the budgets are restored. */
    method Load(id: string, model: M, size: nat)
      requires clock > 0 && Sound(clock - 1) && id !in entries && id in ids
      modifies this`entries, this`order, this`bytes, this`history
      ensures Valid() && history == old(history) + [id]
      ensures Evicted(maxBytes, maxModels, old(entries)[id := Entry(model, size, clock)], old(order) + [id],
                      entries, order)
    {
      hide Sum, Within, ByClock, Covers, Evicted, IsSuffix, Ranked;
      var resident := Entry(model, size, clock);
      CoversIn(entries, order, id);
      Added(entries, order, id, resident);
      entries := entries[id := resident];
      order := order + [id];
      bytes := bytes + resident.bytes;
      ghost var all, touched := entries, order;
      assert touched[..|touched| - 1] == old(order);
      EvictLocked(id);
      KeptAfterMiss(maxBytes, maxModels, all, touched, entries, order, history, id, clock);
      history := history + [id];
    }

    /** A hit moves the model to the recent end. A miss loads it, if the manifest knows it and the
        load succeeds, and then drops from the old end only as much as the budgets require. A
        failure changes nothing but the clock. `loaded` is what loading this domain would give. */
    method Acquire(id: string, loaded: Option<(M, nat)>) returns (result: Acquired<M>)
      requires Valid()
      modifies this
      ensures Valid() && clock == old(clock) + 1
      ensures id in old(entries) ==>
                && result == Model(old(entries)[id].model)
                && order == Touch(old(order), id) && history == old(history) + [id]
                && entries == old(entries)[id := old(entries)[id].(used := clock)]
      ensures id !in old(entries) && (id !in ids || loaded.None?) ==>
                && result == (if id !in ids then UnknownDomain else LoadFailed)
                && entries == old(entries) && order == old(order) && history == old(history)
      ensures id !in old(entries) && id in ids && loaded.Some? ==>
                && result == Model(loaded.value.0) && history == old(history) + [id]
                && Evicted(maxBytes, maxModels, old(entries)[id := Entry(loaded.value.0, loaded.value.1, clock)],
                           old(order) + [id], entries, order)
    {
      hide Sum, Within, ByClock, Covers, Evicted, IsSuffix, Ranked;
      clock := clock + 1;
      if id in entries {
        result := Model(entries[id].model);
        Hit(id);
        return;
      }
      if id !in ids {
        ClockOnly(entries, order, clock - 1);
        return UnknownDomain;
      }
      if loaded.None? {
        ClockOnly(entries, order, clock - 1);
        return LoadFailed;
      }
      Load(id, loaded.value.0, loaded.value.1);
      result := Model(loaded.value.0);
    }
  }

  /** Every longer end of the order breaks a budget. */
  ghost predicate TooMuch<M>(
      maxBytes: int, maxModels: int, entries: map<string, Entry<M>>, order: seq<string>, kept: nat)
    requires forall id | id in order :: id in entries
  {
    forall n | kept < n <= |order| :: !LastWithin(maxBytes, maxModels, entries, order, n)
  }

  /** What eviction leaves: the recent end, unchanged, within the budgets unless one model alone is
      too much, and not one model fewer than the budgets allow. */
  ghost predicate Evicted<M>(
      maxBytes: int, maxModels: int, entries: map<string, Entry<M>>, order: seq<string>,
      left: map<string, Entry<M>>, kept: seq<string>)
  {
    && (forall id | id in order :: id in entries)
    && kept != [] && IsSuffix(kept, order)
    && (forall id | id in kept :: id in entries && id in left && left[id] == entries[id])
    && (Within(maxBytes, maxModels, left, kept) || |kept| == 1)
    && TooMuch(maxBytes, maxModels, entries, order, |kept|)
  }

  lemma NothingEvicted<M>(maxBytes: int, maxModels: int, entries: map<string, Entry<M>>, order: seq<string>)
    requires Covers(entries, order)
    ensures TooMuch(maxBytes, maxModels, entries, order, |order|) && IsSuffix(order, order)
  {
  }

  lemma WithinSame<M>(
      maxBytes: int, maxModels: int, a: map<string, Entry<M>>, b: map<string, Entry<M>>, order: seq<string>)
    requires forall id | id in order :: id in a && id in b && a[id] == b[id]
    ensures Within(maxBytes, maxModels, a, order) == Within(maxBytes, maxModels, b, order)
  {
    SumSame(a, b, order);
  }

  lemma OneMore<M>(
      maxBytes: int, maxModels: int, entries: map<string, Entry<M>>, order: seq<string>, kept: seq<string>)
    requires Covers(entries, order) && IsSuffix(kept, order) && |kept| > 1
    requires TooMuch(maxBytes, maxModels, entries, order, |kept|)
    requires (forall id | id in kept :: id in entries) && !Within(maxBytes, maxModels, entries, kept)
    ensures TooMuch(maxBytes, maxModels, entries, order, |kept| - 1)
    ensures IsSuffix(kept[1..], order)
  {
    hide Within;
  }

  lemma CoversIn<M>(entries: map<string, Entry<M>>, order: seq<string>, id: string)
    requires Covers(entries, order)
    ensures id in order <==> id in entries
  {
  }

  lemma ClockOnly<M>(entries: map<string, Entry<M>>, order: seq<string>, clock: nat)
    requires Covers(entries, order) && ByClock(entries, order, clock)
    ensures ByClock(entries, order, clock + 1)
  {
  }

  lemma KeptAfterHit<M>(
      maxBytes: int, maxModels: int, entries: map<string, Entry<M>>, order: seq<string>, history: seq<string>,
      id: string, clock: nat)
    requires Covers(entries, order) && id in entries && IsSuffix(order, Ranked(history))
    requires clock > 0 && ByClock(entries, order, clock - 1)
    ensures IsSuffix(Touch(order, id), Ranked(history + [id]))
    ensures |Touch(order, id)| == |order| && |Ranked(history + [id])| == |Ranked(history)|
    ensures forall k | k in Touch(order, id) :: k in order
    ensures var after := entries[id := entries[id].(used := clock)];
            && Covers(after, Touch(order, id))
            && Sum(after, Touch(order, id)) == Sum(entries, order)
            && ByClock(after, Touch(order, id), clock)
            && Within(maxBytes, maxModels, after, Touch(order, id)) == Within(maxBytes, maxModels, entries, order)
  {
    hide Touch, Ranked, ByClock;
    RankedDistinct(history);
    HistoryGrows(history, id);
    TouchSuffix(order, Ranked(history), id);
    TouchDistinct(order, id);
    RetouchedClock(entries, order, id, clock);
    RetouchedCovers(entries, order, id, clock);
    RetouchedSum(entries, order, id, clock);
  }

  lemma KeptAfterMiss<M>(
      maxBytes: int, maxModels: int, all: map<string, Entry<M>>, touched: seq<string>,
      left: map<string, Entry<M>>, kept: seq<string>, history: seq<string>, id: string, clock: nat)
    requires touched != [] && touched[|touched| - 1] == id && id !in touched[..|touched| - 1]
    requires IsSuffix(touched[..|touched| - 1], Ranked(history))
    requires Covers(all, touched) && ByClock(all, touched, clock) && Covers(left, kept)
    requires Evicted(maxBytes, maxModels, all, touched, left, kept)
    requires maxBytes <= 0 ==> |touched| - 1 == Kept(maxModels, |Ranked(history)|)
    ensures IsSuffix(kept, Ranked(history + [id])) && ByClock(left, kept, clock)
    ensures kept != [] && (Within(maxBytes, maxModels, left, kept) || |kept| == 1)
    ensures forall k | k in kept :: k in touched
    ensures maxBytes <= 0 ==> |kept| == Kept(maxModels, |Ranked(history + [id])|)
  {
    hide Sum, Touch, Ranked, ByClock, Within, TooMuch, IsSuffix;
    var order := touched[..|touched| - 1];
    RankedDistinct(history);
    HistoryGrows(history, id);
    TouchSuffix(order, Ranked(history), id);
    TouchNew(order, id);
    assert touched == Touch(order, id);
    SuffixOf(kept, touched, Ranked(history + [id]));
    EvictedClock(maxBytes, maxModels, all, touched, left, kept, clock);
    StillWithin(maxBytes, maxModels, all, touched, left, kept);
    if maxBytes <= 0 {
      CountOnly(maxBytes, maxModels, all, touched, left, kept);
      TouchedRank(order, Ranked(history), id);
    }
  }

  lemma StillWithin<M>(
      maxBytes: int, maxModels: int, all: map<string, Entry<M>>, touched: seq<string>,
      left: map<string, Entry<M>>, kept: seq<string>)
    requires touched != [] && Covers(all, touched) && Covers(left, kept)
    requires Evicted(maxBytes, maxModels, all, touched, left, kept)
    ensures kept != [] && (Within(maxBytes, maxModels, left, kept) || |kept| == 1)
    ensures IsSuffix(kept, touched)
  {
    hide Sum, Within, TooMuch;
  }

  lemma EvictedClock<M>(
      maxBytes: int, maxModels: int, all: map<string, Entry<M>>, touched: seq<string>,
      left: map<string, Entry<M>>, kept: seq<string>, clock: nat)
    requires Covers(all, touched) && ByClock(all, touched, clock)
    requires Evicted(maxBytes, maxModels, all, touched, left, kept)
    ensures ByClock(left, kept, clock)
    ensures forall k | k in kept :: k in touched
  {
    hide Within, TooMuch;
    var gap := |touched| - |kept|;
    forall i | 0 <= i < |kept| ensures left[kept[i]] == all[touched[gap + i]] && kept[i] == touched[gap + i] {
      assert kept[i] in kept;
    }
  }

  lemma TouchNew(order: seq<string>, id: string)
    requires id !in order
    ensures Touch(order, id) == order + [id]
  {
  }

  lemma SuffixOf(a: seq<string>, b: seq<string>, c: seq<string>)
    requires IsSuffix(a, b) && IsSuffix(b, c)
    ensures IsSuffix(a, c)
  {
  }

  lemma CountOnly<M>(
      maxBytes: int, maxModels: int, all: map<string, Entry<M>>, touched: seq<string>,
      left: map<string, Entry<M>>, kept: seq<string>)
    requires maxBytes <= 0 && Evicted(maxBytes, maxModels, all, touched, left, kept)
    ensures |kept| == if 0 < maxModels < |touched| then maxModels else |touched|
  {
    hide Sum;
    if |kept| < |touched| {
      assert !LastWithin(maxBytes, maxModels, all, touched, |kept| + 1);
    }
  }

  lemma TouchedRank(order: seq<string>, ranked: seq<string>, id: string)
    requires IsSuffix(order, ranked) && id !in order
    ensures |Touch(ranked, id)| == |ranked| + (if id in ranked then 0 else 1)
    ensures id in ranked ==> |order| < |ranked|
  {
  }

  lemma OnlyKeep(order: seq<string>, keep: string)
    requires Distinct(order) && order != [] && "" !in order
    requires FirstOther(order, keep, "")
    ensures (forall i | 0 <= i < |order| :: order[i] == keep) && order == [keep]
  {
    assert order[0] == keep && order[|order| - 1] == keep;
  }

  lemma FrontVictim(order: seq<string>, keep: string, victim: string)
    requires Distinct(order) && order != [] && order[|order| - 1] == keep && victim != ""
    requires FirstOther(order, keep, victim)
    ensures order[0] == victim && |order| > 1 && Without(order, victim) == order[1..]
  {
    var i :| 0 <= i < |order| && order[i] == victim != keep && forall j | 0 <= j < i :: order[j] == keep;
    assert order[0] == order[|order| - 1] ==> |order| == 1;
  }

  lemma HistoryGrows(history: seq<string>, id: string)
    ensures Ranked(history + [id]) == Touch(Ranked(history), id)
  {
    assert (history + [id])[..|history|] == history;
  }

  lemma RetouchedCovers<M>(entries: map<string, Entry<M>>, order: seq<string>, id: string, clock: nat)
    requires Covers(entries, order) && id in entries
    ensures Covers(entries[id := entries[id].(used := clock)], Touch(order, id))
  {
    hide Touch;
    TouchDistinct(order, id);
  }

  lemma RetouchedClock<M>(entries: map<string, Entry<M>>, order: seq<string>, id: string, clock: nat)
    requires Covers(entries, order) && id in entries && clock > 0 && ByClock(entries, order, clock - 1)
    ensures forall k | k in Touch(order, id) :: k in entries
    ensures ByClock(entries[id := entries[id].(used := clock)], Touch(order, id), clock)
  {
    hide Without;
    var after, touched, rest := entries[id := entries[id].(used := clock)], Touch(order, id), Without(order, id);
    TouchDistinct(order, id);
    WithoutKeeps(order, id);
    forall i | 0 <= i < |rest| ensures after[touched[i]].used < clock {
      assert touched[i] == rest[i] && rest[i] in rest;
      var a :| 0 <= a < |order| && order[a] == rest[i];
    }
    forall i, j | 0 <= i < j < |touched| ensures after[touched[i]].used < after[touched[j]].used {
      if j < |rest| {
        assert rest[i] in rest && rest[j] in rest;
        var a, b := WithoutOrder(order, id, i, j);
      }
    }
  }

  lemma RetouchedSum<M>(entries: map<string, Entry<M>>, order: seq<string>, id: string, clock: nat)
    requires Covers(entries, order) && id in entries
    ensures var after := entries[id := entries[id].(used := clock)];
            && (forall k | k in Touch(order, id) :: k in after)
            && Sum(after, Touch(order, id)) == Sum(entries, order)
  {
    var after, rest := entries[id := entries[id].(used := clock)], Without(order, id);
    SumSame(entries, after, order);
    SumWithout(after, order, id);
    SumConcat(after, rest, id);
  }

  lemma Added<M>(entries: map<string, Entry<M>>, order: seq<string>, id: string, resident: Entry<M>)
    requires Covers(entries, order) && id !in entries && resident.used > 0 && ByClock(entries, order, resident.used - 1)
    ensures var after := entries[id := resident];
            && Covers(after, order + [id]) && ByClock(after, order + [id], resident.used)
            && Sum(after, order + [id]) == Sum(entries, order) + resident.bytes
  {
    var after := entries[id := resident];
    SumSame(entries, after, order);
    SumConcat(after, order, id);
  }

  /** With only a count budget the bank holds exactly the most recently used models. */
  lemma MostRecent<M>(bank: Bank<M>)
    requires bank.Valid() && bank.maxBytes <= 0
    ensures var ranked := Ranked(bank.history);
            bank.order == ranked[|ranked| - Kept(bank.maxModels, |ranked|)..]
  {
  }
}
