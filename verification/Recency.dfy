/** Duplicate-free lists kept in order of last use, oldest first. */
module Recency {
  ghost predicate Distinct<K>(s: seq<K>) {
    forall i, j | 0 <= i < j < |s| :: s[i] != s[j]
  }

  /** Drops the first occurrence. */
  function Without<K(==)>(s: seq<K>, key: K): (rest: seq<K>)
    ensures key !in s ==> rest == s
    ensures key in s ==> |rest| == |s| - 1
  {
    if s == [] then []
    else if s[0] == key then s[1..]
    else [s[0]] + Without(s[1..], key)
  }

  /** The program's removal loop. */
  method RemoveFirst<K(==)>(s: seq<K>, key: K) returns (rest: seq<K>)
    ensures rest == Without(s, key)
  {
    for index := 0 to |s|
      invariant key !in s[..index]
    {
      if s[index] == key {
        FirstOccurrence(s, key, index);
        return s[..index] + s[index + 1..];
      }
    }
    rest := s;
  }

  lemma FirstOccurrence<K>(s: seq<K>, key: K, index: nat)
    requires index < |s| && s[index] == key && key !in s[..index]
    ensures Without(s, key) == s[..index] + s[index + 1..]
  {
    WithoutSplit(s[..index], s[index..], key);
    assert s == s[..index] + s[index..] && s[index..][1..] == s[index + 1..];
  }

  lemma ConsDistinct<K>(x: K, rest: seq<K>)
    requires Distinct(rest) && x !in rest
    ensures Distinct([x] + rest)
  {
  }

  lemma {:induction false} WithoutKeeps<K>(s: seq<K>, key: K)
    requires Distinct(s)
    ensures Distinct(Without(s, key)) && key !in Without(s, key)
    ensures forall k | k != key :: k in Without(s, key) <==> k in s
  {
    if s != [] {
      assert s == [s[0]] + s[1..];
      if s[0] != key {
        WithoutKeeps(s[1..], key);
        ConsDistinct(s[0], Without(s[1..], key));
      }
    }
  }

  lemma {:induction false} WithoutSplit<K>(a: seq<K>, b: seq<K>, key: K)
    ensures key in a ==> Without(a + b, key) == Without(a, key) + b
    ensures key !in a ==> Without(a + b, key) == a + Without(b, key)
  {
    if a == [] {
      assert a + b == b;
    } else {
      assert (a + b)[1..] == a[1..] + b;
      assert a == [a[0]] + a[1..];
      if a[0] != key {
        WithoutSplit(a[1..], b, key);
      }
    }
  }

  /** Moves a key to the most recently used end. */
  function Touch<K(==)>(s: seq<K>, key: K): (touched: seq<K>)
    ensures |touched| == |s| + (if key in s then 0 else 1)
  {
    Without(s, key) + [key]
  }

  lemma TouchDistinct<K>(s: seq<K>, key: K)
    requires Distinct(s)
    ensures Distinct(Touch(s, key))
    ensures forall k :: k in Touch(s, key) <==> k in s || k == key
  {
    WithoutKeeps(s, key);
  }

  /** The distinct keys of a history, in order of last use. */
  ghost function Ranked<K>(history: seq<K>): (ranked: seq<K>) {
    if history == [] then [] else Touch(Ranked(history[..|history| - 1]), history[|history| - 1])
  }

  lemma {:induction false} RankedDistinct<K>(history: seq<K>)
    ensures Distinct(Ranked(history))
    ensures forall k :: k in Ranked(history) <==> k in history
  {
    if history != [] {
      var before, last := history[..|history| - 1], history[|history| - 1];
      RankedDistinct(before);
      TouchDistinct(Ranked(before), last);
      assert history == before + [last];
    }
  }

  /** `k` was used again after every use of `j`. */
  ghost predicate UsedLater<K>(history: seq<K>, j: K, k: K) {
    exists n | 0 <= n < |history| :: history[n] == k && forall m | n <= m < |history| :: history[m] != j
  }

  /** The ranking is by last use: later in the list means used later. */
  lemma {:induction false} RankedByLastUse<K>(history: seq<K>, i: nat, j: nat)
    requires i < j < |Ranked(history)|
    ensures UsedLater(history, Ranked(history)[i], Ranked(history)[j])
  {
    var before, last := history[..|history| - 1], history[|history| - 1];
    var earlier, ranked := Ranked(before), Ranked(history);
    RankedDistinct(history);
    RankedDistinct(before);
    if j == |ranked| - 1 {
      assert history[|history| - 1] == ranked[j];
    } else {
      assert ranked[|ranked| - 1] == last && ranked[j] != ranked[|ranked| - 1];
      var a, b := WithoutOrder(earlier, last, i, j);
      RankedByLastUse(before, a, b);
      var n :| 0 <= n < |before| && before[n] == ranked[j] && forall m | n <= m < |before| :: before[m] != ranked[i];
      assert history[n] == ranked[j];
      forall m | n <= m < |history| ensures history[m] != ranked[i] {
        assert m < |before| ==> history[m] == before[m];
      }
    }
  }

  lemma WithoutStep<K>(s: seq<K>, key: K)
    ensures if s == [] then Without(s, key) == []
            else if s[0] == key then Without(s, key) == s[1..]
            else Without(s, key) == [s[0]] + Without(s[1..], key)
  {
  }

  lemma {:induction false} WithoutOrder<K>(s: seq<K>, key: K, i: nat, j: nat) returns (a: nat, b: nat)
    requires i < j < |Without(s, key)|
    ensures a < b < |s| && s[a] == Without(s, key)[i] && s[b] == Without(s, key)[j]
  {
    hide Without;
    WithoutStep(s, key);
    if s[0] == key {
      a, b := i + 1, j + 1;
    } else if i == 0 {
      var b' := WithoutAt(s[1..], key, j - 1);
      a, b := 0, b' + 1;
    } else {
      a, b := WithoutOrder(s[1..], key, i - 1, j - 1);
      a, b := a + 1, b + 1;
    }
  }

  lemma {:induction false} WithoutAt<K>(s: seq<K>, key: K, i: nat) returns (a: nat)
    requires i < |Without(s, key)|
    ensures a < |s| && s[a] == Without(s, key)[i]
  {
    hide Without;
    WithoutStep(s, key);
    if s[0] == key {
      a := i + 1;
    } else if i == 0 {
      a := 0;
    } else {
      a := WithoutAt(s[1..], key, i - 1);
      a := a + 1;
    }
  }

  ghost predicate IsSuffix<K>(s: seq<K>, whole: seq<K>) {
    |s| <= |whole| && s == whole[|whole| - |s|..]
  }

  lemma PartsApart<K>(a: seq<K>, b: seq<K>)
    requires Distinct(a + b)
    ensures forall k | k in a :: k !in b
  {
    forall i, j | 0 <= i < |a| && 0 <= j < |b| ensures a[i] != b[j] {
      assert (a + b)[i] == a[i] && (a + b)[|a| + j] == b[j];
    }
  }

  /** Touching keeps a suffix of the ranking a suffix of the ranking. */
  lemma TouchSuffix<K>(s: seq<K>, whole: seq<K>, key: K)
    requires IsSuffix(s, whole) && Distinct(whole)
    ensures IsSuffix(Touch(s, key), Touch(whole, key))
    ensures key in s ==> |Touch(s, key)| == |s| && |Touch(whole, key)| == |whole|
  {
    var front := whole[..|whole| - |s|];
    assert whole == front + s;
    WithoutSplit(front, s, key);
    if key in front {
      PartsApart(front, s);
      assert Touch(whole, key) == Without(front, key) + (s + [key]);
    } else {
      assert Touch(whole, key) == front + (Without(s, key) + [key]);
    }
  }
}
