/** Coarse-to-fine block selection against flat top-k. */
module BlockSelection {
  import opened Division
  import opened TopK

  // ---------- the selection of one row, as a function of the scores it may see ----------

  /** The largest of row[lo..hi]. */
  ghost function MaxOf(row: seq<real>, lo: nat, hi: nat): (m: real)
    requires lo < hi <= |row|
    ensures forall i | lo <= i < hi :: row[i] <= m
    ensures exists i :: lo <= i < hi && row[i] == m
  {
    if hi == lo + 1 then row[lo]
    else
      var rest := MaxOf(row, lo, hi - 1);
      if row[hi - 1] > rest then row[hi - 1] else rest
  }

  function GroupCount(entries: nat, pool: nat): nat
    requires pool >= 1
  {
    (entries + pool - 1) / pool
  }

  function GroupEnd(group: nat, entries: nat, pool: nat): nat {
    Min((group + 1) * pool, entries)
  }

  lemma GroupRange(entries: nat, pool: nat, group: nat)
    requires pool >= 1 && group < GroupCount(entries, pool)
    ensures group * pool < GroupEnd(group, entries, pool) <= entries
  {
    var n := entries + pool - 1;
    DivMod(n, pool);
    MultipleApart(group, n / pool, pool);
  }

  /** The best score of every group of `pool` entries. */
  ghost function Coarse(row: seq<real>, pool: nat): (coarse: seq<real>)
    requires pool >= 1
    ensures |coarse| == GroupCount(|row|, pool)
  {
    seq(GroupCount(|row|, pool), group requires 0 <= group < GroupCount(|row|, pool) =>
      GroupRange(|row|, pool, group);
      MaxOf(row, group * pool, GroupEnd(group, |row|, pool)))
  }

  function Range(lo: nat, hi: nat): (r: seq<nat>)
    requires lo <= hi
    ensures |r| == hi - lo && forall i | 0 <= i < |r| :: r[i] == lo + i
  {
    seq(hi - lo, i requires 0 <= i < hi - lo => lo + i)
  }

  /** The entries of the chosen groups, group by group. */
  ghost function Members(groups: seq<nat>, entries: nat, pool: nat): seq<nat>
    requires pool >= 1 && forall i | 0 <= i < |groups| :: groups[i] < GroupCount(entries, pool)
  {
    if groups == [] then []
    else
      GroupRange(entries, pool, groups[0]);
      Range(groups[0] * pool, GroupEnd(groups[0], entries, pool)) + Members(groups[1..], entries, pool)
  }

  ghost function Pick(row: seq<real>, order: seq<nat>): (scores: seq<real>)
    requires Indices(row, order)
    ensures |scores| == |order| && forall i | 0 <= i < |order| :: scores[i] == row[order[i]]
  {
    seq(|order|, i requires 0 <= i < |order| => row[order[i]])
  }

  ghost function PickIndices(from: seq<nat>, order: seq<nat>): (picked: seq<nat>)
    requires forall i | 0 <= i < |order| :: order[i] < |from|
    ensures |picked| == |order| && forall i | 0 <= i < |order| :: picked[i] == from[order[i]]
  {
    seq(|order|, i requires 0 <= i < |order| => from[order[i]])
  }

  function GroupsPerToken(budget: int, pool: nat): (groups: nat)
    requires pool >= 1
    ensures groups >= 1
  {
    // Go truncates toward zero; a quotient below one is raised to one either way.
    if budget + pool - 1 < pool then 1 else (budget + pool - 1) / pool
  }

  /** As many groups as the budget needs entries for, and at least one. */
  lemma GroupsCover(budget: int, pool: nat)
    requires pool >= 1
    ensures budget >= 1 ==>
              (GroupsPerToken(budget, pool) - 1) * pool < budget <= GroupsPerToken(budget, pool) * pool
    ensures budget < 1 ==> GroupsPerToken(budget, pool) == 1
  {
    if budget >= 1 {
      DivMod(budget + pool - 1, pool);
    }
  }

  function AtLeastOne(pool: int): (size: nat)
    ensures size >= 1 && (pool >= 1 ==> size == pool) && (size == 1 || size == pool)
  {
    if pool < 1 then 1 else pool
  }

  lemma MembersBelow(groups: seq<nat>, entries: nat, pool: nat)
    requires pool >= 1 && forall i | 0 <= i < |groups| :: groups[i] < GroupCount(entries, pool)
    ensures forall i | 0 <= i < |Members(groups, entries, pool)| :: Members(groups, entries, pool)[i] < entries
  {
    if groups != [] {
      GroupRange(entries, pool, groups[0]);
      MembersBelow(groups[1..], entries, pool);
    }
  }

  ghost function ChosenGroups(row: seq<real>, pool: nat, count: nat): (groups: seq<nat>)
    requires pool >= 1
    ensures forall i | 0 <= i < |groups| :: groups[i] < |Coarse(row, pool)|
  {
    Top(Coarse(row, pool), count)
  }

  /** The entries of the best `count` groups. */
  ghost function Candidates(row: seq<real>, pool: nat, count: nat): (candidates: seq<nat>)
    requires pool >= 1
    ensures Indices(row, candidates)
  {
    MembersBelow(ChosenGroups(row, pool, count), |row|, pool);
    Members(ChosenGroups(row, pool, count), |row|, pool)
  }

  /** The candidate pool of a row that may see exactly the entries of `row`. */
  ghost function CandidatePool(row: seq<real>, topK: int, pool: int, budget: int): (candidates: seq<nat>)
    ensures Indices(row, candidates)
  {
    if row == [] || topK <= 0 then []
    else Candidates(row, AtLeastOne(pool), GroupsPerToken(budget, AtLeastOne(pool)))
  }

  ghost function Hierarchical(row: seq<real>, topK: int, pool: int, budget: int): (selection: seq<nat>)
    ensures forall i | 0 <= i < |selection| :: selection[i] < |row|
  {
    var candidates := CandidatePool(row, topK, pool, budget);
    PickIndices(candidates, Top(Pick(row, candidates), topK))
  }

  /** The exhaustive selection over the same entries. */
  ghost function Flat(row: seq<real>, topK: int): (selection: seq<nat>)
    ensures Indices(row, selection)
  {
    Top(row, topK)
  }

  // ---------- pigeonholes ----------

  ghost predicate AllDistinct(s: seq<nat>) {
    forall i, j | 0 <= i < j < |s| :: s[i] != s[j]
  }

  lemma {:induction false} DistinctFit(s: seq<nat>, room: set<nat>)
    requires AllDistinct(s)
    requires forall i | 0 <= i < |s| :: s[i] in room
    ensures |s| <= |room|
  {
    if s != [] {
      DistinctFit(s[1..], room - {s[0]});
    }
  }

  lemma {:induction false} SeqRoom(s: seq<nat>) returns (room: set<nat>)
    ensures forall x :: x in room <==> x in s
    ensures |room| <= |s|
  {
    if s == [] {
      room := {};
    } else {
      room := SeqRoom(s[1..]);
      room := room + {s[0]};
    }
  }

  /** Distinct items drawn from a sequence are no more than its length. */
  lemma Pigeonhole(s: seq<nat>, t: seq<nat>)
    requires AllDistinct(s)
    requires forall i | 0 <= i < |s| :: s[i] in t
    ensures |s| <= |t|
  {
    var room := SeqRoom(t);
    DistinctFit(s, room);
  }

  // ---------- selections with the same scores ----------

  /** Distinct entries in descending score order that no entry left out beats. */
  ghost predicate Leads(row: seq<real>, s: seq<nat>) {
    && Indices(row, s)
    && (forall i, j | 0 <= i < j < |s| :: s[i] != s[j] && row[s[i]] >= row[s[j]])
    && forall x: nat, y | x < |row| && x !in s && y in s :: row[x] <= row[y]
  }

  lemma TopLeads(row: seq<real>, topK: int)
    ensures Leads(row, Flat(row, topK))
  {
    var s := Flat(row, topK);
    TopRanked(row, topK);
    forall i, j | 0 <= i < j < |s| ensures s[i] != s[j] && row[s[i]] >= row[s[j]] {
      assert Better(row, s[i], s[j]);
    }
  }

  lemma LeadsNotAbove(row: seq<real>, s: seq<nat>, t: seq<nat>, i: nat)
    requires Leads(row, s) && Leads(row, t) && i < |s| && i < |t|
    ensures row[s[i]] <= row[t[i]]
  {
    if row[s[i]] > row[t[i]] {
      var front := s[..i + 1];
      forall k | 0 <= k < |front| ensures front[k] in t[..i] {
        assert row[s[k]] >= row[s[i]];
        assert t[i] in t;
        assert s[k] in t;
        var j :| 0 <= j < |t| && t[j] == s[k];
        assert j < i ==> t[..i][j] == s[k];
      }
      Pigeonhole(front, t[..i]);
    }
  }

  /** Leading selections of the same length have the same score sequence. */
  lemma LeadsSameScores(row: seq<real>, s: seq<nat>, t: seq<nat>)
    requires Leads(row, s) && Leads(row, t) && |s| == |t|
    ensures Pick(row, s) == Pick(row, t)
  {
    forall i | 0 <= i < |s| ensures row[s[i]] == row[t[i]] {
      LeadsNotAbove(row, s, t, i);
      LeadsNotAbove(row, t, s, i);
    }
  }

  // ---------- the candidate pool ----------

  ghost predicate Groups(groups: seq<nat>, entries: nat, pool: nat) {
    && pool >= 1
    && (forall i | 0 <= i < |groups| :: groups[i] < GroupCount(entries, pool))
    && AllDistinct(groups)
  }

  lemma Scaled(pool: nat, a: nat, b: nat)
    requires a <= b
    ensures a * pool <= b * pool
  {
  }

  lemma DivisionBlock(pool: nat, x: nat, group: nat)
    requires pool >= 1
    ensures group * pool <= x < (group + 1) * pool <==> x / pool == group
  {
    DivMod(x, pool);
    MultipleApart(group, x / pool, pool);
    MultipleApart(x / pool, group, pool);
    assert (group + 1) * pool == group * pool + pool;
  }

  lemma GroupOf(entries: nat, pool: nat, group: nat, x: nat)
    requires pool >= 1
    ensures group * pool <= x < GroupEnd(group, entries, pool) <==> x < entries && x / pool == group
    ensures x < entries ==> x / pool < GroupCount(entries, pool)
  {
    DivisionBlock(pool, x, group);
    if x < entries {
      NextQuotient(pool, x);
      QuotientMonotone(pool, x + pool, entries + pool - 1);
    }
  }

  lemma NextQuotient(pool: nat, x: nat)
    requires pool >= 1
    ensures (x + pool) / pool == x / pool + 1
  {
    var q := x / pool;
    DivMod(x, pool);
    assert (q + 1) * pool == q * pool + pool;
    QuotientAndOffset(pool, q + 1, x % pool);
  }

  /** The members of the groups are exactly the entries whose group was chosen. */
  lemma {:induction false} MembersIff(groups: seq<nat>, entries: nat, pool: nat, x: nat)
    requires Groups(groups, entries, pool)
    ensures x in Members(groups, entries, pool) <==> x < entries && x / pool in groups
  {
    if groups != [] {
      MembersIff(groups[1..], entries, pool, x);
      GroupRange(entries, pool, groups[0]);
      GroupOf(entries, pool, groups[0], x);
      var lo, hi := groups[0] * pool, GroupEnd(groups[0], entries, pool);
      assert lo <= x < hi ==> Range(lo, hi)[x - lo] == x;
      assert x / pool in groups <==> x / pool == groups[0] || x / pool in groups[1..];
    }
  }

  lemma DisjointDistinct(head: seq<nat>, tail: seq<nat>)
    requires AllDistinct(head) && AllDistinct(tail)
    requires forall i, j | 0 <= i < |head| && 0 <= j < |tail| :: head[i] != tail[j]
    ensures AllDistinct(head + tail)
  {
  }

  lemma {:induction false} MembersDistinct(groups: seq<nat>, entries: nat, pool: nat)
    requires Groups(groups, entries, pool)
    ensures AllDistinct(Members(groups, entries, pool))
  {
    if groups != [] {
      MembersDistinct(groups[1..], entries, pool);
      GroupRange(entries, pool, groups[0]);
      var lo, hi := groups[0] * pool, GroupEnd(groups[0], entries, pool);
      var head, tail := Range(lo, hi), Members(groups[1..], entries, pool);
      forall i, j | 0 <= i < |head| && 0 <= j < |tail| ensures head[i] != tail[j] {
        assert tail[j] in tail;
        MembersIff(groups[1..], entries, pool, tail[j]);
        GroupOf(entries, pool, groups[0], head[i]);
      }
      DisjointDistinct(head, tail);
    }
  }

  lemma CandidatesDistinct(row: seq<real>, pool: nat, count: nat)
    requires pool >= 1
    ensures AllDistinct(ChosenGroups(row, pool, count)) && AllDistinct(Candidates(row, pool, count))
  {
    TopRanked(Coarse(row, pool), count);
    MembersDistinct(ChosenGroups(row, pool, count), |row|, pool);
  }

  lemma Champion(row: seq<real>, pool: nat, group: nat) returns (best: nat)
    requires pool >= 1 && group < GroupCount(|row|, pool)
    ensures best < |row| && best / pool == group && row[best] == Coarse(row, pool)[group]
  {
    var lo, hi := group * pool, GroupEnd(group, |row|, pool);
    GroupRange(|row|, pool, group);
    var x :| lo <= x < hi && row[x] == MaxOf(row, lo, hi);
    GroupOf(|row|, pool, group, x);
    best := x;
  }

  /** The best entry of each chosen group. */
  lemma {:induction false} Champions(row: seq<real>, pool: nat, count: nat) returns (best: seq<nat>)
    requires pool >= 1
    ensures AllDistinct(best) && |best| == |ChosenGroups(row, pool, count)|
    ensures forall i | 0 <= i < |best| ::
              && best[i] in Candidates(row, pool, count) && best[i] < |row|
              && row[best[i]] == Coarse(row, pool)[ChosenGroups(row, pool, count)[i]]
  {
    hide Coarse, ChosenGroups, Members;
    var groups := ChosenGroups(row, pool, count);
    CandidatesDistinct(row, pool, count);
    best := [];
    for i := 0 to |groups|
      invariant |best| == i && AllDistinct(best)
      invariant forall j | 0 <= j < i :: best[j] / pool == groups[j]
      invariant forall j | 0 <= j < i ::
                  && best[j] in Candidates(row, pool, count) && best[j] < |row|
                  && row[best[j]] == Coarse(row, pool)[groups[j]]
    {
      var x := Champion(row, pool, groups[i]);
      assert groups[i] in groups;
      MembersIff(groups, |row|, pool, x);
      best := best + [x];
    }
  }

  lemma EntryBelowGroup(row: seq<real>, pool: nat, x: nat)
    requires pool >= 1 && x < |row|
    ensures x / pool < |Coarse(row, pool)| && row[x] <= Coarse(row, pool)[x / pool]
  {
    GroupOf(|row|, pool, x / pool, x);
    GroupRange(|row|, pool, x / pool);
  }

  // ---------- when the coarse stage loses nothing ----------

  lemma PickedLeads(row: seq<real>, candidates: seq<nat>, topK: int)
    requires AllDistinct(candidates) && Indices(row, candidates)
    ensures var s := PickIndices(candidates, Top(Pick(row, candidates), topK));
            && Indices(row, s) && |s| == (if topK <= 0 then 0 else Min(topK, |candidates|))
            && (forall i, j | 0 <= i < j < |s| :: s[i] != s[j] && row[s[i]] >= row[s[j]])
            && (forall i | 0 <= i < |s| :: s[i] in candidates)
            && forall x, y | x in candidates && x !in s && y in s :: x < |row| && y < |row| && row[x] <= row[y]
  {
    hide PickIndices, Top, Pick;
    var fine := Pick(row, candidates);
    var order := Top(fine, topK);
    var s := PickIndices(candidates, order);
    TopRanked(fine, topK);
    forall i, j | 0 <= i < j < |s| ensures s[i] != s[j] && row[s[i]] >= row[s[j]] {
      assert Better(fine, order[i], order[j]);
      assert candidates[order[i]] != candidates[order[j]];
    }
    forall x, y | x in candidates && x !in s && y in s ensures x < |row| && y < |row| && row[x] <= row[y] {
      UnpickedBelow(row, candidates, order, x, y);
    }
  }

  lemma UnpickedBelow(row: seq<real>, candidates: seq<nat>, order: seq<nat>, x: nat, y: nat)
    requires Indices(row, candidates) && forall i | 0 <= i < |order| :: order[i] < |candidates|
    requires forall p: nat, q | p < |candidates| && p !in order && q in order :: Better(Pick(row, candidates), q, p)
    requires x in candidates && x !in PickIndices(candidates, order) && y in PickIndices(candidates, order)
    ensures x < |row| && y < |row| && row[x] <= row[y]
  {
    hide PickIndices, Pick;
    var s := PickIndices(candidates, order);
    var p :| 0 <= p < |candidates| && candidates[p] == x;
    var k :| 0 <= k < |s| && s[k] == y;
    forall i | 0 <= i < |order| ensures order[i] != p {
      assert s[i] in s;
    }
    assert Better(Pick(row, candidates), order[k], p);
  }

  /** Enough groups were chosen for the budget not to matter. */
  ghost predicate EnoughGroups(entries: nat, topK: int, pool: int, budget: int) {
    var size := AtLeastOne(pool);
    topK <= GroupsPerToken(budget, size) || GroupCount(entries, size) <= GroupsPerToken(budget, size)
  }

  lemma MissingOne(s: seq<nat>, n: nat, missing: nat)
    requires AllDistinct(s) && missing < n && missing !in s
    requires forall i | 0 <= i < |s| :: s[i] < n
    ensures |s| < n
  {
    var more := [missing] + s;
    forall i | 0 <= i < |more| ensures more[i] in Range(0, n) {
      assert Range(0, n)[more[i]] == more[i];
    }
    assert AllDistinct(more) by {
      assert forall i | 0 <= i < |s| :: s[i] in s;
    }
    Pigeonhole(more, Range(0, n));
  }

  /** An entry whose group was not chosen is beaten by an entry of every chosen group. */
  lemma Outvoted(row: seq<real>, pool: nat, count: nat, x: nat) returns (best: seq<nat>)
    requires pool >= 1 && x < |row| && x !in Candidates(row, pool, count)
    ensures count < |Coarse(row, pool)|
    ensures |best| == count && AllDistinct(best)
    ensures forall i | 0 <= i < |best| ::
              best[i] < |row| && best[i] in Candidates(row, pool, count) && row[best[i]] >= row[x]
  {
    hide MaxOf, Members, Top;
    var coarse, groups, group := Coarse(row, pool), ChosenGroups(row, pool, count), x / pool;
    CandidatesDistinct(row, pool, count);
    MembersIff(groups, |row|, pool, x);
    EntryBelowGroup(row, pool, x);
    MissingOne(groups, |coarse|, group);
    best := Champions(row, pool, count);
    forall i | 0 <= i < |best| ensures row[best[i]] >= row[x] {
      NotChosenBelow(coarse, count, groups[i], group);
    }
  }

  lemma NotChosenBelow(values: seq<real>, count: nat, chosen: nat, left: nat)
    requires chosen in Top(values, count) && left < |values| && left !in Top(values, count)
    ensures chosen < |values| && values[left] <= values[chosen]
  {
    TopRanked(values, count);
    assert Better(values, chosen, left);
  }

  /** With enough groups the coarse-to-fine selection leads its row, at full length. */
  lemma HierarchicalLeads(row: seq<real>, topK: int, pool: int, budget: int)
    requires topK > 0 && row != [] && EnoughGroups(|row|, topK, pool, budget)
    ensures Leads(row, Hierarchical(row, topK, pool, budget))
    ensures |Hierarchical(row, topK, pool, budget)| == Min(topK, |row|)
  {
    var size, count := AtLeastOne(pool), GroupsPerToken(budget, AtLeastOne(pool));
    var candidates := Candidates(row, size, count);
    var s := Hierarchical(row, topK, pool, budget);
    CandidatesDistinct(row, size, count);
    PickedLeads(row, candidates, topK);
    forall x: nat, y | x < |row| && x !in s && y in s ensures row[x] <= row[y] {
      if x !in candidates && row[x] > row[y] {
        var best := Outvoted(row, size, count, x);
        BeatenByAll(row, candidates, topK, x, y, best);
      }
    }
    EnoughCandidates(row, size, count, topK);
  }

  /** `topK` distinct candidates above y leave no room for y in the selection. */
  lemma BeatenByAll(row: seq<real>, candidates: seq<nat>, topK: int, x: nat, y: nat, best: seq<nat>)
    requires AllDistinct(candidates) && Indices(row, candidates)
    requires y in PickIndices(candidates, Top(Pick(row, candidates), topK))
    requires 0 < topK <= |best| && AllDistinct(best) && x < |row|
    requires forall i | 0 <= i < |best| :: best[i] < |row| && best[i] in candidates && row[best[i]] >= row[x]
    ensures y < |row| && row[x] <= row[y]
  {
    hide PickIndices, Top, Pick;
    var s := PickIndices(candidates, Top(Pick(row, candidates), topK));
    PickedLeads(row, candidates, topK);
    if row[x] > row[y] {
      var more := [y] + best;
      forall i | 0 <= i < |more| ensures more[i] in s {
        assert i > 0 ==> more[i] == best[i - 1];
      }
      Pigeonhole(more, s);
    }
  }

  lemma EnoughCandidates(row: seq<real>, pool: nat, count: nat, topK: nat)
    requires pool >= 1
    requires topK <= count || |Coarse(row, pool)| <= count
    ensures Min(topK, |Candidates(row, pool, count)|) == Min(topK, |row|)
  {
    var candidates := Candidates(row, pool, count);
    CandidatesDistinct(row, pool, count);
    forall i | 0 <= i < |candidates| ensures candidates[i] in Range(0, |row|) {
      assert Range(0, |row|)[candidates[i]] == candidates[i];
    }
    Pigeonhole(candidates, Range(0, |row|));
    if x: nat :| x < |row| && x !in candidates {
      var best := Outvoted(row, pool, count, x);
      Pigeonhole(best, candidates);
    } else {
      Pigeonhole(Range(0, |row|), candidates);
    }
  }

  /** Hierarchical selection is exact: same score sequence as the exhaustive top-k. */
  lemma HierarchicalExact(row: seq<real>, topK: int, pool: int, budget: int)
    requires EnoughGroups(|row|, topK, pool, budget)
    ensures Pick(row, Hierarchical(row, topK, pool, budget)) == Pick(row, Flat(row, topK))
  {
    if topK > 0 && row != [] {
      HierarchicalLeads(row, topK, pool, budget);
      TopLeads(row, topK);
      LeadsSameScores(row, Hierarchical(row, topK, pool, budget), Flat(row, topK));
    }
  }

  /** With pairwise distinct scores even the entries are the same. */
  lemma HierarchicalSameEntries(row: seq<real>, topK: int, pool: int, budget: int)
    requires EnoughGroups(|row|, topK, pool, budget)
    requires forall i, j | 0 <= i < j < |row| :: row[i] != row[j]
    ensures Hierarchical(row, topK, pool, budget) == Flat(row, topK)
  {
    var s, t := Hierarchical(row, topK, pool, budget), Flat(row, topK);
    HierarchicalExact(row, topK, pool, budget);
    assert |s| == |Pick(row, s)| == |t|;
    forall i | 0 <= i < |s| ensures s[i] == t[i] {
      assert row[s[i]] == Pick(row, s)[i] == Pick(row, t)[i] == row[t[i]];
    }
  }

  // ---------- groups of one entry ----------

  lemma {:induction false} MembersOfOne(groups: seq<nat>, entries: nat)
    requires forall i | 0 <= i < |groups| :: groups[i] < entries == GroupCount(entries, 1)
    ensures Members(groups, entries, 1) == groups
  {
    if groups != [] {
      forall i | 0 <= i < |groups| - 1 ensures groups[1..][i] < entries {
        assert groups[1..][i] == groups[i + 1];
      }
      MembersOfOne(groups[1..], entries);
      assert Range(groups[0], groups[0] + 1) == [groups[0]];
    }
  }

  lemma SortedAlready(values: seq<real>)
    requires forall i, j | 0 <= i < j < |values| :: values[i] >= values[j]
    ensures ArgsortDescending(values) == Range(0, |values|)
  {
    var order := Range(0, |values|);
    SortedRanked(values, |values|);
    forall x: nat ensures x in order <==> x < |values| {
      assert x < |values| ==> order[x] == x;
    }
    RankedUnique(values, order, ArgsortDescending(values));
  }

  lemma CandidatesOfOne(row: seq<real>, count: nat)
    ensures Candidates(row, 1, count) == Top(row, count)
  {
    assert Coarse(row, 1) == row;
    MembersOfOne(Top(row, count), |row|);
  }

  /** Selecting again from what is already in ranked order takes a prefix. */
  lemma TopOfTop(row: seq<real>, count: nat, topK: nat)
    ensures var c := Top(row, count);
            PickIndices(c, Top(Pick(row, c), topK)) == c[..Min(topK, |c|)]
  {
    var c := Top(row, count);
    var fine := Pick(row, c);
    TopRanked(row, count);
    forall i, j | 0 <= i < j < |fine| ensures fine[i] >= fine[j] {
      assert Better(row, c[i], c[j]);
    }
    SortedAlready(fine);
  }

  /** With pool 1 the very same entries are selected, ties included. */
  lemma HierarchicalOfOne(row: seq<real>, topK: int, pool: int, budget: int)
    requires pool <= 1 && EnoughGroups(|row|, topK, pool, budget)
    ensures Hierarchical(row, topK, pool, budget) == Flat(row, topK)
  {
    if topK > 0 && row != [] {
      var count := GroupsPerToken(budget, 1);
      CandidatesOfOne(row, count);
      TopOfTop(row, count, topK);
    }
  }

  // ---------- when it does lose something ----------

  /** Every group's first entry scores one, everything else zero. */
  ghost function FirstsRow(entries: nat, size: nat): (row: seq<real>)
    requires size >= 1
    ensures |row| == entries && forall i | 0 <= i < entries :: row[i] == if i % size == 0 then 1.0 else 0.0
  {
    seq(entries, i requires 0 <= i < entries => if i % size == 0 then 1.0 else 0.0)
  }

  lemma Firsts(entries: nat, size: nat) returns (firsts: seq<nat>)
    requires size >= 1
    ensures |firsts| == GroupCount(entries, size) && AllDistinct(firsts)
    ensures forall i | 0 <= i < |firsts| :: firsts[i] < entries && FirstsRow(entries, size)[firsts[i]] == 1.0
  {
    firsts := [];
    for g := 0 to GroupCount(entries, size)
      invariant |firsts| == g && AllDistinct(firsts)
      invariant forall i | 0 <= i < g :: firsts[i] == i * size
      invariant forall i | 0 <= i < g :: firsts[i] < entries && FirstsRow(entries, size)[firsts[i]] == 1.0
    {
      GroupRange(entries, size, g);
      DivisionBlock(size, g * size, g);
      assert g * size % size == 0;
      forall i | 0 <= i < g ensures firsts[i] != g * size {
        Scaled(size, i + 1, g);
      }
      firsts := firsts + [g * size];
    }
  }

  lemma FlatTakesFirsts(entries: nat, size: nat, topK: int, count: nat)
    requires size >= 1 && count < topK && count < GroupCount(entries, size)
    ensures var row := FirstsRow(entries, size);
            |Flat(row, topK)| > count && Pick(row, Flat(row, topK))[count] == 1.0
  {
    var row := FirstsRow(entries, size);
    var s := Flat(row, topK);
    var firsts := Firsts(entries, size);
    TopLeads(row, topK);
    forall i | 0 <= i < |firsts| ensures firsts[i] in Range(0, entries) {
      assert Range(0, entries)[firsts[i]] == firsts[i];
    }
    Pigeonhole(firsts, Range(0, entries));
    if row[s[count]] != 1.0 {
      forall i | 0 <= i < |firsts| ensures firsts[i] in s[..count] {
        assert s[count] in s;
        var j :| 0 <= j < |s| && s[j] == firsts[i];
        assert j < count;
        assert s[..count][j] == firsts[i];
      }
      Pigeonhole(firsts, s[..count]);
    }
  }

  /** No two entries of one group score one, and nothing scores more. */
  ghost predicate OnePerGroup(row: seq<real>, size: nat)
    requires size >= 1
  {
    && (forall x | 0 <= x < |row| :: row[x] <= 1.0)
    && forall x, y | 0 <= x < y < |row| && row[x] == 1.0 && row[y] == 1.0 :: x / size != y / size
  }

  lemma FirstsOnePerGroup(entries: nat, size: nat)
    requires size >= 1
    ensures OnePerGroup(FirstsRow(entries, size), size)
  {
    forall x, y | 0 <= x < y < entries && x % size == 0 && y % size == 0 ensures x / size != y / size {
      assert x == x / size * size && y == y / size * size;
    }
  }

  lemma CandidateGroup(row: seq<real>, size: nat, count: nat, x: nat)
    requires size >= 1 && x in Candidates(row, size, count)
    ensures x / size in ChosenGroups(row, size, count)
  {
    CandidatesDistinct(row, size, count);
    MembersIff(ChosenGroups(row, size, count), |row|, size, x);
  }

  lemma GroupsUsed(row: seq<real>, size: nat, count: nat, s: seq<nat>)
    requires size >= 1 && OnePerGroup(row, size) && AllDistinct(s)
    requires forall i | 0 <= i < |s| :: s[i] in Candidates(row, size, count) && s[i] < |row| && row[s[i]] == 1.0
    ensures |s| <= count
  {
    hide Candidates;
    var used: seq<nat> := [];
    for i := 0 to |s|
      invariant |used| == i && AllDistinct(used)
      invariant forall j | 0 <= j < i :: used[j] in ChosenGroups(row, size, count) && used[j] == s[j] / size
    {
      CandidateGroup(row, size, count, s[i]);
      used := used + [s[i] / size];
    }
    Pigeonhole(used, ChosenGroups(row, size, count));
  }

  lemma HierarchicalSorted(row: seq<real>, topK: int, pool: int, budget: int)
    requires row != [] && topK > 0
    ensures var s := Hierarchical(row, topK, pool, budget);
            && AllDistinct(s) && Indices(row, s)
            && (forall i, j | 0 <= i < j < |s| :: row[s[i]] >= row[s[j]])
            && forall i | 0 <= i < |s| ::
                 s[i] in Candidates(row, AtLeastOne(pool), GroupsPerToken(budget, AtLeastOne(pool)))
  {
    hide Candidates, GroupsPerToken;
    var size, count := AtLeastOne(pool), GroupsPerToken(budget, AtLeastOne(pool));
    CandidatesDistinct(row, size, count);
    PickedLeads(row, Candidates(row, size, count), topK);
  }

  /** More ones than groups cannot all lead. */
  lemma OnesRunOut(row: seq<real>, size: nat, count: nat, s: seq<nat>)
    requires size >= 1 && OnePerGroup(row, size) && AllDistinct(s) && Indices(row, s) && count < |s|
    requires forall i, j | 0 <= i < j < |s| :: row[s[i]] >= row[s[j]]
    requires forall i | 0 <= i < |s| :: s[i] in Candidates(row, size, count)
    ensures row[s[count]] != 1.0
  {
    hide Candidates;
    if row[s[count]] == 1.0 {
      var front := s[..count + 1];
      OnesFirst(row, size, s, count, front);
      GroupsUsed(row, size, count, front);
    }
  }

  lemma OnesFirst(row: seq<real>, size: nat, s: seq<nat>, last: nat, front: seq<nat>)
    requires last < |s| && front == s[..last + 1]
    requires size >= 1 && OnePerGroup(row, size) && Indices(row, s) && last < |s| && row[s[last]] == 1.0
    requires forall i, j | 0 <= i < j < |s| :: row[s[i]] >= row[s[j]]
    ensures forall i | 0 <= i < |front| :: front[i] < |row| && row[front[i]] == 1.0
  {
    forall i | 0 <= i < |front| ensures front[i] < |row| && row[front[i]] == 1.0 {
      assert i == last || row[s[i]] >= row[s[last]];
    }
  }

  lemma HierarchicalRunsOut(row: seq<real>, topK: int, pool: int, budget: int)
    requires row != [] && topK > 0 && OnePerGroup(row, AtLeastOne(pool))
    ensures var count := GroupsPerToken(budget, AtLeastOne(pool));
            var picked := Pick(row, Hierarchical(row, topK, pool, budget));
            |picked| > count ==> picked[count] != 1.0
  {
    hide Hierarchical, Candidates, GroupsPerToken, OnePerGroup, AllDistinct;
    HierarchicalSorted(row, topK, pool, budget);
    var s, count := Hierarchical(row, topK, pool, budget), GroupsPerToken(budget, AtLeastOne(pool));
    if |s| > count {
      OnesRunOut(row, AtLeastOne(pool), count, s);
    }
  }

  /** Hierarchical selection returns the exhaustive selection's scores on every row exactly when
      it may keep `topK` groups, or all of them. */
  lemma HierarchicalExactIff(entries: nat, topK: int, pool: int, budget: int)
    ensures (forall row: seq<real> | |row| == entries ::
              Pick(row, Hierarchical(row, topK, pool, budget)) == Pick(row, Flat(row, topK)))
            <==> EnoughGroups(entries, topK, pool, budget)
  {
    if EnoughGroups(entries, topK, pool, budget) {
      forall row: seq<real> | |row| == entries
        ensures Pick(row, Hierarchical(row, topK, pool, budget)) == Pick(row, Flat(row, topK))
      {
        HierarchicalExact(row, topK, pool, budget);
      }
    } else {
      var size := AtLeastOne(pool);
      var row := FirstsRow(entries, size);
      FlatTakesFirsts(entries, size, topK, GroupsPerToken(budget, size));
      FirstsOnePerGroup(entries, size);
      HierarchicalRunsOut(row, topK, pool, budget);
      assert |row| == entries && Pick(row, Hierarchical(row, topK, pool, budget)) != Pick(row, Flat(row, topK));
    }
  }
}
