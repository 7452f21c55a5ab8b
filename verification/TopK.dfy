/** Bounded-heap top-k selection, proved equal to sorting everything and taking a prefix. */
module TopK {
  /** Whether index a outranks b: larger value, or equal value and smaller index. */
  predicate Better(values: seq<real>, a: nat, b: nat)
    requires a < |values| && b < |values|
  {
    if values[a] != values[b] then values[a] > values[b] else a < b
  }

  ghost predicate Indices(values: seq<real>, s: seq<nat>) {
    forall i | 0 <= i < |s| :: s[i] < |values|
  }

  ghost predicate Ranked(values: seq<real>, s: seq<nat>)
    requires Indices(values, s)
  {
    forall i, j | 0 <= i < j < |s| :: Better(values, s[i], s[j])
  }

  function Insert(values: seq<real>, index: nat, order: seq<nat>): (r: seq<nat>)
    requires index < |values| && forall i | 0 <= i < |order| :: order[i] < |values|
    ensures |r| == |order| + 1 && forall i | 0 <= i < |r| :: r[i] < |values|
  {
    if order == [] then [index]
    else if Better(values, index, order[0]) then [index] + order
    else [order[0]] + Insert(values, index, order[1..])
  }

  /** The indices below n by descending value, ties toward the smaller index. */
  function Sorted(values: seq<real>, n: nat): (r: seq<nat>)
    requires n <= |values|
    ensures |r| == n && forall i | 0 <= i < |r| :: r[i] < |values|
  {
    if n == 0 then [] else Insert(values, n - 1, Sorted(values, n - 1))
  }

  function ArgsortDescending(values: seq<real>): (r: seq<nat>)
    ensures |r| == |values| && forall i | 0 <= i < |r| :: r[i] < |values|
  {
    Sorted(values, |values|)
  }

  lemma {:induction false} InsertRanked(values: seq<real>, index: nat, order: seq<nat>)
    requires index < |values| && Indices(values, order) && Ranked(values, order) && index !in order
    ensures Ranked(values, Insert(values, index, order))
    ensures forall x :: x in Insert(values, index, order) <==> x == index || x in order
  {
    if order == [] {
    } else if Better(values, index, order[0]) {
    } else {
      InsertRanked(values, index, order[1..]);
      var rest := Insert(values, index, order[1..]);
      forall j | 0 <= j < |rest| ensures Better(values, order[0], rest[j]) {
        if rest[j] != index {
          assert rest[j] in order[1..];
          var i :| 0 <= i < |order[1..]| && order[1..][i] == rest[j];
          assert Better(values, order[0], order[i + 1]);
        }
      }
      assert forall x :: x in order <==> x == order[0] || x in order[1..];
    }
  }

  /** Sorting ranks every index exactly once. */
  lemma {:induction false} SortedRanked(values: seq<real>, n: nat)
    requires n <= |values|
    ensures Ranked(values, Sorted(values, n))
    ensures forall x: nat :: x in Sorted(values, n) <==> x < n
  {
    if n > 0 {
      SortedRanked(values, n - 1);
      InsertRanked(values, n - 1, Sorted(values, n - 1));
    }
  }

  lemma RankedDistinct(values: seq<real>, s: seq<nat>)
    requires Indices(values, s) && Ranked(values, s)
    ensures forall i, j | 0 <= i < j < |s| :: s[i] != s[j]
  {
    forall i, j | 0 <= i < j < |s| ensures s[i] != s[j] {
      assert Better(values, s[i], s[j]);
    }
  }

  /** Ranked sequences over the same indices, where nothing outside a prefix beats it, agree. */
  lemma {:induction false} RankedUnique(values: seq<real>, s: seq<nat>, t: seq<nat>)
    requires Indices(values, s) && Indices(values, t) && Ranked(values, s) && Ranked(values, t)
    requires forall x :: x in s <==> x in t
    ensures s == t
  {
    if s == [] {
      assert forall i | 0 <= i < |t| :: t[i] in s;
    } else {
      assert s[0] in t;
      assert t != [] && t[0] in s;
      var i :| 0 <= i < |s| && s[i] == t[0];
      var j :| 0 <= j < |t| && t[j] == s[0];
      RankedDistinct(values, s);
      RankedDistinct(values, t);
      forall x ensures x in s[1..] <==> x in t[1..] {
        if x in s[1..] {
          assert x in s && x in t && x != s[0];
        }
        if x in t[1..] {
          assert x in t && x in s && x != t[0];
        }
      }
      RankedUnique(values, s[1..], t[1..]);
    }
  }

  /** A ranked selection that nothing outside beats is the prefix of the sort. */
  lemma {:induction false} BestPrefix(values: seq<real>, s: seq<nat>)
    requires Indices(values, s) && Ranked(values, s)
    requires forall x: nat, y | x < |values| && x !in s && y in s :: Better(values, y, x)
    ensures |s| <= |values| && s == ArgsortDescending(values)[..|s|]
  {
    var full := ArgsortDescending(values);
    SortedRanked(values, |values|);
    // Append the unselected indices in their sorted order: the result is ranked and complete.
    var rest := Unselected(values, full, s);
    var all := s + rest;
    forall i, j | 0 <= i < j < |all| ensures Better(values, all[i], all[j]) {
      if i < |s| <= j {
        assert all[j] in rest && all[i] in s;
      } else if |s| <= i {
        assert Better(values, rest[i - |s|], rest[j - |s|]);
      }
    }
    RankedUnique(values, all, full);
  }

  ghost function Unselected(values: seq<real>, order: seq<nat>, s: seq<nat>): (rest: seq<nat>)
    requires Indices(values, order) && Ranked(values, order)
    ensures Indices(values, rest) && Ranked(values, rest)
    ensures forall x :: x in rest <==> x in order && x !in s
  {
    if order == [] then []
    else
      assert forall x :: x in order <==> x == order[0] || x in order[1..];
      var tail := Unselected(values, order[1..], s);
      assert forall x | x in order[1..] :: Better(values, order[0], x);
      if order[0] in s then tail else [order[0]] + tail
  }

  // ---------- the bounded heap ----------

  function Parent(c: nat): nat
    requires c >= 1
  {
    (c - 1) / 2
  }

  /** The parent of c does not outrank it. */
  ghost predicate Ordered(values: seq<real>, heap: seq<nat>, c: nat)
    requires 1 <= c < |heap| && Indices(values, heap)
  {
    !Better(values, heap[Parent(c)], heap[c])
  }

  /** No parent outranks a child, so the root is the worst retained index. */
  ghost predicate HeapOrder(values: seq<real>, heap: seq<nat>) {
    Indices(values, heap) && forall c | 1 <= c < |heap| :: Ordered(values, heap, c)
  }

  /** The grandparent of c does not outrank it. */
  ghost predicate Skips(values: seq<real>, heap: seq<nat>, c: nat)
    requires 1 <= c < |heap| && Indices(values, heap)
  {
    Parent(c) >= 1 ==> !Better(values, heap[Parent(Parent(c))], heap[c])
  }

  /** Heap order, except that the entry at `hole` may be outranked by its parent. */
  ghost predicate OrderAbove(values: seq<real>, heap: seq<nat>, hole: nat) {
    && Indices(values, heap)
    && forall c | 1 <= c < |heap| :: (c != hole ==> Ordered(values, heap, c)) && (Parent(c) == hole ==> Skips(values, heap, c))
  }

  /** Heap order, except that the entry at `hole` may outrank its children. */
  ghost predicate OrderBelow(values: seq<real>, heap: seq<nat>, hole: nat) {
    && Indices(values, heap)
    && forall c | 1 <= c < |heap| :: if Parent(c) == hole then Skips(values, heap, c) else Ordered(values, heap, c)
  }

  function Swap(heap: seq<nat>, i: nat, j: nat): seq<nat>
    requires i < |heap| && j < |heap|
  {
    heap[i := heap[j]][j := heap[i]]
  }

  lemma SwapMultiset(heap: seq<nat>, i: nat, j: nat)
    requires i < |heap| && j < |heap|
    ensures multiset(Swap(heap, i, j)) == multiset(heap)
  {
  }

  lemma UpStep(values: seq<real>, heap: seq<nat>, hole: nat)
    requires 1 <= hole < |heap| && OrderAbove(values, heap, hole) && !Ordered(values, heap, hole)
    ensures OrderAbove(values, Swap(heap, Parent(hole), hole), Parent(hole))
  {
    var parent := Parent(hole);
    var swapped := Swap(heap, parent, hole);
    forall c | 1 <= c < |heap|
      ensures c != parent ==> Ordered(values, swapped, c)
      ensures Parent(c) == parent ==> Skips(values, swapped, c)
    {
      assert c != hole ==> Ordered(values, heap, c);
      assert Parent(c) == hole ==> Skips(values, heap, c);
      assert parent >= 1 ==> Ordered(values, heap, parent);
    }
  }

  lemma BelowIndices(values: seq<real>, heap: seq<nat>, hole: nat)
    requires OrderBelow(values, heap, hole)
    ensures Indices(values, heap)
  {
  }

  lemma DownStep(values: seq<real>, heap: seq<nat>, hole: nat, worst: nat)
    requires 1 <= worst < |heap| && Parent(worst) == hole && OrderBelow(values, heap, hole)
    requires !Ordered(values, heap, worst)
    requires !Better(values, heap[worst], heap[2 * hole + 1])
    requires 2 * hole + 2 < |heap| ==> !Better(values, heap[worst], heap[2 * hole + 2])
    ensures OrderBelow(values, Swap(heap, hole, worst), worst)
  {
    var swapped := Swap(heap, hole, worst);
    forall c | 1 <= c < |heap|
      ensures if Parent(c) == worst then Skips(values, swapped, c) else Ordered(values, swapped, c)
    {
      assert Parent(c) == hole ==> c == 2 * hole + 1 || c == 2 * hole + 2;
      assert Parent(c) != hole ==> Ordered(values, heap, c);
      assert Skips(values, heap, worst);
    }
  }

  lemma DownDone(values: seq<real>, heap: seq<nat>, hole: nat)
    requires OrderBelow(values, heap, hole)
    requires 2 * hole + 1 < |heap| ==> !Better(values, heap[hole], heap[2 * hole + 1])
    requires 2 * hole + 2 < |heap| ==> !Better(values, heap[hole], heap[2 * hole + 2])
    ensures HeapOrder(values, heap)
  {
    forall c | 1 <= c < |heap|
      ensures Ordered(values, heap, c)
    {
      assert Parent(c) == hole ==> c == 2 * hole + 1 || c == 2 * hole + 2;
      assert Parent(c) != hole ==> Ordered(values, heap, c);
    }
  }

  method SiftUpIndex(values: seq<real>, heap: array<nat>, size: nat, start: nat)
    requires start < size <= heap.Length && OrderAbove(values, heap[..size], start)
    modifies heap
    ensures HeapOrder(values, heap[..size])
    ensures multiset(heap[..size]) == multiset(old(heap[..size]))
  {
    var position := start;
    while position > 0
      invariant 0 <= position < size
      invariant OrderAbove(values, heap[..size], position)
      invariant multiset(heap[..size]) == multiset(old(heap[..size]))
    {
      var parent := (position - 1) / 2;
      ghost var before := heap[..size];
      if !Better(values, heap[parent], heap[position]) {
        assert Ordered(values, before, position);
        break;
      }
      UpStep(values, before, position);
      SwapMultiset(before, parent, position);
      heap[parent], heap[position] := heap[position], heap[parent];
      assert heap[..size] == Swap(before, parent, position);
      position := parent;
    }
  }

  method SiftDownIndex(values: seq<real>, heap: array<nat>, size: nat, start: nat)
    requires size <= heap.Length && OrderBelow(values, heap[..size], start)
    modifies heap
    ensures HeapOrder(values, heap[..size])
    ensures multiset(heap[..size]) == multiset(old(heap[..size]))
  {
    hide OrderBelow, HeapOrder;
    var position := start;
    while true
      invariant OrderBelow(values, heap[..size], position)
      invariant multiset(heap[..size]) == multiset(old(heap[..size]))
      decreases size - position
    {
      ghost var before := heap[..size];
      BelowIndices(values, before, position);
      assert forall i | 0 <= i < size :: before[i] == heap[i];
      var left := 2 * position + 1;
      if left >= size {
        DownDone(values, before, position);
        return;
      }
      var worst := position;
      if Better(values, heap[position], heap[left]) {
        worst := left;
      }
      var right := left + 1;
      if right < size && Better(values, heap[worst], heap[right]) {
        worst := right;
      }
      if worst == position {
        DownDone(values, before, position);
        return;
      }
      DownStep(values, before, position, worst);
      SwapMultiset(before, position, worst);
      heap[position], heap[worst] := heap[worst], heap[position];
      assert heap[..size] == Swap(before, position, worst);
      position := worst;
    }
  }

  lemma {:induction false} RootWorst(values: seq<real>, heap: seq<nat>, i: nat)
    requires HeapOrder(values, heap) && i < |heap|
    ensures !Better(values, heap[0], heap[i])
  {
    if i > 0 {
      RootWorst(values, heap, Parent(i));
      assert Ordered(values, heap, i);
    }
  }

  ghost predicate Worst(values: seq<real>, heap: multiset<nat>, worst: nat) {
    && worst in heap && worst < |values|
    && forall y | y in heap :: y < |values| && (y == worst || Better(values, y, worst))
  }

  lemma RootWorstOfAll(values: seq<real>, heap: seq<nat>)
    requires HeapOrder(values, heap) && heap != []
    ensures Worst(values, multiset(heap), heap[0])
  {
    forall y | y in multiset(heap) ensures y < |values| && (y == heap[0] || Better(values, y, heap[0])) {
      var i :| 0 <= i < |heap| && heap[i] == y;
      RootWorst(values, heap, i);
    }
  }

  /** `kept` are distinct indices below n, and every index below n left out is worse than all of
      them. */
  ghost predicate Kept(values: seq<real>, kept: multiset<nat>, n: nat) {
    && (forall x | x in kept :: x < n <= |values| && kept[x] == 1)
    && forall x: nat, y | x < n && n <= |values| && x !in kept && y in kept :: Better(values, y, x)
  }

  /** The heap's contents after scanning n values with room for k. */
  ghost predicate Scanned(values: seq<real>, kept: multiset<nat>, n: nat, k: nat) {
    Kept(values, kept, n) && (n <= k ==> forall x: nat | x < n :: x in kept)
  }

  lemma ScannedPush(values: seq<real>, kept: multiset<nat>, n: nat, k: nat)
    requires Scanned(values, kept, n, k) && n < k && n < |values|
    ensures Scanned(values, kept + multiset{n}, n + 1, k)
  {
  }

  lemma ScannedSkip(values: seq<real>, kept: multiset<nat>, n: nat, k: nat, root: nat)
    requires Scanned(values, kept, n, k) && k <= n < |values| && Worst(values, kept, root)
    requires !Better(values, n, root)
    ensures Scanned(values, kept, n + 1, k)
  {
  }

  lemma ScannedReplace(values: seq<real>, kept: multiset<nat>, n: nat, k: nat, root: nat)
    requires Scanned(values, kept, n, k) && k <= n < |values| && Worst(values, kept, root)
    requires Better(values, n, root)
    ensures Scanned(values, kept - multiset{root} + multiset{n}, n + 1, k)
  {
  }

  method PushIndex(values: seq<real>, heap: array<nat>, size: nat, index: nat)
    requires size < heap.Length && HeapOrder(values, heap[..size]) && index < |values|
    modifies heap
    ensures HeapOrder(values, heap[..size + 1])
    ensures multiset(heap[..size + 1]) == multiset(old(heap[..size])) + multiset{index}
  {
    ghost var before := heap[..size];
    heap[size] := index;
    assert heap[..size + 1] == before + [index];
    forall c | 1 <= c < size ensures Ordered(values, before + [index], c) {
      assert Ordered(values, before, c);
    }
    SiftUpIndex(values, heap, size + 1, size);
  }

  lemma RootHole(values: seq<real>, heap: seq<nat>, x: nat)
    requires HeapOrder(values, heap) && heap != [] && x < |values|
    ensures OrderBelow(values, heap[0 := x], 0)
    ensures multiset(heap[0 := x]) == multiset(heap) - multiset{heap[0]} + multiset{x}
  {
    var changed := heap[0 := x];
    forall c | 1 <= c < |heap| && Parent(c) != 0 ensures Ordered(values, changed, c) {
      assert Ordered(values, heap, c);
    }
  }

  method ReplaceWorst(values: seq<real>, heap: array<nat>, index: nat)
    requires heap.Length > 0 && HeapOrder(values, heap[..]) && index < |values|
    modifies heap
    ensures HeapOrder(values, heap[..])
    ensures multiset(heap[..]) == multiset(old(heap[..])) - multiset{old(heap[0])} + multiset{index}
  {
    hide HeapOrder, OrderBelow, Better;
    ghost var before := heap[..];
    assert before[0] == heap[0];
    RootHole(values, before, index);
    heap[0] := index;
    ghost var filled := heap[..heap.Length];
    assert filled == before[0 := index];
    SiftDownIndex(values, heap, heap.Length, 0);
    assert heap[..heap.Length] == heap[..];
  }

  /** Scans the values keeping the k best indices in the heap. */
  method FillHeap(values: seq<real>, k: nat) returns (heap: array<nat>)
    requires 0 < k < |values|
    ensures fresh(heap) && heap.Length == k
    ensures HeapOrder(values, heap[..]) && Kept(values, multiset(heap[..]), |values|)
  {
    heap := new nat[k];
    var size := 0;
    for index := 0 to |values|
      invariant size == if index < k then index else k
      invariant HeapOrder(values, heap[..size]) && Scanned(values, multiset(heap[..size]), index, k)
    {
      ghost var kept := multiset(heap[..size]);
      if size < k {
        ScannedPush(values, kept, index, k);
        PushIndex(values, heap, size, index);
        size := size + 1;
      } else {
        assert heap[..size] == heap[..];
        RootWorstOfAll(values, heap[..]);
        if Better(values, index, heap[0]) {
          ScannedReplace(values, kept, index, k, heap[0]);
          ReplaceWorst(values, heap, index);
          assert heap[..size] == heap[..];
        } else {
          ScannedSkip(values, kept, index, k, heap[0]);
        }
      }
    }
    assert heap[..k] == heap[..];
  }

  lemma Cancel(a: multiset<nat>, b: multiset<nat>, x: nat)
    requires a + multiset{x} == b + multiset{x}
    ensures a == b
  {
    forall y ensures a[y] == b[y] {
      assert (a + multiset{x})[y] == (b + multiset{x})[y];
    }
  }

  lemma RootDropped(values: seq<real>, heap: seq<nat>, shrunk: seq<nat>)
    requires HeapOrder(values, heap) && heap != []
    requires shrunk == heap[0 := heap[|heap| - 1]][..|heap| - 1]
    ensures OrderBelow(values, shrunk, 0) && multiset(shrunk) == multiset(heap) - multiset{heap[0]}
  {
    var n := |heap| - 1;
    RootHole(values, heap, heap[n]);
    assert heap[0 := heap[n]] == shrunk + [heap[n]];
    assert multiset(shrunk + [heap[n]]) == multiset(shrunk) + multiset{heap[n]};
    Cancel(multiset(shrunk), multiset(heap) - multiset{heap[0]}, heap[n]);
    forall c | 1 <= c < n && Parent(c) != 0 ensures Ordered(values, shrunk, c) {
      assert Ordered(values, heap, c);
    }
  }

  method PopWorst(values: seq<real>, heap: array<nat>, size: nat) returns (worst: nat)
    requires 0 < size <= heap.Length && HeapOrder(values, heap[..size])
    modifies heap
    ensures HeapOrder(values, heap[..size - 1])
    ensures Worst(values, multiset(old(heap[..size])), worst)
    ensures multiset(heap[..size - 1]) == multiset(old(heap[..size])) - multiset{worst}
  {
    hide OrderBelow, HeapOrder, Worst;
    ghost var before := heap[..size];
    RootWorstOfAll(values, before);
    worst := heap[0];
    assert worst == before[0];
    heap[0] := heap[size - 1];
    RootDropped(values, before, heap[..size - 1]);
    SiftDownIndex(values, heap, size - 1, 0);
  }

  /** `placed` is ranked and every index still in the heap is better than all of it. */
  ghost predicate Drained(values: seq<real>, heap: multiset<nat>, placed: seq<nat>, all: multiset<nat>) {
    && heap + multiset(placed) == all
    && Indices(values, placed) && Ranked(values, placed)
    && forall x, y | x in heap && y in placed :: x < |values| && Better(values, x, y)
  }

  lemma DrainStep(values: seq<real>, heap: multiset<nat>, placed: seq<nat>, all: multiset<nat>, worst: nat)
    requires Drained(values, heap, placed, all) && Kept(values, all, |values|) && Worst(values, heap, worst)
    ensures Drained(values, heap - multiset{worst}, [worst] + placed, all)
  {
    assert all[worst] == 1;
    assert multiset([worst] + placed) == multiset{worst} + multiset(placed);
    assert forall y :: y in [worst] + placed <==> y == worst || y in placed;
  }

  lemma Prepend(s: seq<nat>, i: nat, x: nat)
    requires i < |s|
    ensures s[i := x][i..] == [x] + s[i + 1..]
  {
  }

  /** Pops the worst entry again and again: the result is in ranked order. */
  method Drain(values: seq<real>, heap: array<nat>) returns (ordered: array<nat>)
    requires HeapOrder(values, heap[..]) && Kept(values, multiset(heap[..]), |values|)
    modifies heap
    ensures multiset(ordered[..]) == multiset(old(heap[..]))
    ensures Indices(values, ordered[..]) && Ranked(values, ordered[..])
  {
    hide HeapOrder, Kept, Better, Drained, Worst, Indices, Ranked;
    ordered := new nat[heap.Length];
    var size := heap.Length;
    ghost var all, placed: seq<nat> := multiset(heap[..]), [];
    assert heap[..size] == heap[..];
    NothingDrained(values, all);
    while size > 0
      invariant 0 <= size <= heap.Length == ordered.Length
      invariant HeapOrder(values, heap[..size])
      invariant ordered[size..] == placed
      invariant Drained(values, multiset(heap[..size]), placed, all)
    {
      ghost var before := multiset(heap[..size]);
      var worst := PopWorst(values, heap, size);
      DrainStep(values, before, placed, all, worst);
      Prepend(ordered[..], size - 1, worst);
      size := size - 1;
      ordered[size] := worst;
      placed := [worst] + placed;
    }
    assert ordered[0..] == ordered[..] && multiset(heap[..0]) == multiset{};
    AllDrained(values, placed, all);
  }

  lemma NothingDrained(values: seq<real>, all: multiset<nat>)
    ensures Drained(values, all, [], all)
  {
  }

  lemma AllDrained(values: seq<real>, placed: seq<nat>, all: multiset<nat>)
    requires Drained(values, multiset{}, placed, all)
    ensures multiset(placed) == all && Indices(values, placed) && Ranked(values, placed)
  {
  }

  function Min(a: nat, b: nat): nat {
    if a < b then a else b
  }

  /** The first k of the full sort. */
  ghost function Top(values: seq<real>, k: int): (top: seq<nat>)
    ensures |top| == if k <= 0 then 0 else Min(k, |values|)
    ensures Indices(values, top)
  {
    if k <= 0 then [] else ArgsortDescending(values)[..Min(k, |values|)]
  }

  /** The top k are distinct, in ranked order, and every index left out is worse. */
  lemma TopRanked(values: seq<real>, k: int)
    ensures Ranked(values, Top(values, k))
    ensures forall i, j | 0 <= i < j < |Top(values, k)| :: Top(values, k)[i] != Top(values, k)[j]
    ensures forall x: nat, y | x < |values| && x !in Top(values, k) && y in Top(values, k) :: Better(values, y, x)
  {
    var full, top := ArgsortDescending(values), Top(values, k);
    SortedRanked(values, |values|);
    RankedDistinct(values, full);
    forall x: nat, y | x < |values| && x !in top && y in top ensures Better(values, y, x) {
      assert x in full;
      var i :| 0 <= i < |full| && full[i] == x;
      var j :| 0 <= j < |top| && top[j] == y;
      assert i >= |top|;
      assert Better(values, full[j], full[i]);
    }
  }

  /** The bounded selection returns exactly the first k of the full sort, ties included. */
  method TopKIndices(values: seq<real>, k: int) returns (top: seq<nat>)
    ensures top == Top(values, k)
  {
    if k <= 0 {
      return [];
    }
    if k >= |values| {
      return ArgsortDescending(values);
    }
    if k * 4 >= |values| {
      return ArgsortDescending(values)[..k];
    }
    var heap := FillHeap(values, k);
    ghost var kept := heap[..];
    var ordered := Drain(values, heap);
    top := ordered[..];
    forall x: nat, y | x < |values| && x !in top && y in top ensures Better(values, y, x) {
      assert x !in multiset(top) && y in multiset(top);
    }
    BestPrefix(values, top);
    assert |multiset(kept)| == k && |multiset(top)| == k;
  }
}
