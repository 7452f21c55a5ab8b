/** Lists of float buffers on the wire: of each buffer only the used prefix is written, and the
    rest comes back as zeros. */
module KvLists {
  import opened Bytes
  import opened KvWire

  function Repeat(n: nat, count: int): (counts: seq<int>)
    ensures |counts| == n
    ensures forall i | 0 <= i < n :: counts[i] == count
  {
    seq(n, i => count)
  }

  ghost function Used(buffer: Floats, count: int): Floats {
    if 0 <= count <= |buffer| then buffer[..count] else []
  }

  /** The buffer a reader rebuilds: the used prefix, then zeros. */
  ghost function Trim(buffer: Floats, count: int): (trimmed: Floats)
    ensures 0 <= count <= |buffer| ==> |trimmed| == |buffer|
  {
    if 0 <= count <= |buffer| then buffer[..count] + Zeros(|buffer| - count) else []
  }

  lemma UsedTrim(buffer: Floats, count: int)
    ensures 0 <= count <= |buffer| ==>
              |Used(buffer, count)| == count && Trim(buffer, count) == Used(buffer, count) + Zeros(|buffer| - count)
  {
  }

  ghost predicate Matches(buffers: seq<Floats>, counts: seq<int>, capacity: nat) {
    && |buffers| == |counts|
    && forall i | 0 <= i < |buffers| :: |buffers[i]| == capacity && 0 <= counts[i] <= capacity
  }

  ghost predicate InRange(counts: seq<int>, capacity: nat) {
    forall i | 0 <= i < |counts| :: 0 <= counts[i] <= capacity
  }

  ghost function TrimAll(buffers: seq<Floats>, counts: seq<int>): (trimmed: seq<Floats>)
    requires |buffers| == |counts|
    ensures |trimmed| == |buffers|
    ensures forall i | 0 <= i < |buffers| :: trimmed[i] == Trim(buffers[i], counts[i])
  {
    seq(|buffers|, i requires 0 <= i < |buffers| => Trim(buffers[i], counts[i]))
  }

  // ---------- one list ----------

  /** The used prefixes of the buffers from index `from` on. */
  ghost function ListWords(buffers: seq<Floats>, counts: seq<int>, from: nat): seq<Word>
    decreases |buffers| - from
  {
    if from >= |buffers| || from >= |counts| then []
    else Used(buffers[from], counts[from]) + ListWords(buffers, counts, from + 1)
  }

  lemma Paid(buffer: seq<Byte>, values: Floats, rest: seq<Word>)
    ensures buffer + WordBytes(values + rest) == buffer + WordBytes(values) + WordBytes(rest)
  {
    WordBytesConcat(values, rest);
  }

  lemma NothingOwed(buffer: seq<Byte>)
    ensures buffer + WordBytes([]) == buffer
  {
  }

  method WriteList(writer: KvWriter, buffers: seq<Floats>, counts: seq<int>, ghost capacity: nat)
    requires Matches(buffers, counts, capacity)
    modifies writer
    ensures writer.buffer == old(writer.buffer) + WordBytes(ListWords(buffers, counts, 0))
  {
    ghost var all := old(writer.buffer) + WordBytes(ListWords(buffers, counts, 0));
    hide WordBytes;
    for i := 0 to |buffers|
      invariant writer.buffer + WordBytes(ListWords(buffers, counts, i)) == all
    {
      Paid(writer.buffer, buffers[i][..counts[i]], ListWords(buffers, counts, i + 1));
      writer.F32s(buffers[i][..counts[i]]);
    }
    NothingOwed(writer.buffer);
  }

  /** Fails as the program would crash when a count does not fit its buffer. */
  method ReadList(
      reader: KvReader, counts: seq<int>, capacity: nat,
      ghost buffers: seq<Floats>, ghost rest: seq<Word>, ghost cut: bool)
      returns (read: seq<Floats>, crashed: bool)
    requires reader.Valid()
    modifies reader
    ensures reader.Valid() && (old(reader.failed) ==> reader.failed)
    ensures InRange(counts, capacity) ==> !crashed
    ensures !crashed ==> |read| == |counts|
    ensures old(reader.Expects(ListWords(buffers, counts, 0) + rest, cut)) && !crashed
            && (old(reader.failed) || Matches(buffers, counts, capacity))
            ==> reader.Expects(rest, cut) && (!reader.failed ==> read == TrimAll(buffers, counts))
  {
    hide InRange, KvReader.Expects, ListWords, WordBytes;
    ghost var follows := reader.Expects(ListWords(buffers, counts, 0) + rest, cut)
                         && (reader.failed || Matches(buffers, counts, capacity));
    read, crashed := [], false;
    for i := 0 to |counts|
      invariant reader.Valid() && |read| == i && (old(reader.failed) ==> reader.failed)
      invariant follows ==> reader.Expects(ListWords(buffers, counts, i) + rest, cut)
      invariant follows && !reader.failed ==> forall j | 0 <= j < i :: read[j] == Trim(buffers[j], counts[j])
    {
      if counts[i] < 0 || counts[i] > capacity {
        OutOfRange(counts, capacity, i);
        return [], true;
      }
      ghost var words := if i < |buffers| then Used(buffers[i], counts[i]) else [];
      ghost var after := ListWords(buffers, counts, i + 1) + rest;
      ListUnfold(buffers, counts, i, rest);
      if reader.failed {
        FailedExpects(reader, ListWords(buffers, counts, i) + rest, words + after, cut);
      }
      var values := reader.F32s(counts[i], words, after, cut);
      read := read + [values + Zeros(capacity - counts[i])];
    }
    if follows {
      ListUnfold(buffers, counts, |counts|, rest);
    }
  }

  lemma ListUnfold(buffers: seq<Floats>, counts: seq<int>, i: nat, rest: seq<Word>)
    ensures i < |buffers| && i < |counts| ==>
              ListWords(buffers, counts, i) + rest
              == Used(buffers[i], counts[i]) + (ListWords(buffers, counts, i + 1) + rest)
    ensures i >= |counts| ==> ListWords(buffers, counts, i) + rest == rest
  {
  }

  lemma OutOfRange(counts: seq<int>, capacity: nat, i: nat)
    requires i < |counts| && (counts[i] < 0 || counts[i] > capacity)
    ensures !InRange(counts, capacity)
  {
  }

  // ---------- two lists, interleaved ----------

  ghost function PairWords(a: seq<Floats>, b: seq<Floats>, countsA: seq<int>, countsB: seq<int>, from: nat): seq<Word>
    decreases |a| - from
  {
    if from >= |a| || from >= |b| || from >= |countsA| || from >= |countsB| then []
    else Used(a[from], countsA[from]) + (Used(b[from], countsB[from]) + PairWords(a, b, countsA, countsB, from + 1))
  }

  method WritePairs(
      writer: KvWriter, a: seq<Floats>, b: seq<Floats>, countsA: seq<int>, countsB: seq<int>,
      ghost capacityA: nat, ghost capacityB: nat)
    requires Matches(a, countsA, capacityA) && Matches(b, countsB, capacityB) && |a| == |b|
    modifies writer
    ensures writer.buffer == old(writer.buffer) + WordBytes(PairWords(a, b, countsA, countsB, 0))
  {
    ghost var all := old(writer.buffer) + WordBytes(PairWords(a, b, countsA, countsB, 0));
    hide WordBytes;
    for i := 0 to |a|
      invariant writer.buffer + WordBytes(PairWords(a, b, countsA, countsB, i)) == all
    {
      ghost var rest := PairWords(a, b, countsA, countsB, i + 1);
      Paid(writer.buffer, a[i][..countsA[i]], b[i][..countsB[i]] + rest);
      writer.F32s(a[i][..countsA[i]]);
      Paid(writer.buffer, b[i][..countsB[i]], rest);
      writer.F32s(b[i][..countsB[i]]);
    }
    NothingOwed(writer.buffer);
  }

  method ReadPairs(
      reader: KvReader, countsA: seq<int>, capacityA: nat, countsB: seq<int>, capacityB: nat,
      ghost a: seq<Floats>, ghost b: seq<Floats>, ghost rest: seq<Word>, ghost cut: bool)
      returns (readA: seq<Floats>, readB: seq<Floats>, crashed: bool)
    requires reader.Valid() && |countsA| == |countsB|
    modifies reader
    ensures reader.Valid() && (old(reader.failed) ==> reader.failed)
    ensures InRange(countsA, capacityA) && InRange(countsB, capacityB) ==> !crashed
    ensures !crashed ==> |readA| == |readB| == |countsA|
    ensures old(reader.Expects(PairWords(a, b, countsA, countsB, 0) + rest, cut)) && !crashed
            && (old(reader.failed) || (Matches(a, countsA, capacityA) && Matches(b, countsB, capacityB)))
            ==> reader.Expects(rest, cut)
                && (!reader.failed ==> readA == TrimAll(a, countsA) && readB == TrimAll(b, countsB))
  {
    hide InRange, KvReader.Expects, PairWords, WordBytes, Used, Trim;
    ghost var follows := reader.Expects(PairWords(a, b, countsA, countsB, 0) + rest, cut)
                         && (reader.failed || (Matches(a, countsA, capacityA) && Matches(b, countsB, capacityB)));
    readA, readB, crashed := [], [], false;
    for i := 0 to |countsA|
      invariant reader.Valid() && |readA| == |readB| == i && (old(reader.failed) ==> reader.failed)
      invariant follows ==> reader.Expects(PairWords(a, b, countsA, countsB, i) + rest, cut)
      invariant follows && !reader.failed ==>
                  forall j | 0 <= j < i :: readA[j] == Trim(a[j], countsA[j]) && readB[j] == Trim(b[j], countsB[j])
    {
      if countsA[i] < 0 || countsA[i] > capacityA {
        OutOfRange(countsA, capacityA, i);
        return [], [], true;
      }
      if countsB[i] < 0 || countsB[i] > capacityB {
        OutOfRange(countsB, capacityB, i);
        return [], [], true;
      }
      ghost var wordsA := if i < |a| then Used(a[i], countsA[i]) else [];
      ghost var wordsB := if i < |b| then Used(b[i], countsB[i]) else [];
      ghost var after := PairWords(a, b, countsA, countsB, i + 1) + rest;
      PairUnfold(a, b, countsA, countsB, i, rest);
      if i < |a| && i < |b| {
        UsedTrim(a[i], countsA[i]);
        UsedTrim(b[i], countsB[i]);
      }
      if reader.failed {
        FailedExpects(reader, PairWords(a, b, countsA, countsB, i) + rest, wordsA + (wordsB + after), cut);
      }
      var valuesA := reader.F32s(countsA[i], wordsA, wordsB + after, cut);
      var valuesB := reader.F32s(countsB[i], wordsB, after, cut);
      readA := readA + [valuesA + Zeros(capacityA - countsA[i])];
      readB := readB + [valuesB + Zeros(capacityB - countsB[i])];
    }
    if follows {
      PairUnfold(a, b, countsA, countsB, |countsA|, rest);
    }
  }

  lemma PairUnfold(a: seq<Floats>, b: seq<Floats>, countsA: seq<int>, countsB: seq<int>, i: nat, rest: seq<Word>)
    ensures i < |a| && i < |b| && i < |countsA| && i < |countsB| ==>
              PairWords(a, b, countsA, countsB, i) + rest
              == Used(a[i], countsA[i]) + (Used(b[i], countsB[i]) + (PairWords(a, b, countsA, countsB, i + 1) + rest))
    ensures i >= |countsA| ==> PairWords(a, b, countsA, countsB, i) + rest == rest
  {
  }
}
