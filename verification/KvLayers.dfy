/** A pair of buffer lists per layer, the shape of the raw rows and of the latents. */
module KvLayers {
  import opened Bytes
  import opened KvLists
  import opened KvWire

  lemma FailedAgain(reader: KvReader, cut: bool)
    requires reader.Valid() && reader.failed
    ensures forall words :: reader.Expects(words, cut) == cut
  {
  }

  ghost function TrimLayers(buffers: seq<seq<Floats>>, counts: seq<int>): (trimmed: seq<seq<Floats>>)
    requires forall l | 0 <= l < |buffers| :: |buffers[l]| == |counts|
    ensures |trimmed| == |buffers|
    ensures forall l | 0 <= l < |buffers| :: trimmed[l] == TrimAll(buffers[l], counts)
  {
    seq(|buffers|, l requires 0 <= l < |buffers| => TrimAll(buffers[l], counts))
  }

  ghost predicate PairsFit(
      a: seq<seq<Floats>>, b: seq<seq<Floats>>, countsA: seq<int>, countsB: seq<int>,
      capacityA: nat, capacityB: nat, layers: nat)
  {
    && |a| == |b| == layers && |countsA| == |countsB|
    && forall l | 0 <= l < layers :: Matches(a[l], countsA, capacityA) && Matches(b[l], countsB, capacityB)
  }

  ghost function LayeredWords(
      a: seq<seq<Floats>>, b: seq<seq<Floats>>, countsA: seq<int>, countsB: seq<int>, l: nat): seq<Word>
    decreases |a| - l
  {
    if l >= |a| || l >= |b| then []
    else PairWords(a[l], b[l], countsA, countsB, 0) + LayeredWords(a, b, countsA, countsB, l + 1)
  }

  lemma LayeredUnfold(
      a: seq<seq<Floats>>, b: seq<seq<Floats>>, countsA: seq<int>, countsB: seq<int>, l: nat, layers: nat, rest: seq<Word>)
    requires |a| == |b| == layers
    ensures l < layers ==> LayeredWords(a, b, countsA, countsB, l) + rest
                           == PairWords(a[l], b[l], countsA, countsB, 0) + (LayeredWords(a, b, countsA, countsB, l + 1) + rest)
    ensures l >= layers ==> LayeredWords(a, b, countsA, countsB, l) + rest == rest
  {
    hide PairWords;
  }

  ghost predicate TrimmedSoFar(read: seq<seq<Floats>>, buffers: seq<seq<Floats>>, counts: seq<int>) {
    && |read| <= |buffers|
    && forall l | 0 <= l < |read| :: |buffers[l]| == |counts| && read[l] == TrimAll(buffers[l], counts)
  }

  lemma TrimmedWhole(read: seq<seq<Floats>>, buffers: seq<seq<Floats>>, counts: seq<int>)
    requires TrimmedSoFar(read, buffers, counts) && |read| == |buffers|
    ensures forall l | 0 <= l < |buffers| :: |buffers[l]| == |counts|
    ensures read == TrimLayers(buffers, counts)
  {
    forall l | 0 <= l < |buffers| ensures |buffers[l]| == |counts| {
      assert read[l] == TrimAll(buffers[l], counts);
    }
  }

  lemma SameLength(
      a: seq<Floats>, b: seq<Floats>, countsA: seq<int>, countsB: seq<int>, capacityA: nat, capacityB: nat)
    requires Matches(a, countsA, capacityA) && Matches(b, countsB, capacityB) && |countsA| == |countsB|
    ensures |a| == |b|
  {
  }

  method WriteLayered(
      writer: KvWriter, a: seq<seq<Floats>>, b: seq<seq<Floats>>, countsA: seq<int>, countsB: seq<int>,
      ghost capacityA: nat, ghost capacityB: nat)
    requires PairsFit(a, b, countsA, countsB, capacityA, capacityB, |a|)
    modifies writer
    ensures writer.buffer == old(writer.buffer) + WordBytes(LayeredWords(a, b, countsA, countsB, 0))
  {
    hide WordBytes, PairWords, Matches;
    ghost var all := writer.buffer + WordBytes(LayeredWords(a, b, countsA, countsB, 0));
    for l := 0 to |a|
      invariant writer.buffer + WordBytes(LayeredWords(a, b, countsA, countsB, l)) == all
    {
      Paid(writer.buffer, PairWords(a[l], b[l], countsA, countsB, 0), LayeredWords(a, b, countsA, countsB, l + 1));
      SameLength(a[l], b[l], countsA, countsB, capacityA, capacityB);
      WritePairs(writer, a[l], b[l], countsA, countsB, capacityA, capacityB);
    }
    NothingOwed(writer.buffer);
  }

  /** The same pair of lists for every layer. */
  method ReadLayered(
      reader: KvReader, layers: nat, countsA: seq<int>, capacityA: nat, countsB: seq<int>, capacityB: nat,
      ghost a: seq<seq<Floats>>, ghost b: seq<seq<Floats>>, ghost rest: seq<Word>, ghost cut: bool)
      returns (readA: seq<seq<Floats>>, readB: seq<seq<Floats>>)
    requires reader.Valid() && |countsA| == |countsB|
    requires InRange(countsA, capacityA) && InRange(countsB, capacityB)
    modifies reader
    ensures reader.Valid() && (old(reader.failed) ==> reader.failed)
    ensures |readA| == |readB| == layers
    ensures old(reader.Expects(LayeredWords(a, b, countsA, countsB, 0) + rest, cut))
            && (old(reader.failed) || PairsFit(a, b, countsA, countsB, capacityA, capacityB, layers))
            ==> reader.Expects(rest, cut)
                && (!reader.failed ==> TrimmedSoFar(readA, a, countsA) && TrimmedSoFar(readB, b, countsB))
  {
    hide InRange, KvReader.Expects, LayeredWords, PairWords, Matches, TrimmedSoFar, TrimAll, PairsFit;
    NothingTrimmed(a, countsA);
    NothingTrimmed(b, countsB);
    ghost var follows := reader.Expects(LayeredWords(a, b, countsA, countsB, 0) + rest, cut)
                         && (reader.failed || PairsFit(a, b, countsA, countsB, capacityA, capacityB, layers));
    readA, readB := [], [];
    for l := 0 to layers
      invariant reader.Valid() && |readA| == |readB| == l && (old(reader.failed) ==> reader.failed)
      invariant follows ==> reader.Expects(LayeredWords(a, b, countsA, countsB, l) + rest, cut)
      invariant follows && !reader.failed ==> TrimmedSoFar(readA, a, countsA) && TrimmedSoFar(readB, b, countsB)
    {
      ghost var after := LayeredWords(a, b, countsA, countsB, l + 1) + rest;
      ghost var partA, partB := if l < |a| then a[l] else [], if l < |b| then b[l] else [];
      if reader.failed {
        FailedAgain(reader, cut);
      } else if follows {
        PairFits(a, b, countsA, countsB, capacityA, capacityB, layers, l);
        LayeredUnfold(a, b, countsA, countsB, l, layers, rest);
      }
      var moreA, moreB, crashed := ReadPairs(reader, countsA, capacityA, countsB, capacityB, partA, partB, after, cut);
      if follows && !reader.failed {
        TrimmedPush(readA, a, countsA, moreA);
        TrimmedPush(readB, b, countsB, moreB);
      }
      readA, readB := readA + [moreA], readB + [moreB];
    }
    if reader.failed {
      FailedAgain(reader, cut);
    } else if follows {
      PairsFitLength(a, b, countsA, countsB, capacityA, capacityB, layers);
      LayeredUnfold(a, b, countsA, countsB, layers, layers, rest);
    }
  }

  lemma PairsFitLength(
      a: seq<seq<Floats>>, b: seq<seq<Floats>>, countsA: seq<int>, countsB: seq<int>,
      capacityA: nat, capacityB: nat, layers: nat)
    requires PairsFit(a, b, countsA, countsB, capacityA, capacityB, layers)
    ensures |a| == |b| == layers
  {
  }

  lemma PairFits(
      a: seq<seq<Floats>>, b: seq<seq<Floats>>, countsA: seq<int>, countsB: seq<int>,
      capacityA: nat, capacityB: nat, layers: nat, l: nat)
    requires PairsFit(a, b, countsA, countsB, capacityA, capacityB, layers) && l < layers
    ensures |a| == |b| == layers
    ensures Matches(a[l], countsA, capacityA) && Matches(b[l], countsB, capacityB)
    ensures |a[l]| == |countsA| && |b[l]| == |countsB|
  {
  }

  lemma NothingTrimmed(buffers: seq<seq<Floats>>, counts: seq<int>)
    ensures TrimmedSoFar([], buffers, counts)
  {
  }

  lemma TrimmedPush(read: seq<seq<Floats>>, buffers: seq<seq<Floats>>, counts: seq<int>, more: seq<Floats>)
    requires TrimmedSoFar(read, buffers, counts) && |read| < |buffers| && |buffers[|read|]| == |counts|
    requires more == TrimAll(buffers[|read|], counts)
    ensures TrimmedSoFar(read + [more], buffers, counts)
  {
  }
}
