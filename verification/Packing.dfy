/** Best-fit packing of documents into rows of a fixed length, cropping only when it must. */
module Packing {
  type Doc = seq<int>

  // ---------- choosing a document ----------

  ghost predicate Fits(doc: Doc, remaining: nat) {
    |doc| <= remaining
  }

  /** The first longest document that fits; when none does, the first shortest of all. */
  ghost predicate BestFit(buffer: seq<Doc>, remaining: nat, best: nat) {
    && best < |buffer|
    && if exists i :: 0 <= i < |buffer| && Fits(buffer[i], remaining) then
         && Fits(buffer[best], remaining)
         && (forall i | 0 <= i < |buffer| && Fits(buffer[i], remaining) :: |buffer[i]| <= |buffer[best]|)
         && forall i | 0 <= i < best && Fits(buffer[i], remaining) :: |buffer[i]| < |buffer[best]|
       else
         && (forall i | 0 <= i < |buffer| :: |buffer[best]| <= |buffer[i]|)
         && forall i | 0 <= i < best :: |buffer[best]| < |buffer[i]|
  }

  method Choose(buffer: seq<Doc>, remaining: nat) returns (best: nat)
    requires buffer != [] && forall i | 0 <= i < |buffer| :: buffer[i] != []
    ensures BestFit(buffer, remaining, best)
  {
    var bestIdx, bestLen := -1, 0;
    for index := 0 to |buffer|
      invariant if bestIdx < 0 then bestLen == 0 && forall i | 0 <= i < index :: !Fits(buffer[i], remaining)
                else
                  && bestIdx < index && bestLen == |buffer[bestIdx]| && Fits(buffer[bestIdx], remaining)
                  && (forall i | 0 <= i < index && Fits(buffer[i], remaining) :: |buffer[i]| <= bestLen)
                  && forall i | 0 <= i < bestIdx && Fits(buffer[i], remaining) :: |buffer[i]| < bestLen
    {
      if |buffer[index]| <= remaining && |buffer[index]| > bestLen {
        bestIdx, bestLen := index, |buffer[index]|;
      }
    }
    if bestIdx >= 0 {
      return bestIdx;
    }
    var shortest := 0;
    for index := 0 to |buffer|
      invariant shortest < |buffer| && (index > 0 ==> shortest < index)
      invariant index == 0 ==> shortest == 0
      invariant forall i | 0 <= i < index :: |buffer[shortest]| <= |buffer[i]|
      invariant forall i | 0 <= i < shortest :: |buffer[shortest]| < |buffer[i]|
    {
      if |buffer[index]| < |buffer[shortest]| {
        shortest := index;
      }
    }
    best := shortest;
  }

  lemma ChosenInside(buffer: seq<Doc>, remaining: nat, best: nat)
    requires BestFit(buffer, remaining, best)
    ensures best < |buffer|
  {
  }

  // ---------- what a row is made of ----------

  /** One choice: what was on offer, how much room was left, and what was taken. */
  datatype Pick = Pick(buffer: seq<Doc>, remaining: nat, index: nat)

  ghost predicate GoodPick(pick: Pick) {
    pick.remaining > 0 && pick.index < |pick.buffer| && BestFit(pick.buffer, pick.remaining, pick.index)
  }

  function DocOf(pick: Pick): Doc
    requires pick.index < |pick.buffer|
  {
    pick.buffer[pick.index]
  }

  function WithoutAt(buffer: seq<Doc>, index: nat): (left: seq<Doc>)
    requires index < |buffer|
    ensures |left| == |buffer| - 1
    ensures forall i | 0 <= i < |left| :: left[i] == if i < index then buffer[i] else buffer[i + 1]
  {
    buffer[..index] + buffer[index + 1..]
  }

  /** The part of the document that goes into the row. */
  function Taken(pick: Pick): (taken: Doc)
    requires pick.index < |pick.buffer|
    ensures taken <= pick.buffer[pick.index] && |taken| <= pick.remaining
    ensures |taken| == |pick.buffer[pick.index]| || |taken| == pick.remaining
  {
    if |DocOf(pick)| <= pick.remaining then DocOf(pick) else DocOf(pick)[..pick.remaining]
  }

  ghost predicate GoodPicks(picks: seq<Pick>, capacity: nat) {
    && (forall k | 0 <= k < |picks| :: GoodPick(picks[k]))
    && (picks != [] ==> picks[0].remaining == capacity)
    && forall k | 0 < k < |picks| :: Follows(picks[k - 1], picks[k])
  }

  /** The next choice is made from what the last one left, perhaps with more documents behind it,
      and for the room that is left. */
  ghost predicate Follows(before: Pick, after: Pick) {
    && before.index < |before.buffer|
    && WithoutAt(before.buffer, before.index) <= after.buffer
    && after.remaining + |Taken(before)| == before.remaining
  }

  /** The row's tokens. */
  ghost function Tokens(picks: seq<Pick>): seq<int>
    requires forall k | 0 <= k < |picks| :: GoodPick(picks[k])
  {
    if picks == [] then []
    else
      assert GoodPick(picks[|picks| - 1]);
      Tokens(picks[..|picks| - 1]) + Taken(picks[|picks| - 1])
  }

  /** The number of the document each token belongs to. */
  ghost function Segments(picks: seq<Pick>): seq<nat>
    requires forall k | 0 <= k < |picks| :: GoodPick(picks[k])
  {
    if picks == [] then []
    else
      assert GoodPick(picks[|picks| - 1]);
      Segments(picks[..|picks| - 1]) + seq(|Taken(picks[|picks| - 1])|, _ => |picks| - 1)
  }

  /** A full row. */
  ghost predicate IsRow(picks: seq<Pick>, capacity: nat, tokens: seq<int>, segments: seq<nat>) {
    && GoodPicks(picks, capacity)
    && tokens == Tokens(picks) && segments == Segments(picks)
    && |tokens| == |segments| == capacity
  }

  lemma TokensLast(picks: seq<Pick>)
    requires picks != [] && forall k | 0 <= k < |picks| :: GoodPick(picks[k])
    ensures GoodPick(picks[|picks| - 1])
    ensures var shorter, taken := picks[..|picks| - 1], Taken(picks[|picks| - 1]);
            && Tokens(picks) == Tokens(shorter) + taken
            && Segments(picks) == Segments(shorter) + seq(|taken|, _ => |picks| - 1)
  {
  }

  // ---------- what follows from best fit ----------

  lemma {:induction false} RoomLeft(picks: seq<Pick>, capacity: nat, k: nat)
    requires GoodPicks(picks, capacity) && k < |picks|
    ensures |Tokens(picks[..k])| + picks[k].remaining == capacity
  {
    if k > 0 {
      RoomLeft(picks, capacity, k - 1);
      assert picks[..k][..k - 1] == picks[..k - 1];
      assert Follows(picks[k - 1], picks[k]);
    }
  }

  lemma {:induction false} PrefixOfRow(picks: seq<Pick>, n: nat)
    requires n <= |picks| && forall k | 0 <= k < |picks| :: GoodPick(picks[k])
    ensures |Tokens(picks)| == |Segments(picks)| && |Tokens(picks[..n])| == |Segments(picks[..n])|
    ensures Tokens(picks[..n]) <= Tokens(picks) && Segments(picks[..n]) <= Segments(picks)
  {
    hide GoodPick, Taken;
    if n < |picks| {
      PrefixOfRow(picks[..|picks| - 1], n);
      assert picks[..|picks| - 1][..n] == picks[..n];
    } else {
      assert picks[..n] == picks;
      if n > 0 {
        PrefixOfRow(picks[..n - 1], n - 1);
      }
    }
  }

  /** Where a document stands in its row: behind the room that was taken before it, from its first
      token on, as much of it as there was room for, under its own number. */
  lemma DocumentStands(picks: seq<Pick>, capacity: nat, tokens: seq<int>, segments: seq<nat>, k: nat)
    requires IsRow(picks, capacity, tokens, segments) && k < |picks|
    ensures picks[k].index < |picks[k].buffer| && picks[k].remaining <= capacity
    ensures var at, doc := capacity - picks[k].remaining, picks[k].buffer[picks[k].index];
            var end := if |doc| < picks[k].remaining then at + |doc| else capacity;
            && at <= end <= |tokens| && end - at <= |doc|
            && tokens[at..end] == doc[..end - at]
            && forall i | at <= i < end :: segments[i] == k
  {
    hide BestFit, Follows, Taken;
    RoomLeft(picks, capacity, k);
    PrefixOfRow(picks, k);
    PrefixOfRow(picks, k + 1);
    assert GoodPick(picks[k]);
    var upTo := picks[..k + 1];
    assert upTo[..k] == picks[..k];
    TokensLast(upTo);
    var at, taken := |Tokens(picks[..k])|, Taken(picks[k]);
    assert tokens[at..at + |taken|] == taken by {
      assert Tokens(upTo)[at..] == taken;
    }
    assert taken == DocOf(picks[k])[..|taken|];
  }

  /** Only the last document of a row can be cropped, only when nothing on offer fits, and then it
      is a shortest one, so the fewest tokens are lost. */
  lemma CroppedLast(picks: seq<Pick>, capacity: nat, tokens: seq<int>, segments: seq<nat>, k: nat)
    requires IsRow(picks, capacity, tokens, segments) && k < |picks|
    requires Taken(picks[k]) != DocOf(picks[k])
    ensures k == |picks| - 1
    ensures forall i | 0 <= i < |picks[k].buffer| :: |picks[k].buffer[i]| > picks[k].remaining
    ensures forall i | 0 <= i < |picks[k].buffer| :: |DocOf(picks[k])| <= |picks[k].buffer[i]|
  {
    var pick := picks[k];
    assert GoodPick(pick) && !Fits(DocOf(pick), pick.remaining);
    RoomLeft(picks, capacity, k);
    if k + 1 < |picks| {
      RoomLeft(picks, capacity, k + 1);
    }
    forall i | 0 <= i < |pick.buffer| ensures |pick.buffer[i]| > pick.remaining {
      assert Fits(pick.buffer[i], pick.remaining) == (|pick.buffer[i]| <= pick.remaining);
    }
  }

  lemma TakenStarts(pick: Pick, bos: int)
    requires GoodPick(pick) && StartsWith(pick, bos)
    ensures Taken(pick) != [] ==> Taken(pick)[0] == bos
  {
  }

  /** A new segment behind the others starts where they end. */
  lemma SegmentBehind(tokens: seq<int>, segments: seq<nat>, taken: Doc, mark: nat, bos: int, i: nat)
    requires |tokens| == |segments| && (taken != [] ==> taken[0] == bos)
    requires i < |segments| ==> segments[i] < mark
    requires 0 < i <= |segments| ==> segments[i - 1] < mark
    requires i < |segments| && (i == 0 || segments[i - 1] != segments[i]) ==> tokens[i] == bos
    ensures var marks := segments + seq(|taken|, _ => mark);
            i < |marks| ==>
              marks[i] <= mark && (i == 0 || marks[i - 1] != marks[i] ==> (tokens + taken)[i] == bos)
  {
  }

  /** Every segment begins with the document's first token, the row with the first one's. */
  lemma {:induction false} SegmentStarts(picks: seq<Pick>, capacity: nat, bos: int, i: nat)
    requires GoodPicks(picks, capacity)
    requires forall k | 0 <= k < |picks| :: StartsWith(picks[k], bos)
    ensures |Tokens(picks)| == |Segments(picks)|
    ensures i < |Segments(picks)| ==> Segments(picks)[i] < |picks|
    ensures i < |Segments(picks)| && (i == 0 || Segments(picks)[i - 1] != Segments(picks)[i]) ==> Tokens(picks)[i] == bos
    decreases |picks|
  {
    if picks != [] {
      var shorter, last := picks[..|picks| - 1], picks[|picks| - 1];
      hide Tokens, Segments, Follows;
      TokensLast(picks);
      SegmentStarts(shorter, capacity, bos, i);
      if i > 0 {
        SegmentStarts(shorter, capacity, bos, i - 1);
      }
      TakenStarts(last, bos);
      hide StartsWith, GoodPick, Taken;
      SegmentBehind(Tokens(shorter), Segments(shorter), Taken(last), |shorter|, bos, i);
    }
  }

  ghost predicate StartsWith(pick: Pick, bos: int) {
    pick.index < |pick.buffer| && DocOf(pick) != [] && DocOf(pick)[0] == bos
  }

  // ---------- the loader ----------

  /** From batch `n` on some batch holds a document; any batch may be empty. */
  ghost predicate Supplies(provider: nat -> seq<seq<int>>, n: nat) {
    exists m: nat :: n <= m && provider(m) != []
  }

  ghost function NextSupply(provider: nat -> seq<seq<int>>, n: nat): (m: nat)
    requires Supplies(provider, n)
    ensures n <= m && provider(m) != []
  {
    var m: nat :| n <= m && provider(m) != [];
    m
  }

  /** The documents of a batch as the loader keeps them. */
  ghost function Marked(bos: int, batch: seq<seq<int>>): (docs: seq<Doc>)
    ensures |docs| == |batch|
    ensures forall i | 0 <= i < |batch| :: docs[i] != [] && docs[i][0] == bos && docs[i][1..] == batch[i]
  {
    seq(|batch|, i requires 0 <= i < |batch| => [bos] + batch[i])
  }

  ghost function Supplied(bos: int, provider: nat -> seq<seq<int>>, batches: nat): seq<Doc> {
    if batches == 0 then [] else Supplied(bos, provider, batches - 1) + Marked(bos, provider(batches - 1))
  }

  ghost function DocsOf(picks: seq<Pick>): (docs: seq<Doc>)
    ensures |docs| == |picks|
  {
    seq(|picks|, k requires 0 <= k < |picks| => if picks[k].index < |picks[k].buffer| then DocOf(picks[k]) else [])
  }

  ghost predicate AllMarked(bos: int, buffer: seq<Doc>) {
    forall i | 0 <= i < |buffer| :: buffer[i] != [] && buffer[i][0] == bos
  }

  /** No document is lost, repeated or made up. */
  ghost predicate Conserved(supplied: seq<Doc>, consumed: seq<Doc>, buffer: seq<Doc>) {
    multiset(supplied) == multiset(consumed) + multiset(buffer)
  }

  lemma TakeOut(supplied: seq<Doc>, consumed: seq<Doc>, buffer: seq<Doc>, index: nat, bos: int)
    requires Conserved(supplied, consumed, buffer) && index < |buffer| && AllMarked(bos, buffer)
    ensures Conserved(supplied, consumed + [buffer[index]], WithoutAt(buffer, index))
    ensures AllMarked(bos, WithoutAt(buffer, index))
  {
    assert buffer == buffer[..index] + [buffer[index]] + buffer[index + 1..];
  }

  lemma PutIn(supplied: seq<Doc>, consumed: seq<Doc>, buffer: seq<Doc>, more: seq<Doc>)
    requires Conserved(supplied, consumed, buffer)
    ensures Conserved(supplied + more, consumed, buffer + more)
  {
  }

  lemma ExtendPicks(picks: seq<Pick>, pick: Pick, capacity: nat)
    requires GoodPicks(picks, capacity) && GoodPick(pick)
    requires if picks == [] then pick.remaining == capacity else Follows(picks[|picks| - 1], pick)
    ensures GoodPicks(picks + [pick], capacity)
  {
    hide GoodPick, Follows;
  }

  lemma LastOfLonger(picks: seq<Pick>, pick: Pick)
    requires (forall k | 0 <= k < |picks| :: GoodPick(picks[k])) && GoodPick(pick)
    ensures var longer := picks + [pick];
            && longer[..|longer| - 1] == picks && longer[|longer| - 1] == pick
            && forall k | 0 <= k < |longer| :: GoodPick(longer[k])
  {
    hide GoodPick;
  }

  lemma ExtendContents(picks: seq<Pick>, pick: Pick)
    requires (forall k | 0 <= k < |picks| :: GoodPick(picks[k])) && GoodPick(pick)
    ensures forall k | 0 <= k < |picks| + 1 :: GoodPick((picks + [pick])[k])
    ensures Tokens(picks + [pick]) == Tokens(picks) + Taken(pick)
    ensures Segments(picks + [pick]) == Segments(picks) + seq(|Taken(pick)|, _ => |picks|)
    ensures DocsOf(picks + [pick]) == DocsOf(picks) + [DocOf(pick)]
  {
    hide BestFit, Taken, DocsOf;
    LastOfLonger(picks, pick);
    LongerDocs(picks, pick);
  }

  lemma LongerDocs(picks: seq<Pick>, pick: Pick)
    requires pick.index < |pick.buffer|
    ensures DocsOf(picks + [pick]) == DocsOf(picks) + [DocOf(pick)]
  {
  }

  lemma TakenLength(pick: Pick, bos: int)
    requires GoodPick(pick) && StartsWith(pick, bos)
    ensures pick.index < |pick.buffer| && 1 <= |Taken(pick)| <= pick.remaining
  {
    hide BestFit;
  }

  class PretrainLoader {
    const bos: int
    const batchSize: nat
    const sequenceLength: nat
    const bufferSize: nat
    const provider: nat -> seq<seq<int>>
    const scratch: array<int>
    const segmentScratch: array<nat>
    var docBuffer: seq<Doc>
    var batches: nat
    /** Every document taken out of the buffer, in order. */
    ghost var consumed: seq<Doc>

    constructor (bos: int, batchSize: nat, sequenceLength: nat, bufferSize: int, provider: nat -> seq<seq<int>>)
      requires forall n :: Supplies(provider, n)
      ensures Valid() && consumed == [] && docBuffer == [] && fresh(scratch) && fresh(segmentScratch)
      ensures this.batchSize == batchSize && this.sequenceLength == sequenceLength && this.provider == provider
    {
      this.bos, this.batchSize, this.sequenceLength, this.provider := bos, batchSize, sequenceLength, provider;
      this.bufferSize := if bufferSize <= 0 then 1000 else bufferSize;
      scratch := new int[sequenceLength + 1];
      segmentScratch := new nat[sequenceLength + 1];
      docBuffer, batches, consumed := [], 0, [];
    }

    /** No document is lost, repeated or made up: what was supplied is what was consumed and what is
        still buffered. */
    ghost predicate Valid()
      reads this
    {
      && scratch.Length == segmentScratch.Length == sequenceLength + 1
      && bufferSize > 0 && (forall n :: Supplies(provider, n))
      && AllMarked(bos, docBuffer)
      && Conserved(Supplied(bos, provider, batches), consumed, docBuffer)
    }

    lemma Pulled(rows: seq<Doc>)
      requires Valid() && rows == Marked(bos, provider(batches))
      ensures AllMarked(bos, docBuffer + rows)
      ensures Conserved(Supplied(bos, provider, batches + 1), consumed, docBuffer + rows)
    {
      hide Conserved;
      PutIn(Supplied(bos, provider, batches), consumed, docBuffer, rows);
    }

    /** Pulls one batch; it may be empty. */
    method PullBatch()
      requires Valid()
      modifies this`docBuffer, this`batches
      ensures Valid() && batches == old(batches) + 1
      ensures docBuffer == old(docBuffer) + Marked(bos, provider(old(batches)))
    {
      hide Conserved, Supplied, AllMarked;
      var docs := provider(batches);
      var rows: seq<Doc> := [];
      for i := 0 to |docs|
        invariant |rows| == i && forall j | 0 <= j < i :: rows[j] == [bos] + docs[j]
        modifies {}
      {
        rows := rows + [[bos] + docs[i]];
      }
      assert rows == Marked(bos, docs);
      Pulled(rows);
      docBuffer := docBuffer + rows;
      batches := batches + 1;
    }

    /** Pulls batches until the buffer is full again. */
    method Refill()
      requires Valid()
      modifies this`docBuffer, this`batches
      ensures Valid() && old(docBuffer) <= docBuffer && |docBuffer| >= bufferSize
    {
      hide Supplied, Conserved, Supplies, AllMarked;
      assert Supplies(provider, batches);
      ghost var next := NextSupply(provider, batches);
      while |docBuffer| < bufferSize
        invariant Valid() && old(docBuffer) <= docBuffer
        invariant batches <= next && provider(next) != []
        decreases bufferSize - |docBuffer|, next - batches
      {
        PullBatch();
        if batches > next {
          assert Supplies(provider, batches);
          next := NextSupply(provider, batches);
        }
      }
    }

    /** Writes a document at `pos` and marks its tokens with their segment. */
    method Place(pos: nat, document: Doc, segment: nat)
      requires pos + |document| <= scratch.Length == segmentScratch.Length
      modifies scratch, segmentScratch
      ensures scratch[..pos + |document|] == old(scratch[..pos]) + document
      ensures segmentScratch[..pos + |document|] == old(segmentScratch[..pos]) + seq(|document|, _ => segment)
    {
      for i := 0 to |document|
        invariant scratch[..pos + i] == old(scratch[..pos]) + document[..i]
        invariant segmentScratch[..pos + i] == old(segmentScratch[..pos]) + seq(i, _ => segment)
      {
        scratch[pos + i] := document[i];
        segmentScratch[pos + i] := segment;
      }
    }

    /** Takes the best document for the room that is left, cropped to it if need be. */
    method TakeOne(remaining: nat) returns (taken: Doc, ghost pick: Pick)
      requires Valid() && remaining > 0
      modifies this`docBuffer, this`batches, this`consumed
      ensures Valid() && GoodPick(pick) && StartsWith(pick, bos)
      ensures pick.remaining == remaining && taken == Taken(pick)
      ensures old(docBuffer) <= pick.buffer && docBuffer == WithoutAt(pick.buffer, pick.index)
      ensures consumed == old(consumed) + [DocOf(pick)]
    {
      hide Supplied, Conserved, BestFit;
      Refill();
      var best := Choose(docBuffer, remaining);
      pick := Pick(docBuffer, remaining, best);
      ChosenInside(docBuffer, remaining, best);
      TakeOut(Supplied(bos, provider, batches), consumed, docBuffer, best, bos);
      var document := docBuffer[best];
      taken := if |document| <= remaining then document else document[..remaining];
      docBuffer := docBuffer[..best] + docBuffer[best + 1..];
      consumed := consumed + [document];
    }

    /** Packs one row, document by document, until it is full. */
    method FillRow() returns (ghost picks: seq<Pick>)
      requires Valid()
      modifies this`docBuffer, this`batches, this`consumed, scratch, segmentScratch
      ensures Valid() && picks != []
      ensures IsRow(picks, sequenceLength + 1, scratch[..], segmentScratch[..])
      ensures forall k | 0 <= k < |picks| :: StartsWith(picks[k], bos)
      ensures LeftBy(picks, old(docBuffer), docBuffer)
      ensures consumed == old(consumed) + DocsOf(picks)
    {
      hide Supplied, BestFit, Tokens, Segments, DocsOf, Conserved, AllMarked, GoodPick, StartsWith, Taken;
      var rowCapacity := sequenceLength + 1;
      var pos, segment := 0, 0;
      picks := [];
      NothingPicked();
      while pos < rowCapacity
        invariant Valid() && pos <= rowCapacity && segment == |picks|
        invariant GoodPicks(picks, rowCapacity)
        invariant forall k | 0 <= k < |picks| :: StartsWith(picks[k], bos)
        invariant scratch[..pos] == Tokens(picks) && segmentScratch[..pos] == Segments(picks)
        invariant if picks == [] then pos == 0 && docBuffer == old(docBuffer)
                  else LeftBy(picks, old(docBuffer), docBuffer)
                       && picks[|picks| - 1].remaining == rowCapacity - pos + |Taken(picks[|picks| - 1])|
        invariant consumed == old(consumed) + DocsOf(picks)
        decreases rowCapacity - pos
      {
        var taken;
        ghost var pick;
        taken, pick := TakeOne(rowCapacity - pos);
        TakenLength(pick, bos);
        ExtendPicks(picks, pick, rowCapacity);
        ExtendContents(picks, pick);
        Place(pos, taken, segment);
        picks := picks + [pick];
        pos := pos + |taken|;
        segment := segment + 1;
      }
      assert scratch[..pos] == scratch[..] && segmentScratch[..pos] == segmentScratch[..];
    }

    /** One row of the batch. */
    method NextRow() returns (input: seq<int>, target: seq<int>, segment: seq<nat>, ghost picks: seq<Pick>)
      requires Valid()
      modifies this`docBuffer, this`batches, this`consumed, scratch, segmentScratch
      ensures Valid() && RowOutput(picks, bos, sequenceLength, input, target, segment)
      ensures consumed == old(consumed) + DocsOf(picks) && LeftBy(picks, old(docBuffer), docBuffer)
    {
      hide Valid, IsRow, LeftBy, StartsWith, RowOutput, DocsOf;
      Lengths();
      picks := FillRow();
      RowIsOutput(picks, bos, sequenceLength, scratch[..], segmentScratch[..]);
      input, target, segment := scratch[..sequenceLength], scratch[1..sequenceLength + 1], segmentScratch[..sequenceLength];
      assert scratch[..][..sequenceLength] == input;
      assert scratch[..][1..] == target;
      assert segmentScratch[..][..sequenceLength] == segment;
    }

    /** The next batch: every row's tokens but the last as inputs, but the first as targets, with the
        segment of every input token. */
    method Next()
        returns (inputs: seq<seq<int>>, targets: seq<seq<int>>, segments: seq<seq<nat>>,
                 ghost rows: seq<seq<Pick>>, ghost buffers: seq<seq<Doc>>)
      requires Valid()
      modifies this`docBuffer, this`batches, this`consumed, scratch, segmentScratch
      ensures Valid() && |inputs| == |targets| == |segments| == |rows| == batchSize
      ensures forall r | 0 <= r < batchSize ::
                RowOutput(rows[r], bos, sequenceLength, inputs[r], targets[r], segments[r])
      ensures consumed == old(consumed) + Joined(rows)
      ensures |buffers| == batchSize + 1 && buffers[0] == old(docBuffer) && buffers[batchSize] == docBuffer
      ensures forall r | 0 <= r < batchSize :: LeftBy(rows[r], buffers[r], buffers[r + 1])
    {
      hide Valid, LeftBy, RowOutput, DocsOf, Joined;
      NothingJoined();
      inputs, targets, segments, rows, buffers := [], [], [], [], [docBuffer];
      for row := 0 to batchSize
        invariant Valid() && |inputs| == |targets| == |segments| == |rows| == row
        invariant forall r | 0 <= r < row ::
                    RowOutput(rows[r], bos, sequenceLength, inputs[r], targets[r], segments[r])
        invariant consumed == old(consumed) + Joined(rows)
        invariant |buffers| == row + 1 && buffers[0] == old(docBuffer) && buffers[row] == docBuffer
        invariant forall r | 0 <= r < row :: LeftBy(rows[r], buffers[r], buffers[r + 1])
      {
        var input, target, segment;
        ghost var picks;
        input, target, segment, picks := NextRow();
        inputs, targets, segments := inputs + [input], targets + [target], segments + [segment];
        JoinedGrows(rows, picks);
        rows, buffers := rows + [picks], buffers + [docBuffer];
      }
    }

    lemma Lengths()
      requires Valid()
      ensures scratch.Length == segmentScratch.Length == sequenceLength + 1
    {
    }
  }

  lemma NothingPicked()
    ensures Tokens([]) == [] && Segments([]) == [] && DocsOf([]) == []
  {
  }

  /** The buffer the picks started from and the one they left. */
  ghost predicate LeftBy(picks: seq<Pick>, before: seq<Doc>, after: seq<Doc>) {
    && picks != [] && before <= picks[0].buffer
    && var last := picks[|picks| - 1];
       last.index < |last.buffer| && after == WithoutAt(last.buffer, last.index)
  }

  ghost function Joined(rows: seq<seq<Pick>>): seq<Doc> {
    if rows == [] then [] else Joined(rows[..|rows| - 1]) + DocsOf(rows[|rows| - 1])
  }

  lemma NothingJoined()
    ensures Joined([]) == []
  {
  }

  lemma JoinedGrows(rows: seq<seq<Pick>>, picks: seq<Pick>)
    ensures Joined(rows + [picks]) == Joined(rows) + DocsOf(picks)
  {
    assert (rows + [picks])[..|rows|] == rows;
  }

  ghost predicate AllGood(picks: seq<Pick>) {
    forall k | 0 <= k < |picks| :: GoodPick(picks[k])
  }

  /** A row of the batch: a full packed row, its targets one token ahead of its inputs, its first
      token the beginning-of-sequence token. */
  ghost predicate RowOutput(
      picks: seq<Pick>, bos: int, sequenceLength: nat, inputs: seq<int>, targets: seq<int>, segments: seq<nat>)
  {
    exists tokens: seq<int>, marks: seq<nat> ::
      && IsRow(picks, sequenceLength + 1, tokens, marks) && AllGood(picks)
      && (forall k | 0 <= k < |picks| :: StartsWith(picks[k], bos))
      && tokens[0] == bos
      && inputs == tokens[..sequenceLength] && targets == tokens[1..] && segments == marks[..sequenceLength]
  }

  /** What a batch row says without its picks: a target is the input one place further on. */
  lemma ShiftedByOne(
      picks: seq<Pick>, bos: int, sequenceLength: nat, inputs: seq<int>, targets: seq<int>, segments: seq<nat>)
    requires RowOutput(picks, bos, sequenceLength, inputs, targets, segments)
    ensures |inputs| == |targets| == |segments| == sequenceLength
    ensures sequenceLength > 0 ==> inputs[0] == bos
    ensures forall i | 0 < i < sequenceLength :: targets[i - 1] == inputs[i]
  {
  }

  lemma RowIsOutput(picks: seq<Pick>, bos: int, sequenceLength: nat, tokens: seq<int>, marks: seq<nat>)
    requires IsRow(picks, sequenceLength + 1, tokens, marks)
    requires forall k | 0 <= k < |picks| :: StartsWith(picks[k], bos)
    ensures RowOutput(picks, bos, sequenceLength, tokens[..sequenceLength], tokens[1..], marks[..sequenceLength])
    ensures AllGood(picks)
  {
    hide GoodPick, Tokens, Segments, StartsWith;
    SegmentStarts(picks, sequenceLength + 1, bos, 0);
  }
}
