/** One layer's inference state: raw rows for the local window, the tail of the block being
    filled, and the entries of the blocks that are complete. */
module LayerCaches {
  import opened Compressors
  import opened Division
  import opened Vectors

  /** What one token leaves in a layer: the compressor input and the keys and values per head. */
  datatype Row = Row(hidden: Vec, keys: seq<Vec>, values: seq<Vec>)

  /** One compressed block, per head, with the indexer's projection of each key. */
  datatype Entry = Entry(keys: seq<Vec>, values: seq<Vec>, indexerKeys: seq<Vec>)

  /** What turns `ratio` rows into an entry. */
  datatype Packer = Packer(compressor: Compressor, heads: nat, index: Vec -> Vec)

  ghost predicate RowFits(packer: Packer, row: Row) {
    && |row.keys| == |row.values| == packer.heads
    && forall h | 0 <= h < packer.heads ::
         |row.keys[h]| == packer.compressor.channels && |row.values[h]| == packer.compressor.channels
  }

  ghost predicate RowsFit(packer: Packer, rows: seq<Row>) {
    packer.compressor.ratio > 0 && forall p | 0 <= p < |rows| :: RowFits(packer, rows[p])
  }

  // ---------- entries as functions of the rows ----------

  function Hiddens(rows: seq<Row>): (hidden: seq<Vec>)
    ensures |hidden| == |rows|
    ensures forall p | 0 <= p < |rows| :: hidden[p] == rows[p].hidden
  {
    seq(|rows|, p requires 0 <= p < |rows| => rows[p].hidden)
  }

  ghost predicate HasHead(rows: seq<Row>, head: nat) {
    forall p | 0 <= p < |rows| :: head < |rows[p].keys| && head < |rows[p].values|
  }

  function HeadKeys(rows: seq<Row>, head: nat): (keys: seq<Vec>)
    requires HasHead(rows, head)
    ensures |keys| == |rows|
    ensures forall p | 0 <= p < |rows| :: keys[p] == rows[p].keys[head]
  {
    seq(|rows|, p requires 0 <= p < |rows| => rows[p].keys[head])
  }

  function HeadValues(rows: seq<Row>, head: nat): (values: seq<Vec>)
    requires HasHead(rows, head)
    ensures |values| == |rows|
    ensures forall p | 0 <= p < |rows| :: values[p] == rows[p].values[head]
  {
    seq(|rows|, p requires 0 <= p < |rows| => rows[p].values[head])
  }

  lemma HeadFits(packer: Packer, rows: seq<Row>, head: nat)
    requires RowsFit(packer, rows) && head < packer.heads
    ensures HasHead(rows, head)
    ensures Shaped(packer.compressor, Hiddens(rows), HeadKeys(rows, head))
    ensures Shaped(packer.compressor, Hiddens(rows), HeadValues(rows, head))
  {
    forall p | 0 <= p < |rows|
      ensures head < |rows[p].keys| && head < |rows[p].values|
      ensures |rows[p].keys[head]| == |rows[p].values[head]| == packer.compressor.channels
    {
      assert RowFits(packer, rows[p]);
    }
  }

  /** The pooled keys of one complete block, for one head. */
  ghost function PackedKey(packer: Packer, rows: seq<Row>, head: nat): Vec
    requires RowsFit(packer, rows) && |rows| == packer.compressor.ratio && head < packer.heads
  {
    HeadFits(packer, rows, head);
    Pooled(packer.compressor, Hiddens(rows), HeadKeys(rows, head), 0, |rows|)
  }

  ghost function PackedValue(packer: Packer, rows: seq<Row>, head: nat): Vec
    requires RowsFit(packer, rows) && |rows| == packer.compressor.ratio && head < packer.heads
  {
    HeadFits(packer, rows, head);
    Pooled(packer.compressor, Hiddens(rows), HeadValues(rows, head), 0, |rows|)
  }

  ghost predicate IsPacked(packer: Packer, rows: seq<Row>, entry: Entry)
    requires RowsFit(packer, rows) && |rows| == packer.compressor.ratio
  {
    && |entry.keys| == |entry.values| == |entry.indexerKeys| == packer.heads
    && forall h | 0 <= h < packer.heads ::
         && entry.keys[h] == PackedKey(packer, rows, h)
         && entry.values[h] == PackedValue(packer, rows, h)
         && entry.indexerKeys[h] == packer.index(entry.keys[h])
  }

  ghost function Packed(packer: Packer, rows: seq<Row>): (entry: Entry)
    requires RowsFit(packer, rows) && |rows| == packer.compressor.ratio
    ensures IsPacked(packer, rows, entry)
  {
    Entry(
      seq(packer.heads, h requires 0 <= h < packer.heads => PackedKey(packer, rows, h)),
      seq(packer.heads, h requires 0 <= h < packer.heads => PackedValue(packer, rows, h)),
      seq(packer.heads, h requires 0 <= h < packer.heads => packer.index(PackedKey(packer, rows, h))))
  }

  lemma PackedUnique(packer: Packer, rows: seq<Row>, entry: Entry)
    requires RowsFit(packer, rows) && |rows| == packer.compressor.ratio && IsPacked(packer, rows, entry)
    ensures entry == Packed(packer, rows)
  {
    var packed := Packed(packer, rows);
    assert entry.keys == packed.keys && entry.values == packed.values && entry.indexerKeys == packed.indexerKeys;
  }

  lemma BlockInside(ratio: nat, length: nat, block: nat)
    requires ratio > 0 && block < length / ratio
    ensures (block + 1) * ratio == block * ratio + ratio <= length
  {
    MultipleApart(block, length / ratio, ratio);
  }

  /** The rows of one complete block. */
  ghost function BlockRows(packer: Packer, rows: seq<Row>, block: nat): (part: seq<Row>)
    requires RowsFit(packer, rows) && block < |rows| / packer.compressor.ratio
    ensures |part| == packer.compressor.ratio && RowsFit(packer, part)
  {
    var ratio := packer.compressor.ratio;
    BlockInside(ratio, |rows|, block);
    rows[block * ratio..block * ratio + ratio]
  }

  /** The entries of every complete block, in order. */
  ghost function Entries(packer: Packer, rows: seq<Row>): (entries: seq<Entry>)
    requires RowsFit(packer, rows)
    ensures |entries| == |rows| / packer.compressor.ratio
    ensures forall b | 0 <= b < |entries| :: entries[b] == Packed(packer, BlockRows(packer, rows, b))
  {
    seq(|rows| / packer.compressor.ratio,
        b requires 0 <= b < |rows| / packer.compressor.ratio => Packed(packer, BlockRows(packer, rows, b)))
  }

  /** Each entry is the block one compressor forward over all rows puts there. */
  lemma EntriesAreForward(packer: Packer, rows: seq<Row>, head: nat, keys: seq<Vec>, values: seq<Vec>, block: nat)
    requires RowsFit(packer, rows) && head < packer.heads && block < |rows| / packer.compressor.ratio
    requires HasHead(rows, head)
    requires Shaped(packer.compressor, Hiddens(rows), HeadKeys(rows, head))
    requires Shaped(packer.compressor, Hiddens(rows), HeadValues(rows, head))
    requires IsCompressed(packer.compressor, Hiddens(rows), HeadKeys(rows, head), keys)
    requires IsCompressed(packer.compressor, Hiddens(rows), HeadValues(rows, head), values)
    ensures block < |keys| && block < |values|
    ensures Entries(packer, rows)[block].keys[head] == keys[block]
    ensures Entries(packer, rows)[block].values[head] == values[block]
  {
    hide Pooled, Shaped, IsCompressed, Entries, RowFits, PackedKey, PackedValue, BlockOf, BlockRows, Hiddens, HeadKeys, HeadValues;
    EntryOf(packer, rows, block, head);
    PartOf(packer, rows, block, head);
    BlockOfForward(packer.compressor, Hiddens(rows), HeadKeys(rows, head), keys, block);
    BlockOfForward(packer.compressor, Hiddens(rows), HeadValues(rows, head), values, block);
    PackedIs(packer, BlockRows(packer, rows, block), head);
  }

  lemma PackedIs(packer: Packer, part: seq<Row>, head: nat)
    requires RowsFit(packer, part) && |part| == packer.compressor.ratio && head < packer.heads
    ensures HasHead(part, head)
    ensures Shaped(packer.compressor, Hiddens(part), HeadKeys(part, head))
    ensures Shaped(packer.compressor, Hiddens(part), HeadValues(part, head))
    ensures PackedKey(packer, part, head) == Pooled(packer.compressor, Hiddens(part), HeadKeys(part, head), 0, |part|)
    ensures PackedValue(packer, part, head) == Pooled(packer.compressor, Hiddens(part), HeadValues(part, head), 0, |part|)
  {
    HeadFits(packer, part, head);
  }

  lemma EntryOf(packer: Packer, rows: seq<Row>, block: nat, head: nat)
    requires RowsFit(packer, rows) && head < packer.heads && block < |rows| / packer.compressor.ratio
    ensures var part, entry := BlockRows(packer, rows, block), Entries(packer, rows)[block];
            && head < |entry.keys| == |entry.values|
            && entry.keys[head] == PackedKey(packer, part, head)
            && entry.values[head] == PackedValue(packer, part, head)
  {
    hide PackedKey, PackedValue;
    assert IsPacked(packer, BlockRows(packer, rows, block), Entries(packer, rows)[block]);
  }

  lemma PartOf(packer: Packer, rows: seq<Row>, block: nat, head: nat)
    requires RowsFit(packer, rows) && block < |rows| / packer.compressor.ratio && HasHead(rows, head)
    ensures var ratio, part := packer.compressor.ratio, BlockRows(packer, rows, block);
            && HasHead(part, head)
            && Hiddens(part) == BlockOf(Hiddens(rows), ratio, block)
            && HeadKeys(part, head) == BlockOf(HeadKeys(rows, head), ratio, block)
            && HeadValues(part, head) == BlockOf(HeadValues(rows, head), ratio, block)
  {
    hide RowFits;
    BlockInside(packer.compressor.ratio, |rows|, block);
  }

  ghost function BlockOf<T>(s: seq<T>, ratio: nat, block: nat): seq<T> {
    if block * ratio + ratio <= |s| then s[block * ratio..block * ratio + ratio] else []
  }

  lemma BlockOfForward(compressor: Compressor, hidden: seq<Vec>, value: seq<Vec>, compressed: seq<Vec>, block: nat)
    requires Shaped(compressor, hidden, value) && block < |hidden| / compressor.ratio
    requires IsCompressed(compressor, hidden, value, compressed)
    ensures block < |compressed|
    ensures var h, v := BlockOf(hidden, compressor.ratio, block), BlockOf(value, compressor.ratio, block);
            && |h| == compressor.ratio && Shaped(compressor, h, v)
            && Pooled(compressor, h, v, 0, compressor.ratio) == compressed[block]
  {
    hide Pooled;
    BlockInside(compressor.ratio, |hidden|, block);
    FewerComplete(compressor.ratio, |hidden|);
    assert IsEntry(compressor, hidden, value, block, compressed[block]);
    BlockAlone(compressor, hidden, value, block);
  }

  lemma FewerComplete(ratio: nat, length: nat)
    requires ratio > 0
    ensures length / ratio <= Blocks(ratio, length)
  {
    var a, b := length / ratio, (length + ratio - 1) / ratio;
    MultipleApart(b, a, ratio);
    assert length + ratio - 1 == b * ratio + (length + ratio - 1) % ratio;
    assert length == a * ratio + length % ratio;
  }

  /** What a row adds: an entry when it fills the block, nothing otherwise. */
  lemma EntriesStep(packer: Packer, rows: seq<Row>, row: Row)
    requires RowsFit(packer, rows + [row]) && RowsFit(packer, rows)
    ensures var ratio := packer.compressor.ratio;
            var left := |rows| % ratio;
            if left + 1 == ratio then
              && (|rows| + 1) % ratio == 0 && (|rows| + 1) / ratio == |rows| / ratio + 1
              && RowsFit(packer, rows[|rows| - left..] + [row])
              && Entries(packer, rows + [row]) == Entries(packer, rows) + [Packed(packer, rows[|rows| - left..] + [row])]
            else
              && (|rows| + 1) % ratio == left + 1 && (|rows| + 1) / ratio == |rows| / ratio
              && Entries(packer, rows + [row]) == Entries(packer, rows)
  {
    hide BlockRows, RowFits, Packed;
    var ratio, longer := packer.compressor.ratio, rows + [row];
    var left, count := |rows| % ratio, |rows| / ratio;
    CountUp(ratio, |rows|);
    forall b | 0 <= b < count ensures BlockRows(packer, longer, b) == BlockRows(packer, rows, b) {
      SameBlock(packer, rows, [row], b);
    }
    if left + 1 == ratio {
      FullBlock(packer, rows, row);
    }
  }

  lemma SameBlock(packer: Packer, rows: seq<Row>, more: seq<Row>, block: nat)
    requires RowsFit(packer, rows + more) && RowsFit(packer, rows) && block < |rows| / packer.compressor.ratio
    requires |rows| / packer.compressor.ratio <= (|rows| + |more|) / packer.compressor.ratio
    ensures BlockRows(packer, rows + more, block) == BlockRows(packer, rows, block)
  {
    hide RowFits;
    BlockInside(packer.compressor.ratio, |rows|, block);
  }

  lemma FullBlock(packer: Packer, rows: seq<Row>, row: Row)
    requires RowsFit(packer, rows + [row]) && |rows| % packer.compressor.ratio + 1 == packer.compressor.ratio
    ensures var left, count := |rows| % packer.compressor.ratio, |rows| / packer.compressor.ratio;
            && left <= |rows| && count < (|rows| + 1) / packer.compressor.ratio
            && RowsFit(packer, rows[|rows| - left..] + [row])
            && BlockRows(packer, rows + [row], count) == rows[|rows| - left..] + [row]
  {
    var ratio, longer := packer.compressor.ratio, rows + [row];
    var left, count := |rows| % ratio, |rows| / ratio;
    CountUp(ratio, |rows|);
    assert |rows| == count * ratio + left;
    var part := rows[|rows| - left..] + [row];
    forall p | 0 <= p < |part| ensures RowFits(packer, part[p]) {
      assert part[p] == longer[|rows| - left + p];
    }
  }

  /** Earlier rows alone fix earlier entries. */
  lemma EntriesPrefix(packer: Packer, rows: seq<Row>, n: nat)
    requires n <= |rows| && RowsFit(packer, rows) && RowsFit(packer, rows[..n])
    ensures n / packer.compressor.ratio <= |rows| / packer.compressor.ratio
    ensures Entries(packer, rows[..n]) == Entries(packer, rows)[..n / packer.compressor.ratio]
  {
    var ratio := packer.compressor.ratio;
    QuotientMonotone(ratio, n, |rows|);
    forall b | 0 <= b < n / ratio ensures BlockRows(packer, rows[..n], b) == BlockRows(packer, rows, b) {
      BlockInside(ratio, n, b);
      BlockInside(ratio, |rows|, b);
    }
  }

  // ---------- the state ----------

  class LayerCache {
    const raw: array<Row>
    const tail: array<Row>
    const compressed: array<Entry>
    var tailLength: nat
    var compressedCount: nat

    /** Layers that reuse another layer's entries own only the counters and the raw rows. */
    constructor (capacity: nat, ratio: nat, maxBlocks: nat, owner: bool)
      ensures fresh(raw) && fresh(tail) && fresh(compressed) && raw != tail
      ensures raw.Length == capacity && tailLength == compressedCount == 0
      ensures owner ==> tail.Length == ratio && compressed.Length == maxBlocks
    {
      raw := new Row[capacity];
      tail := new Row[if owner then ratio else 0];
      compressed := new Entry[if owner then maxBlocks else 0];
      tailLength, compressedCount := 0, 0;
    }

    ghost function Repr(): set<object> {
      {this, raw, tail, compressed}
    }

    /** The raw rows of every position so far; slots past them are stale. */
    ghost predicate RawHolds(rows: seq<Row>)
      reads this, raw
    {
      |rows| <= raw.Length && raw[..|rows|] == rows
    }

    /** Exactly the complete blocks are compressed and the tail is the rest of the rows. */
    ghost predicate TailHolds(packer: Packer, rows: seq<Row>)
      requires RowsFit(packer, rows)
      reads this, tail, compressed
    {
      var ratio := packer.compressor.ratio;
      && tail.Length == ratio
      && tailLength == |rows| % ratio
      && compressedCount == |rows| / ratio <= compressed.Length
      && tail[..tailLength] == rows[|rows| - tailLength..]
      && compressed[..compressedCount] == Entries(packer, rows)
    }

    /** Copies the chunk's raw rows in at the position and returns the whole prefix. */
    method WriteKeyValue(position: nat, rows: seq<Row>) returns (prefix: seq<Row>)
      requires position + |rows| <= raw.Length
      modifies raw
      ensures raw[..] == old(raw[..position]) + rows + old(raw[position + |rows|..])
      ensures prefix == raw[..position + |rows|]
    {
      for i := 0 to |rows|
        invariant forall j | position <= j < position + i :: raw[j] == rows[j - position]
        invariant forall j | 0 <= j < raw.Length && !(position <= j < position + i) :: raw[j] == old(raw[j])
      {
        raw[position + i] := rows[i];
      }
      prefix := raw[..position + |rows|];
    }

    method AppendTailRow(row: Row)
      requires tailLength < tail.Length
      modifies this`tailLength, tail
      ensures tailLength == old(tailLength) + 1
      ensures tail[..tailLength] == old(tail[..tailLength]) + [row]
    {
      tail[tailLength] := row;
      tailLength := tailLength + 1;
    }

    /** Pools the full tail into one entry per head and empties it. */
    method CompressTail(packer: Packer)
      requires RowsFit(packer, tail[..]) && tail.Length == packer.compressor.ratio
      requires compressedCount < compressed.Length
      modifies this`tailLength, this`compressedCount, compressed
      ensures tailLength == 0 && compressedCount == old(compressedCount) + 1
      ensures RowsFit(packer, old(tail[..]))
      ensures compressed[..compressedCount]
              == old(compressed[..compressedCount]) + [Packed(packer, old(tail[..]))]
    {
      var rows := tail[..];
      var keys, values, indexerKeys := [], [], [];
      for head := 0 to packer.heads
        invariant |keys| == |values| == |indexerKeys| == head
        invariant forall h | 0 <= h < head ::
                    && keys[h] == PackedKey(packer, rows, h)
                    && values[h] == PackedValue(packer, rows, h)
                    && indexerKeys[h] == packer.index(keys[h])
        modifies {}
      {
        HeadFits(packer, rows, head);
        var compressedKey := Forward(packer.compressor, Hiddens(rows), HeadKeys(rows, head));
        var compressedValue := Forward(packer.compressor, Hiddens(rows), HeadValues(rows, head));
        OneBlock(packer.compressor, Hiddens(rows), HeadKeys(rows, head), compressedKey);
        OneBlock(packer.compressor, Hiddens(rows), HeadValues(rows, head), compressedValue);
        keys, values := keys + [compressedKey[0]], values + [compressedValue[0]];
        indexerKeys := indexerKeys + [packer.index(compressedKey[0])];
      }
      var entry := Entry(keys, values, indexerKeys);
      PackedUnique(packer, rows, entry);
      compressed[compressedCount] := entry;
      compressedCount := compressedCount + 1;
      tailLength := 0;
    }

    /** One row in, and the block flushed when it is full. */
    method PushRow(packer: Packer, row: Row, ghost before: seq<Row>)
      requires RowsFit(packer, before + [row]) && RowsFit(packer, before) && TailHolds(packer, before)
      requires (|before| + 1) / packer.compressor.ratio <= compressed.Length
      modifies this`tailLength, this`compressedCount, tail, compressed
      ensures TailHolds(packer, before + [row])
    {
      hide Entries, RowFits;
      EntriesStep(packer, before, row);
      ghost var left := tailLength;
      AppendTailRow(row);
      if tailLength == packer.compressor.ratio {
        assert tail[..] == tail[..tailLength] == before[|before| - left..] + [row];
        CompressTail(packer);
      } else {
        TailGrows(before, row, left);
      }
    }

    /** Appends a chunk row by row, flushing each block as it fills. */
    method AppendGlobalTail(packer: Packer, rows: seq<Row>, ghost before: seq<Row>)
      requires RowsFit(packer, before + rows) && RowsFit(packer, before) && TailHolds(packer, before)
      requires (|before| + |rows|) / packer.compressor.ratio <= compressed.Length
      modifies this`tailLength, this`compressedCount, tail, compressed
      ensures TailHolds(packer, before + rows)
    {
      hide RowsFit, TailHolds;
      assert before + rows[..0] == before;
      for position := 0 to |rows|
        invariant RowsFit(packer, before + rows[..position]) && TailHolds(packer, before + rows[..position])
      {
        NextRow(packer, before, rows, position);
        RatioPositive(packer, before);
        QuotientMonotone(packer.compressor.ratio, |before| + position + 1, |before| + |rows|);
        PushRow(packer, rows[position], before + rows[..position]);
      }
      assert rows[..|rows|] == rows;
    }
  }

  lemma RatioPositive(packer: Packer, rows: seq<Row>)
    requires RowsFit(packer, rows)
    ensures packer.compressor.ratio > 0
  {
  }

  lemma TailGrows(rows: seq<Row>, row: Row, left: nat)
    requires left <= |rows|
    ensures rows[|rows| - left..] + [row] == (rows + [row])[|rows| + 1 - (left + 1)..]
  {
  }

  lemma NextRow(packer: Packer, before: seq<Row>, rows: seq<Row>, position: nat)
    requires position < |rows| && RowsFit(packer, before + rows)
    ensures before + rows[..position + 1] == (before + rows[..position]) + [rows[position]]
    ensures RowsFit(packer, before + rows[..position + 1])
  {
    var longer := before + rows[..position + 1];
    forall p | 0 <= p < |longer| ensures RowFits(packer, longer[p]) {
      assert longer[p] == (before + rows)[p];
    }
  }

  lemma OneBlock(compressor: Compressor, hidden: seq<Vec>, value: seq<Vec>, compressed: seq<Vec>)
    requires Shaped(compressor, hidden, value) && |hidden| == compressor.ratio
    requires IsCompressed(compressor, hidden, value, compressed)
    ensures |compressed| == 1 && compressed[0] == Pooled(compressor, hidden, value, 0, |hidden|)
  {
    var ratio := compressor.ratio;
    assert ratio + ratio - 1 == 1 * ratio + (ratio - 1);
    QuotientIs(ratio, 1, ratio - 1);
    assert IsEntry(compressor, hidden, value, 0, compressed[0]);
  }
}
