/** A small file written out: which buffers go where, and how they interleave. */
module KvExample {
  import opened Bytes
  import opened KvFormat
  import opened KvLayers
  import opened KvLists
  import opened KvWire
  import opened Wrappers

  /** Two rows with one head; row 0 has one tail row, row 1 one compressed block. */
  ghost function Sample(stripped: bool): Snapshot {
    var layer := LayerState(
      [1, 0], [0, 1],
      Some(Tail([[30, 99], [99, 99]], [[31, 99], [99, 99]], [[32, 99], [99, 99]])),
      Some(Entries([[99, 99], [40, 99]], [[99, 99], [41, 99]])),
      Some([[99, 99], [42, 99]]));
    Snapshot(
      Geometry(2, 2, 1, 1, 1, 1, 2, 2, 1, 5, 1, 2, 1),
      stripped,
      [[[10, 99], [11, 99]]],
      [[[20, 99], [21, 99]]],
      [layer],
      true,
      Some(Latents([[[50, 51, 99, 99], [52, 53, 99, 99]]], [[[54, 99], [55, 99]]])),
      Some(Embedding(1, [60, 61])))
  }

  lemma PairOfTwo(a: seq<Floats>, b: seq<Floats>, countsA: seq<int>, countsB: seq<int>)
    requires |a| == |b| == |countsA| == |countsB| == 2
    ensures PairWords(a, b, countsA, countsB, 0)
            == Used(a[0], countsA[0]) + (Used(b[0], countsB[0]) + (Used(a[1], countsA[1]) + (Used(b[1], countsB[1]) + [])))
  {
    assert PairWords(a, b, countsA, countsB, 2) == [];
    assert PairWords(a, b, countsA, countsB, 1) == Used(a[1], countsA[1]) + (Used(b[1], countsB[1]) + []);
  }

  lemma ListOfTwo(a: seq<Floats>, counts: seq<int>)
    requires |a| == |counts| == 2
    ensures ListWords(a, counts, 0) == Used(a[0], counts[0]) + (Used(a[1], counts[1]) + [])
  {
    assert ListWords(a, counts, 2) == [];
    assert ListWords(a, counts, 1) == Used(a[1], counts[1]) + [];
  }

  lemma SampleTail()
    ensures TailWords(Sample(false).geometry, Sample(false).layers[0]) == [30, 31, 32]
  {
    var g, layer := Sample(false).geometry, Sample(false).layers[0];
    var tail, tails := layer.tail.value, PerHead([1, 0], g, 1);
    assert tails == [1, 0];
    ListOfTwo(tail.hidden, PerBatch([1, 0], 1));
    PairOfTwo(tail.keys, tail.values, tails, tails);
  }

  lemma SampleEntries()
    ensures EntryWords(Sample(false).geometry, Sample(false).layers[0]) == [40, 41]
    ensures IndexerWords(Sample(false).geometry, Sample(false).layers[0]) == [42]
  {
    var g, layer := Sample(false).geometry, Sample(false).layers[0];
    var entries, blocks := layer.entries.value, PerHead([0, 1], g, 1);
    assert blocks == [0, 1];
    PairOfTwo(entries.keys, entries.values, blocks, blocks);
    ListOfTwo(layer.indexer.value, blocks);
  }

  lemma SampleCounters()
    ensures CounterWords([1, 0], [0, 1], 0) == [1, 0, 0, 1]
  {
    assert CounterWords([1, 0], [0, 1], 2) == [];
    assert CounterWords([1, 0], [0, 1], 1) == [0, 1];
  }

  lemma SampleLayer()
    ensures LayersPart(Sample(true)) == LayersPart(Sample(false))
            == [7, 1, 0, 0, 1, 30, 31, 32, 40, 41, 42]
  {
    hide CounterWords, TailWords, EntryWords, IndexerWords;
    var c := Sample(false);
    SampleTail();
    SampleEntries();
    SampleCounters();
    assert LayersWords(c.geometry, c.layers, 1) == [];
  }

  lemma SampleLatents()
    ensures LastParts(Sample(true)) == LastParts(Sample(false)) == [50, 51, 54, 52, 53, 55, 1, 60, 61]
  {
    var c := Sample(false);
    var g, mla := c.geometry, c.mla.value;
    PairOfTwo(mla.latent[0], mla.ropeKey[0], LatentCounts(g, 2), LatentCounts(g, 1));
    assert LayeredWords(mla.latent, mla.ropeKey, LatentCounts(g, 2), LatentCounts(g, 1), 1) == [];
    assert LatentWords(g, mla) == [50, 51, 54, 52, 53, 55];
  }

  lemma SampleRaw()
    ensures RawPart(Sample(false)) == [10, 20, 11, 21] && RawPart(Sample(true)) == []
  {
    var c := Sample(false);
    PairOfTwo(c.keys[0], c.values[0], RawCounts(c.geometry), RawCounts(c.geometry));
    assert LayeredWords(c.keys, c.values, RawCounts(c.geometry), RawCounts(c.geometry), 1) == [];
  }

  /** The file of the sample: header, raw rows, layer, latents, embedding. Stripping drops the raw
      rows and sets a flag. */
  lemma SampleFile()
    ensures WellFormed(Sample(false)) && WellFormed(Sample(true))
    ensures Format(Sample(false))
            == [71, 79, 78, 65, 75, 86, 0, 1]
               + WordBytes([2, 2, 1, 1, 1, 1, 2, 2, 1, 5, 1, 2, 1, 23]
                           + [10, 20, 11, 21]
                           + [7, 1, 0, 0, 1, 30, 31, 32, 40, 41, 42]
                           + [50, 51, 54, 52, 53, 55]
                           + [1, 60, 61])
    ensures Format(Sample(true))
            == [71, 79, 78, 65, 75, 86, 0, 1]
               + WordBytes([2, 2, 1, 1, 1, 1, 2, 2, 1, 5, 1, 2, 1, 31]
                           + [7, 1, 0, 0, 1, 30, 31, 32, 40, 41, 42]
                           + [50, 51, 54, 52, 53, 55]
                           + [1, 60, 61])
  {
    hide RawPart, LayersPart, LastParts, WordBytes;
    SampleFits(false);
    SampleFits(true);
    SampleRaw();
    SampleLayer();
    SampleLatents();
    assert Header(Sample(false)) + ([10, 20, 11, 21] + ([7, 1, 0, 0, 1, 30, 31, 32, 40, 41, 42]
                                    + [50, 51, 54, 52, 53, 55, 1, 60, 61]))
           == [2, 2, 1, 1, 1, 1, 2, 2, 1, 5, 1, 2, 1, 23] + [10, 20, 11, 21]
              + [7, 1, 0, 0, 1, 30, 31, 32, 40, 41, 42] + [50, 51, 54, 52, 53, 55] + [1, 60, 61];
    assert Header(Sample(true)) + ([] + ([7, 1, 0, 0, 1, 30, 31, 32, 40, 41, 42]
                                   + [50, 51, 54, 52, 53, 55, 1, 60, 61]))
           == [2, 2, 1, 1, 1, 1, 2, 2, 1, 5, 1, 2, 1, 31]
              + [7, 1, 0, 0, 1, 30, 31, 32, 40, 41, 42] + [50, 51, 54, 52, 53, 55] + [1, 60, 61];
  }

  lemma SampleFits(stripped: bool)
    ensures WellFormed(Sample(stripped))
  {
    var c := Sample(stripped);
    var g, layer := c.geometry, c.layers[0];
    assert PerHead([1, 0], g, 1) == [1, 0] && PerHead([0, 1], g, 1) == [0, 1];
    assert PerBatch([1, 0], 1) == [1, 0];
    assert LayerFits(g, true, layer);
    assert RawCounts(g) == [1, 1] && LatentCounts(g, 2) == [2, 2] && LatentCounts(g, 1) == [1, 1];
    assert Matches(c.keys[0], RawCounts(g), 2) && Matches(c.values[0], RawCounts(g), 2);
    assert Matches(c.mla.value.latent[0], [2, 2], 4) && Matches(c.mla.value.ropeKey[0], [1, 1], 2);
  }
}
