/** A small block written out byte by byte, with every form of element. */
module SnappyExample {
  import opened Bytes
  import opened Snappy
  import opened SnappyDecoder
  import opened Wrappers

  lemma SerialiseStep(e: Element, rest: seq<Element>)
    requires Legal(e) && AllLegal(rest)
    ensures AllLegal([e] + rest) && SerialiseAll([e] + rest) == Serialise(e) + SerialiseAll(rest)
  {
    hide Legal, Serialise;
    assert ([e] + rest)[1..] == rest;
  }

  lemma MeaningStep(e: Element, rest: seq<Element>, dst: seq<Byte>)
    ensures Append(dst, e).Some? ==> Meaning([e] + rest, dst) == Meaning(rest, Append(dst, e).value)
  {
    hide Append;
    assert ([e] + rest)[1..] == rest;
  }

  /** The tag and offset bytes of each form. */
  lemma ElementBytes()
    ensures Legal(ShortLiteral([97, 98, 99])) && Serialise(ShortLiteral([97, 98, 99])) == [8, 97, 98, 99]
    ensures Legal(LongLiteral(1, [120])) && Serialise(LongLiteral(1, [120])) == [240, 0, 120]
    ensures Legal(NearCopy(515, 11)) && Serialise(NearCopy(515, 11)) == [93, 3]
    ensures Legal(NearCopy(3, 4)) && Serialise(NearCopy(3, 4)) == [1, 3]
    ensures Legal(FarCopy(2, 7, 2)) && Serialise(FarCopy(2, 7, 2)) == [6, 7, 0]
    ensures Legal(FarCopy(4, 1, 3)) && Serialise(FarCopy(4, 1, 3)) == [11, 1, 0, 0, 0]
  {
    Powers();
    LowBytes();
    hide Power256, Low;
  }

  lemma Powers()
    ensures Power256(1) == 256 && Power256(2) == 65536 && Power256(4) == 0x1_0000_0000
  {
    assert Power256(2) == 256 * Power256(1) && Power256(3) == 256 * Power256(2);
  }

  lemma LowBytes()
    ensures Low(0, 1) == [0] && Low(7, 2) == [7, 0] && Low(1, 4) == [1, 0, 0, 0]
  {
    assert Low(0, 3) == [0] + Low(0, 2) && Low(0, 2) == [0] + Low(0, 1);
  }

  const SAMPLE: seq<Element> :=
    [ShortLiteral([97, 98, 99])]
    + ([NearCopy(3, 4)] + ([FarCopy(2, 7, 2)] + ([FarCopy(4, 1, 3)] + ([LongLiteral(1, [120])] + []))))

  lemma SampleBytes()
    ensures AllLegal(SAMPLE)
    ensures SerialiseAll(SAMPLE) == [8, 97, 98, 99, 1, 3, 6, 7, 0, 11, 1, 0, 0, 0, 240, 0, 120]
  {
    ElementBytes();
    hide Legal, Serialise, AllLegal, SerialiseAll;
    assert AllLegal([]) && SerialiseAll([]) == [] by {
      Nothing();
    }
    SerialiseStep(LongLiteral(1, [120]), []);
    SerialiseStep(FarCopy(4, 1, 3), [LongLiteral(1, [120])] + []);
    SerialiseStep(FarCopy(2, 7, 2), [FarCopy(4, 1, 3)] + ([LongLiteral(1, [120])] + []));
    SerialiseStep(NearCopy(3, 4), [FarCopy(2, 7, 2)] + ([FarCopy(4, 1, 3)] + ([LongLiteral(1, [120])] + [])));
    SerialiseStep(ShortLiteral([97, 98, 99]),
                  [NearCopy(3, 4)] + ([FarCopy(2, 7, 2)] + ([FarCopy(4, 1, 3)] + ([LongLiteral(1, [120])] + []))));
  }

  lemma Nothing()
    ensures AllLegal([]) && SerialiseAll([]) == []
    ensures forall dst :: Meaning([], dst) == Some(dst)
  {
  }

  lemma Copies()
    ensures CopyOut([97, 98, 99], 3, 4) == [97, 98, 99, 97, 98, 99, 97]
    ensures CopyOut([97, 98, 99, 97, 98, 99, 97], 7, 2) == [97, 98, 99, 97, 98, 99, 97, 97, 98]
    ensures CopyOut([97, 98, 99, 97, 98, 99, 97, 97, 98], 1, 3) == [97, 98, 99, 97, 98, 99, 97, 97, 98, 98, 98, 98]
  {
  }

  lemma SampleMeaning()
    ensures Meaning(SAMPLE, []) == Some([97, 98, 99, 97, 98, 99, 97, 97, 98, 98, 98, 98, 120])
  {
    hide CopyOut, Meaning;
    Copies();
    Nothing();
    var whole: seq<Byte> := [97, 98, 99, 97, 98, 99, 97, 97, 98, 98, 98, 98, 120];
    var abc: seq<Byte>, seven: seq<Byte>, nine: seq<Byte>, twelve: seq<Byte> :=
      [97, 98, 99], [97, 98, 99, 97, 98, 99, 97], [97, 98, 99, 97, 98, 99, 97, 97, 98],
      [97, 98, 99, 97, 98, 99, 97, 97, 98, 98, 98, 98];
    assert [] + abc == abc && twelve + [120] == whole;
    MeaningStep(LongLiteral(1, [120]), [], twelve);
    MeaningStep(FarCopy(4, 1, 3), [LongLiteral(1, [120])] + [], nine);
    MeaningStep(FarCopy(2, 7, 2), [FarCopy(4, 1, 3)] + ([LongLiteral(1, [120])] + []), seven);
    MeaningStep(NearCopy(3, 4), [FarCopy(2, 7, 2)] + ([FarCopy(4, 1, 3)] + ([LongLiteral(1, [120])] + [])), abc);
    MeaningStep(ShortLiteral(abc),
                [NearCopy(3, 4)] + ([FarCopy(2, 7, 2)] + ([FarCopy(4, 1, 3)] + ([LongLiteral(1, [120])] + []))), []);
  }

  lemma Preambles()
    ensures IsVarint([13]) && VarintValue([13]) == 13
    ensures IsVarint([172, 2]) && VarintValue([172, 2]) == 300
  {
    var one: seq<Byte>, two: seq<Byte> := [13], [172, 2];
    assert one[..0] == [] && two[..1] == [172] && two[..1][..0] == [];
    assert Power128(1) == 128 * Power128(0);
    assert VarintValue(two[..1]) == 44;
  }

  /** The whole block: preamble, literal, three copies, literal. */
  lemma SampleBlock()
    ensures IsBlock([13, 8, 97, 98, 99, 1, 3, 6, 7, 0, 11, 1, 0, 0, 0, 240, 0, 120],
                    [97, 98, 99, 97, 98, 99, 97, 97, 98, 98, 98, 98, 120])
  {
    SampleBytes();
    SampleMeaning();
    Preambles();
    hide SerialiseAll, Meaning, AllLegal, IsVarint, VarintValue;
    assert BlockOf([13, 8, 97, 98, 99, 1, 3, 6, 7, 0, 11, 1, 0, 0, 0, 240, 0, 120],
                   [97, 98, 99, 97, 98, 99, 97, 97, 98, 98, 98, 98, 120], [13], SAMPLE);
  }
}
