/** The writer and reader a cache snapshot is serialised with: little-endian words, the first
    error recorded, zeros after it. */
module KvWire {
  import opened Bytes

  /** A float buffer, as bit patterns. */
  type Floats = seq<Word>

  function Zeros(n: nat): (zeros: Floats)
    ensures |zeros| == n
    ensures forall i | 0 <= i < n :: zeros[i] == 0
  {
    seq(n, i => 0)
  }

  class KvWriter {
    var buffer: seq<Byte>

    constructor (magic: seq<Byte>)
      ensures buffer == magic
    {
      buffer := magic;
    }

    method U32(value: Word)
      modifies this
      ensures buffer == old(buffer) + WordBytes([value])
    {
      assert [value][1..] == [];
      buffer := buffer + LittleEndian(value);
    }

    method F32s(values: Floats)
      modifies this
      ensures buffer == old(buffer) + WordBytes(values)
    {
      assert values[..0] == [];
      for i := 0 to |values|
        invariant buffer == old(buffer) + WordBytes(values[..i])
      {
        WordBytesConcat(values[..i], [values[i]]);
        assert values[..i + 1] == values[..i] + [values[i]];
        U32(values[i]);
      }
      assert values[..|values|] == values;
    }
  }

  class KvReader {
    const data: seq<Byte>
    var pos: nat
    var failed: bool

    constructor (data: seq<Byte>, start: nat)
      requires start <= |data|
      ensures Valid() && this.data == data && pos == start && !failed
    {
      this.data := data;
      pos, failed := start, false;
    }

    ghost predicate Valid()
      reads this
    {
      pos <= |data|
    }

    /** What is left is `words`, whole or, when the input was cut short, only a part of them.
        After an error nothing more is promised than that the input was cut. */
    ghost predicate Expects(words: seq<Word>, cut: bool)
      requires Valid()
      reads this
    {
      if failed then cut
      else data[pos..] <= WordBytes(words) && (cut <==> data[pos..] != WordBytes(words))
    }

    method Need(count: nat) returns (ok: bool)
      requires Valid()
      modifies this`failed
      ensures ok == (!old(failed) && pos + count <= |data|)
      ensures failed == !ok
    {
      if failed {
        return false;
      }
      if pos + count > |data| {
        failed := true;
        return false;
      }
      ok := true;
    }

    /** The next word, or 0 after an error. */
    method U32(ghost word: Word, ghost rest: seq<Word>, ghost cut: bool) returns (value: Word)
      requires Valid()
      modifies this
      ensures Valid()
      ensures failed ==> value == 0
      ensures old(failed) ==> failed
      ensures old(Expects([word] + rest, cut)) ==> Expects(rest, cut) && (!failed ==> value == word)
    {
      ghost var before := pos;
      var ok := Need(4);
      if !ok {
        ShortOf([word] + rest, data[pos..]);
        return 0;
      }
      value := FromLittleEndian(data[pos..pos + 4]);
      pos := pos + 4;
      if !old(failed) && data[before..] <= WordBytes([word] + rest) {
        TakeWord(word, rest, data[before..]);
        assert data[before..][..4] == data[before..before + 4];
        assert data[before..][4..] == data[pos..];
      }
    }

    /** A run of `count` words, or zeros after an error: a run is read whole or not at all. */
    method F32s(count: nat, ghost words: seq<Word>, ghost rest: seq<Word>, ghost cut: bool) returns (values: Floats)
      requires Valid()
      modifies this
      ensures Valid()
      ensures |values| == count
      ensures old(failed) ==> failed
      ensures old(Expects(words + rest, cut)) && (old(failed) || |words| == count) ==>
                Expects(rest, cut) && (!failed ==> values == words)
    {
      hide WordBytes;
      ghost var before, follows := pos, |words| == count && !failed && Expects(words + rest, cut);
      var ok := Need(4 * count);
      if !ok {
        WordBytesConcat(words, rest);
        return Zeros(count);
      }
      values := [];
      assert words[..0] == [];
      for i := 0 to count
        invariant Valid() && !failed && |values| == i
        invariant pos == before + 4 * i && before + 4 * count <= |data|
        invariant follows ==> values == words[..i] && Expects(words[i..] + rest, cut)
      {
        ghost var word := if follows then words[i] else 0;
        ghost var after := if follows then words[i + 1..] + rest else [];
        if follows {
          assert words[i..] + rest == [word] + after;
        }
        ghost var from := pos;
        var value := FromLittleEndian(data[pos..pos + 4]);
        pos := pos + 4;
        if follows {
          TakeWord(word, after, data[from..]);
          assert data[from..][..4] == data[from..from + 4] && data[from..][4..] == data[pos..];
        }
        values := values + [value];
      }
      if follows {
        assert words[..count] == words && words[count..] + rest == rest;
      }
    }
  }

  lemma FailedExpects(reader: KvReader, a: seq<Word>, b: seq<Word>, cut: bool)
    requires reader.Valid() && reader.failed
    ensures reader.Expects(a, cut) == reader.Expects(b, cut)
  {
  }

  lemma ShortOf(words: seq<Word>, left: seq<Byte>)
    requires words != []
    ensures |WordBytes(words)| >= 4
  {
  }

  /** Taking one word off what is left of a stream. */
  lemma TakeWord(word: Word, rest: seq<Word>, left: seq<Byte>)
    requires |left| >= 4 && left <= WordBytes([word] + rest)
    ensures FromLittleEndian(left[..4]) == word
    ensures left[4..] <= WordBytes(rest)
    ensures left == WordBytes([word] + rest) <==> left[4..] == WordBytes(rest)
  {
    var whole := WordBytes([word] + rest);
    assert ([word] + rest)[1..] == rest;
    assert whole == LittleEndian(word) + WordBytes(rest);
    assert left[..4] == whole[..4] == LittleEndian(word);
    LittleEndianRoundTrip(word);
    assert left == left[..4] + left[4..];
  }
}
