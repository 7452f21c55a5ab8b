/** Bytes and 32-bit words, and the little-endian form that links them. */
module Bytes {
  type Byte = b: nat | b < 256

  type Word = w: nat | w < 0x1_0000_0000

  function LittleEndian(w: Word): (bytes: seq<Byte>)
    ensures |bytes| == 4
  {
    [w % 256, w / 256 % 256, w / 65536 % 256, w / 16777216]
  }

  function FromLittleEndian(bytes: seq<Byte>): Word
    requires |bytes| == 4
  {
    var b0: int, b1: int, b2: int, b3: int := bytes[0], bytes[1], bytes[2], bytes[3];
    b0 + 256 * b1 + 65536 * b2 + 16777216 * b3
  }

  lemma LittleEndianRoundTrip(w: Word)
    ensures FromLittleEndian(LittleEndian(w)) == w
    ensures var bytes: seq<int> := LittleEndian(w);
            w == bytes[0] + 256 * bytes[1] + 65536 * bytes[2] + 16777216 * bytes[3]
  {
    assert w / 65536 == w / 256 / 256 && w / 16777216 == w / 65536 / 256;
  }

  ghost function WordBytes(words: seq<Word>): (bytes: seq<Byte>)
    ensures |bytes| == 4 * |words|
  {
    if words == [] then [] else LittleEndian(words[0]) + WordBytes(words[1..])
  }

  lemma {:induction false} WordBytesConcat(a: seq<Word>, b: seq<Word>)
    ensures WordBytes(a + b) == WordBytes(a) + WordBytes(b)
  {
    if a == [] {
      assert a + b == b;
    } else {
      WordBytesConcat(a[1..], b);
      assert (a + b)[1..] == a[1..] + b && (a + b)[0] == a[0];
    }
  }
}
