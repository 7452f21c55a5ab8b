/** The block decoder: it accepts exactly the serialisations of valid element lists whose length
    the preamble announces, and returns their meaning. */
module SnappyDecoder {
  import opened Bytes
  import opened Division
  import opened Snappy
  import opened Wrappers

  // ---------- meaning ----------

  /** A copy repeats the last `offset` bytes for as long as it runs; it may overlap itself. */
  ghost function CopyOut(dst: seq<Byte>, offset: nat, length: nat): (longer: seq<Byte>)
    requires 0 < offset <= |dst|
    ensures |longer| == |dst| + length
  {
    dst + seq(length, i requires 0 <= i < length => Repeated(dst, offset, i))
  }

  ghost function Repeated(dst: seq<Byte>, offset: nat, i: nat): Byte
    requires 0 < offset <= |dst|
  {
    dst[|dst| - offset + i % offset]
  }

  ghost function Append(dst: seq<Byte>, e: Element): Option<seq<Byte>> {
    match e
    case ShortLiteral(bytes) => Some(dst + bytes)
    case LongLiteral(_, bytes) => Some(dst + bytes)
    case NearCopy(offset, length) => if 0 < offset <= |dst| then Some(CopyOut(dst, offset, length)) else None
    case FarCopy(_, offset, length) => if 0 < offset <= |dst| then Some(CopyOut(dst, offset, length)) else None
  }

  ghost function Meaning(elements: seq<Element>, dst: seq<Byte>): Option<seq<Byte>> {
    if elements == [] then Some(dst)
    else
      var next := Append(dst, elements[0]);
      if next.None? then None else Meaning(elements[1..], next.value)
  }

  // ---------- meaning, written out ----------

  ghost function LengthOf(e: Element): nat {
    match e
    case ShortLiteral(bytes) => |bytes|
    case LongLiteral(_, bytes) => |bytes|
    case NearCopy(_, length) => length
    case FarCopy(_, _, length) => length
  }

  ghost function Produced(elements: seq<Element>): nat {
    if elements == [] then 0 else LengthOf(elements[0]) + Produced(elements[1..])
  }

  /** Each byte of a copy is the byte `offset` before it, itself perhaps part of the copy. */
  ghost predicate RepeatsBack(out: seq<Byte>, start: nat, offset: nat, length: nat) {
    && 0 < offset <= start && start + length <= |out|
    && forall i | start <= i < start + length :: out[i] == out[i - offset]
  }

  /** What an element puts at `start`. */
  ghost predicate StandsAt(out: seq<Byte>, start: nat, e: Element) {
    match e
    case ShortLiteral(bytes) => start + |bytes| <= |out| && out[start..start + |bytes|] == bytes
    case LongLiteral(_, bytes) => start + |bytes| <= |out| && out[start..start + |bytes|] == bytes
    case NearCopy(offset, length) => RepeatsBack(out, start, offset, length)
    case FarCopy(_, offset, length) => RepeatsBack(out, start, offset, length)
  }

  ghost predicate ReachesBack(start: nat, e: Element) {
    match e
    case ShortLiteral(_) => true
    case LongLiteral(_, _) => true
    case NearCopy(offset, _) => 0 < offset <= start
    case FarCopy(_, offset, _) => 0 < offset <= start
  }

  lemma AppendStands(dst: seq<Byte>, e: Element)
    ensures Append(dst, e).Some? <==> ReachesBack(|dst|, e)
    ensures Append(dst, e).Some? ==>
              var longer := Append(dst, e).value;
              dst <= longer && |longer| == |dst| + LengthOf(e) && StandsAt(longer, |dst|, e)
  {
    if e.NearCopy? && ReachesBack(|dst|, e) {
      CopyRepeats(dst, e.offset, e.length);
    } else if e.FarCopy? && ReachesBack(|dst|, e) {
      CopyRepeats(dst, e.offset, e.length);
    }
  }

  lemma CopyRepeats(dst: seq<Byte>, offset: nat, length: nat)
    requires 0 < offset <= |dst|
    ensures RepeatsBack(CopyOut(dst, offset, length), |dst|, offset, length)
  {
    var all := CopyOut(dst, offset, length);
    forall i | |dst| <= i < |dst| + length ensures all[i] == all[i - offset] {
      CopyAt(dst, offset, length, i - |dst|);
    }
  }

  lemma StandsInLonger(out: seq<Byte>, longer: seq<Byte>, start: nat, e: Element)
    requires out <= longer && StandsAt(out, start, e)
    ensures StandsAt(longer, start, e)
  {
    if e.ShortLiteral? || e.LongLiteral? {
      assert longer[start..start + |e.bytes|] == out[start..start + |e.bytes|];
    }
  }

  /** No copy reaches back behind the start, counting from where the elements before it end. */
  ghost predicate AllReachBack(elements: seq<Element>, start: nat) {
    forall k | 0 <= k < |elements| :: ReachesBack(start + Produced(elements[..k]), elements[k])
  }

  /** Every element stands where the ones before it end. */
  ghost predicate AllStand(out: seq<Byte>, elements: seq<Element>, start: nat) {
    forall k | 0 <= k < |elements| :: StandsAt(out, start + Produced(elements[..k]), elements[k])
  }

  lemma EndsLater(elements: seq<Element>, k: nat)
    requires 0 < k < |elements|
    ensures Produced(elements[..k]) == LengthOf(elements[0]) + Produced(elements[1..][..k - 1])
    ensures elements[k] == elements[1..][k - 1]
  {
    assert elements[..k][1..] == elements[1..][..k - 1];
  }

  lemma ReachStep(elements: seq<Element>, start: nat)
    requires elements != []
    ensures AllReachBack(elements, start) <==>
              ReachesBack(start, elements[0]) && AllReachBack(elements[1..], start + LengthOf(elements[0]))
  {
    hide ReachesBack, LengthOf;
    var rest, next := elements[1..], start + LengthOf(elements[0]);
    forall k | 0 < k < |elements|
      ensures ReachesBack(start + Produced(elements[..k]), elements[k])
              == ReachesBack(next + Produced(rest[..k - 1]), rest[k - 1])
    {
      EndsLater(elements, k);
    }
    assert Produced(elements[..0]) == 0;
    if AllReachBack(elements, start) {
      forall k | 0 <= k < |rest| ensures ReachesBack(next + Produced(rest[..k]), rest[k]) {
        assert ReachesBack(start + Produced(elements[..k + 1]), elements[k + 1]);
      }
      assert ReachesBack(start + Produced(elements[..0]), elements[0]);
    }
  }

  lemma StandStep(out: seq<Byte>, elements: seq<Element>, start: nat)
    requires elements != [] && StandsAt(out, start, elements[0])
    requires AllStand(out, elements[1..], start + LengthOf(elements[0]))
    ensures AllStand(out, elements, start)
  {
    hide StandsAt, LengthOf;
    assert Produced(elements[..0]) == 0;
    forall k | 0 < k < |elements| ensures StandsAt(out, start + Produced(elements[..k]), elements[k]) {
      EndsLater(elements, k);
    }
  }

  /** A list of elements has a meaning if and only if no copy reaches back behind the start, and then
      every element stands in it where the ones before it end. */
  lemma {:induction false} MeaningIs(elements: seq<Element>, dst: seq<Byte>)
    ensures Meaning(elements, dst).Some? <==> AllReachBack(elements, |dst|)
    ensures Meaning(elements, dst).Some? ==>
              var out := Meaning(elements, dst).value;
              dst <= out && |out| == |dst| + Produced(elements) && AllStand(out, elements, |dst|)
  {
    hide Append, ReachesBack, StandsAt, LengthOf, AllReachBack, AllStand;
    if elements == [] {
      assert AllReachBack(elements, |dst|) && AllStand(dst, elements, |dst|) by {
        NothingStands(dst, |dst|);
      }
    } else {
      AppendStands(dst, elements[0]);
      ReachStep(elements, |dst|);
      if Append(dst, elements[0]).Some? {
        var longer := Append(dst, elements[0]).value;
        MeaningIs(elements[1..], longer);
        if Meaning(elements, dst).Some? {
          StandsInLonger(longer, Meaning(elements, dst).value, |dst|, elements[0]);
          StandStep(Meaning(elements, dst).value, elements, |dst|);
        }
      }
    }
  }

  lemma NothingStands(out: seq<Byte>, start: nat)
    ensures AllReachBack([], start) && AllStand(out, [], start)
  {
  }

  // ---------- serialised lists ----------

  ghost predicate AllLegal(elements: seq<Element>) {
    forall i | 0 <= i < |elements| :: Legal(elements[i])
  }

  ghost function SerialiseAll(elements: seq<Element>): seq<Byte>
    requires AllLegal(elements)
  {
    if elements == [] then [] else Serialise(elements[0]) + SerialiseAll(elements[1..])
  }

  // ---------- the preamble ----------

  ghost predicate IsVarint(bytes: seq<Byte>) {
    && 1 <= |bytes| <= 10
    && (forall i | 0 <= i < |bytes| - 1 :: bytes[i] >= 128)
    && bytes[|bytes| - 1] < 128
    && (|bytes| == 10 ==> bytes[9] <= 1)
  }

  /** Seven bits a byte, low bits first. */
  ghost function VarintValue(bytes: seq<Byte>): nat {
    if bytes == [] then 0
    else VarintValue(bytes[..|bytes| - 1]) + (bytes[|bytes| - 1] % 128) * Power128(|bytes| - 1)
  }

  function Power128(n: nat): nat {
    if n == 0 then 1 else 128 * Power128(n - 1)
  }

  /** Accepts a prefix that is a varint, and fails only when no prefix is one. The value never leaves
      64 bits. */
  method Uvarint(src: seq<Byte>) returns (value: nat, consumed: nat, ok: bool)
    ensures ok ==> value < 0x1_0000_0000_0000_0000
    ensures ok ==> consumed <= |src| && IsVarint(src[..consumed]) && value == VarintValue(src[..consumed])
    ensures !ok ==> forall k | 0 <= k <= |src| :: !IsVarint(src[..k])
  {
    hide VarintValue;
    value := 0;
    var weight: nat := 1;
    VarintEmpty();
    assert src[..0] == [];
    for index := 0 to |src|
      invariant weight == Power128(index)
      invariant forall i | 0 <= i < index :: src[i] >= 128
      invariant value == VarintValue(src[..index])
    {
      VarintStep(src, index);
      var currentByte := src[index];
      if currentByte < 128 {
        if index > 9 || (index == 9 && currentByte > 1) {
          forall k | 0 <= k <= |src| ensures !IsVarint(src[..k]) {
            NotVarint(src, index, k);
          }
          return 0, 0, false;
        }
        assert currentByte % 128 == currentByte;
        PreambleLimit(src[..index + 1]);
        return value + currentByte as int * weight, index + 1, true;
      }
      value := value + (currentByte as int % 128) * weight;
      weight := 128 * weight;
    }
    ok, consumed := false, 0;
  }

  lemma VarintEmpty()
    ensures VarintValue([]) == 0
  {
  }

  lemma VarintStep(src: seq<Byte>, index: nat)
    requires index < |src|
    ensures VarintValue(src[..index + 1]) == VarintValue(src[..index]) + (src[index] % 128) * Power128(index)
  {
    assert src[..index + 1][..index] == src[..index];
  }

  lemma NotVarint(src: seq<Byte>, index: nat, k: nat)
    requires index < |src| && k <= |src| && src[index] < 128
    requires forall i | 0 <= i < index :: src[i] >= 128
    requires index > 9 || (index == 9 && src[index] > 1)
    ensures !IsVarint(src[..k])
  {
    if 1 <= k <= 10 {
      assert src[..k][k - 1] == src[k - 1];
      if k == 10 {
        assert src[..k][9] == src[9];
      }
    }
  }

  /** No two prefixes of one input are varints. */
  lemma VarintUnique(src: seq<Byte>, a: nat, b: nat)
    requires a <= |src| && b <= |src| && IsVarint(src[..a]) && IsVarint(src[..b])
    ensures a == b
  {
    assert src[..a][a - 1] == src[a - 1] && src[..b][b - 1] == src[b - 1];
  }

  // ---------- decoding, as a function ----------

  /** Elements off the front until nothing is left. */
  ghost function DecodeFrom(src: seq<Byte>, dst: seq<Byte>): Option<seq<Byte>>
    decreases |src|
  {
    if src == [] then Some(dst)
    else
      var read := ReadElement(src);
      if read.None? then None
      else
        var next := Append(dst, read.value.0);
        if next.None? then None else DecodeFrom(read.value.1, next.value)
  }

  /** Completeness: a serialised list decodes to its meaning, or fails where an offset is bad. */
  lemma {:induction false} DecodeComplete(elements: seq<Element>, dst: seq<Byte>)
    requires AllLegal(elements)
    ensures DecodeFrom(SerialiseAll(elements), dst) == Meaning(elements, dst)
  {
    hide Append, Legal, Serialise, ReadElement;
    if elements != [] {
      var rest := SerialiseAll(elements[1..]);
      ElementRead(elements[0], rest);
      var next := Append(dst, elements[0]);
      if next.Some? {
        DecodeComplete(elements[1..], next.value);
      }
    }
  }

  /** Soundness: whatever decodes is a serialised list with that meaning. */
  lemma {:induction false} DecodeSound(src: seq<Byte>, dst: seq<Byte>) returns (elements: seq<Element>)
    requires DecodeFrom(src, dst).Some?
    ensures AllLegal(elements) && src == SerialiseAll(elements)
    ensures Meaning(elements, dst) == DecodeFrom(src, dst)
    decreases |src|
  {
    hide Append, Legal, Serialise, ReadElement;
    elements := [];
    if src != [] {
      var (e, rest) := ReadElement(src).value;
      ElementWritten(src);
      ShorterRest(src);
      var more := DecodeSound(rest, Append(dst, e).value);
      elements := [e] + more;
      assert elements[1..] == more;
    }
  }

  lemma ShorterRest(src: seq<Byte>)
    requires src != [] && ReadElement(src).Some?
    ensures |ReadElement(src).value.1| < |src|
  {
  }

  // ---------- the decoder ----------

  /** A block: a preamble and a list of elements that together stand for these bytes. */
  ghost predicate IsBlock(src: seq<Byte>, dst: seq<Byte>) {
    exists preamble: seq<Byte>, elements: seq<Element> :: BlockOf(src, dst, preamble, elements)
  }

  ghost predicate BlockOf(src: seq<Byte>, dst: seq<Byte>, preamble: seq<Byte>, elements: seq<Element>) {
    && IsVarint(preamble) && AllLegal(elements)
    && src == preamble + SerialiseAll(elements)
    && Meaning(elements, []) == Some(dst)
    && VarintValue(preamble) == |dst|
    && |dst| < 0x8000_0000_0000_0000
  }

  method CopyBytes(dst: seq<Byte>, offset: nat, copyLength: nat) returns (longer: seq<Byte>)
    requires 0 < offset <= |dst|
    ensures longer == CopyOut(dst, offset, copyLength)
  {
    longer := dst;
    var pos := |dst|;
    ghost var all := CopyOut(dst, offset, copyLength);
    for index := 0 to copyLength
      invariant longer == all[..pos + index]
    {
      CopyAt(dst, offset, copyLength, index);
      longer := longer + [longer[pos - offset + index]];
    }
  }

  lemma RepeatedBack(dst: seq<Byte>, offset: nat, i: nat)
    requires 0 < offset <= |dst|
    ensures i < offset ==> Repeated(dst, offset, i) == dst[|dst| - offset + i]
    ensures i >= offset ==> Repeated(dst, offset, i) == Repeated(dst, offset, i - offset)
  {
    if i >= offset {
      OneTurnBack(i, offset);
    } else {
      OffsetInBlock(offset, 0, i);
    }
  }

  lemma CopyAt(dst: seq<Byte>, offset: nat, length: nat, index: nat)
    requires 0 < offset <= |dst| && index < length
    ensures var all := CopyOut(dst, offset, length);
            all[|dst| + index] == all[|dst| - offset + index]
  {
    hide Repeated;
    RepeatedBack(dst, offset, index);
  }

  /** The length field of a literal tag, or nothing when the input is too short for it. */
  method LiteralLength(tag: Byte, src: seq<Byte>) returns (length: nat, extra: nat, ok: bool)
    requires tag % 4 == 0
    ensures extra == if tag / 4 < 60 then 0 else tag / 4 - 59
    ensures ok <==> |src| >= extra
    ensures ok ==> length == if tag / 4 < 60 then tag / 4 + 1 else FromLow(src[..extra]) + 1
  {
    extra, ok := 0, true;
    if tag / 4 == 60 {
      extra := 1;
    } else if tag / 4 == 61 {
      extra := 2;
    } else if tag / 4 == 62 {
      extra := 3;
    } else if tag / 4 == 63 {
      extra := 4;
    } else {
      return tag / 4 + 1, 0, true;
    }
    if |src| < extra {
      return 0, extra, false;
    }
    length := FromLow(src[..extra]) + 1;
  }

  /** One turn of the decoder's loop. */
  method DecodeElement(src: seq<Byte>, dst: seq<Byte>) returns (rest: seq<Byte>, longer: seq<Byte>, ok: bool)
    requires src != []
    ensures ok ==> |rest| < |src| && DecodeFrom(src, dst) == DecodeFrom(rest, longer)
    ensures !ok ==> DecodeFrom(src, dst) == None
  {
    hide CopyOut, FromLow, ReadElement;
    var tag, after := src[0], src[1..];
    assert src == [tag] + after;
    ReadTagged(tag, after);
    rest, longer := after, dst;
    if tag % 4 == 0 {
      var length, extra, fine := LiteralLength(tag, after);
      if !fine {
        return rest, longer, false;
      }
      var body := after[extra..];
      assert extra == 0 ==> body == after;
      if |body| < length {
        return rest, longer, false;
      }
      return body[length..], dst + body[..length], true;
    } else if tag % 4 == 1 {
      if |after| < 1 {
        return rest, longer, false;
      }
      var copyLength := 4 + tag / 4 % 8;
      var offset := tag / 32 * 256 + after[0] as int;
      if offset <= 0 || offset > |dst| {
        return rest, longer, false;
      }
      longer := CopyBytes(dst, offset, copyLength);
      return after[1..], longer, true;
    } else {
      var width := if tag % 4 == 2 then 2 else 4;
      if |after| < width {
        return rest, longer, false;
      }
      var copyLength := 1 + tag / 4;
      var offset := FromLow(after[..width]);
      if offset <= 0 || offset > |dst| {
        return rest, longer, false;
      }
      longer := CopyBytes(dst, offset, copyLength);
      return after[width..], longer, true;
    }
  }

  datatype Outcome = Decoded(bytes: seq<Byte>) | Corrupt | Panic

  /** More than `make` can allocate, or than its signed length can say. */
  predicate Excessive(length: nat, allocatable: nat) {
    length > allocatable || length >= 0x8000_0000_0000_0000
  }

  ghost predicate ExcessAt(src: seq<Byte>, allocatable: nat, k: nat)
    requires k <= |src|
  {
    && IsVarint(src[..k])
    && (VarintValue(src[..k]) > allocatable || VarintValue(src[..k]) >= 0x8000_0000_0000_0000)
  }

  /** The decoder returns what a block stands for, fails on everything that is not a block, and
      panics exactly when the preamble announces more than can be allocated. */
  method SnappyDecode(src: seq<Byte>, allocatable: nat) returns (result: Outcome)
    ensures forall dst :: result == Decoded(dst) <==> IsBlock(src, dst) && |dst| <= allocatable
    ensures result == Panic <==> exists k: nat | k <= |src| :: ExcessAt(src, allocatable, k)
  {
    hide IsVarint, VarintValue, DecodeFrom, SerialiseAll, IsBlock;
    var length, consumed, ok := Uvarint(src);
    if !ok {
      NoPreamble(src);
      return Corrupt;
    }
    OneExcess(src, allocatable, consumed);
    if Excessive(length, allocatable) {
      assert ExcessAt(src, allocatable, consumed);
      TooLongFor(src, consumed, allocatable);
      return Panic;
    }
    var left, bytes := src[consumed..], [];
    while |left| > 0
      invariant DecodeFrom(left, bytes) == DecodeFrom(src[consumed..], [])
      decreases |left|
    {
      var rest, longer, fine := DecodeElement(left, bytes);
      if !fine {
        BlockIff(src, consumed, length, None);
        return Corrupt;
      }
      left, bytes := rest, longer;
    }
    DecodedAll(bytes);
    BlockIff(src, consumed, length, if |bytes| != length then None else Some(bytes));
    result := if |bytes| != length then Corrupt else Decoded(bytes);
  }

  lemma OneExcess(src: seq<Byte>, allocatable: nat, consumed: nat)
    requires consumed <= |src| && IsVarint(src[..consumed])
    ensures forall k: nat | k <= |src| && ExcessAt(src, allocatable, k) :: k == consumed
  {
    hide IsVarint;
    forall k: nat | k <= |src| && ExcessAt(src, allocatable, k) ensures k == consumed {
      VarintUnique(src, k, consumed);
    }
  }

  lemma TooLongFor(src: seq<Byte>, consumed: nat, allocatable: nat)
    requires consumed <= |src| && ExcessAt(src, allocatable, consumed)
    ensures forall dst :: !(IsBlock(src, dst) && |dst| <= allocatable)
  {
    hide IsVarint, VarintValue, Meaning, SerialiseAll;
    forall dst ensures IsBlock(src, dst) ==> |dst| > allocatable {
      if IsBlock(src, dst) {
        var preamble, elements :| BlockOf(src, dst, preamble, elements);
        PreambleOf(src, dst, preamble, elements);
        VarintUnique(src, |preamble|, consumed);
      }
    }
  }

  lemma DecodedAll(dst: seq<Byte>)
    ensures DecodeFrom([], dst) == Some(dst)
  {
  }

  lemma NoPreamble(src: seq<Byte>)
    requires forall k | 0 <= k <= |src| :: !IsVarint(src[..k])
    ensures forall dst :: !IsBlock(src, dst)
  {
    hide IsVarint;
    forall dst, preamble, elements ensures !BlockOf(src, dst, preamble, elements) {
      if BlockOf(src, dst, preamble, elements) {
        PreambleOf(src, dst, preamble, elements);
      }
    }
  }

  lemma PreambleOf(src: seq<Byte>, dst: seq<Byte>, preamble: seq<Byte>, elements: seq<Element>)
    requires BlockOf(src, dst, preamble, elements)
    ensures |preamble| <= |src| && src[..|preamble|] == preamble && IsVarint(preamble)
  {
    hide IsVarint, VarintValue, Meaning, SerialiseAll;
  }

  lemma {:induction false} PowerOf128()
    ensures Power128(9) == 0x8000_0000_0000_0000
  {
    assert Power128(3) == 0x20_0000;
    assert Power128(6) == 0x20_0000 * 0x20_0000;
  }

  lemma {:induction false} VarintBelow(bytes: seq<Byte>)
    ensures VarintValue(bytes) < Power128(|bytes|)
  {
    if bytes != [] {
      VarintBelow(bytes[..|bytes| - 1]);
      DigitBelow(VarintValue(bytes[..|bytes| - 1]), bytes[|bytes| - 1] % 128, Power128(|bytes| - 1));
    }
  }

  lemma DigitBelow(before: nat, digit: nat, power: nat)
    requires before < power && digit < 128
    ensures before + digit * power < 128 * power
  {
    assert (127 - digit) * power >= 0;
  }

  /** A preamble's value fits 64 bits. */
  lemma PreambleLimit(bytes: seq<Byte>)
    requires IsVarint(bytes)
    ensures VarintValue(bytes) < 0x1_0000_0000_0000_0000
  {
    PowerOf128();
    if |bytes| == 10 {
      VarintBelow(bytes[..9]);
    } else {
      VarintBelow(bytes);
      PowerGrows(|bytes|, 9);
    }
  }

  lemma {:induction false} PowerGrows(a: nat, b: nat)
    requires a <= b
    ensures 0 < Power128(a) <= Power128(b)
  {
    if b > 0 {
      PowerGrows(if a < b then a else b - 1, b - 1);
    }
  }

  /** With the preamble found, a block is a preamble whose value is the decoded length. */
  lemma BlockIff(src: seq<Byte>, consumed: nat, length: nat, result: Option<seq<Byte>>)
    requires consumed <= |src| && IsVarint(src[..consumed]) && length == VarintValue(src[..consumed])
    requires var decoded := DecodeFrom(src[consumed..], []);
             if decoded.Some? && |decoded.value| == length < 0x8000_0000_0000_0000 then result == decoded
             else result == None
    ensures forall dst :: result == Some(dst) <==> IsBlock(src, dst)
  {
    hide IsVarint, VarintValue, DecodeFrom, SerialiseAll, Meaning;
    forall dst ensures result == Some(dst) <==> IsBlock(src, dst) {
      if result == Some(dst) {
        var elements := DecodeSound(src[consumed..], []);
        assert src == src[..consumed] + src[consumed..];
        assert BlockOf(src, dst, src[..consumed], elements);
      }
      if IsBlock(src, dst) {
        var preamble, elements :| BlockOf(src, dst, preamble, elements);
        assert src[..|preamble|] == preamble && src[|preamble|..] == SerialiseAll(elements);
        VarintUnique(src, |preamble|, consumed);
        DecodeComplete(elements, []);
      }
    }
  }
}
