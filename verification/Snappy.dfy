/** The raw Snappy block format (Google snappy format_description.txt, sections 1, 2.1 and 2.2):
    its elements, every way to serialise them, and what they mean. */
module Snappy {
  import opened Bytes
  import opened Sequences
  import opened Wrappers

  /** An element in one of its serialised forms. `extra` is the number of length bytes of a
      literal, `width` the number of offset bytes of a long copy. */
  datatype Element =
    | ShortLiteral(bytes: seq<Byte>)
    | LongLiteral(extra: nat, bytes: seq<Byte>)
    | NearCopy(offset: nat, length: nat)
    | FarCopy(width: nat, offset: nat, length: nat)

  function Power256(n: nat): (power: nat)
    ensures power > 0
  {
    if n == 0 then 1 else 256 * Power256(n - 1)
  }

  /** The `n` low bytes of a number, low byte first. */
  function Low(value: nat, n: nat): (bytes: seq<Byte>)
    ensures |bytes| == n
  {
    if n == 0 then [] else [value % 256] + Low(value / 256, n - 1)
  }

  function FromLow(bytes: seq<Byte>): nat {
    if bytes == [] then 0 else bytes[0] as int + 256 * FromLow(bytes[1..])
  }

  lemma {:induction false} LowRoundTrip(value: nat, n: nat)
    requires value < Power256(n)
    ensures FromLow(Low(value, n)) == value
  {
    if n > 0 {
      LowRoundTrip(value / 256, n - 1);
      assert Low(value, n)[1..] == Low(value / 256, n - 1);
    }
  }

  lemma {:induction false} FromLowRoundTrip(bytes: seq<Byte>)
    ensures FromLow(bytes) < Power256(|bytes|) && Low(FromLow(bytes), |bytes|) == bytes
  {
    if bytes != [] {
      FromLowRoundTrip(bytes[1..]);
      var value, b := FromLow(bytes[1..]), bytes[0] as int;
      assert (b + 256 * value) % 256 == b && (b + 256 * value) / 256 == value;
      assert bytes == [bytes[0]] + bytes[1..];
    }
  }

  // ---------- serialised elements ----------

  ghost predicate Legal(e: Element) {
    match e
    case ShortLiteral(bytes) => 1 <= |bytes| <= 60
    case LongLiteral(extra, bytes) => 1 <= extra <= 4 && 1 <= |bytes| <= Power256(extra)
    case NearCopy(offset, length) => offset < 2048 && 4 <= length <= 11
    case FarCopy(width, offset, length) => (width == 2 || width == 4) && offset < Power256(width) && 1 <= length <= 64
  }

  ghost function Serialise(e: Element): seq<Byte>
    requires Legal(e)
  {
    match e
    case ShortLiteral(bytes) => [4 * (|bytes| - 1)] + bytes
    case LongLiteral(extra, bytes) => [4 * (59 + extra)] + (Low(|bytes| - 1, extra) + bytes)
    case NearCopy(offset, length) => [1 + 4 * (length - 4) + 32 * (offset / 256), offset % 256]
    case FarCopy(width, offset, length) =>
      [(if width == 2 then 2 else 3) + 4 * (length - 1)] + Low(offset, width)
  }

  type Read = Option<(Element, seq<Byte>)>

  ghost function ReadShort(tag: Byte, rest: seq<Byte>): Read {
    var length := tag / 4 + 1;
    if |rest| < length then None else Some((ShortLiteral(rest[..length]), rest[length..]))
  }

  ghost function ReadLong(tag: Byte, rest: seq<Byte>): Read
    requires tag / 4 >= 60
  {
    var extra := tag / 4 - 59;
    if |rest| < extra then None
    else
      var length := FromLow(rest[..extra]) + 1;
      if |rest| - extra < length then None
      else Some((LongLiteral(extra, rest[extra..][..length]), rest[extra..][length..]))
  }

  ghost function ReadNear(tag: Byte, rest: seq<Byte>): Read {
    if rest == [] then None
    else Some((NearCopy(tag / 32 * 256 + rest[0] as int, 4 + tag / 4 % 8), rest[1..]))
  }

  ghost function ReadFar(tag: Byte, rest: seq<Byte>, width: nat): Read {
    if |rest| < width then None
    else Some((FarCopy(width, FromLow(rest[..width]), 1 + tag / 4), rest[width..]))
  }

  /** Reads one element off the front. */
  ghost function ReadElement(src: seq<Byte>): (read: Read)
    requires src != []
    ensures read.Some? ==> |read.value.1| < |src|
  {
    var tag, rest := src[0], src[1..];
    if tag % 4 == 0 then if tag / 4 < 60 then ReadShort(tag, rest) else ReadLong(tag, rest)
    else if tag % 4 == 1 then ReadNear(tag, rest)
    else ReadFar(tag, rest, if tag % 4 == 2 then 2 else 4)
  }

  lemma ReadTagged(tag: Byte, rest: seq<Byte>)
    ensures ReadElement([tag] + rest)
            == if tag % 4 == 0 then if tag / 4 < 60 then ReadShort(tag, rest) else ReadLong(tag, rest)
               else if tag % 4 == 1 then ReadNear(tag, rest)
               else ReadFar(tag, rest, if tag % 4 == 2 then 2 else 4)
  {
    hide ReadShort, ReadLong, ReadNear, ReadFar;
    assert ([tag] + rest)[1..] == rest;
  }

  lemma ElementRead(e: Element, rest: seq<Byte>)
    requires Legal(e)
    ensures Serialise(e) != []
    ensures ReadElement(Serialise(e) + rest) == Some((e, rest))
  {
    hide Low, FromLow, Power256, ReadElement;
    match e
    case ShortLiteral(bytes) =>
      var tag: Byte := 4 * (|bytes| - 1);
      Grouped([tag], bytes, rest);
      ReadTagged(tag, bytes + rest);
      TakeAndDrop(bytes, rest);
    case LongLiteral(extra, bytes) =>
      var tag: Byte := 4 * (59 + extra);
      var low := Low(|bytes| - 1, extra);
      Grouped([tag], low + bytes, rest);
      Grouped(low, bytes, rest);
      ReadTagged(tag, low + (bytes + rest));
      TakeAndDrop(low, bytes + rest);
      TakeAndDrop(bytes, rest);
      LowRoundTrip(|bytes| - 1, extra);
    case NearCopy(offset, length) =>
      var tag: Byte := 1 + 4 * (length - 4) + 32 * (offset / 256);
      assert [tag] + [offset % 256] == [tag, offset % 256];
      Grouped([tag], [offset % 256], rest);
      ReadTagged(tag, [offset % 256] + rest);
      NearFields(tag, offset, length);
      NearRead(tag, offset % 256, rest);
    case FarCopy(width, offset, length) =>
      var tag: Byte := (if width == 2 then 2 else 3) + 4 * (length - 1);
      Grouped([tag], Low(offset, width), rest);
      ReadTagged(tag, Low(offset, width) + rest);
      TakeAndDrop(Low(offset, width), rest);
      LowRoundTrip(offset, width);
  }

  lemma NearRead(tag: Byte, low: Byte, rest: seq<Byte>)
    ensures ReadNear(tag, [low] + rest) == Some((NearCopy(tag / 32 * 256 + low as int, 4 + tag / 4 % 8), rest))
  {
    TakeAndDrop([low], rest);
  }

  lemma NearFields(tag: Byte, offset: nat, length: nat)
    requires offset < 2048 && 4 <= length <= 11 && tag == 1 + 4 * (length - 4) + 32 * (offset / 256)
    ensures tag % 4 == 1 && tag / 4 % 8 == length - 4 && tag / 32 == offset / 256
    ensures offset == tag / 32 * 256 + offset % 256
  {
    assert tag / 4 == (length - 4) + 8 * (offset / 256);
  }

  lemma NearTag(tag: Byte, low: Byte)
    requires tag % 4 == 1
    ensures var offset := tag / 32 * 256 + low as int;
            offset < 2048 && offset / 256 == tag / 32 && offset % 256 == low
            && tag == 1 + 4 * (tag / 4 % 8) + 32 * (tag / 32)
  {
    assert tag / 4 / 8 == tag / 32;
  }

  lemma ShortWritten(tag: Byte, after: seq<Byte>)
    requires tag % 4 == 0 && tag / 4 < 60 && ReadShort(tag, after).Some?
    ensures var (e, rest) := ReadShort(tag, after).value;
            Legal(e) && [tag] + after == Serialise(e) + rest
  {
    var (e, rest) := ReadShort(tag, after).value;
    TakePlusDrop(after, tag / 4 + 1);
    Grouped([tag], e.bytes, rest);
  }

  lemma LongWritten(tag: Byte, after: seq<Byte>)
    requires tag % 4 == 0 && tag / 4 >= 60 && ReadLong(tag, after).Some?
    ensures var (e, rest) := ReadLong(tag, after).value;
            Legal(e) && [tag] + after == Serialise(e) + rest
  {
    hide Low, FromLow, Power256;
    var (e, rest) := ReadLong(tag, after).value;
    FromLowRoundTrip(after[..e.extra]);
    TakePlusDrop(after, e.extra);
    TakePlusDrop(after[e.extra..], |e.bytes|);
    Grouped(after[..e.extra], e.bytes, rest);
    Grouped([tag], after[..e.extra] + e.bytes, rest);
  }

  lemma NearWritten(tag: Byte, after: seq<Byte>)
    requires tag % 4 == 1 && ReadNear(tag, after).Some?
    ensures var (e, rest) := ReadNear(tag, after).value;
            Legal(e) && [tag] + after == Serialise(e) + rest
  {
    var (e, rest) := ReadNear(tag, after).value;
    NearTag(tag, after[0]);
    assert Serialise(e) == [tag, after[0]];
    assert [tag] + after == [tag, after[0]] + after[1..];
  }

  lemma FarWritten(tag: Byte, after: seq<Byte>, width: nat)
    requires tag % 4 == (if width == 2 then 2 else 3) && (width == 2 || width == 4)
    requires ReadFar(tag, after, width).Some?
    ensures var (e, rest) := ReadFar(tag, after, width).value;
            Legal(e) && [tag] + after == Serialise(e) + rest
  {
    hide Low, FromLow, Power256;
    var (e, rest) := ReadFar(tag, after, width).value;
    FromLowRoundTrip(after[..width]);
    TakePlusDrop(after, width);
    Grouped([tag], after[..width], rest);
  }

  lemma ElementWritten(src: seq<Byte>)
    requires src != [] && ReadElement(src).Some?
    ensures var (e, rest) := ReadElement(src).value;
            Legal(e) && src == Serialise(e) + rest
  {
    hide ReadShort, ReadLong, ReadNear, ReadFar, Legal, Serialise;
    var tag, after := src[0], src[1..];
    assert src == [tag] + after;
    if tag % 4 == 0 {
      if tag / 4 < 60 {
        ShortWritten(tag, after);
      } else {
        LongWritten(tag, after);
      }
    } else if tag % 4 == 1 {
      NearWritten(tag, after);
    } else {
      FarWritten(tag, after, if tag % 4 == 2 then 2 else 4);
    }
  }
}
