/** UTF-8 as Go converts between strings and runes: well-formed sequences decode to their scalar
    value, any other byte decodes to U+FFFD and is one byte wide. */
module Utf8 {
  import opened Bytes

  type Rune = r: nat | r < 0x110000 && !(0xD800 <= r < 0xE000)

  const REPLACEMENT: Rune := 0xFFFD

  function EncodeRune(r: Rune): (bytes: seq<Byte>)
    ensures 1 <= |bytes| <= 4
  {
    if r < 0x80 then [r]
    else if r < 0x800 then [0xC0 + r / 64, 0x80 + r % 64]
    else if r < 0x10000 then [0xE0 + r / 4096, 0x80 + r / 64 % 64, 0x80 + r % 64]
    else [0xF0 + r / 262144, 0x80 + r / 4096 % 64, 0x80 + r / 64 % 64, 0x80 + r % 64]
  }

  predicate Continues(b: Byte) {
    0x80 <= b < 0xC0
  }

  /** The payload of a byte above a tag. */
  function Payload(b: Byte, tag: nat): nat
    requires tag <= b
  {
    (b as int - tag) as nat
  }

  datatype Front = IllFormed | Scalar(rune: Rune, width: nat)

  /** The scalar value at the front of `text`, if a well-formed sequence starts there. */
  function DecodeFront(text: seq<Byte>): (front: Front)
    requires text != []
    ensures front.Scalar? ==> 0 < front.width <= |text|
  {
    var b := text[0];
    if b < 0x80 then Scalar(b, 1)
    else if 0xC2 <= b < 0xE0 && |text| >= 2 && Continues(text[1]) then
      Scalar(Payload(b, 0xC0) * 64 + Payload(text[1], 0x80), 2)
    else if 0xE0 <= b < 0xF0 && |text| >= 3 && Continues(text[1]) && Continues(text[2]) then
      var r := Payload(b, 0xE0) * 4096 + Payload(text[1], 0x80) * 64 + Payload(text[2], 0x80);
      if r < 0x800 || 0xD800 <= r < 0xE000 then IllFormed else Scalar(r, 3)
    else if 0xF0 <= b < 0xF5 && |text| >= 4 && Continues(text[1]) && Continues(text[2]) && Continues(text[3]) then
      var r := Payload(b, 0xF0) * 262144 + Payload(text[1], 0x80) * 4096
              + Payload(text[2], 0x80) * 64 + Payload(text[3], 0x80);
      if r < 0x10000 || r >= 0x110000 then IllFormed else Scalar(r, 4)
    else IllFormed
  }

  /** The conversion of a string to runes. */
  function DecodeRunes(text: seq<Byte>): seq<Rune> {
    if text == [] then []
    else match DecodeFront(text)
      case IllFormed => [REPLACEMENT] + DecodeRunes(text[1..])
      case Scalar(r, width) => [r] + DecodeRunes(text[width..])
  }

  /** The conversion of runes to a string. */
  function EncodeRunes(runes: seq<Rune>): seq<Byte> {
    if runes == [] then [] else EncodeRune(runes[0]) + EncodeRunes(runes[1..])
  }

  predicate ValidText(text: seq<Byte>) {
    text == [] ||
    match DecodeFront(text)
      case IllFormed => false
      case Scalar(r, width) => ValidText(text[width..])
  }

  lemma Digits(r: nat)
    ensures r == r / 64 * 64 + r % 64
    ensures r == r / 4096 * 4096 + r / 64 % 64 * 64 + r % 64
    ensures r == r / 262144 * 262144 + r / 4096 % 64 * 4096 + r / 64 % 64 * 64 + r % 64
  {
    assert r / 64 / 64 == r / 4096 && r / 4096 / 64 == r / 262144;
  }

  lemma LastDigit(q: nat, d: nat)
    requires d < 64
    ensures (q * 64 + d) / 64 == q && (q * 64 + d) % 64 == d
  {
  }

  lemma DivideTwice(r: nat)
    ensures r / 64 / 64 == r / 4096 && r / 64 / 4096 == r / 262144
  {
  }

  lemma DigitsUnique(a: nat, b: nat, c: nat, d: nat)
    requires b < 64 && c < 64 && d < 64
    ensures var r := a * 262144 + b * 4096 + c * 64 + d;
            r % 64 == d && r / 64 % 64 == c && r / 4096 % 64 == b && r / 262144 == a
  {
    var r := a * 262144 + b * 4096 + c * 64 + d;
    LastDigit(a * 4096 + b * 64 + c, d);
    LastDigit(a * 64 + b, c);
    LastDigit(a, b);
    DivideTwice(r);
    DivideTwice(r / 64);
  }

  lemma DecodeEncoded(r: Rune, rest: seq<Byte>)
    ensures DecodeFront(EncodeRune(r) + rest) == Scalar(r, |EncodeRune(r)|)
  {
    Digits(r);
    var bytes := EncodeRune(r);
    var text := bytes + rest;
    assert forall i | 0 <= i < |bytes| :: text[i] == bytes[i];
  }

  lemma EncodeDecoded(text: seq<Byte>)
    requires text != [] && DecodeFront(text).Scalar?
    ensures EncodeRune(DecodeFront(text).rune) == text[..DecodeFront(text).width]
  {
    var b := text[0];
    if b < 0x80 {
    } else if b < 0xE0 {
      DigitsUnique(0, 0, Payload(b, 0xC0), Payload(text[1], 0x80));
    } else if b < 0xF0 {
      DigitsUnique(0, Payload(b, 0xE0), Payload(text[1], 0x80), Payload(text[2], 0x80));
    } else {
      DigitsUnique(Payload(b, 0xF0), Payload(text[1], 0x80), Payload(text[2], 0x80), Payload(text[3], 0x80));
    }
  }

  /** What a rune's bytes say: lead byte, continuation bytes, and the value they add up to. */
  lemma RuneBytes(r: Rune)
    ensures var bytes: seq<int> := EncodeRune(r);
            && (forall i | 1 <= i < |bytes| :: 0x80 <= bytes[i] <= 0xBF)
            && (r <= 0x7F ==> bytes == [r])
            && (0x80 <= r <= 0x7FF ==>
                  |bytes| == 2 && 0xC2 <= bytes[0] <= 0xDF && r == (bytes[0] - 0xC0) * 64 + (bytes[1] - 0x80))
            && (0x800 <= r <= 0xFFFF ==>
                  && |bytes| == 3 && 0xE0 <= bytes[0] <= 0xEF
                  && r == (bytes[0] - 0xE0) * 4096 + (bytes[1] - 0x80) * 64 + (bytes[2] - 0x80))
            && (0x10000 <= r ==>
                  && |bytes| == 4 && 0xF0 <= bytes[0] <= 0xF4
                  && r == (bytes[0] - 0xF0) * 262144 + (bytes[1] - 0x80) * 4096 + (bytes[2] - 0x80) * 64 + (bytes[3] - 0x80))
  {
    Digits(r);
  }

  /** A front is well-formed exactly where some rune's bytes stand. */
  lemma FrontIff(text: seq<Byte>)
    requires text != []
    ensures DecodeFront(text).Scalar? <==> exists r: Rune :: EncodeRune(r) <= text
  {
    hide DecodeFront, EncodeRune;
    if DecodeFront(text).Scalar? {
      EncodeDecoded(text);
      assert EncodeRune(DecodeFront(text).rune) <= text;
    }
    if r: Rune :| EncodeRune(r) <= text {
      DecodeEncoded(r, text[|EncodeRune(r)|..]);
      assert text == EncodeRune(r) + text[|EncodeRune(r)|..];
    }
  }

  /** Decoding from the front: a rune whose bytes stand there, else U+FFFD for one byte. */
  lemma DecodeFirst(text: seq<Byte>, r: Rune)
    requires text != []
    ensures EncodeRune(r) <= text ==> DecodeRunes(text) == [r] + DecodeRunes(text[|EncodeRune(r)|..])
    ensures (forall other: Rune :: !(EncodeRune(other) <= text)) ==> DecodeRunes(text) == [0xFFFD] + DecodeRunes(text[1..])
  {
    hide DecodeFront, EncodeRune;
    FrontIff(text);
    if EncodeRune(r) <= text {
      DecodeEncoded(r, text[|EncodeRune(r)|..]);
      assert text == EncodeRune(r) + text[|EncodeRune(r)|..];
    }
  }

  /** Well-formed text is what runes encode to. */
  lemma ValidIff(text: seq<Byte>)
    ensures ValidText(text) <==> exists runes :: EncodeRunes(runes) == text
  {
    if ValidText(text) {
      ValidRoundTrip(text);
    }
    if runes :| EncodeRunes(runes) == text {
      Utf8Valid(runes);
    }
  }

  lemma {:induction false} Utf8Valid(runes: seq<Rune>)
    ensures ValidText(EncodeRunes(runes))
  {
    if runes != [] {
      DecodeEncoded(runes[0], EncodeRunes(runes[1..]));
      assert EncodeRunes(runes)[|EncodeRune(runes[0])|..] == EncodeRunes(runes[1..]);
      Utf8Valid(runes[1..]);
    }
  }

  lemma {:induction false} ValidRoundTrip(text: seq<Byte>)
    requires ValidText(text)
    ensures EncodeRunes(DecodeRunes(text)) == text
  {
    hide DecodeFront, EncodeRune;
    if text != [] {
      EncodeDecoded(text);
      var front := DecodeFront(text);
      ValidRoundTrip(text[front.width..]);
      assert DecodeRunes(text)[1..] == DecodeRunes(text[front.width..]);
    }
  }

  lemma {:induction false} Utf8Concat(a: seq<Rune>, b: seq<Rune>)
    ensures EncodeRunes(a + b) == EncodeRunes(a) + EncodeRunes(b)
  {
    if a == [] {
      assert a + b == b;
    } else {
      assert (a + b)[1..] == a[1..] + b;
      Utf8Concat(a[1..], b);
    }
  }
}
