// The code point iterator of
// src/lib/moderation/filter/preprocessor/CharacterIterator.ts. A JavaScript
// string is a sequence of UTF-16 code units; a high surrogate followed by a
// low surrogate is decoded as one code point (section 2.2 of RFC 2781), and
// every other unit, an unpaired surrogate included, is yielded as it is.
module CharacterIterator {
  import opened Monads

  /** A UTF-16 code unit, what `charCodeAt` returns for an index in range. */
  type CodeUnit = x: int | 0 <= x < 0x1_0000

  /** `isHighSurrogate` of `@skyra/char`. */
  predicate IsHighSurrogate(c: int)
  {
    0xD800 <= c <= 0xDBFF
  }

  /** `isLowSurrogate` of `@skyra/char`. */
  predicate IsLowSurrogate(c: int)
  {
    0xDC00 <= c <= 0xDFFF
  }

  /** `text.charCodeAt(i)`; `None` stands for the `NaN` returned out of range. */
  function CharCodeAt(text: seq<CodeUnit>, i: int): (r: Maybe<CodeUnit>)
    ensures r.Some? <==> 0 <= i < |text|
  {
    if 0 <= i < |text| then Some(text[i]) else None
  }

  /**
   * The body of `next()` at position `p`: the value yielded and how far the
   * position advances. The guard `p !== text.length + 1` always holds there.
   */
  function DecodeAt(text: seq<CodeUnit>, p: nat): (r: (int, nat))
    requires p < |text|
    ensures r.1 == 2 <==> IsHighSurrogate(text[p]) && p + 1 < |text| && IsLowSurrogate(text[p + 1])
    ensures r.1 == 1 || r.1 == 2
    ensures r.1 == 1 ==> r.0 == text[p]
    ensures r.1 == 2 ==> 0x1_0000 <= r.0 <= 0x10_FFFF
  {
    var unit := text[p];
    if p != |text| + 1 && IsHighSurrogate(unit) then
      var next := CharCodeAt(text, p + 1);
      if next.Some? && IsLowSurrogate(next.value) then
        ((unit - 0xD800) * 0x400 + next.value - 0xDC00 + 0x1_0000, 2)
      else
        (unit, 1)
    else
      (unit, 1)
  }

  /**
   * The values `next()` yields from position `p` until it is done: every
   * position step takes one or two code units, so there are at least half as
   * many values as units left, and at most as many.
   */
  function CodePoints(text: seq<CodeUnit>, p: nat): (r: seq<int>)
    ensures p >= |text| ==> r == []
    ensures p < |text| ==> |text| - p <= 2 * |r| && |r| <= |text| - p
    decreases |text| - p
  {
    if p >= |text| then []
    else
      var (c, n) := DecodeAt(text, p);
      [c] + CodePoints(text, p + n)
  }

  /** A Unicode scalar value: a code point that is not a surrogate. */
  predicate IsScalarValue(c: int)
  {
    0 <= c <= 0x10_FFFF && !(0xD800 <= c <= 0xDFFF)
  }

  /** The UTF-16 encoding of one scalar value, section 2.1 of RFC 2781. */
  function EncodeScalar(c: int): (r: seq<CodeUnit>)
    requires IsScalarValue(c)
    ensures |r| == if c < 0x1_0000 then 1 else 2
  {
    if c < 0x1_0000 then [c]
    else
      var u := c - 0x1_0000;
      [0xD800 + u / 0x400, 0xDC00 + u % 0x400]
  }

  /** The UTF-16 encoding of a sequence of scalar values. */
  function Encode(cs: seq<int>): (r: seq<CodeUnit>)
    requires forall i :: 0 <= i < |cs| ==> IsScalarValue(cs[i])
  {
    if cs == [] then [] else EncodeScalar(cs[0]) + Encode(cs[1..])
  }

  /** Decoding at the start of an encoded scalar value gives it back with its width. */
  lemma DecodeScalar(prefix: seq<CodeUnit>, c: int, rest: seq<CodeUnit>)
    requires IsScalarValue(c)
    ensures var t := prefix + EncodeScalar(c) + rest;
      DecodeAt(t, |prefix|) == (c, |EncodeScalar(c)|)
  {
    var t := prefix + EncodeScalar(c) + rest;
    if c >= 0x1_0000 {
      var u := c - 0x1_0000;
      assert t[|prefix|] == 0xD800 + u / 0x400 && t[|prefix| + 1] == 0xDC00 + u % 0x400;
    } else {
      assert t[|prefix|] == c;
    }
  }

  /** Decoding the UTF-16 encoding of scalar values, from wherever it starts, gives them back. */
  lemma {:induction false} DecodeEncode(prefix: seq<CodeUnit>, cs: seq<int>)
    requires forall i :: 0 <= i < |cs| ==> IsScalarValue(cs[i])
    ensures CodePoints(prefix + Encode(cs), |prefix|) == cs
    decreases |cs|
  {
    if cs != [] {
      var e := EncodeScalar(cs[0]);
      var t := prefix + Encode(cs);
      assert t == prefix + e + Encode(cs[1..]);
      DecodeScalar(prefix, cs[0], Encode(cs[1..]));
      assert t == (prefix + e) + Encode(cs[1..]);
      DecodeEncode(prefix + e, cs[1..]);
    }
  }

  class CharacterIterator {
    var text: seq<CodeUnit>
    /** `_position`, read through the `position` getter. */
    var position: nat

    /** The values still to come. */
    ghost function Remaining(): seq<int>
      reads this
    {
      CodePoints(text, position)
    }

    constructor ()
      ensures text == [] && position == 0
    {
      text := [];
      position := 0;
    }

    /** `setText`: new text, read from its start. */
    method SetText(text: seq<CodeUnit>)
      modifies this
      ensures this.text == text && position == 0
      ensures Remaining() == CodePoints(text, 0)
    {
      Reset();
      this.text := text;
    }

    /** `setPosition`: decoding resumes at `position`, on a unit boundary or not. */
    method SetPosition(position: nat)
      modifies this
      ensures this.position == position && text == old(text)
    {
      this.position := position;
    }

    /** `done`: no value is left. */
    function Done(): (r: bool)
      reads this
      ensures r <==> Remaining() == []
    {
      position >= |text|
    }

    /**
     * `next`: the first remaining value, and the position past its code
     * units; `None` (`done: true`) with the position kept when done.
     */
    method Next() returns (r: Maybe<int>)
      modifies this
      ensures text == old(text)
      ensures r.None? <==> old(Remaining()) == []
      ensures r.None? ==> position == old(position)
      ensures r.Some? ==> old(Remaining()) == [r.value] + Remaining()
      ensures r.Some? ==> old(position) < position <= old(position) + 2
    {
      if Done() {
        return None;
      }
      var unit := text[position];
      if position != |text| + 1 && IsHighSurrogate(unit) {
        var next := CharCodeAt(text, position + 1);
        if next.Some? && IsLowSurrogate(next.value) {
          var codePoint := (unit - 0xD800) * 0x400 + next.value - 0xDC00 + 0x1_0000;
          Advance(2);
          return Some(codePoint);
        }
      }
      Advance(1);
      return Some(unit);
    }

    /** `reset`: back to the start of the text. */
    method Reset()
      modifies this
      ensures position == 0 && text == old(text)
    {
      position := 0;
    }

    method Advance(n: nat)
      modifies this
      ensures position == old(position) + n && text == old(text)
    {
      position := position + n;
    }
  }
}
