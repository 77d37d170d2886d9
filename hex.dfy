/**
 * The text shown for a digest: every byte of the buffer written as two
 * lowercase, zero-padded hexadecimal digits, the pairs joined in order.
 */
module Hex {
  import opened Util

  /** One element of a `Uint8Array`. */
  newtype byte = x: int | 0 <= x < 256

  predicate IsHexDigit(c: char)
  {
    '0' <= c <= '9' || 'a' <= c <= 'f'
  }

  predicate IsHexText(s: string)
  {
    forall i :: 0 <= i < |s| ==> IsHexDigit(s[i])
  }

  /** The lowercase digit for `d`, as `Number.prototype.toString(16)` writes it. */
  function Digit(d: nat): (c: char)
    requires d < 16
    ensures IsHexDigit(c)
  {
    if d < 10 then ('0' as int + d) as char else ('a' as int + d - 10) as char
  }

  /** The value of a digit character; None for anything but `0-9` and `a-f`. */
  function DigitValue(c: char): (v: Option<nat>)
    ensures v.Some? <==> IsHexDigit(c)
    ensures v.Some? ==> v.value < 16 && Digit(v.value) == c
  {
    if '0' <= c <= '9' then Some(c as int - '0' as int)
    else if 'a' <= c <= 'f' then Some(c as int - 'a' as int + 10)
    else None
  }

  lemma DigitValueOfDigit(d: nat)
    requires d < 16
    ensures DigitValue(Digit(d)) == Some(d)
  {
  }

  /** The number a string of lowercase digits denotes, most significant digit first. */
  function DigitsValue(s: string): nat
    requires IsHexText(s)
  {
    if s == [] then 0 else 16 * DigitsValue(s[..|s| - 1]) + DigitValue(s[|s| - 1]).value
  }

  /**
   * `n.toString(16)` for a non-negative integer: base-16 digits that denote
   * `n`, with no leading zero except for `n == 0` itself.
   */
  function ToRadix16(n: nat): (r: string)
    ensures 0 < |r| && IsHexText(r)
    ensures DigitsValue(r) == n
    ensures n == 0 <==> r == "0"
    ensures n != 0 ==> r[0] != '0'
    decreases n
  {
    if n < 16 then
      [Digit(n)]
    else
      var high := ToRadix16(n / 16);
      var r := high + [Digit(n % 16)];
      assert r[..|r| - 1] == high;
      r
  }

  /** `s.padStart(target, pad)` with a one-character pad: copies of `pad` in front until `s` is `target` long. */
  function PadStart(s: string, target: nat, pad: char): (r: string)
    ensures |r| == if |s| < target then target else |s|
    ensures r[|r| - |s|..] == s
    ensures forall i :: 0 <= i < |r| - |s| ==> r[i] == pad
  {
    if |s| < target then seq(target - |s|, _ => pad) + s else s
  }

  /** The high and the low base-16 digit of a byte. */
  function HexPair(b: byte): string
  {
    [Digit(b as int / 16), Digit(b as int % 16)]
  }

  /** `b.toString(16).padStart(2, "0")`: exactly the high and the low digit of `b`. */
  function ByteHex(b: byte): (r: string)
    ensures r == HexPair(b)
  {
    var digits := ToRadix16(b as nat);
    assert b < 16 ==> digits == [Digit(b as nat)];
    assert b >= 16 ==> ToRadix16(b as nat / 16) == [Digit(b as nat / 16)];
    PadStart(digits, 2, '0')
  }

  /**
   * The hex text of a buffer: each byte's two digits, joined in order. Each
   * pair is `HexPair(b)`, which `ByteHex` shows is the source's
   * `b.toString(16).padStart(2, "0")`.
   */
  function Encode(bytes: seq<byte>): (r: string)
    ensures |r| == 2 * |bytes|
  {
    if bytes == [] then "" else HexPair(bytes[0]) + Encode(bytes[1..])
  }

  /** The hex text uses only the characters `0-9a-f`. */
  lemma {:induction false} EncodeIsHexText(bytes: seq<byte>)
    ensures IsHexText(Encode(bytes))
  {
    if bytes != [] {
      EncodeIsHexText(bytes[1..]);
      var r := Encode(bytes);
      assert r == HexPair(bytes[0]) + Encode(bytes[1..]);
      forall k | 0 <= k < |r|
        ensures IsHexDigit(r[k])
      {
        if k >= 2 {
          assert r[k] == Encode(bytes[1..])[k - 2];
        }
      }
    }
  }

  /**
   * Reads hex text back into bytes, two digits per byte; None when the text
   * has odd length or a character outside `0-9a-f`.
   */
  function Decode(s: string): (r: Option<seq<byte>>)
    decreases |s|
  {
    if s == [] then Some([])
    else if |s| == 1 then None
    else
      match (DigitValue(s[0]), DigitValue(s[1]), Decode(s[2..]))
      case (Some(high), Some(low), Some(rest)) => Some([(16 * high + low) as byte] + rest)
      case _ => None
  }

  /** Decoding the encoder's output recovers the buffer. */
  lemma {:induction false} DecodeEncode(bytes: seq<byte>)
    ensures Decode(Encode(bytes)) == Some(bytes)
  {
    if bytes != [] {
      var b, rest := bytes[0], bytes[1..];
      var high, low := b as int / 16, b as int % 16;
      EncodeCons(b, rest);
      DecodeEncode(rest);
      DecodeCons(high, low, Encode(rest));
      assert (16 * high + low) as byte == b;
      assert [b] + rest == bytes;
    }
  }

  /** Decoding two digits in front of a text that decodes. */
  lemma DecodeCons(high: nat, low: nat, t: string)
    requires high < 16 && low < 16 && Decode(t).Some?
    ensures Decode([Digit(high), Digit(low)] + t) == Some([(16 * high + low) as byte] + Decode(t).value)
  {
    var s := [Digit(high), Digit(low)] + t;
    assert s[2..] == t;
    DigitValueOfDigit(high);
    DigitValueOfDigit(low);
  }

  /** Whatever text decodes is exactly the encoding of what it decodes to. */
  lemma {:induction false} EncodeDecode(s: string)
    requires Decode(s).Some?
    ensures Encode(Decode(s).value) == s
    decreases |s|
  {
    if s != [] {
      var high, low, rest := DecodeStep(s);
      var b := (16 * high + low) as byte;
      SplitNibbles(high, low);
      EncodeDecode(s[2..]);
      EncodeCons(b, rest);
      assert s == [s[0], s[1]] + s[2..];
    }
  }

  /** Every even-length text over `0-9a-f` decodes, so with `EncodeDecode` it is the encoding of some buffer. */
  lemma {:induction false} EvenHexDecodes(s: string)
    requires IsHexText(s) && |s| % 2 == 0
    ensures Decode(s).Some?
    decreases |s|
  {
    if s != [] {
      assert IsHexText(s[2..]);
      EvenHexDecodes(s[2..]);
    }
  }

  /** Unfolds one step of a successful decoding. */
  lemma DecodeStep(s: string) returns (high: nat, low: nat, rest: seq<byte>)
    requires s != [] && Decode(s).Some?
    ensures |s| >= 2 && high < 16 && low < 16
    ensures Digit(high) == s[0] && Digit(low) == s[1]
    ensures Decode(s[2..]) == Some(rest)
    ensures Decode(s).value == [(16 * high + low) as byte] + rest
  {
    high, low, rest := DigitValue(s[0]).value, DigitValue(s[1]).value, Decode(s[2..]).value;
  }

  lemma EncodeCons(b: byte, rest: seq<byte>)
    ensures Encode([b] + rest) == HexPair(b) + Encode(rest)
  {
    assert ([b] + rest)[1..] == rest;
  }

  lemma SplitNibbles(high: nat, low: nat)
    requires high < 16 && low < 16
    ensures (16 * high + low) / 16 == high && (16 * high + low) % 16 == low
  {
  }

  /** The encoding of a concatenation is the concatenation of the encodings. */
  lemma {:induction false} EncodeAppend(a: seq<byte>, b: seq<byte>)
    ensures Encode(a + b) == Encode(a) + Encode(b)
  {
    if a == [] {
      assert a + b == b;
    } else {
      assert (a + b)[1..] == a[1..] + b;
      EncodeAppend(a[1..], b);
    }
  }

  /** Characters `2i` and `2i+1` of the encoding are the two digits of byte `i`. */
  lemma {:induction false} EncodePair(bytes: seq<byte>, i: nat)
    requires i < |bytes|
    ensures Encode(bytes)[2 * i..2 * i + 2] == HexPair(bytes[i])
  {
    var head, tail := HexPair(bytes[0]), Encode(bytes[1..]);
    assert Encode(bytes) == head + tail;
    if i == 0 {
      SliceOfMiddle([], head, tail);
    } else {
      EncodePair(bytes[1..], i - 1);
      SliceAfter(head, tail, 2 * (i - 1), 2 * i);
    }
  }
}
