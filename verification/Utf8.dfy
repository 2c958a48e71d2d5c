/**
 UTF-8 as section 4 of RFC 3629 defines it, and the strict incremental decoder of `codecs`: it keeps
 the bytes of an unfinished code point and rejects a byte as soon as no code point can continue with it.
 */
module Utf8 {
  import opened Prelude

  /** A Unicode scalar value: any code point outside the surrogates. */
  type Scalar = c: nat | c < 0xD800 || 0xE000 <= c < 0x110000

  function EncodeScalar(c: Scalar): (r: seq<byte>)
    ensures 1 <= |r| <= 4
  {
    if c < 0x80 then [c as byte]
    else if c < 0x800 then [(0xC0 + c / 64) as byte, (0x80 + c % 64) as byte]
    else if c < 0x10000 then [(0xE0 + c / 4096) as byte, (0x80 + c / 64 % 64) as byte, (0x80 + c % 64) as byte]
    else [(0xF0 + c / 262144) as byte, (0x80 + c / 4096 % 64) as byte, (0x80 + c / 64 % 64) as byte, (0x80 + c % 64) as byte]
  }

  function Encode(text: seq<Scalar>): seq<byte> {
    if text == [] then [] else EncodeScalar(text[0]) + Encode(text[1..])
  }

  // ---- the grammar, byte by byte ----------------------------------------------------------------------

  /** The length of the code point a byte starts, 0 where it starts none. */
  function Width(first: byte): nat {
    if first < 0x80 then 1
    else if 0xC2 <= first <= 0xDF then 2
    else if 0xE0 <= first <= 0xEF then 3
    else if 0xF0 <= first <= 0xF4 then 4
    else 0
  }

  predicate IsTail(b: byte) { 0x80 <= b <= 0xBF }

  /** The second byte has a narrower range after E0, ED, F0 and F4. */
  predicate IsSecond(first: byte, second: byte) {
    && IsTail(second)
    && (first == 0xE0 ==> 0xA0 <= second)
    && (first == 0xED ==> second <= 0x9F)
    && (first == 0xF0 ==> 0x90 <= second)
    && (first == 0xF4 ==> second <= 0x8F)
  }

  datatype Scan = Complete(scalar: Scalar, length: nat) | Incomplete | Invalid

  function Bits(b: byte): nat
    requires 0x80 <= b
  {
    b as int - 0x80
  }

  function Head(bs: seq<byte>): (r: Scan)
    requires bs != []
    ensures r.Complete? ==> 1 <= r.length <= |bs|
  {
    var first, w := bs[0], Width(bs[0]);
    if w == 0 then Invalid
    else if w == 1 then Complete(first as int, 1)
    else if |bs| < 2 then Incomplete
    else if !IsSecond(first, bs[1]) then Invalid
    else if w == 2 then Complete((first as int - 0xC0) * 64 + Bits(bs[1]), 2)
    else if |bs| < 3 then Incomplete
    else if !IsTail(bs[2]) then Invalid
    else if w == 3 then
      Complete((first as int - 0xE0) * 4096 + Bits(bs[1]) * 64 + Bits(bs[2]), 3)
    else if |bs| < 4 then Incomplete
    else if !IsTail(bs[3]) then Invalid
    else Complete((first as int - 0xF0) * 262144 + Bits(bs[1]) * 4096 + Bits(bs[2]) * 64 + Bits(bs[3]), 4)
  }

  /** What the decoder has produced and kept; `ok` is false from the first byte it rejects. */
  datatype Decoded = Decoded(text: seq<Scalar>, rest: seq<byte>, ok: bool)

  function Decode(bs: seq<byte>): Decoded {
    if bs == [] then Decoded([], [], true)
    else match Head(bs)
      case Complete(c, n) =>
        var more := Decode(bs[n..]);
        Decoded([c] + more.text, more.rest, more.ok)
      case Incomplete => Decoded([], bs, true)
      case Invalid => Decoded([], bs, false)
  }

  // ---- the scanner and the encoder are inverse ------------------------------------------------------------

  lemma HeadOfEncoded(c: Scalar, more: seq<byte>)
    ensures Head(EncodeScalar(c) + more) == Complete(c, |EncodeScalar(c)|)
  {
    if c < 0x80 {
    } else if c < 0x800 {
      HeadOfTwo(c / 64, c % 64);
    } else if c < 0x10000 {
      SplitDigits(c);
      HeadOfThree(c / 4096, c / 64 % 64, c % 64);
    } else {
      SplitDigits(c);
      HeadOfFour(c / 262144, c / 4096 % 64, c / 64 % 64, c % 64);
    }
    HeadExtends(EncodeScalar(c), more);
  }

  lemma SplitDigits(c: nat)
    ensures c == c / 4096 * 4096 + c / 64 % 64 * 64 + c % 64
    ensures c / 4096 == c / 262144 * 64 + c / 4096 % 64
  {
    assert c / 64 / 64 == c / 4096;
    assert c / 4096 / 64 == c / 262144;
  }

  lemma HeadOfTwo(high: nat, low: nat)
    requires 2 <= high < 32 && low < 64
    ensures Head([(0xC0 + high) as byte, (0x80 + low) as byte]) == Complete(high * 64 + low, 2)
  {}

  lemma HeadOfThree(high: nat, middle: nat, low: nat)
    requires high < 16 && middle < 64 && low < 64
    requires high == 0 ==> middle >= 32
    requires high == 13 ==> middle < 32
    ensures var bs := [(0xE0 + high) as byte, (0x80 + middle) as byte, (0x80 + low) as byte];
            Head(bs) == Complete(high * 4096 + middle * 64 + low, 3)
  {}

  lemma HeadOfFour(high: nat, upper: nat, middle: nat, low: nat)
    requires high < 5 && upper < 64 && middle < 64 && low < 64
    requires high == 0 ==> upper >= 16
    requires high == 4 ==> upper < 16
    ensures var bs := [(0xF0 + high) as byte, (0x80 + upper) as byte, (0x80 + middle) as byte, (0x80 + low) as byte];
            Head(bs) == Complete(high * 262144 + upper * 4096 + middle * 64 + low, 4)
  {}

  lemma CompleteIsEncoded(bs: seq<byte>)
    requires bs != [] && Head(bs).Complete?
    ensures bs[..Head(bs).length] == EncodeScalar(Head(bs).scalar)
  {
    var w := Head(bs).length;
    if w == 2 {
      CompleteTwo(bs[0], bs[1]);
    } else if w == 3 {
      CompleteThree(bs[0], bs[1], bs[2]);
    } else if w == 4 {
      CompleteFour(bs[0], bs[1], bs[2], bs[3]);
    }
    HeadOfPrefix(bs, w);
  }

  lemma HeadOfPrefix(bs: seq<byte>, w: nat)
    requires bs != [] && Head(bs).Complete? && w == Head(bs).length
    ensures bs[..w] == if w == 1 then [bs[0]] else if w == 2 then [bs[0], bs[1]]
                       else if w == 3 then [bs[0], bs[1], bs[2]] else [bs[0], bs[1], bs[2], bs[3]]
  {}

  lemma CompleteTwo(a: byte, b: byte)
    requires Width(a) == 2 && IsSecond(a, b)
    ensures EncodeScalar((a as int - 0xC0) * 64 + Bits(b)) == [a, b]
  {
    var c := (a as int - 0xC0) * 64 + Bits(b);
    assert c / 64 == a as int - 0xC0 && c % 64 == Bits(b);
  }

  lemma CompleteThree(a: byte, b: byte, c: byte)
    requires Width(a) == 3 && IsSecond(a, b) && IsTail(c)
    ensures Head([a, b, c]).Complete? && EncodeScalar(Head([a, b, c]).scalar) == [a, b, c]
  {
    var s := (a as int - 0xE0) * 4096 + Bits(b) * 64 + Bits(c);
    Split(s, (a as int - 0xE0) * 64 + Bits(b), Bits(c));
    assert ((a as int - 0xE0) * 64 + Bits(b)) % 64 == Bits(b);
  }

  lemma CompleteFour(a: byte, b: byte, c: byte, d: byte)
    requires Width(a) == 4 && IsSecond(a, b) && IsTail(c) && IsTail(d)
    ensures Head([a, b, c, d]).Complete? && EncodeScalar(Head([a, b, c, d]).scalar) == [a, b, c, d]
  {
    var high := (a as int - 0xF0) * 64 + Bits(b);
    var s := (a as int - 0xF0) * 262144 + Bits(b) * 4096 + Bits(c) * 64 + Bits(d);
    Split(s, high * 64 + Bits(c), Bits(d));
    Split(high * 64 + Bits(c), high, Bits(c));
    assert high % 64 == Bits(b) && high / 64 == a as int - 0xF0;
  }

  lemma Split(c: nat, high: nat, low: nat)
    requires low < 64 && c == high * 64 + low
    ensures c / 64 == high && c % 64 == low && c / 4096 == high / 64 && c / 262144 == high / 4096
  {}

  lemma HeadExtends(bs: seq<byte>, more: seq<byte>)
    requires bs != [] && !Head(bs).Incomplete?
    ensures Head(bs + more) == Head(bs)
  {}

  // ---- lengths --------------------------------------------------------------------------------------------------

  function ScalarBytes(c: Scalar): nat { if c < 0x80 then 1 else if c < 0x800 then 2 else if c < 0x10000 then 3 else 4 }

  /** The length of a text's encoding. */
  function ByteCount(text: seq<Scalar>): nat {
    if text == [] then 0 else ScalarBytes(text[0]) + ByteCount(text[1..])
  }

  lemma {:induction false} ByteCountIsLength(text: seq<Scalar>)
    ensures |Encode(text)| == ByteCount(text)
  {
    if text != [] {
      ByteCountIsLength(text[1..]);
    }
  }

  lemma {:induction false} ByteCountAppend(a: seq<Scalar>, b: seq<Scalar>)
    ensures ByteCount(a + b) == ByteCount(a) + ByteCount(b)
  {
    if a == [] {
      assert a + b == b;
    } else {
      assert (a + b)[1..] == a[1..] + b;
      ByteCountAppend(a[1..], b);
    }
  }

  // ---- round trips ------------------------------------------------------------------------------------------

  lemma {:induction false} DecodeOfEncoded(text: seq<Scalar>)
    ensures Decode(Encode(text)) == Decoded(text, [], true)
  {
    if text != [] {
      var first := EncodeScalar(text[0]);
      HeadOfEncoded(text[0], Encode(text[1..]));
      assert (first + Encode(text[1..]))[|first|..] == Encode(text[1..]);
      DecodeOfEncoded(text[1..]);
    }
  }

  lemma {:induction false} DecodedIsPrefix(bs: seq<byte>)
    ensures bs == Encode(Decode(bs).text) + Decode(bs).rest
    ensures Decode(bs).ok && Decode(bs).rest != [] ==> Head(Decode(bs).rest).Incomplete?
    decreases |bs|
  {
    hide Decode, Encode, EncodeScalar;
    if bs != [] && Head(bs).Complete? {
      var n := Head(bs).length;
      CompleteIsEncoded(bs);
      DecodedIsPrefix(bs[n..]);
      var more := Decode(bs[n..]);
      DecodeFirst(bs);
      EncodeFirst(Head(bs).scalar, more.text);
      assert bs == bs[..n] + bs[n..];
      Reassociate(bs[..n], Encode(more.text), more.rest);
    } else {
      DecodeStops(bs);
    }
  }

  lemma DecodeStops(bs: seq<byte>)
    requires bs != [] ==> !Head(bs).Complete?
    ensures Decode(bs).text == [] && Decode(bs).rest == bs && Encode([]) == []
    ensures Decode(bs).ok && bs != [] ==> Head(bs).Incomplete?
  {}

  lemma EncodeFirst(c: Scalar, text: seq<Scalar>)
    ensures Encode([c] + text) == EncodeScalar(c) + Encode(text)
  {
    assert ([c] + text)[1..] == text;
  }

  lemma Reassociate<T>(a: seq<T>, b: seq<T>, c: seq<T>)
    ensures a + (b + c) == (a + b) + c
  {}

  lemma {:induction false} DecodeFirst(bs: seq<byte>)
    requires bs != [] && Head(bs).Complete?
    ensures var more := Decode(bs[Head(bs).length..]);
            Decode(bs) == Decoded([Head(bs).scalar] + more.text, more.rest, more.ok)
  {}

  lemma {:induction false} DecodeAppendStep(a: seq<byte>, b: seq<byte>)
    requires a != [] && Head(a).Complete?
    ensures var tail := a[Head(a).length..];
            && Decode(a) == Decoded([Head(a).scalar] + Decode(tail).text, Decode(tail).rest, Decode(tail).ok)
            && Decode(a + b) == Decoded([Head(a).scalar] + Decode(tail + b).text, Decode(tail + b).rest, Decode(tail + b).ok)
    ensures forall text :: [Head(a).scalar] + (Decode(a[Head(a).length..]).text + text) == Decode(a).text + text
  {
    var n := Head(a).length;
    HeadExtends(a, b);
    assert (a + b)[n..] == a[n..] + b;
    DecodeFirst(a);
    DecodeFirst(a + b);
    forall text: seq<Scalar> ensures [Head(a).scalar] + (Decode(a[n..]).text + text) == Decode(a).text + text {
      Reassociate([Head(a).scalar], Decode(a[n..]).text, text);
    }
  }

  /** Decoding in two pieces: what the first piece left over goes in front of the second. */
  lemma {:induction false} DecodeAppend(a: seq<byte>, b: seq<byte>)
    ensures !Decode(a).ok ==> !Decode(a + b).ok && Decode(a + b).text == Decode(a).text
    ensures Decode(a).ok ==>
              var more := Decode(Decode(a).rest + b);
              Decode(a + b) == Decoded(Decode(a).text + more.text, more.rest, more.ok)
    decreases |a|
  {
    if a == [] {
      assert a + b == b;
    } else if Head(a).Complete? {
      DecodeAppend(a[Head(a).length..], b);
      DecodeAppendStep(a, b);
    } else if Head(a).Invalid? {
      HeadExtends(a, b);
    }
  }

  /** A stream is rejected exactly when no continuation of it is UTF-8. */
  lemma RejectedHasNoContinuation(bs: seq<byte>)
    ensures Decode(bs).ok <==> exists more: seq<byte>, text: seq<Scalar> :: bs + more == Encode(text)
  {
    if Decode(bs).ok {
      var more, text := Complement(bs);
      assert bs + more == Encode(text);
    }
    forall more: seq<byte>, text: seq<Scalar> | bs + more == Encode(text) ensures Decode(bs).ok {
      DecodeAppend(bs, more);
      DecodeOfEncoded(text);
    }
  }

  lemma Complement(bs: seq<byte>) returns (more: seq<byte>, text: seq<Scalar>)
    requires Decode(bs).ok
    ensures bs + more == Encode(text)
  {
    var d := Decode(bs);
    DecodedIsPrefix(bs);
    if d.rest == [] {
      more, text := [], d.text;
    } else {
      var c;
      c, more := Continue(d.rest);
      text := d.text + [c];
      EncodeAppend(d.text, [c]);
      EncodeFirst(c, []);
      assert [c] + [] == [c];
      Reassociate(Encode(d.text), d.rest, more);
    }
  }

  lemma {:induction false} EncodeAppend(a: seq<Scalar>, b: seq<Scalar>)
    ensures Encode(a + b) == Encode(a) + Encode(b)
  {
    if a == [] {
      assert a + b == b;
    } else {
      assert (a + b)[1..] == a[1..] + b;
      EncodeAppend(a[1..], b);
    }
  }

  /** An unfinished code point can be finished. */
  lemma Continue(rest: seq<byte>) returns (c: Scalar, more: seq<byte>)
    requires rest != [] && Head(rest).Incomplete?
    ensures rest + more == EncodeScalar(c)
  {
    var second: byte := if rest[0] == 0xE0 then 0xA0 else if rest[0] == 0xF0 then 0x90 else 0x80;
    var whole: seq<byte> :=
      [rest[0], if |rest| > 1 then rest[1] else second, if |rest| > 2 then rest[2] else 0x80, 0x80][..Width(rest[0])];
    assert Head(whole).Complete?;
    CompleteIsEncoded(whole);
    c, more := Head(whole).scalar, whole[|rest|..];
  }
}
