/** UTF-8 as defined in section 4 of RFC 3629, the check behind Rust's
    `std::str::from_utf8` that both serial-number extractions rely on.

    A byte string is well formed when it splits, left to right, into
    characters whose first byte fixes their length:
      UTF8-1 = 00-7F
      UTF8-2 = C2-DF tail
      UTF8-3 = E0 A0-BF tail | E1-EC tail tail | ED 80-9F tail | EE-EF tail tail
      UTF8-4 = F0 90-BF tail tail | F1-F3 tail tail tail | F4 80-8F tail tail
      tail   = 80-BF
    The grammar leaves out overlong forms, the surrogates D800-DFFF and
    everything above 10FFFF, so a decoded character is always a Unicode
    scalar value, which is what a Dafny `char` holds. */
module Utf8 {
  import opened Types

  predicate IsTail(b: Byte) { 0x80 <= b <= 0xBF }

  /** The length of the well-formed character that starts `b`, or 0 when
      `b` does not start with one (RFC 3629, section 4). */
  function LeadLength(b: seq<Byte>): (n: nat)
    ensures n <= 4 && n <= |b|
  {
    if |b| == 0 then 0
    else if b[0] <= 0x7F then 1
    else if 0xC2 <= b[0] <= 0xDF then
      if |b| >= 2 && IsTail(b[1]) then 2 else 0
    else if 0xE0 <= b[0] <= 0xEF then
      if |b| >= 3 && IsTail(b[2]) &&
         (if b[0] == 0xE0 then 0xA0 <= b[1] <= 0xBF
          else if b[0] == 0xED then 0x80 <= b[1] <= 0x9F
          else IsTail(b[1]))
      then 3 else 0
    else if 0xF0 <= b[0] <= 0xF4 then
      if |b| >= 4 && IsTail(b[2]) && IsTail(b[3]) &&
         (if b[0] == 0xF0 then 0x90 <= b[1] <= 0xBF
          else if b[0] == 0xF4 then 0x80 <= b[1] <= 0x8F
          else IsTail(b[1]))
      then 4 else 0
    else 0
  }

  /** RFC 3629 well-formedness: the whole string is a run of characters. */
  predicate WellFormed(b: seq<Byte>)
    decreases |b|
  {
    b == [] || (LeadLength(b) > 0 && WellFormed(b[LeadLength(b)..]))
  }

  predicate IsScalar(x: int) { 0 <= x < 0xD800 || 0xE000 <= x < 0x11_0000 }

  /** The code point carried by a well-formed character (section 3 of RFC 3629). */
  function CodePoint(b: seq<Byte>): (x: int)
    requires LeadLength(b) > 0
    ensures IsScalar(x)
  {
    var n := LeadLength(b);
    var b0: int := b[0];
    if n == 1 then b0
    else
      var b1: int := b[1];
      if n == 2 then (b0 - 0xC0) * 0x40 + (b1 - 0x80)
      else
        var b2: int := b[2];
        if n == 3 then (b0 - 0xE0) * 0x1000 + (b1 - 0x80) * 0x40 + (b2 - 0x80)
        else
          var b3: int := b[3];
          (b0 - 0xF0) * 0x4_0000 + (b1 - 0x80) * 0x1000 + (b2 - 0x80) * 0x40 + (b3 - 0x80)
  }

  /** `from_utf8`: the characters of `b`, or None when `b` is not well formed. */
  function Decode(b: seq<Byte>): (r: Option<string>)
    ensures r.Some? <==> WellFormed(b)
    decreases |b|
  {
    if b == [] then Some([])
    else
      var n := LeadLength(b);
      if n == 0 then None
      else match Decode(b[n..])
        case None => None
        case Some(rest) => Some([CodePoint(b) as char] + rest)
  }

  /** The UTF-8 form of one character (section 3 of RFC 3629). */
  function EncodeChar(c: char): seq<Byte>
  {
    var x := c as int;
    if x < 0x80 then [x]
    else if x < 0x800 then [0xC0 + x / 0x40, 0x80 + x % 0x40]
    else if x < 0x1_0000 then [0xE0 + x / 0x1000, 0x80 + (x / 0x40) % 0x40, 0x80 + x % 0x40]
    else [0xF0 + x / 0x4_0000, 0x80 + (x / 0x1000) % 0x40, 0x80 + (x / 0x40) % 0x40, 0x80 + x % 0x40]
  }

  /** The UTF-8 form of a string (what Rust stores in a `String`). */
  function Encode(s: string): seq<Byte>
  {
    if s == [] then [] else EncodeChar(s[0]) + Encode(s[1..])
  }

  /** Splitting a code point into 6-bit groups and putting it back together. */
  lemma SplitBits(x: int)
    requires 0 <= x < 0x20_0000
    ensures x == (x / 0x4_0000) * 0x4_0000 + ((x / 0x1000) % 0x40) * 0x1000 + ((x / 0x40) % 0x40) * 0x40 + x % 0x40
    ensures x < 0x1_0000 ==> x == (x / 0x1000) * 0x1000 + ((x / 0x40) % 0x40) * 0x40 + x % 0x40
    ensures x < 0x800 ==> x == (x / 0x40) * 0x40 + x % 0x40
  {
    var t, r := x / 0x40, x % 0x40;
    var u, m := t / 0x40, t % 0x40;
    assert x == u * 0x1000 + m * 0x40 + r;
    DivModUnique(x, 0x1000, u, m * 0x40 + r);
    var v, n := u / 0x40, u % 0x40;
    assert x == v * 0x4_0000 + n * 0x1000 + m * 0x40 + r;
    DivModUnique(x, 0x4_0000, v, n * 0x1000 + m * 0x40 + r);
  }

  lemma EncodeCharLeads2(c: char, rest: seq<Byte>)
    requires 0x80 <= c as int < 0x800
    ensures LeadLength(EncodeChar(c) + rest) == 2
    ensures CodePoint(EncodeChar(c) + rest) == c as int
  {
    var x := c as int;
    SplitBits(x);
    var b := EncodeChar(c) + rest;
    assert b[0] == 0xC0 + x / 0x40 && b[1] == 0x80 + x % 0x40;
  }

  lemma EncodeCharLeads3(c: char, rest: seq<Byte>)
    requires 0x800 <= c as int < 0x1_0000
    ensures LeadLength(EncodeChar(c) + rest) == 3
    ensures CodePoint(EncodeChar(c) + rest) == c as int
  {
    var x := c as int;
    SplitBits(x);
    var b := EncodeChar(c) + rest;
    assert b[0] == 0xE0 + x / 0x1000 && b[1] == 0x80 + (x / 0x40) % 0x40 && b[2] == 0x80 + x % 0x40;
    assert b[0] == 0xE0 ==> x / 0x40 >= 0x20;
    assert b[0] == 0xED ==> x < 0xD800;
  }

  lemma EncodeCharLeads4(c: char, rest: seq<Byte>)
    requires 0x1_0000 <= c as int
    ensures LeadLength(EncodeChar(c) + rest) == 4
    ensures CodePoint(EncodeChar(c) + rest) == c as int
  {
    var x := c as int;
    SplitBits(x);
    var b := EncodeChar(c) + rest;
    assert b[0] == 0xF0 + x / 0x4_0000 && b[1] == 0x80 + (x / 0x1000) % 0x40;
    assert b[2] == 0x80 + (x / 0x40) % 0x40 && b[3] == 0x80 + x % 0x40;
    assert b[0] == 0xF0 ==> x / 0x1000 >= 0x10;
    assert b[0] == 0xF4 ==> x / 0x1000 < 0x110;
  }

  /** Decoding looks at the first character only: what follows it is untouched. */
  lemma EncodeCharLeads(c: char, rest: seq<Byte>)
    ensures LeadLength(EncodeChar(c) + rest) == |EncodeChar(c)|
    ensures CodePoint(EncodeChar(c) + rest) == c as int
    ensures (EncodeChar(c) + rest)[|EncodeChar(c)|..] == rest
  {
    var x := c as int;
    if x < 0x80 {
    } else if x < 0x800 {
      EncodeCharLeads2(c, rest);
    } else if x < 0x1_0000 {
      EncodeCharLeads3(c, rest);
    } else {
      EncodeCharLeads4(c, rest);
    }
  }

  /** Every string survives a trip through UTF-8. */
  lemma {:induction false} DecodeEncode(s: string)
    ensures Decode(Encode(s)) == Some(s)
  {
    if s != [] {
      var e := EncodeChar(s[0]);
      EncodeCharLeads(s[0], Encode(s[1..]));
      DecodeEncode(s[1..]);
      assert Encode(s) == e + Encode(s[1..]);
      assert (CodePoint(Encode(s)) as char) == s[0];
      assert s == [s[0]] + s[1..];
    }
  }

  lemma EncodeCodePoint2(b0: int, b1: int)
    requires 0xC2 <= b0 <= 0xDF && 0x80 <= b1 <= 0xBF
    ensures var x := (b0 - 0xC0) * 0x40 + (b1 - 0x80);
      0x80 <= x < 0x800 && x / 0x40 == b0 - 0xC0 && x % 0x40 == b1 - 0x80
  {
    DivModUnique((b0 - 0xC0) * 0x40 + (b1 - 0x80), 0x40, b0 - 0xC0, b1 - 0x80);
  }

  lemma EncodeCodePoint3(b0: int, b1: int, b2: int)
    requires 0xE0 <= b0 <= 0xEF && 0x80 <= b1 <= 0xBF && 0x80 <= b2 <= 0xBF
    requires b0 == 0xE0 ==> b1 >= 0xA0
    ensures var x := (b0 - 0xE0) * 0x1000 + (b1 - 0x80) * 0x40 + (b2 - 0x80);
      0x800 <= x < 0x1_0000 && x / 0x1000 == b0 - 0xE0 &&
      (x / 0x40) % 0x40 == b1 - 0x80 && x % 0x40 == b2 - 0x80
  {
    var p, q, r := b0 - 0xE0, b1 - 0x80, b2 - 0x80;
    var x := p * 0x1000 + q * 0x40 + r;
    DivModUnique(x, 0x1000, p, q * 0x40 + r);
    DivModUnique(x, 0x40, p * 0x40 + q, r);
    DivModUnique(p * 0x40 + q, 0x40, p, q);
  }

  lemma EncodeCodePoint4(b0: int, b1: int, b2: int, b3: int)
    requires 0xF0 <= b0 <= 0xF4 && 0x80 <= b1 <= 0xBF && 0x80 <= b2 <= 0xBF && 0x80 <= b3 <= 0xBF
    requires b0 == 0xF0 ==> b1 >= 0x90
    ensures var x := (b0 - 0xF0) * 0x4_0000 + (b1 - 0x80) * 0x1000 + (b2 - 0x80) * 0x40 + (b3 - 0x80);
      0x1_0000 <= x && x / 0x4_0000 == b0 - 0xF0 && (x / 0x1000) % 0x40 == b1 - 0x80 &&
      (x / 0x40) % 0x40 == b2 - 0x80 && x % 0x40 == b3 - 0x80
  {
    var p, q, r, t := b0 - 0xF0, b1 - 0x80, b2 - 0x80, b3 - 0x80;
    var x := p * 0x4_0000 + q * 0x1000 + r * 0x40 + t;
    DivModUnique(x, 0x4_0000, p, q * 0x1000 + r * 0x40 + t);
    DivModUnique(x, 0x1000, p * 0x40 + q, r * 0x40 + t);
    DivModUnique(p * 0x40 + q, 0x40, p, q);
    DivModUnique(x, 0x40, p * 0x1000 + q * 0x40 + r, t);
    DivModUnique(p * 0x1000 + q * 0x40 + r, 0x40, p * 0x40 + q, r);
  }

  lemma EncodeCodePointOf2(b: seq<Byte>)
    requires LeadLength(b) == 2
    ensures EncodeChar(CodePoint(b) as char) == b[..2]
  {
    assert 0xC2 <= b[0] <= 0xDF && IsTail(b[1]);
    assert CodePoint(b) == (b[0] as int - 0xC0) * 0x40 + (b[1] as int - 0x80);
    EncodeCodePoint2(b[0], b[1]);
    assert b[..2] == [b[0], b[1]];
  }

  lemma EncodeCodePointOf3(b: seq<Byte>)
    requires LeadLength(b) == 3
    ensures EncodeChar(CodePoint(b) as char) == b[..3]
  {
    assert 0xE0 <= b[0] <= 0xEF && IsTail(b[1]) && IsTail(b[2]);
    assert b[0] == 0xE0 ==> b[1] >= 0xA0;
    assert CodePoint(b) == (b[0] as int - 0xE0) * 0x1000 + (b[1] as int - 0x80) * 0x40 + (b[2] as int - 0x80);
    EncodeCodePoint3(b[0], b[1], b[2]);
    assert b[..3] == [b[0], b[1], b[2]];
  }

  lemma EncodeCodePointOf4(b: seq<Byte>)
    requires LeadLength(b) == 4
    ensures EncodeChar(CodePoint(b) as char) == b[..4]
  {
    assert 0xF0 <= b[0] <= 0xF4 && IsTail(b[1]) && IsTail(b[2]) && IsTail(b[3]);
    assert b[0] == 0xF0 ==> b[1] >= 0x90;
    assert CodePoint(b) == (b[0] as int - 0xF0) * 0x4_0000 + (b[1] as int - 0x80) * 0x1000 + (b[2] as int - 0x80) * 0x40 + (b[3] as int - 0x80);
    EncodeCodePoint4(b[0], b[1], b[2], b[3]);
    assert b[..4] == [b[0], b[1], b[2], b[3]];
  }

  /** A well-formed first character is re-encoded to exactly its own bytes. */
  lemma EncodeCodePoint(b: seq<Byte>)
    requires LeadLength(b) > 0
    ensures EncodeChar(CodePoint(b) as char) == b[..LeadLength(b)]
  {
    var n := LeadLength(b);
    if n == 1 {
      assert b[..1] == [b[0]];
    } else if n == 2 {
      EncodeCodePointOf2(b);
    } else if n == 3 {
      EncodeCodePointOf3(b);
    } else {
      EncodeCodePointOf4(b);
    }
  }

  lemma EncodeCons(c: char, rest: string)
    ensures Encode([c] + rest) == EncodeChar(c) + Encode(rest)
  {
    assert ([c] + rest)[1..] == rest;
  }

  /** A well-formed string decodes to its first character and then the rest. */
  lemma DecodeFirst(b: seq<Byte>)
    requires WellFormed(b) && b != []
    ensures LeadLength(b) > 0 && WellFormed(b[LeadLength(b)..])
    ensures Decode(b).value == [CodePoint(b) as char] + Decode(b[LeadLength(b)..]).value
  {
  }

  /** Every well-formed byte string is the encoding of what it decodes to:
      `from_utf8` loses nothing. */
  lemma {:induction false} EncodeDecode(b: seq<Byte>)
    requires WellFormed(b)
    ensures Encode(Decode(b).value) == b
    decreases |b|
  {
    if b != [] {
      DecodeFirst(b);
      var n := LeadLength(b);
      var tail := b[n..];
      EncodeDecode(tail);
      EncodeCodePoint(b);
      EncodeCons(CodePoint(b) as char, Decode(tail).value);
      assert b[..n] + tail == b;
    }
  }

  /** Bytes below 0x80 are always well formed, one character each. */
  lemma {:induction false} AsciiWellFormed(b: seq<Byte>)
    requires forall i :: 0 <= i < |b| ==> b[i] < 0x80
    ensures WellFormed(b)
    ensures |Decode(b).value| == |b|
    ensures forall i :: 0 <= i < |b| ==> Decode(b).value[i] as int == b[i]
    decreases |b|
  {
    if b != [] {
      AsciiWellFormed(b[1..]);
    }
  }
}
