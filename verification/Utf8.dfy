/** The encoding whose length `byte_size` and `input_bytes` take (app/diff/parser.py:26,
    app/services/jobs.py:69): UTF-8 as in section 3 of RFC 3629. */
module Utf8 {
  import opened Wrappers
  import opened Text

  type Byte = b: int | 0 <= b < 256

  /** The octets of one code point: one up to U+007F, two up to U+07FF, three up to U+FFFF, else four. */
  function EncodeChar(c: char): (r: seq<Byte>)
    ensures r != []
  {
    var n := c as int;
    if n <= 0x7F then [n]
    else if n <= 0x7FF then [0xC0 + n / 0x40, 0x80 + n % 0x40]
    else if n <= 0xFFFF then [0xE0 + n / 0x1000, 0x80 + n / 0x40 % 0x40, 0x80 + n % 0x40]
    else [0xF0 + n / 0x40000, 0x80 + n / 0x1000 % 0x40, 0x80 + n / 0x40 % 0x40, 0x80 + n % 0x40]
  }

  function Encode(s: string): seq<Byte> {
    if s == "" then [] else EncodeChar(s[0]) + Encode(s[1..])
  }

  /** How many octets a sequence has that starts with `b`; None if none starts so. */
  function Width(b: Byte): Option<nat> {
    if b < 0x80 then Some(1)
    else if b < 0xC0 then None
    else if b < 0xE0 then Some(2)
    else if b < 0xF0 then Some(3)
    else if b < 0xF8 then Some(4)
    else None
  }

  predicate IsContinuation(b: Byte) {
    0x80 <= b < 0xC0
  }

  /** The number that the bits of the continuation octets append to `high`. */
  function Bits(high: nat, tail: seq<Byte>): nat
    requires forall i :: 0 <= i < |tail| ==> IsContinuation(tail[i])
    decreases |tail|
  {
    if tail == [] then high
    else
      assert IsContinuation(tail[0]);
      var octet: int := tail[0];
      Bits(high * 0x40 + (octet - 0x80), tail[1..])
  }

  /** The bits that the first octet of a sequence of `width` octets holds. */
  function HighBits(b: Byte, width: nat): nat
    requires Width(b) == Some(width)
  {
    if width == 1 then b else if width == 2 then b - 0xC0 else if width == 3 then b - 0xE0 else b - 0xF0
  }

  predicate IsScalar(n: nat) {
    n < 0xD800 || 0xE000 <= n < 0x110000
  }

  function Decode(bytes: seq<Byte>): Option<string>
    decreases |bytes|
  {
    if bytes == [] then Some("")
    else
      var width :- Width(bytes[0]);
      if width == 0 || width > |bytes| || exists i :: 1 <= i < width && !IsContinuation(bytes[i]) then None
      else
        var n := Bits(HighBits(bytes[0], width), bytes[1..width]);
        if !IsScalar(n) then None
        else
          var rest :- Decode(bytes[width..]);
          Some([n as char] + rest)
  }

  lemma BitsCons(high: nat, a: Byte, tail: seq<Byte>)
    requires IsContinuation(a) && forall i :: 0 <= i < |tail| ==> IsContinuation(tail[i])
    ensures Bits(high, [a] + tail) == Bits(high * 0x40 + (a as int - 0x80), tail)
    ensures Bits(high, []) == high
  {
    assert ([a] + tail)[1..] == tail;
  }

  lemma BitsOf(high: nat, a: Byte, b: Byte, c: Byte)
    requires IsContinuation(a) && IsContinuation(b) && IsContinuation(c)
    ensures Bits(high, []) == high
    ensures Bits(high, [a]) == high * 0x40 + (a as int - 0x80)
    ensures Bits(high, [a, b]) == (high * 0x40 + (a as int - 0x80)) * 0x40 + (b as int - 0x80)
    ensures Bits(high, [a, b, c]) == ((high * 0x40 + (a as int - 0x80)) * 0x40 + (b as int - 0x80)) * 0x40 + (c as int - 0x80)
  {
    hide Bits;
    var one: nat := high * 0x40 + (a as int - 0x80);
    var two: nat := one * 0x40 + (b as int - 0x80);
    var three: nat := two * 0x40 + (c as int - 0x80);
    assert [a] == [a] + [] && [b] == [b] + [] && [c] == [c] + [];
    assert [a, b] == [a] + [b] && [a, b, c] == [a] + [b, c] && [b, c] == [b] + [c];
    BitsCons(high, a, []);
    BitsCons(one, b, []);
    BitsCons(two, c, []);
    BitsCons(three, c, []);
    BitsCons(high, a, [b]);
    BitsCons(high, a, [b, c]);
    BitsCons(one, b, [c]);
  }

  lemma Split(n: nat)
    ensures n / 0x40 * 0x40 + n % 0x40 == n
    ensures n / 0x1000 * 0x40 + n / 0x40 % 0x40 == n / 0x40
    ensures n / 0x40000 * 0x40 + n / 0x1000 % 0x40 == n / 0x1000
  {
  }

  lemma DecodeChar(c: char)
    ensures var r := EncodeChar(c);
            && Width(r[0]) == Some(|r|) && (forall i :: 1 <= i < |r| ==> IsContinuation(r[i]))
            && Bits(HighBits(r[0], |r|), r[1..]) == c as int
  {
    var n := c as int;
    hide Bits;
    Split(n);
    var a, b, d: Byte := 0x80 + n / 0x1000 % 0x40, 0x80 + n / 0x40 % 0x40, 0x80 + n % 0x40;
    if n <= 0x7F {
      BitsOf(n, a, b, d);
      assert EncodeChar(c)[1..] == [];
    } else if n <= 0x7FF {
      BitsOf(n / 0x40, d, b, a);
      assert EncodeChar(c)[1..] == [d];
    } else if n <= 0xFFFF {
      BitsOf(n / 0x1000, b, d, a);
      assert EncodeChar(c)[1..] == [b, d];
    } else {
      BitsOf(n / 0x40000, a, b, d);
      assert EncodeChar(c)[1..] == [a, b, d];
    }
  }

  /** Decoding reads back every text. */
  lemma {:induction false} DecodeEncode(s: string)
    ensures Decode(Encode(s)) == Some(s)
  {
    if s != "" {
      DecodeEncode(s[1..]);
      DecodeChar(s[0]);
      var first, rest := EncodeChar(s[0]), Encode(s[1..]);
      var bytes := first + rest;
      assert bytes[|first|..] == rest && bytes[1..|first|] == first[1..];
      assert s == [s[0]] + s[1..];
      hide EncodeChar, Width, HighBits, Bits, IsContinuation;
    }
  }

  /** The length that the model counts is that of the encoding. */
  lemma {:induction false} LengthOfEncoding(s: string)
    ensures Utf8Length(s) == |Encode(s)|
  {
    if s != "" {
      LengthOfEncoding(s[1..]);
    }
  }
}
