/** UTF-8 (RFC 3629 section 3), read as strictly as Rust's `from_utf8`. */
module Utf8 {

  import opened Prelude

  type Byte = n: int | 0 <= n < 256

  function EncodeChar(c: char): (b: seq<Byte>)
    ensures 1 <= |b| <= 4
  {
    var n := c as int;
    if n < 0x80 then [n]
    else if n < 0x800 then [0xC0 + n / 64, 0x80 + n % 64]
    else if n < 0x1_0000 then [0xE0 + n / 4096, 0x80 + n / 64 % 64, 0x80 + n % 64]
    else [0xF0 + n / 262144, 0x80 + n / 4096 % 64, 0x80 + n / 64 % 64, 0x80 + n % 64]
  }

  function Encode(s: string): seq<Byte> {
    if s == "" then [] else EncodeChar(s[0]) + Encode(s[1..])
  }

  datatype Head = Head(c: char, rest: seq<Byte>)

  predicate IsContinuation(b: seq<Byte>, i: nat) {
    i < |b| && 0x80 <= b[i] < 0xC0
  }

  /** The first character and what follows it; overlong forms, surrogates and numbers past U+10FFFF are refused. */
  function DecodeHead(b: seq<Byte>): (h: Option<Head>)
    requires b != []
    ensures h.Some? ==> |h.value.rest| < |b|
  {
    if b[0] < 0x80 then Some(Head(b[0] as char, b[1..]))
    else if 0xC0 <= b[0] < 0xE0 && IsContinuation(b, 1) then
      Scalar((b[0] as int - 0xC0) * 64 + (b[1] as int - 0x80), 0x80, b[2..])
    else if 0xE0 <= b[0] < 0xF0 && IsContinuation(b, 1) && IsContinuation(b, 2) then
      Scalar((b[0] as int - 0xE0) * 4096 + (b[1] as int - 0x80) * 64 + (b[2] as int - 0x80), 0x800, b[3..])
    else if 0xF0 <= b[0] < 0xF8 && IsContinuation(b, 1) && IsContinuation(b, 2) && IsContinuation(b, 3) then
      Scalar((b[0] as int - 0xF0) * 262144 + (b[1] as int - 0x80) * 4096 + (b[2] as int - 0x80) * 64 +
             (b[3] as int - 0x80), 0x1_0000, b[4..])
    else None
  }

  function Scalar(n: int, least: int, rest: seq<Byte>): Option<Head>
    requires 0 <= n
  {
    if n >= least && (n < 0xD800 || 0xE000 <= n < 0x11_0000) then Some(Head(n as char, rest)) else None
  }

  function Decode(b: seq<Byte>): Option<string>
    decreases |b|
  {
    if b == [] then Some("")
    else
      match DecodeHead(b)
      case None => None
      case Some(h) =>
        match Decode(h.rest)
        case None => None
        case Some(s) => Some([h.c] + s)
  }

  // ---------------------------------------------------------------------------
  // Decoding inverts encoding, and only that
  // ---------------------------------------------------------------------------

  lemma Digits2(n: int)
    requires 0 <= n < 0x800
    ensures (n / 64) * 64 + n % 64 == n
  {
  }

  lemma Digits3(n: int)
    requires 0 <= n < 0x1_0000
    ensures n / 4096 * 4096 + n / 64 % 64 * 64 + n % 64 == n
  {
  }

  lemma Digits4(n: int)
    requires 0 <= n < 0x11_0000
    ensures n / 262144 * 262144 + n / 4096 % 64 * 4096 + n / 64 % 64 * 64 + n % 64 == n
  {
  }

  lemma ScalarIsItself(c: char, least: int, rest: seq<Byte>)
    requires least <= c as int
    ensures Scalar(c as int, least, rest) == Some(Head(c, rest))
  {
  }

  lemma DecodeHeadInverts(c: char, rest: seq<Byte>)
    ensures DecodeHead(EncodeChar(c) + rest) == Some(Head(c, rest))
  {
    var n := c as int;
    var b := EncodeChar(c) + rest;
    assert b[|EncodeChar(c)|..] == rest;
    if n < 0x80 {
    } else if n < 0x800 {
      Digits2(n);
      ScalarIsItself(c, 0x80, rest);
    } else if n < 0x1_0000 {
      Digits3(n);
      ScalarIsItself(c, 0x800, rest);
    } else {
      Digits4(n);
      ScalarIsItself(c, 0x1_0000, rest);
    }
  }

  lemma {:induction false} DecodeInverts(s: string)
    ensures Decode(Encode(s)) == Some(s)
  {
    if s != "" {
      DecodeHeadInverts(s[0], Encode(s[1..]));
      DecodeInverts(s[1..]);
      assert s == [s[0]] + s[1..];
    }
  }

  lemma Undigits2(p: int, q: int)
    requires 0 <= p && 0 <= q < 64
    ensures (p * 64 + q) / 64 == p && (p * 64 + q) % 64 == q
  {
  }

  lemma Undigits3(p: int, q: int, r: int)
    requires 0 <= p && 0 <= q < 64 && 0 <= r < 64
    ensures var n := p * 4096 + q * 64 + r;
            n / 4096 == p && n / 64 % 64 == q && n % 64 == r
  {
    var n := p * 4096 + q * 64 + r;
    assert n == (p * 64 + q) * 64 + r;
    Undigits2(p * 64 + q, r);
    Undigits2(p, q);
  }

  lemma Undigits4(o: int, p: int, q: int, r: int)
    requires 0 <= o && 0 <= p < 64 && 0 <= q < 64 && 0 <= r < 64
    ensures var n := o * 262144 + p * 4096 + q * 64 + r;
            n / 262144 == o && n / 4096 % 64 == p && n / 64 % 64 == q && n % 64 == r
  {
    var n := o * 262144 + p * 4096 + q * 64 + r;
    assert n == (o * 4096 + p * 64 + q) * 64 + r;
    Undigits2(o * 4096 + p * 64 + q, r);
    Undigits3(o, p, q);
  }

  lemma EncodeHeadInverts(b: seq<Byte>)
    requires b != [] && DecodeHead(b).Some?
    ensures EncodeChar(DecodeHead(b).value.c) + DecodeHead(b).value.rest == b
  {
    if b[0] < 0x80 {
    } else if 0xC0 <= b[0] < 0xE0 {
      Undigits2(b[0] - 0xC0, b[1] - 0x80);
      assert b == b[..2] + b[2..];
    } else if 0xE0 <= b[0] < 0xF0 {
      Undigits3(b[0] - 0xE0, b[1] - 0x80, b[2] - 0x80);
      assert b == b[..3] + b[3..];
    } else {
      Undigits4(b[0] - 0xF0, b[1] - 0x80, b[2] - 0x80, b[3] - 0x80);
      assert b == b[..4] + b[4..];
    }
  }

  /** What decodes is exactly what its text encodes to: one spelling for every text. */
  lemma {:induction false} EncodeInverts(b: seq<Byte>)
    ensures Decode(b).Some? ==> Encode(Decode(b).value) == b
    decreases |b|
  {
    if b != [] && DecodeHead(b).Some? {
      var h := DecodeHead(b).value;
      EncodeHeadInverts(b);
      EncodeInverts(h.rest);
      if Decode(h.rest).Some? {
        assert ([h.c] + Decode(h.rest).value)[1..] == Decode(h.rest).value;
      }
    }
  }

  lemma CharHasAscii(c: char, k: char)
    requires k < '\U{0080}'
    ensures k as int in EncodeChar(c) <==> c == k
  {
  }

  /** An ASCII byte stands for its character and for nothing else. */
  lemma {:induction false} AsciiBytes(s: string, k: char)
    requires k < '\U{0080}'
    ensures k as int in Encode(s) <==> k in s
  {
    if s != "" {
      CharHasAscii(s[0], k);
      AsciiBytes(s[1..], k);
    }
  }
}
