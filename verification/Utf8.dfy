/** UTF-8, in which events travel: the encoding of text, its strict decoding, and the round trip. */
module Utf8 {
  import opened Options
  import opened SseFraming

  predicate IsScalar(n: int) {
    0 <= n < 0xD800 || 0xE000 <= n < 0x11_0000
  }

  /** The encoding of one character, of one to four bytes; longer ones hold no ASCII byte. */
  function EncodeChar(c: char): (b: Bytes)
    ensures 1 <= |b| <= 4
    ensures c as int < 0x80 ==> b == [c as int]
    ensures c as int >= 0x80 ==> forall i :: 0 <= i < |b| ==> b[i] >= 0x80
  {
    var n := c as int;
    if n < 0x80 then [n]
    else if n < 0x800 then [0xC0 + n / 64, 0x80 + n % 64]
    else if n < 0x1_0000 then [0xE0 + n / 4096, 0x80 + n / 64 % 64, 0x80 + n % 64]
    else [0xF0 + n / 262144, 0x80 + n / 4096 % 64, 0x80 + n / 64 % 64, 0x80 + n % 64]
  }

  function Encode(s: string): Bytes {
    if s == "" then [] else EncodeChar(s[0]) + Encode(s[1..])
  }

  /** Length of an encoding that starts with this byte; 0 if none does. */
  function LengthFrom(first: Byte): nat {
    if first < 0x80 then 1 else if first < 0xC0 then 0 else if first < 0xE0 then 2
    else if first < 0xF0 then 3 else if first < 0xF8 then 4 else 0
  }

  function Digit(b: int, marker: int): int {
    b - marker
  }

  /** The number written in these bytes. */
  function ValueOf(b: Bytes): int
    requires 1 <= |b| && |b| <= 4
  {
    match |b|
    case 1 => b[0]
    case 2 => Digit(b[0], 0xC0) * 64 + Digit(b[1], 0x80)
    case 3 => Digit(b[0], 0xE0) * 4096 + Digit(b[1], 0x80) * 64 + Digit(b[2], 0x80)
    case _ => Digit(b[0], 0xF0) * 262144 + Digit(b[1], 0x80) * 4096 + Digit(b[2], 0x80) * 64 + Digit(b[3], 0x80)
  }

  /** One character and the number of bytes it takes; None where the bytes encode no character. */
  function DecodeFirst(b: Bytes): (r: Option<(char, nat)>)
    requires b != []
    ensures r.Some? ==> 0 < r.value.1 <= |b| && b[..r.value.1] == EncodeChar(r.value.0)
  {
    var k := LengthFrom(b[0]);
    if k == 0 || k > |b| then None
    else
      var v := ValueOf(b[..k]);
      if IsScalar(v) && EncodeChar(v as char) == b[..k] then Some((v as char, k)) else None
  }

  /** Strict decoding; None for bytes that encode no text. */
  function Decode(b: Bytes): Option<string>
    decreases |b|
  {
    if b == [] then Some("")
    else
      match DecodeFirst(b)
      case None => None
      case Some((c, k)) =>
        match Decode(b[k..])
        case None => None
        case Some(rest) => Some([c] + rest)
  }

  lemma {:induction false} CharRoundTrip(c: char)
    ensures LengthFrom(EncodeChar(c)[0]) == |EncodeChar(c)| && ValueOf(EncodeChar(c)) == c as int
  {
    var n := c as int;
    assert n == n / 64 * 64 + n % 64;
    assert n / 64 == n / 4096 * 64 + n / 64 % 64;
    assert n / 4096 == n / 262144 * 64 + n / 4096 % 64;
  }

  lemma {:induction false} DecodeFirstOf(c: char, rest: Bytes)
    ensures DecodeFirst(EncodeChar(c) + rest) == Some((c, |EncodeChar(c)|))
  {
    CharRoundTrip(c);
    hide EncodeChar;
    hide ValueOf;
    var b := EncodeChar(c) + rest;
    assert b[..|EncodeChar(c)|] == EncodeChar(c) && b[0] == EncodeChar(c)[0];
  }

  /** Decoding gives back every text, so the encoding also determines it. */
  lemma {:induction false} DecodeEncode(s: string)
    ensures Decode(Encode(s)) == Some(s)
    decreases |s|
  {
    if s != "" {
      var e := EncodeChar(s[0]);
      DecodeFirstOf(s[0], Encode(s[1..]));
      DecodeEncode(s[1..]);
      hide EncodeChar;
      hide DecodeFirst;
      assert (e + Encode(s[1..]))[|e|..] == Encode(s[1..]);
      assert s == [s[0]] + s[1..];
    }
  }

  lemma {:induction false} EncodeAppend(a: string, b: string)
    ensures Encode(a + b) == Encode(a) + Encode(b)
    decreases |a|
  {
    hide EncodeChar;
    if a == "" {
      assert a + b == b;
    } else {
      assert (a + b)[1..] == a[1..] + b;
      EncodeAppend(a[1..], b);
    }
  }

  /** A byte below 0x80 only comes from the character it stands for. */
  lemma {:induction false} AsciiByteIsItself(s: string, b: Byte)
    requires b < 0x80 && b in Encode(s)
    ensures b as char in s
    decreases |s|
  {
    var e, rest := EncodeChar(s[0]), Encode(s[1..]);
    assert b in e || b in rest;
    if b in e {
      assert s[0] as int == b;
    } else {
      AsciiByteIsItself(s[1..], b);
    }
  }
}
