/** UTF-8 as section 4 of RFC 3629 defines it, decoded the way Go ranges over a string:
    a byte that starts no well-formed character is one replacement character, one byte wide. */
module Utf8 {
  type byte = b: int | 0 <= b < 256

  const RUNE_ERROR := '\U{FFFD}'

  function Encode(c: char): (e: seq<byte>)
    ensures 1 <= |e| <= 4
  {
    var r := c as int;
    if r < 0x80 then [r]
    else if r < 0x800 then [0xC0 + r / 64, 0x80 + r % 64]
    else if r < 0x1_0000 then [0xE0 + r / 4096, 0x80 + r / 64 % 64, 0x80 + r % 64]
    else [0xF0 + r / 262144, 0x80 + r / 4096 % 64, 0x80 + r / 64 % 64, 0x80 + r % 64]
  }

  predicate Tail(b: byte) {
    0x80 <= b <= 0xBF
  }

  /** How many bytes the well-formed character at the front of `s` takes; 0 if there is none. */
  function Lead(s: seq<byte>): (n: nat)
    ensures n <= 4 && n <= |s|
  {
    if s == [] then 0
    else if s[0] <= 0x7F then 1
    else if 0xC2 <= s[0] <= 0xDF && |s| >= 2 && Tail(s[1]) then 2
    else if |s| >= 3 && Tail(s[2]) &&
            (|| (s[0] == 0xE0 && 0xA0 <= s[1] <= 0xBF)
             || (0xE1 <= s[0] <= 0xEC && Tail(s[1]))
             || (s[0] == 0xED && 0x80 <= s[1] <= 0x9F)
             || (0xEE <= s[0] <= 0xEF && Tail(s[1]))) then 3
    else if |s| >= 4 && Tail(s[2]) && Tail(s[3]) &&
            (|| (s[0] == 0xF0 && 0x90 <= s[1] <= 0xBF)
             || (0xF1 <= s[0] <= 0xF3 && Tail(s[1]))
             || (s[0] == 0xF4 && 0x80 <= s[1] <= 0x8F)) then 4
    else 0
  }

  /** utf8.DecodeRuneInString on a non-empty string. */
  function DecodeFirst(s: seq<byte>): (d: (char, nat))
    requires s != []
    ensures 1 <= d.1 <= |s|
    ensures d.1 == if Lead(s) == 0 then 1 else Lead(s)
  {
    var n := Lead(s);
    if n == 0 then (RUNE_ERROR, 1)
    else (Scalar(s[..n]) as char, n)
  }

  /** The payload bits of a well-formed character. */
  function Scalar(e: seq<byte>): (r: int)
    requires e != [] && Lead(e) == |e|
    ensures 0 <= r < 0xD800 || 0xE000 <= r < 0x11_0000
  {
    match |e|
    case 1 => e[0] as int
    case 2 => Payload(e[0], 0xC0, 64) + Payload(e[1], 0x80, 1)
    case 3 => Payload(e[0], 0xE0, 4096) + Payload(e[1], 0x80, 64) + Payload(e[2], 0x80, 1)
    case _ => Payload(e[0], 0xF0, 262144) + Payload(e[1], 0x80, 4096) + Payload(e[2], 0x80, 64) + Payload(e[3], 0x80, 1)
  }

  function Payload(b: byte, marker: int, weight: int): int {
    (b as int - marker) * weight
  }

  predicate WellFormed(s: seq<byte>) {
    s == [] || (Lead(s) > 0 && WellFormed(s[Lead(s)..]))
  }

  function Runes(s: seq<byte>): string {
    if s == [] then ""
    else var (c, n) := DecodeFirst(s); [c] + Runes(s[n..])
  }

  function Bytes(t: string): seq<byte> {
    if t == "" then [] else Encode(t[0]) + Bytes(t[1..])
  }

  lemma DivTwice(r: nat, d: nat)
    requires d == 64 || d == 4096
    ensures r / (d * 64) == r / d / 64
  {
    var q, m := r / d, r % d;
    assert r == q / 64 * (d * 64) + (q % 64 * d + m);
  }

  /** Base-64 digits of a scalar value. */
  lemma Digits(r: nat)
    ensures r == r / 64 * 64 + r % 64
    ensures r == r / 4096 * 4096 + r / 64 % 64 * 64 + r % 64
    ensures r == r / 262144 * 262144 + r / 4096 % 64 * 4096 + r / 64 % 64 * 64 + r % 64
  {
    DivTwice(r, 64);
    DivTwice(r, 4096);
  }

  lemma ScalarOfEncoded(c: char)
    ensures Lead(Encode(c)) == |Encode(c)|
    ensures Scalar(Encode(c)) == c as int
  {
    Digits(c as int);
  }

  /** Whether the front is a well-formed character depends only on the bytes it takes. */
  lemma LeadIsLocal(e: seq<byte>, rest: seq<byte>)
    requires e != [] && Lead(e) == |e|
    ensures Lead(e + rest) == |e|
  {
    var s := e + rest;
    assert forall i :: 0 <= i < |e| ==> s[i] == e[i];
  }

  lemma DecodeEncoded(c: char, rest: seq<byte>)
    ensures Lead(Encode(c) + rest) == |Encode(c)|
    ensures DecodeFirst(Encode(c) + rest) == (c, |Encode(c)|)
  {
    var e := Encode(c);
    ScalarOfEncoded(c);
    LeadIsLocal(e, rest);
    assert (e + rest)[..|e|] == e;
  }

  /** Base-64 digits are unique. */
  lemma DigitsAreUnique(a: nat, b: nat, c: nat, d: nat)
    requires b < 64 && c < 64 && d < 64
    ensures var r := a * 262144 + b * 4096 + c * 64 + d;
            r % 64 == d && r / 64 % 64 == c && r / 4096 % 64 == b && r / 262144 == a
  {
    var r := a * 262144 + b * 4096 + c * 64 + d;
    DivTwice(r, 64);
    DivTwice(r, 4096);
    assert r == (a * 4096 + b * 64 + c) * 64 + d;
    assert r / 64 == (a * 64 + b) * 64 + c;
    assert r / 4096 == a * 64 + b;
  }

  lemma EncodedOfTwo(e: seq<byte>)
    requires |e| == 2 && Lead(e) == 2
    ensures Encode(Scalar(e) as char) == e
  {
    DigitsAreUnique(0, 0, e[0] as int - 0xC0, e[1] as int - 0x80);
  }

  lemma EncodedOfThree(e: seq<byte>)
    requires |e| == 3 && Lead(e) == 3
    ensures Encode(Scalar(e) as char) == e
  {
    DigitsAreUnique(0, e[0] as int - 0xE0, e[1] as int - 0x80, e[2] as int - 0x80);
  }

  lemma EncodedOfFour(e: seq<byte>)
    requires |e| == 4 && Lead(e) == 4
    ensures Encode(Scalar(e) as char) == e
  {
    DigitsAreUnique(e[0] as int - 0xF0, e[1] as int - 0x80, e[2] as int - 0x80, e[3] as int - 0x80);
  }

  lemma EncodedOfScalar(e: seq<byte>)
    requires e != [] && Lead(e) == |e|
    ensures Encode(Scalar(e) as char) == e
  {
    match |e| {
      case 1 =>
      case 2 => EncodedOfTwo(e);
      case 3 => EncodedOfThree(e);
      case _ => EncodedOfFour(e);
    }
  }

  lemma EncodeDecoded(s: seq<byte>)
    requires Lead(s) > 0
    ensures Encode(DecodeFirst(s).0) == s[..Lead(s)]
  {
    EncodedOfScalar(s[..Lead(s)]);
  }

  /** Encoding then decoding gives every text back, and the encoding is well formed. */
  lemma {:induction false} RunesOfBytes(t: string)
    ensures Runes(Bytes(t)) == t
    ensures WellFormed(Bytes(t))
  {
    if t != "" {
      var rest := Bytes(t[1..]);
      DecodeEncoded(t[0], rest);
      assert (Encode(t[0]) + rest)[|Encode(t[0])|..] == rest;
      RunesOfBytes(t[1..]);
    }
  }

  /** Decoding then encoding gives a byte string back exactly when it is well formed. */
  lemma {:induction false} BytesOfRunes(s: seq<byte>)
    ensures Bytes(Runes(s)) == s <==> WellFormed(s)
  {
    if WellFormed(s) {
      WellFormedIsFixed(s);
    } else {
      RunesOfBytes(Runes(s));
    }
  }

  lemma BytesCons(c: char, t: string)
    ensures Bytes([c] + t) == Encode(c) + Bytes(t)
  {
    assert ([c] + t)[1..] == t;
  }

  lemma {:induction false} WellFormedIsFixed(s: seq<byte>)
    requires WellFormed(s)
    ensures Bytes(Runes(s)) == s
  {
    if s != [] {
      var c, n := DecodeFirst(s).0, Lead(s);
      EncodeDecoded(s);
      WellFormedIsFixed(s[n..]);
      BytesCons(c, Runes(s[n..]));
      TakeDrop(s, n);
    }
  }

  lemma TakeDrop(s: seq<byte>, n: nat)
    requires n <= |s|
    ensures s[..n] + s[n..] == s
  {
  }

  lemma {:induction false} BytesConcat(a: string, b: string)
    ensures Bytes(a + b) == Bytes(a) + Bytes(b)
  {
    if a == "" {
      assert a + b == b;
    } else {
      assert (a + b)[1..] == a[1..] + b;
      BytesConcat(a[1..], b);
    }
  }
}
