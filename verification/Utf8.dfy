/** UTF-8 as `str::as_bytes` and `str::from_utf8` use it: the shortest form
    only, no surrogates (RFC 3629, sections 3 and 4). */
module Utf8 {
  import opened Machine
  import opened Wrappers

  // Code points as base-64 digits, most significant first.
  function Two(a: nat, b: nat): nat { a * 64 + b }
  function Three(a: nat, b: nat, c: nat): nat { Two(a, b) * 64 + c }
  function Four(a: nat, b: nat, c: nat, d: nat): nat { Three(a, b, c) * 64 + d }

  function Tail(n: nat): byte { 0x80 + n % 64 }

  function EncodeChar(c: char): (b: seq<byte>)
    ensures 1 <= |b| <= 4
  {
    var n := c as int;
    if n < 0x80 then [n]
    else if n < 0x800 then [0xC0 + n / 64, Tail(n)]
    else if n < 0x1_0000 then [0xE0 + n / 64 / 64, Tail(n / 64), Tail(n)]
    else [0xF0 + n / 64 / 64 / 64, Tail(n / 64 / 64), Tail(n / 64), Tail(n)]
  }

  function Encode(s: string): seq<byte> {
    if s == [] then [] else EncodeChar(s[0]) + Encode(s[1..])
  }

  predicate Continues(b: seq<byte>, i: nat) {
    i < |b| && 0x80 <= b[i] < 0xC0
  }

  function Digit(b: seq<byte>, i: nat): (d: nat)
    requires Continues(b, i)
    ensures d < 64
  {
    b[i] as int - 0x80
  }

  // The first character of `b`, if one stands there.
  function DecodeChar(b: seq<byte>): Option<char> {
    if b == [] then None
    else
      var first := b[0] as int;
      if first < 0x80 then Some(first as char)
      else if 0xC2 <= first < 0xE0 && Continues(b, 1) then
        Some(Two(first - 0xC0, Digit(b, 1)) as char)
      else if 0xE0 <= first < 0xF0 && Continues(b, 1) && Continues(b, 2) then
        var n := Three(first - 0xE0, Digit(b, 1), Digit(b, 2));
        if n < 0x800 || 0xD800 <= n < 0xE000 then None else Some(n as char)
      else if 0xF0 <= first < 0xF5 && Continues(b, 1) && Continues(b, 2) && Continues(b, 3) then
        var n := Four(first - 0xF0, Digit(b, 1), Digit(b, 2), Digit(b, 3));
        if n < 0x1_0000 || 0x11_0000 <= n then None else Some(n as char)
      else None
  }

  function Decode(b: seq<byte>): Option<string>
    decreases |b|
  {
    if b == [] then Some([])
    else
      match DecodeChar(b)
      case None => None
      case Some(c) =>
        CharOfBytes(b);
        match Decode(b[|EncodeChar(c)|..])
        case None => None
        case Some(s) => Some([c] + s)
  }

  lemma {:induction false} LastDigit(n: nat)
    ensures n == Two(n / 64, n % 64)
    ensures forall a: nat, d: nat :: n == Two(a, d) && d < 64 ==> a == n / 64 && d == n % 64
  {
  }

  lemma {:induction false} Digits(n: nat)
    ensures n == Two(n / 64, n % 64)
    ensures n == Three(n / 64 / 64, n / 64 % 64, n % 64)
    ensures n == Four(n / 64 / 64 / 64, n / 64 / 64 % 64, n / 64 % 64, n % 64)
  {
    LastDigit(n);
    LastDigit(n / 64);
    LastDigit(n / 64 / 64);
  }

  lemma {:induction false} DigitsAreUnique(a: nat, b: nat, c: nat, d: nat)
    requires b < 64 && c < 64 && d < 64
    ensures Two(a, b) / 64 == a && Two(a, b) % 64 == b
    ensures Three(a, b, c) / 64 == Two(a, b) && Three(a, b, c) % 64 == c
    ensures Four(a, b, c, d) / 64 == Three(a, b, c) && Four(a, b, c, d) % 64 == d
  {
  }

  lemma {:induction false} CharOfTwo(b: seq<byte>)
    requires |b| > 0 && 0xC2 <= b[0] < 0xE0 && DecodeChar(b).Some?
    ensures EncodeChar(DecodeChar(b).value) <= b
  {
    DigitsAreUnique(b[0] as int - 0xC0, Digit(b, 1), 0, 0);
    hide Three, Four;
  }

  lemma {:induction false} CharOfThree(b: seq<byte>)
    requires |b| > 0 && 0xE0 <= b[0] < 0xF0 && DecodeChar(b).Some?
    ensures EncodeChar(DecodeChar(b).value) <= b
  {
    DigitsAreUnique(b[0] as int - 0xE0, Digit(b, 1), Digit(b, 2), 0);
    hide Two, Three, Four;
  }

  lemma {:induction false} CharOfFour(b: seq<byte>)
    requires |b| > 0 && 0xF0 <= b[0] && DecodeChar(b).Some?
    ensures EncodeChar(DecodeChar(b).value) <= b
  {
    DigitsAreUnique(b[0] as int - 0xF0, Digit(b, 1), Digit(b, 2), Digit(b, 3));
    hide Two, Three, Four;
  }

  // A character is read exactly where its own bytes stand.
  lemma {:induction false} CharOfBytes(b: seq<byte>)
    ensures DecodeChar(b).Some? ==> EncodeChar(DecodeChar(b).value) <= b
  {
    if DecodeChar(b).Some? && b[0] >= 0x80 {
      if b[0] < 0xE0 {
        CharOfTwo(b);
      } else if b[0] < 0xF0 {
        CharOfThree(b);
      } else {
        CharOfFour(b);
      }
    }
    hide Two, Three, Four;
  }

  // Only the character's own bytes are looked at.
  lemma {:induction false} MoreBytesDoNotMatter(b: seq<byte>, rest: seq<byte>)
    requires DecodeChar(b).Some?
    ensures DecodeChar(b + rest) == DecodeChar(b)
  {
    hide Two, Three, Four;
    var all := b + rest;
    assert all[0] == b[0];
    assert |b| > 1 ==> all[1] == b[1];
    assert |b| > 2 ==> all[2] == b[2];
    assert |b| > 3 ==> all[3] == b[3];
  }

  lemma {:induction false} TailDigit(b: seq<byte>, i: nat, n: nat)
    requires i < |b| && b[i] == Tail(n)
    ensures Continues(b, i) && Digit(b, i) == n % 64
  {
  }

  lemma {:induction false} CharSurvives(c: char)
    ensures DecodeChar(EncodeChar(c)) == Some(c)
  {
    var n, b := c as int, EncodeChar(c);
    Digits(n);
    if n >= 0x80 {
      hide Two, Three, Four, Tail, Digit, Continues;
      if n < 0x800 {
        TailDigit(b, 1, n);
      } else if n < 0x1_0000 {
        TailDigit(b, 1, n / 64);
        TailDigit(b, 2, n);
      } else {
        TailDigit(b, 1, n / 64 / 64);
        TailDigit(b, 2, n / 64);
        TailDigit(b, 3, n);
      }
    }
  }

  lemma {:induction false} BytesOfChar(c: char, rest: seq<byte>)
    ensures DecodeChar(EncodeChar(c) + rest) == Some(c)
  {
    hide EncodeChar, DecodeChar;
    CharSurvives(c);
    MoreBytesDoNotMatter(EncodeChar(c), rest);
  }

  lemma {:induction false} TextSurvives(s: string)
    ensures Decode(Encode(s)) == Some(s)
  {
    if s != [] {
      TextSurvives(s[1..]);
      var b, first := Encode(s), EncodeChar(s[0]);
      BytesOfChar(s[0], Encode(s[1..]));
      hide DecodeChar, EncodeChar;
      assert b[|first|..] == Encode(s[1..]);
      assert s == [s[0]] + s[1..];
    }
  }

  // What is accepted is exactly what some text encodes to.
  lemma {:induction false} OnlyTextIsRead(b: seq<byte>)
    requires Decode(b).Some?
    ensures Encode(Decode(b).value) == b
    decreases |b|
  {
    if b != [] {
      var c := DecodeChar(b).value;
      CharOfBytes(b);
      hide DecodeChar, EncodeChar;
      var first := EncodeChar(c);
      var rest := b[|first|..];
      assert b == first + rest;
      var s := Decode(rest).value;
      assert Decode(b) == Some([c] + s);
      OnlyTextIsRead(rest);
      hide Decode;
      assert ([c] + s)[1..] == s;
    }
  }
}
