/** The UTF-8 validator of avahi-common/utf8.c. */
module Utf8 {
  import opened Bytes

  predicate Continuation(b: byte) {
    0x80 <= b < 0xC0
  }

  /** UNICODE_VALID: in range, not a surrogate, not a non-character. */
  predicate CodePoint(c: nat) {
    && c < 0x110000
    && c / 0x800 != 27
    && !(0xFDD0 <= c <= 0xFDEF)
    && c % 0x1_0000 / 2 != 0x7FFF
  }

  function Value2(a: nat, b: nat): nat {
    a % 0x20 * 0x40 + b % 0x40
  }

  function Value3(a: nat, b: nat, c: nat): nat {
    a % 0x10 * 0x1000 + b % 0x40 * 0x40 + c % 0x40
  }

  function Value4(a: nat, b: nat, c: nat, d: nat): nat {
    a % 8 * 0x4_0000 + b % 0x40 * 0x1000 + c % 0x40 * 0x40 + d % 0x40
  }

  /** Length of the encoded character `s` starts with, 0 when it starts with none. */
  function CharLength(s: seq<byte>): (n: nat)
    requires s != []
    ensures n <= |s| && n <= 4
  {
    if s[0] < 0x80 then
      1
    else if 0xC0 <= s[0] < 0xE0 then
      if s[0] / 2 % 0x10 != 0 && |s| >= 2 && Continuation(s[1]) then 2 else 0
    else if 0xE0 <= s[0] < 0xF0 then
      if |s| >= 3 && Continuation(s[1]) && Continuation(s[2]) then
        var v := Value3(s[0], s[1], s[2]);
        if v >= 0x800 && CodePoint(v) then 3 else 0
      else
        0
    else if 0xF0 <= s[0] < 0xF8 then
      if |s| >= 4 && Continuation(s[1]) && Continuation(s[2]) && Continuation(s[3]) then
        var v := Value4(s[0], s[1], s[2], s[3]);
        if v >= 0x1_0000 && CodePoint(v) then 4 else 0
      else
        0
    else
      0
  }

  /** `s` is a sequence of encoded characters. */
  predicate Valid(s: seq<byte>) {
    s == [] || (CharLength(s) > 0 && Valid(s[CharLength(s)..]))
  }

  /** The CONTINUATION_CHAR steps: is there one more byte of the character at p? */
  method Continue(s: seq<byte>, p: nat, val: nat) returns (ok: bool, v: nat)
    ensures ok <==> p < |s| && Continuation(s[p])
    ensures ok ==> v == val * 0x40 + s[p] % 0x40
  {
    ok, v := p < |s| && 0x80 <= s[p] < 0xC0, val;
    if ok {
      v := val * 0x40 + s[p] % 0x40;
    }
  }

  /** avahi_utf8_valid: one pass over the string, one character a round. */
  method Validate(s: seq<byte>) returns (ok: bool)
    requires Text(s)
    ensures ok == Valid(s)
  {
    var p := 0;
    while p < |s|
      invariant 0 <= p <= |s|
      invariant Valid(s) == Valid(s[p..])
    {
      ghost var rest := s[p..];
      var n;
      ok, n := ValidateChar(s, p);
      if !ok {
        return false;
      }
      assert rest[n..] == s[p + n..];
      p := p + n;
    }
    return true;
  }

  /** One round of the loop: the character at p, of n bytes. */
  method ValidateChar(s: seq<byte>, p: nat) returns (ok: bool, n: nat)
    requires p < |s|
    ensures ok <==> CharLength(s[p..]) > 0
    ensures ok ==> n == CharLength(s[p..])
  {
    var b, val, min := s[p], 0, 0;
    n := 1;
    if b < 0x80 {
      return true, 1;
    }
    if 0xC0 <= b < 0xE0 {
      if b / 2 % 0x10 == 0 {
        return false, n;
      }
      ok, val := Continue(s, p + 1, 0);
      return ok, 2;
    }
    if 0xE0 <= b < 0xF0 {
      min, val := 0x800, b % 0x10;
    } else if 0xF0 <= b < 0xF8 {
      min, val := 0x1_0000, b % 8;
      ok, val := Continue(s, p + n, val);
      if !ok {
        return;
      }
      n := n + 1;
    } else {
      return false, n;
    }
    ok, val := Continue(s, p + n, val);
    if !ok {
      return;
    }
    ok, val := Continue(s, p + n + 1, val);
    if !ok {
      return;
    }
    n := n + 2;
    ok := val >= min && CodePoint(val);
  }

  /** Appending to a string does not change the character it starts with. */
  lemma CharLengthExtend(s: seq<byte>, t: seq<byte>)
    requires s != [] && CharLength(s) > 0
    ensures CharLength(s + t) == CharLength(s)
  {
  }

  lemma {:induction false} ValidConcat(s: seq<byte>, t: seq<byte>)
    requires Valid(s)
    ensures Valid(s + t) == Valid(t)
  {
    if s == [] {
      assert s + t == t;
    } else {
      var n := CharLength(s);
      CharLengthExtend(s, t);
      assert (s + t)[n..] == s[n..] + t;
      ValidConcat(s[n..], t);
    }
  }

  lemma {:induction false} AsciiValid(s: seq<byte>)
    requires forall i :: 0 <= i < |s| ==> s[i] < 0x80
    ensures Valid(s)
  {
    if s != [] {
      AsciiValid(s[1..]);
    }
  }

  // ---------- what the validator accepts: the encodings of code points (RFC 3629) ----------

  /** The shortest encoding of a code point (section 3 of RFC 3629). */
  function Encode(c: nat): (e: seq<byte>)
    requires c < 0x110000
    ensures 1 <= |e| <= 4
  {
    var d := c / 0x40;
    var e := d / 0x40;
    if c < 0x80 then [c]
    else if c < 0x800 then [0xC0 + d, 0x80 + c % 0x40]
    else if c < 0x1_0000 then [0xE0 + e, 0x80 + d % 0x40, 0x80 + c % 0x40]
    else [0xF0 + e / 0x40, 0x80 + e % 0x40, 0x80 + d % 0x40, 0x80 + c % 0x40]
  }

  predicate CodePoints(cs: seq<nat>) {
    forall i :: 0 <= i < |cs| ==> CodePoint(cs[i])
  }

  function EncodeAll(cs: seq<nat>): seq<byte>
    requires CodePoints(cs)
  {
    if cs == [] then [] else Encode(cs[0]) + EncodeAll(cs[1..])
  }

  /** The code point of the character a string starts with. */
  function CharValue(s: seq<byte>): (c: nat)
    requires s != [] && CharLength(s) > 0
  {
    if CharLength(s) == 1 then s[0]
    else if CharLength(s) == 2 then Value2(s[0], s[1])
    else if CharLength(s) == 3 then Value3(s[0], s[1], s[2])
    else Value4(s[0], s[1], s[2], s[3])
  }

  lemma EncodedChar(c: nat, t: seq<byte>)
    requires CodePoint(c)
    ensures CharLength(Encode(c) + t) == |Encode(c)| && CharValue(Encode(c) + t) == c
  {
    Bits(c);
    Below(c);
    hide Encode, CodePoint, Value3, Value4;
    var e := Encode(c);
    assert forall i :: 0 <= i < |e| ==> (e + t)[i] == e[i];
  }

  /** The bytes of an encoding are what CharLength looks for. */
  lemma Bits(c: nat)
    requires CodePoint(c)
    ensures c < 0x110000
    ensures var e := Encode(c);
            && (|e| == 1 ==> e[0] == c < 0x80)
            && (|e| == 2 ==> 0xC0 <= e[0] < 0xE0 && e[0] / 2 % 0x10 != 0 && Continuation(e[1]) && Value2(e[0], e[1]) == c)
            && (|e| == 3 ==> 0xE0 <= e[0] < 0xF0 && Continuation(e[1]) && Continuation(e[2])
                             && Value3(e[0], e[1], e[2]) == c >= 0x800)
            && (|e| == 4 ==> 0xF0 <= e[0] < 0xF8 && Continuation(e[1]) && Continuation(e[2]) && Continuation(e[3])
                             && Value4(e[0], e[1], e[2], e[3]) == c >= 0x1_0000)
  {
    hide *;
    Below(c);
    if c < 0x80 {
      Bits1(c);
    } else if c < 0x800 {
      Bits2(c);
    } else if c < 0x1_0000 {
      Bits3(c);
    } else {
      Bits4(c);
    }
  }

  lemma Bits1(c: nat)
    requires c < 0x80
    ensures Encode(c) == [c]
  {
  }

  lemma Bits2(c: nat)
    requires 0x80 <= c < 0x800
    ensures var s := Encode(c);
            && |s| == 2 && 0xC0 <= s[0] < 0xE0 && s[0] / 2 % 0x10 != 0 && Continuation(s[1]) && Value2(s[0], s[1]) == c
  {
    var d := c / 0x40;
    assert (0xC0 + d) % 0x20 == d && (0x80 + c % 0x40) % 0x40 == c % 0x40;
  }

  lemma Bits3(c: nat)
    requires 0x800 <= c < 0x1_0000
    ensures var s := Encode(c);
            && |s| == 3 && 0xE0 <= s[0] < 0xF0 && Continuation(s[1]) && Continuation(s[2]) && Value3(s[0], s[1], s[2]) == c
  {
    var d := c / 0x40;
    var e := d / 0x40;
    assert (0xE0 + e) % 0x10 == e && (0x80 + d % 0x40) % 0x40 == d % 0x40 && (0x80 + c % 0x40) % 0x40 == c % 0x40;
  }

  lemma Bits4(c: nat)
    requires 0x1_0000 <= c < 0x110000
    ensures var s := Encode(c);
            && |s| == 4 && 0xF0 <= s[0] < 0xF8 && Continuation(s[1]) && Continuation(s[2]) && Continuation(s[3])
            && Value4(s[0], s[1], s[2], s[3]) == c
  {
    var d := c / 0x40;
    var e := d / 0x40;
    var f := e / 0x40;
    assert (0xF0 + f) % 8 == f && (0x80 + e % 0x40) % 0x40 == e % 0x40;
    assert (0x80 + d % 0x40) % 0x40 == d % 0x40 && (0x80 + c % 0x40) % 0x40 == c % 0x40;
  }

  lemma CharEncodes(s: seq<byte>)
    requires s != [] && CharLength(s) > 0
    ensures CodePoint(CharValue(s)) && CharValue(s) < 0x110000 && Encode(CharValue(s)) == s[..CharLength(s)]
  {
    hide *;
    var n := CharLength(s);
    CharIs(s);
    if n == 1 {
      Parts1(s[0]);
    } else if n == 2 {
      Parts2(s[0], s[1]);
    } else if n == 3 {
      CharIs3(s);
      Parts3(s[0], s[1], s[2]);
    } else if n == 4 {
      CharIs4(s);
      Below(CharValue(s));
      Parts4(s[0], s[1], s[2], s[3]);
    }
  }

  lemma CharIs(s: seq<byte>)
    requires s != [] && CharLength(s) > 0
    ensures CharLength(s) == 1 ==> s[0] < 0x80 && CharValue(s) == s[0]
    ensures CharLength(s) == 2 ==> 0xC0 <= s[0] < 0xE0 && s[0] / 2 % 0x10 != 0 && 0x80 <= s[1] < 0xC0
                                   && CharValue(s) == Value2(s[0], s[1])
    ensures CharLength(s) >= 3 ==> 0x80 <= s[1] < 0xC0 && 0x80 <= s[2] < 0xC0
    ensures CharLength(s) == 4 ==> 0x80 <= s[3] < 0xC0
  {
    hide Value2, Value3, Value4, CodePoint;
  }

  lemma Parts1(a: nat)
    requires a < 0x80
    ensures CodePoint(a) && Encode(a) == [a]
  {
  }

  lemma CharIs3(s: seq<byte>)
    requires s != [] && CharLength(s) == 3
    ensures 0xE0 <= s[0] < 0xF0 && Continuation(s[1]) && Continuation(s[2])
    ensures Value3(s[0], s[1], s[2]) >= 0x800 && CodePoint(Value3(s[0], s[1], s[2])) && CharValue(s) == Value3(s[0], s[1], s[2])
  {
    hide Value3, CodePoint;
  }

  lemma CharIs4(s: seq<byte>)
    requires s != [] && CharLength(s) == 4
    ensures 0xF0 <= s[0] < 0xF8 && Continuation(s[1]) && Continuation(s[2]) && Continuation(s[3])
    ensures var v := Value4(s[0], s[1], s[2], s[3]); v >= 0x1_0000 && CodePoint(v) && CharValue(s) == v
  {
    hide Value4, CodePoint;
  }

  lemma Six(q: nat, r: nat)
    requires r < 0x40
    ensures (q * 0x40 + r) / 0x40 == q && (q * 0x40 + r) % 0x40 == r
  {
  }

  lemma Parts2(a: nat, b: nat)
    requires 0xC0 <= a < 0xE0 && a / 2 % 0x10 != 0 && 0x80 <= b < 0xC0
    ensures var v := Value2(a, b); 0x80 <= v < 0x800 && CodePoint(v) && Encode(v) == [a, b]
  {
    hide CodePoint;
    Six(a - 0xC0, b - 0x80);
    assert Value2(a, b) == (a - 0xC0) * 0x40 + (b - 0x80);
    SmallPoint(Value2(a, b));
  }

  lemma SmallPoint(c: nat)
    requires c < 0x800
    ensures CodePoint(c)
  {
  }

  lemma Parts3(a: nat, b: nat, c: nat)
    requires 0xE0 <= a < 0xF0 && 0x80 <= b < 0xC0 && 0x80 <= c < 0xC0 && Value3(a, b, c) >= 0x800
    ensures Value3(a, b, c) < 0x1_0000 && Encode(Value3(a, b, c)) == [a, b, c]
  {
    Six(a - 0xE0, b - 0x80);
    Six((a - 0xE0) * 0x40 + (b - 0x80), c - 0x80);
    assert Value3(a, b, c) == ((a - 0xE0) * 0x40 + (b - 0x80)) * 0x40 + (c - 0x80);
  }

  lemma Parts4(a: nat, b: nat, c: nat, d: nat)
    requires 0xF0 <= a < 0xF8 && 0x80 <= b < 0xC0 && 0x80 <= c < 0xC0 && 0x80 <= d < 0xC0
    requires 0x1_0000 <= Value4(a, b, c, d) < 0x110000
    ensures Encode(Value4(a, b, c, d)) == [a, b, c, d]
  {
    var e := (a - 0xF0) * 0x40 + (b - 0x80);
    Six(a - 0xF0, b - 0x80);
    Six(e, c - 0x80);
    Six(e * 0x40 + (c - 0x80), d - 0x80);
    assert Value4(a, b, c, d) == (e * 0x40 + (c - 0x80)) * 0x40 + (d - 0x80);
  }

  /** The code points of a valid string. */
  function Decoded(s: seq<byte>): (cs: seq<nat>)
    requires Valid(s)
  {
    if s == [] then [] else [CharValue(s)] + Decoded(s[CharLength(s)..])
  }

  lemma Below(c: nat)
    requires CodePoint(c)
    ensures c < 0x110000
  {
  }

  lemma EncodeCons(c: nat, cs: seq<nat>)
    requires CodePoint(c) && CodePoints(cs)
    ensures CodePoints([c] + cs) && EncodeAll([c] + cs) == Encode(c) + EncodeAll(cs)
  {
    hide CodePoint, Encode;
    assert ([c] + cs)[1..] == cs;
  }

  lemma {:induction false} DecodedEncodes(s: seq<byte>)
    requires Valid(s)
    ensures CodePoints(Decoded(s)) && EncodeAll(Decoded(s)) == s
  {
    hide CharLength, CharValue, Encode, CodePoint, EncodeAll, CodePoints;
    if s == [] {
      EncodeNone();
    } else {
      var n := CharLength(s);
      CharEncodes(s);
      Below(CharValue(s));
      DecodedEncodes(s[n..]);
      EncodeCons(CharValue(s), Decoded(s[n..]));
      assert s[..n] + s[n..] == s;
    }
  }

  lemma EncodeNone()
    ensures CodePoints([]) && EncodeAll([]) == []
  {
  }

  /** Encoding code points gives a valid string, and no other code points have the same encoding. */
  lemma {:induction false} EncodedValid(cs: seq<nat>)
    requires CodePoints(cs)
    ensures Valid(EncodeAll(cs)) && Decoded(EncodeAll(cs)) == cs
  {
    if cs != [] {
      var e, more := Encode(cs[0]), EncodeAll(cs[1..]);
      EncodedChar(cs[0], more);
      EncodedValid(cs[1..]);
      hide CharLength, CharValue, Encode, CodePoint;
      assert (e + more)[|e|..] == more;
      assert [cs[0]] + cs[1..] == cs;
    }
  }

  /** The validator accepts exactly the encodings of sequences of code points: no overlong form, no
      surrogate, no non-character, nothing cut short. */
  lemma ValidExactly(s: seq<byte>)
    ensures Valid(s) <==> exists cs :: CodePoints(cs) && EncodeAll(cs) == s
  {
    if Valid(s) {
      DecodedEncodes(s);
    }
    if cs :| CodePoints(cs) && EncodeAll(cs) == s {
      EncodedValid(cs);
    }
  }
}
