/** What UTF-8 is: the encodings of Unicode scalar values, one after the other. */
module Unicode {
  import opened Bytes

  /** A code point that is not a surrogate. */
  predicate Scalar(c: nat) {
    c < 0xD800 || 0xE000 <= c < 0x11_0000
  }

  /** The one encoding of a scalar value, in one to four bytes. */
  function Encoded(c: nat): seq<byte>
    requires Scalar(c)
  {
    if c < 0x80 then [c]
    else if c < 0x800 then [0xC0 + c / 0x40, 0x80 + c % 0x40]
    else if c < 0x1_0000 then [0xE0 + c / 0x40 / 0x40, 0x80 + c / 0x40 % 0x40, 0x80 + c % 0x40]
    else [0xF0 + c / 0x40 / 0x40 / 0x40, 0x80 + c / 0x40 / 0x40 % 0x40, 0x80 + c / 0x40 % 0x40, 0x80 + c % 0x40]
  }

  function EncodedAll(cs: seq<nat>): seq<byte>
    requires forall i :: 0 <= i < |cs| ==> Scalar(cs[i])
  {
    if cs == [] then [] else Encoded(cs[0]) + EncodedAll(cs[1..])
  }

  predicate Encodes(s: seq<byte>, cs: seq<nat>) {
    (forall i :: 0 <= i < |cs| ==> Scalar(cs[i])) && s == EncodedAll(cs)
  }

  /** Exactly those byte sequences are UTF-8. */
  lemma Utf8IsScalars(s: seq<byte>)
    ensures Utf8(s) <==> exists cs :: Encodes(s, cs)
  {
    if Utf8(s) {
      var cs := ScalarsOf(s);
    }
    if exists cs :: Encodes(s, cs) {
      var cs :| Encodes(s, cs);
      ScalarsAreUtf8(cs);
    }
  }

  lemma {:induction false} ScalarsOf(s: seq<byte>) returns (cs: seq<nat>)
    requires Utf8(s)
    ensures Encodes(s, cs)
  {
    hide Utf8Step, Encoded;
    if s == [] {
      cs := [];
    } else {
      var n := Utf8Step(s);
      var c := Decoded(s);
      var rest := ScalarsOf(s[n..]);
      cs := [c] + rest;
      assert cs[1..] == rest && s == s[..n] + s[n..];
    }
  }

  lemma {:induction false} ScalarsAreUtf8(cs: seq<nat>)
    requires forall i :: 0 <= i < |cs| ==> Scalar(cs[i])
    ensures Utf8(EncodedAll(cs))
  {
    hide Utf8Step, Encoded, Scalar;
    if cs != [] {
      var first, rest := Encoded(cs[0]), EncodedAll(cs[1..]);
      ScalarsAreUtf8(cs[1..]);
      StepOver(cs[0], rest);
      assert (first + rest)[|first|..] == rest;
    }
  }

  lemma StepOver(c: nat, rest: seq<byte>)
    requires Scalar(c)
    ensures Encoded(c) != [] && Utf8Step(Encoded(c) + rest) == |Encoded(c)|
  {
  }

  lemma Decoded(s: seq<byte>) returns (c: nat)
    requires s != [] && Utf8Step(s) > 0
    ensures Scalar(c) && Encoded(c) == s[..Utf8Step(s)]
  {
    var n := Utf8Step(s);
    if n == 1 {
      c := s[0];
    } else if n == 2 {
      c := s[0] as int % 0x20 * 0x40 + s[1] as int % 0x40;
    } else if n == 3 {
      c := Three(s);
    } else {
      c := Four(s);
    }
  }

  lemma Three(s: seq<byte>) returns (c: nat)
    requires s != [] && Utf8Step(s) == 3
    ensures Scalar(c) && Encoded(c) == s[..3]
  {
    hide Joined;
    assert 0 <= s[0] as int - 0xE0 < 0x10 && forall i :: 1 <= i < 3 ==> 0x80 <= s[i] < 0xC0;
    var c1 := Joined(s[0] as int - 0xE0, s[1]);
    assert 0x20 <= c1 < 0x400 && !(0x360 <= c1 < 0x380);
    hide Utf8Step;
    c := Joined(c1, s[2]);
  }

  lemma Four(s: seq<byte>) returns (c: nat)
    requires s != [] && Utf8Step(s) == 4
    ensures Scalar(c) && Encoded(c) == s[..4]
  {
    hide Joined;
    assert 0 <= s[0] as int - 0xF0 <= 4 && forall i :: 1 <= i < 4 ==> 0x80 <= s[i] < 0xC0;
    var c1 := Joined(s[0] as int - 0xF0, s[1]);
    assert 0x10 <= c1 < 0x110;
    hide Utf8Step;
    var c2 := Joined(c1, s[2]);
    c := Joined(c2, s[3]);
  }

  /** Six more bits. */
  function Joined(high: nat, b: byte): (c: nat)
    requires 0x80 <= b < 0xC0
    ensures c / 0x40 == high && 0x80 + c % 0x40 == b && 0x40 * high <= c < 0x40 * (high + 1)
  {
    high * 0x40 + (b as int - 0x80)
  }
}
