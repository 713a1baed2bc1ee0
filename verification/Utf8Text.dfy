/** Which byte texts are UTF-8. */
module Utf8Text {
  import opened Bytes
  import opened JsMask

  // The encoding of section 3 of RFC 3629, against the byte patterns of its section 4 that
  // `JsMask` uses.

  /** A Unicode scalar value: a code point that is no surrogate. */
  predicate IsScalar(n: nat) {
    n < 0xD800 || 0xE000 <= n < 0x11_0000
  }

  /** A byte that goes on with the next six bits. */
  function Tail(n: nat): byte
    requires n < 64
  {
    (0x80 + n) as byte
  }

  function Encode(n: nat): seq<byte>
    requires IsScalar(n)
  {
    if n < 0x80 then [n as byte]
    else if n < 0x800 then [(0xC0 + n / 64) as byte, Tail(n % 64)]
    else if n < 0x1_0000 then [(0xE0 + n / 4096) as byte, Tail(n / 64 % 64), Tail(n % 64)]
    else [(0xF0 + n / 262144) as byte, Tail(n / 4096 % 64), Tail(n / 64 % 64), Tail(n % 64)]
  }

  predicate AreScalars(scalars: seq<nat>) {
    forall i :: 0 <= i < |scalars| ==> IsScalar(scalars[i])
  }

  function EncodeAll(scalars: seq<nat>): seq<byte>
    requires AreScalars(scalars)
  {
    if scalars == [] then [] else Encode(scalars[0]) + EncodeAll(scalars[1..])
  }

  lemma EncodedIsChar(n: nat, rest: seq<byte>)
    requires IsScalar(n)
    ensures CharLength(Encode(n) + rest) == |Encode(n)|
  {
    var s := Encode(n) + rest;
    if n < 0x80 {
    } else if n < 0x800 {
      assert s[0] == (0xC0 + n / 64) as byte && s[1] == Tail(n % 64);
    } else if n < 0x1_0000 {
      assert s[0] == (0xE0 + n / 4096) as byte && s[1] == Tail(n / 64 % 64) && s[2] == Tail(n % 64);
      assert n / 64 == 64 * (n / 4096) + n / 64 % 64;
    } else {
      assert s[0] == (0xF0 + n / 262144) as byte && s[1] == Tail(n / 4096 % 64) && s[2] == Tail(n / 64 % 64) && s[3] == Tail(n % 64);
      assert n / 4096 == 64 * (n / 262144) + n / 4096 % 64;
    }
  }

  lemma {:induction false} EncodedIsUtf8(scalars: seq<nat>)
    requires AreScalars(scalars)
    ensures ValidUtf8(EncodeAll(scalars))
  {
    if scalars != [] {
      var first, rest := Encode(scalars[0]), EncodeAll(scalars[1..]);
      EncodedIsChar(scalars[0], rest);
      EncodedIsUtf8(scalars[1..]);
      assert (first + rest)[|first|..] == rest;
    }
  }

  /** The bits of a character of several bytes, put together again. */
  lemma TwoBytes(a: nat, b: nat) returns (n: nat)
    requires 2 <= a < 32 && b < 64
    ensures IsScalar(n) && Encode(n) == [(0xC0 + a) as byte, Tail(b)]
  {
    n := 64 * a + b;
    assert n / 64 == a && n % 64 == b;
  }

  lemma ThreeBytes(a: nat, b: nat, c: nat) returns (n: nat)
    requires a < 16 && b < 64 && c < 64 && (a == 0 ==> 32 <= b) && (a == 13 ==> b < 32)
    ensures IsScalar(n) && Encode(n) == [(0xE0 + a) as byte, Tail(b), Tail(c)]
  {
    n := 4096 * a + 64 * b + c;
    assert n / 64 == 64 * a + b && n % 64 == c;
    assert n / 4096 == a && (64 * a + b) % 64 == b;
  }

  lemma FourBytes(a: nat, b: nat, c: nat, d: nat) returns (n: nat)
    requires a < 5 && b < 64 && c < 64 && d < 64 && (a == 0 ==> 16 <= b) && (a == 4 ==> b < 16)
    ensures IsScalar(n) && Encode(n) == [(0xF0 + a) as byte, Tail(b), Tail(c), Tail(d)]
  {
    n := 262144 * a + 4096 * b + 64 * c + d;
    assert n / 64 == 4096 * a + 64 * b + c && n % 64 == d;
    assert n / 4096 == 64 * a + b && (4096 * a + 64 * b + c) % 64 == c;
    assert n / 262144 == a && (64 * a + b) % 64 == b;
  }

  /** Every character that the patterns accept is an encoded scalar value. */
  lemma CharIsEncoded(s: seq<byte>) returns (n: nat)
    requires CharLength(s) > 0
    ensures CharLength(s) <= |s| && IsScalar(n) && s[..CharLength(s)] == Encode(n)
  {
    var size := CharLength(s);
    if size == 1 {
      n := s[0] as nat;
    } else if size == 2 {
      n := TwoBytes(s[0] as nat - 0xC0, s[1] as nat - 0x80);
    } else if size == 3 {
      n := ThreeBytes(s[0] as nat - 0xE0, s[1] as nat - 0x80, s[2] as nat - 0x80);
    } else {
      n := FourBytes(s[0] as nat - 0xF0, s[1] as nat - 0x80, s[2] as nat - 0x80, s[3] as nat - 0x80);
    }
  }

  lemma {:induction false} Utf8IsEncoded(s: seq<byte>) returns (scalars: seq<nat>)
    requires ValidUtf8(s)
    ensures AreScalars(scalars) && EncodeAll(scalars) == s
    decreases |s|
  {
    scalars := [];
    if s != [] {
      var n := CharIsEncoded(s);
      var rest := Utf8IsEncoded(s[CharLength(s)..]);
      scalars := [n] + rest;
      assert scalars[1..] == rest && s == s[..CharLength(s)] + s[CharLength(s)..];
    }
  }

  /** A text is UTF-8 exactly when it encodes some sequence of scalar values. */
  lemma Utf8ExactlyWhen(s: seq<byte>)
    ensures ValidUtf8(s) <==> exists scalars: seq<nat> :: AreScalars(scalars) && EncodeAll(scalars) == s
  {
    if ValidUtf8(s) {
      var scalars := Utf8IsEncoded(s);
    }
    if scalars: seq<nat> :| AreScalars(scalars) && EncodeAll(scalars) == s {
      EncodedIsUtf8(scalars);
    }
  }
}
