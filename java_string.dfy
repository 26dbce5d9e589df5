/** `String.hashCode` of the Java platform, which ActorReference.hashCode
    delegates to: `h = 31 * h + c` over the UTF-16 code units, in 32-bit two's
    complement arithmetic that wraps on overflow. */
module JavaString {

  const Modulus: int := 0x1_0000_0000
  const MinInt: int := -0x8000_0000
  const MaxInt: int := 0x7FFF_FFFF

  /** Reduces an unbounded integer to the Java `int` it wraps to. */
  function ToInt32(x: int): (r: int)
    ensures MinInt <= r <= MaxInt
    ensures MinInt <= x <= MaxInt ==> r == x
  {
    (x - MinInt) % Modulus + MinInt
  }

  /** The UTF-16 code units of one character, as a Java `String` stores
      it: the character itself in the Basic Multilingual Plane, and a
      surrogate pair (high, then low) above it. */
  function CodeUnits(c: char): (u: seq<int>)
    ensures |u| == 1 <==> c as int < 0x10000
    ensures |u| == 1 ==> u[0] == c as int
    ensures |u| == 2 ==> 0xD800 <= u[0] < 0xDC00 <= u[1] < 0xE000
                         && 0x10000 + (u[0] - 0xD800) * 0x400 + (u[1] - 0xDC00) == c as int
    ensures |u| == 1 || |u| == 2
  {
    if c as int < 0x10000 then [c as int]
    else
      var v := c as int - 0x10000;
      [0xD800 + v / 0x400, 0xDC00 + v % 0x400]
  }

  /** The UTF-16 encoding of a string: its Java `char`s. */
  function Utf16(s: string): (u: seq<int>)
    ensures |s| <= |u| <= 2 * |s|
  {
    if s == [] then [] else Utf16(s[..|s| - 1]) + CodeUnits(s[|s| - 1])
  }

  /** Within the Basic Multilingual Plane a string is one code unit per
      character, each unit the character's value. */
  lemma {:induction false} BmpIsOneUnitPerChar(s: string)
    requires forall i :: 0 <= i < |s| ==> s[i] as int < 0x10000
    ensures |Utf16(s)| == |s|
    ensures forall i :: 0 <= i < |s| ==> Utf16(s)[i] == s[i] as int
  {
    if s != [] {
      var p := s[..|s| - 1];
      assert forall i :: 0 <= i < |p| ==> p[i] == s[i];
      BmpIsOneUnitPerChar(p);
    }
  }

  /** The loop of `String.hashCode`, one wrapped step per UTF-16 code unit. */
  function HashUnits(u: seq<int>): (h: int)
    ensures MinInt <= h <= MaxInt
  {
    if u == [] then 0 else ToInt32(31 * HashUnits(u[..|u| - 1]) + u[|u| - 1])
  }

  /** The hash as the JDK computes it, over the string's UTF-16 code units. */
  function HashCode(s: string): (h: int)
    ensures MinInt <= h <= MaxInt
    ensures s == [] ==> h == 0
  {
    HashUnits(Utf16(s))
  }

  /** The documented closed form without wrapping, over the code units:
      u[0]*31^(n-1) + u[1]*31^(n-2) + ... + u[n-1]. */
  function Polynomial(u: seq<int>): int
  {
    if u == [] then 0 else 31 * Polynomial(u[..|u| - 1]) + u[|u| - 1]
  }

  /** Adding a multiple of 2^32 does not change the wrapped value. */
  lemma {:induction false} WrapShift(x: int, k: int)
    ensures ToInt32(x + k * Modulus) == ToInt32(x)
    decreases if k < 0 then -k else k
  {
    if k > 0 {
      WrapShift(x, k - 1);
      assert (x + k * Modulus) - MinInt == ((x + (k - 1) * Modulus) - MinInt) + Modulus;
    } else if k < 0 {
      WrapShift(x, k + 1);
      assert (x + k * Modulus) - MinInt == ((x + (k + 1) * Modulus) - MinInt) - Modulus;
    }
  }

  /** Wrapping differs from its argument by a multiple of 2^32. */
  lemma WrapOffset(x: int)
    ensures exists k: int :: ToInt32(x) == x + k * Modulus
  {
    var q := (x - MinInt) / Modulus;
    assert ToInt32(x) == x + (-q) * Modulus;
  }

  /** Wrapping after every step gives the wrapped closed form: the hash is
      the polynomial of the code units reduced to 32 bits. */
  lemma {:induction false} HashIsWrappedPolynomial(s: string)
    ensures HashCode(s) == ToInt32(Polynomial(Utf16(s)))
  {
    UnitsHashIsWrappedPolynomial(Utf16(s));
  }

  lemma {:induction false} UnitsHashIsWrappedPolynomial(u: seq<int>)
    ensures HashUnits(u) == ToInt32(Polynomial(u))
  {
    if u != [] {
      var p := u[..|u| - 1];
      var c := u[|u| - 1];
      UnitsHashIsWrappedPolynomial(p);
      WrapOffset(Polynomial(p));
      var k :| ToInt32(Polynomial(p)) == Polynomial(p) + k * Modulus;
      calc {
        HashUnits(u);
        ToInt32(31 * ToInt32(Polynomial(p)) + c);
        { assert 31 * ToInt32(Polynomial(p)) + c == (31 * Polynomial(p) + c) + (31 * k) * Modulus; }
        ToInt32((31 * Polynomial(p) + c) + (31 * k) * Modulus);
        { WrapShift(31 * Polynomial(p) + c, 31 * k); }
        ToInt32(Polynomial(u));
      }
    }
  }

  /** A character outside the Basic Multilingual Plane is hashed as its two
      surrogates: U+1F600 is the pair 0xD83D, 0xDE00, and its hash is
      31 * 0xD83D + 0xDE00, not the code point 0x1F600. */
  lemma SupplementaryCharacterHash()
    ensures Utf16("\U{1F600}") == [0xD83D, 0xDE00]
    ensures HashCode("\U{1F600}") == 1772899
  {
    var s := "\U{1F600}";
    assert s[..0] == [];
    var u := Utf16(s);
    assert u == [0xD83D, 0xDE00];
    assert u[..1] == [0xD83D];
    assert [0xD83D][..0] == [];
  }
}
