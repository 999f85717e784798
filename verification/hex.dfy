/**
 * Uppercase hexadecimal rendering of tag numbers (`toHex` and `arrayToHex`).
 * Both drivers carry an identical copy of these two helpers; they are
 * modelled once here.
 */
module Hex {
  import opened Bytes

  predicate IsHexDigit(c: char) { '0' <= c <= '9' || 'A' <= c <= 'F' }

  /** The value of an uppercase hexadecimal digit. */
  function DigitValue(c: char): (v: nat)
    requires IsHexDigit(c)
    ensures v < 16
  {
    if c <= '9' then c as int - '0' as int else c as int - 'A' as int + 10
  }

  /** `toHex`: the uppercase hexadecimal digit of the low nibble of `b`. */
  function ToHex(b: byte): (c: char)
    ensures IsHexDigit(c) && DigitValue(c) == b % 16
  {
    var n := b % 16;
    if n < 10 then (n + '0' as int) as char else (n - 10 + 'A' as int) as char
  }

  /** The text `arrayToHex` writes for `a`: two digits per byte, high nibble first. */
  function HexString(a: seq<byte>): (s: string)
    ensures |s| == 2 * |a|
  {
    if a == [] then [] else HexString(a[..|a| - 1]) + [ToHex(a[|a| - 1] / 16), ToHex(a[|a| - 1])]
  }

  /** Reads hexadecimal text back into bytes: the inverse of Hex. */
  function Unhex(s: string): seq<byte>
    requires |s| % 2 == 0 && forall i :: 0 <= i < |s| ==> IsHexDigit(s[i])
  {
    if s == [] then [] else Unhex(s[..|s| - 2]) + [DigitValue(s[|s| - 2]) * 16 + DigitValue(s[|s| - 1])]
  }

  /** Every character of HexString(a) is an uppercase hexadecimal digit (so none is a NUL). */
  lemma {:induction false} HexDigitsOnly(a: seq<byte>)
    ensures forall i :: 0 <= i < |HexString(a)| ==> IsHexDigit(HexString(a)[i])
    ensures NUL !in HexString(a)
  {
    if a != [] {
      HexDigitsOnly(a[..|a| - 1]);
    }
  }

  /** Digit pair k of HexString(a) encodes byte k of a. */
  lemma {:induction false} HexAt(a: seq<byte>, k: nat)
    requires k < |a|
    ensures HexString(a)[2 * k] == ToHex(a[k] / 16) && HexString(a)[2 * k + 1] == ToHex(a[k])
  {
    if k < |a| - 1 {
      HexAt(a[..|a| - 1], k);
    }
  }

  /** A 4-byte tag number as `arrayToHex` renders it. */
  lemma HexExample()
    ensures HexString([0xAA, 0xBB, 0xCC, 0xDD]) == "AABBCCDD"
  {
    var a: seq<byte> := [0xAA, 0xBB, 0xCC, 0xDD];
    assert a[..1][..0] == [] && a[..2][..1] == a[..1] && a[..3][..2] == a[..2] && a[..3] == a[..|a| - 1];
    assert HexString(a[..1]) == "AA";
    assert HexString(a[..2]) == "AABB";
    assert HexString(a[..3]) == "AABBCC";
  }

  /** The hexadecimal text loses nothing: reading it back gives the bytes. */
  lemma {:induction false} HexRoundTrip(a: seq<byte>)
    ensures forall i :: 0 <= i < |HexString(a)| ==> IsHexDigit(HexString(a)[i])
    ensures Unhex(HexString(a)) == a
  {
    HexDigitsOnly(a);
    if a != [] {
      var init, last := a[..|a| - 1], a[|a| - 1];
      var s := HexString(a);
      assert s[..|s| - 2] == HexString(init);
      HexRoundTrip(init);
      assert DigitValue(s[|s| - 2]) * 16 + DigitValue(s[|s| - 1]) == last;
    }
  }

  /**
   * `arrayToHex(s, array, len)`: writes the hexadecimal text of the first
   * `len` bytes of `src` into `s`, followed by a terminator; the rest of
   * `s` is left as it was.
   */
  method ArrayToHex(s: array<char>, src: array<byte>, len: nat)
    requires len <= src.Length && 2 * len + 1 <= s.Length
    modifies s
    ensures s[..2 * len + 1] == HexString(src[..len]) + [NUL]
    ensures s[2 * len + 1..] == old(s[2 * len + 1..])
    ensures CString(s[..]) == HexString(src[..len])
  {
    var i := 0;
    while i < len
      invariant 0 <= i <= len
      invariant s[..2 * i] == HexString(src[..i])
      invariant forall k :: 2 * i <= k < s.Length ==> s[k] == old(s[k])
    {
      ghost var done := s[..2 * i];
      s[2 * i] := ToHex(src[i] / 16);  // src[i] >> 4
      s[2 * i + 1] := ToHex(src[i]);
      assert src[..i + 1][..i] == src[..i];
      assert HexString(src[..i + 1]) == done + [ToHex(src[i] / 16), ToHex(src[i])];
      assert s[..2 * (i + 1)] == done + [ToHex(src[i] / 16), ToHex(src[i])];
      i := i + 1;
    }
    s[2 * len] := NUL;
    assert s[..2 * len + 1] == HexString(src[..len]) + [NUL];
    assert s[..] == HexString(src[..len]) + [NUL] + s[2 * len + 1..];
    HexDigitsOnly(src[..len]);
    UntilNulOfTerminated(HexString(src[..len]), NUL, s[2 * len + 1..]);
  }
}
