/**
 * Byte-level vocabulary shared by the SM130 and SL018 drivers: the Arduino
 * `byte`, C strings held in fixed buffers, `strncpy`, and the command packet
 * layout `[len][cmd][params]` that both readers use on the I2C bus.
 */
module Bytes {

  /** The Arduino `byte`: an unsigned 8-bit value. */
  type byte = b: int | 0 <= b < 256

  datatype Option<T> = None | Some(value: T)

  /** The C string terminator. */
  const NUL: char := '\0'

  function Min(a: int, b: int): int { if a < b then a else b }

  /**
   * The string a C routine sees in a fixed buffer: everything before the first
   * terminator `nul`, or the whole buffer if it holds none.
   */
  function UntilNul<T(==)>(buf: seq<T>, nul: T): (s: seq<T>)
    ensures |s| <= |buf| && s == buf[..|s|]
    ensures nul !in s
    ensures |s| < |buf| ==> buf[|s|] == nul
  {
    if buf == [] || buf[0] == nul then [] else [buf[0]] + UntilNul(buf[1..], nul)
  }

  /** A string followed by its terminator reads back as itself, whatever stale bytes follow. */
  lemma {:induction false} UntilNulOfTerminated<T>(s: seq<T>, nul: T, rest: seq<T>)
    requires nul !in s
    ensures UntilNul(s + [nul] + rest, nul) == s
  {
    if s != [] {
      assert (s + [nul] + rest)[1..] == s[1..] + [nul] + rest;
      UntilNulOfTerminated(s[1..], nul, rest);
    }
  }

  /** The C string as the `char` buffer holds it. */
  function CString(buf: seq<char>): seq<char> { UntilNul(buf, NUL) }

  /**
   * The `n` bytes that `strncpy(dst, msg, n)` stores, for a C string `msg`
   * (its characters, without the terminator).
   */
  function StrNCpy(msg: seq<byte>, n: nat): (r: seq<byte>)
    requires 0 !in msg
  {
    seq(n, i requires 0 <= i < n => if i < |msg| then msg[i] else 0)
  }

  /**
   * `strncpy` followed by a terminator keeps the message truncated to `n`
   * characters: reading the buffer back as a C string gives exactly that.
   */
  lemma StrNCpyKeepsText(msg: seq<byte>, n: nat)
    requires 0 !in msg
    ensures |StrNCpy(msg, n)| == n
    ensures UntilNul(StrNCpy(msg, n) + [0], 0) == msg[..Min(|msg|, n)]
  {
    var m := Min(|msg|, n);
    var r := StrNCpy(msg, n) + [0];
    assert r == msg[..m] + [0] + r[m + 1..];
    UntilNulOfTerminated(msg[..m], 0, r[m + 1..]);
  }

  /** A command packet as both readers lay it out: `[len][cmd][params]`, len = 1 + parameter count. */
  function Packet(command: byte, params: seq<byte>): (p: seq<byte>)
    requires |params| < 255
  {
    [1 + |params|, command] + params
  }
}
