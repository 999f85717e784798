/**
 * The SonMicro SM130 packet protocol as the driver implements it: sizes and
 * command codes, the checksum every frame carries, what `receiveData`
 * concludes from the bytes it reads, the expected response length per
 * command, and the message and tag-name tables.
 */
module SM130Protocol {
  import opened Bytes

  const SIZE_PAYLOAD: byte := 18
  /** The packet buffer: length byte, payload and checksum. */
  const SIZE_PACKET: byte := SIZE_PAYLOAD + 2

  const MIFARE_ULTRALIGHT: byte := 1
  const MIFARE_1K: byte := 2
  const MIFARE_4K: byte := 3

  const CMD_RESET: byte := 0x80
  const CMD_VERSION: byte := 0x81
  const CMD_SEEK_TAG: byte := 0x82
  const CMD_SELECT_TAG: byte := 0x83
  const CMD_AUTHENTICATE: byte := 0x85
  const CMD_READ16: byte := 0x86
  const CMD_READ_VALUE: byte := 0x87
  const CMD_WRITE16: byte := 0x89
  const CMD_WRITE_VALUE: byte := 0x8A
  const CMD_WRITE4: byte := 0x8B
  const CMD_WRITE_KEY: byte := 0x8C
  const CMD_INC_VALUE: byte := 0x8D
  const CMD_DEC_VALUE: byte := 0x8E
  const CMD_ANTENNA_POWER: byte := 0x90
  const CMD_READ_PORT: byte := 0x91
  const CMD_WRITE_PORT: byte := 0x92
  const CMD_HALT_TAG: byte := 0x93
  const CMD_SET_BAUD: byte := 0x94
  const CMD_SLEEP: byte := 0x96

  /** What `receiveData` returns for a bad checksum: -1 stored in a byte. */
  const BAD_CHECKSUM: byte := 0xFF

  /** Sizes of the version, tag number and tag string buffers. */
  const VERSION_SIZE: nat := 8
  const TAG_NUMBER_SIZE: nat := 7
  const TAG_STRING_SIZE: nat := 15

  // ---------------------------------------------------------------------------
  // Checksum

  /** The arithmetic sum of the bytes. */
  function Sum(s: seq<byte>): int
  {
    if s == [] then 0 else Sum(s[..|s| - 1]) + s[|s| - 1]
  }

  /** The SM130 checksum: the sum of the bytes modulo 256. */
  function Checksum(s: seq<byte>): byte
  {
    Sum(s) % 256
  }

  /**
   * The byte loop of `transmitData` and `receiveData`: `sum += data[i]` over
   * the first `n` bytes, in a `byte` that wraps around.
   */
  method ChecksumOf(a: array<byte>, n: nat) returns (sum: byte)
    requires n <= a.Length
    ensures sum == Checksum(a[..n])
  {
    sum := 0;
    var i := 0;
    while i < n
      invariant 0 <= i <= n
      invariant sum == Sum(a[..i]) % 256
    {
      assert a[..i + 1][..i] == a[..i];
      sum := (sum + a[i]) % 256;
      i := i + 1;
    }
  }

  /** Replacing one byte changes the sum by the difference. */
  lemma {:induction false} SumUpdate(s: seq<byte>, k: nat, b: byte)
    requires k < |s|
    ensures Sum(s[k := b]) == Sum(s) - s[k] + b
  {
    var t := s[k := b];
    if k < |s| - 1 {
      assert t[..|t| - 1] == s[..|s| - 1][k := b];
      SumUpdate(s[..|s| - 1], k, b);
    } else {
      assert t[..|t| - 1] == s[..|s| - 1];
    }
  }

  /** The checksum catches every change of a single byte. */
  lemma ChecksumDetectsByteChange(s: seq<byte>, k: nat, b: byte)
    requires k < |s| && b != s[k]
    ensures Checksum(s[k := b]) != Checksum(s)
  {
    SumUpdate(s, k, b);
    var d := b - s[k];
    assert -256 < d < 256 && d != 0;
    assert Sum(s[k := b]) == Sum(s) + d;
  }

  /** A packet as `transmitData` puts it on the wire: the packet and then its checksum. */
  function Checksummed(p: seq<byte>): seq<byte>
  {
    p + [Checksum(p)]
  }

  // ---------------------------------------------------------------------------
  // Receiving

  /** The packet buffer after `n = |received|` bytes were read into its front. */
  function Overlay(stale: seq<byte>, received: seq<byte>): seq<byte>
    requires |received| <= |stale|
  {
    received + stale[|received|..]
  }

  /**
   * The value `receiveData` returns once the `n` delivered bytes are in the
   * buffer `d`: 0 when nothing came or the length byte is outside
   * 1..SIZE_PAYLOAD, otherwise the length byte when the checksum after the
   * packet matches, and BAD_CHECKSUM when it does not.
   */
  function ReceiveResult(d: seq<byte>, n: nat): byte
    requires |d| == SIZE_PACKET as int
  {
    if n > 0 && 1 <= d[0] <= SIZE_PAYLOAD then
      if Checksum(d[..d[0] + 1]) == d[d[0] + 1] then d[0] else BAD_CHECKSUM
    else 0
  }

  /** A well-formed packet of at most SIZE_PAYLOAD bytes after its length byte. */
  predicate WellFormed(p: seq<byte>)
  {
    |p| >= 2 && p[0] as int == |p| - 1 && p[0] <= SIZE_PAYLOAD
  }

  /** A frame sent with its checksum is accepted: `receiveData` reports its length. */
  lemma FrameAccepted(p: seq<byte>, stale: seq<byte>)
    requires WellFormed(p) && |stale| == SIZE_PACKET as int
    ensures |Checksummed(p)| <= SIZE_PACKET as int
    ensures ReceiveResult(Overlay(stale, Checksummed(p)), |p| + 1) == p[0]
  {
    var d := Overlay(stale, Checksummed(p));
    assert d[..p[0] + 1] == p;
  }

  /**
   * A frame with any one byte after its length byte changed (payload or
   * checksum) is reported as BAD_CHECKSUM.
   */
  lemma CorruptFrameRejected(p: seq<byte>, stale: seq<byte>, k: nat, b: byte)
    requires WellFormed(p) && |stale| == SIZE_PACKET as int
    requires 1 <= k <= |p| && b != Checksummed(p)[k]
    ensures ReceiveResult(Overlay(stale, Checksummed(p)[k := b]), |p| + 1) == BAD_CHECKSUM
  {
    var f := Checksummed(p)[k := b];
    var d := Overlay(stale, f);
    if k < |p| {
      assert d[..p[0] + 1] == p[k := b];
      ChecksumDetectsByteChange(p, k, b);
    } else {
      assert d[..p[0] + 1] == p;
    }
  }

  /**
   * Conversely, only a checksummed packet is accepted: a receive result
   * other than 0 and BAD_CHECKSUM is the length byte of a well-formed packet
   * at the front of the buffer, and the byte after it is its checksum.
   */
  lemma AcceptedFrameChecksummed(d: seq<byte>, n: nat)
    requires |d| == SIZE_PACKET as int && ReceiveResult(d, n) !in {0, BAD_CHECKSUM}
    ensures ReceiveResult(d, n) == d[0] && WellFormed(d[..d[0] + 1])
    ensures d[..d[0] + 2] == Checksummed(d[..d[0] + 1])
  {
    assert d[..d[0] + 2] == d[..d[0] + 1] + [d[d[0] + 1]];
  }

  // ---------------------------------------------------------------------------
  // Tables

  /**
   * The number of bytes `available` asks for after command `c`. The case list
   * for WRITE4, WRITE_VALUE and READ_VALUE sets 8 but has no `break`, so it
   * falls into the SEEK_TAG/SELECT_TAG case and they get 11 as well.
   */
  function ExpectedLength(c: byte): (len: byte)
    ensures len in {4, 11, SIZE_PACKET}
    ensures len == 4 <==> c in {CMD_ANTENNA_POWER, CMD_AUTHENTICATE, CMD_DEC_VALUE, CMD_INC_VALUE, CMD_WRITE_KEY, CMD_HALT_TAG, CMD_SLEEP}
    ensures len == 11 <==> c in {CMD_WRITE4, CMD_WRITE_VALUE, CMD_READ_VALUE, CMD_SEEK_TAG, CMD_SELECT_TAG}
  {
    match c
    case 0x90 | 0x85 | 0x8E | 0x8D | 0x8C | 0x93 | 0x96 => 4
    case 0x8B | 0x8A | 0x87 | 0x82 | 0x83 => 11  // `len = 8` is overwritten by the fall-through
    case _ => SIZE_PACKET
  }

  /**
   * The error code `available` derives from a packet: the byte after the
   * command echo when the packet is shorter than 3, 0 otherwise.
   */
  function ErrorCodeOf(d: seq<byte>): byte
    requires |d| >= 3
  {
    if d[0] < 3 then d[2] else 0
  }

  /**
   * A SEEK_TAG or SELECT_TAG response that `available` takes as a tag record:
   * no error and a packet length of at least 6.
   */
  predicate IsTagRecord(d: seq<byte>)
    requires |d| >= 3
  {
    (d[1] == CMD_SEEK_TAG || d[1] == CMD_SELECT_TAG) && ErrorCodeOf(d) == 0 && d[0] >= 6
  }

  /** A RESET or VERSION response, which carries the firmware version. */
  predicate IsVersionResponse(d: seq<byte>)
    requires |d| >= 2
  {
    d[1] == CMD_RESET || d[1] == CMD_VERSION
  }

  /** How many version characters `available` copies: min(length, 8) - 1. */
  function VersionLength(d: seq<byte>): nat
    requires |d| >= 1 && d[0] >= 1
  {
    Min(d[0], VERSION_SIZE) - 1
  }

  /**
   * The tag number of a tag record fits the 7-byte tag number buffer. The
   * driver copies `length - 2` bytes without checking; the model only admits
   * responses for which this holds.
   */
  predicate TagFits(d: seq<byte>, n: nat)
    requires |d| == SIZE_PACKET as int
  {
    ReceiveResult(d, n) > 0 && IsTagRecord(d) ==> d[0] - 2 <= TAG_NUMBER_SIZE
  }

  /** The message `getErrorMessage` gives for error code `code` after a response to `command`. */
  function ErrorMessage(code: byte, command: byte): (msg: string)
    ensures msg == "OK" <==> code == 0 || (code == 'L' as int && command != CMD_SEEK_TAG)
    ensures msg == "Seek in progress" <==> code == 'L' as int && command == CMD_SEEK_TAG
    ensures msg == "Unknown error" <==> code !in {0, 'L' as int, 'N' as int, 'U' as int, 'F' as int, 'I' as int, 'X' as int, 'E' as int}
  {
    var c := code as char;
    if c == 'L' && command == CMD_SEEK_TAG then "Seek in progress"
    else if c == 'L' || c == NUL then "OK"  // 'L' falls through to the case of 0
    else if c == 'N' then
      if command == CMD_WRITE_KEY then "Write master key failed"
      else if command == CMD_SET_BAUD then "Set baud rate failed"
      else if command == CMD_AUTHENTICATE then "No tag present or login failed"
      else "No tag present"
    else if c == 'U' then
      if command == CMD_AUTHENTICATE then "Authentication failed"
      else if command == CMD_WRITE16 || command == CMD_WRITE4 then "Verification failed"
      else "Antenna off"
    else if c == 'F' then
      if command == CMD_READ16 then "Read failed" else "Write failed"
    else if c == 'I' then "Invalid value block"
    else if c == 'X' then "Block is read-protected"
    else if c == 'E' then "Invalid key format in EEPROM"
    else "Unknown error"
  }

  /** `tagName`: the three tag type constants have names, every other type is unknown. */
  function TagName(tagType: byte): (name: string)
    ensures name == "Unknown Tag" <==> tagType !in {MIFARE_ULTRALIGHT, MIFARE_1K, MIFARE_4K}
    ensures tagType == MIFARE_ULTRALIGHT ==> name == "Mifare UL"
    ensures tagType == MIFARE_1K ==> name == "Mifare 1K"
    ensures tagType == MIFARE_4K ==> name == "Mifare 4K"
  {
    match tagType
    case 1 => "Mifare UL"
    case 2 => "Mifare 1K"
    case 3 => "Mifare 4K"
    case _ => "Unknown Tag"
  }
}
