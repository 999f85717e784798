/**
 * The StrongLink SL018/SL030 packet protocol as the driver implements it:
 * sizes, command, status and tag codes, how `receiveData` fills the buffer,
 * the expected response length per command, and the message and tag-name
 * tables. Frames carry no checksum.
 */
module SL018Protocol {
  import opened Bytes

  const SIZE_PACKET: byte := 19

  const MIFARE_1K: byte := 1
  const MIFARE_PRO: byte := 2
  const MIFARE_ULTRALIGHT: byte := 3
  const MIFARE_4K: byte := 4
  const MIFARE_PROX: byte := 5
  const MIFARE_DESFIRE: byte := 6

  const CMD_IDLE: byte := 0x00
  const CMD_SELECT: byte := 0x01
  const CMD_LOGIN: byte := 0x02
  const CMD_READ16: byte := 0x03
  const CMD_WRITE16: byte := 0x04
  const CMD_READ_VALUE: byte := 0x05
  const CMD_WRITE_VALUE: byte := 0x06
  const CMD_WRITE_KEY: byte := 0x07
  const CMD_INC_VALUE: byte := 0x08
  const CMD_DEC_VALUE: byte := 0x09
  const CMD_COPY_VALUE: byte := 0x0A
  const CMD_READ4: byte := 0x10
  const CMD_WRITE4: byte := 0x11
  const CMD_SEEK: byte := 0x20
  const CMD_SET_LED: byte := 0x40
  const CMD_SLEEP: byte := 0x50
  const CMD_RESET: byte := 0xFF

  const OK: byte := 0x00
  const NO_TAG: byte := 0x01
  const LOGIN_OK: byte := 0x02
  const LOGIN_FAIL: byte := 0x03
  const READ_FAIL: byte := 0x04
  const WRITE_FAIL: byte := 0x05
  const CANT_VERIFY: byte := 0x06
  const COLLISION: byte := 0x0A
  const KEY_FAIL: byte := 0x0C
  const NO_LOGIN: byte := 0x0D
  const NO_VALUE: byte := 0x0E

  const TAG_NUMBER_SIZE: nat := 7
  const TAG_STRING_SIZE: nat := 15

  /**
   * What a read returns once the bytes the bus delivered are used up: the
   * Arduino 1.0 `Wire.read()` returns -1, stored as 0xFF in the buffer.
   */
  const EMPTY_READ: byte := 0xFF

  /** The value of the `i`-th read after the bus delivered `received`. */
  function WireRead(received: seq<byte>, i: nat): byte
  {
    if i < |received| then received[i] else EMPTY_READ
  }

  /**
   * The packet buffer after `receiveData`: nothing changes when the bus
   * delivered nothing; otherwise the length byte and exactly that many
   * further reads fill the front, and the rest keeps its stale bytes.
   */
  function Received(stale: seq<byte>, received: seq<byte>): (d: seq<byte>)
    requires |received| > 0 ==> received[0] < |stale|
  {
    if received == [] then stale
    else seq(|stale|, i requires 0 <= i < |stale| => if i <= received[0] then WireRead(received, i) else stale[i])
  }

  /** What `receiveData` returns: the length byte, or 0 when the bus delivered nothing. */
  function ReceiveResult(received: seq<byte>): byte
  {
    if received == [] then 0 else received[0]
  }

  /** A well-formed packet that fits the buffer: `p[0]` counts the bytes after it. */
  predicate WellFormed(p: seq<byte>)
  {
    |p| >= 1 && p[0] as int == |p| - 1 && p[0] < SIZE_PACKET
  }

  /**
   * The receiver recovers exactly the frame the transmitter format describes:
   * a well-formed packet delivered whole lands at the front of the buffer,
   * its length is the receive result, and the bytes after it stay stale.
   */
  lemma FrameRoundTrip(p: seq<byte>, stale: seq<byte>)
    requires WellFormed(p) && |stale| == SIZE_PACKET as int
    ensures |Received(stale, p)| == |stale|
    ensures Received(stale, p)[..|p|] == p
    ensures Received(stale, p)[|p|..] == stale[|p|..]
  {
  }

  /**
   * A packet cut short by the bus is still read to its announced length:
   * the missing bytes read as EMPTY_READ.
   */
  lemma ShortPacketPadded(received: seq<byte>, stale: seq<byte>, i: nat)
    requires |stale| == SIZE_PACKET as int && |received| > 0 && received[0] < SIZE_PACKET
    requires |received| <= i <= received[0]
    ensures Received(stale, received)[i] == EMPTY_READ
  {
  }

  /**
   * The number of bytes `available` asks for after command `c`; 0 means it
   * does not poll at all.
   */
  function ExpectedLength(c: byte): (len: byte)
    ensures len in {0, 3, 7, 9, 11, SIZE_PACKET}
    ensures len == 0 <==> c in {CMD_IDLE, CMD_RESET}
    ensures len == 3 <==> c in {CMD_LOGIN, CMD_SET_LED, CMD_SLEEP}
    ensures len == 7 <==> c in {CMD_READ4, CMD_WRITE4, CMD_READ_VALUE, CMD_WRITE_VALUE, CMD_DEC_VALUE, CMD_INC_VALUE, CMD_COPY_VALUE}
    ensures len == 9 <==> c == CMD_WRITE_KEY
    ensures len == 11 <==> c in {CMD_SEEK, CMD_SELECT}
  {
    match c
    case 0x00 | 0xFF => 0
    case 0x02 | 0x40 | 0x50 => 3
    case 0x10 | 0x11 | 0x05 | 0x06 | 0x09 | 0x08 | 0x0A => 7
    case 0x07 => 9
    case 0x20 | 0x01 => 11
    case _ => SIZE_PACKET
  }

  /**
   * A response `available` takes as a tag record: the last command was SEEK
   * or SELECT, the status byte is OK and the packet length is at least 7.
   */
  predicate IsTagRecord(command: byte, d: seq<byte>)
    requires |d| >= 3
  {
    (command == CMD_SEEK || command == CMD_SELECT) && d[2] == OK && d[0] >= 7
  }

  /**
   * The tag number of a tag record fits the 7-byte tag number buffer. The
   * driver copies `length - 3` bytes without checking; the model only admits
   * responses for which this holds.
   */
  predicate TagFits(command: byte, d: seq<byte>)
    requires |d| >= 3
  {
    IsTagRecord(command, d) ==> d[0] - 3 <= TAG_NUMBER_SIZE
  }

  /** `getErrorMessage`: the message for a status code. */
  function ErrorMessage(code: byte): (msg: string)
    ensures msg == "OK" <==> code == OK
    ensures msg == "No tag present" <==> code == NO_TAG
    ensures msg == "Login failed" <==> code == LOGIN_FAIL || code == 0x10
    ensures msg == "Unknown error" <==>
              code !in {OK, NO_TAG, LOGIN_OK, LOGIN_FAIL, READ_FAIL, WRITE_FAIL, CANT_VERIFY, COLLISION, KEY_FAIL, NO_LOGIN, NO_VALUE, 0x10}
  {
    match code
    case 0 => "OK"
    case 1 => "No tag present"
    case 2 => "Login OK"
    case 3 | 0x10 => "Login failed"
    case 4 => "Read failed"
    case 5 => "Write failed"
    case 6 => "Unable to read after write"
    case 0x0A => "Collision detected"
    case 0x0C => "Load key failed"
    case 0x0D => "Not authenticated"
    case 0x0E => "Not a value block"
    case _ => "Unknown error"
  }

  /** `tagName`: the six tag type constants have names, every other type the empty name. */
  function TagName(tagType: byte): (name: string)
    ensures name == "" <==> !(MIFARE_1K <= tagType <= MIFARE_DESFIRE)
    ensures tagType == MIFARE_1K ==> name == "Mifare 1K"
    ensures tagType == MIFARE_PRO ==> name == "Mifare Pro"
    ensures tagType == MIFARE_ULTRALIGHT ==> name == "Mifare UltraLight"
    ensures tagType == MIFARE_4K ==> name == "Mifare 4K"
    ensures tagType == MIFARE_PROX ==> name == "Mifare ProX"
    ensures tagType == MIFARE_DESFIRE ==> name == "Mifare DesFire"
  {
    match tagType
    case 1 => "Mifare 1K"
    case 2 => "Mifare Pro"
    case 3 => "Mifare UltraLight"
    case 4 => "Mifare 4K"
    case 5 => "Mifare ProX"
    case 6 => "Mifare DesFire"
    case _ => ""
  }
}
