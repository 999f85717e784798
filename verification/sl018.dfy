/**
 * The SL018/SL030 driver object: one packet buffer `data` that every command
 * is built in and every response is read into, the last command sent, and the
 * tag fields `available` derives from a response. Frames written to the bus
 * are recorded in the ghost log `sent`; the bytes the bus delivers on a read
 * are a parameter.
 */
module SL018Driver {
  import opened Bytes
  import opened Hex
  import opened SL018Protocol

  /**
   * The tag buffers after `available` took the tag record `d`: `number0` and
   * `text0` are their contents before, `number` and `text` after. The tag
   * length is the packet length minus 3, the number is that many bytes after
   * the status byte, the text is its hexadecimal form and a terminator, and
   * the rest of both buffers is untouched.
   */
  ghost predicate TagStored(d: seq<byte>, tagLength: byte, number0: seq<byte>, number: seq<byte>,
                            text0: seq<char>, text: seq<char>)
  {
    && 1 <= |d| && tagLength as int == d[0] as int - 3 && 3 + tagLength as int <= |d|
    && tagLength as int <= |number| && |number0| == |number|
    && 2 * tagLength as int + 1 <= |text| && |text0| == |text|
    && number[..tagLength] == d[3..3 + tagLength]
    && number[tagLength..] == number0[tagLength..]
    && text[..2 * tagLength + 1] == HexString(d[3..3 + tagLength]) + [NUL]
    && text[2 * tagLength + 1..] == text0[2 * tagLength + 1..]
    && CString(text) == HexString(d[3..3 + tagLength])
  }

  class SL018 {
    /** Packet buffer: length byte, command, payload; no checksum. */
    const data: array<byte>
    const tagNumber: array<byte>
    var tagLength: byte
    const tagString: array<char>
    var tagType: byte
    /** `char errorCode` in the driver; kept as its raw byte. */
    var errorCode: byte
    /** The last command sent, which also selects how `available` reads the response. */
    var cmd: byte
    var pinRESET: byte
    var pinDREADY: byte
    /** Every frame written to the bus, oldest first. */
    ghost var sent: seq<seq<byte>>

    ghost predicate Valid()
    {
      && data.Length == SIZE_PACKET as int
      && tagNumber.Length == TAG_NUMBER_SIZE
      && tagString.Length == TAG_STRING_SIZE
      && data != tagNumber
    }

    /**
     * Both pins default to -1 (0xFF as a byte), meaning software reset and
     * polling over I2C, and no command is pending. The object is meant to be
     * a global variable, so the buffers start out zero.
     */
    constructor ()
      ensures Valid() && fresh(data) && fresh(tagNumber) && fresh(tagString)
      ensures pinRESET == 0xFF && pinDREADY == 0xFF && cmd == CMD_IDLE && sent == []
      ensures errorCode == 0 && tagType == 0 && tagLength == 0
      ensures forall i :: 0 <= i < data.Length ==> data[i] == 0
      ensures forall i :: 0 <= i < tagNumber.Length ==> tagNumber[i] == 0
      ensures forall i :: 0 <= i < tagString.Length ==> tagString[i] == NUL
    {
      data := new byte[SIZE_PACKET](_ => 0);
      tagNumber := new byte[TAG_NUMBER_SIZE](_ => 0);
      tagString := new char[TAG_STRING_SIZE](_ => NUL);
      tagLength, tagType, errorCode := 0, 0, 0;
      pinRESET, pinDREADY := 0xFF, 0xFF;
      cmd := CMD_IDLE;
      sent := [];
    }

    // -------------------------------------------------------------------------
    // Accessors

    /** Unlike the SM130 driver, the last command sent rather than the echo in the response. */
    function GetCommand(): byte
      reads this
    {
      cmd
    }

    function GetPacketLength(): byte
      reads data
      requires Valid()
    {
      data[0]
    }

    function GetPayload(): (payload: seq<byte>)
      reads data
      requires Valid()
      ensures |payload| == SIZE_PACKET as int - 2 && payload[0] == data[2]
    {
      data[2..]
    }

    function GetBlockNumber(): byte
      reads data
      requires Valid()
    {
      data[2]
    }

    /** The 16-byte block of a READ16 response starts after the block number. */
    function GetBlock(): (block: seq<byte>)
      reads data
      requires Valid()
      ensures |block| == 16 && block[0] == data[3]
    {
      data[3..19]
    }

    function GetTagString(): string
      reads tagString
      requires Valid()
    {
      CString(tagString[..])
    }

    function GetTagName(): string
      reads this
    {
      TagName(tagType)
    }

    function GetErrorMessage(): string
      reads this
    {
      ErrorMessage(errorCode)
    }

    // -------------------------------------------------------------------------
    // Sending

    /** `transmitData`: writes the packet `data[0..data[0]]` and remembers `data[1]` as the last command. */
    method TransmitData()
      requires Valid() && data[0] < SIZE_PACKET
      modifies this`cmd, this`sent
      ensures cmd == data[1]
      ensures sent == old(sent) + [data[..data[0] + 1]]
    {
      cmd := data[1];
      sent := sent + [data[..data[0] + 1]];
    }

    /** `sendCommand`: a command without parameters, `[1][cmd]`. */
    method SendCommand(command: byte)
      requires Valid()
      modifies data, this`cmd, this`sent
      ensures data[..2] == Packet(command, []) && data[2..] == old(data[2..])
      ensures cmd == command
      ensures sent == old(sent) + [Packet(command, [])]
    {
      data[0] := 1;
      data[1] := command;
      assert data[..data[0] + 1] == Packet(command, []);
      TransmitData();
    }

    method SelectTag()
      requires Valid()
      modifies data, this`cmd, this`sent
      ensures data[..2] == [1, CMD_SELECT] && data[2..] == old(data[2..])
      ensures cmd == CMD_SELECT
      ensures sent == old(sent) + [[1, CMD_SELECT]]
    {
      SendCommand(CMD_SELECT);
    }

    /**
     * `seekTag`: sends SELECT and then records SEEK as the pending command,
     * so that `available` keeps selecting until a tag answers.
     */
    method SeekTag()
      requires Valid()
      modifies data, this`cmd, this`sent
      ensures data[..2] == [1, CMD_SELECT] && data[2..] == old(data[2..])
      ensures cmd == CMD_SEEK
      ensures sent == old(sent) + [[1, CMD_SELECT]]
    {
      SelectTag();
      cmd := CMD_SEEK;
    }

    /** `haltTag`: sends nothing; it only stops `available` from polling. */
    method HaltTag()
      modifies this`cmd
      ensures cmd == CMD_IDLE
    {
      cmd := CMD_IDLE;
    }

    method Sleep()
      requires Valid()
      modifies data, this`cmd, this`sent
      ensures data[..2] == [1, CMD_SLEEP] && data[2..] == old(data[2..])
      ensures cmd == CMD_SLEEP
      ensures sent == old(sent) + [[1, CMD_SLEEP]]
    {
      SendCommand(CMD_SLEEP);
    }

    /**
     * `reset`: a software RESET command when no reset pin is configured; the
     * pulse on a configured pin and the delays are not modelled.
     */
    method Reset()
      requires Valid()
      modifies data, this`cmd, this`sent
      ensures pinRESET != 0xFF ==> unchanged(data) && cmd == old(cmd) && sent == old(sent)
      ensures pinRESET == 0xFF ==>
                && data[..2] == [1, CMD_RESET] && data[2..] == old(data[2..])
                && cmd == CMD_RESET && sent == old(sent) + [[1, CMD_RESET]]
    {
      if pinRESET == 0xFF {
        SendCommand(CMD_RESET);
      }
    }

    /** `authenticate(sector)`: log in with key A set to the transport key 0xFFFFFFFFFFFF. */
    method Authenticate(sector: byte)
      requires Valid()
      modifies data, this`cmd, this`sent
      ensures data[..10] == Packet(CMD_LOGIN, [sector, 0xAA] + seq(6, _ => 0xFF)) && data[10..] == old(data[10..])
      ensures cmd == CMD_LOGIN
      ensures sent == old(sent) + [Packet(CMD_LOGIN, [sector, 0xAA] + seq(6, _ => 0xFF))]
    {
      data[0] := 9;
      data[1] := CMD_LOGIN;
      data[2] := sector;
      data[3] := 0xAA;
      forall i | 4 <= i < 10 {
        data[i] := 0xFF;
      }
      assert data[..data[0] + 1] == Packet(CMD_LOGIN, [sector, 0xAA] + seq(6, _ => 0xFF));
      TransmitData();
    }

    /** `authenticate(sector, keyType, key)`: log in with a 6-byte key A (0xAA) or key B (0xBB). */
    method AuthenticateWithKey(sector: byte, keyType: byte, key: seq<byte>)
      requires Valid() && |key| == 6
      modifies data, this`cmd, this`sent
      ensures data[..10] == Packet(CMD_LOGIN, [sector, keyType] + key) && data[10..] == old(data[10..])
      ensures cmd == CMD_LOGIN
      ensures sent == old(sent) + [Packet(CMD_LOGIN, [sector, keyType] + key)]
    {
      data[0] := 9;
      data[1] := CMD_LOGIN;
      data[2] := sector;
      data[3] := keyType;
      forall i | 0 <= i < 6 {
        data[4 + i] := key[i];
      }
      assert data[..data[0] + 1] == Packet(CMD_LOGIN, [sector, keyType] + key);
      TransmitData();
    }

    /** `readBlock`: `[2][0x03][block]`. */
    method ReadBlock(block: byte)
      requires Valid()
      modifies data, this`cmd, this`sent
      ensures data[..3] == Packet(CMD_READ16, [block]) && data[3..] == old(data[3..])
      ensures cmd == CMD_READ16
      ensures sent == old(sent) + [Packet(CMD_READ16, [block])]
    {
      data[0] := 2;
      data[1] := CMD_READ16;
      data[2] := block;
      assert data[..data[0] + 1] == Packet(CMD_READ16, [block]);
      TransmitData();
    }

    /** `readPage`: `[2][0x10][page]`, a 4-byte Ultralight page. */
    method ReadPage(page: byte)
      requires Valid()
      modifies data, this`cmd, this`sent
      ensures data[..3] == Packet(CMD_READ4, [page]) && data[3..] == old(data[3..])
      ensures cmd == CMD_READ4
      ensures sent == old(sent) + [Packet(CMD_READ4, [page])]
    {
      data[0] := 2;
      data[1] := CMD_READ4;
      data[2] := page;
      assert data[..data[0] + 1] == Packet(CMD_READ4, [page]);
      TransmitData();
    }

    /**
     * `writeBlock`: copies 16 message bytes as they are (zero bytes included)
     * after the block number, then overwrites the 16th with 0, so only the
     * first 15 reach the tag.
     */
    method WriteBlock(block: byte, message: seq<byte>)
      requires Valid() && |message| >= 16
      modifies data, this`cmd, this`sent
      ensures data[..] == Packet(CMD_WRITE16, [block] + message[..15] + [0])
      ensures cmd == CMD_WRITE16
      ensures sent == old(sent) + [Packet(CMD_WRITE16, [block] + message[..15] + [0])]
    {
      data[0] := 18;
      data[1] := CMD_WRITE16;
      data[2] := block;
      forall i | 0 <= i < 16 {
        data[3 + i] := message[i];
      }
      data[18] := 0;
      assert data[..data[0] + 1] == data[..] == Packet(CMD_WRITE16, [block] + message[..15] + [0]);
      TransmitData();
    }

    /** `writePage`: as WriteBlock for a 4-byte page: 4 bytes copied, the 4th overwritten with 0. */
    method WritePage(page: byte, message: seq<byte>)
      requires Valid() && |message| >= 4
      modifies data, this`cmd, this`sent
      ensures data[..7] == Packet(CMD_WRITE4, [page] + message[..3] + [0]) && data[7..] == old(data[7..])
      ensures cmd == CMD_WRITE4
      ensures sent == old(sent) + [Packet(CMD_WRITE4, [page] + message[..3] + [0])]
    {
      data[0] := 6;
      data[1] := CMD_WRITE4;
      data[2] := page;
      forall i | 0 <= i < 4 {
        data[3 + i] := message[i];
      }
      data[6] := 0;
      assert data[..data[0] + 1] == Packet(CMD_WRITE4, [page] + message[..3] + [0]);
      TransmitData();
    }

    /** `writeKey`: `[8][0x07][sector][key]`, the new key A of a sector. */
    method WriteKey(sector: byte, key: seq<byte>)
      requires Valid() && |key| == 6
      modifies data, this`cmd, this`sent
      ensures data[..9] == Packet(CMD_WRITE_KEY, [sector] + key) && data[9..] == old(data[9..])
      ensures cmd == CMD_WRITE_KEY
      ensures sent == old(sent) + [Packet(CMD_WRITE_KEY, [sector] + key)]
    {
      data[0] := 8;
      data[1] := CMD_WRITE_KEY;
      data[2] := sector;
      forall i | 0 <= i < 6 {
        data[3 + i] := key[i];
      }
      assert data[..data[0] + 1] == Packet(CMD_WRITE_KEY, [sector] + key);
      TransmitData();
    }

    /** `led`: `[2][0x40][1 or 0]`. */
    method Led(on: bool)
      requires Valid()
      modifies data, this`cmd, this`sent
      ensures data[..3] == Packet(CMD_SET_LED, [if on then 1 else 0]) && data[3..] == old(data[3..])
      ensures cmd == CMD_SET_LED
      ensures sent == old(sent) + [Packet(CMD_SET_LED, [if on then 1 else 0])]
    {
      data[0] := 2;
      data[1] := CMD_SET_LED;
      data[2] := if on then 1 else 0;
      assert data[..data[0] + 1] == Packet(CMD_SET_LED, [if on then 1 else 0]);
      TransmitData();
    }

    // -------------------------------------------------------------------------
    // Receiving

    /**
     * `receiveData(length)`: the bus delivers `received` (at most `length`
     * bytes). When it delivered anything, the length byte is read and then
     * that many further bytes, whatever the bus actually delivered; the
     * result is the length byte, or 0 when nothing arrived.
     */
    method ReceiveData(length: byte, received: seq<byte>) returns (r: byte)
      requires Valid() && |received| <= length as int
      requires |received| > 0 ==> received[0] < SIZE_PACKET
      modifies data
      ensures data[..] == Received(old(data[..]), received)
      ensures r == ReceiveResult(received)
    {
      if |received| == 0 {
        return 0;
      }
      data[0] := WireRead(received, 0);
      var i := 1;
      while i <= data[0] as int
        invariant 1 <= i <= data[0] as int + 1 && data[0] == received[0]
        invariant forall k :: 1 <= k < i ==> data[k] == WireRead(received, k)
        invariant forall k :: i <= k < data.Length ==> data[k] == old(data[k])
      {
        data[i] := WireRead(received, i);
        i := i + 1;
      }
      assert data[..] == Received(old(data[..]), received);
      return data[0];
    }

    /**
     * The tag record branch of `available`: tag length is the packet length
     * minus 3, the number follows the status byte and the type is the last
     * byte of the packet; the number is also rendered as hexadecimal text.
     */
    method ReadTagRecord()
      requires Valid() && 7 <= data[0] < SIZE_PACKET && data[0] - 3 <= TAG_NUMBER_SIZE
      modifies tagNumber, tagString, this`tagLength, this`tagType
      ensures tagType == data[data[0]]
      ensures TagStored(data[..], tagLength, old(tagNumber[..]), tagNumber[..], old(tagString[..]), tagString[..])
    {
      ghost var numberBefore, before := tagNumber[..], tagString[..];
      tagLength := GetPacketLength() - 3;
      tagType := data[GetPacketLength()];
      forall i | 0 <= i < tagLength {
        tagNumber[i] := data[3 + i];
      }
      assert tagNumber[..tagLength] == data[3..3 + tagLength];
      assert tagNumber[tagLength..] == numberBefore[tagLength..];
      assert tagString[2 * tagLength + 1..] == before[2 * tagLength + 1..];
      ArrayToHex(tagString, tagNumber, tagLength);
      assert tagString[2 * tagLength + 1..] == before[2 * tagLength + 1..];
    }

    /**
     * The processing of a received packet in `available` (receive result
     * non-zero). The tag fields are cleared and the error code is the status
     * byte. After SEEK or SELECT a tag record fills the tag fields; a SEEK
     * without one sends SELECT again and reports no data.
     */
    method Process() returns (ok: bool)
      requires Valid() && 1 <= data[0] < SIZE_PACKET
      requires TagFits(cmd, data[..])
      modifies data, tagNumber, tagString
      modifies this`tagType, this`tagLength, this`errorCode, this`cmd, this`sent
      ensures errorCode == old(data[2]) && cmd == old(cmd)
      ensures IsTagRecord(cmd, old(data[..])) ==>
                && ok && unchanged(data) && sent == old(sent)
                && tagLength as int <= TAG_NUMBER_SIZE
                && tagType == data[data[0]]
                && TagStored(data[..], tagLength, old(tagNumber[..]), tagNumber[..], old(tagString[..]), tagString[..])
      ensures !IsTagRecord(cmd, old(data[..])) ==>
                && tagLength == 0 && tagType == 0 && unchanged(tagNumber)
                && tagString[0] == NUL && tagString[1..] == old(tagString[1..])
      ensures !IsTagRecord(cmd, old(data[..])) && cmd == CMD_SEEK ==>
                && !ok && data[..] == [1, CMD_SELECT] + old(data[2..])
                && sent == old(sent) + [[1, CMD_SELECT]]
      ensures !IsTagRecord(cmd, old(data[..])) && cmd != CMD_SEEK ==>
                ok && unchanged(data) && sent == old(sent)
    {
      tagType, tagLength := 0, 0;
      tagString[0] := NUL;
      errorCode := data[2];
      var command := GetCommand();
      if command == CMD_SEEK || command == CMD_SELECT {
        if errorCode == 0 && GetPacketLength() >= 7 {
          ReadTagRecord();
        } else if cmd == CMD_SEEK {
          SeekTag();
          return false;
        }
      }
      return true;
    }

    /**
     * `available`: when the last command expects a response, reads at most
     * ExpectedLength(cmd) bytes and processes the packet when its length
     * byte is non-zero. After IDLE or RESET nothing is read.
     */
    method Available(received: seq<byte>) returns (ok: bool)
      requires Valid()
      requires |received| <= ExpectedLength(cmd) as int
      requires |received| > 0 ==> received[0] < SIZE_PACKET && TagFits(cmd, Received(data[..], received))
      modifies data, tagNumber, tagString
      modifies this`tagType, this`tagLength, this`errorCode, this`cmd, this`sent
      ensures cmd == old(cmd)
      ensures ReceiveResult(received) == 0 ==>
                && !ok && data[..] == Received(old(data[..]), received) && sent == old(sent)
                && tagType == old(tagType) && tagLength == old(tagLength) && errorCode == old(errorCode)
                && unchanged(tagNumber, tagString)
      ensures ReceiveResult(received) > 0 ==> errorCode == Received(old(data[..]), received)[2]
      ensures ReceiveResult(received) > 0 && IsTagRecord(cmd, Received(old(data[..]), received)) ==>
                && ok && data[..] == Received(old(data[..]), received) && sent == old(sent)
                && tagLength as int <= TAG_NUMBER_SIZE
                && tagType == data[data[0]]
                && TagStored(data[..], tagLength, old(tagNumber[..]), tagNumber[..], old(tagString[..]), tagString[..])
      ensures ReceiveResult(received) > 0 && !IsTagRecord(cmd, Received(old(data[..]), received)) ==>
                && tagLength == 0 && tagType == 0 && unchanged(tagNumber)
                && tagString[0] == NUL && tagString[1..] == old(tagString[1..])
      ensures ReceiveResult(received) > 0 && !IsTagRecord(cmd, Received(old(data[..]), received)) && cmd == CMD_SEEK ==>
                && !ok && data[..] == [1, CMD_SELECT] + Received(old(data[..]), received)[2..]
                && sent == old(sent) + [[1, CMD_SELECT]]
      ensures ReceiveResult(received) > 0 && !IsTagRecord(cmd, Received(old(data[..]), received)) && cmd != CMD_SEEK ==>
                && ok && data[..] == Received(old(data[..]), received) && sent == old(sent)
    {
      var len := ExpectedLength(cmd);
      if len == 0 {
        return false;
      }
      var r := ReceiveData(len, received);
      assert unchanged(tagNumber, tagString);
      if r > 0 {
        ghost var d := data[..];
        ok := Process();
        assert IsTagRecord(cmd, d) ==> data[..] == d;
      } else {
        ok := false;
      }
    }
  }
}
