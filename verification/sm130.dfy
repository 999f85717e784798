/**
 * The SM130 driver object: one packet buffer `data` that every command is
 * built in and every response is read into, and the state `available`
 * derives from the last response. Bytes written to the bus are recorded in
 * the ghost log `sent`, one frame per transmission; the bytes the bus
 * delivers on a read are a parameter.
 */
module SM130Driver {
  import opened Bytes
  import opened Hex
  import opened SM130Protocol

  /** The characters `memcpy` stores when it copies bytes into a `char` buffer. */
  function Chars(b: seq<byte>): seq<char>
  {
    seq(|b|, i requires 0 <= i < |b| => b[i] as char)
  }

  /**
   * The tag buffers after `available` took the tag record `d`: `number0` and
   * `text0` are their contents before, `number` and `text` after. The tag
   * length is the packet length minus 2, the number is that many bytes after
   * the type byte, the text is its hexadecimal form and a terminator, and the
   * rest of both buffers is untouched.
   */
  ghost predicate TagStored(d: seq<byte>, tagLength: byte, number0: seq<byte>, number: seq<byte>,
                            text0: seq<char>, text: seq<char>)
  {
    && 1 <= |d| && tagLength as int == d[0] as int - 2 && 3 + tagLength as int <= |d|
    && tagLength as int <= |number| && |number0| == |number|
    && 2 * tagLength as int + 1 <= |text| && |text0| == |text|
    && number[..tagLength] == d[3..3 + tagLength]
    && number[tagLength..] == number0[tagLength..]
    && text[..2 * tagLength + 1] == HexString(d[3..3 + tagLength]) + [NUL]
    && text[2 * tagLength + 1..] == text0[2 * tagLength + 1..]
    && CString(text) == HexString(d[3..3 + tagLength])
  }

  /**
   * The version buffer after `available` took the RESET or VERSION response
   * `d`: `version0` is its contents before, `version` after. It holds
   * min(length, 8) - 1 payload characters and a terminator; the rest is
   * untouched.
   */
  ghost predicate VersionStored(d: seq<byte>, version0: seq<char>, version: seq<char>)
  {
    && 1 <= |d| && 1 <= d[0]
    && var n := VersionLength(d);
       && 2 + n <= |d| && n < |version| && |version0| == |version|
       && version[..n] == Chars(d[2..2 + n]) && version[n] == NUL
       && version[n + 1..] == version0[n + 1..]
  }

  /**
   * A stored version text without a NUL character reads back from the
   * version buffer as that text.
   */
  lemma StoredVersionReadsBack(d: seq<byte>, version0: seq<char>, version: seq<char>)
    requires VersionStored(d, version0, version) && 0 !in d[2..2 + VersionLength(d)]
    ensures CString(version) == Chars(d[2..2 + VersionLength(d)])
  {
    var n := VersionLength(d);
    var text := Chars(d[2..2 + n]);
    assert NUL !in text by {
      forall i | 0 <= i < |text| ensures text[i] != NUL {
        assert d[2..2 + n][i] in d[2..2 + n];
      }
    }
    assert version == text + [NUL] + version[n + 1..];
    UntilNulOfTerminated(text, NUL, version[n + 1..]);
  }

  class SM130 {
    /** Packet buffer: length byte, payload, checksum. */
    const data: array<byte>
    const versionString: array<char>
    const tagNumber: array<byte>
    var tagLength: byte
    const tagString: array<char>
    var tagType: byte
    /** `char errorCode` in the driver; kept as its raw byte. */
    var errorCode: byte
    var antennaPower: byte
    /** The last command sent. */
    var cmd: byte
    var pinRESET: byte
    var pinDREADY: byte
    /** Every frame written to the bus, oldest first. */
    ghost var sent: seq<seq<byte>>

    ghost predicate Valid()
    {
      && data.Length == SIZE_PACKET as int
      && versionString.Length == VERSION_SIZE
      && tagNumber.Length == TAG_NUMBER_SIZE
      && tagString.Length == TAG_STRING_SIZE
      && data != tagNumber && versionString != tagString
    }

    /**
     * The driver object is meant to be a global variable, so every field the
     * constructor does not set starts out zero.
     */
    constructor ()
      ensures Valid() && fresh(data) && fresh(versionString) && fresh(tagNumber) && fresh(tagString)
      ensures pinRESET == 3 && pinDREADY == 4 && sent == []
      ensures cmd == 0 && errorCode == 0 && tagType == 0 && tagLength == 0 && antennaPower == 0
      ensures forall i :: 0 <= i < data.Length ==> data[i] == 0
      ensures forall i :: 0 <= i < tagNumber.Length ==> tagNumber[i] == 0
      ensures forall i :: 0 <= i < versionString.Length ==> versionString[i] == NUL
      ensures forall i :: 0 <= i < tagString.Length ==> tagString[i] == NUL
    {
      data := new byte[SIZE_PACKET](_ => 0);
      versionString := new char[VERSION_SIZE](_ => NUL);
      tagNumber := new byte[TAG_NUMBER_SIZE](_ => 0);
      tagString := new char[TAG_STRING_SIZE](_ => NUL);
      tagLength, tagType, errorCode, antennaPower, cmd := 0, 0, 0, 0, 0;
      pinRESET, pinDREADY := 3, 4;
      sent := [];
    }

    // -------------------------------------------------------------------------
    // Accessors

    /** The command echoed by the last response (`data[1]`), not the command last sent. */
    function GetCommand(): byte
      reads data
      requires Valid()
    {
      data[1]
    }

    function GetPacketLength(): byte
      reads data
      requires Valid()
    {
      data[0]
    }

    function GetCheckSum(): byte
      reads data
      requires Valid() && data[0] as int + 1 < data.Length
    {
      data[data[0] + 1]
    }

    /** The payload starts after the length byte and the command echo. */
    function GetPayload(): (payload: seq<byte>)
      reads data
      requires Valid()
      ensures |payload| == SIZE_PACKET as int - 2 && payload[0] == data[2]
    {
      data[2..]
    }

    /** The block number echoed by a READ16 response. */
    function GetBlockNumber(): byte
      reads data
      requires Valid()
    {
      data[2]
    }

    /** The 16-byte block of a READ16 response starts after the block number. */
    function GetBlock(): (block: seq<byte>)
      reads data
      requires Valid()
      ensures |block| == 16 && block[0] == data[3]
    {
      data[3..19]
    }

    function GetTagString(): string
      reads tagString
      requires Valid()
    {
      CString(tagString[..])
    }

    function GetTagName(): string
      reads this
    {
      TagName(tagType)
    }

    function GetErrorMessage(): string
      reads this, data
      requires Valid()
    {
      ErrorMessage(errorCode, GetCommand())
    }

    /**
     * The cache check of `getFirmwareVersion`: once the version buffer holds
     * a non-empty string, that string is returned and nothing is sent.
     */
    function CachedFirmwareVersion(): (v: Option<string>)
      reads versionString
      requires Valid()
      ensures v.Some? <==> versionString[0] != NUL
      ensures v.Some? ==> 0 < |v.value| <= VERSION_SIZE && v.value == CString(versionString[..])
    {
      if versionString[0] != NUL then Some(CString(versionString[..])) else None
    }

    // -------------------------------------------------------------------------
    // Sending

    /**
     * `transmitData`: writes the packet `data[0..data[0]]` followed by its
     * checksum and remembers `data[1]` as the last command.
     */
    method TransmitData()
      requires Valid() && data[0] < SIZE_PACKET
      modifies this`cmd, this`sent
      ensures cmd == data[1]
      ensures sent == old(sent) + [Checksummed(data[..data[0] + 1])]
    {
      var len := data[0] + 1;
      cmd := data[1];
      var sum := ChecksumOf(data, len);
      sent := sent + [data[..len] + [sum]];
    }

    /** `sendCommand`: a command without parameters, `[1][cmd]`. */
    method SendCommand(command: byte)
      requires Valid()
      modifies data, this`cmd, this`sent
      ensures data[..2] == Packet(command, []) && data[2..] == old(data[2..])
      ensures cmd == command
      ensures sent == old(sent) + [Checksummed(Packet(command, []))]
    {
      data[0] := 1;
      data[1] := command;
      assert data[..data[0] + 1] == Packet(command, []);
      TransmitData();
    }

    method SeekTag()
      requires Valid()
      modifies data, this`cmd, this`sent
      ensures data[..2] == [1, CMD_SEEK_TAG] && data[2..] == old(data[2..])
      ensures cmd == CMD_SEEK_TAG
      ensures sent == old(sent) + [Checksummed([1, CMD_SEEK_TAG])]
    {
      SendCommand(CMD_SEEK_TAG);
    }

    method SelectTag()
      requires Valid()
      modifies data, this`cmd, this`sent
      ensures data[..2] == [1, CMD_SELECT_TAG] && data[2..] == old(data[2..])
      ensures cmd == CMD_SELECT_TAG
      ensures sent == old(sent) + [Checksummed([1, CMD_SELECT_TAG])]
    {
      SendCommand(CMD_SELECT_TAG);
    }

    method HaltTag()
      requires Valid()
      modifies data, this`cmd, this`sent
      ensures data[..2] == [1, CMD_HALT_TAG] && data[2..] == old(data[2..])
      ensures cmd == CMD_HALT_TAG
      ensures sent == old(sent) + [Checksummed([1, CMD_HALT_TAG])]
    {
      SendCommand(CMD_HALT_TAG);
    }

    method Sleep()
      requires Valid()
      modifies data, this`cmd, this`sent
      ensures data[..2] == [1, CMD_SLEEP] && data[2..] == old(data[2..])
      ensures cmd == CMD_SLEEP
      ensures sent == old(sent) + [Checksummed([1, CMD_SLEEP])]
    {
      SendCommand(CMD_SLEEP);
    }

    /** `setAntennaPower`: records the level and sends `[2][0x90][level]`. */
    method SetAntennaPower(level: byte)
      requires Valid()
      modifies data, this`antennaPower, this`cmd, this`sent
      ensures antennaPower == level
      ensures data[..3] == Packet(CMD_ANTENNA_POWER, [level]) && data[3..] == old(data[3..])
      ensures cmd == CMD_ANTENNA_POWER
      ensures sent == old(sent) + [Checksummed(Packet(CMD_ANTENNA_POWER, [level]))]
    {
      antennaPower := level;
      data[0] := 2;
      data[1] := CMD_ANTENNA_POWER;
      data[2] := antennaPower;
      assert data[..data[0] + 1] == Packet(CMD_ANTENNA_POWER, [level]);
      TransmitData();
    }

    /** `authenticate(block)`: log in with the transport key, `[3][0x85][block][0xFF]`. */
    method Authenticate(block: byte)
      requires Valid()
      modifies data, this`cmd, this`sent
      ensures data[..4] == Packet(CMD_AUTHENTICATE, [block, 0xFF]) && data[4..] == old(data[4..])
      ensures cmd == CMD_AUTHENTICATE
      ensures sent == old(sent) + [Checksummed(Packet(CMD_AUTHENTICATE, [block, 0xFF]))]
    {
      data[0] := 3;
      data[1] := CMD_AUTHENTICATE;
      data[2] := block;
      data[3] := 0xFF;
      assert data[..data[0] + 1] == Packet(CMD_AUTHENTICATE, [block, 0xFF]);
      TransmitData();
    }

    /** `authenticate(block, keyType, key)`: log in with a 6-byte key A (0xAA) or key B (0xBB). */
    method AuthenticateWithKey(block: byte, keyType: byte, key: seq<byte>)
      requires Valid() && |key| == 6
      modifies data, this`cmd, this`sent
      ensures data[..10] == Packet(CMD_AUTHENTICATE, [block, keyType] + key) && data[10..] == old(data[10..])
      ensures cmd == CMD_AUTHENTICATE
      ensures sent == old(sent) + [Checksummed(Packet(CMD_AUTHENTICATE, [block, keyType] + key))]
    {
      data[0] := 9;
      data[1] := CMD_AUTHENTICATE;
      data[2] := block;
      data[3] := keyType;
      forall i | 0 <= i < 6 {
        data[4 + i] := key[i];
      }
      assert data[..data[0] + 1] == Packet(CMD_AUTHENTICATE, [block, keyType] + key);
      TransmitData();
    }

    /** `readBlock`: `[2][0x86][block]`. */
    method ReadBlock(block: byte)
      requires Valid()
      modifies data, this`cmd, this`sent
      ensures data[..3] == Packet(CMD_READ16, [block]) && data[3..] == old(data[3..])
      ensures cmd == CMD_READ16
      ensures sent == old(sent) + [Checksummed(Packet(CMD_READ16, [block]))]
    {
      data[0] := 2;
      data[1] := CMD_READ16;
      data[2] := block;
      assert data[..data[0] + 1] == Packet(CMD_READ16, [block]);
      TransmitData();
    }

    /**
     * `writeBlock`: the message (a C string, given by its characters) is
     * copied with `strncpy` into the 15 bytes after the block number and the
     * 16th byte is forced to 0, so at most 15 characters are written and the
     * block always holds a terminated string.
     */
    method WriteBlock(block: byte, message: seq<byte>)
      requires Valid() && 0 !in message
      modifies data, this`cmd, this`sent
      ensures data[..] == Packet(CMD_WRITE16, [block] + StrNCpy(message, 15) + [0]) + old(data[19..])
      ensures cmd == CMD_WRITE16
      ensures sent == old(sent) + [Checksummed(Packet(CMD_WRITE16, [block] + StrNCpy(message, 15) + [0]))]
    {
      data[0] := 18;
      data[1] := CMD_WRITE16;
      data[2] := block;
      forall i | 0 <= i < 15 {
        data[3 + i] := if i < |message| then message[i] else 0;
      }
      data[18] := 0;
      assert data[..data[0] + 1] == Packet(CMD_WRITE16, [block] + StrNCpy(message, 15) + [0]);
      TransmitData();
    }

    /**
     * `writeFourByteBlock`: as WriteBlock for a 4-byte Ultralight page: at
     * most 3 characters and a forced 0.
     */
    method WriteFourByteBlock(block: byte, message: seq<byte>)
      requires Valid() && 0 !in message
      modifies data, this`cmd, this`sent
      ensures data[..7] == Packet(CMD_WRITE4, [block] + StrNCpy(message, 3) + [0]) && data[7..] == old(data[7..])
      ensures cmd == CMD_WRITE4
      ensures sent == old(sent) + [Checksummed(Packet(CMD_WRITE4, [block] + StrNCpy(message, 3) + [0]))]
    {
      data[0] := 6;
      data[1] := CMD_WRITE4;
      data[2] := block;
      forall i | 0 <= i < 3 {
        data[3 + i] := if i < |message| then message[i] else 0;
      }
      data[6] := 0;
      assert data[..data[0] + 1] == Packet(CMD_WRITE4, [block] + StrNCpy(message, 3) + [0]);
      TransmitData();
    }

    /**
     * `reset`: a software reset (only when no reset pin is configured; the
     * pulse on the pin is not modelled), then antenna on and HALT_TAG to end
     * the automatic seek mode.
     */
    method Reset()
      requires Valid()
      modifies data, this`antennaPower, this`cmd, this`sent
      ensures antennaPower == 1 && cmd == CMD_HALT_TAG
      ensures data[..3] == [1, CMD_HALT_TAG, 1] && data[3..] == old(data[3..])
      ensures sent == old(sent)
                      + (if pinRESET == 0xFF then [Checksummed(Packet(CMD_RESET, []))] else [])
                      + [Checksummed(Packet(CMD_ANTENNA_POWER, [1])), Checksummed(Packet(CMD_HALT_TAG, []))]
    {
      if pinRESET == 0xFF {
        SendCommand(CMD_RESET);
      }
      ghost var rest := data[3..];
      assert rest == old(data[3..]);
      SetAntennaPower(1);
      HaltTag();
      assert data[3..] == rest;
      assert Packet(CMD_HALT_TAG, []) == [1, CMD_HALT_TAG];
    }

    // -------------------------------------------------------------------------
    // Receiving

    /**
     * `receiveData(length)`: the bus delivers `received` (at most `length`
     * bytes), which is read into the front of `data`; the rest of `data`
     * keeps its stale contents. The result is 0 when nothing arrived or the
     * length byte is outside 1..SIZE_PAYLOAD, the length when the checksum
     * after the packet matches, and BAD_CHECKSUM otherwise.
     */
    method ReceiveData(length: byte, received: seq<byte>) returns (r: byte)
      requires Valid() && length <= SIZE_PACKET && |received| <= length as int
      modifies data
      ensures data[..] == Overlay(old(data[..]), received)
      ensures r == ReceiveResult(data[..], |received|)
      ensures r != 0 && r != BAD_CHECKSUM ==> GetPacketLength() == r && GetCheckSum() == Checksum(data[..r + 1])
    {
      var n := |received|;
      var i := 0;
      while i < n
        invariant 0 <= i <= n
        invariant data[..i] == received[..i]
        invariant forall k :: i <= k < data.Length ==> data[k] == old(data[k])
      {
        data[i] := received[i];
        i := i + 1;
      }
      assert data[..] == Overlay(old(data[..]), received);
      r := 0;
      if n > 0 && 0 < data[0] <= SIZE_PAYLOAD {
        var sum := ChecksumOf(data, data[0] + 1);
        r := if sum == data[data[0] + 1] then data[0] else BAD_CHECKSUM;
      }
    }

    /** True when `available` returns at once: seek mode, a DREADY pin, and the pin low. */
    predicate SeekPending(dready: bool)
      reads this
    {
      cmd == CMD_SEEK_TAG && pinDREADY != 0xFF && !dready
    }

    /** True when `available` gets a packet to process: `receiveData` returns non-zero. */
    ghost predicate Responds(dready: bool, received: seq<byte>)
      reads this, data
      requires Valid() && |received| <= SIZE_PACKET as int
    {
      !SeekPending(dready) && ReceiveResult(Overlay(data[..], received), |received|) > 0
    }

    /**
     * The `memcpy` of the version string in `available`: min(length, 8) - 1
     * bytes from the payload, then a terminator.
     */
    method CopyVersion()
      requires Valid() && 1 <= data[0]
      modifies versionString
      ensures VersionStored(data[..], old(versionString[..]), versionString[..])
    {
      var n := Min(GetPacketLength(), VERSION_SIZE) - 1;
      forall i | 0 <= i < n {
        versionString[i] := data[2 + i] as char;
      }
      versionString[n] := NUL;
    }

    /**
     * The tag record branch of `available`: tag length is the packet length
     * minus 2, the type is the first payload byte and the number follows it;
     * the number is also rendered as hexadecimal text.
     */
    method ReadTagRecord()
      requires Valid() && 6 <= data[0] && data[0] - 2 <= TAG_NUMBER_SIZE
      modifies tagNumber, tagString, this`tagLength, this`tagType
      ensures tagType == data[2]
      ensures TagStored(data[..], tagLength, old(tagNumber[..]), tagNumber[..], old(tagString[..]), tagString[..])
    {
      ghost var numberBefore, before := tagNumber[..], tagString[..];
      tagLength := GetPacketLength() - 2;
      tagType := data[2];
      forall i | 0 <= i < tagLength {
        tagNumber[i] := data[3 + i];
      }
      assert tagNumber[..tagLength] == data[3..3 + tagLength];
      assert tagNumber[tagLength..] == numberBefore[tagLength..];
      assert tagString[2 * tagLength + 1..] == before[2 * tagLength + 1..];
      ArrayToHex(tagString, tagNumber, tagLength);
      assert tagString[2 * tagLength + 1..] == before[2 * tagLength + 1..];
    }

    /**
     * The processing of a received packet in `available` (receive result
     * non-zero). The tag fields are cleared, the error code is taken from a
     * short packet, and the command echo `data[1]` selects what else is
     * extracted; a SLEEP echo reports no data.
     */
    method Process() returns (ok: bool)
      requires Valid() && 1 <= data[0] <= SIZE_PAYLOAD
      requires IsTagRecord(data[..]) ==> data[0] - 2 <= TAG_NUMBER_SIZE
      modifies tagNumber, tagString, versionString
      modifies this`tagType, this`tagLength, this`errorCode, this`antennaPower
      ensures ok == (data[1] != CMD_SLEEP)
      ensures errorCode == (if data[1] == CMD_ANTENNA_POWER then 0 else ErrorCodeOf(data[..]))
      ensures antennaPower == (if data[1] == CMD_ANTENNA_POWER then data[2] else old(antennaPower))
      ensures IsTagRecord(data[..]) ==>
                && tagLength as int <= TAG_NUMBER_SIZE && tagType == data[2]
                && TagStored(data[..], tagLength, old(tagNumber[..]), tagNumber[..], old(tagString[..]), tagString[..])
      ensures !IsTagRecord(data[..]) ==>
                && tagLength == 0 && tagType == 0 && unchanged(tagNumber)
                && tagString[0] == NUL && tagString[1..] == old(tagString[1..])
      ensures IsVersionResponse(data[..]) ==>
                VersionStored(data[..], old(versionString[..]), versionString[..])
      ensures !IsVersionResponse(data[..]) ==> unchanged(versionString)
    {
      tagType, tagLength := 0, 0;
      tagString[0] := NUL;
      errorCode := if GetPacketLength() < 3 then data[2] else 0;
      var command := GetCommand();
      if command == CMD_RESET || command == CMD_VERSION {
        CopyVersion();
      } else if command == CMD_SEEK_TAG || command == CMD_SELECT_TAG {
        if errorCode == 0 && GetPacketLength() >= 6 {
          ReadTagRecord();
        }
      } else if command == CMD_ANTENNA_POWER {
        errorCode := 0;
        antennaPower := data[2];
      } else if command == CMD_SLEEP {
        return false;
      }
      return true;
    }

    /**
     * `available`: unless DREADY says a seek is still running, reads a
     * response of at most ExpectedLength(cmd) bytes and processes it when the
     * receive result is non-zero, which includes a bad checksum
     * (BAD_CHECKSUM). `dready` is the level of the DREADY pin, read only in
     * seek mode.
     */
    method Available(dready: bool, received: seq<byte>) returns (ok: bool)
      requires Valid()
      requires |received| <= ExpectedLength(cmd) as int
      requires !SeekPending(dready) ==> TagFits(Overlay(data[..], received), |received|)
      modifies data, tagNumber, tagString, versionString
      modifies this`tagType, this`tagLength, this`errorCode, this`antennaPower
      ensures data[..] == if SeekPending(dready) then old(data[..]) else Overlay(old(data[..]), received)
      ensures !old(Responds(dready, received)) ==>
                && !ok && tagType == old(tagType) && tagLength == old(tagLength)
                && errorCode == old(errorCode) && antennaPower == old(antennaPower)
                && unchanged(tagNumber, tagString, versionString)
      ensures old(Responds(dready, received)) ==>
                && ok == (data[1] != CMD_SLEEP)
                && errorCode == (if data[1] == CMD_ANTENNA_POWER then 0 else ErrorCodeOf(data[..]))
                && antennaPower == (if data[1] == CMD_ANTENNA_POWER then data[2] else old(antennaPower))
      ensures old(Responds(dready, received)) && IsTagRecord(data[..]) ==>
                && tagLength as int <= TAG_NUMBER_SIZE && tagType == data[2]
                && TagStored(data[..], tagLength, old(tagNumber[..]), tagNumber[..], old(tagString[..]), tagString[..])
      ensures old(Responds(dready, received)) && !IsTagRecord(data[..]) ==>
                && tagLength == 0 && tagType == 0 && unchanged(tagNumber)
                && tagString[0] == NUL && tagString[1..] == old(tagString[1..])
      ensures old(Responds(dready, received)) && IsVersionResponse(data[..]) ==>
                VersionStored(data[..], old(versionString[..]), versionString[..])
      ensures !(old(Responds(dready, received)) && IsVersionResponse(data[..])) ==> unchanged(versionString)
    {
      ghost var responds := Responds(dready, received);
      if cmd == CMD_SEEK_TAG && pinDREADY != 0xFF && !dready {
        return false;
      }
      var r := ReceiveData(ExpectedLength(cmd), received);
      assert unchanged(tagNumber, tagString, versionString);
      if r > 0 {
        assert responds;
        ghost var d := data[..];
        ok := Process();
        assert data[..] == d;
      } else {
        assert !responds;
        ok := false;
      }
    }

    /** True when the response carries a packet whose checksum matches. */
    ghost predicate Accepted(dready: bool, received: seq<byte>)
      reads this, data
      requires Valid() && |received| <= SIZE_PACKET as int
    {
      !SeekPending(dready) && ReceiveResult(Overlay(data[..], received), |received|) !in {0, BAD_CHECKSUM}
    }

    /**
     * `available` with the receive result tested as the driver intends: a
     * packet whose checksum does not match is not processed and reports no
     * data, exactly as when nothing arrived.
     */
    method AvailableChecked(dready: bool, received: seq<byte>) returns (ok: bool)
      requires Valid()
      requires |received| <= ExpectedLength(cmd) as int
      requires !SeekPending(dready) ==> TagFits(Overlay(data[..], received), |received|)
      modifies data, tagNumber, tagString, versionString
      modifies this`tagType, this`tagLength, this`errorCode, this`antennaPower
      ensures data[..] == if SeekPending(dready) then old(data[..]) else Overlay(old(data[..]), received)
      ensures !old(Accepted(dready, received)) ==>
                && !ok && tagType == old(tagType) && tagLength == old(tagLength)
                && errorCode == old(errorCode) && antennaPower == old(antennaPower)
                && unchanged(tagNumber, tagString, versionString)
      ensures old(Accepted(dready, received)) ==>
                && ok == (data[1] != CMD_SLEEP)
                && errorCode == (if data[1] == CMD_ANTENNA_POWER then 0 else ErrorCodeOf(data[..]))
                && antennaPower == (if data[1] == CMD_ANTENNA_POWER then data[2] else old(antennaPower))
      ensures old(Accepted(dready, received)) && IsTagRecord(data[..]) ==>
                && tagLength as int <= TAG_NUMBER_SIZE && tagType == data[2]
                && TagStored(data[..], tagLength, old(tagNumber[..]), tagNumber[..], old(tagString[..]), tagString[..])
      ensures old(Accepted(dready, received)) && !IsTagRecord(data[..]) ==>
                && tagLength == 0 && tagType == 0 && unchanged(tagNumber)
                && tagString[0] == NUL && tagString[1..] == old(tagString[1..])
      ensures old(Accepted(dready, received)) && IsVersionResponse(data[..]) ==>
                VersionStored(data[..], old(versionString[..]), versionString[..])
      ensures !(old(Accepted(dready, received)) && IsVersionResponse(data[..])) ==> unchanged(versionString)
    {
      ghost var accepted := Accepted(dready, received);
      if cmd == CMD_SEEK_TAG && pinDREADY != 0xFF && !dready {
        return false;
      }
      var r := ReceiveData(ExpectedLength(cmd), received);
      assert unchanged(tagNumber, tagString, versionString);
      if r > 0 && r != BAD_CHECKSUM {
        assert accepted;
        ghost var d := data[..];
        ok := Process();
        assert data[..] == d;
      } else {
        assert !accepted;
        ok := false;
      }
    }
  }
}
