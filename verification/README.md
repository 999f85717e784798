# RFIDuino reader drivers in Dafny

This project models the two I2C drivers of the RFIDuino library:

- the SonMicro SM130 driver (`SM130/SM130.cpp`, `SM130/SM130.h`);
- the StrongLink SL018/SL030 driver (`SL018/SL018.cpp`, `SL018/SL018.h`).

It then proves properties of that model. Each driver keeps one fixed-size packet
buffer `data`. The buffer holds 20 bytes on the SM130 (length, payload, checksum)
and 19 bytes on the SL018 (no checksum). Every command is built in that buffer as
`[len][cmd][params]` and transmitted. Every response is read back into the same
buffer. `available()` then classifies the response and updates the error code,
the tag fields and, on the SM130, the antenna level and the cached firmware
version.

Modules:

- `Bytes`: the Arduino `byte` (0..255) and C strings in fixed buffers
  (`UntilNul`, `CString`). Also `strncpy` and the shared packet layout `Packet`.
- `Hex`: `toHex` and `arrayToHex`. The two drivers carry identical copies,
  modelled once here. Also a reference decoder `Unhex` and the round trip.
- `SM130Protocol`: the SM130 constants and the checksum (sum mod 256), with
  the byte loop that computes it. Also what `receiveData` returns, the
  response-length table, and the message and tag-name tables.
- `SM130Driver`: `class SM130`. Its builders, `transmitData`, `receiveData` and
  `available` are methods over the array fields. The accessors `getCommand`
  (the response echo `data[1]`), `getPacketLength`, `getCheckSum`,
  `getPayload` and `getBlock` are functions reading `data`.
- `SL018Protocol`: the SL018 constants and how `receiveData` fills the buffer.
  Also the response-length table and the message and tag-name tables.
- `SL018Driver`: `class SL018`. The same shape, with `getCommand` returning the
  recorded last command, and `available` restarting a pending seek.
- `SM130Scenarios` and `SL018Scenarios`: a sketch's use of each driver, with
  fresh readers and given responses. Seeking, the "in progress" and "no tag"
  answers, reading a tag, halting, and on the SM130 filling the firmware
  version cache.

The bus is not modelled:

- Every frame written to it is appended to a ghost log `sent`. On the SM130
  that includes the checksum byte.
- The bytes a read delivers are a parameter.
- On the SM130 they overwrite only the front of `data`; the rest stays stale
  (`Overlay`).
- On the SL018 the length byte and then that many further reads fill the
  front (`Received`). Reads past what the bus delivered give 0xFF, the
  `Wire.read()` result -1 stored in a byte.
- The level of the SM130 DREADY pin is a boolean parameter of `available`.

Quirks of the code that are kept:

- In the SM130 length table a `break` is missing after `len = 8`. WRITE4,
  WRITE_VALUE and READ_VALUE therefore ask for 11 bytes.
- The SM130 `available` treats the bad-checksum result (-1, i.e. 255) as data
  (see Findings).
- In SM130 `getErrorMessage`, 'L' for any command but SEEK_TAG falls through
  to "OK".
- SL018 `writeBlock`/`writePage` copy 16/4 bytes and then overwrite the last
  one with 0.

## Model

| member | source | states |
|---|---|---|
| Bytes.UntilNul | SM130/SM130.h:99-100 | the C string held in a buffer is a prefix of it without a terminator, followed by the terminator when shorter than the buffer |
| Bytes.UntilNulOfTerminated | SM130/SM130.cpp:470-478 | a text followed by a terminator reads back as that text, whatever stale bytes follow |
| Bytes.StrNCpyKeepsText | SM130/SM130.cpp:311-336 | `strncpy` into n bytes plus a forced 0 yields n bytes that read back as the message cut to n characters |
| Hex.ToHex | SM130/SM130.cpp:485-489 | the result is an uppercase hex digit whose value is the low nibble of the byte |
| Hex.HexString | SM130/SM130.cpp:470-478 | the hex text of n bytes has 2n characters |
| Hex.HexDigitsOnly | SM130/SM130.cpp:470-489 | the hex text holds only uppercase hex digits, so no terminator |
| Hex.HexAt | SM130/SM130.cpp:470-478 | characters 2k and 2k+1 are the high and low nibble digits of byte k |
| Hex.HexRoundTrip | SM130/SM130.cpp:470-489 | decoding the hex text gives back the bytes (the rendering is injective) |
| Hex.HexExample | SM130/SM130.cpp:175-184 | the tag number AA BB CC DD renders as "AABBCCDD" |
| Hex.ArrayToHex | SM130/SM130.cpp:470-478 | writes the hex text of the first len bytes plus a terminator, leaves the rest of the buffer, and the buffer reads back as that text |
| SM130Protocol.ChecksumOf | SM130/SM130.cpp:434-438 | the byte loop's wrapping sum equals the sum of the bytes mod 256 |
| SM130Protocol.SumUpdate | SM130/SM130.cpp:434-438 | replacing one byte changes the sum by the difference |
| SM130Protocol.ChecksumDetectsByteChange | SM130/SM130.cpp:431-440 | changing any single byte changes the checksum |
| SM130Protocol.FrameAccepted | SM130/SM130.cpp:401-444 | a well-formed packet sent with its checksum makes `receiveData` return its length |
| SM130Protocol.CorruptFrameRejected | SM130/SM130.cpp:401-444 | one changed byte after the length byte (payload or checksum) makes `receiveData` return BAD_CHECKSUM |
| SM130Protocol.AcceptedFrameChecksummed | SM130/SM130.cpp:401-444 | a receive result other than 0 and BAD_CHECKSUM is the length byte of a well-formed packet at the front of the buffer, followed by that packet's checksum |
| SM130Protocol.ExpectedLength | SM130/SM130.cpp:131-153 | exactly the seven commands get 4, exactly SEEK/SELECT and the three fall-through commands get 11, all others 20 |
| SM130Protocol.ErrorMessage | SM130/SM130.cpp:218-247 | "OK" iff code 0 or 'L' after a command other than SEEK_TAG; "Seek in progress" iff 'L' after SEEK_TAG; "Unknown error" iff the code is not one of the eight handled |
| SM130Protocol.TagName | SM130/SM130.cpp:451-460 | "Unknown Tag" iff the type is not one of the three tag constants; each constant gets its name |
| SM130Driver.SM130.constructor | SM130/SM130.cpp:38-45 | reset pin 3, DREADY pin 4, nothing sent, every field, the packet buffer and the tag number zero, the two string buffers empty (all NUL) |
| SM130Driver.SM130.GetCommand | SM130/SM130.h:84 | the echo byte `data[1]` of the last response, not the command last sent |
| SM130Driver.SM130.GetPacketLength | SM130/SM130.h:86 | the length byte `data[0]` |
| SM130Driver.SM130.GetCheckSum | SM130/SM130.h:88 | the byte after the packet, `data[data[0] + 1]` |
| SM130Driver.SM130.GetPayload | SM130/SM130.h:90 | the 18 buffer bytes from `data[2]` on |
| SM130Driver.SM130.GetBlockNumber | SM130/SM130.h:92 | the byte `data[2]` |
| SM130Driver.SM130.GetBlock | SM130/SM130.h:94 | the 16 bytes from `data[3]` on |
| SM130Driver.SM130.GetTagString | SM130/SM130.h:100 | the C string held in the tag string buffer |
| SM130Driver.SM130.GetTagName | SM130/SM130.h:104 | the tag-name table entry for the stored tag type |
| SM130Driver.SM130.GetErrorMessage | SM130/SM130.cpp:218-247 | the message table entry for the stored error code and the response echo |
| SM130Driver.SM130.CachedFirmwareVersion | SM130/SM130.cpp:96-101 | the cache check: a cached version is returned iff the version buffer holds a non-empty string, and it is that string (see FirmwareVersionCached for how a VERSION response fills it) |
| SM130Driver.SM130.TransmitData | SM130/SM130.cpp:354-394 | sends data[0..data[0]] followed by its checksum and records data[1] as the last command |
| SM130Driver.SM130.SendCommand | SM130/SM130.cpp:342-347 | builds and sends [1][cmd]; the rest of the buffer is untouched |
| SM130Driver.SM130.SeekTag | SM130/SM130.h:112 | sends [1][0x82] |
| SM130Driver.SM130.SelectTag | SM130/SM130.h:114 | sends [1][0x83] |
| SM130Driver.SM130.HaltTag | SM130/SM130.h:116 | sends [1][0x93] |
| SM130Driver.SM130.Sleep | SM130/SM130.h:120 | sends [1][0x96] |
| SM130Driver.SM130.SetAntennaPower | SM130/SM130.cpp:253-260 | records the level and sends [2][0x90][level] |
| SM130Driver.SM130.Authenticate | SM130/SM130.cpp:266-273 | sends [3][0x85][block][0xFF] |
| SM130Driver.SM130.AuthenticateWithKey | SM130/SM130.cpp:281-289 | sends [9][0x85][block][keyType][6 key bytes] |
| SM130Driver.SM130.ReadBlock | SM130/SM130.cpp:295-301 | sends [2][0x86][block] |
| SM130Driver.SM130.WriteBlock | SM130/SM130.cpp:311-319 | sends [18][0x89][block], the message `strncpy`'d into 15 bytes, and a forced 0 |
| SM130Driver.SM130.WriteFourByteBlock | SM130/SM130.cpp:328-336 | sends [6][0x8B][block], the message `strncpy`'d into 3 bytes, and a forced 0 |
| SM130Driver.SM130.Reset | SM130/SM130.cpp:63-92 | sends RESET only without a reset pin, then antenna on and HALT_TAG; antenna power 1 |
| SM130Driver.SM130.ReceiveData | SM130/SM130.cpp:401-444 | the delivered bytes overwrite the front of the buffer; the result is 0, the length with a matching checksum, or BAD_CHECKSUM |
| SM130Driver.SM130.CopyVersion | SM130/SM130.cpp:167-173 | min(length, 8) - 1 payload characters and a terminator go into the version buffer |
| SM130Driver.StoredVersionReadsBack | SM130/SM130.cpp:167-173 | a version text copied into the version buffer with its terminator reads back, up to the terminator, as exactly that text when it holds no NUL byte |
| SM130Driver.SM130.ReadTagRecord | SM130/SM130.cpp:175-184 | tag length = length - 2, type = data[2], number = data[3..], tag string = its hex text |
| SM130Driver.SM130.Process | SM130/SM130.cpp:156-208 | clears the tag fields; error code from a short packet; version, tag record or antenna level by the echo; false only for SLEEP |
| SM130Driver.SM130.Available | SM130/SM130.cpp:121-212 | nothing read while DREADY shows a pending seek; otherwise every non-zero receive result (bad checksum included) is processed as above, and a zero result changes no field |
| SM130Driver.SM130.AvailableChecked | SM130/SM130.cpp:156-162 | as Available, with the same effects on every field, but a packet is processed only when the receive result is neither 0 nor BAD_CHECKSUM; a bad checksum reports no data and changes no field |
| SM130Scenarios.TagResponse | SM130/SM130.cpp:175-184 | a SEEK_TAG response carrying a 4- to 7-byte number is well-formed, three bytes longer than the number, and a tag record |
| SM130Scenarios.SeekInProgress | SM130/SM130.cpp:218-224 | an 'L' answer to SEEK_TAG reports data with the message "Seek in progress" |
| SM130Scenarios.SeekFindsTag | SM130/SM130.cpp:121-212 | a tag answer to SEEK_TAG reports data, the tag type and the number's hex text |
| SM130Scenarios.FirmwareVersionCached | SM130/SM130.cpp:96-113 | after VERSION is answered with a 1- to 7-character version text, `available` reports data and the cache check returns exactly that text |
| SM130Scenarios.BadChecksumAccepted | SM130/SM130.cpp:156-162 | the driver as written reports a tag from a response with a wrong checksum |
| SM130Scenarios.BadChecksumRejected | SM130/SM130.cpp:156-162 | the corrected driver reports no data for that response and no tag |
| SL018Protocol.FrameRoundTrip | SL018/SL018.cpp:367-406 | a well-formed packet delivered whole lands at the front of the buffer and the rest stays stale |
| SL018Protocol.ShortPacketPadded | SL018/SL018.cpp:367-406 | bytes announced by the length byte but not delivered read as 0xFF |
| SL018Protocol.ExpectedLength | SL018/SL018.cpp:90-119 | 0 exactly for IDLE/RESET, 3, 7, 9 and 11 exactly for their command sets, 19 otherwise |
| SL018Protocol.ErrorMessage | SL018/SL018.cpp:159-189 | "OK" iff 0, "No tag present" iff 1, "Login failed" iff 3 or 0x10, "Unknown error" iff the code is not one of the twelve handled |
| SL018Protocol.TagName | SL018/SL018.cpp:413-425 | the empty name iff the type is outside 1..6; each of the six types 1..6 gets its own name |
| SL018Driver.SL018.constructor | SL018/SL018.cpp:28-36 | both pins -1 (0xFF), last command IDLE, nothing sent, every field, the packet buffer and the tag number zero, the tag string empty |
| SL018Driver.SL018.GetCommand | SL018/SL018.h:95 | the last command sent, not the echo in the response |
| SL018Driver.SL018.GetPacketLength | SL018/SL018.h:98 | the length byte `data[0]` |
| SL018Driver.SL018.GetPayload | SL018/SL018.h:101 | the 17 buffer bytes from `data[2]` on |
| SL018Driver.SL018.GetBlockNumber | SL018/SL018.h:104 | the byte `data[2]` |
| SL018Driver.SL018.GetBlock | SL018/SL018.h:107 | the 16 bytes from `data[3]` on |
| SL018Driver.SL018.GetTagString | SL018/SL018.h:116 | the C string held in the tag string buffer |
| SL018Driver.SL018.GetTagName | SL018/SL018.h:122 | the tag-name table entry for the stored tag type |
| SL018Driver.SL018.GetErrorMessage | SL018/SL018.cpp:159-189 | the message table entry for the stored status code |
| SL018Driver.SL018.TransmitData | SL018/SL018.cpp:331-360 | sends exactly data[0..data[0]], no checksum, and records data[1] as the last command |
| SL018Driver.SL018.SendCommand | SL018/SL018.cpp:312-317 | builds and sends [1][cmd]; the rest of the buffer is untouched |
| SL018Driver.SL018.SelectTag | SL018/SL018.h:134 | sends [1][0x01] |
| SL018Driver.SL018.SeekTag | SL018/SL018.h:131 | sends [1][0x01] and then records SEEK (0x20) as the last command |
| SL018Driver.SL018.HaltTag | SL018/SL018.h:137 | sends nothing and records IDLE |
| SL018Driver.SL018.Sleep | SL018/SL018.h:140 | sends [1][0x50] |
| SL018Driver.SL018.Reset | SL018/SL018.cpp:54-77 | sends RESET exactly when no reset pin is configured |
| SL018Driver.SL018.Authenticate | SL018/SL018.cpp:195-203 | sends [9][0x02][sector][0xAA] and six 0xFF |
| SL018Driver.SL018.AuthenticateWithKey | SL018/SL018.cpp:211-219 | sends [9][0x02][sector][keyType][6 key bytes] |
| SL018Driver.SL018.ReadBlock | SL018/SL018.cpp:225-231 | sends [2][0x03][block] |
| SL018Driver.SL018.ReadPage | SL018/SL018.cpp:237-243 | sends [2][0x10][page] |
| SL018Driver.SL018.WriteBlock | SL018/SL018.cpp:253-262 | sends [18][0x04][block], the first 15 message bytes and a 0 in place of the 16th |
| SL018Driver.SL018.WritePage | SL018/SL018.cpp:271-280 | sends [6][0x11][page], the first 3 message bytes and a 0 in place of the 4th |
| SL018Driver.SL018.WriteKey | SL018/SL018.cpp:287-294 | sends [8][0x07][sector][6 key bytes] |
| SL018Driver.SL018.Led | SL018/SL018.cpp:300-306 | sends [2][0x40][1 or 0] |
| SL018Driver.SL018.ReceiveData | SL018/SL018.cpp:367-406 | nothing changes when nothing arrives; otherwise the length byte and that many reads fill the front; the result is the length byte |
| SL018Driver.SL018.ReadTagRecord | SL018/SL018.cpp:134-140 | tag length = length - 3, type = the last packet byte, number = data[3..], tag string = its hex text |
| SL018Driver.SL018.Process | SL018/SL018.cpp:124-149 | clears the tag fields, error code = status byte; a tag record after SEEK/SELECT fills them; a SEEK without one re-sends SELECT, keeps SEEK and reports no data |
| SL018Driver.SL018.Available | SL018/SL018.cpp:86-153 | after IDLE/RESET nothing is read; a zero length byte changes no field; otherwise the response is processed as above and the last command is kept |
| SL018Scenarios.TagResponse | SL018/SL018.cpp:134-140 | a SELECT response carrying a 4- to 7-byte number is well-formed, fits the SEEK read and is a tag record |
| SL018Scenarios.SeekUntilTag | SL018/SL018.cpp:141-146 | a "no tag" answer to a seek reports no data and re-sends SELECT; a tag answer then reports the tag; after `haltTag` a poll reports no data |
| SL018Scenarios.SelectFails | SL018/SL018.cpp:141-149 | a non-tag answer to a plain SELECT reports data, with the message for its status code |
| SL018Scenarios.TruncatedResponse | SL018/SL018.cpp:379-392 | a response cut to its length byte reads 0xFF as status: "Unknown error", no tag |

## Left out

- Timing is not modelled: the 20 ms pacing through `t` and `millis()`, and the
  `delay()` calls.
- GPIO is not modelled: `pinMode`, `digitalWrite` and the reset pulse. The
  DREADY level is a parameter of SM130 `available`.
- The SL018 driver never reads DREADY; its `pinDREADY` field is kept but
  unused.
- The I2C `address` and `debug` fields, and all Serial debug printing
  (`printArrayHex`, `printHex`, `printArrayAscii`) are left out. They do not
  affect the packet logic.
- `getRawData`, `getTagNumber`, `getTagLength`, `getTagType`, `getErrorCode`
  and `getAntennaPower` simply return a field. They are field reads in the
  model.
- The retry loop of SM130 `getFirmwareVersion` is left out. It sends VERSION up
  to ten times with delays. Only its cache check is modelled.
- Sector re-authentication and Ultralight handling live in the calling sketches.
  They are not part of this model.
- SM130Driver.SM130.Available: requires that a tag record's number fits the
  7-byte buffer (length byte at most 9). The driver copies without a bound
  and would overflow `tagNumber`.
- SM130Driver.SM130.AvailableChecked: the same bound as Available. That a
  processed packet carries a matching checksum is not restated in its
  contract. It follows from its first postcondition, which gives the buffer,
  together with SM130Protocol.AcceptedFrameChecksummed.
- SM130Driver.SM130.GetCheckSum: requires that the checksum position
  `data[0] + 1` lies inside the 20-byte buffer. The driver reads it without a
  bound, past the buffer for a length byte above 18.
- SL018Driver.SL018.Available: requires that the length byte is at most 18,
  and at most 10 for a tag record. The read loop would otherwise run past
  the 19-byte buffer, and the tag copy past the 7-byte `tagNumber`. A length
  byte of 255 would make the `byte` loop counter wrap, and the loop would
  never end.
- SL018Driver.SL018.ReceiveData: requires the length byte at most 18, for the
  same reason.
- SL018Driver.SL018.WriteBlock: requires 16 message bytes, because the driver
  copies 16 bytes whatever the string's length. What a shorter string's copy
  reads past its end is not modelled.
- SL018Driver.SL018.WritePage: requires 4 message bytes, for the same reason.
- SM130Driver.SM130.WriteBlock: the message is a C string without a
  terminator inside; bytes after it are not read, as with `strncpy`.
- The SL018 receive model assumes the Arduino 1.0 `Wire.read()`, which
  returns -1 when the delivered bytes are used up. Older cores' `receive()`
  is not modelled.
- Frames are logged whole. The byte-by-byte `Wire.write` calls and
  `endTransmission` results are not modelled.

## Findings

| source | as written | input that shows it | evidently intended | confidence | as-written member | corrected member |
|---|---|---|---|---|---|---|
| SM130/SM130.cpp:156 | `if (receiveData(len) > 0)` on a `byte` result, where `receiveData` returns -1 for a bad checksum | a SEEK_TAG tag response whose checksum byte is wrong: the result -1 is stored as 255, passes `> 0`, and the tag is reported as read | a packet with a bad checksum is not processed and `available` returns false ("If valid data received") | high; not executed | SM130Scenarios.BadChecksumAccepted | SM130Driver.SM130.AvailableChecked |
