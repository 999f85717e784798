/**
 * How a sketch drives the SL018 driver: start a seek, poll `available`
 * while the reader reports no tag (each such poll sends SELECT again), read
 * the tag, and halt. The reader's responses are given as the bytes the bus
 * delivers.
 */
module SL018Scenarios {
  import opened Bytes
  import opened Hex
  import opened SL018Protocol
  import opened SL018Driver

  /** The SELECT response that reports a tag: `[len][0x01][OK][number][type]`. */
  function TagResponse(id: seq<byte>, tagType: byte): (p: seq<byte>)
    requires 4 <= |id| <= TAG_NUMBER_SIZE
    ensures WellFormed(p) && |p| <= ExpectedLength(CMD_SEEK) as int && |p| >= 3 && IsTagRecord(CMD_SEEK, p)
  {
    [|id| + 3, CMD_SELECT, OK] + id + [tagType]
  }

  /**
   * A seek answered first with "no tag" and then with a tag. The first poll
   * reports no data and sends SELECT again, keeping the seek pending; the
   * second reports the tag. After `haltTag` a poll reads nothing.
   */
  method SeekUntilTag(id: seq<byte>, tagType: byte)
      returns (first: bool, ok: bool, tag: string, name: string, halted: bool, ghost frames: seq<seq<byte>>)
    requires 4 <= |id| <= TAG_NUMBER_SIZE
    ensures !first && ok && !halted
    ensures tag == HexString(id) && name == TagName(tagType)
    ensures frames == [[1, CMD_SELECT], [1, CMD_SELECT]]
  {
    var reader := new SL018();
    reader.SeekTag();
    var p: seq<byte> := [2, CMD_SELECT, NO_TAG];
    first := reader.Available(p);
    assert reader.cmd == CMD_SEEK;
    assert reader.sent == [[1, CMD_SELECT], [1, CMD_SELECT]];
    var q := TagResponse(id, tagType);
    FrameRoundTrip(q, reader.data[..]);
    ghost var d := Received(reader.data[..], q);
    assert d[..|q|] == q && d[3..3 + |id|] == id && d[|id| + 3] == tagType;
    ok := reader.Available(q);
    assert reader.data[..] == d && reader.tagLength as int == |id|;
    assert reader.data[3..3 + reader.tagLength] == id;
    assert reader.tagType == tagType && reader.sent == [[1, CMD_SELECT], [1, CMD_SELECT]];
    tag := reader.GetTagString();
    name := reader.GetTagName();
    frames := reader.sent;
    reader.HaltTag();
    halted := reader.Available([]);
  }

  /**
   * A plain SELECT answered with a status other than a tag record reports
   * data, and the error message is the one for the status code.
   */
  method SelectFails(code: byte) returns (ok: bool, message: string)
    ensures ok && message == ErrorMessage(code)
  {
    var reader := new SL018();
    reader.SelectTag();
    ok := reader.Available([2, CMD_SELECT, code]);
    message := reader.GetErrorMessage();
  }

  /**
   * A response cut short by the bus: only the length byte of a tag record
   * arrives, the rest reads as 0xFF, so the status is 0xFF and no tag is
   * taken.
   */
  method TruncatedResponse() returns (ok: bool, message: string, tag: string)
    ensures ok && message == "Unknown error" && tag == ""
  {
    var reader := new SL018();
    reader.SelectTag();
    ok := reader.Available([7]);
    message := reader.GetErrorMessage();
    tag := reader.GetTagString();
  }
}
