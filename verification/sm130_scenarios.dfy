/**
 * How a sketch drives the SM130 driver: start a seek, poll `available`
 * until a tag answers, and read its number. The reader's responses are
 * given as the bytes the bus delivers.
 */
module SM130Scenarios {
  import opened Bytes
  import opened Hex
  import opened SM130Protocol
  import opened SM130Driver

  /** The SEEK_TAG response that reports a tag: `[len][0x82][type][number]`. */
  function TagResponse(id: seq<byte>, tagType: byte): (p: seq<byte>)
    requires 4 <= |id| <= TAG_NUMBER_SIZE
    ensures |p| == |id| + 3 && WellFormed(p) && IsTagRecord(p)
  {
    [|id| + 2, CMD_SEEK_TAG, tagType] + id
  }

  /**
   * A seek answered "in progress" ('L'): `available` reports data, and the
   * error message for the SEEK_TAG echo says "Seek in progress".
   */
  method SeekInProgress() returns (ok: bool, message: string)
    ensures ok && message == "Seek in progress"
  {
    var reader := new SM130();
    reader.SeekTag();
    var p: seq<byte> := [2, CMD_SEEK_TAG, 'L' as int];
    FrameAccepted(p, reader.data[..]);
    ok := reader.Available(true, Checksummed(p));
    message := reader.GetErrorMessage();
  }

  /**
   * A seek answered with a tag: `available` reports data, the tag type and
   * the tag number as hexadecimal text.
   */
  method SeekFindsTag(id: seq<byte>, tagType: byte) returns (ok: bool, kind: byte, tag: string)
    requires 4 <= |id| <= TAG_NUMBER_SIZE
    ensures ok && kind == tagType && tag == HexString(id)
  {
    var reader := new SM130();
    reader.SeekTag();
    var q := TagResponse(id, tagType);
    FrameAccepted(q, reader.data[..]);
    ghost var d := Overlay(reader.data[..], Checksummed(q));
    assert d[0] as int == |id| + 2 && d[1] == CMD_SEEK_TAG && d[2] == tagType && d[3..3 + |id|] == id;
    ok := reader.Available(true, Checksummed(q));
    assert reader.data[..] == d && reader.tagLength as int == |id|;
    assert reader.data[3..3 + reader.tagLength] == id;
    kind := reader.tagType;
    tag := reader.GetTagString();
  }

  /**
   * The driver as written: a tag response whose checksum byte is wrong is
   * still processed, so `available` reports the tag as read.
   */
  method BadChecksumAccepted(id: seq<byte>, tagType: byte, sum: byte) returns (ok: bool, tag: string)
    requires 4 <= |id| <= TAG_NUMBER_SIZE && sum != Checksum(TagResponse(id, tagType))
    ensures ok && tag == HexString(id)
  {
    var reader := new SM130();
    reader.SeekTag();
    var q := TagResponse(id, tagType);
    var d := Overlay(reader.data[..], q + [sum]);
    assert d[..q[0] + 1] == q && d[q[0] + 1] == sum && d[..4] == q[..4];
    ok := reader.Available(true, q + [sum]);
    assert reader.data[3..3 + reader.tagLength] == id;
    tag := reader.GetTagString();
  }

  /** The corrected `available` turns the same response away and keeps the tag fields. */
  method BadChecksumRejected(id: seq<byte>, tagType: byte, sum: byte) returns (ok: bool, tag: string)
    requires 4 <= |id| <= TAG_NUMBER_SIZE && sum != Checksum(TagResponse(id, tagType))
    ensures !ok && tag == ""
  {
    var reader := new SM130();
    reader.SeekTag();
    var q := TagResponse(id, tagType);
    var d := Overlay(reader.data[..], q + [sum]);
    assert d[..q[0] + 1] == q && d[q[0] + 1] == sum && d[..4] == q[..4];
    ok := reader.AvailableChecked(true, q + [sum]);
    tag := reader.GetTagString();
  }

  /**
   * The firmware version cache: after a VERSION command answered with the
   * version text `v`, `available` stores it, and from then on
   * `getFirmwareVersion` returns that text from the cache.
   */
  method FirmwareVersionCached(v: seq<byte>) returns (ok: bool, version: Option<string>)
    requires 1 <= |v| < VERSION_SIZE && 0 !in v
    ensures ok && version == Some(Chars(v))
  {
    var reader := new SM130();
    reader.SendCommand(CMD_VERSION);
    var p := [|v| + 1, CMD_VERSION] + v;
    FrameAccepted(p, reader.data[..]);
    ghost var before := reader.versionString[..];
    ok := reader.Available(true, Checksummed(p));
    assert reader.data[2..2 + |v|] == v;
    StoredVersionReadsBack(reader.data[..], before, reader.versionString[..]);
    version := reader.CachedFirmwareVersion();
  }
}
