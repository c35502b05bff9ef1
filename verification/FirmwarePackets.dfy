/** The packets of the firmware transfer (the packed structures of src/firmware_downloader.c
    and the buffers built in utils/firmware-uploader.js), as bytes. */
module FirmwarePackets {
  import opened Octets

  const TYPE_REQUEST: byte := 0x04
  const TYPE_DESCRIPTION: byte := 0x05
  const TYPE_FLOW_START: byte := 0xA0
  const TYPE_CHUNK: byte := 0xA1
  const TYPE_CHUNK_ACK: byte := 0xA2
  const TYPE_FLOW_END: byte := 0xA3

  const CHUNK_HEADER := 7
  const UINT16_MAX := 0xFFFF
  const UINT32_MAX := 0xFFFF_FFFF

  function Zeros(n: nat): (r: Bytes)
    ensures |r| == n && forall i :: 0 <= i < n ==> r[i] == 0
  {
    seq(n, _ => 0)
  }

  /** Little-endian, as `writeUInt16LE` writes and the device's byte order reads. */
  function Le16(x: nat): (r: Bytes)
    requires x <= UINT16_MAX
    ensures |r| == 2
  {
    [x % 256, x / 256]
  }

  function Le32(x: nat): (r: Bytes)
    requires x <= UINT32_MAX
    ensures |r| == 4
  {
    [x % 256, x / 0x100 % 256, x / 0x1_0000 % 256, x / 0x100_0000]
  }

  function Read16(b: Bytes, i: nat): (x: nat)
    requires i + 2 <= |b|
    ensures x <= UINT16_MAX
  {
    var high: int := b[i + 1];
    b[i] + 0x100 * high
  }

  function Read32(b: Bytes, i: nat): (x: nat)
    requires i + 4 <= |b|
    ensures x <= UINT32_MAX
  {
    var b1: int, b2: int, b3: int := b[i + 1], b[i + 2], b[i + 3];
    b[i] + 0x100 * b1 + 0x1_0000 * b2 + 0x100_0000 * b3
  }

  lemma Read16Le(b: Bytes, i: nat, x: nat)
    requires x <= UINT16_MAX && i + 2 <= |b| && b[i..i + 2] == Le16(x)
    ensures Read16(b, i) == x
  {
    assert b[i..i + 2][0] == b[i] && b[i..i + 2][1] == b[i + 1];
  }

  lemma Read32Le(b: Bytes, i: nat, x: nat)
    requires x <= UINT32_MAX && i + 4 <= |b| && b[i..i + 4] == Le32(x)
    ensures Read32(b, i) == x
  {
    var s := b[i..i + 4];
    assert s[0] == b[i] && s[1] == b[i + 1] && s[2] == b[i + 2] && s[3] == b[i + 3];
    assert x / 0x1_0000 == x / 0x100 / 256 && x / 0x100_0000 == x / 0x1_0000 / 256;
  }

  function Request(sizeByte: byte): Bytes { [TYPE_REQUEST, sizeByte] }

  /** The description: chunk count, name length and name with its terminator. */
  function Description(count: nat, name: Bytes): (r: Bytes)
    requires count <= UINT16_MAX
    ensures |r| == 5 + |name|
  {
    [TYPE_DESCRIPTION] + Le16(count) + [(|name| + 1) % 256] + name + [0]
  }

  /** A chunk packet: id, length of the payload, and the whole data buffer. */
  function Chunk(id: nat, length: nat, data: Bytes): (r: Bytes)
    requires id <= UINT16_MAX && length <= UINT32_MAX
    ensures |r| == CHUNK_HEADER + |data|
  {
    [TYPE_CHUNK] + Le16(id) + Le32(length) + data
  }

  function Ack(id: nat): (r: Bytes)
    requires id <= UINT16_MAX
    ensures |r| == 3
  {
    [TYPE_CHUNK_ACK] + Le16(id)
  }

  /** A chunk packet read at the front of a buffer. */
  lemma ChunkFields(id: nat, length: nat, data: Bytes, b: Bytes)
    requires id <= UINT16_MAX && length <= UINT32_MAX
    requires |b| >= CHUNK_HEADER + |data| && b[..CHUNK_HEADER + |data|] == Chunk(id, length, data)
    ensures b[0] == TYPE_CHUNK && Read16(b, 1) == id && Read32(b, 3) == length
    ensures forall i :: 0 <= i < |data| ==> b[CHUNK_HEADER + i] == data[i]
  {
    hide Le16, Le32, Read16, Read32;
    var c := Chunk(id, length, data);
    assert c[0] == TYPE_CHUNK && c[1..3] == Le16(id) && c[3..7] == Le32(length) && c[7..] == data;
    assert b[0] == b[..CHUNK_HEADER + |data|][0];
    assert b[1..3] == b[..CHUNK_HEADER + |data|][1..3];
    assert b[3..7] == b[..CHUNK_HEADER + |data|][3..7];
    Read16Le(b, 1, id);
    Read32Le(b, 3, length);
    forall i | 0 <= i < |data|
      ensures b[CHUNK_HEADER + i] == data[i]
    {
      assert b[CHUNK_HEADER + i] == b[..CHUNK_HEADER + |data|][CHUNK_HEADER + i];
      assert c[7..][i] == c[7 + i];
    }
  }

  lemma DescriptionFields(count: nat, name: Bytes, b: Bytes)
    requires count <= UINT16_MAX && |b| >= 5 + |name| && b[..5 + |name|] == Description(count, name)
    ensures b[0] == TYPE_DESCRIPTION && Read16(b, 1) == count
  {
    hide Le16, Read16;
    var d := Description(count, name);
    assert d[0] == TYPE_DESCRIPTION && d[1..3] == Le16(count);
    assert b[0] == b[..5 + |name|][0];
    assert b[1..3] == b[..5 + |name|][1..3];
    Read16Le(b, 1, count);
  }
}
