/** The sending side of the firmware transfer (utils/firmware-uploader.js). */
module FirmwareUploader {
  import opened Octets
  import opened FirmwarePackets

  const CHUNK_MULTIPLIER := 8
  const DEFAULT_CHUNK_SIZE := 256

  /** The closure of one connection, together with the module variables it uses.
      `position` is the read position of the file. */
  datatype Sender = Sender(file: Bytes, name: Bytes, position: nat, chunkSize: nat, endFlag: bool, currChunk: nat)

  /** A new connection on a file not read before. */
  function Connected(file: Bytes, name: Bytes): Sender {
    Sender(file, name, 0, 0, false, 0)
  }

  /** `Math.ceil` of a quotient. */
  function Ceil(a: nat, b: nat): (r: nat)
    requires b > 0
    ensures a <= r * b < a + b
  {
    CeilBounds(a, b);
    (a + b - 1) / b
  }

  lemma CeilBounds(a: nat, b: nat)
    requires b > 0
    ensures a <= (a + b - 1) / b * b < a + b
  {
    var q := (a + b - 1) / b;
    assert q * b + (a + b - 1) % b == a + b - 1;
  }

  /** The chunk count announced for a file of `n` bytes. */
  function DeclaredCount(n: nat, chunkSize: nat): nat
    requires chunkSize > 0
  {
    Ceil(CHUNK_MULTIPLIER * Ceil(n, CHUNK_MULTIPLIER), chunkSize)
  }

  /** What the handler of a packet does: the new state and the packet sent, if any; `Thrown`
      for a JavaScript exception. */
  datatype Handled = Handled(sender: Sender, reply: seq<Bytes>) | Thrown

  /** The bytes the next read returns. */
  function NextRead(s: Sender): (r: Bytes)
    ensures |r| <= s.chunkSize
  {
    if s.position >= |s.file| then []
    else if s.position + s.chunkSize <= |s.file| then s.file[s.position..s.position + s.chunkSize]
    else s.file[s.position..]
  }

  /** `sendChunk`: the data buffer is zeroed and sent whole; the length field says how
      much of it counts, one more than was read for the last chunk. */
  function SendChunk(s: Sender): Handled {
    var read := NextRead(s);
    var last := |read| < s.chunkSize;
    var length := |read| + if last then 1 else 0;
    if s.chunkSize == 0 || s.currChunk > UINT16_MAX || length > UINT32_MAX then Thrown
    else
      Handled(s.(position := s.position + |read|, endFlag := s.endFlag || last, currChunk := s.currChunk + 1),
              [Chunk(s.currChunk, length, read + Zeros(s.chunkSize - |read|))])
  }

  /** The `data` handler. */
  function OnPacket(s: Sender, p: Bytes): Handled {
    if p == [] then Handled(s, [])
    else if p[0] == TYPE_REQUEST then
      var size := if |p| > 1 && p[1] != 0 then p[1] * CHUNK_MULTIPLIER else DEFAULT_CHUNK_SIZE;
      var count := DeclaredCount(|s.file|, size);
      if count > UINT16_MAX then Thrown else Handled(s.(chunkSize := size), [Description(count, s.name)])
    else if p[0] == TYPE_FLOW_START then SendChunk(s)
    else if p[0] == TYPE_CHUNK_ACK then
      if |p| < 3 then Thrown
      else if s.endFlag then Handled(s, [[TYPE_FLOW_END]])
      else SendChunk(s)
    else Handled(s, [])
  }

  class Uploader {
    const file: Bytes
    const name: Bytes
    var position: nat
    var chunkSize: nat
    var endFlag: bool
    var currChunk: nat

    constructor (file: Bytes, name: Bytes)
      ensures Value() == Connected(file, name)
    {
      this.file, this.name := file, name;
      position, chunkSize, endFlag, currChunk := 0, 0, false, 0;
    }

    ghost function Value(): Sender
      reads this
    {
      Sender(file, name, position, chunkSize, endFlag, currChunk)
    }

    /** `fs.read` at the current position. */
    method ReadFile() returns (read: Bytes)
      ensures read == NextRead(Value())
    {
      if position >= |file| { return []; }
      var end := if position + chunkSize <= |file| then position + chunkSize else |file|;
      return file[position..end];
    }

    method WriteChunk() returns (ok: bool, reply: seq<Bytes>)
      modifies this
      ensures ok <==> SendChunk(old(Value())).Handled?
      ensures ok ==> SendChunk(old(Value())) == Handled(Value(), reply)
    {
      hide Chunk, Zeros;
      var read := ReadFile();
      var bytesToSend := |read|;
      var last := endFlag;
      if |read| < chunkSize {
        bytesToSend := bytesToSend + 1;
        last := true;
      }
      if chunkSize == 0 || currChunk > UINT16_MAX || bytesToSend > UINT32_MAX { return false, []; }
      reply := [Chunk(currChunk, bytesToSend, read + Zeros(chunkSize - |read|))];
      position := position + |read|;
      endFlag := last;
      currChunk := currChunk + 1;
      ok := true;
    }

    method HandleData(p: Bytes) returns (ok: bool, reply: seq<Bytes>)
      modifies this
      ensures ok <==> OnPacket(old(Value()), p).Handled?
      ensures ok ==> OnPacket(old(Value()), p) == Handled(Value(), reply)
    {
      hide SendChunk, DeclaredCount;
      if p == [] { return true, []; }
      if p[0] == TYPE_REQUEST {
        var size := if |p| > 1 && p[1] != 0 then p[1] * CHUNK_MULTIPLIER else DEFAULT_CHUNK_SIZE;
        var count := DeclaredCount(|file|, size);
        if count > UINT16_MAX { return false, []; }
        chunkSize := size;
        return true, [Description(count, name)];
      } else if p[0] == TYPE_FLOW_START {
        ok, reply := WriteChunk();
      } else if p[0] == TYPE_CHUNK_ACK {
        if |p| < 3 { return false, []; }
        if endFlag { return true, [[TYPE_FLOW_END]]; }
        ok, reply := WriteChunk();
      } else {
        return true, [];
      }
    }
  }

  /** A request is answered with the number of chunks of the size asked for that the file
      takes, 256 bytes if none is asked for; more than 65535 cannot be written. */
  lemma RequestExact(s: Sender, p: Bytes)
    requires p != [] && p[0] == TYPE_REQUEST
    ensures var size: nat := if |p| > 1 && p[1] != 0 then (p[1] as int) * 8 else 256;
            var count := DeclaredCount(|s.file|, size);
            && |s.file| <= count * size && (count > 0 ==> (count - 1) * size < |s.file|)
            && OnPacket(s, p) == if count > 65535 then Thrown
                                 else Handled(s.(chunkSize := size), [Description(count, s.name)])
  {
    hide DeclaredCount;
    CountExact(|s.file|, if |p| > 1 && p[1] != 0 then p[1] else 32);
  }

  lemma CountExact(n: nat, units: nat)
    requires units > 0
    ensures var count := DeclaredCount(n, units * 8);
            n <= count * (units * 8) && (count > 0 ==> (count - 1) * (units * 8) < n)
  {
    hide Ceil;
    var eighths := Ceil(n, 8);
    var count := Ceil(8 * eighths, units * 8);
    CeilSpan(n, 8);
    CeilSpan(8 * eighths, units * 8);
    assert count * (units * 8) == 8 * (count * units);
    if count > 0 {
      assert (count - 1) * (units * 8) == count * (units * 8) - units * 8;
      assert (count - 1) * (units * 8) == 8 * ((count - 1) * units);
    }
  }

  lemma CeilSpan(a: nat, b: nat)
    requires b > 0
    ensures a <= Ceil(a, b) * b < a + b
  {}

  /** An acknowledgement is answered with the end of the flow once the last chunk is sent, else
      with the next chunk; one too short to hold a number is an exception.  A start of the flow
      is answered with a chunk, and any other packet is dropped. */
  lemma AckExact(s: Sender, p: Bytes)
    requires p != [] && p[0] != TYPE_REQUEST
    ensures OnPacket(s, p) ==
            if p[0] == TYPE_FLOW_START then SendChunk(s)
            else if p[0] != TYPE_CHUNK_ACK then Handled(s, [])
            else if |p| < 3 then Thrown
            else if s.endFlag then Handled(s, [[TYPE_FLOW_END]])
            else SendChunk(s)
  {
    hide SendChunk, DeclaredCount;
  }
}
