/** The receiving side of the firmware transfer (src/firmware_downloader.c) on top of the
    flash routines (platform/stm32f429-core/src/platform/firmware.c). */
module FirmwareDownloader {
  import opened Octets
  import opened FirmwarePackets

  const CHUNK_SIZE := 512
  const BUFFER_SIZE := 528

  /** How a download ends.  `Overread` is no result: the C code would read behind its
      buffer. */
  datatype Result = Success | ConnectionError | MemoryError | WriteError | Overread

  datatype Phase = AwaitingDescription | ReceivingChunks | Done(result: Result)

  /** The packet buffer, the code area of the flash with the code length, and how far the
      download is. */
  datatype Receiver = Receiver(buff: Bytes, flash: Bytes, codeLen: nat, phase: Phase)

  /** What the platform offers: the memory it reports, and whether erasing works. */
  datatype Platform = Platform(maxMemory: nat, erases: bool)

  predicate Valid(r: Receiver) {
    |r.buff| == BUFFER_SIZE
  }

  /** A received packet lies over the front of the buffer. */
  function Loaded(buff: Bytes, p: Bytes): (b: Bytes)
    requires |p| <= |buff|
    ensures |b| == |buff|
  {
    p + buff[|p|..]
  }

  /** The flash after `data` is programmed at `offset`, as far as there is flash. */
  function Programmed(flash: Bytes, offset: nat, data: Bytes): (f: Bytes)
    ensures |f| == |flash|
  {
    seq(|flash|, i requires 0 <= i < |flash| => if offset <= i < offset + |data| then data[i - offset] else flash[i])
  }

  function Max(a: nat, b: nat): nat { if a > b then a else b }

  function Erased(n: nat): (f: Bytes)
    ensures |f| == n
  {
    seq(n, _ => 0xFF)
  }

  /** A packet while the description is awaited. */
  function OnDescription(r: Receiver, p: Bytes, platform: Platform): (Receiver, seq<Bytes>)
    requires Valid(r) && |p| <= BUFFER_SIZE
  {
    var b := Loaded(r.buff, p);
    var r1 := r.(buff := b);
    if |p| < 2 || b[0] != TYPE_DESCRIPTION then (r1, [])
    else if Read16(b, 1) * CHUNK_SIZE > platform.maxMemory then (r1.(phase := Done(MemoryError)), [])
    else if !platform.erases then (r1.(phase := Done(WriteError)), [])
    else
      (Receiver(b[0 := TYPE_FLOW_START], Erased(|r.flash|), 0, ReceivingChunks), [[TYPE_FLOW_START]])
  }

  /** A packet while chunks are received. */
  function OnChunk(r: Receiver, p: Bytes): (Receiver, seq<Bytes>)
    requires Valid(r) && |p| <= BUFFER_SIZE
  {
    var b := Loaded(r.buff, p);
    var r1 := r.(buff := b);
    if b[0] == TYPE_FLOW_END then (r1.(phase := Done(Success)), [])
    else if |p| <= 2 || b[0] != TYPE_CHUNK then (r1, [])
    else
      var id, length := Read16(b, 1), Read32(b, 3);
      if CHUNK_HEADER + length > BUFFER_SIZE then (r1.(phase := Done(Overread)), [])
      else
        var offset := id * CHUNK_SIZE;
        var data := b[CHUNK_HEADER..CHUNK_HEADER + length];
        var r2 := r1.(flash := Programmed(r.flash, offset, data), codeLen := Max(r.codeLen, offset + length));
        if length > 0 && offset + length > |r.flash| then (r2.(phase := Done(WriteError)), [])
        else (r2.(buff := b[0 := TYPE_CHUNK_ACK]), [b[0 := TYPE_CHUNK_ACK][..3]])
  }

  /** A packet; an empty one is a closed connection. */
  function OnReceive(r: Receiver, p: Bytes, platform: Platform): (Receiver, seq<Bytes>)
    requires Valid(r) && |p| <= BUFFER_SIZE
  {
    if r.phase.Done? then (r, [])
    else if p == [] then (r.(phase := Done(ConnectionError)), [])
    else if r.phase.AwaitingDescription? then OnDescription(r, p, platform)
    else OnChunk(r, p)
  }

  lemma ReceiveValid(r: Receiver, p: Bytes, platform: Platform)
    requires Valid(r) && |p| <= BUFFER_SIZE
    ensures Valid(OnReceive(r, p, platform).0)
  {}

  /** The packets that arrive, up to the end of the download; running out of them is a
      closed connection. */
  function Downloaded(r: Receiver, incoming: seq<Bytes>, platform: Platform): (Receiver, seq<Bytes>)
    requires Valid(r) && forall i :: 0 <= i < |incoming| ==> |incoming[i]| <= BUFFER_SIZE
    decreases |incoming|
  {
    if r.phase.Done? then (r, [])
    else if incoming == [] then (r.(phase := Done(ConnectionError)), [])
    else
      ReceiveValid(r, incoming[0], platform);
      var first := OnReceive(r, incoming[0], platform);
      var rest := Downloaded(first.0, incoming[1..], platform);
      (rest.0, first.1 + rest.1)
  }

  class Downloader {
    const platform: Platform
    const buff: array<byte>
    const flash: array<byte>
    var codeLen: nat
    var phase: Phase

    constructor (platform: Platform, flash: array<byte>)
      ensures fresh(buff) && buff.Length == BUFFER_SIZE && this.flash == flash && this.platform == platform
      ensures phase == AwaitingDescription
    {
      this.platform := platform;
      this.flash := flash;
      buff := new byte[BUFFER_SIZE];
      codeLen, phase := 0, AwaitingDescription;
    }

    ghost predicate Ready()
      reads this
    {
      buff.Length == BUFFER_SIZE && buff != flash
    }

    ghost function Value(): Receiver
      reads this, buff, flash
    {
      Receiver(buff[..], flash[..], codeLen, phase)
    }

    /** `recv` into the buffer. */
    method Load(p: Bytes)
      requires Ready() && |p| <= BUFFER_SIZE
      modifies buff
      ensures buff[..] == Loaded(old(buff[..]), p)
    {
      for i := 0 to |p|
        invariant forall k :: 0 <= k < i ==> buff[k] == p[k]
        invariant forall k :: i <= k < buff.Length ==> buff[k] == old(buff[k])
      {
        buff[i] := p[i];
      }
    }

    /** `firmware_platform_write_code_chunk` from the buffer. */
    method WriteCodeChunk(offset: nat, length: nat) returns (ok: bool)
      requires Ready() && CHUNK_HEADER + length <= BUFFER_SIZE
      modifies this`codeLen, flash
      ensures flash[..] == Programmed(old(flash[..]), offset, buff[CHUNK_HEADER..CHUNK_HEADER + length])
      ensures codeLen == Max(old(codeLen), offset + length)
      ensures ok <==> length == 0 || offset + length <= flash.Length
    {
      if offset + length > codeLen { codeLen := offset + length; }
      ghost var data := buff[CHUNK_HEADER..CHUNK_HEADER + length];
      var i := 0;
      while i < length
        invariant codeLen == Max(old(codeLen), offset + length)
        invariant 0 <= i <= length && (i > 0 ==> offset + i <= flash.Length)
        invariant buff[CHUNK_HEADER..CHUNK_HEADER + length] == data
        invariant forall k :: 0 <= k < flash.Length ==>
                    flash[k] == if offset <= k < offset + i then data[k - offset] else old(flash[k])
      {
        if offset + i >= flash.Length { return false; }
        flash[offset + i] := buff[CHUNK_HEADER + i];
        i := i + 1;
      }
      ok := true;
    }

    /** `firmware_platform_write_start`: the sector is erased. */
    method Erase()
      modifies this`codeLen, flash
      ensures flash[..] == Erased(flash.Length) && codeLen == 0
    {
      codeLen := 0;
      for i := 0 to flash.Length
        invariant codeLen == 0 && forall k :: 0 <= k < i ==> flash[k] == 0xFF
      {
        flash[i] := 0xFF;
      }
    }

    method HandleDescription(p: Bytes) returns (reply: seq<Bytes>)
      requires Ready() && |p| <= BUFFER_SIZE && phase == AwaitingDescription
      modifies this, buff, flash
      ensures (Value(), reply) == OnDescription(old(Value()), p, platform)
    {
      hide Read16, Erased;
      Load(p);
      if |p| < 2 || buff[0] != TYPE_DESCRIPTION { return []; }
      if Read16(buff[..], 1) * CHUNK_SIZE > platform.maxMemory {
        phase := Done(MemoryError);
        return [];
      }
      if !platform.erases {
        phase := Done(WriteError);
        return [];
      }
      Erase();
      buff[0] := TYPE_FLOW_START;
      phase := ReceivingChunks;
      return [[TYPE_FLOW_START]];
    }

    method HandleChunk(p: Bytes) returns (reply: seq<Bytes>)
      requires Ready() && |p| <= BUFFER_SIZE && phase == ReceivingChunks
      modifies this, buff, flash
      ensures (Value(), reply) == OnChunk(old(Value()), p)
    {
      hide Read16, Read32, Programmed, Max;
      Load(p);
      ghost var b := buff[..];
      if buff[0] == TYPE_FLOW_END {
        phase := Done(Success);
        return [];
      }
      if |p| <= 2 || buff[0] != TYPE_CHUNK { return []; }
      var id, length := Read16(buff[..], 1), Read32(buff[..], 3);
      if CHUNK_HEADER + length > BUFFER_SIZE {
        phase := Done(Overread);
        return [];
      }
      assert buff[CHUNK_HEADER..CHUNK_HEADER + length] == b[CHUNK_HEADER..CHUNK_HEADER + length];
      var ok := WriteCodeChunk(id * CHUNK_SIZE, length);
      if !ok {
        phase := Done(WriteError);
        return [];
      }
      buff[0] := TYPE_CHUNK_ACK;
      assert buff[..] == b[0 := TYPE_CHUNK_ACK];
      assert buff[..3] == buff[..][..3];
      return [buff[..3]];
    }

    /** The two receive loops of `firmware_downloader_start`. */
    method Start(incoming: seq<Bytes>) returns (result: Result, sent: seq<Bytes>)
      requires Ready() && phase == AwaitingDescription
      requires forall i :: 0 <= i < |incoming| ==> |incoming[i]| <= BUFFER_SIZE
      modifies this, buff, flash
      ensures Valid(old(Value()))
      ensures (Value(), sent) == Downloaded(old(Value()), incoming, platform)
      ensures phase == Done(result)
    {
      hide OnDescription, OnChunk;
      sent := [];
      var rest := incoming;
      ghost var total := Downloaded(Value(), incoming, platform);
      assert [] + total.1 == total.1;
      while !phase.Done?
        invariant Ready()
        invariant forall i :: 0 <= i < |rest| ==> |rest[i]| <= BUFFER_SIZE
        invariant total == (Downloaded(Value(), rest, platform).0, sent + Downloaded(Value(), rest, platform).1)
        decreases |rest|, !phase.Done?
      {
        ghost var before := Value();
        if rest == [] || rest[0] == [] {
          ghost var remaining := rest;
          phase := Done(ConnectionError);
          assert Downloaded(before, remaining, platform) == (Value(), []);
        } else {
          var p := rest[0];
          var reply;
          if phase.AwaitingDescription? {
            reply := HandleDescription(p);
          } else {
            reply := HandleChunk(p);
          }
          assert (Value(), reply) == OnReceive(before, p, platform);
          assert Downloaded(before, rest, platform) ==
                 (Downloaded(Value(), rest[1..], platform).0, reply + Downloaded(Value(), rest[1..], platform).1);
          assert sent + (reply + Downloaded(Value(), rest[1..], platform).1) ==
                 sent + reply + Downloaded(Value(), rest[1..], platform).1;
          sent := sent + reply;
          rest := rest[1..];
        }
      }
      assert sent + [] == sent;
      result := phase.result;
    }
  }

  // ---------------------------------------------------------------- packets of any sender

  /** A packet while the description is awaited: only a description of at least two bytes ends
      the wait, with the memory error, the write error or the start of the flow on erased
      flash.  In a packet of two bytes the high byte of the chunk count is what the buffer held. */
  lemma DescriptionExact(r: Receiver, p: Bytes, platform: Platform)
    requires Valid(r) && 0 < |p| <= BUFFER_SIZE && r.phase.AwaitingDescription?
    ensures var (next, sent) := OnReceive(r, p, platform);
            var low: int, high: int := (if |p| > 1 then p[1] else 0), if |p| > 2 then p[2] else r.buff[2];
            var described := |p| >= 2 && p[0] == TYPE_DESCRIPTION;
            var room := (low + 256 * high) * 512 <= platform.maxMemory;
            && (next.phase == AwaitingDescription <==> !described)
            && (next.phase == Done(MemoryError) <==> described && !room)
            && (next.phase == Done(WriteError) <==> described && room && !platform.erases)
            && (next.phase == ReceivingChunks <==> described && room && platform.erases)
            && (if next.phase != ReceivingChunks then next.(buff := r.buff, phase := r.phase) == r && sent == []
                else sent == [[TYPE_FLOW_START]] && next.codeLen == 0 && |next.flash| == |r.flash|
                     && forall i :: 0 <= i < |next.flash| ==> next.flash[i] == 0xFF)
  {
    var b := Loaded(r.buff, p);
    assert b[0] == p[0] && (|p| > 1 ==> b[1] == p[1]) && b[2] == if |p| > 2 then p[2] else r.buff[2];
  }

  /** What a chunk packet announces, however long its data is. */
  function AnnouncedLength(p: Bytes): nat
    requires |p| >= CHUNK_HEADER
  {
    Read32(p, 3)
  }

  /** A packet that is no chunk: the end of the flow stops the download with success, anything
      else is dropped. */
  lemma OtherDropped(r: Receiver, p: Bytes, platform: Platform)
    requires Valid(r) && 0 < |p| <= BUFFER_SIZE && r.phase.ReceivingChunks? && (p[0] != TYPE_CHUNK || |p| <= 2)
    ensures var (next, sent) := OnReceive(r, p, platform);
            && next.(buff := r.buff, phase := r.phase) == r && sent == []
            && next.phase == if p[0] == TYPE_FLOW_END then Done(Success) else ReceivingChunks
  {
    assert Loaded(r.buff, p)[0] == p[0];
  }

  /** A chunk packet with all the bytes it announces: they stand at 512 times its number, as
      far as there is flash, and nothing else of the flash changes; it is acknowledged
      with its number if and only if there was room for all of them. */
  lemma ChunkExact(r: Receiver, p: Bytes, platform: Platform)
    requires Valid(r) && CHUNK_HEADER <= |p| <= BUFFER_SIZE && r.phase.ReceivingChunks? && p[0] == TYPE_CHUNK
    requires CHUNK_HEADER + AnnouncedLength(p) <= |p|
    ensures var (next, sent) := OnReceive(r, p, platform);
            var offset, length := 512 * Read16(p, 1), AnnouncedLength(p);
            && |next.flash| == |r.flash|
            && (forall i :: 0 <= i < |r.flash| ==>
                  next.flash[i] == if offset <= i < offset + length then p[7 + (i - offset)] else r.flash[i])
            && next.codeLen == (if r.codeLen > offset + length then r.codeLen else offset + length)
            && (next.phase == ReceivingChunks <==> length == 0 || offset + length <= |r.flash|)
            && (next.phase != ReceivingChunks ==> next.phase == Done(WriteError) && sent == [])
            && (next.phase == ReceivingChunks ==> sent == [[TYPE_CHUNK_ACK, p[1], p[2]]])
  {
    var b := Loaded(r.buff, p);
    FrontRead(r.buff, p);
    assert b[CHUNK_HEADER..CHUNK_HEADER + AnnouncedLength(p)] == p[CHUNK_HEADER..CHUNK_HEADER + AnnouncedLength(p)];
    assert b[0 := TYPE_CHUNK_ACK][..3] == [TYPE_CHUNK_ACK, p[1], p[2]];
  }

  lemma FrontRead(buff: Bytes, p: Bytes)
    requires CHUNK_HEADER <= |p| <= |buff|
    ensures var b := Loaded(buff, p);
            b[0] == p[0] && Read16(b, 1) == Read16(p, 1) && Read32(b, 3) == Read32(p, 3)
  {
    var b := Loaded(buff, p);
    assert forall i :: 0 <= i < 7 ==> b[i] == p[i];
  }

  /** The C code reads behind its buffer if and only if a chunk announces more than 521
      bytes. */
  lemma OverreadExact(r: Receiver, p: Bytes, platform: Platform)
    requires Valid(r) && CHUNK_HEADER <= |p| <= BUFFER_SIZE && r.phase.ReceivingChunks?
    ensures OnReceive(r, p, platform).0.phase == Done(Overread) <==> p[0] == TYPE_CHUNK && AnnouncedLength(p) > 521
  {
    hide Read16, Read32, Programmed;
    FrontRead(r.buff, p);
  }

  /** Whoever sends: a download succeeds only if a description was followed by the end of the
      flow, with no connection closed up to there. */
  lemma {:induction false} SuccessNeeds(r: Receiver, incoming: seq<Bytes>, platform: Platform)
    requires Valid(r) && forall i :: 0 <= i < |incoming| ==> |incoming[i]| <= BUFFER_SIZE
    requires !r.phase.Done? && Downloaded(r, incoming, platform).0.phase == Done(Success)
    ensures exists j :: 0 <= j < |incoming| && incoming[j] != [] && incoming[j][0] == TYPE_FLOW_END
                        && (forall i :: 0 <= i < j ==> incoming[i] != [])
                        && (r.phase.AwaitingDescription? ==>
                              exists i :: 0 <= i < j && incoming[i][0] == TYPE_DESCRIPTION)
    decreases |incoming|
  {
    hide OnDescription, OnChunk, Downloaded;
    SuccessStep(r, incoming, platform);
    var p, rest := incoming[0], incoming[1..];
    var next := OnReceive(r, p, platform).0;
    ReceiveValid(r, p, platform);
    if !next.phase.Done? {
      SuccessNeeds(next, rest, platform);
      var j :| 0 <= j < |rest| && rest[j] != [] && rest[j][0] == TYPE_FLOW_END
               && (forall i :: 0 <= i < j ==> rest[i] != [])
               && (next.phase.AwaitingDescription? ==> exists i :: 0 <= i < j && rest[i][0] == TYPE_DESCRIPTION);
      assert incoming[j + 1] == rest[j];
      forall i | 0 <= i < j + 1
        ensures incoming[i] != []
      {
        if i > 0 { assert incoming[i] == rest[i - 1]; }
      }
      if next.phase.AwaitingDescription? {
        var i :| 0 <= i < j && rest[i][0] == TYPE_DESCRIPTION;
        assert incoming[i + 1] == rest[i];
      }
    }
  }

  /** One packet of a download that succeeds. */
  lemma SuccessStep(r: Receiver, incoming: seq<Bytes>, platform: Platform)
    requires Valid(r) && forall i :: 0 <= i < |incoming| ==> |incoming[i]| <= BUFFER_SIZE
    requires !r.phase.Done? && Downloaded(r, incoming, platform).0.phase == Done(Success)
    ensures incoming != [] && incoming[0] != []
    ensures var next := OnReceive(r, incoming[0], platform).0;
            && Valid(next)
            && (next.phase.Done? ==> incoming[0][0] == TYPE_FLOW_END && r.phase.ReceivingChunks?)
            && (!next.phase.Done? ==> Downloaded(next, incoming[1..], platform).0.phase == Done(Success))
            && (r.phase.AwaitingDescription? && !next.phase.AwaitingDescription? ==> incoming[0][0] == TYPE_DESCRIPTION)
  {
    hide Read16, Read32, Programmed;
    ReceiveValid(r, incoming[0], platform);
    if incoming != [] && incoming[0] != [] { assert Loaded(r.buff, incoming[0])[0] == incoming[0][0]; }
  }
}
