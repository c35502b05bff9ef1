/** Both ends of the firmware transfer joined by two ordered channels that deliver whole
    packets: what any run of the two does to the flash of the device. */
module FirmwareTransfer {
  import opened Octets
  import opened FirmwarePackets
  import opened FirmwareUploader
  import opened FirmwareDownloader

  const SIZE_BYTE: byte := 64

  /** The two ends and the packets under way: `up` to the sender, `down` to the receiver. */
  datatype World = World(sender: Sender, receiver: Receiver, up: seq<Bytes>, down: seq<Bytes>)

  /** Either end handles its next packet. */
  ghost predicate Step(w: World, w': World, platform: Platform) {
    || (&& w.down != [] && |w.down[0]| <= BUFFER_SIZE && Valid(w.receiver) && !w.receiver.phase.Done?
        && var r := OnReceive(w.receiver, w.down[0], platform);
           w' == World(w.sender, r.0, w.up + r.1, w.down[1..]))
    || (&& w.up != []
        && var h := OnPacket(w.sender, w.up[0]);
           h.Handled? && w' == World(h.sender, w.receiver, w.up[1..], w.down + h.reply))
  }

  // ---------------------------------------------------------------- the chunks of a file

  /** What the flash is to hold: the file and a terminating zero. */
  function Image(file: Bytes): Bytes {
    file + [0]
  }

  function LastChunk(file: Bytes): nat {
    |file| / CHUNK_SIZE
  }

  function ChunkEnd(file: Bytes, k: nat): nat {
    if k < LastChunk(file) then CHUNK_SIZE * (k + 1) else |file| + 1
  }

  lemma ChunkBounds(file: Bytes, k: nat)
    requires k <= LastChunk(file)
    ensures CHUNK_SIZE * k <= |file|
    ensures k < LastChunk(file) <==> CHUNK_SIZE * (k + 1) <= |file|
    ensures CHUNK_SIZE * k < ChunkEnd(file, k) <= |file| + 1
    ensures ChunkEnd(file, k) <= CHUNK_SIZE * (k + 1)
    ensures k < LastChunk(file) ==> ChunkEnd(file, k) == CHUNK_SIZE * (k + 1)
  {}

  /** The bytes of the file in chunk `k`. */
  function FilePart(file: Bytes, k: nat): (d: Bytes)
    requires CHUNK_SIZE * k <= |file|
    ensures |d| <= CHUNK_SIZE
  {
    if CHUNK_SIZE * (k + 1) <= |file| then file[CHUNK_SIZE * k..CHUNK_SIZE * (k + 1)] else file[CHUNK_SIZE * k..]
  }

  /** The packet of chunk `k`. */
  function ChunkOf(file: Bytes, k: nat): (p: Bytes)
    requires k <= LastChunk(file) && k <= UINT16_MAX
    ensures |p| == CHUNK_HEADER + CHUNK_SIZE
  {
    ChunkBounds(file, k);
    var part := FilePart(file, k);
    Chunk(k, ChunkEnd(file, k) - CHUNK_SIZE * k, part + Zeros(CHUNK_SIZE - |part|))
  }

  /** The sender before it sends chunk `k`. */
  function SenderAt(file: Bytes, name: Bytes, k: nat): Sender {
    Sender(file, name, if CHUNK_SIZE * k <= |file| then CHUNK_SIZE * k else |file|, CHUNK_SIZE, k > LastChunk(file), k)
  }

  lemma SendsChunk(file: Bytes, name: Bytes, k: nat)
    requires k <= LastChunk(file) && k <= UINT16_MAX
    ensures SendChunk(SenderAt(file, name, k)) == Handled(SenderAt(file, name, k + 1), [ChunkOf(file, k)])
  {
    hide Chunk, Zeros;
    ChunkBounds(file, k);
    if k + 1 <= LastChunk(file) { ChunkBounds(file, k + 1); }
    var s := SenderAt(file, name, k);
    PartRead(s, file, k);
  }

  lemma PartRead(s: Sender, file: Bytes, k: nat)
    requires k <= LastChunk(file) && s.file == file && s.position == CHUNK_SIZE * k && s.chunkSize == CHUNK_SIZE
    ensures CHUNK_SIZE * k <= |file| && NextRead(s) == FilePart(file, k)
    ensures |NextRead(s)| < CHUNK_SIZE <==> k == LastChunk(file)
    ensures k == LastChunk(file) ==> |NextRead(s)| == |file| - CHUNK_SIZE * k
  {
    ChunkBounds(file, k);
    if CHUNK_SIZE * k == |file| { assert file[CHUNK_SIZE * k..] == []; }
  }

  // ---------------------------------------------------------------- what the receiver does

  /** The first `m` bytes of the image are in the flash. */
  ghost predicate Holds(flash: Bytes, file: Bytes, m: nat) {
    m <= |flash| && m <= |file| + 1 && forall i :: 0 <= i < m ==> flash[i] == Image(file)[i]
  }

  /** The part of the data buffer that counts is the part of the image. */
  lemma DataIsImage(file: Bytes, k: nat)
    requires k <= LastChunk(file)
    ensures CHUNK_SIZE * k <= |file| && CHUNK_SIZE * k < ChunkEnd(file, k) <= |file| + 1
    ensures var part := FilePart(file, k);
            var length := ChunkEnd(file, k) - CHUNK_SIZE * k;
            && length <= CHUNK_SIZE
            && (part + Zeros(CHUNK_SIZE - |part|))[..length] == Image(file)[CHUNK_SIZE * k..ChunkEnd(file, k)]
  {
    ChunkBounds(file, k);
  }

  lemma PacketFields(file: Bytes, k: nat, buff: Bytes)
    requires k <= LastChunk(file) && k <= UINT16_MAX && |buff| == BUFFER_SIZE
    ensures CHUNK_SIZE * k < ChunkEnd(file, k) <= |file| + 1
    ensures var b := Loaded(buff, ChunkOf(file, k));
            var length := ChunkEnd(file, k) - CHUNK_SIZE * k;
            && b[0] == TYPE_CHUNK && Read16(b, 1) == k && Read32(b, 3) == length && 0 < length <= CHUNK_SIZE
            && b[CHUNK_HEADER..CHUNK_HEADER + length] == Image(file)[CHUNK_SIZE * k..ChunkEnd(file, k)]
  {
    hide Read16, Read32, Chunk, Zeros, FilePart, Image, ChunkEnd, LastChunk;
    DataIsImage(file, k);
    var part := FilePart(file, k);
    var data := part + Zeros(CHUNK_SIZE - |part|);
    var length := ChunkEnd(file, k) - CHUNK_SIZE * k;
    var b := Loaded(buff, ChunkOf(file, k));
    assert b[..CHUNK_HEADER + |data|] == Chunk(k, length, data);
    ChunkFields(k, length, data, b);
    assert b[CHUNK_HEADER..CHUNK_HEADER + length] == data[..length];
  }

  /** Chunk `k` is acknowledged when the flash has room for it, and then written. */
  lemma ReceivesChunk(r: Receiver, file: Bytes, k: nat, platform: Platform)
    requires Valid(r) && r.phase.ReceivingChunks? && k <= LastChunk(file) && k <= UINT16_MAX
    requires CHUNK_SIZE * k <= |r.flash| ==> Holds(r.flash, file, CHUNK_SIZE * k)
    requires r.codeLen == CHUNK_SIZE * k
    ensures var o := OnReceive(r, ChunkOf(file, k), platform);
            var end := ChunkEnd(file, k);
            && Valid(o.0) && |o.0.flash| == |r.flash| && o.0.codeLen == end
            && (end <= |r.flash| ==>
                  && o.1 == [Ack(k)] && o.0.phase == ReceivingChunks && Holds(o.0.flash, file, end))
            && (end > |r.flash| ==> o.1 == [] && o.0.phase == Done(WriteError))
  {
    hide Chunk, Read16, Read32, ChunkOf, Programmed, Holds, Image, ChunkEnd, LastChunk, Loaded, Ack;
    PacketFields(file, k, r.buff);
    var b := Loaded(r.buff, ChunkOf(file, k));
    AckBytes(b, k);
    ProgrammedHolds(r.flash, file, CHUNK_SIZE * k, ChunkEnd(file, k));
  }

  lemma AckBytes(b: Bytes, k: nat)
    requires |b| >= 3 && k <= UINT16_MAX && Read16(b, 1) == k
    ensures b[0 := TYPE_CHUNK_ACK][..3] == Ack(k)
  {
    var low: int, high: int := b[1], b[2];
    assert k == low + 256 * high;
    assert k % 256 == low && k / 256 == high;
  }

  lemma ProgrammedHolds(flash: Bytes, file: Bytes, m: nat, end: nat)
    requires m <= end <= |file| + 1
    requires m <= |flash| ==> Holds(flash, file, m)
    ensures end <= |flash| ==> Holds(Programmed(flash, m, Image(file)[m..end]), file, end)
  {}

  // ---------------------------------------------------------------- the stages of a run

  datatype Stage =
    | Asked | Described | Starting
    | Sent(k: nat) | Acked(k: nat)
    | Ended | Stopped(result: Result)

  function Count(file: Bytes): nat {
    DeclaredCount(|file|, CHUNK_SIZE)
  }

  /** How the download of a file must end on a device. */
  function Verdict(file: Bytes, capacity: nat, platform: Platform): Result {
    if Count(file) * CHUNK_SIZE > platform.maxMemory then MemoryError
    else if !platform.erases || |file| + 1 > capacity then WriteError
    else Success
  }

  /** What is true at each stage: at most one packet is under way, and the flash holds
      exactly the acknowledged chunks. */
  ghost predicate At(w: World, file: Bytes, name: Bytes, capacity: nat, platform: Platform, stage: Stage) {
    && Valid(w.receiver) && |w.receiver.flash| == capacity
    && (stage.Sent? || stage.Acked? ==> stage.k <= LastChunk(file) && stage.k <= UINT16_MAX)
    && (!stage.Asked? && !stage.Described? && !stage.Stopped? ==>
          platform.erases && Count(file) * CHUNK_SIZE <= platform.maxMemory)
    && match stage
       case Asked =>
         && w.up == [Request(SIZE_BYTE)] && w.down == []
         && w.sender == Connected(file, name) && w.receiver.phase == AwaitingDescription
       case Described =>
         && w.up == [] && Count(file) <= UINT16_MAX && w.down == [Description(Count(file), name)]
         && w.sender == SenderAt(file, name, 0) && w.receiver.phase == AwaitingDescription
       case Starting =>
         && w.up == [[TYPE_FLOW_START]] && w.down == []
         && w.sender == SenderAt(file, name, 0) && w.receiver.phase == ReceivingChunks && w.receiver.codeLen == 0
       case Sent(k) =>
         && w.up == [] && w.down == [ChunkOf(file, k)]
         && w.sender == SenderAt(file, name, k + 1) && w.receiver.phase == ReceivingChunks
         && w.receiver.codeLen == CHUNK_SIZE * k
         && Holds(w.receiver.flash, file, CHUNK_SIZE * k)
       case Acked(k) =>
         && w.up == [Ack(k)] && w.down == []
         && w.sender == SenderAt(file, name, k + 1) && w.receiver.phase == ReceivingChunks
         && w.receiver.codeLen == ChunkEnd(file, k)
         && Holds(w.receiver.flash, file, ChunkEnd(file, k))
       case Ended =>
         && w.up == [] && w.down == [[TYPE_FLOW_END]]
         && w.sender == SenderAt(file, name, LastChunk(file) + 1) && w.receiver.phase == ReceivingChunks
         && w.receiver.codeLen == |file| + 1
         && Holds(w.receiver.flash, file, |file| + 1)
       case Stopped(result) =>
         && w.up == [] && w.down == [] && w.receiver.phase == Done(result)
         && result == Verdict(file, capacity, platform)
         && (result.Success? ==>
               && w.sender == SenderAt(file, name, LastChunk(file) + 1)
               && w.receiver.codeLen == |file| + 1
               && Holds(w.receiver.flash, file, |file| + 1))
  }

  /** The only stage that can follow. */
  function Following(stage: Stage, file: Bytes, capacity: nat, platform: Platform): Stage {
    match stage
    case Asked => Described
    case Described =>
      if Count(file) * CHUNK_SIZE <= platform.maxMemory && platform.erases then Starting
      else Stopped(Verdict(file, capacity, platform))
    case Starting => Sent(0)
    case Sent(k) => if ChunkEnd(file, k) <= capacity then Acked(k) else Stopped(WriteError)
    case Acked(k) => if k < LastChunk(file) then Sent(k + 1) else Ended
    case Ended => Stopped(Success)
    case Stopped(result) => stage
  }

  /** The limits of the packet formats: chunk ids and the chunk count are 16-bit numbers,
      and the description fits the receive buffer. */
  predicate Sendable(file: Bytes, name: Bytes) {
    Count(file) <= UINT16_MAX && LastChunk(file) <= UINT16_MAX && 5 + |name| <= BUFFER_SIZE
  }

  lemma StepAsked(w: World, w': World, file: Bytes, name: Bytes, capacity: nat, platform: Platform)
    requires Sendable(file, name) && At(w, file, name, capacity, platform, Asked)
    ensures Step(w, w', platform) <==>
            w' == World(SenderAt(file, name, 0), w.receiver, [], [Description(Count(file), name)])
  {
    hide DeclaredCount, Description;
    assert w.up[1..] == [] && w.down + [Description(Count(file), name)] == [Description(Count(file), name)];
    assert OnPacket(w.sender, w.up[0]) == Handled(SenderAt(file, name, 0), [Description(Count(file), name)]);
  }

  lemma StepDescribed(w: World, w': World, file: Bytes, name: Bytes, capacity: nat, platform: Platform)
    requires Sendable(file, name) && At(w, file, name, capacity, platform, Described) && Step(w, w', platform)
    ensures At(w', file, name, capacity, platform, Following(Described, file, capacity, platform))
  {
    hide DeclaredCount, Description, Read16;
    var b := Loaded(w.receiver.buff, w.down[0]);
    assert b[..5 + |name|] == Description(Count(file), name);
    DescriptionFields(Count(file), name, b);
  }

  lemma StepStarting(w: World, w': World, file: Bytes, name: Bytes, capacity: nat, platform: Platform)
    requires Sendable(file, name) && At(w, file, name, capacity, platform, Starting) && Step(w, w', platform)
    ensures At(w', file, name, capacity, platform, Sent(0))
  {
    hide DeclaredCount, ChunkOf, SendChunk;
    SendsChunk(file, name, 0);
  }

  lemma StepSent(w: World, w': World, file: Bytes, name: Bytes, capacity: nat, platform: Platform, k: nat)
    requires Sendable(file, name) && At(w, file, name, capacity, platform, Sent(k)) && Step(w, w', platform)
    ensures At(w', file, name, capacity, platform, Following(Sent(k), file, capacity, platform))
  {
    hide DeclaredCount, ChunkOf, OnReceive, Holds, LastChunk, ChunkEnd;
    ReceivesChunk(w.receiver, file, k, platform);
    ChunkEndBound(file, k);
  }

  lemma ChunkEndBound(file: Bytes, k: nat)
    requires k <= LastChunk(file)
    ensures ChunkEnd(file, k) <= |file| + 1
  {
    ChunkBounds(file, k);
  }

  lemma StepAcked(w: World, w': World, file: Bytes, name: Bytes, capacity: nat, platform: Platform, k: nat)
    requires Sendable(file, name) && At(w, file, name, capacity, platform, Acked(k)) && Step(w, w', platform)
    ensures At(w', file, name, capacity, platform, Following(Acked(k), file, capacity, platform))
  {
    hide DeclaredCount, ChunkOf, SendChunk, Holds;
    if k < LastChunk(file) {
      ChunkBounds(file, k);
      SendsChunk(file, name, k + 1);
    }
  }

  lemma StepEnded(w: World, w': World, file: Bytes, name: Bytes, capacity: nat, platform: Platform)
    requires Sendable(file, name) && At(w, file, name, capacity, platform, Ended) && Step(w, w', platform)
    ensures At(w', file, name, capacity, platform, Stopped(Success))
  {
    hide DeclaredCount, ChunkEnd;
  }

  /** Every step leads to the following stage. */
  lemma StepStage(w: World, w': World, file: Bytes, name: Bytes, capacity: nat, platform: Platform, stage: Stage)
    requires Sendable(file, name) && At(w, file, name, capacity, platform, stage) && Step(w, w', platform)
    ensures !stage.Stopped? && At(w', file, name, capacity, platform, Following(stage, file, capacity, platform))
  {
    match stage {
      case Asked =>
        StepAsked(w, w', file, name, capacity, platform);
      case Described => StepDescribed(w, w', file, name, capacity, platform);
      case Starting => StepStarting(w, w', file, name, capacity, platform);
      case Sent(k) => StepSent(w, w', file, name, capacity, platform, k);
      case Acked(k) => StepAcked(w, w', file, name, capacity, platform, k);
      case Ended => StepEnded(w, w', file, name, capacity, platform);
      case Stopped(_) => assert false;
    }
  }

  /** As long as the receiver has not stopped, a step is possible. */
  lemma StepPossible(w: World, file: Bytes, name: Bytes, capacity: nat, platform: Platform, stage: Stage)
    returns (w': World)
    requires Sendable(file, name) && At(w, file, name, capacity, platform, stage) && !stage.Stopped?
    ensures Step(w, w', platform)
  {
    hide DeclaredCount, ChunkOf, SendChunk, Holds, OnReceive, Description;
    if w.down != [] {
      var r := OnReceive(w.receiver, w.down[0], platform);
      w' := World(w.sender, r.0, w.up + r.1, w.down[1..]);
    } else {
      if stage.Starting? { SendsChunk(file, name, 0); }
      if stage.Acked? && stage.k < LastChunk(file) { SendsChunk(file, name, stage.k + 1); }
      var h := OnPacket(w.sender, w.up[0]);
      w' := World(h.sender, w.receiver, w.up[1..], w.down + h.reply);
    }
  }

  // ---------------------------------------------------------------- whole runs

  function Initial(file: Bytes, name: Bytes, buff: Bytes, flash: Bytes): World {
    World(Connected(file, name), Receiver(buff, flash, 0, AwaitingDescription), [Request(SIZE_BYTE)], [])
  }

  ghost predicate IsRun(ws: seq<World>, platform: Platform) {
    ws != [] && forall i :: 0 <= i < |ws| - 1 ==> Step(ws[i], ws[i + 1], platform)
  }

  /** The stage after `i` steps. */
  function StageAt(i: nat, file: Bytes, capacity: nat, platform: Platform): Stage {
    if i == 0 then Asked else Following(StageAt(i - 1, file, capacity, platform), file, capacity, platform)
  }

  /** How many steps a download of the file still takes at most. */
  function Remaining(stage: Stage, file: Bytes): int {
    var c := LastChunk(file);
    match stage
    case Asked => 2 * c + 6
    case Described => 2 * c + 5
    case Starting => 2 * c + 4
    case Sent(k) => 2 * (c - k) + 3
    case Acked(k) => 2 * (c - k) + 2
    case Ended => 1
    case Stopped(_) => 0
  }

  lemma {:induction false} RunStage(ws: seq<World>, file: Bytes, name: Bytes, platform: Platform, i: nat)
    requires Sendable(file, name) && IsRun(ws, platform) && i < |ws|
    requires ws[0] == Initial(file, name, ws[0].receiver.buff, ws[0].receiver.flash)
    requires |ws[0].receiver.buff| == BUFFER_SIZE
    ensures var capacity := |ws[0].receiver.flash|;
            var stage := StageAt(i, file, capacity, platform);
            && At(ws[i], file, name, capacity, platform, stage)
            && 0 <= Remaining(stage, file) <= 2 * LastChunk(file) + 6 - i
    decreases i
  {
    hide At, Step, Sendable;
    var capacity := |ws[0].receiver.flash|;
    if i == 0 {
      InitialAsked(ws[0], file, name, platform);
    } else {
      RunStage(ws, file, name, platform, i - 1);
      var stage := StageAt(i - 1, file, capacity, platform);
      StepStage(ws[i - 1], ws[i], file, name, capacity, platform, stage);
      StageBounds(ws[i - 1], file, name, capacity, platform, stage);
    }
  }

  lemma InitialAsked(w: World, file: Bytes, name: Bytes, platform: Platform)
    requires w == Initial(file, name, w.receiver.buff, w.receiver.flash) && |w.receiver.buff| == BUFFER_SIZE
    ensures At(w, file, name, |w.receiver.flash|, platform, Asked)
  {}

  lemma StageBounds(w: World, file: Bytes, name: Bytes, capacity: nat, platform: Platform, stage: Stage)
    requires At(w, file, name, capacity, platform, stage)
    ensures stage.Sent? || stage.Acked? ==> stage.k <= LastChunk(file)
  {}

  /** Every run is finite, has at most one packet under way at every moment, and while
      chunks are received the flash holds exactly what has been acknowledged. */
  lemma RunSafe(ws: seq<World>, file: Bytes, name: Bytes, platform: Platform, i: nat)
    requires Sendable(file, name) && IsRun(ws, platform) && i < |ws|
    requires ws[0] == Initial(file, name, ws[0].receiver.buff, ws[0].receiver.flash)
    requires |ws[0].receiver.buff| == BUFFER_SIZE
    ensures |ws| <= 2 * LastChunk(file) + 7
    ensures |ws[i].up| + |ws[i].down| <= 1
    ensures ws[i].receiver.phase == ReceivingChunks ==> Holds(ws[i].receiver.flash, file, ws[i].receiver.codeLen)
  {
    hide Step, IsRun, Sendable, StageAt, LastChunk;
    var capacity := |ws[0].receiver.flash|;
    RunStage(ws, file, name, platform, |ws| - 1);
    RunStage(ws, file, name, platform, i);
    AtSafe(ws[i], file, name, capacity, platform, StageAt(i, file, capacity, platform));
  }

  lemma AtSafe(w: World, file: Bytes, name: Bytes, capacity: nat, platform: Platform, stage: Stage)
    requires At(w, file, name, capacity, platform, stage)
    ensures |w.up| + |w.down| <= 1
    ensures w.receiver.phase == ReceivingChunks ==> Holds(w.receiver.flash, file, w.receiver.codeLen)
  {
    hide ChunkOf, Description;
  }

  /** Neither end has anything to do. */
  ghost predicate Halted(w: World, platform: Platform) {
    forall w' :: !Step(w, w', platform)
  }

  /** A run that cannot go on has ended with the verdict.  After a success the flash holds
      the file and a zero byte, and `LastChunk + 1` chunks were sent. */
  lemma RunEnds(ws: seq<World>, file: Bytes, name: Bytes, platform: Platform, w: World)
    requires Sendable(file, name) && IsRun(ws, platform) && w == ws[|ws| - 1] && Halted(w, platform)
    requires ws[0] == Initial(file, name, ws[0].receiver.buff, ws[0].receiver.flash)
    requires |ws[0].receiver.buff| == BUFFER_SIZE
    ensures var verdict := Verdict(file, |ws[0].receiver.flash|, platform);
            && w.receiver.phase == Done(verdict)
            && (verdict.Success? ==>
                  && |file| + 1 <= |w.receiver.flash| && w.receiver.flash[..|file| + 1] == file + [0]
                  && w.receiver.codeLen == |file| + 1
                  && w.sender.currChunk == LastChunk(file) + 1)
  {
    hide Step, Sendable, StageAt, LastChunk, Verdict;
    var capacity := |ws[0].receiver.flash|;
    RunStage(ws, file, name, platform, |ws| - 1);
    var stage := StageAt(|ws| - 1, file, capacity, platform);
    if !stage.Stopped? {
      var w' := StepPossible(w, file, name, capacity, platform, stage);
    }
    StoppedImage(w, file, name, capacity, platform, stage);
  }

  lemma StoppedImage(w: World, file: Bytes, name: Bytes, capacity: nat, platform: Platform, stage: Stage)
    requires At(w, file, name, capacity, platform, stage) && stage.Stopped?
    ensures var verdict := Verdict(file, capacity, platform);
            && w.receiver.phase == Done(verdict)
            && (verdict.Success? ==>
                  && |file| + 1 <= |w.receiver.flash| && w.receiver.flash[..|file| + 1] == file + [0]
                  && w.receiver.codeLen == |file| + 1
                  && w.sender.currChunk == LastChunk(file) + 1)
  {
    hide Verdict;
  }

  lemma CeilTwice(n: nat, eights: nat, c: nat, q: nat, r: nat)
    requires n <= 8 * eights < n + 8 && 8 * eights <= 512 * c < 8 * eights + 512
    requires n == 512 * q + r && r < 512
    ensures c == q + if r == 0 then 0 else 1
  {
    var d: int, m: int := eights - 64 * q, c - q;
    assert r <= 8 * d < r + 8;
    assert 8 * d <= 512 * m < 8 * d + 512;
    if r == 0 {
      assert d == 0;
    } else {
      assert 1 <= d <= 64;
    }
  }

  /** The chunks sent against the count declared: one more when the chunk size divides
      the file size, for the terminating zero then needs a chunk of its own. */
  lemma ChunksSent(file: Bytes)
    ensures LastChunk(file) + 1 == Count(file) + if |file| % CHUNK_SIZE == 0 then 1 else 0
  {
    hide Ceil;
    var n := |file|;
    var eights := Ceil(n, CHUNK_MULTIPLIER);
    CeilTwice(n, eights, Ceil(CHUNK_MULTIPLIER * eights, CHUNK_SIZE), n / CHUNK_SIZE, n % CHUNK_SIZE);
  }

  // ---------------------------------------------------------------- the memory check

  /** The chunk count times its size, against the size of the file. */
  lemma CountBounds(file: Bytes)
    ensures |file| <= CHUNK_SIZE * Count(file)
    ensures |file| % CHUNK_SIZE == 0 ==> CHUNK_SIZE * Count(file) == |file|
  {
    hide Count;
    ChunksSent(file);
  }

  /** The check of the declared chunks against the memory reported keeps every download from
      ending in a write error if and only if the code area is larger than the whole chunks
      the reported memory holds. */
  lemma MemoryCheckExact(maxMemory: nat, capacity: nat)
    ensures (forall file: Bytes :: Verdict(file, capacity, Platform(maxMemory, true)) != WriteError) <==>
            capacity > CHUNK_SIZE * (maxMemory / CHUNK_SIZE)
  {
    hide Count;
    var platform := Platform(maxMemory, true);
    var full := Zeros(CHUNK_SIZE * (maxMemory / CHUNK_SIZE));
    CountBounds(full);
    assert Verdict(full, capacity, platform) == WriteError <==> |full| + 1 > capacity;
    forall file: Bytes | Verdict(file, capacity, platform) == WriteError
      ensures capacity <= |full|
    {
      CountBounds(file);
      WholeChunks(Count(file), maxMemory);
    }
  }

  lemma WholeChunks(count: nat, memory: nat)
    requires count * CHUNK_SIZE <= memory
    ensures count * CHUNK_SIZE <= CHUNK_SIZE * (memory / CHUNK_SIZE)
  {
    assert memory == CHUNK_SIZE * (memory / CHUNK_SIZE) + memory % CHUNK_SIZE;
  }

  const SECTOR_SIZE := 131072
  const METADATA_SIZE := 20
  const REPORTED_MEMORY := SECTOR_SIZE - 64

  /** What the STM32 flash sector has left for the code behind the metadata and the name with
      its terminating zero. */
  function CodeArea(name: Bytes): nat
    requires |name| < SECTOR_SIZE - METADATA_SIZE
  {
    SECTOR_SIZE - METADATA_SIZE - (|name| + 1)
  }

  /** On that platform the check is sufficient for names of at most 490 bytes: it ignores the
      name, which shortens the code area. */
  lemma Stm32MemoryCheck(name: Bytes)
    requires 5 + |name| <= BUFFER_SIZE
    ensures (forall file: Bytes | Sendable(file, name) ::
               Verdict(file, CodeArea(name), Platform(REPORTED_MEMORY, true)) != WriteError) <==>
            |name| <= 490
  {
    hide Count, Verdict;
    MemoryCheckExact(REPORTED_MEMORY, CodeArea(name));
    if |name| > 490 {
      var file := Zeros(130560);
      LongNameFails(file, name);
      assert Sendable(file, name);
    }
  }

  /** A file of 255 whole chunks passes the check under any name, and is written under the
      shorter ones only. */
  lemma LongNameFails(file: Bytes, name: Bytes)
    requires |file| == 130560 && 5 + |name| <= BUFFER_SIZE
    ensures Verdict(file, CodeArea(name), Platform(REPORTED_MEMORY, true)) ==
            if |name| <= 490 then Success else WriteError
    ensures Sendable(file, name)
  {
    hide Count;
    CountBounds(file);
  }
}
