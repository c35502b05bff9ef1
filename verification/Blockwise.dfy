/** CoAP block-wise transfer: reassembly of a request body (src/lwm2m/core/block1.c) and
    slicing of a response body (src/lwm2m/core/packet.c), sections 2.4, 2.5 and 2.9 of
    RFC 7959. */
module Blockwise {
  import opened Octets
  import opened Text

  const MAX_BLOCK1_SIZE := 4096
  const REST_MAX_CHUNK_SIZE := 128

  // ---------------------------------------------------------------- reassembly

  /** `lwm2m_block1_data_t` of one server, if a transfer has begun. */
  datatype Transfer = Idle | Active(buffer: Bytes, lastMid: nat)

  datatype Block = Block(mid: nat, payload: Bytes, size: nat, num: nat, more: bool)

  /** 2.31, the whole body, 4.08, or 4.13. */
  datatype Answer = Continue | Complete(body: Bytes) | Incomplete | TooLarge

  /** `coap_block1_handler`. */
  function Handled(t: Transfer, b: Block): (Transfer, Answer) {
    if b.num == 0 then
      (Active(b.payload, b.mid), if b.more then Continue else Complete(b.payload))
    else if t.Idle? then (t, Incomplete)
    else if t.lastMid == b.mid then (t, if b.more then Continue else Complete(t.buffer))
    else if |t.buffer| != b.size * b.num then (t, Incomplete)
    else if |t.buffer| + |b.payload| >= MAX_BLOCK1_SIZE then (t, TooLarge)
    else
      var buffer := t.buffer + b.payload;
      (Active(buffer, b.mid), if b.more then Continue else Complete(buffer))
  }

  class Slot {
    var started: bool
    var buffer: array<byte>
    var lastMid: nat

    constructor ()
      ensures Value() == Idle && fresh(buffer)
    {
      started, lastMid := false, 0;
      buffer := new byte[0];
    }

    ghost function Value(): Transfer
      reads this, buffer
    {
      if started then Active(buffer[..], lastMid) else Idle
    }

    /** Two `memcpy` calls into a buffer just allocated. */
    static method Joined(a: Bytes, b: Bytes) returns (r: array<byte>)
      ensures fresh(r) && r[..] == a + b
    {
      r := new byte[|a| + |b|];
      for i := 0 to |a|
        invariant forall k :: 0 <= k < i ==> r[k] == a[k]
      {
        r[i] := a[i];
      }
      for i := 0 to |b|
        invariant forall k :: 0 <= k < |a| ==> r[k] == a[k]
        invariant forall k :: |a| <= k < |a| + i ==> r[k] == b[k - |a|]
      {
        r[|a| + i] := b[i];
      }
    }

    method Handle(b: Block) returns (answer: Answer)
      modifies this
      ensures (Value(), answer) == Handled(old(Value()), b)
    {
      if b.num == 0 {
        started := true;
        buffer := Joined([], b.payload);
        assert [] + b.payload == b.payload;
        lastMid := b.mid;
      } else {
        if !started { return Incomplete; }
        if lastMid != b.mid {
          var oldBuffer := buffer;
          if buffer.Length != b.size * b.num { return Incomplete; }
          if buffer.Length + |b.payload| >= MAX_BLOCK1_SIZE { return TooLarge; }
          buffer := Joined(oldBuffer[..], b.payload);
          lastMid := b.mid;
        }
      }
      if b.more { return Continue; }
      return Complete(buffer[..]);
    }
  }

  /** A block that becomes part of the body. */
  predicate Accepted(t: Transfer, b: Block) {
    || b.num == 0
    || (t.Active? && t.lastMid != b.mid && |t.buffer| == b.size * b.num && |t.buffer| + |b.payload| < MAX_BLOCK1_SIZE)
  }

  /** The transfer after a sequence of blocks. */
  function After(t: Transfer, blocks: seq<Block>): Transfer {
    if blocks == [] then t else Handled(After(t, blocks[..|blocks| - 1]), blocks[|blocks| - 1]).0
  }

  /** The blocks accepted since the last block 0. */
  function Log(t: Transfer, blocks: seq<Block>): (log: seq<Block>)
    ensures |log| <= |blocks|
  {
    if blocks == [] then []
    else
      var front, b := blocks[..|blocks| - 1], blocks[|blocks| - 1];
      if b.num == 0 then [b]
      else if Accepted(After(t, front), b) then Log(t, front) + [b]
      else Log(t, front)
  }

  function Payloads(log: seq<Block>): Bytes {
    if log == [] then [] else Payloads(log[..|log| - 1]) + log[|log| - 1].payload
  }

  lemma PayloadsAdd(log: seq<Block>, b: Block)
    ensures Payloads(log + [b]) == Payloads(log) + b.payload
  {
    assert (log + [b])[..|log|] == log;
  }

  /** Whatever blocks arrive, the buffer is the concatenation of the payloads accepted
      since the last block 0, and the message id is that of the last of them. */
  lemma {:induction false} BufferIsLog(blocks: seq<Block>)
    ensures var t, log := After(Idle, blocks), Log(Idle, blocks);
            if log == [] then t == Idle else t == Active(Payloads(log), log[|log| - 1].mid)
  {
    if blocks != [] {
      var front, b := blocks[..|blocks| - 1], blocks[|blocks| - 1];
      BufferIsLog(front);
      if b.num == 0 {
        PayloadsAdd([], b);
        assert [] + [b] == [b];
      } else if Accepted(After(Idle, front), b) {
        PayloadsAdd(Log(Idle, front), b);
      }
    }
  }

  /** The answer to a block after any blocks.  A repeated message is answered from the body so
      far; 4.08 says that no block 0 came or that the block does not continue the body, 4.13
      that the body would reach the limit. */
  lemma AnswerExact(blocks: seq<Block>, b: Block)
    ensures var log := Log(Idle, blocks);
            var answer, body := Handled(After(Idle, blocks), b).1, Payloads(log);
            var again := b.num != 0 && log != [] && log[|log| - 1].mid == b.mid;
            && (answer == Incomplete <==> b.num != 0 && (log == [] || (!again && |body| != b.size * b.num)))
            && (answer == TooLarge <==> b.num != 0 && log != [] && !again && |body| == b.size * b.num
                                        && |body| + |b.payload| >= 4096)
            && (answer == Continue ==> b.more)
            && (answer.Complete? ==>
                  !b.more && answer.body == if again then body else Payloads(Log(Idle, blocks + [b])))
  {
    hide Payloads;
    BufferIsLog(blocks);
    BufferIsLog(blocks + [b]);
    assert (blocks + [b])[..|blocks|] == blocks;
  }

  /** All blocks but the last are full blocks of one size. */
  predicate FullBlocks(log: seq<Block>, size: nat) {
    && (forall i :: 0 <= i < |log| ==> log[i].size == size)
    && (forall i :: 0 <= i < |log| - 1 ==> |log[i].payload| == size)
  }

  lemma {:induction false} FullLength(log: seq<Block>, size: nat)
    requires forall i :: 0 <= i < |log| ==> |log[i].payload| == size
    ensures |Payloads(log)| == |log| * size
  {
    if log != [] {
      FullLength(log[..|log| - 1], size);
      OneMore(|log| - 1, size);
    }
  }

  lemma OneMore(n: nat, size: nat)
    ensures n * size + size == (n + 1) * size
  {}

  /** With full blocks of one size the accepted numbers are exactly 0, 1, 2 and so on. */
  lemma {:induction false} NumbersInOrder(blocks: seq<Block>, size: nat)
    requires size > 0 && FullBlocks(Log(Idle, blocks), size)
    ensures forall i :: 0 <= i < |Log(Idle, blocks)| ==> Log(Idle, blocks)[i].num == i
  {
    hide After, Payloads;
    if blocks != [] {
      var front, b := blocks[..|blocks| - 1], blocks[|blocks| - 1];
      var before, log := Log(Idle, front), Log(Idle, blocks);
      if b.num != 0 && Accepted(After(Idle, front), b) {
        assert forall i :: 0 <= i < |before| ==> log[i] == before[i];
        assert log[|before|] == b && log == before + [b];
        NumbersInOrder(front, size);
        BufferIsLog(front);
        FullLength(before, size);
        SameFactor(|before|, b.num, size);
      } else if b.num != 0 {
        NumbersInOrder(front, size);
      }
    }
  }

  lemma SameFactor(a: nat, b: nat, size: nat)
    requires size > 0 && a * size == size * b
    ensures a == b
  {
    FactorOrder(a, b, size);
    FactorOrder(b, a, size);
  }

  lemma FactorOrder(a: nat, b: nat, size: nat)
    requires size > 0
    ensures a < b ==> a * size < b * size
  {
    if a < b { assert (b - a) * size > 0; }
  }

  /** A block handled twice in a row leaves the same transfer and gets the same answer. */
  lemma Retransmission(t: Transfer, b: Block)
    ensures var first := Handled(t, b); Handled(first.0, b) == first
  {}

  /** The buffer stays under the limit exactly as long as no block 0 reaches it: that one
      is not checked. */
  lemma {:induction false} SizeBound(blocks: seq<Block>)
    ensures SmallThroughout(blocks) <==>
            forall k :: 0 <= k < |blocks| && blocks[k].num == 0 ==> |blocks[k].payload| < MAX_BLOCK1_SIZE
  {
    if blocks != [] {
      var front, b := blocks[..|blocks| - 1], blocks[|blocks| - 1];
      SizeBound(front);
      SmallStep(After(Idle, front), b);
      SmallThroughoutStep(blocks);
      assert forall k :: 0 <= k < |front| ==> front[k] == blocks[k];
    } else {
      assert blocks[..0] == [];
    }
  }

  ghost predicate SmallThroughout(blocks: seq<Block>) {
    forall k :: 0 <= k <= |blocks| ==> Small(After(Idle, blocks[..k]))
  }

  lemma SmallThroughoutStep(blocks: seq<Block>)
    requires blocks != []
    ensures var front := blocks[..|blocks| - 1];
            && (SmallThroughout(blocks) <==> SmallThroughout(front) && Small(After(Idle, blocks)))
            && (SmallThroughout(front) ==> Small(After(Idle, front)))
  {
    hide After, Small;
    var front := blocks[..|blocks| - 1];
    assert forall k :: 0 <= k <= |front| ==> front[..k] == blocks[..k];
    assert blocks[..|blocks|] == blocks && front[..|front|] == front;
  }

  predicate Small(t: Transfer) {
    t.Active? ==> |t.buffer| < MAX_BLOCK1_SIZE
  }

  lemma SmallStep(t: Transfer, b: Block)
    ensures Small(t) ==> (Small(Handled(t, b).0) <==> b.num != 0 || |b.payload| < MAX_BLOCK1_SIZE)
    ensures b.num == 0 ==> (Small(Handled(t, b).0) <==> |b.payload| < MAX_BLOCK1_SIZE)
  {}

  // ---------------------------------------------------------------- slicing

  /** What a request for block `num` of a body is answered: the slice and whether more
      follow, or 4.02 when it starts behind the end. */
  datatype Slice = Part(bytes: Bytes, more: bool) | OutOfScope

  function Min(a: nat, b: nat): nat { if a < b then a else b }

  function Offset(num: nat, size: nat): nat { num * size }

  /** The Block2 part of `lwm2m_handle_packet`: the offset counts in the size asked for,
      the slice in the size given. */
  function Sliced(body: Bytes, size: nat, num: nat): Slice {
    var offset := Offset(num, size);
    var given := Min(size, REST_MAX_CHUNK_SIZE);
    if offset >= |body| then OutOfScope
    else Part(body[offset..offset + Min(|body| - offset, given)], |body| - offset > given)
  }

  method SliceBody(body: Bytes, size: nat, num: nat) returns (s: Slice)
    ensures s == Sliced(body, size, num)
  {
    hide Offset;
    var blockOffset := Offset(num, size);
    var blockSize := size;
    if blockSize > REST_MAX_CHUNK_SIZE { blockSize := REST_MAX_CHUNK_SIZE; }
    if blockOffset >= |body| { return OutOfScope; }
    var more := |body| - blockOffset > blockSize;
    var end := if |body| - blockOffset < blockSize then |body| else blockOffset + blockSize;
    return Part(body[blockOffset..end], more);
  }

  // ---------------------------------------------------------------- fetching a body in slices

  lemma OffsetNext(num: nat, size: nat)
    ensures Offset(num + 1, size) == Offset(num, size) + size && Offset(0, size) == 0
  {}

  lemma OffsetTimes(num: nat, size: nat)
    ensures Offset(num, size) == size * num
  {}

  /** The slices from block `k` on, joined, until one says that no more follow. */
  function Fetched(body: Bytes, size: nat, k: nat): (r: Option<Bytes>)
    requires size > 0
    decreases |body| - Offset(k, size)
  {
    match Sliced(body, size, k)
    case OutOfScope => None
    case Part(bytes, more) =>
      if !more then Some(bytes)
      else
        OffsetNext(k, size);
        match Fetched(body, size, k + 1)
        case None => None
        case Some(rest) => Some(bytes + rest)
  }

  /** With slices as large as asked for the rest of the body comes back. */
  lemma {:induction false} FetchedRest(body: Bytes, size: nat, k: nat)
    requires 0 < size <= REST_MAX_CHUNK_SIZE && Offset(k, size) < |body|
    ensures Fetched(body, size, k) == Some(body[Offset(k, size)..])
    decreases |body| - Offset(k, size)
  {
    hide Offset;
    var offset := Offset(k, size);
    OffsetNext(k, size);
    if |body| - offset > size {
      FetchedRest(body, size, k + 1);
      assert body[offset..] == body[offset..offset + size] + body[offset + size..];
    } else {
      assert offset + Min(|body| - offset, size) == |body|;
      assert body[offset..|body|] == body[offset..];
    }
  }

  /** What is fetched is never longer than the rest of the body. */
  lemma {:induction false} FetchedLength(body: Bytes, size: nat, k: nat)
    requires size > 0 && Offset(k, size) < |body|
    ensures Fetched(body, size, k).Some? ==> |Fetched(body, size, k).value| <= |body| - Offset(k, size)
    decreases |body| - Offset(k, size)
  {
    hide Offset;
    OffsetNext(k, size);
    if Sliced(body, size, k).more && Offset(k + 1, size) < |body| { FetchedLength(body, size, k + 1); }
  }

  /** A body fetched block by block arrives whole exactly when it is not empty and either
      the size asked for is the size given or one slice holds it all. */
  lemma FetchExact(body: Bytes, size: nat)
    requires size > 0
    ensures Fetched(body, size, 0) == Some(body) <==>
            body != [] && (size <= REST_MAX_CHUNK_SIZE || |body| <= REST_MAX_CHUNK_SIZE)
  {
    hide Offset;
    OffsetNext(0, size);
    if body != [] {
      if size <= REST_MAX_CHUNK_SIZE {
        FetchedRest(body, size, 0);
        assert body[0..] == body;
      } else if |body| <= REST_MAX_CHUNK_SIZE {
        assert body[0..0 + |body|] == body;
      } else if Offset(1, size) < |body| {
        FetchedLength(body, size, 1);
      }
    }
  }

  // ---------------------------------------------------------------- slices fed back

  /** The answer to the last of the slices, fed in order from block `k` on under message
      ids of their own. */
  function Fed(t: Transfer, body: Bytes, size: nat, mids: nat -> nat, k: nat): Answer
    requires size > 0
    decreases |body| - Offset(k, size)
  {
    match Sliced(body, size, k)
    case OutOfScope => Incomplete
    case Part(bytes, more) =>
      var r := Handled(t, Block(mids(k), bytes, size, k, more));
      if !r.1.Continue? then r.1
      else if !more then r.1
      else
        OffsetNext(k, size);
        Fed(r.0, body, size, mids, k + 1)
  }

  /** The slice of block `k` and the limit of the reassembly. */
  lemma {:induction false} FedRest(t: Transfer, body: Bytes, size: nat, mids: nat -> nat, k: nat)
    requires 0 < size <= REST_MAX_CHUNK_SIZE && k > 0 && Offset(k, size) < |body| && Offset(k, size) < MAX_BLOCK1_SIZE
    requires forall j: nat :: mids(j) != mids(j + 1)
    requires t == Active(body[..Offset(k, size)], mids(k - 1))
    ensures Fed(t, body, size, mids, k) == if |body| < MAX_BLOCK1_SIZE then Complete(body) else TooLarge
    decreases |body| - Offset(k, size)
  {
    hide Offset;
    var offset := Offset(k, size);
    OffsetNext(k, size);
    OffsetTimes(k, size);
    assert mids(k - 1) != mids(k - 1 + 1);
    var n := Min(|body| - offset, size);
    var slice := body[offset..offset + n];
    assert body[..offset] + slice == body[..offset + n];
    if offset + n < MAX_BLOCK1_SIZE {
      if |body| - offset > size {
        FedRest(Active(body[..offset + n], mids(k)), body, size, mids, k + 1);
      } else {
        assert body[..offset + n] == body;
      }
    }
  }

  /** Slices of a body fed back in order, successive ones under different message ids,
      give the body back exactly when it is under the limit. */
  lemma SliceThenReassemble(t: Transfer, body: Bytes, size: nat, mids: nat -> nat)
    requires 0 < size <= REST_MAX_CHUNK_SIZE && body != []
    requires forall j: nat :: mids(j) != mids(j + 1)
    ensures Fed(t, body, size, mids, 0) == Complete(body) <==> |body| < MAX_BLOCK1_SIZE
  {
    hide Offset;
    OffsetNext(0, size);
    var n := Min(|body|, size);
    assert body[0..0 + n] == body[..n];
    if |body| > size {
      FedRest(Active(body[..n], mids(0)), body, size, mids, 1);
    } else {
      assert body[..n] == body;
    }
  }
}
