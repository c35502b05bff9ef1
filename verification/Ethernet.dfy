/** The copy loops of the Ethernet driver (platform/stm32f429-core/src/ethernetif.c): a
    chain of packet buffers is cut into the fixed-size buffers of a descriptor ring, and a
    received frame is cut back into a chain. */
module Ethernet {
  import opened Octets

  const BUF_SIZE := 1524
  const RING := 4

  /** The payloads of a chain in one piece. */
  function Flat(chain: seq<Bytes>): Bytes {
    if chain == [] then [] else chain[0] + Flat(chain[1..])
  }

  lemma {:induction false} FlatNext(chain: seq<Bytes>, k: nat)
    requires k < |chain|
    ensures Flat(chain[..k + 1]) == Flat(chain[..k]) + chain[k]
  {
    if k == 0 {
      assert chain[..1][1..] == [] && chain[..0] == [];
    } else {
      assert chain[..k + 1][1..] == chain[1..][..k];
      assert chain[..k][1..] == chain[1..][..k - 1];
      FlatNext(chain[1..], k - 1);
      assert chain[0] + (Flat(chain[1..][..k - 1]) + chain[k]) == chain[0] + Flat(chain[1..][..k - 1]) + chain[k];
    }
  }

  /** Payload `k` stands behind those before it. */
  lemma {:induction false} FlatAt(chain: seq<Bytes>, k: nat)
    requires k < |chain|
    ensures var before := |Flat(chain[..k])|;
            before + |chain[k]| <= |Flat(chain)| && Flat(chain)[before..before + |chain[k]|] == chain[k]
    decreases |chain|
  {
    if k == 0 {
      assert chain[..0] == [];
    } else {
      FlatAt(chain[1..], k - 1);
      assert chain[..k][1..] == chain[1..][..k - 1];
      var rest, before := Flat(chain[1..]), |Flat(chain[1..][..k - 1])|;
      assert Flat(chain)[|chain[0]| + before..|chain[0]| + before + |chain[k]|] == rest[before..before + |chain[k]|];
    }
  }

  /** Where byte `o` of the `d`-th buffer of a frame stands in the frame. */
  function Pos(d: nat, o: nat): nat {
    d * BUF_SIZE + o
  }

  /** The descriptor reached from `first` after following `d` links of the ring. */
  function Row(first: nat, d: nat): (r: nat)
    ensures r < RING
  {
    (first + d) % RING
  }

  /** The buffers of the ring, from descriptor `first` on, start with the first `n` bytes
      of `data`. */
  ghost predicate Holds(ring: array2<byte>, first: nat, data: Bytes, n: nat)
    requires ring.Length0 == RING && ring.Length1 == BUF_SIZE
    reads ring
  {
    n <= |data| && forall d: nat, o: nat :: d < RING && o < BUF_SIZE && Pos(d, o) < n ==>
                     ring[Row(first, d), o] == data[Pos(d, o)]
  }

  /** Descriptor `d` is needed for a frame of `total` bytes; even an empty one looks at the
      first. */
  predicate Needed(d: nat, total: nat) {
    d == 0 || d * BUF_SIZE < total
  }

  /** Every descriptor a frame of `total` bytes needs is free. */
  ghost predicate Free(own: seq<bool>, total: nat)
    requires |own| == RING
  {
    forall d: nat :: Needed(d, total) ==> !own[Row(0, d)]
  }

  /** The first `d + 1` descriptors met are free. */
  ghost predicate FreeUpTo(own: seq<bool>, d: nat)
    requires |own| == RING
  {
    forall e: nat :: e <= d ==> !own[Row(0, e)]
  }

  // ---------------------------------------------------------------- output

  /** `memcpy` of `n` bytes of a payload into one descriptor buffer. */
  method CopyIn(payload: Bytes, from: nat, ring: array2<byte>, row: nat, offset: nat, n: nat)
    requires ring.Length0 == RING && ring.Length1 == BUF_SIZE && row < RING
    requires from + n <= |payload| && offset + n <= BUF_SIZE
    modifies ring
    ensures forall r, o :: 0 <= r < RING && 0 <= o < BUF_SIZE ==>
              ring[r, o] == if r == row && offset <= o < offset + n then payload[from + (o - offset)]
                            else old(ring[r, o])
  {
    for i := 0 to n
      invariant forall r, o :: 0 <= r < RING && 0 <= o < BUF_SIZE ==>
                  ring[r, o] == if r == row && offset <= o < offset + i then payload[from + (o - offset)]
                                else old(ring[r, o])
    {
      ring[row, offset + i] := payload[from + i];
    }
  }

  lemma RowsDiffer(first: nat, d: nat, e: nat)
    requires d < RING && e < RING && d != e
    ensures Row(first, d) != Row(first, e)
  {}

  /** `memcpy` of `n` bytes of the payload that stands at `pos` of the frame. */
  method CopyNext(payload: Bytes, from: nat, ring: array2<byte>, ghost d: nat, row: nat, offset: nat, n: nat,
                  ghost data: Bytes, ghost pos: nat)
    requires ring.Length0 == RING && ring.Length1 == BUF_SIZE && row == Row(0, d)
    requires from + n <= |payload| && offset + n <= BUF_SIZE && pos == Pos(d, offset) && pos + n <= |data|
    requires data[pos..pos + n] == payload[from..from + n]
    requires |data| <= RING * BUF_SIZE ==> Holds(ring, 0, data, pos)
    modifies ring
    ensures |data| <= RING * BUF_SIZE ==> Holds(ring, 0, data, pos + n)
  {
    CopyIn(payload, from, ring, row, offset, n);
    if n > 0 && |data| <= RING * BUF_SIZE {
      assert d < RING;
      forall e: nat, o: nat | e < RING && o < BUF_SIZE && Pos(e, o) < pos + n
        ensures ring[Row(0, e), o] == data[Pos(e, o)]
      {
        if e == d && offset <= o {
          var i := o - offset;
          assert data[pos + i] == data[pos..pos + n][i] == payload[from..from + n][i];
        } else {
          if e != d { RowsDiffer(0, d, e); }
          assert Pos(e, o) < pos;
        }
      }
    }
  }

  /** The inner loop for one packet buffer, `d` links into the ring at `offset`; `ok` is
      false when a descriptor it needs is not free. */
  method CopyBuffer(payload: Bytes, ring: array2<byte>, own: seq<bool>, ghost d: nat, row: nat, offset: nat,
                    ghost data: Bytes, ghost pos: nat)
    returns (ok: bool, ghost d': nat, row': nat, offset': nat)
    requires ring.Length0 == RING && ring.Length1 == BUF_SIZE && |own| == RING && row == Row(0, d)
    requires offset <= BUF_SIZE && pos == Pos(d, offset) && pos + |payload| <= |data|
    requires data[pos..pos + |payload|] == payload
    requires |data| <= RING * BUF_SIZE ==> Holds(ring, 0, data, pos)
    requires (d == 0 || offset > 0) && FreeUpTo(own, d)
    modifies ring
    ensures !ok ==> !Free(own, |data|)
    ensures ok ==>
              && row' == Row(0, d') && offset' <= BUF_SIZE && Pos(d', offset') == pos + |payload|
              && (d' == 0 || offset' > 0) && FreeUpTo(own, d')
              && (|data| <= RING * BUF_SIZE ==> Holds(ring, 0, data, pos + |payload|))
  {
    hide Holds, Row, Pos, Flat, FreeUpTo, Free;
    d', row', offset' := d, row, offset;
    var bytesLeft: nat, payloadOffset: nat := |payload|, 0;
    while bytesLeft + offset' > BUF_SIZE
      invariant bytesLeft + payloadOffset == |payload| && offset' <= BUF_SIZE
      invariant row' == Row(0, d') && Pos(d', offset') == pos + payloadOffset
      invariant (d' == 0 || offset' > 0 || bytesLeft > 0) && FreeUpTo(own, d')
      invariant |data| <= RING * BUF_SIZE ==> Holds(ring, 0, data, pos + payloadOffset)
      decreases bytesLeft + offset'
    {
      var n := BUF_SIZE - offset';
      assert data[pos + payloadOffset..pos + payloadOffset + n] == payload[payloadOffset..payloadOffset + n] by {
        SliceOf(data, pos, payload, payloadOffset, n);
      }
      CopyNext(payload, payloadOffset, ring, d', row', offset', n, data, pos + payloadOffset);
      RowNext(d');
      PosNext(d', offset', n);
      row', d' := (row' + 1) % RING, d' + 1;
      if own[row'] {
        PosNeeded(d', |data|);
        NotFree(own, |data|, d');
        return false, d', row', offset';
      }
      FreeNext(own, d');
      bytesLeft, payloadOffset := bytesLeft - n, payloadOffset + n;
      offset' := 0;
    }
    assert data[pos + payloadOffset..pos + payloadOffset + bytesLeft] ==
           payload[payloadOffset..payloadOffset + bytesLeft] by {
      SliceOf(data, pos, payload, payloadOffset, bytesLeft);
    }
    CopyNext(payload, payloadOffset, ring, d', row', offset', bytesLeft, data, pos + payloadOffset);
    PosNext(d', offset', bytesLeft);
    offset' := offset' + bytesLeft;
    ok := true;
  }

  lemma PosNext(d: nat, o: nat, n: nat)
    ensures Pos(d, o + n) == Pos(d, o) + n && Pos(d + 1, 0) == Pos(d, BUF_SIZE)
  {}

  lemma PosNeeded(d: nat, total: nat)
    requires Pos(d, 0) < total
    ensures Needed(d, total)
  {}

  lemma RowNext(d: nat)
    ensures (Row(0, d) + 1) % RING == Row(0, d + 1)
  {}

  lemma SliceOf(data: Bytes, pos: nat, payload: Bytes, from: nat, n: nat)
    requires pos + |payload| <= |data| && data[pos..pos + |payload|] == payload && from + n <= |payload|
    ensures data[pos + from..pos + from + n] == payload[from..from + n]
  {
    var a, b := data[pos + from..pos + from + n], payload[from..from + n];
    forall i | 0 <= i < n
      ensures a[i] == b[i]
    {
      assert a[i] == data[pos + (from + i)] == data[pos..pos + |payload|][from + i];
    }
  }

  lemma FreeNext(own: seq<bool>, d: nat)
    requires |own| == RING && !own[Row(0, d)] && (d == 0 || FreeUpTo(own, d - 1) || FreeUpTo(own, d))
    ensures FreeUpTo(own, d)
  {
    hide Row;
  }

  lemma NotFree(own: seq<bool>, total: nat, d: nat)
    requires |own| == RING && own[Row(0, d)] && Needed(d, total)
    ensures !Free(own, total)
  {}

  /** `low_level_output` on a chain of payloads: whether the frame could be taken, and its
      length. */
  method LowLevelOutput(chain: seq<Bytes>, ring: array2<byte>, own: seq<bool>) returns (ok: bool, frameLength: nat)
    requires chain != [] && ring.Length0 == RING && ring.Length1 == BUF_SIZE && |own| == RING
    modifies ring
    ensures ok <==> Free(own, |Flat(chain)|)
    ensures ok ==> frameLength == |Flat(chain)|
    ensures ok && frameLength <= RING * BUF_SIZE ==> Holds(ring, 0, Flat(chain), frameLength)
  {
    hide Holds, Row, Flat, Free, FreeUpTo;
    ghost var data := Flat(chain);
    ghost var d: nat := 0;
    var row: nat, offset: nat, k := 0, 0, 0;
    frameLength := 0;
    FlatStart(chain);
    RowStart();
    HoldsNothing(ring, data);
    while k < |chain|
      invariant 0 <= k <= |chain| && row == Row(0, d) && offset <= BUF_SIZE
      invariant frameLength == Pos(d, offset) == |Flat(chain[..k])| && (d == 0 || offset > 0)
      invariant k > 0 ==> FreeUpTo(own, d)
      invariant k == 0 ==> d == 0 && offset == 0
      invariant |data| <= RING * BUF_SIZE ==> Holds(ring, 0, data, frameLength)
    {
      FlatAt(chain, k);
      FlatNext(chain, k);
      if own[row] {
        NotFree(own, |data|, d);
        return false, frameLength;
      }
      FreeNext(own, d);
      ok, d, row, offset := CopyBuffer(chain[k], ring, own, d, row, offset, data, frameLength);
      if !ok { return false, frameLength; }
      frameLength := frameLength + |chain[k]|;
      k := k + 1;
    }
    assert chain[..k] == chain;
    AllFree(own, |data|, d);
    ok := true;
  }

  lemma FlatStart(chain: seq<Bytes>)
    ensures Flat(chain[..0]) == []
  {}

  lemma RowStart()
    ensures Row(0, 0) == 0
  {}

  lemma HoldsNothing(ring: array2<byte>, data: Bytes)
    requires ring.Length0 == RING && ring.Length1 == BUF_SIZE
    ensures Holds(ring, 0, data, 0)
  {}

  /** The descriptors up to the last one written are those needed. */
  lemma AllFree(own: seq<bool>, total: nat, d: nat)
    requires |own| == RING && FreeUpTo(own, d)
    requires exists o: nat :: o <= BUF_SIZE && total == Pos(d, o)
    ensures Free(own, total)
  {}

  // ---------------------------------------------------------------- input

  /** `memcpy` of `n` bytes of one descriptor buffer into a payload. */
  method CopyOut(ring: array2<byte>, row: nat, offset: nat, payload: array<byte>, from: nat, n: nat)
    requires ring.Length0 == RING && ring.Length1 == BUF_SIZE && row < RING
    requires from + n <= payload.Length && offset + n <= BUF_SIZE
    modifies payload
    ensures forall i :: 0 <= i < payload.Length ==>
              payload[i] == if from <= i < from + n then ring[row, offset + (i - from)] else old(payload[i])
  {
    for k := 0 to n
      invariant forall i :: 0 <= i < payload.Length ==>
                  payload[i] == if from <= i < from + k then ring[row, offset + (i - from)] else old(payload[i])
    {
      payload[from + k] := ring[row, offset + k];
    }
  }

  /** `memcpy` of the `n` bytes that stand at `pos + from` of the frame. */
  method CopyPart(ring: array2<byte>, first: nat, ghost d: nat, row: nat, offset: nat, payload: array<byte>, from: nat,
                  n: nat, ghost data: Bytes, ghost pos: nat)
    requires ring.Length0 == RING && ring.Length1 == BUF_SIZE && row == Row(first, d)
    requires from + n <= payload.Length && offset + n <= BUF_SIZE
    requires |data| <= RING * BUF_SIZE && Holds(ring, first, data, |data|)
    requires pos + from == Pos(d, offset) && pos + payload.Length <= |data|
    requires payload[..from] == data[pos..pos + from]
    modifies payload
    ensures payload[..from + n] == data[pos..pos + from + n]
  {
    ghost var before := payload[..from];
    CopyOut(ring, row, offset, payload, from, n);
    var a, b := payload[..from + n], data[pos..pos + from + n];
    forall i | 0 <= i < from + n
      ensures a[i] == b[i]
    {
      if i < from {
        assert a[i] == before[i] == data[pos..pos + from][i];
      } else {
        assert Pos(d, offset + (i - from)) == pos + i;
      }
    }
  }

  /** The inner loop that fills one packet buffer. */
  method FillBuffer(payload: array<byte>, ring: array2<byte>, first: nat, ghost d: nat, row: nat, offset: nat,
                    ghost data: Bytes, ghost pos: nat)
    returns (ghost d': nat, row': nat, offset': nat)
    requires ring.Length0 == RING && ring.Length1 == BUF_SIZE && row == Row(first, d)
    requires |data| <= RING * BUF_SIZE && Holds(ring, first, data, |data|)
    requires offset <= BUF_SIZE && pos == Pos(d, offset) && pos + payload.Length <= |data|
    modifies payload
    ensures payload[..] == data[pos..pos + payload.Length]
    ensures row' == Row(first, d') && offset' <= BUF_SIZE && Pos(d', offset') == pos + payload.Length
  {
    hide Holds, Row;
    d', row', offset' := d, row, offset;
    var bytesLeft: nat, payloadOffset: nat := payload.Length, 0;
    assert payload[..0] == data[pos..pos];
    while bytesLeft + offset' > BUF_SIZE
      invariant bytesLeft + payloadOffset == payload.Length && offset' <= BUF_SIZE
      invariant row' == Row(first, d') && Pos(d', offset') == pos + payloadOffset
      invariant payload[..payloadOffset] == data[pos..pos + payloadOffset]
      decreases bytesLeft + offset', BUF_SIZE - offset'
    {
      var n := BUF_SIZE - offset';
      CopyPart(ring, first, d', row', offset', payload, payloadOffset, n, data, pos);
      LinkNext(first, d');
      row', d' := (row' + 1) % RING, d' + 1;
      bytesLeft, payloadOffset := bytesLeft - n, payloadOffset + n;
      offset' := 0;
    }
    CopyPart(ring, first, d', row', offset', payload, payloadOffset, bytesLeft, data, pos);
    offset' := offset' + bytesLeft;
    assert payload[..] == payload[..payload.Length];
  }

  lemma LinkNext(first: nat, d: nat)
    ensures (Row(first, d) + 1) % RING == Row(first, d + 1)
  {}

  function TotalLength(chain: seq<array<byte>>): nat {
    if chain == [] then 0 else TotalLength(chain[..|chain| - 1]) + chain[|chain| - 1].Length
  }

  lemma {:induction false} TotalPrefix(chain: seq<array<byte>>, k: nat)
    requires k < |chain|
    ensures TotalLength(chain[..k + 1]) == TotalLength(chain[..k]) + chain[k].Length <= TotalLength(chain)
    decreases |chain|
  {
    assert chain[..k + 1][..k] == chain[..k];
    if k + 1 < |chain| {
      var front := chain[..|chain| - 1];
      assert front[..k + 1] == chain[..k + 1] && front[..k] == chain[..k];
      TotalPrefix(front, k);
    } else {
      assert chain[..k + 1] == chain;
    }
  }

  /** The payloads of a chain. */
  ghost function Contents(chain: seq<array<byte>>): (r: seq<Bytes>)
    reads chain
    ensures |r| == |chain|
  {
    seq(|chain|, i requires 0 <= i < |chain| reads chain => chain[i][..])
  }

  predicate Distinct(chain: seq<array<byte>>) {
    forall i, j :: 0 <= i < j < |chain| ==> chain[i] != chain[j]
  }

  /** The loop of `low_level_input` over the chain. */
  method FillChain(ring: array2<byte>, first: nat, chain: seq<array<byte>>, ghost data: Bytes)
    requires ring.Length0 == RING && ring.Length1 == BUF_SIZE && first < RING && Distinct(chain)
    requires |data| == TotalLength(chain) <= RING * BUF_SIZE && Holds(ring, first, data, |data|)
    modifies chain
    ensures Flat(Contents(chain)) == data
  {
    hide Holds, Row, Flat, TotalLength;
    ghost var done: seq<Bytes> := [];
    ghost var d: nat := 0;
    var row: nat, offset: nat, k := first, 0, 0;
    ghost var pos: nat := 0;
    FillStart(first, chain, data);
    while k < |chain|
      invariant 0 <= k <= |chain| && row == Row(first, d) && offset <= BUF_SIZE
      invariant pos == Pos(d, offset) == TotalLength(chain[..k]) && pos <= |data|
      invariant |done| == k && forall j :: 0 <= j < k ==> chain[j][..] == done[j]
      invariant Flat(done) == data[..pos]
      invariant Holds(ring, first, data, |data|)
    {
      TotalPrefix(chain, k);
      d, row, offset := FillBuffer(chain[k], ring, first, d, row, offset, data, pos);
      ghost var part := chain[k][..];
      assert forall j :: 0 <= j < k ==> chain[j] != chain[k];
      FlatNext(done + [part], k);
      assert (done + [part])[..k] == done && (done + [part])[..k + 1] == done + [part];
      assert data[..pos] + data[pos..pos + chain[k].Length] == data[..pos + chain[k].Length];
      done := done + [part];
      pos := pos + chain[k].Length;
      k := k + 1;
    }
    assert chain[..k] == chain && data[..pos] == data;
    assert Contents(chain) == done;
  }

  lemma FillStart(first: nat, chain: seq<array<byte>>, data: Bytes)
    requires first < RING
    ensures Row(first, 0) == first && TotalLength(chain[..0]) == 0 && Flat([]) == data[..0]
  {}

  /** `low_level_input`: the first `|data|` bytes of the received frame fill the chain, if
      one could be allocated, and the descriptors of the frame go back to the DMA either
      way. */
  method LowLevelInput(ring: array2<byte>, first: nat, len: nat, segCount: nat, own: array<bool>,
                       chain: seq<array<byte>>, granted: bool, ghost data: Bytes)
    returns (received: bool)
    requires ring.Length0 == RING && ring.Length1 == BUF_SIZE && first < RING && Distinct(chain)
    requires own.Length == RING && segCount <= RING
    requires |data| == len <= RING * BUF_SIZE && Holds(ring, first, data, len)
    requires granted ==> TotalLength(chain) == len
    modifies chain, own
    ensures received <==> len > 0 && granted
    ensures received ==> Flat(Contents(chain)) == data
    ensures forall r :: 0 <= r < RING ==> own[r] == (old(own[r]) || exists i: nat :: i < segCount && r == Row(first, i))
  {
    hide Holds, Row, Flat;
    received := false;
    if len > 0 && granted {
      FillChain(ring, first, chain, data);
      received := true;
    }
    var row: nat := first;
    FillStart(first, chain, data);
    ghost var was := own[..];
    for i := 0 to segCount
      invariant row == Row(first, i)
      invariant received ==> Flat(Contents(chain)) == data
      invariant forall r :: 0 <= r < RING ==> own[r] == (was[r] || exists j: nat :: j < i && r == Row(first, j))
    {
      own[row] := true;
      LinkNext(first, i);
      row := (row + 1) % RING;
    }
  }

  /** A frame sent and received through the same buffers comes back whole, however the
      chains on the two sides are cut. */
  method Loopback(sent: seq<Bytes>, ring: array2<byte>, own: array<bool>, chain: seq<array<byte>>) returns (ok: bool)
    requires sent != [] && ring.Length0 == RING && ring.Length1 == BUF_SIZE && own.Length == RING && Distinct(chain)
    requires TotalLength(chain) == |Flat(sent)| <= RING * BUF_SIZE && Flat(sent) != []
    modifies ring, own, chain
    ensures ok <==> old(Free(own[..], |Flat(sent)|))
    ensures ok ==> Flat(Contents(chain)) == Flat(sent)
  {
    hide Holds, Flat, Free;
    var frameLength;
    ok, frameLength := LowLevelOutput(sent, ring, own[..]);
    if ok {
      var segments := (frameLength + BUF_SIZE - 1) / BUF_SIZE;
      ok := LowLevelInput(ring, 0, frameLength, segments, own, chain, true, Flat(sent));
    }
  }
}
