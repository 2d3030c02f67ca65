/**
 Scatter and gather of Ethernet frames: a chain of pbufs is copied into the
 fixed-size buffers of a descriptor ring, the DMA sends and receives whole
 descriptors, and received buffers are copied back into another chain.
 */
module Ethernet {
  import opened Words

  const BUF: nat := 1524  // ETH_TX_BUF_SIZE and ETH_RX_BUF_SIZE; how many buffers a ring has is left open

  // ------------------------------------------------------------ ring positions

  /** The place `n` steps on in a ring of `size` places. */
  function Pos(size: nat, at: nat, n: nat): (r: nat)
    requires at < size
    ensures r < size
  {
    if n == 0 then at
    else
      var p := Pos(size, at, n - 1);
      if p + 1 == size then 0 else p + 1
  }

  /** Ring memory after `bs` has been written byte by byte from `at` on; it may go round. */
  function WriteOn(mem: seq<byte>, at: nat, bs: seq<byte>): (r: seq<byte>)
    requires at < |mem|
    ensures |r| == |mem|
    decreases |bs|
  {
    if bs == [] then mem
    else
      var n := |bs| - 1;
      WriteOn(mem, at, bs[..n])[Pos(|mem|, at, n) := bs[n]]
  }

  /** `n` bytes read from `at` on. */
  function Gather(mem: seq<byte>, at: nat, n: nat): (r: seq<byte>)
    requires at < |mem|
    ensures |r| == n
  {
    if n == 0 then [] else Gather(mem, at, n - 1) + [mem[Pos(|mem|, at, n - 1)]]
  }

  lemma {:induction false} PosAdd(size: nat, at: nat, m: nat, n: nat)
    requires at < size
    ensures Pos(size, Pos(size, at, m), n) == Pos(size, at, m + n)
    decreases n
  {
    if n > 0 {
      PosAdd(size, at, m, n - 1);
    }
  }

  lemma {:induction false} PosWithin(size: nat, at: nat, n: nat)
    requires at < size && n <= size
    ensures Pos(size, at, n) == if at + n < size then at + n else at + n - size
    decreases n
  {
    if n > 0 {
      PosWithin(size, at, n - 1);
    }
  }

  /** Writing two pieces one behind the other is writing their concatenation. */
  lemma {:induction false} WriteOnConcat(mem: seq<byte>, at: nat, a: seq<byte>, b: seq<byte>)
    requires at < |mem|
    ensures WriteOn(WriteOn(mem, at, a), Pos(|mem|, at, |a|), b) == WriteOn(mem, at, a + b)
    decreases |b|
  {
    if b == [] {
      assert a + b == a;
    } else {
      var n := |b| - 1;
      WriteOnConcat(mem, at, a, b[..n]);
      PosAdd(|mem|, at, |a|, n);
      assert (a + b)[..|a| + n] == a + b[..n];
    }
  }

  lemma {:induction false} GatherConcat(mem: seq<byte>, at: nat, m: nat, n: nat)
    requires at < |mem|
    ensures Gather(mem, at, m) + Gather(mem, Pos(|mem|, at, m), n) == Gather(mem, at, m + n)
    decreases n
  {
    if n == 0 {
      assert Gather(mem, at, m) + [] == Gather(mem, at, m);
    } else {
      GatherConcat(mem, at, m, n - 1);
      PosAdd(|mem|, at, m, n - 1);
    }
  }

  /** A copy that stays inside the memory is a ring write. */
  lemma {:induction false} PutIsWriteOn(mem: seq<byte>, at: nat, bs: seq<byte>)
    requires at < |mem| && at + |bs| <= |mem|
    ensures Put(mem, at, bs) == WriteOn(mem, at, bs)
    decreases |bs|
  {
    if bs == [] {
      assert Put(mem, at, bs) == mem;
    } else {
      var n := |bs| - 1;
      PutIsWriteOn(mem, at, bs[..n]);
      PosWithin(|mem|, at, n);
      assert Put(mem, at, bs) == Put(mem, at, bs[..n])[at + n := bs[n]];
    }
  }

  /** A slice of the memory is a ring read. */
  lemma {:induction false} SliceIsGather(mem: seq<byte>, at: nat, n: nat)
    requires at < |mem| && at + n <= |mem|
    ensures mem[at..at + n] == Gather(mem, at, n)
    decreases n
  {
    if n > 0 {
      SliceIsGather(mem, at, n - 1);
      PosWithin(|mem|, at, n - 1);
    }
  }

  lemma {:induction false} WrittenByte(mem: seq<byte>, at: nat, bs: seq<byte>, j: nat)
    requires at < |mem| && j < |bs| <= |mem|
    ensures WriteOn(mem, at, bs)[Pos(|mem|, at, j)] == bs[j]
    decreases |bs|
  {
    var n := |bs| - 1;
    if j < n {
      WrittenByte(mem, at, bs[..n], j);
      PosWithin(|mem|, at, j);
      PosWithin(|mem|, at, n);
    }
  }

  lemma {:induction false} GatherAgrees(mem: seq<byte>, at: nat, bs: seq<byte>, n: nat)
    requires at < |mem| && n <= |bs|
    requires forall j | 0 <= j < n :: mem[Pos(|mem|, at, j)] == bs[j]
    ensures Gather(mem, at, n) == bs[..n]
    decreases n
  {
    if n > 0 {
      GatherAgrees(mem, at, bs, n - 1);
    }
  }

  /** What was written is read back. */
  lemma ReadsBack(mem: seq<byte>, at: nat, bs: seq<byte>, n: nat)
    requires at < |mem| && n <= |bs| <= |mem|
    ensures Gather(WriteOn(mem, at, bs), at, n) == bs[..n]
  {
    forall j | 0 <= j < n
      ensures WriteOn(mem, at, bs)[Pos(|mem|, at, j)] == bs[j]
    {
      WrittenByte(mem, at, bs, j);
    }
    GatherAgrees(WriteOn(mem, at, bs), at, bs, n);
  }

  function Ramp(n: nat): (r: seq<byte>)
    ensures |r| == n && forall k | 0 <= k < n :: r[k] == if k == n - 1 then 1 else 0
  {
    if n == 0 then [] else seq(n - 1, k => 0) + [1]
  }

  /** Frames of a length survive in the ring exactly when they fit into all its buffers. */
  lemma ReadsBackExactly(mem: seq<byte>, at: nat, n: nat)
    requires at < |mem|
    ensures (forall bs: seq<byte> | |bs| == n :: Gather(WriteOn(mem, at, bs), at, n) == bs) <==> n <= |mem|
  {
    if n <= |mem| {
      forall bs: seq<byte> | |bs| == n
        ensures Gather(WriteOn(mem, at, bs), at, n) == bs
      {
        ReadsBack(mem, at, bs, n);
        assert bs[..n] == bs;
      }
    } else {
      var bs := Ramp(n);
      Overwritten(mem, at, bs);
      assert Gather(WriteOn(mem, at, bs), at, n) != bs;
    }
  }

  /** One byte too many: the last lies where an earlier one was. */
  lemma Overwritten(mem: seq<byte>, at: nat, bs: seq<byte>)
    requires at < |mem| < |bs|
    ensures Gather(WriteOn(mem, at, bs), at, |bs|)[|bs| - 1 - |mem|] == bs[|bs| - 1]
  {
    var m := |bs| - 1 - |mem|;
    PosAdd(|mem|, at, m, |mem|);
    PosWithin(|mem|, Pos(|mem|, at, m), |mem|);
    GatherAt(WriteOn(mem, at, bs), at, |bs|, m);
  }

  lemma {:induction false} GatherAt(mem: seq<byte>, at: nat, n: nat, j: nat)
    requires at < |mem| && j < n
    ensures Gather(mem, at, n)[j] == mem[Pos(|mem|, at, j)]
    decreases n
  {
    if j < n - 1 {
      GatherAt(mem, at, n - 1, j);
    }
  }

  // -------------------------------------------------------------------- chains

  /** The payloads of a pbuf chain, one behind the other. */
  function Flatten(chain: seq<seq<byte>>): seq<byte>
    decreases |chain|
  {
    if chain == [] then [] else Flatten(chain[..|chain| - 1]) + chain[|chain| - 1]
  }

  function Sum(lengths: seq<nat>): nat
    decreases |lengths|
  {
    if lengths == [] then 0 else Sum(lengths[..|lengths| - 1]) + lengths[|lengths| - 1]
  }

  lemma FlattenSnoc(chain: seq<seq<byte>>, last: seq<byte>)
    ensures Flatten(chain + [last]) == Flatten(chain) + last
  {
    assert (chain + [last])[..|chain|] == chain;
  }

  // ------------------------------------------------------------------- cursors

  /** After `n` bytes the copy stands `offset` bytes into the buffer `hops` descriptors on. */
  predicate Cursor(count: nat, first: nat, n: nat, desc: nat, offset: nat, hops: nat) {
    first < count && offset <= BUF && n == hops * BUF + offset && desc == Pos(count, first, hops)
  }

  lemma {:induction false} BufferStart(count: nat, first: nat, hops: nat)
    requires first < count
    ensures Pos(count * BUF, first * BUF, hops * BUF) == Pos(count, first, hops) * BUF
    decreases hops
  {
    if hops > 0 {
      BufferStart(count, first, hops - 1);
      PosAdd(count * BUF, first * BUF, (hops - 1) * BUF, BUF);
      PosWithin(count * BUF, Pos(count, first, hops - 1) * BUF, BUF);
    }
  }

  /** Where the cursor points to in the ring memory. */
  lemma CursorPlace(count: nat, first: nat, n: nat, desc: nat, offset: nat, hops: nat)
    requires Cursor(count, first, n, desc, offset, hops)
    ensures Pos(count * BUF, first * BUF, n)
            == if offset < BUF then desc * BUF + offset else Pos(count, first, hops + 1) * BUF
  {
    BufferStart(count, first, hops);
    PosAdd(count * BUF, first * BUF, hops * BUF, offset);
    PosWithin(count * BUF, desc * BUF, offset);
  }

  // --------------------------------------------------------------- descriptors

  datatype TxDesc = TxDesc(own: bool, fs: bool, ls: bool, size: nat)

  /** How many descriptors a frame takes: at least one. */
  function Buffers(length: nat): (r: nat)
    ensures r >= 1 && length <= r * BUF && (r == 1 || (r - 1) * BUF < length)
  {
    if length <= BUF then 1 else (length - 1) / BUF + 1
  }

  predicate FreeUpto(descs: seq<TxDesc>, first: nat, n: nat)
    requires first < |descs|
  {
    forall k | 0 <= k < n :: !descs[Pos(|descs|, first, k)].own
  }

  /** The `k`-th descriptor of a frame as it is given to the DMA. */
  function Handed(length: nat, k: nat): TxDesc {
    var count := Buffers(length);
    TxDesc(true, k == 0, k + 1 == count, if k + 1 == count && length >= k * BUF then length - k * BUF else BUF)
  }

  /** The descriptor ring after `n` descriptors of a frame have been given to the DMA. */
  function HandOver(descs: seq<TxDesc>, first: nat, length: nat, n: nat): (r: seq<TxDesc>)
    requires first < |descs|
    ensures |r| == |descs|
  {
    if n == 0 then descs
    else HandOver(descs, first, length, n - 1)[Pos(|descs|, first, n - 1) := Handed(length, n - 1)]
  }

  /**
   What the DMA sends: buffer after buffer, up to the last segment. It begins a
   frame at a first segment only, and stops at a descriptor that is not its own
   or begins another frame.
   */
  function Wire(mem: seq<byte>, descs: seq<TxDesc>, d: nat, begins: bool, limit: nat): seq<byte>
    requires |mem| == |descs| * BUF && d < |descs|
    decreases limit
  {
    if limit == 0 || !descs[d].own || descs[d].fs != begins || descs[d].size > BUF then []
    else
      mem[d * BUF..d * BUF + descs[d].size]
      + if descs[d].ls then [] else Wire(mem, descs, Pos(|descs|, d, 1), false, limit - 1)
  }

  /** One of the `n` places from `first` on. */
  ghost predicate Within(size: nat, first: nat, n: nat, j: nat)
    requires first < size
  {
    exists k | 0 <= k < n :: Pos(size, first, k) == j
  }

  lemma WithinOneMore(size: nat, first: nat, n: nat, j: nat)
    requires first < size
    ensures Within(size, first, n + 1, j) <==> Within(size, first, n, j) || j == Pos(size, first, n)
  {
    if Within(size, first, n + 1, j) {
      var k :| 0 <= k < n + 1 && Pos(size, first, k) == j;
      assert k < n || k == n;
    }
  }

  class Driver {
    const txMem: array<byte>
    const txDesc: array<TxDesc>
    var toSet: nat

    constructor (txMem: array<byte>, txDesc: array<TxDesc>)
      requires 0 < txDesc.Length && txMem.Length == txDesc.Length * BUF
      ensures Valid()
    {
      this.txMem, this.txDesc := txMem, txDesc;
      toSet := 0;
    }

    ghost predicate Valid()
      reads this
    {
      toSet < txDesc.Length && txMem.Length == txDesc.Length * BUF
    }

    /** Copies a piece that fits into the current buffer. */
    method PutChunk(chunk: seq<byte>, desc: nat, offset: nat,
                    ghost was: seq<byte>, ghost first: nat, ghost done: seq<byte>, ghost hops: nat)
      requires Valid() && Cursor(txDesc.Length, first, |done|, desc, offset, hops) && offset + |chunk| <= BUF
      requires |was| == txMem.Length && txMem[..] == WriteOn(was, first * BUF, done)
      modifies txMem
      ensures txMem[..] == WriteOn(was, first * BUF, done + chunk)
      ensures Cursor(txDesc.Length, first, |done + chunk|, desc, offset + |chunk|, hops)
    {
      Memcpy(txMem, desc * BUF + offset, chunk);
      if offset < BUF {
        CursorPlace(txDesc.Length, first, |done|, desc, offset, hops);
        WriteOnConcat(was, first * BUF, done, chunk);
        PutIsWriteOn(WriteOn(was, first * BUF, done), desc * BUF + offset, chunk);
      } else {
        assert chunk == [] && done + chunk == done;
        assert Put(WriteOn(was, first * BUF, done), desc * BUF + offset, chunk) == WriteOn(was, first * BUF, done);
      }
    }

    /**
     One pbuf. `done` is what the pbufs before it held, `hops` how many
     descriptors on from the first the copy stands.
     */
    method CopyPbuf(payload: seq<byte>, desc0: nat, offset0: nat,
                    ghost was: seq<byte>, ghost first: nat, ghost done: seq<byte>, ghost hops0: nat)
      returns (ok: bool, desc: nat, offset: nat, ghost hops: nat)
      requires Valid() && Cursor(txDesc.Length, first, |done|, desc0, offset0, hops0) && (hops0 == 0 || offset0 > 0)
      requires |was| == txMem.Length && txMem[..] == WriteOn(was, first * BUF, done)
      requires FreeUpto(txDesc[..], first, hops0)
      modifies txMem
      ensures ok ==> txMem[..] == WriteOn(was, first * BUF, done + payload)
      ensures ok ==> Cursor(txDesc.Length, first, |done + payload|, desc, offset, hops) && (hops == 0 || offset > 0)
      ensures ok ==> FreeUpto(txDesc[..], first, hops + 1)
      ensures !ok ==> !FreeUpto(txDesc[..], first, Buffers(|done + payload|))
    {
      hide WriteOn, Put, Buffers, Pos, FreeUpto, Cursor;
      CursorRange(txDesc.Length, first, |done|, desc0, offset0, hops0);
      desc, offset, hops := desc0, offset0, hops0;
      if txDesc[desc].own {
        NotFree(txDesc[..], first, hops, |done + payload|);
        return false, desc, offset, hops;
      }
      OneMoreFree(txDesc[..], first, hops);
      var bytesLeft := |payload|;
      var payloadOffset: nat := 0;
      assert done + payload[..0] == done;
      while bytesLeft + offset > BUF
        invariant 0 <= bytesLeft && bytesLeft + payloadOffset == |payload|
        invariant Cursor(txDesc.Length, first, |done + payload[..payloadOffset]|, desc, offset, hops)
        invariant txMem[..] == WriteOn(was, first * BUF, done + payload[..payloadOffset])
        invariant FreeUpto(txDesc[..], first, hops + 1)
        invariant desc < txDesc.Length && offset <= BUF && (hops == 0 || offset > 0 || bytesLeft > 0)
        invariant |done| + payloadOffset == hops * BUF + offset && desc == Pos(txDesc.Length, first, hops)
        decreases bytesLeft, offset
      {
        var n := BUF - offset;
        var chunk := payload[payloadOffset..payloadOffset + n];
        PutChunk(chunk, desc, offset, was, first, done + payload[..payloadOffset], hops);
        assert done + payload[..payloadOffset] + chunk == done + payload[..payloadOffset + n];
        CursorHops(txDesc.Length, first, |done + payload[..payloadOffset + n]|, desc, hops);
        desc := if desc + 1 == txDesc.Length then 0 else desc + 1;
        hops := hops + 1;
        if txDesc[desc].own {
          NotFree(txDesc[..], first, hops, |done + payload|);
          return false, desc, offset, hops;
        }
        OneMoreFree(txDesc[..], first, hops);
        bytesLeft := bytesLeft - n;
        payloadOffset := payloadOffset + n;
        offset := 0;
      }
      PutChunk(payload[payloadOffset..], desc, offset, was, first, done + payload[..payloadOffset], hops);
      assert done + payload[..payloadOffset] + payload[payloadOffset..] == done + payload;
      offset := offset + bytesLeft;
      ok := true;
    }

    /** One descriptor of a frame that takes several. */
    method MarkDescriptor(desc: nat, i: nat, bufCount: nat, frameLength: nat)
      requires Valid() && desc < txDesc.Length && i < bufCount == Buffers(frameLength) && frameLength > BUF
      modifies txDesc
      ensures txDesc[..] == old(txDesc[..])[desc := Handed(frameLength, i)]
    {
      txDesc[desc] := txDesc[desc].(fs := false, ls := false);
      if i == 0 {
        txDesc[desc] := txDesc[desc].(fs := true);
      }
      txDesc[desc] := txDesc[desc].(size := BUF % 0x2000);
      if i == bufCount - 1 {
        txDesc[desc] := txDesc[desc].(ls := true);
        var size := frameLength - (bufCount - 1) * BUF;
        txDesc[desc] := txDesc[desc].(size := size % 0x2000);
      }
      txDesc[desc] := txDesc[desc].(own := true);
    }

    /** Gives a frame to the DMA: first and last segment marked, sizes set, the ring moved on. */
    method PrepareTransmitDescriptors(frameLength: nat) returns (success: bool)
      requires Valid() && frameLength < 0x1_0000
      modifies this`toSet, txDesc
      ensures Valid()
      ensures success <==> !old(txDesc[toSet].own)
      ensures success ==> txDesc[..] == HandOver(old(txDesc[..]), old(toSet), frameLength, Buffers(frameLength))
                          && toSet == Pos(txDesc.Length, old(toSet), Buffers(frameLength))
      ensures !success ==> txDesc[..] == old(txDesc[..]) && toSet == old(toSet)
    {
      if txDesc[toSet].own {
        return false;
      }
      var bufCount := 1;
      if frameLength > BUF {
        bufCount := frameLength / BUF;
        if frameLength % BUF != 0 {
          bufCount := bufCount + 1;
        }
      }
      assert bufCount == Buffers(frameLength);
      ghost var was, first := txDesc[..], toSet;
      var desc := toSet;
      if bufCount == 1 {
        txDesc[desc] := txDesc[desc].(fs := true, ls := true);
        txDesc[desc] := txDesc[desc].(size := frameLength % 0x2000);
        txDesc[desc] := txDesc[desc].(own := true);
        assert txDesc[..] == HandOver(was, first, frameLength, 1);
        desc := if desc + 1 == txDesc.Length then 0 else desc + 1;
      } else {
        var i := 0;
        while i < bufCount
          invariant toSet == first && i <= bufCount && desc == Pos(txDesc.Length, first, i)
          invariant txDesc[..] == HandOver(was, first, frameLength, i)
        {
          MarkDescriptor(desc, i, bufCount, frameLength);
          assert txDesc[..] == HandOver(was, first, frameLength, i + 1);
          desc := if desc + 1 == txDesc.Length then 0 else desc + 1;
          i := i + 1;
        }
      }
      toSet := desc;
      success := true;
    }

    /**
     Sends the frame a pbuf chain holds, unless a descriptor it needs still
     belongs to the DMA; then nothing is handed over. `taken` is whether the
     transmit semaphore was obtained in time.
     */
    method LowLevelOutput(p: seq<seq<byte>>, taken: bool) returns (sent: bool)
      requires Valid()
      modifies this`toSet, txMem, txDesc
      ensures Valid()
      ensures sent <==> taken && old(FreeUpto(txDesc[..], toSet, Buffers(|Flatten(p)|)))
      ensures !sent ==> txDesc[..] == old(txDesc[..]) && toSet == old(toSet)
      ensures sent ==> txMem[..] == WriteOn(old(txMem[..]), old(toSet) * BUF, Flatten(p))
      ensures sent ==> var length := |Flatten(p)| % 0x1_0000;
                       txDesc[..] == HandOver(old(txDesc[..]), old(toSet), length, Buffers(length))
                       && toSet == Pos(txDesc.Length, old(toSet), Buffers(length))
    {
      hide WriteOn, Buffers, HandOver;
      if !taken {
        return false;
      }
      ghost var was, first := txMem[..], toSet;
      var desc, offset, frameLength := toSet, 0, 0;
      ghost var hops := 0;
      EmptyCursor(was, txDesc.Length, first);
      var q := 0;
      while q < |p|
        invariant q <= |p| && frameLength == |Flatten(p[..q])| && toSet == first && txDesc[..] == old(txDesc[..])
        invariant Cursor(txDesc.Length, first, |Flatten(p[..q])|, desc, offset, hops) && (hops == 0 || offset > 0)
        invariant txMem[..] == WriteOn(was, first * BUF, Flatten(p[..q]))
        invariant FreeUpto(txDesc[..], first, if q == 0 then 0 else hops + 1)
      {
        FlattenSnoc(p[..q], p[q]);
        assert p[..q] + [p[q]] == p[..q + 1];
        var ok;
        ghost var done := Flatten(p[..q]);
        ok, desc, offset, hops := CopyPbuf(p[q], desc, offset, was, first, done, hops);
        if !ok {
          NeedsMore(txDesc[..], first, p, q + 1);
          return false;
        }
        frameLength := frameLength + |p[q]|;
        q := q + 1;
      }
      assert p[..q] == p;
      CursorBuffers(txDesc.Length, first, |Flatten(p)|, desc, offset, hops);
      FirstIsFree(txDesc[..], first, Buffers(|Flatten(p)|));
      sent := PrepareTransmitDescriptors(frameLength % 0x1_0000);
    }
  }

  lemma EmptyCursor(mem: seq<byte>, count: nat, first: nat)
    requires |mem| == count * BUF && first < count
    ensures Cursor(count, first, 0, first, 0, 0) && WriteOn(mem, first * BUF, Flatten([])) == mem
  {
  }

  lemma CursorBuffers(count: nat, first: nat, n: nat, desc: nat, offset: nat, hops: nat)
    requires Cursor(count, first, n, desc, offset, hops) && (hops == 0 || offset > 0)
    ensures Buffers(n) == hops + 1
  {
  }

  lemma FirstIsFree(descs: seq<TxDesc>, first: nat, n: nat)
    requires first < |descs|
    ensures FreeUpto(descs, first, n) && n >= 1 ==> !descs[first].own
    ensures FreeUpto(descs, first, 1) <==> !descs[first].own
  {
    assert Pos(|descs|, first, 0) == first;
  }

  lemma {:induction false} FlattenGrows(p: seq<seq<byte>>, q: nat)
    requires q <= |p|
    ensures |Flatten(p[..q])| <= |Flatten(p)|
    decreases |p| - q
  {
    if q == |p| {
      assert p[..q] == p;
    } else {
      FlattenSnoc(p[..q], p[q]);
      assert p[..q] + [p[q]] == p[..q + 1];
      FlattenGrows(p, q + 1);
    }
  }

  /** A descriptor that is missing for a part of the chain is missing for all of it. */
  lemma NeedsMore(descs: seq<TxDesc>, first: nat, p: seq<seq<byte>>, q: nat)
    requires first < |descs| && q <= |p|
    requires !FreeUpto(descs, first, Buffers(|Flatten(p[..q])|))
    ensures !FreeUpto(descs, first, Buffers(|Flatten(p)|))
  {
    FlattenGrows(p, q);
  }

  lemma CursorRange(count: nat, first: nat, n: nat, desc: nat, offset: nat, hops: nat)
    requires Cursor(count, first, n, desc, offset, hops)
    ensures first < count && desc < count && offset <= BUF
    ensures n == hops * BUF + offset && desc == Pos(count, first, hops)
  {
  }

  /** A full buffer: the copy goes on at the start of the next. */
  lemma CursorHops(count: nat, first: nat, n: nat, desc: nat, hops: nat)
    requires Cursor(count, first, n, desc, BUF, hops)
    ensures Cursor(count, first, n, if desc + 1 == count then 0 else desc + 1, 0, hops + 1)
    ensures Pos(count, first, hops + 1) == if desc + 1 == count then 0 else desc + 1
  {
  }

  lemma OneMoreFree(descs: seq<TxDesc>, first: nat, k: nat)
    requires first < |descs|
    requires FreeUpto(descs, first, k) && !descs[Pos(|descs|, first, k)].own
    ensures FreeUpto(descs, first, k + 1)
  {
  }

  lemma NotFree(descs: seq<TxDesc>, first: nat, k: nat, length: nat)
    requires first < |descs|
    requires descs[Pos(|descs|, first, k)].own && (k == 0 || k * BUF < length)
    ensures !FreeUpto(descs, first, Buffers(length))
  {
    assert k < Buffers(length);
  }

  // ----------------------------------------------------------- what is transmitted

  lemma {:induction false} HandedAt(descs: seq<TxDesc>, first: nat, length: nat, n: nat, k: nat)
    requires first < |descs| && k < n <= |descs|
    ensures HandOver(descs, first, length, n)[Pos(|descs|, first, k)] == Handed(length, k)
    decreases n
  {
    if k < n - 1 {
      HandedAt(descs, first, length, n - 1, k);
      PosWithin(|descs|, first, k);
      PosWithin(|descs|, first, n - 1);
    }
  }

  /** From the `k`-th descriptor on, the DMA sends the rest of the frame. */
  lemma {:induction false} WireFrom(mem: seq<byte>, descs: seq<TxDesc>, first: nat, length: nat, k: nat)
    requires |mem| == |descs| * BUF && first < |descs|
    requires k < Buffers(length) <= |descs|
    requires forall j | 0 <= j < Buffers(length) :: descs[Pos(|descs|, first, j)] == Handed(length, j)
    ensures length >= k * BUF
    ensures Wire(mem, descs, Pos(|descs|, first, k), k == 0, |descs| - k)
            == Gather(mem, Pos(|descs|, first, k) * BUF, length - k * BUF)
    decreases |descs| - k
  {
    hide Gather, Pos, Buffers, Wire;
    var d := Pos(|descs|, first, k);
    var desc := descs[d];
    assert desc == Handed(length, k);
    SliceIsGather(mem, d * BUF, desc.size);
    WireStep(mem, descs, d, k == 0, |descs| - k);
    if k + 1 < Buffers(length) {
      PosAdd(|descs|, first, k, 1);
      WireFrom(mem, descs, first, length, k + 1);
      BufferStart(|descs|, d, 1);
      GatherConcat(mem, d * BUF, BUF, length - (k + 1) * BUF);
    } else {
      assert Gather(mem, d * BUF, desc.size) + [] == Gather(mem, d * BUF, desc.size);
    }
  }

  lemma WireStep(mem: seq<byte>, descs: seq<TxDesc>, d: nat, begins: bool, limit: nat)
    requires |mem| == |descs| * BUF && d < |descs| && limit > 0
    requires descs[d].own && descs[d].fs == begins && descs[d].size <= BUF
    ensures Wire(mem, descs, d, begins, limit)
            == mem[d * BUF..d * BUF + descs[d].size]
               + if descs[d].ls then [] else Wire(mem, descs, Pos(|descs|, d, 1), false, limit - 1)
  {
  }

  /** A frame that fits into the ring is sent byte for byte. */
  lemma WireCarriesFrame(mem: seq<byte>, descs: seq<TxDesc>, first: nat, frame: seq<byte>)
    requires |mem| == |descs| * BUF && first < |descs| && |frame| <= |mem|
    ensures var n := |frame|;
            Wire(WriteOn(mem, first * BUF, frame), HandOver(descs, first, n, Buffers(n)), first, true, |descs|) == frame
  {
    hide Wire, WriteOn, HandOver, Buffers, Gather;
    var n := |frame|;
    var handed := HandOver(descs, first, n, Buffers(n));
    forall j | 0 <= j < Buffers(n)
      ensures handed[Pos(|descs|, first, j)] == Handed(n, j)
    {
      HandedAt(descs, first, n, Buffers(n), j);
    }
    assert Pos(|descs|, first, 0) == first;
    WireFrom(WriteOn(mem, first * BUF, frame), handed, first, n, 0);
    ReadsBack(mem, first * BUF, frame, n);
    assert frame[..n] == frame;
  }

  /** The descriptors a frame does not take are left alone. */
  lemma {:induction false} HandOverElsewhere(descs: seq<TxDesc>, first: nat, length: nat, n: nat, j: nat)
    requires first < |descs| && j < |descs| && !Within(|descs|, first, n, j)
    ensures HandOver(descs, first, length, n)[j] == descs[j]
    decreases n
  {
    if n > 0 {
      WithinOneMore(|descs|, first, n - 1, j);
      HandOverElsewhere(descs, first, length, n - 1, j);
    }
  }

  /** The DMA sends the frame at `at`, and the descriptors it came in are the driver's again. */
  method DmaSends(driver: Driver, at: nat, ghost n: nat) returns (frame: seq<byte>, next: nat)
    requires driver.Valid() && at < driver.txDesc.Length && 1 <= n <= driver.txDesc.Length
    requires forall k | 0 <= k < n :: driver.txDesc[..][Pos(driver.txDesc.Length, at, k)].ls == (k == n - 1)
    modifies driver.txDesc
    ensures frame == Wire(driver.txMem[..], old(driver.txDesc[..]), at, true, driver.txDesc.Length)
    ensures next == Pos(driver.txDesc.Length, at, n)
    ensures forall j | 0 <= j < driver.txDesc.Length ::
              driver.txDesc[j] == if Within(driver.txDesc.Length, at, n, j) then old(driver.txDesc[j]).(own := false)
                                  else old(driver.txDesc[j])
  {
    hide Wire;
    frame := Wire(driver.txMem[..], driver.txDesc[..], at, true, driver.txDesc.Length);
    next := at;
    var last := false;
    ghost var size, was, i := driver.txDesc.Length, driver.txDesc[..], 0;
    while !last
      invariant i <= n && next == Pos(size, at, i) && last == (i == n)
      invariant forall j | 0 <= j < size ::
                  driver.txDesc[j] == if Within(size, at, i, j) then was[j].(own := false) else was[j]
      decreases n - i
    {
      forall j | 0 <= j < size
        ensures Within(size, at, i + 1, j) <==> Within(size, at, i, j) || j == next
      {
        WithinOneMore(size, at, i, j);
      }
      last := driver.txDesc[next].ls;
      driver.txDesc[next] := driver.txDesc[next].(own := false);
      next := if next + 1 == driver.txDesc.Length then 0 else next + 1;
      i := i + 1;
    }
  }
}
