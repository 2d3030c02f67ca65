/**
 The receiving side: finding a complete frame in the descriptor ring, copying it
 into a newly allocated pbuf chain, and giving its descriptors back to the DMA.
 The end of the file closes the loop with the sending side.
 */
module EthernetInput {
  import opened Words
  import opened Ethernet

  /** The frame length field of a receive descriptor has 14 bits. */
  type FrameField = n: int | 0 <= n < 0x4000

  /** `length` counts the whole frame and its checksum; the DMA sets it in the last descriptor. */
  datatype RxDesc = RxDesc(own: bool, fs: bool, ls: bool, length: FrameField)

  const CRC: nat := 4

  /** What the driver learns of a frame; without one, length 0 and no descriptor. */
  datatype Frame = Frame(length: nat, descriptor: Option<nat>)

  /** What the driver keeps of the frame it is in: its first descriptor and how many it has counted. */
  datatype Count = Count(first: Option<nat>, segments: nat)

  // ------------------------------------------------------------------ the scan

  /** The `k`-th descriptor from `first` on. */
  function Nth(descs: seq<RxDesc>, first: nat, k: nat): RxDesc
    requires first < |descs|
  {
    descs[Pos(|descs|, first, k)]
  }

  predicate Begins(d: RxDesc) {
    d.fs && !d.ls
  }

  /** Of `n` descriptors from `first` on, the last ends a frame. */
  predicate Complete(descs: seq<RxDesc>, first: nat, n: nat)
    requires first < |descs|
  {
    n >= 1 && Nth(descs, first, n - 1).ls
  }

  /** A scan takes `n` descriptors: to the end of a frame, to one of the DMA's, or all there are. */
  predicate Scanned(descs: seq<RxDesc>, first: nat, n: nat)
    requires first < |descs|
  {
    && n <= |descs|
    && (forall k | 0 <= k < n :: !Nth(descs, first, k).own)
    && (forall k | 0 <= k < n - 1 :: !Nth(descs, first, k).ls)
    && (n == |descs| || Complete(descs, first, n) || Nth(descs, first, n).own)
  }

  /** The count after `n` descriptors. */
  function Counted(descs: seq<RxDesc>, first: nat, c: Count, n: nat): (r: Count)
    requires first < |descs| && (c.first.Some? ==> c.first.value < |descs|)
    ensures r.first.Some? ==> r.first.value < |descs|
    ensures n >= 1 ==> r.segments >= 1
  {
    if n == 0 then c
    else
      var before, d := Counted(descs, first, c, n - 1), Nth(descs, first, n - 1);
      if Begins(d) || (d.ls && before.segments == 0) then Count(Some(Pos(|descs|, first, n - 1)), 1)
      else before.(segments := before.segments + 1)
  }

  /** Where the last beginning lies, the frame starts, whatever was counted before it. */
  lemma {:induction false} CountedFrom(descs: seq<RxDesc>, first: nat, c: Count, n: nat, k: nat)
    requires first < |descs| && (c.first.Some? ==> c.first.value < |descs|)
    requires k < n && Begins(Nth(descs, first, k))
    requires forall j | k < j < n :: !Begins(Nth(descs, first, j))
    ensures Counted(descs, first, c, n) == Count(Some(Pos(|descs|, first, k)), n - k)
    decreases n
  {
    if k < n - 1 {
      CountedFrom(descs, first, c, n - 1, k);
    }
  }

  /** Without a beginning the old count goes on; a frame of one descriptor begins where it ends. */
  lemma {:induction false} CountedOn(descs: seq<RxDesc>, first: nat, c: Count, n: nat)
    requires first < |descs| && (c.first.Some? ==> c.first.value < |descs|)
    requires forall j | 0 <= j < n :: !Begins(Nth(descs, first, j))
    requires forall j | 0 <= j < n - 1 :: !Nth(descs, first, j).ls
    ensures Counted(descs, first, c, n)
         == Count(if n == 1 && c.segments == 0 && Complete(descs, first, 1) then Some(first) else c.first,
                  c.segments + n)
    decreases n
  {
    if n > 0 {
      CountedOn(descs, first, c, n - 1);
      assert Pos(|descs|, first, 0) == first;
    }
  }

  /**
   The count is right, so that exactly the scanned descriptors are given back,
   if and only if none but the first begins a frame, and the first does so or
   nothing is left over from an earlier scan.
   */
  lemma CountIsRight(descs: seq<RxDesc>, first: nat, c: Count, n: nat)
    requires first < |descs| && (c.first.Some? ==> c.first.value < |descs|)
    requires Scanned(descs, first, n) && Complete(descs, first, n)
    ensures Counted(descs, first, c, n) == Count(Some(first), n)
            <==> && (forall k | 0 < k < n :: !Begins(Nth(descs, first, k)))
                 && (Begins(Nth(descs, first, 0)) || (c.segments == 0 && (n == 1 || c.first == Some(first))))
  {
    var k := LastBeginning(descs, first, n);
    if k.Some? {
      CountedFrom(descs, first, c, n, k.value);
      assert Pos(|descs|, first, 0) == first;
    } else {
      CountedOn(descs, first, c, n);
      assert !Begins(Nth(descs, first, 0));
    }
  }

  function LastBeginning(descs: seq<RxDesc>, first: nat, n: nat): (k: Option<nat>)
    requires first < |descs|
    ensures k.Some? ==> k.value < n && Begins(Nth(descs, first, k.value))
    ensures k.Some? ==> forall j | k.value < j < n :: !Begins(Nth(descs, first, j))
    ensures k.None? ==> forall j | 0 <= j < n :: !Begins(Nth(descs, first, j))
  {
    if n == 0 then None
    else if Begins(Nth(descs, first, n - 1)) then Some(n - 1)
    else LastBeginning(descs, first, n - 1)
  }

  /** The ring decides how many descriptors a scan takes. */
  lemma ScannedOnce(descs: seq<RxDesc>, first: nat, m: nat, n: nat)
    requires first < |descs| && Scanned(descs, first, m) && Scanned(descs, first, n)
    ensures m == n
  {
  }

  /** `n` descriptors from `first` on hold one complete frame. */
  predicate FrameAt(descs: seq<RxDesc>, first: nat, n: nat)
    requires first < |descs|
  {
    && 1 <= n <= |descs|
    && (forall k | 0 <= k < n ::
          var d := Nth(descs, first, k);
          !d.own && d.fs == (k == 0) && d.ls == (k == n - 1))
    && CRC <= Nth(descs, first, n - 1).length
  }

  /** `n` descriptors from `first` on hold the beginning of a frame that is still arriving. */
  predicate PartAt(descs: seq<RxDesc>, first: nat, n: nat)
    requires first < |descs|
  {
    && 1 <= n <= |descs|
    && (forall k | 0 <= k < n ::
          var d := Nth(descs, first, k);
          !d.own && d.fs == (k == 0) && !d.ls)
    && (n < |descs| ==> Nth(descs, first, n).own)
  }

  /** A complete frame is found and counted. */
  lemma FrameIsFound(descs: seq<RxDesc>, first: nat, c: Count, n: nat)
    requires first < |descs| && (c.first.Some? ==> c.first.value < |descs|)
    requires FrameAt(descs, first, n) && (n == 1 ==> c.segments == 0)
    ensures Scanned(descs, first, n) && Complete(descs, first, n)
    ensures Counted(descs, first, c, n) == Count(Some(first), n)
  {
    CountIsRight(descs, first, c, n);
  }

  /** A frame that is still arriving is counted as far as it goes, and there is none to give. */
  lemma PartIsCounted(descs: seq<RxDesc>, first: nat, c: Count, n: nat)
    requires first < |descs| && (c.first.Some? ==> c.first.value < |descs|)
    requires PartAt(descs, first, n)
    ensures Scanned(descs, first, n) && !Complete(descs, first, n)
    ensures Counted(descs, first, c, n) == Count(Some(first), n)
  {
    CountedFrom(descs, first, c, n, 0);
    assert Pos(|descs|, first, 0) == first;
  }

  /** The length of a complete frame as the driver computes it, in 32 bits, without its checksum. */
  function FrameLength(descs: seq<RxDesc>, first: nat, n: nat): (r: nat)
    requires first < |descs| && Complete(descs, first, n)
  {
    Wrap32(Nth(descs, first, n - 1).length - CRC)
  }

  /** The `n` descriptors from `first` on have been given back to the DMA, and no other has changed. */
  ghost predicate GivenBack(before: seq<RxDesc>, after: seq<RxDesc>, first: nat, n: nat)
    requires first < |before|
  {
    && |after| == |before|
    && forall j | 0 <= j < |before| ::
         after[j] == if Within(|before|, first, n, j) then RxDesc(true, false, false, 0) else before[j]
  }

  function Lengths(chain: seq<seq<byte>>): (r: seq<nat>)
    ensures |r| == |chain| && forall k | 0 <= k < |r| :: r[k] == |chain[k]|
  {
    seq(|chain|, k requires 0 <= k < |chain| => |chain[k]|)
  }

  datatype Input =
    | Nothing
    | Received(chain: seq<seq<byte>>)
    | Fault  // a descriptor is followed that is not there

  class Receiver {
    const rxMem: array<byte>
    const rxDesc: array<RxDesc>
    var toGet: nat
    var fsDesc: Option<nat>  // None is the null pointer it starts as
    var segCount: nat

    constructor (rxMem: array<byte>, rxDesc: array<RxDesc>)
      requires 0 < rxDesc.Length && rxMem.Length == rxDesc.Length * BUF
      ensures Valid() && segCount == 0
    {
      this.rxMem, this.rxDesc := rxMem, rxDesc;
      toGet, fsDesc, segCount := 0, None, 0;
    }

    ghost predicate Valid()
      reads this
    {
      && rxMem.Length == rxDesc.Length * BUF && toGet < rxDesc.Length
      && (fsDesc.Some? ==> fsDesc.value < rxDesc.Length)
    }

    ghost function Counts(): Count
      reads this
    {
      Count(fsDesc, segCount)
    }

    /** Scans the descriptors from `toGet` on for the end of a frame, whatever the ring holds. */
    method GetReceivedFrame() returns (frame: Frame, ghost n: nat)
      requires Valid()
      modifies this`toGet, this`fsDesc, this`segCount
      ensures Valid() && Scanned(rxDesc[..], old(toGet), n) && toGet == Pos(rxDesc.Length, old(toGet), n)
      ensures Counts() == Counted(rxDesc[..], old(toGet), old(Counts()), n)
      ensures frame == if Complete(rxDesc[..], old(toGet), n) then Frame(FrameLength(rxDesc[..], old(toGet), n), fsDesc)
                       else Frame(0, None)
    {
      hide Wrap32;
      ghost var first, descs, c := toGet, rxDesc[..], Counts();
      var scanned := 0;
      n := 0;
      while !rxDesc[toGet].own && scanned < rxDesc.Length
        invariant Valid() && scanned == n <= rxDesc.Length && toGet == Pos(rxDesc.Length, first, n)
        invariant Counts() == Counted(descs, first, c, n)
        invariant forall k | 0 <= k < n :: !Nth(descs, first, k).own && !Nth(descs, first, k).ls
      {
        assert Nth(descs, first, n) == rxDesc[toGet];
        scanned := scanned + 1;
        n := n + 1;
        if rxDesc[toGet].fs && !rxDesc[toGet].ls {
          fsDesc := Some(toGet);
          segCount := 1;
          toGet := if toGet + 1 == rxDesc.Length then 0 else toGet + 1;
        } else if !rxDesc[toGet].ls && !rxDesc[toGet].fs {
          segCount := segCount + 1;
          toGet := if toGet + 1 == rxDesc.Length then 0 else toGet + 1;
        } else {
          segCount := segCount + 1;
          if segCount == 1 {
            fsDesc := Some(toGet);
          }
          frame := Frame(Wrap32(rxDesc[toGet].length - CRC), fsDesc);
          toGet := if toGet + 1 == rxDesc.Length then 0 else toGet + 1;
          return;
        }
      }
      frame := Frame(0, None);
    }

    /** One pbuf of `len` bytes; `done` bytes of the frame have been copied before. */
    method FillPbuf(len: nat, desc0: nat, offset0: nat, ghost first: nat, ghost done: nat, ghost hops0: nat)
      returns (payload: array<byte>, desc: nat, offset: nat, ghost hops: nat)
      requires Valid() && Cursor(rxDesc.Length, first, done, desc0, offset0, hops0)
      ensures fresh(payload) && payload[..] == Gather(rxMem[..], Pos(rxMem.Length, first * BUF, done), len)
      ensures Cursor(rxDesc.Length, first, done + len, desc, offset, hops)
    {
      hide Gather, Pos, Cursor, Put;
      CursorRange(rxDesc.Length, first, done, desc0, offset0, hops0);
      ghost var mem, at := rxMem[..], Pos(rxMem.Length, first * BUF, done);
      payload := new byte[len];
      desc, offset, hops := desc0, offset0, hops0;
      var bytesLeft := len;
      var payloadOffset: nat := 0;
      GatherNothing(mem, at);
      while bytesLeft + offset > BUF
        invariant 0 <= bytesLeft && bytesLeft + payloadOffset == len && desc < rxDesc.Length && offset <= BUF
        invariant Cursor(rxDesc.Length, first, done + payloadOffset, desc, offset, hops)
        invariant payload[..payloadOffset] == Gather(mem, at, payloadOffset)
        decreases bytesLeft, offset
      {
        var n := BUF - offset;
        CopyChunk(payload, payloadOffset, n, desc, offset, first, done, hops);
        CursorHops(rxDesc.Length, first, done + payloadOffset + n, desc, hops);
        desc := if desc + 1 == rxDesc.Length then 0 else desc + 1;
        hops := hops + 1;
        bytesLeft := bytesLeft - n;
        payloadOffset := payloadOffset + n;
        offset := 0;
      }
      CopyChunk(payload, payloadOffset, bytesLeft, desc, offset, first, done, hops);
      assert payload[..len] == payload[..];
      offset := offset + bytesLeft;
    }

    /** A piece that lies in one buffer. */
    method CopyChunk(payload: array<byte>, payloadOffset: nat, n: nat, desc: nat, offset: nat,
                     ghost first: nat, ghost done: nat, ghost hops: nat)
      requires Valid() && payload != rxMem && payloadOffset + n <= payload.Length && offset + n <= BUF
      requires Cursor(rxDesc.Length, first, done + payloadOffset, desc, offset, hops)
      requires payload[..payloadOffset] == Gather(rxMem[..], Pos(rxMem.Length, first * BUF, done), payloadOffset)
      modifies payload
      ensures payload[..payloadOffset + n] == Gather(rxMem[..], Pos(rxMem.Length, first * BUF, done), payloadOffset + n)
      ensures Cursor(rxDesc.Length, first, done + payloadOffset + n, desc, offset + n, hops)
    {
      hide Gather, Pos, Put;
      ghost var mem, at := rxMem[..], Pos(rxMem.Length, first * BUF, done);
      ghost var chunk := mem[desc * BUF + offset..desc * BUF + offset + n];
      PosAdd(rxMem.Length, first * BUF, done, payloadOffset);
      CursorPlace(rxDesc.Length, first, done + payloadOffset, desc, offset, hops);
      if offset < BUF {
        SliceIsGather(mem, desc * BUF + offset, n);
      } else {
        GatherNothing(mem, Pos(rxMem.Length, at, payloadOffset));
      }
      GatherConcat(mem, at, payloadOffset, n);
      ghost var was := payload[..];
      Memcpy(payload, payloadOffset, rxMem[desc * BUF + offset..desc * BUF + offset + n]);
      PutBehind(was, 0, payloadOffset, chunk);
    }

    /** Fills a chain of pbufs with these lengths, buffer after buffer. */
    method FillChain(lens: seq<nat>, first: nat) returns (chain: seq<seq<byte>>)
      requires Valid() && first < rxDesc.Length
      ensures Lengths(chain) == lens && Flatten(chain) == Gather(rxMem[..], first * BUF, Sum(lens))
    {
      hide Gather, Cursor, WriteOn;
      chain := [];
      var desc, offset := first, 0;
      ghost var hops := 0;
      EmptyCursor(rxMem[..], rxDesc.Length, first);
      GatherNothing(rxMem[..], first * BUF);
      var q := 0;
      while q < |lens|
        invariant q <= |lens| && Lengths(chain) == lens[..q]
        invariant Cursor(rxDesc.Length, first, Sum(lens[..q]), desc, offset, hops)
        invariant Flatten(chain) == Gather(rxMem[..], first * BUF, Sum(lens[..q]))
      {
        var payload;
        payload, desc, offset, hops := FillPbuf(lens[q], desc, offset, first, Sum(lens[..q]), hops);
        GatherConcat(rxMem[..], first * BUF, Sum(lens[..q]), lens[q]);
        FlattenSnoc(chain, payload[..]);
        assert lens[..q + 1][..q] == lens[..q];
        assert Lengths(chain + [payload[..]]) == Lengths(chain) + [lens[q]];
        chain := chain + [payload[..]];
        q := q + 1;
      }
      assert lens[..q] == lens;
    }

    /** Gives the descriptors of the frame back to the DMA. */
    method Release(descriptor: nat)
      requires Valid() && descriptor < rxDesc.Length
      modifies this`segCount, rxDesc
      ensures Valid() && segCount == 0 && GivenBack(old(rxDesc[..]), rxDesc[..], descriptor, old(segCount))
    {
      ghost var was := rxDesc[..];
      var desc := descriptor;
      var i := 0;
      while i < segCount
        invariant i <= segCount && segCount == old(segCount) && desc == Pos(rxDesc.Length, descriptor, i)
        invariant GivenBack(was, rxDesc[..], descriptor, i)
      {
        forall j | 0 <= j < |was|
          ensures Within(|was|, descriptor, i + 1, j) <==> Within(|was|, descriptor, i, j) || j == desc
        {
          WithinOneMore(|was|, descriptor, i, j);
        }
        rxDesc[desc] := RxDesc(true, false, false, 0);
        desc := if desc + 1 == rxDesc.Length then 0 else desc + 1;
        i := i + 1;
      }
      segCount := 0;
    }

    /**
     One received frame, copied into a pbuf chain as `alloc` makes it. With or
     without a chain, exactly the counted descriptors go back to the DMA. It goes
     wrong exactly when descriptors have been counted and no frame has ended, or
     one whose first descriptor is not known.
     */
    method LowLevelInput(alloc: nat -> Option<seq<nat>>) returns (r: Input, ghost n: nat)
      requires Valid()
      requires forall len :: alloc(len).Some? ==> Sum(alloc(len).value) == len
      modifies this`toGet, this`fsDesc, this`segCount, rxDesc
      ensures Valid() && Scanned(old(rxDesc[..]), old(toGet), n) && toGet == Pos(rxDesc.Length, old(toGet), n)
      ensures var c := Counted(old(rxDesc[..]), old(toGet), old(Counts()), n);
              var complete := Complete(old(rxDesc[..]), old(toGet), n);
              && (r == Fault <==> c.segments > 0 && !(complete && c.first.Some?))
              && (r != Fault ==> segCount == 0)
              && (r != Fault && c.segments == 0 ==> r == Nothing && rxDesc[..] == old(rxDesc[..]))
              && (r != Fault && c.segments > 0 ==>
                    var length := FrameLength(old(rxDesc[..]), old(toGet), n) % 0x1_0000;
                    && GivenBack(old(rxDesc[..]), rxDesc[..], c.first.value, c.segments)
                    && (if length > 0 && alloc(length).Some? then
                          && r.Received? && Lengths(r.chain) == alloc(length).value
                          && Flatten(r.chain) == Gather(rxMem[..], c.first.value * BUF, length)
                        else r == Nothing))
    {
      hide Gather, GivenBack, Scanned, Counted, Pos;
      var frame;
      frame, n := GetReceivedFrame();
      var len := frame.length % 0x1_0000;
      r := Nothing;
      if len > 0 {
        match alloc(len) {
          case None =>
          case Some(lens) =>
            match frame.descriptor {
              case None =>
                r := Fault;
              case Some(first) =>
                var chain := FillChain(lens, first);
                r := Received(chain);
            }
        }
      }
      match frame.descriptor {
        case Some(first) =>
          Release(first);
        case None =>
          if segCount > 0 {
            r := Fault;
          }
      }
    }
  }

  lemma GatherNothing(mem: seq<byte>, at: nat)
    requires at < |mem|
    ensures Gather(mem, at, 0) == []
  {
  }

  // -------------------------------------------------------------- the round trip

  /** The ring after the DMA has filled the `n` first descriptors of a frame of this length. */
  function Filled(descs: seq<RxDesc>, first: nat, length: FrameField, n: nat): (r: seq<RxDesc>)
    requires first < |descs|
    ensures |r| == |descs|
  {
    if n == 0 then descs
    else Filled(descs, first, length, n - 1)[Pos(|descs|, first, n - 1) := FilledDesc(length, n - 1)]
  }

  /** The `k`-th descriptor of a frame as the DMA leaves it. */
  function FilledDesc(length: FrameField, k: nat): RxDesc {
    var last := k + 1 == Buffers(length);
    RxDesc(false, k == 0, last, if last then length else 0)
  }

  lemma {:induction false} FilledAt(descs: seq<RxDesc>, first: nat, length: FrameField, n: nat, k: nat)
    requires first < |descs| && k < n <= |descs|
    ensures Filled(descs, first, length, n)[Pos(|descs|, first, k)] == FilledDesc(length, k)
    decreases n
  {
    hide FilledDesc;
    if k < n - 1 {
      FilledAt(descs, first, length, n - 1, k);
      PosWithin(|descs|, first, k);
      PosWithin(|descs|, first, n - 1);
    }
  }

  lemma FilledIsFrame(descs: seq<RxDesc>, first: nat, length: FrameField)
    requires first < |descs| && CRC <= length <= |descs| * BUF
    ensures var n := Buffers(length);
            FrameAt(Filled(descs, first, length, n), first, n)
            && FrameLength(Filled(descs, first, length, n), first, n) == length - CRC
  {
    hide Filled, Pos;
    var n := Buffers(length);
    forall k | 0 <= k < n
      ensures Nth(Filled(descs, first, length, n), first, k) == FilledDesc(length, k)
    {
      FilledAt(descs, first, length, n, k);
    }
  }

  /** Scattered, sent, received and gathered, any frame the rings can hold comes out as it went in. */
  lemma FrameRoundTrip(txMem: seq<byte>, txDesc: seq<TxDesc>, txFirst: nat,
                       rxMem: seq<byte>, rxCount: nat, rxFirst: nat,
                       frame: seq<byte>, crc: seq<byte>)
    requires txFirst < |txDesc| && |txMem| == |txDesc| * BUF && |frame| <= |txMem|
    requires rxFirst < rxCount && |rxMem| == rxCount * BUF && |frame| + |crc| <= |rxMem|
    ensures var n := |frame|;
            var handed := HandOver(txDesc, txFirst, n, Buffers(n));
            var sent := Wire(WriteOn(txMem, txFirst * BUF, frame), handed, txFirst, true, |txDesc|);
            sent == frame && Gather(WriteOn(rxMem, rxFirst * BUF, sent + crc), rxFirst * BUF, n) == frame
  {
    hide Wire, WriteOn, HandOver, Gather, Buffers;
    WireCarriesFrame(txMem, txDesc, txFirst, frame);
    ReadsBack(rxMem, rxFirst * BUF, frame + crc, |frame|);
    assert (frame + crc)[..|frame|] == frame;
  }

  lemma {:induction false} FilledElsewhere(descs: seq<RxDesc>, first: nat, length: FrameField, n: nat, j: nat)
    requires first < |descs| && j < |descs| && !Within(|descs|, first, n, j)
    ensures Filled(descs, first, length, n)[j] == descs[j]
    decreases n
  {
    if n > 0 {
      WithinOneMore(|descs|, first, n - 1, j);
      FilledElsewhere(descs, first, length, n - 1, j);
    }
  }

  predicate OwnedUpto(descs: seq<RxDesc>, first: nat, n: nat)
    requires first < |descs|
  {
    forall k | 0 <= k < n :: Nth(descs, first, k).own
  }

  /** The DMA of the receiver stores a frame and its checksum from `at` on, in descriptors it must own. */
  method DmaReceives(receiver: Receiver, at: nat, frame: seq<byte>, crc: seq<byte>) returns (next: nat)
    requires receiver.Valid() && |crc| == CRC && |frame| + CRC <= receiver.rxMem.Length && |frame| + CRC < 0x4000
    requires at < receiver.rxDesc.Length && OwnedUpto(receiver.rxDesc[..], at, Buffers(|frame| + CRC))
    modifies receiver.rxMem, receiver.rxDesc
    ensures receiver.rxMem[..] == WriteOn(old(receiver.rxMem[..]), at * BUF, frame + crc)
    ensures receiver.rxDesc[..] == Filled(old(receiver.rxDesc[..]), at, |frame| + CRC, Buffers(|frame| + CRC))
    ensures next == Pos(receiver.rxDesc.Length, at, Buffers(|frame| + CRC))
  {
    hide WriteOn, Filled, Buffers, OwnedUpto;
    var mem := WriteOn(receiver.rxMem[..], at * BUF, frame + crc);
    var descs := Filled(receiver.rxDesc[..], at, |frame| + CRC, Buffers(|frame| + CRC));
    forall k | 0 <= k < receiver.rxMem.Length {
      receiver.rxMem[k] := mem[k];
    }
    forall k | 0 <= k < receiver.rxDesc.Length {
      receiver.rxDesc[k] := descs[k];
    }
    next := Pos(receiver.rxDesc.Length, at, Buffers(|frame| + CRC));
  }

  /** A frame that both rings can hold, and its checksum. */
  predicate Fits(driver: Driver, receiver: Receiver, p: seq<seq<byte>>, crc: seq<byte>) {
    && |crc| == CRC && 0 < |Flatten(p)| <= driver.txMem.Length
    && |Flatten(p)| + CRC <= receiver.rxMem.Length && |Flatten(p)| + CRC < 0x4000
  }

  /** What comes out when `p` goes in: its bytes in the given lengths, or nothing without memory for them. */
  predicate Arrives(p: seq<seq<byte>>, alloc: nat -> Option<seq<nat>>, r: Input) {
    if alloc(|Flatten(p)|).Some? then
      r.Received? && Lengths(r.chain) == alloc(|Flatten(p)|).value && Flatten(r.chain) == Flatten(p)
    else r == Nothing
  }

  /** No transmit descriptor has come to belong to the DMA, and those the frame took are free. */
  ghost predicate FreeAfter(before: seq<TxDesc>, after: seq<TxDesc>, first: nat, n: nat)
    requires first < |before|
  {
    && |after| == |before|
    && forall j | 0 <= j < |before| :: after[j].own == (before[j].own && !Within(|before|, first, n, j))
  }

  /** No receive descriptor has been lost to the DMA, and it owns those the frame took. */
  ghost predicate OwnedAfter(before: seq<RxDesc>, after: seq<RxDesc>, first: nat, n: nat)
    requires first < |before|
  {
    && |after| == |before|
    && forall j | 0 <= j < |before| :: after[j].own == (before[j].own || Within(|before|, first, n, j))
  }

  /**
   Two drivers back to back, with any segmentation on either side and rings of
   any two sizes that hold the frame. Afterwards the descriptors are back where
   they were, and each DMA stands where its driver does.
   */
  method RoundTrip(driver: Driver, receiver: Receiver, txAt: nat, rxAt: nat, p: seq<seq<byte>>, crc: seq<byte>,
                   alloc: nat -> Option<seq<nat>>)
    returns (r: Input, txNext: nat, rxNext: nat)
    requires driver.Valid() && receiver.Valid() && receiver.segCount == 0 && driver.txMem != receiver.rxMem
    requires txAt == driver.toSet && rxAt == receiver.toGet && Fits(driver, receiver, p, crc)
    requires FreeUpto(driver.txDesc[..], txAt, Buffers(|Flatten(p)|))
    requires OwnedUpto(receiver.rxDesc[..], rxAt, Buffers(|Flatten(p)| + CRC))
    requires forall len :: alloc(len).Some? ==> Sum(alloc(len).value) == len
    modifies driver, driver.txMem, driver.txDesc, receiver, receiver.rxMem, receiver.rxDesc
    ensures driver.Valid() && receiver.Valid() && receiver.segCount == 0
    ensures txNext == driver.toSet && rxNext == receiver.toGet
    ensures FreeAfter(old(driver.txDesc[..]), driver.txDesc[..], txAt, Buffers(|Flatten(p)|))
    ensures OwnedAfter(old(receiver.rxDesc[..]), receiver.rxDesc[..], rxAt, Buffers(|Flatten(p)| + CRC))
    ensures Arrives(p, alloc, r)
  {
    hide WriteOn, HandOver, Wire, Filled, GivenBack, Gather, Flatten, Buffers, Scanned, Counted, FrameAt, Pos;
    hide Complete, FrameLength, OwnedUpto, FreeUpto, FreeAfter, OwnedAfter, Handed;
    ghost var length, n := |Flatten(p)|, Buffers(|Flatten(p)|);
    ghost var txMem, txDesc := driver.txMem[..], driver.txDesc[..];
    ghost var rxMem, rxDesc := receiver.rxMem[..], receiver.rxDesc[..];
    var sent := driver.LowLevelOutput(p, true);
    HandedIsFrame(txDesc, txAt, length);
    var frame;
    frame, txNext := DmaSends(driver, txAt, n);
    SentIsFree(txDesc, driver.txDesc[..], txAt, length);
    FrameRoundTrip(txMem, txDesc, txAt, rxMem, receiver.rxDesc.Length, rxAt, Flatten(p), crc);
    FilledIsFrame(rxDesc, rxAt, length + CRC);
    rxNext := DmaReceives(receiver, rxAt, frame, crc);
    ghost var filled, buffers, m := receiver.rxDesc[..], Buffers(length + CRC), 0;
    FrameIsFound(filled, rxAt, receiver.Counts(), buffers);
    r, m := receiver.LowLevelInput(alloc);
    ScannedOnce(filled, rxAt, m, buffers);
    GivenBackIsOwned(rxDesc, receiver.rxDesc[..], rxAt, length + CRC);
  }

  /** What has been handed over ends where the frame does. */
  lemma HandedIsFrame(descs: seq<TxDesc>, first: nat, length: nat)
    requires first < |descs| && length <= |descs| * BUF
    ensures var n := Buffers(length);
            && 1 <= n <= |descs|
            && forall k | 0 <= k < n :: HandOver(descs, first, length, n)[Pos(|descs|, first, k)].ls == (k == n - 1)
  {
    hide HandOver, Pos;
    var n := Buffers(length);
    forall k | 0 <= k < n
      ensures HandOver(descs, first, length, n)[Pos(|descs|, first, k)].ls == (k == n - 1)
    {
      HandedAt(descs, first, length, n, k);
    }
  }

  /** Handing over a frame and sending it leaves its descriptors free. */
  lemma SentIsFree(descs: seq<TxDesc>, after: seq<TxDesc>, first: nat, length: nat)
    requires first < |descs| == |after|
    requires var n := Buffers(length);
             forall j | 0 <= j < |descs| ::
               after[j] == if Within(|descs|, first, n, j) then HandOver(descs, first, length, n)[j].(own := false)
                           else HandOver(descs, first, length, n)[j]
    ensures FreeAfter(descs, after, first, Buffers(length))
  {
    hide HandOver, Within, Buffers;
    forall j | 0 <= j < |after|
      ensures after[j].own == (descs[j].own && !Within(|descs|, first, Buffers(length), j))
    {
      if !Within(|descs|, first, Buffers(length), j) {
        HandOverElsewhere(descs, first, length, Buffers(length), j);
      }
    }
  }

  /** Receiving a frame and giving it back leaves its descriptors with the DMA. */
  lemma GivenBackIsOwned(descs: seq<RxDesc>, after: seq<RxDesc>, first: nat, length: FrameField)
    requires first < |descs|
    requires GivenBack(Filled(descs, first, length, Buffers(length)), after, first, Buffers(length))
    ensures OwnedAfter(descs, after, first, Buffers(length))
  {
    hide Filled, Within, Buffers;
    forall j | 0 <= j < |after|
      ensures after[j].own == (descs[j].own || Within(|descs|, first, Buffers(length), j))
    {
      if !Within(|descs|, first, Buffers(length), j) {
        FilledElsewhere(descs, first, length, Buffers(length), j);
      }
    }
  }

  /** Both drivers are idle: every transmit descriptor is free, every receive descriptor is the DMA's. */
  ghost predicate Idle(driver: Driver, receiver: Receiver)
    reads driver, driver.txDesc, receiver, receiver.rxDesc
  {
    && driver.Valid() && receiver.Valid() && receiver.segCount == 0 && driver.txMem != receiver.rxMem
    && (forall j | 0 <= j < driver.txDesc.Length :: !driver.txDesc[j].own)
    && (forall j | 0 <= j < receiver.rxDesc.Length :: receiver.rxDesc[j].own)
  }

  lemma IdleServes(driver: Driver, receiver: Receiver, m: nat, n: nat)
    requires Idle(driver, receiver)
    ensures FreeUpto(driver.txDesc[..], driver.toSet, m) && OwnedUpto(receiver.rxDesc[..], receiver.toGet, n)
  {
  }

  /** Any number of frames, one after the other, without a descriptor getting lost on either side. */
  method RoundTrips(driver: Driver, receiver: Receiver, txAt: nat, rxAt: nat, ps: seq<seq<seq<byte>>>,
                    crcs: seq<seq<byte>>, alloc: nat -> Option<seq<nat>>)
    returns (rs: seq<Input>)
    requires Idle(driver, receiver) && txAt == driver.toSet && rxAt == receiver.toGet
    requires |crcs| == |ps| && forall k | 0 <= k < |ps| :: Fits(driver, receiver, ps[k], crcs[k])
    requires forall len :: alloc(len).Some? ==> Sum(alloc(len).value) == len
    modifies driver, driver.txMem, driver.txDesc, receiver, receiver.rxMem, receiver.rxDesc
    ensures Idle(driver, receiver)
    ensures |rs| == |ps| && forall k | 0 <= k < |ps| :: Arrives(ps[k], alloc, rs[k])
  {
    hide Fits, Arrives, FreeUpto, OwnedUpto, Within, Buffers;
    rs := [];
    var txNext, rxNext := txAt, rxAt;
    while |rs| < |ps|
      invariant |rs| <= |ps| && Idle(driver, receiver) && txNext == driver.toSet && rxNext == receiver.toGet
      invariant forall k | 0 <= k < |rs| :: Arrives(ps[k], alloc, rs[k])
    {
      var p, r := ps[|rs|], Nothing;
      IdleServes(driver, receiver, Buffers(|Flatten(p)|), Buffers(|Flatten(p)| + CRC));
      r, txNext, rxNext := RoundTrip(driver, receiver, txNext, rxNext, p, crcs[|rs|], alloc);
      rs := rs + [r];
    }
  }
}
