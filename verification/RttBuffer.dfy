/**
 The ring buffer object of SEGGER RTT and the functions that write and read it.
 One class stands for both directions: an up-buffer is written by the target
 and drained by the host, a down-buffer the other way round.
 */
module RttBuffer {
  import opened Words
  import opened RttRing

  datatype Mode = NoBlockSkip | NoBlockTrim | BlockIfFifoFull

  /** In how many rounds a host takes something out. */
  function Reads(host: seq<nat>): (r: nat)
    ensures r <= |host|
    decreases |host|
  {
    if host == [] then 0 else Reads(host[..|host| - 1]) + if host[|host| - 1] > 0 then 1 else 0
  }

  class Ring {
    const data: array<byte>
    var wrOff: nat
    var rdOff: nat
    var mode: Mode
    ghost var consumed: seq<byte>  // everything the reading side has taken out so far

    ghost predicate Valid()
      reads this
    {
      2 <= data.Length < 0x8000_0000 && wrOff < data.Length && rdOff < data.Length
    }

    ghost function Contents(): seq<byte>
      requires Valid()
      reads this, data
    {
      Unread(data[..], wrOff, rdOff)
    }

    /** Every byte that ever went through the ring, in order. */
    ghost function History(): seq<byte>
      requires Valid()
      reads this, data
    {
      consumed + Contents()
    }

    /** Any ring but the first is given memory, and what it held is gone. */
    constructor Config(buffer: array<byte>, mode: Mode)
      requires 2 <= buffer.Length < 0x8000_0000
      ensures Valid() && data == buffer && this.mode == mode
      ensures Contents() == [] && consumed == []
    {
      data := buffer;
      wrOff, rdOff := 0, 0;
      this.mode := mode;
      consumed := [];
    }

    /** The first ring keeps its memory and everything in it; only its mode is set. */
    method ConfigFirst(mode: Mode)
      requires Valid()
      modifies this`mode
      ensures Valid() && this.mode == mode && Contents() == old(Contents()) && History() == old(History())
    {
      this.mode := mode;
    }

    /** The reading side takes `n` bytes, or all there are; it may do so at any time. */
    method Drain(n: nat)
      requires Valid()
      modifies this`rdOff, this`consumed
      ensures Valid()
      ensures History() == old(History())
      ensures var k := Min(n, old(|Contents()|));
              Contents() == old(Contents())[k..] && consumed == old(consumed) + old(Contents())[..k]
    {
      var k := Min(n, Distance(data.Length, rdOff, wrOff));
      Took(k);
      consumed := consumed + Contents()[..k];
      rdOff := Advance(data.Length, rdOff, k);
    }

    /** How many bytes can be written without blocking. */
    method GetAvailWriteSpace() returns (r: nat)
      requires Valid()
      ensures r == data.Length - 1 - |Contents()|
      ensures r == Free(data.Length, wrOff, rdOff)
    {
      if rdOff <= wrOff {
        r := data.Length - 1 - wrOff + rdOff;
      } else {
        r := rdOff - wrOff - 1;
      }
    }

    /** Stores `bs` without looking at the read offset; the caller has checked that it fits. */
    method WriteNoCheck(bs: seq<byte>)
      requires Valid()
      requires |bs| <= Free(data.Length, wrOff, rdOff)
      modifies this`wrOff, data
      ensures Valid()
      ensures data[..] == RingStore(old(data[..]), old(wrOff), bs)
      ensures wrOff == Advance(data.Length, old(wrOff), |bs|)
      ensures Contents() == old(Contents()) + bs && History() == old(History()) + bs
    {
      hide RingStore, Unread;
      StoreAppends(data[..], wrOff, rdOff, bs);
      PutsAreStore(data[..], wrOff, bs);
      var rem := data.Length - wrOff;
      if rem > |bs| {
        Memcpy(data, wrOff, bs);
        wrOff := wrOff + |bs|;
      } else {
        Memcpy(data, wrOff, bs[..rem]);
        Memcpy(data, 0, bs[rem..]);
        wrOff := |bs| - rem;
      }
    }

    /**
     All or nothing. When `bs` fits, ring memory and write offset end up exactly
     as `GetAvailWriteSpace` followed by `WriteNoCheck` leaves them.
     */
    method WriteSkipNoLock(bs: seq<byte>) returns (stored: bool)
      requires Valid()
      requires |bs| >= 1
      modifies this`wrOff, data
      ensures Valid()
      ensures stored <==> |bs| <= old(Free(data.Length, wrOff, rdOff))
      ensures stored ==> data[..] == RingStore(old(data[..]), old(wrOff), bs)
                         && wrOff == Advance(data.Length, old(wrOff), |bs|)
      ensures !stored ==> data[..] == old(data[..]) && wrOff == old(wrOff)
      ensures Contents() == if stored then old(Contents()) + bs else old(Contents())
      ensures History() == if stored then old(History()) + bs else old(History())
    {
      hide RingStore, Unread;
      if |bs| <= Free(data.Length, wrOff, rdOff) {
        StoreAppends(data[..], wrOff, rdOff, bs);
        PutsAreStore(data[..], wrOff, bs);
      }
      if rdOff <= wrOff {
        var avail := data.Length - 1 - wrOff;
        if avail >= |bs| {
          CopyBytes(wrOff, bs);
          wrOff := wrOff + |bs|;
          return true;
        }
        avail := avail + rdOff;
        if avail >= |bs| {
          var rem := data.Length - wrOff;
          if rem > |bs| {
            assert false;  // the space up to the end was too short above
          } else {
            Memcpy(data, wrOff, bs[..rem]);
            Memcpy(data, 0, bs[rem..]);
            wrOff := |bs| - rem;
          }
          return true;
        }
      } else {
        var avail := rdOff - wrOff - 1;
        if avail >= |bs| {
          Memcpy(data, wrOff, bs);
          wrOff := wrOff + |bs|;
          return true;
        }
      }
      return false;
    }

    /**
     Posts every byte, waiting for the host where the ring is full. `host` says
     how many bytes the host takes out before each look at the read offset; the
     call is observed for as many rounds as `host` has entries.
     */
    method WriteBlocking(bs: seq<byte>, host: seq<nat>) returns (written: nat)
      requires Valid()
      modifies this`wrOff, this`rdOff, this`consumed, data
      ensures Valid()
      ensures written <= |bs| && History() == old(History()) + bs[..written]
      ensures old(consumed) <= consumed
      // Room for everything at the start: two rounds are enough.
      ensures |bs| <= old(Free(data.Length, wrOff, rdOff)) && |host| >= 2 ==> written == |bs|
      // One round in which the host has taken something is enough for one byte, however long it pauses in between.
      ensures |bs| <= Reads(host) ==> written == |bs|
    {
      hide Unread, History, Free, Distance, Advance;
      ghost var free0, h0 := Free(data.Length, wrOff, rdOff), History();
      written := 0;
      var i := 0;
      while i < |host| && (i == 0 || written < |bs|)
        invariant Valid() && i <= |host| && written <= |bs|
        invariant History() == h0 + bs[..written]
        invariant old(consumed) <= consumed
        invariant Free(data.Length, wrOff, rdOff) >= free0 - written
        invariant |bs| <= free0 && i >= 1 ==> written == |bs| || (wrOff == 0 && i == 1)
        invariant written >= Min(Reads(host[..i]), |bs|)
      {
        var n := BlockingRound(bs[written..], host[i]);
        assert bs[..written] + bs[written..][..n] == bs[..written + n];
        written := written + n;
        assert host[..i + 1][..i] == host[..i];
        i := i + 1;
      }
      assert bs[..|bs|] == bs && host[..|host|] == host;
    }

    /** The host takes out up to `k` bytes, then one round of the blocking writer runs. */
    method BlockingRound(bs: seq<byte>, k: nat) returns (n: nat)
      requires Valid()
      modifies this`wrOff, this`rdOff, this`consumed, data
      ensures Valid()
      ensures n <= |bs| && History() == old(History()) + bs[..n]
      ensures old(consumed) <= consumed
      ensures Free(data.Length, wrOff, rdOff) >= old(Free(data.Length, wrOff, rdOff)) - n
      ensures |bs| <= old(Free(data.Length, wrOff, rdOff)) ==> n == |bs| || (wrOff == 0 && old(wrOff) != 0)
      ensures k > 0 && |bs| > 0 ==> n > 0
    {
      Drain(k);
      n := WriteChunk(bs);
    }

    /** One round of the blocking writer: as many bytes as fit before the read offset and the end of the buffer. */
    method WriteChunk(bs: seq<byte>) returns (n: nat)
      requires Valid()
      modifies this`wrOff, data
      ensures Valid()
      ensures n == Min(Min(old(Free(data.Length, wrOff, rdOff)), data.Length - old(wrOff)), |bs|)
      ensures wrOff == Advance(data.Length, old(wrOff), n)
      ensures data[..] == RingStore(old(data[..]), old(wrOff), bs[..n])
      ensures Free(data.Length, wrOff, rdOff) == old(Free(data.Length, wrOff, rdOff)) - n
      ensures History() == old(History()) + bs[..n]
    {
      var wr, rd := wrOff, rdOff;
      if rd > wr {
        n := rd - wr - 1;
      } else {
        n := data.Length - (wr - rd + 1);
      }
      n := Min(n, data.Length - wr);
      n := Min(n, |bs|);
      StoreAppends(data[..], wrOff, rdOff, bs[..n]);
      PutIsStore(data[..], wr, bs[..n]);
      Memcpy(data, wr, bs[..n]);
      wr := wr + n;
      if wr == data.Length {
        wr := 0;
      }
      wrOff := wr;
    }

    /** What the three modes make of a write; `host` only matters in the blocking one. */
    method WriteNoLock(bs: seq<byte>, host: seq<nat>) returns (status: nat)
      requires Valid()
      modifies this`wrOff, this`rdOff, this`consumed, data
      ensures Valid()
      ensures status <= |bs| && History() == old(History()) + bs[..status]
      ensures mode.NoBlockSkip? ==> status == if |bs| <= old(Free(data.Length, wrOff, rdOff)) then |bs| else 0
      ensures mode.NoBlockTrim? ==> status == Min(old(Free(data.Length, wrOff, rdOff)), |bs|)
      ensures mode.BlockIfFifoFull? && |bs| <= Reads(host) ==> status == |bs|
      ensures !mode.BlockIfFifoFull? ==> rdOff == old(rdOff) && consumed == old(consumed)
    {
      match mode {
        case NoBlockSkip =>
          var avail := GetAvailWriteSpace();
          if avail < |bs| {
            status := 0;
          } else {
            status := |bs|;
            WriteNoCheck(bs);
          }
        case NoBlockTrim =>
          var avail := GetAvailWriteSpace();
          status := if avail < |bs| then avail else |bs|;
          WriteNoCheck(bs[..status]);
        case BlockIfFifoFull =>
          status := WriteBlocking(bs, host);
      }
      assert bs[..|bs|] == bs;
    }

    /** The byte loop the fast paths use in place of memcpy; it copies at least one byte. */
    method CopyBytes(at: nat, bs: seq<byte>)
      requires 1 <= |bs| && at + |bs| <= data.Length
      modifies data
      ensures data[..] == Put(old(data[..]), at, bs)
    {
      var k := 0;
      while true
        invariant 0 <= k < |bs|
        invariant data[..] == Put(old(data[..]), at, bs[..k])
        decreases |bs| - k
      {
        data[at + k] := bs[k];
        k := k + 1;
        assert data[..] == Put(old(data[..]), at, bs[..k]);
        if k == |bs| {
          assert bs[..k] == bs;
          break;
        }
      }
    }

    /** Stores every byte, overwriting the oldest ones. */
    method WriteWithOverwriteNoLock(bs: seq<byte>)
      requires Valid()
      requires 1 <= |bs| < 0x8000_0000
      modifies this`wrOff, this`rdOff, data
      ensures Valid()
      ensures (data[..], wrOff) == Lay(old(data[..]), old(wrOff), bs)
      ensures rdOff == OverwriteRdOff(data.Length, old(wrOff), old(rdOff), |bs|)
      ensures |bs| < 2 * data.Length - 1 - old(wrOff)
              ==> Contents() == Newest(old(Contents()) + bs, data.Length - 1)
    {
      if ExtraRounds(data.Length, wrOff, |bs|) == 0 {
        OverwriteKeepsNewest(data[..], wrOff, rdOff, bs);
      }
      MakeRoom(|bs|);
      WriteRounds(bs);
    }

    /** Writes all of `bs` without a look at the read offset, wrapping as often as it takes. */
    method WriteRounds(bs: seq<byte>)
      requires Valid()
      requires 1 <= |bs|
      modifies this`wrOff, data
      ensures wrOff < data.Length
      ensures (data[..], wrOff) == Lay(old(data[..]), old(wrOff), bs)
    {
      ghost var goal := Lay(data[..], wrOff, bs);
      ghost var first := true;
      var rest := bs;
      var avail := data.Length - wrOff;
      while true
        invariant |rest| >= 1
        invariant first ==> avail == data.Length - wrOff && wrOff < data.Length && Lay(data[..], wrOff, rest) == goal
        invariant !first ==> avail == data.Length - 1 && wrOff == 0 && LayRounds(data[..], rest) == goal
        decreases |rest|, first
      {
        if avail > |rest| {
          CopyBytes(wrOff, rest);
          wrOff := wrOff + |rest|;
          break;
        }
        ghost var before := data[..];
        Memcpy(data, wrOff, rest[..avail]);
        assert data[..] == Put(before, wrOff, rest[..avail]);
        rest := rest[avail..];
        wrOff := 0;
        avail := data.Length - 1;
        first := false;
        if |rest| == 0 {
          assert Put(data[..], 0, rest) == data[..];
          break;
        }
      }
    }

    /** Moves the read offset so that `n` more bytes fit. */
    method MakeRoom(n: nat)
      requires Valid()
      requires n < 0x8000_0000
      modifies this`rdOff
      ensures Valid()
      ensures rdOff == OverwriteRdOff(data.Length, wrOff, old(rdOff), n)
    {
      var avail: nat;
      if wrOff == rdOff {
        avail := data.Length - 1;
      } else if wrOff < rdOff {
        avail := rdOff - wrOff - 1;
      } else {
        avail := Wrap32(rdOff - wrOff - 1 + data.Length);
      }
      assert avail == Free(data.Length, wrOff, rdOff);
      hide Distance, Advance;
      if n > avail {
        rdOff := Wrap32(rdOff + (n - avail));
        while rdOff >= data.Length
          invariant Reduce(rdOff, data.Length) == OverwriteRdOff(data.Length, wrOff, old(rdOff), n)
        {
          rdOff := rdOff - data.Length;
        }
      }
    }

    /** Moves up to `bufferSize` of the oldest bytes to the start of `dst`. */
    method ReadNoLock(dst: array<byte>, bufferSize: nat) returns (numBytesRead: nat)
      requires Valid() && dst != data
      requires bufferSize <= dst.Length && bufferSize < 0x1_0000_0000
      modifies this`rdOff, this`consumed, dst
      ensures Valid()
      ensures numBytesRead == Min(old(|Contents()|), bufferSize)
      ensures dst[..] == Put(old(dst[..]), 0, old(Contents())[..numBytesRead])
      ensures Contents() == old(Contents())[numBytesRead..]
      ensures consumed == old(consumed) + old(Contents())[..numBytesRead] && History() == old(History())
    {
      var rd;
      numBytesRead, rd := CopyOut(data[..], wrOff, rdOff, dst, bufferSize);
      Took(numBytesRead);
      if numBytesRead > 0 {
        rdOff := rd;
      }
      consumed := consumed + old(Contents())[..numBytesRead];
    }

    /** The two copies of a read: up to the wrap-around first, then the rest. */
    static method CopyOut(mem: seq<byte>, wrOff: nat, rdOff: nat, dst: array<byte>, bufferSize: nat)
      returns (numBytesRead: nat, rd: nat)
      requires wrOff < |mem| < 0x8000_0000 && rdOff < |mem|
      requires bufferSize <= dst.Length && bufferSize < 0x1_0000_0000
      modifies dst
      ensures numBytesRead == Min(Distance(|mem|, rdOff, wrOff), bufferSize)
      ensures rd == Advance(|mem|, rdOff, numBytesRead)
      ensures dst[..] == Put(old(dst[..]), 0, Unread(mem, wrOff, rdOff)[..numBytesRead])
    {
      rd := rdOff;
      var size := bufferSize;
      numBytesRead := 0;
      var rem: nat := 0;
      if rd > wrOff {
        rem := Min(|mem| - rd, size);
        Memcpy(dst, 0, mem[rd..rd + rem]);
        numBytesRead := rem;
        size := size - rem;
        rd := rd + rem;
        if rd == |mem| {
          rd := 0;
        }
      }
      ghost var a, rd1 := numBytesRead, rd;
      assert dst[..] == Put(old(dst[..]), 0, mem[rdOff..rdOff + a]);
      rem := Min(Wrap32(wrOff - rd), size);
      ReadPieces(mem, wrOff, rdOff, bufferSize, a, rd1, rem);
      if rem > 0 {
        PutTwice(old(dst[..]), 0, mem[rdOff..rdOff + a], mem[rd..rd + rem]);
        Memcpy(dst, numBytesRead, mem[rd..rd + rem]);
        numBytesRead := numBytesRead + rem;
        rd := rd + rem;
      }
    }

    /** Taking `n` unread bytes out leaves the history as it is. */
    lemma Took(n: nat)
      requires Valid() && n <= |Contents()|
      ensures Unread(data[..], wrOff, Advance(data.Length, rdOff, n)) == Contents()[n..]
      ensures consumed + Contents()[..n] + Contents()[n..] == History()
    {
      ReadAdvances(data[..], wrOff, rdOff, n);
    }
  }
}
