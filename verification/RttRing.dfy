/**
 SEGGER RTT ring buffers: the writers and the reader of one ring.

 A ring keeps one cell free, so `WrOff == RdOff` means empty. Ring memory is
 abstracted to the sequence of unread bytes; the writers then are sequence
 operations.
 */
module RttRing {
  import opened Words

  // ---------------------------------------------------------------- offsets

  /** The offset `k` cells after `off`. */
  function Advance(size: nat, off: nat, k: nat): (r: nat)
    requires off < size && k <= size
    ensures r < size
  {
    if off + k < size then off + k else off + k - size
  }

  /** How many cells after `from` the cell `to` lies. */
  function Distance(size: nat, from: nat, to: nat): (r: nat)
    requires from < size && to < size
    ensures r < size
    ensures Advance(size, from, r) == to
  {
    if from <= to then to - from else size - from + to
  }

  function Free(size: nat, wr: nat, rd: nat): (r: nat)
    requires wr < size && rd < size
    ensures r + Distance(size, rd, wr) == size - 1
  {
    size - 1 - Distance(size, rd, wr)
  }

  /** The bytes between the read and the write offset, oldest first. */
  function Unread(mem: seq<byte>, wr: nat, rd: nat): (r: seq<byte>)
    requires wr < |mem| && rd < |mem|
    ensures |r| == Distance(|mem|, rd, wr)
  {
    seq(Distance(|mem|, rd, wr), k requires 0 <= k < |mem| => mem[Advance(|mem|, rd, k)])
  }

  /** Ring memory after `bs` has been laid down from `wr` on; every other cell keeps its byte. */
  function RingStore(mem: seq<byte>, wr: nat, bs: seq<byte>): (r: seq<byte>)
    requires wr < |mem|
    ensures |r| == |mem|
  {
    seq(|mem|, i requires 0 <= i < |mem| =>
          var k := Distance(|mem|, wr, i);
          if k < |bs| then bs[k] else mem[i])
  }

  // ----------------------------------------------------------------- lemmas

  /** A store that fits appends to the unread bytes: nothing unread is overwritten. */
  lemma StoreAppends(mem: seq<byte>, wr: nat, rd: nat, bs: seq<byte>)
    requires wr < |mem| && rd < |mem|
    requires |bs| <= Free(|mem|, wr, rd)
    ensures Unread(RingStore(mem, wr, bs), Advance(|mem|, wr, |bs|), rd) == Unread(mem, wr, rd) + bs
    ensures Free(|mem|, Advance(|mem|, wr, |bs|), rd) == Free(|mem|, wr, rd) - |bs|
  {
    var size := |mem|;
    var left := Unread(RingStore(mem, wr, bs), Advance(size, wr, |bs|), rd);
    var used := Distance(size, rd, wr);
    forall k | 0 <= k < used + |bs|
      ensures left[k] == (Unread(mem, wr, rd) + bs)[k]
    {
      var i := Advance(size, rd, k);
      if k < used {
        assert Distance(size, wr, i) >= |bs|;
      } else {
        assert Distance(size, wr, i) == k - used;
      }
    }
  }

  /** Storing two pieces one after the other is storing their concatenation. */
  lemma StoreSplit(mem: seq<byte>, wr: nat, a: seq<byte>, b: seq<byte>)
    requires wr < |mem|
    requires |a| + |b| <= |mem|
    ensures RingStore(RingStore(mem, wr, a), Advance(|mem|, wr, |a|), b) == RingStore(mem, wr, a + b)
    ensures Advance(|mem|, Advance(|mem|, wr, |a|), |b|) == Advance(|mem|, wr, |a| + |b|)
  {
    var size := |mem|;
    var w := Advance(size, wr, |a|);
    forall i | 0 <= i < size
      ensures RingStore(RingStore(mem, wr, a), w, b)[i] == RingStore(mem, wr, a + b)[i]
    {
      var k := Distance(size, wr, i);
      if k >= |a| {
        assert Distance(size, w, i) == k - |a|;
      } else {
        assert Distance(size, w, i) == size - |a| + k;
      }
    }
  }

  /** A copy that stays below the end of the buffer is a ring store. */
  lemma PutIsStore(mem: seq<byte>, wr: nat, bs: seq<byte>)
    requires wr < |mem|
    requires wr + |bs| <= |mem|
    ensures Put(mem, wr, bs) == RingStore(mem, wr, bs)
  {
  }

  /** Advancing the read offset drops exactly the oldest bytes. */
  lemma ReadAdvances(mem: seq<byte>, wr: nat, rd: nat, n: nat)
    requires wr < |mem| && rd < |mem|
    requires n <= Distance(|mem|, rd, wr)
    ensures Unread(mem, wr, Advance(|mem|, rd, n)) == Unread(mem, wr, rd)[n..]
  {
    var rd' := Advance(|mem|, rd, n);
    assert Distance(|mem|, rd', wr) == Distance(|mem|, rd, wr) - n;
    forall k | 0 <= k < Distance(|mem|, rd', wr)
      ensures Unread(mem, wr, rd')[k] == Unread(mem, wr, rd)[n + k]
    {
    }
  }

  /** A run of cells below the end of the buffer is a run of unread bytes. */
  lemma SliceIsUnread(mem: seq<byte>, wr: nat, rd: nat, n: nat)
    requires wr < |mem| && rd < |mem|
    requires n <= Distance(|mem|, rd, wr)
    requires rd + n <= |mem|
    ensures mem[rd..rd + n] == Unread(mem, wr, rd)[..n]
  {
  }

  /** The first piece of a read: up to the end of the buffer when the unread bytes wrap, none otherwise. */
  function FirstPiece(len: nat, wr: nat, rd: nat, size: nat): (n: nat)
    requires wr < len && rd < len
    ensures n <= size && rd + n <= len
  {
    if rd > wr then Min(len - rd, size) else 0
  }

  /**
   The two pieces of a read are the oldest unread bytes. When the first piece is
   cut short, `WrOff - RdOff` wraps as an unsigned value and the second is empty.
   */
  lemma ReadPieces(mem: seq<byte>, wr: nat, rd: nat, size: nat, a: nat, rd': nat, b: nat)
    requires wr < |mem| < 0x8000_0000 && rd < |mem|
    requires size < 0x1_0000_0000
    requires a == FirstPiece(|mem|, wr, rd, size)
    requires rd' == if rd + a == |mem| then 0 else rd + a
    requires b == Min(Wrap32(wr - rd'), size - a)
    ensures a + b == Min(Distance(|mem|, rd, wr), size)
    ensures rd' + b == Advance(|mem|, rd, a + b)
    ensures mem[rd..rd + a] + mem[rd'..rd' + b] == Unread(mem, wr, rd)[..a + b]
  {
    PieceLengths(|mem|, wr, rd, size, a, rd', b);
    SliceIsUnread(mem, wr, rd, a);
    if b > 0 {
      ReadAdvances(mem, wr, rd, a);
      SliceIsUnread(mem, wr, rd', b);
      assert Unread(mem, wr, rd)[..a] + Unread(mem, wr, rd)[a..][..b] == Unread(mem, wr, rd)[..a + b];
    }
  }

  lemma PieceLengths(len: nat, wr: nat, rd: nat, size: nat, a: nat, rd': nat, b: nat)
    requires wr < len < 0x8000_0000 && rd < len
    requires size < 0x1_0000_0000
    requires a == FirstPiece(len, wr, rd, size)
    requires rd' == if rd + a == len then 0 else rd + a
    requires b == Min(Wrap32(wr - rd'), size - a)
    ensures a + b == Min(Distance(len, rd, wr), size)
    ensures rd' + b == Advance(len, rd, a + b)
    ensures b > 0 ==> rd' <= wr && rd' == Advance(len, rd, a)
  {
    if rd' > wr {
      assert Wrap32(wr - rd') == wr - rd' + 0x1_0000_0000;
      assert b == 0;
    }
  }

  // -------------------------------------------------- overwriting old bytes

  /** The last `cap` bytes of `s`, or all of them when there are no more. */
  function Newest(s: seq<byte>, cap: nat): (r: seq<byte>) {
    if |s| <= cap then s else s[|s| - cap..]
  }

  /** How often the overwriting writer copies `cap` bytes to offset 0 when `r` bytes are left after the first wrap. */
  function Rounds(r: nat, cap: nat): (k: nat)
    requires cap > 0
    ensures k == 0 <==> r < cap
  {
    if r < cap then 0 else 1 + Rounds(r - cap, cap)
  }

  /** The memory and the write offset after the rounds that follow the first wrap. */
  function LayRounds(mem: seq<byte>, bs: seq<byte>): (r: (seq<byte>, nat))
    requires |mem| >= 2
    ensures |r.0| == |mem| && r.1 < |mem| - 1
    decreases |bs|
  {
    if |bs| < |mem| - 1 then (Put(mem, 0, bs), |bs|)
    else LayRounds(Put(mem, 0, bs[..|mem| - 1]), bs[|mem| - 1..])
  }

  /** The memory and the write offset the overwriting writer leaves. */
  function Lay(mem: seq<byte>, wr: nat, bs: seq<byte>): (r: (seq<byte>, nat))
    requires |mem| >= 2 && wr < |mem|
    ensures |r.0| == |mem| && r.1 < |mem|
  {
    var rem := |mem| - wr;
    if rem > |bs| then (Put(mem, wr, bs), wr + |bs|)
    else LayRounds(Put(mem, wr, bs[..rem]), bs[rem..])
  }

  /** What is left of `x` after taking off `m` as long as that goes. */
  function Reduce(x: nat, m: nat): (r: nat)
    requires m > 0
    ensures r < m
  {
    if x < m then x else Reduce(x - m, m)
  }

  /** The read offset the overwriting writer leaves. */
  function OverwriteRdOff(size: nat, wr: nat, rd: nat, n: nat): (r: nat)
    requires wr < size && rd < size
    ensures r < size
  {
    var avail := Free(size, wr, rd);
    if n > avail then Reduce(rd + (n - avail), size) else rd
  }

  /** How many rounds of `SizeOfBuffer - 1` bytes a write of `n` bytes takes after its first wrap. */
  function ExtraRounds(size: nat, wr: nat, n: nat): (k: nat)
    requires size >= 2 && wr < size
    ensures k == 0 <==> n < 2 * size - 1 - wr
  {
    if n < size - wr then 0 else Rounds(n - (size - wr), size - 1)
  }

  ghost function OverwriteContents(mem: seq<byte>, wr: nat, rd: nat, bs: seq<byte>): seq<byte>
    requires |mem| >= 2 && wr < |mem| && rd < |mem|
  {
    Unread(Lay(mem, wr, bs).0, Lay(mem, wr, bs).1, OverwriteRdOff(|mem|, wr, rd, |bs|))
  }

  /** Writing without a second wrap keeps exactly the newest bytes. */
  lemma OverwriteKeepsNewest(mem: seq<byte>, wr: nat, rd: nat, bs: seq<byte>)
    requires |mem| >= 2 && wr < |mem| && rd < |mem|
    requires ExtraRounds(|mem|, wr, |bs|) == 0
    ensures OverwriteContents(mem, wr, rd, bs) == Newest(Unread(mem, wr, rd) + bs, |mem| - 1)
  {
    if |bs| <= Free(|mem|, wr, rd) {
      PutsAreStore(mem, wr, bs);
      StoreAppends(mem, wr, rd, bs);
    } else {
      OverwriteFull(mem, wr, rd, bs);
    }
  }

  lemma OverwriteFull(mem: seq<byte>, wr: nat, rd: nat, bs: seq<byte>)
    requires |mem| >= 2 && wr < |mem| && rd < |mem|
    requires Free(|mem|, wr, rd) < |bs| < 2 * |mem| - 1 - wr
    ensures OverwriteContents(mem, wr, rd, bs) == Newest(Unread(mem, wr, rd) + bs, |mem| - 1)
  {
    var size := |mem|;
    var mem', wr', rd' := Lay(mem, wr, bs).0, Lay(mem, wr, bs).1, OverwriteRdOff(size, wr, rd, |bs|);
    var all := Unread(mem, wr, rd) + bs;
    OverwriteOffsets(mem, wr, rd, bs);
    forall k | 0 <= k < size - 1
      ensures Unread(mem', wr', rd')[k] == all[|all| - (size - 1)..][k]
    {
      UnreadByte(mem', wr', rd', k);
      OverwrittenByte(mem, wr, rd, bs, k);
    }
    assert Unread(mem', wr', rd') == all[|all| - (size - 1)..];
  }

  /** Byte `k` of a ring that has just been overwritten to the brim. */
  lemma OverwrittenByte(mem: seq<byte>, wr: nat, rd: nat, bs: seq<byte>, k: nat)
    requires |mem| >= 2 && wr < |mem| && rd < |mem|
    requires Free(|mem|, wr, rd) < |bs| < 2 * |mem| - 1 - wr
    requires k < |mem| - 1
    ensures var idx := Distance(|mem|, rd, wr) + |bs| - (|mem| - 1) + k;
            Lay(mem, wr, bs).0[Advance(|mem|, OverwriteRdOff(|mem|, wr, rd, |bs|), k)]
            == (Unread(mem, wr, rd) + bs)[idx]
  {
    var size, n, used := |mem|, |bs|, Distance(|mem|, rd, wr);
    OverwriteOffsets(mem, wr, rd, bs);
    var i := Advance(size, OverwriteRdOff(size, wr, rd, n), k);
    OverwrittenCell(size, wr, rd, n, k, i);
    LayCell(mem, wr, bs, i);
    var idx := used + n - (size - 1) + k;
    if idx < used {
      UnreadByte(mem, wr, rd, idx);
    }
  }

  lemma UnreadByte(mem: seq<byte>, wr: nat, rd: nat, k: nat)
    requires wr < |mem| && rd < |mem| && k < Distance(|mem|, rd, wr)
    ensures Unread(mem, wr, rd)[k] == mem[Advance(|mem|, rd, k)]
  {
  }

  /** Where the offsets end up when old bytes had to go. */
  lemma OverwriteOffsets(mem: seq<byte>, wr: nat, rd: nat, bs: seq<byte>)
    requires |mem| >= 2 && wr < |mem| && rd < |mem|
    requires Free(|mem|, wr, rd) < |bs| < 2 * |mem| - 1 - wr
    ensures OverwriteRdOff(|mem|, wr, rd, |bs|)
         == if wr + |bs| + 1 < |mem| then wr + |bs| + 1 else wr + |bs| + 1 - |mem|
    ensures Lay(mem, wr, bs).1 == if wr + |bs| < |mem| then wr + |bs| else wr + |bs| - |mem|
    ensures Distance(|mem|, OverwriteRdOff(|mem|, wr, rd, |bs|), Lay(mem, wr, bs).1) == |mem| - 1
  {
    OverwriteRdOffIsNext(|mem|, wr, rd, |bs|);
  }

  /** Which byte of old ++ new belongs into a cell: offsets only. */
  lemma OverwrittenCell(size: nat, wr: nat, rd: nat, n: nat, k: nat, i: nat)
    requires size >= 2 && wr < size && rd < size && k < size - 1
    requires Free(size, wr, rd) < n < 2 * size - 1 - wr
    requires i == Advance(size, if wr + n + 1 < size then wr + n + 1 else wr + n + 1 - size, k)
    ensures var used, d := Distance(size, rd, wr), Distance(size, wr, i);
            var idx := used + n - (size - 1) + k;
            && (idx < used ==> Advance(size, rd, idx) == i && d >= n)
            && (idx >= used ==> idx - used == if d + size < n then d + size else d)
  {
  }

  /** When old bytes have to go, the new read offset is the cell after the last byte written. */
  lemma OverwriteRdOffIsNext(size: nat, wr: nat, rd: nat, n: nat)
    requires size >= 2 && wr < size && rd < size
    requires n > Free(size, wr, rd)
    ensures OverwriteRdOff(size, wr, rd, n) == Reduce(wr + n + 1, size)
  {
  }

  /** Two copies, up to the end and from offset 0, are one ring store. */
  lemma PutsAreStore(mem: seq<byte>, wr: nat, bs: seq<byte>)
    requires |mem| >= 2 && wr < |mem|
    requires |bs| < |mem|
    ensures Lay(mem, wr, bs) == (RingStore(mem, wr, bs), Advance(|mem|, wr, |bs|))
  {
    var rem := |mem| - wr;
    if rem <= |bs| {
      PutIsStore(mem, wr, bs[..rem]);
      PutIsStore(RingStore(mem, wr, bs[..rem]), 0, bs[rem..]);
      StoreSplit(mem, wr, bs[..rem], bs[rem..]);
      assert bs[..rem] + bs[rem..] == bs;
    } else {
      PutIsStore(mem, wr, bs);
    }
  }

  /** The newest byte that was sent to a cell is the one it holds. */
  lemma LayCell(mem: seq<byte>, wr: nat, bs: seq<byte>, i: nat)
    requires |mem| >= 2 && wr < |mem| && i < |mem|
    requires ExtraRounds(|mem|, wr, |bs|) == 0
    ensures var d := Distance(|mem|, wr, i);
            Lay(mem, wr, bs).0[i] == if d + |mem| < |bs| then bs[d + |mem|] else if d < |bs| then bs[d] else mem[i]
  {
  }

  /** Every extra round lets the write offset slip by one cell against the read offset. */
  lemma {:induction false} RoundsSlip(r: nat, size: nat)
    requires size >= 2
    ensures Distance(size, Reduce(r + 1, size), Reduce(r, size - 1)) == Reduce(Rounds(r, size - 1) + size - 1, size)
  {
    if r >= size - 1 {
      RoundsSlip(r - (size - 1), size);
      ReduceNext(r - (size - 1), size);
      ReduceNext(Rounds(r - (size - 1), size - 1) + size - 1, size);
    }
  }

  lemma {:induction false} ReduceNext(x: nat, m: nat)
    requires m >= 2
    ensures Reduce(x + 1, m) == if Reduce(x, m) == m - 1 then 0 else Reduce(x, m) + 1
  {
    if x >= m {
      ReduceNext(x - m, m);
    }
  }

  /** The rounds after the first wrap leave the write offset at what `Reduce` says and never reach the last cell. */
  lemma {:induction false} LayRoundsShape(mem: seq<byte>, bs: seq<byte>)
    requires |mem| >= 2
    ensures LayRounds(mem, bs).1 == Reduce(|bs|, |mem| - 1)
    ensures LayRounds(mem, bs).0[|mem| - 1] == mem[|mem| - 1]
    decreases |bs|
  {
    if |bs| >= |mem| - 1 {
      LayRoundsShape(Put(mem, 0, bs[..|mem| - 1]), bs[|mem| - 1..]);
    }
  }

  /** A write that needs extra rounds: how many bytes the host still finds. */
  lemma OverwriteSlips(size: nat, wr: nat, rd: nat, n: nat)
    requires size >= 2 && wr < size && rd < size
    requires ExtraRounds(size, wr, n) >= 1
    ensures Distance(size, OverwriteRdOff(size, wr, rd, n), Reduce(n - (size - wr), size - 1))
         == Reduce(ExtraRounds(size, wr, n) - 1, size)
  {
    var r := n - (size - wr);
    OverwriteRdOffIsNext(size, wr, rd, n);
    assert Reduce(wr + n + 1, size) == Reduce(r + 1, size);
    RoundsSlip(r, size);
    assert Reduce(ExtraRounds(size, wr, n) + size - 1, size) == Reduce(ExtraRounds(size, wr, n) - 1, size);
  }

  /** The last cell keeps the byte the first copy put there, and the write offset is the one of the last round. */
  lemma OverwriteLastCell(mem: seq<byte>, wr: nat, bs: seq<byte>)
    requires |mem| >= 2 && wr < |mem|
    requires |bs| >= |mem| - wr
    ensures Lay(mem, wr, bs).0[|mem| - 1] == bs[|mem| - 1 - wr]
    ensures Lay(mem, wr, bs).1 == Reduce(|bs| - (|mem| - wr), |mem| - 1)
  {
    var rem := |mem| - wr;
    var mem1 := Put(mem, wr, bs[..rem]);
    LayRoundsShape(mem1, bs[rem..]);
    assert mem1[|mem| - 1] == bs[rem - 1];
  }

  /**
   For which lengths the overwriting writer keeps the newest bytes whatever
   they are: exactly those it can lay down without wrapping a second time.
   */
  lemma OverwriteExactLength(mem: seq<byte>, wr: nat, rd: nat, n: nat)
    requires |mem| >= 2 && wr < |mem| && rd < |mem|
    ensures (forall bs: seq<byte> | |bs| == n ::
               OverwriteContents(mem, wr, rd, bs) == Newest(Unread(mem, wr, rd) + bs, |mem| - 1))
            <==> n < 2 * |mem| - 1 - wr
  {
    var size := |mem|;
    if n < 2 * size - 1 - wr {
      forall bs: seq<byte> | |bs| == n
        ensures OverwriteContents(mem, wr, rd, bs) == Newest(Unread(mem, wr, rd) + bs, size - 1)
      {
        OverwriteKeepsNewest(mem, wr, rd, bs);
      }
    } else {
      var bs: seq<byte> := seq(n, i => if i == size - 1 - wr then 1 else 0);
      OverwriteSlips(size, wr, rd, n);
      OverwriteLastCell(mem, wr, bs);
      var got, want := OverwriteContents(mem, wr, rd, bs), Newest(Unread(mem, wr, rd) + bs, size - 1);
      if |got| == |want| {
        var s := Reduce(n - (size - wr), size - 1);
        assert OverwriteRdOff(size, wr, rd, n) == s + 1;
        assert got[size - 2 - s] == bs[size - 1 - wr];
        assert want[size - 2 - s] == bs[n - 1 - s];
      }
      assert got != want;
    }
  }
}
