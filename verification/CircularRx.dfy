/**
 The circular receive buffer of FreeRTOS+IO: an interrupt puts bytes in, a task
 takes them out with the peripheral's interrupt disabled. The count is kept
 beside the two indices, so the buffer can be filled to its last byte.
 */
module CircularRx {
  import opened Words
  import opened RttRing

  /** The stored bytes, oldest first. */
  function Stored(mem: seq<byte>, read: nat, count: nat): (r: seq<byte>)
    requires read < |mem| && count <= |mem|
    ensures |r| == count
  {
    seq(count, k requires 0 <= k < count => mem[Advance(|mem|, read, k)])
  }

  lemma StoredSnoc(mem: seq<byte>, read: nat, count: nat, b: byte)
    requires read < |mem| && count < |mem|
    ensures Stored(mem[Advance(|mem|, read, count) := b], read, count + 1) == Stored(mem, read, count) + [b]
  {
  }

  /** Taking out `n` bytes leaves the others. */
  lemma StoredDrops(mem: seq<byte>, read: nat, count: nat, n: nat)
    requires read < |mem| && n <= count <= |mem|
    ensures Stored(mem, Advance(|mem|, read, n), count - n) == Stored(mem, read, count)[n..]
  {
  }

  /** Up to the end of the memory the stored bytes are a slice of it. */
  lemma StoredSlice(mem: seq<byte>, read: nat, count: nat, n: nat)
    requires read < |mem| && n <= count <= |mem| && read + n <= |mem|
    ensures mem[read..read + n] == Stored(mem, read, count)[..n]
  {
  }

  // ------------------------------------------------------- the interrupt's loop

  /** What the interrupt's loop works on: the bytes in the receiver, the stored ones, the overrun flag. */
  datatype Front = Front(waiting: seq<byte>, stored: seq<byte>, overrun: bool)

  /** One round of the loop when its condition is that bytes are waiting. */
  function Round(f: Front, size: nat): Front {
    if f.waiting == [] then f
    else if |f.stored| < size then f.(waiting := f.waiting[1..], stored := f.stored + [f.waiting[0]])
    else f.(overrun := true)
  }

  function AfterRounds(f: Front, size: nat, n: nat): Front {
    if n == 0 then f else Round(AfterRounds(f, size, n - 1), size)
  }

  /** As many bytes as there is room for are stored; a round that finds one more notes the overrun. */
  lemma {:induction false} AfterRoundsIs(f: Front, size: nat, n: nat)
    requires |f.stored| <= size
    ensures var k := Min(n, Min(|f.waiting|, size - |f.stored|));
            AfterRounds(f, size, n)
            == Front(f.waiting[k..], f.stored + f.waiting[..k], f.overrun || (k < n && k < |f.waiting|))
  {
    if n > 0 {
      AfterRoundsIs(f, size, n - 1);
      var k := Min(n - 1, Min(|f.waiting|, size - |f.stored|));
      if k < |f.waiting| && k < size - |f.stored| {
        assert f.stored + f.waiting[..k] + [f.waiting[k]] == f.stored + f.waiting[..k + 1];
      }
    }
  }

  /**
   A receiver whose condition is that bytes are waiting leaves the interrupt
   exactly when all of them fit. Otherwise no round takes a byte once the
   memory is full, and the loop goes round in the same state for ever.
   */
  lemma InterruptEnds(f: Front, size: nat)
    requires |f.stored| <= size
    ensures (exists n :: AfterRounds(f, size, n).waiting == []) <==> |f.waiting| <= size - |f.stored|
    ensures |f.waiting| <= size - |f.stored|
            ==> AfterRounds(f, size, |f.waiting|) == Front([], f.stored + f.waiting, f.overrun)
    ensures var room := size - |f.stored|;
            room < |f.waiting| ==> forall n | n > room ::
              AfterRounds(f, size, n) == Front(f.waiting[room..], f.stored + f.waiting[..room], true)
  {
    var room := size - |f.stored|;
    forall n: nat
      ensures room < |f.waiting| ==> AfterRounds(f, size, n).waiting != []
      ensures room < |f.waiting| && n > room ==>
        AfterRounds(f, size, n) == Front(f.waiting[room..], f.stored + f.waiting[..room], true)
    {
      AfterRoundsIs(f, size, n);
    }
    AfterRoundsIs(f, size, |f.waiting|);
    if |f.waiting| <= room {
      assert AfterRounds(f, size, |f.waiting|).waiting == [];
    }
  }

  class CircularBuffer {
    const data: array<byte>
    var nextWrite: nat
    var nextRead: nat
    var charCount: nat
    var errorState: bool
    var newData: nat  // the counting semaphore

    constructor (data: array<byte>)
      requires 1 <= data.Length < 0x1_0000
      ensures Valid() && this.data == data && Contents() == [] && !errorState && newData == 0
    {
      this.data := data;
      nextWrite, nextRead, charCount, errorState, newData := 0, 0, 0, false, 0;
    }

    ghost predicate Valid()
      reads this
    {
      && 1 <= data.Length < 0x1_0000 && nextRead < data.Length && charCount <= data.Length
      && nextWrite == Advance(data.Length, nextRead, charCount)
    }

    ghost function Contents(): seq<byte>
      requires Valid()
      reads this, data
    {
      Stored(data[..], nextRead, charCount)
    }

    /** The front of the receiver with these bytes waiting in it. */
    ghost function Seen(waiting: seq<byte>): Front
      requires Valid()
      reads this, data
    {
      Front(waiting, Contents(), errorState)
    }

    /** One round of the interrupt's loop, entered with bytes waiting. */
    method InsertOne(waiting: seq<byte>) returns (rest: seq<byte>)
      requires Valid() && waiting != []
      modifies this`nextWrite, this`charCount, this`errorState, data
      ensures Valid() && Seen(rest) == Round(old(Seen(waiting)), data.Length)
    {
      if charCount < data.Length {
        StoredSnoc(data[..], nextRead, charCount, waiting[0]);
        data[nextWrite] := waiting[0];
        charCount := charCount + 1;
        nextWrite := nextWrite + 1;
        if nextWrite == data.Length {
          nextWrite := 0;
        }
        rest := waiting[1..];
      } else {
        errorState := true;
        rest := waiting;
      }
    }

    /**
     The interrupt. `source` are the bytes the receive function would give,
     `rounds` is how often the condition held. Without room a byte is not taken
     from the source and the overrun is noted.
     */
    method InsertFromIsr(source: seq<byte>, rounds: nat) returns (received: nat)
      requires Valid() && rounds <= |source|
      modifies this, data
      ensures Valid() && nextRead == old(nextRead)
      ensures received == Min(rounds, data.Length - old(charCount))
      ensures Seen(source[received..]) == AfterRounds(old(Seen(source)), data.Length, rounds)
      ensures Contents() == old(Contents()) + source[..received]
      ensures errorState <==> old(errorState) || received < rounds
      ensures newData == old(newData) + if received > 0 then 1 else 0
    {
      ghost var front := Seen(source);
      var waiting, i := source, 0;
      while i < rounds
        invariant i <= rounds && Valid() && nextRead == old(nextRead) && newData == old(newData)
        invariant Seen(waiting) == AfterRounds(front, data.Length, i)
      {
        AfterRoundsIs(front, data.Length, i);
        waiting := InsertOne(waiting);
        i := i + 1;
      }
      AfterRoundsIs(front, data.Length, rounds);
      received := |source| - |waiting|;
      if received > 0 {
        newData := newData + 1;
      }
    }

    /** One copy out of the memory, as far as it goes without wrapping. */
    method CopyPiece(dst: array<byte>, sofar: nat, n: nat, ghost was: seq<byte>, ghost taken: seq<byte>)
      requires Valid() && dst != data && n <= charCount && nextRead + n <= data.Length
      requires sofar == |taken| && sofar + n <= dst.Length == |was| && dst[..] == Put(was, 0, taken)
      modifies this`charCount, this`nextRead, dst
      ensures Valid()
      ensures dst[..] == Put(was, 0, taken + old(Contents())[..n])
      ensures Contents() == old(Contents())[n..]
      ensures nextRead == Advance(data.Length, old(nextRead), n)
    {
      StoredSlice(data[..], nextRead, charCount, n);
      StoredDrops(data[..], nextRead, charCount, n);
      PutTwice(was, 0, taken, Contents()[..n]);
      assert data[nextRead..nextRead + n] == data[..][nextRead..nextRead + n];
      Memcpy(dst, sofar, data[nextRead..nextRead + n]);
      charCount := charCount - n;
      nextRead := nextRead + n;
      if nextRead == data.Length {
        nextRead := 0;
      }
    }

    /**
     Takes out the oldest bytes, in at most two pieces. Two are enough, except
     when the buffer is full: then the indices are equal, nothing is found, and
     nothing changes.
     */
    method ReadChars(dst: array<byte>, bytesToRead: nat) returns (bytesRead: nat)
      requires Valid() && dst != data && bytesToRead <= dst.Length
      modifies this`charCount, this`nextRead, dst
      ensures Valid()
      ensures bytesRead == if old(charCount) == data.Length then 0 else Min(bytesToRead, old(charCount))
      ensures dst[..] == Put(old(dst[..]), 0, old(Contents())[..bytesRead])
      ensures Contents() == old(Contents())[bytesRead..]
    {
      ghost var was, all := dst[..], Contents();
      bytesRead := 0;
      var attempts := 0;
      while attempts < 2
        invariant Valid() && attempts <= 2 && bytesRead <= bytesToRead && bytesRead <= |all|
        invariant dst[..] == Put(was, 0, all[..bytesRead]) && Contents() == all[bytesRead..]
        invariant old(charCount) == data.Length ==> bytesRead == 0
        invariant attempts == 0 ==> bytesRead == 0 && nextRead == old(nextRead)
        invariant attempts == 1 && old(charCount) < data.Length ==> charCount == 0 || nextRead == 0
        invariant attempts == 2 && old(charCount) < data.Length ==> charCount == 0
      {
        if charCount == 0 {
          break;
        }
        var available;
        if nextRead <= nextWrite {
          available := nextWrite - nextRead;
        } else {
          available := data.Length - nextRead;
        }
        if available > bytesToRead - bytesRead {
          available := bytesToRead - bytesRead;
        }
        CopyPiece(dst, bytesRead, available, was, all[..bytesRead]);
        assert all[..bytesRead] + all[bytesRead..][..available] == all[..bytesRead + available];
        bytesRead := bytesRead + available;
        if bytesToRead == bytesRead {
          break;
        }
        attempts := attempts + 1;
      }
    }

    method Clear()
      requires Valid()
      modifies this
      ensures Valid() && Contents() == [] && !errorState
      ensures newData == if old(newData) > 0 then old(newData) - 1 else 0
    {
      errorState := false;
      nextRead := 0;
      charCount := 0;
      nextWrite := 0;
      if newData > 0 {
        newData := newData - 1;
      }
    }
  }
}
