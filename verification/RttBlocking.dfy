/**
 The blocking writer of SEGGER RTT next to a host that may move the read offset
 between any two of its memory accesses. The target's loop is cut into its
 single accesses: the load of `RdOff`, the copy of each byte, and the store of
 `WrOff`.
 */
module RttBlocking {
  import opened Words
  import opened RttRing

  datatype Pc =
    | Load                     // about to read RdOff
    | Copy(done: nat, n: nat)  // inside memcpy: `done` of `n` bytes are down
    | Publish(n: nat)          // about to store WrOff
    | Finished

  datatype State = State(
    mem: seq<byte>, wr: nat, rd: nat,  // the ring, shared with the host
    consumed: seq<byte>,               // what the host has read
    input: seq<byte>, posted: nat,     // the call's bytes and how many have been posted
    rounds: nat,                       // how often the loop has read RdOff
    pc: Pc)

  datatype Event = HostReads(n: nat) | TargetSteps

  function Start(mem: seq<byte>, wr: nat, rd: nat, consumed: seq<byte>, input: seq<byte>): State {
    State(mem, wr, rd, consumed, input, 0, 0, Load)
  }

  predicate Offsets(s: State) {
    s.wr < |s.mem| && s.rd < |s.mem| && s.posted <= |s.input|
  }

  /** The length of the next piece, from one look at the read offset. */
  function PieceLength(s: State): (n: nat)
    requires Offsets(s)
  {
    var free := if s.rd > s.wr then s.rd - s.wr - 1 else |s.mem| - (s.wr - s.rd + 1);
    Min(Min(free, |s.mem| - s.wr), |s.input| - s.posted)
  }

  /** One event; None when the event cannot happen in `s`. */
  function Next(s: State, e: Event): Option<State>
    requires Offsets(s)
  {
    match e
    case HostReads(n) =>
      if n > Distance(|s.mem|, s.rd, s.wr) then None
      else Some(s.(rd := Advance(|s.mem|, s.rd, n),
                   consumed := s.consumed + Unread(s.mem, s.wr, s.rd)[..n]))
    case TargetSteps =>
      match s.pc
      case Load =>
        Some(s.(pc := Copy(0, PieceLength(s)), rounds := s.rounds + 1))
      case Copy(done, n) =>
        if done >= n then Some(s.(pc := Publish(n)))
        else if s.wr + done >= |s.mem| || s.posted + done >= |s.input| then None
        else Some(s.(mem := s.mem[s.wr + done := s.input[s.posted + done]], pc := Copy(done + 1, n)))
      case Publish(n) =>
        if s.wr + n > |s.mem| || s.posted + n > |s.input| then None
        else
          Some(s.(wr := if s.wr + n == |s.mem| then 0 else s.wr + n,
                  posted := s.posted + n,
                  pc := if s.posted + n < |s.input| then Load else Finished))
      case Finished => None
  }

  function Run(s: State, es: seq<Event>): Option<State>
    requires Offsets(s)
    decreases |es|
  {
    if es == [] then Some(s)
    else
      var r := Next(s, es[0]);
      if r.None? || !Offsets(r.value) then None else Run(r.value, es[1..])
  }

  // -------------------------------------------------------------- invariant

  /** Everything the host has read, can read, or will be able to read. */
  ghost function Stream(s: State): seq<byte>
    requires Offsets(s)
  {
    s.consumed + Unread(s.mem, s.wr, s.rd) + s.input[s.posted..]
  }

  /** What holds between any two accesses, whatever the host has done meanwhile. */
  ghost predicate Inv(s: State) {
    && Offsets(s)
    && match s.pc {
         case Load => true
         case Copy(done, n) =>
           && done <= n && Claimed(s, n)
           && s.mem[s.wr..s.wr + done] == s.input[s.posted..s.posted + done]
         case Publish(n) =>
           && Claimed(s, n)
           && s.mem[s.wr..s.wr + n] == s.input[s.posted..s.posted + n]
         case Finished => s.posted == |s.input|
       }
  }

  /** `n` cells from the write offset on are free and below the end of the buffer. */
  predicate Claimed(s: State, n: nat)
    requires Offsets(s)
  {
    n <= Free(|s.mem|, s.wr, s.rd) && s.wr + n <= |s.mem| && s.posted + n <= |s.input|
  }

  /** Two loads of the read offset are enough for a call that fits from the start. */
  ghost predicate FitsFromStart(s: State)
    requires Offsets(s)
  {
    && |s.input| - s.posted <= Free(|s.mem|, s.wr, s.rd)
    && match s.pc {
         case Load => s.rounds == 0 || (s.rounds == 1 && s.wr == 0)
         case Copy(_, n) => 1 <= s.rounds <= 2 && LastPiece(s, n)
         case Publish(n) => 1 <= s.rounds <= 2 && LastPiece(s, n)
         case Finished => 1 <= s.rounds <= 2
       }
  }

  /** This piece completes the call, or it is the first and ends at the end of the buffer. */
  predicate LastPiece(s: State, n: nat) {
    s.posted + n == |s.input| || (s.rounds == 1 && s.wr + n == |s.mem|)
  }

  /** A store into a free cell leaves the unread bytes alone. */
  lemma FreeCellStore(mem: seq<byte>, wr: nat, rd: nat, k: nat, b: byte)
    requires wr < |mem| && rd < |mem|
    requires k < Free(|mem|, wr, rd) && wr + k < |mem|
    ensures Unread(mem[wr + k := b], wr, rd) == Unread(mem, wr, rd)
  {
  }

  /** Storing the write offset makes exactly the copied piece readable. */
  lemma PublishAppends(s: State, n: nat)
    requires Offsets(s) && Claimed(s, n)
    requires s.mem[s.wr..s.wr + n] == s.input[s.posted..s.posted + n]
    ensures Unread(s.mem, Advance(|s.mem|, s.wr, n), s.rd)
         == Unread(s.mem, s.wr, s.rd) + s.input[s.posted..s.posted + n]
  {
    var piece := s.input[s.posted..s.posted + n];
    PutIsStore(s.mem, s.wr, piece);
    assert Put(s.mem, s.wr, piece) == s.mem;
    StoreAppends(s.mem, s.wr, s.rd, piece);
  }

  /** What one event leaves as it was. */
  ghost predicate Keeps(s: State, s': State)
    requires Offsets(s)
  {
    && Inv(s') && Stream(s') == Stream(s)
    && s.consumed <= s'.consumed && s'.input == s.input && |s'.mem| == |s.mem|
  }

  /** Every access of either side keeps the invariant, the stream, and what the host has seen. */
  lemma StepKeeps(s: State, e: Event)
    requires Inv(s) && Next(s, e).Some?
    ensures Keeps(s, Next(s, e).value)
  {
    match e {
      case HostReads(n) =>
        HostReadKeeps(s, n);
      case TargetSteps =>
        match s.pc {
          case Load =>
          case Copy(done, n) => CopyKeeps(s, done, n);
          case Publish(n) => PublishKeeps(s, n);
          case Finished =>
        }
    }
  }

  /** A read makes room for more. */
  lemma ReadFrees(size: nat, wr: nat, rd: nat, n: nat)
    requires wr < size && rd < size && n <= Distance(size, rd, wr)
    ensures Advance(size, rd, n) < size && Free(size, wr, Advance(size, rd, n)) == Free(size, wr, rd) + n
  {
  }

  lemma HostReadKeeps(s: State, n: nat)
    requires Inv(s) && n <= Distance(|s.mem|, s.rd, s.wr)
    ensures Keeps(s, Next(s, HostReads(n)).value)
  {
    hide Free, PieceLength, Distance, Unread, Advance;
    ReadAdvances(s.mem, s.wr, s.rd, n);
    ReadFrees(|s.mem|, s.wr, s.rd, n);
    var u := Unread(s.mem, s.wr, s.rd);
    assert u == u[..n] + u[n..];
  }

  lemma CopyKeeps(s: State, done: nat, n: nat)
    requires Inv(s) && s.pc == Copy(done, n)
    ensures Keeps(s, Next(s, TargetSteps).value)
  {
    hide Unread, PieceLength, Distance, Free;
    if done < n {
      FreeCellStore(s.mem, s.wr, s.rd, done, s.input[s.posted + done]);
      var s' := Next(s, TargetSteps).value;
      assert s'.mem[s.wr..s.wr + done + 1] == s.mem[s.wr..s.wr + done] + [s.input[s.posted + done]];
      assert s.input[s.posted..s.posted + done + 1]
          == s.input[s.posted..s.posted + done] + [s.input[s.posted + done]];
    }
  }

  lemma PublishKeeps(s: State, n: nat)
    requires Inv(s) && s.pc == Publish(n)
    ensures Keeps(s, Next(s, TargetSteps).value)
  {
    hide Unread, Free, Distance, PieceLength;
    PublishAppends(s, n);
    assert s.input[s.posted..] == s.input[s.posted..s.posted + n] + s.input[s.posted + n..];
  }

  /** One event keeps the bound on the number of rounds. */
  lemma StepKeepsFit(s: State, e: Event)
    requires Inv(s) && FitsFromStart(s) && Next(s, e).Some?
    ensures Inv(Next(s, e).value) && FitsFromStart(Next(s, e).value)
  {
    StepKeeps(s, e);
  }

  // ----------------------------------------------------------- whole runs

  /**
   Lossless under any interleaving: at every point of every run, what the host
   has read, what it can still read and what is left of the input are together
   the bytes that were there at the start, in order.
   */
  lemma {:induction false} BlockingWriteIsLossless(s: State, es: seq<Event>)
    requires Inv(s) && Run(s, es).Some?
    ensures Keeps(s, Run(s, es).value)
    decreases |es|
  {
    if es != [] {
      StepKeeps(s, es[0]);
      BlockingWriteIsLossless(Next(s, es[0]).value, es[1..]);
    }
  }

  /** The call as a whole: when it returns, every byte has been posted behind the old ones. */
  lemma BlockingWriteDelivers(mem: seq<byte>, wr: nat, rd: nat, consumed: seq<byte>, input: seq<byte>, es: seq<Event>)
    requires wr < |mem| && rd < |mem|
    requires Run(Start(mem, wr, rd, consumed, input), es).Some?
    ensures var s := Run(Start(mem, wr, rd, consumed, input), es).value;
            && s.wr < |mem| && s.rd < |mem| && |s.mem| == |mem|
            && consumed <= s.consumed
            && s.consumed + Unread(s.mem, s.wr, s.rd) <= consumed + Unread(mem, wr, rd) + input
            && (s.pc.Finished? ==> s.consumed + Unread(s.mem, s.wr, s.rd) == consumed + Unread(mem, wr, rd) + input)
  {
    var s0 := Start(mem, wr, rd, consumed, input);
    BlockingWriteIsLossless(s0, es);
    var s := Run(s0, es).value;
    assert s0.input[0..] == input;
    assert Stream(s) == (s.consumed + Unread(s.mem, s.wr, s.rd)) + input[s.posted..];
  }

  /** How many of the events are steps of the target. */
  function StepsOfTarget(es: seq<Event>): nat
    decreases |es|
  {
    if es == [] then 0 else (if es[0].TargetSteps? then 1 else 0) + StepsOfTarget(es[1..])
  }

  /** How many steps the target has made: one for each byte, and three for each round. */
  function StepsMade(s: State): int {
    match s.pc
    case Load => s.posted + 3 * s.rounds
    case Copy(done, _) => s.posted + 3 * s.rounds - 2 + done
    case Publish(n) => s.posted + 3 * s.rounds - 1 + n
    case Finished => s.posted + 3 * s.rounds
  }

  lemma StepIsCounted(s: State, e: Event)
    requires Inv(s) && Next(s, e).Some?
    ensures StepsMade(Next(s, e).value) == StepsMade(s) + if e.TargetSteps? then 1 else 0
  {
    hide Unread, Free, Distance, PieceLength;
  }

  lemma {:induction false} StepsAreCounted(s: State, es: seq<Event>)
    requires Inv(s) && Run(s, es).Some?
    ensures StepsMade(Run(s, es).value) == StepsMade(s) + StepsOfTarget(es)
    decreases |es|
  {
    hide Next, StepsMade, Unread, Stream, Free;
    if es != [] {
      StepKeeps(s, es[0]);
      StepIsCounted(s, es[0]);
      StepsAreCounted(Next(s, es[0]).value, es[1..]);
    }
  }

  /**
   A call that fits is finished in at most two iterations, in every
   interleaving: until it is finished the target can make a step, however the
   host goes on, and it never makes more than one for each byte and three for
   each of the two iterations.
   */
  lemma TwoRoundsWhenItFits(mem: seq<byte>, wr: nat, rd: nat, consumed: seq<byte>, input: seq<byte>, es: seq<Event>)
    requires wr < |mem| && rd < |mem|
    requires |input| <= Free(|mem|, wr, rd)
    requires Run(Start(mem, wr, rd, consumed, input), es).Some?
    ensures var s := Run(Start(mem, wr, rd, consumed, input), es).value;
            && s.rounds <= 2 && Offsets(s)
            && StepsOfTarget(es) <= |input| + 3 * 2
            && (s.pc.Finished? <==> Next(s, TargetSteps).None?)
            && (s.pc.Finished? ==> s.rounds >= 1 && s.posted == |input| && StepsOfTarget(es) == |input| + 3 * s.rounds)
            && (!s.pc.Finished? ==> StepsOfTarget(es) < |input| + 3 * 2)
  {
    hide Run, Next;
    var s0 := Start(mem, wr, rd, consumed, input);
    RunKeepsFit(s0, es);
    BlockingWriteIsLossless(s0, es);
    StepsAreCounted(s0, es);
    TargetCanStep(Run(s0, es).value);
    FewSteps(Run(s0, es).value);
  }

  lemma FewSteps(s: State)
    requires Inv(s) && FitsFromStart(s)
    ensures s.rounds <= 2 && StepsMade(s) <= |s.input| + 6
    ensures s.pc.Finished? ==> s.rounds >= 1 && s.posted == |s.input|
    ensures !s.pc.Finished? ==> StepsMade(s) < |s.input| + 6
  {
    hide Unread;
  }

  lemma {:induction false} StepsOfTargetConcat(a: seq<Event>, b: seq<Event>)
    ensures StepsOfTarget(a + b) == StepsOfTarget(a) + StepsOfTarget(b)
    decreases |a|
  {
    if a == [] {
      assert a + b == b;
    } else {
      assert (a + b)[1..] == a[1..] + b;
      StepsOfTargetConcat(a[1..], b);
    }
  }

  lemma {:induction false} RunSnoc(s: State, es: seq<Event>, e: Event)
    requires Inv(s) && Run(s, es).Some? && Offsets(Run(s, es).value) && Next(Run(s, es).value, e).Some?
    requires Offsets(Next(Run(s, es).value, e).value)
    ensures Run(s, es + [e]) == Next(Run(s, es).value, e)
    decreases |es|
  {
    hide Next, Unread, Stream, Free;
    if es == [] {
      assert [] + [e] == [e] && [e][1..] == [];
    } else {
      assert (es + [e])[1..] == es[1..] + [e];
      StepKeeps(s, es[0]);
      RunSnoc(Next(s, es[0]).value, es[1..], e);
    }
  }

  /** From any point of such a call, letting only the target step finishes it. */
  lemma {:induction false} TargetFinishes(mem: seq<byte>, wr: nat, rd: nat, consumed: seq<byte>, input: seq<byte>,
                                          es: seq<Event>)
    returns (more: seq<Event>)
    requires wr < |mem| && rd < |mem|
    requires |input| <= Free(|mem|, wr, rd)
    requires Run(Start(mem, wr, rd, consumed, input), es).Some?
    ensures forall k | 0 <= k < |more| :: more[k].TargetSteps?
    ensures var r := Run(Start(mem, wr, rd, consumed, input), es + more);
            r.Some? && r.value.pc.Finished? && r.value.rounds <= 2
    decreases |input| + 6 - StepsOfTarget(es)
  {
    hide Run, Next, Inv, StepsOfTarget;
    var s0 := Start(mem, wr, rd, consumed, input);
    assert Inv(s0) by {
      StartInv(mem, wr, rd, consumed, input);
    }
    TwoRoundsWhenItFits(mem, wr, rd, consumed, input, es);
    BlockingWriteIsLossless(s0, es);
    var s := Run(s0, es).value;
    if s.pc.Finished? {
      more := [];
      assert es + [] == es;
    } else {
      StepKeeps(s, TargetSteps);
      InvOffsets(Next(s, TargetSteps).value);
      RunSnoc(s0, es, TargetSteps);
      StepsOfTargetConcat(es, [TargetSteps]);
      OneTargetStep();
      var rest := TargetFinishes(mem, wr, rd, consumed, input, es + [TargetSteps]);
      more := [TargetSteps] + rest;
      assert es + [TargetSteps] + rest == es + more;
    }
  }

  lemma OneTargetStep()
    ensures StepsOfTarget([TargetSteps]) == 1
  {
    assert [TargetSteps][1..] == [];
  }

  lemma StartInv(mem: seq<byte>, wr: nat, rd: nat, consumed: seq<byte>, input: seq<byte>)
    requires wr < |mem| && rd < |mem|
    ensures Inv(Start(mem, wr, rd, consumed, input))
  {
  }

  lemma InvOffsets(s: State)
    requires Inv(s)
    ensures Offsets(s)
  {
  }

  lemma {:induction false} RunKeepsFit(s: State, es: seq<Event>)
    requires Inv(s) && FitsFromStart(s) && Run(s, es).Some?
    ensures Inv(Run(s, es).value) && FitsFromStart(Run(s, es).value)
    decreases |es|
  {
    if es != [] {
      StepKeepsFit(s, es[0]);
      RunKeepsFit(Next(s, es[0]).value, es[1..]);
    }
  }

  /**
   The target is never stuck short of its goal: unless it has finished it can
   always take its next step, so the guards in `Next` cut no run of the code off.
   */
  lemma TargetCanStep(s: State)
    requires Inv(s)
    ensures s.pc.Finished? <==> Next(s, TargetSteps).None?
  {
  }
}
