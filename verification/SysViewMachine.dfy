/**
 The SystemView recorder as a machine of four steps: an event is sent, the sync
 sequence is written, recording is switched on or off, events are masked. Free
 room and clock values are inputs, so a run stands for every pace of the host.
 */
module SysViewMachine {
  import opened Words
  import opened SysViewCodec

  const OFF: nat := 0
  const ON: nat := 1
  const DROPPING: nat := 2

  /** A packet in the ring and the time it was taken. */
  datatype Sent = Sent(msg: Message, time: u32)

  datatype State = State(
    enable: nat, last: u32, dropCount: u32, disabled: set<nat>,
    stream: seq<byte>,  // every byte stored in the up-buffer so far
    sent: seq<Sent>,    // the packets those bytes stand for
    lost: nat,          // events to be recorded that a full buffer kept out
    masked: nat,        // masked events that came while dropping and were counted
    episodes: nat)      // how often recording fell from ON to DROPPING

  datatype Step =
    | Send(msg: Message, overflowTime: u32, overflowFits: bool, time: u32, fits: bool)
    | Sync(syncFits: bool)
    | SwitchOn
    | SwitchOff
    | Mask(disabled: set<nat>)

  function Initial(t: u32): State {
    State(OFF, t, 0, {}, [], [], 0, 0, 0)
  }

  predicate IsMasked(disabled: set<nat>, id: nat) {
    id < 32 && id in disabled
  }

  function OverflowMessage(drops: u32): Message {
    Standard(1, [Num(drops)])
  }

  /** A packet goes into the ring: the wire carries the time since the packet before. */
  function Store(s: State, m: Message, t: u32): State {
    s.(stream := s.stream + EncodePacket(m, Wrap32(t - s.last)), last := t, sent := s.sent + [Sent(m, t)])
  }

  /** While dropping, an overflow packet is tried first; when it does not fit the event at hand is dropped. */
  function TryOverflow(s: State, m: Message, t: u32, fits: bool): State {
    if fits then Store(s, OverflowMessage(s.dropCount), t).(enable := ON)
    else
      var s' := s.(dropCount := Wrap32(s.dropCount + 1));
      if IsMasked(s.disabled, m.id) then s'.(masked := s.masked + 1) else s'.(lost := s.lost + 1)
  }

  /** The event itself, with recording on. */
  function TryEvent(s: State, m: Message, t: u32, fits: bool): State {
    if IsMasked(s.disabled, m.id) then s
    else if fits then Store(s, m, t)
    else s.(enable := DROPPING, lost := s.lost + 1, episodes := s.episodes + 1)
  }

  function Apply(s: State, e: Step): State {
    match e
    case Send(m, t0, fits0, t, fits) =>
      if s.enable == OFF then s
      else
        var s1 := if s.enable == DROPPING then TryOverflow(s, m, t0, fits0) else s;
        if s1.enable == ON then TryEvent(s1, m, t, fits) else s1
    case Sync(fits) =>
      if fits then
        var nop := Sent(Standard(0, []), s.last);
        s.(stream := s.stream + SYNC, sent := s.sent + [nop, nop, nop, nop, nop])
      else s
    case SwitchOn => if s.enable == OFF then s.(enable := ON) else s
    case SwitchOff => s.(enable := OFF)
    case Mask(disabled) => s.(disabled := disabled)
  }

  function Run(s: State, es: seq<Step>): State
    decreases |es|
  {
    if es == [] then s else Apply(Run(s, es[..|es| - 1]), es[|es| - 1])
  }

  predicate GoodStep(e: Step) {
    e.Send? ==> WellFormed(e.msg)
  }

  predicate GoodRun(es: seq<Step>) {
    forall k | 0 <= k < |es| :: GoodStep(es[k])
  }

  lemma RunExtends(s: State, es: seq<Step>, e: Step)
    ensures Run(s, es + [e]) == Apply(Run(s, es), e)
  {
    assert (es + [e])[..|es|] == es;
  }

  // ------------------------------------------------------------ time stamps

  function LastTime(t0: u32, sent: seq<Sent>): u32 {
    if sent == [] then t0 else sent[|sent| - 1].time
  }

  /** The packets as they are on the wire. */
  function Packets(t0: u32, sent: seq<Sent>): (ps: seq<(Message, u32)>)
    ensures |ps| == |sent|
    decreases |sent|
  {
    if sent == [] then []
    else
      var n := |sent| - 1;
      Packets(t0, sent[..n]) + [(sent[n].msg, Wrap32(sent[n].time - LastTime(t0, sent[..n])))]
  }

  /** The host's clock: it adds up the deltas in stream order, as a 32-bit value. */
  function Clock(t0: u32, ps: seq<(Message, u32)>): u32
    decreases |ps|
  {
    if ps == [] then t0 else Wrap32(Clock(t0, ps[..|ps| - 1]) + ps[|ps| - 1].1)
  }

  /** The host's view of the run: every packet with its absolute time. */
  function Reconstruct(t0: u32, ps: seq<(Message, u32)>): (r: seq<Sent>)
    ensures |r| == |ps|
    decreases |ps|
  {
    if ps == [] then [] else Reconstruct(t0, ps[..|ps| - 1]) + [Sent(ps[|ps| - 1].0, Clock(t0, ps))]
  }

  function SumOfDeltas(ps: seq<(Message, u32)>): nat
    decreases |ps|
  {
    if ps == [] then 0 else SumOfDeltas(ps[..|ps| - 1]) + ps[|ps| - 1].1
  }

  /** The clock shows the start time plus the sum of all deltas. */
  lemma {:induction false} ClockIsSum(t0: u32, ps: seq<(Message, u32)>)
    ensures Clock(t0, ps) == Wrap32(t0 + SumOfDeltas(ps))
    decreases |ps|
  {
    if ps != [] {
      var before := ps[..|ps| - 1];
      ClockIsSum(t0, before);
      WrapSum(t0 + SumOfDeltas(before), ps[|ps| - 1].1);
    }
  }

  lemma WrapSum(a: int, b: int)
    ensures Wrap32(Wrap32(a) + b) == Wrap32(a + b)
  {
  }

  lemma WrapDifference(a: u32, t: u32)
    ensures Wrap32(a + Wrap32(t - a)) == t
  {
  }

  lemma PacketsSnoc(t0: u32, sent: seq<Sent>, x: Sent)
    ensures Packets(t0, sent + [x]) == Packets(t0, sent) + [(x.msg, Wrap32(x.time - LastTime(t0, sent)))]
  {
    assert (sent + [x])[..|sent|] == sent;
  }

  lemma ReconstructSnoc(t0: u32, ps: seq<(Message, u32)>, p: (Message, u32))
    ensures Clock(t0, ps + [p]) == Wrap32(Clock(t0, ps) + p.1)
    ensures Reconstruct(t0, ps + [p]) == Reconstruct(t0, ps) + [Sent(p.0, Clock(t0, ps + [p]))]
  {
    assert (ps + [p])[..|ps|] == ps;
  }

  /** Adding up wrapped differences gives back the times. */
  lemma {:induction false} DeltasAddUp(t0: u32, sent: seq<Sent>)
    ensures Clock(t0, Packets(t0, sent)) == LastTime(t0, sent)
    ensures Reconstruct(t0, Packets(t0, sent)) == sent
    decreases |sent|
  {
    if sent != [] {
      var before, x := sent[..|sent| - 1], sent[|sent| - 1];
      var delta := Wrap32(x.time - LastTime(t0, before));
      assert sent == before + [x];
      DeltasAddUp(t0, before);
      PacketsSnoc(t0, before, x);
      ReconstructSnoc(t0, Packets(t0, before), (x.msg, delta));
      WrapDifference(LastTime(t0, before), x.time);
    }
  }

  // ------------------------------------------------------------- invariant

  /** The wire carries exactly the packets that were stored. */
  ghost predicate WireInv(t0: u32, s: State) {
    && AllWellFormed(Packets(t0, s.sent))
    && s.stream == EncodeStream(Packets(t0, s.sent))
    && s.last == LastTime(t0, s.sent)
  }

  /** Losses and counts agree. */
  predicate CountInv(s: State) {
    && s.enable <= DROPPING
    && s.dropCount == Wrap32(s.lost + s.masked - s.episodes)
    && (s.enable == DROPPING ==> s.episodes >= 1)
    && s.episodes <= s.lost
  }

  lemma StoreKeeps(t0: u32, s: State, m: Message, t: u32)
    requires WireInv(t0, s) && WellFormed(m)
    ensures WireInv(t0, Store(s, m, t))
  {
    hide EncodePacket, Wrap32, WellFormed;
    var p := (m, Wrap32(t - s.last));
    PacketsSnoc(t0, s.sent, Sent(m, t));
    EncodeStreamSnoc(Packets(t0, s.sent), p);
    AllWellFormedConcat(Packets(t0, s.sent), [p]);
  }

  lemma EncodeStreamSnoc(ps: seq<(Message, u32)>, p: (Message, u32))
    ensures EncodeStream(ps + [p]) == EncodeStream(ps) + EncodePacket(p.0, p.1)
  {
    EncodeStreamConcat(ps, [p]);
    assert [p][1..] == [];
    assert EncodeStream([p]) == EncodePacket(p.0, p.1) + [];
  }

  /** The sync sequence is five dummy packets taken at the time of the packet before. */
  lemma SyncIsFiveStores(s: State)
    ensures var nop := Standard(0, []);
            Apply(s, Sync(true))
            == Store(Store(Store(Store(Store(s, nop, s.last), nop, s.last), nop, s.last), nop, s.last), nop, s.last)
  {
    var nop := Standard(0, []);
    assert EncodePacket(nop, 0) == [0, 0];
    assert Wrap32(s.last - s.last) == 0;
    assert SYNC == [0, 0] + [0, 0] + [0, 0] + [0, 0] + [0, 0];
    Appended(s.stream, [0, 0], SYNC);
    var x := Sent(nop, s.last);
    Appended(s.sent, [x], [x, x, x, x, x]);
  }

  lemma Appended<T>(s: seq<T>, one: seq<T>, five: seq<T>)
    requires five == one + one + one + one + one
    ensures s + five == s + one + one + one + one + one
  {
  }

  lemma SyncKeeps(t0: u32, s: State)
    requires WireInv(t0, s)
    ensures WireInv(t0, Apply(s, Sync(true)))
  {
    SyncIsFiveStores(s);
    var nop := Standard(0, []);
    var s1 := Store(s, nop, s.last);
    var s2 := Store(s1, nop, s.last);
    var s3 := Store(s2, nop, s.last);
    var s4 := Store(s3, nop, s.last);
    StoreKeeps(t0, s, nop, s.last);
    StoreKeeps(t0, s1, nop, s.last);
    StoreKeeps(t0, s2, nop, s.last);
    StoreKeeps(t0, s3, nop, s.last);
    StoreKeeps(t0, s4, nop, s.last);
  }

  lemma OverflowKeeps(t0: u32, s: State, m: Message, t: u32, fits: bool)
    requires WireInv(t0, s)
    ensures WireInv(t0, TryOverflow(s, m, t, fits))
  {
    if fits {
      assert WellFormed(OverflowMessage(s.dropCount));
      StoreKeeps(t0, s, OverflowMessage(s.dropCount), t);
    }
  }

  lemma EventKeeps(t0: u32, s: State, m: Message, t: u32, fits: bool)
    requires WireInv(t0, s) && WellFormed(m)
    ensures WireInv(t0, TryEvent(s, m, t, fits))
  {
    if !IsMasked(s.disabled, m.id) && fits {
      StoreKeeps(t0, s, m, t);
    }
  }

  lemma StepKeepsWire(t0: u32, s: State, e: Step)
    requires WireInv(t0, s) && GoodStep(e)
    ensures WireInv(t0, Apply(s, e))
  {
    match e {
      case Send(m, ot, ofits, t, fits) =>
        if s.enable != OFF {
          OverflowKeeps(t0, s, m, ot, ofits);
          var s1 := if s.enable == DROPPING then TryOverflow(s, m, ot, ofits) else s;
          EventKeeps(t0, s1, m, t, fits);
        }
      case Sync(fits) =>
        SyncKeeps(t0, s);
      case SwitchOn =>
      case SwitchOff =>
      case Mask(_) =>
    }
  }

  lemma StepKeepsCount(s: State, e: Step)
    requires CountInv(s)
    ensures CountInv(Apply(s, e))
  {
    WrapNext(s.lost + s.masked - s.episodes);
  }

  lemma WrapNext(x: int)
    ensures Wrap32(Wrap32(x) + 1) == Wrap32(x + 1)
  {
    WrapSum(x, 1);
  }

  lemma {:induction false} RunKeeps(t0: u32, es: seq<Step>)
    requires GoodRun(es)
    ensures WireInv(t0, Run(Initial(t0), es)) && CountInv(Run(Initial(t0), es))
    decreases |es|
  {
    if es != [] {
      var n := |es| - 1;
      RunKeeps(t0, es[..n]);
      StepKeepsWire(t0, Run(Initial(t0), es[..n]), es[n]);
      StepKeepsCount(Run(Initial(t0), es[..n]), es[n]);
    }
  }

  // -------------------------------------------------------------- theorems

  /** What a host makes of the bytes it read: every packet with its absolute time. */
  function HostView(t0: u32, stream: seq<byte>): Option<seq<Sent>> {
    var ps := ParseStream(stream);
    if ps.None? then None else Some(Reconstruct(t0, ps.value))
  }

  /** The host's clock after those bytes. */
  function HostClock(t0: u32, stream: seq<byte>): Option<u32> {
    var ps := ParseStream(stream);
    if ps.None? then None else Some(Clock(t0, ps.value))
  }

  /**
   After any run the stored bytes parse into packets, the deltas of exactly
   these packets add up to `LastTxTimeStamp`, and a host that adds them up
   knows when each packet was taken.
   */
  lemma {:induction false} TimestampsReconstruct(t0: u32, es: seq<Step>)
    requires GoodRun(es)
    ensures HostView(t0, Run(Initial(t0), es).stream) == Some(Run(Initial(t0), es).sent)
    ensures HostClock(t0, Run(Initial(t0), es).stream) == Some(Run(Initial(t0), es).last)
  {
    RunKeeps(t0, es);
    WireDecodes(t0, Run(Initial(t0), es));
  }

  lemma WireDecodes(t0: u32, s: State)
    requires WireInv(t0, s)
    ensures HostView(t0, s.stream) == Some(s.sent)
    ensures HostClock(t0, s.stream) == Some(s.last)
  {
    StreamRoundTrip(Packets(t0, s.sent));
    DeltasAddUp(t0, s.sent);
  }

  /** After any run: what was lost, up to one event for each time dropping began, is what was counted. */
  lemma {:induction false} DropsAreAccounted(t0: u32, es: seq<Step>)
    requires GoodRun(es)
    ensures var s := Run(Initial(t0), es);
            s.enable <= DROPPING && s.dropCount == Wrap32(s.lost + s.masked - s.episodes) && s.episodes <= s.lost
  {
    RunKeeps(t0, es);
  }

  // ----------------------------------------------------- what the counters mean

  function One(b: bool): nat {
    if b then 1 else 0
  }

  /** The events to be recorded: sent while recording was on or dropping, and not masked. */
  function Offered(s: State, es: seq<Step>): nat
    decreases |es|
  {
    if es == [] then 0
    else
      var n := |es| - 1;
      Offered(s, es[..n]) + One(IsOffered(Run(s, es[..n]), es[n]))
  }

  predicate IsOffered(s: State, e: Step) {
    e.Send? && s.enable != OFF && !IsMasked(s.disabled, e.msg.id)
  }

  /** Masked events that came while no overflow packet fitted; they are counted as dropped. */
  function MaskedDrops(s: State, es: seq<Step>): nat
    decreases |es|
  {
    if es == [] then 0
    else
      var n := |es| - 1;
      MaskedDrops(s, es[..n]) + One(IsMaskedDrop(Run(s, es[..n]), es[n]))
  }

  predicate IsMaskedDrop(s: State, e: Step) {
    e.Send? && s.enable == DROPPING && !e.overflowFits && IsMasked(s.disabled, e.msg.id)
  }

  /** How often recording was switched off while it was dropping. */
  function Abandoned(s: State, es: seq<Step>): nat
    decreases |es|
  {
    if es == [] then 0
    else
      var n := |es| - 1;
      Abandoned(s, es[..n]) + One(es[n].SwitchOff? && Run(s, es[..n]).enable == DROPPING)
  }

  /** The callers send events of their own only: no dummy and no overflow packets. */
  predicate Proper(es: seq<Step>) {
    forall k | 0 <= k < |es| :: es[k].Send? ==> es[k].msg.id > 1
  }

  predicate NeverMasks(es: seq<Step>) {
    forall k | 0 <= k < |es| :: es[k].Mask? ==> es[k].disabled == {}
  }

  /** The event packets among those a host receives. */
  function Events(sent: seq<Sent>): nat
    decreases |sent|
  {
    if sent == [] then 0 else Events(sent[..|sent| - 1]) + One(sent[|sent| - 1].msg.id > 1)
  }

  /** The overflow packets. */
  function Overflows(sent: seq<Sent>): nat
    decreases |sent|
  {
    if sent == [] then 0 else Overflows(sent[..|sent| - 1]) + One(sent[|sent| - 1].msg.id == 1)
  }

  lemma SentSnoc(sent: seq<Sent>, x: Sent)
    ensures Events(sent + [x]) == Events(sent) + One(x.msg.id > 1)
    ensures Overflows(sent + [x]) == Overflows(sent) + One(x.msg.id == 1)
  {
    assert (sent + [x])[..|sent|] == sent;
  }

  lemma SyncAddsNone(s: State)
    ensures Events(Apply(s, Sync(true)).sent) == Events(s.sent)
    ensures Overflows(Apply(s, Sync(true)).sent) == Overflows(s.sent)
  {
    var x := Sent(Standard(0, []), s.last);
    SentSnoc(s.sent, x);
    SentSnoc(s.sent + [x], x);
    SentSnoc(s.sent + [x] + [x], x);
    SentSnoc(s.sent + [x] + [x] + [x], x);
    SentSnoc(s.sent + [x] + [x] + [x] + [x], x);
    Appended(s.sent, [x], [x, x, x, x, x]);
  }

  /** What one step adds to the packets, the losses and the dropping phases. */
  lemma StepBalances(s: State, e: Step)
    requires s.enable <= DROPPING && (e.Send? ==> e.msg.id > 1)
    ensures var s' := Apply(s, e);
            && Events(s'.sent) + s'.lost == Events(s.sent) + s.lost + One(IsOffered(s, e))
            && s'.episodes + Overflows(s.sent) + One(s.enable == DROPPING)
               == s.episodes + Overflows(s'.sent) + One(s'.enable == DROPPING)
                  + One(e.SwitchOff? && s.enable == DROPPING)
            && s'.masked == s.masked + One(IsMaskedDrop(s, e))
  {
    match e {
      case Send(m, ot, ofits, t, fits) =>
        var s1 := if s.enable == DROPPING then TryOverflow(s, m, ot, ofits) else s;
        if s.enable == DROPPING {
          OverflowBalances(s, m, ot, ofits);
        }
        if s1.enable == ON {
          EventBalances(s1, m, t, fits);
        }
        hide TryOverflow, TryEvent;
      case Sync(fits) => SyncAddsNone(s);
      case _ =>
    }
  }

  lemma OverflowBalances(s: State, m: Message, t: u32, fits: bool)
    requires s.enable == DROPPING
    ensures var s' := TryOverflow(s, m, t, fits);
            && s'.disabled == s.disabled && s'.enable == (if fits then ON else DROPPING)
            && Events(s'.sent) == Events(s.sent) && s'.episodes == s.episodes
            && s'.lost == s.lost + One(!fits && !IsMasked(s.disabled, m.id))
            && s'.masked == s.masked + One(!fits && IsMasked(s.disabled, m.id))
            && Overflows(s'.sent) == Overflows(s.sent) + One(fits)
  {
    hide EncodePacket;
    SentSnoc(s.sent, Sent(OverflowMessage(s.dropCount), t));
  }

  lemma EventBalances(s: State, m: Message, t: u32, fits: bool)
    requires s.enable == ON && m.id > 1
    ensures var s' := TryEvent(s, m, t, fits);
            && Events(s'.sent) + s'.lost == Events(s.sent) + s.lost + One(!IsMasked(s.disabled, m.id))
            && Overflows(s'.sent) == Overflows(s.sent) && s'.masked == s.masked
            && s'.episodes == s.episodes + One(s'.enable == DROPPING) && (s'.enable == ON || s'.enable == DROPPING)
  {
    hide EncodePacket;
    SentSnoc(s.sent, Sent(m, t));
  }

  /**
   After any run: every event that was to be recorded is a packet in the ring or
   lost, and every dropping phase ended in an overflow packet, was abandoned, or
   still lasts.
   */
  lemma {:induction false} EventsAreConserved(t0: u32, es: seq<Step>)
    requires Proper(es)
    ensures var s := Run(Initial(t0), es);
            && CountInv(s)
            && Offered(Initial(t0), es) == Events(s.sent) + s.lost
            && s.episodes == Overflows(s.sent) + Abandoned(Initial(t0), es) + One(s.enable == DROPPING)
            && s.masked == MaskedDrops(Initial(t0), es)
    decreases |es|
  {
    if es != [] {
      var n := |es| - 1;
      EventsAreConserved(t0, es[..n]);
      hide Apply, IsOffered, IsMaskedDrop, CountInv;
      StepBalances(Run(Initial(t0), es[..n]), es[n]);
      StepKeepsCount(Run(Initial(t0), es[..n]), es[n]);
    }
  }

  lemma {:induction false} NothingMasked(t0: u32, es: seq<Step>)
    requires NeverMasks(es)
    ensures Run(Initial(t0), es).disabled == {} && Run(Initial(t0), es).masked == 0
    decreases |es|
  {
    if es != [] {
      NothingMasked(t0, es[..|es| - 1]);
    }
  }

  /**
   The overflow packet says how many packets were dropped. In runs that mask
   nothing it is short of the losses by the number of overflow packets sent,
   itself included, and of abandoned phases. So it is right exactly when that
   number is 0 modulo 2^32, and never in the first 2^32 - 1 phases.
   */
  lemma OverflowCountExact(t0: u32, es: seq<Step>, m: Message, t: u32)
    requires Proper(es) && NeverMasks(es) && Run(Initial(t0), es).enable == DROPPING
    ensures var s := Run(Initial(t0), es);
            var s' := TryOverflow(s, m, t, true);
            var lost := Offered(Initial(t0), es) - Events(s.sent);
            var phases := Overflows(s'.sent) + Abandoned(Initial(t0), es);
            && s'.sent == s.sent + [Sent(OverflowMessage(s.dropCount), t)]
            && lost >= phases >= 1
            && s.dropCount == Wrap32(lost - phases)
            && (s.dropCount == Wrap32(lost) <==> Wrap32(phases) == 0)
            && (phases < 0x1_0000_0000 ==> s.dropCount != Wrap32(lost))
  {
    hide Run, Offered, Events, Overflows, Abandoned, Proper, NeverMasks, MaskedDrops, EncodePacket, Wrap32;
    var s := Run(Initial(t0), es);
    EventsAreConserved(t0, es);
    NothingMasked(t0, es);
    SentSnoc(s.sent, Sent(OverflowMessage(s.dropCount), t));
    WrapDropped(s.lost, s.episodes);
  }

  lemma WrapDropped(a: nat, b: nat)
    ensures Wrap32(a - b) == Wrap32(a) <==> Wrap32(b) == 0
    ensures 1 <= b < 0x1_0000_0000 ==> Wrap32(b) != 0
  {
  }

  /** With masking: the counter is right exactly when as many masked events were counted as phases began. */
  lemma DropCountExact(t0: u32, es: seq<Step>)
    requires Proper(es)
    ensures var s := Run(Initial(t0), es);
            var phases := Overflows(s.sent) + Abandoned(Initial(t0), es) + One(s.enable == DROPPING);
            && Offered(Initial(t0), es) >= Events(s.sent)
            && (s.dropCount == Wrap32(Offered(Initial(t0), es) - Events(s.sent))
                <==> Wrap32(MaskedDrops(Initial(t0), es)) == Wrap32(phases))
  {
    hide Run, Offered, Events, Overflows, Abandoned, Proper, MaskedDrops, Wrap32;
    EventsAreConserved(t0, es);
    var s := Run(Initial(t0), es);
    WrapCancels(s.lost, s.masked, s.episodes);
  }

  lemma WrapCancels(a: nat, b: nat, c: nat)
    ensures Wrap32(a + b - c) == Wrap32(a) <==> Wrap32(b) == Wrap32(c)
  {
  }

  lemma FirstLossState(t0: u32, t: u32, m: Message)
    requires m == Standard(3, [])
    ensures Apply(Apply(Initial(t0), SwitchOn), Send(m, 0, false, t, false))
         == State(DROPPING, t0, 0, {}, [], [], 1, 0, 1)
  {
    hide EncodePacket;
  }

  lemma RecoveredState(t0: u32, t: u32, m: Message)
    requires m == Standard(3, [])
    ensures var s := Apply(State(DROPPING, t0, 0, {}, [], [], 1, 0, 1), Send(m, t, true, t, true));
            s.lost == 1 && s.sent == [Sent(OverflowMessage(0), t), Sent(m, t)]
  {
    hide EncodePacket, OverflowMessage;
  }

  lemma RunOfThree(s: State, e1: Step, e2: Step, e3: Step)
    ensures Run(s, [e1, e2, e3]) == Apply(Apply(Apply(s, e1), e2), e3)
  {
    hide Apply;
    RunExtends(s, [], e1);
    RunExtends(s, [e1], e2);
    RunExtends(s, [e1, e2], e3);
    assert [] + [e1] == [e1] && [e1] + [e2] == [e1, e2] && [e1, e2] + [e3] == [e1, e2, e3];
  }

  /** One event lost to a full buffer, and the overflow packet reports none. */
  lemma FirstLossIsNotReported(t0: u32, t: u32)
    ensures var isrExit := Standard(3, []);
            var es := [SwitchOn, Send(isrExit, 0, false, t, false), Send(isrExit, t, true, t, true)];
            var s := Run(Initial(t0), es);
            && GoodRun(es) && s.lost == 1
            && s.sent == [Sent(OverflowMessage(0), t), Sent(isrExit, t)]
  {
    hide Run, Apply, Initial, OverflowMessage;
    var m := Standard(3, []);
    RunOfThree(Initial(t0), SwitchOn, Send(m, 0, false, t, false), Send(m, t, true, t, true));
    FirstLossState(t0, t, m);
    RecoveredState(t0, t, m);
  }

  // ------------------------------------------------------- where the times come from

  /** `a` is what is left of `b` when some elements are taken out. */
  predicate Subsequence<T(==)>(a: seq<T>, b: seq<T>)
    decreases |b|
  {
    || a == []
    || (b != [] && a[|a| - 1] == b[|b| - 1] && Subsequence(a[..|a| - 1], b[..|b| - 1]))
    || (b != [] && Subsequence(a, b[..|b| - 1]))
  }

  lemma SubsequenceSkips<T>(a: seq<T>, b: seq<T>, x: T)
    requires Subsequence(a, b)
    ensures Subsequence(a, b + [x])
  {
    assert (b + [x])[..|b|] == b;
  }

  lemma SubsequenceTakes<T>(a: seq<T>, b: seq<T>, x: T)
    requires Subsequence(a, b)
    ensures Subsequence(a + [x], b + [x])
  {
    assert (a + [x])[..|a|] == a && (b + [x])[..|b|] == b;
  }

  /** The times of the packets but the dummies, which the sync sequence is made of. */
  function EventTimes(sent: seq<Sent>): seq<u32>
    decreases |sent|
  {
    if sent == [] then []
    else
      var n := |sent| - 1;
      EventTimes(sent[..n]) + if sent[n].msg.id != 0 then [sent[n].time] else []
  }

  lemma EventTimesSnoc(sent: seq<Sent>, x: Sent)
    ensures EventTimes(sent + [x]) == EventTimes(sent) + if x.msg.id != 0 then [x.time] else []
  {
    assert (sent + [x])[..|sent|] == sent;
  }

  /** How often the clock is read in one step, and what it shows. */
  function Readings(s: State, e: Step): seq<u32> {
    if !e.Send? || s.enable == OFF then []
    else
      var s1 := if s.enable == DROPPING then TryOverflow(s, e.msg, e.overflowTime, e.overflowFits) else s;
      (if s.enable == DROPPING then [e.overflowTime] else [])
      + if s1.enable == ON && !IsMasked(s1.disabled, e.msg.id) then [e.time] else []
  }

  lemma OverflowTimes(s: State, m: Message, t: u32, fits: bool, clock: seq<u32>)
    requires Subsequence(EventTimes(s.sent), clock)
    ensures Subsequence(EventTimes(TryOverflow(s, m, t, fits).sent), clock + [t])
  {
    hide EncodePacket, EventTimes, Subsequence;
    if fits {
      EventTimesSnoc(s.sent, Sent(OverflowMessage(s.dropCount), t));
      SubsequenceTakes(EventTimes(s.sent), clock, t);
    } else {
      SubsequenceSkips(EventTimes(s.sent), clock, t);
    }
  }

  lemma TryEventTimes(s: State, m: Message, t: u32, fits: bool, clock: seq<u32>)
    requires Subsequence(EventTimes(s.sent), clock)
    ensures var read := if IsMasked(s.disabled, m.id) then [] else [t];
            Subsequence(EventTimes(TryEvent(s, m, t, fits).sent), clock + read)
  {
    hide EncodePacket, EventTimes, Subsequence, IsMasked;
    if IsMasked(s.disabled, m.id) {
      assert clock + [] == clock;
    } else {
      SubsequenceSkips(EventTimes(s.sent), clock, t);
      if fits {
        EventTimesSnoc(s.sent, Sent(m, t));
        if m.id != 0 {
          SubsequenceTakes(EventTimes(s.sent), clock, t);
        } else {
          assert EventTimes(s.sent) + [] == EventTimes(s.sent);
        }
      }
    }
  }

  lemma SyncTimes(s: State)
    ensures EventTimes(Apply(s, Sync(true)).sent) == EventTimes(s.sent)
  {
    hide EventTimes;
    var x := Sent(Standard(0, []), s.last);
    EventTimesSnoc(s.sent, x);
    EventTimesSnoc(s.sent + [x], x);
    EventTimesSnoc(s.sent + [x] + [x], x);
    EventTimesSnoc(s.sent + [x] + [x] + [x], x);
    EventTimesSnoc(s.sent + [x] + [x] + [x] + [x], x);
    Appended(s.sent, [x], [x, x, x, x, x]);
  }

  /** What a step stores bears the time read in that step. */
  lemma StepKeepsTimes(s: State, e: Step, clock: seq<u32>)
    requires Subsequence(EventTimes(s.sent), clock)
    ensures Subsequence(EventTimes(Apply(s, e).sent), clock + Readings(s, e))
  {
    hide EventTimes, Subsequence, TryOverflow, TryEvent, IsMasked, EncodePacket;
    assert clock + [] == clock;
    match e {
      case Send(m, t0, fits0, t, fits) =>
        if s.enable != OFF {
          var s1, clock1 := s, clock;
          if s.enable == DROPPING {
            OverflowTimes(s, m, t0, fits0, clock);
            s1, clock1 := TryOverflow(s, m, t0, fits0), clock + [t0];
          }
          if s1.enable == ON {
            TryEventTimes(s1, m, t, fits, clock1);
          }
          var read := if s1.enable == ON && !IsMasked(s1.disabled, m.id) then [t] else [];
          assert clock1 + [] == clock1 && [] + read == read;
          assert clock + ([t0] + read) == clock + [t0] + read;
        }
      case Sync(fits) =>
        if fits {
          SyncTimes(s);
        }
      case _ =>
    }
  }

  // -------------------------------------------------------------- start and stop

  /** While recording is off nothing is stored. */
  lemma {:induction false} NothingWhileOff(s: State, es: seq<Step>)
    requires s.enable == OFF && forall k | 0 <= k < |es| :: !es[k].SwitchOn? && !es[k].Sync?
    ensures Run(s, es).enable == OFF && Run(s, es).sent == s.sent && Run(s, es).stream == s.stream
    decreases |es|
  {
    if es != [] {
      NothingWhileOff(s, es[..|es| - 1]);
    }
  }

  /** Once it is on, sending does not switch it off. */
  lemma {:induction false} SendsKeepOn(s: State, es: seq<Step>)
    requires s.enable != OFF && s.enable <= DROPPING && forall k | 0 <= k < |es| :: es[k].Send?
    ensures Run(s, es).enable != OFF && Run(s, es).enable <= DROPPING
    decreases |es|
  {
    hide EncodePacket;
    if es != [] {
      SendsKeepOn(s, es[..|es| - 1]);
    }
  }

  lemma StepKeepsSent(s: State, e: Step)
    ensures s.sent <= Apply(s, e).sent
  {
    hide EncodePacket;
  }

  lemma {:induction false} SentGrows(s: State, es: seq<Step>)
    ensures s.sent <= Run(s, es).sent
    decreases |es|
  {
    hide Apply;
    if es != [] {
      SentGrows(s, es[..|es| - 1]);
      StepKeepsSent(Run(s, es[..|es| - 1]), es[|es| - 1]);
    }
  }

  lemma {:induction false} RunConcat(s: State, a: seq<Step>, b: seq<Step>)
    ensures Run(s, a + b) == Run(Run(s, a), b)
    decreases |b|
  {
    hide Apply;
    if b == [] {
      assert a + b == a;
    } else {
      assert (a + b)[..|a| + |b| - 1] == a + b[..|b| - 1];
      RunConcat(s, a, b[..|b| - 1]);
    }
  }

  function If<T>(c: bool, x: T): seq<T> {
    if c then [x] else []
  }

  /** From off, the start packet is the next event a host gets, if it fits and is not masked. */
  lemma StartIsSeen(s: State, synced: bool, e: Step)
    requires s.enable == OFF && e.Send? && e.msg == Standard(10, [])
    ensures var s' := Run(s, [SwitchOn, Sync(synced), e]);
            var nop := Sent(Standard(0, []), s.last);
            s'.sent == s.sent + (if synced then [nop, nop, nop, nop, nop] else [])
                       + If(e.fits && !IsMasked(s.disabled, 10), Sent(Standard(10, []), e.time))
  {
    hide EncodePacket;
    RunExtends(s, [], SwitchOn);
    RunExtends(s, [SwitchOn], Sync(synced));
    RunExtends(s, [SwitchOn, Sync(synced)], e);
    assert [] + [SwitchOn] == [SwitchOn] && [SwitchOn] + [Sync(synced)] == [SwitchOn, Sync(synced)];
    assert [SwitchOn, Sync(synced)] + [e] == [SwitchOn, Sync(synced), e];
    var nop := Sent(Standard(0, []), s.last);
    var sent := s.sent + if synced then [nop, nop, nop, nop, nop] else [];
    assert s.sent + [] == s.sent && sent + [] == sent;
  }

  lemma StopIsSent(s: State, e: Step)
    requires OFF < s.enable <= DROPPING && e.Send? && e.msg == Standard(11, [])
    ensures var s' := Apply(Apply(s, e), SwitchOff);
            var on := s.enable == ON || e.overflowFits;
            && s'.enable == OFF
            && s'.sent == s.sent
                          + If(s.enable == DROPPING && on, Sent(OverflowMessage(s.dropCount), e.overflowTime))
                          + If(on && e.fits && !IsMasked(s.disabled, 11), Sent(Standard(11, []), e.time))
  {
    hide EncodePacket, IsMasked, OverflowMessage;
    var sent := s.sent + If(s.enable == DROPPING && e.overflowFits, Sent(OverflowMessage(s.dropCount), e.overflowTime));
    assert s.sent + [] == s.sent && sent + [] == sent;
  }

  /**
   The stop packet, behind an overflow packet while dropping, is the last a host
   gets: after it nothing is stored until the next start.
   */
  lemma StopIsLast(s: State, e: Step, later: seq<Step>)
    requires OFF < s.enable <= DROPPING && e.Send? && e.msg == Standard(11, [])
    requires forall k | 0 <= k < |later| :: !later[k].SwitchOn? && !later[k].Sync?
    ensures var s' := Run(s, [e, SwitchOff] + later);
            var on := s.enable == ON || e.overflowFits;
            && s'.enable == OFF
            && s'.sent == s.sent
                          + If(s.enable == DROPPING && on, Sent(OverflowMessage(s.dropCount), e.overflowTime))
                          + If(on && e.fits && !IsMasked(s.disabled, 11), Sent(Standard(11, []), e.time))
  {
    hide Apply, OverflowMessage, IsMasked, If;
    RunConcat(s, [e, SwitchOff], later);
    RunExtends(s, [], e);
    RunExtends(s, [e], SwitchOff);
    assert [] + [e] == [e] && [e] + [SwitchOff] == [e, SwitchOff];
    StopIsSent(s, e);
    NothingWhileOff(Run(s, [e, SwitchOff]), later);
  }
}
