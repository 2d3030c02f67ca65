/**
 The hand-off of one measurement round between three DMA interrupts, a timer
 interrupt and the calculation task. Nothing but the enable bits of the others'
 interrupts and two binary semaphores keeps them apart, so every interleaving of
 their single register accesses is a run of this machine.

 Interrupts follow the NVIC: a request line that goes up is latched, entry takes
 the latch, and a line still up at return is latched again. TIM5 (priority 4)
 preempts the DMA handlers (priority 5), which do not preempt each other; the
 task runs when no handler is active.
 */
module Acquisition {
  import opened Words

  const SAMPLES: nat := 312

  datatype Channel = V | I

  /**
   What the DMA wrote: channel, round and position name the value. A leftover
   came when the round before had all its samples, and waited in the SPI.
   */
  datatype Sample = Zero | Sample(channel: Channel, round: nat, index: nat) | Leftover(channel: Channel)

  /** One ADC: its DMA stream, SPI and buffer, and what its callback hands to the calculation task. */
  datatype Adc = Adc(
    en: bool,           // DMA stream enabled
    spi: bool,          // SPI enabled: samples arrive
    got: nat,           // transfers done; NDTR is SAMPLES - got
    flag: bool,         // transfer complete; its interrupt is always enabled
    pend: bool,         // latched in the NVIC
    buff: seq<Sample>,
    ptr: bool,          // the calculation task's pointer is set to the buffer
    late: bool,         // a sample waits in the SPI's data register
    spoilt: bool,       // this round began with a leftover
    sem: bool)          // the calculation task's binary semaphore is full

  datatype AdcPc = ClearFlag | SpiOff | Reload | SetPointer | Give | AdcReturn
  datatype S2Pc = S2Clear | S2Roll | S2Disable | S2Return
  datatype Irq5 = Free | InS2(s2: S2Pc) | InAdc(channel: Channel, pc: AdcPc)
  datatype Tim5 = Idle | TimClear | TimDisable | TimReturn
    | EnableDma(channel: Channel) | Flush(channel: Channel) | EnableSpi(channel: Channel)
  datatype Task = TakeV | TakeI | CopyV(n: nat) | CopyI(n: nat) | Compute | ClearTc | EnableTc

  datatype State = State(
    v: Adc, i: Adc,
    s2flag: bool, s2ie: bool, s2pend: bool,  // DMA1 stream 2, which drives the excitation
    uif: bool, uie: bool, tpend: bool,       // the update interrupt of TIM5
    irq5: Irq5, tim5: Tim5,
    armed: bool,                             // the main task has armed the first round
    task: Task, wv: seq<Sample>, wi: seq<Sample>,
    ticks: nat,                              // activations of the TIM5 handler
    results: nat)                            // calculations made

  function Get(s: State, c: Channel): Adc {
    if c == V then s.v else s.i
  }

  function Set(s: State, c: Channel, a: Adc): State {
    if c == V then s.(v := a) else s.(i := a)
  }

  function Initial(): State {
    var zeros := seq(SAMPLES, k => Zero);
    var adc := Adc(true, false, 0, false, false, zeros, false, false, false, false);
    State(adc, adc, false, false, false, false, false, false, Free, Idle, false, TakeV, zeros, zeros, 0, 0)
  }

  datatype Event =
    | StreamWraps            // stream 2 has sent the whole sine table once more
    | TimerUpdates           // TIM5 reaches its period
    | Transfer(channel: Channel)  // the DMA moves one sample into the buffer
    | Late(channel: Channel)      // a sample arrives when the DMA has stopped, and stays in the data register
    | TakesLeftover(channel: Channel)  // the DMA moves that sample
    | EnterS2 | EnterAdc(channel: Channel) | EnterTim
    | Step5                  // the active priority-5 handler goes on
    | StepTim                // the TIM5 handler goes on
    | MainArms
    | StepTask

  predicate ThreadMode(s: State) {
    s.irq5 == Free && s.tim5 == Idle
  }

  predicate Can(s: State, e: Event) {
    match e
    case StreamWraps => true
    case TimerUpdates => true
    case Transfer(c) => Get(s, c).en && Get(s, c).spi && Get(s, c).got < SAMPLES == |Get(s, c).buff|
    case Late(c) => Get(s, c).spi && !Get(s, c).en
    case TakesLeftover(c) => Get(s, c).en && Get(s, c).late && Get(s, c).got < SAMPLES == |Get(s, c).buff|
    case EnterS2 => s.s2pend && ThreadMode(s)
    case EnterAdc(c) => Get(s, c).pend && ThreadMode(s)
    case EnterTim => s.tpend && s.tim5 == Idle
    case Step5 => s.irq5 != Free && s.tim5 == Idle
    case StepTim => s.tim5 != Idle
    case MainArms => ThreadMode(s) && !s.armed
    case StepTask =>
      && ThreadMode(s) && (s.task == TakeV ==> s.v.sem) && (s.task == TakeI ==> s.i.sem)
      && (s.task.CopyV? ==> s.v.ptr && s.task.n < SAMPLES == |s.v.buff| == |s.wv|)
      && (s.task.CopyI? ==> s.i.ptr && s.task.n < SAMPLES == |s.i.buff| == |s.wi|)
  }

  /** The DMA writes one sample; the last one stops the stream and raises the flag. */
  function Moved(a: Adc, sample: Sample): Adc
    requires a.got < |a.buff|
  {
    var a' := a.(buff := a.buff[a.got := sample], got := a.got + 1);
    if a'.got == SAMPLES then a'.(en := false, pend := a.pend || !a.flag, flag := true) else a'
  }

  /** What the handler of one ADC does to it, one register or field at a time. */
  function Served(a: Adc, pc: AdcPc): Adc {
    match pc
    case ClearFlag => a.(flag := false)
    case SpiOff => a.(spi := false)
    case Reload => a.(got := 0)
    case SetPointer => a.(ptr := true)
    case Give => a.(sem := true)
    case AdcReturn => a.(pend := a.pend || a.flag)
  }

  function After(c: Channel, pc: AdcPc): Irq5 {
    match pc
    case ClearFlag => InAdc(c, SpiOff)
    case SpiOff => InAdc(c, Reload)
    case Reload => InAdc(c, SetPointer)
    case SetPointer => InAdc(c, Give)
    case Give => InAdc(c, AdcReturn)
    case AdcReturn => Free
  }

  function StepAdc(s: State, c: Channel, pc: AdcPc): State {
    Set(s, c, Served(Get(s, c), pc)).(irq5 := After(c, pc))
  }

  function StepS2(s: State, pc: S2Pc): State {
    match pc
    case S2Clear => s.(s2flag := false, irq5 := InS2(S2Roll))
    case S2Roll => s.(uie := true, tpend := s.tpend || (!s.uie && s.uif), irq5 := InS2(S2Disable))
    case S2Disable => s.(s2ie := false, irq5 := InS2(S2Return))
    case S2Return => s.(s2pend := s.s2pend || (s.s2flag && s.s2ie), irq5 := Free)
  }

  /** Starting one ADC takes three accesses: DMA on, data register read empty, SPI on. */
  function Triggered(a: Adc, tim5: Tim5): Adc {
    match tim5
    case EnableDma(_) => a.(en := true, spoilt := false)
    case Flush(_) => a.(late := false)
    case EnableSpi(_) => a.(spi := true)
    case _ => a
  }

  function AfterTrigger(tim5: Tim5): Tim5 {
    match tim5
    case EnableDma(c) => Flush(c)
    case Flush(c) => EnableSpi(c)
    case EnableSpi(c) => if c == V then EnableDma(I) else TimReturn
    case _ => tim5
  }

  function StepTrigger(s: State, c: Channel): State {
    Set(s, c, Triggered(Get(s, c), s.tim5)).(tim5 := AfterTrigger(s.tim5))
  }

  function StepTim5(s: State): State {
    match s.tim5
    case Idle => s
    case TimClear => s.(uif := false, tim5 := TimDisable)
    case TimDisable => s.(uie := false, tim5 := EnableDma(V))
    case TimReturn => s.(tpend := s.tpend || (s.uif && s.uie), tim5 := Idle)
    case EnableDma(c) => StepTrigger(s, c)
    case Flush(c) => StepTrigger(s, c)
    case EnableSpi(c) => StepTrigger(s, c)
  }

  function StepCalc(s: State): State
    requires Can(s, StepTask)
  {
    match s.task
    case TakeV => s.(v := s.v.(sem := false), task := TakeI)
    case TakeI => s.(i := s.i.(sem := false), task := CopyV(0))
    case CopyV(n) =>
      s.(wv := s.wv[n := s.v.buff[n]], task := if n + 1 == SAMPLES then CopyI(0) else CopyV(n + 1))
    case CopyI(n) =>
      s.(wi := s.wi[n := s.i.buff[n]], task := if n + 1 == SAMPLES then Compute else CopyI(n + 1))
    case Compute => s.(results := s.results + 1, task := ClearTc)
    case ClearTc => s.(s2flag := false, task := EnableTc)
    case EnableTc => s.(s2ie := true, s2pend := s.s2pend || (!s.s2ie && s.s2flag), task := TakeV)
  }

  function Step(s: State, e: Event): State
    requires Can(s, e)
  {
    match e
    case StreamWraps => s.(s2flag := true, s2pend := s.s2pend || (s.s2ie && !s.s2flag))
    case TimerUpdates => s.(uif := true, tpend := s.tpend || (s.uie && !s.uif))
    case Transfer(c) => Set(s, c, Moved(Get(s, c), Sample(c, s.ticks, Get(s, c).got)))
    case Late(c) => Set(s, c, Get(s, c).(late := true))
    case TakesLeftover(c) => Set(s, c, Moved(Get(s, c), Leftover(c)).(late := false, spoilt := true))
    case EnterS2 => s.(s2pend := false, irq5 := InS2(S2Clear))
    case EnterAdc(c) => Set(s, c, Get(s, c).(pend := false)).(irq5 := InAdc(c, ClearFlag))
    case EnterTim => s.(tpend := false, tim5 := TimClear, ticks := s.ticks + 1)
    case Step5 => if s.irq5.InS2? then StepS2(s, s.irq5.s2) else StepAdc(s, s.irq5.channel, s.irq5.pc)
    case StepTim => StepTim5(s)
    case MainArms => s.(s2ie := true, s2pend := s.s2pend || (!s.s2ie && s.s2flag), armed := true)
    case StepTask => StepCalc(s)
  }

  /**
   The windows in which a second event would be latched: in each of the two
   one-shot handlers, between clearing the flag and disabling the interrupt.
   */
  predicate NotLatched(s: State, e: Event) {
    && (e == StreamWraps ==> s.irq5 != InS2(S2Roll) && s.irq5 != InS2(S2Disable))
    && (e == TimerUpdates ==> s.tim5 != TimDisable)
  }

  /** No event in a latch window, and no sample between the last of a round and the end of its SPI. */
  predicate Quiet(s: State, e: Event) {
    NotLatched(s, e) && !e.Late?
  }

  /** The state after these events, if each of them was possible and none was latched twice. */
  function Run(es: seq<Event>): Option<State>
    decreases |es|
  {
    if es == [] then Some(Initial())
    else
      match Run(es[..|es| - 1])
      case None => None
      case Some(s) =>
        var e := es[|es| - 1];
        if Can(s, e) && NotLatched(s, e) then Some(Step(s, e)) else None
  }

  // -------------------------------------------------------- who holds the round

  predicate BootHolds(s: State) {
    !s.armed
  }

  /** Stream 2 is armed, or its handler is not yet past the roll callback. */
  predicate StreamHolds(s: State) {
    s.s2ie && s.irq5 != InS2(S2Disable)
  }

  /** The one-shot timer interrupt is armed. */
  predicate TimerHolds(s: State) {
    s.uie
  }

  /** The two ADCs are being started. */
  predicate Triggering(s: State) {
    s.tim5.EnableDma? || s.tim5.Flush? || s.tim5.EnableSpi?
  }

  /** The ADC is running, its handler is due or at work, or its semaphore is not taken yet. */
  predicate Outstanding(s: State, c: Channel) {
    Get(s, c).spi || Get(s, c).flag || Get(s, c).pend || Get(s, c).sem
    || (s.irq5.InAdc? && s.irq5.channel == c && s.irq5.pc != AdcReturn)
  }

  predicate AcquisitionHolds(s: State) {
    Triggering(s) || Outstanding(s, V) || Outstanding(s, I) || s.task == TakeI
  }

  /** The calculation task has both waveforms and has not armed the next round. */
  predicate TaskHolds(s: State) {
    s.task != TakeV && s.task != TakeI
  }

  function One(holds: bool): nat {
    if holds then 1 else 0
  }

  predicate OneHolder(s: State) {
    One(BootHolds(s)) + One(StreamHolds(s)) + One(TimerHolds(s)) + One(AcquisitionHolds(s)) + One(TaskHolds(s)) == 1
  }

  // ---------------------------------------------------------------- invariant

  /** The waveform of one channel in one round, complete. */
  function Waveform(c: Channel, round: nat): (w: seq<Sample>)
    ensures |w| == SAMPLES
  {
    seq(SAMPLES, k requires 0 <= k => Sample(c, round, k))
  }

  /** The first `n` samples are those of this round, but for a leftover at the start of a spoilt one. */
  predicate Upto(buff: seq<Sample>, c: Channel, round: nat, n: nat, spoilt: bool) {
    && |buff| == SAMPLES && n <= SAMPLES
    && forall k | 0 <= k < n :: buff[k] == if k == 0 && spoilt then Leftover(c) else Sample(c, round, k)
  }

  /** Nothing is going on in this ADC. */
  predicate Resting(a: Adc) {
    !a.spi && a.got == 0 && !a.flag && !a.pend && !a.sem && |a.buff| == SAMPLES
  }

  predicate Rests(s: State, c: Channel) {
    Resting(Get(s, c)) && !(s.irq5.InAdc? && s.irq5.channel == c)
  }

  /** It rests, and a waiting sample finds the DMA stopped. */
  predicate Waits(s: State, c: Channel) {
    Rests(s, c) && !(Get(s, c).late && Get(s, c).en)
  }

  predicate TimerOff(s: State) {
    !s.uie && !s.tpend && s.tim5 == Idle
  }

  predicate BootInv(s: State) {
    && !s.armed && !s.s2ie && !s.s2pend && s.irq5 == Free && TimerOff(s)
    && Waits(s, V) && Waits(s, I) && s.task == TakeV && s.results == s.ticks
  }

  predicate StreamInv(s: State) {
    && s.armed && s.s2ie && TimerOff(s) && Waits(s, V) && Waits(s, I) && s.task == TakeV && s.results == s.ticks
    && match s.irq5
       case Free => s.s2pend == s.s2flag
       case InS2(pc) => !s.s2pend && ((pc == S2Clear && s.s2flag) || (pc == S2Roll && !s.s2flag))
       case InAdc(_, _) => false
  }

  /** The Stream2 handler has rolled; it may still have to disable its interrupt and return. */
  predicate StreamDone(s: State) {
    && s.armed && !s.s2pend
    && (s.s2ie <==> s.irq5 == InS2(S2Disable)) && (s.irq5 == InS2(S2Disable) ==> !s.s2flag)
    && s.irq5 != InS2(S2Clear) && s.irq5 != InS2(S2Roll)
  }

  predicate TimerInv(s: State) {
    && StreamDone(s) && s.uie && Waits(s, V) && Waits(s, I) && s.task == TakeV
    && match s.tim5
       case Idle => s.tpend == s.uif && s.results == s.ticks
       case TimClear => !s.tpend && s.uif && s.results + 1 == s.ticks
       case TimDisable => !s.tpend && !s.uif && s.results + 1 == s.ticks
       case _ => false
  }

  /** How far an ADC is in the current round. */
  datatype Stage = Waiting | Flushing | Starting | Running | Complete | Serving(pc: AdcPc) | Ready | Taken

  function StageFrom(a: Adc, irq5: Irq5, tim5: Tim5, task: Task, c: Channel): Stage {
    if irq5.InAdc? && irq5.channel == c then Serving(irq5.pc)
    else if a.flag then Complete
    else if a.spi then Running
    else if a.sem then Ready
    else if tim5 == Flush(c) then Flushing
    else if tim5 == EnableSpi(c) then Starting
    else if task != TakeV && (c == V || task != TakeI) then Taken
    else Waiting
  }

  function StageOf(s: State, c: Channel): Stage {
    StageFrom(Get(s, c), s.irq5, s.tim5, s.task, c)
  }

  /** What is true of an ADC at each stage of a round. */
  predicate AdcInv(a: Adc, g: Stage, c: Channel, round: nat) {
    match g
    case Waiting => Resting(a) && !(a.late && a.en)
    case Flushing => Begun(a, c, round) && (a.late ==> !a.spoilt)
    case Starting => Begun(a, c, round) && !a.late
    case Running =>
      && a.en && a.spi && One(a.spoilt) <= a.got < SAMPLES && !a.pend && !a.flag && !a.sem && !a.late
      && Upto(a.buff, c, round, a.got, a.spoilt)
    case Complete =>
      && !a.en && a.spi && a.got == SAMPLES && a.pend && a.flag && !a.sem
      && Upto(a.buff, c, round, SAMPLES, a.spoilt)
    case Serving(pc) =>
      && !a.en && !a.pend && (a.flag <==> pc == ClearFlag) && (a.sem <==> pc == AdcReturn)
      && (a.spi <==> pc == ClearFlag || pc == SpiOff) && (pc == Give || pc == AdcReturn ==> a.ptr)
      && (if pc == SetPointer || pc == Give || pc == AdcReturn then a.got == 0 else a.got == SAMPLES)
      && Upto(a.buff, c, round, SAMPLES, a.spoilt)
    case Ready => Delivered(a, c, round) && a.sem
    case Taken => Delivered(a, c, round) && !a.sem
  }

  /** The DMA is enabled and the SPI not yet: only a leftover can have been moved. */
  predicate Begun(a: Adc, c: Channel, round: nat) {
    && a.en && !a.spi && !a.flag && !a.pend && !a.sem && a.got == One(a.spoilt)
    && Upto(a.buff, c, round, a.got, a.spoilt)
  }

  /** The waveform of this round is in the buffer, and the ADC is at rest. */
  predicate Delivered(a: Adc, c: Channel, round: nat) {
    && !a.en && !a.spi && a.got == 0 && !a.flag && !a.pend && a.ptr
    && Upto(a.buff, c, round, SAMPLES, a.spoilt)
  }

  predicate StageInv(s: State, c: Channel) {
    AdcInv(Get(s, c), StageOf(s, c), c, s.ticks)
  }

  predicate AcquisitionInv(s: State) {
    && StreamDone(s) && !s.uie && !s.tpend && s.results + 1 == s.ticks && (s.task == TakeV || s.task == TakeI)
    && StageInv(s, V) && StageInv(s, I) && (s.irq5.InAdc? ==> s.tim5 == Idle)
    && (s.task == TakeI <==> StageOf(s, V) == Taken)
    && (s.irq5.InS2? ==> NotServed(StageOf(s, V)) && NotServed(StageOf(s, I)))
    && Progress(s.tim5, StageOf(s, V), StageOf(s, I))
  }

  /** No handler has looked at the ADC since it was started. */
  predicate NotServed(g: Stage) {
    g != Ready && g != Taken
  }

  predicate Launched(g: Stage) {
    g != Waiting && g != Flushing && g != Starting
  }

  predicate Receiving(g: Stage) {
    g == Running || g == Complete
  }

  /** Which stages go with the place in the TIM5 handler. */
  predicate Progress(tim5: Tim5, v: Stage, i: Stage) {
    match tim5
    case TimClear => false
    case TimDisable => false
    case EnableDma(c) => if c == V then v == Waiting && i == Waiting else Receiving(v) && i == Waiting
    case Flush(c) => if c == V then v == Flushing && i == Waiting else Receiving(v) && i == Flushing
    case EnableSpi(c) => if c == V then v == Starting && i == Waiting else Receiving(v) && i == Starting
    case TimReturn => Receiving(v) && Receiving(i)
    case Idle => Launched(v) && Launched(i)
  }

  predicate TaskInv(s: State) {
    && s.armed && !s.s2ie && !s.s2pend && ThreadMode(s) && TimerOff(s)
    && AdcInv(s.v, Taken, V, s.ticks) && AdcInv(s.i, Taken, I, s.ticks)
    && (s.results == if s.task == ClearTc || s.task == EnableTc then s.ticks else s.ticks - 1)
    && match s.task
       case TakeV => false
       case TakeI => false
       case CopyV(n) => n < SAMPLES && Upto(s.wv, V, s.ticks, n, s.v.spoilt)
       case CopyI(n) =>
         n < SAMPLES && Upto(s.wv, V, s.ticks, SAMPLES, s.v.spoilt) && Upto(s.wi, I, s.ticks, n, s.i.spoilt)
       case _ => Upto(s.wv, V, s.ticks, SAMPLES, s.v.spoilt) && Upto(s.wi, I, s.ticks, SAMPLES, s.i.spoilt)
  }

  predicate Inv(s: State) {
    && |s.wv| == SAMPLES && |s.wi| == SAMPLES
    && (BootInv(s) || StreamInv(s) || TimerInv(s) || AcquisitionInv(s) || TaskInv(s))
  }

  lemma BootKeeps(s: State, e: Event)
    requires Inv(s) && BootInv(s) && Can(s, e)
    ensures Inv(Step(s, e))
  {
  }

  lemma StreamKeeps(s: State, e: Event)
    requires Inv(s) && StreamInv(s) && Can(s, e) && NotLatched(s, e)
    ensures Inv(Step(s, e))
  {
  }

  lemma TimerKeeps(s: State, e: Event)
    requires Inv(s) && TimerInv(s) && Can(s, e) && NotLatched(s, e)
    ensures Inv(Step(s, e))
  {
  }

  lemma TaskKeeps(s: State, e: Event)
    requires Inv(s) && TaskInv(s) && Can(s, e)
    ensures Inv(Step(s, e))
  {
  }

  lemma MovedKeeps(a: Adc, c: Channel, round: nat)
    requires AdcInv(a, Running, c, round)
    ensures var a' := Moved(a, Sample(c, round, a.got));
            AdcInv(a', if a'.flag then Complete else Running, c, round) && a'.spi
  {
  }

  lemma TransferKeeps(s: State, c: Channel)
    requires Inv(s) && AcquisitionInv(s) && Can(s, Transfer(c))
    ensures Inv(Step(s, Transfer(c)))
  {
    assert StageOf(s, c) == Running by {
      hide Upto;
    }
    MovedKeeps(Get(s, c), c, s.ticks);
    hide Upto, Moved;
  }

  lemma LateKeeps(s: State, c: Channel)
    requires Inv(s) && AcquisitionInv(s) && Can(s, Late(c))
    ensures Inv(Step(s, Late(c)))
  {
    hide Upto;
  }

  lemma LeftoverKeeps(s: State, c: Channel)
    requires Inv(s) && AcquisitionInv(s) && Can(s, TakesLeftover(c))
    ensures Inv(Step(s, TakesLeftover(c)))
  {
  }

  lemma EntryKeeps(s: State, c: Channel)
    requires Inv(s) && AcquisitionInv(s) && Can(s, EnterAdc(c))
    ensures Inv(Step(s, EnterAdc(c)))
  {
    hide Upto;
  }

  lemma NoOtherEntry(s: State, e: Event)
    requires AcquisitionInv(s) && (e == EnterS2 || e == EnterTim || e == MainArms)
    ensures !Can(s, e)
  {
    hide StageInv, StageOf, Progress;
  }

  lemma StreamHandlerKeeps(s: State)
    requires Inv(s) && AcquisitionInv(s) && Can(s, Step5) && s.irq5.InS2?
    ensures Inv(Step(s, Step5))
  {
    hide Upto;
  }

  function Other(c: Channel): Channel {
    if c == V then I else V
  }

  function NextStage(pc: AdcPc): Stage {
    match pc
    case ClearFlag => Serving(SpiOff)
    case SpiOff => Serving(Reload)
    case Reload => Serving(SetPointer)
    case SetPointer => Serving(Give)
    case Give => Serving(AdcReturn)
    case AdcReturn => Ready
  }

  lemma ServedKeeps(a: Adc, pc: AdcPc, c: Channel, round: nat)
    requires AdcInv(a, Serving(pc), c, round)
    ensures AdcInv(Served(a, pc), NextStage(pc), c, round)
    ensures pc == AdcReturn ==> a.sem && !a.flag && !a.spi
  {
    hide Upto;
  }

  lemma AdcHandlerKeeps(s: State, c: Channel)
    requires Inv(s) && AcquisitionInv(s) && Can(s, Step5) && s.irq5.InAdc? && s.irq5.channel == c
    ensures Inv(Step(s, Step5))
  {
    hide Upto, AdcInv, Resting, Delivered, StageFrom, Served, StepAdc, Set;
    ServingStage(s, c);
    ServedKeeps(Get(s, c), s.irq5.pc, c, s.ticks);
    ServedState(s, c);
    ServedStage(Get(s, c), s.irq5.pc, s.tim5, s.task, c);
    OtherStage(Get(s, Other(c)), s.irq5.pc, s.tim5, s.task, c);
  }

  lemma ServedStage(a: Adc, pc: AdcPc, tim5: Tim5, task: Task, c: Channel)
    requires pc == AdcReturn ==> a.sem && !a.flag && !a.spi
    ensures StageFrom(Served(a, pc), After(c, pc), tim5, task, c) == NextStage(pc)
  {
  }

  lemma OtherStage(a: Adc, pc: AdcPc, tim5: Tim5, task: Task, c: Channel)
    ensures StageFrom(a, After(c, pc), tim5, task, Other(c)) == StageFrom(a, InAdc(c, pc), tim5, task, Other(c))
  {
  }

  /** Changing one ADC changes nothing else. */
  lemma SetChanges(s: State, c: Channel, a: Adc)
    ensures var t := Set(s, c, a);
            Get(t, c) == a && Get(t, Other(c)) == Get(s, Other(c)) && t == s.(v := t.v, i := t.i)
  {
  }

  lemma ServedState(s: State, c: Channel)
    requires s.irq5.InAdc? && s.irq5.channel == c
    ensures var s' := StepAdc(s, c, s.irq5.pc);
            && Get(s', c) == Served(Get(s, c), s.irq5.pc) && Get(s', Other(c)) == Get(s, Other(c))
            && s'.irq5 == After(c, s.irq5.pc)
            && s' == s.(v := s'.v, i := s'.i, irq5 := s'.irq5)
  {
    hide Served, After, Set;
    SetChanges(s, c, Served(Get(s, c), s.irq5.pc));
  }

  lemma ServingStage(s: State, c: Channel)
    requires s.irq5.InAdc? && s.irq5.channel == c
    ensures StageOf(s, c) == Serving(s.irq5.pc)
  {
  }

  lemma EnableDmaKeeps(s: State, c: Channel)
    requires Inv(s) && AcquisitionInv(s) && s.tim5 == EnableDma(c)
    ensures Inv(Step(s, StepTim))
  {
    if c == V {
      assert Progress(Step(s, StepTim).tim5, StageOf(Step(s, StepTim), V), StageOf(Step(s, StepTim), I));
    }
  }

  lemma FlushKeeps(s: State, c: Channel)
    requires Inv(s) && AcquisitionInv(s) && s.tim5 == Flush(c)
    ensures Inv(Step(s, StepTim))
  {
    hide Upto;
  }

  lemma EnableSpiKeeps(s: State, c: Channel)
    requires Inv(s) && AcquisitionInv(s) && s.tim5 == EnableSpi(c)
    ensures Inv(Step(s, StepTim))
  {
    hide Upto;
  }

  lemma TimReturnKeeps(s: State)
    requires Inv(s) && AcquisitionInv(s) && s.tim5 == TimReturn
    ensures Inv(Step(s, StepTim))
  {
    hide Upto;
  }

  lemma TriggerKeeps(s: State)
    requires Inv(s) && AcquisitionInv(s) && Can(s, StepTim)
    ensures Inv(Step(s, StepTim))
  {
    hide Inv, StageInv, Step, StageOf, Upto;
    match s.tim5 {
      case EnableDma(c) => EnableDmaKeeps(s, c);
      case Flush(c) => FlushKeeps(s, c);
      case EnableSpi(c) => EnableSpiKeeps(s, c);
      case TimReturn => TimReturnKeeps(s);
      case _ =>
    }
  }

  lemma TakeKeeps(s: State)
    requires Inv(s) && AcquisitionInv(s) && Can(s, StepTask)
    ensures Inv(Step(s, StepTask))
  {
  }

  lemma AcquisitionKeeps(s: State, e: Event)
    requires Inv(s) && AcquisitionInv(s) && Can(s, e) && NotLatched(s, e)
    ensures Inv(Step(s, e))
  {
    hide Upto;
    match e {
      case StreamWraps =>
      case TimerUpdates =>
      case Transfer(c) => TransferKeeps(s, c);
      case Step5 =>
        if s.irq5.InS2? {
          StreamHandlerKeeps(s);
        } else {
          AdcHandlerKeeps(s, s.irq5.channel);
        }
      case StepTim => TriggerKeeps(s);
      case StepTask => TakeKeeps(s);
      case Late(c) => LateKeeps(s, c);
      case TakesLeftover(c) => LeftoverKeeps(s, c);
      case EnterAdc(c) => EntryKeeps(s, c);
      case _ => NoOtherEntry(s, e);
    }
  }

  lemma StepKeeps(s: State, e: Event)
    requires Inv(s) && Can(s, e) && NotLatched(s, e)
    ensures Inv(Step(s, e))
  {
    hide Step, BootInv, StreamInv, TimerInv, AcquisitionInv, TaskInv;
    if BootInv(s) {
      BootKeeps(s, e);
    } else if StreamInv(s) {
      StreamKeeps(s, e);
    } else if TimerInv(s) {
      TimerKeeps(s, e);
    } else if TaskInv(s) {
      TaskKeeps(s, e);
    } else {
      AcquisitionKeeps(s, e);
    }
  }

  // ---------------------------------------------------------- leftover samples

  predicate SameRegister(a: Adc, b: Adc) {
    a.late == b.late && a.spoilt == b.spoilt
  }

  lemma HandlerKeepsRegister(s: State, c: Channel)
    requires s.irq5.InAdc?
    ensures SameRegister(Get(s, c), Get(StepAdc(s, s.irq5.channel, s.irq5.pc), c))
  {
    hide StepAdc, Get, After, Served;
    ServedState(s, s.irq5.channel);
    ServedKeepsRegister(Get(s, c), s.irq5.pc);
  }

  lemma ServedKeepsRegister(a: Adc, pc: AdcPc)
    ensures SameRegister(a, Served(a, pc))
  {
  }

  lemma ClearAndRollKeepAdcs(s: State, pc: S2Pc)
    requires pc == S2Clear || pc == S2Roll
    ensures StepS2(s, pc).v == s.v && StepS2(s, pc).i == s.i
  {
  }

  lemma StreamKeepsAdcs(s: State, pc: S2Pc)
    ensures StepS2(s, pc).v == s.v && StepS2(s, pc).i == s.i
  {
    if pc == S2Clear || pc == S2Roll {
      ClearAndRollKeepAdcs(s, pc);
    }
  }

  /** What one step of the TIM5 handler on an ADC changes. */
  lemma TriggerState(s: State, c: Channel)
    ensures var t := StepTrigger(s, c);
            && Get(t, c) == Triggered(Get(s, c), s.tim5) && Get(t, Other(c)) == Get(s, Other(c))
            && t == s.(v := t.v, i := t.i, tim5 := AfterTrigger(s.tim5))
  {
    hide Triggered, AfterTrigger, Set;
    SetChanges(s, c, Triggered(Get(s, c), s.tim5));
  }

  lemma TriggerKeepsRegister(s: State, d: Channel, c: Channel)
    requires d == c ==> s.tim5 == EnableSpi(c)
    ensures SameRegister(Get(s, c), Get(StepTrigger(s, d), c))
  {
    hide StepTrigger, Get;
    TriggerState(s, d);
  }

  lemma DisarmKeepsAdcs(s: State)
    requires s.tim5 == TimClear || s.tim5 == TimDisable
    ensures StepTim5(s).v == s.v && StepTim5(s).i == s.i
  {
    hide StepTrigger;
  }

  lemma TimerKeepsAdcs(s: State)
    requires !Triggering(s)
    ensures StepTim5(s).v == s.v && StepTim5(s).i == s.i
  {
    hide StepTrigger;
    if s.tim5 == TimClear || s.tim5 == TimDisable {
      DisarmKeepsAdcs(s);
    }
  }

  lemma TakesKeepRegister(s: State)
    requires Can(s, StepTask) && (s.task == TakeV || s.task == TakeI)
    ensures SameRegister(s.v, StepCalc(s).v) && SameRegister(s.i, StepCalc(s).i)
  {
  }

  lemma CopiesKeepAdcs(s: State)
    requires Can(s, StepTask) && (s.task.CopyV? || s.task.CopyI?)
    ensures StepCalc(s).v == s.v && StepCalc(s).i == s.i
  {
  }

  lemma CalculationKeepsAdcs(s: State)
    requires Can(s, StepTask) && (s.task == Compute || s.task == ClearTc || s.task == EnableTc)
    ensures StepCalc(s).v == s.v && StepCalc(s).i == s.i
  {
  }

  lemma TaskKeepsRegister(s: State, c: Channel)
    requires Can(s, StepTask)
    ensures SameRegister(Get(s, c), Get(StepCalc(s), c))
  {
    hide Can, StepCalc;
    match s.task {
      case TakeV => TakesKeepRegister(s);
      case TakeI => TakesKeepRegister(s);
      case CopyV(_) => CopiesKeepAdcs(s);
      case CopyI(_) => CopiesKeepAdcs(s);
      case _ => CalculationKeepsAdcs(s);
    }
  }

  lemma MovedKeepsRegister(a: Adc, sample: Sample)
    requires a.got < |a.buff|
    ensures SameRegister(a, Moved(a, sample))
  {
  }

  lemma AdcEventKeepsRegister(s: State, e: Event, d: Channel, c: Channel)
    requires Can(s, e) && (e == Transfer(d) || e == EnterAdc(d) || e == Late(d) || e == TakesLeftover(d))
    requires d == c ==> e == Transfer(d) || e == EnterAdc(d)
    ensures SameRegister(Get(s, c), Get(Step(s, e), c))
  {
    hide Moved;
    if e == Transfer(d) {
      MovedKeepsRegister(Get(s, d), Sample(d, s.ticks, Get(s, d).got));
    }
  }

  lemma OtherEventKeepsAdcs(s: State, e: Event)
    requires Can(s, e) && (e == StreamWraps || e == TimerUpdates || e == EnterS2 || e == EnterTim || e == MainArms)
    ensures Step(s, e).v == s.v && Step(s, e).i == s.i
  {
    hide Set, Get;
  }

  lemma HandlerStepKeepsRegister(s: State, c: Channel)
    requires Can(s, Step5)
    ensures SameRegister(Get(s, c), Get(Step(s, Step5), c))
  {
    assert s.irq5 != Free;
    hide Can, StepAdc, StepS2, Set;
    if s.irq5.InAdc? {
      HandlerKeepsRegister(s, c);
    } else {
      StreamKeepsAdcs(s, s.irq5.s2);
    }
  }

  lemma TimStepKeepsRegister(s: State, c: Channel)
    requires Can(s, StepTim) && s.tim5 != EnableDma(c) && s.tim5 != Flush(c)
    ensures SameRegister(Get(s, c), Get(Step(s, StepTim), c))
  {
    hide StepTrigger, Set;
    match s.tim5 {
      case EnableDma(d) => TriggerKeepsRegister(s, d, c);
      case Flush(d) => TriggerKeepsRegister(s, d, c);
      case EnableSpi(d) => TriggerKeepsRegister(s, d, c);
      case _ => TimerKeepsAdcs(s);
    }
  }

  lemma TaskStepKeepsRegister(s: State, c: Channel)
    requires Can(s, StepTask)
    ensures SameRegister(Get(s, c), Get(Step(s, StepTask), c))
  {
    TaskKeepsRegister(s, c);
    hide Can, StepCalc;
  }

  /** Only a late sample, its flushing or moving, and the start of a round change what is left over. */
  lemma RegisterStays(s: State, e: Event, c: Channel)
    requires Can(s, e) && e != Late(c) && e != TakesLeftover(c)
    requires e == StepTim ==> s.tim5 != EnableDma(c) && s.tim5 != Flush(c)
    ensures SameRegister(Get(s, c), Get(Step(s, e), c))
  {
    hide Can, Step;
    match e {
      case Step5 => HandlerStepKeepsRegister(s, c);
      case StepTim => TimStepKeepsRegister(s, c);
      case StepTask => TaskStepKeepsRegister(s, c);
      case Transfer(d) => AdcEventKeepsRegister(s, e, d, c);
      case EnterAdc(d) => AdcEventKeepsRegister(s, e, d, c);
      case Late(d) => AdcEventKeepsRegister(s, e, d, c);
      case TakesLeftover(d) => AdcEventKeepsRegister(s, e, d, c);
      case _ => OtherEventKeepsAdcs(s, e);
    }
  }

  /** No sample is or was left over. */
  predicate Unspoilt(s: State, c: Channel) {
    !Get(s, c).late && !Get(s, c).spoilt
  }

  predicate Clean(s: State) {
    Unspoilt(s, V) && Unspoilt(s, I)
  }

  lemma UnspoiltStays(s: State, e: Event, c: Channel)
    requires Unspoilt(s, c) && Can(s, e) && !e.Late?
    ensures Unspoilt(Step(s, e), c)
  {
    if e == StepTim && (s.tim5 == EnableDma(c) || s.tim5 == Flush(c)) {
      TriggerState(s, c);
      hide StepTrigger, Get;
    } else if e != TakesLeftover(c) {
      RegisterStays(s, e, c);
      hide Can, Step, Get;
    }
  }

  lemma CleanStays(s: State, e: Event)
    requires Clean(s) && Can(s, e) && !e.Late?
    ensures Clean(Step(s, e))
  {
    hide Unspoilt, Can, Step;
    UnspoiltStays(s, e, V);
    UnspoiltStays(s, e, I);
  }

  lemma {:induction false} RunKeeps(es: seq<Event>)
    ensures Run(es).Some? ==> Inv(Run(es).value)
    ensures Run(es).Some? && NoneLate(es) ==> Clean(Run(es).value)
    decreases |es|
  {
    hide Step, Inv, Can, NotLatched, Clean;
    if es == [] {
      InitialInv();
    } else if Run(es).Some? {
      var n := |es| - 1;
      RunKeeps(es[..n]);
      StepKeeps(Run(es[..n]).value, es[n]);
      if NoneLate(es) {
        CleanStays(Run(es[..n]).value, es[n]);
      }
    }
  }

  predicate NoneLate(es: seq<Event>) {
    forall k | 0 <= k < |es| :: !es[k].Late?
  }

  lemma InitialInv()
    ensures Inv(Initial()) && Clean(Initial())
  {
  }

  // ------------------------------------------------------------------- safety

  /** In every reachable state exactly one of the five holds the round. */
  lemma SingleRound(es: seq<Event>)
    requires Run(es).Some?
    ensures OneHolder(Run(es).value)
  {
    hide Run, Inv, Can;
    RunKeeps(es);
    HoldersAreExclusive(Run(es).value);
  }

  lemma HoldersAreExclusive(s: State)
    requires Inv(s)
    ensures OneHolder(s)
  {
    hide Upto;
  }

  /**
   An ADC is started only when it rests and its last waveform was taken; until
   its SPI is on, no more than a leftover can have been moved.
   */
  lemma NeverTriggeredWhileBusy(es: seq<Event>, c: Channel)
    requires Run(es).Some?
    requires Run(es).value.tim5 == EnableDma(c) || Run(es).value.tim5 == Flush(c) || Run(es).value.tim5 == EnableSpi(c)
    ensures Run(es).value.tim5 == EnableDma(c) || NoneLate(es) ==> Rests(Run(es).value, c)
    ensures Rests(Set(Run(es).value, c, Get(Run(es).value, c).(got := 0)), c)
  {
    hide Run, Inv, Can;
    RunKeeps(es);
    TriggerFindsRest(Run(es).value, c);
  }

  lemma TriggerFindsRest(s: State, c: Channel)
    requires Inv(s) && (s.tim5 == EnableDma(c) || s.tim5 == Flush(c) || s.tim5 == EnableSpi(c))
    ensures s.tim5 == EnableDma(c) || Clean(s) ==> Rests(s, c)
    ensures Rests(Set(s, c, Get(s, c).(got := 0)), c)
  {
    assert AcquisitionInv(s) by {
      hide AcquisitionInv, StageInv, Progress;
    }
    assert StageInv(s, c) && !s.irq5.InAdc?;
  }

  /** A semaphore is given only when it is empty. */
  lemma NeverGivenWhileFull(es: seq<Event>, c: Channel)
    requires Run(es).Some? && Run(es).value.irq5 == InAdc(c, Give)
    ensures !Get(Run(es).value, c).sem
  {
    hide Run, Inv, Can;
    RunKeeps(es);
    GiveFindsEmpty(Run(es).value, c);
  }

  lemma GiveFindsEmpty(s: State, c: Channel)
    requires Inv(s) && s.irq5 == InAdc(c, Give)
    ensures !Get(s, c).sem
  {
    hide Upto;
  }

  /** While the calculation task copies, no DMA can write to either buffer, and the pointer it copies from is set. */
  lemma CopyIsUndisturbed(es: seq<Event>)
    requires Run(es).Some? && (Run(es).value.task.CopyV? || Run(es).value.task.CopyI?)
    ensures forall c :: !Can(Run(es).value, Transfer(c)) && !Can(Run(es).value, TakesLeftover(c))
    ensures Can(Run(es).value, StepTask)
  {
    hide Run, Inv, Can;
    RunKeeps(es);
    CopyFindsRest(Run(es).value);
  }

  lemma CopyFindsRest(s: State)
    requires Inv(s) && (s.task.CopyV? || s.task.CopyI?)
    ensures forall c :: !Can(s, Transfer(c)) && !Can(s, TakesLeftover(c))
    ensures Can(s, StepTask)
  {
  }

  /**
   The n-th calculation is made with both waveforms of the n-th round, complete,
   if no sample came late. Otherwise a waveform is that of the round but for its
   first sample, exactly when the round began with a leftover.
   */
  lemma CalculationsArePaired(es: seq<Event>)
    requires Run(es).Some? && Run(es).value.task == Compute
    ensures var s := Run(es).value;
            && s.ticks == s.results + 1 && |s.wv| == SAMPLES == |s.wi|
            && (NoneLate(es) ==> s.wv == Waveform(V, s.ticks) && s.wi == Waveform(I, s.ticks))
            && s.wv[1..] == Waveform(V, s.ticks)[1..] && (s.wv == Waveform(V, s.ticks) <==> !s.v.spoilt)
            && s.wi[1..] == Waveform(I, s.ticks)[1..] && (s.wi == Waveform(I, s.ticks) <==> !s.i.spoilt)
  {
    hide Run, Inv, Can;
    RunKeeps(es);
    ComputeFindsPair(Run(es).value);
  }

  lemma ComputeFindsPair(s: State)
    requires Inv(s) && s.task == Compute
    ensures s.ticks == s.results + 1 && |s.wv| == SAMPLES == |s.wi|
    ensures s.wv[1..] == Waveform(V, s.ticks)[1..] && (s.wv == Waveform(V, s.ticks) <==> !s.v.spoilt)
    ensures s.wi[1..] == Waveform(I, s.ticks)[1..] && (s.wi == Waveform(I, s.ticks) <==> !s.i.spoilt)
  {
    WaveformOf(s.wv, V, s.ticks, s.v.spoilt);
    WaveformOf(s.wi, I, s.ticks, s.i.spoilt);
  }

  lemma WaveformOf(w: seq<Sample>, c: Channel, round: nat, spoilt: bool)
    requires Upto(w, c, round, SAMPLES, spoilt)
    ensures w[1..] == Waveform(c, round)[1..] && (w == Waveform(c, round) <==> !spoilt)
  {
    if spoilt {
      assert w[0] != Waveform(c, round)[0];
    }
  }

  /** No round is lost and none is calculated twice. */
  lemma RoundsAreConserved(es: seq<Event>)
    requires Run(es).Some?
    ensures Run(es).value.results <= Run(es).value.ticks <= Run(es).value.results + 1
  {
    hide Run, Inv;
    RunKeeps(es);
    ResultsAndTicks(Run(es).value);
  }

  lemma ResultsAndTicks(s: State)
    requires Inv(s)
    ensures s.results <= s.ticks <= s.results + 1
  {
    hide Upto;
  }

  // ------------------------------------------------------- what a round waits for

  /** The `i`-th event is the step with which the task clears the flag of stream 2. */
  predicate ClearsAt(es: seq<Event>, i: nat) {
    i < |es| && Run(es[..i]).Some? && es[i] == StepTask && Run(es[..i]).value.task == ClearTc
  }

  /** The `i`-th event is the step with which the handler of stream 2 arms the timer. */
  predicate RollsAt(es: seq<Event>, i: nat) {
    i < |es| && Run(es[..i]).Some? && es[i] == Step5 && Run(es[..i]).value.irq5 == InS2(S2Roll)
  }

  lemma {:induction false} RunPrefix(es: seq<Event>, n: nat)
    requires Run(es).Some? && n <= |es|
    ensures Run(es[..n]).Some?
    ensures n < |es| ==> Can(Run(es[..n]).value, es[n]) && NotLatched(Run(es[..n]).value, es[n])
                         && Run(es[..n + 1]) == Some(Step(Run(es[..n]).value, es[n]))
    decreases |es|
  {
    hide Can, Step, NotLatched;
    if n == |es| {
      assert es[..n] == es;
    } else {
      var before := es[..|es| - 1];
      if n < |es| - 1 {
        RunPrefix(before, n);
        assert before[..n] == es[..n] && before[..n + 1] == es[..n + 1];
      } else {
        assert es[..n + 1] == es;
      }
    }
  }

  /** The event is one of an ADC: of its samples, its interrupt, or its start. */
  predicate OfAdc(s: State, e: Event) {
    || e.Transfer? || e.Late? || e.TakesLeftover? || e.EnterAdc?
    || (e == Step5 && s.irq5.InAdc?) || (e == StepTim && Triggering(s))
  }

  lemma SampleFrame(s: State, e: Event)
    requires Can(s, e) && (e.Transfer? || e.Late? || e.TakesLeftover?)
    ensures var t := Step(s, e);
            t == s.(v := t.v, i := t.i)
  {
    hide Moved, Get, Set;
    match e {
      case Transfer(c) => SetChanges(s, c, Moved(Get(s, c), Sample(c, s.ticks, Get(s, c).got)));
      case Late(c) => SetChanges(s, c, Get(s, c).(late := true));
      case TakesLeftover(c) => SetChanges(s, c, Moved(Get(s, c), Leftover(c)).(late := false, spoilt := true));
      case _ =>
    }
  }

  lemma EntryFrame(s: State, c: Channel)
    requires Can(s, EnterAdc(c))
    ensures var t := Step(s, EnterAdc(c));
            t == s.(v := t.v, i := t.i, irq5 := t.irq5)
  {
    hide Set;
    SetChanges(s, c, Get(s, c).(pend := false));
  }

  lemma HandlerFrame(s: State)
    requires Can(s, Step5) && s.irq5.InAdc?
    ensures var t := Step(s, Step5);
            t == s.(v := t.v, i := t.i, irq5 := t.irq5)
  {
    hide StepAdc;
    ServedState(s, s.irq5.channel);
  }

  lemma TriggerFrame(s: State)
    requires Can(s, StepTim) && Triggering(s)
    ensures var t := Step(s, StepTim);
            t == s.(v := t.v, i := t.i, tim5 := t.tim5)
  {
    hide StepTrigger;
    TriggerState(s, s.tim5.channel);
  }

  /** Such an event changes the ADC and where the handlers stand. */
  lemma AdcEventFrame(s: State, e: Event)
    requires Can(s, e) && OfAdc(s, e)
    ensures var t := Step(s, e);
            t == s.(v := t.v, i := t.i, irq5 := t.irq5, tim5 := t.tim5)
  {
    hide Can, Step;
    match e {
      case EnterAdc(c) => EntryFrame(s, c);
      case Step5 => HandlerFrame(s);
      case StepTim => TriggerFrame(s);
      case _ => SampleFrame(s, e);
    }
  }

  /** Between these states no flag that was down, and not latched, came up or was latched. */
  predicate NoneRaised(s: State, t: State) {
    && (!s.s2flag && !s.s2pend ==> !t.s2flag && !t.s2pend)
    && (!s.uif && !s.tpend ==> !t.uif && !t.tpend)
  }

  predicate SameTask(s: State, t: State) {
    t.task == s.task && t.results == s.results
  }

  lemma ClearAndRollRaiseNone(s: State, pc: S2Pc)
    requires pc == S2Clear || pc == S2Roll
    ensures NoneRaised(s, StepS2(s, pc)) && SameTask(s, StepS2(s, pc))
  {
  }

  lemma StreamHandlerRaisesNone(s: State, pc: S2Pc)
    ensures NoneRaised(s, StepS2(s, pc)) && SameTask(s, StepS2(s, pc))
  {
    if pc == S2Clear || pc == S2Roll {
      ClearAndRollRaiseNone(s, pc);
    }
  }

  lemma DisarmRaisesNone(s: State)
    requires s.tim5 == TimClear || s.tim5 == TimDisable
    ensures NoneRaised(s, StepTim5(s)) && SameTask(s, StepTim5(s))
  {
    hide StepTrigger;
  }

  lemma TimHandlerRaisesNone(s: State)
    requires !Triggering(s)
    ensures NoneRaised(s, StepTim5(s)) && SameTask(s, StepTim5(s))
  {
    hide StepTrigger;
    if s.tim5 == TimClear || s.tim5 == TimDisable {
      DisarmRaisesNone(s);
    }
  }

  lemma TakesRaiseNone(s: State)
    requires Can(s, StepTask) && (s.task == TakeV || s.task == TakeI)
    ensures NoneRaised(s, StepCalc(s)) && StepCalc(s).results == s.results
  {
  }

  lemma CopiesRaiseNone(s: State)
    requires Can(s, StepTask) && (s.task.CopyV? || s.task.CopyI?)
    ensures NoneRaised(s, StepCalc(s)) && StepCalc(s).results == s.results
  {
  }

  lemma CalculationRaisesNone(s: State)
    requires Can(s, StepTask) && (s.task == Compute || s.task == ClearTc || s.task == EnableTc)
    ensures NoneRaised(s, StepCalc(s)) && (s.task != Compute ==> StepCalc(s).results == s.results)
  {
  }

  lemma TaskRaisesNone(s: State)
    requires Can(s, StepTask)
    ensures NoneRaised(s, StepCalc(s)) && (s.task != Compute ==> StepCalc(s).results == s.results)
  {
    hide Can, StepCalc, NoneRaised;
    match s.task {
      case TakeV => TakesRaiseNone(s);
      case TakeI => TakesRaiseNone(s);
      case CopyV(_) => CopiesRaiseNone(s);
      case CopyI(_) => CopiesRaiseNone(s);
      case _ => CalculationRaisesNone(s);
    }
  }

  lemma EntryRaisesNone(s: State, e: Event)
    requires Can(s, e) && (e == EnterS2 || e == EnterTim || e == MainArms)
    ensures NoneRaised(s, Step(s, e)) && SameTask(s, Step(s, e))
  {
    hide Set, Get;
  }

  lemma AdcRaisesNone(s: State, e: Event)
    requires Can(s, e) && OfAdc(s, e)
    ensures NoneRaised(s, Step(s, e)) && SameTask(s, Step(s, e))
  {
    hide Can, Step;
    AdcEventFrame(s, e);
  }

  lemma HandlerStepRaisesNone(s: State)
    requires Can(s, Step5) && s.irq5.InS2?
    ensures NoneRaised(s, Step(s, Step5)) && SameTask(s, Step(s, Step5))
  {
    hide Can, StepS2, NoneRaised;
    StreamHandlerRaisesNone(s, s.irq5.s2);
  }

  lemma TimStepRaisesNone(s: State)
    requires Can(s, StepTim) && !Triggering(s)
    ensures NoneRaised(s, Step(s, StepTim)) && SameTask(s, Step(s, StepTim))
  {
    hide Can, StepTim5, NoneRaised;
    TimHandlerRaisesNone(s);
  }

  lemma TaskStepRaisesNone(s: State)
    requires Can(s, StepTask)
    ensures NoneRaised(s, Step(s, StepTask)) && (s.task != Compute ==> Step(s, StepTask).results == s.results)
  {
    TaskRaisesNone(s);
    hide Can, StepCalc, NoneRaised;
  }

  /** Nothing but the end of the table and the timer's update raises a flag, and nothing but these latches one. */
  lemma OnlyUpdatesRaise(s: State, e: Event)
    requires Can(s, e) && e != StreamWraps && e != TimerUpdates
    ensures NoneRaised(s, Step(s, e))
    ensures e != StepTask ==> SameTask(s, Step(s, e))
    ensures e == StepTask && s.task != Compute ==> Step(s, e).results == s.results
  {
    if OfAdc(s, e) {
      AdcRaisesNone(s, e);
    } else if e == Step5 {
      assert s.irq5.InS2?;
      HandlerStepRaisesNone(s);
    } else if e == StepTim {
      TimStepRaisesNone(s);
    } else if e == StepTask {
      TaskStepRaisesNone(s);
    } else {
      EntryRaisesNone(s, e);
    }
    hide Can, Step, NoneRaised, Triggering;
  }

  lemma UpdatesStaySeparate(s: State, e: Event)
    requires e == StreamWraps || e == TimerUpdates
    ensures SameTask(s, Step(s, e))
    ensures e == TimerUpdates && !s.s2flag && !s.s2pend ==> !Step(s, e).s2flag && !Step(s, e).s2pend
    ensures e == StreamWraps && !s.uif && !s.tpend ==> !Step(s, e).uif && !Step(s, e).tpend
  {
    hide Set, Get;
  }

  /** The sine table has not ended since the flag was cleared. */
  predicate Calm(s: State) {
    !s.s2flag && !s.s2pend
  }

  lemma ClearingCalms(s: State)
    requires Inv(s) && s.task == ClearTc && Can(s, StepTask)
    ensures Calm(Step(s, StepTask))
  {
    hide Upto, StageInv;
  }

  lemma CalmStays(s: State, e: Event)
    requires Calm(s) && Can(s, e) && e != StreamWraps
    ensures Calm(Step(s, e)) && e != EnterS2
  {
    assert e != EnterS2;
    hide Can, Step;
    if e == StreamWraps || e == TimerUpdates {
      UpdatesStaySeparate(s, e);
    } else {
      OnlyUpdatesRaise(s, e);
    }
  }

  /** While the table does not end, no round begins. */
  lemma {:induction false} CalmUntilWrap(es: seq<Event>, i: nat, j: nat)
    requires Run(es).Some? && i < j <= |es| && ClearsAt(es, i)
    requires forall k | i < k < j :: es[k] != StreamWraps
    ensures Run(es[..j]).Some? && Calm(Run(es[..j]).value) && forall k | i < k < j :: es[k] != EnterS2
    decreases j
  {
    hide Run, Inv, Can, Step, NotLatched, Calm;
    RunPrefix(es, j);
    RunPrefix(es, j - 1);
    if j == i + 1 {
      RunKeeps(es[..i]);
      ClearingCalms(Run(es[..i]).value);
    } else {
      CalmUntilWrap(es, i, j - 1);
      CalmStays(Run(es[..j - 1]).value, es[j - 1]);
    }
  }

  /** Where the task stands between its calculations and the next round. */
  ghost predicate Rearmed(es: seq<Event>, s: State) {
    s.results == 0 || s.task == ClearTc || exists i: nat :: ClearsAt(es, i) && Run(es[..i]).value.results == s.results
  }

  lemma ResultsStay(s: State, e: Event)
    requires Can(s, e) && (e == StepTask ==> s.task != Compute)
    ensures Step(s, e).results == s.results
    ensures e != StepTask ==> Step(s, e).task == s.task
  {
    hide Can, Step;
    if e == StreamWraps || e == TimerUpdates {
      UpdatesStaySeparate(s, e);
    } else {
      OnlyUpdatesRaise(s, e);
    }
  }

  lemma {:induction false} RunRearms(es: seq<Event>)
    requires Run(es).Some?
    ensures Rearmed(es, Run(es).value)
    decreases |es|
  {
    hide Step, Can, NotLatched;
    if es != [] {
      var n := |es| - 1;
      var s, e := Run(es[..n]).value, es[n];
      RunRearms(es[..n]);
      if e == StepTask && s.task == Compute {
        ComputeIsNext(s);
      } else {
        ResultsStay(s, e);
        if s.results > 0 {
          if s.task == ClearTc && e == StepTask {
            assert ClearsAt(es, n);
          } else if s.task != ClearTc {
            var i: nat :| ClearsAt(es[..n], i) && Run(es[..n][..i]).value.results == s.results;
            assert es[..n][..i] == es[..i];
            assert ClearsAt(es, i);
          }
        }
      }
    }
  }

  lemma ComputeIsNext(s: State)
    requires Can(s, StepTask) && s.task == Compute
    ensures Step(s, StepTask).task == ClearTc
  {
  }

  lemma NoEntryAtClear(s: State)
    requires Inv(s) && Can(s, EnterS2)
    ensures s.task != ClearTc
  {
    hide Upto, StageInv;
  }

  /**
   Every round after the first begins with the sine table: the task has cleared
   the flag of stream 2 since the last calculation, and after every such clearing,
   so after the last one too, the table has ended before the round begins.
   */
  lemma RoundAwaitsWrap(es: seq<Event>, j: nat)
    requires Run(es).Some? && j < |es| && es[j] == EnterS2 && Run(es[..j]).Some?
    ensures forall i: nat | i < j && ClearsAt(es, i) :: exists k :: i < k < j && es[k] == StreamWraps
    ensures var results := Run(es[..j]).value.results;
            results >= 1 ==> exists i: nat :: i < j && ClearsAt(es, i) && Run(es[..i]).value.results == results
  {
    hide Run, Inv, Can, Step, NotLatched;
    forall i: nat | i < j && ClearsAt(es, i)
      ensures exists k :: i < k < j && es[k] == StreamWraps
    {
      if forall k | i < k < j :: es[k] != StreamWraps {
        CalmUntilWrap(es, i, j + 1);
      }
    }
    RunPrefix(es, j);
    RunKeeps(es[..j]);
    NoEntryAtClear(Run(es[..j]).value);
    RunRearms(es[..j]);
    if Run(es[..j]).value.results >= 1 {
      var i: nat :| ClearsAt(es[..j], i) && Run(es[..j][..i]).value.results == Run(es[..j]).value.results;
      assert es[..j][..i] == es[..i];
      assert ClearsAt(es, i);
    }
  }

  /** The timer has not updated since it was armed. */
  predicate TimerQuiet(s: State) {
    !s.uif && !s.tpend
  }

  lemma RollFindsTimer(s: State)
    requires Inv(s) && s.irq5 == InS2(S2Roll) && Can(s, Step5)
    ensures Step(s, Step5).tim5 == Idle && Step(s, Step5).tpend == s.uif && Step(s, Step5).uif == s.uif
  {
    hide Upto, StageInv;
  }

  lemma TimerQuietStays(s: State, e: Event)
    requires TimerQuiet(s) && Can(s, e) && e != TimerUpdates
    ensures TimerQuiet(Step(s, e)) && e != EnterTim
  {
    assert e != EnterTim;
    hide Can, Step;
    if e == StreamWraps || e == TimerUpdates {
      UpdatesStaySeparate(s, e);
    } else {
      OnlyUpdatesRaise(s, e);
    }
  }

  lemma {:induction false} QuietUntilUpdate(es: seq<Event>, i: nat, j: nat)
    requires Run(es).Some? && i < j <= |es| && RollsAt(es, i) && !Run(es[..i]).value.uif
    requires forall k | i < k < j :: es[k] != TimerUpdates
    ensures Run(es[..j]).Some? && TimerQuiet(Run(es[..j]).value) && forall k | i < k < j :: es[k] != EnterTim
    decreases j
  {
    hide Run, Inv, Can, Step, NotLatched, TimerQuiet;
    RunPrefix(es, j);
    RunPrefix(es, j - 1);
    if j == i + 1 {
      RunKeeps(es[..i]);
      RollFindsTimer(Run(es[..i]).value);
      assert TimerQuiet(Run(es[..j]).value) by {
        assert Run(es[..j]).value == Step(Run(es[..i]).value, Step5);
        RollIsQuiet(Run(es[..i]).value);
      }
    } else {
      QuietUntilUpdate(es, i, j - 1);
      TimerQuietStays(Run(es[..j - 1]).value, es[j - 1]);
    }
  }

  lemma RollIsQuiet(s: State)
    requires Inv(s) && s.irq5 == InS2(S2Roll) && Can(s, Step5) && !s.uif
    ensures TimerQuiet(Step(s, Step5))
  {
    hide Inv, Step;
    RollFindsTimer(s);
  }

  /**
   The start of the ADCs is not tied to the sine table in the same way: nothing
   clears the timer's flag when it is armed. A timer update lies between the
   arming and the start in every run, if and only if the flag was down.
   */
  lemma StartAwaitsUpdate(es: seq<Event>, i: nat)
    requires Run(es).Some? && RollsAt(es, i)
    ensures !Run(es[..i]).value.uif ==>
              forall j | i < j < |es| && es[j] == EnterTim :: exists k :: i < k < j && es[k] == TimerUpdates
    ensures Run(es[..i]).value.uif ==> Run(es[..i + 1] + [EnterTim]).Some?
  {
    hide Run, Inv, Can, Step, NotLatched;
    RunPrefix(es, i);
    if Run(es[..i]).value.uif {
      RunKeeps(es[..i]);
      var s := Run(es[..i]).value;
      RollFindsTimer(s);
      TimerMayEnter(Step(s, Step5));
      RunExtends(es[..i + 1], EnterTim);
    } else {
      forall j | i < j < |es| && es[j] == EnterTim
        ensures exists k :: i < k < j && es[k] == TimerUpdates
      {
        if forall k | i < k < j :: es[k] != TimerUpdates {
          QuietUntilUpdate(es, i, j + 1);
        }
      }
    }
  }

  lemma TimerMayEnter(s: State)
    requires s.tim5 == Idle && s.tpend
    ensures Can(s, EnterTim) && NotLatched(s, EnterTim)
  {
  }

  // ------------------------------------------------------------------ progress

  /** An event that brings the next calculation closer. */
  function Next(s: State): Event {
    if s.tim5 != Idle then StepTim
    else if s.tpend then EnterTim
    else if s.uie then TimerUpdates
    else if s.irq5 != Free then Step5
    else if s.v.pend then EnterAdc(V)
    else if s.i.pend then EnterAdc(I)
    else if s.s2pend then EnterS2
    else if !s.armed then MainArms
    else if s.v.spi then Transfer(V)
    else if s.i.spi then Transfer(I)
    else if s.s2ie then StreamWraps
    else StepTask
  }

  function StepsOfAdc(a: Adc, g: Stage): (n: nat)
    ensures n <= 400
  {
    match g
    case Waiting => 400
    case Flushing => 400
    case Starting => 400
    case Running => if a.got < SAMPLES then 20 + SAMPLES - a.got else 20
    case Complete => 10
    case Serving(pc) => StepsOfHandler(pc)
    case Ready => 2
    case Taken => 0
  }

  function StepsOfHandler(pc: AdcPc): nat {
    match pc
    case ClearFlag => 8
    case SpiOff => 7
    case Reload => 6
    case SetPointer => 5
    case Give => 4
    case AdcReturn => 3
  }

  function StepsOfTimer(t: Tim5): nat {
    match t
    case EnableDma(c) => if c == V then 7 else 4
    case Flush(c) => if c == V then 6 else 3
    case EnableSpi(c) => if c == V then 5 else 2
    case TimReturn => 1
    case _ => 0
  }

  function StepsOfTask(t: Task): nat {
    match t
    case TakeV => 0
    case TakeI => 0
    case CopyV(n) => if n < SAMPLES then 1 + 2 * SAMPLES - n else 1
    case CopyI(n) => if n < SAMPLES then 1 + SAMPLES - n else 1
    case Compute => 0
    case ClearTc => 9002
    case EnableTc => 9001
  }

  function StepsOfAcquisition(s: State): nat {
    1000 + StepsOfTimer(s.tim5) + StepsOfAdc(s.v, StageOf(s, V)) + StepsOfAdc(s.i, StageOf(s, I))
    + (if s.irq5 == InS2(S2Disable) then 2 else if s.irq5 == InS2(S2Return) then 1 else 0)
  }

  /** How far the next calculation is, at most. */
  function Rank(s: State): nat {
    if TaskHolds(s) then StepsOfTask(s.task)
    else if !s.armed then 9000
    else if StreamHolds(s) then
      if s.irq5 == InS2(S2Roll) then 8001 else if s.irq5 == InS2(S2Clear) then 8002 else if s.s2pend then 8003 else 8004
    else if s.uie then
      if s.tim5 == TimDisable then 7001 else if s.tim5 == TimClear then 7002 else if s.tpend then 7003 else 7004
    else StepsOfAcquisition(s)
  }

  predicate Closer(s: State, e: Event) {
    && Can(s, e) && Quiet(s, e) && e != TakesLeftover(V) && e != TakesLeftover(I)
    && (Step(s, e).results == s.results + 1 || (Step(s, e).results == s.results && Rank(Step(s, e)) < Rank(s)))
  }

  lemma AdvancesToTimer(s: State)
    requires BootInv(s) || StreamInv(s) || TimerInv(s)
    ensures Closer(s, Next(s))
  {
    hide Upto, StepsOfAdc, StageOf, StageFrom;
  }

  lemma AdvancesInTask(s: State)
    requires Inv(s) && TaskInv(s)
    ensures Closer(s, Next(s))
  {
    hide StepsOfAcquisition;
  }

  lemma AdvancesDma(s: State, c: Channel)
    requires Inv(s) && AcquisitionInv(s) && s.tim5 == EnableDma(c)
    ensures Closer(s, Next(s))
  {
    hide Upto;
  }

  lemma AdvancesFlush(s: State, c: Channel)
    requires Inv(s) && AcquisitionInv(s) && s.tim5 == Flush(c)
    ensures Closer(s, Next(s))
  {
    hide Upto;
  }

  lemma AdvancesSpi(s: State, c: Channel)
    requires Inv(s) && AcquisitionInv(s) && s.tim5 == EnableSpi(c)
    ensures Closer(s, Next(s))
  {
    hide Upto;
  }

  lemma AdvancesReturn(s: State)
    requires Inv(s) && AcquisitionInv(s) && s.tim5 == TimReturn
    ensures Closer(s, Next(s))
  {
    hide Upto;
  }

  lemma AdvancesTrigger(s: State)
    requires Inv(s) && AcquisitionInv(s) && s.tim5 != Idle
    ensures Closer(s, Next(s))
  {
    hide Inv, Closer, Next, StageInv, StageOf;
    match s.tim5 {
      case EnableDma(c) => AdvancesDma(s, c);
      case Flush(c) => AdvancesFlush(s, c);
      case EnableSpi(c) => AdvancesSpi(s, c);
      case TimReturn => AdvancesReturn(s);
      case _ =>
    }
  }

  lemma AdvancesInStreamHandler(s: State)
    requires Inv(s) && AcquisitionInv(s) && s.tim5 == Idle && s.irq5.InS2?
    ensures Closer(s, Next(s))
  {
    hide Upto;
  }

  lemma AdvancesInAdcHandler(s: State, c: Channel)
    requires Inv(s) && AcquisitionInv(s) && s.tim5 == Idle && s.irq5.InAdc? && s.irq5.channel == c
    ensures Closer(s, Next(s))
  {
    hide BootInv, StreamInv, TimerInv, TaskInv, Progress, NotServed, Inv;
    hide Upto, AdcInv, Resting, Delivered, StageFrom, Served, StepAdc, Set;
    ServingStage(s, c);
    ServedKeeps(Get(s, c), s.irq5.pc, c, s.ticks);
    ServedState(s, c);
    ServedStage(Get(s, c), s.irq5.pc, s.tim5, s.task, c);
    OtherStage(Get(s, Other(c)), s.irq5.pc, s.tim5, s.task, c);
  }

  lemma AdvancesToHandler(s: State)
    requires Inv(s) && AcquisitionInv(s) && ThreadMode(s)
    requires s.v.pend || s.i.pend
    ensures Closer(s, Next(s))
  {
    hide Upto;
  }

  lemma AdvancesTransfer(s: State)
    requires Inv(s) && AcquisitionInv(s) && ThreadMode(s)
    requires !s.v.pend && !s.i.pend && (s.v.spi || s.i.spi)
    ensures Closer(s, Next(s))
  {
  }

  lemma AdvancesTake(s: State)
    requires Inv(s) && AcquisitionInv(s) && ThreadMode(s)
    requires !s.v.pend && !s.i.pend && !s.v.spi && !s.i.spi
    ensures Closer(s, Next(s))
  {
    hide Upto;
  }

  lemma Advances(s: State)
    requires Inv(s)
    ensures Closer(s, Next(s))
  {
    hide BootInv, StreamInv, TimerInv, TaskInv, AcquisitionInv, Closer, Next;
    if BootInv(s) || StreamInv(s) || TimerInv(s) {
      AdvancesToTimer(s);
    } else if TaskInv(s) {
      AdvancesInTask(s);
    } else if s.tim5 != Idle {
      AdvancesTrigger(s);
    } else if s.irq5.InS2? {
      AdvancesInStreamHandler(s);
    } else if s.irq5.InAdc? {
      AdvancesInAdcHandler(s, s.irq5.channel);
    } else if s.v.pend || s.i.pend {
      AdvancesToHandler(s);
    } else if s.v.spi || s.i.spi {
      AdvancesTransfer(s);
    } else {
      AdvancesTake(s);
    }
  }

  lemma RunExtends(es: seq<Event>, e: Event)
    requires Run(es).Some? && Can(Run(es).value, e) && NotLatched(Run(es).value, e)
    ensures Run(es + [e]) == Some(Step(Run(es).value, e))
  {
    hide Can, Step;
    assert (es + [e])[..|es|] == es;
  }

  /** The protocol never comes to a halt: every run goes on to one more calculation. */
  lemma {:induction false} NeverStuck(es: seq<Event>) returns (more: seq<Event>)
    requires Run(es).Some?
    ensures Run(es + more).Some? && Run(es + more).value.results == Run(es).value.results + 1
    decreases Rank(Run(es).value)
  {
    hide Run, Inv, Next, Step, Rank, Can, NotLatched;
    RunKeeps(es);
    var s := Run(es).value;
    Advances(s);
    var e := Next(s);
    RunExtends(es, e);
    if Step(s, e).results == s.results + 1 {
      more := [e];
    } else {
      var rest := NeverStuck(es + [e]);
      more := [e] + rest;
      assert es + [e] + rest == es + more;
    }
  }

  // --------------------------------------------------- why the windows matter

  /** The state after these events, if each of them is possible and quiet. */
  function Follow(s: State, es: seq<Event>): Option<State>
    decreases |es|
  {
    if es == [] then Some(s)
    else if Can(s, es[0]) && Quiet(s, es[0]) then Follow(Step(s, es[0]), es[1..])
    else None
  }

  lemma {:induction false} FollowConcat(s: State, a: seq<Event>, b: seq<Event>)
    requires Follow(s, a).Some?
    ensures Follow(s, a + b) == Follow(Follow(s, a).value, b)
    decreases |a|
  {
    hide Can, Step, Quiet;
    if a == [] {
      assert a + b == b;
    } else {
      assert (a + b)[1..] == a[1..] + b;
      FollowConcat(Step(s, a[0]), a[1..], b);
    }
  }

  /** A quiet run leads from one state to the other. */
  ghost predicate Leads(s: State, t: State) {
    exists es :: Follow(s, es) == Some(t)
  }

  lemma LeadsNowhere(s: State)
    ensures Leads(s, s)
  {
    hide Can, Step, Quiet;
    assert Follow(s, []) == Some(s);
  }

  lemma LeadsByOne(s: State, e: Event)
    requires Can(s, e) && Quiet(s, e)
    ensures Leads(s, Step(s, e))
  {
    hide Can, Step, Quiet;
    assert [e][1..] == [];
    assert Follow(Step(s, e), []) == Some(Step(s, e));
    assert Follow(s, [e]) == Some(Step(s, e));
  }

  lemma LeadsOn(s: State, t: State, u: State)
    requires Leads(s, t) && Leads(t, u)
    ensures Leads(s, u)
  {
    hide Follow;
    var a :| Follow(s, a) == Some(t);
    var b :| Follow(t, b) == Some(u);
    FollowConcat(s, a, b);
    assert Follow(s, a + b) == Some(u);
  }

  /** The handler of TIM5 is at work, and further than to the first ADC only if that one is started. */
  predicate TimRuns(s: State) {
    && s.tim5 != Idle
    && (s.tim5 != TimClear && s.tim5 != TimDisable ==> !s.uie)
    && (s.tim5 == EnableDma(I) || s.tim5 == Flush(I) || s.tim5 == EnableSpi(I) || s.tim5 == TimReturn ==> s.v.spi)
  }

  /** It has started both ADCs and is left. */
  predicate TimRan(s: State) {
    s.tim5 == Idle && !s.uie && s.v.spi
  }

  predicate SameStream(s: State, t: State) {
    t.irq5 == s.irq5 && t.s2flag == s.s2flag && t.s2ie == s.s2ie && t.s2pend == s.s2pend && t.tpend == s.tpend
  }

  lemma TimRunsOn(s: State)
    requires TimRuns(s)
    ensures Can(s, StepTim) && Quiet(s, StepTim)
    ensures var t := Step(s, StepTim);
            (TimRuns(t) || TimRan(t)) && SameStream(s, t) && StepsOfHandler5(t.tim5) < StepsOfHandler5(s.tim5)
  {
    assert s.tim5 != Idle;
    hide StepTrigger, TimRuns, TimRan, SameStream;
    match s.tim5 {
      case EnableDma(c) => TimTriggers(s, c);
      case Flush(c) => TimTriggers(s, c);
      case EnableSpi(c) => TimTriggers(s, c);
      case TimReturn => TimReturns(s);
      case _ => TimDisarms(s);
    }
  }

  lemma TimTriggers(s: State, c: Channel)
    requires TimRuns(s) && (s.tim5 == EnableDma(c) || s.tim5 == Flush(c) || s.tim5 == EnableSpi(c))
    ensures TimRuns(StepTrigger(s, c)) && SameStream(s, StepTrigger(s, c))
    ensures StepsOfHandler5(StepTrigger(s, c).tim5) < StepsOfHandler5(s.tim5)
  {
    TriggerState(s, c);
    assert Get(StepTrigger(s, c), V) == StepTrigger(s, c).v && Get(s, V) == s.v;
    hide StepTrigger, Get;
  }

  lemma TimDisarms(s: State)
    requires TimRuns(s) && (s.tim5 == TimClear || s.tim5 == TimDisable)
    ensures TimRuns(StepTim5(s)) && SameStream(s, StepTim5(s))
    ensures StepsOfHandler5(StepTim5(s).tim5) < StepsOfHandler5(s.tim5)
  {
    hide StepTrigger;
  }

  lemma TimReturns(s: State)
    requires TimRuns(s) && s.tim5 == TimReturn
    ensures TimRan(StepTim5(s)) && SameStream(s, StepTim5(s))
    ensures StepsOfHandler5(StepTim5(s).tim5) < StepsOfHandler5(s.tim5)
  {
    hide StepTrigger;
  }

  function StepsOfHandler5(t: Tim5): nat {
    match t
    case TimClear => 9
    case TimDisable => 8
    case _ => StepsOfTimer(t)
  }

  lemma {:induction false} TimFinishes(s: State) returns (t: State)
    requires TimRuns(s)
    ensures Leads(s, t) && TimRan(t) && SameStream(s, t)
    decreases StepsOfHandler5(s.tim5)
  {
    hide Can, Step, Quiet, Leads, TimRuns, TimRan;
    TimRunsOn(s);
    t := Step(s, StepTim);
    LeadsByOne(s, StepTim);
    if !TimRan(t) {
      var u := TimFinishes(t);
      LeadsOn(s, t, u);
      t := u;
    }
  }

  /** A latched update is served: the handler comes to the start of the first ADC. */
  lemma TimerFires(s: State) returns (t: State)
    requires s.tim5 == Idle && s.tpend
    ensures Leads(s, t)
    ensures t == s.(tpend := false, uif := false, uie := false, tim5 := EnableDma(V), ticks := s.ticks + 1)
  {
    hide Leads;
    var s1 := s.(tpend := false, tim5 := TimClear, ticks := s.ticks + 1);
    var s2 := s1.(uif := false, tim5 := TimDisable);
    t := s2.(uie := false, tim5 := EnableDma(V));
    LeadsByOne(s, EnterTim);
    LeadsByOne(s1, StepTim);
    LeadsByOne(s2, StepTim);
    LeadsOn(s, s1, s2);
    LeadsOn(s, s2, t);
  }

  /** The handler starts an ADC that does not rest. */
  ghost predicate TriggersBusy(s: State) {
    exists c :: s.tim5 == EnableDma(c) && !Rests(s, c)
  }

  /** A calculation is made with something else than the two waveforms of its round. */
  predicate CalculatesWrong(s: State) {
    s.task == Compute && (s.wv != Waveform(V, s.ticks) || s.wi != Waveform(I, s.ticks))
  }

  ghost predicate Broken(s: State) {
    TriggersBusy(s) || CalculatesWrong(s)
  }

  lemma BusyIsBroken(s: State)
    requires s.tim5 == EnableDma(V) && s.v.spi
    ensures Broken(s)
  {
    assert !Rests(s, V);
  }

  /** Whenever the timer updates inside its window, its handler can run twice and start an ADC that runs. */
  lemma TimerWindowBreaks(s: State) returns (t: State)
    requires Inv(s) && s.tim5 == TimDisable
    ensures Leads(Step(s, TimerUpdates), t) && Broken(t)
  {
    hide Inv, Leads, Broken;
    TimerWindowIsArmed(s);
    var s1 := s.(uif := true, tpend := true);
    var s2 := TimFinishes(s1);
    t := TimerFires(s2);
    LeadsOn(s1, s2, t);
    BusyIsBroken(t);
  }

  lemma TimerWindowIsArmed(s: State)
    requires Inv(s) && s.tim5 == TimDisable
    ensures s.uie && !s.uif && !s.tpend
  {
    hide Upto;
  }

  // A second transfer-complete event after the Stream2 handler has cleared its flag.

  /** Latched once more and the first round started: the handler rolls again, and the second round starts on top. */
  lemma SecondRoundStarts(s: State) returns (t: State)
    requires ThreadMode(s) && s.s2pend && !s.s2ie && !s.uie && s.v.spi
    ensures Leads(s, t) && Broken(t)
  {
    hide Leads, Broken;
    var s1 := s.(s2pend := false, irq5 := InS2(S2Clear));
    var s2 := s1.(s2flag := false, irq5 := InS2(S2Roll));
    var s3 := s2.(uie := true, tpend := s.tpend || s.uif, irq5 := InS2(S2Disable));
    LeadsByOne(s, EnterS2);
    LeadsByOne(s1, Step5);
    LeadsByOne(s2, Step5);
    LeadsOn(s, s1, s2);
    LeadsOn(s, s2, s3);
    t := ArmedTimerFires(s3);
    LeadsOn(s, s3, t);
    BusyIsBroken(t);
  }

  lemma ArmedTimerFires(s: State) returns (t: State)
    requires s.tim5 == Idle && s.uie && (s.uif ==> s.tpend)
    ensures Leads(s, t)
    ensures t == s.(tpend := false, uif := false, uie := false, tim5 := EnableDma(V), ticks := s.ticks + 1)
  {
    hide Leads;
    var s1 := s.(uif := true, tpend := true);
    LeadsByOne(s, TimerUpdates);
    t := TimerFires(s1);
    LeadsOn(s, s1, t);
  }

  /** Latched once more while the timer is armed: both rounds start. */
  lemma BothRoundsStart(s: State) returns (t: State)
    requires ThreadMode(s) && s.s2pend && !s.s2ie && s.uie && (s.uif ==> s.tpend)
    ensures Leads(s, t) && Broken(t)
  {
    hide Leads, Broken;
    var s1 := ArmedTimerFires(s);
    var s2 := TimFinishes(s1);
    t := SecondRoundStarts(s2);
    LeadsOn(s, s1, s2);
    LeadsOn(s, s2, t);
  }

  /** The rest of the Stream2 handler, with its interrupt latched once more. */
  lemma StreamReturns(s: State) returns (t: State)
    requires s.tim5 == Idle && s.irq5 == InS2(S2Disable) && s.s2pend
    ensures Leads(s, t) && t == s.(s2ie := false, irq5 := Free)
  {
    hide Leads;
    var s1 := s.(s2ie := false, irq5 := InS2(S2Return));
    t := s1.(irq5 := Free);
    LeadsByOne(s, Step5);
    LeadsByOne(s1, Step5);
    LeadsOn(s, s1, t);
  }

  /** Whenever stream 2 completes between its flag being cleared and the roll callback, that follows. */
  lemma RollWindowBreaks(s: State) returns (t: State)
    requires Inv(s) && s.irq5 == InS2(S2Roll)
    ensures Leads(Step(s, StreamWraps), t) && Broken(t)
  {
    hide Inv, Leads, Broken;
    RollWindowState(s);
    var s1 := s.(s2flag := true, s2pend := true);
    var s2 := s1.(uie := true, tpend := s.tpend || s.uif, irq5 := InS2(S2Disable));
    LeadsByOne(s1, Step5);
    var s3 := StreamReturns(s2);
    t := BothRoundsStart(s3);
    LeadsOn(s1, s2, s3);
    LeadsOn(s1, s3, t);
  }

  lemma RollWindowState(s: State)
    requires Inv(s) && s.irq5 == InS2(S2Roll)
    ensures s.tim5 == Idle && s.s2ie && !s.s2flag && !s.uie && !s.tpend
  {
    hide Upto;
  }

  /**
   The same between the roll callback and the disabling of its interrupt,
   whether the timer has not fired yet, its handler is at work, or it is done.
   */
  lemma DisableWindowBreaks(s: State) returns (t: State)
    requires Inv(s) && s.irq5 == InS2(S2Disable)
    ensures Leads(Step(s, StreamWraps), t) && Broken(t)
  {
    hide Inv, Leads, Broken, TimRuns;
    DisableWindowState(s);
    var s1 := s.(s2flag := true, s2pend := true);
    var s2 := s1;
    LeadsNowhere(s1);
    if s.tim5 != Idle {
      s2 := TimFinishes(s1);
    }
    var s3 := StreamReturns(s2);
    if s3.uie {
      t := BothRoundsStart(s3);
    } else {
      t := SecondRoundStarts(s3);
    }
    LeadsOn(s1, s2, s3);
    LeadsOn(s1, s3, t);
  }

  lemma DisableWindowState(s: State)
    requires Inv(s) && s.irq5 == InS2(S2Disable)
    ensures s.s2ie && !s.s2flag
    ensures s.tim5 != Idle ==> TimRuns(s.(s2flag := true, s2pend := true))
    ensures s.tim5 == Idle && s.uie && s.uif ==> s.tpend
    ensures s.tim5 == Idle && !s.uie ==> s.v.spi
  {
    hide Upto;
  }

  // A sample after the last one of a round.

  /** The DMA of channel `c` has still to be enabled and its data register emptied before the next calculation. */
  predicate FlushAhead(s: State, c: Channel) {
    || s.results == s.ticks
    || s.tim5 == TimClear || s.tim5 == TimDisable || s.tim5 == EnableDma(V) || s.tim5 == Flush(c)
    || (c == I && (s.tim5 == Flush(V) || s.tim5 == EnableSpi(V) || s.tim5 == EnableDma(I)))
  }

  /** The timer handler and the two counts. */
  datatype Counts = Counts(tim5: Tim5, ticks: nat, results: nat)

  function CountsOf(s: State): Counts {
    Counts(s.tim5, s.ticks, s.results)
  }

  lemma AdcKeepsCounts(s: State, c: Channel, a: Adc)
    ensures CountsOf(Set(s, c, a)) == CountsOf(s)
  {
  }

  lemma StreamKeepsCounts(s: State, pc: S2Pc)
    ensures CountsOf(StepS2(s, pc)) == CountsOf(s)
  {
  }

  lemma TimerCounts(s: State)
    ensures CountsOf(StepTim5(s)) == CountsOf(s).(tim5 := AfterStep(s.tim5))
  {
    hide Set;
    match s.tim5 {
      case EnableDma(c) => AdcKeepsCounts(s, c, Triggered(Get(s, c), s.tim5));
      case Flush(c) => AdcKeepsCounts(s, c, Triggered(Get(s, c), s.tim5));
      case EnableSpi(c) => AdcKeepsCounts(s, c, Triggered(Get(s, c), s.tim5));
      case _ =>
    }
  }

  lemma TaskCounts(s: State)
    requires Can(s, StepTask)
    ensures CountsOf(StepCalc(s)) == CountsOf(s).(results := s.results + One(s.task == Compute))
  {
  }

  function AfterStep(t: Tim5): Tim5 {
    match t
    case Idle => Idle
    case TimClear => TimDisable
    case TimDisable => EnableDma(V)
    case TimReturn => Idle
    case _ => AfterTrigger(t)
  }

  /** Where the timer handler and the two counts go on an event. */
  function CountsAfter(s: State, e: Event): Counts {
    var counts := CountsOf(s);
    match e
    case EnterTim => counts.(tim5 := TimClear, ticks := s.ticks + 1)
    case StepTim => counts.(tim5 := AfterStep(s.tim5))
    case StepTask => counts.(results := s.results + One(s.task == Compute))
    case _ => counts
  }

  lemma CountsGoOn(s: State, e: Event)
    requires Can(s, e)
    ensures CountsOf(Step(s, e)) == CountsAfter(s, e)
  {
    assert e == Step5 ==> s.irq5 != Free;
    hide StepTim5, StepCalc, StepS2, Set, Served, Moved, AfterStep;
    match e {
      case StepTim => TimerCounts(s);
      case StepTask => TaskCounts(s);
      case Step5 =>
        if s.irq5.InS2? {
          StreamKeepsCounts(s, s.irq5.s2);
        } else if s.irq5.InAdc? {
          AdcKeepsCounts(s, s.irq5.channel, Served(Get(s, s.irq5.channel), s.irq5.pc));
        }
      case Transfer(c) => AdcKeepsCounts(s, c, Moved(Get(s, c), Sample(c, s.ticks, Get(s, c).got)));
      case Late(c) => AdcKeepsCounts(s, c, Get(s, c).(late := true));
      case TakesLeftover(c) =>
        AdcKeepsCounts(s, c, Moved(Get(s, c), Leftover(c)).(late := false, spoilt := true));
      case EnterAdc(c) => AdcKeepsCounts(s, c, Get(s, c).(pend := false));
      case _ =>
    }
  }

  lemma HolderCounts(s: State)
    requires Inv(s)
    ensures Triggering(s) || s.tim5 == TimReturn ==> s.results + 1 == s.ticks
    ensures s.task == Compute ==> s.tim5 == Idle && s.results + 1 == s.ticks
    ensures s.tim5 == Idle && s.results != s.ticks ==> !s.tpend && !s.uie
    ensures s.tim5 != Idle ==> s.results != s.ticks
  {
    hide Upto;
  }

  lemma NextIsTimers(s: State)
    ensures s.tim5 != Idle <==> Next(s) == StepTim
    ensures Next(s) == EnterTim ==> s.tpend
  {
  }

  lemma AheadStays(s: State, c: Channel)
    requires Inv(s) && FlushAhead(s, c) && s.tim5 != Flush(c) && Can(s, Next(s))
    ensures FlushAhead(Step(s, Next(s)), c) && Step(s, Next(s)).results == s.results
  {
    HolderCounts(s);
    NextIsTimers(s);
    CountsGoOn(s, Next(s));
    hide Inv, Can, Step, Next;
    assert CountsOf(Step(s, Next(s))) == CountsAfter(s, Next(s));
  }

  lemma PastStays(s: State, c: Channel)
    requires Inv(s) && !FlushAhead(s, c) && s.task != Compute && Can(s, Next(s))
    ensures !FlushAhead(Step(s, Next(s)), c) && Step(s, Next(s)).results == s.results
  {
    HolderCounts(s);
    NextIsTimers(s);
    CountsGoOn(s, Next(s));
    hide Inv, Can, Step, Next;
    assert CountsOf(Step(s, Next(s))) == CountsAfter(s, Next(s));
  }

  lemma LateStays(s: State, e: Event, c: Channel)
    requires Get(s, c).late && Can(s, e) && Quiet(s, e) && e != TakesLeftover(c) && s.tim5 != Flush(c)
    ensures Get(Step(s, e), c).late
  {
    if e == StepTim && s.tim5 == EnableDma(c) {
      TriggerState(s, c);
      hide StepTrigger, Get;
    } else {
      RegisterStays(s, e, c);
      hide Can, Step, Get;
    }
  }

  lemma CalculationIsPast(s: State, c: Channel)
    requires Inv(s) && Can(s, Next(s)) && Step(s, Next(s)).results == s.results + 1
    ensures FlushAhead(Step(s, Next(s)), c)
  {
    HolderCounts(s);
    NextIsTimers(s);
    CountsGoOn(s, Next(s));
    hide Inv, Can, Step, Next;
    assert CountsOf(Step(s, Next(s))) == CountsAfter(s, Next(s));
  }

  /** A late sample waits in its register until the handler comes to empty it, one round later at most. */
  lemma {:induction false} ToFlush(s: State, c: Channel, rounds: nat) returns (t: State)
    requires Inv(s) && Get(s, c).late && (rounds == 0 ==> FlushAhead(s, c))
    ensures Leads(s, t) && Inv(t) && t.tim5 == Flush(c) && Get(t, c).late
    decreases rounds, Rank(s)
  {
    hide Inv, Can, Step, Next, NotLatched, Leads, FlushAhead, Get, Rank;
    if s.tim5 == Flush(c) {
      LeadsNowhere(s);
      t := s;
    } else {
      Advances(s);
      var e := Next(s);
      var s1 := Step(s, e);
      StepKeeps(s, e);
      LateStays(s, e, c);
      LeadsByOne(s, e);
      if FlushAhead(s, c) {
        AheadStays(s, c);
      }
      if s1.results == s.results {
        t := ToFlush(s1, c, rounds);
      } else {
        CalculationIsPast(s, c);
        t := ToFlush(s1, c, 0);
      }
      LeadsOn(s, s1, t);
    }
  }

  /** A spoilt round comes to its calculation. */
  lemma {:induction false} ToCompute(s: State, c: Channel) returns (t: State)
    requires Inv(s) && Get(s, c).spoilt && !FlushAhead(s, c)
    ensures Leads(s, t) && Inv(t) && t.task == Compute && Get(t, c).spoilt
    decreases Rank(s)
  {
    if s.task == Compute {
      LeadsNowhere(s);
      t := s;
    } else {
      assert s.tim5 != EnableDma(c) && s.tim5 != Flush(c);
      hide Inv, Can, Step, Next, NotLatched, Leads, FlushAhead, Get, Rank;
      Advances(s);
      var e := Next(s);
      var s1 := Step(s, e);
      StepKeeps(s, e);
      RegisterStays(s, e, c);
      PastStays(s, c);
      LeadsByOne(s, e);
      t := ToCompute(s1, c);
      LeadsOn(s, s1, t);
    }
  }

  lemma LeftoverIsTaken(s: State, c: Channel)
    requires Inv(s) && s.tim5 == Flush(c) && Get(s, c).late
    ensures Can(s, TakesLeftover(c)) && Step(s, TakesLeftover(c)).tim5 == Flush(c)
    ensures Get(Step(s, TakesLeftover(c)), c).spoilt
  {
    hide Moved;
  }

  lemma FlushIsPassed(s: State, c: Channel)
    requires Inv(s) && s.tim5 == Flush(c) && Get(s, c).spoilt
    ensures Can(s, StepTim) && !FlushAhead(Step(s, StepTim), c) && Get(Step(s, StepTim), c).spoilt
  {
    HolderCounts(s);
    CountsGoOn(s, StepTim);
    TriggerState(s, c);
    hide Inv, Get, StepTrigger;
    assert CountsOf(Step(s, StepTim)) == CountsAfter(s, StepTim);
  }

  lemma SpoiltIsBroken(s: State, c: Channel)
    requires Inv(s) && s.task == Compute && Get(s, c).spoilt
    ensures Broken(s)
  {
    ComputeFindsPair(s);
    hide Inv, Waveform;
  }

  /** Whenever a sample comes late, a later calculation can be made with it. */
  lemma LateSampleBreaks(s: State, c: Channel) returns (t: State)
    requires Inv(s) && Can(s, Late(c))
    ensures Leads(Step(s, Late(c)), t) && Broken(t)
  {
    var s1 := Step(s, Late(c));
    assert Get(s1, c).late;
    hide Inv, Can, Step, Leads, Broken, FlushAhead, Get;
    StepKeeps(s, Late(c));
    var s2 := ToFlush(s1, c, 1);
    LeftoverIsTaken(s2, c);
    StepKeeps(s2, TakesLeftover(c));
    LeadsByOne(s2, TakesLeftover(c));
    var s3 := Step(s2, TakesLeftover(c));
    FlushIsPassed(s3, c);
    StepKeeps(s3, StepTim);
    LeadsByOne(s3, StepTim);
    var s4 := Step(s3, StepTim);
    t := ToCompute(s4, c);
    LeadsOn(s1, s2, s3);
    LeadsOn(s1, s3, s4);
    LeadsOn(s1, s4, t);
    SpoiltIsBroken(t, c);
  }

  // ------------------------------------------------------------ the exact windows

  lemma {:induction false} FollowKeeps(s: State, es: seq<Event>)
    requires Inv(s) && Clean(s) && Follow(s, es).Some?
    ensures Inv(Follow(s, es).value) && Clean(Follow(s, es).value)
    decreases |es|
  {
    hide Inv, Clean, Can, Step, NotLatched;
    if es != [] {
      StepKeeps(s, es[0]);
      CleanStays(s, es[0]);
      FollowKeeps(Step(s, es[0]), es[1..]);
    }
  }

  lemma NotBroken(s: State)
    requires Inv(s) && Clean(s)
    ensures !Broken(s)
  {
    forall c | s.tim5 == EnableDma(c)
      ensures Rests(s, c)
    {
      TriggerFindsRest(s, c);
    }
    if s.task == Compute {
      ComputeFindsPair(s);
    }
    hide Inv, Waveform, Rests;
  }

  /**
   The windows are exact. From any state that a run without late samples
   reaches, and for any event possible there: a quiet continuation that starts a
   busy ADC or calculates with wrong samples exists if and only if the event is
   not quiet.
   */
  lemma QuietIsExact(es: seq<Event>, e: Event)
    requires Run(es).Some? && NoneLate(es) && Can(Run(es).value, e)
    ensures (exists t :: Leads(Step(Run(es).value, e), t) && Broken(t)) <==> !Quiet(Run(es).value, e)
  {
    hide Run, Inv, Clean, Can, Step, Follow, Broken;
    RunKeeps(es);
    var s := Run(es).value;
    if Quiet(s, e) {
      StepKeeps(s, e);
      CleanStays(s, e);
      forall t | Leads(Step(s, e), t)
        ensures !Broken(t)
      {
        var more :| Follow(Step(s, e), more) == Some(t);
        FollowKeeps(Step(s, e), more);
        NotBroken(t);
      }
    } else if e.Late? {
      var t := LateSampleBreaks(s, e.channel);
    } else if e == TimerUpdates {
      var t := TimerWindowBreaks(s);
    } else if s.irq5 == InS2(S2Roll) {
      var t := RollWindowBreaks(s);
    } else {
      var t := DisableWindowBreaks(s);
    }
  }
}
