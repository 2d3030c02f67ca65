/**
 The SystemView recorder on the target: the sender of packets, the command
 handler it calls, and the functions that record events. Every object keeps a
 ghost log of the machine steps it went through, and `Valid` says that its
 fields are what the machine makes of that log.
 */
module SysViewRecorder {
  import opened Words
  import opened RttRing
  import opened RttBuffer
  import opened SysViewCodec
  import opened SysViewEncoder
  import opened SysViewMachine

  /** A machine step and the nesting level (`RecursionCnt`) at which it was made. */
  datatype Entry = Entry(step: Step, level: nat)

  function Steps(log: seq<Entry>): seq<Step> {
    seq(|log|, k requires 0 <= k < |log| => log[k].step)
  }

  /** The messages handed to the sender at one nesting level, in order. */
  function MessagesAt(log: seq<Entry>, level: nat): seq<Message>
    decreases |log|
  {
    if log == [] then []
    else
      var n := |log| - 1;
      MessagesAt(log[..n], level)
      + if log[n].step.Send? && log[n].level == level then [log[n].step.msg] else []
  }

  lemma StepsSnoc(log: seq<Entry>, e: Entry)
    ensures Steps(log + [e]) == Steps(log) + [e.step]
  {
  }

  lemma MessagesSnoc(log: seq<Entry>, e: Entry, level: nat)
    ensures MessagesAt(log + [e], level)
            == MessagesAt(log, level) + if e.step.Send? && e.level == level then [e.step.msg] else []
  {
    assert (log + [e])[..|log|] == log;
  }

  /** From `k` on the log holds nothing but messages sent while a command was served. */
  predicate SendsFrom(log: seq<Entry>, k: nat) {
    forall i | k <= i < |log| :: log[i].step.Send? && log[i].level == 1
  }

  /**
   Between two points of the log exactly `ms` was handed to the sender at this
   level, in this order. Commands served on the way are one level deeper.
   */
  predicate Passed(before: seq<Entry>, after: seq<Entry>, level: nat, ms: seq<Message>) {
    && before <= after && MessagesAt(after, level) == MessagesAt(before, level) + ms
    && (level == 1 ==> MessagesAt(after, 0) == MessagesAt(before, 0))
  }

  /** And inside a command nothing else was done. */
  predicate Handed(before: seq<Entry>, after: seq<Entry>, level: nat, ms: seq<Message>) {
    Passed(before, after, level, ms) && (level == 1 ==> SendsFrom(after, |before|))
  }

  lemma HandedNothing(log: seq<Entry>, level: nat)
    ensures Handed(log, log, level, [])
  {
  }

  lemma HandedExtends(before: seq<Entry>, after: seq<Entry>, level: nat, ms: seq<Message>)
    requires Passed(before, after, level, ms)
    ensures before <= after
  {
  }

  lemma HandedGrows(before: seq<Entry>, after: seq<Entry>, level: nat, ms: seq<Message>)
    requires Handed(before, after, level, ms)
    ensures before <= after
  {
  }

  lemma HandedTwice(a: seq<Entry>, b: seq<Entry>, c: seq<Entry>, level: nat, ms: seq<Message>, ns: seq<Message>)
    requires Handed(a, b, level, ms) && Handed(b, c, level, ns)
    ensures Handed(a, c, level, ms + ns)
  {
    hide SendsFrom;
    PassedTwice(a, b, c, level, ms, ns);
    if level == 1 {
      SendsTwice(a, b, c);
    }
  }

  lemma SendsTwice(a: seq<Entry>, b: seq<Entry>, c: seq<Entry>)
    requires a <= b <= c && SendsFrom(b, |a|) && SendsFrom(c, |b|)
    ensures SendsFrom(c, |a|)
  {
  }

  lemma HandedPasses(before: seq<Entry>, after: seq<Entry>, level: nat, ms: seq<Message>)
    requires Handed(before, after, level, ms)
    ensures Passed(before, after, level, ms) && (level == 1 ==> SendsFrom(after, |before|))
  {
  }

  lemma PassedTwice(a: seq<Entry>, b: seq<Entry>, c: seq<Entry>, level: nat, ms: seq<Message>, ns: seq<Message>)
    requires Passed(a, b, level, ms) && Passed(b, c, level, ns)
    ensures Passed(a, c, level, ms + ns)
  {
    assert MessagesAt(a, level) + (ms + ns) == (MessagesAt(a, level) + ms) + ns;
  }

  /** Sending one message inside a command is one step. */
  lemma OneSend(before: seq<Entry>, after: seq<Entry>, m: Message)
    requires Handed(before, after, 1, [m])
    ensures |after| == |before| + 1 && after[|before|].step.Send? && after[|before|].level == 1
  {
    ManySends(before, after);
  }

  lemma {:induction false} ManySends(before: seq<Entry>, after: seq<Entry>)
    requires before <= after && SendsFrom(after, |before|)
    ensures |MessagesAt(after, 1)| == |MessagesAt(before, 1)| + |after| - |before|
    decreases |after|
  {
    if |after| > |before| {
      ManySends(before, after[..|after| - 1]);
    } else {
      assert after == before;
    }
  }

  /** The message with these fields: from id 24 on they travel as a payload with a length. */
  function MessageOf(id: nat, fields: seq<Field>): (m: Message)
    ensures Payload(m) == EncodeFields(fields) && m.id == id
  {
    if id < 24 then Standard(id, fields) else Extended(id, EncodeFields(fields))
  }

  /** A message the recorder itself may send: the host can read it, and it is an event. */
  predicate Answerable(m: Message) {
    WellFormed(m) && m.id > 1
  }

  predicate Known(id: nat, fields: seq<Field>) {
    Answerable(MessageOf(id, fields))
  }

  /**
   What is sent while a command is served is answerable; applications may send
   anything. The sync sequence is written when recording is switched on, and then only.
   */
  predicate GoodLog(log: seq<Entry>) {
    forall k | 0 <= k < |log| :: GoodAt(log, k)
  }

  predicate GoodAt(log: seq<Entry>, k: nat)
    requires k < |log|
  {
    && log[k].level <= 1 && (log[k].level == 1 && log[k].step.Send? ==> Answerable(log[k].step.msg))
    && (log[k].step.Sync? ==> k > 0 && log[k - 1].step == SwitchOn)
  }

  lemma GoodSnoc(log: seq<Entry>, e: Entry)
    requires GoodLog(log) && e.level <= 1 && (e.level == 1 && e.step.Send? ==> Answerable(e.step.msg))
    requires e.step.Sync? ==> log != [] && log[|log| - 1].step == SwitchOn
    ensures GoodLog(log + [e])
  {
    forall k: nat | k < |log + [e]|
      ensures GoodAt(log + [e], k)
    {
      if k < |log| {
        assert GoodAt(log, k);
      }
    }
  }

  lemma {:induction false} SentAtLevel(log: seq<Entry>, level: nat, k: nat)
    requires k < |log| && log[k].level == level && log[k].step.Send?
    ensures log[k].step.msg in MessagesAt(log, level)
    decreases |log|
  {
    if k < |log| - 1 {
      SentAtLevel(log[..|log| - 1], level, k);
    }
  }

  /** A log is one of well-formed messages when what the application sent is. */
  lemma LogIsGood(log: seq<Entry>)
    requires GoodLog(log)
    ensures (forall m | m in MessagesAt(log, 0) :: WellFormed(m)) ==> GoodRun(Steps(log))
    ensures (forall m | m in MessagesAt(log, 0) :: m.id > 1) ==> Proper(Steps(log))
  {
    forall k | 0 <= k < |log|
      ensures log[k].step.Send? && log[k].level == 0 ==> log[k].step.msg in MessagesAt(log, 0)
      ensures log[k].step.Send? && log[k].level != 0 ==> Answerable(log[k].step.msg)
    {
      assert GoodAt(log, k);
      if log[k].step.Send? && log[k].level == 0 {
        SentAtLevel(log, 0, k);
      }
    }
  }

  function Nums(paras: seq<u32>): (fs: seq<Field>) {
    seq(|paras|, k requires 0 <= k < |paras| => Num(paras[k]))
  }

  lemma EncodeFieldsSnoc(fs: seq<Field>, f: Field)
    ensures EncodeFields(fs + [f]) == EncodeFields(fs) + EncodeField(f)
  {
    EncodeFieldsConcat(fs, [f]);
    assert [f][1..] == [];
    assert EncodeFields([f]) == EncodeField(f) + [];
  }

  lemma ShortStr(text: seq<byte>)
    requires |text| < 255
    ensures |EncodeStr(text)| == 1 + |text|
  {
  }

  // -------------------------------------------- what the target has to tell

  const MAX_STRING_LEN: nat := 128

  type cstring = s: seq<byte> | 0 in s witness [0]

  datatype TaskInfo = TaskInfo(taskId: u32, name: cstring, prio: u32, stackBase: u32, stackSize: u32)

  /** A registered module; its callback records the descriptions. */
  datatype EventModule = EventModule(name: cstring, eventOffset: u32, descriptions: seq<cstring>)

  /** The configuration, with what the callbacks of application and operating system send. */
  datatype Target = Target(
    sysFreq: u32, cpuFreq: u32, ramBase: u32, sysDesc: seq<cstring>, tasks: seq<TaskInfo>,
    hasGetTime: bool, modules: seq<EventModule>)

  function Shortened(text: cstring): Field {
    Text(Limited(CString(text), MAX_STRING_LEN))
  }

  function SysDescMessage(text: cstring): Message {
    Standard(14, [Shortened(text)])
  }

  function SysDescMessages(texts: seq<cstring>): seq<Message>
    decreases |texts|
  {
    if texts == [] then [] else SysDescMessages(texts[..|texts| - 1]) + [SysDescMessage(texts[|texts| - 1])]
  }

  /** Task ids are sent relative to the RAM base, without their two lowest bits. */
  function ShrinkId(id: u32, ramBase: u32): u32 {
    Wrap32(id - ramBase) / 4
  }

  function TaskMessage(id: u32, info: TaskInfo): Message {
    Standard(9, [Num(id), Num(info.prio), Text(Limited(CString(info.name), 32))])
  }

  function TaskMessages(info: TaskInfo, ramBase: u32): seq<Message> {
    var id := ShrinkId(info.taskId, ramBase);
    [TaskMessage(id, info), Standard(21, [Num(id), Num(info.stackBase), Num(info.stackSize), Num(0)])]
  }

  function TaskListMessages(tasks: seq<TaskInfo>, ramBase: u32): seq<Message>
    decreases |tasks|
  {
    if tasks == [] then []
    else TaskListMessages(tasks[..|tasks| - 1], ramBase) + TaskMessages(tasks[|tasks| - 1], ramBase)
  }

  function SystimeMessage(hasGetTime: bool, time: nat): Message {
    if hasGetTime then Standard(13, [Num(Wrap32(time)), Num(Wrap32(time / 0x1_0000_0000))])
    else Standard(12, [Num(Wrap32(time))])
  }

  /** The number of modules is kept in a byte. */
  function NumModulesMessage(modules: seq<EventModule>): Message {
    Extended(27, EncodeFields([Num(|modules| % 256)]))
  }

  function ModuleMessage(moduleId: byte, offset: u32, text: cstring): Message {
    Standard(22, [Num(moduleId), Num(offset), Shortened(text)])
  }

  function ModuleMessages(modules: seq<EventModule>, moduleId: byte): seq<Message> {
    if moduleId < |modules| then [ModuleMessage(moduleId, modules[moduleId].eventOffset, modules[moduleId].name)]
    else []
  }

  function DescriptionMessage(modules: seq<EventModule>, index: nat, text: cstring): Message
    requires index < |modules|
  {
    ModuleMessage(index % 256, modules[index].eventOffset, text)
  }

  function TextsOfModule(modules: seq<EventModule>, index: nat, texts: seq<cstring>): seq<Message>
    requires index < |modules|
    decreases |texts|
  {
    if texts == [] then []
    else TextsOfModule(modules, index, texts[..|texts| - 1]) + [DescriptionMessage(modules, index, texts[|texts| - 1])]
  }

  /** What the callbacks of the first `n` modules record. */
  function DescriptionMessages(modules: seq<EventModule>, n: nat): seq<Message>
    requires n <= |modules|
  {
    if n == 0 then []
    else DescriptionMessages(modules, n - 1) + TextsOfModule(modules, n - 1, modules[n - 1].descriptions)
  }

  /** Clock frequencies, RAM base and the number of bits taken off the ids. */
  function InitMessage(t: Target): Message {
    Extended(24, EncodeFields([Num(t.sysFreq), Num(t.cpuFreq), Num(t.ramBase), Num(2)]))
  }

  /** What a start sends, in this order. */
  function StartMessages(t: Target, time: nat): seq<Message> {
    [Standard(10, [])] + [InitMessage(t)] + SysDescMessages(t.sysDesc) + [SystimeMessage(t.hasGetTime, time)]
    + TaskListMessages(t.tasks, t.ramBase) + [NumModulesMessage(t.modules)]
  }

  /** `mask & (1u << id)` of a 32-bit mask; from bit 32 on there is none. */
  predicate Bit(mask: u32, id: nat): (b: bool)
    ensures b ==> id < 32
  {
    id < 32 && mask / Power(id) % 2 == 1
  }

  function Power(n: nat): (r: nat)
    ensures r >= 1
  {
    if n == 0 then 1 else 2 * Power(n - 1)
  }

  /** The events a mask names. */
  function Bits(mask: u32): set<nat> {
    set id: nat | id < 32 && Bit(mask, id)
  }

  const START: byte := 1
  const STOP: byte := 2

  function Bytes(b: Option<byte>): seq<byte> {
    match b
    case None => []
    case Some(v) => [v]
  }

  /** What the target sends in answer to a command. */
  function Answer(cmd: Option<byte>, param: Option<byte>, off: bool, t: Target, time: nat): seq<Message> {
    match cmd
    case None => []
    case Some(c) =>
      match c
      case 1 => if off then StartMessages(t, time) else []
      case 2 => if off then [] else [Standard(11, [])]
      case 3 => [SystimeMessage(t.hasGetTime, time)]
      case 4 => TaskListMessages(t.tasks, t.ramBase)
      case 5 => [InitMessage(t)] + SysDescMessages(t.sysDesc)
      case 6 => [NumModulesMessage(t.modules)]
      case 7 => DescriptionMessages(t.modules, |t.modules|)
      case 128 => if param.Some? then ModuleMessages(t.modules, param.value) else []
      case _ => []
  }

  /** What came of looking for a command: the command, its parameter, and with what it was answered. */
  datatype Served = Served(cmd: Option<byte>, param: Option<byte>, time: nat, synced: bool)

  /** The answer holds the system time. */
  predicate TellsTime(cmd: Option<byte>, off: bool) {
    cmd == Some(3) || (cmd == Some(START) && off)
  }

  /**
   Between two points of the log a command was obeyed: its answer was handed to
   the sender; a start switched recording on and wrote the sync sequence first, a
   stop switched it off behind its packet, and nothing else was switched.
   */
  predicate Obeyed(before: seq<Entry>, after: seq<Entry>, v: Served, off: bool, t: Target) {
    && Passed(before, after, 1, Answer(v.cmd, v.param, off, t, v.time))
    && if v.cmd.None? then after == before
       else if v.cmd == Some(START) && off then
         before + [Entry(SwitchOn, 1)] + [Entry(Sync(v.synced), 1)] <= after && SendsFrom(after, |before| + 2)
       else if v.cmd == Some(STOP) && !off then
         && |after| == |before| + 2 && after[|before|].step.Send? && after[|before|].level == 1
         && after[|before| + 1] == Entry(SwitchOff, 1)
       else SendsFrom(after, |before|)
  }

  lemma ObeyedNothing(log: seq<Entry>, v: Served, off: bool, t: Target)
    requires v.cmd == None
    ensures Obeyed(log, log, v, off, t)
  {
  }

  /** Outside, nothing was sent meanwhile. */
  lemma ObeyedOutside(before: seq<Entry>, after: seq<Entry>, v: Served, off: bool, t: Target)
    requires Obeyed(before, after, v, off, t)
    ensures Handed(before, after, 0, [])
  {
  }

  /** A start that was obeyed began with these three steps. */
  lemma StartSteps(before: seq<Entry>, after: seq<Entry>, v: Served, t: Target) returns (e: Step)
    requires Obeyed(before, after, v, true, t) && v.cmd == Some(START)
    ensures e.Send? && e.msg == Standard(10, [])
    ensures Steps(before) + [SwitchOn, Sync(v.synced), e] <= Steps(after)
  {
    hide StartMessages, Run, MessagesAt;
    var middle := before + [Entry(SwitchOn, 1)] + [Entry(Sync(v.synced), 1)];
    MessagesSnoc(before, Entry(SwitchOn, 1), 1);
    MessagesSnoc(before + [Entry(SwitchOn, 1)], Entry(Sync(v.synced), 1), 1);
    StartBegins(t, v.time);
    assert |middle| < |after| by {
      ManySends(middle, after);
    }
    var next := after[..|middle| + 1];
    assert next == middle + [after[|middle|]];
    MessagesSnoc(middle, after[|middle|], 1);
    MessagesGrow(next, after, 1);
    e := after[|middle|].step;
    assert MessagesAt(next, 1) == MessagesAt(before, 1) + [e.msg];
    assert MessagesAt(after, 1)[|MessagesAt(before, 1)|] == Standard(10, []);
    assert Steps(before) + [SwitchOn, Sync(v.synced), e] == Steps(next);
  }

  lemma StartBegins(t: Target, time: nat)
    ensures StartMessages(t, time) != [] && StartMessages(t, time)[0] == Standard(10, [])
  {
    hide InitMessage, SysDescMessages, SystimeMessage, TaskListMessages, NumModulesMessage;
    var two := [Standard(10, [])] + [InitMessage(t)];
    var three := two + SysDescMessages(t.sysDesc);
    var four := three + [SystimeMessage(t.hasGetTime, time)];
    var five := four + TaskListMessages(t.tasks, t.ramBase);
    assert five[0] == four[0] == three[0] == two[0];
  }

  lemma {:induction false} MessagesGrow(before: seq<Entry>, after: seq<Entry>, level: nat)
    requires before <= after
    ensures MessagesAt(before, level) <= MessagesAt(after, level)
    decreases |after|
  {
    if |after| > |before| {
      MessagesGrow(before, after[..|after| - 1], level);
    } else {
      assert after == before;
    }
  }

  /** A stop that was obeyed is these two steps. */
  lemma StopSteps(before: seq<Entry>, after: seq<Entry>, v: Served, t: Target) returns (e: Step)
    requires Obeyed(before, after, v, false, t) && v.cmd == Some(STOP)
    ensures e.Send? && e.msg == Standard(11, []) && Steps(after) == Steps(before) + [e, SwitchOff]
  {
    var entry := after[|before|];
    e := entry.step;
    MessagesSnoc(before, entry, 1);
    MessagesSnoc(before + [entry], Entry(SwitchOff, 1), 1);
    assert after == before + [entry] + [Entry(SwitchOff, 1)];
    var ms := MessagesAt(before, 1);
    assert MessagesAt(after, 1) == ms + [Standard(11, [])];
    assert MessagesAt(after, 1) == ms + [e.msg];
    assert (ms + [e.msg])[|ms|] == (ms + [Standard(11, [])])[|ms|];
  }

  /**
   What a host gets that starts recording: the sync sequence if it fitted, and
   the start packet next, if it fitted and is not masked.
   */
  lemma StartIsAnswered(s0: State, before: seq<Entry>, after: seq<Entry>, v: Served, t: Target) returns (e: Step)
    requires Obeyed(before, after, v, true, t) && v.cmd == Some(START) && Run(s0, Steps(before)).enable == OFF
    ensures e.Send? && e.msg == Standard(10, [])
    ensures var s := Run(s0, Steps(before));
            var nop := Sent(Standard(0, []), s.last);
            s.sent + (if v.synced then [nop, nop, nop, nop, nop] else [])
            + If(e.fits && !IsMasked(s.disabled, 10), Sent(Standard(10, []), e.time))
            <= Run(s0, Steps(after)).sent
  {
    hide Obeyed, Run, IsMasked, If;
    e := StartSteps(before, after, v, t);
    var begun := [SwitchOn, Sync(v.synced), e];
    var rest := Steps(after)[|before| + 3..];
    assert Steps(after) == Steps(before) + begun + rest;
    RunConcat(s0, Steps(before), begun);
    RunConcat(s0, Steps(before) + begun, rest);
    StartIsSeen(Run(s0, Steps(before)), v.synced, e);
    SentGrows(Run(s0, Steps(before) + begun), rest);
  }

  /**
   What a host gets that stops recording: the stop packet if it fitted and is not
   masked, and then nothing until recording is started again.
   */
  lemma StopIsAnswered(s0: State, before: seq<Entry>, after: seq<Entry>, v: Served, t: Target, later: seq<Entry>)
    returns (e: Step)
    requires Obeyed(before, after, v, false, t) && v.cmd == Some(STOP)
    requires OFF < Run(s0, Steps(before)).enable <= DROPPING
    requires forall k | 0 <= k < |later| :: !later[k].step.SwitchOn? && !later[k].step.Sync?
    ensures e.Send? && e.msg == Standard(11, [])
    ensures var s := Run(s0, Steps(before));
            var on := s.enable == ON || e.overflowFits;
            Run(s0, Steps(after + later)).sent
            == s.sent + If(s.enable == DROPPING && on, Sent(OverflowMessage(s.dropCount), e.overflowTime))
               + If(on && e.fits && !IsMasked(s.disabled, 11), Sent(Standard(11, []), e.time))
  {
    hide Obeyed, Run, IsMasked, If, OverflowMessage;
    e := StopSteps(before, after, v, t);
    assert Steps(after + later) == Steps(after) + Steps(later);
    assert Steps(before) + [e, SwitchOff] + Steps(later) == Steps(before) + ([e, SwitchOff] + Steps(later));
    RunConcat(s0, Steps(before), [e, SwitchOff] + Steps(later));
    StopIsLast(Run(s0, Steps(before)), e, Steps(later));
  }

  /** While only messages are sent, recording stays on. */
  lemma StaysOn(s0: State, before: seq<Entry>, after: seq<Entry>)
    requires before <= after && SendsFrom(after, |before|)
    requires OFF < Run(s0, Steps(before)).enable <= DROPPING
    ensures Run(s0, Steps(after)).enable != OFF
  {
    hide Run, Apply;
    var rest := Steps(after[|before|..]);
    assert Steps(after) == Steps(before) + rest;
    RunConcat(s0, Steps(before), rest);
    SendsKeepOn(Run(s0, Steps(before)), rest);
  }

  lemma {:induction false} NumsLength(paras: seq<u32>)
    ensures |EncodeFields(Nums(paras))| <= 5 * |paras|
  {
    if paras != [] {
      EncodeU32Length(paras[0]);
      assert Nums(paras)[1..] == Nums(paras[1..]);
      NumsLength(paras[1..]);
    }
  }

  lemma NumModulesLength(modules: seq<EventModule>)
    ensures var paras := [|modules| % 256];
            Known(27, Nums(paras)) && MessageOf(27, Nums(paras)) == NumModulesMessage(modules)
  {
    var paras := [|modules| % 256];
    NumsLength(paras);
    assert Nums(paras) == [Num(|modules| % 256)];
  }

  lemma InitLength(t: Target)
    ensures var paras := [t.sysFreq, t.cpuFreq, t.ramBase, 2];
            Known(24, Nums(paras)) && MessageOf(24, Nums(paras)) == InitMessage(t)
  {
    var paras := [t.sysFreq, t.cpuFreq, t.ramBase, 2];
    NumsLength(paras);
    assert Nums(paras) == [Num(t.sysFreq), Num(t.cpuFreq), Num(t.ramBase), Num(2)];
  }

  lemma ModuleIsKnown(moduleId: byte, offset: u32, text: cstring)
    ensures var fs := [Num(moduleId), Num(offset), Shortened(text)];
            Known(22, fs) && MessageOf(22, fs) == ModuleMessage(moduleId, offset, text)
  {
    hide CString;
  }

  lemma SysDescIsKnown(text: cstring)
    ensures Known(14, [Shortened(text)]) && MessageOf(14, [Shortened(text)]) == SysDescMessage(text)
  {
    hide CString;
  }

  lemma TaskIsKnown(id: u32, info: TaskInfo)
    ensures var fs := [Num(id), Num(info.prio), Text(Limited(CString(info.name), 32))];
            Known(9, fs) && MessageOf(9, fs) == TaskMessage(id, info)
  {
    hide CString;
  }

  lemma StackMessage(id: u32, info: TaskInfo)
    ensures var fs := [Num(id), Num(info.stackBase), Num(info.stackSize), Num(0)];
            && Nums([id, info.stackBase, info.stackSize, 0]) == fs
            && Known(21, fs) && MessageOf(21, fs) == Standard(21, fs)
  {
  }

  /** The clocks of the target. The ghost fields are what has been read from them, in order. */
  class Clock {
    ghost var stamps: seq<u32>   // the time stamp clock
    ghost var systimes: seq<nat> // the operating system's clock, 64 bits wide

    constructor ()
      ensures stamps == [] && systimes == []
    {
      stamps, systimes := [], [];
    }

    method Timestamp() returns (t: u32)
      modifies this`stamps
      ensures stamps == old(stamps) + [t]
    {
      t := *;
      stamps := stamps + [t];
    }

    method GetTime() returns (time: nat)
      modifies this`systimes
      ensures systimes == old(systimes) + [time] && time < 0x1_0000_0000_0000_0000
    {
      time :| time < 0x1_0000_0000_0000_0000;
      systimes := systimes + [time];
    }
  }

  class Recorder {
    const up: Ring
    const down: Ring
    const packet: array<byte>  // the static packet buffer
    const target: Target
    const clock: Clock

    var enableState: nat
    var dropCount: u32
    var lastTx: u32
    var disabledEvents: set<nat>  // the bits of the mask
    var recursionCnt: nat

    ghost const t0: u32
    ghost var log: seq<Entry>
    ghost var st: State
    ghost var depth: nat    // calls of the sender that have not returned
    ghost var deepest: nat  // the largest depth so far

    /** Initialisation: recording is off, and time starts with the clock. */
    constructor Init(up: Ring, down: Ring, packet: array<byte>, target: Target, clock: Clock)
      requires up != down && up.data != down.data && packet != up.data && packet != down.data
      requires packet.Length == 227 && up.Valid() && down.Valid() && up.History() == []
      modifies clock`stamps
      ensures Valid() && log == [] && enableState == OFF && clock.stamps == old(clock.stamps) + [lastTx]
      ensures this.up == up && this.down == down && this.packet == packet
      ensures this.target == target && this.clock == clock
    {
      var t := clock.Timestamp();
      this.up, this.down, this.packet, this.target, this.clock := up, down, packet, target, clock;
      enableState, dropCount, lastTx, disabledEvents, recursionCnt := OFF, 0, t, {}, 0;
      t0, log, st, depth, deepest := t, [], Initial(t), 0, 0;
    }

    ghost predicate Shape()
      reads up, down
    {
      && up != down && up.data != down.data && packet != up.data && packet != down.data
      && packet.Length == 227 && up.Valid() && down.Valid()
    }

    /** Free bytes in the up-buffer. */
    ghost function Room(): nat
      requires up.Valid()
      reads up
    {
      Free(up.data.Length, up.wrOff, up.rdOff)
    }

    /** The fields and the ring are what the machine state says. */
    ghost predicate Synced(s: State)
      requires Shape()
      reads this`enableState, this`dropCount, this`lastTx, this`disabledEvents, up, up.data, down
    {
      && enableState == s.enable && dropCount == s.dropCount && lastTx == s.last
      && disabledEvents == s.disabled && up.History() == s.stream
    }

    ghost predicate Logged()
      reads this`log, this`st
    {
      GoodLog(log) && st == Run(Initial(t0), Steps(log)) && CountInv(st)
    }

    /** The packets bear times that were read from the clock, in the order of the readings. */
    ghost predicate Timed()
      reads this`st, clock`stamps
    {
      Subsequence(EventTimes(st.sent), clock.stamps)
    }

    ghost predicate Core()
      reads this`enableState, this`dropCount, this`lastTx, this`disabledEvents, this`log, this`st
      reads up, up.data, down, clock`stamps
    {
      Shape() && Synced(st) && Logged() && Timed()
    }

    ghost predicate Valid()
      reads this, up, up.data, down, clock`stamps
    {
      Core() && depth == recursionCnt <= 1 && deepest <= 2
    }

    ghost function Frame(): set<object> {
      {this, up, up.data, down, down.data, packet, clock}
    }

    /** `buf[start..end]` holds the payload of `m`, with room for header and time stamp around it. */
    ghost predicate Ready(buf: array<byte>, start: nat, end: nat, id: nat, m: Message)
      reads buf, this`recursionCnt
    {
      && buf != up.data && buf != down.data && 4 <= start <= end && end + 5 <= buf.Length
      && (recursionCnt == 1 ==> Answerable(m)) && m.id == id && buf[start..end] == Payload(m)
    }

    /** What every call leaves: its nesting level, and the readings of the clocks; inside a command no other is read. */
    twostate predicate Went()
      reads this, down, clock
    {
      && recursionCnt == old(recursionCnt) && (recursionCnt == 1 ==> down.consumed == old(down.consumed))
      && old(clock.stamps) <= clock.stamps && old(clock.systimes) <= clock.systimes
    }

    /** The call handed exactly `ms` to the sender, at its own nesting level, and did nothing else. */
    twostate predicate Did(ms: seq<Message>)
      reads this, down, clock
    {
      Went() && Handed(old(log), log, recursionCnt, ms)
    }

    /** It may have switched recording on or off, or events, as well. */
    twostate predicate Switched(ms: seq<Message>)
      reads this, down, clock
    {
      Went() && Passed(old(log), log, recursionCnt, ms)
    }

    /** What was read since the later of two points was read since the earlier. */
    static lemma ReadSince(a: seq<u32>, b: seq<u32>, c: seq<u32>)
      requires a <= b <= c
      ensures forall t | t in c[|b|..] :: t in c[|a|..]
    {
      forall t | t in c[|b|..]
        ensures t in c[|a|..]
      {
        assert c[|a|..][|b| - |a|..] == c[|b|..];
      }
    }

    /** The system time was read from the target's clock in this call. */
    twostate predicate WasRead(time: nat)
      reads clock
    {
      if target.hasGetTime then
        |old(clock.systimes)| <= |clock.systimes| && time in clock.systimes[|old(clock.systimes)|..]
      else |old(clock.stamps)| <= |clock.stamps| && time in clock.stamps[|old(clock.stamps)|..]
    }

    /** A command that waited, or came meanwhile, has been obeyed from the log `base` on. */
    twostate predicate Answered(base: seq<Entry>, v: Served)
      requires down.Valid() && old(down.Valid())
      reads this, down, down.data, clock
    {
      var was := old(down.Contents());
      && (|was| > 0 ==> v.cmd == Some(was[0])) && (|was| > 1 && was[0] >= 128 ==> v.param == Some(was[1]))
      && (v.param.Some? ==> v.cmd.Some? && v.cmd.value >= 128)
      && down.consumed == old(down.consumed) + Bytes(v.cmd) + Bytes(v.param)
      && Obeyed(base, log, v, old(enableState) == OFF, target)
      && (v.cmd == Some(STOP) ==> enableState == OFF) && (v.cmd == Some(START) ==> enableState != OFF)
      && (TellsTime(v.cmd, old(enableState) == OFF) ==> WasRead(v.time))
      && old(clock.stamps) <= clock.stamps && old(clock.systimes) <= clock.systimes
    }

    /**
     In every state of the recorder: if the application sent only what a host
     can read, a host that parses all bytes so far gets every stored packet with
     the time it was taken, and its clock shows `LastTxTimeStamp`; and these times,
     those of the sync packets apart, are what was read from the clock, in order.
     If it sent only events, every event to be recorded is one of these packets or
     lost, and the drop counter follows from what was lost and sent.
     */
    lemma HostSees()
      requires Valid()
      ensures (forall m | m in MessagesAt(log, 0) :: WellFormed(m)) ==>
                && HostView(t0, up.History()) == Some(st.sent) && HostClock(t0, up.History()) == Some(lastTx)
                && Subsequence(EventTimes(HostView(t0, up.History()).value), clock.stamps)
      ensures (forall m | m in MessagesAt(log, 0) :: m.id > 1) ==>
                && Offered(Initial(t0), Steps(log)) == Events(st.sent) + st.lost
                && st.episodes == Overflows(st.sent) + Abandoned(Initial(t0), Steps(log)) + One(enableState == DROPPING)
                && st.masked == MaskedDrops(Initial(t0), Steps(log))
      ensures enableState <= DROPPING && dropCount == Wrap32(st.lost + st.masked - st.episodes)
    {
      hide Valid, WellFormed, HostView, HostClock, GoodRun, GoodLog, Proper;
      hide Events, Overflows, Offered, Abandoned, MaskedDrops, Subsequence, EventTimes;
      StateFacts();
      LogIsGood(log);
      if GoodRun(Steps(log)) {
        TimestampsReconstruct(t0, Steps(log));
      }
      if Proper(Steps(log)) {
        EventsAreConserved(t0, Steps(log));
      }
    }

    /**
     After a stop, by whomever, the host gets nothing more until recording is
     started again: as long as the log has no start, the bytes in the ring are
     those that were there at the stop.
     */
    lemma SilentWhenStopped(k: nat)
      requires Valid() && k < |log| && log[k].step == SwitchOff
      requires forall i | k < i < |log| :: log[i].step != SwitchOn
      ensures enableState == OFF
      ensures up.History() == Run(Initial(t0), Steps(log[..k])).stream
    {
      hide Run, Apply, GoodLog, Valid;
      StateFacts();
      NoSyncs(log, k);
      var before, rest := Steps(log[..k]), Steps(log[k + 1..]);
      assert Steps(log) == before + [SwitchOff] + rest;
      RunExtends(Initial(t0), before, SwitchOff);
      SwitchedOff(Run(Initial(t0), before));
      RunConcat(Initial(t0), before + [SwitchOff], rest);
      NothingWhileOff(Run(Initial(t0), before + [SwitchOff]), rest);
    }

    static lemma SwitchedOff(s: State)
      ensures Apply(s, SwitchOff).enable == OFF && Apply(s, SwitchOff).stream == s.stream
    {
    }

    static lemma NoSyncs(log: seq<Entry>, k: nat)
      requires GoodLog(log) && k < |log| && log[k].step == SwitchOff
      requires forall i | k < i < |log| :: log[i].step != SwitchOn
      ensures forall i | k < i < |log| :: !log[i].step.Sync?
    {
      forall i | k < i < |log|
        ensures !log[i].step.Sync?
      {
        assert GoodAt(log, i);
      }
    }

    lemma StateFacts()
      requires Valid()
      ensures GoodLog(log) && st == Run(Initial(t0), Steps(log)) && CountInv(st)
      ensures up.History() == st.stream && lastTx == st.last && enableState == st.enable && dropCount == st.dropCount
      ensures Subsequence(EventTimes(st.sent), clock.stamps)
    {
      hide GoodLog, CountInv, Subsequence, EventTimes;
    }

    ghost method Log(e: Step)
      requires Logged() && recursionCnt <= 1 && (recursionCnt == 1 && e.Send? ==> Answerable(e.msg))
      requires e.Sync? ==> log != [] && log[|log| - 1].step == SwitchOn
      modifies this`log, this`st
      ensures Logged() && st == Apply(old(st), e)
      ensures log == old(log) + [Entry(e, recursionCnt)]
    {
      hide GoodLog, CountInv, Apply, Run, Answerable;
      var entry := Entry(e, recursionCnt);
      StepsSnoc(log, entry);
      GoodSnoc(log, entry);
      RunExtends(Initial(t0), Steps(log), e);
      StepKeepsCount(st, e);
      log := log + [entry];
      st := Apply(st, e);
    }

    /** The host may take bytes out of the up-buffer and put commands into the down-buffer. */
    method HostActs()
      requires Shape()
      modifies up`rdOff, up`consumed, down`wrOff, down.data
      ensures Shape() && up.History() == old(up.History()) && Logged() == old(Logged()) && Timed() == old(Timed())
      ensures Room() >= old(Room()) && old(down.Contents()) <= down.Contents()
    {
      var n: nat := *;
      up.Drain(n);
      var commands: seq<byte> := *;
      if |commands| <= Free(down.data.Length, down.wrOff, down.rdOff) {
        down.WriteNoCheck(commands);
      }
    }

    /** The overflow packet in its own 11 bytes. */
    static method BuildOverflow(drops: u32, delta: u32) returns (bs: seq<byte>)
      ensures bs == EncodePacket(OverflowMessage(drops), delta)
    {
      hide EncodePacket;
      var aPacket := new byte[11];
      EncodeU32Length(drops);
      EncodeU32Length(delta);
      aPacket[0] := 1;
      ghost var mem := aPacket[..];
      var next := EncodeU32At(aPacket, 1, drops);
      next := EncodeU32At(aPacket, next, delta);
      PutTwice(mem, 1, EncodeU32(drops), EncodeU32(delta));
      bs := aPacket[..next];
      OverflowBytes(drops, delta);
      assert bs == [1] + (EncodeU32(drops) + EncodeU32(delta));
    }

    static lemma OverflowBytes(drops: u32, delta: u32)
      ensures EncodePacket(OverflowMessage(drops), delta) == [1] + (EncodeU32(drops) + EncodeU32(delta))
    {
      var fs := [Num(drops)];
      assert fs[1..] == [];
      assert EncodeFields(fs) == EncodeU32(drops) + [];
    }

    /** While dropping: store an overflow packet, or count one more packet dropped. */
    method TrySendOverflowPacket(ghost s: State, ghost m: Message) returns (status: bool, t: u32)
      requires Shape() && Synced(s) && s.enable == DROPPING
      modifies this`enableState, this`lastTx, this`dropCount, up`wrOff, up.data, clock`stamps
      ensures Shape() && Synced(TryOverflow(s, m, t, status)) && clock.stamps == old(clock.stamps) + [t]
      ensures status <==> |EncodePacket(OverflowMessage(s.dropCount), Wrap32(t - s.last))| <= old(Room())
    {
      hide EncodePacket, Free, OverflowMessage, TryOverflow;
      t := clock.Timestamp();
      var bytes := BuildOverflow(dropCount, Wrap32(t - lastTx));
      status := StoreOverflow(bytes, t, s, m);
    }

    /** The overflow packet goes to the ring; when it fits, dropping is over. */
    method StoreOverflow(bytes: seq<byte>, t: u32, ghost s: State, ghost m: Message) returns (status: bool)
      requires Shape() && Synced(s) && s.enable == DROPPING
      requires bytes == EncodePacket(OverflowMessage(s.dropCount), Wrap32(t - s.last))
      modifies this`enableState, this`lastTx, this`dropCount, up`wrOff, up.data
      ensures Shape() && Synced(TryOverflow(s, m, t, status))
      ensures status <==> |bytes| <= old(Room())
    {
      hide EncodePacket, IsMasked, OverflowMessage, Wrap32, RingStore, Advance, Free, Unread;
      status := up.WriteSkipNoLock(bytes);
      if status {
        lastTx := t;
        enableState := enableState - 1;
      } else {
        dropCount := Wrap32(dropCount + 1);
      }
    }

    /** The event itself, with recording on: header, time stamp, ring. */
    method TrySendEvent(buf: array<byte>, start: nat, end: nat, id: nat, ghost s: State, ghost m: Message)
      returns (status: bool, t: u32)
      requires Shape() && Synced(s) && s.enable == ON
      requires buf != up.data && buf != down.data
      requires 4 <= start <= end && end + 5 <= buf.Length && m.id == id && buf[start..end] == Payload(m)
      modifies this`enableState, this`lastTx, up`wrOff, up.data, buf, clock`stamps
      ensures Shape() && Synced(TryEvent(s, m, t, status))
      ensures clock.stamps == old(clock.stamps) + if IsMasked(s.disabled, m.id) then [] else [t]
      ensures !IsMasked(s.disabled, m.id)
              ==> (status <==> |EncodePacket(m, Wrap32(t - s.last))| <= old(Room()))
    {
      hide TryEvent, EncodePacket, Free, RingStore, Advance, Unread, Payload, Wrap32;
      status, t := false, 0;
      MaskedEvent(s, m, t, false);
      if id < 32 && id in disabledEvents {
        return;
      }
      t := clock.Timestamp();
      var first, last := FinishPacket(buf, start, end, id, Wrap32(t - lastTx));
      assert Synced(s);
      PacketBytes(m, Wrap32(t - lastTx));
      status := StorePacket(buf[first..last], t, s, m);
    }

    static lemma MaskedEvent(s: State, m: Message, t: u32, fits: bool)
      ensures IsMasked(s.disabled, m.id) ==> TryEvent(s, m, t, fits) == s
    {
    }

    /** The bytes between header and time stamp make the packet. */
    static lemma PacketBytes(m: Message, delta: u32)
      ensures EncodePacket(m, delta) == Prefix(m.id, |Payload(m)|) + Payload(m) + EncodeU32(delta)
    {
    }

    /** The finished packet goes to the ring; when it does not fit, dropping begins. */
    method StorePacket(bytes: seq<byte>, t: u32, ghost s: State, ghost m: Message) returns (status: bool)
      requires Shape() && Synced(s) && s.enable == ON && !IsMasked(s.disabled, m.id)
      requires bytes == EncodePacket(m, Wrap32(t - s.last))
      modifies this`enableState, this`lastTx, up`wrOff, up.data
      ensures Shape() && Synced(TryEvent(s, m, t, status))
      ensures status <==> |bytes| <= old(Room())
    {
      hide EncodePacket, Wrap32, IsMasked, RingStore, Advance, Free, Unread;
      status := up.WriteSkipNoLock(bytes);
      if status {
        lastTx := t;
      } else {
        enableState := enableState + 1;
      }
    }

    /** While dropping, an overflow packet is tried first. */
    method Recover(ghost s: State, ghost m: Message) returns (ghost t: u32, ghost fits: bool)
      requires Shape() && Synced(s) && s.enable <= DROPPING
      modifies this`enableState, this`lastTx, this`dropCount
      modifies up`rdOff, up`consumed, up`wrOff, up.data, down`wrOff, down.data, clock`stamps
      ensures Shape() && Synced(if s.enable == DROPPING then TryOverflow(s, m, t, fits) else s)
      ensures clock.stamps == old(clock.stamps) + if s.enable == DROPPING then [t] else []
      ensures old(down.Contents()) <= down.Contents() && (s.enable == ON ==> Room() >= old(Room()))
    {
      hide TryOverflow, IsMasked, EncodePacket, Wrap32, Room;
      t, fits := 0, false;
      HostActs();
      if enableState == DROPPING {
        fits, t := TrySendOverflowPacket(s, m);
        HostActs();
      }
    }

    /** Overflow packet first when dropping, then the event; the free room decides what becomes of each. */
    method Attempt(buf: array<byte>, start: nat, end: nat, id: nat, ghost s: State, ghost m: Message)
      returns (ghost e: Step)
      requires Shape() && Synced(s) && s.enable <= DROPPING && Ready(buf, start, end, id, m)
      modifies this`enableState, this`lastTx, this`dropCount
      modifies up`rdOff, up`consumed, up`wrOff, up.data, down`wrOff, down.data, buf, clock`stamps
      ensures Shape() && e.Send? && e.msg == m && Synced(Apply(s, e))
      ensures clock.stamps == old(clock.stamps) + Readings(s, e)
      ensures old(down.Contents()) <= down.Contents()
      ensures s.enable == ON && |EncodePacket(m, Wrap32(e.time - s.last))| <= old(Room())
              ==> IsMasked(s.disabled, m.id) || e.fits
    {
      hide TryOverflow, TryEvent, Payload, Answerable, IsMasked, EncodePacket, Wrap32, Room;
      ghost var stamps0, fits, t := clock.stamps, false, 0;
      ghost var t0', fits0 := Recover(s, m);
      ghost var s1 := if s.enable == DROPPING then TryOverflow(s, m, t0', fits0) else s;
      if enableState == ON {
        fits, t := TrySendEvent(buf, start, end, id, s1, m);
      }
      e := Send(m, t0', fits0, t, fits);
      ReadingsOf(s, e, s1, stamps0);
    }

    static lemma ReadingsOf(s: State, e: Step, s1: State, stamps: seq<u32>)
      requires e.Send?
      requires s1 == if s.enable == DROPPING then TryOverflow(s, e.msg, e.overflowTime, e.overflowFits) else s
      ensures stamps + (if s.enable == DROPPING then [e.overflowTime] else [])
              + (if s1.enable == ON && !IsMasked(s1.disabled, e.msg.id) then [e.time] else [])
              == stamps + Readings(s, e)
    {
      hide TryOverflow, IsMasked;
    }

    static lemma NothingLost(s: State, e: Step)
      requires e.Send? && s.enable == ON && (IsMasked(s.disabled, e.msg.id) || e.fits)
      ensures Apply(s, e).lost == s.lost
    {
    }

    /** The part of the sender before it looks at the down-buffer. */
    method Transmit(buf: array<byte>, start: nat, end: nat, id: nat, ghost m: Message)
      requires Core() && recursionCnt <= 1 && Ready(buf, start, end, id, m)
      modifies this`enableState, this`lastTx, this`dropCount, this`log, this`st
      modifies up`rdOff, up`consumed, up`wrOff, up.data, down`wrOff, down.data, buf, clock`stamps
      ensures Core() && Did([m]) && old(down.Contents()) <= down.Contents() && down.consumed == old(down.consumed)
      // The times are those read from the clock in this call.
      ensures |log| == |old(log)| + 1 && clock.stamps == old(clock.stamps) + Readings(old(st), log[|old(log)|].step)
      ensures enableState == OFF <==> old(enableState) == OFF
      // Nothing is lost that fits into the room there was on entry.
      ensures old(enableState) == ON && |Payload(m)| + 9 <= old(Room()) ==> st.lost == old(st.lost)
    {
      hide Apply, Payload, Answerable, EncodePacket, Wrap32, Room, IsMasked, MessagesAt, Run, GoodLog;
      hide Subsequence, Readings;
      ghost var e := Attempt(buf, start, end, id, st, m);
      PacketLength(m, Wrap32(e.time - st.last));
      if st.enable == ON && (IsMasked(st.disabled, e.msg.id) || e.fits) {
        NothingLost(st, e);
      }
      StepKeepsTimes(st, e, old(clock.stamps));
      SendKeepsOff(st, e);
      Log(e);
      MessagesSnoc(old(log), Entry(e, recursionCnt), 0);
      MessagesSnoc(old(log), Entry(e, recursionCnt), 1);
    }

    static lemma SendKeepsOff(s: State, e: Step)
      requires e.Send? && s.enable <= DROPPING
      ensures Apply(s, e).enable == OFF <==> s.enable == OFF
    {
      hide EncodePacket;
    }

    /**
     Sends one packet, then serves one command of the host if there is one. The
     command's answers come through here again, once: `RecursionCnt` keeps the
     sender from being entered more than twice, and the measure goes down with it.
     */
    method SendPacket(buf: array<byte>, start: nat, end: nat, id: nat, ghost m: Message) returns (ghost v: Served)
      requires Valid() && Ready(buf, start, end, id, m)
      modifies Frame(), buf
      ensures Valid() && Did([m]) && |log| > |old(log)|
      ensures recursionCnt == 0 ==> Answered(log[..|old(log)| + 1], v)
      decreases 1 - recursionCnt, 1
    {
      hide Payload, Answerable, Logged, Synced, Handed, Obeyed, Timed, Readings, Passed, MessagesAt, SendsFrom, Free;
      hide Unread, Distance, Advance, TellsTime, Answer;
      depth := depth + 1;
      deepest := if depth > deepest then depth else deepest;
      Transmit(buf, start, end, id, m);
      ghost var transmitted, transmittedStamps := log, clock.stamps;
      v := ServeHost();
      HandedTwice(old(log), transmitted, log, recursionCnt, [m], []);
      assert [m] + [] == [m];
      HandedGrows(transmitted, log, recursionCnt, []);
      ReadSince(old(clock.stamps), transmittedStamps, clock.stamps);
      assert log[..|old(log)| + 1] == transmitted;
      depth := depth - 1;
    }

    /** At the end of every packet: a waiting command is obeyed, but none while one is being obeyed. */
    method ServeHost() returns (ghost v: Served)
      requires Core() && depth == recursionCnt + 1 <= 2 && deepest <= 2
      modifies Frame()
      ensures Core() && depth == old(depth) && deepest <= 2 && Did([])
      ensures recursionCnt == 0 ==> Answered(old(log), v)
      ensures recursionCnt == 1 ==> log == old(log)
      decreases 1 - recursionCnt, 0
    {
      hide Logged, Timed, Passed, Handed, Obeyed;
      v := Served(None, None, 0, false);
      HandedNothing(log, recursionCnt);
      ObeyedNothing(log, v, enableState == OFF, target);
      HostActs();
      if down.wrOff != down.rdOff {
        if recursionCnt == 0 {
          recursionCnt := 1;
          v := HandleIncomingPacket();
          ObeyedOutside(old(log), log, v, old(enableState) == OFF, target);
          recursionCnt := 0;
        }
      }
    }

    // ---------------------------------------------------- encoding a payload

    /** The static packet buffer holds these fields, up to `pos`. */
    ghost predicate Holds(fs: seq<Field>, pos: nat)
      reads packet
    {
      4 <= pos <= packet.Length && packet[4..pos] == EncodeFields(fs)
    }

    lemma EmptyPayload()
      requires Valid()
      ensures Holds([], 4)
    {
    }

    method AppendNum(pos: nat, ghost fs: seq<Field>, v: u32) returns (next: nat)
      requires Valid() && Holds(fs, pos) && pos + 5 <= 227
      modifies packet
      ensures Valid() && Holds(fs + [Num(v)], next) && next <= pos + 5
    {
      EncodeU32Length(v);
      EncodeFieldsSnoc(fs, Num(v));
      ghost var mem := packet[..];
      next := EncodeU32At(packet, pos, v);
      PutBehind(mem, 4, pos, EncodeU32(v));
    }

    method AppendStr(pos: nat, ghost fs: seq<Field>, text: cstring, limit: nat) returns (next: nat)
      requires limit < 255
      requires Valid() && Holds(fs, pos) && pos + 1 + limit <= 227
      modifies packet
      ensures Valid() && Holds(fs + [Text(Limited(CString(text), limit))], next) && next <= pos + 1 + limit
    {
      hide EncodeStr, CString, Limited, Logged;
      ShortStr(Limited(CString(text), limit));
      ghost var t := Limited(CString(text), limit);
      EncodeFieldsSnoc(fs, Text(t));
      ghost var mem := packet[..];
      next := EncodeStrAt(packet, pos, text, limit);
      PutBehind(mem, 4, pos, EncodeStr(t));
    }

    /** Sends the fields in the packet buffer. */
    method SendFields(end: nat, id: nat, ghost fs: seq<Field>)
      requires Valid() && Holds(fs, end) && end + 5 <= 227
      requires recursionCnt == 1 ==> Known(id, fs)
      modifies Frame()
      ensures Valid() && Did([MessageOf(id, fs)])
      decreases 1 - recursionCnt, 2
    {
      ghost var v := SendPacket(packet, 4, end, id, MessageOf(id, fs));
    }

    // --------------------------------------------------------------- records

    method RecordVoid(id: nat)
      requires Valid() && (recursionCnt == 1 ==> Known(id, []))
      modifies Frame()
      ensures Valid() && Did([MessageOf(id, [])])
      decreases 1 - recursionCnt, 3
    {
      SendFields(4, id, []);
    }

    /** The parameters, one behind the other. */
    method EncodeNums(paras: seq<u32>) returns (pos: nat)
      requires Valid() && |paras| <= 10
      modifies packet
      ensures Valid() && Holds(Nums(paras), pos) && pos <= 54
    {
      hide Valid, EncodeFields;
      EmptyPayload();
      assert Nums(paras[..0]) == [];
      pos := 4;
      var k := 0;
      while k < |paras|
        invariant k <= |paras| && pos <= 4 + 5 * k
        invariant Valid() && Holds(Nums(paras[..k]), pos)
      {
        assert Nums(paras[..k + 1]) == Nums(paras[..k]) + [Num(paras[k])];
        pos := AppendNum(pos, Nums(paras[..k]), paras[k]);
        k := k + 1;
      }
      assert paras[..k] == paras;
    }

    /** The family from `RecordU32` to `RecordU32x10`; they differ in the number of parameters alone. */
    method RecordU32s(id: nat, paras: seq<u32>)
      requires Valid() && |paras| <= 10 && (recursionCnt == 1 ==> Known(id, Nums(paras)))
      modifies Frame()
      ensures Valid() && Did([MessageOf(id, Nums(paras))])
      decreases 1 - recursionCnt, 3
    {
      var pos := EncodeNums(paras);
      SendFields(pos, id, Nums(paras));
    }

    method RecordString(id: nat, text: cstring)
      requires Valid() && (recursionCnt == 1 ==> Known(id, [Shortened(text)]))
      modifies Frame()
      ensures Valid() && Did([MessageOf(id, [Shortened(text)])])
      decreases 1 - recursionCnt, 3
    {
      hide Valid, Handed, CString, Limited, EncodeFields, Known, MessageOf;
      ghost var t := Shortened(text);
      EmptyPayload();
      var pos := AppendStr(4, [], text, MAX_STRING_LEN);
      assert [] + [t] == [t];
      SendFields(pos, id, [t]);
    }

    /** A packet the caller has encoded into memory of its own, 4 bytes behind its start. */
    method SendUserPacket(buf: array<byte>, payloadEnd: nat, id: nat, ghost m: Message)
      requires Valid() && Ready(buf, 4, payloadEnd, id, m)
      modifies Frame(), buf
      ensures Valid() && Did([m])
      decreases 1 - recursionCnt, 2
    {
      ghost var v := SendPacket(buf, 4, payloadEnd, id, m);
    }

    // ---------------------------------------------- what the target tells of itself

    method SendSysDesc(text: cstring)
      requires Valid()
      modifies Frame()
      ensures Valid() && Did([SysDescMessage(text)])
      decreases 1 - recursionCnt, 4
    {
      hide Valid, Handed, CString, Limited;
      SysDescIsKnown(text);
      RecordString(14, text);
    }

    /** The callback of the application: it sends its description strings. */
    method CallSendSysDesc()
      requires Valid()
      modifies Frame()
      ensures Valid() && Did(SysDescMessages(target.sysDesc))
      decreases 1 - recursionCnt, 5
    {
      hide Valid, Handed;
      var k := 0;
      HandedNothing(log, recursionCnt);
      while k < |target.sysDesc|
        invariant k <= |target.sysDesc|
        invariant Valid() && Did(SysDescMessages(target.sysDesc[..k]))
      {
        ghost var sofar := log;
        SendSysDesc(target.sysDesc[k]);
        assert target.sysDesc[..k + 1][..k] == target.sysDesc[..k];
        HandedTwice(old(log), sofar, log, recursionCnt,
                    SysDescMessages(target.sysDesc[..k]), [SysDescMessage(target.sysDesc[k])]);
        k := k + 1;
      }
      assert target.sysDesc[..k] == target.sysDesc;
    }

    /** Name and priority of a task, then its stack. */
    method SendTaskInfo(info: TaskInfo)
      requires Valid()
      modifies Frame()
      ensures Valid() && Did(TaskMessages(info, target.ramBase))
      decreases 1 - recursionCnt, 4
    {
      hide Valid, Handed, Holds, CString, Limited, MessageOf, ShrinkId, Answerable;
      ghost var ms := TaskMessages(info, target.ramBase);
      var id := ShrinkId(info.taskId, target.ramBase);
      StackMessage(id, info);
      SendTask(id, info);
      ghost var middle := log;
      RecordU32s(21, [id, info.stackBase, info.stackSize, 0]);
      HandedTwice(old(log), middle, log, recursionCnt, [ms[0]], [ms[1]]);
      assert [ms[0]] + [ms[1]] == ms;
    }

    /** The first of the two packets about a task. */
    method SendTask(id: u32, info: TaskInfo)
      requires Valid()
      modifies Frame()
      ensures Valid() && Did([TaskMessage(id, info)])
      decreases 1 - recursionCnt, 3
    {
      hide Valid, Handed, Limited, CString, Known, MessageOf, TaskMessage;
      TaskIsKnown(id, info);
      ghost var name := Text(Limited(CString(info.name), 32));
      EmptyPayload();
      var pos := AppendNum(4, [], id);
      assert [] + [Num(id)] == [Num(id)];
      pos := AppendNum(pos, [Num(id)], info.prio);
      assert [Num(id)] + [Num(info.prio)] == [Num(id), Num(info.prio)];
      pos := AppendStr(pos, [Num(id), Num(info.prio)], info.name, 32);
      assert [Num(id), Num(info.prio)] + [name] == [Num(id), Num(info.prio), name];
      SendFields(pos, 9, [Num(id), Num(info.prio), name]);
    }

    /** The callback of the operating system: it sends every task. */
    method SendTaskList()
      requires Valid()
      modifies Frame()
      ensures Valid() && Did(TaskListMessages(target.tasks, target.ramBase))
      decreases 1 - recursionCnt, 5
    {
      hide Valid, Handed, TaskMessages;
      var k := 0;
      HandedNothing(log, recursionCnt);
      while k < |target.tasks|
        invariant k <= |target.tasks|
        invariant Valid() && Did(TaskListMessages(target.tasks[..k], target.ramBase))
      {
        ghost var sofar := log;
        SendTaskInfo(target.tasks[k]);
        assert target.tasks[..k + 1][..k] == target.tasks[..k];
        HandedTwice(old(log), sofar, log, recursionCnt,
                    TaskListMessages(target.tasks[..k], target.ramBase), TaskMessages(target.tasks[k], target.ramBase));
        k := k + 1;
      }
      assert target.tasks[..k] == target.tasks;
    }

    /** The time stamp clock is read outside a packet. */
    method ReadClock() returns (t: u32)
      requires Valid()
      modifies clock`stamps
      ensures Valid() && clock.stamps == old(clock.stamps) + [t]
    {
      hide Logged, Subsequence, EventTimes;
      SubsequenceGoesOn(EventTimes(st.sent), clock.stamps);
      t := clock.Timestamp();
    }

    static lemma SubsequenceGoesOn(times: seq<u32>, stamps: seq<u32>)
      requires Subsequence(times, stamps)
      ensures forall t: u32 :: Subsequence(times, stamps + [t])
    {
      forall t: u32
        ensures Subsequence(times, stamps + [t])
      {
        SubsequenceSkips(times, stamps, t);
      }
    }

    /** The system time: 64 bits of the operating system's clock, or 32 bits of the time stamp clock. */
    method RecordSystime() returns (ghost time: nat)
      requires Valid()
      modifies Frame()
      ensures Valid() && Did([SystimeMessage(target.hasGetTime, time)]) && WasRead(time)
      decreases 1 - recursionCnt, 4
    {
      hide Valid, Handed;
      if target.hasGetTime {
        var systime := clock.GetTime();
        time := systime;
        assert clock.systimes[|old(clock.systimes)|] == time;
        assert Nums([Wrap32(systime), Wrap32(systime / 0x1_0000_0000)])
            == [Num(Wrap32(systime)), Num(Wrap32(systime / 0x1_0000_0000))];
        RecordU32s(13, [Wrap32(systime), Wrap32(systime / 0x1_0000_0000)]);
      } else {
        var t := ReadClock();
        time := t;
        assert clock.stamps[|old(clock.stamps)|] == t;
        assert Nums([t]) == [Num(t)];
        RecordU32s(12, [t]);
      }
    }

    method SendNumModules()
      requires Valid()
      modifies Frame()
      ensures Valid() && Did([NumModulesMessage(target.modules)])
      decreases 1 - recursionCnt, 4
    {
      hide Valid, Handed, EncodeFields;
      NumModulesLength(target.modules);
      RecordU32s(27, [|target.modules| % 256]);
    }

    /** A module's number, offset and one text about it. */
    method SendModuleText(moduleId: byte, offset: u32, text: cstring)
      requires Valid()
      modifies Frame()
      ensures Valid() && Did([ModuleMessage(moduleId, offset, text)])
      decreases 1 - recursionCnt, 3
    {
      hide Valid, Handed, Limited, CString, Known, MessageOf, ModuleMessage;
      ModuleIsKnown(moduleId, offset, text);
      EmptyPayload();
      var pos := AppendNum(4, [], moduleId);
      assert [] + [Num(moduleId)] == [Num(moduleId)];
      pos := AppendNum(pos, [Num(moduleId)], offset);
      assert [Num(moduleId)] + [Num(offset)] == [Num(moduleId), Num(offset)];
      pos := AppendStr(pos, [Num(moduleId), Num(offset)], text, MAX_STRING_LEN);
      assert [Num(moduleId), Num(offset)] + [Shortened(text)] == [Num(moduleId), Num(offset), Shortened(text)];
      SendFields(pos, 22, [Num(moduleId), Num(offset), Shortened(text)]);
    }

    /** Walks the list of modules to the one asked for. */
    method SendModule(moduleId: byte)
      requires Valid()
      modifies Frame()
      ensures Valid() && Did(ModuleMessages(target.modules, moduleId))
      decreases 1 - recursionCnt, 4
    {
      hide Valid, Handed, ModuleMessage;
      HandedNothing(log, recursionCnt);
      if |target.modules| != 0 {
        var index := 0;
        var n := 0;
        while n < moduleId
          invariant index == n <= moduleId && index < |target.modules|
        {
          index := index + 1;
          if index == |target.modules| {
            break;
          }
          n := n + 1;
        }
        if index != |target.modules| {
          SendModuleText(moduleId, target.modules[index].eventOffset, target.modules[index].name);
        }
      }
    }

    /** One text of a module's callback; the module's number is a byte counted up along the list. */
    method RecordModuleDescription(index: nat, text: cstring)
      requires Valid() && index < |target.modules|
      modifies Frame()
      ensures Valid() && Did([DescriptionMessage(target.modules, index, text)])
      decreases 1 - recursionCnt, 4
    {
      hide Valid, Handed, ModuleMessage;
      var moduleId: byte := 0;
      var p := 0;
      while p < |target.modules|
        invariant p <= index && moduleId == p % 256
      {
        if p == index {
          break;
        }
        moduleId := (moduleId + 1) % 256;
        p := p + 1;
      }
      SendModuleText(moduleId, target.modules[index].eventOffset, text);
    }

    /** The callback of one module. */
    method CallSendModuleDesc(index: nat)
      requires Valid() && index < |target.modules|
      modifies Frame()
      ensures Valid() && Did(TextsOfModule(target.modules, index, target.modules[index].descriptions))
      decreases 1 - recursionCnt, 5
    {
      hide Valid, Handed, DescriptionMessage;
      var texts := target.modules[index].descriptions;
      var k := 0;
      HandedNothing(log, recursionCnt);
      while k < |texts|
        invariant k <= |texts|
        invariant Valid() && Did(TextsOfModule(target.modules, index, texts[..k]))
      {
        ghost var sofar := log;
        RecordModuleDescription(index, texts[k]);
        assert texts[..k + 1][..k] == texts[..k];
        HandedTwice(old(log), sofar, log, recursionCnt,
                    TextsOfModule(target.modules, index, texts[..k]),
                    [DescriptionMessage(target.modules, index, texts[k])]);
        k := k + 1;
      }
      assert texts[..k] == texts;
    }

    method SendModuleDescription()
      requires Valid()
      modifies Frame()
      ensures Valid() && Did(DescriptionMessages(target.modules, |target.modules|))
      decreases 1 - recursionCnt, 6
    {
      hide Valid, Handed, TextsOfModule;
      HandedNothing(log, recursionCnt);
      var k := 0;
      while k < |target.modules|
        invariant k <= |target.modules|
        invariant Valid() && Did(DescriptionMessages(target.modules, k))
      {
        ghost var sofar := log;
        CallSendModuleDesc(k);
        HandedTwice(old(log), sofar, log, recursionCnt, DescriptionMessages(target.modules, k),
                    TextsOfModule(target.modules, k, target.modules[k].descriptions));
        k := k + 1;
      }
    }

    method SendInit()
      requires Valid()
      modifies Frame()
      ensures Valid() && Did([InitMessage(target)])
      decreases 1 - recursionCnt, 4
    {
      hide Valid, Handed, EncodeFields;
      InitLength(target);
      RecordU32s(24, [target.sysFreq, target.cpuFreq, target.ramBase, 2]);
    }

    method GetSysDesc()
      requires Valid()
      modifies Frame()
      ensures Valid() && Did([InitMessage(target)] + SysDescMessages(target.sysDesc))
      decreases 1 - recursionCnt, 6
    {
      hide Valid, Handed, InitMessage, SysDescMessages;
      SendInit();
      ghost var sofar := log;
      CallSendSysDesc();
      HandedTwice(old(log), sofar, log, recursionCnt, [InitMessage(target)], SysDescMessages(target.sysDesc));
    }

    // ----------------------------------------------------------- start and stop

    /** Recording on, and the sync sequence into the ring if it fits. */
    method SwitchOnWithSync() returns (ghost fits: bool)
      requires Valid() && enableState == OFF
      modifies Frame()
      ensures Valid() && Switched([]) && enableState == ON
      ensures log == old(log) + [Entry(SwitchOn, recursionCnt)] + [Entry(Sync(fits), recursionCnt)]
    {
      hide Run, GoodLog, Passed, MessagesAt, Subsequence;
      enableState := ON;
      LogQuietly(SwitchOn);
      ghost var sofar := log;
      fits := StoreSync();
      PassedTwice(old(log), sofar, log, recursionCnt, [], []);
    }

    method StoreSync() returns (ghost fits: bool)
      requires Valid() && log != [] && log[|log| - 1].step == SwitchOn
      modifies Frame()
      ensures Valid() && Switched([])
      ensures log == old(log) + [Entry(Sync(fits), recursionCnt)] && enableState == old(enableState)
    {
      hide Logged, Timed, Passed, Synced, Apply;
      var stored := WriteSync(st);
      fits := stored;
      LogQuietly(Sync(fits));
      SyncKeepsEnable(old(st), fits);
    }

    /** The sync sequence goes to the ring if it fits. */
    method WriteSync(ghost s: State) returns (stored: bool)
      requires Shape() && Synced(s)
      modifies up`rdOff, up`consumed, up`wrOff, up.data, down`wrOff, down.data
      ensures Shape() && Synced(Apply(s, Sync(stored)))
    {
      hide RingStore, Advance, Free, Unread, TryOverflow, TryEvent, Logged, Timed;
      HostActs();
      stored := up.WriteSkipNoLock(SYNC);
    }

    static lemma SyncKeepsEnable(s: State, fits: bool)
      ensures Apply(s, Sync(fits)).enable == s.enable
    {
    }

    /** A step that hands nothing to the sender. */
    ghost method LogQuietly(e: Step)
      requires Logged() && Timed() && !e.Send? && recursionCnt <= 1
      requires e.Sync? ==> log != [] && log[|log| - 1].step == SwitchOn
      modifies this`log, this`st
      ensures Logged() && Timed() && st == Apply(old(st), e)
      ensures log == old(log) + [Entry(e, recursionCnt)] && Passed(old(log), log, recursionCnt, [])
    {
      StepKeepsTimes(st, e, clock.stamps);
      assert clock.stamps + [] == clock.stamps;
      Log(e);
      MessagesSnoc(old(log), Entry(e, recursionCnt), 0);
      MessagesSnoc(old(log), Entry(e, recursionCnt), 1);
    }

    /** Recording starts: sync sequence, then all the target has to tell of itself. Started already, nothing happens. */
    method Start() returns (ghost fits: bool, ghost time: nat)
      requires Valid()
      modifies Frame()
      ensures Valid() && Switched(if old(enableState) == OFF then StartMessages(target, time) else [])
      ensures old(enableState) == OFF
              ==> && old(log) + [Entry(SwitchOn, recursionCnt)] + [Entry(Sync(fits), recursionCnt)] <= log
                  && WasRead(time)
      ensures old(enableState) != OFF ==> log == old(log) && enableState == old(enableState)
      // Started by the host, it does nothing else, and recording is on afterwards.
      ensures recursionCnt == 1 ==> enableState != OFF
      ensures recursionCnt == 1 && old(enableState) == OFF ==> SendsFrom(log, |old(log)| + 2)
      decreases 1 - recursionCnt, 7
    {
      hide Valid, Passed, StartMessages, SendsFrom, Run, GoodLog, CountInv, Subsequence, EventTimes, Steps, Initial;
      fits, time := false, 0;
      HandedNothing(log, recursionCnt);
      HandedPasses(log, log, recursionCnt, []);
      if enableState == OFF {
        fits := SwitchOnWithSync();
        ghost var sofar := log;
        StateFacts();
        time := SendStartMessages();
        HandedPasses(sofar, log, recursionCnt, StartMessages(target, time));
        PassedTwice(old(log), sofar, log, recursionCnt, [], StartMessages(target, time));
        assert [] + StartMessages(target, time) == StartMessages(target, time);
        HandedExtends(sofar, log, recursionCnt, StartMessages(target, time));
        if recursionCnt == 1 {
          StaysOn(Initial(t0), sofar, log);
          StateFacts();
        }
      }
    }

    method SendStartMessages() returns (ghost time: nat)
      requires Valid()
      modifies Frame()
      ensures Valid() && Did(StartMessages(target, time)) && WasRead(time)
      decreases 1 - recursionCnt, 6
    {
      hide Valid, Handed, InitMessage, SysDescMessages, TaskListMessages, NumModulesMessage, SystimeMessage;
      ghost var l0, level, t := log, recursionCnt, target;
      RecordVoid(10);
      ghost var l1 := log;
      SendInit();
      ghost var l2 := log;
      CallSendSysDesc();
      ghost var l3 := log;
      time := RecordSystime();
      ghost var l4 := log;
      SendTaskList();
      ghost var l5 := log;
      SendNumModules();
      ghost var ms := [Standard(10, [])];
      HandedTwice(l0, l1, l2, level, ms, [InitMessage(t)]);
      ms := ms + [InitMessage(t)];
      HandedTwice(l0, l2, l3, level, ms, SysDescMessages(t.sysDesc));
      ms := ms + SysDescMessages(t.sysDesc);
      HandedTwice(l0, l3, l4, level, ms, [SystimeMessage(t.hasGetTime, time)]);
      ms := ms + [SystimeMessage(t.hasGetTime, time)];
      HandedTwice(l0, l4, l5, level, ms, TaskListMessages(t.tasks, t.ramBase));
      HandedTwice(l0, l5, log, level, ms + TaskListMessages(t.tasks, t.ramBase), [NumModulesMessage(t.modules)]);
    }

    /** A last packet, then recording is off. */
    method Stop()
      requires Valid()
      modifies Frame()
      ensures Valid() && Switched(if old(enableState) == OFF then [] else [Standard(11, [])])
      ensures enableState == OFF
      ensures old(enableState) == OFF ==> log == old(log)
      // Stopped by the host, it does just this.
      ensures recursionCnt == 1 && old(enableState) != OFF ==>
                && |log| == |old(log)| + 2 && log[|old(log)|].step.Send? && log[|old(log)|].level == 1
                && log[|old(log)| + 1] == Entry(SwitchOff, 1)
      decreases 1 - recursionCnt, 4
    {
      hide Valid, Passed, SendsFrom;
      HandedNothing(log, recursionCnt);
      HandedPasses(log, log, recursionCnt, []);
      if enableState != OFF {
        RecordVoid(11);
        ghost var sofar := log;
        HandedPasses(old(log), log, recursionCnt, [Standard(11, [])]);
        if recursionCnt == 1 {
          OneSend(old(log), log, Standard(11, []));
        }
        SwitchEnableOff();
        PassedTwice(old(log), sofar, log, recursionCnt, [Standard(11, [])], []);
        assert [Standard(11, [])] + [] == [Standard(11, [])];
      }
    }

    method SwitchEnableOff()
      requires Valid()
      modifies this`enableState, this`log, this`st
      ensures Valid() && Switched([]) && log == old(log) + [Entry(SwitchOff, recursionCnt)]
      ensures enableState == OFF
    {
      hide Logged, Timed, Passed, Shape;
      enableState := OFF;
      LogQuietly(SwitchOff);
    }

    method EnableEvents(enableMask: u32)
      requires Valid()
      modifies this`disabledEvents, this`log, this`st
      ensures Valid() && Switched([]) && disabledEvents == old(disabledEvents) - Bits(enableMask)
      ensures forall id :: IsMasked(disabledEvents, id) <==> IsMasked(old(disabledEvents), id) && !Bit(enableMask, id)
    {
      hide Logged, Timed, Passed, Shape, Bit;
      disabledEvents := disabledEvents - Bits(enableMask);
      LogQuietly(Mask(disabledEvents));
    }

    method DisableEvents(disableMask: u32)
      requires Valid()
      modifies this`disabledEvents, this`log, this`st
      ensures Valid() && Switched([]) && disabledEvents == old(disabledEvents) + Bits(disableMask)
      ensures forall id :: IsMasked(disabledEvents, id) <==> IsMasked(old(disabledEvents), id) || Bit(disableMask, id)
    {
      hide Logged, Timed, Passed, Shape, Bit;
      disabledEvents := disabledEvents + Bits(disableMask);
      LogQuietly(Mask(disabledEvents));
    }

    // --------------------------------------------------------- host commands

    /** One byte from the down-buffer, if there is one. */
    method ReadCommand() returns (cmd: Option<byte>)
      requires Valid()
      modifies down`rdOff, down`consumed
      ensures Valid()
      ensures cmd == if |old(down.Contents())| == 0 then None else Some(old(down.Contents())[0])
      ensures down.consumed == old(down.consumed) + Bytes(cmd)
      ensures |old(down.Contents())| > 0 ==> down.Contents() == old(down.Contents())[1..]
    {
      hide Logged, Timed, Distance, Advance, Unread;
      cmd := TakeByte(down);
    }

    static method TakeByte(ring: Ring) returns (cmd: Option<byte>)
      requires ring.Valid()
      modifies ring`rdOff, ring`consumed
      ensures ring.Valid()
      ensures cmd == if |old(ring.Contents())| == 0 then None else Some(old(ring.Contents())[0])
      ensures ring.consumed == old(ring.consumed) + Bytes(cmd)
      ensures |old(ring.Contents())| > 0 ==> ring.Contents() == old(ring.Contents())[1..]
    {
      hide Distance, Advance, Unread;
      var cell := new byte[1];
      var status := ring.ReadNoLock(cell, 1);
      if status > 0 {
        assert cell[..][0] == old(ring.Contents())[0];
        cmd := Some(cell[0]);
      } else {
        cmd := None;
      }
    }

    /** The byte behind a command, if the host has written it by now. */
    method ReadParameter() returns (param: Option<byte>)
      requires Valid()
      modifies up`rdOff, up`consumed, down`wrOff, down`rdOff, down`consumed, down.data
      ensures Valid()
      ensures down.consumed == old(down.consumed) + Bytes(param)
      ensures |old(down.Contents())| > 0 ==> param == Some(old(down.Contents())[0])
    {
      hide Logged, Timed;
      HostActs();
      param := ReadCommand();
    }

    /** Reads one command of the host, with its parameter from 128 on, and obeys it. */
    method HandleIncomingPacket() returns (ghost v: Served)
      requires Valid() && recursionCnt == 1
      modifies Frame()
      ensures Valid() && recursionCnt == 1 && Answered(old(log), v)
      ensures |old(down.Contents())| == 0 ==> v.cmd == None
      decreases 1 - recursionCnt, 8
    {
      hide Valid, Passed, StartMessages, InitMessage, SysDescMessages, TaskListMessages, SendsFrom;
      hide NumModulesMessage, SystimeMessage, ModuleMessages, DescriptionMessages, Run;
      HandedNothing(log, recursionCnt);
      HandedPasses(log, log, recursionCnt, []);
      v := Served(None, None, 0, false);
      var status := ReadCommand();
      match status {
        case None =>
        case Some(cmd) =>
          v := v.(cmd := status);
          match cmd {
            case 1 =>
              ghost var fits, time := Start();
              v := v.(time := time, synced := fits);
            case 2 => Stop();
            case 3 =>
              ghost var time := RecordSystime();
              v := v.(time := time);
            case 4 => SendTaskList();
            case 5 => GetSysDesc();
            case 6 => SendNumModules();
            case 7 => SendModuleDescription();
            case 128 =>
              var moduleId := ReadParameter();
              v := v.(param := moduleId);
              if moduleId.Some? {
                SendModule(moduleId.value);
              }
            case _ =>
              if cmd >= 128 {
                var dummy := ReadParameter();
                v := v.(param := dummy);
              }
          }
      }
    }
  }
}
