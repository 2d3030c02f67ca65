/**
 What a SystemView host learns from the recorder's own messages: a listener that
 rebuilds frequencies, RAM base, tasks, stacks, times, descriptions and modules
 from what it hears, and the proof that it hears what the target was configured
 with.
 */
module SysViewHost {
  import opened Words
  import opened SysViewCodec
  import opened SysViewEncoder
  import opened SysViewRecorder

  datatype HeardTask = HeardTask(id: u32, prio: u32, name: seq<byte>)
  datatype HeardStack = HeardStack(id: u32, base: u32, size: u32)
  datatype HeardText = HeardText(moduleId: nat, offset: u32, text: seq<byte>)

  datatype Heard = Heard(
    started: bool, stopped: bool,
    sysFreq: u32, cpuFreq: u32, ramBase: u32, idShift: nat,
    descs: seq<seq<byte>>, tasks: seq<HeardTask>, stacks: seq<HeardStack>,
    time: nat, numModules: nat, texts: seq<HeardText>)

  function Shifted(v: nat, bits: nat): nat {
    if bits == 0 then v else 2 * Shifted(v, bits - 1)
  }

  /** An id as the target knows it. */
  function FullId(h: Heard, id: u32): u32 {
    Wrap32(h.ramBase + Shifted(id, h.idShift))
  }

  /** One message with its fields; others do not concern the target's description. */
  function HearFields(h: Heard, id: nat, fs: seq<Field>): Heard {
    if id == 10 then h.(started := true)
    else if id == 11 then h.(stopped := true)
    else if id == 9 && |fs| == 3 && fs[0].Num? && fs[1].Num? && fs[2].Text? then
      h.(tasks := h.tasks + [HeardTask(FullId(h, fs[0].v), fs[1].v, fs[2].text)])
    else if id == 21 && |fs| == 4 && fs[0].Num? && fs[1].Num? && fs[2].Num? then
      h.(stacks := h.stacks + [HeardStack(FullId(h, fs[0].v), fs[1].v, fs[2].v)])
    else if id == 14 && |fs| == 1 && fs[0].Text? then h.(descs := h.descs + [fs[0].text])
    else if id == 12 && |fs| == 1 && fs[0].Num? then h.(time := fs[0].v)
    else if id == 13 && |fs| == 2 && fs[0].Num? && fs[1].Num? then
      h.(time := fs[0].v + 0x1_0000_0000 * fs[1].v)
    else if id == 22 && |fs| == 3 && fs[0].Num? && fs[1].Num? && fs[2].Text? then
      h.(texts := h.texts + [HeardText(fs[0].v, fs[1].v, fs[2].text)])
    else if id == 24 && |fs| == 4 && fs[0].Num? && fs[1].Num? && fs[2].Num? && fs[3].Num? then
      h.(sysFreq := fs[0].v, cpuFreq := fs[1].v, ramBase := fs[2].v, idShift := fs[3].v)
    else if id == 27 && |fs| == 1 && fs[0].Num? then h.(numModules := fs[0].v)
    else h
  }

  function Nums4(): seq<Kind> {
    [NumKind, NumKind, NumKind, NumKind]
  }

  /** One message; those with a payload are parsed first. */
  function Hear(h: Heard, m: Message): Heard {
    match m
    case Standard(id, fs) => HearFields(h, id, fs)
    case Extended(id, payload) =>
      var r := ParseFields(if id == 24 then Nums4() else [NumKind], payload);
      if (id == 24 || id == 27) && r.Some? && r.value.1 == [] then HearFields(h, id, r.value.0) else h
  }

  function HearAll(h: Heard, ms: seq<Message>): Heard
    decreases |ms|
  {
    if ms == [] then h else Hear(HearAll(h, ms[..|ms| - 1]), ms[|ms| - 1])
  }

  lemma {:induction false} HearConcat(h: Heard, a: seq<Message>, b: seq<Message>)
    ensures HearAll(h, a + b) == HearAll(HearAll(h, a), b)
    decreases |b|
  {
    hide Hear;
    if b == [] {
      assert a + b == a;
    } else {
      assert (a + b)[..|a| + |b| - 1] == a + b[..|b| - 1];
      HearConcat(h, a, b[..|b| - 1]);
    }
  }

  lemma HearOne(h: Heard, m: Message)
    ensures HearAll(h, [m]) == Hear(h, m)
  {
    hide Hear;
    assert [m][..0] == [];
    assert HearAll(h, []) == h;
  }

  // ------------------------------------------------------------ what there is to hear

  /** A name as it gets through: all of it, or as much as there is room for. */
  function Cut(text: cstring, limit: nat): (r: seq<byte>)
    ensures r <= CString(text) && |r| == Min(|CString(text)|, limit)
  {
    CString(text)[..Min(|CString(text)|, limit)]
  }

  /** An id as it gets through: without its two lowest bits above the RAM base. */
  function RoundedId(id: u32, ramBase: u32): u32 {
    Wrap32(id - Wrap32(id - ramBase) % 4)
  }

  function TaskOf(info: TaskInfo, ramBase: u32): HeardTask {
    HeardTask(RoundedId(info.taskId, ramBase), info.prio, Cut(info.name, 32))
  }

  function StackOf(info: TaskInfo, ramBase: u32): HeardStack {
    HeardStack(RoundedId(info.taskId, ramBase), info.stackBase, info.stackSize)
  }

  function TasksOf(tasks: seq<TaskInfo>, ramBase: u32): seq<HeardTask> {
    seq(|tasks|, k requires 0 <= k < |tasks| => TaskOf(tasks[k], ramBase))
  }

  function StacksOf(tasks: seq<TaskInfo>, ramBase: u32): seq<HeardStack> {
    seq(|tasks|, k requires 0 <= k < |tasks| => StackOf(tasks[k], ramBase))
  }

  function DescsOf(texts: seq<cstring>): seq<seq<byte>> {
    seq(|texts|, k requires 0 <= k < |texts| => Cut(texts[k], 128))
  }

  function TextOf(index: nat, offset: u32, text: cstring): HeardText {
    HeardText(index % 256, offset, Cut(text, 128))
  }

  function TextsOf(index: nat, offset: u32, texts: seq<cstring>): seq<HeardText> {
    seq(|texts|, k requires 0 <= k < |texts| => TextOf(index, offset, texts[k]))
  }

  function AllTexts(modules: seq<EventModule>, n: nat): seq<HeardText>
    requires n <= |modules|
  {
    if n == 0 then []
    else AllTexts(modules, n - 1) + TextsOf(n - 1, modules[n - 1].eventOffset, modules[n - 1].descriptions)
  }

  lemma TasksOfSnoc(tasks: seq<TaskInfo>, info: TaskInfo, ramBase: u32)
    ensures TasksOf(tasks + [info], ramBase) == TasksOf(tasks, ramBase) + [TaskOf(info, ramBase)]
    ensures StacksOf(tasks + [info], ramBase) == StacksOf(tasks, ramBase) + [StackOf(info, ramBase)]
  {
    hide TaskOf, StackOf;
  }

  lemma TextsOfSnoc(index: nat, offset: u32, texts: seq<cstring>, text: cstring)
    ensures TextsOf(index, offset, texts + [text]) == TextsOf(index, offset, texts) + [TextOf(index, offset, text)]
  {
    hide TextOf;
  }

  lemma Grouped<T>(a: seq<T>, b: seq<T>, c: seq<T>)
    ensures (a + b) + c == a + (b + c)
  {
  }

  /** The system time as it gets through: 64 bits of it, or 32. */
  function TimeOf(t: Target, time: nat): nat {
    if t.hasGetTime then time % 0x1_0000_0000_0000_0000 else time % 0x1_0000_0000
  }

  // ------------------------------------------------------------------------ ids

  /** Taking the RAM base and two bits off an id and putting them back gives the id but for these bits. */
  lemma IdIsRebuilt(h: Heard, id: u32)
    requires h.idShift == 2
    ensures FullId(h, ShrinkId(id, h.ramBase)) == RoundedId(id, h.ramBase)
  {
    var d := Wrap32(id - h.ramBase);
    assert Shifted(d / 4, 2) == 4 * (d / 4) by {
      assert Shifted(d / 4, 0) == d / 4;
      assert Shifted(d / 4, 1) == 2 * (d / 4);
    }
    assert 4 * (d / 4) == d - d % 4;
    WrapBack(id, h.ramBase, d % 4);
  }

  lemma WrapBack(id: u32, base: u32, r: nat)
    ensures Wrap32(base + (Wrap32(id - base) - r)) == Wrap32(id - r)
  {
    if id >= base {
      assert Wrap32(id - base) == id - base;
    } else {
      assert Wrap32(id - base) == id - base + 0x1_0000_0000;
      assert base + (Wrap32(id - base) - r) == id - r + 0x1_0000_0000;
    }
  }

  /** Ids on a word boundary above the RAM base get through exactly. */
  lemma WordIdsAreExact(id: u32, ramBase: u32)
    ensures RoundedId(id, ramBase) == id <==> Wrap32(id - ramBase) % 4 == 0
  {
    var r := Wrap32(id - ramBase) % 4;
    hide Wrap32;
    SmallOffset(id, r);
  }

  lemma SmallOffset(id: u32, r: nat)
    requires r < 4
    ensures Wrap32(id - r) == id <==> r == 0
  {
  }

  // ------------------------------------------------------------- parts of the start

  lemma InitIsHeard(h: Heard, t: Target)
    ensures Hear(h, InitMessage(t))
         == h.(sysFreq := t.sysFreq, cpuFreq := t.cpuFreq, ramBase := t.ramBase, idShift := 2)
  {
    var fs := [Num(t.sysFreq), Num(t.cpuFreq), Num(t.ramBase), Num(2)];
    FieldsRoundTrip(fs, Nums4(), []);
    assert EncodeFields(fs) + [] == EncodeFields(fs);
    hide EncodeFields, ParseFields;
  }

  lemma NumModulesIsHeard(h: Heard, modules: seq<EventModule>)
    ensures Hear(h, NumModulesMessage(modules)) == h.(numModules := |modules| % 256)
  {
    var fs := [Num(|modules| % 256)];
    FieldsRoundTrip(fs, [NumKind], []);
    assert EncodeFields(fs) + [] == EncodeFields(fs);
    hide EncodeFields, ParseFields;
  }

  lemma SystimeIsHeard(h: Heard, t: Target, time: nat)
    ensures Hear(h, SystimeMessage(t.hasGetTime, time)) == h.(time := TimeOf(t, time))
  {
    TwoWords(time);
  }

  lemma TwoWords(time: nat)
    ensures Wrap32(time) + 0x1_0000_0000 * Wrap32(time / 0x1_0000_0000) == time % 0x1_0000_0000_0000_0000
  {
    var hi, lo := time / 0x1_0000_0000, time % 0x1_0000_0000;
    var top, mid := hi / 0x1_0000_0000, hi % 0x1_0000_0000;
    assert time == 0x1_0000_0000_0000_0000 * top + (0x1_0000_0000 * mid + lo);
  }

  lemma {:induction false} DescsAreHeard(h: Heard, texts: seq<cstring>)
    ensures HearAll(h, SysDescMessages(texts)) == h.(descs := h.descs + DescsOf(texts))
    decreases |texts|
  {
    hide CString;
    if texts == [] {
      assert h.descs + DescsOf(texts) == h.descs;
    } else {
      var n := |texts| - 1;
      DescsAreHeard(h, texts[..n]);
      HearConcat(h, SysDescMessages(texts[..n]), [SysDescMessage(texts[n])]);
      HearOne(h.(descs := h.descs + DescsOf(texts[..n])), SysDescMessage(texts[n]));
      assert DescsOf(texts) == DescsOf(texts[..n]) + [Cut(texts[n], 128)];
      assert h.descs + DescsOf(texts) == h.descs + DescsOf(texts[..n]) + [Cut(texts[n], 128)];
    }
  }

  lemma TaskIsHeard(h: Heard, info: TaskInfo)
    requires h.idShift == 2
    ensures HearAll(h, TaskMessages(info, h.ramBase))
         == h.(tasks := h.tasks + [TaskOf(info, h.ramBase)], stacks := h.stacks + [StackOf(info, h.ramBase)])
  {
    hide CString, ShrinkId, RoundedId, FullId;
    var ms := TaskMessages(info, h.ramBase);
    IdIsRebuilt(h, info.taskId);
    HearOne(h, ms[0]);
    var h1 := Hear(h, ms[0]);
    SameBase(h, h1, ShrinkId(info.taskId, h.ramBase));
    HearOne(h1, ms[1]);
    HearConcat(h, [ms[0]], [ms[1]]);
    assert ms == [ms[0]] + [ms[1]];
  }

  lemma SameBase(h: Heard, h1: Heard, id: u32)
    requires h1.ramBase == h.ramBase && h1.idShift == h.idShift
    ensures FullId(h1, id) == FullId(h, id)
  {
  }

  lemma {:induction false} TasksAreHeard(h: Heard, tasks: seq<TaskInfo>)
    requires h.idShift == 2
    ensures HearAll(h, TaskListMessages(tasks, h.ramBase))
         == h.(tasks := h.tasks + TasksOf(tasks, h.ramBase), stacks := h.stacks + StacksOf(tasks, h.ramBase))
    decreases |tasks|
  {
    hide TaskOf, StackOf, TaskMessages;
    if tasks == [] {
      assert h.tasks + TasksOf(tasks, h.ramBase) == h.tasks && h.stacks + StacksOf(tasks, h.ramBase) == h.stacks;
    } else {
      var n := |tasks| - 1;
      var before, info := tasks[..n], tasks[n];
      assert tasks == before + [info];
      TasksAreHeard(h, before);
      TasksOfSnoc(before, info, h.ramBase);
      hide TasksOf, StacksOf;
      HearConcat(h, TaskListMessages(before, h.ramBase), TaskMessages(info, h.ramBase));
      var h' := h.(tasks := h.tasks + TasksOf(before, h.ramBase), stacks := h.stacks + StacksOf(before, h.ramBase));
      TaskIsHeard(h', info);
      Grouped(h.tasks, TasksOf(before, h.ramBase), [TaskOf(info, h.ramBase)]);
      Grouped(h.stacks, StacksOf(before, h.ramBase), [StackOf(info, h.ramBase)]);
    }
  }

  lemma ModuleIsHeard(h: Heard, moduleId: byte, offset: u32, text: cstring)
    ensures Hear(h, ModuleMessage(moduleId, offset, text))
         == h.(texts := h.texts + [TextOf(moduleId, offset, text)])
  {
    hide CString;
  }

  /** A module's number is counted in a byte. */
  lemma SameText(index: nat, offset: u32, text: cstring)
    ensures TextOf(index % 256, offset, text) == TextOf(index, offset, text)
  {
    hide Cut;
  }

  lemma {:induction false} TextsAreHeard(h: Heard, modules: seq<EventModule>, index: nat, texts: seq<cstring>)
    requires index < |modules|
    ensures HearAll(h, TextsOfModule(modules, index, texts))
         == h.(texts := h.texts + TextsOf(index, modules[index].eventOffset, texts))
    decreases |texts|
  {
    hide Cut, Hear, ModuleMessage, TextOf;
    var offset := modules[index].eventOffset;
    if texts == [] {
      assert h.texts + TextsOf(index, offset, texts) == h.texts;
    } else {
      var n := |texts| - 1;
      var last := DescriptionMessage(modules, index, texts[n]);
      TextsAreHeard(h, modules, index, texts[..n]);
      HearConcat(h, TextsOfModule(modules, index, texts[..n]), [last]);
      assert texts == texts[..n] + [texts[n]];
      TextsOfSnoc(index, offset, texts[..n], texts[n]);
      assert TextsOfModule(modules, index, texts) == TextsOfModule(modules, index, texts[..n]) + [last];
      hide TextsOf, TextsOfModule, HearAll;
      var h' := h.(texts := h.texts + TextsOf(index, offset, texts[..n]));
      HearOne(h', last);
      ModuleIsHeard(h', index % 256, offset, texts[n]);
      SameText(index, offset, texts[n]);
      Grouped(h.texts, TextsOf(index, offset, texts[..n]), [TextOf(index, offset, texts[n])]);
    }
  }

  lemma {:induction false} AllTextsAreHeard(h: Heard, modules: seq<EventModule>, n: nat)
    requires n <= |modules|
    ensures HearAll(h, DescriptionMessages(modules, n)) == h.(texts := h.texts + AllTexts(modules, n))
    decreases n
  {
    hide TextsOf, TextsOfModule, Hear, HearAll;
    if n == 0 {
      HearNone(h);
      assert h.texts + AllTexts(modules, n) == h.texts;
    } else {
      var m := modules[n - 1];
      AllTextsAreHeard(h, modules, n - 1);
      HearConcat(h, DescriptionMessages(modules, n - 1), TextsOfModule(modules, n - 1, m.descriptions));
      TextsAreHeard(h.(texts := h.texts + AllTexts(modules, n - 1)), modules, n - 1, m.descriptions);
      Grouped(h.texts, AllTexts(modules, n - 1), TextsOf(n - 1, m.eventOffset, m.descriptions));
    }
  }

  lemma HearNone(h: Heard)
    ensures HearAll(h, []) == h
  {
  }

  /** The texts heard of one module number. */
  function OfModule(texts: seq<HeardText>, moduleId: nat): seq<HeardText>
    decreases |texts|
  {
    if texts == [] then []
    else
      var n := |texts| - 1;
      OfModule(texts[..n], moduleId) + if texts[n].moduleId == moduleId then [texts[n]] else []
  }

  lemma {:induction false} OfModuleConcat(a: seq<HeardText>, b: seq<HeardText>, moduleId: nat)
    ensures OfModule(a + b, moduleId) == OfModule(a, moduleId) + OfModule(b, moduleId)
    decreases |b|
  {
    if b == [] {
      assert a + b == a && OfModule(a, moduleId) + [] == OfModule(a, moduleId);
    } else {
      assert (a + b)[..|a| + |b| - 1] == a + b[..|b| - 1];
      OfModuleConcat(a, b[..|b| - 1], moduleId);
    }
  }

  lemma {:induction false} OfModuleSame(texts: seq<HeardText>, n: nat, moduleId: nat)
    requires forall k | 0 <= k < |texts| :: texts[k].moduleId == n
    ensures OfModule(texts, moduleId) == if moduleId == n then texts else []
    decreases |texts|
  {
    if texts != [] {
      OfModuleSame(texts[..|texts| - 1], n, moduleId);
      assert texts == texts[..|texts| - 1] + [texts[|texts| - 1]];
    }
  }

  lemma TextsBearNumber(index: nat, offset: u32, texts: seq<cstring>)
    requires index < 256
    ensures forall k | 0 <= k < |TextsOf(index, offset, texts)| :: TextsOf(index, offset, texts)[k].moduleId == index
  {
    hide Cut;
  }

  /** With no more than 256 modules a host can tell whose text is whose. */
  lemma {:induction false} TextsAreSorted(modules: seq<EventModule>, n: nat, index: nat)
    requires n <= |modules| <= 256 && index < |modules|
    ensures OfModule(AllTexts(modules, n), index)
         == if index < n then TextsOf(index, modules[index].eventOffset, modules[index].descriptions) else []
    decreases n
  {
    hide TextsOf, OfModule;
    if n == 0 {
      assert OfModule([], index) == [] by {
        NoneOfModule(index);
      }
    } else {
      var m := modules[n - 1];
      TextsAreSorted(modules, n - 1, index);
      OfModuleConcat(AllTexts(modules, n - 1), TextsOf(n - 1, m.eventOffset, m.descriptions), index);
      TextsBearNumber(n - 1, m.eventOffset, m.descriptions);
      OfModuleSame(TextsOf(n - 1, m.eventOffset, m.descriptions), n - 1, index);
    }
  }

  lemma NoneOfModule(index: nat)
    ensures OfModule([], index) == []
  {
  }

  // ------------------------------------------------------------------ what is heard

  /** A host that hears a start knows the whole target. */
  lemma StartIsHeard(h: Heard, t: Target, time: nat)
    ensures HearAll(h, StartMessages(t, time))
         == h.(started := true, sysFreq := t.sysFreq, cpuFreq := t.cpuFreq, ramBase := t.ramBase, idShift := 2,
               descs := h.descs + DescsOf(t.sysDesc), time := TimeOf(t, time),
               tasks := h.tasks + TasksOf(t.tasks, t.ramBase), stacks := h.stacks + StacksOf(t.tasks, t.ramBase),
               numModules := |t.modules| % 256)
  {
    hide InitMessage, SysDescMessages, SystimeMessage, TaskListMessages, NumModulesMessage;
    var ms := [Standard(10, [])];
    HearOne(h, ms[0]);
    var h1 := h.(started := true);
    assert Hear(h, ms[0]) == h1;
    hide Hear, TimeOf, TasksOf, StacksOf, DescsOf;
    HearConcat(h, ms, [InitMessage(t)]);
    HearOne(h1, InitMessage(t));
    InitIsHeard(h1, t);
    ms := ms + [InitMessage(t)];
    var h2 := HearAll(h, ms);
    HearConcat(h, ms, SysDescMessages(t.sysDesc));
    DescsAreHeard(h2, t.sysDesc);
    ms := ms + SysDescMessages(t.sysDesc);
    var h3 := HearAll(h, ms);
    HearConcat(h, ms, [SystimeMessage(t.hasGetTime, time)]);
    HearOne(h3, SystimeMessage(t.hasGetTime, time));
    SystimeIsHeard(h3, t, time);
    ms := ms + [SystimeMessage(t.hasGetTime, time)];
    var h4 := HearAll(h, ms);
    HearConcat(h, ms, TaskListMessages(t.tasks, t.ramBase));
    TasksAreHeard(h4, t.tasks);
    ms := ms + TaskListMessages(t.tasks, t.ramBase);
    var h5 := HearAll(h, ms);
    HearConcat(h, ms, [NumModulesMessage(t.modules)]);
    HearOne(h5, NumModulesMessage(t.modules));
    NumModulesIsHeard(h5, t.modules);
  }

  /** What a host that knows the RAM base learns from the answer to each of its commands. */
  lemma AnswerIsHeard(h: Heard, cmd: byte, param: Option<byte>, off: bool, t: Target, time: nat)
    requires h.idShift == 2 && h.ramBase == t.ramBase
    ensures var heard := HearAll(h, Answer(Some(cmd), param, off, t, time));
            && (cmd == 2 && !off ==> heard == h.(stopped := true))
            && (cmd == 3 ==> heard == h.(time := TimeOf(t, time)))
            && (cmd == 4 ==> heard == h.(tasks := h.tasks + TasksOf(t.tasks, t.ramBase),
                                         stacks := h.stacks + StacksOf(t.tasks, t.ramBase)))
            && (cmd == 5 ==> heard == h.(sysFreq := t.sysFreq, cpuFreq := t.cpuFreq, ramBase := t.ramBase, idShift := 2,
                                         descs := h.descs + DescsOf(t.sysDesc)))
            && (cmd == 6 ==> heard == h.(numModules := |t.modules| % 256))
            && (cmd == 7 ==> heard == h.(texts := h.texts + AllTexts(t.modules, |t.modules|)))
            && (cmd == 128 && param.Some? && param.value < |t.modules| ==>
                  var m := t.modules[param.value];
                  heard == h.(texts := h.texts + [TextOf(param.value, m.eventOffset, m.name)]))
            && ((cmd == 0 || 8 <= cmd < 128 || cmd > 128 || (cmd == 1 && !off) || (cmd == 2 && off)) ==> heard == h)
  {
    hide InitMessage, SysDescMessages, SystimeMessage, TaskListMessages, NumModulesMessage, ModuleMessage;
    hide DescriptionMessages, StartMessages, TasksOf, StacksOf, DescsOf, AllTexts, TimeOf, Cut;
    match cmd {
      case 2 => HearOne(h, Standard(11, []));
      case 3 =>
        HearOne(h, SystimeMessage(t.hasGetTime, time));
        SystimeIsHeard(h, t, time);
      case 4 => TasksAreHeard(h, t.tasks);
      case 5 =>
        HearOne(h, InitMessage(t));
        InitIsHeard(h, t);
        HearConcat(h, [InitMessage(t)], SysDescMessages(t.sysDesc));
        DescsAreHeard(Hear(h, InitMessage(t)), t.sysDesc);
      case 6 =>
        HearOne(h, NumModulesMessage(t.modules));
        NumModulesIsHeard(h, t.modules);
      case 7 => AllTextsAreHeard(h, t.modules, |t.modules|);
      case 128 =>
        if param.Some? && param.value < |t.modules| {
          var m := t.modules[param.value];
          HearOne(h, ModuleMessage(param.value, m.eventOffset, m.name));
          ModuleIsHeard(h, param.value, m.eventOffset, m.name);
        }
      case _ =>
    }
  }
}
