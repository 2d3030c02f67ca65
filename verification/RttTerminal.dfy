/**
 SEGGER RTT's sixteen terminals on channel 0. The target multiplexes them by
 switch sequences, 0xFF and a hexadecimal digit; the host takes them apart again.
 */
module RttTerminal {
  import opened Words
  import opened RttRing
  import opened RttBuffer

  const NUM_TERMINALS := 16
  const SWITCH: byte := 0xFF

  /** The digit that names a terminal in a switch sequence. */
  function TerminalDigit(id: nat): (b: byte)
    requires id < NUM_TERMINALS
  {
    if id < 10 then 48 + id else 65 + (id - 10)
  }

  function SwitchTo(id: nat): seq<byte>
    requires id < NUM_TERMINALS
  {
    [SWITCH, TerminalDigit(id)]
  }

  datatype Op =
    | SetTerminal(id: byte)
    | TerminalOut(id: byte, text: seq<byte>)
    | Print(text: seq<byte>)  // a plain write to channel 0

  // ---------------------------------------------------------- the host side

  /** The host's decoder: the terminal it is on, whether it is inside a switch sequence, and what it has shown where. */
  datatype Host = Host(current: nat, inSwitch: bool, shown: seq<(nat, byte)>)

  function Feed(h: Host, b: byte): Host {
    if h.inSwitch then
      if exists id | 0 <= id < NUM_TERMINALS :: TerminalDigit(id) == b then
        h.(current := if b < 65 then b - 48 else b - 55, inSwitch := false)
      else h.(inSwitch := false)
    else if b == SWITCH then h.(inSwitch := true)
    else h.(shown := h.shown + [(h.current, b)])
  }

  function FeedAll(h: Host, bs: seq<byte>): Host
    decreases |bs|
  {
    if bs == [] then h else FeedAll(Feed(h, bs[0]), bs[1..])
  }

  /** `text` as it appears on terminal `id`. */
  function Shown(id: nat, text: seq<byte>): (r: seq<(nat, byte)>)
    ensures |r| == |text|
  {
    seq(|text|, k requires 0 <= k < |text| => (id, text[k]))
  }

  // -------------------------------------------------------- the target side

  /** How much of a text gets out in a mode, with `reserved` bytes needed around it. */
  function Fitting(mode: Mode, avail: nat, n: nat, reserved: nat): (r: nat)
    ensures r <= n
  {
    match mode
    case NoBlockSkip => if avail < n + reserved then 0 else n
    case NoBlockTrim => if avail < reserved then 0 else Min(n, avail - reserved)
    case BlockIfFifoFull => n
  }

  /** Whether the call gets its switch sequences out. */
  predicate Accepted(mode: Mode, avail: nat, op: Op) {
    match op
    case SetTerminal(id) => id < NUM_TERMINALS && (mode.BlockIfFifoFull? || avail >= 2)
    case TerminalOut(id, text) =>
      id < NUM_TERMINALS
      && (mode.BlockIfFifoFull? || avail >= (if mode.NoBlockSkip? then |text| + 4 else 4))
    case Print(_) => true
  }

  /** The bytes a call puts into channel 0 when the ring has `avail` bytes of room. */
  function Emitted(mode: Mode, active: nat, avail: nat, op: Op): seq<byte>
    requires active < NUM_TERMINALS
  {
    if !Accepted(mode, avail, op) then []
    else match op
      case SetTerminal(id) => SwitchTo(id)
      case TerminalOut(id, text) =>
        SwitchTo(id) + text[..Fitting(mode, avail, |text|, 4)] + SwitchTo(active)
      case Print(text) => text[..Fitting(mode, avail, |text|, 0)]
  }

  function ActiveAfter(mode: Mode, active: nat, avail: nat, op: Op): (r: nat)
    requires active < NUM_TERMINALS
    ensures r < NUM_TERMINALS
  {
    if op.SetTerminal? && Accepted(mode, avail, op) then op.id else active
  }

  /** What the user of a call expects to see, and where. */
  function Expected(mode: Mode, active: nat, avail: nat, op: Op): seq<(nat, byte)>
    requires active < NUM_TERMINALS
  {
    match op
    case SetTerminal(_) => []
    case TerminalOut(id, text) =>
      if Accepted(mode, avail, op) then Shown(id, text[..Fitting(mode, avail, |text|, 4)]) else []
    case Print(text) => Shown(active, text[..Fitting(mode, avail, |text|, 0)])
  }

  class Terminals {
    const up: Ring
    var active: nat

    ghost predicate Valid()
      reads this, up
    {
      up.Valid() && active < NUM_TERMINALS
    }

    constructor (ring: Ring)
      requires ring.Valid()
      ensures Valid() && up == ring && active == 0
    {
      up := ring;
      active := 0;
    }

    /** The host's pace is enough for a call of `n` bytes: any pace, unless the call has to wait for room. */
    static predicate Serves(mode: Mode, host: seq<nat>, n: nat) {
      |host| >= 2 && (mode.BlockIfFifoFull? ==> Reads(host) >= n && Reads(host) >= 2)
    }

    method PostTerminalSwitch(id: nat, host: seq<nat>)
      requires Valid() && id < NUM_TERMINALS
      requires |host| >= 2
      requires Free(up.data.Length, up.wrOff, up.rdOff) >= 2 || Reads(host) >= 2
      modifies up`wrOff, up`rdOff, up`consumed, up.data
      ensures Valid() && up.History() == old(up.History()) + SwitchTo(id)
      ensures Free(up.data.Length, up.wrOff, up.rdOff) >= old(Free(up.data.Length, up.wrOff, up.rdOff)) - 2
    {
      var n := up.WriteBlocking([SWITCH, TerminalDigit(id)], host);
      assert SwitchTo(id)[..n] == SwitchTo(id);
    }

    method SetTerminal(id: byte, host: seq<nat>) returns (r: int)
      requires Valid()
      requires Serves(up.mode, host, 2)
      modifies this`active, up`wrOff, up`rdOff, up`consumed, up.data
      ensures Valid()
      ensures var avail, op := old(Free(up.data.Length, up.wrOff, up.rdOff)), Op.SetTerminal(id);
              && r == (if Accepted(up.mode, avail, op) then 0 else -1)
              && active == ActiveAfter(up.mode, old(active), avail, op)
              && up.History() == old(up.History()) + Emitted(up.mode, old(active), avail, op)
      // Two free bytes are enough, and needed unless the write waits for them.
      ensures r == 0 <==> id < 16 && (up.mode.BlockIfFifoFull? || old(Free(up.data.Length, up.wrOff, up.rdOff)) >= 2)
      ensures r == 0 ==> active == id && up.History() == old(up.History()) + [0xFF, TerminalDigit(id)]
      ensures r != 0 ==> r == -1 && active == old(active) && up.History() == old(up.History())
    {
      r := 0;
      if id < NUM_TERMINALS {
        var ac := [SWITCH, TerminalDigit(id)];
        if up.mode.BlockIfFifoFull? {
          active := id;
          var n := up.WriteBlocking(ac, host);
          assert ac[..n] == ac;
        } else {
          var avail := up.GetAvailWriteSpace();
          if avail >= 2 {
            active := id;
            up.WriteNoCheck(ac);
          } else {
            r := -1;
          }
        }
      } else {
        r := -1;
      }
    }

    /**
     In skip and trim mode `host` may be a host that reads nothing at all: the
     blocking writes inside never have to wait.
     */
    method TerminalOut(id: byte, text: seq<byte>, host: seq<nat>) returns (status: int)
      requires Valid()
      requires Serves(up.mode, host, |text|)
      modifies up`wrOff, up`rdOff, up`consumed, up.data
      ensures Valid() && active == old(active)
      ensures var avail, op := old(Free(up.data.Length, up.wrOff, up.rdOff)), Op.TerminalOut(id, text);
              && up.History() == old(up.History()) + Emitted(up.mode, active, avail, op)
              && status == if Accepted(up.mode, avail, op) then Fitting(up.mode, avail, |text|, 4)
                           else if id < NUM_TERMINALS && up.mode.NoBlockSkip? then 0 else -1
      // The text goes out whole or cut, between two switch sequences, or nothing does.
      ensures id < 16 && up.mode.NoBlockSkip? ==>
                status == if |text| + 4 <= old(Free(up.data.Length, up.wrOff, up.rdOff)) then |text| else 0
      ensures id < 16 && up.mode.NoBlockTrim? ==>
                status == if 4 <= old(Free(up.data.Length, up.wrOff, up.rdOff))
                          then Min(|text|, old(Free(up.data.Length, up.wrOff, up.rdOff)) - 4) else -1
      ensures id < 16 && up.mode.BlockIfFifoFull? ==> status == |text|
      ensures id >= 16 ==> status == -1
      ensures var out := if up.mode.NoBlockSkip? then |text| + 4 <= old(Free(up.data.Length, up.wrOff, up.rdOff))
                         else status >= 0;
              if id < 16 && out then
                status >= 0 && up.History() == old(up.History())
                  + ([0xFF, TerminalDigit(id)] + text[..status] + [0xFF, TerminalDigit(active)])
              else up.History() == old(up.History())
    {
      if id < NUM_TERMINALS {
        var avail := up.GetAvailWriteSpace();
        match up.mode {
          case NoBlockSkip =>
            if avail < |text| + 4 {
              status := 0;
            } else {
              status := Wrapped(id, text, host);
            }
          case NoBlockTrim =>
            if avail < 4 {
              status := -1;
            } else {
              status := Wrapped(id, text[..if |text| < avail - 4 then |text| else avail - 4], host);
            }
          case BlockIfFifoFull =>
            status := Wrapped(id, text, host);
        }
        assert text[..|text|] == text;
      } else {
        status := -1;
      }
    }

    /** A plain write to channel 0. */
    method Print(text: seq<byte>, host: seq<nat>) returns (status: nat)
      requires Valid()
      requires Serves(up.mode, host, |text|)
      modifies up`wrOff, up`rdOff, up`consumed, up.data
      ensures Valid() && active == old(active)
      ensures var avail := old(Free(up.data.Length, up.wrOff, up.rdOff));
              && status == Fitting(up.mode, avail, |text|, 0)
              && up.History() == old(up.History()) + Emitted(up.mode, active, avail, Op.Print(text))
      ensures up.mode.NoBlockSkip? ==>
                status == if |text| <= old(Free(up.data.Length, up.wrOff, up.rdOff)) then |text| else 0
      ensures up.mode.NoBlockTrim? ==> status == Min(|text|, old(Free(up.data.Length, up.wrOff, up.rdOff)))
      ensures up.mode.BlockIfFifoFull? ==> status == |text|
      ensures up.History() == old(up.History()) + text[..status]
    {
      status := up.WriteNoLock(text, host);
    }

    /** Switch to a terminal, write, switch back. */
    method Wrapped(id: nat, text: seq<byte>, host: seq<nat>) returns (status: int)
      requires Valid() && id < NUM_TERMINALS
      requires |host| >= 2
      requires Free(up.data.Length, up.wrOff, up.rdOff) >= |text| + 4
               || (Reads(host) >= |text| && Reads(host) >= 2)
      modifies up`wrOff, up`rdOff, up`consumed, up.data
      ensures Valid() && status == |text|
      ensures up.History() == old(up.History()) + (SwitchTo(id) + text + SwitchTo(active))
    {
      PostTerminalSwitch(id, host);
      var n := up.WriteBlocking(text, host);
      assert text[..n] == text;
      PostTerminalSwitch(active, host);
      status := n;
    }
  }

  // ------------------------------------------------------------ theorems

  lemma {:induction false} FeedConcat(h: Host, a: seq<byte>, b: seq<byte>)
    ensures FeedAll(h, a + b) == FeedAll(FeedAll(h, a), b)
    decreases |a|
  {
    if a == [] {
      assert a + b == b;
    } else {
      assert (a + b)[0] == a[0] && (a + b)[1..] == a[1..] + b;
      FeedConcat(Feed(h, a[0]), a[1..], b);
    }
  }

  lemma SwitchSwitches(h: Host, id: nat)
    requires !h.inSwitch && id < NUM_TERMINALS
    ensures FeedAll(h, SwitchTo(id)) == h.(current := id)
  {
    var bs := SwitchTo(id);
    assert bs[1..] == [TerminalDigit(id)] && bs[1..][1..] == [];
    assert FeedAll(h, bs) == FeedAll(Feed(h, SWITCH), bs[1..]);
    assert FeedAll(Feed(h, SWITCH), bs[1..]) == Feed(Feed(h, SWITCH), TerminalDigit(id));
  }

  /** A text comes out as it is on the current terminal, exactly when it holds no 0xFF. */
  lemma {:induction false} TextIsShown(h: Host, text: seq<byte>)
    requires !h.inSwitch
    ensures FeedAll(h, text) == h.(shown := h.shown + Shown(h.current, text)) <==> SWITCH !in text
    ensures |FeedAll(h, text).shown| <= |h.shown| + |text|
    decreases |text|
  {
    if text != [] {
      if text[0] == SWITCH {
        ShowsAtMost(Feed(h, SWITCH), text[1..]);
      } else {
        TextIsShown(Feed(h, text[0]), text[1..]);
        assert Shown(h.current, text) == [(h.current, text[0])] + Shown(h.current, text[1..]);
        assert h.shown + Shown(h.current, text)
            == (h.shown + [(h.current, text[0])]) + Shown(h.current, text[1..]);
        assert text == [text[0]] + text[1..];
      }
    }
  }

  lemma {:induction false} ShowsAtMost(h: Host, bs: seq<byte>)
    ensures |FeedAll(h, bs).shown| <= |h.shown| + |bs|
    decreases |bs|
  {
    if bs != [] {
      ShowsAtMost(Feed(h, bs[0]), bs[1..]);
    }
  }

  /** One call: the host shows its text on the requested terminal and is back on the active one afterwards. */
  lemma CallIsDecoded(h: Host, mode: Mode, active: nat, avail: nat, op: Op)
    requires active < NUM_TERMINALS
    requires !h.inSwitch && h.current == active
    requires op.SetTerminal? || SWITCH !in op.text
    ensures FeedAll(h, Emitted(mode, active, avail, op))
         == Host(ActiveAfter(mode, active, avail, op), false, h.shown + Expected(mode, active, avail, op))
  {
    if !Accepted(mode, avail, op) {
      assert h.shown + [] == h.shown;
    } else {
      match op {
        case SetTerminal(id) =>
          SwitchSwitches(h, id);
          assert h.shown + [] == h.shown;
        case TerminalOut(id, text) =>
          var t := text[..Fitting(mode, avail, |text|, 4)];
          SwitchSwitches(h, id);
          var h1 := h.(current := id);
          TextIsShown(h1, t);
          var h2 := h1.(shown := h.shown + Shown(id, t));
          SwitchSwitches(h2, active);
          FeedConcat(h, SwitchTo(id), t);
          FeedConcat(h, SwitchTo(id) + t, SwitchTo(active));
        case Print(text) =>
          TextIsShown(h, text[..Fitting(mode, avail, |text|, 0)]);
      }
    }
  }

  /** A run: each call with the room it found, which the host's reading makes arbitrary. */
  datatype Call = Call(avail: nat, op: Op)

  function ActiveOver(mode: Mode, active: nat, calls: seq<Call>): (r: nat)
    requires active < NUM_TERMINALS
    ensures r < NUM_TERMINALS
    decreases |calls|
  {
    if calls == [] then active
    else ActiveOver(mode, ActiveAfter(mode, active, calls[0].avail, calls[0].op), calls[1..])
  }

  function EmittedOver(mode: Mode, active: nat, calls: seq<Call>): seq<byte>
    requires active < NUM_TERMINALS
    decreases |calls|
  {
    if calls == [] then []
    else Emitted(mode, active, calls[0].avail, calls[0].op)
         + EmittedOver(mode, ActiveAfter(mode, active, calls[0].avail, calls[0].op), calls[1..])
  }

  function ExpectedOver(mode: Mode, active: nat, calls: seq<Call>): seq<(nat, byte)>
    requires active < NUM_TERMINALS
    decreases |calls|
  {
    if calls == [] then []
    else Expected(mode, active, calls[0].avail, calls[0].op)
         + ExpectedOver(mode, ActiveAfter(mode, active, calls[0].avail, calls[0].op), calls[1..])
  }

  /**
   Over any run, the host attributes every text to the terminal it was meant
   for, and its current terminal is the target's active one after every call.
   */
  lemma {:induction false} RunIsDecoded(h: Host, mode: Mode, calls: seq<Call>)
    requires !h.inSwitch && h.current < NUM_TERMINALS
    requires forall k | 0 <= k < |calls| :: calls[k].op.SetTerminal? || SWITCH !in calls[k].op.text
    ensures FeedAll(h, EmittedOver(mode, h.current, calls))
         == Host(ActiveOver(mode, h.current, calls), false, h.shown + ExpectedOver(mode, h.current, calls))
    decreases |calls|
  {
    if calls == [] {
      assert h.shown + [] == h.shown;
    } else {
      var c := calls[0];
      var emitted, expected := Emitted(mode, h.current, c.avail, c.op), Expected(mode, h.current, c.avail, c.op);
      CallIsDecoded(h, mode, h.current, c.avail, c.op);
      var h' := FeedAll(h, emitted);
      RunIsDecoded(h', mode, calls[1..]);
      FeedConcat(h, emitted, EmittedOver(mode, h'.current, calls[1..]));
      Regroup(h.shown, expected, ExpectedOver(mode, h'.current, calls[1..]));
    }
  }

  lemma Regroup<T>(a: seq<T>, b: seq<T>, c: seq<T>)
    ensures (a + b) + c == a + (b + c)
  {
  }
}
