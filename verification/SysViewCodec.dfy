/**
 The wire format of SystemView packets: the target's encoder and, as its
 specification, a parser such as the host needs.

   <Id> [<Length>] <Data> <TimeStampDelta>

 Integers are unsigned LEB128 (section 7.6 of DWARF Version 5). Packets with an
 id below 24 have no length; the host knows the fields of each.
 */
module SysViewCodec {
  import opened Words

  // --------------------------------------------------------------- integers

  /** Seven bits a byte, least significant first; bit 7 says that more follow. */
  function EncodeU32(v: nat): (r: seq<byte>)
    ensures |r| >= 1
  {
    if v > 0x7F then [v % 128 + 128] + EncodeU32(v / 128) else [v]
  }

  function ParseU32(s: seq<byte>): (r: Option<(nat, seq<byte>)>)
    ensures r.Some? ==> |r.value.1| < |s|
    decreases |s|
  {
    if s == [] then None
    else if s[0] < 128 then Some((s[0], s[1..]))
    else
      var r := ParseU32(s[1..]);
      if r.None? then None else Some((s[0] - 128 + 128 * r.value.0, r.value.1))
  }

  lemma {:induction false} ParseU32Inverts(v: nat, rest: seq<byte>)
    ensures ParseU32(EncodeU32(v) + rest) == Some((v, rest))
  {
    var s := EncodeU32(v) + rest;
    if v > 0x7F {
      ParseU32Inverts(v / 128, rest);
      assert s[1..] == EncodeU32(v / 128) + rest;
    } else {
      assert s[1..] == rest;
    }
  }

  /** The bytes reserved for a 32-bit value are enough. */
  lemma EncodeU32Length(v: u32)
    ensures |EncodeU32(v)| <= 5
    ensures v < 0x4000 ==> |EncodeU32(v)| <= 2
  {
    var v1 := v / 128;
    var v2 := v1 / 128;
    var v3 := v2 / 128;
    var v4 := v3 / 128;
    assert v4 <= 0x7F;
    assert |EncodeU32(v4)| == 1;
    assert |EncodeU32(v3)| <= 2;
    assert |EncodeU32(v2)| <= 3;
    assert |EncodeU32(v1)| <= 4;
  }

  // ---------------------------------------------------------------- strings

  /** A string behind its length: one byte, or 0xFF and two bytes from length 255 on. */
  function EncodeStr(text: seq<byte>): (r: seq<byte>)
    ensures |r| >= 1
  {
    if |text| < 255 then [|text| as byte] + text
    else [255, |text| % 256, |text| / 256 % 256] + text
  }

  function ParseStr(s: seq<byte>): (r: Option<(seq<byte>, seq<byte>)>)
    ensures r.Some? ==> |r.value.1| < |s|
  {
    if s == [] then None
    else if s[0] < 255 then
      if 1 + s[0] <= |s| then Some((s[1..1 + s[0]], s[1 + s[0]..])) else None
    else if |s| < 3 then None
    else
      var n := s[1] as int + 256 * (s[2] as int);
      if 3 + n <= |s| then Some((s[3..3 + n], s[3 + n..])) else None
  }

  /** A string survives the trip exactly when its length fits the two length bytes. */
  lemma StrRoundTrip(text: seq<byte>, rest: seq<byte>)
    ensures ParseStr(EncodeStr(text) + rest) == Some((text, rest)) <==> |text| < 0x1_0000
  {
    if |text| < 255 {
      var s := EncodeStr(text) + rest;
      assert s[1..1 + |text|] == text && s[1 + |text|..] == rest;
    } else {
      LongStrRoundTrip(text, rest);
    }
  }

  lemma LongStrRoundTrip(text: seq<byte>, rest: seq<byte>)
    requires |text| >= 255
    ensures ParseStr(EncodeStr(text) + rest) == Some((text, rest)) <==> |text| < 0x1_0000
  {
    var s := EncodeStr(text) + rest;
    var n := |text| % 256 + 256 * (|text| / 256 % 256);
    TwoByteLength(|text|);
    assert s[0] == 255 && s[1] == |text| % 256 && s[2] == |text| / 256 % 256;
    assert ParseStr(s) == Some((s[3..3 + n], s[3 + n..]));
    if n == |text| {
      assert s[3..3 + n] == text && s[3 + n..] == rest;
    } else {
      assert |s[3..3 + n]| < |text|;
    }
  }

  lemma TwoByteLength(n: nat)
    ensures n % 256 + 256 * (n / 256 % 256) == n <==> n < 0x1_0000
    ensures n % 256 + 256 * (n / 256 % 256) <= n
  {
  }

  // ----------------------------------------------------------------- fields

  datatype Field = Num(v: u32) | Text(text: seq<byte>)
  datatype Kind = NumKind | TextKind

  predicate FieldHas(f: Field, k: Kind) {
    match f
    case Num(_) => k == NumKind
    case Text(t) => k == TextKind && |t| < 0x1_0000
  }

  function EncodeField(f: Field): seq<byte> {
    match f
    case Num(v) => EncodeU32(v)
    case Text(t) => EncodeStr(t)
  }

  function EncodeFields(fs: seq<Field>): seq<byte> {
    if fs == [] then [] else EncodeField(fs[0]) + EncodeFields(fs[1..])
  }

  predicate FieldsHave(fs: seq<Field>, ks: seq<Kind>) {
    |fs| == |ks| && forall k | 0 <= k < |fs| :: FieldHas(fs[k], ks[k])
  }

  function ParseField(k: Kind, s: seq<byte>): (r: Option<(Field, seq<byte>)>)
    ensures r.Some? ==> |r.value.1| < |s|
  {
    match k
    case NumKind =>
      var r := ParseU32(s);
      if r.None? || r.value.0 >= 0x1_0000_0000 then None else Some((Num(r.value.0), r.value.1))
    case TextKind =>
      var r := ParseStr(s);
      if r.None? then None else Some((Text(r.value.0), r.value.1))
  }

  function ParseFields(ks: seq<Kind>, s: seq<byte>): (r: Option<(seq<Field>, seq<byte>)>)
    ensures r.Some? ==> |r.value.1| <= |s|
    decreases |ks|
  {
    if ks == [] then Some(([], s))
    else
      var f := ParseField(ks[0], s);
      if f.None? then None
      else
        var fs := ParseFields(ks[1..], f.value.1);
        if fs.None? then None else Some(([f.value.0] + fs.value.0, fs.value.1))
  }

  lemma FieldRoundTrip(f: Field, k: Kind, rest: seq<byte>)
    requires FieldHas(f, k)
    ensures ParseField(k, EncodeField(f) + rest) == Some((f, rest))
  {
    match f {
      case Num(v) => ParseU32Inverts(v, rest);
      case Text(t) => StrRoundTrip(t, rest);
    }
  }

  /** One field off the front of the encoded ones. */
  lemma ParseFieldsStep(fs: seq<Field>, ks: seq<Kind>, s: seq<byte>, rest: seq<byte>)
    requires 0 < |fs| == |ks|
    requires ParseField(ks[0], s) == Some((fs[0], rest))
    ensures var r := ParseFields(ks[1..], rest);
            r.Some? ==> ParseFields(ks, s) == Some(([fs[0]] + r.value.0, r.value.1))
  {
    hide ParseField;
  }

  lemma {:induction false} FieldsRoundTrip(fs: seq<Field>, ks: seq<Kind>, rest: seq<byte>)
    requires FieldsHave(fs, ks)
    ensures ParseFields(ks, EncodeFields(fs) + rest) == Some((fs, rest))
    decreases |fs|
  {
    if fs == [] {
      assert EncodeFields(fs) + rest == rest;
    } else {
      hide ParseField, ParseFields, EncodeField, FieldHas;
      var rest' := EncodeFields(fs[1..]) + rest;
      assert EncodeFields(fs) + rest == EncodeField(fs[0]) + rest';
      FieldRoundTrip(fs[0], ks[0], rest');
      FieldsRoundTrip(fs[1..], ks[1..], rest);
      ParseFieldsStep(fs, ks, EncodeFields(fs) + rest, rest');
      assert [fs[0]] + fs[1..] == fs;
    }
  }

  lemma {:induction false} EncodeFieldsConcat(a: seq<Field>, b: seq<Field>)
    ensures EncodeFields(a + b) == EncodeFields(a) + EncodeFields(b)
    decreases |a|
  {
    if a == [] {
      assert a + b == b;
    } else {
      assert (a + b)[1..] == a[1..] + b;
      EncodeFieldsConcat(a[1..], b);
    }
  }

  // ---------------------------------------------------------------- packets

  /** The fields of the packets that carry no length. */
  function Schema(id: nat): seq<Kind> {
    match id
    case 1 => [NumKind]                              // overflow: drop count
    case 2 => [NumKind]                              // ISR enter
    case 4 => [NumKind]                              // task start exec
    case 6 => [NumKind]                              // task start ready
    case 7 => [NumKind, NumKind]                     // task stop ready
    case 8 => [NumKind]                              // task create
    case 9 => [NumKind, NumKind, TextKind]           // task info
    case 12 => [NumKind]                             // system time in cycles
    case 13 => [NumKind, NumKind]                    // system time in microseconds
    case 14 => [TextKind]                            // system description
    case 15 => [NumKind]                             // user start
    case 16 => [NumKind]                             // user stop
    case 19 => [NumKind]                             // timer enter
    case 21 => [NumKind, NumKind, NumKind, NumKind]  // stack info
    case 22 => [NumKind, NumKind, TextKind]          // module description
    case _ => []
  }

  /** What an event says: known fields below id 24, a payload of its own above. */
  datatype Message = Standard(id: nat, fields: seq<Field>) | Extended(id: nat, payload: seq<byte>)

  predicate WellFormed(m: Message) {
    match m
    case Standard(id, fields) => id < 24 && FieldsHave(fields, Schema(id))
    case Extended(id, payload) => 24 <= id < 0x4000 && |payload| < 0x4000
  }

  function Payload(m: Message): seq<byte> {
    match m
    case Standard(_, fields) => EncodeFields(fields)
    case Extended(_, payload) => payload
  }

  /** A value in the one or two bytes the packet header has for it. */
  function Header(v: nat): (r: seq<byte>)
    ensures 1 <= |r| <= 2
  {
    if v > 127 then [v % 128 + 128, v / 128 % 256] else [v]
  }

  /** The header the sender prepends: the id, and from id 24 on the payload length. */
  function Prefix(id: nat, length: nat): (r: seq<byte>)
    ensures 1 <= |r| <= 4
  {
    if id < 24 then [id] else Header(id) + Header(length)
  }

  function EncodePacket(m: Message, delta: u32): (r: seq<byte>)
    ensures |r| >= 2
  {
    Prefix(m.id, |Payload(m)|) + Payload(m) + EncodeU32(delta)
  }

  lemma HeaderIsEncoded(v: nat)
    requires v < 0x4000
    ensures Header(v) == EncodeU32(v)
  {
    if v > 127 {
      assert EncodeU32(v / 128) == [v / 128];
    }
  }

  /** A header value is read back exactly when it is below 16384. */
  lemma HeaderRoundTrip(v: nat)
    ensures (forall rest :: ParseU32(Header(v) + rest) == Some((v, rest))) <==> v < 0x4000
  {
    if v < 0x4000 {
      HeaderIsEncoded(v);
      forall rest
        ensures ParseU32(Header(v) + rest) == Some((v, rest))
      {
        ParseU32Inverts(v, rest);
      }
    } else {
      var s := Header(v) + [];
      assert s[1..] == [v / 128 % 256];
      assert s[1..][1..] == [];
      assert ParseU32(s[1..][1..]).None?;
      assert ParseU32(s) != Some((v, []));
    }
  }

  function ParsePacket(s: seq<byte>): (r: Option<((Message, u32), seq<byte>)>)
    ensures r.Some? ==> |r.value.1| < |s|
  {
    var id := ParseU32(s);
    if id.None? then None
    else
      var m := ParseBody(id.value.0, id.value.1);
      if m.None? then None
      else
        var d := ParseU32(m.value.1);
        if d.None? || d.value.0 >= 0x1_0000_0000 then None
        else Some(((m.value.0, d.value.0), d.value.1))
  }

  function ParseBody(id: nat, s: seq<byte>): (r: Option<(Message, seq<byte>)>)
    ensures r.Some? ==> |r.value.1| <= |s|
  {
    if id < 24 then
      var fs := ParseFields(Schema(id), s);
      if fs.None? then None else Some((Standard(id, fs.value.0), fs.value.1))
    else
      var n := ParseU32(s);
      if n.None? || n.value.0 > |n.value.1| then None
      else Some((Extended(id, n.value.1[..n.value.0]), n.value.1[n.value.0..]))
  }

  /** The bytes between the id and the time stamp: the length where there is one, and the payload. */
  function Body(m: Message): seq<byte> {
    if m.id < 24 then Payload(m) else Header(|Payload(m)|) + Payload(m)
  }

  lemma BodyRoundTrip(m: Message, tail: seq<byte>)
    requires WellFormed(m)
    ensures ParseBody(m.id, Body(m) + tail) == Some((m, tail))
  {
    if m.Standard? {
      FieldsRoundTrip(m.fields, Schema(m.id), tail);
    } else {
      var n, s := |m.payload|, m.payload + tail;
      HeaderIsEncoded(n);
      ParseU32Inverts(n, s);
      assert Body(m) + tail == EncodeU32(n) + s;
      assert s[..n] == m.payload && s[n..] == tail;
    }
  }

  /** One packet is read back, whatever follows it. */
  lemma PacketRoundTrip(m: Message, delta: u32, rest: seq<byte>)
    requires WellFormed(m)
    ensures ParsePacket(EncodePacket(m, delta) + rest) == Some(((m, delta), rest))
  {
    var tail := EncodeU32(delta) + rest;
    PacketParts(m, delta, rest);
    ParseU32Inverts(m.id, Body(m) + tail);
    BodyRoundTrip(m, tail);
    ParseU32Inverts(delta, rest);
  }

  lemma PacketParts(m: Message, delta: u32, rest: seq<byte>)
    requires m.id < 0x4000
    ensures EncodePacket(m, delta) + rest == EncodeU32(m.id) + (Body(m) + (EncodeU32(delta) + rest))
  {
    HeaderIsEncoded(m.id);
    var length := if m.id < 24 then [] else Header(|Payload(m)|);
    assert Prefix(m.id, |Payload(m)|) == EncodeU32(m.id) + length;
    assert Body(m) == length + Payload(m);
    Regroup(EncodeU32(m.id), length, Payload(m), EncodeU32(delta), rest);
  }

  lemma Regroup(a: seq<byte>, b: seq<byte>, c: seq<byte>, d: seq<byte>, e: seq<byte>)
    ensures ((a + b) + c + d) + e == a + ((b + c) + (d + e))
  {
  }

  /** A packet never takes more than its payload, the 4 bytes kept free before it and 5 after. */
  lemma PacketLength(m: Message, delta: u32)
    ensures |EncodePacket(m, delta)| <= 4 + |Payload(m)| + 5
  {
    EncodeU32Length(delta);
  }

  // ----------------------------------------------------------------- streams

  function EncodeStream(ps: seq<(Message, u32)>): seq<byte> {
    if ps == [] then [] else EncodePacket(ps[0].0, ps[0].1) + EncodeStream(ps[1..])
  }

  predicate AllWellFormed(ps: seq<(Message, u32)>)
    decreases |ps|
  {
    ps == [] || (WellFormed(ps[0].0) && AllWellFormed(ps[1..]))
  }

  lemma {:induction false} AllWellFormedConcat(a: seq<(Message, u32)>, b: seq<(Message, u32)>)
    requires AllWellFormed(a) && AllWellFormed(b)
    ensures AllWellFormed(a + b)
    decreases |a|
  {
    if a == [] {
      assert a + b == b;
    } else {
      assert (a + b)[1..] == a[1..] + b;
      AllWellFormedConcat(a[1..], b);
    }
  }

  function ParseStream(s: seq<byte>): Option<seq<(Message, u32)>>
    decreases |s|
  {
    if s == [] then Some([])
    else
      var p := ParsePacket(s);
      if p.None? then None
      else
        var ps := ParseStream(p.value.1);
        if ps.None? then None else Some([p.value.0] + ps.value)
  }

  /** Any concatenation of packets is taken apart into the packets it was made of. */
  lemma {:induction false} StreamRoundTrip(ps: seq<(Message, u32)>)
    requires AllWellFormed(ps)
    ensures ParseStream(EncodeStream(ps)) == Some(ps)
    decreases |ps|
  {
    hide EncodePacket, ParsePacket, WellFormed;
    if ps != [] {
      PacketRoundTrip(ps[0].0, ps[0].1, EncodeStream(ps[1..]));
      StreamRoundTrip(ps[1..]);
      assert [ps[0]] + ps[1..] == ps;
    }
  }

  lemma {:induction false} EncodeStreamConcat(a: seq<(Message, u32)>, b: seq<(Message, u32)>)
    ensures EncodeStream(a + b) == EncodeStream(a) + EncodeStream(b)
    decreases |a|
  {
    hide EncodePacket;
    if a == [] {
      assert a + b == b;
    } else {
      assert (a + b)[1..] == a[1..] + b;
      EncodeStreamConcat(a[1..], b);
    }
  }

  /** Two runs of packets that look the same on the wire are the same. */
  lemma StreamIsUnique(ps: seq<(Message, u32)>, qs: seq<(Message, u32)>)
    requires AllWellFormed(ps)
    requires AllWellFormed(qs)
    requires EncodeStream(ps) == EncodeStream(qs)
    ensures ps == qs
  {
    StreamRoundTrip(ps);
    StreamRoundTrip(qs);
  }

  // -------------------------------------------------------------------- sync

  const SYNC: seq<byte> := [0, 0, 0, 0, 0, 0, 0, 0, 0, 0]
  const NOP: (Message, u32) := (Standard(0, []), 0)

  /** The ten zeros sent at start are five dummy packets without any time step. */
  lemma SyncIsFiveNops()
    ensures EncodeStream([NOP, NOP, NOP, NOP, NOP]) == SYNC
    ensures AllWellFormed([NOP, NOP, NOP, NOP, NOP])
  {
    assert EncodePacket(NOP.0, NOP.1) == [0, 0] && WellFormed(NOP.0);
    var one, two, three := [NOP], [NOP, NOP], [NOP, NOP, NOP];
    var four, five := [NOP, NOP, NOP, NOP], [NOP, NOP, NOP, NOP, NOP];
    assert one[1..] == [] && two[1..] == one && three[1..] == two && four[1..] == three && five[1..] == four;
    assert AllWellFormed(one) && AllWellFormed(two) && AllWellFormed(three) && AllWellFormed(four);
    assert EncodeStream(one) == [0, 0];
    assert EncodeStream(two) == [0, 0] + [0, 0];
    assert EncodeStream(three) == [0, 0] + EncodeStream(two);
    assert EncodeStream(four) == [0, 0] + EncodeStream(three);
    assert EncodeStream(five) == [0, 0] + EncodeStream(four);
  }
}
