/**
 Encoding into packet memory, in place: integers and strings are written
 forwards from a position, id and length are written backwards in front of the
 payload.
 */
module SysViewEncoder {
  import opened Words
  import opened SysViewCodec

  /** Writes `value` from `pos` on; the result is the position behind it. */
  method EncodeU32At(buf: array<byte>, pos: nat, value: u32) returns (next: nat)
    requires pos + |EncodeU32(value)| <= buf.Length
    modifies buf
    ensures next == pos + |EncodeU32(value)|
    ensures buf[..] == Put(old(buf[..]), pos, EncodeU32(value))
  {
    ghost var mem := buf[..];
    ghost var written: seq<byte> := [];
    var data := value;
    next := pos;
    while data > 0x7F
      invariant written + EncodeU32(data) == EncodeU32(value)
      invariant next == pos + |written|
      invariant buf[..] == Put(mem, pos, written)
    {
      var b: byte := data % 128 + 128;  // the low byte of data | 0x80
      assert EncodeU32(data) == [b] + EncodeU32(data / 128);
      StoreNext(buf, next, b, mem, pos, written);
      written := written + [b];
      next := next + 1;
      data := data / 128;
    }
    StoreNext(buf, next, data, mem, pos, written);
    next := next + 1;
  }

  /** The characters of a C string before its terminator. */
  function CString(memory: seq<byte>): (r: seq<byte>)
    requires 0 in memory
    ensures |r| < |memory| && memory[|r|] == 0 && r == memory[..|r|] && 0 !in r
  {
    if memory[0] == 0 then [] else [memory[0]] + CString(memory[1..])
  }

  /** The string as it is sent: no more than `limit` characters. */
  function Limited(text: seq<byte>, limit: nat): (r: seq<byte>)
    ensures |r| <= limit
  {
    text[..Min(|text|, limit)]
  }

  /**
   The encoder keeps to `1 + limit` bytes exactly when the length that is sent
   needs one byte, or the text leaves two of its characters' places free.
   */
  lemma StrBound(text: seq<byte>, limit: nat)
    ensures |EncodeStr(Limited(text, limit))| <= 1 + limit
            <==> Min(|text|, limit) < 255 || Min(|text|, limit) + 2 <= limit
  {
  }

  /** Where the scan for the terminator stops. */
  lemma {:induction false} CStringLength(memory: seq<byte>, n: nat)
    requires n < |memory| && memory[n] == 0
    requires forall k | 0 <= k < n :: memory[k] != 0
    ensures 0 in memory && |CString(memory)| == n
  {
    if n > 0 {
      CStringLength(memory[1..], n - 1);
    }
  }

  method EncodeStrAt(buf: array<byte>, pos: nat, text: seq<byte>, limit: nat) returns (next: nat)
    requires 0 in text
    requires pos + |EncodeStr(Limited(CString(text), limit))| <= buf.Length
    modifies buf
    ensures next == pos + |EncodeStr(Limited(CString(text), limit))|
    ensures buf[..] == Put(old(buf[..]), pos, EncodeStr(Limited(CString(text), limit)))
  {
    ghost var mem := buf[..];
    var len := StrLen(text);
    if len > limit {
      len := limit;
    }
    ghost var head := LengthBytes(len);
    next := WriteLength(buf, pos, len);
    assert Limited(CString(text), limit) == text[..len];
    next := CopyText(buf, next, text[..len], mem, pos, head);
  }

  /** The character loop of the string encoder, behind the length bytes `head`. */
  method CopyText(buf: array<byte>, at: nat, text: seq<byte>,
                  ghost mem: seq<byte>, ghost pos: nat, ghost head: seq<byte>)
    returns (next: nat)
    requires at == pos + |head| && at + |text| <= buf.Length == |mem|
    requires buf[..] == Put(mem, pos, head)
    modifies buf
    ensures next == at + |text|
    ensures buf[..] == Put(mem, pos, head + text)
  {
    next := at;
    var n := 0;
    while n < |text|
      invariant n <= |text| && next == at + n
      invariant buf[..] == Put(mem, pos, head + text[..n])
    {
      StoreNext(buf, next, text[n], mem, pos, head + text[..n]);
      assert head + text[..n] + [text[n]] == head + text[..n + 1];
      next := next + 1;
      n := n + 1;
    }
    assert text[..n] == text;
  }

  /** The length in front of a string. */
  function LengthBytes(len: nat): (r: seq<byte>)
    ensures forall text: seq<byte> :: |text| == len ==> EncodeStr(text) == r + text
  {
    if len < 255 then [len as byte] else [255, len % 256, len / 256 % 256]
  }

  method WriteLength(buf: array<byte>, pos: nat, len: nat) returns (next: nat)
    requires pos + |LengthBytes(len)| <= buf.Length
    modifies buf
    ensures next == pos + |LengthBytes(len)|
    ensures buf[..] == Put(old(buf[..]), pos, LengthBytes(len))
  {
    ghost var mem := buf[..];
    if len < 255 {
      StoreNext(buf, pos, len, mem, pos, []);
      next := pos + 1;
    } else {
      StoreNext(buf, pos, 255, mem, pos, []);
      StoreNext(buf, pos + 1, len % 256, mem, pos, [255]);
      StoreNext(buf, pos + 2, len / 256 % 256, mem, pos, [255, len % 256]);
      next := pos + 3;
    }
  }

  /** The scan for the terminator. */
  method StrLen(text: seq<byte>) returns (len: nat)
    requires 0 in text
    ensures len == |CString(text)|
  {
    len := 0;
    while text[len] != 0
      invariant len < |text| && 0 in text[len..]
      invariant forall k | 0 <= k < len :: text[k] != 0
      decreases |text| - len
    {
      len := len + 1;
    }
    CStringLength(text, len);
  }

  /** Writes `v` in one or two bytes that end at `end`; the result is the position of the first. */
  method HeaderBefore(buf: array<byte>, end: nat, v: nat) returns (start: nat)
    requires |Header(v)| <= end <= buf.Length
    modifies buf
    ensures start == end - |Header(v)|
    ensures buf[..] == Put(old(buf[..]), start, Header(v))
  {
    start := end;
    if v > 127 {
      start := start - 1;
      buf[start] := v / 128 % 256;
      start := start - 1;
      buf[start] := v % 128 + 128;
    } else {
      start := start - 1;
      buf[start] := v;
    }
  }

  /** Prepends the id and, from id 24 on, the length of the payload that starts at `payload`. */
  method Prepend(buf: array<byte>, payload: nat, length: nat, id: nat) returns (start: nat)
    requires 4 <= payload <= buf.Length
    modifies buf
    ensures start == payload - |Prefix(id, length)|
    ensures buf[..] == Put(old(buf[..]), start, Prefix(id, length))
  {
    if id < 24 {
      start := payload - 1;
      buf[start] := id;
    } else {
      start := HeaderBefore(buf, payload, length);
      ghost var middle := start;
      start := HeaderBefore(buf, start, id);
      PutBefore(old(buf[..]), start, Header(id), Header(length));
    }
  }

  lemma PutBefore(mem: seq<byte>, at: nat, a: seq<byte>, b: seq<byte>)
    requires at + |a| + |b| <= |mem|
    ensures Put(Put(mem, at + |a|, b), at, a) == Put(mem, at, a + b)
  {
  }

  /** Turns the payload in `buf[start..end]` into a packet in the same memory. */
  method FinishPacket(buf: array<byte>, start: nat, end: nat, id: nat, delta: u32) returns (first: nat, last: nat)
    requires 4 <= start <= end && end + 5 <= buf.Length
    modifies buf
    ensures first <= last <= buf.Length
    ensures buf[first..last] == Prefix(id, end - start) + old(buf[start..end]) + EncodeU32(delta)
  {
    ghost var mem, payload := buf[..], buf[start..end];
    ghost var prefix, suffix := Prefix(id, end - start), EncodeU32(delta);
    EncodeU32Length(delta);
    first := Prepend(buf, start, end - start, id);
    last := EncodeU32At(buf, end, delta);
    PutAround(mem, first, prefix, payload, suffix);
    assert buf[first..last] == buf[..][first..last];
  }

  lemma PutAround(mem: seq<byte>, at: nat, a: seq<byte>, b: seq<byte>, c: seq<byte>)
    requires at + |a| + |b| + |c| <= |mem|
    requires mem[at + |a|..at + |a| + |b|] == b
    ensures Put(Put(mem, at, a), at + |a| + |b|, c)[at..at + |a| + |b| + |c|] == a + b + c
  {
  }
}
