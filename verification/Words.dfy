/** Machine words and the few sequence helpers every component shares. */
module Words {

  datatype Option<T> = None | Some(value: T)

  type byte = b: int | 0 <= b < 256
  type u32 = x: int | 0 <= x < 0x1_0000_0000

  /** The value a 32-bit unsigned register holds after an operation whose exact result is `x`. */
  function Wrap32(x: int): u32 {
    x % 0x1_0000_0000
  }

  function Min(a: nat, b: nat): nat {
    if a < b then a else b
  }

  /** Memory after `src` has been copied to offset `at`. */
  function Put(mem: seq<byte>, at: nat, src: seq<byte>): (r: seq<byte>)
    requires at + |src| <= |mem|
    ensures |r| == |mem|
  {
    seq(|mem|, i requires 0 <= i < |mem| => if at <= i < at + |src| then src[i - at] else mem[i])
  }

  /** Two copies that follow each other are one copy. */
  lemma PutTwice(mem: seq<byte>, at: nat, a: seq<byte>, b: seq<byte>)
    requires at + |a| + |b| <= |mem|
    ensures Put(Put(mem, at, a), at + |a|, b) == Put(mem, at, a + b)
  {
  }

  /** From `from` on, the old bytes are followed by the copied ones. */
  lemma PutBehind(mem: seq<byte>, from: nat, pos: nat, bs: seq<byte>)
    requires from <= pos && pos + |bs| <= |mem|
    ensures Put(mem, pos, bs)[from..pos + |bs|] == mem[from..pos] + bs
  {
  }

  /** The C library's memcpy into `dst`; the source is a value because no caller lets the two overlap. */
  method Memcpy(dst: array<byte>, at: nat, src: seq<byte>)
    requires at + |src| <= dst.Length
    modifies dst
    ensures dst[..] == Put(old(dst[..]), at, src)
  {
    forall k | 0 <= k < |src| {
      dst[at + k] := src[k];
    }
  }

  /** `*p++ = b`: one more byte behind the `written` ones that start at `at`. */
  method StoreNext(buf: array<byte>, next: nat, b: byte, ghost mem: seq<byte>, ghost at: nat, ghost written: seq<byte>)
    requires next == at + |written| && next < buf.Length == |mem|
    requires buf[..] == Put(mem, at, written)
    modifies buf
    ensures buf[..] == Put(mem, at, written + [b])
  {
    PutTwice(mem, at, written, [b]);
    buf[next] := b;
    assert buf[..] == Put(Put(mem, at, written), next, [b]);
  }
}
