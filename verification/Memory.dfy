/** Byte arrays written in place: guest memory, and buffers filled behind a cursor. */
module Memory {
  import opened Bytes

  /** The memory with `data` stored at `off`. */
  function WriteAt(m: Data, off: nat, data: Data): (r: Data)
    requires off + |data| <= |m|
    ensures |r| == |m|
    ensures forall i :: 0 <= i < |m| ==> r[i] == if off <= i < off + |data| then data[i - off] else m[i]
  {
    m[..off] + data + m[off + |data|..]
  }

  method Put(mem: array<byte>, off: nat, data: Data)
    requires off + |data| <= mem.Length
    modifies mem
    ensures mem[..] == WriteAt(old(mem[..]), off, data)
  {
    forall k | 0 <= k < |data| {
      mem[off + k] := data[k];
    }
  }

  lemma WroteHere(m: Data, off: nat, data: Data)
    requires off + |data| <= |m|
    ensures Has(WriteAt(m, off, data), off, data)
  {
  }

  // ---- Filling a buffer from the front ----

  method PutWord(buf: array<byte>, cursor: nat, v: u32)
    requires cursor + 4 <= buf.Length
    modifies buf
    ensures buf[..cursor + 4] == old(buf[..cursor]) + Le32(v)
  {
    var w := Le32(v);
    ghost var was := buf[..cursor];
    buf[cursor], buf[cursor + 1], buf[cursor + 2], buf[cursor + 3] := w[0], w[1], w[2], w[3];
    assert buf[..cursor] == was && buf[cursor..cursor + 4] == w;
    assert buf[..cursor + 4] == buf[..cursor] + buf[cursor..cursor + 4];
  }

  method PutBytes(buf: array<byte>, cursor: nat, a: Data)
    requires cursor + |a| <= buf.Length
    modifies buf
    ensures buf[..cursor + |a|] == old(buf[..cursor]) + a
  {
    forall k | 0 <= k < |a| {
      buf[cursor + k] := a[k];
    }
    assert buf[..cursor] == old(buf[..cursor]) && buf[cursor..cursor + |a|] == a;
    assert buf[..cursor + |a|] == buf[..cursor] + buf[cursor..cursor + |a|];
  }
}
