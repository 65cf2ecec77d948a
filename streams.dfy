/** A file stream seen as the sequence of bytes it holds: offset-addressed
    writes that overwrite and extend, and offset-addressed reads into a
    zero-initialised array. */
module Streams {

  newtype byte = x: int | 0 <= x < 256

  function Max(a: int, b: int): int { if a < b then b else a }

  function Min(a: int, b: int): int { if a < b then a else b }

  /** `new byte[n]`: n zero bytes. */
  function Zeros(n: nat): (z: seq<byte>)
    ensures |z| == n
    ensures forall i :: 0 <= i < n ==> z[i] == 0
  {
    if n == 0 then [] else Zeros(n - 1) + [0]
  }

  /** The content after `Seek(offset)` and `Write(bytes)`: the bytes replace what was
      at `offset`, a write past the end extends the stream, and the hole between the
      old end and `offset` reads as zero bytes. */
  function Overwrite(data: seq<byte>, offset: nat, bytes: seq<byte>): (r: seq<byte>)
    ensures |r| == Max(|data|, offset + |bytes|)
    ensures r[offset..offset + |bytes|] == bytes
    ensures forall i :: 0 <= i < offset && i < |data| ==> r[i] == data[i]
    ensures forall i :: |data| <= i < offset ==> r[i] == 0
    ensures forall i :: offset + |bytes| <= i < |data| ==> r[i] == data[i]
  {
    var head := if offset <= |data| then data[..offset] else data + Zeros(offset - |data|);
    var tail := if offset + |bytes| <= |data| then data[offset + |bytes|..] else [];
    assert |head| == offset;
    head + bytes + tail
  }

  /** The array filled by `Seek(offset)` and `Read(array, 0, count)` on a fresh
      `new byte[count]`: the bytes that exist at `offset`, then the zeros of the
      part of the array that the read did not reach. */
  function ReadWindow(data: seq<byte>, offset: nat, count: nat): (r: seq<byte>)
    ensures |r| == count
    ensures forall i :: 0 <= i < count ==> r[i] == if offset + i < |data| then data[offset + i] else 0
  {
    var got := if offset < |data| then data[offset..Min(|data|, offset + count)] else [];
    got + Zeros(count - |got|)
  }

  /** Writing at offset 0 over an empty stream leaves exactly the written bytes. */
  lemma OverwriteEmpty(bytes: seq<byte>)
    ensures Overwrite([], 0, bytes) == bytes
  {
  }

  /** Writing `b` at offset 0 over a stream that holds exactly `a`, where `b` starts
      with `a`, leaves exactly `b`. */
  lemma OverwritePrefix(a: seq<byte>, b: seq<byte>)
    requires |a| <= |b| && b[..|a|] == a
    ensures Overwrite(a, 0, b) == b
  {
    var r := Overwrite(a, 0, b);
    assert r[0..|b|] == b;
  }

  /** Reading back what was fully written returns it. */
  lemma ReadWhatWasWritten(data: seq<byte>, offset: nat, bytes: seq<byte>)
    ensures ReadWindow(Overwrite(data, offset, bytes), offset, |bytes|) == bytes
  {
    var r := Overwrite(data, offset, bytes);
    var w := ReadWindow(r, offset, |bytes|);
    forall i | 0 <= i < |bytes| ensures w[i] == bytes[i] {
      assert r[offset..offset + |bytes|][i] == r[offset + i];
    }
  }
}
