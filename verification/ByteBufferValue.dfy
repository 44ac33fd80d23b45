/** A byte buffer as a pure value, and the operations that are written in terms of the core. */
module ByteBufferValues {
  import opened Wrappers
  import opened ByteBuffers

  /** All that a caller can rely on: the bytes up to the writer index, and the reader index. */
  datatype Content = Content(data: seq<Octet>, reader: nat) {
    ghost predicate Ok() { reader <= |data| }

    function Readable(): seq<Octet>
      requires reader <= |data|
    {
      data[reader..]
    }
  }

  function ContentOf(v: View): Content
    requires v.writer <= |v.slice|
  {
    Content(v.slice[..v.writer], v.reader)
  }

  ghost function Contents(b: ByteBuffer): Content
    requires b.Valid()
    reads b, b.storage
  {
    ContentOf(b.Value())
  }

  /** `data` with `bytes` at `index`, as far as there is data. */
  function Patched(data: seq<Octet>, index: nat, bytes: seq<Octet>): (r: seq<Octet>)
    ensures |r| == |data|
  {
    seq(|data|, i requires 0 <= i < |data| => if index <= i < index + |bytes| then bytes[i - index] else data[i])
  }

  /** A write that keeps what is before the writer index patches the content. */
  lemma WrotePatches(s: View, t: View, index: nat, bytes: seq<Octet>, limit: nat)
    requires s.writer <= limit && s.writer <= |s.slice| && Wrote(s, t, index, bytes, limit)
    ensures t.writer <= |t.slice|
    ensures ContentOf(t) == Content(Patched(ContentOf(s).data, index, bytes), s.reader)
  {
    var data := s.slice[..s.writer];
    forall i | 0 <= i < s.writer
      ensures t.slice[i] == Patched(data, index, bytes)[i]
    {
      if index <= i < index + |bytes| {
        assert t.slice[index..index + |bytes|][i - index] == bytes[i - index];
      }
    }
    assert t.slice[..s.writer] == Patched(data, index, bytes);
  }

  /** Bytes written at the writer index are the new end of the content. */
  lemma WroteAppends(s: View, t: View, bytes: seq<Octet>)
    requires s.writer <= |s.slice| <= MAX_INDEX && Wrote(s, t, s.writer, bytes, MAX_INDEX)
    ensures t.reader == s.reader && t.writer == s.writer && s.writer + |bytes| <= |t.slice|
    ensures t.slice[..s.writer + |bytes|] == s.slice[..s.writer] + bytes
  {
    var n := s.writer;
    assert t.slice[..n] == s.slice[..n];
    assert t.slice[..n + |bytes|] == t.slice[..n] + t.slice[n..n + |bytes|];
  }

  /** `writeBytes`: at the writer index, which moves behind them. */
  method WriteBytes(b: ByteBuffer, bytes: seq<Octet>, ghost world: set<ByteBuffer>) returns (written: nat)
    requires World(world) && b in world && b.Valid()
    requires b.lower + b.writerIndex + |bytes| <= MAX_INDEX
    modifies b, b.storage
    ensures World(world) && Others(world, b) == old(Others(world, b))
    ensures b.Valid() && (fresh(b.storage) || b.storage == old(b.storage)) && written == |bytes|
    ensures Contents(b) == Content(old(Contents(b)).data + bytes, old(b.readerIndex))
    ensures Wrote(old(b.Value()), b.Value().(writer := old(b.writerIndex)), old(b.writerIndex), bytes, MAX_INDEX)
    ensures b.writerIndex == old(b.writerIndex) + |bytes|
  {
    hide World, Others, Wrote;
    ghost var s := b.Value();
    written := b.SetBytes(bytes, b.writerIndex, world);
    ghost var t := b.Value();
    WroteAppends(s, t, bytes);
    b.MoveIndices(b.readerIndex, b.writerIndex + written, world);
    assert b.Value().slice == t.slice;
  }

  /** `getBytes`: a copy of readable bytes. */
  method GetBytes(b: ByteBuffer, index: int, length: int) returns (r: Option<seq<Octet>>)
    requires b.Valid()
    ensures r.Some? <==> Readable(b.Value(), index, length)
    ensures r.Some? ==> r.value == Contents(b).data[index..index + length]
  {
    var indexFromReaderIndex := index - b.readerIndex;
    var readable := b.writerIndex - b.readerIndex;
    if !(indexFromReaderIndex >= 0 && length >= 0 && indexFromReaderIndex <= readable - length) {
      return None;
    }
    var from := b.lower + b.readerIndex + indexFromReaderIndex;
    SliceOfSlice(b.storage.bytes, b.lower, b.upper, index, index + length);
    SamePrefix(b.Value().slice, Contents(b).data, b.writerIndex, index, index + length);
    return Some(b.storage.bytes[from..from + length]);
  }

  /** `readBytes`: the next bytes, which are then behind the reader index. */
  method ReadBytes(b: ByteBuffer, length: int, ghost world: set<ByteBuffer>) returns (r: Option<seq<Octet>>)
    requires World(world) && b in world && b.Valid()
    modifies b`readerIndex, b`writerIndex
    ensures World(world) && Others(world, b) == old(Others(world, b))
    ensures b.Valid()
    ensures var s := old(Contents(b));
            if 0 <= length <= |s.data| - s.reader then
              && r == Some(s.data[s.reader..s.reader + length])
              && Contents(b) == s.(reader := s.reader + length)
              && b.Value() == old(b.Value()).(reader := s.reader + length)
            else
              r == None && Contents(b) == s && b.Value() == old(b.Value())
  {
    hide World, Others;
    r := GetBytes(b, b.readerIndex, length);
    if r.Some? {
      b.MoveIndices(b.readerIndex + length, b.writerIndex, world);
    }
  }

  /** `writeBuffer`: the readable bytes of another buffer, which are then read. */
  method WriteBuffer(b: ByteBuffer, source: ByteBuffer, ghost world: set<ByteBuffer>) returns (written: nat)
    requires World(world) && b in world && source in world && source != b && b.Valid() && source.Valid()
    requires b.lower + b.writerIndex + (source.writerIndex - source.readerIndex) <= MAX_INDEX
    modifies b, b.storage, source`readerIndex, source`writerIndex
    ensures World(world) && b.Valid() && source.Valid()
    ensures fresh(b.storage) || b.storage == old(b.storage)
    ensures Others(world, b) - {source} == old(Others(world, b) - {source})
    ensures written == old(source.writerIndex - source.readerIndex)
    ensures Contents(b) == Content(old(Contents(b)).data + old(Contents(source)).Readable(), old(b.readerIndex))
    ensures Contents(source) == Content(old(Contents(source)).data, old(source.writerIndex))
    ensures source.Value() == old(source.Value()).(reader := old(source.writerIndex))
    ensures var s, y := old(b.Value()), old(source.Value());
            var bytes := y.slice[y.reader..y.writer];
            Wrote(s, b.Value().(writer := s.writer), s.writer, bytes, MAX_INDEX) && b.writerIndex == s.writer + |bytes|
  {
    hide World;
    ghost var s := Contents(source);
    var bytes := source.storage.bytes[source.lower..source.upper][source.readerIndex..source.writerIndex];
    SamePrefix(source.Value().slice, s.data, source.writerIndex, source.readerIndex, source.writerIndex);
    assert bytes == s.Readable();
    ghost var others := Others(world, b);
    written := WriteBytes(b, bytes, world);
    Known(world, source);
    assert source.Value() == others[source];
    ghost var others' := Others(world, source);
    assert b.Value() == others'[b];
    source.MoveIndices(source.readerIndex + written, source.writerIndex, world);
    Known(world, b);
    assert b.Value() == Others(world, source)[b];
    forall c | c in world && c != b && c != source
      ensures Others(world, b)[c] == others[c]
    {
      assert Others(world, source)[c] == others'[c];
    }
  }
}
