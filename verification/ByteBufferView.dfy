/** A view: a buffer of its own, and a range of that buffer's readable bytes that can be edited
    like a collection. */
module ByteBufferViews {
  import opened ByteBuffers
  import opened ByteBufferValues

  /** The bytes from `lo` to `hi` replaced by `elements`. */
  function Spliced(data: seq<Octet>, lo: nat, hi: nat, elements: seq<Octet>): seq<Octet>
    requires lo <= hi <= |data|
  {
    data[..lo] + elements + data[hi..]
  }

  /** Storing the elements first and closing the gap afterwards. */
  lemma SetThenClose(s: View, t: View, u: View, lo: nat, hi: nat, elements: seq<Octet>)
    requires lo + |elements| <= hi <= s.writer <= |s.slice| <= MAX_INDEX && |t.slice| <= MAX_INDEX
    requires Wrote(s, t, lo, elements, MAX_INDEX)
    requires if hi < s.writer then Wrote(t, u, lo + |elements|, t.slice[hi..s.writer], s.writer) else u == t
    ensures u.reader == s.reader && u.writer == s.writer <= |u.slice|
    ensures u.slice[..s.writer - (hi - lo - |elements|)] == Spliced(s.slice[..s.writer], lo, hi, elements)
  {
    var end := lo + |elements|;
    var spliced := Spliced(s.slice[..s.writer], lo, hi, elements);
    forall i | 0 <= i < s.writer - (hi - end)
      ensures u.slice[i] == spliced[i]
    {
      if lo <= i < end {
        assert t.slice[lo..end][i - lo] == elements[i - lo];
      } else if end <= i {
        assert u.slice[end..end + (s.writer - hi)][i - end] == t.slice[hi..s.writer][i - end];
      }
    }
  }

  /** Opening the gap first and storing the elements afterwards. */
  lemma OpenThenSet(s: View, t: View, u: View, lo: nat, hi: nat, elements: seq<Octet>)
    requires lo <= hi <= s.writer <= |s.slice| <= MAX_INDEX && hi - lo < |elements| && |t.slice| <= MAX_INDEX
    requires s.writer + |elements| <= MAX_INDEX
    requires if hi < s.writer then
               Wrote(s, t, lo + |elements|, s.slice[hi..s.writer], s.writer + |elements| - (hi - lo))
             else t == s
    requires Wrote(t, u, lo, elements, MAX_INDEX)
    ensures u.reader == s.reader && u.writer == s.writer && s.writer + |elements| - (hi - lo) <= |u.slice|
    ensures u.slice[..s.writer + |elements| - (hi - lo)] == Spliced(s.slice[..s.writer], lo, hi, elements)
  {
    var n := s.writer + |elements| - (hi - lo);
    var gap := lo + |elements|;
    var spliced := Spliced(s.slice[..s.writer], lo, hi, elements);
    forall i | 0 <= i < n
      ensures u.slice[i] == spliced[i]
    {
      if lo <= i < gap {
        assert u.slice[lo..gap][i - lo] == elements[i - lo];
      } else if gap <= i {
        assert t.slice[gap..gap + (s.writer - hi)][i - gap] == s.slice[hi..s.writer][i - gap];
      }
    }
  }

  class ByteBufferView {
    var buffer: ByteBuffer
    var startIndex: nat
    var endIndex: nat

    /** The range lies inside the readable bytes. */
    ghost predicate Valid()
      reads this, buffer, buffer.storage
    {
      buffer.Valid() && buffer.readerIndex <= startIndex <= endIndex <= buffer.writerIndex
    }

    ghost function Bytes(): seq<Octet>
      requires Valid()
      reads this, buffer, buffer.storage
    {
      Contents(buffer).data[startIndex..endIndex]
    }

    constructor (buffer: ByteBuffer, startIndex: nat, endIndex: nat)
      requires buffer.Valid() && buffer.readerIndex <= startIndex <= endIndex <= buffer.writerIndex
      ensures Valid() && this.buffer == buffer
      ensures Bytes() == Contents(buffer).data[startIndex..endIndex]
    {
      this.buffer, this.startIndex, this.endIndex := buffer, startIndex, endIndex;
    }

    /** Fewer elements than they replace. */
    method Shrink(lo: nat, hi: nat, elements: seq<Octet>, ghost world: set<ByteBuffer>)
      requires World(world) && buffer in world && Valid()
      requires startIndex <= lo <= hi <= endIndex && |elements| < hi - lo
      requires buffer.lower + buffer.writerIndex + |elements| <= MAX_INDEX
      modifies this`endIndex, buffer, buffer.storage
      ensures World(world) && Others(world, buffer) == old(Others(world, buffer))
      ensures Valid() && endIndex == old(endIndex) + |elements| - (hi - lo)
      ensures buffer.readerIndex == old(buffer.readerIndex)
      ensures Contents(buffer).data == Spliced(old(Contents(buffer)).data, lo, hi, elements)
    {
      hide World, Others, Wrote, Spliced;
      ghost var s := buffer.Value();
      var _ := buffer.SetBytes(elements, lo, world);
      ghost var t := buffer.Value();
      WroteIndices(s, t, lo, elements, MAX_INDEX);
      var copied := buffer.CopyBytes(hi, lo + |elements|, buffer.writerIndex - hi, world);
      assert copied.Copied?;
      ghost var u := buffer.Value();
      SetThenClose(s, t, u, lo, hi, elements);
      var removedBytes := hi - lo - |elements|;
      buffer.MoveIndices(buffer.readerIndex, buffer.writerIndex - removedBytes, world);
      endIndex := endIndex - removedBytes;
      assert buffer.Value().slice == u.slice;
    }

    /** More elements than they replace. */
    method Widen(lo: nat, hi: nat, elements: seq<Octet>, ghost world: set<ByteBuffer>)
      requires World(world) && buffer in world && Valid()
      requires startIndex <= lo <= hi <= endIndex && hi - lo < |elements|
      requires buffer.lower + buffer.writerIndex + |elements| <= MAX_INDEX
      modifies this`endIndex, buffer, buffer.storage
      ensures World(world) && Others(world, buffer) == old(Others(world, buffer))
      ensures Valid() && endIndex == old(endIndex) + |elements| - (hi - lo)
      ensures buffer.readerIndex == old(buffer.readerIndex)
      ensures Contents(buffer).data == Spliced(old(Contents(buffer)).data, lo, hi, elements)
    {
      hide World, Others, Wrote, Spliced;
      ghost var s := buffer.Value();
      var copied := buffer.CopyBytes(hi, lo + |elements|, buffer.writerIndex - hi, world);
      assert copied.Copied?;
      ghost var t := buffer.Value();
      var _ := buffer.SetBytes(elements, lo, world);
      ghost var u := buffer.Value();
      OpenThenSet(s, t, u, lo, hi, elements);
      var additionalByteCount := |elements| - (hi - lo);
      buffer.MoveIndices(buffer.readerIndex, buffer.writerIndex + additionalByteCount, world);
      endIndex := endIndex + additionalByteCount;
      assert buffer.Value().slice == u.slice;
    }

    /** `replaceSubrange`: the elements take the place of the bytes from `lo` to `hi`. */
    method ReplaceSubrange(lo: nat, hi: nat, elements: seq<Octet>, ghost world: set<ByteBuffer>)
      requires World(world) && buffer in world && Valid()
      requires startIndex <= lo <= hi <= endIndex
      requires buffer.lower + buffer.writerIndex + |elements| <= MAX_INDEX
      modifies this`endIndex, buffer, buffer.storage
      ensures World(world) && Others(world, buffer) == old(Others(world, buffer))
      ensures Valid() && endIndex == old(endIndex) + |elements| - (hi - lo)
      ensures buffer.readerIndex == old(buffer.readerIndex)
      ensures Contents(buffer).data == Spliced(old(Contents(buffer)).data, lo, hi, elements)
      ensures Bytes() == Spliced(old(Bytes()), lo - startIndex, hi - startIndex, elements)
    {
      hide World, Others, Wrote, Spliced;
      ghost var data := Contents(buffer).data;
      if |elements| == hi - lo {
        ghost var s := buffer.Value();
        var _ := buffer.SetBytes(elements, lo, world);
        WrotePatches(s, buffer.Value(), lo, elements, MAX_INDEX);
        WroteIndices(s, buffer.Value(), lo, elements, MAX_INDEX);
        PatchedAll(data, lo, elements);
      } else if |elements| < hi - lo {
        Shrink(lo, hi, elements, world);
      } else {
        Widen(lo, hi, elements, world);
      }
      SplicedRange(data, startIndex, old(endIndex), lo, hi, elements);
    }
  }

  lemma WroteIndices(s: View, t: View, index: nat, bytes: seq<Octet>, limit: nat)
    requires Wrote(s, t, index, bytes, limit)
    ensures t.reader == s.reader && t.writer == s.writer && Min(|s.slice|, limit) <= |t.slice|
  {
  }

  lemma PatchedAll(data: seq<Octet>, lo: nat, elements: seq<Octet>)
    requires lo + |elements| <= |data|
    ensures Patched(data, lo, elements) == Spliced(data, lo, lo + |elements|, elements)
  {
  }

  /** A range around the splice sees the same splice. */
  lemma SplicedRange(data: seq<Octet>, start: nat, end: nat, lo: nat, hi: nat, elements: seq<Octet>)
    requires start <= lo <= hi <= end <= |data|
    ensures Spliced(data, lo, hi, elements)[start..end + |elements| - (hi - lo)] ==
              Spliced(data[start..end], lo - start, hi - start, elements)
  {
    var whole, part := Spliced(data, lo, hi, elements), Spliced(data[start..end], lo - start, hi - start, elements);
    assert |part| == end + |elements| - (hi - lo) - start;
    forall i | 0 <= i < |part|
      ensures whole[start + i] == part[i]
    {
    }
  }
}
