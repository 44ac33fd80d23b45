/** The copy-on-write byte buffer: buffer variables that share storage objects. A struct
    variable is an object of class ByteBuffer, and a storage object carries the number of
    buffers that refer to it, which is what `isKnownUniquelyReferenced` looks at.
    Sizes are such that no 32-bit addition traps. */
module ByteBuffers {
  type Octet = bv8

  /** The largest 32-bit index, and the largest lower bound of a slice (24 bits). */
  const MAX_INDEX: nat := 0xFFFF_FFFF
  const MAX_LOWER_BOUND: nat := 0xFF_FFFF

  function Min(a: nat, b: nat): nat { if a < b then a else b }
  function Max(a: nat, b: nat): nat { if a < b then b else a }

  /** The least power of two that is at least n. */
  function PowerOfTwoFrom(n: nat, p: nat): (r: nat)
    requires 0 < p
    ensures n <= r && p <= r && (r == p || r < 2 * n)
    decreases n - p
  {
    if n <= p then p else PowerOfTwoFrom(n, 2 * p)
  }

  /** The next power of two, clamped to the largest index. */
  function NextPowerOf2ClampedToMax(n: nat): (r: nat)
    requires n <= MAX_INDEX
    ensures n <= r <= MAX_INDEX && 0 < r
  {
    Min(PowerOfTwoFrom(n, 1), MAX_INDEX)
  }

  /** What `copyMemory` leaves: `bytes` written over `memory` from `index` on. */
  function Overlay(memory: seq<Octet>, index: nat, bytes: seq<Octet>): (r: seq<Octet>)
    requires index + |bytes| <= |memory|
    ensures |r| == |memory|
  {
    memory[..index] + bytes + memory[index + |bytes|..]
  }

  /** The memory that buffers share. `references` is the count that decides whether a buffer is
      its only owner; the ghost set says who the owners are. */
  class Storage {
    var bytes: seq<Octet>
    var references: nat
    ghost var owners: set<ByteBuffer>

    /** Fresh memory holds arbitrary bytes. */
    constructor (capacity: nat)
      ensures |bytes| == capacity && references == 0 && owners == {}
    {
      var block := new Octet[capacity];
      bytes := block[..];
      references, owners := 0, {};
    }

    /** One more reference. */
    method Retain(b: ByteBuffer)
      modifies this`references, this`owners
      ensures references == old(references) + 1 && owners == old(owners) + {b}
    {
      references, owners := references + 1, owners + {b};
    }

    /** One reference less. */
    method Release(b: ByteBuffer)
      requires references > 0
      modifies this`references, this`owners
      ensures references == old(references) - 1 && owners == old(owners) - {b}
    {
      references, owners := references - 1, owners - {b};
    }

    /** A new storage with a copy of bytes[from..to] at its start. */
    method ReallocSlice(from: nat, to: nat, capacity: nat) returns (r: Storage)
      requires from <= to <= |bytes| && to - from <= capacity <= MAX_INDEX
      ensures fresh(r) && r.references == 0 && r.owners == {}
      ensures capacity <= |r.bytes| <= MAX_INDEX
      ensures r.bytes[..to - from] == bytes[from..to]
    {
      hide Overlay, NextPowerOf2ClampedToMax;
      var newCapacity := if capacity == 0 then 0 else NextPowerOf2ClampedToMax(capacity);
      r := new Storage(newCapacity);
      OverlayAt(r.bytes, 0, bytes[from..to]);
      r.bytes := Overlay(r.bytes, 0, bytes[from..to]);
    }

    /** What `realloc` makes of the memory of this storage. */
    method Reallocated(capacity: nat) returns (memory: seq<Octet>)
      requires |bytes| <= capacity <= MAX_INDEX
      ensures capacity <= |memory| <= MAX_INDEX && bytes <= memory
    {
      hide Overlay, NextPowerOf2ClampedToMax;
      var newCapacity := NextPowerOf2ClampedToMax(capacity);
      var block := new Octet[newCapacity];
      OverlayAt(block[..], 0, bytes);
      memory := Overlay(block[..], 0, bytes);
    }
  }

  /** What holds in every heap of buffers: each is well-formed, and each storage knows and counts
      exactly the buffers that refer to it. */
  ghost predicate World(world: set<ByteBuffer>)
    reads world, set b | b in world :: b.storage
  {
    forall b | b in world :: b.Shares(world)
  }

  /** What a buffer is as a value: the bytes of its slice, and its two indices. */
  datatype View = View(slice: seq<Octet>, reader: nat, writer: nat)

  /** The value of every buffer. */
  ghost function Values(world: set<ByteBuffer>): map<ByteBuffer, View>
    requires World(world)
    reads world, set b | b in world :: b.storage
  {
    map b | b in world :: b.Value()
  }

  /** The values of every buffer but `self`. */
  ghost function Others(world: set<ByteBuffer>, self: ByteBuffer): map<ByteBuffer, View>
    requires World(world)
    reads world, set b | b in world :: b.storage
  {
    map b | b in world && b != self :: b.Value()
  }

  /** A storage with one reference belongs to that buffer alone. */
  lemma OnlyOwner(world: set<ByteBuffer>, b: ByteBuffer)
    requires World(world) && b in world && b.storage.references == 1
    ensures b.storage.owners == {b}
    ensures forall c | c in world && c != b :: c.storage != b.storage
  {
    assert |b.storage.owners - {b}| == 0;
    assert b.storage.owners == {b};
  }

  /** What one buffer may use of the state of the heap. */
  lemma Known(world: set<ByteBuffer>, b: ByteBuffer)
    requires World(world) && b in world
    ensures b.Valid() && b.storage.references > 0
  {
    assert b.Shares(world);
    assert |b.storage.owners| > 0;
  }

  lemma SliceOfSlice(s: seq<Octet>, lo: nat, hi: nat, a: nat, b: nat)
    requires lo <= hi <= |s| && a <= b <= hi - lo
    ensures s[lo..hi][a..b] == s[lo + a..lo + b]
  {
    assert |s[lo..hi][a..b]| == |s[lo + a..lo + b]| == b - a;
    assert forall k | 0 <= k < b - a :: s[lo..hi][a..b][k] == s[lo + a..lo + b][k];
  }

  lemma SamePrefix(s: seq<Octet>, t: seq<Octet>, n: nat, a: nat, b: nat)
    requires n <= |s| && n <= |t| && s[..n] == t[..n] && a <= b <= n
    ensures s[a..b] == t[a..b]
  {
    assert s[a..b] == s[..n][a..b] && t[a..b] == t[..n][a..b];
  }

  lemma OverlayAt(memory: seq<Octet>, index: nat, bytes: seq<Octet>)
    requires index + |bytes| <= |memory|
    ensures Overlay(memory, index, bytes)[index..index + |bytes|] == bytes
    ensures forall i | 0 <= i < |memory| && !(index <= i < index + |bytes|) ::
      Overlay(memory, index, bytes)[i] == memory[i]
  {
  }

  /** `t` is `s` with `bytes` at `index`, and possibly a longer slice. Only the bytes before
      `limit` of the slice of `s` are kept. */
  ghost predicate Wrote(s: View, t: View, index: nat, bytes: seq<Octet>, limit: nat) {
    && t.reader == s.reader && t.writer == s.writer
    && Max(Min(|s.slice|, limit), index + |bytes|) <= |t.slice|
    && t.slice[index..index + |bytes|] == bytes
    && (forall i :: 0 <= i < Min(|s.slice|, limit) && !(index <= i < index + |bytes|) ==> t.slice[i] == s.slice[i])
  }

  /** The same, after the slice was made longer or was cut at `limit`. */
  lemma WroteInLonger(s: View, s': View, t: View, index: nat, bytes: seq<Octet>, limit: nat)
    requires s'.reader == s.reader && s'.writer == s.writer
    requires Min(|s.slice|, limit) <= |s'.slice| <= MAX_INDEX
    requires s'.slice[..Min(|s.slice|, limit)] == s.slice[..Min(|s.slice|, limit)]
    requires Wrote(s', t, index, bytes, MAX_INDEX)
    ensures Wrote(s, t, index, bytes, limit)
  {
    var n := Min(|s.slice|, limit);
    forall i | 0 <= i < n && !(index <= i < index + |bytes|)
      ensures t.slice[i] == s.slice[i]
    {
      assert s'.slice[..n][i] == s.slice[..n][i];
    }
  }

  /** The result of `copyBytes`: a count, or one of its two errors. */
  datatype CopyResult = Copied(count: nat) | NegativeLength | UnreadableSourceBytes

  function CopyOutcome(s: View, from: int, length: int): CopyResult {
    if length < 0 then NegativeLength
    else if length == 0 then Copied(0)
    else if s.reader <= from && from + length <= s.writer then Copied(length)
    else UnreadableSourceBytes
  }

  datatype SliceResult = Slice(buffer: ByteBuffer) | Unreadable | Trap

  predicate Readable(s: View, index: int, length: int) {
    s.reader <= index && 0 <= length && index + length <= s.writer
  }

  /** Where in the storage a slice at `index` of a buffer with this lower bound is taken from. */
  function CopyOrigin(lower: nat, index: nat): nat {
    if lower + index <= MAX_LOWER_BOUND then lower + index else lower + (lower + index)
  }

  /** What `slice` may hold: the bytes of the storage from the origin on, as far as the slice of
      the source buffer goes, and after it arbitrary bytes of fresh memory. */
  ghost predicate Delivered(bytes: seq<Octet>, lower: nat, upper: nat, index: nat, length: nat, slice: seq<Octet>)
    requires lower <= upper <= |bytes|
  {
    var from := CopyOrigin(lower, index);
    && |slice| == length && from <= upper
    && slice[..Min(length, upper - from)] == bytes[from..Min(from + length, upper)]
  }

  /** One byte more. */
  lemma WroteMore(s: View, s': View, t: View, index: nat, bytes: seq<Octet>, n: nat)
    requires n < |bytes| && |s.slice| <= MAX_INDEX && |s'.slice| <= MAX_INDEX
    requires Wrote(s, s', index, bytes[..n], MAX_INDEX)
    requires Wrote(s', t, index + n, [bytes[n]], MAX_INDEX)
    ensures Wrote(s, t, index, bytes[..n + 1], MAX_INDEX)
  {
    forall i | index <= i < index + n
      ensures t.slice[i] == bytes[i - index]
    {
      assert s'.slice[index..index + n][i - index] == bytes[i - index];
    }
    assert t.slice[index + n..index + n + 1][0] == bytes[n];
    assert t.slice[index..index + n + 1] == bytes[..n + 1];
  }

  class ByteBuffer {
    var storage: Storage
    var lower: nat
    var upper: nat
    var readerIndex: nat
    var writerIndex: nat

    ghost predicate Valid()
      reads this, storage
    {
      && lower <= upper <= |storage.bytes| <= MAX_INDEX
      && lower <= MAX_LOWER_BOUND
      && readerIndex <= writerIndex <= upper - lower
    }

    ghost predicate Shares(world: set<ByteBuffer>)
      reads this, storage, world`storage
    {
      && Valid()
      && this in storage.owners && storage.owners <= world
      && storage.references == |storage.owners|
      && forall c | c in world && c in storage.owners :: c.storage == storage
    }

    ghost function Value(): View
      requires Valid()
      reads this, storage
    {
      View(storage.bytes[lower..upper], readerIndex, writerIndex)
    }

    /** The fields only: the storage does not know of the new buffer yet. */
    constructor (storage: Storage, lower: nat, upper: nat, readerIndex: nat, writerIndex: nat)
      ensures this.storage == storage && this.lower == lower && this.upper == upper
      ensures this.readerIndex == readerIndex && this.writerIndex == writerIndex
    {
      this.storage, this.lower, this.upper := storage, lower, upper;
      this.readerIndex, this.writerIndex := readerIndex, writerIndex;
    }

    /** Count a new buffer among the owners of its storage. */
    method Enrol(ghost world: set<ByteBuffer>)
      requires World(world) && this !in world && Valid()
      requires storage.references == |storage.owners| && storage.owners <= world
      requires forall b | b in world :: b in storage.owners <==> b.storage == storage
      modifies storage`references, storage`owners
      ensures World(world + {this}) && Others(world + {this}, this) == old(Values(world))
    {
      ghost var wider := world + {this};
      Count(world, wider);
      hide ByteBuffer.Shares;
    }

    method Count(ghost world: set<ByteBuffer>, ghost wider: set<ByteBuffer>)
      requires World(world) && this !in world && Valid() && wider == world + {this}
      requires storage.references == |storage.owners| && storage.owners <= world
      requires forall b | b in world :: b in storage.owners <==> b.storage == storage
      modifies storage`references, storage`owners
      ensures forall b | b in wider :: b.Shares(wider)
      ensures forall b | b in world :: b.Value() == old(b.Value())
    {
      storage.Retain(this);
      forall b | b in wider
        ensures b.Shares(wider) && (b != this ==> b.Value() == old(b.Value()))
      {
        if b != this {
          assert old(b.Shares(world));
        }
      }
    }

    /** An empty buffer with memory of its own. */
    static method Allocate(capacity: nat, ghost world: set<ByteBuffer>) returns (r: ByteBuffer)
      requires World(world) && capacity <= MAX_INDEX
      ensures fresh(r) && fresh(r.storage) && r.Valid()
      ensures World(world + {r}) && Others(world + {r}, r) == old(Values(world))
      ensures r.Value().reader == r.Value().writer == 0 && capacity <= |r.Value().slice|
    {
      hide World, Others, Values;
      var newCapacity := if capacity == 0 then 0 else NextPowerOf2ClampedToMax(capacity);
      var storage := new Storage(newCapacity);
      r := new ByteBuffer(storage, 0, newCapacity, 0, 0);
      r.Enrol(world);
    }

    /** `var new = self`: one more reference to the same storage. */
    method Copy(ghost world: set<ByteBuffer>) returns (r: ByteBuffer)
      requires World(world) && this in world
      modifies storage`references, storage`owners
      ensures fresh(r) && World(world + {r}) && Others(world + {r}, r) == old(Values(world))
      ensures r.storage == storage && r.lower == lower && r.upper == upper
      ensures r.readerIndex == readerIndex && r.writerIndex == writerIndex
    {
      hide Others, Values;
      r := new ByteBuffer(storage, lower, upper, readerIndex, writerIndex);
      assert Shares(world);
      forall b | b in world && b.storage == storage
        ensures b in storage.owners
      {
        assert b.Shares(world);
      }
      hide World;
      r.Enrol(world);
    }

    /** `self._storage = newStorage` with all of it as the slice: the old storage loses a reference. */
    method Adopt(newStorage: Storage, reader: nat, writer: nat, ghost world: set<ByteBuffer>)
      requires World(world) && this in world && newStorage.references == 0 && newStorage.owners == {}
      requires forall b | b in world :: b.storage != newStorage
      requires reader <= writer <= |newStorage.bytes| <= MAX_INDEX
      modifies this, storage`references, storage`owners, newStorage`references, newStorage`owners
      ensures World(world) && Others(world, this) == old(Others(world, this))
      ensures storage == newStorage && storage.references == 1
      ensures lower == 0 && upper == |storage.bytes| && readerIndex == reader && writerIndex == writer
    {
      assert old(Shares(world));
      storage.Release(this);
      newStorage.Retain(this);
      Point(newStorage, reader, writer);
      forall b | b in world
        ensures b.Shares(world) && (b != this ==> b.Value() == old(b.Value()))
      {
        assert old(b.Shares(world));
      }
    }

    /** Point at all of another storage. */
    method Point(newStorage: Storage, reader: nat, writer: nat)
      requires reader <= writer <= |newStorage.bytes|
      modifies this
      ensures storage == newStorage && lower == 0 && upper == |storage.bytes|
      ensures readerIndex == reader && writerIndex == writer
    {
      storage := newStorage;
      lower, upper, readerIndex, writerIndex := 0, |storage.bytes|, reader, writer;
    }

    /** Change the indices only. */
    method MoveIndices(reader: nat, writer: nat, ghost world: set<ByteBuffer>)
      requires World(world) && this in world && reader <= writer <= upper - lower
      modifies this`readerIndex, this`writerIndex
      ensures World(world) && Others(world, this) == old(Others(world, this))
      ensures readerIndex == reader && writerIndex == writer
    {
      readerIndex, writerIndex := reader, writer;
      forall b | b in world
        ensures b.Shares(world) && (b != this ==> b.Value() == old(b.Value()))
      {
        assert old(b.Shares(world));
      }
    }

    /** Change the slice of the storage to a part of it, all of it to be read. */
    method Narrow(begin: nat, end: nat, ghost world: set<ByteBuffer>)
      requires World(world) && this in world
      requires begin <= end <= |storage.bytes| && begin <= MAX_LOWER_BOUND
      modifies this`lower, this`upper, this`readerIndex, this`writerIndex
      ensures World(world) && Others(world, this) == old(Others(world, this))
      ensures lower == begin && upper == end && readerIndex == 0 && writerIndex == end - begin
    {
      lower, upper, readerIndex, writerIndex := begin, end, 0, end - begin;
      forall b | b in world
        ensures b.Shares(world) && (b != this ==> b.Value() == old(b.Value()))
      {
        assert old(b.Shares(world));
      }
    }

    /** Write the memory and set the slice, as the only owner of the storage. */
    method SetMemory(memory: seq<Octet>, begin: nat, end: nat, ghost world: set<ByteBuffer>)
      requires World(world) && this in world && storage.references == 1
      requires begin + writerIndex <= end <= |memory| <= MAX_INDEX && begin <= MAX_LOWER_BOUND
      modifies this`lower, this`upper, storage`bytes
      ensures World(world) && Others(world, this) == old(Others(world, this))
      ensures storage.bytes == memory && lower == begin && upper == end
    {
      OnlyOwner(world, this);
      storage.bytes := memory;
      lower, upper := begin, end;
      forall b | b in world
        ensures b.Shares(world) && (b != this ==> b.Value() == old(b.Value()))
      {
        assert old(b.Shares(world));
      }
    }

    /** Copy the slice, from the reader index on if `resetIndices`, to storage of one's own. */
    method CopyStorageAndRebase(capacity: nat, resetIndices: bool, ghost world: set<ByteBuffer>)
      requires World(world) && this in world && capacity <= MAX_INDEX
      requires Valid() && writerIndex - (if resetIndices then readerIndex else 0) <= capacity
      modifies this, storage`references, storage`owners
      ensures World(world) && Others(world, this) == old(Others(world, this))
      ensures fresh(storage) && storage.references == 1 && lower == 0
      ensures Valid() && capacity <= upper
      ensures var s, t := old(Value()), Value();
              var rebase := if resetIndices then s.reader else 0;
              var kept := Min(|s.slice| - rebase, capacity);
              && t.reader == s.reader - rebase && t.writer == s.writer - rebase
              && t.slice[..kept] == s.slice[rebase..rebase + kept]
    {
      hide World, Others;
      var rebase := if resetIndices then readerIndex else 0;
      var from := lower + rebase;
      var to := Min(Min(from + (upper - lower), upper), from + capacity);
      ghost var s, kept := Value(), to - from;
      SliceOfSlice(storage.bytes, lower, upper, rebase, rebase + kept);
      var copy := storage.ReallocSlice(from, to, capacity);
      Adopt(copy, readerIndex - rebase, writerIndex - rebase, world);
      assert Value().slice[..kept] == storage.bytes[..kept];
    }

    /** Make room for `capacity` bytes at `index`, as the only owner of the storage. */
    method EnsureAvailableCapacity(capacity: nat, index: nat, ghost world: set<ByteBuffer>)
      requires World(world) && this in world && Valid() && storage.references == 1
      requires lower + index + capacity <= MAX_INDEX
      modifies this, storage
      ensures World(world) && Others(world, this) == old(Others(world, this))
      ensures storage.references == 1 && (fresh(storage) || storage == old(storage))
      ensures Valid() && lower + index + capacity <= upper && lower <= old(lower)
      ensures var s, t := old(Value()), Value();
              t.reader == s.reader && t.writer == s.writer && s.slice <= t.slice
    {
      hide World, Others;
      ghost var s := Value();
      var needed := lower + index + capacity;
      if needed > upper {
        if needed > |storage.bytes| {
          if lower == 0 {
            var memory := storage.Reallocated(index + capacity);
            SetMemory(memory, 0, |memory|, world);
            assert s.slice == memory[..|s.slice|];
          } else {
            var copy := storage.ReallocSlice(lower, upper, index + capacity);
            Adopt(copy, readerIndex, writerIndex, world);
            assert s.slice == storage.bytes[..|s.slice|];
          }
        } else {
          SetMemory(storage.bytes, lower, |storage.bytes|, world);
        }
      }
    }

    /** Store bytes in the slice, as the only owner of the storage. */
    method SetBytesAssumingUniqueBufferAccess(bytes: seq<Octet>, index: nat, ghost world: set<ByteBuffer>)
      requires World(world) && this in world && Valid() && storage.references == 1
      requires lower + index + |bytes| <= upper
      modifies this`lower, this`upper, storage`bytes
      ensures World(world) && Others(world, this) == old(Others(world, this))
      ensures Valid() && lower == old(lower) && upper == old(upper)
      ensures Wrote(old(Value()), Value(), index, bytes, MAX_INDEX)
    {
      hide World, Others;
      hide Overlay;
      OverlayAt(storage.bytes, lower + index, bytes);
      SetMemory(Overlay(storage.bytes, lower + index, bytes), lower, upper, world);
      SliceOfSlice(storage.bytes, lower, upper, index, index + |bytes|);
    }

    /** Store bytes at `index`, without moving the writer index. */
    method SetBytes(bytes: seq<Octet>, index: nat, ghost world: set<ByteBuffer>) returns (written: nat)
      requires World(world) && this in world && Valid()
      requires lower + index + |bytes| <= MAX_INDEX
      modifies this, storage
      ensures World(world) && Others(world, this) == old(Others(world, this))
      ensures Valid() && (fresh(storage) || storage == old(storage)) && lower <= old(lower)
      ensures storage.references == 1
      ensures written == |bytes| && Wrote(old(Value()), Value(), index, bytes, MAX_INDEX)
    {
      hide World, Others, Wrote;
      ghost var s := Value();
      var newEnd := index + |bytes|;
      Known(world, this);
      if storage.references != 1 {
        var extra := if newEnd > upper then newEnd - upper else 0;
        CopyStorageAndRebase(upper - lower + extra, false, world);
        assert s.slice[0..|s.slice|] == s.slice;
      }
      assert s.slice <= Value().slice;
      EnsureAvailableCapacity(|bytes|, index, world);
      ghost var s' := Value();
      SetBytesAssumingUniqueBufferAccess(bytes, index, world);
      assert s.slice[..|s.slice|] == s.slice && s'.slice[..|s.slice|] == s.slice;
      WroteInLonger(s, s', Value(), index, bytes, MAX_INDEX);
      written := |bytes|;
    }

    /** Store a sequence whose length is not known in advance, only `underestimatedCount` of it. */
    method SetSlowPath(bytes: seq<Octet>, underestimatedCount: nat, index: nat, ghost world: set<ByteBuffer>)
      returns (written: nat)
      requires World(world) && this in world && Valid()
      requires underestimatedCount <= |bytes| && lower + index + |bytes| <= MAX_INDEX
      modifies this, storage
      ensures World(world) && Others(world, this) == old(Others(world, this))
      ensures Valid() && (fresh(storage) || storage == old(storage)) && lower <= old(lower)
      ensures storage.references == 1
      ensures written == |bytes| && Wrote(old(Value()), Value(), index, bytes, MAX_INDEX)
    {
      hide World, Others, Wrote;
      ghost var s := Value();
      written := SetBytes(bytes[..underestimatedCount], index, world);
      while written < |bytes|
        invariant World(world) && Others(world, this) == old(Others(world, this))
        invariant Valid() && (fresh(storage) || storage == old(storage)) && lower <= old(lower)
        invariant storage.references == 1
        invariant underestimatedCount <= written <= |bytes|
        invariant Wrote(s, Value(), index, bytes[..written], MAX_INDEX)
      {
        ghost var s' := Value();
        EnsureAvailableCapacity(written + 1, index, world);
        ghost var s'' := Value();
        SetBytesAssumingUniqueBufferAccess([bytes[written]], index + written, world);
        WroteInLonger(s', s'', Value(), index + written, [bytes[written]], MAX_INDEX);
        WroteMore(s, s', Value(), index, bytes, written);
        written := written + 1;
      }
      assert bytes[..written] == bytes;
    }

    /** Room for at least `minimumCapacity` bytes in the slice. */
    method ReserveCapacity(minimumCapacity: nat, ghost world: set<ByteBuffer>)
      requires World(world) && this in world && Valid()
      requires lower + minimumCapacity <= MAX_INDEX
      modifies this, storage
      ensures World(world) && Others(world, this) == old(Others(world, this))
      ensures Valid() && (fresh(storage) || storage == old(storage)) && lower <= old(lower)
      ensures minimumCapacity <= |Value().slice|
      ensures Wrote(old(Value()), Value(), 0, [], MAX_INDEX)
    {
      hide World, Others;
      ghost var s := Value();
      Known(world, this);
      if minimumCapacity > upper - lower {
        if storage.references == 1 {
          EnsureAvailableCapacity(minimumCapacity, 0, world);
        } else {
          CopyStorageAndRebase(minimumCapacity, false, world);
          assert s.slice[0..|s.slice|] == s.slice;
        }
      }
    }

    /** Be the only owner of the storage. */
    method CopyStorageAndRebaseIfNeeded(ghost world: set<ByteBuffer>)
      requires World(world) && this in world && Valid()
      modifies this, storage
      ensures World(world) && Others(world, this) == old(Others(world, this))
      ensures Valid() && (fresh(storage) || storage == old(storage)) && lower <= old(lower)
      ensures storage.references == 1 && upper - lower >= old(upper - lower)
      ensures Wrote(old(Value()), Value(), 0, [], MAX_INDEX)
    {
      hide World, Others;
      ghost var s := Value();
      Known(world, this);
      if storage.references != 1 {
        CopyStorageAndRebase(upper - lower, false, world);
        assert s.slice[0..|s.slice|] == s.slice;
      }
    }

    /** `count` times the same byte at `index`. */
    method SetRepeatingByte(byte: Octet, count: nat, index: nat, ghost world: set<ByteBuffer>)
      requires World(world) && this in world && Valid()
      requires lower + index + count <= MAX_INDEX
      modifies this, storage
      ensures World(world) && Others(world, this) == old(Others(world, this))
      ensures Valid() && (fresh(storage) || storage == old(storage)) && lower <= old(lower)
      ensures Wrote(old(Value()), Value(), index, seq(count, _ => byte), MAX_INDEX)
    {
      hide World, Others;
      ghost var s := Value();
      ReserveCapacity(index + count, world);
      ghost var s' := Value();
      CopyStorageAndRebaseIfNeeded(world);
      ghost var s'' := Value();
      SetBytesAssumingUniqueBufferAccess(seq(count, _ => byte), index, world);
      WroteInLonger(s', s'', Value(), index, seq(count, _ => byte), MAX_INDEX);
      WroteInLonger(s, s', Value(), index, seq(count, _ => byte), MAX_INDEX);
    }

    /** Drop what was read: the readable bytes move to the front. */
    method DiscardReadBytes(ghost world: set<ByteBuffer>) returns (discarded: bool)
      requires World(world) && this in world && Valid()
      modifies this, storage
      ensures World(world) && Others(world, this) == old(Others(world, this))
      ensures Valid() && (fresh(storage) || storage == old(storage)) && lower <= old(lower)
      ensures discarded == (old(readerIndex) > 0)
      ensures var s, t := old(Value()), Value();
              && t.reader == 0 && t.writer == s.writer - s.reader
              && t.slice[..t.writer] == s.slice[s.reader..s.writer]
              && (s.reader == 0 || s.reader == s.writer ==> t.slice == s.slice)
    {
      hide World, Others, Overlay;
      ghost var s := Value();
      Known(world, this);
      if readerIndex == 0 {
        return false;
      }
      if readerIndex == writerIndex {
        MoveIndices(0, 0, world);
      } else if storage.references == 1 {
        var readable := storage.bytes[lower + readerIndex..lower + writerIndex];
        SliceOfSlice(storage.bytes, lower, upper, readerIndex, writerIndex);
        OverlayAt(storage.bytes, lower, readable);
        SetMemory(Overlay(storage.bytes, lower, readable), lower, upper, world);
        MoveIndices(0, writerIndex - readerIndex, world);
        SliceOfSlice(storage.bytes, lower, upper, 0, writerIndex);
        assert Value().slice[0..writerIndex] == readable;
      } else {
        CopyStorageAndRebase(upper - lower, true, world);
        ghost var kept := |s.slice| - s.reader;
        SliceOfSlice(Value().slice, 0, kept, 0, writerIndex);
        SliceOfSlice(s.slice, s.reader, s.reader + kept, 0, writerIndex);
      }
      discarded := true;
    }

    /** Forget everything; keep the memory when it is not shared. */
    method Clear(ghost world: set<ByteBuffer>)
      requires World(world) && this in world && Valid()
      modifies this, storage
      ensures World(world) && Others(world, this) == old(Others(world, this))
      ensures Valid() && (fresh(storage) || storage == old(storage)) && lower == 0
      ensures readerIndex == 0 && writerIndex == 0 && storage.references == 1
      ensures |Value().slice| >= old(|storage.bytes|)
    {
      hide World, Others;
      Known(world, this);
      if storage.references != 1 {
        var capacity := |storage.bytes|;
        var empty := storage.ReallocSlice(0, 0, capacity);
        Adopt(empty, 0, 0, world);
      } else {
        MoveIndices(0, 0, world);
        SetMemory(storage.bytes, 0, |storage.bytes|, world);
      }
    }

    method ClearMinimum(minimumCapacity: nat, ghost world: set<ByteBuffer>)
      requires World(world) && this in world && Valid()
      requires minimumCapacity <= MAX_INDEX
      modifies this, storage
      ensures World(world) && Others(world, this) == old(Others(world, this))
      ensures Valid() && (fresh(storage) || storage == old(storage)) && lower == 0
      ensures readerIndex == 0 && writerIndex == 0 && storage.references == 1
      ensures |Value().slice| >= minimumCapacity
    {
      hide World, Others;
      Known(world, this);
      if storage.references != 1 {
        var empty := storage.ReallocSlice(0, 0, minimumCapacity);
        Adopt(empty, 0, 0, world);
      } else {
        var memory := storage.bytes;
        if minimumCapacity > |storage.bytes| {
          memory := storage.Reallocated(minimumCapacity);
        }
        MoveIndices(0, 0, world);
        SetMemory(memory, 0, |memory|, world);
      }
    }

    /** Copy readable bytes within the buffer. The ranges may overlap. */
    method CopyBytes(fromIndex: int, toIndex: nat, length: int, ghost world: set<ByteBuffer>)
      returns (result: CopyResult)
      requires World(world) && this in world && Valid()
      requires length > 0 ==> lower + toIndex + length <= MAX_INDEX
      modifies this, storage
      ensures World(world) && Others(world, this) == old(Others(world, this))
      ensures Valid() && (fresh(storage) || storage == old(storage)) && lower <= old(lower)
      ensures result == CopyOutcome(old(Value()), fromIndex, length)
      ensures var s, t := old(Value()), Value();
              if result.Copied? && length > 0 then
                Wrote(s, t, toIndex, s.slice[fromIndex..fromIndex + length], Max(s.writer, toIndex + length))
              else
                t == s
    {
      hide World, Others, Wrote;
      ghost var s := Value();
      Known(world, this);
      if length < 0 {
        return NegativeLength;
      }
      if length == 0 {
        return Copied(0);
      }
      if !(readerIndex <= fromIndex && fromIndex + length <= writerIndex) {
        return UnreadableSourceBytes;
      }
      ghost var limit := Max(writerIndex, toIndex + length);
      if storage.references != 1 {
        CopyStorageAndRebase(Max(writerIndex, toIndex + length), false, world);
      }
      ghost var kept := Min(|s.slice|, limit);
      ghost var c := Value();
      assert c.slice[..kept] == s.slice[0..kept];
      EnsureAvailableCapacity(length, toIndex, world);
      ghost var s' := Value();
      SamePrefix(s'.slice, c.slice, |c.slice|, 0, kept);
      assert s'.slice[..kept] == s.slice[..kept];
      var source := storage.bytes[lower..upper][fromIndex..fromIndex + length];
      SamePrefix(s'.slice, s.slice, kept, fromIndex, fromIndex + length);
      SetBytesAssumingUniqueBufferAccess(source, toIndex, world);
      WroteInLonger(s, s', Value(), toIndex, source, limit);
      return Copied(length);
    }

    /** The slice in memory of its own. The lower bound is added once here, and once more in the
        copy: see `RightSlice`. */
    method CopiedSlice(index: nat, length: nat, ghost world: set<ByteBuffer>) returns (result: SliceResult)
      requires World(world) && this in world && Valid() && Readable(Value(), index, length)
      requires lower + index > MAX_LOWER_BOUND && CopyOrigin(lower, index) + (upper - lower) <= MAX_INDEX
      ensures result.Slice? || result.Trap?
      ensures result.Trap? ==> CopyOrigin(lower, index) > upper
      ensures World(world) && Values(world) == old(Values(world))
      ensures result.Slice? ==>
                var r := result.buffer;
                && fresh(r) && World(world + {r}) && Others(world + {r}, r) == old(Values(world))
                && r.Valid() && r.readerIndex == 0 && r.writerIndex == length
                && (fresh(r.storage) || r.storage == storage)
                && Delivered(storage.bytes, lower, upper, index, length, r.Value().slice[..length])
    {
      hide World, Others, Values;
      var sliceStartIndex := lower + index;
      var from := lower + sliceStartIndex;
      var to := Min(Min(from + (upper - lower), upper), from + length);
      if from > to {
        return Trap;
      }
      var copy := storage.ReallocSlice(from, to, length);
      var r := new ByteBuffer(copy, 0, |copy.bytes|, 0, length);
      r.Enrol(world);
      assert copy.bytes[0..|copy.bytes|][..length][..to - from] == copy.bytes[..to - from];
      return Slice(r);
    }

    /** The slice in the same storage. */
    method SharedSlice(index: nat, length: nat, ghost world: set<ByteBuffer>) returns (r: ByteBuffer)
      requires World(world) && this in world && Valid() && Readable(Value(), index, length)
      requires lower + index <= MAX_LOWER_BOUND
      modifies storage`references, storage`owners
      ensures fresh(r) && World(world + {r}) && Others(world + {r}, r) == old(Values(world))
      ensures r.Valid() && r.readerIndex == 0 && r.writerIndex == length && r.storage == storage
      ensures Delivered(storage.bytes, lower, upper, index, length, r.Value().slice[..length])
    {
      hide World, Others, Values;
      r := Copy(world);
      r.Narrow(lower + index, lower + index + length, world + {r});
      ghost var slice := r.Value().slice;
      assert slice[..length] == slice;
    }

    /** A buffer with `length` bytes from `index` on: it shares the storage, unless its slice
        would begin past the largest lower bound. */
    method GetSlice(index: int, length: int, ghost world: set<ByteBuffer>) returns (result: SliceResult)
      requires World(world) && this in world && Valid()
      requires Readable(Value(), index, length) && lower + index > MAX_LOWER_BOUND ==>
                 CopyOrigin(lower, index) + (upper - lower) <= MAX_INDEX
      modifies storage`references, storage`owners
      ensures result.Unreadable? <==> !Readable(Value(), index, length)
      ensures result.Trap? ==> Readable(Value(), index, length) && CopyOrigin(lower, index) > upper
      ensures !result.Slice? ==> World(world) && Values(world) == old(Values(world))
      ensures result.Slice? ==>
                var r := result.buffer;
                && fresh(r) && World(world + {r}) && Others(world + {r}, r) == old(Values(world))
                && r.Valid() && r.readerIndex == 0 && r.writerIndex == length
                && (fresh(r.storage) || r.storage == storage)
                && Delivered(storage.bytes, lower, upper, index, length, r.Value().slice[..length])
    {
      hide World, Others, Values, Delivered;
      if !(index >= 0 && length >= 0 && index >= readerIndex && index <= writerIndex - length) {
        return Unreadable;
      }
      if lower + index > MAX_LOWER_BOUND {
        result := CopiedSlice(index, length, world);
      } else {
        var r := SharedSlice(index, length, world);
        result := Slice(r);
      }
    }
  }

  /** Slicing gives the requested bytes, whatever the memory holds. */
  ghost predicate SliceIsRight(lower: nat, upper: nat, index: nat, length: nat) {
    && CopyOrigin(lower, index) <= upper
    && forall bytes: seq<Octet>, slice: seq<Octet> |
         lower + index + length <= upper <= |bytes| && Delivered(bytes, lower, upper, index, length, slice) ::
         slice == bytes[lower + index..lower + index + length]
  }

  /** A memory in which only the first requested byte is set shows a slice that went wrong. */
  lemma WrongSlice(lower: nat, upper: nat, index: nat, length: nat)
    requires lower + index + length <= upper && 0 < length
    requires 0 < lower && MAX_LOWER_BOUND < lower + index && CopyOrigin(lower, index) <= upper
    ensures !SliceIsRight(lower, upper, index, length)
  {
    var from := CopyOrigin(lower, index);
    var bytes := seq(upper, k => if k == lower + index then 1 as Octet else 0);
    var kept := Min(length, upper - from);
    var copied := bytes[from..from + kept];
    var slice := copied + seq(length - kept, _ => 0 as Octet);
    assert slice[..kept] == copied && Min(from + length, upper) == from + kept;
    assert Delivered(bytes, lower, upper, index, length, slice);
    assert bytes[lower + index..lower + index + length][0] == bytes[lower + index] == 1;
    assert from != lower + index;
    if kept > 0 {
      assert slice[0] == copied[0] == bytes[from] == 0;
    } else {
      assert slice[0] == 0;
    }
  }

  /** Exactly when slicing gives the requested bytes: not for a slice past the largest lower bound
      of a buffer that is itself a slice with a lower bound of its own. */
  lemma RightSlice(lower: nat, upper: nat, index: nat, length: nat)
    requires lower + index + length <= upper
    ensures SliceIsRight(lower, upper, index, length) <==>
              (lower == 0 || lower + index <= MAX_LOWER_BOUND || (length == 0 && lower + lower + index <= upper))
  {
    var from := CopyOrigin(lower, index);
    if lower == 0 || lower + index <= MAX_LOWER_BOUND || (length == 0 && from <= upper) {
      forall bytes: seq<Octet>, slice: seq<Octet> |
        upper <= |bytes| && Delivered(bytes, lower, upper, index, length, slice)
        ensures slice == bytes[lower + index..lower + index + length]
      {
        assert slice[..Min(length, upper - from)] == slice;
      }
    } else if from <= upper {
      WrongSlice(lower, upper, index, length);
    }
  }
}
