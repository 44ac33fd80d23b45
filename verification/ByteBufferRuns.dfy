/** Programs over any number of buffer variables: whatever storage the variables share, each
    behaves as a value of its own. */
module ByteBufferRuns {
  import opened Wrappers
  import opened ByteBuffers
  import opened ByteBufferValues

  /** One statement of a program. Variables are numbered; Make, Assign and Slice define a new one. */
  datatype Command =
    | Make(capacity: nat)
    | Assign(target: nat)
    | Slice(target: nat, from: int, length: int)
    | Append(target: nat, source: nat)
    | Set(target: nat, index: nat, bytes: seq<Octet>)
    | SetSequence(target: nat, index: nat, bytes: seq<Octet>, underestimatedCount: nat)
    | Fill(target: nat, index: nat, byte: Octet, count: nat)
    | Write(target: nat, bytes: seq<Octet>)
    | Read(target: nat, length: int)
    | CopyWithin(target: nat, from: int, to: nat, length: int)
    | Discard(target: nat)
    | Clear(target: nat)
    | ClearMinimum(target: nat, capacity: nat)
    | Reserve(target: nat, capacity: nat)
    | Move(target: nat, reader: nat, writer: nat)

  /** A variable as a value: its memory, also past the writer index, as far as it is known, and its indices. */
  datatype Held = Held(cells: seq<Option<Octet>>, reader: nat, writer: nat)

  predicate Ordered(x: Held) { x.reader <= x.writer <= |x.cells| }

  function AllKnown(bytes: seq<Octet>): (r: seq<Option<Octet>>)
    ensures |r| == |bytes| && forall i | 0 <= i < |bytes| :: r[i] == Some(bytes[i])
  {
    seq(|bytes|, i requires 0 <= i < |bytes| => Some(bytes[i]))
  }

  /** `cells` with `patch` at `index`; nothing is known of a gap before it. */
  function Put(cells: seq<Option<Octet>>, index: nat, patch: seq<Option<Octet>>): (r: seq<Option<Octet>>)
    ensures |r| == Max(|cells|, index + |patch|)
  {
    seq(Max(|cells|, index + |patch|), i requires 0 <= i =>
      if index <= i < index + |patch| then patch[i - index] else if i < |cells| then cells[i] else None)
  }

  /** The statements that change one variable, on values: storing and reserving keep all other memory, copying
      within keeps it up to the end of what it reads and writes, clearing forgets it, and so does discarding
      when it has bytes to move. */
  function Changed(x: Held, c: Command): Held
    requires Ordered(x)
    requires !c.Make? && !c.Assign? && !c.Slice? && !c.Append?
    requires c.Move? ==> c.reader <= c.writer
  {
    match c
    case Set(_, index, bytes) => x.(cells := Put(x.cells, index, AllKnown(bytes)))
    case SetSequence(_, index, bytes, _) => x.(cells := Put(x.cells, index, AllKnown(bytes)))
    case Fill(_, index, byte, count) => x.(cells := Put(x.cells, index, seq(count, _ => Some(byte))))
    case Write(_, bytes) => x.(cells := Put(x.cells, x.writer, AllKnown(bytes)), writer := x.writer + |bytes|)
    case Read(_, length) => if 0 <= length <= x.writer - x.reader then x.(reader := x.reader + length) else x
    case CopyWithin(_, from, to, length) =>
      if 0 < length && x.reader <= from && from + length <= x.writer then
        x.(cells := Put(x.cells[..Min(|x.cells|, Max(x.writer, to + length))], to, x.cells[from..from + length]))
      else
        x
    case Discard(_) =>
      if x.reader == 0 || x.reader == x.writer then x.(reader := 0, writer := x.writer - x.reader)
      else Held(x.cells[x.reader..x.writer], 0, x.writer - x.reader)
    case Clear(_) => Held([], 0, 0)
    case ClearMinimum(_, _) => Held([], 0, 0)
    case Reserve(_, _) => x
    case Move(_, reader, writer) => Held(Put(x.cells, writer, []), reader, writer)
  }

  lemma ChangedOrdered(x: Held, c: Command)
    requires Ordered(x)
    requires !c.Make? && !c.Assign? && !c.Slice? && !c.Append?
    requires c.Move? ==> c.reader <= c.writer
    ensures Ordered(Changed(x, c))
  {
  }

  predicate AllOrdered(state: seq<Held>) { forall i | 0 <= i < |state| :: Ordered(state[i]) }

  /** What the language and the preconditions of the operations ask of a statement. */
  predicate Allowed(state: seq<Held>, c: Command) {
    && AllOrdered(state)
    && (!c.Make? ==> c.target < |state|)
    && (c.Append? ==> c.source < |state| && c.source != c.target)
    && (c.SetSequence? ==> c.underestimatedCount <= |c.bytes|)
    && (c.Move? ==> c.reader <= c.writer)
  }

  /** The whole of a statement, on values. */
  function After(state: seq<Held>, c: Command): seq<Held>
    requires Allowed(state, c)
  {
    match c
    case Make(_) => state + [Held([], 0, 0)]
    case Assign(target) => state + [state[target]]
    case Slice(target, from, length) =>
      var x := state[target];
      if x.reader <= from && 0 <= length && from + length <= x.writer then
        state + [Held(x.cells[from..from + length], 0, length)]
      else
        state
    case Append(target, source) =>
      var x, y := state[target], state[source];
      var readable := y.cells[y.reader..y.writer];
      state[target := x.(cells := Put(x.cells, x.writer, readable), writer := x.writer + |readable|)]
           [source := y.(reader := y.writer)]
    case _ => state[c.target := Changed(state[c.target], c)]
  }

  /** Storing bytes at the writer index and then moving it over them is writing them. */
  lemma SetThenMove(state: seq<Held>, t: nat, bytes: seq<Octet>)
    requires AllOrdered(state) && t < |state|
    ensures var x := state[t];
            var set_, move := Set(t, x.writer, bytes), Move(t, x.reader, x.writer + |bytes|);
            && Allowed(state, set_) && Allowed(After(state, set_), move)
            && After(After(state, set_), move) == After(state, Write(t, bytes))
  {
    var x := state[t];
    var cells := Put(x.cells, x.writer, AllKnown(bytes));
    assert Put(cells, x.writer + |bytes|, []) == cells;
    ChangedOrdered(x, Set(t, x.writer, bytes));
  }

  // ----- a buffer and its value

  /** `slice` holds every cell that is known. */
  predicate Shows(slice: seq<Octet>, cells: seq<Option<Octet>>) {
    |cells| <= |slice| && forall i | 0 <= i < |cells| :: cells[i].Some? ==> slice[i] == cells[i].value
  }

  predicate Represents(v: View, x: Held) {
    Ordered(x) && v.reader == x.reader && v.writer == x.writer && Shows(v.slice, x.cells)
  }

  /** A value whose cells before the writer index are known leaves no choice for the content. */
  lemma ContentDetermined(v: View, w: View, x: Held)
    requires Represents(v, x) && Represents(w, x) && forall i | 0 <= i < x.writer :: x.cells[i].Some?
    ensures v.writer <= |v.slice| && w.writer <= |w.slice| && ContentOf(v) == ContentOf(w)
  {
    forall i | 0 <= i < x.writer
      ensures v.slice[i] == w.slice[i]
    {
      assert x.cells[i].Some?;
    }
    assert v.slice[..x.writer] == w.slice[..x.writer];
  }

  lemma ShowsAllKnown(bytes: seq<Octet>)
    ensures Shows(bytes, AllKnown(bytes))
  {
  }

  lemma ShowsRange(slice: seq<Octet>, cells: seq<Option<Octet>>, from: nat, to: nat)
    requires Shows(slice, cells) && from <= to <= |cells|
    ensures Shows(slice[from..to], cells[from..to])
  {
  }

  /** A write, and everything it keeps. */
  lemma WroteShows(s: View, t: View, index: nat, bytes: seq<Octet>, limit: nat, cells: seq<Option<Octet>>,
                   patch: seq<Option<Octet>>)
    requires Shows(s.slice, cells) && Wrote(s, t, index, bytes, limit) && Shows(bytes, patch) && |patch| == |bytes|
    ensures Shows(t.slice, Put(cells[..Min(|cells|, limit)], index, patch))
  {
    var kept := cells[..Min(|cells|, limit)];
    var r := Put(kept, index, patch);
    forall i | 0 <= i < |r| && r[i].Some?
      ensures t.slice[i] == r[i].value
    {
      if index <= i < index + |bytes| {
        assert t.slice[index..index + |bytes|][i - index] == bytes[i - index];
      } else {
        assert kept[i] == cells[i];
      }
    }
  }

  /** The same when nothing is cut off. */
  lemma WroteKeepsAll(s: View, t: View, index: nat, bytes: seq<Octet>, cells: seq<Option<Octet>>, patch: seq<Option<Octet>>)
    requires Shows(s.slice, cells) && Wrote(s, t, index, bytes, MAX_INDEX) && Shows(bytes, patch) && |patch| == |bytes|
    requires |s.slice| <= MAX_INDEX
    ensures Shows(t.slice, Put(cells, index, patch))
  {
    hide Wrote;
    WroteShows(s, t, index, bytes, MAX_INDEX, cells, patch);
    assert cells[..Min(|cells|, MAX_INDEX)] == cells;
  }

  lemma PutNothing(cells: seq<Option<Octet>>)
    ensures Put(cells, 0, []) == cells
  {
  }

  /** The sizes for which no 32-bit addition traps, and a slice begins where it should. */
  predicate Fits(b: ByteBuffer, c: Command)
    reads b
  {
    match c
    case Make(capacity) => capacity <= MAX_INDEX
    case Assign(_) => true
    case Slice(_, from, length) =>
      b.readerIndex <= from && 0 <= length && from + length <= b.writerIndex && b.lower + from > MAX_LOWER_BOUND ==>
        b.lower == 0 && from + b.upper <= MAX_INDEX
    case Append(_, _) => true
    case Set(_, index, bytes) => b.lower + index + |bytes| <= MAX_INDEX
    case SetSequence(_, index, bytes, _) => b.lower + index + |bytes| <= MAX_INDEX
    case Fill(_, index, _, count) => b.lower + index + count <= MAX_INDEX
    case Write(_, bytes) => b.lower + b.writerIndex + |bytes| <= MAX_INDEX
    case Read(_, _) => true
    case CopyWithin(_, _, to, length) => b.lower + to + length <= MAX_INDEX
    case Discard(_) => true
    case Clear(_) => true
    case ClearMinimum(_, capacity) => capacity <= MAX_INDEX
    case Reserve(_, capacity) => b.lower + capacity <= MAX_INDEX
    case Move(_, _, _) => true
  }

  predicate Room(b: ByteBuffer, source: ByteBuffer)
    reads b, source
  {
    b.lower + b.writerIndex + (source.writerIndex - source.readerIndex) <= MAX_INDEX
  }

  /** The statements that store bytes. */
  method Store(b: ByteBuffer, c: Command, ghost world: set<ByteBuffer>, ghost x: Held)
    requires World(world) && b in world && b.Valid() && Fits(b, c) && Represents(b.Value(), x)
    requires c.Set? || (c.SetSequence? && c.underestimatedCount <= |c.bytes|) || c.Fill? || c.Write?
    modifies b, b.storage
    ensures World(world) && Others(world, b) == old(Others(world, b))
    ensures b.Valid() && (fresh(b.storage) || b.storage == old(b.storage))
    ensures Represents(b.Value(), Changed(x, c))
  {
    hide World, Others, Wrote, Put, AllKnown, Shows;
    ghost var s := b.Value();
    match c
    case Set(_, index, bytes) =>
      var _ := b.SetBytes(bytes, index, world);
      ShowsAllKnown(bytes);
      WroteKeepsAll(s, b.Value(), index, bytes, x.cells, AllKnown(bytes));
      WroteIndices(s, b.Value(), index, bytes);
    case SetSequence(_, index, bytes, underestimatedCount) =>
      var _ := b.SetSlowPath(bytes, underestimatedCount, index, world);
      ShowsAllKnown(bytes);
      WroteKeepsAll(s, b.Value(), index, bytes, x.cells, AllKnown(bytes));
      WroteIndices(s, b.Value(), index, bytes);
    case Fill(_, index, byte, count) =>
      b.SetRepeatingByte(byte, count, index, world);
      ShowsRepeated(byte, count);
      WroteKeepsAll(s, b.Value(), index, seq(count, _ => byte), x.cells, seq(count, _ => Some(byte)));
      WroteIndices(s, b.Value(), index, seq(count, _ => byte));
    case Write(_, bytes) =>
      var _ := WriteBytes(b, bytes, world);
      ShowsAllKnown(bytes);
      WroteKeepsAll(s, b.Value().(writer := s.writer), s.writer, bytes, x.cells, AllKnown(bytes));
  }

  lemma WroteIndices(s: View, t: View, index: nat, bytes: seq<Octet>)
    requires Wrote(s, t, index, bytes, MAX_INDEX)
    ensures t.reader == s.reader && t.writer == s.writer
  {
  }

  lemma ShowsRepeated(byte: Octet, count: nat)
    ensures Shows(seq(count, _ => byte), seq(count, _ => Some(byte)))
  {
  }

  /** `copyBytes`. */
  method CopyAround(b: ByteBuffer, c: Command, ghost world: set<ByteBuffer>, ghost x: Held)
    requires World(world) && b in world && b.Valid() && Fits(b, c) && c.CopyWithin? && Represents(b.Value(), x)
    modifies b, b.storage
    ensures World(world) && Others(world, b) == old(Others(world, b))
    ensures b.Valid() && (fresh(b.storage) || b.storage == old(b.storage))
    ensures Represents(b.Value(), Changed(x, c))
  {
    hide World, Others, Put, Shows;
    ghost var s := b.Value();
    var result := b.CopyBytes(c.from, c.to, c.length, world);
    if result.Copied? && c.length > 0 {
      var from, to := c.from, c.from + c.length;
      ShowsRange(s.slice, x.cells, from, to);
      WroteShows(s, b.Value(), c.to, s.slice[from..to], Max(s.writer, c.to + c.length), x.cells, x.cells[from..to]);
    }
  }

  /** The statements that move indices or memory. */
  method Arrange(b: ByteBuffer, c: Command, ghost world: set<ByteBuffer>, ghost x: Held)
    requires World(world) && b in world && b.Valid() && Fits(b, c) && Represents(b.Value(), x)
    requires c.Read? || c.Discard? || c.Clear? || c.ClearMinimum? || c.Reserve? ||
             (c.Move? && c.reader <= c.writer <= b.upper - b.lower)
    modifies b, b.storage
    ensures World(world) && Others(world, b) == old(Others(world, b))
    ensures b.Valid() && (fresh(b.storage) || b.storage == old(b.storage))
    ensures Represents(b.Value(), Changed(x, c))
  {
    hide World, Others, Wrote, Put;
    ghost var s := b.Value();
    match c
    case Read(_, length) =>
      var _ := ReadBytes(b, length, world);
    case Discard(_) =>
      var _ := b.DiscardReadBytes(world);
      if s.reader != 0 && s.reader != s.writer {
        ShowsRange(s.slice, x.cells, s.reader, s.writer);
        ShowsLonger(b.Value().slice, x.cells[s.reader..s.writer]);
      }
    case Clear(_) =>
      b.Clear(world);
    case ClearMinimum(_, capacity) =>
      b.ClearMinimum(capacity, world);
    case Reserve(_, capacity) =>
      b.ReserveCapacity(capacity, world);
      WroteKeepsAll(s, b.Value(), 0, [], x.cells, []);
      WroteIndices(s, b.Value(), 0, []);
      PutNothing(x.cells);
    case Move(_, reader, writer) =>
      b.MoveIndices(reader, writer, world);
      ShowsPadded(s.slice, x.cells, writer);
  }

  lemma ShowsLonger(slice: seq<Octet>, cells: seq<Option<Octet>>)
    requires |cells| <= |slice| && Shows(slice[..|cells|], cells)
    ensures Shows(slice, cells)
  {
    forall i | 0 <= i < |cells|
      ensures slice[i] == slice[..|cells|][i]
    {
    }
  }

  lemma ShowsPadded(slice: seq<Octet>, cells: seq<Option<Octet>>, n: nat)
    requires Shows(slice, cells) && n <= |slice|
    ensures Shows(slice, Put(cells, n, [])) && n <= |Put(cells, n, [])|
  {
  }

  /** `getSlice` as a statement: a new variable, if the bytes are readable. */
  method TakeSlice(b: ByteBuffer, c: Command, ghost world: set<ByteBuffer>, ghost x: Held) returns (r: Option<ByteBuffer>)
    requires World(world) && b in world && b.Valid() && Fits(b, c) && c.Slice? && Represents(b.Value(), x)
    modifies b.storage`references, b.storage`owners
    ensures r.Some? <==> x.reader <= c.from && 0 <= c.length && c.from + c.length <= x.writer
    ensures r.None? ==> World(world) && ByteBuffers.Values(world) == old(ByteBuffers.Values(world))
    ensures r.Some? ==>
              && fresh(r.value) && World(world + {r.value})
              && Others(world + {r.value}, r.value) == old(ByteBuffers.Values(world))
              && r.value.Valid() && (fresh(r.value.storage) || r.value.storage == b.storage)
              && Represents(r.value.Value(), Held(x.cells[c.from..c.from + c.length], 0, c.length))
  {
    hide World, Others, ByteBuffers.Values, Shows;
    ghost var s, bytes, lower, upper := b.Value(), b.storage.bytes, b.lower, b.upper;
    var result := b.GetSlice(c.from, c.length, world);
    match result
    case Unreadable => return None;
    case Trap => assert false;
    case Slice(buffer) =>
      ghost var from, to := c.from as nat, c.from + c.length;
      RightSlice(lower, upper, from, c.length);
      assert buffer.Value().slice[..c.length] == bytes[lower + from..lower + to];
      SliceOfSlice(bytes, lower, upper, from, to);
      ShowsRange(s.slice, x.cells, from, to);
      ShowsLonger(buffer.Value().slice, x.cells[from..to]);
      return Some(buffer);
  }

  ghost function Variables(buffers: seq<ByteBuffer>): set<ByteBuffer> {
    set b | b in buffers
  }

  /** The buffers are different variables in a sound heap, and each has the value that the state says. */
  ghost predicate Linked(buffers: seq<ByteBuffer>, state: seq<Held>)
    reads Variables(buffers), set b | b in Variables(buffers) :: b.storage
  {
    && World(Variables(buffers)) && |state| == |buffers|
    && (forall i, j | 0 <= i < j < |buffers| :: buffers[i] != buffers[j])
    && (forall i | 0 <= i < |buffers| :: buffers[i].Valid() && Represents(buffers[i].Value(), state[i]))
  }

  /** The same for values that are not read off the heap. */
  ghost predicate Values(buffers: seq<ByteBuffer>, state: seq<Held>, views: map<ByteBuffer, View>, t: nat, u: nat) {
    forall i | 0 <= i < |buffers| && i < |state| && i != t && i != u ::
      buffers[i] in views && Represents(views[buffers[i]], state[i])
  }

  /** What the values of the other variables are, for use after a change. */
  lemma Recall(buffers: seq<ByteBuffer>, state: seq<Held>, t: nat)
    requires Linked(buffers, state) && t < |buffers|
    ensures buffers[t] in Variables(buffers) && World(Variables(buffers))
    ensures buffers[t].Valid() && Represents(buffers[t].Value(), state[t])
    ensures Values(buffers, state, Others(Variables(buffers), buffers[t]), t, t)
  {
    var others := Others(Variables(buffers), buffers[t]);
    forall i | 0 <= i < |buffers| && i != t
      ensures buffers[i] in others && others[buffers[i]] == buffers[i].Value()
    {
      assert buffers[i] in Variables(buffers);
    }
  }

  lemma Unchanged(buffers: seq<ByteBuffer>, state: seq<Held>, t: nat, x: Held)
    requires World(Variables(buffers)) && |state| == |buffers| && t < |buffers|
    requires forall i, j | 0 <= i < j < |buffers| :: buffers[i] != buffers[j]
    requires Values(buffers, state, Others(Variables(buffers), buffers[t]), t, t)
    requires buffers[t].Valid() && Represents(buffers[t].Value(), x)
    ensures Linked(buffers, state[t := x])
  {
    var others := Others(Variables(buffers), buffers[t]);
    forall i | 0 <= i < |buffers| && i != t
      ensures buffers[i].Valid() && Represents(buffers[i].Value(), state[i])
    {
      assert buffers[i] in others && others[buffers[i]] == buffers[i].Value();
    }
  }

  lemma Different(buffers: seq<ByteBuffer>, state: seq<Held>)
    requires Linked(buffers, state)
    ensures |state| == |buffers| && forall i, j | 0 <= i < j < |buffers| :: buffers[i] != buffers[j]
  {
  }

  /** A statement that changes one variable. */
  method Change(buffers: seq<ByteBuffer>, c: Command, ghost state: seq<Held>)
    requires Linked(buffers, state) && Allowed(state, c)
    requires !c.Make? && !c.Assign? && !c.Slice? && !c.Append? && Fits(buffers[c.target], c)
    requires c.Move? ==> c.writer <= buffers[c.target].upper - buffers[c.target].lower
    modifies buffers[c.target], buffers[c.target].storage
    ensures Linked(buffers, state[c.target := Changed(state[c.target], c)])
    ensures buffers[c.target].storage == old(buffers[c.target].storage) || fresh(buffers[c.target].storage)
  {
    hide World, Others, Changed, Linked, Values, Represents;
    Different(buffers, state);
    var b := buffers[c.target];
    ghost var world, x := Variables(buffers), state[c.target];
    Recall(buffers, state, c.target);
    if c.Set? || c.SetSequence? || c.Fill? || c.Write? {
      Store(b, c, world, x);
    } else if c.CopyWithin? {
      CopyAround(b, c, world, x);
    } else {
      Arrange(b, c, world, x);
    }
    Unchanged(buffers, state, c.target, Changed(x, c));
  }

  lemma UnchangedBut(buffers: seq<ByteBuffer>, state: seq<Held>, others: map<ByteBuffer, View>, t: nat, u: nat,
                     x: Held, y: Held)
    requires World(Variables(buffers)) && |state| == |buffers| && t < |buffers| && u < |buffers| && t != u
    requires forall i, j | 0 <= i < j < |buffers| :: buffers[i] != buffers[j]
    requires Values(buffers, state, others, t, t)
    requires Others(Variables(buffers), buffers[t]) - {buffers[u]} == others - {buffers[u]}
    requires buffers[t].Valid() && buffers[u].Valid()
    requires Represents(buffers[t].Value(), x) && Represents(buffers[u].Value(), y)
    ensures Linked(buffers, state[t := x][u := y])
  {
    var now := Others(Variables(buffers), buffers[t]);
    forall i | 0 <= i < |buffers| && i != t && i != u
      ensures buffers[i].Valid() && Represents(buffers[i].Value(), state[i])
    {
      assert buffers[i] in others - {buffers[u]};
      assert buffers[i] in now - {buffers[u]} && now[buffers[i]] == buffers[i].Value();
      assert (now - {buffers[u]})[buffers[i]] == (others - {buffers[u]})[buffers[i]];
    }
  }

  /** The readable bytes of one value behind another. */
  lemma Appended(s: View, t: View, source: View, x: Held, y: Held)
    requires Represents(s, x) && Represents(source, y) && |s.slice| <= MAX_INDEX
    requires var bytes := source.slice[source.reader..source.writer];
             Wrote(s, t.(writer := s.writer), s.writer, bytes, MAX_INDEX) && t.writer == s.writer + |bytes|
    ensures var readable := y.cells[y.reader..y.writer];
            Represents(t, x.(cells := Put(x.cells, x.writer, readable), writer := x.writer + |readable|))
  {
    hide Shows, Put;
    ShowsLength(source.slice, y.cells);
    var bytes, readable := source.slice[source.reader..source.writer], y.cells[y.reader..y.writer];
    ShowsRange(source.slice, y.cells, y.reader, y.writer);
    WroteKeepsAll(s, t.(writer := s.writer), s.writer, bytes, x.cells, readable);
  }

  lemma ShowsLength(slice: seq<Octet>, cells: seq<Option<Octet>>)
    requires Shows(slice, cells)
    ensures |cells| <= |slice|
  {
  }

  /** `writeBuffer` as a statement: it changes two variables. */
  method Transfer(buffers: seq<ByteBuffer>, c: Command, ghost state: seq<Held>)
    requires Linked(buffers, state) && Allowed(state, c) && c.Append?
    requires Room(buffers[c.target], buffers[c.source])
    modifies buffers[c.target], buffers[c.target].storage, buffers[c.source]
    ensures buffers[c.source].storage == old(buffers[c.source].storage)
    ensures Linked(buffers, After(state, c))
    ensures buffers[c.target].storage == old(buffers[c.target].storage) || fresh(buffers[c.target].storage)
  {
    hide World, Others, Linked, Values;
    Different(buffers, state);
    ghost var world := Variables(buffers);
    Recall(buffers, state, c.source);
    Recall(buffers, state, c.target);
    ghost var others := Others(world, buffers[c.target]);
    ghost var s, source := buffers[c.target].Value(), buffers[c.source].Value();
    ghost var x, y := state[c.target], state[c.source];
    var _ := WriteBuffer(buffers[c.target], buffers[c.source], world);
    Appended(s, buffers[c.target].Value(), source, x, y);
    ghost var readable := y.cells[y.reader..y.writer];
    UnchangedBut(buffers, state, others, c.target, c.source,
                 x.(cells := Put(x.cells, x.writer, readable), writer := x.writer + |readable|), y.(reader := y.writer));
  }

  lemma RecallAll(buffers: seq<ByteBuffer>, state: seq<Held>)
    requires Linked(buffers, state)
    ensures World(Variables(buffers))
    ensures Values(buffers, state, ByteBuffers.Values(Variables(buffers)), |buffers|, |buffers|)
    ensures forall i | 0 <= i < |buffers| :: buffers[i] in Variables(buffers)
    ensures forall i | 0 <= i < |buffers| :: buffers[i].Valid() && Represents(buffers[i].Value(), state[i])
  {
    var values := ByteBuffers.Values(Variables(buffers));
    forall i | 0 <= i < |buffers|
      ensures buffers[i] in values && values[buffers[i]] == buffers[i].Value()
    {
      assert buffers[i] in Variables(buffers);
    }
  }

  lemma Extended(buffers: seq<ByteBuffer>, state: seq<Held>, r: ByteBuffer, world: set<ByteBuffer>,
                 values: map<ByteBuffer, View>, x: Held)
    requires |state| == |buffers| && forall i, j | 0 <= i < j < |buffers| :: buffers[i] != buffers[j]
    requires world == Variables(buffers) && r !in buffers && World(world + {r}) && r.Valid() && Represents(r.Value(), x)
    requires Values(buffers, state, values, |buffers|, |buffers|) && Others(world + {r}, r) == values
    ensures Linked(buffers + [r], state + [x])
  {
    assert Variables(buffers + [r]) == world + {r};
    forall i | 0 <= i < |buffers|
      ensures buffers[i].Valid() && Represents(buffers[i].Value(), state[i])
    {
      assert buffers[i] in values && values[buffers[i]] == buffers[i].Value();
    }
  }

  lemma Same(buffers: seq<ByteBuffer>, state: seq<Held>, values: map<ByteBuffer, View>)
    requires |state| == |buffers| && forall i, j | 0 <= i < j < |buffers| :: buffers[i] != buffers[j]
    requires World(Variables(buffers)) && ByteBuffers.Values(Variables(buffers)) == values
    requires Values(buffers, state, values, |buffers|, |buffers|)
    ensures Linked(buffers, state)
  {
    forall i | 0 <= i < |buffers|
      ensures buffers[i].Valid() && Represents(buffers[i].Value(), state[i])
    {
      assert buffers[i] in values && values[buffers[i]] == buffers[i].Value();
    }
  }

  /** A statement that defines a variable; a slice of bytes that are not readable defines none. */
  method Define(buffers: seq<ByteBuffer>, c: Command, ghost state: seq<Held>) returns (r: Option<ByteBuffer>)
    requires Linked(buffers, state) && Allowed(state, c)
    requires (c.Make? && c.capacity <= MAX_INDEX) || c.Assign? || (c.Slice? && Fits(buffers[c.target], c))
    modifies if c.Make? then {} else {buffers[c.target].storage}
    ensures Linked(if r.Some? then buffers + [r.value] else buffers, After(state, c))
    ensures r.Some? ==> fresh(r.value)
    ensures r.Some? ==> fresh(r.value.storage) || (!c.Make? && r.value.storage == buffers[c.target].storage)
  {
    hide World, Others, Linked, Values, ByteBuffers.Values;
    Different(buffers, state);
    RecallAll(buffers, state);
    ghost var world := Variables(buffers);
    ghost var values := ByteBuffers.Values(world);
    match c
    case Make(capacity) =>
      var b := ByteBuffer.Allocate(capacity, world);
      Extended(buffers, state, b, world, values, Held([], 0, 0));
      r := Some(b);
    case Assign(target) =>
      var b := buffers[target].Copy(world);
      Extended(buffers, state, b, world, values, state[target]);
      r := Some(b);
    case Slice(target, from, length) =>
      r := TakeSlice(buffers[target], c, world, state[target]);
      if r.Some? {
        Extended(buffers, state, r.value, world, values, Held(state[target].cells[from..from + length], 0, length));
      } else {
        Same(buffers, state, values);
      }
  }

  function AfterAll(state: seq<Held>, commands: seq<Command>): Option<seq<Held>>
    decreases |commands|
  {
    if commands == [] then Some(state)
    else if Allowed(state, commands[0]) then AfterAll(After(state, commands[0]), commands[1..])
    else None
  }

  lemma {:induction false} AfterSnoc(state: seq<Held>, commands: seq<Command>, c: Command)
    requires AfterAll(state, commands).Some? && Allowed(AfterAll(state, commands).value, c)
    ensures AfterAll(state, commands + [c]) == Some(After(AfterAll(state, commands).value, c))
    decreases |commands|
  {
    if commands == [] {
      assert commands + [c] == [c];
      assert AfterAll(state, [c]) == AfterAll(After(state, c), [c][1..]);
    } else {
      assert (commands + [c])[1..] == commands[1..] + [c];
      AfterSnoc(After(state, commands[0]), commands[1..], c);
    }
  }

  /** A running program: its variables, and in `state` what they are as values. */
  class Program {
    var buffers: seq<ByteBuffer>
    ghost var state: seq<Held>
    ghost var Repr: set<object>

    ghost predicate Ready()
      reads this, Variables(buffers), set b | b in Variables(buffers) :: b.storage
    {
      && Linked(buffers, state)
      && this !in Repr
      && forall i | 0 <= i < |buffers| :: buffers[i] in Repr && buffers[i].storage in Repr
    }

    constructor ()
      ensures Ready() && buffers == [] && state == [] && Repr == {}
    {
      buffers, state, Repr := [], [], {};
    }

    /** Whether a statement meets the preconditions of its operation, and is small enough. */
    predicate Runs(c: Command)
      reads this, buffers
    {
      if c.Make? then c.capacity <= MAX_INDEX
      else
        && c.target < |buffers| && Fits(buffers[c.target], c)
        && (c.Append? ==> c.source < |buffers| && c.source != c.target && Room(buffers[c.target], buffers[c.source]))
        && (c.SetSequence? ==> c.underestimatedCount <= |c.bytes|)
        && (c.Move? ==> c.reader <= c.writer <= buffers[c.target].upper - buffers[c.target].lower)
    }

    lemma RunsAllowed(c: Command)
      requires Linked(buffers, state) && Runs(c)
      ensures Allowed(state, c)
    {
    }

    /** One statement. */
    method Step(c: Command)
      requires Ready() && Runs(c)
      modifies this, Repr
      ensures Allowed(old(state), c)
      ensures Ready() && state == After(old(state), c)
      ensures fresh(Repr - old(Repr))
    {
      hide Linked, World, Changed;
      RunsAllowed(c);
      Different(buffers, state);
      if c.Make? || c.Assign? || c.Slice? {
        var r := Define(buffers, c, state);
        if r.Some? {
          Record(buffers + [r.value], After(state, c), {r.value, r.value.storage});
        } else {
          Record(buffers, After(state, c), {});
        }
      } else if c.Append? {
        Transfer(buffers, c, state);
        Record(buffers, After(state, c), {buffers[c.target].storage});
      } else {
        Change(buffers, c, state);
        Record(buffers, After(state, c), {buffers[c.target].storage});
      }
    }

    /** Run statements up to the first that does not run. */
    method Run(commands: seq<Command>) returns (n: nat)
      requires Ready()
      modifies this, Repr
      ensures n <= |commands| && (n < |commands| ==> !Runs(commands[n]))
      ensures Ready() && AfterAll(old(state), commands[..n]) == Some(state)
      ensures fresh(Repr - old(Repr))
    {
      hide Linked, World, Changed;
      n := 0;
      while n < |commands| && Runs(commands[n])
        invariant n <= |commands| && Ready() && fresh(Repr - old(Repr))
        invariant AfterAll(old(state), commands[..n]) == Some(state)
      {
        Step(commands[n]);
        AfterSnoc(old(state), commands[..n], commands[n]);
        assert commands[..n + 1] == commands[..n] + [commands[n]];
        n := n + 1;
      }
    }

    method Record(buffers: seq<ByteBuffer>, ghost state: seq<Held>, ghost more: set<object>)
      requires Linked(buffers, state) && this !in Repr + more
      requires forall i | 0 <= i < |buffers| :: buffers[i] in Repr + more && buffers[i].storage in Repr + more
      modifies this
      ensures Ready() && this.buffers == buffers && this.state == state && Repr == old(Repr) + more
    {
      this.buffers, this.state, Repr := buffers, state, Repr + more;
    }
  }
}
