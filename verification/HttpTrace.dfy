/** Traces of callback events, compared after adjacent data events of one kind are joined:
    data callbacks may be cut anywhere, and only their concatenation has a meaning. */
module HttpTrace {
  import opened HttpTypes

  function Push(acc: seq<Event>, e: Event): seq<Event> {
    var n := |acc|;
    if n > 0 && acc[n - 1].Data? && e.Data? && acc[n - 1].kind == e.kind then
      acc[..n - 1] + [Data(e.kind, acc[n - 1].bytes + e.bytes)]
    else acc + [e]
  }

  /** The trace with adjacent data events of one kind joined. */
  function Join(events: seq<Event>): seq<Event> {
    if events == [] then [] else Push(Join(events[..|events| - 1]), events[|events| - 1])
  }

  /** One data event per byte. */
  function Singles(kind: DataKind, bytes: Bytes): seq<Event> {
    var n := |bytes|;
    if n == 0 then [] else Singles(kind, bytes[..n - 1]) + [Data(kind, [bytes[n - 1]])]
  }

  lemma JoinSnoc(events: seq<Event>, e: Event)
    ensures Join(events + [e]) == Push(Join(events), e)
  {
    assert (events + [e])[..|events|] == events;
  }

  lemma PushPush(acc: seq<Event>, kind: DataKind, x: Bytes, y: Bytes)
    ensures Push(Push(acc, Data(kind, x)), Data(kind, y)) == Push(acc, Data(kind, x + y))
  {
    var n := |acc|;
    if n > 0 && acc[n - 1].Data? && acc[n - 1].kind == kind {
      assert acc[n - 1].bytes + x + y == acc[n - 1].bytes + (x + y);
    }
  }

  /** Splitting a data event in two changes nothing once joined. */
  lemma JoinSplit(events: seq<Event>, kind: DataKind, x: Bytes, y: Bytes)
    ensures Join(events + [Data(kind, x + y)]) == Join(events + [Data(kind, x)] + [Data(kind, y)])
  {
    JoinSnoc(events + [Data(kind, x)], Data(kind, y));
    JoinSnoc(events, Data(kind, x));
    JoinSnoc(events, Data(kind, x + y));
    PushPush(Join(events), kind, x, y);
  }

  lemma {:induction false} JoinSameTail(a: seq<Event>, b: seq<Event>, tail: seq<Event>)
    requires Join(a) == Join(b)
    ensures Join(a + tail) == Join(b + tail)
    decreases |tail|
  {
    if tail == [] {
      assert a + tail == a && b + tail == b;
    } else {
      var init, e := tail[..|tail| - 1], tail[|tail| - 1];
      JoinSameTail(a, b, init);
      assert a + tail == a + init + [e] && b + tail == b + init + [e];
      JoinSnoc(a + init, e);
      JoinSnoc(b + init, e);
    }
  }

  lemma Regroup(a: seq<Event>, b: seq<Event>, e: Event)
    ensures a + (b + [e]) == a + b + [e]
  {
  }

  lemma JoinInnerStep(a: seq<Event>, j: seq<Event>, e: Event)
    ensures Join(a + j + [e]) == Join(a + Push(j, e))
  {
    var n := |j|;
    if n > 0 && j[n - 1].Data? && e.Data? && j[n - 1].kind == e.kind {
      var front, last := j[..n - 1], j[n - 1];
      var joined := Data(e.kind, last.bytes + e.bytes);
      assert j == front + [last];
      Regroup(a, front, last);
      JoinSplit(a + front, e.kind, last.bytes, e.bytes);
      Regroup(a, front, joined);
      assert Push(j, e) == front + [joined];
    } else {
      Regroup(a, j, e);
    }
  }

  lemma {:induction false} JoinInner(a: seq<Event>, b: seq<Event>)
    ensures Join(a + b) == Join(a + Join(b))
    decreases |b|
  {
    if b != [] {
      var init, e := b[..|b| - 1], b[|b| - 1];
      assert b == init + [e];
      JoinInner(a, init);
      Regroup(a, init, e);
      JoinSnoc(a + init, e);
      JoinSnoc(a + Join(init), e);
      JoinInnerStep(a, Join(init), e);
    }
  }

  /** Joined equality is a congruence for concatenation. */
  lemma JoinConcat(a: seq<Event>, a': seq<Event>, b: seq<Event>, b': seq<Event>)
    requires Join(a) == Join(a') && Join(b) == Join(b')
    ensures Join(a + b) == Join(a' + b')
  {
    JoinInner(a, b);
    JoinInner(a, b');
    JoinSameTail(a, a', b');
  }

  /** One more byte at the end of a span. */
  lemma JoinByte(a: seq<Event>, b: seq<Event>, kind: DataKind, x: Bytes, c: Byte)
    requires Join(a + [Data(kind, x)]) == Join(b)
    ensures Join(a + [Data(kind, x + [c])]) == Join(b + [Data(kind, [c])])
  {
    JoinSplit(a, kind, x, [c]);
    JoinSameTail(a + [Data(kind, x)], b, [Data(kind, [c])]);
  }

  /** A span read byte by byte joins to the span. */
  lemma {:induction false} JoinSingles(a: seq<Event>, b: seq<Event>, kind: DataKind, x: Bytes, y: Bytes)
    requires Join(a + [Data(kind, x)]) == Join(b)
    ensures Join(a + [Data(kind, x + y)]) == Join(b + Singles(kind, y))
    decreases |y|
  {
    if y == [] {
      assert x + y == x;
      assert b + Singles(kind, y) == b;
    } else {
      var init, c := y[..|y| - 1], y[|y| - 1];
      JoinSingles(a, b, kind, x, init);
      JoinByte(a, b + Singles(kind, init), kind, x + init, c);
      SnocSlice(x, y);
      Regroup(b, Singles(kind, init), Data(kind, [c]));
    }
  }

  lemma SnocSlice(x: Bytes, y: Bytes)
    requires y != []
    ensures x + y[..|y| - 1] + [y[|y| - 1]] == x + y
  {
  }

  /** An empty data event is absorbed by the data event before it. */
  lemma JoinEmpty(a: seq<Event>, kind: DataKind, x: Bytes)
    ensures Join(a + [Data(kind, x)]) == Join(a + [Data(kind, x)] + [Data(kind, [])])
  {
    JoinSplit(a, kind, x, []);
    assert x + [] == x;
  }

  /** ... and by the data event after it. */
  lemma JoinEmptyFirst(a: seq<Event>, kind: DataKind, x: Bytes)
    ensures Join(a + [Data(kind, x)]) == Join(a + [Data(kind, [])] + [Data(kind, x)])
  {
    JoinSplit(a, kind, [], x);
    assert [] + x == x;
  }

  lemma {:induction false} JoinEmptySingles(a: seq<Event>, kind: DataKind, y: Bytes)
    requires y != []
    ensures Join(a + Singles(kind, y)) == Join(a + [Data(kind, [])] + Singles(kind, y))
    decreases |y|
  {
    var init, c := y[..|y| - 1], y[|y| - 1];
    var last := Data(kind, [c]);
    if init == [] {
      JoinEmptyFirst(a, kind, [c]);
      assert Singles(kind, y) == [last];
    } else {
      JoinEmptySingles(a, kind, init);
      JoinSameTail(a + Singles(kind, init), a + [Data(kind, [])] + Singles(kind, init), [last]);
      Regroup(a, Singles(kind, init), last);
      Regroup(a + [Data(kind, [])], Singles(kind, init), last);
    }
  }

  /** A span that is open, then extended by `y`, against the bytes of `y` one by one. */
  lemma JoinSpan(a: seq<Event>, b: seq<Event>, kind: DataKind, x: Bytes, y: Bytes)
    requires Join(a + [Data(kind, x)]) == Join(b + [Data(kind, [])])
    requires y != []
    ensures Join(a + [Data(kind, x + y)]) == Join(b + Singles(kind, y))
  {
    JoinSingles(a, b + [Data(kind, [])], kind, x, y);
    JoinEmptySingles(b, kind, y);
  }
}
