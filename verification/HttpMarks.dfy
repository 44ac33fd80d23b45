/** The data marks of one call: where in the input each open data span began, how an
    effect changes them, and how the spans reported relate to bytes reported one by one. */
module HttpMarks {
  import opened Wrappers
  import opened HttpTypes
  import opened HttpMachine
  import opened HttpInvariant
  import opened HttpTrace
  import opened HttpRun

  /** The five mark pointers; a kind that is absent is a null pointer. */
  type Marks = map<DataKind, nat>

  /** The marks set before the first byte of a call. */
  function InitialMarks(state: State): Marks {
    var open := OpenAt(state);
    if open.Some? then map[open.value := 0] else map[]
  }

  /** The span from the mark of `kind` up to `p`, if the mark is set. */
  function Span(data: Bytes, marks: Marks, kind: DataKind, p: nat): seq<Event> {
    if kind in marks && marks[kind] <= p <= |data| then [Data(kind, data[marks[kind]..p])] else []
  }

  /** The callbacks for the marks left over at the end of a call. */
  function FlushAll(data: Bytes, marks: Marks, p: nat): seq<Event> {
    Span(data, marks, HeaderFieldData, p) + Span(data, marks, HeaderValueData, p) + Span(data, marks, UrlData, p)
    + Span(data, marks, BodyData, p) + Span(data, marks, StatusData, p)
  }

  /** The marks after an effect at the byte data[p], and the callbacks it runs. */
  function Perform(data: Bytes, p: nat, marks: Marks, effect: Effect): (Marks, seq<Event>) {
    match effect
    case Quiet => (marks, [])
    case Mark(k) => (if k in marks then marks else marks[k := p], [])
    case Flush(k) => (marks - {k}, Span(data, marks, k, p))
    case MarkAndFlush(k) =>
      var m := if k in marks then marks else marks[k := p];
      (m - {k}, Span(data, m, k, p))
    case MarkAndFlushThrough(k) =>
      var m := if k in marks then marks else marks[k := p];
      (m - {k}, Span(data, m, k, p + 1))
    case Notify(e) => (marks, [e])
  }

  /** Exactly the span `open` is marked. */
  ghost predicate MarksAre(marks: Marks, open: Option<DataKind>, p: nat) {
    if open.Some? then marks.Keys == {open.value} && marks[open.value] <= p else marks == map[]
  }

  /** The marks at position p, when the parser is in `state`: never more than one. */
  ghost predicate Matches(marks: Marks, state: State, p: nat) {
    MarksAre(marks, OpenAt(state), p) || (BodyMayBeOpen(state) && MarksAre(marks, Some(BodyData), p))
  }

  function Opening(open: Option<DataKind>): seq<Event> {
    if open.Some? then [Data(open.value, [])] else []
  }

  lemma FlushOne(data: Bytes, marks: Marks, open: Option<DataKind>, p: nat)
    requires MarksAre(marks, open, p) && p <= |data|
    ensures FlushAll(data, marks, p) ==
              if open.Some? then [Data(open.value, data[marks[open.value]..p])] else []
  {
    var e := if open.Some? then [Data(open.value, data[marks[open.value]..p])] else [];
    forall k: DataKind
      ensures Span(data, marks, k, p) == if open == Some(k) then e else []
    {
      assert k in marks <==> k in marks.Keys;
    }
    if open.Some? {
      match open.value
      case HeaderFieldData => assert e + [] + [] + [] + [] == e;
      case HeaderValueData => assert [] + e + [] + [] + [] == e;
      case UrlData => assert [] + [] + e + [] + [] == e;
      case BodyData => assert [] + [] + [] + e + [] == e;
      case StatusData => assert [] + [] + [] + [] + e == e;
    }
  }

  /** Looking at a byte with the span `open`: what was reported and what is still open so far
      is what the byte machine reported, and an empty span of the same kind. */
  ghost predicate Glued(data: Bytes, marks: Marks, p: nat, events: seq<Event>, open: Option<DataKind>,
                        simple: seq<Event>)
  {
    Join(events + FlushAll(data, marks, p)) == Join(simple + Opening(open))
  }

  /** At the start of a byte, other than the first of a call, everything is in step. */
  lemma GlueHead(data: Bytes, marks: Marks, p: nat, events: seq<Event>, open: Option<DataKind>, simple: seq<Event>)
    requires p <= |data| && MarksAre(marks, open, p)
    requires Join(events + FlushAll(data, marks, p)) == Join(simple)
    ensures Glued(data, marks, p, events, open, simple)
  {
    hide Join, FlushAll;
    FlushOne(data, marks, open, p);
    if open.Some? {
      var x := data[marks[open.value]..p];
      JoinEmpty(events, open.value, x);
      JoinSameTail(events + [Data(open.value, x)], simple, [Data(open.value, [])]);
    } else {
      assert simple + [] == simple;
    }
  }

  /** Performing an effect keeps the two traces in step. */
  lemma GlueEffect(data: Bytes, p: nat, marks: Marks, open: Option<DataKind>, effect: Effect,
                   events: seq<Event>, simple: seq<Event>)
    requires p < |data| && MarksAre(marks, open, p)
    requires Glued(data, marks, p, events, open, simple)
    requires SpanAfter(open, effect).Some?
    ensures var (marks', more) := Perform(data, p, marks, effect);
            var open' := SpanAfter(open, effect).value;
            && MarksAre(marks', open', p)
            && Glued(data, marks', p, events + more, open', simple + EffectEvents(open, effect, data[p]))
  {
    hide Join, FlushAll;
    var (marks', more) := Perform(data, p, marks, effect);
    var open' := SpanAfter(open, effect).value;
    FlushOne(data, marks, open, p);
    assert MarksAre(marks', open', p);
    FlushOne(data, marks', open', p);
    var simple' := simple + EffectEvents(open, effect, data[p]);
    match effect
    case Quiet =>
      assert events + more == events && simple' == simple;
    case Mark(k) =>
      assert events + more == events && simple' == simple;
      if open == None {
        assert events + [] == events && simple + [] == simple;
        assert data[p..p] == [];
        JoinSameTail(events, simple, [Data(k, [])]);
      }
    case Flush(k) =>
      assert events + more + [] == events + more && simple' + [] == simple';
      if open == None {
        assert events + more == events && simple' == simple;
      }
    case MarkAndFlush(k) =>
      assert events + [] == events && simple + [] == simple;
      assert data[p..p] == [];
      assert events + more + [] == events + [Data(k, [])] && simple' + [] == simple + [Data(k, [])];
      JoinSameTail(events, simple, [Data(k, [])]);
    case MarkAndFlushThrough(k) =>
      assert events + [] == events && simple + [] == simple;
      assert data[p..p + 1] == [data[p]];
      assert events + more + [] == events + [Data(k, [data[p]])];
      assert simple' + [] == simple + [Data(k, [data[p]])];
      JoinSameTail(events, simple, [Data(k, [data[p]])]);
    case Notify(e) =>
      assert events + [] == events && simple + [] == simple;
      assert events + more + [] == events + [e] && simple' + [] == simple + [e];
      JoinSameTail(events, simple, [e]);
  }

  lemma SliceSnoc(data: Bytes, i: nat, j: nat)
    requires i <= j < |data|
    ensures data[i..j] + [data[j]] == data[i..j + 1]
  {
  }

  /** The end of a byte: an open span takes the byte in. */
  lemma GlueTail(data: Bytes, p: nat, marks: Marks, open: Option<DataKind>, events: seq<Event>, simple: seq<Event>)
    requires p < |data| && MarksAre(marks, open, p)
    requires Glued(data, marks, p, events, open, simple)
    ensures MarksAre(marks, open, p + 1)
    ensures Join(events + FlushAll(data, marks, p + 1)) == Join(simple + Closing(open, data[p]))
  {
    hide Join, FlushAll;
    FlushOne(data, marks, open, p);
    FlushOne(data, marks, open, p + 1);
    if open.Some? {
      var k, st := open.value, marks[open.value];
      JoinByte(events, simple + [Data(k, [])], k, data[st..p], data[p]);
      SliceSnoc(data, st, p);
      JoinEmptyFirst(simple, k, [data[p]]);
    }
  }

  /** A body span left open by the previous bytes, which the byte machine has reported. */
  lemma GlueBodyFlush(data: Bytes, p: nat, marks: Marks, events: seq<Event>, simple: seq<Event>)
    requires p < |data| && MarksAre(marks, Some(BodyData), p)
    requires Join(events + FlushAll(data, marks, p)) == Join(simple)
    ensures var (marks', more) := Perform(data, p, marks, Flush(BodyData));
            marks' == map[] && Join(events + more) == Join(simple)
  {
    hide Join, FlushAll;
    FlushOne(data, marks, Some(BodyData), p);
  }

  /** A run of bytes y = data[p..q] that all belong to the span `kind`. */
  lemma GlueSpan(data: Bytes, p: nat, q: nat, marks: Marks, kind: DataKind, events: seq<Event>, simple: seq<Event>)
    requires p < q <= |data| && MarksAre(marks, Some(kind), p)
    requires Glued(data, marks, p, events, Some(kind), simple)
    ensures MarksAre(marks, Some(kind), q)
    ensures Join(events + FlushAll(data, marks, q)) == Join(simple + Singles(kind, data[p..q]))
  {
    hide Join, FlushAll, Singles;
    FlushOne(data, marks, Some(kind), p);
    FlushOne(data, marks, Some(kind), q);
    var st := marks[kind];
    JoinSpan(events, simple, kind, data[st..p], data[p..q]);
    assert data[st..p] + data[p..q] == data[st..q];
  }
}
