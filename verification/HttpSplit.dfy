/** The parser gives the same answer however its input is cut into calls. */
module HttpSplit {
  import opened HttpTypes
  import opened HttpMachine
  import opened HttpInvariant
  import opened HttpTrace
  import opened HttpRun
  import opened HttpExecute

  /** A call that took everything without an error. */
  predicate TookAll(s: Parser, n: nat, input: Bytes) { s.errno == Ok && n == |input| }

  /** One call over a ++ b, and a call over a followed by a call over b, on two parsers in the
      same state: if the one call takes everything, so do the two, they leave the same
      parser, and they make the same callbacks up to where data is cut. */
  method TwoCalls(one: HttpParser, two: HttpParser, cfg: Settings, a: Bytes, b: Bytes)
    returns (whole: nat, first: nat, second: nat, trace: seq<Event>, trace1: seq<Event>, trace2: seq<Event>)
    requires one != two && one.s == two.s && AtRest(cfg, one.s)
    requires a != [] && b != [] && CountsFit(cfg, a + b)
    modifies one, two
    ensures TookAll(one.s, whole, a + b) ==>
              && first == |a| && TookAll(two.s, second, b)
              && two.s == one.s && Join(trace1 + trace2) == Join(trace)
  {
    hide AtRest, Run, Join, Concat;
    ghost var s0 := one.s;
    RestIsOk(cfg, s0);
    RunAppend(cfg, s0, a, b);
    whole, trace := one.Execute(cfg, a + b);
    first, trace1 := two.Execute(cfg, a);
    ghost var r1 := Run(cfg, s0, a);
    if r1.Running? {
      RestIsOk(cfg, r1.parser);
    }
    if two.s.errno == Ok && first == |a| {
      second, trace2 := two.Execute(cfg, b);
      if r1.Running? {
        var r2 := Run(cfg, r1.parser, b);
        if !r2.Failed? {
          RestIsOk(cfg, r2.parser);
          JoinConcat(trace1, r1.events, trace2, r2.events);
        }
      }
    } else {
      second, trace2 := 0, [];
    }
  }

  function Concat(pieces: seq<Bytes>): Bytes {
    var n := |pieces|;
    if n == 0 then [] else Concat(pieces[..n - 1]) + pieces[n - 1]
  }

  /** The run over all of the input takes everything: possibly it leaves for another protocol
      with the very last byte. */
  ghost predicate RunTakesAll(r: Outcome, input: Bytes) {
    r.Running? || (r.Left? && r.consumed == |input|)
  }

  /** One call after the other over any number of pieces, until one of them stops short. */
  method ExecuteAll(parser: HttpParser, cfg: Settings, pieces: seq<Bytes>) returns (n: nat, events: seq<Event>)
    requires AtRest(cfg, parser.s)
    requires forall i :: 0 <= i < |pieces| ==> pieces[i] != [] && CountsFit(cfg, pieces[i])
    modifies parser
    ensures var r := Run(cfg, old(parser.s), Concat(pieces));
            && (RunTakesAll(r, Concat(pieces)) ==>
                  && TookAll(parser.s, n, Concat(pieces)) && parser.s == r.parser
                  && Join(events) == Join(r.events))
            && (r.Failed? ==> parser.s.errno != Ok)
  {
    hide AtRest, Run, Join, Concat;
    ghost var s0 := parser.s;
    ghost var whole := Run(cfg, s0, Concat(pieces));
    ghost var decided := RunTakesAll(whole, Concat(pieces)) || whole.Failed?;
    n, events := 0, [];
    RunNil(cfg, s0);
    RestIsOk(cfg, s0);
    assert Concat(pieces[..0]) == [] && pieces[..|pieces|] == pieces by {
      ConcatNone(pieces[..0]);
    }
    var i := 0;
    while i < |pieces|
      invariant i <= |pieces| && parser.s.errno == Ok && AtRest(cfg, parser.s)
      invariant decided ==>
                  var r := Run(cfg, s0, Concat(pieces[..i]));
                  && RunTakesAll(r, Concat(pieces[..i])) && parser.s == r.parser && n == |Concat(pieces[..i])|
                  && (i < |pieces| ==> r.Running?)
                  && Join(events) == Join(r.events)
    {
      ghost var before, piece := Concat(pieces[..i]), pieces[i];
      ConcatSnoc(pieces, i);
      RunAppend(cfg, s0, before, piece);
      RunsToPrefix(cfg, s0, pieces, i + 1);
      ghost var r := Run(cfg, s0, before);
      ghost var events0 := events;
      var k, more := parser.Execute(cfg, pieces[i]);
      n, events := n + k, events + more;
      if decided && !Run(cfg, r.parser, piece).Failed? {
        JoinConcat(events0, r.events, more, Run(cfg, r.parser, piece).events);
        RestIsOk(cfg, Run(cfg, r.parser, piece).parser);
      }
      if parser.s.errno != Ok || k < |pieces[i]| {
        return;
      }
      i := i + 1;
    }
  }

  lemma ConcatNone(pieces: seq<Bytes>)
    requires pieces == []
    ensures Concat(pieces) == []
  {
  }

  lemma ConcatSnoc(pieces: seq<Bytes>, i: nat)
    requires i < |pieces|
    ensures Concat(pieces[..i + 1]) == Concat(pieces[..i]) + pieces[i]
  {
    assert pieces[..i + 1][..i] == pieces[..i];
  }

  /** If the whole input is not left before its end, no prefix of the pieces is. */
  lemma {:induction false} RunsToPrefix(cfg: Settings, s: Parser, pieces: seq<Bytes>, i: nat)
    requires AtRest(cfg, s) && i <= |pieces|
    requires forall i :: 0 <= i < |pieces| ==> pieces[i] != []
    ensures var r := Run(cfg, s, Concat(pieces[..i]));
            && |Concat(pieces[..i])| <= |Concat(pieces)|
            && (i < |pieces| ==> |Concat(pieces[..i])| < |Concat(pieces)|)
            && (!r.Running? ==> Run(cfg, s, Concat(pieces)) == r)
    decreases |pieces| - i
  {
    hide AtRest, StepByte;
    if i == |pieces| {
      assert pieces[..i] == pieces;
    } else {
      assert pieces[..i + 1][..i] == pieces[..i];
      RunsToPrefix(cfg, s, pieces, i + 1);
      RunAppend(cfg, s, Concat(pieces[..i]), pieces[i]);
    }
  }
}
