/** Request methods: every method is recognised by its letters, although the parser only keeps one
    candidate and changes it where the letters so far fit several. */
module HttpMethods {
  import opened HttpTypes
  import opened HttpMachine
  import opened HttpInvariant
  import opened HttpTrace
  import opened HttpRun

  /** The method from which the parser changes to this one, and at which letter; a method that its
      first letter stands for has none. */
  function SwitchedAt(verb: nat): nat {
    match verb
    case 4 => 1 case 28 => 1 case 12 => 1 case 29 => 2 case 22 => 1 case 8 => 2 case 11 => 1 case 23 => 1 case 24 => 1
    case 21 => 2 case 30 => 3 case 14 => 1 case 33 => 1 case 17 => 2 case 13 => 4 case 31 => 1 case 27 => 2 case 18 => 2
    case 32 => 3 case _ => 0
  }

  function SwitchedFrom(verb: nat): nat {
    match verb
    case 4 => 3 case 28 => 3 case 12 => 3 case 29 => 4 case 22 => 5 case 8 => 5 case 11 => 10 case 23 => 10 case 24 => 10
    case 21 => 10 case 30 => 10 case 14 => 26 case 33 => 26 case 17 => 20 case 13 => 12 case 31 => 9 case 27 => 15
    case 18 => 15 case 32 => 15 case _ => verb
  }

  /** The candidate after k letters of a method. */
  function Candidate(verb: nat, k: nat): nat {
    var parent := SwitchedFrom(verb);
    if k > SwitchedAt(verb) then verb else if k > SwitchedAt(parent) then parent else SwitchedFrom(parent)
  }

  /** The first letter. */
  predicate FirstLeads(verb: nat)
    requires verb < METHODS
  {
    var name := MethodName(verb);
    && name != [] && name[0] as int < 256 && IsAlpha(name[0]) && name[0] != CR && name[0] != LF
    && FirstMethod(name[0]) == Candidate(verb, 1)
  }

  lemma FirstLetter0(verb: nat)
    requires verb < 6
    ensures FirstLeads(verb)
  {
  }

  lemma FirstLetter6(verb: nat)
    requires 6 <= verb < 12
    ensures FirstLeads(verb)
  {
  }

  lemma FirstLetter12(verb: nat)
    requires 12 <= verb < 17
    ensures FirstLeads(verb)
  {
  }

  lemma FirstLetter17(verb: nat)
    requires 17 <= verb < 24
    ensures FirstLeads(verb)
  {
  }

  lemma FirstLetter24(verb: nat)
    requires 24 <= verb < 34
    ensures FirstLeads(verb)
  {
  }

  lemma FirstLetter(verb: nat)
    requires verb < METHODS
    ensures FirstLeads(verb)
  {
    hide FirstLeads;
    if verb < 6 { FirstLetter0(verb); }
    else if verb < 12 { FirstLetter6(verb); }
    else if verb < 17 { FirstLetter12(verb); }
    else if verb < 24 { FirstLetter17(verb); }
    else { FirstLetter24(verb); }
  }

  /** Each further letter keeps the candidate, or changes it to the next one. */
  predicate LetterLeads(verb: nat, k: nat)
    requires verb < METHODS && 1 <= k < |MethodName(verb)|
  {
    var guess := Candidate(verb, k);
    var ch := MethodName(verb)[k];
    && guess < METHODS && ch as int < 256 && ('A' <= ch <= 'Z' || ch == '-')
    && Candidate(verb, k + 1) == (if ch == CharAt(MethodName(guess), k) then guess else SwitchMethod(guess, k, ch))
  }

  lemma NextLetter0(verb: nat, k: nat)
    requires verb < 2 && 1 <= k < |MethodName(verb)|
    ensures LetterLeads(verb, k)
  {
  }

  lemma NextLetter2(verb: nat, k: nat)
    requires 2 <= verb < 4 && 1 <= k < |MethodName(verb)|
    ensures LetterLeads(verb, k)
  {
  }

  lemma NextLetter4(verb: nat, k: nat)
    requires 4 <= verb < 6 && 1 <= k < |MethodName(verb)|
    ensures LetterLeads(verb, k)
  {
  }

  lemma NextLetter6(verb: nat, k: nat)
    requires 6 <= verb < 8 && 1 <= k < |MethodName(verb)|
    ensures LetterLeads(verb, k)
  {
  }

  lemma NextLetter8(verb: nat, k: nat)
    requires 8 <= verb < 12 && 1 <= k < |MethodName(verb)|
    ensures LetterLeads(verb, k)
  {
  }

  lemma NextLetter12(verb: nat, k: nat)
    requires 12 <= verb < 14 && 1 <= k < |MethodName(verb)|
    ensures LetterLeads(verb, k)
  {
  }

  lemma NextLetter14(verb: nat, k: nat)
    requires 14 <= verb < 16 && 1 <= k < |MethodName(verb)|
    ensures LetterLeads(verb, k)
  {
  }

  lemma NextLetter16(verb: nat, k: nat)
    requires 16 <= verb < 20 && 1 <= k < |MethodName(verb)|
    ensures LetterLeads(verb, k)
  {
  }

  lemma NextLetter20(verb: nat, k: nat)
    requires 20 <= verb < 24 && 1 <= k < |MethodName(verb)|
    ensures LetterLeads(verb, k)
  {
  }

  lemma NextLetter24(verb: nat, k: nat)
    requires 24 <= verb < 26 && 1 <= k < |MethodName(verb)|
    ensures LetterLeads(verb, k)
  {
  }

  lemma NextLetter26(verb: nat, k: nat)
    requires 26 <= verb < 28 && 1 <= k < |MethodName(verb)|
    ensures LetterLeads(verb, k)
  {
  }

  lemma NextLetter28(verb: nat, k: nat)
    requires 28 <= verb < 31 && 1 <= k < |MethodName(verb)|
    ensures LetterLeads(verb, k)
  {
  }

  lemma NextLetter31(verb: nat, k: nat)
    requires 31 <= verb < 34 && 1 <= k < |MethodName(verb)|
    ensures LetterLeads(verb, k)
  {
  }

  lemma NextLetter(verb: nat, k: nat)
    requires verb < METHODS && 1 <= k < |MethodName(verb)|
    ensures LetterLeads(verb, k)
  {
    hide LetterLeads;
    if verb < 2 { NextLetter0(verb, k); }
    else if verb < 4 { NextLetter2(verb, k); }
    else if verb < 6 { NextLetter4(verb, k); }
    else if verb < 8 { NextLetter6(verb, k); }
    else if verb < 12 { NextLetter8(verb, k); }
    else if verb < 14 { NextLetter12(verb, k); }
    else if verb < 16 { NextLetter14(verb, k); }
    else if verb < 20 { NextLetter16(verb, k); }
    else if verb < 24 { NextLetter20(verb, k); }
    else if verb < 26 { NextLetter24(verb, k); }
    else if verb < 28 { NextLetter26(verb, k); }
    else if verb < 31 { NextLetter28(verb, k); }
    else { NextLetter31(verb, k); }
  }

  lemma AllLetters(verb: nat)
    requires verb < METHODS
    ensures Candidate(verb, |MethodName(verb)|) == verb && |MethodName(verb)| <= 11
  {
  }

  // ----- a run over the method

  lemma FirstLetterByte(cfg: Settings, s: Parser, verb: nat)
    requires AtRest(cfg, s) && s.state == StartReq && verb < METHODS && s.nread + 1 <= cfg.maxHeaderSize
    ensures MethodName(verb) != [] && MethodName(verb)[0] as int < 256
    ensures var s' := StartMessage(s).(verb := Candidate(verb, 1), index := 1, state := ReqMethod, nread := s.nread + 1);
            StepByte(cfg, s, MethodName(verb)[0]) == Running(s', [MessageBegin])
  {
    hide Start, ResponseVersion, StatusLine, Url, RequestVersion, Field, Value, EndOfValue, EndHeaders, ChooseBody, Identity,
      ChunkLine, ChunkBody, FieldState, ValueState, MethodName, FirstMethod, MethodByte, Candidate, CountedByte, IsAlpha;
    FirstLetter(verb);
    var s' := StartMessage(s).(verb := Candidate(verb, 1), index := 1, state := ReqMethod, nread := s.nread + 1);
    StepConsume(cfg, s, MethodName(verb)[0], s', Notify(MessageBegin));
  }

  lemma LetterStep(s: Parser, verb: nat, k: nat)
    requires s.verb < METHODS && verb < METHODS && 1 <= k < |MethodName(verb)|
    requires s.verb == Candidate(verb, k) && s.index == k && LetterLeads(verb, k)
    ensures MethodByte(s, MethodName(verb)[k]) == Consume(s.(verb := Candidate(verb, k + 1), index := k + 1), Quiet)
  {
    hide MethodName, SwitchMethod, Candidate;
  }

  lemma LetterByte(cfg: Settings, s: Parser, verb: nat, k: nat)
    requires AtRest(cfg, s) && s.state == ReqMethod && s.nread + 1 <= cfg.maxHeaderSize
    requires verb < METHODS && 1 <= k < |MethodName(verb)| && s.verb == Candidate(verb, k) && s.index == k
    ensures MethodName(verb)[k] as int < 256
    ensures StepByte(cfg, s, MethodName(verb)[k]) ==
              Running(s.(verb := Candidate(verb, k + 1), index := k + 1, nread := s.nread + 1), [])
  {
    hide Start, ResponseVersion, StatusLine, Url, RequestVersion, Field, Value, EndOfValue, EndHeaders, ChooseBody, Identity,
      ChunkLine, ChunkBody, FieldState, ValueState, MethodName, MethodByte, FirstMethod, SwitchMethod, Candidate, CountedByte;
    NextLetter(verb, k);
    var s' := s.(verb := Candidate(verb, k + 1), index := k + 1, nread := s.nread + 1);
    LetterStep(s.(nread := s.nread + 1), verb, k);
    StepConsume(cfg, s, MethodName(verb)[k], s', Quiet);
  }

  lemma MethodEndByte(cfg: Settings, s: Parser)
    requires AtRest(cfg, s) && s.state == ReqMethod && s.nread + 1 <= cfg.maxHeaderSize
    requires s.index == |MethodName(s.verb)|
    ensures StepByte(cfg, s, ' ') ==
              Running(s.(state := ReqSpacesBeforeUrl, index := s.index + 1, nread := s.nread + 1), [])
  {
    hide Start, ResponseVersion, StatusLine, Url, RequestVersion, Field, Value, EndOfValue, EndHeaders, ChooseBody, Identity,
      ChunkLine, ChunkBody, FieldState, ValueState, MethodName, FirstMethod, SwitchMethod, CountedByte;
    StepConsume(cfg, s, ' ', s.(state := ReqSpacesBeforeUrl, index := s.index + 1, nread := s.nread + 1), Quiet);
  }

  predicate IsBytes(text: string) { forall i | 0 <= i < |text| :: text[i] as int < 256 }

  /** The letters of a method, as bytes. */
  function Letters(verb: nat, k: nat): (r: Bytes)
    requires verb < METHODS && k <= |MethodName(verb)|
    ensures |r| == k && forall i | 0 <= i < k :: r[i] == MethodName(verb)[i]
  {
    LettersAreBytes(verb);
    seq(k, i requires 0 <= i < k => MethodName(verb)[i])
  }

  lemma LettersAreBytes(verb: nat)
    requires verb < METHODS
    ensures IsBytes(MethodName(verb))
  {
    forall i | 0 <= i < |MethodName(verb)|
      ensures MethodName(verb)[i] as int < 256
    {
      if i == 0 {
        FirstLetter(verb);
      } else {
        NextLetter(verb, i);
      }
    }
  }

  lemma {:induction false} RunLetters(cfg: Settings, s: Parser, verb: nat, k: nat)
    requires AtRest(cfg, s) && s.state == StartReq && verb < METHODS && 1 <= k <= |MethodName(verb)|
    requires s.nread + k <= cfg.maxHeaderSize
    ensures var s' := StartMessage(s).(verb := Candidate(verb, k), index := k, state := ReqMethod, nread := s.nread + k);
            Run(cfg, s, Letters(verb, k)) == Running(s', [MessageBegin])
    decreases k
  {
    hide StepByte, AtRest, MethodName, Candidate, StartMessage;
    var name := Letters(verb, k);
    assert name == name[..k - 1] + [name[k - 1]];
    if k == 1 {
      FirstLetterByte(cfg, s, verb);
      assert name[..0] == [];
      assert Run(cfg, s, []) == Running(s, []);
    } else {
      assert name[..k - 1] == Letters(verb, k - 1);
      RunLetters(cfg, s, verb, k - 1);
      LetterByte(cfg, Run(cfg, s, Letters(verb, k - 1)).parser, verb, k - 1);
    }
    RunSnoc(cfg, s, name[..k - 1], name[k - 1]);
  }

  /** Every method, and the space after it. */
  lemma RunMethod(cfg: Settings, s: Parser, verb: nat)
    requires AtRest(cfg, s) && s.state == StartReq && verb < METHODS
    requires s.nread + |MethodName(verb)| + 1 <= cfg.maxHeaderSize
    ensures var n := |MethodName(verb)|;
            var s' := StartMessage(s).(verb := verb, index := n + 1, state := ReqSpacesBeforeUrl, nread := s.nread + n + 1);
            Run(cfg, s, Letters(verb, n) + [' ']) == Running(s', [MessageBegin])
  {
    hide StepByte, Inv, MethodName, Candidate;
    FirstLetter(verb);
    AllLetters(verb);
    var n := |MethodName(verb)|;
    RunLetters(cfg, s, verb, n);
    MethodEndByte(cfg, Run(cfg, s, Letters(verb, n)).parser);
    RunSnoc(cfg, s, Letters(verb, n), ' ');
  }

  // ----- nothing else is taken for a method

  /** The letters read are those of the candidate. */
  predicate HasRead(s: Parser, word: Bytes) {
    && s.state == ReqMethod && s.verb < METHODS && s.index == |word| <= |MethodName(s.verb)|
    && forall i :: 0 <= i < |word| ==> word[i] == MethodName(s.verb)[i]
  }

  /** Where the candidate changes, the old one and the new one agree on the letters so far. */
  lemma SwitchAgrees(verb: nat, k: nat, ch: Byte)
    requires verb < METHODS && k <= |MethodName(verb)| && 0 <= SwitchMethod(verb, k, ch)
    ensures var name := MethodName(SwitchMethod(verb, k, ch));
            && k < |name| && name[k] == ch && forall i | 0 <= i < k :: name[i] == MethodName(verb)[i]
  {
  }

  lemma FirstIsFirst(ch: Byte)
    requires 0 <= FirstMethod(ch)
    ensures MethodName(FirstMethod(ch)) != [] && MethodName(FirstMethod(ch))[0] == ch
  {
  }

  lemma AnyLetterStep(s: Parser, word: Bytes, ch: Byte)
    requires HasRead(s, word) && ch != ' '
    ensures var r := MethodByte(s, ch);
            r.Fail? || (r.Consume? && r.effect == Quiet && HasRead(r.parser, word + [ch]))
  {
    hide MethodName, SwitchMethod;
    if 0 <= SwitchMethod(s.verb, s.index, ch) {
      SwitchAgrees(s.verb, s.index, ch);
    }
  }

  lemma AnyLetterByte(cfg: Settings, s: Parser, word: Bytes, ch: Byte)
    requires AtRest(cfg, s) && HasRead(s, word) && ch != ' '
    ensures var r := StepByte(cfg, s, ch);
            r.Failed? || (r.Running? && HasRead(r.parser, word + [ch]))
  {
    hide Start, ResponseVersion, StatusLine, Url, RequestVersion, Field, Value, EndOfValue, EndHeaders, ChooseBody, Identity,
      ChunkLine, ChunkBody, FieldState, ValueState, MethodName, MethodByte, FirstMethod, SwitchMethod;
    CountKeepsInv(cfg, s);
    AnyLetterStep(Count(s), word, ch);
  }

  lemma AnyFirstByte(cfg: Settings, s: Parser, ch: Byte)
    requires AtRest(cfg, s) && s.state == StartReq && ch != CR && ch != LF
    ensures var r := StepByte(cfg, s, ch);
            r.Failed? || (r.Running? && HasRead(r.parser, [ch]))
  {
    hide Start, ResponseVersion, StatusLine, Url, RequestVersion, Field, Value, EndOfValue, EndHeaders, ChooseBody, Identity,
      ChunkLine, ChunkBody, FieldState, ValueState, MethodName, MethodByte, FirstMethod, SwitchMethod;
    CountKeepsInv(cfg, s);
    if 0 <= FirstMethod(ch) {
      FirstIsFirst(ch);
    }
  }

  predicate IsWord(word: Bytes) {
    word != [] && word[0] != CR && word[0] != LF && forall i :: 0 <= i < |word| ==> word[i] != ' '
  }

  lemma {:induction false} AnyLetters(cfg: Settings, s: Parser, word: Bytes)
    requires AtRest(cfg, s) && s.state == StartReq && IsWord(word)
    ensures var r := Run(cfg, s, word); r.Failed? || (r.Running? && HasRead(r.parser, word))
    decreases |word|
  {
    hide StepByte, AtRest, HasRead;
    var n := |word| - 1;
    assert word == word[..n] + [word[n]];
    RunSnoc(cfg, s, word[..n], word[n]);
    if n == 0 {
      AnyFirstByte(cfg, s, word[0]);
      assert Run(cfg, s, []) == Running(s, []);
    } else {
      AnyLetters(cfg, s, word[..n]);
      var r := Run(cfg, s, word[..n]);
      if r.Running? {
        AnyLetterByte(cfg, r.parser, word[..n], word[n]);
      }
    }
  }

  lemma PlainLetters(verb: nat)
    requires verb < METHODS
    ensures forall i :: 0 <= i < |MethodName(verb)| ==> MethodName(verb)[i] != ' ' && MethodName(verb)[i] != '\0'
  {
    hide MethodName, Candidate, SwitchMethod;
    forall i | 0 <= i < |MethodName(verb)|
      ensures MethodName(verb)[i] != ' ' && MethodName(verb)[i] != '\0'
    {
      if i == 0 {
        FirstLetter(verb);
      } else {
        NextLetter(verb, i);
      }
    }
  }

  lemma SpaceStep(s: Parser, word: Bytes)
    requires HasRead(s, word)
    ensures var r := MethodByte(s, ' ');
            r.Fail? || (word == MethodName(s.verb) && r == Consume(s.(index := s.index + 1, state := ReqSpacesBeforeUrl), Quiet))
  {
    hide MethodName, SwitchMethod;
    PlainLetters(s.verb);
  }

  lemma SpaceByte(cfg: Settings, s: Parser, word: Bytes)
    requires AtRest(cfg, s) && HasRead(s, word)
    ensures var r := StepByte(cfg, s, ' ');
            r.Failed? || (r.Running? && s.verb < METHODS && word == MethodName(s.verb) && r.parser.verb == s.verb)
  {
    hide Start, ResponseVersion, StatusLine, Url, RequestVersion, Field, Value, EndOfValue, EndHeaders, ChooseBody, Identity,
      ChunkLine, ChunkBody, FieldState, ValueState, FirstMethod, SwitchMethod, MethodByte, MethodName;
    CountKeepsInv(cfg, s);
    SpaceStep(Count(s), word);
  }

  /** A word and a space are taken exactly when the word is one of the methods, and it is then that method. */
  lemma MethodRecognised(cfg: Settings, s: Parser, word: Bytes)
    requires AtRest(cfg, s) && s.state == StartReq && IsWord(word) && s.nread + |word| + 1 <= cfg.maxHeaderSize
    ensures var r := Run(cfg, s, word + [' ']);
            && (r.Running? <==> exists verb: nat :: verb < METHODS && word == MethodName(verb))
            && (r.Running? ==> r.parser.verb < METHODS && word == MethodName(r.parser.verb))
            && (!r.Running? ==> r.Failed?)
  {
    hide StepByte, Inv, MethodName, HasRead;
    AnyLetters(cfg, s, word);
    RunSnoc(cfg, s, word, ' ');
    var r := Run(cfg, s, word);
    if r.Running? {
      SpaceByte(cfg, r.parser, word);
    }
    if verb: nat :| verb < METHODS && word == MethodName(verb) {
      RunMethod(cfg, s, verb);
      assert word == Letters(verb, |MethodName(verb)|);
    }
  }
}
