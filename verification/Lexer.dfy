/**
 * The lexer as a state machine with one rune of look-ahead.
 *
 * It is proved to emit the tokens that `Scanning` describes, at the right positions, and to
 * finish. Each state function is proved against the step that `Scanning` gives for it.
 */
module Lexer {
  import opened Scanning
  import opened ScanningTheorems

  /** A token as it is sent, with positions. */
  datatype SentToken = SentToken(kind: Kind, start: Pos, end: Pos)

  function Sent(src: seq<char>, t: Lexeme): SentToken {
    SentToken(t.kind, PosAt(src, t.lo), PosAt(src, t.hi))
  }

  function SentAll(src: seq<char>, ts: seq<Lexeme>): (r: seq<SentToken>)
    ensures |r| == |ts|
  {
    if ts == [] then [] else SentAll(src, ts[..|ts| - 1]) + [Sent(src, ts[|ts| - 1])]
  }

  /** The state functions; `Done` stands for none. */
  datatype StateFn =
    | LexMain | LexExclamation | LexIdent | LexString | LexEqual | LexColon
    | LexDigit | LexHex | LexBin | LexNumber | LexDot | Done

  /** A state may hand over to one of lower rank without eating anything. */
  function Rank(s: StateFn): nat {
    match s case Done => 0 case LexMain => 2 case LexDigit => 3 case _ => 1
  }

  /** The tokens from a step for a token that started at `from`. */
  function After(u: Alphabet, src: seq<char>, from: nat, s: Step): seq<Lexeme> {
    match s
    case Emit(kind, end, then_) =>
      [Lexeme(kind, from, end)] + if end <= |src| then LexFrom(u, src, then_, end) else []
    case Stop(kind, end) => [Lexeme(kind, from, end)]
    case Skip => []
  }

  class Machine {
    const u: Alphabet
    const src: seq<char>
    var state: StateFn
    var start: Pos
    var current: Pos
    var top: char
    var eof: bool
    var pos: nat                    // runes eaten so far
    var from: nat                   // runes eaten when the token began
    var tokens: seq<SentToken>      // sent so far
    var failed: bool                // the error callback was called
    ghost var lexemes: seq<Lexeme>

    constructor (u: Alphabet, src: seq<char>)
      ensures this.u == u && this.src == src && Valid() && StateOk(LexMain) && state == LexMain
      ensures pos == 0 && lexemes == [] && !failed
    {
      this.u, this.src := u, src;
      state, start, current, pos, from := LexMain, Pos(0, 1, 1), Pos(0, 1, 1), 0, 0;
      tokens, failed, lexemes := [], false, [];
      new;
      Forward();
    }

    /** All of the state but the tokens is determined by how many runes were eaten. */
    ghost predicate Valid()
      reads `top, `eof, `pos, `from, `current, `start, `tokens, `lexemes
    {
      && top == At(src, pos) && eof == (pos >= |src|)
      && from <= pos && current == PosAt(src, pos) && start == PosAt(src, from)
      && tokens == SentAll(src, lexemes)
    }

    /** Where a state function may start. */
    ghost predicate StateOk(s: StateFn)
      reads `top, `pos, `from
    {
      match s
      case Done => true
      case LexMain => from == pos <= |src|
      case LexIdent => from == pos <= |src|
      case LexExclamation => from == pos < |src| && top == '!'
      case LexString => from == pos < |src| && top == '"'
      case LexEqual => from == pos < |src| && top == '='
      case LexColon => from == pos < |src| && top == ':'
      case LexDot => from == pos < |src| && top == '.'
      case LexNumber => from == pos < |src| && IsDigit(top)
      case LexDigit => from < pos <= |src|
      case LexHex => from < pos <= |src|
      case LexBin => from < pos <= |src|
    }

    /** What a state function, started in its state, is going to send. */
    ghost function StepOf(s: StateFn): Step
      reads `pos
    {
      match s
      case Done => Skip
      case LexMain => Skip
      case LexIdent => NameStep(u, src, pos)
      case LexExclamation => ExclamationStep(src, pos)
      case LexString => StringStep(src, pos + 1)
      case LexEqual => EqualStep(src, pos)
      case LexColon => ColonStep(src, pos)
      case LexDot => DotStep(src, pos)
      case LexNumber => NumberStep(src, pos)
      case LexDigit => DigitStep(src, pos)
      case LexHex => BaseStep(src, pos, IsHex)
      case LexBin => BaseStep(src, pos, IsBin)
    }

    /** One token that began at `lo` was sent behind `before`, the one `step` stands for. */
    ghost predicate SentStep(before: seq<Lexeme>, lo: nat, step: Step)
      reads `top, `eof, `pos, `from, `current, `start, `tokens, `lexemes
    {
      && Valid() && from == pos && step != Skip && pos == step.end
      && lexemes == before + [Lexeme(step.kind, lo, step.end)]
    }

    /** A state function that ends its token: on to the next one, or to none after a failure. */
    ghost predicate Ends(before: seq<Lexeme>, lo: nat, wasFailed: bool, step: Step, next: StateFn)
      reads this
    {
      && SentStep(before, lo, step)
      && (step.Emit? ==> step.then_.Main? && next == LexMain && failed == wasFailed)
      && (step.Stop? ==> step.kind == Illegal && next == Done && failed)
    }

    // ---------- runes and tokens ----------

    method Forward()
      modifies `top, `eof
      ensures top == At(src, pos) && eof == (pos >= |src|)
    {
      if pos >= |src| {
        top, eof := '\0', true;
      } else {
        top, eof := src[pos], false;
      }
    }

    method Eat()
      requires Valid()
      modifies `current, `pos, `top, `eof
      ensures Valid() && pos == old(pos) + 1
    {
      current := Advance(current, top);
      pos := pos + 1;
      Forward();
    }

    method EatIf(c: bool)
      requires Valid()
      modifies `current, `pos, `top, `eof
      ensures Valid() && pos == old(pos) + if c then 1 else 0
    {
      if c { Eat(); }
    }

    /** A backslash and the rune it escapes. */
    method EatEscape()
      requires Valid()
      modifies `current, `pos, `top, `eof
      ensures Valid() && pos == old(pos) + if old(top) == '\\' then 2 else 0
    {
      if top == '\\' {
        Eat();
        Eat();
      }
    }

    method Send(kind: Kind)
      requires Valid() && kind != Illegal
      modifies `tokens, `lexemes, `start, `from
      ensures Valid() && from == pos && lexemes == old(lexemes) + [Lexeme(kind, old(from), pos)]
    {
      tokens := tokens + [SentToken(kind, start, current)];
      lexemes := lexemes + [Lexeme(kind, from, pos)];
      assert lexemes[..|lexemes| - 1] == old(lexemes);
      start, from := current, pos;
    }

    method Fail()
      requires Valid()
      modifies `tokens, `lexemes, `start, `from, `failed
      ensures failed && Valid() && from == pos && lexemes == old(lexemes) + [Lexeme(Illegal, old(from), pos)]
    {
      failed := true;
      tokens := tokens + [SentToken(Illegal, start, current)];
      lexemes := lexemes + [Lexeme(Illegal, from, pos)];
      assert lexemes[..|lexemes| - 1] == old(lexemes);
      start, from := current, pos;
    }

    /** Send the token at hand, or report that there is none. */
    method Finish(ok: bool, kind: Kind, ghost step: Step) returns (next: StateFn)
      requires Valid() && kind != Illegal && kind != SingleQuote
      requires step == if ok then Token(kind, pos) else Scanning.Fail(pos)
      modifies `tokens, `lexemes, `start, `from, `failed
      ensures Ends(old(lexemes), old(from), old(failed), step, next)
    {
      hide PosAt, SentAll;
      if ok {
        Send(kind);
        next := LexMain;
      } else {
        Fail();
        next := Done;
      }
    }

    method EatWhile(p: char -> bool)
      requires Valid() && pos <= |src| && !p('\0')
      modifies `current, `pos, `top, `eof
      ensures Valid() && pos == RunEnd(src, old(pos), p) <= |src|
    {
      while p(top)
        invariant Valid() && pos <= |src| && from == old(from) && lexemes == old(lexemes)
        invariant RunEnd(src, pos, p) == RunEnd(src, old(pos), p)
        decreases |src| - pos
      {
        Eat();
      }
    }

    // ---------- state functions ----------

    method RunExclamation() returns (next: StateFn)
      requires Valid() && StateOk(LexExclamation)
      modifies this
      ensures Ends(old(lexemes), old(from), old(failed), old(StepOf(LexExclamation)), next)
    {
      hide PosAt, SentAll, RunEnd;
      ghost var step := ExclamationStep(src, pos);
      var kind := Not;
      Eat();
      if top == '=' {
        Eat();
        kind := NotEqual;
      } else if top == '!' {
        EatComment();
        kind := Comment;
      }
      next := Finish(true, kind, step);
    }

    method EatComment()
      requires Valid() && pos < |src|
      modifies `current, `pos, `top, `eof
      ensures Valid() && pos == RunEnd(src, old(pos), InComment)
    {
      while top != '\n' && !eof
        invariant Valid() && pos <= |src|
        invariant RunEnd(src, pos, InComment) == RunEnd(src, old(pos), InComment)
        decreases |src| - pos
      {
        Eat();
      }
    }

    method RunIdent() returns (next: StateFn)
      requires Valid() && StateOk(LexIdent)
      modifies this
      ensures Ends(old(lexemes), old(from), old(failed), old(StepOf(LexIdent)), next)
    {
      hide PosAt, SentAll, RunEnd;
      ghost var step := NameStep(u, src, pos);
      var ok := IsLetter(u, top);
      if ok { EatWhile(c => IsIdentPart(u, c)); }
      next := Finish(ok, NameKind(src[from..pos]), step);
    }

    method RunString() returns (next: StateFn)
      requires Valid() && from == pos < |src| && top == '"'
      modifies this
      ensures Ends(old(lexemes), old(from), old(failed), old(StringStep(src, pos + 1)), next)
    {
      hide PosAt, SentAll, StringStep;
      ghost var step := StringStep(src, pos + 1);
      Eat();
      var ok := EatString();
      next := Finish(ok, String, step);
    }

    /** The rest of a string, from behind its opening quote on. */
    method EatString() returns (ok: bool)
      requires Valid()
      modifies `current, `pos, `top, `eof
      ensures Valid() && StringStep(src, old(pos)) == if ok then Token(String, pos) else Scanning.Fail(pos)
    {
      hide PosAt, SentAll, StringStep;
      while !eof
        invariant Valid() && StringStep(src, pos) == StringStep(src, old(pos))
        decreases |src| - pos
      {
        StringUnfolds(src, pos);
        EatEscape();
        if top == '"' {
          Eat();
          return true;
        }
        Eat();
      }
      StringUnfolds(src, pos);
      ok := false;
    }

    method RunEqual() returns (next: StateFn)
      requires Valid() && StateOk(LexEqual)
      modifies this
      ensures Ends(old(lexemes), old(from), old(failed), old(StepOf(LexEqual)), next)
    {
      hide PosAt, SentAll;
      ghost var step := EqualStep(src, pos);
      var kind := Assign;
      Eat();
      if top == '=' {
        Eat();
        kind := Equal;
      } else if top == '>' {
        Eat();
        kind := FatRightArrow;
      }
      next := Finish(true, kind, step);
    }

    method RunColon() returns (next: StateFn)
      requires Valid() && StateOk(LexColon)
      modifies this
      ensures Ends(old(lexemes), old(from), old(failed), old(StepOf(LexColon)), next)
    {
      hide PosAt, SentAll;
      ghost var step := ColonStep(src, pos);
      Eat();
      var double := top == ':';
      EatIf(double);
      next := Finish(true, if double then ColonColon else Colon, step);
    }

    method RunDot() returns (next: StateFn)
      requires Valid() && StateOk(LexDot)
      modifies this
      ensures Ends(old(lexemes), old(from), old(failed), old(StepOf(LexDot)), next)
    {
      hide PosAt, SentAll;
      ghost var step := DotStep(src, pos);
      Eat();
      if top != '.' {
        next := Finish(true, Dot, step);
        return;
      }
      Eat();
      var ok := top == '.';
      EatIf(ok);
      next := Finish(ok, Ellipsis, step);
    }

    /** An exponent, from its `e` on. */
    method RunExponent() returns (next: StateFn)
      requires Valid() && StateOk(LexDigit) && pos < |src|
      modifies this
      ensures Ends(old(lexemes), old(from), old(failed), old(ExponentStep(src, pos)), next)
    {
      hide PosAt, SentAll, ExponentStep;
      ghost var step := ExponentStep(src, pos);
      var ok := EatExponent();
      next := Finish(ok, Float, step);
    }

    method EatExponent() returns (ok: bool)
      requires Valid() && pos < |src|
      modifies `current, `pos, `top, `eof
      ensures Valid() && ExponentStep(src, old(pos)) == if ok then Token(Float, pos) else Scanning.Fail(pos)
    {
      hide PosAt, SentAll, RunEnd;
      Eat();
      EatIf(top == '+' || top == '-');
      ok := IsDigit(top);
      if ok { EatWhile(IsDigit); }
    }

    /** The end of a number: an exponent, or a suffix of an integer. */
    method RunNumberEnd(isFloat: bool) returns (next: StateFn)
      requires Valid() && StateOk(LexDigit)
      modifies this
      ensures Ends(old(lexemes), old(from), old(failed), old(NumberEndStep(src, pos, isFloat)), next)
    {
      hide PosAt, SentAll, ExponentStep, RunEnd;
      ghost var step := NumberEndStep(src, pos, isFloat);
      if top == 'e' || top == 'E' {
        next := RunExponent();
        return;
      }
      EatIf(!isFloat && top == 'u');
      var kind := if isFloat then Float else Int;
      next := Finish(true, kind, step);
    }

    method RunDigit() returns (next: StateFn)
      requires Valid() && StateOk(LexDigit)
      modifies this
      ensures Ends(old(lexemes), old(from), old(failed), old(StepOf(LexDigit)), next)
    {
      hide PosAt, SentAll, RunEnd, NumberEndStep;
      var isFloat := false;
      EatWhile(IsDigit);
      if top == '.' {
        isFloat := true;
        Eat();
        EatWhile(IsDigit);
      }
      next := RunNumberEnd(isFloat);
    }

    method RunBase(s: StateFn, p: char -> bool) returns (next: StateFn)
      requires Valid() && StateOk(s) && !p('\0') && !p('u')
      requires (s.LexHex? && p == IsHex) || (s.LexBin? && p == IsBin)
      modifies this
      ensures Ends(old(lexemes), old(from), old(failed), old(StepOf(s)), next)
    {
      hide PosAt, SentAll, BaseStep;
      ghost var step := BaseStep(src, pos, p);
      var ok := EatBase(p);
      next := Finish(ok, Int, step);
    }

    /** Digits of a number with a prefix, and its suffix. */
    method EatBase(p: char -> bool) returns (ok: bool)
      requires Valid() && pos <= |src| && !p('\0') && !p('u')
      modifies `current, `pos, `top, `eof
      ensures Valid() && BaseStep(src, old(pos), p) == if ok then Token(Int, pos) else Scanning.Fail(pos)
    {
      hide PosAt, SentAll, RunEnd;
      ok := p(top);
      if ok {
        EatWhile(p);
        EatIf(top == 'u');
      }
    }

    method RunNumber() returns (next: StateFn)
      requires Valid() && StateOk(LexNumber)
      modifies this
      ensures Valid() && next != LexMain && next != Done && StateOk(next) && StepOf(next) == old(StepOf(LexNumber))
      ensures pos > old(pos) && from == old(from) && lexemes == old(lexemes) && failed == old(failed)
    {
      hide PosAt, SentAll, RunEnd, BaseStep, DigitStep;
      ghost var step := NumberStep(src, pos);
      if top != '0' {
        Eat();
        assert step == DigitStep(src, pos);
        return LexDigit;
      }
      Eat();
      if top == 'x' {
        Eat();
        assert step == BaseStep(src, pos, IsHex);
        return LexHex;
      } else if top == 'b' {
        Eat();
        assert step == BaseStep(src, pos, IsBin);
        return LexBin;
      }
      assert step == DigitStep(src, pos);
      next := LexDigit;
    }

    // ---------- the main state and the machine ----------

    /** Tokens of one or two marks, which have no state of their own. */
    method RunMark() returns (next: StateFn)
      requires Valid() && StateOk(LexMain) && pos < |src| && IsMark(top)
      modifies this
      ensures var m := old(MarksOf(top, At(src, pos + 1)));
              && !m.NoMark?
              && SentStep(old(lexemes), old(from),
                          if m.Mark? then Token(m.kind, old(pos) + m.len) else Stop(Illegal, old(pos) + m.len))
              && next == (if m.Broken? then Done else if m.kind == SingleQuote then LexIdent else LexMain)
              && failed == (old(failed) || m.Broken?)
    {
      hide PosAt, SentAll, MarksOf;
      var kind := EatMark();
      next := FinishMark(kind);
    }

    /** Send the token of the marks that were eaten, or report that one is missing. */
    method FinishMark(kind: Kind) returns (next: StateFn)
      requires Valid()
      modifies `tokens, `lexemes, `start, `from, `failed
      ensures SentStep(old(lexemes), old(from), if kind == Illegal then Stop(Illegal, pos) else Token(kind, pos))
      ensures next == (if kind == Illegal then Done else if kind == SingleQuote then LexIdent else LexMain)
      ensures failed == (old(failed) || kind == Illegal)
    {
      hide PosAt, SentAll;
      if kind == Illegal {
        Fail();
        return Done;
      }
      Send(kind);
      next := if kind == SingleQuote then LexIdent else LexMain;
    }

    /** Eat the marks of a token; its kind, or `Illegal` if a second mark is missing. */
    method EatMark() returns (kind: Kind)
      requires Valid() && pos < |src| && IsMark(top)
      modifies `current, `pos, `top, `eof
      ensures Valid() && pos > old(pos)
      ensures old(MarksOf(top, At(src, pos + 1)))
           == if kind == Illegal then Broken(pos - old(pos)) else Mark(kind, pos - old(pos))
    {
      hide PosAt, SentAll;
      ghost var m := MarksOf(top, At(src, pos + 1));
      var c, second := top, false;
      Eat();
      match c {
        case '\n' => kind := Newline;
        case ';' => kind := Semicolon;
        case '(' => kind := LParen;
        case ')' => kind := RParen;
        case '{' => kind := LBrace;
        case '}' => kind := RBrace;
        case '[' => kind := LBracket;
        case ']' => kind := RBracket;
        case '\'' => kind := SingleQuote;
        case '-' => second := top == '>'; kind := if second then RightArrow else Minus;
        case '+' => kind := Plus;
        case '*' => kind := Star;
        case '/' => kind := Div;
        case '|' => second := top == '|'; kind := if second then Or else Illegal;
        case '&' => second := top == '&'; kind := if second then And else Illegal;
        case '%' => kind := Percent;
        case '<' => second := top == '='; kind := if second then LessEqual else Less;
        case '>' => second := top == '='; kind := if second then GreaterEqual else Greater;
        case ',' => kind := Comma;
      }
      assert m == if kind == Illegal then Broken(1) else Mark(kind, if second then 2 else 1);
      hide MarksOf;
      EatIf(second);
    }

    /** Drop the rune at hand. */
    method Consume()
      requires Valid()
      modifies `current, `pos, `top, `eof, `start, `from
      ensures Valid() && pos == old(pos) + if old(eof) then 0 else 1
      ensures !old(eof) ==> from == pos
    {
      if eof { return; }
      Eat();
      start, from := current, pos;
    }

    /** The tokens still to come, in each state. */
    ghost function Outstanding(s: StateFn): seq<Lexeme>
      reads `pos, `from
    {
      match s
      case Done => []
      case LexMain => if pos <= |src| then LexFrom(u, src, Main, pos) else []
      case _ => After(u, src, from, StepOf(s))
    }

    /** Nothing failed so far, or the last token says so. */
    ghost predicate FailureKnown(s: StateFn)
      reads `lexemes, `failed
    {
      if s == Done then lexemes != [] && (failed <==> lexemes[|lexemes| - 1].kind == Illegal) else !failed
    }

    lemma MarkOutstanding(s: StateFn)
      requires Valid() && from == pos && s in {LexMain, LexIdent, Done} && (s != Done ==> pos <= |src|)
      ensures Outstanding(s) == if s == Done then [] else LexFrom(u, src, if s == LexIdent then Name else Main, pos)
    {
      if s == LexIdent {
        LexUnfolds(u, src, Name, pos);
        NameProgress(u, src, pos);
      }
    }

    /** Handing over to the state that lexes the token at hand changes nothing to come. */
    lemma HandOver(s: StateFn)
      requires Valid() && StateOk(s) && from == pos < |src|
      requires StepOf(s) == MainStep(u, src, pos) && StepOf(s) != Skip
      ensures Outstanding(s) == LexFrom(u, src, Main, pos)
    {
      hide MainStep, LexFrom;
      LexUnfolds(u, src, Main, pos);
    }

    lemma SentFirst(sent: seq<Lexeme>, t: Lexeme, rest: seq<Lexeme>)
      ensures (sent + [t]) + rest == sent + ([t] + rest)
    {
    }

    method SendMark() returns (next: StateFn)
      requires Valid() && StateOk(LexMain) && FailureKnown(LexMain) && pos < |src| && IsMark(top)
      requires MainStep(u, src, pos) == OtherStep(u, src, pos)
      modifies this
      ensures Valid() && StateOk(next) && FailureKnown(next)
      ensures lexemes + Outstanding(next) == old(lexemes + Outstanding(LexMain))
      ensures old(pos) < pos && (next != Done ==> pos <= |src|)
    {
      hide PosAt, SentAll, MarksOf, IsSpace, IsDigit, NameStep, NumberStep, MainStep, Outstanding, LexFrom;
      ghost var sent, step := lexemes, StepAt(u, src, Main, pos);
      LexUnfolds(u, src, Main, pos);
      MarkOutstanding(LexMain);
      MarksKnown(top, At(src, pos + 1));
      MarksProgress(src, pos);
      assert step != Skip;
      ghost var t := Lexeme(step.kind, pos, step.end);
      next := RunMark();
      MarkOutstanding(next);
      assert lexemes == sent + [t];
      SentFirst(sent, t, Outstanding(next));
    }

    /** One rune without a state of its own: a mark, a space, or the start of a name or number. */
    method RunOther() returns (next: StateFn)
      requires Valid() && StateOk(LexMain) && FailureKnown(LexMain) && pos < |src|
      requires MainStep(u, src, pos) == OtherStep(u, src, pos)
      modifies this
      ensures Valid() && StateOk(next) && FailureKnown(next)
      ensures lexemes + Outstanding(next) == old(lexemes + Outstanding(LexMain))
      ensures old(pos) <= pos && (next != Done ==> pos <= |src| && (pos > old(pos) || Rank(next) < Rank(LexMain)))
    {
      hide PosAt, SentAll, MarksOf, IsSpace, IsDigit, NameStep, NumberStep, MainStep, Outstanding, LexFrom;
      LexUnfolds(u, src, Main, pos);
      MarkOutstanding(LexMain);
      MarksKnown(top, At(src, pos + 1));
      MarksProgress(src, pos);
      if IsMark(top) {
        next := SendMark();
      } else if IsSpace(top) {
        Consume();
        MarkOutstanding(LexMain);
        next := LexMain;
      } else if IsDigit(top) {
        NumberProgress(src, pos);
        HandOver(LexNumber);
        next := LexNumber;
      } else {
        NameProgress(u, src, pos);
        HandOver(LexIdent);
        next := LexIdent;
      }
    }

    method SendEnd() returns (next: StateFn)
      requires Valid() && StateOk(LexMain) && FailureKnown(LexMain) && pos >= |src|
      modifies this
      ensures Valid() && next == Done && FailureKnown(next) && pos == old(pos)
      ensures lexemes + Outstanding(next) == old(lexemes + Outstanding(LexMain))
    {
      hide PosAt, SentAll, Outstanding, LexFrom;
      MarkOutstanding(LexMain);
      LexUnfolds(u, src, Main, pos);
      MarkOutstanding(Done);
      Send(EOF);
      next := Done;
    }

    /** The main state: tokens without a state of their own are sent here, spaces are
        dropped, and for all others it hands over. */
    method RunMain() returns (next: StateFn)
      requires Valid() && StateOk(LexMain) && FailureKnown(LexMain)
      modifies this
      ensures Valid() && StateOk(next) && FailureKnown(next)
      ensures lexemes + Outstanding(next) == old(lexemes + Outstanding(LexMain))
      ensures old(pos) <= pos && (next != Done ==> pos <= |src| && (pos > old(pos) || Rank(next) < Rank(LexMain)))
    {
      hide PosAt, SentAll, OtherStep, StringStep, Outstanding, LexFrom;
      next := LexMain;
      while next == LexMain
        invariant Valid() && StateOk(next) && FailureKnown(next)
        invariant lexemes + Outstanding(next) == old(lexemes + Outstanding(LexMain))
        invariant old(pos) <= pos
        invariant next != Done ==> pos <= |src| && (next == LexMain || pos > old(pos) || Rank(next) < Rank(LexMain))
        decreases |src| - pos, Rank(next)
      {
        MarkOutstanding(LexMain);
        if eof {
          next := SendEnd();
          return;
        }
        match top
        case '!' => HandOver(LexExclamation); next := LexExclamation;
        case '"' =>
          StringProgress(src, pos + 1);
          HandOver(LexString);
          next := LexString;
        case '=' => HandOver(LexEqual); next := LexEqual;
        case ':' => HandOver(LexColon); next := LexColon;
        case '.' => HandOver(LexDot); next := LexDot;
        case _ => next := RunOther();
      }
    }

    /** Run a state that has one token to send. */
    method RunToken(s: StateFn) returns (next: StateFn)
      requires Valid() && StateOk(s) && s != Done && s != LexMain && s != LexNumber
      modifies this
      ensures Ends(old(lexemes), old(from), old(failed), old(StepOf(s)), next)
    {
      match s
      case LexExclamation => next := RunExclamation();
      case LexIdent => next := RunIdent();
      case LexString => next := RunString();
      case LexEqual => next := RunEqual();
      case LexColon => next := RunColon();
      case LexDot => next := RunDot();
      case LexDigit => next := RunDigit();
      case LexHex => next := RunBase(LexHex, IsHex);
      case LexBin => next := RunBase(LexBin, IsBin);
    }

    method RunState(s: StateFn) returns (next: StateFn)
      requires Valid() && StateOk(s) && FailureKnown(s) && s != Done && pos <= |src|
      modifies this
      ensures Valid() && StateOk(next) && FailureKnown(next)
      ensures lexemes + Outstanding(next) == old(lexemes + Outstanding(s))
      ensures next != Done ==> old(pos) <= pos <= |src| && (pos > old(pos) || Rank(next) < Rank(s))
    {
      if s == LexMain {
        next := RunMain();
      } else if s == LexNumber {
        next := RunNumber();
      } else {
        next := RunTokenState(s);
      }
    }

    method RunTokenState(s: StateFn) returns (next: StateFn)
      requires Valid() && StateOk(s) && FailureKnown(s) && s != Done && s != LexMain && s != LexNumber && pos <= |src|
      modifies this
      ensures Valid() && StateOk(next) && FailureKnown(next)
      ensures lexemes + Outstanding(next) == old(lexemes + Outstanding(s))
      ensures next != Done ==> old(pos) <= pos <= |src| && (pos > old(pos) || Rank(next) < Rank(s))
    {
      hide PosAt, SentAll, StepOf;
      ghost var step, sent := StepOf(s), lexemes;
      TokenProgress(s);
      next := RunToken(s);
      assert lexemes == sent + [Lexeme(step.kind, old(from), step.end)];
    }

    /** Lexing ends, whatever the source, and sends exactly the tokens of the source with
        their positions; an error is reported exactly when the last one is `Illegal`. */
    method Lex()
      requires Valid() && state == LexMain && StateOk(LexMain) && pos == 0 && lexemes == [] && !failed
      modifies this
      ensures lexemes == LexAll(u, src) && tokens == SentAll(src, LexAll(u, src))
      ensures lexemes != [] && (failed <==> lexemes[|lexemes| - 1].kind == Illegal)
    {
      while state != Done
        invariant Valid() && StateOk(state) && FailureKnown(state) && (state != Done ==> pos <= |src|)
        invariant lexemes + Outstanding(state) == LexAll(u, src)
        decreases if state == Done then 0 else |src| - pos + 1, Rank(state)
      {
        hide Valid, StateOk, Outstanding, FailureKnown;
        var next := RunState(state);
        state := next;
      }
    }

    /** A token that is being lexed ends behind what was eaten of it. */
    lemma TokenProgress(s: StateFn)
      requires Valid() && StateOk(s) && s != Done && s != LexMain && s != LexNumber
      ensures var step := StepOf(s);
              && step != Skip && pos <= step.end
              && (step.Emit? ==> step.end <= |src| && (s != LexDigit ==> pos < step.end))
    {
      hide NameStep, StringStep, DigitStep, BaseStep, RunEnd;
      match s
      case LexString => StringProgress(src, pos + 1);
      case LexIdent => NameProgress(u, src, pos);
      case LexDigit => DigitProgress(src, pos);
      case LexHex => BaseProgress(src, pos, IsHex);
      case LexBin => BaseProgress(src, pos, IsBin);
      case LexExclamation => CommentProgress(src, pos);
      case _ =>
    }
  }

  lemma MarksKnown(c: char, d: char)
    ensures IsMark(c) <==> !MarksOf(c, d).NoMark?
  {
  }
}
