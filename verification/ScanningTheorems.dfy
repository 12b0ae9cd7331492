/** What the tokens of a source are worth: they cover it, their positions are right, and
    their texts alone determine them. */
module ScanningTheorems {
  import opened Scanning

  // ---------- tokens cover the source ----------

  ghost predicate IsGap(src: seq<char>, i: nat, j: nat) {
    i <= j <= |src| && forall k :: i <= k < j ==> IsSpace(src[k]) && src[k] != '\n'
  }

  /** From `i` on there is nothing but tokens and, between them, spaces that are no newlines;
      only the last token is `EOF` or `Illegal`, and no space follows a single quote. */
  ghost predicate Tiles(src: seq<char>, m: Mode, i: nat, toks: seq<Lexeme>)
    decreases toks
  {
    && toks != []
    && IsGap(src, i, toks[0].lo) && (m.Name? ==> toks[0].lo == i)
    && (if |toks| == 1 then
          && toks[0].lo <= toks[0].hi <= |src| + 2
          && (toks[0].kind == Illegal || (toks[0].kind == EOF && toks[0].lo == toks[0].hi == |src|))
          && (toks[0].hi > |src| ==> toks[0].lo < |src| && src[toks[0].lo] == '"')
        else
          && toks[0].lo < toks[0].hi <= |src| && toks[0].kind != EOF && toks[0].kind != Illegal
          && Tiles(src, if toks[0].kind == SingleQuote then Name else Main, toks[0].hi, toks[1..]))
  }

  lemma LexUnfolds(u: Alphabet, src: seq<char>, m: Mode, i: nat)
    requires i <= |src|
    ensures match StepAt(u, src, m, i)
            case Skip => i < |src| && LexFrom(u, src, m, i) == LexFrom(u, src, Main, i + 1)
            case Emit(kind, end, then_) =>
              i < end <= |src| && LexFrom(u, src, m, i) == [Lexeme(kind, i, end)] + LexFrom(u, src, then_, end)
            case Stop(kind, end) => LexFrom(u, src, m, i) == [Lexeme(kind, i, end)]
  {
    StepProgress(u, src, m, i);
  }

  lemma {:induction false} LexTiles(u: Alphabet, src: seq<char>, m: Mode, i: nat)
    requires i <= |src|
    ensures Tiles(src, m, i, LexFrom(u, src, m, i))
    decreases |src| - i
  {
    hide StepAt, LexFrom;
    StepProgress(u, src, m, i);
    LexUnfolds(u, src, m, i);
    match StepAt(u, src, m, i)
    case Skip => LexTiles(u, src, Main, i + 1);
    case Emit(kind, end, then_) => LexTiles(u, src, then_, end);
    case Stop(_, _) =>
  }

  function Text(src: seq<char>, t: Lexeme): seq<char> {
    if t.lo <= t.hi <= |src| then src[t.lo..t.hi] else []
  }

  /** The spaces in front of each token, and its text. */
  function Rebuilt(src: seq<char>, i: nat, toks: seq<Lexeme>): seq<char>
    decreases toks
  {
    if toks == [] then []
    else (if i <= toks[0].lo <= |src| then src[i..toks[0].lo] else [])
         + Text(src, toks[0]) + Rebuilt(src, toks[0].hi, toks[1..])
  }

  predicate EndsWell(toks: seq<Lexeme>) { toks != [] && toks[|toks| - 1].kind == EOF }

  lemma {:induction false} TilesRebuild(src: seq<char>, m: Mode, i: nat, toks: seq<Lexeme>)
    requires i <= |src| && Tiles(src, m, i, toks) && EndsWell(toks)
    ensures Rebuilt(src, i, toks) == src[i..]
    decreases toks
  {
    hide IsSpace;
    var t := toks[0];
    assert i <= t.lo <= t.hi <= |src| by { assert IsGap(src, i, t.lo); }
    JoinSlices(src, i, t.lo, t.hi);
    if |toks| == 1 {
      assert Rebuilt(src, t.hi, toks[1..]) == [];
      assert src[t.hi..] == [];
    } else {
      assert EndsWell(toks[1..]) by { assert toks[1..][|toks| - 2] == toks[|toks| - 1]; }
      TilesRebuild(src, if t.kind == SingleQuote then Name else Main, t.hi, toks[1..]);
    }
  }

  lemma JoinSlices(src: seq<char>, i: nat, j: nat, k: nat)
    requires i <= j <= k <= |src|
    ensures src[i..j] + src[j..k] + src[k..] == src[i..]
  {
  }

  /** A successful run loses nothing: tokens and skipped spaces rebuild the source. */
  lemma LexingRebuildsSource(u: Alphabet, src: seq<char>)
    requires EndsWell(LexAll(u, src))
    ensures Rebuilt(src, 0, LexAll(u, src)) == src
  {
    LexTiles(u, src, Main, 0);
    TilesRebuild(src, Main, 0, LexAll(u, src));
  }

  // ---------- positions ----------

  /** Length of a rune in UTF-8, section 3 of RFC 3629. */
  function RuneLen(c: char): nat {
    var n := c as int;
    if n <= 0x7f then 1 else if n <= 0x7ff then 2 else if n <= 0xffff then 3 else 4
  }

  function Power(n: nat): nat { if n == 0 then 1 else 2 * Power(n - 1) }

  /** It is the least number of bytes with room for the code point: one byte has 7 bits for it, and
      of several bytes the first has 7 less one for each, and each other one 6. */
  lemma RuneLenIsLeast(c: char, n: nat)
    requires 1 <= n <= 4
    ensures RuneLen(c) <= 4
    ensures RuneLen(c) <= n <==> (n == 4 || (c as int) < Power(if n == 1 then 7 else (7 - n) + 6 * (n - 1)))
  {
    assert Power(7) == 128 && Power(11) == 2048 && Power(16) == 65536 by {
      assert Power(4) == 16 && Power(8) == 256 && Power(12) == 4096;
    }
  }

  datatype Pos = Pos(offset: nat, line: nat, column: nat)

  function Advance(p: Pos, c: char): Pos {
    if c == '\n' then Pos(p.offset + RuneLen(c), p.line + 1, 1)
    else Pos(p.offset + RuneLen(c), p.line, p.column + RuneLen(c))
  }

  /** The position after `i` runes, the zero rune being eaten behind the end. */
  function PosAt(src: seq<char>, i: nat): Pos {
    if i == 0 then Pos(0, 1, 1) else Advance(PosAt(src, i - 1), At(src, i - 1))
  }

  function Bytes(s: seq<char>): nat { if s == [] then 0 else RuneLen(s[0]) + Bytes(s[1..]) }

  function Newlines(s: seq<char>): nat {
    if s == [] then 0 else (if s[0] == '\n' then 1 else 0) + Newlines(s[1..])
  }

  /** What follows the last newline. */
  function LastLine(s: seq<char>): seq<char> { if '\n' !in s then s else LastLine(s[1..]) }

  lemma {:induction false} MeasuresAppend(s: seq<char>, c: char)
    ensures Bytes(s + [c]) == Bytes(s) + RuneLen(c)
    ensures Newlines(s + [c]) == Newlines(s) + if c == '\n' then 1 else 0
    ensures LastLine(s + [c]) == if c == '\n' then [] else LastLine(s) + [c]
    decreases s
  {
    if s == [] {
      assert s + [c] == [c];
    } else {
      MeasuresAppend(s[1..], c);
      assert (s + [c])[1..] == s[1..] + [c];
      assert '\n' in s[1..] ==> '\n' in s;
      assert c == '\n' ==> (s + [c])[|s|] == '\n';
      if c != '\n' && '\n' in s {
        assert '\n' in s + [c];
      } else if c == '\n' {
        assert '\n' in s + [c];
      }
    }
  }

  /** A position within the source is the bytes before it, the newlines before it plus one,
      and the bytes since the last newline plus one. */
  lemma {:induction false} PositionMeaning(src: seq<char>, i: nat)
    requires i <= |src|
    ensures PosAt(src, i) == Pos(Bytes(src[..i]), 1 + Newlines(src[..i]), 1 + Bytes(LastLine(src[..i])))
    decreases i
  {
    if i > 0 {
      PositionMeaning(src, i - 1);
      MeasuresAppend(src[..i - 1], src[i - 1]);
      assert src[..i] == src[..i - 1] + [src[i - 1]];
      if src[i - 1] != '\n' { MeasuresAppend(LastLine(src[..i - 1]), src[i - 1]); }
    }
  }

  /** Behind the end, offset and column run ahead together. */
  lemma {:induction false} PositionOverrun(src: seq<char>, extra: nat)
    ensures var p, e := PosAt(src, |src| + extra), PosAt(src, |src|);
            p == Pos(e.offset + extra, e.line, e.column + extra)
    decreases extra
  {
    if extra > 0 { PositionOverrun(src, extra - 1); }
  }

  // ---------- lexing the texts again ----------

  /** `dst` repeats the runes `lo` up to `hi` of `src` from `at` on, and then has a space. */
  ghost predicate Repeats(src: seq<char>, lo: nat, hi: nat, dst: seq<char>, at: nat) {
    && lo <= hi <= |src| && at + (hi - lo) < |dst| && dst[at + (hi - lo)] == ' '
    && forall k :: lo <= k < hi ==> dst[at + (k - lo)] == src[k]
  }

  lemma {:induction false} RunRepeats(src: seq<char>, lo: nat, hi: nat, dst: seq<char>, at: nat, i: nat,
                                      p: char -> bool)
    requires Repeats(src, lo, hi, dst, at) && lo <= i && RunEnd(src, i, p) <= hi && !p(' ')
    ensures RunEnd(dst, at + (i - lo), p) == at + (RunEnd(src, i, p) - lo)
    decreases hi - i
  {
    var j := at + (i - lo);
    if i < hi {
      assert dst[j] == src[i];
      if p(src[i]) { RunRepeats(src, lo, hi, dst, at, i + 1, p); }
    }
  }

  lemma NameRepeats(u: Alphabet, src: seq<char>, i: nat, dst: seq<char>, at: nat)
    requires i < |src|
    requires var s := NameStep(u, src, i); s.Emit? && Repeats(src, i, s.end, dst, at)
    ensures var s := NameStep(u, src, i); NameStep(u, dst, at) == Token(s.kind, at + (s.end - i))
  {
    var s := NameStep(u, src, i);
    NameProgress(u, src, i);
    RunRepeats(src, i, s.end, dst, at, i, c => IsIdentPart(u, c));
    assert dst[at..at + (s.end - i)] == src[i..s.end];
    assert dst[at] == src[i];
  }

  lemma {:induction false} StringRepeats(src: seq<char>, lo: nat, j: nat, dst: seq<char>, at: nat)
    requires lo <= j <= |src|
    requires var s := StringStep(src, j); s.Emit? && Repeats(src, lo, s.end, dst, at)
    ensures var s := StringStep(src, j);
            StringStep(dst, at + (j - lo)) == Token(String, at + (s.end - lo))
    decreases |src| - j
  {
    var s := StringStep(src, j);
    StringProgress(src, j);
    assert dst[at + (j - lo)] == src[j];
    var k := if src[j] == '\\' then j + 2 else j;
    if At(src, k) == '"' {
      assert dst[at + (k - lo)] == src[k];
    } else {
      StringProgress(src, k + 1);
      assert dst[at + (k - lo)] == src[k];
      StringRepeats(src, lo, k + 1, dst, at);
    }
  }

  lemma BaseRepeats(src: seq<char>, lo: nat, i: nat, dst: seq<char>, at: nat, p: char -> bool)
    requires lo <= i < |src| && !p(' ')
    requires var s := BaseStep(src, i, p); s.Emit? && Repeats(src, lo, s.end, dst, at)
    ensures var s := BaseStep(src, i, p);
            s.kind == Int && BaseStep(dst, at + (i - lo), p) == Token(Int, at + (s.end - lo))
  {
    var s := BaseStep(src, i, p);
    RunRepeats(src, lo, s.end, dst, at, i, p);
    var j := RunEnd(src, i, p);
    assert dst[at + (i - lo)] == src[i];
    assert j < s.end ==> dst[at + (j - lo)] == src[j];
  }

  /** The look-ahead in the repetition: the same rune inside the token, a space behind it. */
  lemma LookAhead(src: seq<char>, lo: nat, hi: nat, dst: seq<char>, at: nat, k: nat)
    requires Repeats(src, lo, hi, dst, at) && lo <= k <= hi
    ensures At(dst, at + (k - lo)) == if k < hi then src[k] else ' '
  {
  }

  lemma NumberEndRepeats(src: seq<char>, lo: nat, i: nat, isFloat: bool, dst: seq<char>, at: nat)
    requires lo <= i <= |src|
    requires var s := NumberEndStep(src, i, isFloat); s.Emit? && Repeats(src, lo, s.end, dst, at)
    ensures var s := NumberEndStep(src, i, isFloat);
            NumberEndStep(dst, at + (i - lo), isFloat) == Token(s.kind, at + (s.end - lo))
  {
    var s := NumberEndStep(src, i, isFloat);
    LookAhead(src, lo, s.end, dst, at, i);
    if At(src, i) == 'e' || At(src, i) == 'E' {
      LookAhead(src, lo, s.end, dst, at, i + 1);
      var d := if At(src, i + 1) == '+' || At(src, i + 1) == '-' then i + 2 else i + 1;
      LookAhead(src, lo, s.end, dst, at, d);
      RunRepeats(src, lo, s.end, dst, at, d, IsDigit);
    }
  }

  lemma NumberEndBehind(src: seq<char>, i: nat, isFloat: bool)
    ensures var s := NumberEndStep(src, i, isFloat); s.Emit? ==> i <= s.end
  {
  }

  lemma DigitsEndRepeats(src: seq<char>, lo: nat, hi: nat, i: nat, dst: seq<char>, at: nat)
    requires lo <= i && DigitsEnd(src, i) <= hi && Repeats(src, lo, hi, dst, at)
    ensures DigitsEnd(dst, at + (i - lo)) == at + (DigitsEnd(src, i) - lo)
    ensures HasPoint(dst, at + (i - lo)) == HasPoint(src, i)
  {
    hide RunEnd;
    var a := RunEnd(src, i, IsDigit);
    RunRepeats(src, lo, hi, dst, at, i, IsDigit);
    LookAhead(src, lo, hi, dst, at, a);
    if HasPoint(src, i) { RunRepeats(src, lo, hi, dst, at, a + 1, IsDigit); }
  }

  lemma DigitRepeats(src: seq<char>, lo: nat, i: nat, dst: seq<char>, at: nat)
    requires lo <= i <= |src|
    requires var s := DigitStep(src, i); s.Emit? && Repeats(src, lo, s.end, dst, at)
    ensures var s := DigitStep(src, i);
            DigitStep(dst, at + (i - lo)) == Token(s.kind, at + (s.end - lo))
  {
    hide NumberEndStep, Repeats, DigitsEnd, HasPoint;
    NumberEndBehind(src, DigitsEnd(src, i), HasPoint(src, i));
    DigitsEndRepeats(src, lo, DigitStep(src, i).end, i, dst, at);
    NumberEndRepeats(src, lo, DigitsEnd(src, i), HasPoint(src, i), dst, at);
  }

  lemma NumberRepeats(src: seq<char>, i: nat, dst: seq<char>, at: nat)
    requires i < |src| && IsDigit(src[i])
    requires var s := NumberStep(src, i); s.Emit? && Repeats(src, i, s.end, dst, at)
    ensures var s := NumberStep(src, i); NumberStep(dst, at) == Token(s.kind, at + (s.end - i))
  {
    hide DigitStep, BaseStep;
    var s := NumberStep(src, i);
    NumberProgress(src, i);
    LookAhead(src, i, s.end, dst, at, i);
    LookAhead(src, i, s.end, dst, at, i + 1);
    if src[i] == '0' && At(src, i + 1) == 'x' {
      NotShort(src, i, s);
      BaseRepeats(src, i, i + 2, dst, at, IsHex);
    } else if src[i] == '0' && At(src, i + 1) == 'b' {
      NotShort(src, i, s);
      BaseRepeats(src, i, i + 2, dst, at, IsBin);
    } else {
      DigitRepeats(src, i, i + 1, dst, at);
    }
  }

  lemma NotShort(src: seq<char>, i: nat, s: Step)
    requires i < |src| && s.Emit?
    requires s == BaseStep(src, i + 2, IsHex) || s == BaseStep(src, i + 2, IsBin)
    ensures i + 2 < |src| && i + 2 < s.end
  {
  }

  /** A space is as good as any rune that does not belong to the marks. */
  lemma MarksBeforeSpace(c: char, d: char)
    requires MarksOf(c, d).Mark?
    ensures var m := MarksOf(c, d); m.len <= 2 && MarksOf(c, if m.len > 1 then d else ' ') == m
  {
  }

  lemma MarksAreNoText(c: char, d: char, d': char)
    ensures MarksOf(c, d).NoMark? ==> MarksOf(c, d').NoMark?
    ensures IsDigit(c) || c == '"' ==> MarksOf(c, d).NoMark?
  {
  }

  lemma OtherRepeats(u: Alphabet, src: seq<char>, i: nat, dst: seq<char>, at: nat)
    requires i < |src|
    requires var s := OtherStep(u, src, i); s.Emit? && s.kind != SingleQuote && Repeats(src, i, s.end, dst, at)
    ensures var s := OtherStep(u, src, i); OtherStep(u, dst, at) == Token(s.kind, at + (s.end - i))
  {
    hide NameStep, NumberStep, MarksOf, IsSpace;
    var s := OtherStep(u, src, i);
    var c, d := src[i], At(src, i + 1);
    MarksProgress(src, i);
    NameProgress(u, src, i);
    if IsDigit(c) { NumberProgress(src, i); }
    LookAhead(src, i, s.end, dst, at, i);
    LookAhead(src, i, s.end, dst, at, i + 1);
    MarksAreNoText(c, d, At(dst, at + 1));
    if MarksOf(c, d).Mark? {
      MarksBeforeSpace(c, d);
    } else if IsDigit(c) {
      NumberRepeats(src, i, dst, at);
    } else {
      NameRepeats(u, src, i, dst, at);
    }
  }

  /** What a token is depends on its own runes only, as long as a space follows. */
  lemma StepRepeats(u: Alphabet, src: seq<char>, i: nat, dst: seq<char>, at: nat)
    requires i <= |src|
    requires var s := MainStep(u, src, i);
             s.Emit? && s.kind != Comment && s.kind != SingleQuote && Repeats(src, i, s.end, dst, at)
    ensures var s := MainStep(u, src, i); MainStep(u, dst, at) == Token(s.kind, at + (s.end - i))
  {
    hide StringStep, OtherStep, DotStep, ExclamationStep, EqualStep, ColonStep, Repeats;
    var s := MainStep(u, src, i);
    StepProgress(u, src, Main, i);
    LookAhead(src, i, s.end, dst, at, i);
    RepeatsInside(src, i, s.end, dst, at);
    match src[i]
    case '!' => ExclamationRepeats(src, i, dst, at);
    case '=' => EqualRepeats(src, i, dst, at);
    case ':' => EqualRepeats(src, i, dst, at);
    case '"' =>
      StringProgress(src, i + 1);
      StringRepeats(src, i, i + 1, dst, at);
    case '.' => DotRepeats(src, i, dst, at);
    case _ =>
      OtherRepeats(u, src, i, dst, at);
  }

  lemma RepeatsInside(src: seq<char>, lo: nat, hi: nat, dst: seq<char>, at: nat)
    requires Repeats(src, lo, hi, dst, at)
    ensures lo <= hi <= |src| && at < |dst|
  {
  }

  lemma EqualRepeats(src: seq<char>, i: nat, dst: seq<char>, at: nat)
    ensures var s := EqualStep(src, i);
            Repeats(src, i, s.end, dst, at) ==> EqualStep(dst, at) == Token(s.kind, at + (s.end - i))
    ensures var s := ColonStep(src, i);
            Repeats(src, i, s.end, dst, at) ==> ColonStep(dst, at) == Token(s.kind, at + (s.end - i))
  {
    hide Repeats;
    if Repeats(src, i, EqualStep(src, i).end, dst, at) { LookAhead(src, i, EqualStep(src, i).end, dst, at, i + 1); }
    if Repeats(src, i, ColonStep(src, i).end, dst, at) { LookAhead(src, i, ColonStep(src, i).end, dst, at, i + 1); }
  }

  lemma ExclamationRepeats(src: seq<char>, i: nat, dst: seq<char>, at: nat)
    requires var s := ExclamationStep(src, i);
             s.Emit? && s.kind != Comment && i < s.end && Repeats(src, i, s.end, dst, at)
    ensures var s := ExclamationStep(src, i); ExclamationStep(dst, at) == Token(s.kind, at + (s.end - i))
  {
    hide RunEnd;
    LookAhead(src, i, ExclamationStep(src, i).end, dst, at, i + 1);
  }

  lemma DotRepeats(src: seq<char>, i: nat, dst: seq<char>, at: nat)
    requires var s := DotStep(src, i); s.Emit? && i < s.end && Repeats(src, i, s.end, dst, at)
    ensures var s := DotStep(src, i); DotStep(dst, at) == Token(s.kind, at + (s.end - i))
  {
    var s := DotStep(src, i);
    LookAhead(src, i, s.end, dst, at, i + 1);
    if i + 2 <= s.end { LookAhead(src, i, s.end, dst, at, i + 2); }
  }

  /** The texts of the tokens, each followed by a space: joined by single spaces, given that
      the text of the last token, `EOF`, is empty. */
  function Respaced(src: seq<char>, toks: seq<Lexeme>): seq<char> {
    if toks == [] || toks[0].kind == EOF then [] else Text(src, toks[0]) + [' '] + Respaced(src, toks[1..])
  }

  predicate Plain(toks: seq<Lexeme>) { forall t <- toks :: t.kind != Comment && t.kind != SingleQuote }

  /** Same kinds and same texts, in two sources. */
  ghost predicate SameTokens(src: seq<char>, a: seq<Lexeme>, dst: seq<char>, b: seq<Lexeme>) {
    |a| == |b| && forall k :: 0 <= k < |a| ==> a[k].kind == b[k].kind && Text(src, a[k]) == Text(dst, b[k])
  }

  lemma CopiedText(src: seq<char>, i: nat, end: nat, dst: seq<char>, at: nat, rest: seq<char>)
    requires i <= end <= |src| && at <= |dst| && dst[at..] == src[i..end] + [' '] + rest
    ensures var next := at + (end - i);
            && next < |dst| && Repeats(src, i, end, dst, at)
            && dst[at..next] == src[i..end] && dst[next + 1..] == rest
  {
    var next := at + (end - i);
    assert |dst| - at == (end - i) + 1 + |rest|;
    assert dst[next] == dst[at..][end - i] == ' ';
    forall k | i <= k < end ensures dst[at + (k - i)] == src[k] {
      assert dst[at..][k - i] == src[i..end][k - i];
    }
    assert dst[at..next] == dst[at..][..end - i];
    assert dst[next + 1..] == dst[at..][end - i + 1..];
  }

  lemma SameTokensCons(src: seq<char>, t: Lexeme, a: seq<Lexeme>, dst: seq<char>, t': Lexeme, b: seq<Lexeme>)
    requires SameTokens(src, a, dst, b) && t.kind == t'.kind && Text(src, t) == Text(dst, t')
    ensures SameTokens(src, [t] + a, dst, [t'] + b)
  {
  }

  /** One token and the space behind it. */
  lemma RelexToken(u: Alphabet, src: seq<char>, i: nat, dst: seq<char>, at: nat, rest: seq<char>)
    requires i <= |src| && at <= |dst|
    requires var s := StepAt(u, src, Main, i);
             s.Emit? && s.kind != Comment && s.kind != SingleQuote
             && i < s.end <= |src| && dst[at..] == src[i..s.end] + [' '] + rest
    ensures var s := StepAt(u, src, Main, i);
            var next := at + (s.end - i);
            && next < |dst| && dst[at..next] == src[i..s.end] && dst[next + 1..] == rest
            && LexFrom(u, dst, Main, at) == [Lexeme(s.kind, at, next)] + LexFrom(u, dst, Main, next + 1)
            && Text(src, Lexeme(s.kind, i, s.end)) == Text(dst, Lexeme(s.kind, at, next))
  {
    hide MainStep, LexFrom;
    var s := MainStep(u, src, i);
    CopiedText(src, i, s.end, dst, at, rest);
    StepRepeats(u, src, i, dst, at);
    SpaceIsSkipped(u, dst, at + (s.end - i));
    LexUnfolds(u, dst, Main, at);
    LexUnfolds(u, dst, Main, at + (s.end - i));
  }

  lemma {:induction false} RelexFrom(u: Alphabet, src: seq<char>, i: nat, dst: seq<char>, at: nat)
    requires i <= |src| && at <= |dst|
    requires var toks := LexFrom(u, src, Main, i);
             EndsWell(toks) && Plain(toks) && dst[at..] == Respaced(src, toks)
    ensures SameTokens(src, LexFrom(u, src, Main, i), dst, LexFrom(u, dst, Main, at))
    decreases |src| - i, 1
  {
    hide StepAt, LexFrom, SameTokens, EndsWell, Plain, Respaced;
    LexUnfolds(u, src, Main, i);
    match StepAt(u, src, Main, i)
    case Skip => RelexFrom(u, src, i + 1, dst, at);
    case Emit(_, _, _) => RelexNext(u, src, i, dst, at);
    case Stop(_, _) => RelexEnd(u, src, i, dst, at);
  }

  lemma {:induction false} RelexNext(u: Alphabet, src: seq<char>, i: nat, dst: seq<char>, at: nat)
    requires i <= |src| && at <= |dst| && StepAt(u, src, Main, i).Emit?
    requires var toks := LexFrom(u, src, Main, i);
             EndsWell(toks) && Plain(toks) && dst[at..] == Respaced(src, toks)
    ensures SameTokens(src, LexFrom(u, src, Main, i), dst, LexFrom(u, dst, Main, at))
    decreases |src| - i, 0
  {
    hide StepAt, LexFrom, SameTokens, EndsWell, Plain, Respaced, Text;
    LexUnfolds(u, src, Main, i);
    var s := StepAt(u, src, Main, i);
    assert s.kind != EOF by { StepProgress(u, src, Main, i); }
    var rest, next := LexFrom(u, src, s.then_, s.end), at + (s.end - i);
    var t, t' := Lexeme(s.kind, i, s.end), Lexeme(s.kind, at, next);
    TailOfTokens(src, t, rest);
    assert s.then_.Main? by { StepProgress(u, src, Main, i); }
    RelexToken(u, src, i, dst, at, Respaced(src, rest));
    RelexFrom(u, src, s.end, dst, next + 1);
    SameTokensCons(src, t, rest, dst, t', LexFrom(u, dst, Main, next + 1));
  }

  lemma TailOfTokens(src: seq<char>, t: Lexeme, rest: seq<Lexeme>)
    requires EndsWell([t] + rest) && t.kind != EOF && t.lo <= t.hi <= |src|
    ensures rest != [] && EndsWell(rest)
    ensures Plain([t] + rest) <==> t.kind != Comment && t.kind != SingleQuote && Plain(rest)
    ensures Respaced(src, [t] + rest) == src[t.lo..t.hi] + [' '] + Respaced(src, rest)
  {
    var toks := [t] + rest;
    assert toks[0] == t && toks[1..] == rest && t in toks;
    assert forall r <- rest :: r in toks;
  }

  lemma RelexEnd(u: Alphabet, src: seq<char>, i: nat, dst: seq<char>, at: nat)
    requires i <= |src| && at <= |dst|
    requires StepAt(u, src, Main, i).Stop? && EndsWell(LexFrom(u, src, Main, i))
    requires dst[at..] == Respaced(src, LexFrom(u, src, Main, i))
    ensures SameTokens(src, LexFrom(u, src, Main, i), dst, LexFrom(u, dst, Main, at))
  {
    hide MainStep, LexFrom, SameTokens;
    StepProgress(u, src, Main, i);
    LexUnfolds(u, src, Main, i);
    assert LexFrom(u, src, Main, i) == [Lexeme(EOF, i, i)];
    LexUnfolds(u, dst, Main, at);
    EndStops(u, dst);
    SameTokensCons(src, Lexeme(EOF, i, i), [], dst, Lexeme(EOF, at, at), []) by {
      NoTokensSame(src, dst);
    }
    assert [Lexeme(EOF, i, i)] + [] == LexFrom(u, src, Main, i);
    assert [Lexeme(EOF, at, at)] + [] == LexFrom(u, dst, Main, at);
  }

  lemma NoTokensSame(src: seq<char>, dst: seq<char>)
    ensures SameTokens(src, [], dst, [])
  {
  }

  lemma SpaceIsSkipped(u: Alphabet, src: seq<char>, i: nat)
    requires i < |src| && src[i] == ' '
    ensures StepAt(u, src, Main, i) == Skip
  {
  }

  lemma EndStops(u: Alphabet, src: seq<char>)
    ensures StepAt(u, src, Main, |src|) == Stop(EOF, |src|)
  {
  }

  // ---------- what cannot be read back ----------

  /** A comment swallows the space behind it. */
  lemma CommentGrows(u: Alphabet, src: seq<char>, i: nat, dst: seq<char>, at: nat, rest: seq<char>)
    requires i <= |src| && at <= |dst|
    requires var s := StepAt(u, src, Main, i);
             s.Emit? && s.kind == Comment && i < s.end <= |src| && dst[at..] == src[i..s.end] + [' '] + rest
    ensures var s, t := StepAt(u, src, Main, i), StepAt(u, dst, Main, at);
            t.Emit? && t.kind == Comment && t.then_.Main? && t.end > at + (s.end - i)
  {
    hide RunEnd;
    var s := StepAt(u, src, Main, i);
    CommentStarts(u, src, i);
    var end := at + (s.end - i);
    CopiedText(src, i, s.end, dst, at, rest);
    forall k | at + 1 <= k <= end ensures dst[k] != '\n' {
      if k < end { assert dst[k] == src[i + (k - at)]; }
    }
    RunGoesOn(dst, at + 1, end, InComment);
  }

  lemma RunGoesOn(src: seq<char>, i: nat, end: nat, p: char -> bool)
    requires i <= end < |src| && forall k :: i <= k <= end ==> p(src[k])
    ensures RunEnd(src, i, p) > end
  {
    hide RunEnd;
  }

  lemma CommentStarts(u: Alphabet, src: seq<char>, i: nat)
    requires i <= |src| && StepAt(u, src, Main, i).Emit? && StepAt(u, src, Main, i).kind == Comment
    ensures var s := StepAt(u, src, Main, i);
            && i + 1 < s.end <= |src| && src[i] == '!' && src[i + 1] == '!' && s.then_.Main?
            && forall k :: i + 1 <= k < s.end ==> src[k] != '\n'
  {
    hide RunEnd, NameStep, NumberStep, StringStep, MarksOf, IsSpace;
    NameProgress(u, src, i);
    MarksProgress(src, i);
    NameIsNoComment(u, src, i);
    NumberIsNoComment(src, i);
    if src[i] == '"' { StringProgress(src, i + 1); }
    if src[i] == '!' && At(src, i + 1) == '!' { RunStarts(src, i + 1, InComment); }
  }

  lemma NameIsNoComment(u: Alphabet, src: seq<char>, i: nat)
    ensures NameStep(u, src, i).Emit? ==> NameStep(u, src, i).kind != Comment
  {
  }

  lemma NumberIsNoComment(src: seq<char>, i: nat)
    ensures NumberStep(src, i).Emit? ==> NumberStep(src, i).kind != Comment
  {
    hide RunEnd;
  }

  lemma RunStarts(src: seq<char>, i: nat, p: char -> bool)
    requires i < |src| && p(src[i])
    ensures RunEnd(src, i, p) > i
  {
  }

  lemma {:induction false} NoRelexFrom(u: Alphabet, src: seq<char>, i: nat, dst: seq<char>, at: nat)
    requires i <= |src| && at <= |dst|
    requires var toks := LexFrom(u, src, Main, i);
             EndsWell(toks) && !Plain(toks) && dst[at..] == Respaced(src, toks)
    ensures !SameTokens(src, LexFrom(u, src, Main, i), dst, LexFrom(u, dst, Main, at))
    decreases |src| - i, 1
  {
    hide StepAt, LexFrom, SameTokens, EndsWell, Respaced;
    LexUnfolds(u, src, Main, i);
    match StepAt(u, src, Main, i)
    case Skip => NoRelexFrom(u, src, i + 1, dst, at);
    case Emit(kind, _, _) =>
      if kind == Comment {
        NoRelexComment(u, src, i, dst, at);
      } else if kind == SingleQuote {
        NoRelexQuote(u, src, i, dst, at);
      } else {
        NoRelexNext(u, src, i, dst, at);
      }
    case Stop(_, _) => LastIsPlain(u, src, i);
  }

  lemma LastIsPlain(u: Alphabet, src: seq<char>, i: nat)
    requires i <= |src| && StepAt(u, src, Main, i).Stop?
    ensures Plain(LexFrom(u, src, Main, i))
  {
    hide StepAt, LexFrom;
    StepProgress(u, src, Main, i);
    LexUnfolds(u, src, Main, i);
  }

  lemma {:induction false} NoRelexNext(u: Alphabet, src: seq<char>, i: nat, dst: seq<char>, at: nat)
    requires i <= |src| && at <= |dst|
    requires var s := StepAt(u, src, Main, i); s.Emit? && s.kind != Comment && s.kind != SingleQuote
    requires var toks := LexFrom(u, src, Main, i);
             EndsWell(toks) && !Plain(toks) && dst[at..] == Respaced(src, toks)
    ensures !SameTokens(src, LexFrom(u, src, Main, i), dst, LexFrom(u, dst, Main, at))
    decreases |src| - i, 0
  {
    hide StepAt, LexFrom, SameTokens, EndsWell, Plain, Respaced, Text;
    LexUnfolds(u, src, Main, i);
    var s := StepAt(u, src, Main, i);
    StepProgress(u, src, Main, i);
    var rest, next := LexFrom(u, src, Main, s.end), at + (s.end - i);
    var t, t' := Lexeme(s.kind, i, s.end), Lexeme(s.kind, at, next);
    TailOfTokens(src, t, rest);
    RelexToken(u, src, i, dst, at, Respaced(src, rest));
    NoRelexFrom(u, src, s.end, dst, next + 1);
    DifferentTail(src, t, rest, dst, t', LexFrom(u, dst, Main, next + 1));
  }

  lemma DifferentTail(src: seq<char>, t: Lexeme, a: seq<Lexeme>, dst: seq<char>, t': Lexeme, b: seq<Lexeme>)
    requires !SameTokens(src, a, dst, b)
    ensures !SameTokens(src, [t] + a, dst, [t'] + b)
  {
    if SameTokens(src, [t] + a, dst, [t'] + b) {
      forall k | 0 <= k < |a| ensures a[k].kind == b[k].kind && Text(src, a[k]) == Text(dst, b[k]) {
        assert ([t] + a)[k + 1] == a[k] && ([t'] + b)[k + 1] == b[k];
      }
    }
  }

  lemma NoRelexComment(u: Alphabet, src: seq<char>, i: nat, dst: seq<char>, at: nat)
    requires i <= |src| && at <= |dst|
    requires var s := StepAt(u, src, Main, i); s.Emit? && s.kind == Comment
    requires var toks := LexFrom(u, src, Main, i); EndsWell(toks) && dst[at..] == Respaced(src, toks)
    ensures !SameTokens(src, LexFrom(u, src, Main, i), dst, LexFrom(u, dst, Main, at))
  {
    hide StepAt, LexFrom, EndsWell, Plain, Respaced;
    LexUnfolds(u, src, Main, i);
    LexUnfolds(u, dst, Main, at);
    var s, t := StepAt(u, src, Main, i), StepAt(u, dst, Main, at);
    var rest := LexFrom(u, src, s.then_, s.end);
    TailOfTokens(src, Lexeme(Comment, i, s.end), rest);
    CommentGrows(u, src, i, dst, at, Respaced(src, rest));
    var a, b := LexFrom(u, src, Main, i), LexFrom(u, dst, Main, at);
    assert a[0] == Lexeme(Comment, i, s.end) && b[0] == Lexeme(Comment, at, t.end);
    assert |Text(src, a[0])| < |Text(dst, b[0])|;
  }

  lemma NoRelexQuote(u: Alphabet, src: seq<char>, i: nat, dst: seq<char>, at: nat)
    requires i <= |src| && at <= |dst|
    requires var s := StepAt(u, src, Main, i); s.Emit? && s.kind == SingleQuote
    requires var toks := LexFrom(u, src, Main, i); EndsWell(toks) && dst[at..] == Respaced(src, toks)
    ensures !SameTokens(src, LexFrom(u, src, Main, i), dst, LexFrom(u, dst, Main, at))
  {
    hide StepAt, LexFrom, EndsWell, Plain, Respaced, Text;
    LexUnfolds(u, src, Main, i);
    StepProgress(u, src, Main, i);
    var s := StepAt(u, src, Main, i);
    var rest := LexFrom(u, src, Name, s.end);
    TailOfTokens(src, Lexeme(SingleQuote, i, s.end), rest);
    QuoteStep(u, src, i);
    CopiedText(src, i, s.end, dst, at, Respaced(src, rest));
    QuoteBeforeSpace(u, dst, at);
    NameBehindQuote(u, src, s.end);
    var a, b := LexFrom(u, src, Main, i), LexFrom(u, dst, Main, at);
    assert a == [Lexeme(SingleQuote, i, s.end)] + rest;
    assert a[1] == rest[0];
  }

  lemma QuoteStep(u: Alphabet, src: seq<char>, i: nat)
    requires i <= |src| && StepAt(u, src, Main, i).Emit? && StepAt(u, src, Main, i).kind == SingleQuote
    ensures i < |src| && src[i] == '\'' && StepAt(u, src, Main, i).end == i + 1
  {
    hide RunEnd, NameStep, NumberStep, StringStep, IsSpace;
    NameProgress(u, src, i);
    if IsDigit(src[i]) { NumberProgress(src, i); }
    if src[i] == '"' { StringProgress(src, i + 1); }
  }

  /** Behind a single quote a name must follow at once. */
  lemma QuoteBeforeSpace(u: Alphabet, dst: seq<char>, at: nat)
    requires at + 1 < |dst| && dst[at] == '\'' && dst[at + 1] == ' '
    ensures LexFrom(u, dst, Main, at) == [Lexeme(SingleQuote, at, at + 1), Lexeme(Illegal, at + 1, at + 1)]
  {
    hide LexFrom;
    LexUnfolds(u, dst, Main, at);
    LexUnfolds(u, dst, Name, at + 1);
    assert StepAt(u, dst, Main, at) == Emit(SingleQuote, at + 1, Name);
    assert StepAt(u, dst, Name, at + 1) == Scanning.Fail(at + 1);
  }

  lemma NameBehindQuote(u: Alphabet, src: seq<char>, j: nat)
    requires j <= |src| && EndsWell(LexFrom(u, src, Name, j))
    ensures LexFrom(u, src, Name, j)[0].kind != Illegal
  {
    hide LexFrom, RunEnd;
    LexUnfolds(u, src, Name, j);
  }

  /** Round trip: the token texts joined by single spaces are read as the same tokens again,
      exactly when there are no comments and no single quotes among them. */
  lemma Relexing(u: Alphabet, src: seq<char>)
    requires EndsWell(LexAll(u, src))
    ensures var dst := Respaced(src, LexAll(u, src));
            SameTokens(src, LexAll(u, src), dst, LexAll(u, dst)) <==> Plain(LexAll(u, src))
  {
    hide EndsWell, Plain, Respaced, SameTokens, LexFrom;
    var dst := Respaced(src, LexAll(u, src));
    assert dst[0..] == dst;
    if Plain(LexAll(u, src)) { RelexFrom(u, src, 0, dst, 0); } else { NoRelexFrom(u, src, 0, dst, 0); }
  }

  // ---------- where a string ends ----------

  /** Where a string ends, or that it does not. */
  datatype StringEnd = ClosedAt(end: nat) | Unclosed

  function EndOf(s: Step): StringEnd { if s.Emit? then ClosedAt(s.end) else Unclosed }

  /** The usual reading: a backslash takes the next rune with it, and the first quote that is
      left ends the string. */
  function UsualEnd(src: seq<char>, j: nat): StringEnd
    decreases |src| - j
  {
    if j >= |src| then Unclosed
    else if src[j] == '"' then ClosedAt(j + 1)
    else UsualEnd(src, if src[j] == '\\' then j + 2 else j + 1)
  }

  /** The two readings come to an agreement.  `phase` counts, modulo 6, the backslashes since
      the readings were in step, and starts at 2 behind an escaped rune.  At a quote, phases 0
      and 2 end the string for both, phase 1 is an escaped quote for both, and in the other
      phases the quote ends it for one of them only. */
  predicate InStep(src: seq<char>, j: nat, phase: nat)
    decreases |src| - j
  {
    if j >= |src| then true
    else if src[j] == '\\' then InStep(src, j + 1, (phase + 1) % 6)
    else if src[j] == '"' then phase == 0 || phase == 2 || (phase == 1 && InStep(src, j + 1, 2))
    else InStep(src, j + 1, if phase == 1 || phase == 4 then 2 else 0)
  }

  /** How the lexer goes on from `j`: in phases 1 and 4 it eats the rune there as escaped, and
      then, as in phases 2 and 5, only a quote is looked at. */
  function LexedEnd(src: seq<char>, j: nat, phase: nat): StringEnd {
    if phase == 1 || phase == 4 then (if At(src, j + 1) == '"' then ClosedAt(j + 2) else EndOf(StringStep(src, j + 2)))
    else if phase == 2 || phase == 5 then (if At(src, j) == '"' then ClosedAt(j + 1) else EndOf(StringStep(src, j + 1)))
    else EndOf(StringStep(src, j))
  }

  /** How the usual reading goes on from `j`: in phases 1, 3 and 5 the rune there is escaped. */
  function ReadEnd(src: seq<char>, j: nat, phase: nat): StringEnd {
    UsualEnd(src, if phase % 2 == 1 then j + 1 else j)
  }

  lemma {:induction false} EndsBehind(src: seq<char>, j: nat)
    ensures UsualEnd(src, j).ClosedAt? ==> UsualEnd(src, j).end > j
    ensures EndOf(StringStep(src, j)).ClosedAt? ==> EndOf(StringStep(src, j)).end > j
    decreases |src| - j
  {
    if j < |src| {
      EndsBehind(src, j + 1);
      EndsBehind(src, j + 2);
      if j + 3 <= |src| { EndsBehind(src, j + 3); } else { StringUnfolds(src, j + 3); }
    }
  }

  lemma {:induction false} InStepExactly(src: seq<char>, j: nat, phase: nat)
    requires phase < 6
    ensures InStep(src, j, phase) <==> LexedEnd(src, j, phase) == ReadEnd(src, j, phase)
    decreases |src| - j
  {
    hide StringStep;
    StringUnfolds(src, j);
    if j >= |src| {
      StringUnfolds(src, j + 1);
      StringUnfolds(src, j + 2);
    } else {
      var next := if src[j] == '\\' then (phase + 1) % 6 else if phase == 1 || phase == 4 then 2 else 0;
      EndsBehind(src, j);
      EndsBehind(src, j + 1);
      EndsBehind(src, j + 2);
      InStepExactly(src, j + 1, next);
    }
  }

  /** The lexer ends a string where the usual reading does exactly when the readings stay in step. */
  lemma StringEndsAsUsualExactly(src: seq<char>, j: nat)
    ensures EndOf(StringStep(src, j)) == UsualEnd(src, j) <==> InStep(src, j, 0)
  {
    InStepExactly(src, j, 0);
  }

  /** Which they do if no escaped rune is directly followed by a backslash. */
  lemma EscapesApart(src: seq<char>, j: nat)
    requires forall i :: j <= i && i + 2 < |src| && src[i] == '\\' ==> src[i + 2] != '\\'
    ensures EndOf(StringStep(src, j)) == UsualEnd(src, j)
  {
    StaysInStep(src, j, j, 0);
    InStepExactly(src, j, 0);
  }

  lemma {:induction false} StaysInStep(src: seq<char>, from: nat, j: nat, phase: nat)
    requires from <= j && phase <= 2
    requires forall i :: from <= i && i + 2 < |src| && src[i] == '\\' ==> src[i + 2] != '\\'
    requires phase == 1 ==> from < j <= |src| && src[j - 1] == '\\'
    requires phase == 2 ==> from + 1 < j && (j <= |src| ==> src[j - 2] == '\\')
    ensures InStep(src, j, phase)
    decreases |src| - j
  {
    if j < |src| {
      if phase == 2 { assert src[(j - 2) + 2] != '\\'; }
      if src[j] == '"' && phase != 1 { return; }
      var next := if src[j] == '\\' then phase + 1 else if phase == 1 then 2 else 0;
      StaysInStep(src, from, j + 1, next);
    }
  }

  /** An escape directly followed by a backslash and a quote always parts them: to the lexer the
      quote ends the string. */
  lemma BackslashBehindEscape(src: seq<char>, j: nat)
    requires j + 3 < |src| && src[j] == '\\' && src[j + 2] == '\\' && src[j + 3] == '"'
    ensures StringStep(src, j) == Token(String, j + 4)
    ensures UsualEnd(src, j) != ClosedAt(j + 4)
  {
    StringUnfolds(src, j);
    StringUnfolds(src, j + 3);
    assert UsualEnd(src, j) == UsualEnd(src, j + 2) == UsualEnd(src, j + 4);
    EndsBehind(src, j + 4);
  }
}
