/**
 * The tokens of a Dachs source, as a function of the source.
 *
 * Which token starts at a rune, where it ends, and how the lexer goes on behind it. A step never
 * leaves the source, except that an unclosed string may run over its end.
 */
module Scanning {

  datatype Kind =
    | Illegal | Comment | Newline | Semicolon | LParen | RParen | LBrace | RBrace | LBracket | RBracket
    | Ident | Bool | Int | Float | String
    | Minus | Plus | Star | Div | Not | Or | And | Percent | Equal | NotEqual | Assign
    | Less | LessEqual | Greater | GreaterEqual
    | End | If | Then | Else | Case | Match | Ret | Import | Dot | Type | Colon | For | In | FatRightArrow
    | ColonColon | Typeof | As | Func | Do | RightArrow | Comma | Break | Next | Ellipsis | SingleQuote
    | Var | Let | Switch | With | EOF

  const KEYWORDS: map<string, Kind> := map[
    "end" := End, "if" := If, "then" := Then, "else" := Else, "case" := Case, "match" := Match,
    "ret" := Ret, "import" := Import, "type" := Type, "for" := For, "in" := In, "typeof" := Typeof,
    "as" := As, "func" := Func, "do" := Do, "true" := Bool, "false" := Bool, "break" := Break,
    "next" := Next, "var" := Var, "let" := Let, "switch" := Switch, "with" := With]

  /** A name is a keyword or an identifier. */
  function NameKind(text: string): (k: Kind)
    ensures k !in {EOF, Illegal, SingleQuote, Comment}
  {
    if text in KEYWORDS then KEYWORDS[text] else Ident
  }

  /** Which runes outside ASCII are letters. */
  type Alphabet = char -> bool

  // ---------- runes ----------

  /** The look-ahead rune; the zero rune stands for the end of the source. */
  function At(src: seq<char>, i: nat): char { if i < |src| then src[i] else '\0' }

  predicate IsLetter(u: Alphabet, c: char) {
    'a' <= c <= 'z' || 'A' <= c <= 'Z' || c == '_' || (c as int >= 0x80 && u(c))
  }

  predicate IsDigit(c: char) { '0' <= c <= '9' }

  predicate IsHex(c: char) { '0' <= c <= '9' || 'a' <= c <= 'f' || 'A' <= c <= 'F' }

  predicate IsBin(c: char) { c == '0' || c == '1' }

  predicate IsIdentPart(u: Alphabet, c: char) { IsLetter(u, c) || IsDigit(c) }

  /** The Unicode property White_Space. */
  predicate IsSpace(c: char) {
    var n := c as int;
    || 0x09 <= n <= 0x0d || n == 0x20 || n == 0x85 || n == 0xa0
    || n == 0x1680 || 0x2000 <= n <= 0x200a || n == 0x2028 || n == 0x2029 || n == 0x202f || n == 0x205f || n == 0x3000
  }

  /** The end of the run of runes with property `p` that starts at `i`. */
  function RunEnd(src: seq<char>, i: nat, p: char -> bool): (j: nat)
    ensures i <= j && (i <= |src| ==> j <= |src|)
    ensures forall k :: i <= k < j ==> k < |src| && p(src[k])
    ensures j < |src| ==> !p(src[j])
    decreases |src| - i
  {
    if i < |src| && p(src[i]) then RunEnd(src, i + 1, p) else i
  }

  // ---------- one token ----------

  /** `Main` at most places; `Name` behind a single quote, where a name must follow at once. */
  datatype Mode = Main | Name

  datatype Step =
    | Skip                                       // one space that is no newline
    | Emit(kind: Kind, end: nat, then_: Mode)    // a token up to `end`
    | Stop(kind: Kind, end: nat)                 // the last token, `EOF` or `Illegal`

  function Token(kind: Kind, end: nat): Step { Emit(kind, end, Main) }

  function Fail(end: nat): Step { Stop(Illegal, end) }

  function NameStep(u: Alphabet, src: seq<char>, i: nat): Step {
    if !IsLetter(u, At(src, i)) then Fail(i)
    else
      var j := RunEnd(src, i, c => IsIdentPart(u, c));
      Token(if j <= |src| then NameKind(src[i..j]) else Ident, j)
  }

  /** Where a string ends whose opening quote is behind `j`.  An escape eats two runes, and
      the rune behind it is eaten as well, whatever it is, unless it closes the string. */
  function StringStep(src: seq<char>, j: nat): Step
    decreases |src| - j
  {
    if j >= |src| then Fail(j)
    else
      var k := if src[j] == '\\' then j + 2 else j;
      if At(src, k) == '"' then Token(String, k + 1) else StringStep(src, k + 1)
  }

  lemma StringUnfolds(src: seq<char>, j: nat)
    ensures StringStep(src, j) ==
            if j >= |src| then Fail(j)
            else
              var k := if src[j] == '\\' then j + 2 else j;
              if At(src, k) == '"' then Token(String, k + 1) else StringStep(src, k + 1)
  {
  }

  /** The exponent whose `e` is at `i`. */
  function ExponentStep(src: seq<char>, i: nat): Step {
    var d := if At(src, i + 1) == '+' || At(src, i + 1) == '-' then i + 2 else i + 1;
    if IsDigit(At(src, d)) then Token(Float, RunEnd(src, d, IsDigit)) else Fail(d)
  }

  /** A number from behind its digits on. */
  function NumberEndStep(src: seq<char>, i: nat, isFloat: bool): Step {
    if At(src, i) == 'e' || At(src, i) == 'E' then ExponentStep(src, i)
    else if isFloat then Token(Float, i)
    else Token(Int, if At(src, i) == 'u' then i + 1 else i)
  }

  predicate HasPoint(src: seq<char>, i: nat) { At(src, RunEnd(src, i, IsDigit)) == '.' }

  /** Where the digits that start at `i` end, those behind a point included. */
  function DigitsEnd(src: seq<char>, i: nat): (j: nat)
    ensures i <= j && (i <= |src| ==> j <= |src|)
  {
    var a := RunEnd(src, i, IsDigit);
    if HasPoint(src, i) then RunEnd(src, a + 1, IsDigit) else a
  }

  /** A number from behind its first digit on. */
  function DigitStep(src: seq<char>, i: nat): Step {
    NumberEndStep(src, DigitsEnd(src, i), HasPoint(src, i))
  }

  /** A number with a prefix, from behind the prefix on. */
  function BaseStep(src: seq<char>, i: nat, isBaseDigit: char -> bool): Step {
    if !isBaseDigit(At(src, i)) then Fail(i)
    else
      var j := RunEnd(src, i, isBaseDigit);
      Token(Int, if At(src, j) == 'u' then j + 1 else j)
  }

  function NumberStep(src: seq<char>, i: nat): Step {
    if At(src, i) != '0' then DigitStep(src, i + 1)
    else if At(src, i + 1) == 'x' then BaseStep(src, i + 2, IsHex)
    else if At(src, i + 1) == 'b' then BaseStep(src, i + 2, IsBin)
    else DigitStep(src, i + 1)
  }

  /** A token made of one or two marks, or the beginning of one that is none. */
  datatype Marks = NoMark | Mark(kind: Kind, len: nat) | Broken(len: nat)

  function Choice(second: bool, long: Kind, short: Kind): Marks { if second then Mark(long, 2) else Mark(short, 1) }

  /** The token that starts with `c`, when `d` is the rune behind. */
  function MarksOf(c: char, d: char): Marks {
    match c
    case '\n' => Mark(Newline, 1)
    case ';' => Mark(Semicolon, 1)
    case '(' => Mark(LParen, 1)
    case ')' => Mark(RParen, 1)
    case '{' => Mark(LBrace, 1)
    case '}' => Mark(RBrace, 1)
    case '[' => Mark(LBracket, 1)
    case ']' => Mark(RBracket, 1)
    case '\'' => Mark(SingleQuote, 1)
    case '-' => Choice(d == '>', RightArrow, Minus)
    case '+' => Mark(Plus, 1)
    case '*' => Mark(Star, 1)
    case '/' => Mark(Div, 1)
    case '|' => if d == '|' then Mark(Or, 2) else Broken(1)
    case '&' => if d == '&' then Mark(And, 2) else Broken(1)
    case '%' => Mark(Percent, 1)
    case '<' => Choice(d == '=', LessEqual, Less)
    case '>' => Choice(d == '=', GreaterEqual, Greater)
    case ',' => Mark(Comma, 1)
    case _ => NoMark
  }

  predicate IsMark(c: char) { !MarksOf(c, ' ').NoMark? }

  predicate InComment(c: char) { c != '\n' }

  /** What starts with an exclamation mark. */
  function ExclamationStep(src: seq<char>, i: nat): Step {
    if At(src, i + 1) == '=' then Token(NotEqual, i + 2)
    else if At(src, i + 1) == '!' then Token(Comment, RunEnd(src, i + 1, InComment))
    else Token(Not, i + 1)
  }

  function EqualStep(src: seq<char>, i: nat): Step {
    if At(src, i + 1) == '=' then Token(Equal, i + 2)
    else if At(src, i + 1) == '>' then Token(FatRightArrow, i + 2)
    else Token(Assign, i + 1)
  }

  function ColonStep(src: seq<char>, i: nat): Step {
    if At(src, i + 1) == ':' then Token(ColonColon, i + 2) else Token(Colon, i + 1)
  }

  function DotStep(src: seq<char>, i: nat): Step {
    if At(src, i + 1) != '.' then Token(Dot, i + 1)
    else if At(src, i + 2) != '.' then Fail(i + 2)
    else Token(Ellipsis, i + 3)
  }

  function OtherStep(u: Alphabet, src: seq<char>, i: nat): Step {
    match MarksOf(At(src, i), At(src, i + 1))
    case Mark(kind, len) => Emit(kind, i + len, if kind == SingleQuote then Name else Main)
    case Broken(len) => Fail(i + len)
    case NoMark =>
      if IsSpace(At(src, i)) then Skip
      else if IsDigit(At(src, i)) then NumberStep(src, i)
      else NameStep(u, src, i)
  }

  function MainStep(u: Alphabet, src: seq<char>, i: nat): Step {
    if i >= |src| then Stop(EOF, i)
    else
      match src[i]
      case '!' => ExclamationStep(src, i)
      case '"' => StringStep(src, i + 1)
      case '=' => EqualStep(src, i)
      case ':' => ColonStep(src, i)
      case '.' => DotStep(src, i)
      case _ => OtherStep(u, src, i)
  }

  function StepAt(u: Alphabet, src: seq<char>, m: Mode, i: nat): Step {
    if m.Main? then MainStep(u, src, i) else NameStep(u, src, i)
  }

  // ---------- progress ----------

  /** A step behind `i` that either makes a token within the source or fails within it. */
  ghost predicate Progress(src: seq<char>, i: nat, s: Step) {
    match s
    case Skip => false
    case Emit(kind, end, then_) => i < end <= |src| && kind !in {EOF, Illegal, SingleQuote} && then_.Main?
    case Stop(kind, end) => kind == Illegal && i <= end <= |src|
  }

  lemma {:induction false} StringProgress(src: seq<char>, j: nat)
    requires j <= |src|
    ensures var s := StringStep(src, j);
            if s.Emit? then j < s.end <= |src| && s == Token(String, s.end)
            else s.Stop? && s.kind == Illegal && |src| <= s.end <= |src| + 2
    decreases |src| - j
  {
    if j < |src| {
      var k := if src[j] == '\\' then j + 2 else j;
      if At(src, k) != '"' && k + 1 <= |src| { StringProgress(src, k + 1); }
    }
  }

  lemma NameProgress(u: Alphabet, src: seq<char>, i: nat)
    requires i <= |src|
    ensures Progress(src, i, NameStep(u, src, i))
  {
  }

  /** The end of a number is behind its digits, and may be right there. */
  ghost predicate Tail(src: seq<char>, i: nat, s: Step) {
    match s
    case Skip => false
    case Emit(kind, end, then_) => i <= end <= |src| && kind in {Int, Float} && then_.Main?
    case Stop(kind, end) => kind == Illegal && i <= end <= |src|
  }

  lemma NumberEndProgress(src: seq<char>, i: nat, isFloat: bool)
    requires i <= |src|
    ensures Tail(src, i, NumberEndStep(src, i, isFloat))
  {
    hide RunEnd;
  }

  lemma DigitProgress(src: seq<char>, i: nat)
    requires i <= |src|
    ensures Tail(src, i, DigitStep(src, i))
  {
    hide RunEnd, NumberEndStep;
    NumberEndProgress(src, DigitsEnd(src, i), HasPoint(src, i));
  }

  lemma BaseProgress(src: seq<char>, i: nat, p: char -> bool)
    requires i <= |src| && !p('\0')
    ensures Tail(src, i, BaseStep(src, i, p))
    ensures BaseStep(src, i, p).Emit? ==> i < BaseStep(src, i, p).end
  {
  }

  lemma NumberProgress(src: seq<char>, i: nat)
    requires i < |src| && IsDigit(src[i])
    ensures Progress(src, i, NumberStep(src, i))
  {
    hide DigitStep, BaseStep;
    if At(src, i) != '0' { DigitProgress(src, i + 1); }
    else if At(src, i + 1) == 'x' { BaseProgress(src, i + 2, IsHex); }
    else if At(src, i + 1) == 'b' { BaseProgress(src, i + 2, IsBin); }
    else { DigitProgress(src, i + 1); }
  }

  lemma CommentProgress(src: seq<char>, i: nat)
    requires i < |src|
    ensures var s := ExclamationStep(src, i); s.Emit? && i < s.end <= |src|
  {
    hide RunEnd;
  }

  lemma MarksProgress(src: seq<char>, i: nat)
    requires i < |src|
    ensures match MarksOf(src[i], At(src, i + 1))
            case Mark(kind, len) => 0 < len <= 2 && i + len <= |src| && kind !in {EOF, Illegal, Comment}
            case Broken(len) => len == 1
            case NoMark => src[i] != '\n'
  {
  }

  /** Every token but the last takes at least one rune and stays within the source; only an
      unclosed string runs over the end, by at most two. */
  lemma StepProgress(u: Alphabet, src: seq<char>, m: Mode, i: nat)
    requires i <= |src|
    ensures match StepAt(u, src, m, i)
            case Skip => m.Main? && i < |src| && IsSpace(src[i]) && src[i] != '\n'
            case Emit(kind, end, then_) => i < end <= |src| && kind != EOF && kind != Illegal
                                           && (then_.Name? <==> kind == SingleQuote)
            case Stop(kind, end) =>
              && i <= end <= |src| + 2
              && (if kind == EOF then i == end == |src| else kind == Illegal)
              && (end > |src| ==> m.Main? && i < |src| && src[i] == '"')
  {
    hide NameStep, NumberStep, StringStep, MarksOf, IsSpace;
    NameProgress(u, src, i);
    if i < |src| { MarksProgress(src, i); }
    if i < |src| && src[i] == '"' { StringProgress(src, i + 1); }
    if i < |src| && IsDigit(src[i]) { NumberProgress(src, i); }
  }

  // ---------- all tokens ----------

  /** A token and the runes it spans. */
  datatype Lexeme = Lexeme(kind: Kind, lo: nat, hi: nat)

  function LexFrom(u: Alphabet, src: seq<char>, m: Mode, i: nat): (toks: seq<Lexeme>)
    requires i <= |src|
    decreases |src| - i
  {
    StepProgress(u, src, m, i);
    match StepAt(u, src, m, i)
    case Skip => LexFrom(u, src, Main, i + 1)
    case Emit(kind, end, then_) => [Lexeme(kind, i, end)] + LexFrom(u, src, then_, end)
    case Stop(kind, end) => [Lexeme(kind, i, end)]
  }

  function LexAll(u: Alphabet, src: seq<char>): seq<Lexeme> { LexFrom(u, src, Main, 0) }
}
