/** The lexer's goroutine hands its tokens over one by one through an unbuffered channel;
    the driver collects them and returns at the first `EOF` or `Illegal`. */
module TokenChannel {
  import opened Scanning
  import opened ScanningTheorems
  import opened Lexer

  predicate IsLast(k: Kind) { k == EOF || k == Illegal }

  /** What the lexer sends: only the last token is `EOF` or `Illegal`. */
  predicate WellEnded(toks: seq<Kind>) {
    toks != [] && forall k :: 0 <= k < |toks| ==> (IsLast(toks[k]) <==> k == |toks| - 1)
  }

  /** The lexer is about to deal with token `next`; for an illegal one it first calls the
      error callback.  `result` is set once the driver has returned. */
  datatype State = State(next: nat, reported: bool, exited: bool, err: bool,
                         collected: seq<Kind>, result: Result)

  datatype Result = Waiting | Returned(toks: seq<Kind>, err: bool)

  function Init(): State { State(0, false, false, false, [], Waiting) }

  /** The callback assigns the error that the driver will return. */
  predicate Report(toks: seq<Kind>, s: State, t: State) {
    s.next < |toks| && toks[s.next] == Illegal && !s.reported && t == s.(reported := true, err := true)
  }

  /** Both sides meet at the channel. */
  predicate HandOver(toks: seq<Kind>, s: State, t: State) {
    && s.next < |toks| && (toks[s.next] == Illegal ==> s.reported) && s.result.Waiting?
    && var got := s.collected + [toks[s.next]];
       t == s.(next := s.next + 1, reported := false, collected := got,
               result := if IsLast(toks[s.next]) then Returned(got, s.err) else Waiting)
  }

  predicate Exit(toks: seq<Kind>, s: State, t: State) {
    s.next == |toks| && !s.exited && t == s.(exited := true)
  }

  predicate Next(toks: seq<Kind>, s: State, t: State) {
    Report(toks, s, t) || HandOver(toks, s, t) || Exit(toks, s, t)
  }

  predicate Finished(s: State) { s.exited && s.result.Returned? }

  /** The collected list is what was sent so far; the driver has returned exactly when all
      was sent; the error is set exactly when an illegal token is due or was sent. */
  predicate Invariant(toks: seq<Kind>, s: State)
    requires toks != []
  {
    && s.next <= |toks| && s.collected == toks[..s.next]
    && (s.reported ==> s.next < |toks| && toks[s.next] == Illegal)
    && (s.exited ==> s.next == |toks|)
    && (s.err <==> s.reported || (s.next == |toks| && toks[|toks| - 1] == Illegal))
    && s.result == if s.next == |toks| then Returned(toks, s.err) else Waiting
  }

  lemma StepKeepsInvariant(toks: seq<Kind>, s: State, t: State)
    requires WellEnded(toks) && Invariant(toks, s) && Next(toks, s, t)
    ensures Invariant(toks, t)
  {
    if HandOver(toks, s, t) {
      assert toks[..s.next + 1] == toks[..s.next] + [toks[s.next]];
      assert t.next == |toks| ==> toks[..t.next] == toks;
    }
  }

  /** How many steps are left at most. */
  function StepsLeft(toks: seq<Kind>, s: State): int {
    2 * (|toks| - s.next) + (if s.reported then 0 else 1) + (if s.exited then 0 else 1)
  }

  ghost predicate IsRun(toks: seq<Kind>, run: seq<State>) {
    && run != [] && run[0] == Init()
    && forall i :: 0 <= i < |run| - 1 ==> Next(toks, run[i], run[i + 1])
  }

  lemma {:induction false} RunInvariant(toks: seq<Kind>, run: seq<State>, i: nat)
    requires WellEnded(toks) && IsRun(toks, run) && i < |run|
    ensures Invariant(toks, run[i]) && StepsLeft(toks, run[i]) + i <= 2 * |toks| + 2
    decreases i
  {
    if i > 0 {
      RunInvariant(toks, run, i - 1);
      assert Next(toks, run[i - 1], run[i - 1 + 1]);
      StepKeepsInvariant(toks, run[i - 1], run[i]);
    }
  }

  /** In every interleaving: what the driver holds is a beginning of what the lexer sends,
      the run is finite, somebody can go on unless both are finished, and then the driver
      has returned all tokens, with an error exactly when the last one is illegal. */
  lemma HandshakeIsSafeAndLive(toks: seq<Kind>, run: seq<State>)
    requires WellEnded(toks) && IsRun(toks, run)
    ensures var s := run[|run| - 1];
            && s.collected <= toks
            && |run| <= 2 * |toks| + 3
            && (Finished(s) || exists t :: Next(toks, s, t))
            && (Finished(s) ==> s.result == Returned(toks, toks[|toks| - 1] == Illegal))
  {
    var s := run[|run| - 1];
    RunInvariant(toks, run, |run| - 1);
    if !Finished(s) {
      if s.next == |toks| {
        assert Next(toks, s, s.(exited := true));
      } else if toks[s.next] == Illegal && !s.reported {
        assert Next(toks, s, s.(reported := true, err := true));
      } else {
        var got := s.collected + [toks[s.next]];
        var t := s.(next := s.next + 1, reported := false, collected := got,
                    result := if IsLast(toks[s.next]) then Returned(got, s.err) else Waiting);
        assert Next(toks, s, t);
      }
    }
  }

  // ---------- with the tokens of a source ----------

  function KindsOf(ts: seq<Lexeme>): seq<Kind> { seq(|ts|, i requires 0 <= i < |ts| => ts[i].kind) }

  lemma {:induction false} TilesEndWell(src: seq<char>, m: Mode, i: nat, ts: seq<Lexeme>)
    requires Tiles(src, m, i, ts)
    ensures WellEnded(KindsOf(ts))
    decreases ts
  {
    if |ts| > 1 {
      TilesEndWell(src, if ts[0].kind == SingleQuote then Name else Main, ts[0].hi, ts[1..]);
      assert KindsOf(ts) == [ts[0].kind] + KindsOf(ts[1..]);
    }
  }

  /** What a source is lexed into is fit for the channel: finitely many ordinary tokens and
      then exactly one `EOF` or exactly one `Illegal`. */
  lemma LexingEndsWell(u: Alphabet, src: seq<char>)
    ensures WellEnded(KindsOf(LexAll(u, src)))
  {
    LexTiles(u, src, Main, 0);
    TilesEndWell(src, Main, 0, LexAll(u, src));
  }

  lemma {:induction false} SentAllAt(src: seq<char>, ts: seq<Lexeme>, k: nat)
    requires k < |ts|
    ensures SentAll(src, ts)[k] == Sent(src, ts[k])
    decreases ts
  {
    if k < |ts| - 1 { SentAllAt(src, ts[..|ts| - 1], k); }
  }

  /** The driver: it loops over what arrives and returns at the first last token, with what
      the callback assigned. */
  method DriverLex(u: Alphabet, src: seq<char>) returns (tok: seq<SentToken>, err: bool)
    ensures tok == SentAll(src, LexAll(u, src))
    ensures tok != [] && (err <==> tok[|tok| - 1].kind == Illegal)
  {
    var l := new Machine(u, src);
    l.Lex();
    ghost var ts := LexAll(u, src);
    LexingEndsWell(u, src);
    SentAllAt(src, ts, |ts| - 1);
    tok, err := [], false;
    var n := 0;
    while true
      invariant l.tokens == SentAll(src, ts) && n < |ts| && tok == l.tokens[..n] && !err
      invariant l.failed <==> ts[|ts| - 1].kind == Illegal
      decreases |ts| - n
    {
      var t := l.tokens[n];
      SentAllAt(src, ts, n);
      assert KindsOf(ts)[n] == t.kind;
      if t.kind == Illegal { err := l.failed; }
      tok, n := tok + [t], n + 1;
      if t.kind == EOF || t.kind == Illegal { return; }
    }
  }

  /** Every token is sent with the positions of its first rune and of the rune behind it. */
  lemma SentPositions(u: Alphabet, src: seq<char>, k: nat)
    requires k < |LexAll(u, src)|
    ensures var t, s := LexAll(u, src)[k], SentAll(src, LexAll(u, src))[k];
            && s.kind == t.kind && t.lo <= |src|
            && s.start == Pos(Bytes(src[..t.lo]), 1 + Newlines(src[..t.lo]), 1 + Bytes(LastLine(src[..t.lo])))
            && (t.hi <= |src| ==>
                  s.end == Pos(Bytes(src[..t.hi]), 1 + Newlines(src[..t.hi]), 1 + Bytes(LastLine(src[..t.hi]))))
            && (t.hi > |src| ==> t.kind == Illegal && k == |LexAll(u, src)| - 1 && t.hi <= |src| + 2)
  {
    var ts := LexAll(u, src);
    LexTiles(u, src, Main, 0);
    TilesBounds(src, Main, 0, ts, k);
    SentAllAt(src, ts, k);
    PositionMeaning(src, ts[k].lo);
    if ts[k].hi <= |src| { PositionMeaning(src, ts[k].hi); }
  }

  lemma {:induction false} TilesBounds(src: seq<char>, m: Mode, i: nat, ts: seq<Lexeme>, k: nat)
    requires Tiles(src, m, i, ts) && k < |ts|
    ensures ts[k].lo <= |src| && ts[k].hi <= |src| + 2
    ensures ts[k].hi > |src| ==> k == |ts| - 1 && ts[k].kind == Illegal
    decreases ts
  {
    if k > 0 {
      TilesBounds(src, if ts[0].kind == SingleQuote then Name else Main, ts[0].hi, ts[1..], k - 1);
    }
  }
}
