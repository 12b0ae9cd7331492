/** The missing-return check: which bodies always return, and how exact that is. */
module TerminationCheck {
  import opened Structured

  /** A loop counts only when its condition is literally `true`. */
  function Returns(s: Stmt): bool
    decreases s, 1, 0
  {
    match s
    case Return(_) => true
    case If(_, clauses, _) => ClausesReturn(s, 0)
    case Switch(_, whens, _) => WhensReturn(s, 0)
    case While(cond, body) => cond == Literal(true) && BlockReturns(body)
    case Nested(b) => BlockReturns(b)
    case Simple(_) => false
    case PostfixIf(_, _, _) => false
  }

  function BlockReturns(b: seq<Stmt>): bool
    decreases b, 0, 0
  {
    b != [] && (Returns(b[0]) || BlockReturns(b[1..]))
  }

  function ClausesReturn(s: Stmt, i: nat): bool
    requires s.If? && i <= |s.clauses|
    decreases s, 0, |s.clauses| - i
  {
    if i == |s.clauses| then s.ifElse.Else? && BlockReturns(s.ifElse.block)
    else BlockReturns(s.clauses[i].body) && ClausesReturn(s, i + 1)
  }

  function WhensReturn(s: Stmt, i: nat): bool
    requires s.Switch? && i <= |s.whens|
    decreases s, 0, |s.whens| - i
  {
    if i == |s.whens| then s.switchElse.Else? && BlockReturns(s.switchElse.block)
    else BlockReturns(s.whens[i].body) && WhensReturn(s, i + 1)
  }

  // ---------- the check as it runs ----------

  method CheckStmt(s: Stmt) returns (terminated: bool)
    ensures terminated == Returns(s)
    decreases s, 1
  {
    match s
    case Return(_) => terminated := true;
    case If(_, clauses, els) =>
      for i := 0 to |clauses|
        invariant ClausesReturn(s, 0) == ClausesReturn(s, i)
      {
        var t := CheckBlock(clauses[i].body);
        if !t { return false; }
      }
      if els.NoElse? { return false; }
      terminated := CheckBlock(els.block);
    case Switch(_, whens, els) =>
      for i := 0 to |whens|
        invariant WhensReturn(s, 0) == WhensReturn(s, i)
      {
        var t := CheckBlock(whens[i].body);
        if !t { return false; }
      }
      if els.NoElse? { return false; }
      terminated := CheckBlock(els.block);
    case While(cond, body) =>
      if !cond.Literal? || !cond.b { return false; }
      terminated := CheckBlock(body);
    case Nested(b) => terminated := CheckBlock(b);
    case Simple(_) => terminated := false;
    case PostfixIf(_, _, _) => terminated := false;
  }

  method CheckBlock(b: seq<Stmt>) returns (terminated: bool)
    ensures terminated == BlockReturns(b)
    decreases b, 0
  {
    for i := 0 to |b|
      invariant BlockReturns(b) == BlockReturns(b[i..])
    {
      var t := CheckStmt(b[i]);
      if t { return true; }
      assert b[i..][1..] == b[i + 1..];
    }
    terminated := false;
  }

  // ---------- which bodies can end without returning ----------

  /** Can a run of the statement end normally?  A condition that is no literal can go either
      way; a `when` is entered only by way of its tests. */
  predicate CanEnd(s: Stmt)
    decreases s, 1, 0
  {
    match s
    case Simple(_) => true
    case Return(_) => false
    case If(_, _, _) => ClausesCanEnd(s, 0)
    case Switch(_, _, _) => WhensCanEnd(s, 0)
    case While(cond, _) => cond != Literal(true)
    case PostfixIf(negated, guard, guarded) => !guard.Literal? || guard.b == negated || CanEnd(guarded)
    case Nested(b) => BlockCanEnd(b)
  }

  predicate BlockCanEnd(b: seq<Stmt>)
    decreases b, 0, 0
  {
    b == [] || (CanEnd(b[0]) && BlockCanEnd(b[1..]))
  }

  /** Can clause `i` be taken, and can it be passed over? */
  predicate Takes(s: Stmt, i: nat)
    requires s.If? && i < |s.clauses|
  {
    s.clauses[i].cond.Literal? ==> s.clauses[i].cond.b != Inverted(s, i)
  }

  predicate Passes(s: Stmt, i: nat)
    requires s.If? && i < |s.clauses|
  {
    s.clauses[i].cond.Literal? ==> s.clauses[i].cond.b == Inverted(s, i)
  }

  predicate ClausesCanEnd(s: Stmt, i: nat)
    requires s.If? && i <= |s.clauses|
    decreases s, 0, |s.clauses| - i
  {
    if i == |s.clauses| then s.ifElse.Else? ==> BlockCanEnd(s.ifElse.block)
    else (Takes(s, i) && BlockCanEnd(s.clauses[i].body)) || (Passes(s, i) && ClausesCanEnd(s, i + 1))
  }

  predicate WhensCanEnd(s: Stmt, i: nat)
    requires s.Switch? && i <= |s.whens|
    decreases s, 0, |s.whens| - i
  {
    if i == |s.whens| then s.switchElse.Else? ==> BlockCanEnd(s.switchElse.block)
    else (s.whens[i].tests != [] && BlockCanEnd(s.whens[i].body)) || WhensCanEnd(s, i + 1)
  }

  // ---------- other bodies never end ----------

  lemma {:induction false} StmtNeverEnds(w: World, s: Stmt, h: History, fuel: nat)
    requires !CanEnd(s)
    ensures !Exec(w, s, h, fuel).Finished?
    decreases fuel, s, 1, 0
  {
    match s
    case Return(_) =>
    case If(_, _, _) => ClausesNeverEnd(w, s, 0, h, fuel);
    case Switch(target, _, _) => WhensNeverEnd(w, s, 0, ValueOf(w, target, h), After(w, target, h), fuel);
    case While(cond, body) =>
      if fuel > 0 {
        var o := ExecBlock(w, body, h, fuel - 1);
        if o.Finished? { StmtNeverEnds(w, s, o.h, fuel - 1); }
      }
    case PostfixIf(_, guard, guarded) => StmtNeverEnds(w, guarded, After(w, guard, h), fuel);
    case Nested(b) => BlockNeverEnds(w, b, h, fuel);
  }

  lemma {:induction false} BlockNeverEnds(w: World, b: seq<Stmt>, h: History, fuel: nat)
    requires !BlockCanEnd(b)
    ensures !ExecBlock(w, b, h, fuel).Finished?
    decreases fuel, b, 0, 0
  {
    var o := Exec(w, b[0], h, fuel);
    if !CanEnd(b[0]) {
      StmtNeverEnds(w, b[0], h, fuel);
    } else if o.Finished? {
      BlockNeverEnds(w, b[1..], o.h, fuel);
    }
  }

  lemma {:induction false} ClausesNeverEnd(w: World, s: Stmt, i: nat, h: History, fuel: nat)
    requires s.If? && i <= |s.clauses| && !ClausesCanEnd(s, i)
    ensures !ExecClauses(w, s, i, h, fuel).Finished?
    decreases fuel, s, 0, |s.clauses| - i + 1
  {
    if i == |s.clauses| {
      BlockNeverEnds(w, s.ifElse.block, h, fuel);
    } else {
      var h1 := After(w, s.clauses[i].cond, h);
      if !BlockCanEnd(s.clauses[i].body) { BlockNeverEnds(w, s.clauses[i].body, h1, fuel); }
      if !ClausesCanEnd(s, i + 1) { ClausesNeverEnd(w, s, i + 1, h1, fuel); }
    }
  }

  lemma {:induction false} WhensNeverEnd(w: World, s: Stmt, i: nat, target: Value, h: History, fuel: nat)
    requires s.Switch? && i <= |s.whens| && !WhensCanEnd(s, i)
    ensures !ExecWhens(w, s, i, target, h, fuel).Finished?
    decreases fuel, s, 0, |s.whens| - i + 1
  {
    if i == |s.whens| {
      BlockNeverEnds(w, s.switchElse.block, h, fuel);
    } else {
      var (matched, h1) := RunTests(w, target, s.whens[i].tests, h);
      if s.whens[i].tests != [] { BlockNeverEnds(w, s.whens[i].body, h1, fuel); }
      WhensNeverEnd(w, s, i + 1, target, h1, fuel);
    }
  }

  // ---------- what the check accepts cannot end ----------

  lemma {:induction false} ReturningStmtCannotEnd(s: Stmt)
    requires Returns(s)
    ensures !CanEnd(s)
    decreases s, 1, 0
  {
    match s
    case Return(_) =>
    case If(_, _, _) => ReturningClausesCannotEnd(s, 0);
    case Switch(_, _, _) => ReturningWhensCannotEnd(s, 0);
    case While(_, _) =>
    case Nested(b) => ReturningBlockCannotEnd(b);
  }

  lemma {:induction false} ReturningBlockCannotEnd(b: seq<Stmt>)
    requires BlockReturns(b)
    ensures !BlockCanEnd(b)
    decreases b, 0, 0
  {
    if Returns(b[0]) { ReturningStmtCannotEnd(b[0]); } else { ReturningBlockCannotEnd(b[1..]); }
  }

  lemma {:induction false} ReturningClausesCannotEnd(s: Stmt, i: nat)
    requires s.If? && i <= |s.clauses| && ClausesReturn(s, i)
    ensures !ClausesCanEnd(s, i)
    decreases s, 0, |s.clauses| - i
  {
    if i == |s.clauses| {
      ReturningBlockCannotEnd(s.ifElse.block);
    } else {
      ReturningBlockCannotEnd(s.clauses[i].body);
      ReturningClausesCannotEnd(s, i + 1);
    }
  }

  lemma {:induction false} ReturningWhensCannotEnd(s: Stmt, i: nat)
    requires s.Switch? && i <= |s.whens| && WhensReturn(s, i)
    ensures !WhensCanEnd(s, i)
    decreases s, 0, |s.whens| - i
  {
    if i == |s.whens| {
      ReturningBlockCannotEnd(s.switchElse.block);
    } else {
      ReturningBlockCannotEnd(s.whens[i].body);
      ReturningWhensCannotEnd(s, i + 1);
    }
  }

  /** An accepted body never ends without returning. */
  lemma ReturningBlockNeverEnds(w: World, b: seq<Stmt>, h: History, fuel: nat)
    requires BlockReturns(b)
    ensures !ExecBlock(w, b, h, fuel).Finished?
  {
    ReturningBlockCannotEnd(b);
    BlockNeverEnds(w, b, h, fuel);
  }

  // ---------- bodies that can end have a run that does ----------

  /** A world that answers the n-th question with the n-th entry of a script. */
  function Scripted(script: seq<bool>): World {
    World((h: History, id: nat) => Truth(|h| < |script| && script[|h|]),
          (h: History, callee: nat, l: Value, r: Value) => |h| < |script| && script[|h|])
  }

  /** One unimportant answer for an expression that asks for one. */
  function Ask(e: Expr): seq<bool> { if e.Opaque? then [false] else [] }

  /** The answers that lead through a statement that can end. */
  function Escape(s: Stmt): seq<bool>
    decreases s, 1, 0
  {
    match s
    case Simple(e) => Ask(e)
    case Return(_) => []
    case If(_, _, _) => EscapeClauses(s, 0)
    case Switch(target, _, _) => Ask(target) + EscapeWhens(s, 0)
    case While(cond, _) => Ask(cond)
    case PostfixIf(negated, guard, guarded) =>
      if guard.Opaque? then [negated] else if guard.b == negated then [] else Escape(guarded)
    case Nested(b) => EscapeBlock(b)
  }

  function EscapeBlock(b: seq<Stmt>): seq<bool>
    decreases b, 0, 0
  {
    if b == [] then [] else Escape(b[0]) + EscapeBlock(b[1..])
  }

  /** The answer for the condition of clause `i` that makes it taken, or not. */
  function Answer(s: Stmt, i: nat, taken: bool): seq<bool>
    requires s.If? && i < |s.clauses|
  {
    if s.clauses[i].cond.Opaque? then [taken != Inverted(s, i)] else []
  }

  function EscapeClauses(s: Stmt, i: nat): seq<bool>
    requires s.If? && i <= |s.clauses|
    decreases s, 0, |s.clauses| - i
  {
    if i == |s.clauses| then (if s.ifElse.Else? then EscapeBlock(s.ifElse.block) else [])
    else if Takes(s, i) && BlockCanEnd(s.clauses[i].body) then Answer(s, i, true) + EscapeBlock(s.clauses[i].body)
    else Answer(s, i, false) + EscapeClauses(s, i + 1)
  }

  function FailTests(tests: seq<Test>): seq<bool> {
    if tests == [] then [] else Ask(tests[0].expr) + [false] + FailTests(tests[1..])
  }

  function EscapeWhens(s: Stmt, i: nat): seq<bool>
    requires s.Switch? && i <= |s.whens|
    decreases s, 0, |s.whens| - i
  {
    if i == |s.whens| then (if s.switchElse.Else? then EscapeBlock(s.switchElse.block) else [])
    else if s.whens[i].tests != [] && BlockCanEnd(s.whens[i].body)
    then Ask(s.whens[i].tests[0].expr) + [true] + EscapeBlock(s.whens[i].body)
    else FailTests(s.whens[i].tests) + EscapeWhens(s, i + 1)
  }

  /** The answers `part` are given from question number `n` on. */
  ghost predicate Answers(script: seq<bool>, n: nat, part: seq<bool>) {
    n + |part| <= |script| && script[n..n + |part|] == part
  }

  lemma AnswersSplit(script: seq<bool>, n: nat, a: seq<bool>, b: seq<bool>)
    requires Answers(script, n, a + b)
    ensures Answers(script, n, a) && Answers(script, n + |a|, b)
    ensures forall i :: 0 <= i < |a| ==> script[n + i] == a[i]
  {
    assert script[n..n + |a|] == script[n..n + |a + b|][..|a|];
    assert script[n + |a|..n + |a + b|] == script[n..n + |a + b|][|a|..];
    forall i | 0 <= i < |a| ensures script[n + i] == a[i] {
      assert script[n..n + |a + b|][i] == (a + b)[i];
    }
  }

  ghost predicate EndsAfter(o: Outcome, n: nat) { o.Finished? && |o.h| == n }

  lemma {:induction false} StmtEscapes(s: Stmt, script: seq<bool>, h: History, fuel: nat)
    requires CanEnd(s) && Answers(script, |h|, Escape(s)) && fuel > 0
    ensures EndsAfter(Exec(Scripted(script), s, h, fuel), |h| + |Escape(s)|)
    decreases s, 1, 0
  {
    match s
    case Simple(_) =>
    case If(_, _, _) => ClausesEscape(s, 0, script, h, fuel);
    case Switch(_, _, _) => SwitchEscapes(s, script, h, fuel);
    case While(cond, _) => WhileEscapes(s, script, h, fuel);
    case PostfixIf(negated, guard, guarded) =>
      if guard.Opaque? {
        GuardEscapes(s, script, h, fuel);
      } else if guard.b != negated {
        StmtEscapes(guarded, script, h, fuel);
      }
    case Nested(b) => BlockEscapes(b, script, h, fuel);
  }

  /** The answer to one question. */
  lemma OneAnswer(script: seq<bool>, n: nat, answer: bool)
    requires Answers(script, n, [answer])
    ensures n < |script| && script[n] == answer
  {
    assert script[n..n + 1][0] == answer;
  }

  lemma WhileEscapes(s: Stmt, script: seq<bool>, h: History, fuel: nat)
    requires s.While? && CanEnd(s) && Answers(script, |h|, Escape(s)) && fuel > 0
    ensures EndsAfter(Exec(Scripted(script), s, h, fuel), |h| + |Escape(s)|)
  {
    hide ExecBlock, Answers;
    if s.cond.Opaque? { OneAnswer(script, |h|, false); }
  }

  lemma GuardEscapes(s: Stmt, script: seq<bool>, h: History, fuel: nat)
    requires s.PostfixIf? && s.guard.Opaque? && Answers(script, |h|, Escape(s)) && fuel > 0
    ensures EndsAfter(Exec(Scripted(script), s, h, fuel), |h| + |Escape(s)|)
  {
    hide Answers;
    OneAnswer(script, |h|, s.negated);
  }

  lemma {:induction false} SwitchEscapes(s: Stmt, script: seq<bool>, h: History, fuel: nat)
    requires s.Switch? && CanEnd(s) && Answers(script, |h|, Escape(s)) && fuel > 0
    ensures EndsAfter(Exec(Scripted(script), s, h, fuel), |h| + |Escape(s)|)
    decreases s, 0, |s.whens| + 1
  {
    hide Answers, ExecWhens, EscapeWhens, WhensCanEnd;
    var w := Scripted(script);
    AnswersSplit(script, |h|, Ask(s.target), EscapeWhens(s, 0));
    WhensEscape(s, 0, script, ValueOf(w, s.target, h), After(w, s.target, h), fuel);
  }

  lemma {:induction false} BlockEscapes(b: seq<Stmt>, script: seq<bool>, h: History, fuel: nat)
    requires BlockCanEnd(b) && Answers(script, |h|, EscapeBlock(b)) && fuel > 0
    ensures EndsAfter(ExecBlock(Scripted(script), b, h, fuel), |h| + |EscapeBlock(b)|)
    decreases b, 0, 0
  {
    if b != [] {
      AnswersSplit(script, |h|, Escape(b[0]), EscapeBlock(b[1..]));
      StmtEscapes(b[0], script, h, fuel);
      BlockEscapes(b[1..], script, Exec(Scripted(script), b[0], h, fuel).h, fuel);
    }
  }

  /** The answer for a condition decides the clause. */
  lemma ClauseAnswered(s: Stmt, i: nat, taken: bool, script: seq<bool>, h: History)
    requires s.If? && i < |s.clauses| && (if taken then Takes(s, i) else Passes(s, i))
    requires Answers(script, |h|, Answer(s, i, taken))
    ensures var w, c := Scripted(script), s.clauses[i].cond;
            && (IsTrue(ValueOf(w, c, h)) != Inverted(s, i)) == taken
            && |After(w, c, h)| == |h| + |Answer(s, i, taken)|
  {
    AnswersSplit(script, |h|, Answer(s, i, taken), []) by {
      assert Answer(s, i, taken) + [] == Answer(s, i, taken);
    }
    if s.clauses[i].cond.Opaque? { assert script[|h| + 0] == (taken != Inverted(s, i)); }
  }

  lemma {:induction false} ClausesEscape(s: Stmt, i: nat, script: seq<bool>, h: History, fuel: nat)
    requires s.If? && i <= |s.clauses| && ClausesCanEnd(s, i) && fuel > 0
    requires Answers(script, |h|, EscapeClauses(s, i))
    ensures EndsAfter(ExecClauses(Scripted(script), s, i, h, fuel), |h| + |EscapeClauses(s, i)|)
    decreases s, 0, |s.clauses| - i
  {
    if i == |s.clauses| {
      if s.ifElse.Else? { BlockEscapes(s.ifElse.block, script, h, fuel); }
    } else {
      hide Answers, Answer, Scripted, Takes, Passes, Inverted;
      var body, h1 := s.clauses[i].body, After(Scripted(script), s.clauses[i].cond, h);
      if Takes(s, i) && BlockCanEnd(body) {
        AnswersSplit(script, |h|, Answer(s, i, true), EscapeBlock(body));
        ClauseAnswered(s, i, true, script, h);
        BlockEscapes(body, script, h1, fuel);
      } else {
        AnswersSplit(script, |h|, Answer(s, i, false), EscapeClauses(s, i + 1));
        ClauseAnswered(s, i, false, script, h);
        ClausesEscape(s, i + 1, script, h1, fuel);
      }
    }
  }

  lemma {:induction false} TestsFail(tests: seq<Test>, script: seq<bool>, target: Value, h: History)
    requires Answers(script, |h|, FailTests(tests))
    ensures var (matched, h1) := RunTests(Scripted(script), target, tests, h);
            !matched && |h1| == |h| + |FailTests(tests)|
    decreases tests
  {
    if tests != [] {
      var ask := Ask(tests[0].expr);
      AnswersSplit(script, |h|, ask + [false], FailTests(tests[1..]));
      assert script[|h| + |ask|] == (ask + [false])[|ask|];
      var h1 := After(Scripted(script), tests[0].expr, h);
      var v := ValueOf(Scripted(script), tests[0].expr, h);
      TestsFail(tests[1..], script, target, h1 + [Compared(tests[0].callee, target, v, false)]);
    }
  }

  lemma FirstTestMatches(tests: seq<Test>, script: seq<bool>, target: Value, h: History)
    requires tests != [] && Answers(script, |h|, Ask(tests[0].expr) + [true])
    ensures var (matched, h1) := RunTests(Scripted(script), target, tests, h);
            matched && |h1| == |h| + |Ask(tests[0].expr) + [true]|
  {
    var ask := Ask(tests[0].expr);
    AnswersSplit(script, |h|, ask + [true], []);
    assert script[|h| + |ask|] == (ask + [true])[|ask|];
  }

  lemma {:induction false} WhensEscape(s: Stmt, i: nat, script: seq<bool>, target: Value, h: History, fuel: nat)
    requires s.Switch? && i <= |s.whens| && WhensCanEnd(s, i) && fuel > 0
    requires Answers(script, |h|, EscapeWhens(s, i))
    ensures EndsAfter(ExecWhens(Scripted(script), s, i, target, h, fuel), |h| + |EscapeWhens(s, i)|)
    decreases s, 0, |s.whens| - i, 1
  {
    if i == |s.whens| {
      if s.switchElse.Else? { BlockEscapes(s.switchElse.block, script, h, fuel); }
    } else if s.whens[i].tests != [] && BlockCanEnd(s.whens[i].body) {
      ThisWhenEscapes(s, i, script, target, h, fuel);
    } else {
      NextWhenEscapes(s, i, script, target, h, fuel);
    }
  }

  lemma {:induction false} NextWhenEscapes(s: Stmt, i: nat, script: seq<bool>, target: Value, h: History, fuel: nat)
    requires s.Switch? && i < |s.whens| && WhensCanEnd(s, i + 1) && fuel > 0
    requires s.whens[i].tests == [] || !BlockCanEnd(s.whens[i].body)
    requires Answers(script, |h|, EscapeWhens(s, i))
    ensures EndsAfter(ExecWhens(Scripted(script), s, i, target, h, fuel), |h| + |EscapeWhens(s, i)|)
    decreases s, 0, |s.whens| - i, 0
  {
    hide Scripted, RunTests, FailTests, Answers, ExecBlock, EscapeBlock;
    var tests := s.whens[i].tests;
    AnswersSplit(script, |h|, FailTests(tests), EscapeWhens(s, i + 1));
    TestsFail(tests, script, target, h);
    WhensEscape(s, i + 1, script, target, RunTests(Scripted(script), target, tests, h).1, fuel);
  }

  lemma {:induction false} ThisWhenEscapes(s: Stmt, i: nat, script: seq<bool>, target: Value, h: History, fuel: nat)
    requires s.Switch? && i < |s.whens| && s.whens[i].tests != [] && BlockCanEnd(s.whens[i].body) && fuel > 0
    requires Answers(script, |h|, EscapeWhens(s, i))
    ensures EndsAfter(ExecWhens(Scripted(script), s, i, target, h, fuel), |h| + |EscapeWhens(s, i)|)
    decreases s, 0, |s.whens| - i, 0
  {
    hide Scripted, RunTests, Answers, ExecBlock, EscapeBlock, Ask;
    var tests := s.whens[i].tests;
    AnswersSplit(script, |h|, Ask(tests[0].expr) + [true], EscapeBlock(s.whens[i].body));
    FirstTestMatches(tests, script, target, h);
    BlockEscapes(s.whens[i].body, script, RunTests(Scripted(script), target, tests, h).1, fuel);
  }

  // ---------- how exact the check is ----------

  /** Some run of the body, in some world, ends without returning. */
  ghost predicate FallsThrough(b: seq<Stmt>) {
    exists w: World, h: History, fuel: nat :: ExecBlock(w, b, h, fuel).Finished?
  }

  lemma FallingThroughExactly(b: seq<Stmt>)
    ensures FallsThrough(b) <==> BlockCanEnd(b)
  {
    if BlockCanEnd(b) {
      var script := EscapeBlock(b);
      assert Answers(script, 0, script);
      BlockEscapes(b, script, [], 1);
      assert ExecBlock(Scripted(script), b, [], 1).Finished?;
    }
    forall w: World, h: History, fuel: nat | ExecBlock(w, b, h, fuel).Finished? ensures BlockCanEnd(b) {
      if !BlockCanEnd(b) { BlockNeverEnds(w, b, h, fuel); }
    }
  }

  /** The check never accepts a body that falls through; it is right about a body exactly when
      it accepts the body or the body can end. */
  lemma CheckIsExact(b: seq<Stmt>)
    ensures BlockReturns(b) ==> !FallsThrough(b)
    ensures (BlockReturns(b) <==> !FallsThrough(b)) <==> (BlockReturns(b) || BlockCanEnd(b))
  {
    FallingThroughExactly(b);
    if BlockReturns(b) { ReturningBlockCannotEnd(b); }
  }

  /** A statement none of whose conditions is literal, and whose `when`s all have a test. */
  predicate Direct(s: Stmt)
    decreases s, 1
  {
    match s
    case Simple(_) => true
    case Return(_) => true
    case If(_, clauses, els) =>
      && (forall c <- clauses :: c.cond.Opaque? && DirectBlock(c.body))
      && (els.Else? ==> DirectBlock(els.block))
    case Switch(_, whens, els) =>
      && (forall v <- whens :: v.tests != [] && DirectBlock(v.body))
      && (els.Else? ==> DirectBlock(els.block))
    case While(cond, body) => cond.Opaque? && DirectBlock(body)
    case PostfixIf(_, guard, guarded) => guard.Opaque? && Direct(guarded)
    case Nested(b) => DirectBlock(b)
  }

  predicate DirectBlock(b: seq<Stmt>)
    decreases b, 0
  {
    forall s <- b :: Direct(s)
  }

  lemma {:induction false} DirectReturns(s: Stmt)
    requires Direct(s)
    ensures Returns(s) <==> !CanEnd(s)
    decreases s, 1, 0
  {
    match s
    case Simple(_) =>
    case Return(_) =>
    case If(_, _, _) => DirectClausesReturn(s, 0);
    case Switch(_, _, _) => DirectWhensReturn(s, 0);
    case While(_, _) =>
    case PostfixIf(_, _, _) =>
    case Nested(b) => DirectBlockReturns(b);
  }

  lemma {:induction false} DirectBlockReturns(b: seq<Stmt>)
    requires DirectBlock(b)
    ensures BlockReturns(b) <==> !BlockCanEnd(b)
    decreases b, 0, 0
  {
    if b != [] {
      DirectReturns(b[0]);
      DirectBlockReturns(b[1..]);
    }
  }

  lemma {:induction false} DirectClausesReturn(s: Stmt, i: nat)
    requires s.If? && i <= |s.clauses| && Direct(s)
    ensures ClausesReturn(s, i) <==> !ClausesCanEnd(s, i)
    decreases s, 0, |s.clauses| - i
  {
    if i < |s.clauses| {
      assert s.clauses[i].cond.Opaque? && DirectBlock(s.clauses[i].body);
      DirectBlockReturns(s.clauses[i].body);
      DirectClausesReturn(s, i + 1);
    } else if s.ifElse.Else? {
      DirectBlockReturns(s.ifElse.block);
    }
  }

  lemma {:induction false} DirectWhensReturn(s: Stmt, i: nat)
    requires s.Switch? && i <= |s.whens| && Direct(s)
    ensures WhensReturn(s, i) <==> !WhensCanEnd(s, i)
    decreases s, 0, |s.whens| - i
  {
    if i < |s.whens| {
      assert s.whens[i].tests != [] && DirectBlock(s.whens[i].body);
      DirectBlockReturns(s.whens[i].body);
      DirectWhensReturn(s, i + 1);
    } else if s.switchElse.Else? {
      DirectBlockReturns(s.switchElse.block);
    }
  }

  /** Where no condition is literal and every `when` has a test, the check decides exactly
      whether some run falls through. */
  lemma CheckDecidesDirectBodies(b: seq<Stmt>)
    requires DirectBlock(b)
    ensures BlockReturns(b) <==> !FallsThrough(b)
  {
    DirectBlockReturns(b);
    FallingThroughExactly(b);
  }

  /** The statement with nothing decided by its syntax: conditions are opaque, a `when` without
      tests gets one, and `for true` is its body. */
  function Undecided(s: Stmt): Stmt
    decreases s, 1
  {
    match s
    case Simple(_) => s
    case Return(_) => s
    case If(kind, clauses, els) =>
      If(kind,
         seq(|clauses|, i requires 0 <= i < |clauses| => Clause(Opaque(0), UndecidedBlock(clauses[i].body))),
         if els.Else? then Else(UndecidedBlock(els.block)) else NoElse)
    case Switch(target, whens, els) =>
      Switch(target,
             seq(|whens|, i requires 0 <= i < |whens| =>
                   When(whens[i].tests + [Test(Opaque(0), 0)], UndecidedBlock(whens[i].body))),
             if els.Else? then Else(UndecidedBlock(els.block)) else NoElse)
    case While(cond, body) =>
      if cond == Literal(true) then Nested(UndecidedBlock(body)) else While(Opaque(0), UndecidedBlock(body))
    case PostfixIf(negated, _, guarded) => PostfixIf(negated, Opaque(0), Undecided(guarded))
    case Nested(b) => Nested(UndecidedBlock(b))
  }

  function UndecidedBlock(b: seq<Stmt>): (r: seq<Stmt>)
    ensures |r| == |b|
    decreases b, 0
  {
    if b == [] then [] else [Undecided(b[0])] + UndecidedBlock(b[1..])
  }

  lemma {:induction false} UndecidedIsDirect(s: Stmt)
    ensures Direct(Undecided(s)) && Returns(Undecided(s)) == Returns(s)
    decreases s, 1, 0
  {
    match s
    case Simple(_) =>
    case Return(_) =>
    case If(_, clauses, els) =>
      UndecidedClauses(s, 0);
      forall c <- clauses { UndecidedBlockIsDirect(c.body); }
      if els.Else? { UndecidedBlockIsDirect(els.block); }
    case Switch(_, whens, els) =>
      UndecidedWhens(s, 0);
      forall v <- whens { UndecidedBlockIsDirect(v.body); }
      if els.Else? { UndecidedBlockIsDirect(els.block); }
    case While(_, body) => UndecidedBlockIsDirect(body);
    case PostfixIf(_, _, guarded) => UndecidedIsDirect(guarded);
    case Nested(b) => UndecidedBlockIsDirect(b);
  }

  lemma {:induction false} UndecidedBlockIsDirect(b: seq<Stmt>)
    ensures DirectBlock(UndecidedBlock(b)) && BlockReturns(UndecidedBlock(b)) == BlockReturns(b)
    decreases b, 0, 0
  {
    if b != [] {
      UndecidedIsDirect(b[0]);
      UndecidedBlockIsDirect(b[1..]);
      assert UndecidedBlock(b)[1..] == UndecidedBlock(b[1..]);
    }
  }

  lemma {:induction false} UndecidedClauses(s: Stmt, i: nat)
    requires s.If? && i <= |s.clauses|
    ensures ClausesReturn(Undecided(s), i) == ClausesReturn(s, i)
    decreases s, 0, |s.clauses| - i
  {
    if i < |s.clauses| {
      UndecidedBlockIsDirect(s.clauses[i].body);
      UndecidedClauses(s, i + 1);
    } else if s.ifElse.Else? {
      UndecidedBlockIsDirect(s.ifElse.block);
    }
  }

  lemma {:induction false} UndecidedWhens(s: Stmt, i: nat)
    requires s.Switch? && i <= |s.whens|
    ensures WhensReturn(Undecided(s), i) == WhensReturn(s, i)
    decreases s, 0, |s.whens| - i
  {
    if i < |s.whens| {
      UndecidedBlockIsDirect(s.whens[i].body);
      UndecidedWhens(s, i + 1);
    } else if s.switchElse.Else? {
      UndecidedBlockIsDirect(s.switchElse.block);
    }
  }

  /** For every body: the check accepts it exactly when no run falls through that decides all
      conditions, literal ones included, as it likes, and passes a `for true` loop once. */
  lemma CheckDecidesUndecided(b: seq<Stmt>)
    ensures BlockReturns(b) <==> !FallsThrough(UndecidedBlock(b))
  {
    UndecidedBlockIsDirect(b);
    CheckDecidesDirectBodies(UndecidedBlock(b));
  }

  /** Two kinds of bodies that are rejected though they never fall through: an `if` without an
      else whose literal condition always holds, and an endless loop that need not return. */
  lemma CheckIsConservative(body: seq<Stmt>)
    ensures var onlyIf := [If(IfTrue, [Clause(Literal(true), body)], NoElse)];
            !BlockReturns(onlyIf) && (!FallsThrough(onlyIf) <==> !BlockCanEnd(body))
    ensures var loops := [While(Literal(true), body)];
            (BlockReturns(loops) <==> BlockReturns(body)) && !FallsThrough(loops)
  {
    var onlyIf, loops := [If(IfTrue, [Clause(Literal(true), body)], NoElse)], [While(Literal(true), body)];
    FallingThroughExactly(onlyIf);
    FallingThroughExactly(loops);
    assert BlockCanEnd(onlyIf[1..]) && !BlockReturns(onlyIf[1..]) && !BlockReturns(loops[1..]);
    assert Takes(onlyIf[0], 0) && !Passes(onlyIf[0], 0);
    assert ClausesCanEnd(onlyIf[0], 0) == BlockCanEnd(body);
    assert !ClausesReturn(onlyIf[0], 1);
    assert !ClausesReturn(onlyIf[0], 0) && !Returns(onlyIf[0]);
    assert BlockCanEnd(onlyIf) == BlockCanEnd(body);
  }
}
