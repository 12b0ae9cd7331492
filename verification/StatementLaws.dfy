/** What the statements mean in terms of each other: the laws a reader may rewrite by. */
module StatementLaws {
  import opened Structured

  // ---------- if, unless and case ----------

  /** From clause `i` of `s` and clause `j` of `t` on, nothing depends on what came before. */
  lemma {:induction false} LaterClausesAgree(w: World, s: Stmt, i: nat, t: Stmt, j: nat, h: History, fuel: nat)
    requires s.If? && t.If? && i <= |s.clauses| && j <= |t.clauses|
    requires s.clauses[i..] == t.clauses[j..] && s.ifElse == t.ifElse
    requires (s.kind != Unless || i > 0) && (t.kind != Unless || j > 0)
    ensures ExecClauses(w, s, i, h, fuel) == ExecClauses(w, t, j, h, fuel)
    decreases |s.clauses| - i
  {
    if i < |s.clauses| {
      var c := s.clauses[i];
      assert c == s.clauses[i..][0] == t.clauses[j..][0] == t.clauses[j];
      assert s.clauses[i + 1..] == s.clauses[i..][1..] == t.clauses[j..][1..] == t.clauses[j + 1..];
      LaterClausesAgree(w, s, i + 1, t, j + 1, After(w, c.cond, h), fuel);
    } else {
      assert |s.clauses[i..]| == 0 == |t.clauses[j..]|;
    }
  }

  /** A block of one statement is that statement. */
  lemma OneStatement(w: World, s: Stmt, h: History, fuel: nat)
    ensures ExecBlock(w, [s], h, fuel) == Exec(w, s, h, fuel)
  {
  }

  /** A condition that is literally true enters its clause, one that is literally false goes on
      to the else clause; for `unless` it is the other way round. */
  lemma LiteralDecides(w: World, b: seq<Stmt>, e: seq<Stmt>, h: History, fuel: nat)
    ensures Exec(w, If(IfTrue, [Clause(Literal(true), b)], Else(e)), h, fuel) == ExecBlock(w, b, h, fuel)
    ensures Exec(w, If(IfTrue, [Clause(Literal(false), b)], Else(e)), h, fuel) == ExecBlock(w, e, h, fuel)
    ensures Exec(w, If(Unless, [Clause(Literal(true), b)], Else(e)), h, fuel) == ExecBlock(w, e, h, fuel)
    ensures Exec(w, If(Unless, [Clause(Literal(false), b)], Else(e)), h, fuel) == ExecBlock(w, b, h, fuel)
    ensures Exec(w, If(IfTrue, [Clause(Literal(false), b)], NoElse), h, fuel) == Finished(h)
  {
    assert ExecClauses(w, If(IfTrue, [Clause(Literal(false), b)], Else(e)), 1, h, fuel) == ExecBlock(w, e, h, fuel);
    assert ExecClauses(w, If(Unless, [Clause(Literal(true), b)], Else(e)), 1, h, fuel) == ExecBlock(w, e, h, fuel);
    assert ExecClauses(w, If(IfTrue, [Clause(Literal(false), b)], NoElse), 1, h, fuel) == Finished(h);
  }

  /** An `else if` is an `if` in the else clause. */
  lemma ElseIfNests(w: World, c: Expr, b: seq<Stmt>, rest: seq<Clause>, els: ElseClause, h: History, fuel: nat)
    ensures Exec(w, If(IfTrue, [Clause(c, b)] + rest, els), h, fuel)
         == Exec(w, If(IfTrue, [Clause(c, b)], Else([If(IfTrue, rest, els)])), h, fuel)
  {
    var s, t := If(IfTrue, [Clause(c, b)] + rest, els), If(IfTrue, rest, els);
    var h1 := After(w, c, h);
    LaterClausesAgree(w, s, 1, t, 0, h1, fuel);
    OneStatement(w, t, h1, fuel);
    var nested := If(IfTrue, [Clause(c, b)], Else([t]));
    assert ExecClauses(w, nested, 1, h1, fuel) == Exec(w, t, h1, fuel);
  }

  /** `unless` is `if` with the first body and all that follows it exchanged: only the first
      condition is inverted. */
  lemma UnlessExchanges(w: World, c: Expr, b: seq<Stmt>, rest: seq<Clause>, els: ElseClause, h: History, fuel: nat)
    ensures Exec(w, If(Unless, [Clause(c, b)] + rest, els), h, fuel)
         == Exec(w, If(IfTrue, [Clause(c, [If(IfTrue, rest, els)])], Else(b)), h, fuel)
  {
    var s, t := If(Unless, [Clause(c, b)] + rest, els), If(IfTrue, rest, els);
    var h1 := After(w, c, h);
    LaterClausesAgree(w, s, 1, t, 0, h1, fuel);
    OneStatement(w, t, h1, fuel);
    var swapped := If(IfTrue, [Clause(c, [t])], Else(b));
    assert ExecClauses(w, swapped, 1, h1, fuel) == ExecBlock(w, b, h1, fuel);
  }

  /** In the common form, `unless` with an else clause, the two bodies are exchanged. */
  lemma UnlessElseExchanges(w: World, c: Expr, b: seq<Stmt>, e: seq<Stmt>, h: History, fuel: nat)
    ensures Exec(w, If(Unless, [Clause(c, b)], Else(e)), h, fuel)
         == Exec(w, If(IfTrue, [Clause(c, e)], Else(b)), h, fuel)
  {
    var s, t := If(Unless, [Clause(c, b)], Else(e)), If(IfTrue, [Clause(c, e)], Else(b));
    var h1 := After(w, c, h);
    assert ExecClauses(w, s, 1, h1, fuel) == ExecBlock(w, e, h1, fuel);
    assert ExecClauses(w, t, 1, h1, fuel) == ExecBlock(w, b, h1, fuel);
  }

  /** `case` without a target runs like `if`. */
  lemma CaseIsIf(w: World, clauses: seq<Clause>, els: ElseClause, h: History, fuel: nat)
    ensures Exec(w, If(Case, clauses, els), h, fuel) == Exec(w, If(IfTrue, clauses, els), h, fuel)
  {
    LaterClausesAgree(w, If(Case, clauses, els), 0, If(IfTrue, clauses, els), 0, h, fuel);
  }

  /** A postfix `if` or `unless` is the statement of the same name around one statement. */
  lemma PostfixIfIsIf(w: World, negated: bool, c: Expr, s: Stmt, h: History, fuel: nat)
    ensures Exec(w, PostfixIf(negated, c, s), h, fuel)
         == Exec(w, If(if negated then Unless else IfTrue, [Clause(c, [s])], NoElse), h, fuel)
  {
    var t := If(if negated then Unless else IfTrue, [Clause(c, [s])], NoElse);
    var h1 := After(w, c, h);
    OneStatement(w, s, h1, fuel);
    assert ExecClauses(w, t, 1, h1, fuel) == Finished(h1);
  }

  // ---------- loops, blocks and ret ----------

  /** A loop is an `if` around its body and the loop itself. */
  lemma LoopUnfolds(w: World, c: Expr, b: seq<Stmt>, h: History, fuel: nat)
    ensures Exec(w, While(c, b), h, fuel + 1)
         == Exec(w, If(IfTrue, [Clause(c, [Nested(b), While(c, b)])], NoElse), h, fuel)
  {
    var body, loop := Nested(b), While(c, b);
    var t := If(IfTrue, [Clause(c, [body, loop])], NoElse);
    var h1 := After(w, c, h);
    assert ExecClauses(w, t, 1, h1, fuel) == Finished(h1);
    assert [body, loop][1..] == [loop];
    var o := ExecBlock(w, b, h1, fuel);
    assert o == Exec(w, body, h1, fuel);
    if o.Finished? {
      OneStatement(w, loop, o.h, fuel);
      assert ExecBlock(w, [body, loop], h1, fuel) == Exec(w, loop, o.h, fuel);
    }
    var holds := IsTrue(ValueOf(w, c, h));
    assert Exec(w, t, h, fuel) == if holds then ExecBlock(w, [body, loop], h1, fuel) else Finished(h1);
  }

  /** A loop whose condition is literally false is passed over. */
  lemma FalseLoopIsSkipped(w: World, b: seq<Stmt>, h: History, fuel: nat)
    requires fuel > 0
    ensures Exec(w, While(Literal(false), b), h, fuel) == Finished(h)
  {
  }

  lemma {:induction false} BlockAppends(w: World, a: seq<Stmt>, b: seq<Stmt>, h: History, fuel: nat)
    ensures ExecBlock(w, a + b, h, fuel)
         == match ExecBlock(w, a, h, fuel)
            case Finished(h1) => ExecBlock(w, b, h1, fuel)
            case other => other
    decreases a
  {
    if a == [] {
      assert a + b == b;
    } else {
      assert (a + b)[0] == a[0] && (a + b)[1..] == a[1..] + b;
      var o := Exec(w, a[0], h, fuel);
      if o.Finished? { BlockAppends(w, a[1..], b, o.h, fuel); }
    }
  }

  /** Nesting means nothing but its statements in their place. */
  lemma NestedIsInlined(w: World, a: seq<Stmt>, b: seq<Stmt>, c: seq<Stmt>, h: History, fuel: nat)
    ensures ExecBlock(w, a + [Nested(b)] + c, h, fuel) == ExecBlock(w, a + b + c, h, fuel)
  {
    BlockAppends(w, a + [Nested(b)], c, h, fuel);
    BlockAppends(w, a, [Nested(b)], h, fuel);
    BlockAppends(w, a + b, c, h, fuel);
    BlockAppends(w, a, b, h, fuel);
    var o := ExecBlock(w, a, h, fuel);
    if o.Finished? { OneStatement(w, Nested(b), o.h, fuel); }
  }

  /** Value number `i` of a `ret` is that of its expression, after those before it were evaluated. */
  lemma {:induction false} ValuesInOrder(w: World, es: seq<Expr>, h: History, i: nat)
    requires i < |es|
    ensures ValuesOf(w, es, h)[i] == ValueOf(w, es[i], AfterAll(w, es[..i], h))
    decreases es
  {
    if i > 0 {
      ValuesInOrder(w, es[1..], After(w, es[0], h), i - 1);
      assert es[..i][1..] == es[1..][..i - 1];
    }
  }

  /** `ret` ends the block with its one value, or with a tuple of its values in order. */
  lemma ReturnEndsBlock(w: World, es: seq<Expr>, rest: seq<Stmt>, h: History, fuel: nat)
    ensures var o := ExecBlock(w, [Return(es)] + rest, h, fuel);
            && o.Returned? && o.h == AfterAll(w, es, h)
            && (|es| == 1 ==> o.v == ValueOf(w, es[0], h))
            && (|es| != 1 ==>
                  && o.v.Tuple? && |o.v.elems| == |es|
                  && forall i :: 0 <= i < |es| ==> o.v.elems[i] == ValueOf(w, es[i], AfterAll(w, es[..i], h)))
  {
    forall i | 0 <= i < |es| ensures ValuesOf(w, es, h)[i] == ValueOf(w, es[i], AfterAll(w, es[..i], h)) {
      ValuesInOrder(w, es, h, i);
    }
  }

  // ---------- switch ----------

  lemma {:induction false} LaterWhensAgree(w: World, s: Stmt, i: nat, t: Stmt, j: nat, v: Value, h: History, fuel: nat)
    requires s.Switch? && t.Switch? && i <= |s.whens| && j <= |t.whens|
    requires s.whens[i..] == t.whens[j..] && s.switchElse == t.switchElse
    ensures ExecWhens(w, s, i, v, h, fuel) == ExecWhens(w, t, j, v, h, fuel)
    decreases |s.whens| - i
  {
    if i < |s.whens| {
      assert s.whens[i] == s.whens[i..][0] == t.whens[j..][0] == t.whens[j];
      assert s.whens[i + 1..] == s.whens[i..][1..] == t.whens[j..][1..] == t.whens[j + 1..];
      LaterWhensAgree(w, s, i + 1, t, j + 1, v, RunTests(w, v, s.whens[i].tests, h).1, fuel);
    } else {
      assert |s.whens[i..]| == 0 == |t.whens[j..]|;
    }
  }

  lemma {:induction false} TestsAppend(w: World, v: Value, a: seq<Test>, b: seq<Test>, h: History)
    ensures RunTests(w, v, a + b, h)
         == var (matched, h1) := RunTests(w, v, a, h); if matched then (true, h1) else RunTests(w, v, b, h1)
    decreases a
  {
    if a == [] {
      assert a + b == b;
    } else {
      assert (a + b)[0] == a[0] && (a + b)[1..] == a[1..] + b;
      var e, h1 := ValueOf(w, a[0].expr, h), After(w, a[0].expr, h);
      var eq := w.equal(h1, a[0].callee, v, e);
      TestsAppend(w, v, a[1..], b, h1 + [Compared(a[0].callee, v, e, eq)]);
    }
  }

  /** A `when` with several tests is as many `when`s with the same body, wherever it stands. */
  lemma WhenSplits(w: World, x: Expr, pre: seq<When>, a: seq<Test>, b: seq<Test>, body: seq<Stmt>,
                   rest: seq<When>, els: ElseClause, h: History, fuel: nat)
    ensures Exec(w, Switch(x, pre + [When(a + b, body)] + rest, els), h, fuel)
         == Exec(w, Switch(x, pre + [When(a, body), When(b, body)] + rest, els), h, fuel)
  {
    WhenSplitsFrom(w, x, pre, 0, a, b, body, rest, els, ValueOf(w, x, h), After(w, x, h), fuel);
  }

  lemma {:induction false} WhenSplitsFrom(w: World, x: Expr, pre: seq<When>, i: nat, a: seq<Test>, b: seq<Test>,
                                          body: seq<Stmt>, rest: seq<When>, els: ElseClause,
                                          v: Value, h: History, fuel: nat)
    requires i <= |pre|
    ensures ExecWhens(w, Switch(x, pre + [When(a + b, body)] + rest, els), i, v, h, fuel)
         == ExecWhens(w, Switch(x, pre + [When(a, body), When(b, body)] + rest, els), i, v, h, fuel)
    decreases |pre| - i
  {
    var s := Switch(x, pre + [When(a + b, body)] + rest, els);
    var t := Switch(x, pre + [When(a, body), When(b, body)] + rest, els);
    if i < |pre| {
      assert s.whens[i] == pre[i] == t.whens[i];
      WhenSplitsFrom(w, x, pre, i + 1, a, b, body, rest, els, v, RunTests(w, v, pre[i].tests, h).1, fuel);
    } else {
      assert s.whens[i] == When(a + b, body) && t.whens[i] == When(a, body) && t.whens[i + 1] == When(b, body);
      TestsAppend(w, v, a, b, h);
      var h1 := RunTests(w, v, a + b, h).1;
      assert s.whens[i + 1..] == rest == t.whens[i + 2..];
      LaterWhensAgree(w, s, i + 1, t, i + 2, v, h1, fuel);
    }
  }

  /** A `when` without tests is never entered, wherever it stands. */
  lemma EmptyWhenIsSkipped(w: World, x: Expr, body: seq<Stmt>, rest: seq<When>, els: ElseClause, h: History, fuel: nat)
    ensures Exec(w, Switch(x, [When([], body)] + rest, els), h, fuel) == Exec(w, Switch(x, rest, els), h, fuel)
  {
    var s, t := Switch(x, [When([], body)] + rest, els), Switch(x, rest, els);
    LaterWhensAgree(w, s, 1, t, 0, ValueOf(w, x, h), After(w, x, h), fuel);
  }

  /** A first test that holds enters its `when`.  One that does not has the others made behind
      it; the target, on the left of `==`, is not evaluated again. */
  lemma FirstTestDecides(w: World, x: Expr, test: Test, body: seq<Stmt>, rest: seq<When>, els: ElseClause,
                         h: History, fuel: nat)
    ensures var o := Exec(w, Switch(x, [When([test], body)] + rest, els), h, fuel);
            var h1 := After(w, x, h);
            var h2 := After(w, test.expr, h1);
            var target, value := ValueOf(w, x, h), ValueOf(w, test.expr, h1);
            if w.equal(h2, test.callee, target, value)
            then o == ExecBlock(w, body, h2 + [Compared(test.callee, target, value, true)], fuel)
            else o == ExecWhens(w, Switch(x, rest, els), 0, target,
                                h2 + [Compared(test.callee, target, value, false)], fuel)
  {
    var s, t := Switch(x, [When([test], body)] + rest, els), Switch(x, rest, els);
    var h1 := After(w, x, h);
    var h2 := After(w, test.expr, h1);
    var target, value := ValueOf(w, x, h), ValueOf(w, test.expr, h1);
    assert s.whens[0].tests == [test] && [test][1..] == [];
    var eq := w.equal(h2, test.callee, target, value);
    assert RunTests(w, target, [test], h1) == (eq, h2 + [Compared(test.callee, target, value, eq)]);
    assert s.whens[1..] == t.whens[0..];
    LaterWhensAgree(w, s, 1, t, 0, target, h2 + [Compared(test.callee, target, value, false)], fuel);
  }

  /** Without any `when`, the target is evaluated and the else clause is run. */
  lemma NoWhens(w: World, x: Expr, els: ElseClause, h: History, fuel: nat)
    ensures Exec(w, Switch(x, [], els), h, fuel)
         == ExecBlock(w, [Simple(x)] + if els.Else? then els.block else [], h, fuel)
  {
    var b := if els.Else? then els.block else [];
    assert ([Simple(x)] + b)[1..] == b;
  }
}
