/** Lowering preserves meaning: the blocks do what the statements do. */
module LoweringMeaning {
  import opened TerminationCheck
  import opened Structured
  import opened BasicBlocks
  import opened Lowering
  import opened LoweringShape

  /** Running `code` from `a` passes `b` after at least `n` steps. */
  ghost predicate Reaches(w: World, code: seq<Block>, a: Machine, b: Machine, n: nat) {
    exists k: nat :: k >= n && Run(w, code, a, k) == b
  }

  lemma ReachesTrans(w: World, code: seq<Block>, a: Machine, b: Machine, c: Machine, m: nat, n: nat)
    requires Reaches(w, code, a, b, m) && Reaches(w, code, b, c, n)
    ensures Reaches(w, code, a, c, m + n)
  {
    var k: nat :| k >= m && Run(w, code, a, k) == b;
    var l: nat :| l >= n && Run(w, code, b, l) == c;
    RunAdd(w, code, a, k, l);
  }

  lemma ReachesByStep(w: World, code: seq<Block>, a: Machine)
    ensures Reaches(w, code, a, Step(w, code, a), 1)
    ensures Reaches(w, code, a, a, 0)
  {
    assert Run(w, code, a, 0) == a;
    assert Run(w, code, Step(w, code, a), 0) == Step(w, code, a);
    assert Run(w, code, a, 1) == Step(w, code, a);
  }

  /** `code` is what `f` may still become. */
  ghost predicate Prefix(f: Fn, code: seq<Block>) {
    |f.blocks| <= |code| && forall i :: 0 <= i < |f.blocks| ==> f.blocks[i] <= code[i]
  }

  lemma PrefixBack(f: Fn, r: Fn, d: set<Label>, q: set<Label>, code: seq<Block>)
    requires Valid(f) && Continues(f, r, d, q) && Prefix(r, code)
    ensures Prefix(f, code)
  {
    forall i | 0 <= i < |f.blocks| ensures f.blocks[i] <= code[i] {
      assert r.blocks[i] <= code[i];
    }
  }

  /** The machine about to run what is placed next at the insert point. */
  function At(f: Fn, regs: map<Reg, Value>, h: History): Machine
    requires Valid(f)
  {
    Running(f.cur, |f.blocks[f.cur]|, regs, h)
  }

  ghost predicate Keeps(regs: map<Reg, Value>, later: map<Reg, Value>, below: nat) {
    forall r :: r in regs && r < below ==> r in later && later[r] == regs[r]
  }

  /** What the machine has come to, for each outcome of the statement: a statement that
      ends leads to position `pc` of block `b`, with the older registers kept. */
  ghost predicate Matches(o: Outcome, m: Machine, b: Label, pc: nat, regs: map<Reg, Value>, below: nat) {
    match o
    case Finished(h) => m.Running? && m == Running(b, pc, m.regs, h) && Keeps(regs, m.regs, below)
    case Returned(v, h) => m == Halted(v, h)
    case OutOfFuel(h) => m.Running? && m.h == h
  }

  ghost predicate Simulates(w: World, code: seq<Block>, from: Machine, o: Outcome, fuel: nat, m: Machine,
                            b: Label, pc: nat, below: nat)
  {
    && from.Running?
    && Reaches(w, code, from, m, if o.OutOfFuel? then fuel else 0)
    && Matches(o, m, b, pc, from.regs, below)
  }

  // ---------- straight-line code ----------

  lemma ExprRuns(w: World, code: seq<Block>, e: Expr, f: Fn, regs: map<Reg, Value>, h: History)
    requires Valid(f) && Prefix(LowerExpr(e, f), code)
    ensures var g, v := LowerExpr(e, f), ValueOf(w, e, h);
            Step(w, code, At(f, regs, h)) == At(g, regs[f.next := v], After(w, e, h))
  {
    var g := LowerExpr(e, f);
    assert g.blocks[f.cur] <= code[f.cur];
    assert code[f.cur][|f.blocks[f.cur]|] == g.blocks[f.cur][|f.blocks[f.cur]|];
  }

  /** The instruction placed at the insert point is the one that runs there. */
  lemma PlacedRuns(f: Fn, i: Inst, code: seq<Block>)
    requires Valid(f) && Prefix(Place(f, i), code)
    ensures f.cur < |code| && |f.blocks[f.cur]| < |code[f.cur]| && code[f.cur][|f.blocks[f.cur]|] == i
    ensures Prefix(f, code)
  {
    var g := Place(f, i);
    assert g.blocks[f.cur] <= code[f.cur];
    assert code[f.cur][|f.blocks[f.cur]|] == g.blocks[f.cur][|f.blocks[f.cur]|];
    forall k | 0 <= k < |f.blocks| ensures f.blocks[k] <= code[k] {
      assert g.blocks[k] <= code[k];
    }
  }

  lemma ConditionRuns(w: World, code: seq<Block>, e: Expr, inverted: bool, f: Fn,
                      regs: map<Reg, Value>, h: History) returns (m: Machine)
    requires Valid(f) && Prefix(Invert(inverted, LowerExpr(e, f)), code)
    ensures var c := Invert(inverted, LowerExpr(e, f));
            && m.Running? && m == At(c, m.regs, After(w, e, h))
            && Reaches(w, code, At(f, regs, h), m, 1)
            && Keeps(regs, m.regs, f.next) && c.next - 1 in m.regs
            && IsTrue(m.regs[c.next - 1]) == (IsTrue(ValueOf(w, e, h)) != inverted)
  {
    var g := LowerExpr(e, f);
    if inverted { PlacedRuns(g, Not(g.next, g.next - 1), code); }
    ExprRuns(w, code, e, f, regs, h);
    ReachesByStep(w, code, At(f, regs, h));
    m := Step(w, code, At(f, regs, h));
    if inverted {
      ReachesByStep(w, code, m);
      ReachesTrans(w, code, At(f, regs, h), m, Step(w, code, m), 1, 0);
      m := Step(w, code, m);
    }
  }

  /** Consecutive registers, from `next` on, hold the values. */
  ghost predicate Hold(regs: map<Reg, Value>, next: Reg, vs: seq<Value>) {
    forall r :: next <= r < next + |vs| ==> r in regs && regs[r] == vs[r - next]
  }

  lemma HoldFirst(regs: map<Reg, Value>, next: Reg, v: Value, vs: seq<Value>)
    ensures next in regs && regs[next] == v && Hold(regs, next + 1, vs) ==> Hold(regs, next, [v] + vs)
  {
  }

  lemma NothingHeld(regs: map<Reg, Value>, next: Reg)
    ensures Keeps(regs, regs, next) && Hold(regs, next, [])
  {
  }

  lemma KeepsFirst(regs: map<Reg, Value>, later: map<Reg, Value>, next: Reg, v: Value)
    ensures Keeps(regs[next := v], later, next + 1) ==>
              Keeps(regs, later, next) && next in later && later[next] == v
  {
    assert next in regs[next := v];
    assert forall r :: r in regs && r < next ==> regs[next := v][r] == regs[r];
  }

  lemma {:induction false} ExprsRun(w: World, code: seq<Block>, es: seq<Expr>, f: Fn,
                                    regs: map<Reg, Value>, h: History) returns (m: Machine)
    requires Valid(f) && Prefix(LowerExprs(es, f), code)
    ensures m.Running? && m == At(LowerExprs(es, f), m.regs, AfterAll(w, es, h))
    ensures Reaches(w, code, At(f, regs, h), m, 0) && Keeps(regs, m.regs, f.next)
    ensures Hold(m.regs, f.next, ValuesOf(w, es, h))
    decreases es
  {
    hide Prefix, Step, ValueOf, After, LowerExpr, Keeps, Hold;
    ReachesByStep(w, code, At(f, regs, h));
    NothingHeld(regs, f.next);
    m := At(f, regs, h);
    if es != [] {
      var g, v := LowerExpr(es[0], f), ValueOf(w, es[0], h);
      ExprsPrefix(es[1..], g, code);
      ExprRuns(w, code, es[0], f, regs, h);
      var m1 := At(g, regs[f.next := v], After(w, es[0], h));
      m := ExprsRun(w, code, es[1..], g, m1.regs, m1.h);
      ReachesTrans(w, code, At(f, regs, h), m1, m, 1, 0);
      KeepsFirst(regs, m.regs, f.next, v);
      HoldFirst(m.regs, f.next, v, ValuesOf(w, es[1..], m1.h));
    }
  }

  lemma {:induction false} ExprsPrefix(es: seq<Expr>, f: Fn, code: seq<Block>)
    requires Valid(f) && Prefix(LowerExprs(es, f), code)
    ensures Prefix(f, code)
    decreases es
  {
    if es != [] {
      ExprsPrefix(es[1..], LowerExpr(es[0], f), code);
      var i := match es[0] case Literal(b) => Const(f.next, b) case Opaque(id) => Eval(f.next, id);
      PlacedRuns(f, i, code);
    }
  }

  lemma ReturnRuns(w: World, code: seq<Block>, es: seq<Expr>, f: Fn, regs: map<Reg, Value>, h: History)
    requires Valid(f) && Open(f) && Prefix(LowerReturn(es, f), code)
    ensures Reaches(w, code, At(f, regs, h),
                    Halted(ReturnValue(ValuesOf(w, es, h)), AfterAll(w, es, h)), 0)
  {
    if |es| == 1 {
      var from := At(f, regs, h);
      var g := LowerExpr(es[0], f);
      PlacedRuns(g, Ret(f.next), code);
      ExprRuns(w, code, es[0], f, regs, h);
      ReachesByStep(w, code, from);
      ReachesByStep(w, code, Step(w, code, from));
      ReachesTrans(w, code, from, Step(w, code, from), Step(w, code, Step(w, code, from)), 1, 0);
      assert ValuesOf(w, es, h) == [ValueOf(w, es[0], h)];
      assert AfterAll(w, es[1..], After(w, es[0], h)) == After(w, es[0], h);
    } else {
      var g := LowerExprs(es, f);
      var p := Place(g, Pack(g.next, seq(|es|, i => f.next + i)));
      PlacedRuns(p, Ret(g.next), code);
      PlacedRuns(g, Pack(g.next, seq(|es|, i => f.next + i)), code);
      var m := ExprsRun(w, code, es, f, regs, h);
      TupleReturnRuns(w, code, m, ValuesOf(w, es, h), seq(|es|, i => f.next + i), g.next);
      ReachesTrans(w, code, At(f, regs, h), m, Halted(Tuple(ValuesOf(w, es, h)), m.h), 0, 0);
    }
  }

  lemma TupleReturnRuns(w: World, code: seq<Block>, m: Machine, vs: seq<Value>, srcs: seq<Reg>, dst: Reg)
    requires m.Running? && m.block < |code| && m.pc + 1 < |code[m.block]|
    requires code[m.block][m.pc] == Pack(dst, srcs) && code[m.block][m.pc + 1] == Ret(dst)
    requires |srcs| == |vs| && forall i :: 0 <= i < |srcs| ==> srcs[i] in m.regs && m.regs[srcs[i]] == vs[i]
    ensures Reaches(w, code, m, Halted(Tuple(vs), m.h), 0)
  {
    var m1 := Step(w, code, m);
    assert seq(|srcs|, i requires 0 <= i < |srcs| => m.regs[srcs[i]]) == vs;
    assert m1 == m.(pc := m.pc + 1, regs := m.regs[dst := Tuple(vs)]);
    ReachesByStep(w, code, m);
    ReachesByStep(w, code, m1);
    ReachesTrans(w, code, m, m1, Step(w, code, m1), 0, 0);
  }

  // ---------- statements ----------

  lemma SimulatesThen(w: World, code: seq<Block>, from: Machine, mid: Machine, o: Outcome, n: nat, fuel: nat,
                      m: Machine, b: Label, pc: nat, below: nat, midBelow: nat)
    requires from.Running? && mid.Running? && below <= midBelow
    ensures Reaches(w, code, from, mid, n) && Keeps(from.regs, mid.regs, below)
            && Simulates(w, code, mid, o, fuel, m, b, pc, midBelow) ==>
              && Simulates(w, code, from, o, fuel + n, m, b, pc, below)
              && Simulates(w, code, from, o, fuel, m, b, pc, below)
  {
    if Reaches(w, code, from, mid, n) && Keeps(from.regs, mid.regs, below)
       && Simulates(w, code, mid, o, fuel, m, b, pc, midBelow)
    {
      ReachesTrans(w, code, from, mid, m, n, if o.OutOfFuel? then fuel else 0);
      if o.Finished? {
        forall r | r in from.regs && r < below ensures r in m.regs && m.regs[r] == from.regs[r] {
          assert r in mid.regs && mid.regs[r] == from.regs[r];
        }
      }
    }
  }

  lemma TestPrefix(t: Test, target: Reg, then_: Label, f: Fn, code: seq<Block>)
    requires Valid(f) && Prefix(LowerTest(t, target, then_, f), code)
    ensures Prefix(f, code)
  {
    var g := LowerExpr(t.expr, Create(f));
    var cmp := Compare(g.next, t.callee, target, g.next - 1);
    var c := Place(g, cmp).(next := g.next + 1);
    PlacedRuns(c, CondBr(c.next - 1, then_, |f.blocks|), code);
    PlacedRuns(g, cmp, code);
    forall i | 0 <= i < |f.blocks| ensures f.blocks[i] <= code[i] {
      assert f.blocks[i] <= g.blocks[i] <= code[i];
    }
  }

  lemma {:induction false} TestsPrefix(tests: seq<Test>, target: Reg, then_: Label, f: Fn, code: seq<Block>)
    requires Valid(f) && Prefix(LowerTests(tests, target, then_, f), code)
    ensures Prefix(f, code)
    decreases tests
  {
    hide LowerTest, Prefix;
    if tests != [] {
      TestsPrefix(tests[1..], target, then_, LowerTest(tests[0], target, then_, f), code);
      TestPrefix(tests[0], target, then_, f, code);
    }
  }

  /** Up to the comparison, whose outcome is in the register of the branch. */
  lemma CompareRuns(w: World, code: seq<Block>, t: Test, target: Reg, f: Fn, c: Fn,
                    regs: map<Reg, Value>, h: History) returns (m: Machine)
    requires Valid(f) && target in regs && target < f.next
    requires c == Place(LowerExpr(t.expr, Create(f)),
                        Compare(f.next + 1, t.callee, target, f.next)).(next := f.next + 2)
    requires Prefix(c, code)
    ensures var v, h1 := ValueOf(w, t.expr, h), After(w, t.expr, h);
            var eq := w.equal(h1, t.callee, regs[target], v);
            && m.Running? && m == At(c, m.regs, h1 + [Compared(t.callee, regs[target], v, eq)])
            && f.next + 1 in m.regs && m.regs[f.next + 1] == Truth(eq)
            && Keeps(regs, m.regs, f.next) && Reaches(w, code, At(f, regs, h), m, 0)
  {
    var g := LowerExpr(t.expr, Create(f));
    PlacedRuns(g, Compare(f.next + 1, t.callee, target, f.next), code);
    var m0 := At(Create(f), regs, h);
    ExprRuns(w, code, t.expr, Create(f), regs, h);
    var m1 := Step(w, code, m0);
    m := Step(w, code, m1);
    ReachesByStep(w, code, m0);
    ReachesByStep(w, code, m1);
    ReachesTrans(w, code, m0, m1, m, 0, 0);
  }

  lemma TestRuns(w: World, code: seq<Block>, t: Test, target: Reg, then_: Label, f: Fn,
                 regs: map<Reg, Value>, h: History) returns (m: Machine)
    requires Valid(f) && target in regs && target < f.next
    requires Prefix(LowerTest(t, target, then_, f), code)
    ensures var (matched, h1) := RunTests(w, regs[target], [t], h);
            && m.Running? && Keeps(regs, m.regs, f.next)
            && Reaches(w, code, At(f, regs, h), m, 0)
            && m == Running(if matched then then_ else |f.blocks|, 0, m.regs, h1)
  {
    var g := LowerExpr(t.expr, Create(f));
    var c := Place(g, Compare(f.next + 1, t.callee, target, f.next)).(next := f.next + 2);
    PlacedRuns(c, CondBr(f.next + 1, then_, |f.blocks|), code);
    var m1 := CompareRuns(w, code, t, target, f, c, regs, h);
    hide Prefix, LowerExpr, Keeps;
    m := Step(w, code, m1);
    ReachesByStep(w, code, m1);
    ReachesTrans(w, code, At(f, regs, h), m1, m, 0, 0);
    assert RunTests(w, regs[target], [t][1..], m.h) == (false, m.h);
  }

  lemma {:induction false} TestsRun(w: World, code: seq<Block>, tests: seq<Test>, target: Reg, then_: Label, f: Fn,
                                    regs: map<Reg, Value>, h: History) returns (m: Machine)
    requires Valid(f) && target in regs && target < f.next
    requires Prefix(LowerTests(tests, target, then_, f), code)
    ensures var (matched, h1) := RunTests(w, regs[target], tests, h);
            && m.Running? && Keeps(regs, m.regs, f.next)
            && Reaches(w, code, At(f, regs, h), m, 0)
            && m == if matched then Running(then_, 0, m.regs, h1)
                    else At(LowerTests(tests, target, then_, f), m.regs, h1)
    decreases tests
  {
    ReachesByStep(w, code, At(f, regs, h));
    m := At(f, regs, h);
    if tests != [] {
      var one := LowerTest(tests[0], target, then_, f);
      TestsPrefix(tests[1..], target, then_, one, code);
      var m1 := TestRuns(w, code, tests[0], target, then_, f, regs, h);
      var (matched, h1) := RunTests(w, regs[target], [tests[0]], h);
      assert RunTests(w, regs[target], tests, h)
          == if matched then (true, h1) else RunTests(w, regs[target], tests[1..], h1);
      m := m1;
      if !matched {
        m := TestsRun(w, code, tests[1..], target, then_, one, m1.regs, h1);
        ReachesTrans(w, code, At(f, regs, h), m1, m, 0, 0);
      }
    }
  }

  /** What is left closed never ends by itself. */
  lemma {:induction false} ClosedStmtNeverEnds(w: World, s: Stmt, f: Fn, h: History, fuel: nat)
    requires Ready(f) && !Open(LowerStmt(s, f))
    ensures !Exec(w, s, h, fuel).Finished?
    decreases s, 1
  {
    StmtGrows(s, f);
    if s.Nested? { ClosedBlockNeverEnds(w, s.block, f, h, fuel); }
  }

  lemma {:induction false} ClosedBlockNeverEnds(w: World, b: seq<Stmt>, f: Fn, h: History, fuel: nat)
    requires Ready(f) && !Open(LowerBlock(b, f))
    ensures !ExecBlock(w, b, h, fuel).Finished?
    decreases b, 0
  {
    hide Continues, Ready;
    StartsReady(f);
    var g := LowerStmt(b[0], f);
    StmtGrows(b[0], f);
    var o := Exec(w, b[0], h, fuel);
    if !Open(g) {
      ClosedStmtNeverEnds(w, b[0], f, h, fuel);
    } else if o.Finished? {
      StaysReady(f, g, {}, {});
      ClosedBlockNeverEnds(w, b[1..], g, o.h, fuel);
    }
  }

  lemma TerminatePrefix(f: Fn, dest: Label, code: seq<Block>)
    requires Valid(f) && Prefix(TerminateWithBr(f, dest), code)
    ensures Prefix(f, code)
    ensures Open(f) ==> f.cur < |code| && |f.blocks[f.cur]| < |code[f.cur]|
                        && code[f.cur][|f.blocks[f.cur]|] == Br(dest)
  {
    if Open(f) { PlacedRuns(f, Br(dest), code); }
  }

  /** A block of statements followed by the branch out of it. */
  lemma {:induction false} ExitRuns(w: World, code: seq<Block>, body: seq<Stmt>, end: Label, f: Fn,
                                    regs: map<Reg, Value>, h: History, fuel: nat) returns (m: Machine)
    requires Ready(f) && Prefix(TerminateWithBr(LowerBlock(body, f), end), code)
    ensures Simulates(w, code, At(f, regs, h), ExecBlock(w, body, h, fuel), fuel, m, end, 0, f.next)
    decreases fuel, body, 2, 0
  {
    hide Continues, Ready;
    StartsReady(f);
    var g := LowerBlock(body, f);
    TerminatePrefix(g, end, code);
    var o := ExecBlock(w, body, h, fuel);
    var m1 := BlockRuns(w, code, body, f, regs, h, fuel);
    m := m1;
    if o.Finished? {
      if !Open(g) { ClosedBlockNeverEnds(w, body, f, h, fuel); }
      m := Step(w, code, m1);
      ReachesByStep(w, code, m1);
      ReachesTrans(w, code, At(f, regs, h), m1, m, 0, 0);
    }
  }

  lemma {:induction false} BlockRuns(w: World, code: seq<Block>, b: seq<Stmt>, f: Fn,
                                     regs: map<Reg, Value>, h: History, fuel: nat) returns (m: Machine)
    requires Ready(f) && Prefix(LowerBlock(b, f), code)
    ensures var r := LowerBlock(b, f);
            Simulates(w, code, At(f, regs, h), ExecBlock(w, b, h, fuel), fuel, m, r.cur, |r.blocks[r.cur]|, f.next)
    decreases fuel, b, 0, 0
  {
    hide Continues, Ready;
    StartsReady(f);
    ReachesByStep(w, code, At(f, regs, h));
    m := At(f, regs, h);
    if b != [] {
      var g := LowerStmt(b[0], f);
      StmtGrows(b[0], f);
      if Open(g) {
        StaysReady(f, g, {}, {});
        BlockGrows(b[1..], g);
        PrefixBack(g, LowerBlock(b[1..], g), {}, {}, code);
      }
      var m1 := StmtRuns(w, code, b[0], f, regs, h, fuel);
      m := m1;
      var o := Exec(w, b[0], h, fuel);
      if !Open(g) {
        ClosedStmtNeverEnds(w, b[0], f, h, fuel);
      } else if o.Finished? {
        m := BlockRuns(w, code, b[1..], g, m1.regs, o.h, fuel);
        var r := LowerBlock(b[1..], g);
        NextGrows(f, g);
        SimulatesThen(w, code, At(f, regs, h), m1, ExecBlock(w, b[1..], o.h, fuel), 0, fuel,
                      m, r.cur, |r.blocks[r.cur]|, f.next, g.next);
      }
    }
  }

  lemma NextGrows(f: Fn, r: Fn)
    requires Valid(f) && Grown(f, r)
    ensures f.next <= r.next
  {
  }

  lemma {:induction false} StmtRuns(w: World, code: seq<Block>, s: Stmt, f: Fn,
                                    regs: map<Reg, Value>, h: History, fuel: nat) returns (m: Machine)
    requires Ready(f) && Prefix(LowerStmt(s, f), code)
    ensures var r := LowerStmt(s, f);
            Simulates(w, code, At(f, regs, h), Exec(w, s, h, fuel), fuel, m, r.cur, |r.blocks[r.cur]|, f.next)
    decreases fuel, s, 2, 0
  {
    hide Continues, Ready;
    StartsReady(f);
    match s
    case Simple(e) =>
      ExprRuns(w, code, e, f, regs, h);
      ReachesByStep(w, code, At(f, regs, h));
      m := Step(w, code, At(f, regs, h));
    case Return(es) =>
      ReturnRuns(w, code, es, f, regs, h);
      m := Halted(ReturnValue(ValuesOf(w, es, h)), AfterAll(w, es, h));
    case If(_, _, _) =>
      m := IfRuns(w, code, s, f, regs, h, fuel);
    case Switch(target, _, _) =>
      m := SwitchRuns(w, code, s, f, regs, h, fuel);
    case While(_, _) =>
      m := WhileRuns(w, code, s, f, regs, h, fuel);
    case PostfixIf(_, _, _) =>
      m := PostfixIfRuns(w, code, s, f, regs, h, fuel);
    case Nested(b) =>
      m := BlockRuns(w, code, b, f, regs, h, fuel);
  }

  // ---------- if ----------

  lemma ClauseHeadRuns(w: World, code: seq<Block>, s: Stmt, i: nat, f: Fn,
                       regs: map<Reg, Value>, h: History) returns (m: Machine)
    requires s.If? && i < |s.clauses| && Valid(f) && Prefix(ClauseHead(s, i, f), code)
    ensures var c := s.clauses[i].cond;
            var taken := IsTrue(ValueOf(w, c, h)) != Inverted(s, i);
            && m.Running? && Keeps(regs, m.regs, f.next)
            && m == Running(if taken then |f.blocks| else |f.blocks| + 1, 0, m.regs, After(w, c, h))
            && Reaches(w, code, At(f, regs, h), m, 0)
  {
    var cond := s.clauses[i].cond;
    var c := Invert(Inverted(s, i), LowerExpr(cond, f));
    var p := Create(CreateInParent(c));
    assert p.blocks == c.blocks + [[], []];
    PlacedRuns(p, CondBr(p.next - 1, |f.blocks|, |f.blocks| + 1), code);
    forall k | 0 <= k < |c.blocks| ensures c.blocks[k] <= code[k] {
      assert p.blocks[k] <= code[k];
    }
    var m1 := ConditionRuns(w, code, cond, Inverted(s, i), f, regs, h);
    assert m1 == At(p, m1.regs, After(w, cond, h));
    m := Step(w, code, m1);
    ReachesByStep(w, code, m1);
    ReachesTrans(w, code, At(f, regs, h), m1, m, 1, 0);
  }

  /** Everything an arm needs, once the rest `r` of the statement is known to be in `code`. */
  lemma ArmPrefix(f: Fn, g: Fn, body: seq<Stmt>, end: Label, else_: Label, code: seq<Block>, r: Fn)
    requires Ready(f) && Valid(f) && Valid(g) && else_ < |g.blocks|
    requires Continues(f, g, {else_}, {}) && Open(g) && end < |f.blocks|
    requires Grown(LowerArm(body, end, else_, g), r) && Prefix(r, code)
    ensures var n := LowerArm(body, end, else_, g);
            && Ready(g) && Ready(n) && f.next <= g.next && f.next <= n.next
            && n.cur == else_ && n.blocks[else_] == []
            && Prefix(g, code) && Prefix(TerminateWithBr(LowerBlock(body, g), end), code) && Prefix(n, code)
  {
    hide Continues, Ready;
    var n := LowerArm(body, end, else_, g);
    ArmGrows(f, g, body, end, else_);
    StaysReady(f, g, {else_}, {});
    StaysReady(f, n, {}, {});
    PrefixBack(n, r, {}, {}, code);
    BlockGrows(body, g);
    TerminatePrefix(LowerBlock(body, g), end, code);
    PrefixBack(g, LowerBlock(body, g), {}, {}, code);
    HeadNextGrows(f, g, {else_}, {});
    NextGrows(f, n);
  }

  lemma {:induction false} ElseRuns(w: World, code: seq<Block>, els: ElseClause, end: Label, f: Fn,
                                    regs: map<Reg, Value>, h: History, fuel: nat) returns (m: Machine)
    requires Ready(f) && Prefix(LowerElse(els, end, f), code)
    ensures var o := if els.Else? then ExecBlock(w, els.block, h, fuel) else Finished(h);
            Simulates(w, code, At(f, regs, h), o, fuel, m, end, 0, f.next)
    decreases fuel, els, 3, 0
  {
    if els.Else? {
      m := ExitRuns(w, code, els.block, end, f, regs, h, fuel);
    } else {
      TerminatePrefix(f, end, code);
      ReachesByStep(w, code, At(f, regs, h));
      m := Step(w, code, At(f, regs, h));
    }
  }

  lemma {:induction false} ClausesRun(w: World, code: seq<Block>, s: Stmt, i: nat, end: Label, f: Fn,
                                      regs: map<Reg, Value>, h: History, fuel: nat) returns (m: Machine)
    requires s.If? && i <= |s.clauses| && Ready(f) && end < |f.blocks|
    requires Prefix(LowerClauses(s, i, end, f), code)
    ensures Simulates(w, code, At(f, regs, h), ExecClauses(w, s, i, h, fuel), fuel, m, end, 0, f.next)
    decreases fuel, s, 0, 2 * (|s.clauses| - i) + 2
  {
    hide Ready, Simulates;
    if i == |s.clauses| {
      m := ElseRuns(w, code, s.ifElse, end, f, regs, h, fuel);
    } else if IsTrue(ValueOf(w, s.clauses[i].cond, h)) != Inverted(s, i) {
      m := ThisClauseRuns(w, code, s, i, end, f, regs, h, fuel);
    } else {
      m := NextClausesRun(w, code, s, i, end, f, regs, h, fuel);
    }
  }

  /** The head of clause `i`, its arm and the clauses behind it are in the code. */
  lemma ClauseInCode(code: seq<Block>, s: Stmt, i: nat, end: Label, f: Fn)
    requires s.If? && i < |s.clauses| && Ready(f) && end < |f.blocks|
    requires Prefix(LowerClauses(s, i, end, f), code)
    ensures var g, body := ClauseHead(s, i, f), s.clauses[i].body;
            var n := LowerArm(body, end, |f.blocks| + 1, g);
            && Ready(g) && Ready(n) && f.next <= g.next && f.next <= n.next
            && Prefix(g, code) && Prefix(TerminateWithBr(LowerBlock(body, g), end), code)
            && end < |n.blocks| && Prefix(LowerClauses(s, i + 1, end, n), code)
            && n.cur == |f.blocks| + 1 && n.blocks[n.cur] == []
  {
    hide Continues, Ready;
    StartsReady(f);
    var body, g, else_ := s.clauses[i].body, ClauseHead(s, i, f), |f.blocks| + 1;
    var n := LowerArm(body, end, else_, g);
    ClauseHeadContinues(s, i, f);
    ArmPrefix(f, g, body, end, else_, code, LowerClauses(s, i, end, f)) by {
      ArmGrows(f, g, body, end, else_);
      StaysReady(f, n, {}, {});
      ClausesGrow(s, i + 1, end, n);
    }
  }

  lemma {:induction false} ThisClauseRuns(w: World, code: seq<Block>, s: Stmt, i: nat, end: Label, f: Fn,
                                          regs: map<Reg, Value>, h: History, fuel: nat) returns (m: Machine)
    requires s.If? && i < |s.clauses| && Ready(f) && end < |f.blocks|
    requires Prefix(LowerClauses(s, i, end, f), code)
    requires IsTrue(ValueOf(w, s.clauses[i].cond, h)) != Inverted(s, i)
    ensures Simulates(w, code, At(f, regs, h), ExecClauses(w, s, i, h, fuel), fuel, m, end, 0, f.next)
    decreases fuel, s, 0, 2 * (|s.clauses| - i) + 1
  {
    hide Ready, Continues, Prefix, LowerArm, LowerBlock, LowerClauses, Simulates, Reaches, Keeps;
    StartsReady(f);
    var body, g := s.clauses[i].body, ClauseHead(s, i, f);
    ClauseInCode(code, s, i, end, f);
    var m1 := ClauseHeadRuns(w, code, s, i, f, regs, h);
    assert m1 == At(g, m1.regs, m1.h);
    m := ExitRuns(w, code, body, end, g, m1.regs, m1.h, fuel);
    SimulatesThen(w, code, At(f, regs, h), m1, ExecBlock(w, body, m1.h, fuel), 0, fuel, m, end, 0, f.next, g.next);
  }

  lemma {:induction false} NextClausesRun(w: World, code: seq<Block>, s: Stmt, i: nat, end: Label, f: Fn,
                                          regs: map<Reg, Value>, h: History, fuel: nat) returns (m: Machine)
    requires s.If? && i < |s.clauses| && Ready(f) && end < |f.blocks|
    requires Prefix(LowerClauses(s, i, end, f), code)
    requires IsTrue(ValueOf(w, s.clauses[i].cond, h)) == Inverted(s, i)
    ensures Simulates(w, code, At(f, regs, h), ExecClauses(w, s, i, h, fuel), fuel, m, end, 0, f.next)
    decreases fuel, s, 0, 2 * (|s.clauses| - i) + 1
  {
    hide Ready, Continues, Prefix, ClauseHead, LowerArm, LowerBlock, LowerClauses, Simulates, Reaches, Keeps;
    StartsReady(f);
    var n := LowerArm(s.clauses[i].body, end, |f.blocks| + 1, ClauseHead(s, i, f));
    ClauseInCode(code, s, i, end, f);
    var m1 := ClauseHeadRuns(w, code, s, i, f, regs, h);
    m := ClausesRun(w, code, s, i + 1, end, n, m1.regs, m1.h, fuel);
    SimulatesThen(w, code, At(f, regs, h), m1, ExecClauses(w, s, i + 1, m1.h, fuel), 0, fuel,
                  m, end, 0, f.next, n.next);
  }

  lemma HeadNextGrows(f: Fn, r: Fn, d: set<Label>, q: set<Label>)
    requires Valid(f) && Continues(f, r, d, q)
    ensures f.next <= r.next
  {
  }

  lemma {:induction false} IfRuns(w: World, code: seq<Block>, s: Stmt, f: Fn,
                                  regs: map<Reg, Value>, h: History, fuel: nat) returns (m: Machine)
    requires Ready(f) && s.If? && Prefix(LowerStmt(s, f), code)
    ensures var r := LowerStmt(s, f);
            Simulates(w, code, At(f, regs, h), Exec(w, s, h, fuel), fuel, m, r.cur, |r.blocks[r.cur]|, f.next)
    decreases fuel, s, 1, 0
  {
    hide Continues, Ready;
    StartsReady(f);
    var end := |f.blocks|;
    CreateStep(f, f, {}, {});
    assert {} + {end} == {end};
    StaysReady(f, Create(f), {end}, {});
    ClausesGrow(s, 0, end, Create(f));
    var r := LowerClauses(s, 0, end, Create(f));
    ContinuesTrans(f, Create(f), r, {end}, {});
    AppendStep(f, r, end, {end}, {});
    m := ClausesRun(w, code, s, 0, end, Create(f), regs, h, fuel);
  }

  lemma SwitchShape(s: Stmt, f: Fn)
    requires Ready(f) && s.Switch?
    ensures var g := LowerExpr(s.target, Create(f));
            var r := LowerWhens(s, 0, f.next, |f.blocks|, g);
            && Ready(g) && g.next == f.next + 1 && |f.blocks| < |g.blocks| && Grown(g, r)
            && LowerStmt(s, f) == Append(r, |f.blocks|) && r.blocks == LowerStmt(s, f).blocks
            && |f.blocks| < |r.blocks| && r.blocks[|f.blocks|] == []
  {
    hide Continues, Ready;
    StartsReady(f);
    var end := |f.blocks|;
    CreateStep(f, f, {}, {});
    assert {} + {end} == {end};
    ExprStep(f, Create(f), s.target, {end}, {});
    var g := LowerExpr(s.target, Create(f));
    StaysReady(f, g, {end}, {});
    WhensGrow(s, 0, g.next - 1, end, g);
    var r := LowerWhens(s, 0, g.next - 1, end, g);
    ContinuesTrans(f, g, r, {end}, {});
    AppendStep(f, r, end, {end}, {});
  }

  lemma {:induction false} SwitchRuns(w: World, code: seq<Block>, s: Stmt, f: Fn,
                                      regs: map<Reg, Value>, h: History, fuel: nat) returns (m: Machine)
    requires Ready(f) && s.Switch? && Prefix(LowerStmt(s, f), code)
    ensures var r := LowerStmt(s, f);
            Simulates(w, code, At(f, regs, h), Exec(w, s, h, fuel), fuel, m, r.cur, |r.blocks[r.cur]|, f.next)
    decreases fuel, s, 1, 0
  {
    SwitchShape(s, f);
    hide Continues, Ready, LowerWhens, LowerStmt;
    StartsReady(f);
    var end, g := |f.blocks|, LowerExpr(s.target, Create(f));
    PrefixBack(g, LowerWhens(s, 0, f.next, end, g), {}, {}, code);
    ExprRuns(w, code, s.target, Create(f), regs, h);
    ReachesByStep(w, code, At(f, regs, h));
    var m1 := Step(w, code, At(f, regs, h));
    m := WhensRun(w, code, s, 0, f.next, end, g, m1.regs, m1.h, fuel);
    SimulatesThen(w, code, At(f, regs, h), m1, ExecWhens(w, s, 0, m1.regs[f.next], m1.h, fuel), 1, fuel,
                  m, end, 0, f.next, g.next);
  }

  lemma WhenHeadRuns(w: World, code: seq<Block>, s: Stmt, i: nat, target: Reg, f: Fn,
                     regs: map<Reg, Value>, h: History) returns (m: Machine)
    requires s.Switch? && i < |s.whens| && Valid(f) && Prefix(WhenHead(s, i, target, f), code)
    requires target in regs && target < f.next
    ensures var (matched, h1) := RunTests(w, regs[target], s.whens[i].tests, h);
            && m.Running? && Keeps(regs, m.regs, f.next)
            && m == Running(if matched then |f.blocks| else |f.blocks| + 1, 0, m.regs, h1)
            && Reaches(w, code, At(f, regs, h), m, 0)
  {
    var f2 := Create(Create(f));
    var t := LowerTests(s.whens[i].tests, target, |f.blocks|, f2);
    PlacedRuns(t, Br(|f.blocks| + 1), code);
    var m1 := TestsRun(w, code, s.whens[i].tests, target, |f.blocks|, f2, regs, h);
    m := m1;
    var (matched, h1) := RunTests(w, regs[target], s.whens[i].tests, h);
    if !matched {
      m := Step(w, code, m1);
      ReachesByStep(w, code, m1);
      ReachesTrans(w, code, At(f, regs, h), m1, m, 0, 0);
    }
  }

  lemma {:induction false} WhensRun(w: World, code: seq<Block>, s: Stmt, i: nat, target: Reg, end: Label, f: Fn,
                                    regs: map<Reg, Value>, h: History, fuel: nat) returns (m: Machine)
    requires s.Switch? && i <= |s.whens| && Ready(f) && end < |f.blocks|
    requires target in regs && target < f.next
    requires Prefix(LowerWhens(s, i, target, end, f), code)
    ensures Simulates(w, code, At(f, regs, h), ExecWhens(w, s, i, regs[target], h, fuel), fuel, m, end, 0, f.next)
    decreases fuel, s, 0, |s.whens| - i + 1
  {
    hide Continues, Ready;
    StartsReady(f);
    if i == |s.whens| {
      hide Simulates;
      m := ElseRuns(w, code, s.switchElse, end, f, regs, h, fuel);
    } else {
      var body := s.whens[i].body;
      var g, else_ := WhenHead(s, i, target, f), |f.blocks| + 1;
      var n := LowerArm(body, end, else_, g);
      WhenHeadContinues(s, i, target, f);
      ArmPrefix(f, g, body, end, else_, code, LowerWhens(s, i, target, end, f)) by {
        ArmGrows(f, g, body, end, else_);
        StaysReady(f, n, {}, {});
        WhensGrow(s, i + 1, target, end, n);
      }
      hide LowerArm, WhenHead, Prefix, LowerBlock, Simulates, LowerWhens;
      var m1 := WhenHeadRuns(w, code, s, i, target, f, regs, h);
      var (matched, h1) := RunTests(w, regs[target], s.whens[i].tests, h);
      if matched {
        m := ExitRuns(w, code, body, end, g, m1.regs, m1.h, fuel);
        SimulatesThen(w, code, At(f, regs, h), m1, ExecBlock(w, body, m1.h, fuel), 0, fuel, m, end, 0, f.next, g.next);
      } else {
        m := WhensRun(w, code, s, i + 1, target, end, n, m1.regs, m1.h, fuel);
        SimulatesThen(w, code, At(f, regs, h), m1, ExecWhens(w, s, i + 1, regs[target], m1.h, fuel), 0, fuel,
                      m, end, 0, f.next, n.next);
      }
    }
  }

  // ---------- loops and postfix if ----------

  /** One evaluation of a loop's condition, from the header block. */
  lemma WhileHeadRuns(w: World, code: seq<Block>, cond: Expr, f: Fn,
                      regs: map<Reg, Value>, h: History) returns (m: Machine)
    requires Valid(f) && Prefix(WhileHead(cond, f), code)
    ensures && m.Running? && Keeps(regs, m.regs, f.next)
            && m == Running(if IsTrue(ValueOf(w, cond, h)) then |f.blocks| + 1 else |f.blocks| + 2, 0,
                            m.regs, After(w, cond, h))
            && Reaches(w, code, Running(|f.blocks|, 0, regs, h), m, 1)
    ensures Step(w, code, At(f, regs, h)) == Running(|f.blocks|, 0, regs, h)
  {
    var header := |f.blocks|;
    var g0 := CreateInParent(CreateInParent(CreateInParent(f)));
    var g := MoveTo(Place(g0, Br(header)), header);
    var c := LowerExpr(cond, g);
    PlacedRuns(c, CondBr(c.next - 1, header + 1, header + 2), code);
    var m1 := ConditionRuns(w, code, cond, false, g, regs, h);
    assert At(g, regs, h) == Running(header, 0, regs, h);
    m := Step(w, code, m1);
    ReachesByStep(w, code, m1);
    ReachesTrans(w, code, At(g, regs, h), m1, m, 1, 0);
    var i := match cond case Literal(b) => Const(g.next, b) case Opaque(id) => Eval(g.next, id);
    PlacedRuns(g, i, code);
    PlacedRuns(g0, Br(header), code);
  }

  lemma {:induction false} LoopRuns(w: World, code: seq<Block>, s: Stmt, f: Fn,
                                    regs: map<Reg, Value>, h: History, fuel: nat) returns (m: Machine)
    requires Ready(f) && s.While? && Prefix(LowerStmt(s, f), code)
    ensures Simulates(w, code, Running(|f.blocks|, 0, regs, h), Exec(w, s, h, fuel), fuel,
                      m, |f.blocks| + 2, 0, f.next)
    decreases fuel, s, 0, 1
  {
    hide Continues, Ready;
    StartsReady(f);
    var start := Running(|f.blocks|, 0, regs, h);
    ReachesByStep(w, code, start);
    m := start;
    if fuel > 0 {
      var g := WhileHead(s.cond, f);
      LoopBodyInCode(code, s, f);
      m := WhileHeadRuns(w, code, s.cond, f, regs, h);
      if IsTrue(ValueOf(w, s.cond, h)) {
        var m1 := m;
        hide Prefix, WhileHead, LowerBlock;
        m := PassRuns(w, code, s, f, m1.regs, m1.h, fuel);
        var o := ExecBlock(w, s.body, m1.h, fuel - 1);
        SimulatesThen(w, code, start, m1, if o.Finished? then Exec(w, s, o.h, fuel - 1) else o, 1, fuel - 1,
                      m, |f.blocks| + 2, 0, f.next, f.next);
      }
    }
  }

  /** The head of a loop and its body with the branch back are in the code of the loop. */
  lemma LoopBodyInCode(code: seq<Block>, s: Stmt, f: Fn)
    requires Ready(f) && s.While? && Prefix(LowerStmt(s, f), code)
    ensures var g := WhileHead(s.cond, f);
            && Ready(g) && f.next <= g.next && Prefix(g, code)
            && Prefix(TerminateWithBr(LowerBlock(s.body, g), |f.blocks|), code)
  {
    hide Continues, Ready;
    StartsReady(f);
    var g, exit := WhileHead(s.cond, f), |f.blocks| + 2;
    WhileHeadContinues(s.cond, f);
    StaysReady(f, g, {}, {exit});
    HeadNextGrows(f, g, {}, {exit});
    BlockGrows(s.body, g);
    TerminatePrefix(LowerBlock(s.body, g), |f.blocks|, code);
    PrefixBack(g, LowerBlock(s.body, g), {}, {}, code);
  }

  /** One pass through the body, from its start, and the passes after it. */
  lemma {:induction false} PassRuns(w: World, code: seq<Block>, s: Stmt, f: Fn,
                                    regs: map<Reg, Value>, h: History, fuel: nat) returns (m: Machine)
    requires Ready(f) && s.While? && Prefix(LowerStmt(s, f), code) && fuel > 0
    ensures var o := ExecBlock(w, s.body, h, fuel - 1);
            Simulates(w, code, At(WhileHead(s.cond, f), regs, h),
                      if o.Finished? then Exec(w, s, o.h, fuel - 1) else o, fuel - 1,
                      m, |f.blocks| + 2, 0, f.next)
    decreases fuel, s, 0, 0
  {
    var g := WhileHead(s.cond, f);
    LoopBodyInCode(code, s, f);
    hide Ready, Prefix, WhileHead, LowerBlock;
    var o := ExecBlock(w, s.body, h, fuel - 1);
    m := ExitRuns(w, code, s.body, |f.blocks|, g, regs, h, fuel - 1);
    if o.Finished? {
      var m2 := m;
      m := LoopRuns(w, code, s, f, m2.regs, o.h, fuel - 1);
      SimulatesThen(w, code, At(g, regs, h), m2, Exec(w, s, o.h, fuel - 1), 0, fuel - 1,
                    m, |f.blocks| + 2, 0, f.next, f.next);
    }
  }

  lemma {:induction false} WhileRuns(w: World, code: seq<Block>, s: Stmt, f: Fn,
                                     regs: map<Reg, Value>, h: History, fuel: nat) returns (m: Machine)
    requires Ready(f) && s.While? && Prefix(LowerStmt(s, f), code)
    ensures var r := LowerStmt(s, f);
            Simulates(w, code, At(f, regs, h), Exec(w, s, h, fuel), fuel, m, r.cur, |r.blocks[r.cur]|, f.next)
    decreases fuel, s, 1, 0
  {
    hide Continues, Ready;
    StartsReady(f);
    var g, exit := WhileHead(s.cond, f), |f.blocks| + 2;
    WhileHeadContinues(s.cond, f);
    StaysReady(f, g, {}, {exit});
    BlockGrows(s.body, g);
    ContinuesTrans(f, g, LowerBlock(s.body, g), {}, {exit});
    TerminateStep(f, LowerBlock(s.body, g), |f.blocks|, {}, {exit});
    MoveStep(f, TerminateWithBr(LowerBlock(s.body, g), |f.blocks|), exit, {}, {exit});
    TerminatePrefix(LowerBlock(s.body, g), |f.blocks|, code);
    PrefixBack(g, LowerBlock(s.body, g), {}, {}, code);
    var _ := WhileHeadRuns(w, code, s.cond, f, regs, h);
    ReachesByStep(w, code, At(f, regs, h));
    m := LoopRuns(w, code, s, f, regs, h, fuel);
    SimulatesThen(w, code, At(f, regs, h), Running(|f.blocks|, 0, regs, h), Exec(w, s, h, fuel), 1, fuel,
                  m, exit, 0, f.next, f.next);
  }

  /** The head of a postfix `if` and its statement with the branch out are in its code, which
      goes on in the empty end block. */
  lemma GuardedInCode(code: seq<Block>, s: Stmt, f: Fn)
    requires Ready(f) && s.PostfixIf? && Prefix(LowerStmt(s, f), code)
    ensures var t, r := PostfixIfHead(s, f), LowerStmt(s, f);
            && Ready(t) && f.next <= t.next && Prefix(t, code) && t.cur == |f.blocks| && t.blocks[t.cur] == []
            && Prefix(TerminateWithBr(LowerStmt(s.guarded, t), |f.blocks| + 1), code)
            && r.cur == |f.blocks| + 1 && r.blocks[r.cur] == []
  {
    hide Continues, Ready;
    StartsReady(f);
    var t, end := PostfixIfHead(s, f), |f.blocks| + 1;
    PostfixIfHeadContinues(s, f);
    StaysReady(f, t, {}, {end});
    HeadNextGrows(f, t, {}, {end});
    StmtGrows(s.guarded, t);
    var g := LowerStmt(s.guarded, t);
    ContinuesTrans(f, t, g, {}, {end});
    TerminateStep(f, g, end, {}, {end});
    MoveStep(f, TerminateWithBr(g, end), end, {}, {end});
    TerminatePrefix(g, end, code);
    PrefixBack(t, g, {}, {}, code);
  }

  lemma {:induction false} PostfixIfRuns(w: World, code: seq<Block>, s: Stmt, f: Fn,
                                         regs: map<Reg, Value>, h: History, fuel: nat) returns (m: Machine)
    requires Ready(f) && s.PostfixIf? && Prefix(LowerStmt(s, f), code)
    ensures var r := LowerStmt(s, f);
            Simulates(w, code, At(f, regs, h), Exec(w, s, h, fuel), fuel, m, r.cur, |r.blocks[r.cur]|, f.next)
    decreases fuel, s, 0, 0
  {
    hide Continues, Ready, Prefix, PostfixIfHead, LowerStmt;
    StartsReady(f);
    GuardedInCode(code, s, f);
    var t := PostfixIfHead(s, f);
    m := PostfixIfHeadRuns(w, code, s, f, regs, h);
    if IsTrue(ValueOf(w, s.guard, h)) != s.negated {
      var m1 := m;
      m := GuardedRuns(w, code, s.guarded, |f.blocks| + 1, t, m1.regs, m1.h, fuel);
      SimulatesThen(w, code, At(f, regs, h), m1, Exec(w, s.guarded, m1.h, fuel), 0, fuel,
                    m, |f.blocks| + 1, 0, f.next, t.next);
    }
  }

  /** A single statement followed by the branch out of it. */
  lemma {:induction false} GuardedRuns(w: World, code: seq<Block>, s: Stmt, end: Label, t: Fn,
                                       regs: map<Reg, Value>, h: History, fuel: nat) returns (m: Machine)
    requires Ready(t) && Prefix(TerminateWithBr(LowerStmt(s, t), end), code)
    ensures Simulates(w, code, At(t, regs, h), Exec(w, s, h, fuel), fuel, m, end, 0, t.next)
    decreases fuel, s, 3, 0
  {
    hide Continues, Ready, LowerStmt;
    StartsReady(t);
    var g := LowerStmt(s, t);
    TerminatePrefix(g, end, code);
    m := StmtRuns(w, code, s, t, regs, h, fuel);
    if Exec(w, s, h, fuel).Finished? {
      if !Open(g) { ClosedStmtNeverEnds(w, s, t, h, fuel); }
      var m2 := m;
      m := Step(w, code, m2);
      ReachesByStep(w, code, m2);
      ReachesTrans(w, code, At(t, regs, h), m2, m, 0, 0);
    }
  }

  lemma PostfixIfHeadRuns(w: World, code: seq<Block>, s: Stmt, f: Fn,
                          regs: map<Reg, Value>, h: History) returns (m: Machine)
    requires s.PostfixIf? && Valid(f) && Prefix(PostfixIfHead(s, f), code)
    ensures var taken := IsTrue(ValueOf(w, s.guard, h)) != s.negated;
            && m.Running? && Keeps(regs, m.regs, f.next)
            && m == Running(if taken then |f.blocks| else |f.blocks| + 1, 0, m.regs, After(w, s.guard, h))
            && Reaches(w, code, At(f, regs, h), m, 0)
  {
    var g := CreateInParent(CreateInParent(f));
    var c := Invert(s.negated, LowerExpr(s.guard, g));
    PlacedRuns(c, CondBr(c.next - 1, |f.blocks|, |f.blocks| + 1), code);
    var m1 := ConditionRuns(w, code, s.guard, s.negated, g, regs, h);
    m := Step(w, code, m1);
    ReachesByStep(w, code, m1);
    ReachesTrans(w, code, At(f, regs, h), m1, m, 1, 0);
  }

  // ---------- whole functions ----------

  // Results, effects and divergence are those of the statements, and the trailing `unreachable` of
  // a checked function is never run.

  const START: Machine := Running(0, 0, map[], [])

  function CodeOf(body: seq<Stmt>, returnsUnit: bool): seq<Block> {
    LowerFunction(body, returnsUnit).blocks
  }

  /** Where a body leads the machine: falling off the end of a unit function returns `()`. */
  ghost predicate LeadsTo(o: Outcome, returnsUnit: bool, m: Machine) {
    match o
    case Returned(v, h) => m == Halted(v, h)
    case Finished(h) => m == if returnsUnit then Halted(Tuple([]), h) else Trapped(h)
    case OutOfFuel(h) => m.Running? && m.h == h
  }

  lemma FunctionRuns(w: World, body: seq<Stmt>, returnsUnit: bool, fuel: nat) returns (m: Machine)
    ensures var o := ExecBlock(w, body, [], fuel);
            && Reaches(w, CodeOf(body, returnsUnit), START, m, if o.OutOfFuel? then fuel else 0)
            && LeadsTo(o, returnsUnit, m)
  {
    var f := Fn([[]], [0], 0, 0);
    assert Ready(f);
    BlockGrows(body, f);
    var g := LowerBlock(body, f);
    var code := CodeOf(body, returnsUnit);
    assert Prefix(g, code);
    m := BlockRuns(w, code, body, f, map[], [], fuel);
    assert At(f, map[], []) == START;
    if ExecBlock(w, body, [], fuel).Finished? {
      if !Open(g) { ClosedBlockNeverEnds(w, body, f, [], fuel); }
      var m1 := m;
      m := Step(w, code, m1);
      ReachesByStep(w, code, m1);
      ReachesTrans(w, code, START, m1, m, 0, 0);
      if returnsUnit {
        var m2 := m;
        var p := Place(g, Pack(g.next, []));
        assert code[g.cur] == p.blocks[g.cur] + [Ret(g.next)];
        assert m2.regs[g.next] == Tuple([]);
        m := Step(w, code, m2);
        ReachesByStep(w, code, m2);
        ReachesTrans(w, code, START, m2, m, 0, 0);
      }
    }
  }

  /** Two machines on one run are the same once the earlier one has stopped. */
  lemma RunSettles(w: World, code: seq<Block>, a: Machine, k: nat, l: nat)
    requires k <= l
    ensures !Run(w, code, a, k).Running? ==> Run(w, code, a, l) == Run(w, code, a, k)
  {
    RunAdd(w, code, a, k, l - k);
    if !Run(w, code, a, k).Running? { RunStopped(w, code, Run(w, code, a, k), l - k); }
  }

  /** How the machine is after `k` steps, given what the source does with fuel `k + 1`. */
  lemma RunAgrees(w: World, body: seq<Stmt>, returnsUnit: bool, k: nat)
    ensures var o := ExecBlock(w, body, [], k + 1);
            var r := Run(w, CodeOf(body, returnsUnit), START, k);
            r.Running? || (!o.OutOfFuel? && LeadsTo(o, returnsUnit, r))
  {
    var o, code := ExecBlock(w, body, [], k + 1), CodeOf(body, returnsUnit);
    var m := FunctionRuns(w, body, returnsUnit, k + 1);
    var l: nat :| Run(w, code, START, l) == m && (o.OutOfFuel? ==> l >= k + 1);
    if k <= l { RunSettles(w, code, START, k, l); } else { RunSettles(w, code, START, l, k); }
  }

  /** The result of a call, once the fuel is enough. */
  function ResultOf(w: World, body: seq<Stmt>, returnsUnit: bool, fuel: nat): Outcome {
    match ExecBlock(w, body, [], fuel)
    case Finished(h) => if returnsUnit then Returned(Tuple([]), h) else Finished(h)
    case other => other
  }

  /** The blocks return a value with some effects exactly when the statements do. */
  lemma LoweringPreservesResults(w: World, body: seq<Stmt>, returnsUnit: bool, v: Value, h: History)
    ensures (exists k: nat :: Run(w, CodeOf(body, returnsUnit), START, k) == Halted(v, h))
       <==> (exists fuel: nat :: ResultOf(w, body, returnsUnit, fuel) == Returned(v, h))
  {
    var code := CodeOf(body, returnsUnit);
    if k: nat :| Run(w, code, START, k) == Halted(v, h) {
      RunAgrees(w, body, returnsUnit, k);
      assert ResultOf(w, body, returnsUnit, k + 1) == Returned(v, h);
    }
    if fuel: nat :| ResultOf(w, body, returnsUnit, fuel) == Returned(v, h) {
      var m := FunctionRuns(w, body, returnsUnit, fuel);
      assert m == Halted(v, h);
    }
  }

  /** The blocks run forever exactly when the statements do. */
  lemma LoweringPreservesDivergence(w: World, body: seq<Stmt>, returnsUnit: bool)
    ensures (forall k: nat :: Run(w, CodeOf(body, returnsUnit), START, k).Running?)
       <==> (forall fuel: nat :: ExecBlock(w, body, [], fuel).OutOfFuel?)
  {
    var code := CodeOf(body, returnsUnit);
    if !(forall fuel: nat :: ExecBlock(w, body, [], fuel).OutOfFuel?) {
      var fuel: nat :| !ExecBlock(w, body, [], fuel).OutOfFuel?;
      var m := FunctionRuns(w, body, returnsUnit, fuel);
      var k: nat :| Run(w, code, START, k) == m;
      assert !Run(w, code, START, k).Running?;
    }
    if !(forall k: nat :: Run(w, code, START, k).Running?) {
      var k: nat :| !Run(w, code, START, k).Running?;
      RunAgrees(w, body, returnsUnit, k);
      assert !ExecBlock(w, body, [], k + 1).OutOfFuel?;
    }
  }

  lemma {:induction false} RunOnlyAddsEffects(w: World, code: seq<Block>, m: Machine, k: nat)
    ensures m.h <= Run(w, code, m, k).h
    decreases k
  {
    if k > 0 { RunOnlyAddsEffects(w, code, Step(w, code, m), k - 1); }
  }

  /** At any moment, what the blocks have done is the beginning of what the statements do. */
  lemma LoweringPreservesEffects(w: World, body: seq<Stmt>, returnsUnit: bool, k: nat)
    ensures Run(w, CodeOf(body, returnsUnit), START, k).h <= ExecBlock(w, body, [], k).h
  {
    var o, code := ExecBlock(w, body, [], k), CodeOf(body, returnsUnit);
    var m := FunctionRuns(w, body, returnsUnit, k);
    var l: nat :| Run(w, code, START, l) == m && (o.OutOfFuel? ==> l >= k);
    if k <= l {
      RunAdd(w, code, START, k, l - k);
      RunOnlyAddsEffects(w, code, Run(w, code, START, k), l - k);
    } else {
      RunSettles(w, code, START, l, k);
    }
  }

  /** A function that passed the missing-return check, or needs none, never traps: in
      particular the `unreachable` emitted behind its body is never executed. */
  lemma CheckedFunctionNeverTraps(w: World, body: seq<Stmt>, returnsUnit: bool, k: nat)
    requires returnsUnit || BlockReturns(body)
    ensures !Run(w, CodeOf(body, returnsUnit), START, k).Trapped?
  {
    RunAgrees(w, body, returnsUnit, k);
    if !returnsUnit { ReturningBlockNeverEnds(w, body, [], k + 1); }
  }
}
