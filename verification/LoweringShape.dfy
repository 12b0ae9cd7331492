/** Lowering leaves no loose end: every block is attached once and closed, save the one left open. */
module LoweringShape {
  import opened Structured
  import opened BasicBlocks
  import opened Lowering

  /** How often a block is attached to the function. */
  function Times(layout: seq<Label>, b: Label): nat { multiset(layout)[b] }

  /** A function under construction whose insert block can take another statement. */
  ghost predicate Ready(f: Fn) {
    && Valid(f) && Open(f) && f.layout != [] && Times(f.layout, f.cur) == 1
    && (forall i :: 0 <= i < |f.blocks| ==> WellFormed(f.blocks[i], |f.blocks|))
    && (forall i :: i >= |f.blocks| ==> Times(f.layout, i) == 0)
  }

  /** `r` continues `f`.  Blocks of `f` other than its insert block are untouched.  Of the
      new blocks, those in `detached` and in `waiting` are still empty, the former not yet
      attached; every other one but the insert block is closed and attached once. */
  ghost predicate Continues(f: Fn, r: Fn, detached: set<Label>, waiting: set<Label>)
    requires Valid(f)
  {
    && Valid(r) && |f.blocks| <= |r.blocks| && f.next <= r.next
    && (r.cur == f.cur || |f.blocks| <= r.cur)
    && (forall i :: 0 <= i < |f.blocks| && i != f.cur ==> r.blocks[i] == f.blocks[i])
    && f.blocks[f.cur] <= r.blocks[f.cur]
    && (r.cur != f.cur ==> Terminated(r.blocks[f.cur]))
    && r.cur !in detached && r.cur !in waiting && detached !! waiting
    && (forall i :: i in detached + waiting ==> |f.blocks| <= i < |r.blocks| && r.blocks[i] == [])
    && (forall i :: |f.blocks| <= i < |r.blocks| && i != r.cur && i !in detached && i !in waiting
                    ==> Terminated(r.blocks[i]))
    && f.layout != [] && r.layout != [] && r.layout[0] == f.layout[0]
    && (forall i :: 0 <= i < |f.blocks| ==> Times(r.layout, i) == Times(f.layout, i))
    && (forall i :: |f.blocks| <= i < |r.blocks| ==> Times(r.layout, i) == if i in detached then 0 else 1)
    && (forall i :: i >= |r.blocks| ==> Times(r.layout, i) == 0)
    && (forall i :: 0 <= i < |r.blocks| ==> WellFormed(r.blocks[i], |r.blocks|))
  }

  ghost predicate Grown(f: Fn, r: Fn)
    requires Valid(f)
  {
    Continues(f, r, {}, {})
  }

  // ---------- the builder steps ----------

  lemma ContinuesTrans(f: Fn, r: Fn, s: Fn, d: set<Label>, q: set<Label>)
    requires Ready(f) && Continues(f, r, d, q) && Grown(r, s)
    ensures Continues(f, s, d, q)
  {
  }

  lemma StaysReady(f: Fn, r: Fn, d: set<Label>, q: set<Label>)
    requires Ready(f) && Continues(f, r, d, q) && Open(r)
    ensures Ready(r)
  {
  }

  lemma StartsReady(f: Fn)
    requires Ready(f)
    ensures Valid(f) && Open(f) && Grown(f, f)
  {
  }

  lemma CreateStep(f: Fn, r: Fn, d: set<Label>, q: set<Label>)
    requires Ready(f) && Continues(f, r, d, q)
    ensures Continues(f, Create(r), d + {|r.blocks|}, q) && |r.blocks| !in d
    ensures Open(Create(r)) == Open(r)
  {
    var s := Create(r);
    forall i | 0 <= i < |s.blocks| ensures WellFormed(s.blocks[i], |s.blocks|) {
      if i < |r.blocks| { assert WellFormed(r.blocks[i], |r.blocks|); }
    }
  }

  lemma CreateInParentStep(f: Fn, r: Fn, d: set<Label>, q: set<Label>)
    requires Ready(f) && Continues(f, r, d, q)
    ensures Continues(f, CreateInParent(r), d, q + {|r.blocks|})
    ensures Open(CreateInParent(r)) == Open(r)
  {
    var s := CreateInParent(r);
    assert forall i :: Times(s.layout, i) == Times(r.layout, i) + if i == |r.blocks| then 1 else 0;
    forall i | 0 <= i < |s.blocks| ensures WellFormed(s.blocks[i], |s.blocks|) {
      if i < |r.blocks| { assert WellFormed(r.blocks[i], |r.blocks|); }
    }
  }

  lemma PlaceStep(f: Fn, r: Fn, i: Inst, next: Reg, d: set<Label>, q: set<Label>)
    requires Ready(f) && Continues(f, r, d, q) && Open(r) && TargetsBelow(i, |r.blocks|)
    requires r.next <= next
    ensures Continues(f, Place(r, i).(next := next), d, q)
    ensures Open(Place(r, i).(next := next)) <==> !IsTerminator(i)
  {
    var s := Place(r, i).(next := next);
    forall k | 0 <= k < |s.blocks| ensures WellFormed(s.blocks[k], |s.blocks|) {
      assert WellFormed(r.blocks[k], |r.blocks|);
    }
  }

  lemma AppendStep(f: Fn, r: Fn, b: Label, d: set<Label>, q: set<Label>)
    requires Ready(f) && Continues(f, r, d, q) && !Open(r) && b in d
    ensures Continues(f, Append(r, b), d - {b}, q) && Open(Append(r, b)) && r.blocks[b] == []
  {
    assert Times(r.layout, r.cur) == 1;
    InsertAfterContents(r.layout, r.cur, b);
    var s := Append(r, b);
    assert forall i :: Times(s.layout, i) == Times(r.layout, i) + if i == b then 1 else 0;
  }

  lemma MoveStep(f: Fn, r: Fn, b: Label, d: set<Label>, q: set<Label>)
    requires Ready(f) && Continues(f, r, d, q) && !Open(r) && b in q
    ensures Continues(f, MoveTo(r, b), d, q - {b}) && Open(MoveTo(r, b)) && r.blocks[b] == []
  {
  }

  lemma TerminateStep(f: Fn, r: Fn, dest: Label, d: set<Label>, q: set<Label>)
    requires Ready(f) && Continues(f, r, d, q) && dest < |r.blocks|
    ensures Continues(f, TerminateWithBr(r, dest), d, q) && !Open(TerminateWithBr(r, dest))
  {
    if Open(r) { PlaceStep(f, r, Br(dest), r.next, d, q); }
  }

  lemma BranchStep(f: Fn, r: Fn, ifTrue: Label, ifFalse: Label, d: set<Label>, q: set<Label>)
    requires Ready(f) && Continues(f, r, d, q) && Open(r)
    requires r.next > 0 && ifTrue < |r.blocks| && ifFalse < |r.blocks|
    ensures Continues(f, BranchOn(r, ifTrue, ifFalse), d, q) && !Open(BranchOn(r, ifTrue, ifFalse))
  {
    PlaceStep(f, r, CondBr(r.next - 1, ifTrue, ifFalse), r.next, d, q);
  }

  lemma ExprStep(f: Fn, r: Fn, e: Expr, d: set<Label>, q: set<Label>)
    requires Ready(f) && Continues(f, r, d, q) && Open(r)
    ensures Continues(f, LowerExpr(e, r), d, q) && Open(LowerExpr(e, r))
  {
    var i := match e case Literal(b) => Const(r.next, b) case Opaque(id) => Eval(r.next, id);
    PlaceStep(f, r, i, r.next + 1, d, q);
  }

  lemma ConditionStep(f: Fn, r: Fn, e: Expr, inverted: bool, d: set<Label>, q: set<Label>)
    requires Ready(f) && Continues(f, r, d, q) && Open(r)
    ensures var c := Invert(inverted, LowerExpr(e, r)); Continues(f, c, d, q) && Open(c)
  {
    ExprStep(f, r, e, d, q);
    var c := LowerExpr(e, r);
    if inverted { PlaceStep(f, c, Not(c.next, c.next - 1), c.next + 1, d, q); }
  }

  lemma {:induction false} ExprsStep(f: Fn, r: Fn, es: seq<Expr>)
    requires Ready(f) && Grown(f, r) && Open(r)
    ensures Grown(f, LowerExprs(es, r)) && Open(LowerExprs(es, r))
    decreases es
  {
    if es != [] {
      ExprStep(f, r, es[0], {}, {});
      ExprsStep(f, LowerExpr(es[0], r), es[1..]);
    }
  }

  // ---------- statements ----------

  lemma ReturnGrows(es: seq<Expr>, f: Fn)
    requires Ready(f)
    ensures Grown(f, LowerReturn(es, f)) && !Open(LowerReturn(es, f))
  {
    if |es| == 1 {
      ExprStep(f, f, es[0], {}, {});
      PlaceStep(f, LowerExpr(es[0], f), Ret(f.next), f.next + 1, {}, {});
    } else {
      ExprsStep(f, f, es);
      var g := LowerExprs(es, f);
      var pack := Pack(g.next, seq(|es|, i => f.next + i));
      PlaceStep(f, g, pack, g.next, {}, {});
      PlaceStep(f, Place(g, pack), Ret(g.next), g.next + 1, {}, {});
    }
  }

  lemma {:induction false} StmtGrows(s: Stmt, f: Fn)
    requires Ready(f)
    ensures Grown(f, LowerStmt(s, f))
    ensures Open(LowerStmt(s, f)) || s.Return? || s.Nested?
    decreases s, 1, 0
  {
    hide Continues, Ready, LowerExpr, LowerReturn;
    StartsReady(f);
    match s
    case Simple(e) => ExprStep(f, f, e, {}, {});
    case Return(es) => ReturnGrows(es, f);
    case If(_, _, _) => IfGrows(s, f);
    case Switch(_, _, _) => SwitchGrows(s, f);
    case While(_, _) => WhileGrows(s, f);
    case PostfixIf(_, _, _) => PostfixIfGrows(s, f);
    case Nested(b) => BlockGrows(b, f);
  }

  lemma {:induction false} IfGrows(s: Stmt, f: Fn)
    requires Ready(f) && s.If?
    ensures Grown(f, LowerStmt(s, f)) && Open(LowerStmt(s, f))
    decreases s, 0, |s.clauses| + 2
  {
    hide Continues, Ready;
    StartsReady(f);
    var end := |f.blocks|;
    CreateStep(f, f, {}, {});
    assert {} + {end} == {end} && {end} - {end} == {};
    StaysReady(f, Create(f), {end}, {});
    ClausesGrow(s, 0, end, Create(f));
    var r := LowerClauses(s, 0, end, Create(f));
    hide LowerClauses;
    ContinuesTrans(f, Create(f), r, {end}, {});
    AppendStep(f, r, end, {end}, {});
  }

  lemma {:induction false} SwitchGrows(s: Stmt, f: Fn)
    requires Ready(f) && s.Switch?
    ensures Grown(f, LowerStmt(s, f)) && Open(LowerStmt(s, f))
    decreases s, 0, |s.whens| + 2
  {
    hide Continues, Ready;
    StartsReady(f);
    var end := |f.blocks|;
    CreateStep(f, f, {}, {});
    assert {} + {end} == {end} && {end} - {end} == {};
    ExprStep(f, Create(f), s.target, {end}, {});
    var g := LowerExpr(s.target, Create(f));
    StaysReady(f, g, {end}, {});
    WhensGrow(s, 0, g.next - 1, end, g);
    var r := LowerWhens(s, 0, g.next - 1, end, g);
    hide LowerWhens;
    ContinuesTrans(f, g, r, {end}, {});
    AppendStep(f, r, end, {end}, {});
  }

  lemma PostfixIfHeadContinues(s: Stmt, f: Fn)
    requires Ready(f) && s.PostfixIf?
    ensures Continues(f, PostfixIfHead(s, f), {}, {|f.blocks| + 1}) && Open(PostfixIfHead(s, f))
    ensures PostfixIfHead(s, f).blocks[|f.blocks|] == []
  {
    hide Continues, Ready;
    StartsReady(f);
    var then_, end := |f.blocks|, |f.blocks| + 1;
    var g := CreateInParent(CreateInParent(f));
    CreateInParentStep(f, f, {}, {});
    CreateInParentStep(f, CreateInParent(f), {}, {} + {then_});
    assert {} + {then_} + {end} == {then_, end} && {then_, end} - {then_} == {end};
    ConditionStep(f, g, s.guard, s.negated, {}, {then_, end});
    var c := Invert(s.negated, LowerExpr(s.guard, g));
    BranchStep(f, c, then_, end, {}, {then_, end});
    MoveStep(f, BranchOn(c, then_, end), then_, {}, {then_, end});
  }

  lemma {:induction false} PostfixIfGrows(s: Stmt, f: Fn)
    requires Ready(f) && s.PostfixIf?
    ensures Grown(f, LowerStmt(s, f)) && Open(LowerStmt(s, f))
    decreases s, 0, 0
  {
    hide Continues, Ready;
    StartsReady(f);
    var t, end := PostfixIfHead(s, f), |f.blocks| + 1;
    PostfixIfHeadContinues(s, f);
    hide PostfixIfHead;
    StaysReady(f, t, {}, {end});
    StmtGrows(s.guarded, t);
    ContinuesTrans(f, t, LowerStmt(s.guarded, t), {}, {end});
    CloseAndMove(f, LowerStmt(s.guarded, t), end, end);
  }

  /** `terminate_with_br` with a block to go on with. */
  lemma CloseAndMove(f: Fn, r: Fn, dest: Label, next: Label)
    requires Ready(f) && Continues(f, r, {}, {next}) && dest < |r.blocks|
    ensures Grown(f, MoveTo(TerminateWithBr(r, dest), next))
    ensures Open(MoveTo(TerminateWithBr(r, dest), next))
  {
    TerminateStep(f, r, dest, {}, {next});
    MoveStep(f, TerminateWithBr(r, dest), next, {}, {next});
  }

  lemma WhileHeadContinues(cond: Expr, f: Fn)
    requires Ready(f)
    ensures Continues(f, WhileHead(cond, f), {}, {|f.blocks| + 2}) && Open(WhileHead(cond, f))
    ensures WhileHead(cond, f).blocks[|f.blocks| + 1] == []
  {
    hide Continues, Ready;
    StartsReady(f);
    var header, bodyBlock, exit := |f.blocks|, |f.blocks| + 1, |f.blocks| + 2;
    CreateInParentStep(f, f, {}, {});
    CreateInParentStep(f, CreateInParent(f), {}, {} + {header});
    CreateInParentStep(f, CreateInParent(CreateInParent(f)), {}, {} + {header} + {bodyBlock});
    assert {} + {header} + {bodyBlock} + {exit} == {header, bodyBlock, exit};
    assert {header, bodyBlock, exit} - {header} == {bodyBlock, exit};
    assert {bodyBlock, exit} - {bodyBlock} == {exit};
    var g := CreateInParent(CreateInParent(CreateInParent(f)));
    PlaceStep(f, g, Br(header), g.next, {}, {header, bodyBlock, exit});
    MoveStep(f, Place(g, Br(header)), header, {}, {header, bodyBlock, exit});
    var h := MoveTo(Place(g, Br(header)), header);
    ExprStep(f, h, cond, {}, {bodyBlock, exit});
    var c := LowerExpr(cond, h);
    BranchStep(f, c, bodyBlock, exit, {}, {bodyBlock, exit});
    MoveStep(f, BranchOn(c, bodyBlock, exit), bodyBlock, {}, {bodyBlock, exit});
  }

  lemma {:induction false} WhileGrows(s: Stmt, f: Fn)
    requires Ready(f) && s.While?
    ensures Grown(f, LowerStmt(s, f)) && Open(LowerStmt(s, f))
    decreases s, 0, 0
  {
    hide Continues, Ready, WhileHead;
    StartsReady(f);
    var b, exit := WhileHead(s.cond, f), |f.blocks| + 2;
    WhileHeadContinues(s.cond, f);
    StaysReady(f, b, {}, {exit});
    BlockGrows(s.body, b);
    ContinuesTrans(f, b, LowerBlock(s.body, b), {}, {exit});
    CloseAndMove(f, LowerBlock(s.body, b), |f.blocks|, exit);
  }

  lemma {:induction false} BlockGrows(b: seq<Stmt>, f: Fn)
    requires Ready(f)
    ensures Grown(f, LowerBlock(b, f))
    decreases b, 0, 0
  {
    if b != [] {
      StmtGrows(b[0], f);
      var g := LowerStmt(b[0], f);
      if Open(g) {
        BlockGrows(b[1..], g);
        ContinuesTrans(f, g, LowerBlock(b[1..], g), {}, {});
      }
    }
  }

  lemma {:induction false} ElseGrows(els: ElseClause, end: Label, f: Fn)
    requires Ready(f) && end < |f.blocks|
    ensures Grown(f, LowerElse(els, end, f)) && !Open(LowerElse(els, end, f))
    decreases els, 0, 0
  {
    if els.Else? { BlockGrows(els.block, f); }
    TerminateStep(f, if els.Else? then LowerBlock(els.block, f) else f, end, {}, {});
  }

  lemma {:induction false} ArmGrows(f: Fn, g: Fn, body: seq<Stmt>, end: Label, else_: Label)
    requires Ready(f) && Continues(f, g, {else_}, {}) && Open(g) && end < |f.blocks|
    ensures Grown(f, LowerArm(body, end, else_, g)) && Open(LowerArm(body, end, else_, g))
    ensures LowerArm(body, end, else_, g).blocks[else_] == []
    decreases body, 2, 0
  {
    StaysReady(f, g, {else_}, {});
    hide Continues, Ready;
    BlockGrows(body, g);
    ContinuesTrans(f, g, LowerBlock(body, g), {else_}, {});
    hide LowerBlock;
    TerminateStep(f, LowerBlock(body, g), end, {else_}, {});
    AppendStep(f, TerminateWithBr(LowerBlock(body, g), end), else_, {else_}, {});
  }

  /** A condition and the branch on it, with the insert point in the `then` block. */
  lemma ClauseHeadContinues(s: Stmt, i: nat, f: Fn)
    requires s.If? && i < |s.clauses| && Ready(f)
    ensures Continues(f, ClauseHead(s, i, f), {|f.blocks| + 1}, {}) && Open(ClauseHead(s, i, f))
    ensures ClauseHead(s, i, f).blocks[|f.blocks|] == []
  {
    hide Continues, Ready;
    StartsReady(f);
    ConditionStep(f, f, s.clauses[i].cond, Inverted(s, i), {}, {});
    var c := Invert(Inverted(s, i), LowerExpr(s.clauses[i].cond, f));
    var then_, else_ := |f.blocks|, |f.blocks| + 1;
    CreateInParentStep(f, c, {}, {});
    CreateStep(f, CreateInParent(c), {}, {} + {then_});
    assert {} + {then_} == {then_} && {} + {else_} == {else_} && {then_} - {then_} == {};
    var p := Create(CreateInParent(c));
    BranchStep(f, p, then_, else_, {else_}, {then_});
    MoveStep(f, BranchOn(p, then_, else_), then_, {else_}, {then_});
  }

  lemma {:induction false} ClausesGrow(s: Stmt, i: nat, end: Label, f: Fn)
    requires s.If? && i <= |s.clauses| && Ready(f) && end < |f.blocks|
    ensures var r := LowerClauses(s, i, end, f); Grown(f, r) && !Open(r)
    decreases s, 0, |s.clauses| - i + 1
  {
    hide Continues, Ready;
    if i == |s.clauses| {
      ElseGrows(s.ifElse, end, f);
    } else {
      StartsReady(f);
      var g, else_ := ClauseHead(s, i, f), |f.blocks| + 1;
      ClauseHeadContinues(s, i, f);
      hide ClauseHead;
      ArmGrows(f, g, s.clauses[i].body, end, else_);
      var n := LowerArm(s.clauses[i].body, end, else_, g);
      StaysReady(f, n, {}, {});
      hide LowerArm;
      ClausesGrow(s, i + 1, end, n);
      ContinuesTrans(f, n, LowerClauses(s, i + 1, end, n), {}, {});
    }
  }

  lemma {:induction false} TestsContinue(f: Fn, r: Fn, tests: seq<Test>, target: Reg, then_: Label, d: set<Label>)
    requires Ready(f) && Continues(f, r, d, {}) && Open(r) && then_ < |r.blocks|
    ensures var t := LowerTests(tests, target, then_, r); Continues(f, t, d, {}) && Open(t)
    decreases tests
  {
    hide Continues, Ready;
    if tests != [] {
      var next := |r.blocks|;
      CreateStep(f, r, d, {});
      ExprStep(f, Create(r), tests[0].expr, d + {next}, {});
      var g := LowerExpr(tests[0].expr, Create(r));
      PlaceStep(f, g, Compare(g.next, tests[0].callee, target, g.next - 1), g.next + 1, d + {next}, {});
      var c := Place(g, Compare(g.next, tests[0].callee, target, g.next - 1)).(next := g.next + 1);
      BranchStep(f, c, then_, next, d + {next}, {});
      AppendStep(f, BranchOn(c, then_, next), next, d + {next}, {});
      assert d + {next} - {next} == d;
      TestsContinue(f, Append(BranchOn(c, then_, next), next), tests[1..], target, then_, d);
    }
  }

  /** The tests of a `when`, with the insert point in the `then` block. */
  lemma WhenHeadContinues(s: Stmt, i: nat, target: Reg, f: Fn)
    requires s.Switch? && i < |s.whens| && Ready(f)
    ensures Continues(f, WhenHead(s, i, target, f), {|f.blocks| + 1}, {})
    ensures Open(WhenHead(s, i, target, f)) && WhenHead(s, i, target, f).blocks[|f.blocks|] == []
  {
    hide Continues, Ready;
    var then_, else_ := |f.blocks|, |f.blocks| + 1;
    StartsReady(f);
    CreateStep(f, f, {}, {});
    CreateStep(f, Create(f), {} + {then_}, {});
    assert {} + {then_} + {else_} == {then_, else_} && {then_, else_} - {then_} == {else_};
    TestsContinue(f, Create(Create(f)), s.whens[i].tests, target, then_, {then_, else_});
    var t := LowerTests(s.whens[i].tests, target, then_, Create(Create(f)));
    PlaceStep(f, t, Br(else_), t.next, {then_, else_}, {});
    AppendStep(f, Place(t, Br(else_)), then_, {then_, else_}, {});
  }

  lemma {:induction false} WhensGrow(s: Stmt, i: nat, target: Reg, end: Label, f: Fn)
    requires s.Switch? && i <= |s.whens| && Ready(f) && end < |f.blocks|
    ensures var r := LowerWhens(s, i, target, end, f); Grown(f, r) && !Open(r)
    decreases s, 0, |s.whens| - i + 1
  {
    hide Continues, Ready;
    if i == |s.whens| {
      ElseGrows(s.switchElse, end, f);
    } else {
      StartsReady(f);
      var g, else_ := WhenHead(s, i, target, f), |f.blocks| + 1;
      WhenHeadContinues(s, i, target, f);
      hide WhenHead;
      ArmGrows(f, g, s.whens[i].body, end, else_);
      var n := LowerArm(s.whens[i].body, end, else_, g);
      StaysReady(f, n, {}, {});
      hide LowerArm;
      WhensGrow(s, i + 1, target, end, n);
      ContinuesTrans(f, n, LowerWhens(s, i + 1, target, end, n), {}, {});
    }
  }

  // ---------- whole functions ----------

  /** One terminator, at the end. */
  ghost predicate Closed(b: Block, n: nat) { Terminated(b) && WellFormed(b, n) }

  /** A lowered function is complete: the entry comes first, every block is attached
      exactly once and closed by exactly one terminator, and branches go to its blocks. */
  lemma FunctionIsComplete(body: seq<Stmt>, returnsUnit: bool)
    ensures var r := LowerFunction(body, returnsUnit);
            && r.layout != [] && r.layout[0] == 0
            && (forall b :: 0 <= b < |r.blocks| ==> Closed(r.blocks[b], |r.blocks|))
            && (forall b: Label :: Times(r.layout, b) == if b < |r.blocks| then 1 else 0)
  {
    var f := Fn([[]], [0], 0, 0);
    assert Ready(f);
    BlockGrows(body, f);
    var g := LowerBlock(body, f);
    hide Continues, Ready, LowerBlock;
    if Open(g) {
      if returnsUnit {
        PlaceStep(f, g, Pack(g.next, []), g.next, {}, {});
        PlaceStep(f, Place(g, Pack(g.next, [])), Ret(g.next), g.next + 1, {}, {});
      } else {
        PlaceStep(f, g, Unreachable, g.next, {}, {});
      }
    }
    GrownIsComplete(LowerFunction(body, returnsUnit));
  }

  lemma GrownIsComplete(r: Fn)
    requires Grown(Fn([[]], [0], 0, 0), r) && !Open(r)
    ensures r.layout != [] && r.layout[0] == 0
    ensures forall b :: 0 <= b < |r.blocks| ==> Closed(r.blocks[b], |r.blocks|)
    ensures forall b: Label :: Times(r.layout, b) == if b < |r.blocks| then 1 else 0
  {
    assert Times([0], 0) == 1;
  }
}
