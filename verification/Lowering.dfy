/**
 * Lowering structured statements into basic blocks.
 *
 * What is emitted is a function of the statement and of the function under construction: its
 * blocks, their layout, the insert point and the next register. `Emitter` computes it step by
 * step.
 */
module Lowering {
  import opened Structured
  import opened BasicBlocks

  function LowerExpr(e: Expr, f: Fn): (r: Fn)
    requires Valid(f)
    ensures Valid(r) && |r.blocks| == |f.blocks| && r.next == f.next + 1
  {
    var i := match e case Literal(b) => Const(f.next, b) case Opaque(id) => Eval(f.next, id);
    Place(f, i).(next := f.next + 1)
  }

  function LowerExprs(es: seq<Expr>, f: Fn): (r: Fn)
    requires Valid(f)
    ensures Valid(r) && |r.blocks| == |f.blocks| && r.next == f.next + |es|
  {
    if es == [] then f else LowerExprs(es[1..], LowerExpr(es[0], f))
  }

  /** `not` of the condition just emitted, when asked for. */
  function Invert(inverted: bool, f: Fn): (r: Fn)
    requires Valid(f) && f.next > 0
    ensures Valid(r) && |r.blocks| == |f.blocks| && r.next > 0
  {
    if inverted then Place(f, Not(f.next, f.next - 1)).(next := f.next + 1) else f
  }

  /** Branch on the last register. */
  function BranchOn(f: Fn, ifTrue: Label, ifFalse: Label): (r: Fn)
    requires Valid(f) && f.next > 0
    ensures Valid(r) && |r.blocks| == |f.blocks|
  {
    Place(f, CondBr(f.next - 1, ifTrue, ifFalse))
  }

  function LowerReturn(es: seq<Expr>, f: Fn): (r: Fn)
    requires Valid(f)
    ensures Valid(r) && |r.blocks| == |f.blocks|
  {
    if !Open(f) then f
    else if |es| == 1 then Place(LowerExpr(es[0], f), Ret(f.next))
    else
      var g := LowerExprs(es, f);
      var p := Place(g, Pack(g.next, seq(|es|, i => f.next + i)));
      Place(p, Ret(g.next)).(next := g.next + 1)
  }

  /** Header, body and exit block of a loop; the header with the condition, entered from
      the insert block; then inserting into the body. */
  function WhileHead(cond: Expr, f: Fn): (r: Fn)
    requires Valid(f)
    ensures Valid(r) && |r.blocks| == |f.blocks| + 3
  {
    var header := |f.blocks|;
    var g := Place(CreateInParent(CreateInParent(CreateInParent(f))), Br(header));
    MoveTo(BranchOn(LowerExpr(cond, MoveTo(g, header)), header + 1, header + 2), header + 1)
  }

  /** The condition of a postfix `if` and the branch on it, inserting into the `then` block. */
  function PostfixIfHead(s: Stmt, f: Fn): (r: Fn)
    requires s.PostfixIf? && Valid(f)
    ensures Valid(r) && |r.blocks| == |f.blocks| + 2
  {
    var then_, end := |f.blocks|, |f.blocks| + 1;
    var c := Invert(s.negated, LowerExpr(s.guard, CreateInParent(CreateInParent(f))));
    MoveTo(BranchOn(c, then_, end), then_)
  }

  function LowerStmt(s: Stmt, f: Fn): (r: Fn)
    requires Valid(f)
    ensures Valid(r) && |f.blocks| <= |r.blocks|
    decreases s, 1, 0
  {
    match s
    case Simple(e) => LowerExpr(e, f)
    case Return(es) => LowerReturn(es, f)
    case If(_, _, _) =>
      var end := |f.blocks|;
      Append(LowerClauses(s, 0, end, Create(f)), end)
    case Switch(target, _, _) =>
      var end := |f.blocks|;
      var g := LowerExpr(target, Create(f));
      Append(LowerWhens(s, 0, g.next - 1, end, g), end)
    case While(cond, body) =>
      MoveTo(TerminateWithBr(LowerBlock(body, WhileHead(cond, f)), |f.blocks|), |f.blocks| + 2)
    case PostfixIf(negated, guard, guarded) =>
      var end := |f.blocks| + 1;
      MoveTo(TerminateWithBr(LowerStmt(guarded, PostfixIfHead(s, f)), end), end)
    case Nested(b) => LowerBlock(b, f)
  }

  /** Statements behind a terminator are not emitted. */
  function LowerBlock(b: seq<Stmt>, f: Fn): (r: Fn)
    requires Valid(f)
    ensures Valid(r) && |f.blocks| <= |r.blocks|
    decreases b, 0, 0
  {
    if b == [] || !Open(f) then f else LowerBlock(b[1..], LowerStmt(b[0], f))
  }

  function LowerElse(els: ElseClause, end: Label, f: Fn): (r: Fn)
    requires Valid(f)
    ensures Valid(r) && |f.blocks| <= |r.blocks|
    decreases els, 0, 0
  {
    TerminateWithBr(if els.Else? then LowerBlock(els.block, f) else f, end)
  }

  /** A clause's body, the way out to `end`, and the insert point moved to `next`. */
  function LowerArm(body: seq<Stmt>, end: Label, next: Label, f: Fn): (r: Fn)
    requires Valid(f) && next < |f.blocks|
    ensures Valid(r) && |f.blocks| <= |r.blocks|
    decreases body, 1, 0
  {
    Append(TerminateWithBr(LowerBlock(body, f), end), next)
  }

  /** The condition of clause `i` and the branch on it, inserting into the `then` block. */
  function ClauseHead(s: Stmt, i: nat, f: Fn): (r: Fn)
    requires s.If? && i < |s.clauses| && Valid(f)
    ensures Valid(r) && |r.blocks| == |f.blocks| + 2
  {
    var c := Invert(Inverted(s, i), LowerExpr(s.clauses[i].cond, f));
    MoveTo(BranchOn(Create(CreateInParent(c)), |f.blocks|, |f.blocks| + 1), |f.blocks|)
  }

  /** Clauses from number `i` on, and the else clause; all of them leave for `end`. */
  function LowerClauses(s: Stmt, i: nat, end: Label, f: Fn): (r: Fn)
    requires s.If? && i <= |s.clauses| && Valid(f)
    ensures Valid(r) && |f.blocks| <= |r.blocks|
    decreases s, 0, |s.clauses| - i + 1
  {
    if i == |s.clauses| then LowerElse(s.ifElse, end, f)
    else
      LowerClauses(s, i + 1, end,
                   LowerArm(s.clauses[i].body, end, |f.blocks| + 1, ClauseHead(s, i, f)))
  }

  /** A test that fails falls into a fresh block. */
  function LowerTest(t: Test, target: Reg, then_: Label, f: Fn): (r: Fn)
    requires Valid(f)
    ensures Valid(r) && |r.blocks| == |f.blocks| + 1
  {
    var next := |f.blocks|;
    var g := LowerExpr(t.expr, Create(f));
    var c := Place(g, Compare(g.next, t.callee, target, g.next - 1)).(next := g.next + 1);
    Append(BranchOn(c, then_, next), next)
  }

  function LowerTests(tests: seq<Test>, target: Reg, then_: Label, f: Fn): (r: Fn)
    requires Valid(f)
    ensures Valid(r) && |r.blocks| == |f.blocks| + |tests|
  {
    if tests == [] then f
    else LowerTests(tests[1..], target, then_, LowerTest(tests[0], target, then_, f))
  }

  /** The tests of `when` number `i`, inserting into its `then` block. */
  function WhenHead(s: Stmt, i: nat, target: Reg, f: Fn): (r: Fn)
    requires s.Switch? && i < |s.whens| && Valid(f)
    ensures Valid(r) && |f.blocks| + 2 <= |r.blocks|
  {
    var t := LowerTests(s.whens[i].tests, target, |f.blocks|, Create(Create(f)));
    Append(Place(t, Br(|f.blocks| + 1)), |f.blocks|)
  }

  function LowerWhens(s: Stmt, i: nat, target: Reg, end: Label, f: Fn): (r: Fn)
    requires s.Switch? && i <= |s.whens| && Valid(f)
    ensures Valid(r) && |f.blocks| <= |r.blocks|
    decreases s, 0, |s.whens| - i + 1
  {
    if i == |s.whens| then LowerElse(s.switchElse, end, f)
    else
      LowerWhens(s, i + 1, target, end,
                 LowerArm(s.whens[i].body, end, |f.blocks| + 1, WhenHead(s, i, target, f)))
  }

  /** A whole body: the entry block, the statements, and a terminator of last resort. */
  function LowerBody(body: seq<Stmt>): (r: Fn)
    ensures Valid(r)
  {
    LowerBlock(body, Fn([[]], [0], 0, 0))
  }

  function LowerFunction(body: seq<Stmt>, returnsUnit: bool): (r: Fn)
    ensures Valid(r)
  {
    var f := LowerBody(body);
    if !Open(f) then f
    else if returnsUnit then Place(Place(f, Pack(f.next, [])), Ret(f.next)).(next := f.next + 1)
    else Place(f, Unreachable)
  }
}
