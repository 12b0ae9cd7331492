/**
 * The emitter at work.
 *
 * It moves an insert point over blocks it creates, attaches and terminates. Each method is
 * proved to emit what the specification in `Lowering` says.
 */
module Emitter {
  import opened Structured
  import opened BasicBlocks
  import opened Lowering

  class IrEmitter {
    var blocks: seq<Block>     // every block created so far
    var layout: seq<Label>     // the blocks attached to the function, in order
    var insertBlock: Label
    var nextReg: Reg

    function State(): Fn
      reads this
    {
      Fn(blocks, layout, insertBlock, nextReg)
    }

    /** A function with an empty entry block, into which is inserted. */
    constructor ()
      ensures State() == Fn([[]], [0], 0, 0)
    {
      blocks, layout, insertBlock, nextReg := [[]], [0], 0, 0;
    }

    // ---------- builder steps ----------

    method Insert(i: Inst)
      requires Valid(State())
      modifies `blocks
      ensures State() == Place(old(State()), i)
    {
      blocks := blocks[insertBlock := blocks[insertBlock] + [i]];
    }

    method IsTerminated() returns (t: bool)
      requires Valid(State())
      ensures t == !Open(State())
    {
      var b := blocks[insertBlock];
      t := b != [] && IsTerminator(b[|b| - 1]);
    }

    method NewRegister() returns (r: Reg)
      modifies `nextReg
      ensures r == old(nextReg) && nextReg == r + 1
    {
      r := nextReg;
      nextReg := nextReg + 1;
    }

    method CreateBlock() returns (b: Label)
      modifies `blocks
      ensures b == |old(blocks)| && State() == Create(old(State()))
    {
      b := |blocks|;
      blocks := blocks + [[]];
    }

    method CreateBlockForParent() returns (b: Label)
      modifies `blocks, `layout
      ensures b == |old(blocks)| && State() == CreateInParent(old(State()))
    {
      b := |blocks|;
      blocks, layout := blocks + [[]], layout + [b];
    }

    method AppendBlock(b: Label)
      modifies `layout, `insertBlock
      ensures State() == Append(old(State()), b)
    {
      layout := InsertAfter(layout, insertBlock, b);
      insertBlock := b;
    }

    /** A branch to `dest` unless the block is closed; the insert point stays. */
    method CloseWithBr(dest: Label)
      requires Valid(State())
      modifies `blocks
      ensures State() == TerminateWithBr(old(State()), dest)
    {
      var t := IsTerminated();
      if !t { Insert(Br(dest)); }
    }

    method CreateCondBr(cond: Reg, ifTrue: Label, ifFalse: Label)
      requires Valid(State())
      modifies `blocks, `insertBlock
      ensures State() == MoveTo(Place(old(State()), CondBr(cond, ifTrue, ifFalse)), ifTrue)
    {
      Insert(CondBr(cond, ifTrue, ifFalse));
      insertBlock := ifTrue;
    }

    // ---------- expressions ----------

    method EmitExpr(e: Expr) returns (r: Reg)
      requires Valid(State())
      modifies this
      ensures State() == LowerExpr(e, old(State())) && r == nextReg - 1
    {
      r := NewRegister();
      match e
      case Literal(b) => Insert(Const(r, b));
      case Opaque(id) => Insert(Eval(r, id));
    }

    method EmitCondition(e: Expr, inverted: bool) returns (r: Reg)
      requires Valid(State())
      modifies this
      ensures State() == Invert(inverted, LowerExpr(e, old(State()))) && r == nextReg - 1
    {
      r := EmitExpr(e);
      if inverted {
        var n := NewRegister();
        Insert(Not(n, r));
        r := n;
      }
    }

    // ---------- statements ----------

    method EmitReturn(es: seq<Expr>)
      requires Valid(State())
      modifies this
      ensures State() == LowerReturn(es, old(State()))
    {
      var t := IsTerminated();
      if t { return; }
      if |es| == 1 {
        var r := EmitExpr(es[0]);
        Insert(Ret(r));
      } else {
        ghost var start := State();
        var srcs: seq<Reg> := [];
        for i := 0 to |es|
          invariant Valid(State()) && LowerExprs(es[i..], State()) == LowerExprs(es, start)
          invariant srcs == seq(i, k => start.next + k) && nextReg == start.next + i
        {
          var r := EmitExpr(es[i]);
          srcs := srcs + [r];
          assert es[i..][1..] == es[i + 1..];
        }
        var tuple := NewRegister();
        Insert(Pack(tuple, srcs));
        Insert(Ret(tuple));
      }
    }

    method EmitStmt(s: Stmt)
      requires Valid(State())
      modifies this
      ensures State() == LowerStmt(s, old(State()))
      decreases s, 2
    {
      match s
      case Simple(e) => var _ := EmitExpr(e);
      case Return(es) => EmitReturn(es);
      case If(_, _, _) => EmitIf(s);
      case Switch(_, _, _) => EmitSwitch(s);
      case While(_, _) => EmitWhile(s);
      case PostfixIf(_, _, _) => EmitPostfixIf(s);
      case Nested(b) => EmitBlock(b);
    }

    method EmitBlock(b: seq<Stmt>)
      requires Valid(State())
      modifies this
      ensures State() == LowerBlock(b, old(State()))
      decreases b, 0
    {
      ghost var start := State();
      for i := 0 to |b|
        invariant Valid(State()) && LowerBlock(b[i..], State()) == LowerBlock(b, start)
      {
        var t := IsTerminated();
        if t { return; }
        EmitStmt(b[i]);
        assert b[i..][1..] == b[i + 1..];
      }
    }

    /** A clause's body, the branch to `end`, and the insert point moved to `next`. */
    method EmitArm(body: seq<Stmt>, end: Label, next: Label)
      requires Valid(State()) && next < |blocks|
      modifies this
      ensures State() == LowerArm(body, end, next, old(State()))
      decreases body, 1
    {
      EmitBlock(body);
      CloseWithBr(end);
      AppendBlock(next);
    }

    method EmitClauseHead(s: Stmt, i: nat, isFirst: bool) returns (else_: Label)
      requires s.If? && i < |s.clauses| && isFirst == (i == 0) && Valid(State())
      modifies this
      ensures State() == ClauseHead(s, i, old(State())) && else_ == |old(blocks)| + 1
    {
      var c := EmitCondition(s.clauses[i].cond, s.kind == Unless && isFirst);
      var then_ := CreateBlockForParent();
      else_ := CreateBlock();
      CreateCondBr(c, then_, else_);
    }

    method EmitElse(els: ElseClause, end: Label)
      requires Valid(State())
      modifies this
      ensures State() == LowerElse(els, end, old(State()))
      decreases els, 1
    {
      if els.Else? { EmitBlock(els.block); }
      CloseWithBr(end);
    }

    method EmitIf(s: Stmt)
      requires s.If? && Valid(State())
      modifies this
      ensures State() == LowerStmt(s, old(State()))
      decreases s, 1
    {
      hide LowerArm, ClauseHead, LowerElse;
      var end := CreateBlock();
      var isFirst := true;
      ghost var start := State();
      for i := 0 to |s.clauses|
        invariant isFirst == (i == 0) && Valid(State())
        invariant LowerClauses(s, i, end, State()) == LowerClauses(s, 0, end, start)
      {
        var else_ := EmitClauseHead(s, i, isFirst);
        isFirst := false;
        EmitArm(s.clauses[i].body, end, else_);
      }
      EmitElse(s.ifElse, end);
      AppendBlock(end);
    }

    method EmitTest(t: Test, target: Reg, then_: Label)
      requires Valid(State())
      modifies this
      ensures State() == LowerTest(t, target, then_, old(State()))
    {
      var next := CreateBlock();
      var v := EmitExpr(t.expr);
      var r := NewRegister();
      Insert(Compare(r, t.callee, target, v));
      Insert(CondBr(r, then_, next));
      AppendBlock(next);
    }

    method EmitWhenHead(s: Stmt, i: nat, target: Reg) returns (else_: Label)
      requires s.Switch? && i < |s.whens| && Valid(State())
      modifies this
      ensures State() == WhenHead(s, i, target, old(State())) && else_ == |old(blocks)| + 1
    {
      var then_ := CreateBlock();
      else_ := CreateBlock();
      var tests := s.whens[i].tests;
      ghost var start := State();
      for j := 0 to |tests|
        invariant Valid(State())
        invariant LowerTests(tests[j..], target, then_, State()) == LowerTests(tests, target, then_, start)
      {
        EmitTest(tests[j], target, then_);
        assert tests[j..][1..] == tests[j + 1..];
      }
      Insert(Br(else_));
      AppendBlock(then_);
    }

    method EmitSwitch(s: Stmt)
      requires s.Switch? && Valid(State())
      modifies this
      ensures State() == LowerStmt(s, old(State()))
      decreases s, 1
    {
      hide LowerArm, WhenHead, LowerElse, LowerExpr;
      var end := CreateBlock();
      var target := EmitExpr(s.target);
      ghost var start := State();
      for i := 0 to |s.whens|
        invariant Valid(State())
        invariant LowerWhens(s, i, target, end, State()) == LowerWhens(s, 0, target, end, start)
      {
        var else_ := EmitWhenHead(s, i, target);
        EmitArm(s.whens[i].body, end, else_);
      }
      EmitElse(s.switchElse, end);
      AppendBlock(end);
    }

    method EmitWhile(s: Stmt)
      requires s.While? && Valid(State())
      modifies this
      ensures State() == LowerStmt(s, old(State()))
      decreases s, 1
    {
      hide WhileHead, LowerBlock;
      var header, exit := EmitWhileHead(s.cond);
      EmitBlock(s.body);
      CloseWithBr(header);
      insertBlock := exit;
    }

    /** The blocks of a loop and its condition, inserting into the body. */
    method EmitWhileHead(cond: Expr) returns (header: Label, exit: Label)
      requires Valid(State())
      modifies this
      ensures State() == WhileHead(cond, old(State()))
      ensures header == |old(blocks)| && exit == header + 2
    {
      hide LowerExpr;
      header := CreateBlockForParent();
      var body := CreateBlockForParent();
      exit := CreateBlockForParent();
      Insert(Br(header));
      insertBlock := header;
      var c := EmitExpr(cond);
      CreateCondBr(c, body, exit);
    }

    method EmitPostfixIf(s: Stmt)
      requires s.PostfixIf? && Valid(State())
      modifies this
      ensures State() == LowerStmt(s, old(State()))
      decreases s, 1
    {
      var then_ := CreateBlockForParent();
      var end := CreateBlockForParent();
      var c := EmitCondition(s.guard, s.negated);
      CreateCondBr(c, then_, end);
      EmitStmt(s.guarded);
      CloseWithBr(end);
      insertBlock := end;
    }
  }

  /** Emit a whole function; the last block gets a terminator if it has none. */
  method EmitFunction(body: seq<Stmt>, returnsUnit: bool) returns (f: Fn)
    ensures f == LowerFunction(body, returnsUnit)
  {
    var e := new IrEmitter();
    e.EmitBlock(body);
    var t := e.IsTerminated();
    if t {
    } else if returnsUnit {
      var unit := e.NewRegister();
      e.Insert(Pack(unit, []));
      e.Insert(Ret(unit));
    } else {
      e.Insert(Unreachable);
    }
    f := e.State();
  }
}
