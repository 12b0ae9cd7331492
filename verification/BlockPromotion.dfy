/** Turning a block of statements into one expression, by promoting its last statement. */
module BlockPromotion {

  datatype Stmt =
    | Action(id: nat)                                        // any statement without a value
    | ExprStmt(expr: Expr)
    | IfStmt(cond: Expr, thenBlock: seq<Stmt>, elseBlock: seq<Stmt>)
    | SwitchStmt(cases: seq<StmtCase>, elseBlock: seq<Stmt>)
    | MatchStmt(matched: Expr, arms: seq<StmtArm>, elseBlock: seq<Stmt>)

  datatype StmtCase = StmtCase(cond: Expr, block: seq<Stmt>)
  datatype StmtArm = StmtArm(pattern: nat, block: seq<Stmt>)

  datatype Expr =
    | Atom(id: nat)                                          // any other expression
    | SeqExpr(stmts: seq<Stmt>, last: Expr)
    | IfExpr(cond: Expr, thenExpr: Expr, elseExpr: Expr)
    | SwitchExpr(branches: seq<ExprCase>, elseExpr: Expr)
    | MatchExpr(matched: Expr, choices: seq<ExprArm>, elseExpr: Expr)

  datatype ExprCase = ExprCase(cond: Expr, body: Expr)
  datatype ExprArm = ExprArm(pattern: nat, body: Expr)

  /** Why a block is no expression: one is empty, or ends in a statement without a value. */
  datatype Error = EmptyBlock | NotAnExpression(stmt: Stmt)

  datatype Promoted = Ok(expr: Expr) | Bad(error: Error)
  datatype PromotedCases = OkCases(branches: seq<ExprCase>) | BadCases(error: Error)
  datatype PromotedArms = OkArms(choices: seq<ExprArm>) | BadArms(error: Error)

  // ---------- promotion ----------

  function BlockExpr(b: seq<Stmt>): Promoted
    decreases b, 1, 0
  {
    if b == [] then Bad(EmptyBlock)
    else
      match Promote(b[|b| - 1])
      case Bad(why) => Bad(why)
      case Ok(e) => if |b| == 1 then Ok(e) else Ok(SeqExpr(b[..|b| - 1], e))
  }

  function Promote(s: Stmt): Promoted
    decreases s, 1, 0
  {
    match s
    case Action(_) => Bad(NotAnExpression(s))
    case ExprStmt(e) => Ok(e)
    case IfStmt(cond, t, f) =>
      (match BlockExpr(t)
       case Bad(why) => Bad(why)
       case Ok(te) => match BlockExpr(f) case Bad(why) => Bad(why) case Ok(fe) => Ok(IfExpr(cond, te, fe)))
    case SwitchStmt(_, f) =>
      (match CasesFrom(s, 0)
       case BadCases(why) => Bad(why)
       case OkCases(cs) => match BlockExpr(f) case Bad(why) => Bad(why) case Ok(fe) => Ok(SwitchExpr(cs, fe)))
    case MatchStmt(m, _, f) =>
      (match ArmsFrom(s, 0)
       case BadArms(why) => Bad(why)
       case OkArms(xs) => match BlockExpr(f) case Bad(why) => Bad(why) case Ok(fe) => Ok(MatchExpr(m, xs, fe)))
  }

  function CasesFrom(s: Stmt, i: nat): (r: PromotedCases)
    requires s.SwitchStmt? && i <= |s.cases|
    ensures r.OkCases? ==> |r.branches| == |s.cases| - i
    decreases s, 0, |s.cases| - i
  {
    if i == |s.cases| then OkCases([])
    else
      match BlockExpr(s.cases[i].block)
      case Bad(why) => BadCases(why)
      case Ok(e) =>
        match CasesFrom(s, i + 1)
        case BadCases(why) => BadCases(why)
        case OkCases(rest) => OkCases([ExprCase(s.cases[i].cond, e)] + rest)
  }

  function ArmsFrom(s: Stmt, i: nat): (r: PromotedArms)
    requires s.MatchStmt? && i <= |s.arms|
    ensures r.OkArms? ==> |r.choices| == |s.arms| - i
    decreases s, 0, |s.arms| - i
  {
    if i == |s.arms| then OkArms([])
    else
      match BlockExpr(s.arms[i].block)
      case Bad(why) => BadArms(why)
      case Ok(e) =>
        match ArmsFrom(s, i + 1)
        case BadArms(why) => BadArms(why)
        case OkArms(rest) => OkArms([ExprArm(s.arms[i].pattern, e)] + rest)
  }

  // ---------- promotion as it runs ----------

  method PromoteSwitch(s: Stmt) returns (r: Promoted)
    requires s.SwitchStmt?
    ensures r == Promote(s)
    decreases s, 1
  {
    var branches: seq<ExprCase> := [];
    for i := 0 to |s.cases|
      invariant match CasesFrom(s, i)
                case OkCases(rest) => CasesFrom(s, 0) == OkCases(branches + rest)
                case BadCases(why) => CasesFrom(s, 0) == BadCases(why)
    {
      var e := PromoteBlock(s.cases[i].block);
      if e.Bad? { return e; }
      var c, more := ExprCase(s.cases[i].cond, e.expr), CasesFrom(s, i + 1);
      assert more.OkCases? ==> branches + ([c] + more.branches) == branches + [c] + more.branches;
      branches := branches + [c];
    }
    var f := PromoteBlock(s.elseBlock);
    if f.Bad? { return f; }
    assert branches + [] == branches;
    r := Ok(SwitchExpr(branches, f.expr));
  }

  method PromoteMatch(s: Stmt) returns (r: Promoted)
    requires s.MatchStmt?
    ensures r == Promote(s)
    decreases s, 1
  {
    var choices: seq<ExprArm> := [];
    for i := 0 to |s.arms|
      invariant match ArmsFrom(s, i)
                case OkArms(rest) => ArmsFrom(s, 0) == OkArms(choices + rest)
                case BadArms(why) => ArmsFrom(s, 0) == BadArms(why)
    {
      var e := PromoteBlock(s.arms[i].block);
      if e.Bad? { return e; }
      var c, more := ExprArm(s.arms[i].pattern, e.expr), ArmsFrom(s, i + 1);
      assert more.OkArms? ==> choices + ([c] + more.choices) == choices + [c] + more.choices;
      choices := choices + [c];
    }
    var f := PromoteBlock(s.elseBlock);
    if f.Bad? { return f; }
    assert choices + [] == choices;
    r := Ok(MatchExpr(s.matched, choices, f.expr));
  }

  method PromoteIf(s: Stmt) returns (r: Promoted)
    requires s.IfStmt?
    ensures r == Promote(s)
    decreases s, 1
  {
    var t := PromoteBlock(s.thenBlock);
    if t.Bad? { return t; }
    var f := PromoteBlock(s.elseBlock);
    if f.Bad? { return f; }
    r := Ok(IfExpr(s.cond, t.expr, f.expr));
  }

  method PromoteBlock(b: seq<Stmt>) returns (r: Promoted)
    ensures r == BlockExpr(b)
    decreases b, 0
  {
    if |b| == 0 { return Bad(EmptyBlock); }
    var last := b[|b| - 1];
    var e: Promoted;
    match last {
      case Action(_) => e := Bad(NotAnExpression(last));
      case ExprStmt(x) => e := Ok(x);
      case IfStmt(_, _, _) => e := PromoteIf(last);
      case SwitchStmt(_, _) => e := PromoteSwitch(last);
      case MatchStmt(_, _, _) => e := PromoteMatch(last);
    }
    if e.Bad? { return e; }
    if |b| == 1 { return e; }
    r := Ok(SeqExpr(b[..|b| - 1], e.expr));
  }

  // ---------- when it succeeds ----------

  /** The block ends in an expression, through every branch of its last statement. */
  predicate EndsInExpression(b: seq<Stmt>)
    decreases b, 1
  {
    b != [] && HasValue(b[|b| - 1])
  }

  predicate HasValue(s: Stmt)
    decreases s, 1
  {
    match s
    case Action(_) => false
    case ExprStmt(_) => true
    case IfStmt(_, t, f) => EndsInExpression(t) && EndsInExpression(f)
    case SwitchStmt(cases, f) => (forall c <- cases :: EndsInExpression(c.block)) && EndsInExpression(f)
    case MatchStmt(_, arms, f) => (forall a <- arms :: EndsInExpression(a.block)) && EndsInExpression(f)
  }

  lemma {:induction false} PromotionSucceedsExactly(b: seq<Stmt>)
    ensures BlockExpr(b).Ok? <==> EndsInExpression(b)
    decreases b, 1, 0
  {
    if b != [] { StmtPromotesExactly(b[|b| - 1]); }
  }

  lemma {:induction false} StmtPromotesExactly(s: Stmt)
    ensures Promote(s).Ok? <==> HasValue(s)
    decreases s, 1, 0
  {
    match s
    case Action(_) =>
    case ExprStmt(_) =>
    case IfStmt(_, t, f) =>
      PromotionSucceedsExactly(t);
      PromotionSucceedsExactly(f);
    case SwitchStmt(cases, f) =>
      CasesPromoteExactly(s, 0);
      PromotionSucceedsExactly(f);
      assert (forall c <- cases :: EndsInExpression(c.block)) <==>
             (forall j :: 0 <= j < |cases| ==> EndsInExpression(cases[j].block));
    case MatchStmt(_, arms, f) =>
      ArmsPromoteExactly(s, 0);
      PromotionSucceedsExactly(f);
      assert (forall a <- arms :: EndsInExpression(a.block)) <==>
             (forall j :: 0 <= j < |arms| ==> EndsInExpression(arms[j].block));
  }

  lemma {:induction false} CasesPromoteExactly(s: Stmt, i: nat)
    requires s.SwitchStmt? && i <= |s.cases|
    ensures CasesFrom(s, i).OkCases? <==> forall j :: i <= j < |s.cases| ==> EndsInExpression(s.cases[j].block)
    decreases s, 0, |s.cases| - i
  {
    if i < |s.cases| {
      PromotionSucceedsExactly(s.cases[i].block);
      CasesPromoteExactly(s, i + 1);
    }
  }

  lemma {:induction false} ArmsPromoteExactly(s: Stmt, i: nat)
    requires s.MatchStmt? && i <= |s.arms|
    ensures ArmsFrom(s, i).OkArms? <==> forall j :: i <= j < |s.arms| ==> EndsInExpression(s.arms[j].block)
    decreases s, 0, |s.arms| - i
  {
    if i < |s.arms| {
      PromotionSucceedsExactly(s.arms[i].block);
      ArmsPromoteExactly(s, i + 1);
    }
  }

  // ---------- what is reported ----------

  /** The blocks whose last statements would be the value of the block, in the order of the source. */
  function Tails(b: seq<Stmt>): seq<seq<Stmt>>
    decreases b, 1, 0
  {
    if b == [] then [b]
    else
      match b[|b| - 1]
      case Action(_) => [b]
      case ExprStmt(_) => [b]
      case IfStmt(_, t, f) => Tails(t) + Tails(f)
      case SwitchStmt(_, f) => CaseTails(b[|b| - 1], 0) + Tails(f)
      case MatchStmt(_, _, f) => ArmTails(b[|b| - 1], 0) + Tails(f)
  }

  function CaseTails(s: Stmt, i: nat): seq<seq<Stmt>>
    requires s.SwitchStmt? && i <= |s.cases|
    decreases s, 0, |s.cases| - i
  {
    if i == |s.cases| then [] else Tails(s.cases[i].block) + CaseTails(s, i + 1)
  }

  function ArmTails(s: Stmt, i: nat): seq<seq<Stmt>>
    requires s.MatchStmt? && i <= |s.arms|
    decreases s, 0, |s.arms| - i
  {
    if i == |s.arms| then [] else Tails(s.arms[i].block) + ArmTails(s, i + 1)
  }

  /** What is wrong with a tail, if anything. */
  predicate Fails(tail: seq<Stmt>, why: Error) {
    if tail == [] then why == EmptyBlock else tail[|tail| - 1].Action? && why == NotAnExpression(tail[|tail| - 1])
  }

  /** The first tail that fails does so for the reason given. */
  ghost predicate FirstFailure(tails: seq<seq<Stmt>>, why: Error) {
    exists n :: 0 <= n < |tails| && Fails(tails[n], why) && forall m, e :: 0 <= m < n ==> !Fails(tails[m], e)
  }

  ghost predicate NoFailure(tails: seq<seq<Stmt>>) { forall m, e :: 0 <= m < |tails| ==> !Fails(tails[m], e) }

  lemma JoinTails(a: seq<seq<Stmt>>, b: seq<seq<Stmt>>, why: Error)
    ensures FirstFailure(a, why) ==> FirstFailure(a + b, why)
    ensures NoFailure(a) && FirstFailure(b, why) ==> FirstFailure(a + b, why)
    ensures NoFailure(a) && NoFailure(b) ==> NoFailure(a + b)
  {
    hide Fails;
    if FirstFailure(a, why) {
      var n :| 0 <= n < |a| && Fails(a[n], why) && forall m, e :: 0 <= m < n ==> !Fails(a[m], e);
      assert (a + b)[n] == a[n] && forall m :: 0 <= m < n ==> (a + b)[m] == a[m];
    } else if NoFailure(a) && FirstFailure(b, why) {
      var n :| 0 <= n < |b| && Fails(b[n], why) && forall m, e :: 0 <= m < n ==> !Fails(b[m], e);
      assert (a + b)[|a| + n] == b[n];
      forall m, e | 0 <= m < |a| + n ensures !Fails((a + b)[m], e) {
        if m < |a| { assert (a + b)[m] == a[m]; } else { assert (a + b)[m] == b[m - |a|]; }
      }
    } else if NoFailure(a) && NoFailure(b) {
      forall m, e | 0 <= m < |a + b| ensures !Fails((a + b)[m], e) {
        if m < |a| { assert (a + b)[m] == a[m]; } else { assert (a + b)[m] == b[m - |a|]; }
      }
    }
  }

  /** A failed promotion reports the first tail, in the order of the source, that is empty or
      ends in a statement without a value; it succeeds if there is none. */
  lemma {:induction false} PromotionReportsFirst(b: seq<Stmt>)
    ensures match BlockExpr(b) case Ok(_) => NoFailure(Tails(b)) case Bad(why) => FirstFailure(Tails(b), why)
    decreases b, 1, 0
  {
    hide FirstFailure, NoFailure, Tails, CaseTails, ArmTails, BlockExpr, Promote, CasesFrom, ArmsFrom;
    TailsUnfold(b);
    FailureUnfolds(b);
    var why := match BlockExpr(b) case Bad(e) => e case Ok(_) => EmptyBlock;
    OneTail(b, why);
    if b != [] {
      var s := b[|b| - 1];
      match s
      case Action(_) =>
      case ExprStmt(_) =>
      case IfStmt(_, t, f) =>
        PromotionReportsFirst(t);
        PromotionReportsFirst(f);
        JoinTails(Tails(t), Tails(f), why);
      case SwitchStmt(_, f) =>
        CasesReportFirst(s, 0);
        PromotionReportsFirst(f);
        JoinTails(CaseTails(s, 0), Tails(f), why);
      case MatchStmt(_, _, f) =>
        ArmsReportFirst(s, 0);
        PromotionReportsFirst(f);
        JoinTails(ArmTails(s, 0), Tails(f), why);
    }
  }

  /** Where the error of a block comes from. */
  lemma FailureUnfolds(b: seq<Stmt>)
    ensures var r := BlockExpr(b);
            if b == [] then r == Bad(EmptyBlock)
            else
              match b[|b| - 1]
              case Action(_) => r == Bad(NotAnExpression(b[|b| - 1]))
              case ExprStmt(_) => r.Ok?
              case IfStmt(_, t, f) =>
                if BlockExpr(t).Bad? then r == BlockExpr(t)
                else if BlockExpr(f).Bad? then r == BlockExpr(f)
                else r.Ok?
              case SwitchStmt(_, f) =>
                if CasesFrom(b[|b| - 1], 0).BadCases? then r == Bad(CasesFrom(b[|b| - 1], 0).error)
                else if BlockExpr(f).Bad? then r == BlockExpr(f)
                else r.Ok?
              case MatchStmt(_, _, f) =>
                if ArmsFrom(b[|b| - 1], 0).BadArms? then r == Bad(ArmsFrom(b[|b| - 1], 0).error)
                else if BlockExpr(f).Bad? then r == BlockExpr(f)
                else r.Ok?
  {
  }

  lemma TailsUnfold(b: seq<Stmt>)
    ensures Tails(b) == if b == [] then [b]
                        else
                          match b[|b| - 1]
                          case Action(_) => [b]
                          case ExprStmt(_) => [b]
                          case IfStmt(_, t, f) => Tails(t) + Tails(f)
                          case SwitchStmt(_, f) => CaseTails(b[|b| - 1], 0) + Tails(f)
                          case MatchStmt(_, _, f) => ArmTails(b[|b| - 1], 0) + Tails(f)
  {
  }

  lemma OneTail(b: seq<Stmt>, why: Error)
    ensures Fails(b, why) ==> FirstFailure([b], why)
    ensures b != [] && b[|b| - 1].ExprStmt? ==> NoFailure([b])
  {
    assert [b][0] == b;
  }

  lemma {:induction false} CasesReportFirst(s: Stmt, i: nat)
    requires s.SwitchStmt? && i <= |s.cases|
    ensures match CasesFrom(s, i)
            case OkCases(_) => NoFailure(CaseTails(s, i))
            case BadCases(why) => FirstFailure(CaseTails(s, i), why)
    decreases s, 0, |s.cases| - i
  {
    hide FirstFailure, Tails;
    if i < |s.cases| {
      PromotionReportsFirst(s.cases[i].block);
      CasesReportFirst(s, i + 1);
      var why := match CasesFrom(s, i) case BadCases(e) => e case OkCases(_) => EmptyBlock;
      JoinTails(Tails(s.cases[i].block), CaseTails(s, i + 1), why);
    }
  }

  lemma {:induction false} ArmsReportFirst(s: Stmt, i: nat)
    requires s.MatchStmt? && i <= |s.arms|
    ensures match ArmsFrom(s, i)
            case OkArms(_) => NoFailure(ArmTails(s, i))
            case BadArms(why) => FirstFailure(ArmTails(s, i), why)
    decreases s, 0, |s.arms| - i
  {
    hide FirstFailure, Tails;
    if i < |s.arms| {
      PromotionReportsFirst(s.arms[i].block);
      ArmsReportFirst(s, i + 1);
      var why := match ArmsFrom(s, i) case BadArms(e) => e case OkArms(_) => EmptyBlock;
      JoinTails(Tails(s.arms[i].block), ArmTails(s, i + 1), why);
    }
  }

  // ---------- meaning ----------

  datatype Event = Done(id: nat) | Yielded(id: nat, value: int) | Tried(pattern: nat, value: int, fits: bool)

  type History = seq<Event>

  /** What statements and expressions do may depend on all that happened before.  A
      statement may jump: return, break, or go on with the next round. */
  datatype World = World(value: (History, nat) -> int, jumps: (History, nat) -> bool,
                         fits: (History, nat, int) -> bool)

  datatype Outcome = Value(v: int, h: History) | Jump(h: History)

  const NOTHING: int := 0

  function Eval(w: World, e: Expr, h: History): Outcome
    decreases e, 1, 0
  {
    match e
    case Atom(id) => Value(w.value(h, id), h + [Yielded(id, w.value(h, id))])
    case SeqExpr(stmts, last) =>
      (match RunBlock(w, stmts, h) case Jump(h1) => Jump(h1) case Value(_, h1) => Eval(w, last, h1))
    case IfExpr(c, t, f) =>
      (match Eval(w, c, h)
       case Jump(h1) => Jump(h1)
       case Value(v, h1) => if v != 0 then Eval(w, t, h1) else Eval(w, f, h1))
    case SwitchExpr(_, _) => EvalCases(w, e, 0, h)
    case MatchExpr(m, _, _) =>
      (match Eval(w, m, h) case Jump(h1) => Jump(h1) case Value(v, h1) => EvalArms(w, e, 0, v, h1))
  }

  function EvalCases(w: World, e: Expr, i: nat, h: History): Outcome
    requires e.SwitchExpr? && i <= |e.branches|
    decreases e, 0, |e.branches| - i
  {
    if i == |e.branches| then Eval(w, e.elseExpr, h)
    else
      match Eval(w, e.branches[i].cond, h)
      case Jump(h1) => Jump(h1)
      case Value(v, h1) => if v != 0 then Eval(w, e.branches[i].body, h1) else EvalCases(w, e, i + 1, h1)
  }

  function EvalArms(w: World, e: Expr, i: nat, v: int, h: History): Outcome
    requires e.MatchExpr? && i <= |e.choices|
    decreases e, 0, |e.choices| - i
  {
    if i == |e.choices| then Eval(w, e.elseExpr, h)
    else
      var p := e.choices[i].pattern;
      var h1 := h + [Tried(p, v, w.fits(h, p, v))];
      if w.fits(h, p, v) then Eval(w, e.choices[i].body, h1) else EvalArms(w, e, i + 1, v, h1)
  }

  /** A statement's value is that of the expression it ends in, if it ends in one. */
  function RunStmt(w: World, s: Stmt, h: History): Outcome
    decreases s, 1, 0
  {
    match s
    case Action(id) => if w.jumps(h, id) then Jump(h + [Done(id)]) else Value(NOTHING, h + [Done(id)])
    case ExprStmt(e) => Eval(w, e, h)
    case IfStmt(c, t, f) =>
      (match Eval(w, c, h)
       case Jump(h1) => Jump(h1)
       case Value(v, h1) => if v != 0 then RunBlock(w, t, h1) else RunBlock(w, f, h1))
    case SwitchStmt(_, _) => RunCases(w, s, 0, h)
    case MatchStmt(m, _, _) =>
      (match Eval(w, m, h) case Jump(h1) => Jump(h1) case Value(v, h1) => RunArms(w, s, 0, v, h1))
  }

  function RunCases(w: World, s: Stmt, i: nat, h: History): Outcome
    requires s.SwitchStmt? && i <= |s.cases|
    decreases s, 0, |s.cases| - i
  {
    if i == |s.cases| then RunBlock(w, s.elseBlock, h)
    else
      match Eval(w, s.cases[i].cond, h)
      case Jump(h1) => Jump(h1)
      case Value(v, h1) => if v != 0 then RunBlock(w, s.cases[i].block, h1) else RunCases(w, s, i + 1, h1)
  }

  function RunArms(w: World, s: Stmt, i: nat, v: int, h: History): Outcome
    requires s.MatchStmt? && i <= |s.arms|
    decreases s, 0, |s.arms| - i
  {
    if i == |s.arms| then RunBlock(w, s.elseBlock, h)
    else
      var p := s.arms[i].pattern;
      var h1 := h + [Tried(p, v, w.fits(h, p, v))];
      if w.fits(h, p, v) then RunBlock(w, s.arms[i].block, h1) else RunArms(w, s, i + 1, v, h1)
  }

  function RunBlock(w: World, b: seq<Stmt>, h: History): Outcome
    decreases b, 0, 0
  {
    if b == [] then Value(NOTHING, h)
    else if |b| == 1 then RunStmt(w, b[0], h)
    else
      match RunStmt(w, b[0], h)
      case Jump(h1) => Jump(h1)
      case Value(_, h1) => RunBlock(w, b[1..], h1)
  }

  lemma {:induction false} RunBlockSplit(w: World, b: seq<Stmt>, h: History)
    requires |b| > 1
    ensures RunBlock(w, b, h) ==
            match RunBlock(w, b[..|b| - 1], h)
            case Jump(h1) => Jump(h1)
            case Value(_, h1) => RunStmt(w, b[|b| - 1], h1)
    decreases b
  {
    var init := b[..|b| - 1];
    if |b| == 2 {
      assert b[1..] == [b[1]] && init == [b[0]];
    } else {
      assert init[1..] == b[1..][..|b| - 2];
      var o := RunStmt(w, b[0], h);
      if o.Value? { RunBlockSplit(w, b[1..], o.h); }
    }
  }

  /** The expression has the effects of the block and the value of its last expression. */
  lemma {:induction false} PromotionPreserves(w: World, b: seq<Stmt>, h: History)
    requires BlockExpr(b).Ok?
    ensures Eval(w, BlockExpr(b).expr, h) == RunBlock(w, b, h)
    decreases b, 1, 0
  {
    var last := b[|b| - 1];
    if |b| == 1 {
      StmtPromotionPreserves(w, last, h);
    } else {
      RunBlockSplit(w, b, h);
      var o := RunBlock(w, b[..|b| - 1], h);
      if o.Value? { StmtPromotionPreserves(w, last, o.h); }
    }
  }

  lemma {:induction false} StmtPromotionPreserves(w: World, s: Stmt, h: History)
    requires Promote(s).Ok?
    ensures Eval(w, Promote(s).expr, h) == RunStmt(w, s, h)
    decreases s, 1, 0
  {
    match s
    case ExprStmt(_) =>
    case IfStmt(c, t, f) =>
      var o := Eval(w, c, h);
      if o.Value? {
        PromotionPreserves(w, t, o.h);
        PromotionPreserves(w, f, o.h);
      }
    case SwitchStmt(_, _) => CasesPreserve(w, s, 0, h);
    case MatchStmt(m, _, _) =>
      var o := Eval(w, m, h);
      if o.Value? { ArmsPreserve(w, s, 0, o.v, o.h); }
  }

  lemma {:induction false} CasesAt(s: Stmt, i: nat)
    requires s.SwitchStmt? && i <= |s.cases| && CasesFrom(s, 0).OkCases?
    ensures CasesFrom(s, i) == OkCases(CasesFrom(s, 0).branches[i..])
    ensures i < |s.cases| ==> BlockExpr(s.cases[i].block).Ok?
    ensures i < |s.cases| ==> CasesFrom(s, 0).branches[i] == ExprCase(s.cases[i].cond, BlockExpr(s.cases[i].block).expr)
    decreases i
  {
    if i > 0 { CasesAt(s, i - 1); }
  }

  lemma {:induction false} ArmsAt(s: Stmt, i: nat)
    requires s.MatchStmt? && i <= |s.arms| && ArmsFrom(s, 0).OkArms?
    ensures ArmsFrom(s, i) == OkArms(ArmsFrom(s, 0).choices[i..])
    ensures i < |s.arms| ==> BlockExpr(s.arms[i].block).Ok?
    ensures i < |s.arms| ==> ArmsFrom(s, 0).choices[i] == ExprArm(s.arms[i].pattern, BlockExpr(s.arms[i].block).expr)
    decreases i
  {
    if i > 0 { ArmsAt(s, i - 1); }
  }

  lemma {:induction false} CasesPreserve(w: World, s: Stmt, i: nat, h: History)
    requires s.SwitchStmt? && i <= |s.cases| && Promote(s).Ok?
    ensures EvalCases(w, Promote(s).expr, i, h) == RunCases(w, s, i, h)
    decreases s, 0, |s.cases| - i
  {
    CasesAt(s, i);
    if i == |s.cases| {
      PromotionPreserves(w, s.elseBlock, h);
    } else {
      var o := Eval(w, s.cases[i].cond, h);
      if o.Value? {
        PromotionPreserves(w, s.cases[i].block, o.h);
        CasesPreserve(w, s, i + 1, o.h);
      }
    }
  }

  lemma {:induction false} ArmsPreserve(w: World, s: Stmt, i: nat, v: int, h: History)
    requires s.MatchStmt? && i <= |s.arms| && Promote(s).Ok?
    ensures EvalArms(w, Promote(s).expr, i, v, h) == RunArms(w, s, i, v, h)
    decreases s, 0, |s.arms| - i
  {
    ArmsAt(s, i);
    if i == |s.arms| {
      PromotionPreserves(w, s.elseBlock, h);
    } else {
      var p := s.arms[i].pattern;
      var h1 := h + [Tried(p, v, w.fits(h, p, v))];
      PromotionPreserves(w, s.arms[i].block, h1);
      ArmsPreserve(w, s, i + 1, v, h1);
    }
  }

  // ---------- and back ----------

  /** The statements an expression was promoted from, as far as it tells. */
  function Demote(e: Expr): seq<Stmt>
    decreases e, 1
  {
    if e.SeqExpr? then e.stmts + [DemoteLast(e.last)] else [DemoteLast(e)]
  }

  function DemoteLast(e: Expr): Stmt
    decreases e, 0
  {
    match e
    case Atom(_) => ExprStmt(e)
    case SeqExpr(_, _) => ExprStmt(e)
    case IfExpr(c, t, f) => IfStmt(c, Demote(t), Demote(f))
    case SwitchExpr(cs, f) =>
      SwitchStmt(seq(|cs|, i requires 0 <= i < |cs| => StmtCase(cs[i].cond, Demote(cs[i].body))), Demote(f))
    case MatchExpr(m, xs, f) =>
      MatchStmt(m, seq(|xs|, i requires 0 <= i < |xs| => StmtArm(xs[i].pattern, Demote(xs[i].body))), Demote(f))
  }

  /** No statement in value position wraps an expression that reads like a statement. */
  predicate Unwrapped(b: seq<Stmt>)
    decreases b, 1
  {
    b != [] && UnwrappedLast(b[|b| - 1]) && !(|b| == 1 && b[0].ExprStmt? && b[0].expr.SeqExpr?)
  }

  predicate UnwrappedLast(s: Stmt)
    decreases s, 1
  {
    match s
    case Action(_) => true
    case ExprStmt(e) => e.Atom? || e.SeqExpr?
    case IfStmt(_, t, f) => Unwrapped(t) && Unwrapped(f)
    case SwitchStmt(cases, f) => (forall i :: 0 <= i < |cases| ==> Unwrapped(cases[i].block)) && Unwrapped(f)
    case MatchStmt(_, arms, f) => (forall i :: 0 <= i < |arms| ==> Unwrapped(arms[i].block)) && Unwrapped(f)
  }

  /** Demoting gives the original block back exactly when nothing was wrapped in it. */
  lemma {:induction false} DemotionRestoresExactly(b: seq<Stmt>)
    requires BlockExpr(b).Ok?
    ensures Demote(BlockExpr(b).expr) == b <==> Unwrapped(b)
    decreases b, 1
  {
    var last := b[|b| - 1];
    LastRestoredExactly(last);
    var e := Promote(last).expr;
    if |b| == 1 {
      assert b == [last];
      if last.ExprStmt? && e.SeqExpr? {
        SeqIsNotItself(e);
        assert Demote(e)[|Demote(e)| - 1] == DemoteLast(e.last);
        assert Demote(e) != b;
      } else {
        assert !e.SeqExpr? ==> Demote(e) == [DemoteLast(e)];
      }
    } else {
      assert b == b[..|b| - 1] + [last];
      assert Demote(BlockExpr(b).expr) == b[..|b| - 1] + [DemoteLast(e)];
      assert Demote(BlockExpr(b).expr)[|b| - 1] == DemoteLast(e);
    }
  }

  lemma SeqIsNotItself(e: Expr)
    requires e.SeqExpr?
    ensures DemoteLast(e.last) != ExprStmt(e)
  {
  }

  lemma {:induction false} LastRestoredExactly(s: Stmt)
    requires Promote(s).Ok?
    ensures DemoteLast(Promote(s).expr) == s <==> UnwrappedLast(s)
    ensures !s.ExprStmt? ==> !Promote(s).expr.SeqExpr?
    decreases s, 0
  {
    match s
    case ExprStmt(e) =>
    case IfStmt(_, t, f) =>
      DemotionRestoresExactly(t);
      DemotionRestoresExactly(f);
    case SwitchStmt(cases, f) =>
      var cs := CasesFrom(s, 0).branches;
      forall i | 0 <= i < |cases|
        ensures cs[i].cond == cases[i].cond && (Demote(cs[i].body) == cases[i].block <==> Unwrapped(cases[i].block))
      {
        CasesAt(s, i);
        DemotionRestoresExactly(cases[i].block);
      }
      DemotionRestoresExactly(f);
      SwitchRestored(s);
    case MatchStmt(_, arms, f) =>
      var xs := ArmsFrom(s, 0).choices;
      forall i | 0 <= i < |arms|
        ensures xs[i].pattern == arms[i].pattern && (Demote(xs[i].body) == arms[i].block <==> Unwrapped(arms[i].block))
      {
        ArmsAt(s, i);
        DemotionRestoresExactly(arms[i].block);
      }
      DemotionRestoresExactly(f);
      MatchRestored(s);
  }

  lemma SwitchRestored(s: Stmt)
    requires s.SwitchStmt? && Promote(s).Ok?
    requires forall i :: 0 <= i < |s.cases| ==> CasesFrom(s, 0).branches[i].cond == s.cases[i].cond
    ensures DemoteLast(Promote(s).expr) == s <==>
            && Demote(BlockExpr(s.elseBlock).expr) == s.elseBlock
            && forall i :: 0 <= i < |s.cases| ==> Demote(CasesFrom(s, 0).branches[i].body) == s.cases[i].block
  {
    var d, cs := DemoteLast(Promote(s).expr), CasesFrom(s, 0).branches;
    assert forall i :: 0 <= i < |s.cases| ==> d.cases[i] == StmtCase(cs[i].cond, Demote(cs[i].body));
    if forall i :: 0 <= i < |s.cases| ==> Demote(cs[i].body) == s.cases[i].block { assert d.cases == s.cases; }
  }

  lemma MatchRestored(s: Stmt)
    requires s.MatchStmt? && Promote(s).Ok?
    requires forall i :: 0 <= i < |s.arms| ==> ArmsFrom(s, 0).choices[i].pattern == s.arms[i].pattern
    ensures DemoteLast(Promote(s).expr) == s <==>
            && Demote(BlockExpr(s.elseBlock).expr) == s.elseBlock
            && forall i :: 0 <= i < |s.arms| ==> Demote(ArmsFrom(s, 0).choices[i].body) == s.arms[i].block
  {
    var d, xs := DemoteLast(Promote(s).expr), ArmsFrom(s, 0).choices;
    assert forall i :: 0 <= i < |s.arms| ==> d.arms[i] == StmtArm(xs[i].pattern, Demote(xs[i].body));
    if forall i :: 0 <= i < |s.arms| ==> Demote(xs[i].body) == s.arms[i].block { assert d.arms == s.arms; }
  }
}
