/** The structured statements of a Dachs function body, their meaning, and the
    check that a body always returns.

    An expression is opaque: what it yields may depend on everything that happened
    before, so a `World` answers from the whole history of events.  Any program state
    is a function of that history, hence a statement about all worlds is a statement
    about all expressions, pure or not. */
module Structured {

  datatype Value = Num(n: int) | Truth(b: bool) | Tuple(elems: seq<Value>)

  datatype Event =
    | Evaluated(id: nat, result: Value)
    | Compared(callee: nat, lhs: Value, rhs: Value, equal: bool)

  type History = seq<Event>

  datatype World = World(value: (History, nat) -> Value,
                         equal: (History, nat, Value, Value) -> bool)

  /** A literal `true`/`false`, or any other expression, known by a number. */
  datatype Expr = Literal(b: bool) | Opaque(id: nat)

  /** `case` statements are `if` statements of kind `Case`. */
  datatype IfKind = IfTrue | Unless | Case

  datatype Clause = Clause(cond: Expr, body: seq<Stmt>)

  /** One comparison of a `when`: the compared expression and the `==` that is called. */
  datatype Test = Test(expr: Expr, callee: nat)

  datatype ElseClause = NoElse | Else(block: seq<Stmt>)

  datatype When = When(tests: seq<Test>, body: seq<Stmt>)

  datatype Stmt =
    | Simple(expr: Expr)                      // expression, assignment, initialization
    | Return(values: seq<Expr>)
    | If(kind: IfKind, clauses: seq<Clause>, ifElse: ElseClause)
    | Switch(target: Expr, whens: seq<When>, switchElse: ElseClause)
    | While(cond: Expr, body: seq<Stmt>)
    | PostfixIf(negated: bool, guard: Expr, guarded: Stmt)
    | Nested(block: seq<Stmt>)

  datatype Outcome =
    | Finished(h: History)
    | Returned(v: Value, h: History)
    | OutOfFuel(h: History)

  // ---------- meaning ----------

  predicate IsTrue(v: Value) { v == Truth(true) }

  function ValueOf(w: World, e: Expr, h: History): Value {
    match e
    case Literal(b) => Truth(b)
    case Opaque(id) => w.value(h, id)
  }

  function After(w: World, e: Expr, h: History): History {
    match e
    case Literal(_) => h
    case Opaque(id) => h + [Evaluated(id, w.value(h, id))]
  }

  /** Values of the expressions of a `ret`, evaluated from left to right. */
  function ValuesOf(w: World, es: seq<Expr>, h: History): (vs: seq<Value>)
    ensures |vs| == |es|
  {
    if es == [] then [] else [ValueOf(w, es[0], h)] + ValuesOf(w, es[1..], After(w, es[0], h))
  }

  function AfterAll(w: World, es: seq<Expr>, h: History): History {
    if es == [] then h else AfterAll(w, es[1..], After(w, es[0], h))
  }

  /** One value is returned as it is; none or several become a tuple. */
  function ReturnValue(vs: seq<Value>): Value {
    if |vs| == 1 then vs[0] else Tuple(vs)
  }

  /** Compare the switch target with the tests in order, stopping at the first match. */
  function RunTests(w: World, target: Value, tests: seq<Test>, h: History): (bool, History) {
    if tests == [] then (false, h)
    else
      var v, h1 := ValueOf(w, tests[0].expr, h), After(w, tests[0].expr, h);
      var eq := w.equal(h1, tests[0].callee, target, v);
      var h2 := h1 + [Compared(tests[0].callee, target, v, eq)];
      if eq then (true, h2) else RunTests(w, target, tests[1..], h2)
  }

  /** Fuel bounds the number of loop iterations on any path. */
  function Exec(w: World, s: Stmt, h: History, fuel: nat): Outcome
    decreases fuel, s, 1, 0
  {
    match s
    case Simple(e) => Finished(After(w, e, h))
    case Return(es) => Returned(ReturnValue(ValuesOf(w, es, h)), AfterAll(w, es, h))
    case If(_, _, _) => ExecClauses(w, s, 0, h, fuel)
    case Switch(target, _, _) => ExecWhens(w, s, 0, ValueOf(w, target, h), After(w, target, h), fuel)
    case While(cond, body) =>
      if fuel == 0 then OutOfFuel(h)
      else if !IsTrue(ValueOf(w, cond, h)) then Finished(After(w, cond, h))
      else
        (match ExecBlock(w, body, After(w, cond, h), fuel - 1)
         case Finished(h1) => Exec(w, s, h1, fuel - 1)
         case other => other)
    case PostfixIf(negated, guard, guarded) =>
      if IsTrue(ValueOf(w, guard, h)) != negated then Exec(w, guarded, After(w, guard, h), fuel)
      else Finished(After(w, guard, h))
    case Nested(b) => ExecBlock(w, b, h, fuel)
  }

  function ExecBlock(w: World, b: seq<Stmt>, h: History, fuel: nat): Outcome
    decreases fuel, b, 0, 0
  {
    if b == [] then Finished(h)
    else
      match Exec(w, b[0], h, fuel)
      case Finished(h1) => ExecBlock(w, b[1..], h1, fuel)
      case other => other
  }

  /** Does clause `i` invert its condition?  Only the first one of an `unless` does. */
  predicate Inverted(s: Stmt, i: nat)
    requires s.If?
  {
    s.kind == Unless && i == 0
  }

  /** The clauses of an `if` from number `i` on. */
  function ExecClauses(w: World, s: Stmt, i: nat, h: History, fuel: nat): Outcome
    requires s.If? && i <= |s.clauses|
    decreases fuel, s, 0, |s.clauses| - i + 1
  {
    if i == |s.clauses| then (if s.ifElse.Else? then ExecBlock(w, s.ifElse.block, h, fuel) else Finished(h))
    else
      var c := s.clauses[i];
      if IsTrue(ValueOf(w, c.cond, h)) != Inverted(s, i)
      then ExecBlock(w, c.body, After(w, c.cond, h), fuel)
      else ExecClauses(w, s, i + 1, After(w, c.cond, h), fuel)
  }

  /** The `when`s of a `case` with a target from number `i` on. */
  function ExecWhens(w: World, s: Stmt, i: nat, target: Value, h: History, fuel: nat): Outcome
    requires s.Switch? && i <= |s.whens|
    decreases fuel, s, 0, |s.whens| - i + 1
  {
    if i == |s.whens| then (if s.switchElse.Else? then ExecBlock(w, s.switchElse.block, h, fuel) else Finished(h))
    else
      var (matched, h1) := RunTests(w, target, s.whens[i].tests, h);
      if matched then ExecBlock(w, s.whens[i].body, h1, fuel)
      else ExecWhens(w, s, i + 1, target, h1, fuel)
  }
}
