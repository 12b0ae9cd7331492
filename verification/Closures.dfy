/** Functions with lambdas, before and after closure conversion. */
module Closures {

  /** A reference to a variable; the capture search compares names, the rewriting symbols. */
  datatype Symbol = Symbol(name: string, global: bool)

  /** A block is a chain of declarations; `later` are the variables that the same block
      declares further on, since a scope lists all variables of its block. */
  datatype Expr =
    | Num(n: int)
    | Ref(symbol: Symbol)
    | Access(offset: nat)                          // the receiver's field of that number
    | Add(lhs: Expr, rhs: Expr)
    | Cond(test: Expr, ifTrue: Expr, ifFalse: Expr)
    | Let(name: string, later: seq<string>, init: Expr, body: Expr)   // a declaration, and what follows it
    | Call(callee: Expr, args: seq<Expr>)
    | Lambda(params: seq<string>, def: Expr, receiver: seq<Expr>)

  /** `Closure` is a lambda with the scope it was defined in; `Object` is a lambda object
      that carries the values of its receiver tuple only. */
  datatype Value =
    | Int(n: int)
    | Closure(params: seq<string>, def: Expr, env: Env)
    | Object(params: seq<string>, def: Expr, receiver: seq<Value>)

  datatype Binding = Binding(name: string, value: Value)

  type Env = seq<Binding>

  datatype Result = Yields(v: Value) | Stuck | OutOfFuel

  datatype Results = AllYield(vs: seq<Value>) | NotAll(why: Result)

  // ---------- environments ----------

  function Dom(env: Env): set<string> { set b <- env :: b.name }

  function Lookup(env: Env, x: string): Value {
    if env == [] then Int(0) else if env[0].name == x then env[0].value else Lookup(env[1..], x)
  }

  function Bind(params: seq<string>, vs: seq<Value>): Env
    requires |params| == |vs|
  {
    seq(|params|, i requires 0 <= i < |params| => Binding(params[i], vs[i]))
  }

  function Names(xs: seq<string>): set<string> { set x <- xs }

  // ---------- lexically scoped evaluation ----------

  /** Fuel bounds the depth of calls. */
  function Eval(e: Expr, env: Env, globals: map<string, int>, fuel: nat): Result
    decreases fuel, e
  {
    match e
    case Num(n) => Yields(Int(n))
    case Ref(s) =>
      if s.global then (if s.name in globals then Yields(Int(globals[s.name])) else Stuck)
      else if s.name in Dom(env) then Yields(Lookup(env, s.name)) else Stuck
    case Access(_) => Stuck
    case Add(l, r) => AddResults(Eval(l, env, globals, fuel), Eval(r, env, globals, fuel))
    case Cond(c, t, f) =>
      var r := Eval(c, env, globals, fuel);
      if !r.Yields? then r
      else if r.v == Int(0) then Eval(f, env, globals, fuel) else Eval(t, env, globals, fuel)
    case Let(x, _, init, body) =>
      var r := Eval(init, env, globals, fuel);
      if !r.Yields? then r else Eval(body, [Binding(x, r.v)] + env, globals, fuel)
    case Call(callee, args) =>
      var f := Eval(callee, env, globals, fuel);
      var vs := EvalAll(args, env, globals, fuel);
      if !f.Yields? then f
      else if vs.NotAll? then vs.why
      else if !f.v.Closure? || |f.v.params| != |vs.vs| then Stuck
      else if fuel == 0 then OutOfFuel
      else Eval(f.v.def, Bind(f.v.params, vs.vs) + f.v.env, globals, fuel - 1)
    case Lambda(params, def, _) => Yields(Closure(params, def, env))
  }

  function EvalAll(es: seq<Expr>, env: Env, globals: map<string, int>, fuel: nat): (r: Results)
    ensures if r.AllYield? then |r.vs| == |es| else !r.why.Yields?
    decreases fuel, es
  {
    if es == [] then AllYield([])
    else
      var r := Eval(es[0], env, globals, fuel);
      if !r.Yields? then NotAll(r)
      else
        match EvalAll(es[1..], env, globals, fuel)
        case AllYield(vs) => AllYield([r.v] + vs)
        case other => other
  }

  function AddResults(a: Result, b: Result): Result {
    if !a.Yields? then a else if !b.Yields? then b
    else if a.v.Int? && b.v.Int? then Yields(Int(a.v.n + b.v.n)) else Stuck
  }

  // ---------- evaluation of converted code ----------

  /** A converted body sees its own parameters and variables, and its receiver. */
  function EvalC(e: Expr, env: Env, receiver: seq<Value>, globals: map<string, int>, fuel: nat): Result
    decreases fuel, e
  {
    match e
    case Num(n) => Yields(Int(n))
    case Ref(s) =>
      if s.global then (if s.name in globals then Yields(Int(globals[s.name])) else Stuck)
      else if s.name in Dom(env) then Yields(Lookup(env, s.name)) else Stuck
    case Access(i) => if i < |receiver| then Yields(receiver[i]) else Stuck
    case Add(l, r) => AddResults(EvalC(l, env, receiver, globals, fuel), EvalC(r, env, receiver, globals, fuel))
    case Cond(c, t, f) =>
      var r := EvalC(c, env, receiver, globals, fuel);
      if !r.Yields? then r
      else if r.v == Int(0) then EvalC(f, env, receiver, globals, fuel)
      else EvalC(t, env, receiver, globals, fuel)
    case Let(x, _, init, body) =>
      var r := EvalC(init, env, receiver, globals, fuel);
      if !r.Yields? then r else EvalC(body, [Binding(x, r.v)] + env, receiver, globals, fuel)
    case Call(callee, args) =>
      var f := EvalC(callee, env, receiver, globals, fuel);
      var vs := EvalAllC(args, env, receiver, globals, fuel);
      if !f.Yields? then f
      else if vs.NotAll? then vs.why
      else if !f.v.Object? || |f.v.params| != |vs.vs| then Stuck
      else if fuel == 0 then OutOfFuel
      else EvalC(f.v.def, Bind(f.v.params, vs.vs), f.v.receiver, globals, fuel - 1)
    case Lambda(params, def, fields) =>
      match EvalAllC(fields, env, receiver, globals, fuel)
      case AllYield(vs) => Yields(Object(params, def, vs))
      case NotAll(why) => why
  }

  function EvalAllC(es: seq<Expr>, env: Env, receiver: seq<Value>, globals: map<string, int>, fuel: nat): Results
    decreases fuel, es
  {
    if es == [] then AllYield([])
    else
      var r := EvalC(es[0], env, receiver, globals, fuel);
      if !r.Yields? then NotAll(r)
      else
        match EvalAllC(es[1..], env, receiver, globals, fuel)
        case AllYield(vs) => AllYield([r.v] + vs)
        case other => other
  }

  // ---------- scoping ----------

  function Free(e: Expr): set<string> {
    match e
    case Num(_) => {}
    case Ref(s) => if s.global then {} else {s.name}
    case Access(_) => {}
    case Add(l, r) => Free(l) + Free(r)
    case Cond(c, t, f) => Free(c) + Free(t) + Free(f)
    case Let(x, _, init, body) => Free(init) + (Free(body) - {x})
    case Call(callee, args) => Free(callee) + FreeAll(args)
    case Lambda(params, def, _) => Free(def) - Names(params)
  }

  function FreeAll(es: seq<Expr>): set<string> {
    if es == [] then {} else Free(es[0]) + FreeAll(es[1..])
  }

  /** As the symbol analysis leaves it: nothing is converted yet. */
  predicate Unconverted(e: Expr) {
    match e
    case Num(_) => true
    case Ref(_) => true
    case Access(_) => false
    case Add(l, r) => Unconverted(l) && Unconverted(r)
    case Cond(c, t, f) => Unconverted(c) && Unconverted(t) && Unconverted(f)
    case Let(_, _, init, body) => Unconverted(init) && Unconverted(body)
    case Call(callee, args) => Unconverted(callee) && AllUnconverted(args)
    case Lambda(_, def, receiver) => receiver == [] && Unconverted(def)
  }

  predicate AllUnconverted(es: seq<Expr>) {
    es == [] || (Unconverted(es[0]) && AllUnconverted(es[1..]))
  }
}
