/** Closure conversion preserves meaning. */
module ClosureMeaning {
  import opened Closures
  import opened CaptureResolution

  /** The lambda object a closure becomes: the converted body and, in order of offset, the
      captured variables' values. */
  function Convert(v: Value): Value
    decreases v, 1
  {
    match v
    case Closure(params, def, env) =>
      var caps := CapturesOf(params, Resolve(def));
      Object(params, Replace(Resolve(def), caps, {}), Fields(caps, ConvertEnv(env)))
    case _ => v
  }

  function ConvertEnv(env: Env): (r: Env)
    ensures Dom(r) == Dom(env)
    decreases env, 0
  {
    if env == [] then []
    else
      DomCons(env[0], env[1..]);
      assert env == [env[0]] + env[1..];
      DomCons(Binding(env[0].name, Convert(env[0].value)), ConvertEnv(env[1..]));
      [Binding(env[0].name, Convert(env[0].value))] + ConvertEnv(env[1..])
  }

  lemma DomCons(b: Binding, env: Env)
    ensures Dom([b] + env) == {b.name} + Dom(env)
  {
    assert forall c :: c in [b] + env <==> c == b || c in env;
  }

  function Fields(caps: seq<string>, env: Env): seq<Value> {
    seq(|caps|, i requires 0 <= i < |caps| => Lookup(env, caps[i]))
  }

  function ConvertResult(r: Result): Result {
    if r.Yields? then Yields(Convert(r.v)) else r
  }

  function ConvertAll(vs: seq<Value>): (r: seq<Value>)
    ensures |r| == |vs| && forall i :: 0 <= i < |vs| ==> r[i] == Convert(vs[i])
  {
    if vs == [] then [] else [Convert(vs[0])] + ConvertAll(vs[1..])
  }

  function ConvertResults(r: Results): Results {
    if r.AllYield? then AllYield(ConvertAll(r.vs)) else r
  }

  /** Every free variable of every lambda is seen by the search, if `exact`. */
  predicate Admitted(e: Expr, exact: bool) { Unconverted(e) && (exact ==> Convertible(e)) }

  /** Values as evaluation makes them: a closure's free variables are in its scope. */
  predicate Sound(v: Value, exact: bool)
    decreases v, 1
  {
    match v
    case Closure(params, def, env) =>
      Admitted(Lambda(params, def, []), exact) && Free(Lambda(params, def, [])) <= Dom(env) && SoundEnv(env, exact)
    case Int(_) => true
    case Object(_, _, _) => false
  }

  predicate SoundEnv(env: Env, exact: bool)
    decreases env, 0
  {
    env == [] || (Sound(env[0].value, exact) && SoundEnv(env[1..], exact))
  }

  /** The converted code gives the converted result or, unless `exact`, gets stuck on a variable
      that was not captured. */
  predicate Follows(c: Result, r: Result, exact: bool) {
    c == ConvertResult(r) || (!exact && c == Stuck)
  }

  predicate AllFollow(c: Results, r: Results, exact: bool) {
    c == ConvertResults(r) || (!exact && c == NotAll(Stuck))
  }

  lemma {:induction false} LookupConverts(env: Env, x: string)
    requires x in Dom(env)
    ensures Lookup(ConvertEnv(env), x) == Convert(Lookup(env, x))
    ensures forall exact :: SoundEnv(env, exact) ==> Sound(Lookup(env, x), exact)
  {
    assert env == [env[0]] + env[1..];
    if env[0].name != x { LookupConverts(env[1..], x); }
  }

  /** What converted code can reach agrees with the original scope `env`: a captured
      variable through the receiver, any other through the local `cenv`, if it is there. */
  ghost predicate AgreesOn(x: string, env: Env, caps: seq<string>, hidden: set<string>,
                           cenv: Env, receiver: seq<Value>, exact: bool) {
    && x in Dom(env)
    && (if x in caps && x !in hidden then
          IndexOf(caps, x) < |receiver| && receiver[IndexOf(caps, x)] == Convert(Lookup(env, x))
        else (x in Dom(cenv) ==> Lookup(cenv, x) == Convert(Lookup(env, x))) && (exact ==> x in Dom(cenv)))
  }

  ghost predicate Agrees(vars: set<string>, env: Env, caps: seq<string>, hidden: set<string>,
                         cenv: Env, receiver: seq<Value>, exact: bool) {
    forall x <- vars :: AgreesOn(x, env, caps, hidden, cenv, receiver, exact)
  }

  // ---------- calls ----------

  lemma {:induction false} BindLookup(params: seq<string>, vs: seq<Value>, env: Env, x: string)
    requires |params| == |vs|
    ensures Dom(Bind(params, vs)) == Names(params)
    ensures Dom(Bind(params, vs) + env) == Names(params) + Dom(env)
    ensures x in params ==> Lookup(Bind(params, vs) + env, x) == Lookup(Bind(params, vs), x)
    ensures x !in params ==> Lookup(Bind(params, vs) + env, x) == Lookup(env, x)
    decreases params
  {
    var b := Bind(params, vs);
    if params == [] {
      assert b + env == env;
    } else {
      BindLookup(params[1..], vs[1..], env, x);
      assert b == [Binding(params[0], vs[0])] + Bind(params[1..], vs[1..]);
      assert b + env == [Binding(params[0], vs[0])] + (Bind(params[1..], vs[1..]) + env);
      assert Names(params) == {params[0]} + Names(params[1..]);
    }
  }

  lemma {:induction false} BindConverts(params: seq<string>, vs: seq<Value>, x: string)
    requires |params| == |vs| && x in params
    ensures Lookup(Bind(params, ConvertAll(vs)), x) == Convert(Lookup(Bind(params, vs), x))
    decreases params
  {
    hide Bind;
    BindCons(params, vs);
    BindCons(params, ConvertAll(vs));
    if params[0] != x { BindConverts(params[1..], vs[1..], x); }
  }

  lemma BindCons(params: seq<string>, vs: seq<Value>)
    requires |params| == |vs| > 0
    ensures Bind(params, vs) == [Binding(params[0], vs[0])] + Bind(params[1..], vs[1..])
  {
  }

  lemma {:induction false} BindSound(params: seq<string>, vs: seq<Value>, env: Env, exact: bool)
    requires |params| == |vs| && SoundEnv(env, exact) && forall v <- vs :: Sound(v, exact)
    ensures SoundEnv(Bind(params, vs) + env, exact)
    decreases params
  {
    var b := Bind(params, vs);
    if params == [] {
      assert b + env == env;
    } else {
      assert vs[0] in vs;
      BindSound(params[1..], vs[1..], env, exact);
      assert b + env == [Binding(params[0], vs[0])] + (Bind(params[1..], vs[1..]) + env);
    }
  }

  /** Entering a converted lambda: parameters are local, everything else is in the receiver. */
  lemma CallAgrees(params: seq<string>, def: Expr, env: Env, vs: seq<Value>, exact: bool)
    requires |params| == |vs| && Sound(Closure(params, def, env), exact)
    ensures var caps := CapturesOf(params, Resolve(def));
            Agrees(Free(def), Bind(params, vs) + env, caps, {}, Bind(params, ConvertAll(vs)),
                   Fields(caps, ConvertEnv(env)), exact)
  {
    var caps := CapturesOf(params, Resolve(def));
    CapturesAreSeen(params, def);
    forall x <- Free(def)
      ensures AgreesOn(x, Bind(params, vs) + env, caps, {}, Bind(params, ConvertAll(vs)),
                       Fields(caps, ConvertEnv(env)), exact)
    {
      BindLookup(params, vs, env, x);
      BindLookup(params, ConvertAll(vs), env, x);
      if x in params {
        BindConverts(params, vs, x);
        assert x !in Names(caps);
      } else {
        assert exact ==> x in Names(caps);
        LookupConverts(env, x);
      }
    }
  }

  lemma LetAgrees(x: string, v: Value, vars: set<string>, env: Env, caps: seq<string>, hidden: set<string>,
                  cenv: Env, receiver: seq<Value>, exact: bool)
    requires SoundEnv(env, exact) && Sound(v, exact)
    requires Agrees(vars - {x}, env, caps, hidden, cenv, receiver, exact)
    ensures var env1, cenv1 := [Binding(x, v)] + env, [Binding(x, Convert(v))] + cenv;
            && Dom(env1) == Dom(env) + {x} && SoundEnv(env1, exact)
            && Agrees(vars, env1, caps, hidden + {x}, cenv1, receiver, exact)
  {
    var env1, cenv1 := [Binding(x, v)] + env, [Binding(x, Convert(v))] + cenv;
    assert env1[1..] == env && cenv1[1..] == cenv;
    DomCons(Binding(x, v), env);
    DomCons(Binding(x, Convert(v)), cenv);
    forall y <- vars ensures AgreesOn(y, env1, caps, hidden + {x}, cenv1, receiver, exact) {
      assert y != x ==> AgreesOn(y, env, caps, hidden, cenv, receiver, exact);
    }
  }

  // ---------- the theorem ----------

  /** Evaluating the converted expression gives the converted result. */
  lemma {:induction false} ConversionPreserves(e: Expr, env: Env, caps: seq<string>, hidden: set<string>, cenv: Env,
                                               receiver: seq<Value>, globals: map<string, int>, fuel: nat, exact: bool)
    requires Admitted(e, exact) && SoundEnv(env, exact)
    requires Agrees(Free(e), env, caps, hidden, cenv, receiver, exact)
    ensures var r := Eval(e, env, globals, fuel);
            && Follows(EvalC(Replace(Resolve(e), caps, hidden), cenv, receiver, globals, fuel), r, exact)
            && (r.Yields? ==> Sound(r.v, exact))
    decreases fuel, e, 1
  {
    match e
    case Num(_) =>
    case Ref(s) => if !s.global { LookupConverts(env, s.name); }
    case Add(l, r) =>
      ConversionPreserves(l, env, caps, hidden, cenv, receiver, globals, fuel, exact);
      ConversionPreserves(r, env, caps, hidden, cenv, receiver, globals, fuel, exact);
    case Cond(c, t, f) =>
      ConversionPreserves(c, env, caps, hidden, cenv, receiver, globals, fuel, exact);
      ConversionPreserves(t, env, caps, hidden, cenv, receiver, globals, fuel, exact);
      ConversionPreserves(f, env, caps, hidden, cenv, receiver, globals, fuel, exact);
    case Let(_, _, _, _) =>
      LetConverts(e, env, caps, hidden, cenv, receiver, globals, fuel, exact);
    case Call(_, _) =>
      CallConverts(e, env, caps, hidden, cenv, receiver, globals, fuel, exact);
    case Lambda(params, def, _) =>
      LambdaConverts(e, env, caps, hidden, cenv, receiver, globals, fuel, exact);
  }

  lemma {:induction false} LetConverts(e: Expr, env: Env, caps: seq<string>, hidden: set<string>, cenv: Env,
                                       receiver: seq<Value>, globals: map<string, int>, fuel: nat, exact: bool)
    requires e.Let? && Admitted(e, exact) && SoundEnv(env, exact)
    requires Agrees(Free(e), env, caps, hidden, cenv, receiver, exact)
    ensures var r := Eval(e, env, globals, fuel);
            && Follows(EvalC(Replace(Resolve(e), caps, hidden), cenv, receiver, globals, fuel), r, exact)
            && (r.Yields? ==> Sound(r.v, exact))
    decreases fuel, e, 0
  {
    var x, init, body := e.name, e.init, e.body;
    ConversionPreserves(init, env, caps, hidden, cenv, receiver, globals, fuel, exact);
    var r := Eval(init, env, globals, fuel);
    if r.Yields? {
      LetAgrees(x, r.v, Free(body), env, caps, hidden, cenv, receiver, exact);
      ConversionPreserves(body, [Binding(x, r.v)] + env, caps, hidden + {x},
                          [Binding(x, Convert(r.v))] + cenv, receiver, globals, fuel, exact);
    }
  }

  lemma ConvertShape(v: Value, exact: bool)
    requires Sound(v, exact)
    ensures Convert(v).Object? <==> v.Closure?
    ensures v.Closure? ==> Convert(v).params == v.params && Sound(Closure(v.params, v.def, v.env), exact)
  {
  }

  lemma {:induction false} CallConverts(e: Expr, env: Env, caps: seq<string>, hidden: set<string>, cenv: Env,
                                        receiver: seq<Value>, globals: map<string, int>, fuel: nat, exact: bool)
    requires e.Call? && Admitted(e, exact) && SoundEnv(env, exact)
    requires Agrees(Free(e), env, caps, hidden, cenv, receiver, exact)
    ensures var r := Eval(e, env, globals, fuel);
            && Follows(EvalC(Replace(Resolve(e), caps, hidden), cenv, receiver, globals, fuel), r, exact)
            && (r.Yields? ==> Sound(r.v, exact))
    decreases fuel, e, 0
  {
    assert Agrees(Free(e.callee), env, caps, hidden, cenv, receiver, exact);
    assert Agrees(FreeAll(e.args), env, caps, hidden, cenv, receiver, exact);
    hide Agrees, Convert, Lookup, Dom, Bind, Free, SoundEnv;
    ConversionPreserves(e.callee, env, caps, hidden, cenv, receiver, globals, fuel, exact);
    ConversionPreservesAll(e.args, env, caps, hidden, cenv, receiver, globals, fuel, exact);
    var f, vs := Eval(e.callee, env, globals, fuel), EvalAll(e.args, env, globals, fuel);
    if f.Yields? { ConvertShape(f.v, exact); }
    if f.Yields? && vs.AllYield? && f.v.Closure? && |f.v.params| == |vs.vs| && fuel > 0 {
      ConversionPreservesBody(f.v.params, f.v.def, f.v.env, vs.vs, globals, fuel - 1, exact);
    }
  }

  lemma {:induction false} ConversionPreservesAll(es: seq<Expr>, env: Env, caps: seq<string>, hidden: set<string>,
                                                  cenv: Env, receiver: seq<Value>, globals: map<string, int>,
                                                  fuel: nat, exact: bool)
    requires AllUnconverted(es) && (exact ==> AllConvertible(es)) && SoundEnv(env, exact)
    requires Agrees(FreeAll(es), env, caps, hidden, cenv, receiver, exact)
    ensures var r := EvalAll(es, env, globals, fuel);
            && AllFollow(EvalAllC(ReplaceAll(ResolveAll(es), caps, hidden), cenv, receiver, globals, fuel), r, exact)
            && (r.AllYield? ==> forall v <- r.vs :: Sound(v, exact))
    decreases fuel, es, 0
  {
    if es != [] {
      ConversionPreserves(es[0], env, caps, hidden, cenv, receiver, globals, fuel, exact);
      ConversionPreservesAll(es[1..], env, caps, hidden, cenv, receiver, globals, fuel, exact);
      assert ReplaceAll(ResolveAll(es), caps, hidden)[1..] == ReplaceAll(ResolveAll(es[1..]), caps, hidden);
    }
  }

  /** A converted lambda body, run with the receiver built where the lambda was defined,
      gives the value of the original body in the scope it was defined in. */
  lemma {:induction false} ConversionPreservesBody(params: seq<string>, def: Expr, env: Env, args: seq<Value>,
                                                   globals: map<string, int>, fuel: nat, exact: bool)
    requires |params| == |args| && Sound(Closure(params, def, env), exact)
    requires forall v <- args :: Sound(v, exact)
    ensures var obj := Convert(Closure(params, def, env));
            var r := Eval(def, Bind(params, args) + env, globals, fuel);
            && Follows(EvalC(obj.def, Bind(params, ConvertAll(args)), obj.receiver, globals, fuel), r, exact)
            && (r.Yields? ==> Sound(r.v, exact))
    decreases fuel, def, 2
  {
    var caps := CapturesOf(params, Resolve(def));
    CapturesAreSeen(params, def);
    CallAgrees(params, def, env, args, exact);
    BindLookup(params, args, env, "");
    BindSound(params, args, env, exact);
    assert Dom(Bind(params, args) + env) == Dom(env) + Names(params);
    ConversionPreserves(def, Bind(params, args) + env, caps, {}, Bind(params, ConvertAll(args)),
                        Fields(caps, ConvertEnv(env)), globals, fuel, exact);
  }

  /** The receiver tuple of a nested lambda takes its fields from the variables or, where
      those are captures of the surrounding lambda, from the surrounding receiver. */
  lemma LambdaConverts(e: Expr, env: Env, caps: seq<string>, hidden: set<string>, cenv: Env, receiver: seq<Value>,
                       globals: map<string, int>, fuel: nat, exact: bool)
    requires e.Lambda? && Admitted(e, exact) && Agrees(Free(e), env, caps, hidden, cenv, receiver, exact)
    ensures Follows(EvalC(Replace(Resolve(e), caps, hidden), cenv, receiver, globals, fuel),
                    Yields(Closure(e.params, e.def, env)), exact)
  {
    var own := CapturesOf(e.params, Resolve(e.def));
    CapturesAreSeen(e.params, e.def);
    assert e.receiver + Refs(own) == Refs(own);
    SeenIsFree(e);
    assert Names(own) == Seen(e);
    FieldsConvert(own, env, caps, hidden, cenv, receiver, globals, fuel, exact);
  }

  lemma {:induction false} FieldsConvert(own: seq<string>, env: Env, caps: seq<string>, hidden: set<string>,
                                         cenv: Env, receiver: seq<Value>, globals: map<string, int>,
                                                  fuel: nat, exact: bool)
    requires Agrees(Names(own), env, caps, hidden, cenv, receiver, exact)
    ensures var c := EvalAllC(ReplaceAll(Refs(own), caps, hidden), cenv, receiver, globals, fuel);
            c == AllYield(Fields(own, ConvertEnv(env))) || (!exact && c == NotAll(Stuck))
    decreases own
  {
    if own != [] {
      var x := own[0];
      assert x in Names(own);
      LookupConverts(env, x);
      assert AgreesOn(x, env, caps, hidden, cenv, receiver, exact);
      FieldsConvert(own[1..], env, caps, hidden, cenv, receiver, globals, fuel, exact);
      assert Refs(own) == [RefTo(x)] + Refs(own[1..]);
      var fields := ReplaceAll(Refs(own), caps, hidden);
      assert fields[1..] == ReplaceAll(Refs(own[1..]), caps, hidden);
      var c := EvalC(fields[0], cenv, receiver, globals, fuel);
      assert c == Yields(Lookup(ConvertEnv(env), x)) || (!exact && c == Stuck);
      assert Fields(own, ConvertEnv(env)) == [Lookup(ConvertEnv(env), x)] + Fields(own[1..], ConvertEnv(env));
    }
  }

  /** A function outside all lambdas has nothing to replace. */
  lemma {:induction false} NothingToReplace(e: Expr, hidden: set<string>)
    ensures Replace(e, [], hidden) == e
  {
    match e
    case Num(_) => case Ref(_) => case Access(_) =>
    case Add(l, r) => NothingToReplace(l, hidden); NothingToReplace(r, hidden);
    case Cond(c, t, f) => NothingToReplace(c, hidden); NothingToReplace(t, hidden); NothingToReplace(f, hidden);
    case Let(x, _, init, body) => NothingToReplace(init, hidden); NothingToReplace(body, hidden + {x});
    case Call(callee, args) => NothingToReplace(callee, hidden); NothingToReplaceAll(args, hidden);
    case Lambda(_, _, receiver) => NothingToReplaceAll(receiver, hidden);
  }

  lemma {:induction false} NothingToReplaceAll(es: seq<Expr>, hidden: set<string>)
    ensures ReplaceAll(es, [], hidden) == es
  {
    if es != [] { NothingToReplace(es[0], hidden); NothingToReplaceAll(es[1..], hidden); }
  }

  lemma FunctionFollows(body: Expr, params: Env, globals: map<string, int>, fuel: nat, exact: bool)
    requires Admitted(body, exact) && Free(body) <= Dom(params) && SoundEnv(params, exact)
    ensures Follows(EvalC(Resolve(body), ConvertEnv(params), [], globals, fuel),
                    Eval(body, params, globals, fuel), exact)
  {
    NothingToReplace(Resolve(body), {});
    forall x <- Free(body) ensures AgreesOn(x, params, [], {}, ConvertEnv(params), [], exact) {
      LookupConverts(params, x);
    }
    ConversionPreserves(body, params, [], {}, ConvertEnv(params), [], globals, fuel, exact);
  }

  /** Whole functions, with lambdas nested to any depth and with shadowing, evaluate as before,
      provided that the search sees all free variables of each lambda. */
  lemma FunctionConversionPreserves(body: Expr, params: Env, globals: map<string, int>, fuel: nat)
    requires Convertible(body) && Free(body) <= Dom(params) && SoundEnv(params, true)
    ensures EvalC(Resolve(body), ConvertEnv(params), [], globals, fuel)
         == ConvertResult(Eval(body, params, globals, fuel))
  {
    ConvertibleIsUnconverted(body);
    FunctionFollows(body, params, globals, fuel, true);
  }

  /** Without that, a missed capture never gives a wrong value or makes a run longer: the
      converted function has the converted result or is stuck. */
  lemma ConversionIsNeverWrong(body: Expr, params: Env, globals: map<string, int>, fuel: nat)
    requires Unconverted(body) && Free(body) <= Dom(params) && SoundEnv(params, false)
    ensures var c := EvalC(Resolve(body), ConvertEnv(params), [], globals, fuel);
            c == ConvertResult(Eval(body, params, globals, fuel)) || c == Stuck
  {
    FunctionFollows(body, params, globals, fuel, false);
  }

  /** In particular where no variable from outside a block is read before the block declares
      one of its name. */
  lemma TidyFunctionConverts(body: Expr, params: Env, globals: map<string, int>, fuel: nat)
    requires Unconverted(body) && Tidy(body) && Free(body) <= Dom(params) && SoundEnv(params, true)
    ensures EvalC(Resolve(body), ConvertEnv(params), [], globals, fuel)
         == ConvertResult(Eval(body, params, globals, fuel))
  {
    TidyIsConvertible(body);
    FunctionConversionPreserves(body, params, globals, fuel);
  }

  /** Where a declaration hides the variable it is initialized from, and the lambda reads that
      variable nowhere else, the capture is missed and the call has no value. */
  lemma ShadowingLosesCapture(x: string, n: int)
    ensures var def := Let(x, [], RefTo(x), RefTo(x));
            var lam, env := Lambda([], def, []), [Binding(x, Int(n))];
            && Free(lam) == {x} && CapturesOf([], Resolve(def)) == []
            && Eval(Call(lam, []), env, map[], 1) == Yields(Int(n))
            && EvalC(Resolve(Call(lam, [])), ConvertEnv(env), [], map[], 1) == Stuck
  {
    var def := Let(x, [], RefTo(x), RefTo(x));
    var env := [Binding(x, Int(n))];
    var lam := Lambda([], def, []);
    CaptureMissed(x);
    NothingToReplace(def, {});
    assert Resolve(lam) == Lambda([], def, []) by { assert Refs([]) == []; }
    CallWithoutCapture(x, n);
  }

  lemma CaptureMissed(x: string)
    ensures var def := Let(x, [], RefTo(x), RefTo(x));
            Resolve(def) == def && Free(Lambda([], def, [])) == {x} && CapturesOf([], def) == []
  {
    var def := Let(x, [], RefTo(x), RefTo(x));
    assert Resolve(def) == def;
    CapturesAreSeen([], def);
    assert x in Names([x] + []) by { assert ([x] + [])[0] == x; }
    assert Names([]) == {};
    assert Free(def) == {x} && Seen(def) == {};
    var caps := CapturesOf([], def);
    DistinctCount(caps);
  }

  lemma CallWithoutCapture(x: string, n: int)
    ensures var def := Let(x, [], RefTo(x), RefTo(x));
            var lam, env := Lambda([], def, []), [Binding(x, Int(n))];
            && Eval(Call(lam, []), env, map[], 1) == Yields(Int(n))
            && EvalC(Call(lam, []), ConvertEnv(env), [], map[], 1) == Stuck
  {
    var def := Let(x, [], RefTo(x), RefTo(x));
    var env, lam := [Binding(x, Int(n))], Lambda([], def, []);
    assert Bind([], []) + env == env && Bind([], []) == [];
    assert env[0] in env && ([Binding(x, Int(n))] + env)[0] in [Binding(x, Int(n))] + env;
    assert Eval(lam, env, map[], 1) == Yields(Closure([], def, env));
    assert Eval(def, env, map[], 0) == Yields(Int(n));
    assert EvalC(def, [], [], map[], 0) == Stuck;
    assert EvalC(lam, ConvertEnv(env), [], map[], 1) == Yields(Object([], def, []));
  }
}
