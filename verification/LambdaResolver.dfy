/**
 * The passes over the syntax tree that resolve lambdas.
 *
 * Each is proved against its specification in `CaptureResolution`.
 */
module LambdaResolver {
  import opened Closures
  import opened CaptureResolution

  /** Gathers the captures of one lambda. */
  class CaptureVisitor {
    var captures: seq<string>           // by offset
    var offset: nat
    var symMap: map<string, nat>        // the offset already given to a symbol
    var currentScope: seq<Scope>

    ghost predicate Valid()
      reads this
    {
      && HasThreshold(currentScope)
      && offset == |captures|
      && symMap.Keys == Names(captures)
      && forall x <- symMap :: symMap[x] < |captures| && captures[symMap[x]] == x
    }

    constructor (params: seq<string>)
      ensures Valid() && captures == [] && currentScope == [FuncScope(params, true)]
    {
      captures, offset, symMap := [], 0, map[];
      currentScope := [FuncScope(params, true)];
    }

    method VisitRef(s: Symbol)
      requires Valid()
      modifies this
      ensures Valid() && currentScope == old(currentScope)
      ensures captures == Collect(Ref(s), currentScope, old(captures))
      ensures offset == old(offset) + if captures == old(captures) then 0 else 1
    {
      if s.global || !Captured(s.name, currentScope) || s.name in symMap { return; }
      assert forall x :: x in Names(captures + [s.name]) <==> x in Names(captures) || x == s.name;
      symMap := symMap[s.name := offset];
      captures := captures + [s.name];
      offset := offset + 1;
    }

    method Visit(e: Expr)
      requires Valid()
      modifies this
      ensures Valid() && currentScope == old(currentScope)
      ensures captures == Collect(e, currentScope, old(captures))
      decreases e, 1
    {
      match e
      case Num(_) =>
      case Ref(s) => VisitRef(s);
      case Access(_) =>
      case Add(l, r) => Visit(l); Visit(r);
      case Cond(c, t, f) => Visit(c); Visit(t); Visit(f);
      case Let(x, later, init, body) =>
        var saved := currentScope;
        currentScope := [LocalScope([x] + later)] + currentScope;
        Visit(init);
        Visit(body);
        currentScope := saved;
      case Call(callee, args) => Visit(callee); VisitAll(args);
      case Lambda(_, _, receiver) => VisitAll(receiver);
    }

    method VisitAll(es: seq<Expr>)
      requires Valid()
      modifies this
      ensures Valid() && currentScope == old(currentScope)
      ensures captures == CollectAll(es, currentScope, old(captures))
      decreases es, 0
    {
      for i := 0 to |es|
        invariant Valid() && currentScope == old(currentScope)
        invariant CollectAll(es[i..], currentScope, captures) == CollectAll(es, currentScope, old(captures))
      {
        Visit(es[i]);
        assert es[i..][1..] == es[i + 1..];
      }
    }
  }

  /** Converts every lambda in an expression, the innermost first. */
  method ResolveLambdas(e: Expr) returns (r: Expr)
    ensures r == Resolve(e)
    decreases e, 1
  {
    match e
    case Num(_) => r := e;
    case Ref(_) => r := e;
    case Access(_) => r := e;
    case Add(l, r0) =>
      var a := ResolveLambdas(l);
      var b := ResolveLambdas(r0);
      r := Add(a, b);
    case Cond(c, t, f) =>
      var a := ResolveLambdas(c);
      var b := ResolveLambdas(t);
      var d := ResolveLambdas(f);
      r := Cond(a, b, d);
    case Let(x, later, init, body) =>
      var a := ResolveLambdas(init);
      var b := ResolveLambdas(body);
      r := Let(x, later, a, b);
    case Call(callee, args) =>
      var a := ResolveLambdas(callee);
      var b := ResolveArgs(args);
      r := Call(a, b);
    case Lambda(params, def, receiver) =>
      var inner := ResolveLambdas(def);
      var visitor := new CaptureVisitor(params);
      visitor.Visit(inner);
      r := Lambda(params, Replace(inner, visitor.captures, {}), receiver + Refs(visitor.captures));
  }

  method ResolveArgs(es: seq<Expr>) returns (r: seq<Expr>)
    ensures r == ResolveAll(es)
    decreases es, 0
  {
    r := [];
    for i := 0 to |es|
      invariant |r| == i && forall j :: 0 <= j < i ==> r[j] == Resolve(es[j])
    {
      var a := ResolveLambdas(es[i]);
      r := r + [a];
    }
  }
}
