/** Who wins an overload: domination, perfect matches, and the reach of the 64-bit product. */
module OverloadTheorems {
  import opened TypeRelations
  import opened TypeTheorems
  import opened Overloads

  // ---- The product ------------------------------------------------------------------------

  function Pow(b: nat, n: nat): (p: nat)
    ensures b > 0 ==> p > 0
  {
    if n == 0 then 1 else b * Pow(b, n - 1)
  }

  lemma {:induction false} PowAdds(b: nat, m: nat, n: nat)
    ensures Pow(b, m + n) == Pow(b, m) * Pow(b, n)
    decreases m
  {
    if m > 0 {
      PowAdds(b, m - 1, n);
      calc {
        Pow(b, m + n);
        b * (Pow(b, m - 1) * Pow(b, n));
        (b * Pow(b, m - 1)) * Pow(b, n);
      }
    }
  }

  lemma {:induction false} PowGrows(b: nat, m: nat, n: nat)
    requires b > 0 && m <= n
    ensures Pow(b, m) <= Pow(b, n)
    decreases n
  {
    if m < n { PowGrows(b, m, n - 1); }
  }

  lemma SizeIsPow()
    ensures Pow(2, 64) == SizeRange
  {
    assert Pow(2, 8) == 256;
    PowAdds(2, 8, 8);
    PowAdds(2, 16, 16);
    PowAdds(2, 32, 32);
  }

  lemma PowOfThree()
    ensures Pow(3, 40) == 12157665459056928801
  {
    assert Pow(3, 5) == 243;
    PowAdds(3, 5, 5);
    PowAdds(3, 10, 10);
    PowAdds(3, 20, 20);
  }

  /** The product of the parameter scores as a number without a width. */
  function Exact(params: seq<Type>, args: seq<Type>, n: nat): (p: nat)
    requires n <= |args| == |params|
  {
    if n == 0 then 1 else Exact(params, args, n - 1) * ParameterScore(args[n - 1], params[n - 1]).product
  }

  lemma {:induction false} ProductWraps(params: seq<Type>, args: seq<Type>, n: nat)
    requires n <= |args| == |params|
    ensures ScoreOfFirst(params, args, n).product == Exact(params, args, n) % SizeRange
  {
    hide ParameterScore;
    if n > 0 {
      ProductWraps(params, args, n - 1);
      WrapBefore(Exact(params, args, n - 1), ParameterScore(args[n - 1], params[n - 1]).product);
    }
  }

  lemma WrapBefore(x: nat, y: nat)
    ensures (x % SizeRange) * y % SizeRange == x * y % SizeRange
  {
    var q, r := x / SizeRange, x % SizeRange;
    calc {
      x * y;
      (q * SizeRange + r) * y;
      (q * y) * SizeRange + r * y;
    }
    WrapOff(q * y, r * y);
  }

  lemma {:induction false} WrapOff(k: nat, z: nat)
    ensures (k * SizeRange + z) % SizeRange == z % SizeRange
  {
    var q, r := z / SizeRange, z % SizeRange;
    var whole := k * SizeRange + z;
    assert whole == (k + q) * SizeRange + r;
    QuotientIsUnique(whole, k + q, r);
  }

  lemma QuotientIsUnique(x: nat, q: nat, r: nat)
    requires x == q * SizeRange + r && r < SizeRange
    ensures x % SizeRange == r
  {
    var q', r' := x / SizeRange, x % SizeRange;
    assert (q - q') * SizeRange == r' - r;
  }

  lemma {:induction false} ExactBound(params: seq<Type>, args: seq<Type>, n: nat)
    requires n <= |args| == |params|
    ensures Exact(params, args, n) <= Pow(3, n)
  {
    hide ParameterScore;
    if n > 0 {
      ExactBound(params, args, n - 1);
      var s := ParameterScore(args[n - 1], params[n - 1]).product;
      assert s <= 3;
      Scale(Exact(params, args, n - 1), Pow(3, n - 1), s, 3);
    }
  }

  lemma Scale(a: nat, b: nat, x: nat, y: nat)
    requires a <= b && x <= y
    ensures a * x <= b * y
    ensures a < b && y > 0 ==> a * x < b * y
    ensures b > 0 && x < y ==> a * x < b * y
  {
    assert a * x <= a * y <= b * y;
    if a < b && y > 0 { assert a * y < b * y; }
    if b > 0 && x < y {
      assert a * x <= b * x < b * y;
    }
  }

  /** Up to 40 parameters the product is the exact one. */
  lemma ProductIsExact(params: seq<Type>, args: seq<Type>, n: nat)
    requires n <= |args| == |params| && n <= 40
    ensures ScoreOfFirst(params, args, n).product == Exact(params, args, n)
  {
    ProductWraps(params, args, n);
    ExactBound(params, args, n);
    PowGrows(3, n, 40);
    PowOfThree();
  }

  // ---- Which candidates are applicable ------------------------------------------------------

  predicate Applicable(params: seq<Type>, args: seq<Type>, n: nat)
    requires n <= |args| == |params|
  {
    forall i :: 0 <= i < n ==> ParameterScore(args[i], params[i]).product > 0
  }

  /** How many of the first n parameters have product score s. */
  function CountOf(params: seq<Type>, args: seq<Type>, n: nat, s: nat): (c: nat)
    requires n <= |args| == |params|
    ensures c <= n
  {
    if n == 0 then 0
    else CountOf(params, args, n - 1, s) + (if ParameterScore(args[n - 1], params[n - 1]).product == s then 1 else 0)
  }

  lemma {:induction false} ExactFactors(params: seq<Type>, args: seq<Type>, n: nat)
    requires n <= |args| == |params|
    ensures Applicable(params, args, n) ==>
      Exact(params, args, n) == Pow(2, CountOf(params, args, n, 2)) * Pow(3, CountOf(params, args, n, 3))
    ensures !Applicable(params, args, n) ==> Exact(params, args, n) == 0
  {
    hide ParameterScore, Pow;
    if n == 0 {
      PowOfZero();
    } else {
      ExactFactors(params, args, n - 1);
      var s := ParameterScore(args[n - 1], params[n - 1]).product;
      var i, j := CountOf(params, args, n - 1, 2), CountOf(params, args, n - 1, 3);
      assert Applicable(params, args, n) <==> Applicable(params, args, n - 1) && s > 0;
      OneMoreFactor(i, j);
      assert s == 0 || s == 1 || s == 2 || s == 3;
    }
  }

  lemma PowOfZero()
    ensures forall b: nat :: Pow(b, 0) == 1
  {
  }

  lemma OneMoreFactor(i: nat, j: nat)
    ensures Pow(2, i) * Pow(3, j) * 2 == Pow(2, i + 1) * Pow(3, j)
    ensures Pow(2, i) * Pow(3, j) * 3 == Pow(2, i) * Pow(3, j + 1)
  {
    var a, b := Pow(2, i), Pow(3, j);
    assert Pow(2, i + 1) == 2 * a && Pow(3, j + 1) == 3 * b;
    assert (a * b) * 2 == (2 * a) * b && (a * b) * 3 == a * (3 * b);
  }

  lemma {:induction false} PowOfThreeIsOdd(n: nat)
    ensures Pow(3, n) % 2 == 1
  {
    if n > 0 { PowOfThreeIsOdd(n - 1); }
  }

  lemma ZeroModSize(a: nat, odd: nat)
    requires odd % 2 == 1
    ensures Pow(2, a) * odd % SizeRange == 0 <==> a >= 64
  {
    hide Pow;
    SizeIsPow();
    if a >= 64 {
      PowAdds(2, a - 64, 64);
      Multiple(Pow(2, a), Pow(2, a - 64), odd);
    } else if Pow(2, a) * odd % SizeRange == 0 {
      PowAdds(2, a, 64 - a);
      PowIsEven(64 - a);
      OddQuotient(Pow(2, a), odd, Pow(2, 64 - a));
    }
  }

  lemma Multiple(p: nat, k: nat, m: nat)
    requires p == k * SizeRange
    ensures p * m % SizeRange == 0
  {
    assert p * m == (k * m) * SizeRange + 0;
    QuotientIsUnique(p * m, k * m, 0);
  }

  lemma PowIsEven(n: nat)
    requires n > 0
    ensures Pow(2, n) % 2 == 0
  {
  }

  lemma EvenTimes(x: nat, y: nat)
    requires x % 2 == 0
    ensures x * y % 2 == 0
  {
    var half := x / 2;
    assert x == 2 * half;
    assert x * y == 2 * (half * y);
  }

  lemma OddQuotient(b: nat, odd: nat, rest: nat)
    requires b > 0 && odd % 2 == 1 && rest % 2 == 0 && b * rest == SizeRange
    ensures b * odd % SizeRange != 0
  {
    var q := b * odd / SizeRange;
    EvenTimes(rest, q);
    if b * odd % SizeRange == 0 {
      assert b * odd == (b * rest) * q == b * (rest * q);
      Cancel(b, odd, rest * q);
    }
  }

  lemma Cancel(b: nat, x: nat, y: nat)
    requires b > 0 && b * x == b * y
    ensures x == y
  {
    if x < y { Scale(b, b, x, y); }
    if y < x { Scale(b, b, y, x); }
  }

  /**
   * A candidate is taken into account exactly when every parameter matches, unless 64 or more
   * parameters match as instances of class templates: then the product wraps to nothing.
   */
  lemma EligibleExactly(f: FuncScope, name: string, args: seq<Type>)
    requires |f.params| == |args|
    ensures Eligible(f, name, args) <==>
      f.name == name && Applicable(f.params, args, |args|) && CountOf(f.params, args, |args|, 2) < 64
  {
    var n := |args|;
    ProductWraps(f.params, args, n);
    ExactFactors(f.params, args, n);
    if Applicable(f.params, args, n) {
      PowOfThreeIsOdd(CountOf(f.params, args, n, 3));
      ZeroModSize(CountOf(f.params, args, n, 2), Pow(3, CountOf(f.params, args, n, 3)));
    }
  }

  // ---- Domination ---------------------------------------------------------------------------

  /** At no parameter is g the better match. */
  predicate AtLeastAsGood(f: seq<Type>, g: seq<Type>, args: seq<Type>, n: nat)
    requires |f| == |g| == |args| && n <= |args|
  {
    forall i :: 0 <= i < n ==> !Beats(ParameterScore(args[i], g[i]), ParameterScore(args[i], f[i]))
  }

  predicate BetterSomewhere(f: seq<Type>, g: seq<Type>, args: seq<Type>, n: nat)
    requires |f| == |g| == |args| && n <= |args|
  {
    exists i :: 0 <= i < n && Beats(ParameterScore(args[i], f[i]), ParameterScore(args[i], g[i]))
  }

  lemma ParameterScoreShape(arg: Type, param: Type)
    ensures var s := ParameterScore(arg, param);
      && s.perfect == (if s.product == 3 then 1 else 0)
      && (s.product != 2 ==> s.depth == 0)
  {
  }

  lemma {:induction false} DominationAddsUp(f: seq<Type>, g: seq<Type>, args: seq<Type>, n: nat)
    requires |f| == |g| == |args| && n <= |args| && n <= 40
    requires AtLeastAsGood(f, g, args, n) && Applicable(g, args, n)
    ensures ScoreOfFirst(g, args, n).product > 0
    ensures var s, t := ScoreOfFirst(f, args, n), ScoreOfFirst(g, args, n);
      if BetterSomewhere(f, g, args, n) then Beats(s, t) else s == t
    ensures var s, t := ScoreOfFirst(f, args, n), ScoreOfFirst(g, args, n);
      s.product > t.product || (s.product == t.product && s.perfect == t.perfect && s.depth >= t.depth)
  {
    hide ParameterScore;
    if n > 0 {
      DominationAddsUp(f, g, args, n - 1);
      var s, t := ScoreOfFirst(f, args, n - 1), ScoreOfFirst(g, args, n - 1);
      var p, q := ParameterScore(args[n - 1], f[n - 1]), ParameterScore(args[n - 1], g[n - 1]);
      ParameterScoreShape(args[n - 1], f[n - 1]);
      ParameterScoreShape(args[n - 1], g[n - 1]);
      ProductIsExact(f, args, n - 1);
      ProductIsExact(f, args, n);
      ProductIsExact(g, args, n - 1);
      ProductIsExact(g, args, n);
      assert BetterSomewhere(f, g, args, n) == (BetterSomewhere(f, g, args, n - 1) || Beats(p, q));
      Scale(t.product, s.product, q.product, p.product);
      assert t.product * q.product > 0;
    }
  }

  /** Up to 40 parameters, a candidate at least as good everywhere and better somewhere shuts the other out. */
  lemma DominatedCandidateLoses(candidates: set<FuncScope>, name: string, args: seq<Type>, f: FuncScope, g: FuncScope)
    requires f in candidates && f.name == name && |f.params| == |g.params| == |args| <= 40
    requires AtLeastAsGood(f.params, g.params, args, |args|) && BetterSomewhere(f.params, g.params, args, |args|)
    ensures g !in Best(candidates, name, args)
  {
    if g in Best(candidates, name, args) {
      EligibleExactly(g, name, args);
      DominationAddsUp(f.params, g.params, args, |args|);
    }
  }

  /** A candidate that dominates all the others is the answer, alone. */
  lemma DominatingCandidateWins(candidates: set<FuncScope>, name: string, args: seq<Type>, f: FuncScope)
    requires f in candidates && f.name == name && |f.params| == |args| <= 40 && Applicable(f.params, args, |args|)
    requires forall g :: g in candidates && g != f && Eligible(g, name, args) ==>
      AtLeastAsGood(f.params, g.params, args, |args|) && BetterSomewhere(f.params, g.params, args, |args|)
    ensures Best(candidates, name, args) == {f}
  {
    EligibleExactly(f, name, args);
    forall g | g in candidates && g != f && Eligible(g, name, args)
      ensures g !in Best(candidates, name, args) && Beats(ScoreOf(f, args), ScoreOf(g, args))
    {
      DominatedCandidateLoses(candidates, name, args, f, g);
      EligibleExactly(g, name, args);
      DominationAddsUp(f.params, g.params, args, |args|);
    }
  }

  // ---- Which match is the stronger one --------------------------------------------------------

  predicate Accepts(arg: Type, param: Type) {
    param.Template? || IsInstantiatedFrom(arg, param) || Equal(param, arg)
  }

  /** A perfect match is stronger than a class template, the deeper of these is the stronger one, and
      all of them are stronger than a parameter without a type. */
  predicate Stronger(arg: Type, p: Type, q: Type) {
    if !Accepts(arg, q) then Accepts(arg, p)
    else if q.Template? then !p.Template? && Accepts(arg, p)
    else if IsInstantiatedFrom(arg, q) then
      !p.Template? && if IsInstantiatedFrom(arg, p) then TemplateDepth(p) > TemplateDepth(q) else Equal(p, arg)
    else false
  }

  lemma StrongerScoresHigher(arg: Type, p: Type, q: Type)
    ensures Beats(ParameterScore(arg, p), ParameterScore(arg, q)) <==> Stronger(arg, p, q)
    ensures ParameterScore(arg, p).product > 0 <==> Accepts(arg, p)
  {
    hide Equal, IsInstantiatedFrom, TemplateDepth;
  }

  /** Of two candidates of up to 40 parameters that differ in one, the one that matches the argument
      more strongly there is taken. */
  lemma StrongerMatchWins(f: FuncScope, g: FuncScope, args: seq<Type>, k: nat)
    requires f.name == g.name && |f.params| == |g.params| == |args| <= 40 && k < |args|
    requires forall i :: 0 <= i < |args| && i != k ==> f.params[i] == g.params[i]
    requires forall i :: 0 <= i < |args| ==> Accepts(args[i], f.params[i])
    requires Stronger(args[k], f.params[k], g.params[k])
    ensures Best({f, g}, f.name, args) == {f}
  {
    hide Accepts, Stronger, ParameterScore, Best, Eligible;
    forall i | 0 <= i < |args|
      ensures ParameterScore(args[i], f.params[i]).product > 0
      ensures !Beats(ParameterScore(args[i], g.params[i]), ParameterScore(args[i], f.params[i]))
    {
      StrongerScoresHigher(args[i], f.params[i], g.params[i]);
    }
    StrongerScoresHigher(args[k], f.params[k], g.params[k]);
    assert BetterSomewhere(f.params, g.params, args, |args|);
    DominatingCandidateWins({f, g}, f.name, args, f);
  }

  // ---- Perfect matches ----------------------------------------------------------------------

  predicate Perfect(params: seq<Type>, args: seq<Type>) {
    |params| == |args| && forall i :: 0 <= i < |args| ==> Equal(params[i], args[i])
  }

  /** The equality of function scopes that finds a duplicate definition. */
  predicate SameSignature(f: FuncScope, g: FuncScope) {
    f.name == g.name && |f.params| == |g.params|
    && forall i :: 0 <= i < |f.params| ==>
         if f.params[i].Template? && g.params[i].Template? then true
         else if !f.params[i].Template? && !g.params[i].Template? then Equal(f.params[i], g.params[i])
         else false
  }

  lemma PerfectScore(arg: Type, param: Type)
    requires Concrete(arg)
    ensures ParameterScore(arg, param) == Score(3, 1, 0) <==> Equal(param, arg)
  {
    if Equal(param, arg) { EqualToConcreteIsNoTemplate(param, arg); }
  }

  /** With concrete arguments a perfect match leaves only perfect matches, and these are duplicate definitions. */
  lemma PerfectMatchWins(candidates: set<FuncScope>, name: string, args: seq<Type>, f: FuncScope)
    requires forall i :: 0 <= i < |args| ==> Concrete(args[i])
    requires |args| <= 40
    requires f in candidates && f.name == name && Perfect(f.params, args)
    ensures f in Best(candidates, name, args)
    ensures forall g :: g in Best(candidates, name, args) ==> Perfect(g.params, args) && SameSignature(f, g)
  {
    hide ParameterScore, Equal;
    forall i | 0 <= i < |args| ensures ParameterScore(args[i], f.params[i]) == Score(3, 1, 0) {
      PerfectScore(args[i], f.params[i]);
    }
    EligibleExactly(f, name, args) by { CountIsNone(f.params, args, |args|); }
    forall g | g in candidates && Eligible(g, name, args)
      ensures !Beats(ScoreOf(g, args), ScoreOf(f, args))
      ensures g in Best(candidates, name, args) ==> Perfect(g.params, args) && SameSignature(f, g)
    {
      EligibleExactly(g, name, args);
      forall i | 0 <= i < |args| ensures !Beats(ParameterScore(args[i], g.params[i]), Score(3, 1, 0)) {
        ParameterScoreShape(args[i], g.params[i]);
      }
      DominationAddsUp(f.params, g.params, args, |args|);
      if g in Best(candidates, name, args) {
        PerfectsAgree(f, g, args);
      }
    }
  }

  lemma {:induction false} CountIsNone(params: seq<Type>, args: seq<Type>, n: nat)
    requires n <= |args| == |params|
    requires forall i :: 0 <= i < n ==> ParameterScore(args[i], params[i]).product != 2
    ensures CountOf(params, args, n, 2) == 0
  {
    if n > 0 { CountIsNone(params, args, n - 1); }
  }

  lemma PerfectsAgree(f: FuncScope, g: FuncScope, args: seq<Type>)
    requires forall i :: 0 <= i < |args| ==> Concrete(args[i])
    requires f.name == g.name && |g.params| == |args| && Perfect(f.params, args)
    requires !BetterSomewhere(f.params, g.params, args, |args|)
    ensures Perfect(g.params, args) && SameSignature(f, g)
  {
    hide ParameterScore, Equal;
    forall i | 0 <= i < |args| ensures Equal(g.params[i], args[i]) && Equal(f.params[i], g.params[i]) {
      PerfectScore(args[i], f.params[i]);
      PerfectScore(args[i], g.params[i]);
      ParameterScoreShape(args[i], g.params[i]);
      assert !Beats(ParameterScore(args[i], f.params[i]), ParameterScore(args[i], g.params[i]));
      EqualIsSymmetric(g.params[i], args[i]);
      EqualIsTransitive(f.params[i], args[i], g.params[i]);
    }
    forall i | 0 <= i < |args| ensures !f.params[i].Template? && !g.params[i].Template? {
      EqualByParts(f.params[i], args[i]);
      EqualByParts(g.params[i], args[i]);
    }
  }

  // ---- Beyond 40 parameters -------------------------------------------------------------------

  /** The class `Foo` whose only instance variable has no declared type, and its instance `Foo(int)`. */
  function Foo(): Type { Class(ClassScope("Foo", [Template(0)]), []) }
  function FooOfInt(): Type { Class(ClassScope("Foo", [Template(0)]), [Builtin("int")]) }

  lemma FooMembers()
    ensures MembersOf(Foo()) == Members([Template(0)]) && MembersOf(FooOfInt()) == Members([Builtin("int")])
  {
    hide Equal, Instantiates, IsTemplate;
    assert Fill([Template(0)], [Builtin("int")]) == Members([Builtin("int")]);
  }

  lemma FooIsInstantiated()
    ensures IsTemplate(Foo()) && !IsTemplate(FooOfInt()) && Instantiates(FooOfInt(), Foo())
  {
    hide Equal, MembersOf, Fill;
    FooMembers();
    assert IsTemplate(Foo().scope.instanceVars[0]) && !IsTemplate(FooOfInt().params[0]);
  }

  lemma FooScore()
    ensures ParameterScore(FooOfInt(), Foo()) == Score(2, 0, 1)
  {
    hide Equal, Instantiates, IsTemplate, MembersOf, Fill;
    FooIsInstantiated();
    assert TemplateDepth(Foo()) == 1;
  }

  lemma IntScore()
    ensures ParameterScore(Builtin("int"), Builtin("int")) == Score(3, 1, 0)
  {
    hide Instantiates, MembersOf, Fill;
  }

  lemma {:induction false} ExactOfInts(params: seq<Type>, args: seq<Type>, n: nat)
    requires n <= |args| == |params|
    requires forall i :: 0 <= i < n ==> params[i] == args[i] == Builtin("int")
    ensures Exact(params, args, n) == Pow(3, n)
  {
    if n > 0 {
      ExactOfInts(params, args, n - 1);
      IntScore();
    }
  }

  /** Parameters of score 1 leave the score as it is. */
  lemma {:induction false} PaddingKeepsScore(params: seq<Type>, args: seq<Type>, m: nat, n: nat)
    requires m <= n <= |args| == |params|
    requires forall i :: m <= i < n ==> params[i].Template?
    ensures ScoreOfFirst(params, args, n) == ScoreOfFirst(params, args, m)
    decreases n
  {
    hide ParameterScore;
    if m < n {
      PaddingKeepsScore(params, args, m, n - 1);
      TemplateScore(args[n - 1], params[n - 1]);
    }
  }

  lemma ScoreAt41(params: seq<Type>, args: seq<Type>)
    requires |params| == |args| > 40
    requires forall i :: 0 <= i < 40 ==> params[i] == args[i] == Builtin("int")
    ensures ScoreOfFirst(params, args, 41).product
         == (12157665459056928801 * ParameterScore(args[40], params[40]).product) % SizeRange
  {
    hide ParameterScore, Pow;
    PowOfThree();
    ExactOfInts(params, args, 40);
    ProductWraps(params, args, 41);
  }

  /**
   * Beyond 40 parameters domination can fail: the candidate that is better at one parameter and
   * the same elsewhere wraps around and loses.
   */
  lemma DominationFailsBeyond40(n: nat)
    requires n > 40
    ensures exists f, g: FuncScope, args: seq<Type> :: BetterLoses(f, g, args, n)
  {
    var f, g := FuncScope(0, "foo", Padded(n, Foo())), FuncScope(1, "foo", Padded(n, Template(1)));
    var args := PaddedArgs(n);
    hide ParameterScore, Foo, FooOfInt;
    FooScore();
    TemplateScore(FooOfInt(), Template(1));
    forall i | 0 <= i < n
      ensures i != 40 ==> ParameterScore(args[i], f.params[i]) == ParameterScore(args[i], g.params[i])
      ensures ParameterScore(args[i], g.params[i]).product > 0
    {
      PaddedScore(n, i);
    }
    PaddedScore(n, 40);
    hide Padded, PaddedArgs;
    assert Beats(ParameterScore(args[40], f.params[40]), ParameterScore(args[40], g.params[40]));
    PaddedTotal(n, Foo());
    PaddedTotal(n, Template(1));
    assert ScoreOf(f, args).product == 5868586844404305986;
    assert ScoreOf(g, args).product == 12157665459056928801;
    assert Best({f, g}, "foo", args) == {g};
    assert BetterLoses(f, g, args, n);
  }

  /** Of two candidates with n parameters that both match, the better one is not in the result. */
  ghost predicate BetterLoses(f: FuncScope, g: FuncScope, args: seq<Type>, n: nat) {
    && |f.params| == |g.params| == |args| == n && f.name == g.name && Applicable(g.params, args, n)
    && AtLeastAsGood(f.params, g.params, args, n) && BetterSomewhere(f.params, g.params, args, n)
    && Best({f, g}, f.name, args) == {g}
  }

  function PaddedArgs(n: nat): seq<Type> {
    seq(n, i => if i == 40 then FooOfInt() else Builtin("int"))
  }

  /** 40 times `int`, the type given, and parameters without a type. */
  function Padded(n: nat, t: Type): seq<Type> {
    seq(n, i => if i < 40 then Builtin("int") else if i == 40 then t else Template(1))
  }

  lemma PaddedScore(n: nat, i: nat)
    requires i < n
    ensures ParameterScore(PaddedArgs(n)[i], Padded(n, Template(1))[i])
         == if i < 40 then Score(3, 1, 0) else Score(1, 0, 0)
    ensures i != 40 ==> Padded(n, Foo())[i] == Padded(n, Template(1))[i]
    ensures i == 40 ==> ParameterScore(PaddedArgs(n)[i], Padded(n, Foo())[i]) == Score(2, 0, 1)
  {
    hide ParameterScore;
    IntScore();
    FooScore();
    TemplateScore(PaddedArgs(n)[i], Template(1));
  }

  lemma PaddedTotal(n: nat, t: Type)
    requires n > 40
    ensures ScoreOfFirst(Padded(n, t), PaddedArgs(n), n).product
         == (12157665459056928801 * ParameterScore(FooOfInt(), t).product) % SizeRange
  {
    hide ParameterScore;
    ScoreAt41(Padded(n, t), PaddedArgs(n));
    PaddingKeepsScore(Padded(n, t), PaddedArgs(n), 41, n);
  }

  lemma TemplateScore(arg: Type, param: Type)
    requires param.Template?
    ensures ParameterScore(arg, param) == Score(1, 0, 0)
  {
  }

  /** Domination decides up to 40 parameters, and for no arity beyond. */
  lemma DominationDecidesExactly(n: nat)
    ensures (forall f, g: FuncScope, args: seq<Type> :: !BetterLoses(f, g, args, n)) <==> n <= 40
  {
    if n <= 40 {
      forall f, g: FuncScope, args: seq<Type> ensures !BetterLoses(f, g, args, n) {
        if BetterLoses(f, g, args, n) { DominatedCandidateLoses({f, g}, f.name, args, f, g); }
      }
    } else {
      DominationFailsBeyond40(n);
    }
  }

  // ---- Template depth -------------------------------------------------------------------------

  /** The depth as it is meant to be: the case for templates gives none. */
  function IntendedDepth(t: Type): nat
    decreases t
  {
    match t
    case Template(_) => 0
    case Class(_, params) => 1 + IntendedDeepest(params)
    case Tuple(elements) => 1 + IntendedDeepest(elements)
    case Array(element, _) => 1 + IntendedDepth(element)
    case Pointer(pointee) => 1 + IntendedDepth(pointee)
    case _ => 1
  }

  function IntendedDeepest(ts: seq<Type>): nat
    decreases ts
  {
    if ts == [] then 0
    else
      var d := IntendedDeepest(ts[1..]);
      if IntendedDepth(ts[0]) > d then IntendedDepth(ts[0]) else d
  }

  /** Every deepest path into the type ends in a template. */
  predicate TemplateDeepest(t: Type)
    decreases t
  {
    match t
    case Template(_) => true
    case Class(_, params) => TemplatesDeepest(params)
    case Tuple(elements) => TemplatesDeepest(elements)
    case Array(element, _) => TemplateDeepest(element)
    case Pointer(pointee) => TemplateDeepest(pointee)
    case _ => false
  }

  /** Of the types in a list, all the deepest are such. */
  predicate TemplatesDeepest(ts: seq<Type>)
    decreases ts
  {
    ts != [] && forall i :: 0 <= i < |ts| && TemplateDepth(ts[i]) == Deepest(ts) ==> TemplateDeepest(ts[i])
  }

  /** A type is one level deeper than it is meant to be exactly when all its deepest paths end in
      templates, and else as deep. */
  lemma {:induction false} DepthExceedsIntentExactly(t: Type)
    ensures TemplateDepth(t) == IntendedDepth(t) + if TemplateDeepest(t) then 1 else 0
    decreases t
  {
    match t
    case Class(_, params) =>
      forall i | 0 <= i < |params|
        ensures TemplateDepth(params[i]) == IntendedDepth(params[i]) + if TemplateDeepest(params[i]) then 1 else 0
      {
        DepthExceedsIntentExactly(params[i]);
      }
      DeepestExceedsIntent(params);
    case Tuple(elements) =>
      forall i | 0 <= i < |elements|
        ensures TemplateDepth(elements[i]) == IntendedDepth(elements[i]) + if TemplateDeepest(elements[i]) then 1 else 0
      {
        DepthExceedsIntentExactly(elements[i]);
      }
      DeepestExceedsIntent(elements);
    case Array(element, _) => DepthExceedsIntentExactly(element);
    case Pointer(pointee) => DepthExceedsIntentExactly(pointee);
    case _ =>
  }

  lemma {:induction false} IntendedDeepestIsMax(ts: seq<Type>)
    ensures forall i :: 0 <= i < |ts| ==> IntendedDepth(ts[i]) <= IntendedDeepest(ts)
    ensures ts != [] ==> exists i :: 0 <= i < |ts| && IntendedDepth(ts[i]) == IntendedDeepest(ts)
    decreases ts
  {
    if ts != [] {
      var rest := ts[1..];
      IntendedDeepestIsMax(rest);
      assert forall i :: 0 < i < |ts| ==> ts[i] == rest[i - 1];
      if rest != [] {
        var k :| 0 <= k < |rest| && IntendedDepth(rest[k]) == IntendedDeepest(rest);
        assert ts[k + 1] == rest[k];
      }
      assert IntendedDeepest(ts) == IntendedDepth(ts[0]) || IntendedDeepest(ts) == IntendedDeepest(rest);
    }
  }

  lemma DeepestExceedsIntent(ts: seq<Type>)
    requires forall i :: 0 <= i < |ts| ==>
               TemplateDepth(ts[i]) == IntendedDepth(ts[i]) + if TemplateDeepest(ts[i]) then 1 else 0
    ensures Deepest(ts) == IntendedDeepest(ts) + if TemplatesDeepest(ts) then 1 else 0
  {
    IntendedDeepestIsMax(ts);
    if ts != [] {
      var t :| t in ts && TemplateDepth(t) == Deepest(ts);
      var k :| 0 <= k < |ts| && ts[k] == t;
      var m :| 0 <= m < |ts| && IntendedDepth(ts[m]) == IntendedDeepest(ts);
      assert TemplateDepth(ts[m]) <= Deepest(ts);
      assert IntendedDepth(ts[k]) <= IntendedDeepest(ts);
    }
  }

  /** The score of the first n parameters with depths as they are meant to be. */
  function IntendedScore(params: seq<Type>, args: seq<Type>, n: nat): Score
    requires n <= |args| == |params|
  {
    if n == 0 then Score(1, 0, 0)
    else
      var before := IntendedScore(params, args, n - 1);
      var s := ParameterScore(args[n - 1], params[n - 1]);
      Score(before.product * s.product % SizeRange, before.perfect + s.perfect,
            before.depth + if s.product == 2 then IntendedDepth(params[n - 1]) else s.depth)
  }

  /** How many of the first n parameters match as instances and count one level too many. */
  function Exceeding(params: seq<Type>, args: seq<Type>, n: nat): nat
    requires n <= |args| == |params|
  {
    if n == 0 then 0
    else
      Exceeding(params, args, n - 1)
      + if ParameterScore(args[n - 1], params[n - 1]).product == 2 && TemplateDeepest(params[n - 1]) then 1 else 0
  }

  /** A score exceeds the intended one by one level for each such parameter, and in nothing else. */
  lemma {:induction false} ScoreExceedsIntentExactly(params: seq<Type>, args: seq<Type>, n: nat)
    requires n <= |args| == |params|
    ensures var s, t := ScoreOfFirst(params, args, n), IntendedScore(params, args, n);
            s == Score(t.product, t.perfect, t.depth + Exceeding(params, args, n))
  {
    hide ParameterScore, TemplateDepth, IntendedDepth, TemplateDeepest;
    if n > 0 {
      ScoreExceedsIntentExactly(params, args, n - 1);
      DepthExceedsIntentExactly(params[n - 1]);
      InstanceScore(args[n - 1], params[n - 1]);
    }
  }

  lemma InstanceScore(arg: Type, param: Type)
    ensures var s := ParameterScore(arg, param); s.product == 2 ==> s.depth == TemplateDepth(param)
  {
  }

  /** The result that the intended scores would give. */
  ghost function IntendedBest(candidates: set<FuncScope>, name: string, args: seq<Type>): set<FuncScope> {
    set f | f in candidates && Eligible(f, name, args)
            && forall g :: g in candidates && Eligible(g, name, args) ==>
                 !Beats(IntendedScore(g.params, args, |args|), IntendedScore(f.params, args, |args|))
  }

  /** The result is the intended one where all eligible candidates have equally many parameters
      that count one level too many, none for instance. */
  lemma EqualExcessKeepsIntent(candidates: set<FuncScope>, name: string, args: seq<Type>, c: nat)
    requires forall f :: f in candidates && Eligible(f, name, args) ==> Exceeding(f.params, args, |args|) == c
    ensures Best(candidates, name, args) == IntendedBest(candidates, name, args)
  {
    forall f | f in candidates && Eligible(f, name, args)
      ensures var s, t := ScoreOf(f, args), IntendedScore(f.params, args, |args|);
              s == Score(t.product, t.perfect, t.depth + c)
    {
      ScoreExceedsIntentExactly(f.params, args, |args|);
    }
  }

  /** Else it can differ: a pointer without a pointee ties with a pointer to `Foo`, which is meant
      to be picked for an argument that points to an instance of `Foo`. */
  lemma PointersTie(name: string, f: FuncScope, g: FuncScope)
    requires f.name == g.name == name
    requires f.params == [Pointer(Template(1))] && g.params == [Pointer(Foo())]
    ensures var args := [Pointer(FooOfInt())];
            && Best({f, g}, name, args) == {f, g} && IntendedBest({f, g}, name, args) == {g}
  {
    hide Foo, FooOfInt, ParameterScore, TemplateDepth, IntendedDepth;
    var args := [Pointer(FooOfInt())];
    PointerScores();
    FooDepths();
    assert ScoreOfFirst(f.params, args, 0) == Score(1, 0, 0) == ScoreOfFirst(g.params, args, 0);
    assert ScoreOf(f, args) == Score(2, 0, 2) && ScoreOf(g, args) == Score(2, 0, 2);
    assert IntendedScore(f.params, args, 0) == Score(1, 0, 0) == IntendedScore(g.params, args, 0);
    assert IntendedScore(f.params, args, 1) == Score(2, 0, 1) && IntendedScore(g.params, args, 1) == Score(2, 0, 2);
  }

  lemma PointerScores()
    ensures ParameterScore(Pointer(FooOfInt()), Pointer(Template(1))) == Score(2, 0, 2)
    ensures ParameterScore(Pointer(FooOfInt()), Pointer(Foo())) == Score(2, 0, 2)
  {
    hide Foo, FooOfInt, Equal, MembersOf, Fill;
    FooIsInstantiated();
    FooDepths();
  }

  lemma FooDepths()
    ensures TemplateDepth(Pointer(Foo())) == 2 == IntendedDepth(Pointer(Foo()))
    ensures TemplateDepth(Pointer(Template(1))) == 2 && IntendedDepth(Pointer(Template(1))) == 1
  {
    assert TemplateDepth(Foo()) == 1 == IntendedDepth(Foo());
    assert TemplateDepth(Template(1)) == 1 && IntendedDepth(Template(1)) == 0;
  }
}
