/** Resolution of an overloaded function: scores of candidates and the narrowing of the candidate list. */
module Overloads {
  import opened TypeRelations

  datatype FuncScope = FuncScope(id: nat, name: string, params: seq<Type>)

  datatype Score = Score(product: nat, perfect: nat, depth: nat)

  datatype Scored = Scored(score: Score, func: FuncScope)

  /** The score is a 64-bit unsigned product. */
  const SizeRange: nat := 0x1_0000_0000_0000_0000

  // ---- One parameter ---------------------------------------------------------------------

  /** A nested template counts as one level: the case for templates is not callable from the constant visitor. */
  function TemplateDepth(t: Type): (d: nat)
    ensures d >= 1
    decreases t
  {
    match t
    case Class(_, params) => 1 + Deepest(params)
    case Tuple(elements) => 1 + Deepest(elements)
    case Array(element, _) => 1 + TemplateDepth(element)
    case Pointer(pointee) => 1 + TemplateDepth(pointee)
    case _ => 1
  }

  function Deepest(ts: seq<Type>): (d: nat)
    ensures forall t :: t in ts ==> TemplateDepth(t) <= d
    ensures ts == [] ==> d == 0
    ensures ts != [] ==> exists t :: t in ts && TemplateDepth(t) == d
    decreases ts
  {
    if ts == [] then 0
    else
      var d := Deepest(ts[1..]);
      assert ts == [ts[0]] + ts[1..];
      if TemplateDepth(ts[0]) > d then TemplateDepth(ts[0]) else d
  }

  function ParameterScore(arg: Type, param: Type): (s: Score)
    ensures s.product <= 3
  {
    if param.Template? then Score(1, 0, 0)
    else if IsInstantiatedFrom(arg, param) then Score(2, 0, TemplateDepth(param))
    else if Equal(param, arg) then Score(3, 1, 0)
    else Score(0, 0, 0)
  }

  method CalculateDepth(t: Type) returns (d: nat)
    ensures d == TemplateDepth(t)
    decreases t, 1
  {
    match t
    case Class(_, params) => d := CalculateDepths(t, params);
    case Tuple(elements) => d := CalculateDepths(t, elements);
    case Array(element, _) =>
      d := CalculateDepth(element);
      d := 1 + d;
    case Pointer(pointee) =>
      d := CalculateDepth(pointee);
      d := 1 + d;
    case _ => d := 1;
  }

  method CalculateDepths(ghost owner: Type, ts: seq<Type>) returns (depth: nat)
    requires forall i :: 0 <= i < |ts| ==> ts[i] < owner
    ensures depth == 1 + Deepest(ts)
    decreases owner, 0
  {
    depth := 1;
    for i := 0 to |ts|
      invariant i == 0 ==> depth == 1
      invariant i > 0 ==> exists k :: 0 <= k < i && depth == 1 + TemplateDepth(ts[k])
      invariant forall k :: 0 <= k < i ==> 1 + TemplateDepth(ts[k]) <= depth
    {
      var d := CalculateDepth(ts[i]);
      if depth < d + 1 {
        depth := d + 1;
      }
    }
  }

  // ---- One candidate ---------------------------------------------------------------------

  /** The score of the first n parameters. */
  function ScoreOfFirst(params: seq<Type>, args: seq<Type>, n: nat): (s: Score)
    requires n <= |args| == |params|
    ensures s.product < SizeRange
  {
    if n == 0 then Score(1, 0, 0)
    else
      var before := ScoreOfFirst(params, args, n - 1);
      var s := ParameterScore(args[n - 1], params[n - 1]);
      Score(before.product * s.product % SizeRange, before.perfect + s.perfect, before.depth + s.depth)
  }

  function ScoreOf(f: FuncScope, args: seq<Type>): Score
    requires |f.params| == |args|
  {
    ScoreOfFirst(f.params, args, |args|)
  }

  method OverloadedFunctionScore(f: FuncScope, args: seq<Type>) returns (s: Score)
    requires |f.params| == |args|
    ensures s == ScoreOf(f, args)
  {
    var score: nat, perfect: nat, depth: nat := 1, 0, 0;
    if |args| == 0 {
      return Score(score, perfect, depth);
    }
    for i := 0 to |args|
      invariant Score(score, perfect, depth) == ScoreOfFirst(f.params, args, i)
    {
      var p := ParameterScore(args[i], f.params[i]);
      score := score * p.product % SizeRange;
      perfect := perfect + p.perfect;
      depth := depth + p.depth;
    }
    return Score(score, perfect, depth);
  }

  // ---- What is to be found ---------------------------------------------------------------

  predicate Eligible(f: FuncScope, name: string, args: seq<Type>) {
    f.name == name && |f.params| == |args| && ScoreOf(f, args).product != 0
  }

  /** Lexicographic order of scores. */
  predicate Beats(s: Score, t: Score) {
    || s.product > t.product
    || (s.product == t.product && s.perfect > t.perfect)
    || (s.product == t.product && s.perfect == t.perfect && s.depth > t.depth)
  }

  /** The eligible candidates that no eligible candidate beats, whatever their order of declaration. */
  ghost function Best(candidates: set<FuncScope>, name: string, args: seq<Type>): set<FuncScope> {
    set f | f in candidates && Eligible(f, name, args)
            && forall g :: g in candidates && Eligible(g, name, args) ==> !Beats(ScoreOf(g, args), ScoreOf(f, args))
  }

  // ---- The candidate list ----------------------------------------------------------------

  datatype Component = ByProduct | ByPerfect | ByDepth

  function Get(c: Component, s: Score): nat {
    match c
    case ByProduct => s.product
    case ByPerfect => s.perfect
    case ByDepth => s.depth
  }

  method RemoveBelow(c: Component, scores: seq<Scored>, max: nat) returns (kept: seq<Scored>)
    ensures forall e :: e in kept <==> e in scores && Get(c, e.score) >= max
    ensures |kept| <= |scores|
  {
    kept := [];
    for i := 0 to |scores|
      invariant forall e :: e in kept <==> e in scores[..i] && Get(c, e.score) >= max
      invariant |kept| <= i
    {
      if Get(c, scores[i].score) >= max {
        kept := kept + [scores[i]];
      }
    }
    assert scores[..|scores|] == scores;
  }

  ghost predicate Maximal(c: Component, kept: seq<Scored>, scores: seq<Scored>) {
    forall e :: e in kept <==> e in scores && forall o :: o in scores ==> Get(c, o.score) <= Get(c, e.score)
  }

  method NarrowDownScoreBy(c: Component, scores: seq<Scored>) returns (kept: seq<Scored>)
    requires scores != []
    ensures Maximal(c, kept, scores)
    ensures kept != []
  {
    var max := Get(c, scores[0].score);
    ghost var top := scores[0];
    for i := 1 to |scores|
      invariant top in scores && Get(c, top.score) == max
      invariant forall k :: 0 <= k < i ==> Get(c, scores[k].score) <= max
    {
      if max < Get(c, scores[i].score) {
        max := Get(c, scores[i].score);
        top := scores[i];
      }
    }
    kept := RemoveBelow(c, scores, max);
    assert top in kept;
  }

  ghost predicate Scores(e: Scored, candidates: seq<FuncScope>, name: string, args: seq<Type>) {
    e.func in candidates && Eligible(e.func, name, args) && e.score == ScoreOf(e.func, args)
  }

  ghost predicate HighestProducts(kept: seq<Scored>, candidates: seq<FuncScope>, name: string, args: seq<Type>) {
    forall e :: e in kept <==>
      Scores(e, candidates, name, args)
      && forall o :: Scores(o, candidates, name, args) ==> o.score.product <= e.score.product
  }

  method FirstOverloadSet(candidates: seq<FuncScope>, name: string, args: seq<Type>) returns (kept: seq<Scored>)
    ensures HighestProducts(kept, candidates, name, args)
  {
    var scores: seq<Scored> := [];
    var max := 0;
    for i := 0 to |candidates|
      invariant forall e :: e in scores ==> Scores(e, candidates[..i], name, args)
      invariant forall e :: Scores(e, candidates[..i], name, args) ==> e.score.product <= max
      invariant forall e :: Scores(e, candidates[..i], name, args) && e.score.product == max ==> e in scores
      invariant max > 0 ==> exists e :: Scores(e, candidates[..i], name, args) && e.score.product == max
    {
      var f := candidates[i];
      assert candidates[..i + 1] == candidates[..i] + [f];
      if f.name != name || |args| != |f.params| {
        continue;
      }
      var s := OverloadedFunctionScore(f, args);
      if s.product == 0 {
        continue;
      }
      if s.product >= max {
        scores := scores + [Scored(s, f)];
        max := s.product;
        assert Scores(Scored(s, f), candidates[..i + 1], name, args);
      }
    }
    assert candidates[..|candidates|] == candidates;
    kept := RemoveBelow(ByProduct, scores, max);
  }

  method GenerateOverloadSet(candidates: seq<FuncScope>, name: string, args: seq<Type>) returns (result: set<FuncScope>)
    ensures result == Best((set f | f in candidates), name, args)
  {
    var scores := FirstOverloadSet(candidates, name, args);
    ghost var first := scores;
    if |scores| > 1 {
      scores := NarrowDownScoreBy(ByPerfect, scores);
    } else {
      AloneIsMaximal(ByPerfect, scores);
    }
    ghost var second := scores;
    if |scores| > 1 {
      scores := NarrowDownScoreBy(ByDepth, scores);
    } else {
      AloneIsMaximal(ByDepth, scores);
    }
    result := {};
    for i := 0 to |scores|
      invariant forall f :: f in result <==> exists k :: 0 <= k < i && scores[k].func == f
    {
      result := result + {scores[i].func};
    }
    forall f ensures f in result <==> f in Best((set g | g in candidates), name, args) {
      NarrowedIsBest(candidates, name, args, first, second, scores, f);
    }
  }

  lemma AloneIsMaximal(c: Component, scores: seq<Scored>)
    requires |scores| <= 1
    ensures Maximal(c, scores, scores)
  {
  }

  /** Three maxima one after the other are the one lexicographic maximum. */
  lemma NarrowedIsBest(candidates: seq<FuncScope>, name: string, args: seq<Type>,
                       first: seq<Scored>, second: seq<Scored>, third: seq<Scored>, f: FuncScope)
    requires HighestProducts(first, candidates, name, args)
    requires Maximal(ByPerfect, second, first)
    requires Maximal(ByDepth, third, second)
    ensures f in Best((set g | g in candidates), name, args) <==> exists k :: 0 <= k < |third| && third[k].func == f
  {
    var all := set g | g in candidates;
    if f in Best(all, name, args) {
      var e := Scored(ScoreOf(f, args), f);
      assert Scores(e, candidates, name, args);
      forall o | Scores(o, candidates, name, args) ensures !Beats(o.score, e.score) { assert o.func in all; }
      assert e in first && e in second && e in third;
    }
    forall k | 0 <= k < |third| && third[k].func == f ensures f in Best(all, name, args) {
      var e := third[k];
      assert e in third && e in second && e in first;
      forall g | g in all && Eligible(g, name, args) ensures !Beats(ScoreOf(g, args), e.score) {
        var o := Scored(ScoreOf(g, args), g);
        assert Scores(o, candidates, name, args);
        if o.score.product == e.score.product {
          assert o in first;
          if o.score.perfect == e.score.perfect { assert o in second; }
        }
      }
    }
  }
}
