/** Finding a lambda's captures, giving it a receiver, and rewriting its body. */
module CaptureResolution {
  import opened Closures

  /** The scopes around an expression, innermost first. */
  datatype Scope = LocalScope(vars: seq<string>) | FuncScope(params: seq<string>, isThreshold: bool)

  ghost predicate HasThreshold(scopes: seq<Scope>) {
    scopes != [] && ((scopes[0].FuncScope? && scopes[0].isThreshold) || HasThreshold(scopes[1..]))
  }

  /** Is `x` a variable from outside the lambda?  Looks it up scope by scope, up to the
      lambda's own function scope. */
  function Captured(x: string, scopes: seq<Scope>): bool
    requires HasThreshold(scopes)
  {
    match scopes[0]
    case LocalScope(vars) => if x in vars then false else Captured(x, scopes[1..])
    case FuncScope(params, isThreshold) =>
      if x in params then false
      else if isThreshold then true
      else Captured(x, scopes[1..])
  }

  /** The names `Captured` answers `false` for. */
  function Bound(scopes: seq<Scope>): set<string> {
    if scopes == [] then {}
    else
      match scopes[0]
      case LocalScope(vars) => Names(vars) + Bound(scopes[1..])
      case FuncScope(params, isThreshold) => Names(params) + if isThreshold then {} else Bound(scopes[1..])
  }

  lemma {:induction false} CapturedIsUnbound(x: string, scopes: seq<Scope>)
    requires HasThreshold(scopes)
    ensures Captured(x, scopes) <==> x !in Bound(scopes)
  {
    match scopes[0]
    case LocalScope(vars) => if x !in vars { CapturedIsUnbound(x, scopes[1..]); }
    case FuncScope(params, isThreshold) =>
      if x !in params && !isThreshold { CapturedIsUnbound(x, scopes[1..]); }
  }

  // ---------- what is computed ----------

  /** The captures in order of first use, each once, behind those in `caps`.  Of a nested
      lambda, which is resolved already, only the receiver is looked at. */
  function Collect(e: Expr, scopes: seq<Scope>, caps: seq<string>): seq<string>
    requires HasThreshold(scopes)
  {
    match e
    case Num(_) => caps
    case Ref(s) => if s.global || !Captured(s.name, scopes) || s.name in caps then caps else caps + [s.name]
    case Access(_) => caps
    case Add(l, r) => Collect(r, scopes, Collect(l, scopes, caps))
    case Cond(c, t, f) => Collect(f, scopes, Collect(t, scopes, Collect(c, scopes, caps)))
    case Let(x, later, init, body) =>
      var inner := [LocalScope([x] + later)] + scopes;
      Collect(body, inner, Collect(init, inner, caps))
    case Call(callee, args) => CollectAll(args, scopes, Collect(callee, scopes, caps))
    case Lambda(_, _, receiver) => CollectAll(receiver, scopes, caps)
  }

  function CollectAll(es: seq<Expr>, scopes: seq<Scope>, caps: seq<string>): seq<string>
    requires HasThreshold(scopes)
  {
    if es == [] then caps else CollectAll(es[1..], scopes, Collect(es[0], scopes, caps))
  }

  function CapturesOf(params: seq<string>, def: Expr): seq<string> {
    Collect(def, [FuncScope(params, true)], [])
  }

  function IndexOf(xs: seq<string>, x: string): (i: nat)
    ensures i <= |xs| && (i < |xs| ==> xs[i] == x) && (x in xs ==> i < |xs|)
  {
    if xs == [] || xs[0] == x then 0 else 1 + IndexOf(xs[1..], x)
  }

  /** References to captured variables become accesses to the receiver.  A capture is one
      symbol: a name that is declared again inside the lambda, and so is in `hidden`, is another
      symbol wherever that declaration is in force, which it is not in its own initializer. */
  function Replace(e: Expr, caps: seq<string>, hidden: set<string>): Expr {
    match e
    case Num(_) => e
    case Ref(s) => if !s.global && s.name in caps && s.name !in hidden then Access(IndexOf(caps, s.name)) else e
    case Access(_) => e
    case Add(l, r) => Add(Replace(l, caps, hidden), Replace(r, caps, hidden))
    case Cond(c, t, f) => Cond(Replace(c, caps, hidden), Replace(t, caps, hidden), Replace(f, caps, hidden))
    case Let(x, later, init, body) => Let(x, later, Replace(init, caps, hidden), Replace(body, caps, hidden + {x}))
    case Call(callee, args) => Call(Replace(callee, caps, hidden), ReplaceAll(args, caps, hidden))
    case Lambda(params, def, receiver) => Lambda(params, def, ReplaceAll(receiver, caps, hidden))
  }

  function ReplaceAll(es: seq<Expr>, caps: seq<string>, hidden: set<string>): (r: seq<Expr>)
    ensures |r| == |es| && forall i :: 0 <= i < |es| ==> r[i] == Replace(es[i], caps, hidden)
  {
    if es == [] then [] else [Replace(es[0], caps, hidden)] + ReplaceAll(es[1..], caps, hidden)
  }

  function RefTo(x: string): Expr { Ref(Symbol(x, false)) }

  function Refs(xs: seq<string>): seq<Expr> { seq(|xs|, i requires 0 <= i < |xs| => RefTo(xs[i])) }

  /** Every lambda is converted, the inner ones first. */
  function Resolve(e: Expr): Expr {
    match e
    case Num(_) => e
    case Ref(_) => e
    case Access(_) => e
    case Add(l, r) => Add(Resolve(l), Resolve(r))
    case Cond(c, t, f) => Cond(Resolve(c), Resolve(t), Resolve(f))
    case Let(x, later, init, body) => Let(x, later, Resolve(init), Resolve(body))
    case Call(callee, args) => Call(Resolve(callee), ResolveAll(args))
    case Lambda(params, def, receiver) =>
      var caps := CapturesOf(params, Resolve(def));
      Lambda(params, Replace(Resolve(def), caps, {}), receiver + Refs(caps))
  }

  function ResolveAll(es: seq<Expr>): (r: seq<Expr>)
    ensures |r| == |es| && forall i :: 0 <= i < |es| ==> r[i] == Resolve(es[i])
  {
    if es == [] then [] else [Resolve(es[0])] + ResolveAll(es[1..])
  }

  // ---------- what the search can see ----------

  /** The free variables that the capture search finds.  To it a declaration hides a name in
      all of its block, in the initializers before it too. */
  function Seen(e: Expr): set<string> {
    match e
    case Num(_) => {}
    case Ref(s) => if s.global then {} else {s.name}
    case Access(_) => {}
    case Add(l, r) => Seen(l) + Seen(r)
    case Cond(c, t, f) => Seen(c) + Seen(t) + Seen(f)
    case Let(x, later, init, body) => (Seen(init) + Seen(body)) - Names([x] + later)
    case Call(callee, args) => Seen(callee) + SeenAll(args)
    case Lambda(params, def, _) => Seen(def) - Names(params)
  }

  function SeenAll(es: seq<Expr>): set<string> {
    if es == [] then {} else Seen(es[0]) + SeenAll(es[1..])
  }

  /** The search finds all free variables of every lambda. */
  predicate Convertible(e: Expr) {
    match e
    case Num(_) => true
    case Ref(_) => true
    case Access(_) => false
    case Add(l, r) => Convertible(l) && Convertible(r)
    case Cond(c, t, f) => Convertible(c) && Convertible(t) && Convertible(f)
    case Let(_, _, init, body) => Convertible(init) && Convertible(body)
    case Call(callee, args) => Convertible(callee) && AllConvertible(args)
    case Lambda(_, def, receiver) => receiver == [] && Convertible(def) && Seen(e) == Free(e)
  }

  predicate AllConvertible(es: seq<Expr>) {
    es == [] || (Convertible(es[0]) && AllConvertible(es[1..]))
  }

  lemma {:induction false} ConvertibleIsUnconverted(e: Expr)
    requires Convertible(e)
    ensures Unconverted(e)
  {
    match e
    case Num(_) => case Ref(_) =>
    case Add(l, r) => ConvertibleIsUnconverted(l); ConvertibleIsUnconverted(r);
    case Cond(c, t, f) => ConvertibleIsUnconverted(c); ConvertibleIsUnconverted(t); ConvertibleIsUnconverted(f);
    case Let(_, _, init, body) => ConvertibleIsUnconverted(init); ConvertibleIsUnconverted(body);
    case Call(callee, args) => ConvertibleIsUnconverted(callee); AllConvertibleIsUnconverted(args);
    case Lambda(_, def, _) => ConvertibleIsUnconverted(def);
  }

  lemma {:induction false} AllConvertibleIsUnconverted(es: seq<Expr>)
    requires AllConvertible(es)
    ensures AllUnconverted(es)
  {
    if es != [] { ConvertibleIsUnconverted(es[0]); AllConvertibleIsUnconverted(es[1..]); }
  }

  /** No variable from outside a block is read in it before the block declares one of its name. */
  predicate Tidy(e: Expr) {
    match e
    case Num(_) => true
    case Ref(_) => true
    case Access(_) => true
    case Add(l, r) => Tidy(l) && Tidy(r)
    case Cond(c, t, f) => Tidy(c) && Tidy(t) && Tidy(f)
    case Let(x, later, init, body) =>
      Names([x] + later) !! Free(init) && Names(later) !! Free(body) - {x} && Tidy(init) && Tidy(body)
    case Call(callee, args) => Tidy(callee) && AllTidy(args)
    case Lambda(_, def, _) => Tidy(def)
  }

  predicate AllTidy(es: seq<Expr>) {
    es == [] || (Tidy(es[0]) && AllTidy(es[1..]))
  }

  /** Shadowing as such does no harm. */
  lemma {:induction false} TidyIsConvertible(e: Expr)
    requires Unconverted(e) && Tidy(e)
    ensures Convertible(e) && Seen(e) == Free(e)
  {
    match e
    case Num(_) => case Ref(_) =>
    case Add(l, r) => TidyIsConvertible(l); TidyIsConvertible(r);
    case Cond(c, t, f) => TidyIsConvertible(c); TidyIsConvertible(t); TidyIsConvertible(f);
    case Let(x, later, init, body) =>
      TidyIsConvertible(init);
      TidyIsConvertible(body);
      assert Names([x] + later) == {x} + Names(later);
    case Call(callee, args) => TidyIsConvertible(callee); AllTidyIsConvertible(args);
    case Lambda(_, def, _) => TidyIsConvertible(def);
  }

  lemma {:induction false} AllTidyIsConvertible(es: seq<Expr>)
    requires AllUnconverted(es) && AllTidy(es)
    ensures AllConvertible(es) && SeenAll(es) == FreeAll(es)
  {
    if es != [] { TidyIsConvertible(es[0]); AllTidyIsConvertible(es[1..]); }
  }

  // ---------- captures are the variables seen ----------

  ghost predicate Distinct(xs: seq<string>) {
    forall i, j :: 0 <= i < j < |xs| ==> xs[i] != xs[j]
  }

  /** `r` adds exactly `more` to the captures, keeping the offsets of those before. */
  ghost predicate Adds(caps: seq<string>, r: seq<string>, more: set<string>) {
    Distinct(r) && caps <= r && Names(r) == Names(caps) + more
  }

  lemma AddsTrans(a: seq<string>, b: seq<string>, c: seq<string>, m: set<string>, n: set<string>, all: set<string>)
    requires Adds(a, b, m) && Adds(b, c, n) && all == m + n
    ensures Adds(a, c, all)
  {
    assert c[..|a|] == b[..|a|];
  }

  lemma {:induction false} CollectRefs(xs: seq<string>, scopes: seq<Scope>, caps: seq<string>)
    requires HasThreshold(scopes) && Distinct(caps)
    ensures Adds(caps, CollectAll(Refs(xs), scopes, caps), Names(xs) - Bound(scopes))
    decreases xs
  {
    if xs != [] {
      CapturedIsUnbound(xs[0], scopes);
      var c1 := Collect(RefTo(xs[0]), scopes, caps);
      assert Refs(xs)[1..] == Refs(xs[1..]);
      CollectRefs(xs[1..], scopes, c1);
      assert Names(xs) == {xs[0]} + Names(xs[1..]);
      AddsTrans(caps, c1, CollectAll(Refs(xs), scopes, caps), {xs[0]} - Bound(scopes),
                Names(xs[1..]) - Bound(scopes), Names(xs) - Bound(scopes));
    } else {
      assert Names(xs) == {};
    }
  }

  /** The captures of a resolved lambda are the variables seen in it, each once: they are its
      free variables exactly when no variable is free only where its block hides it. */
  lemma {:induction false} CapturesAreSeen(params: seq<string>, def: Expr)
    requires Unconverted(def)
    ensures var caps := CapturesOf(params, Resolve(def));
            Distinct(caps) && Names(caps) == Seen(Lambda(params, def, []))
    decreases def, 1
  {
    var scopes := [FuncScope(params, true)];
    CollectsSeen(def, scopes, []);
    assert Bound(scopes) == Names(params);
    assert Names([]) == {};
  }

  lemma {:induction false} CollectsSeen(e: Expr, scopes: seq<Scope>, caps: seq<string>)
    requires Unconverted(e) && HasThreshold(scopes) && Distinct(caps)
    ensures Adds(caps, Collect(Resolve(e), scopes, caps), Seen(e) - Bound(scopes))
    decreases e, 0
  {
    match e
    case Num(_) =>
    case Ref(s) => CapturedIsUnbound(s.name, scopes);
    case Add(l, r) =>
      CollectsSeen(l, scopes, caps);
      var c1 := Collect(Resolve(l), scopes, caps);
      CollectsSeen(r, scopes, c1);
      AddsTrans(caps, c1, Collect(Resolve(r), scopes, c1), Seen(l) - Bound(scopes), Seen(r) - Bound(scopes),
                Seen(e) - Bound(scopes));
    case Cond(c, t, f) =>
      CollectsSeen(c, scopes, caps);
      var c1 := Collect(Resolve(c), scopes, caps);
      CollectsSeen(t, scopes, c1);
      var c2 := Collect(Resolve(t), scopes, c1);
      CollectsSeen(f, scopes, c2);
      AddsTrans(caps, c1, c2, Seen(c) - Bound(scopes), Seen(t) - Bound(scopes), (Seen(c) + Seen(t)) - Bound(scopes));
      AddsTrans(caps, c2, Collect(Resolve(f), scopes, c2), (Seen(c) + Seen(t)) - Bound(scopes),
                Seen(f) - Bound(scopes), Seen(e) - Bound(scopes));
    case Let(x, later, init, body) =>
      var inner := [LocalScope([x] + later)] + scopes;
      assert inner[1..] == scopes;
      assert Bound(inner) == Names([x] + later) + Bound(scopes);
      CollectsSeen(init, inner, caps);
      var c1 := Collect(Resolve(init), inner, caps);
      CollectsSeen(body, inner, c1);
      AddsTrans(caps, c1, Collect(Resolve(body), inner, c1), Seen(init) - Bound(inner), Seen(body) - Bound(inner),
                Seen(e) - Bound(scopes));
    case Call(callee, args) =>
      CollectsSeen(callee, scopes, caps);
      var c1 := Collect(Resolve(callee), scopes, caps);
      CollectsSeenAll(args, scopes, c1);
      AddsTrans(caps, c1, CollectAll(ResolveAll(args), scopes, c1), Seen(callee) - Bound(scopes),
                SeenAll(args) - Bound(scopes), Seen(e) - Bound(scopes));
    case Lambda(params, def, receiver) =>
      CapturesAreSeen(params, def);
      var own := CapturesOf(params, Resolve(def));
      assert receiver + Refs(own) == Refs(own);
      CollectRefs(own, scopes, caps);
  }

  lemma {:induction false} CollectsSeenAll(es: seq<Expr>, scopes: seq<Scope>, caps: seq<string>)
    requires AllUnconverted(es) && HasThreshold(scopes) && Distinct(caps)
    ensures Adds(caps, CollectAll(ResolveAll(es), scopes, caps), SeenAll(es) - Bound(scopes))
    decreases es, 0
  {
    if es != [] {
      CollectsSeen(es[0], scopes, caps);
      var c1 := Collect(Resolve(es[0]), scopes, caps);
      assert ResolveAll(es)[1..] == ResolveAll(es[1..]);
      CollectsSeenAll(es[1..], scopes, c1);
      AddsTrans(caps, c1, CollectAll(ResolveAll(es[1..]), scopes, c1), Seen(es[0]) - Bound(scopes),
                SeenAll(es[1..]) - Bound(scopes), SeenAll(es) - Bound(scopes));
    }
  }

  /** The receiver holds one reference for each variable seen, in order of offset, and a
      captured variable is read back from the field its reference was put in. */
  lemma ReceiverHoldsCaptures(params: seq<string>, def: Expr)
    requires Unconverted(def)
    ensures var caps := CapturesOf(params, Resolve(def));
            var l := Resolve(Lambda(params, def, []));
            && |l.receiver| == |caps| == |Seen(Lambda(params, def, []))|
            && (forall i :: 0 <= i < |caps| ==> l.receiver[i] == RefTo(caps[i]))
            && (forall x <- Seen(Lambda(params, def, [])) ::
                  exists i :: 0 <= i < |caps| && Replace(RefTo(x), caps, {}) == Access(i) && l.receiver[i] == RefTo(x))
  {
    var caps := CapturesOf(params, Resolve(def));
    CapturesAreSeen(params, def);
    DistinctCount(caps);
    var l := Resolve(Lambda(params, def, []));
    assert l.receiver == [] + Refs(caps) == Refs(caps);
    hide Resolve, Collect, CapturesOf, Seen, Unconverted;
    forall x <- Names(caps)
      ensures exists i :: 0 <= i < |caps| && Replace(RefTo(x), caps, {}) == Access(i) && l.receiver[i] == RefTo(x)
    {
      CaptureIsReadBack(caps, x);
    }
  }

  lemma CaptureIsReadBack(caps: seq<string>, x: string)
    requires x in caps
    ensures exists i :: 0 <= i < |caps| && Replace(RefTo(x), caps, {}) == Access(i) && Refs(caps)[i] == RefTo(x)
  {
    assert Replace(RefTo(x), caps, {}) == Access(IndexOf(caps, x));
  }

  lemma {:induction false} DistinctCount(xs: seq<string>)
    requires Distinct(xs)
    ensures |Names(xs)| == |xs|
  {
    if xs != [] {
      DistinctCount(xs[1..]);
      assert Names(xs) == {xs[0]} + Names(xs[1..]);
    } else {
      assert Names(xs) == {};
    }
  }

  /** The variables an expression still refers to by name; a lambda only through its receiver. */
  function Mentions(e: Expr): set<string> {
    match e
    case Num(_) => {}
    case Ref(s) => if s.global then {} else {s.name}
    case Access(_) => {}
    case Add(l, r) => Mentions(l) + Mentions(r)
    case Cond(c, t, f) => Mentions(c) + Mentions(t) + Mentions(f)
    case Let(x, _, init, body) => Mentions(init) + (Mentions(body) - {x})
    case Call(callee, args) => Mentions(callee) + MentionsAll(args)
    case Lambda(_, _, receiver) => MentionsAll(receiver)
  }

  function MentionsAll(es: seq<Expr>): set<string> {
    if es == [] then {} else Mentions(es[0]) + MentionsAll(es[1..])
  }

  /** Conversion removes the captured variables, and nothing else, from what is mentioned. */
  lemma {:induction false} ReplaceRemovesCaptures(e: Expr, caps: seq<string>, hidden: set<string>)
    requires Convertible(e)
    ensures Mentions(Replace(Resolve(e), caps, hidden)) == Free(e) - (Names(caps) - hidden)
    decreases e
  {
    match e
    case Num(_) =>
    case Ref(_) =>
    case Add(l, r) => ReplaceRemovesCaptures(l, caps, hidden); ReplaceRemovesCaptures(r, caps, hidden);
    case Cond(c, t, f) =>
      ReplaceRemovesCaptures(c, caps, hidden);
      ReplaceRemovesCaptures(t, caps, hidden);
      ReplaceRemovesCaptures(f, caps, hidden);
    case Let(x, _, init, body) =>
      ReplaceRemovesCaptures(init, caps, hidden);
      ReplaceRemovesCaptures(body, caps, hidden + {x});
    case Call(callee, args) =>
      ReplaceRemovesCaptures(callee, caps, hidden);
      ReplaceAllRemovesCaptures(args, caps, hidden);
    case Lambda(params, def, receiver) =>
      ConvertibleIsUnconverted(def);
      CapturesAreSeen(params, def);
      var own := CapturesOf(params, Resolve(def));
      assert receiver + Refs(own) == Refs(own);
      ReplaceRefs(own, caps, hidden);
  }

  lemma {:induction false} ReplaceAllRemovesCaptures(es: seq<Expr>, caps: seq<string>, hidden: set<string>)
    requires AllConvertible(es)
    ensures MentionsAll(ReplaceAll(ResolveAll(es), caps, hidden)) == FreeAll(es) - (Names(caps) - hidden)
    decreases es
  {
    if es != [] {
      ReplaceRemovesCaptures(es[0], caps, hidden);
      ReplaceAllRemovesCaptures(es[1..], caps, hidden);
      assert ReplaceAll(ResolveAll(es), caps, hidden)[1..] == ReplaceAll(ResolveAll(es[1..]), caps, hidden);
    }
  }

  lemma {:induction false} ReplaceRefs(xs: seq<string>, caps: seq<string>, hidden: set<string>)
    ensures MentionsAll(ReplaceAll(Refs(xs), caps, hidden)) == Names(xs) - (Names(caps) - hidden)
    decreases xs
  {
    if xs != [] {
      ReplaceRefs(xs[1..], caps, hidden);
      assert Refs(xs)[1..] == Refs(xs[1..]);
      assert ReplaceAll(Refs(xs), caps, hidden)[1..] == ReplaceAll(Refs(xs[1..]), caps, hidden);
      assert Names(xs) == {xs[0]} + Names(xs[1..]);
    } else {
      assert Names(xs) == {};
    }
  }

  lemma {:induction false} SeenIsFree(e: Expr)
    ensures Seen(e) <= Free(e)
  {
    match e
    case Num(_) => case Ref(_) => case Access(_) =>
    case Add(l, r) => SeenIsFree(l); SeenIsFree(r);
    case Cond(c, t, f) => SeenIsFree(c); SeenIsFree(t); SeenIsFree(f);
    case Let(x, later, init, body) =>
      SeenIsFree(init);
      SeenIsFree(body);
      assert x in Names([x] + later) by { assert ([x] + later)[0] == x; }
    case Call(callee, args) => SeenIsFree(callee); SeenAllIsFree(args);
    case Lambda(_, def, _) => SeenIsFree(def);
  }

  lemma {:induction false} SeenAllIsFree(es: seq<Expr>)
    ensures SeenAll(es) <= FreeAll(es)
  {
    if es != [] { SeenIsFree(es[0]); SeenAllIsFree(es[1..]); }
  }

  /** A converted lambda body depends on nothing but its parameters and its receiver exactly
      when the search saw every free variable of the lambda. */
  lemma ConvertedBodyIsClosedExactly(params: seq<string>, def: Expr)
    requires Convertible(def)
    ensures var l := Lambda(params, def, []);
            Mentions(Resolve(l).def) <= Names(params) <==> Seen(l) == Free(l)
  {
    var l := Lambda(params, def, []);
    var caps := CapturesOf(params, Resolve(def));
    ConvertibleIsUnconverted(def);
    CapturesAreSeen(params, def);
    ReplaceRemovesCaptures(def, caps, {});
    SeenIsFree(l);
    assert Mentions(Resolve(l).def) == Free(def) - Seen(l);
  }
}
