/** Laws of the two relations on types, `==` and the fuzzy match. */
module TypeTheorems {
  import opened TypeRelations

  // A type is a head with parts; both relations compare heads and then parts pairwise, so every
  // law is one induction over parts.

  function Parts(t: Type): (ps: seq<Type>)
    ensures forall i :: 0 <= i < |ps| ==> ps[i] < t
  {
    match t
    case Class(_, _) => var m := MembersOf(t); if m.Members? then m.types else []
    case Tuple(es) => es
    case Func(ps, ret, _) => if ret.AType? then ps + [ret.t] else ps
    case Array(e, _) => [e]
    case Pointer(p) => [p]
    case Qualified(c) => [c]
    case _ => []
  }

  /** A head that equality accepts at all: neither a template nor a class with a wrong number of parameters. */
  predicate Sound(t: Type) {
    !t.Template? && (t.Class? ==> MembersOf(t).Members?)
  }

  predicate SameHead(l: Type, r: Type) {
    match (l, r)
    case (Unknown, Unknown) => true
    case (Builtin(m), Builtin(n)) => m == n
    case (Class(ls, _), Class(rs, _)) => ls.name == rs.name
    case (Tuple(_), Tuple(_)) => true
    case (Func(_, lr, _), Func(_, rr, _)) => lr.AType? == rr.AType?
    case (GenericFunc(lf), GenericFunc(rf)) => lf == rf
    case (Array(_, ln), Array(_, rn)) => ln == rn
    case (Pointer(_), Pointer(_)) => true
    case (Qualified(_), Qualified(_)) => true
    case _ => false
  }

  predicate Shaped(l: Type, r: Type) {
    Sound(l) && Sound(r) && SameHead(l, r) && |Parts(l)| == |Parts(r)|
  }

  lemma EqualByParts(l: Type, r: Type)
    ensures Equal(l, r) <==>
      Shaped(l, r) && forall i :: 0 <= i < |Parts(l)| ==>
        (l.Class? && Parts(l)[i].Template? && Parts(r)[i].Template?) || Equal(Parts(l)[i], Parts(r)[i])
  {
    hide MembersOf;
    var lp, rp := Parts(l), Parts(r);
    match (l, r)
    case (Func(lps, lr, _), Func(rps, rr, _)) =>
      if Shaped(l, r) && lr.AType? {
        assert lp[|lps|] == lr.t && rp[|rps|] == rr.t;
        assert forall i :: 0 <= i < |lps| ==> lp[i] == lps[i] && rp[i] == rps[i];
      }
    case (Array(le, _), Array(re, _)) => assert lp[0] == le && rp[0] == re;
    case (Pointer(le), Pointer(re)) => assert lp[0] == le && rp[0] == re;
    case (Qualified(le), Qualified(re)) => assert lp[0] == le && rp[0] == re;
    case _ =>
  }

  lemma FuzzyByParts(l: Type, r: Type)
    requires !l.Template? && !r.Template?
    ensures Fuzzy(l, r) <==>
      !l.Unknown? && Shaped(l, r) && forall i :: 0 <= i < |Parts(l)| ==> Fuzzy(Parts(l)[i], Parts(r)[i])
  {
    hide MembersOf;
    var lp, rp := Parts(l), Parts(r);
    match (l, r)
    case (Func(lps, lr, _), Func(rps, rr, _)) =>
      if Shaped(l, r) && lr.AType? {
        assert lp[|lps|] == lr.t && rp[|rps|] == rr.t;
        assert forall i :: 0 <= i < |lps| ==> lp[i] == lps[i] && rp[i] == rps[i];
      }
    case (Array(le, _), Array(re, _)) => assert lp[0] == le && rp[0] == re;
    case (Pointer(le), Pointer(re)) => assert lp[0] == le && rp[0] == re;
    case (Qualified(le), Qualified(re)) => assert lp[0] == le && rp[0] == re;
    case _ =>
  }

  // ---- Conditions a caller can check -----------------------------------------------------

  /** Nothing in the type is empty, and every class has one parameter for each of its templates. */
  predicate Known(t: Type)
    decreases t
  {
    t.Template? || (!t.Unknown? && Sound(t) && var ps := Parts(t); forall i :: 0 <= i < |ps| ==> Known(ps[i]))
  }

  /** No template is left anywhere, not even in the members of a class. */
  predicate Concrete(t: Type)
    decreases t
  {
    Sound(t) && var ps := Parts(t); forall i :: 0 <= i < |ps| ==> Concrete(ps[i])
  }

  /** Every template left is directly a member of some class, where equality skips it. */
  predicate Settled(t: Type)
    decreases t
  {
    Sound(t) && var ps := Parts(t);
    forall i :: 0 <= i < |ps| ==> (t.Class? && ps[i].Template?) || Settled(ps[i])
  }

  lemma {:induction false} ConcreteIsSettled(t: Type)
    requires Concrete(t)
    ensures Settled(t)
    decreases t
  {
    hide Parts;
    var ps := Parts(t);
    forall i | 0 <= i < |ps| ensures Settled(ps[i]) { ConcreteIsSettled(ps[i]); }
  }

  // ---- Equality --------------------------------------------------------------------------

  lemma {:induction false} EqualIsSymmetric(l: Type, r: Type)
    ensures Equal(l, r) <==> Equal(r, l)
    decreases l
  {
    hide Parts, Equal, MembersOf;
    EqualByParts(l, r);
    EqualByParts(r, l);
    SameHeadSymmetric(l, r);
    var lp, rp := Parts(l), Parts(r);
    forall i | 0 <= i < |lp| && i < |rp| ensures Equal(lp[i], rp[i]) <==> Equal(rp[i], lp[i]) {
      EqualIsSymmetric(lp[i], rp[i]);
    }
  }

  /** Equal types are equal to the same types. */
  lemma {:induction false} EqualIsTransitive(a: Type, b: Type, c: Type)
    ensures Equal(a, b) ==> (Equal(b, c) <==> Equal(a, c))
    decreases a
  {
    hide Parts, Equal, MembersOf;
    if Equal(a, b) {
      EqualByParts(a, b);
      EqualByParts(b, c);
      EqualByParts(a, c);
      HeadsAgree(a, b, c);
      var ap, bp, cp := Parts(a), Parts(b), Parts(c);
      forall i | 0 <= i < |ap| && i < |cp|
        ensures (a.Class? && ap[i].Template? && cp[i].Template?) || Equal(ap[i], cp[i])
           <==> (b.Class? && bp[i].Template? && cp[i].Template?) || Equal(bp[i], cp[i])
      {
        EqualIsTransitive(ap[i], bp[i], cp[i]);
        TemplateEqualsNothing(ap[i], bp[i]);
        TemplateEqualsNothing(ap[i], cp[i]);
        TemplateEqualsNothing(bp[i], cp[i]);
      }
    }
  }

  lemma TemplateEqualsNothing(l: Type, r: Type)
    ensures l.Template? || r.Template? ==> !Equal(l, r)
  {
  }

  lemma HeadsAgree(a: Type, b: Type, c: Type)
    ensures SameHead(a, b) ==> (SameHead(b, c) <==> SameHead(a, c)) && (a.Class? <==> b.Class?)
  {
  }

  /** A type equals itself exactly when no template shows: a template equals nothing, not even itself. */
  lemma {:induction false} EqualIsReflexiveExactly(t: Type)
    ensures Equal(t, t) <==> Settled(t)
    decreases t
  {
    hide Parts, Equal, MembersOf;
    EqualByParts(t, t);
    var ps := Parts(t);
    forall i | 0 <= i < |ps| ensures Equal(ps[i], ps[i]) <==> Settled(ps[i]) { EqualIsReflexiveExactly(ps[i]); }
    if t.Template? {
    } else if Sound(t) {
      assert SameHead(t, t);
    }
  }

  lemma EqualIsReflexive(t: Type)
    requires Concrete(t)
    ensures Equal(t, t)
  {
    ConcreteIsSettled(t);
    EqualIsReflexiveExactly(t);
  }

  // ---- Fuzzy match -----------------------------------------------------------------------

  lemma {:induction false} FuzzyIsReflexiveExactly(t: Type)
    ensures Fuzzy(t, t) <==> Known(t)
    decreases t
  {
    hide Parts, Fuzzy, MembersOf;
    if t.Template? {
      TemplateMatches(t, t);
    } else {
      FuzzyByParts(t, t);
      var ps := Parts(t);
      forall i | 0 <= i < |ps| ensures Fuzzy(ps[i], ps[i]) <==> Known(ps[i]) { FuzzyIsReflexiveExactly(ps[i]); }
      assert SameHead(t, t);
    }
  }

  lemma TemplateMatches(l: Type, r: Type)
    requires l.Template? || r.Template?
    ensures Fuzzy(l, r) <==> !l.Unknown? && !r.Unknown?
  {
  }

  lemma {:induction false} FuzzyIsSymmetric(l: Type, r: Type)
    ensures Fuzzy(l, r) <==> Fuzzy(r, l)
    decreases l
  {
    hide Parts, Fuzzy, MembersOf;
    if l.Template? || r.Template? {
      TemplateMatches(l, r);
      TemplateMatches(r, l);
    } else {
      FuzzyByParts(l, r);
      FuzzyByParts(r, l);
      SameHeadSymmetric(l, r);
      var lp, rp := Parts(l), Parts(r);
      forall i | 0 <= i < |lp| && i < |rp| ensures Fuzzy(lp[i], rp[i]) <==> Fuzzy(rp[i], lp[i]) {
        FuzzyIsSymmetric(lp[i], rp[i]);
      }
      SameHeadHasKind(l, r);
    }
  }

  /** Equal types match, unless something in them is empty: two empty types are equal but never match. */
  lemma {:induction false} EqualMatchesExactly(l: Type, r: Type)
    requires Equal(l, r)
    ensures Fuzzy(l, r) <==> Known(l)
    decreases l
  {
    hide Parts, Fuzzy, Equal, MembersOf;
    EqualByParts(l, r);
    FuzzyByParts(l, r);
    var lp, rp := Parts(l), Parts(r);
    forall i | 0 <= i < |lp| ensures Fuzzy(lp[i], rp[i]) <==> Known(lp[i]) {
      if lp[i].Template? && rp[i].Template? {
        TemplateMatches(lp[i], rp[i]);
      } else {
        EqualMatchesExactly(lp[i], rp[i]);
      }
    }
  }

  /** Where no template is left, to match is to be equal and to have nothing empty. */
  lemma {:induction false} ConcreteMatchIsEquality(l: Type, r: Type)
    requires Concrete(l) && Concrete(r)
    ensures Fuzzy(l, r) <==> Equal(l, r) && Known(l)
    decreases l
  {
    hide Parts, Fuzzy, Equal, MembersOf;
    EqualByParts(l, r);
    FuzzyByParts(l, r);
    var lp, rp := Parts(l), Parts(r);
    forall i | 0 <= i < |lp| && i < |rp| ensures Fuzzy(lp[i], rp[i]) <==> Equal(lp[i], rp[i]) && Known(lp[i]) {
      ConcreteMatchIsEquality(lp[i], rp[i]);
    }
  }

  // ---- What a fuzzy match means ------------------------------------------------------------

  /** `g` is `t` with every template replaced by some type. */
  predicate Instance(t: Type, g: Type)
    decreases t
  {
    t.Template?
    || (Shaped(t, g) && var ps := Parts(t); forall i :: 0 <= i < |ps| ==> Instance(ps[i], Parts(g)[i]))
  }

  function WithParts(t: Type, ps: seq<Type>): (r: Type)
    requires Sound(t) && |ps| == |Parts(t)|
    ensures Sound(r) && Parts(r) == ps && SameHead(t, r)
  {
    match t
    case Class(scope, _) => Class(ClassScope(scope.name, ps), [])
    case Tuple(_) => Tuple(ps)
    case Func(params, ret, c) =>
      if ret.AType? then Func(ps[..|params|], AType(ps[|params|]), c) else Func(ps, NoType, c)
    case Array(_, n) => Array(ps[0], n)
    case Pointer(_) => Pointer(ps[0])
    case Qualified(_) => Qualified(ps[0])
    case _ => t
  }

  /** The instance that puts `int` for every template. */
  function Ground(t: Type): Type
    decreases t
  {
    if t.Template? then Builtin("int")
    else if !Sound(t) then t
    else
      var ps := Parts(t);
      WithParts(t, seq(|ps|, i requires 0 <= i < |ps| => Ground(ps[i])))
  }

  /** One common instance of two types that match. */
  function Meet(l: Type, r: Type): Type
    decreases l
  {
    if l.Template? then Ground(r)
    else if r.Template? || !Shaped(l, r) then Ground(l)
    else
      var lp, rp := Parts(l), Parts(r);
      WithParts(l, seq(|lp|, i requires 0 <= i < |lp| => Meet(lp[i], rp[i])))
  }

  lemma BuiltinIsConcrete(name: string)
    ensures Concrete(Builtin(name))
  {
  }

  lemma {:induction false} GroundIsInstance(t: Type)
    requires Known(t)
    ensures Concrete(Ground(t)) && Instance(t, Ground(t))
    decreases t
  {
    hide Parts, MembersOf, WithParts;
    if t.Template? {
      BuiltinIsConcrete("int");
    } else {
      var ps, g := Parts(t), Ground(t);
      forall i | 0 <= i < |ps| ensures Concrete(Parts(g)[i]) && Instance(ps[i], Parts(g)[i]) {
        GroundIsInstance(ps[i]);
      }
    }
  }

  lemma {:induction false} MeetIsInstance(l: Type, r: Type)
    requires Known(l) && Known(r) && Fuzzy(l, r)
    ensures Concrete(Meet(l, r)) && Instance(l, Meet(l, r)) && Instance(r, Meet(l, r))
    decreases l
  {
    hide Parts, MembersOf, WithParts, Fuzzy;
    if l.Template? {
      GroundIsInstance(r);
    } else if r.Template? {
      GroundIsInstance(l);
    } else {
      FuzzyByParts(l, r);
      var lp, rp, g := Parts(l), Parts(r), Meet(l, r);
      forall i | 0 <= i < |lp|
        ensures Concrete(Parts(g)[i]) && Instance(lp[i], Parts(g)[i]) && Instance(rp[i], Parts(g)[i])
      {
        MeetIsInstance(lp[i], rp[i]);
      }
      SameHeadThrough(l, r, g);
    }
  }

  lemma SameHeadThrough(l: Type, r: Type, g: Type)
    requires SameHead(l, g)
    ensures SameHead(l, r) <==> SameHead(r, g)
  {
  }

  lemma {:induction false} InstancesMatch(l: Type, r: Type, g: Type)
    requires Known(l) && Known(r)
    ensures !Fuzzy(l, r) ==> !Instance(l, g) || !Instance(r, g)
    decreases l
  {
    hide Parts, MembersOf, Fuzzy;
    if l.Template? || r.Template? {
      TemplateMatches(l, r);
    } else if Instance(l, g) && Instance(r, g) {
      FuzzyByParts(l, r);
      SameHeadThrough(l, r, g);
      var lp, rp, gp := Parts(l), Parts(r), Parts(g);
      forall i | 0 <= i < |lp| ensures Fuzzy(lp[i], rp[i]) { InstancesMatch(lp[i], rp[i], gp[i]); }
    }
  }

  /** Two types match exactly when some type without templates is an instance of both. */
  lemma FuzzyMeansCommonInstance(l: Type, r: Type)
    requires Known(l) && Known(r)
    ensures Fuzzy(l, r) <==> exists g :: Concrete(g) && Instance(l, g) && Instance(r, g)
  {
    if Fuzzy(l, r) {
      MeetIsInstance(l, r);
    }
    forall g | Concrete(g) && Instance(l, g) && Instance(r, g) ensures Fuzzy(l, r) { InstancesMatch(l, r, g); }
  }

  /** No template in it can be matched: each is beside a part that is empty, which nothing matches,
      or inside a class with the wrong number of parameters. */
  predicate Rigid(t: Type)
    decreases t
  {
    t.Unknown?
    || (!t.Template? && !Sound(t))
    || (!t.Template? && var ps := Parts(t);
        (exists i :: 0 <= i < |ps| && ps[i].Unknown?) || forall i :: 0 <= i < |ps| ==> Rigid(ps[i]))
  }

  lemma {:induction false} KnownRigidIsConcrete(t: Type)
    requires Known(t)
    ensures Rigid(t) <==> Concrete(t)
    decreases t
  {
    hide Parts, MembersOf;
    if !t.Template? {
      var ps := Parts(t);
      assert forall i :: 0 <= i < |ps| ==> Known(ps[i]) && !ps[i].Unknown?;
      forall i | 0 <= i < |ps| ensures Rigid(ps[i]) <==> Concrete(ps[i]) { KnownRigidIsConcrete(ps[i]); }
    }
  }

  lemma NothingMatchesUnknown(l: Type, r: Type)
    ensures Fuzzy(l, r) ==> !l.Unknown? && !r.Unknown?
  {
  }

  lemma {:induction false} RigidIsTransitive(b: Type)
    requires Rigid(b)
    ensures forall a, c :: Fuzzy(a, b) && Fuzzy(b, c) ==> Fuzzy(a, c)
    decreases b
  {
    hide Parts, Fuzzy, MembersOf, SameHead, Sound;
    RigidIsNoTemplate(b);
    forall a, c | Fuzzy(a, b) && Fuzzy(b, c) ensures Fuzzy(a, c) {
      NothingMatchesUnknown(a, b);
      NothingMatchesUnknown(b, c);
      if a.Template? || c.Template? {
        TemplateMatches(a, c);
      } else {
        MatchedPartsAreRigid(a, b);
        FuzzyByParts(b, c);
        var ap, bp, cp := Parts(a), Parts(b), Parts(c);
        forall i | 0 <= i < |bp| ensures Fuzzy(ap[i], cp[i]) { RigidIsTransitive(bp[i]); }
        HeadsCompose(a, b, c);
        FuzzyByParts(a, c);
      }
    }
  }

  lemma MatchedPartsAreRigid(a: Type, b: Type)
    requires Rigid(b) && !a.Template?
    ensures Fuzzy(a, b) ==> Shaped(a, b)
    ensures Fuzzy(a, b) ==> forall i :: 0 <= i < |Parts(b)| ==> Fuzzy(Parts(a)[i], Parts(b)[i]) && Rigid(Parts(b)[i])
  {
    hide Parts, Fuzzy, MembersOf, SameHead, Rigid;
    NothingMatchesUnknown(a, b);
    RigidIsNoTemplate(b);
    FuzzyByParts(a, b);
    var ap, bp := Parts(a), Parts(b);
    if Fuzzy(a, b) {
      forall i | 0 <= i < |bp| ensures !bp[i].Unknown? { NothingMatchesUnknown(ap[i], bp[i]); }
      RigidParts(b);
    }
  }

  lemma RigidIsNoTemplate(t: Type)
    requires Rigid(t)
    ensures !t.Template?
  {
  }

  lemma RigidParts(t: Type)
    requires Rigid(t) && Sound(t) && !t.Unknown?
    requires forall i :: 0 <= i < |Parts(t)| ==> !Parts(t)[i].Unknown?
    ensures forall i :: 0 <= i < |Parts(t)| ==> Rigid(Parts(t)[i])
  {
    hide Parts, MembersOf;
  }

  lemma HeadsCompose(a: Type, b: Type, c: Type)
    requires SameHead(a, b) && SameHead(b, c)
    ensures SameHead(a, c)
  {
  }

  lemma SameHeadSymmetric(l: Type, r: Type)
    ensures SameHead(l, r) <==> SameHead(r, l)
  {
  }

  lemma SameHeadHasKind(l: Type, r: Type)
    ensures SameHead(l, r) ==> l.Unknown? == r.Unknown? && l.Template? == r.Template?
  {
  }

  /** `t` with one part replaced, and templates for the other parts. */
  function WithPart(t: Type, i: nat, part: Type): (r: Type)
    requires Sound(t) && i < |Parts(t)|
    ensures Sound(r) && SameHead(t, r) && |Parts(r)| == |Parts(t)|
    ensures forall k :: 0 <= k < |Parts(t)| ==> Parts(r)[k] == if k == i then part else Template(0)
  {
    WithParts(t, seq(|Parts(t)|, k requires 0 <= k < |Parts(t)| => if k == i then part else Template(0)))
  }

  lemma WithPartMatches(t: Type, i: nat, part: Type)
    requires Sound(t) && !t.Unknown? && i < |Parts(t)|
    requires forall k :: 0 <= k < |Parts(t)| ==> !Parts(t)[k].Unknown?
    ensures Fuzzy(part, Parts(t)[i]) <==> Fuzzy(WithPart(t, i, part), t)
  {
    hide Parts, MembersOf, Fuzzy, WithPart;
    var ps, v := Parts(t), WithPart(t, i, part);
    SameHeadSymmetric(t, v);
    SameHeadHasKind(t, v);
    forall k | 0 <= k < |ps| && k != i ensures Fuzzy(Parts(v)[k], ps[k]) { TemplateMatches(Template(0), ps[k]); }
    FuzzyByParts(v, t);
  }

  lemma WithPartsDiffer(t: Type, i: nat, a: Type, c: Type)
    requires Sound(t) && i < |Parts(t)|
    ensures !Fuzzy(a, c) ==> !Fuzzy(WithPart(t, i, a), WithPart(t, i, c))
  {
    hide Parts, MembersOf, Fuzzy, WithPart;
    SameHeadHasKind(t, WithPart(t, i, a));
    SameHeadHasKind(t, WithPart(t, i, c));
    FuzzyByParts(WithPart(t, i, a), WithPart(t, i, c));
    assert Parts(WithPart(t, i, a))[i] == a && Parts(WithPart(t, i, c))[i] == c;
  }

  lemma {:induction false} OthersAreNotTransitive(b: Type)
    requires !Rigid(b)
    ensures exists a, c :: Fuzzy(a, b) && Fuzzy(c, b) && !Fuzzy(a, c)
    decreases b
  {
    hide Parts, Fuzzy, MembersOf, WithPart;
    if b.Template? {
      var l, r := GenericFunc(Some(0)), GenericFunc(Some(1));
      DifferentFunctions();
      TemplateMatches(l, b);
      TemplateMatches(r, b);
    } else {
      var ps := Parts(b);
      var i :| 0 <= i < |ps| && !Rigid(ps[i]);
      OthersAreNotTransitive(ps[i]);
      var a, c :| Fuzzy(a, ps[i]) && Fuzzy(c, ps[i]) && !Fuzzy(a, c);
      WithPartMatches(b, i, a);
      WithPartMatches(b, i, c);
      WithPartsDiffer(b, i, a, c);
    }
  }

  /** So matching is not transitive, and the types in the middle that make it so are the rigid ones:
      of the known types, those without a template. */
  lemma FuzzyIsTransitiveExactly(b: Type)
    ensures (forall a, c :: Fuzzy(a, b) && Fuzzy(b, c) ==> Fuzzy(a, c)) <==> Rigid(b)
    ensures Known(b) ==> (Rigid(b) <==> Concrete(b))
  {
    hide Fuzzy, Rigid, Known, Concrete;
    if Rigid(b) {
      RigidIsTransitive(b);
    } else {
      OthersAreNotTransitive(b);
      var a, c :| Fuzzy(a, b) && Fuzzy(c, b) && !Fuzzy(a, c);
      FuzzyIsSymmetric(c, b);
      assert Fuzzy(a, b) && Fuzzy(b, c) && !Fuzzy(a, c);
    }
    if Known(b) { KnownRigidIsConcrete(b); }
  }

  lemma DifferentFunctions()
    ensures !Fuzzy(GenericFunc(Some(0)), GenericFunc(Some(1)))
  {
  }

  // ---- Instantiation ---------------------------------------------------------------------

  /** What equals a concrete type is no template, so the two tests of a parameter exclude each other. */
  lemma {:induction false} EqualToConcreteIsNoTemplate(param: Type, arg: Type)
    requires Concrete(arg) && Equal(param, arg)
    ensures !IsTemplate(param)
    decreases param
  {
    hide Parts, MembersOf, Equal, Instantiates;
    EqualByParts(param, arg);
    var pp, ap := Parts(param), Parts(arg);
    forall i | 0 <= i < |pp| ensures !IsTemplate(pp[i]) { EqualToConcreteIsNoTemplate(pp[i], ap[i]); }
    if IsTemplate(param) { TemplateByParts(param); }
  }

  lemma TemplateByParts(t: Type)
    requires Sound(t) && IsTemplate(t)
    ensures exists i :: 0 <= i < |Parts(t)| && IsTemplate(Parts(t)[i])
  {
    match t
    case Class(scope, params) =>
      if params == [] {
        var i :| 0 <= i < |scope.instanceVars| && IsTemplate(scope.instanceVars[i]);
        assert Parts(t)[i] == scope.instanceVars[i];
      } else {
        var i :| 0 <= i < |params| && IsTemplate(params[i]);
        assert params[i] in Parts(t);
      }
    case Array(e, _) => assert Parts(t)[0] == e;
    case Pointer(p) => assert Parts(t)[0] == p;
  }

  /** Two types that the checker compares as one would expect: no tuples or functions face each
      other, arrays that do have the same size, and classes of one name have as many members. */
  predicate Regular(l: Type, r: Type)
    decreases l
  {
    || r.Template?
    || (&& !(l.Tuple? && r.Tuple?) && !(l.Func? && r.Func?)
        && (l.Array? && r.Array? ==> l.size == r.size)
        && (SameHead(l, r) && Sound(l) && Sound(r) ==>
              && |Parts(l)| == |Parts(r)|
              && var ps := Parts(l); forall i :: 0 <= i < |ps| ==> Regular(ps[i], Parts(r)[i])))
  }

  lemma InstantiatesByParts(l: Type, r: Type)
    ensures Concrete(l) && Regular(l, r) && !r.Template? ==>
              (Instantiates(l, r) <==>
                && Shaped(l, r) && (l.Class? ==> !IsTemplate(l))
                && forall i :: 0 <= i < |Parts(l)| ==> Instantiates(Parts(l)[i], Parts(r)[i]))
  {
    hide MembersOf, IsTemplate, Equal;
    EqualByParts(l, r);
    match (l, r)
    case (Array(le, _), Array(re, _)) => assert Parts(l)[0] == le && Parts(r)[0] == re;
    case (Pointer(lp), Pointer(rp)) => assert Parts(l)[0] == lp && Parts(r)[0] == rp;
    case (Qualified(lc), Qualified(rc)) => assert Parts(l)[0] == lc && Parts(r)[0] == rc;
    case _ =>
  }

  lemma ConcreteIsNoTemplate(t: Type)
    ensures Concrete(t) ==> !IsTemplate(t)
  {
    if Concrete(t) {
      EqualIsReflexive(t);
      EqualToConcreteIsNoTemplate(t, t);
    }
  }

  lemma {:induction false} InstantiatesIsInstance(l: Type, r: Type)
    requires Concrete(l) && Regular(l, r)
    ensures Instantiates(l, r) <==> Instance(r, l)
    decreases l
  {
    hide Parts, MembersOf, Instantiates, IsTemplate, SameHead, Sound, Concrete, Regular, Instance;
    if r.Template? {
      TemplateTakesAny(l, r);
    } else {
      InstantiatesByParts(l, r);
      ConcreteIsNoTemplate(l);
      InstanceByParts(r, l);
      SameHeadSymmetric(l, r);
      var lp, rp := Parts(l), Parts(r);
      if Shaped(l, r) {
        PartsAreRegular(l, r);
        forall i | 0 <= i < |lp| ensures Instantiates(lp[i], rp[i]) <==> Instance(rp[i], lp[i]) {
          InstantiatesIsInstance(lp[i], rp[i]);
        }
      }
    }
  }

  lemma InstanceByParts(t: Type, g: Type)
    ensures !t.Template? ==>
              (Instance(t, g) <==>
                Shaped(t, g) && forall i :: 0 <= i < |Parts(t)| ==> Instance(Parts(t)[i], Parts(g)[i]))
  {
    hide Parts, MembersOf, SameHead, Sound;
  }

  lemma PartsAreRegular(l: Type, r: Type)
    ensures Concrete(l) && Regular(l, r) && !r.Template? && Shaped(l, r) ==>
              forall i :: 0 <= i < |Parts(l)| ==> Concrete(Parts(l)[i]) && Regular(Parts(l)[i], Parts(r)[i])
  {
    hide Parts, MembersOf, SameHead, Sound;
  }

  lemma TemplateTakesAny(l: Type, r: Type)
    ensures r.Template? ==> (Instantiates(l, r) <==> Instance(r, l))
  {
    hide Equal, Parts;
  }

  /** A concrete argument is instantiated from a class, array or pointer template exactly when it
      is the template with something put in for every template in it. */
  lemma InstantiationIsInstance(arg: Type, param: Type)
    requires Concrete(arg) && Regular(arg, param)
    ensures IsInstantiatedFrom(arg, param) <==>
              (param.Class? || param.Array? || param.Pointer?) && IsTemplate(param) && Instance(param, arg)
  {
    InstantiatesIsInstance(arg, param);
    InstanceHasKind(param, arg);
  }

  lemma InstanceHasKind(t: Type, g: Type)
    ensures Instance(t, g) ==> t.Template? || SameHead(t, g)
  {
  }

  /** Types of which only class, array and pointer types hold others.  Where a class has parameters,
      the templates of its scope are instance variables, not parts of them. */
  predicate Composed(t: Type)
    decreases t
  {
    match t
    case Builtin(_) => true
    case Template(_) => true
    case Array(element, _) => Composed(element)
    case Pointer(pointee) => Composed(pointee)
    case Class(scope, params) =>
      && MembersOf(t).Members?
      && (forall p <- params :: Composed(p))
      && forall v <- scope.instanceVars :: if params == [] then Composed(v) else v.Template? || Concrete(v)
    case _ => false
  }

  /** Such a type is a template exactly when there is a template somewhere in it. */
  lemma {:induction false} TemplateHoldsTemplate(t: Type)
    requires Composed(t)
    ensures IsTemplate(t) <==> !Concrete(t)
    decreases t
  {
    match t
    case Builtin(_) =>
    case Template(_) =>
    case Array(element, _) =>
      TemplateHoldsTemplate(element);
      assert Parts(t)[0] == element;
    case Pointer(pointee) =>
      TemplateHoldsTemplate(pointee);
      assert Parts(t)[0] == pointee;
    case Class(_, _) => ClassHoldsTemplate(t);
  }

  lemma {:induction false} ClassHoldsTemplate(t: Type)
    requires t.Class? && Composed(t)
    ensures IsTemplate(t) <==> !Concrete(t)
    decreases t, 0
  {
    if IsTemplate(t) { ConcreteIsNoTemplate(t); }
    if !Concrete(t) {
      var ps := Parts(t);
      var i :| 0 <= i < |ps| && !Concrete(ps[i]);
      if t.params == [] {
        TemplateHoldsTemplate(t.scope.instanceVars[i]);
      } else {
        assert ps[i] in t.params;
        var k :| 0 <= k < |t.params| && t.params[k] == ps[i];
        TemplateHoldsTemplate(t.params[k]);
      }
    }
  }

  // ---- Equality is identity --------------------------------------------------------------

  /** The type with every class given by its name and its filled-in members, and the mark of a
      callable template left out. */
  function Canonical(t: Type): Type
    decreases t, 1
  {
    var cs := CanonicalsOf(t);
    match t
    case Class(scope, params) => if MembersOf(t).Members? then Class(ClassScope(scope.name, cs), []) else t
    case Tuple(_) => Tuple(cs)
    case Func(params, ret, _) =>
      if ret.AType? then Func(cs[..|params|], AType(cs[|params|]), false) else Func(cs, NoType, false)
    case Array(_, size) => Array(cs[0], size)
    case Pointer(_) => Pointer(cs[0])
    case Qualified(_) => Qualified(cs[0])
    case _ => t
  }

  function CanonicalsOf(t: Type): (cs: seq<Type>)
    ensures |cs| == |Parts(t)| && forall i :: 0 <= i < |cs| ==> cs[i] == Canonical(Parts(t)[i])
    decreases t, 0
  {
    var ps := Parts(t);
    seq(|ps|, i requires 0 <= i < |ps| => Canonical(ps[i]))
  }

  lemma PartCounts(t: Type)
    ensures match t
            case Func(ps, ret, _) => |Parts(t)| == if ret.AType? then |ps| + 1 else |ps|
            case Class(_, _) => true
            case Tuple(_) => true
            case Array(_, _) => |Parts(t)| == 1
            case Pointer(_) => |Parts(t)| == 1
            case Qualified(_) => |Parts(t)| == 1
            case _ => |Parts(t)| == 0
  {
  }

  lemma SameHalves<T>(s: seq<T>, t: seq<T>, m: nat, n: nat)
    requires |s| == m + 1 && |t| == n + 1
    ensures s == t <==> s[..m] == t[..n] && s[m] == t[n]
  {
    if s[..m] == t[..n] && s[m] == t[n] {
      assert |s[..m]| == |t[..n]|;
      assert s == s[..m] + [s[m]] && t == t[..n] + [t[n]];
    }
  }

  lemma CanonicalByHead(l: Type, r: Type)
    requires Sound(l) && Sound(r)
    ensures Canonical(l) == Canonical(r) <==> SameHead(l, r) && CanonicalsOf(l) == CanonicalsOf(r)
  {
    hide CanonicalsOf, Parts, MembersOf;
    PartCounts(l);
    PartCounts(r);
    var lc, rc := CanonicalsOf(l), CanonicalsOf(r);
    match (l, r)
    case (Func(lp, lr, _), Func(rp, rr, _)) =>
      if lr.AType? && rr.AType? { SameHalves(lc, rc, |lp|, |rp|); }
    case (Array(_, _), Array(_, _)) => assert lc == [lc[0]] && rc == [rc[0]];
    case (Pointer(_), Pointer(_)) => assert lc == [lc[0]] && rc == [rc[0]];
    case (Qualified(_), Qualified(_)) => assert lc == [lc[0]] && rc == [rc[0]];
    case _ =>
  }

  lemma CanonicalByParts(l: Type, r: Type)
    requires Sound(l) && Sound(r)
    ensures Canonical(l) == Canonical(r) <==>
              SameHead(l, r) && |Parts(l)| == |Parts(r)|
              && forall i :: 0 <= i < |Parts(l)| ==> Canonical(Parts(l)[i]) == Canonical(Parts(r)[i])
  {
    hide MembersOf, Parts, Canonical, SameHead;
    CanonicalByHead(l, r);
    var lc, rc := CanonicalsOf(l), CanonicalsOf(r);
    assert (lc == rc) <==> (|lc| == |rc| && forall i :: 0 <= i < |lc| ==> lc[i] == rc[i]);
  }

  /** Types without templates are equal exactly when they are the same up to what equality does not
      look at: how the members of a class come about, and whether a function is a callable template. */
  lemma {:induction false} EqualIsIdentity(l: Type, r: Type)
    requires Concrete(l) && Concrete(r)
    ensures Equal(l, r) <==> Canonical(l) == Canonical(r)
    decreases l
  {
    hide Equal, MembersOf, Canonical, Parts, SameHead;
    EqualByParts(l, r);
    CanonicalByParts(l, r);
    if |Parts(l)| == |Parts(r)| {
      forall i | 0 <= i < |Parts(l)|
        ensures Equal(Parts(l)[i], Parts(r)[i]) <==> Canonical(Parts(l)[i]) == Canonical(Parts(r)[i])
        ensures !Parts(l)[i].Template?
      {
        EqualIsIdentity(Parts(l)[i], Parts(r)[i]);
      }
    }
  }
}
