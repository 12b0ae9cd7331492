/** The types of the semantic analysis, their equality, and the fuzzy match, where a template matches anything. */
module TypeRelations {
  datatype Option<T> = None | Some(value: T)

  datatype MaybeType = NoType | AType(t: Type)

  /** The table of classes is acyclic, so a class type holds the scope it points at as a value. */
  datatype ClassScope = ClassScope(name: string, instanceVars: seq<Type>)

  datatype Type =
    | Unknown  // an empty any_type
    | Builtin(name: string)
    | Class(scope: ClassScope, params: seq<Type>)
    | Tuple(elements: seq<Type>)
    | Func(paramTypes: seq<Type>, ret: MaybeType, isCallableTemplate: bool)
    | GenericFunc(ref: Option<nat>)
    | Array(element: Type, size: Option<nat>)
    | Pointer(pointee: Type)
    | Qualified(contained: Type)
    | Template(node: nat)

  datatype Members = NoMembers | Members(types: seq<Type>)

  // ---- Instance variables --------------------------------------------------------------

  function Templates(vars: seq<Type>): (n: nat)
    ensures n <= |vars|
  {
    if vars == [] then 0 else (if vars[0].Template? then 1 else 0) + Templates(vars[1..])
  }

  /** The instance variables with the parameters put in place of the templates, in order. */
  function Fill(vars: seq<Type>, params: seq<Type>): (r: Members)
    ensures r.Members? <==> Templates(vars) == |params|
    ensures r.Members? ==>
      |r.types| == |vars|
      && (forall i :: 0 <= i < |vars| ==> if vars[i].Template? then r.types[i] in params else r.types[i] == vars[i])
      && (forall p :: p in params ==> p in r.types)
  {
    if vars == [] then
      if params == [] then Members([]) else NoMembers
    else if vars[0].Template? then
      if params == [] then NoMembers
      else
        var rest := Fill(vars[1..], params[1..]);
        assert params == [params[0]] + params[1..];
        if rest.Members? then Members([params[0]] + rest.types) else NoMembers
    else
      var rest := Fill(vars[1..], params);
      if rest.Members? then Members([vars[0]] + rest.types) else NoMembers
  }

  /** The parameter put in place of a template has as many parameters before it as there are
      templates before that one. */
  lemma {:induction false} FillsInOrder(vars: seq<Type>, params: seq<Type>, i: nat)
    requires Fill(vars, params).Members? && i < |vars| && vars[i].Template?
    ensures Templates(vars[..i]) < |params| && Fill(vars, params).types[i] == params[Templates(vars[..i])]
    decreases vars
  {
    if i == 0 {
      assert vars[..0] == [];
    } else {
      var left := if vars[0].Template? then params[1..] else params;
      assert Fill(vars, params).types[1..] == Fill(vars[1..], left).types;
      FillsInOrder(vars[1..], left, i - 1);
      TemplatesBehind(vars, i);
    }
  }

  lemma TemplatesBehind(vars: seq<Type>, i: nat)
    requires 0 < i <= |vars|
    ensures Templates(vars[..i]) == (if vars[0].Template? then 1 else 0) + Templates(vars[1..][..i - 1])
  {
    assert vars[..i][1..] == vars[1..][..i - 1];
  }

  /** A class type without parameters keeps the templates of its scope. */
  function MembersOf(c: Type): (r: Members)
    requires c.Class?
    ensures r.Members? ==>
      |r.types| == |c.scope.instanceVars|
      && (forall i :: 0 <= i < |r.types| ==> r.types[i] in c.params || r.types[i] in c.scope.instanceVars)
      && (forall p :: p in c.params ==> p in r.types)
  {
    if c.params == [] then Members(c.scope.instanceVars) else Fill(c.scope.instanceVars, c.params)
  }

  method InstanceVarTypesOf(c: Type) returns (r: Members)
    requires c.Class?
    ensures r == MembersOf(c)
  {
    hide Fill;
    var ret: seq<Type> := [];
    if c.params == [] {
      for i := 0 to |c.scope.instanceVars|
        invariant ret == c.scope.instanceVars[..i]
      {
        ret := ret + [c.scope.instanceVars[i]];
      }
      assert ret == c.scope.instanceVars;
      return Members(ret);
    }
    var itr := 0;
    var vars, params := c.scope.instanceVars, c.params;
    assert vars[0..] == vars && params[0..] == params;
    for i := 0 to |vars|
      invariant 0 <= itr <= |params|
      invariant MembersOf(c) == Prepend(ret, Fill(vars[i..], params[itr..]))
    {
      FillUnfolds(vars, i, params, itr);
      if vars[i].Template? {
        if itr == |params| {
          return NoMembers;
        }
        FillTakes(ret, vars, i, params, itr);
        ret := ret + [params[itr]];
        itr := itr + 1;
      } else {
        FillKeeps(ret, vars, i, params[itr..]);
        ret := ret + [vars[i]];
      }
    }
    FillUnfolds(vars, |vars|, params, itr);
    if itr != |params| {
      return NoMembers;
    }
    assert ret + [] == ret;
    return Members(ret);
  }

  /** Where the iterator has run out of parameters, or members. */
  lemma FillUnfolds(vars: seq<Type>, i: nat, params: seq<Type>, k: nat)
    requires i <= |vars| && k <= |params|
    ensures i == |vars| ==> Fill(vars[i..], params[k..]) == if k == |params| then Members([]) else NoMembers
    ensures i < |vars| && vars[i].Template? && k == |params| ==> Fill(vars[i..], params[k..]) == NoMembers
  {
  }

  ghost function Prepend(front: seq<Type>, m: Members): Members {
    if m.Members? then Members(front + m.types) else NoMembers
  }

  lemma FillTakes(front: seq<Type>, vars: seq<Type>, i: nat, params: seq<Type>, k: nat)
    requires i < |vars| && vars[i].Template? && k < |params|
    ensures Prepend(front, Fill(vars[i..], params[k..]))
         == Prepend(front + [params[k]], Fill(vars[i + 1..], params[k + 1..]))
  {
    assert vars[i..][1..] == vars[i + 1..] && params[k..][1..] == params[k + 1..];
    var m := Fill(vars[i + 1..], params[k + 1..]);
    if m.Members? {
      assert front + [params[k]] + m.types == front + ([params[k]] + m.types);
    }
  }

  lemma FillKeeps(front: seq<Type>, vars: seq<Type>, i: nat, params: seq<Type>)
    requires i < |vars| && !vars[i].Template?
    ensures Prepend(front, Fill(vars[i..], params)) == Prepend(front + [vars[i]], Fill(vars[i + 1..], params))
  {
    assert vars[i..][1..] == vars[i + 1..];
    var m := Fill(vars[i + 1..], params);
    if m.Members? {
      assert front + [vars[i]] + m.types == front + ([vars[i]] + m.types);
    }
  }

  // ---- Equality ------------------------------------------------------------------------

  predicate Equal(l: Type, r: Type)
    decreases l
  {
    match (l, r)
    case (Unknown, _) => r.Unknown?
    case (Builtin(m), Builtin(n)) => m == n
    case (Class(ls, _), Class(rs, _)) =>
      ls.name == rs.name
      && var lm, rm := MembersOf(l), MembersOf(r);
      && lm.Members? && rm.Members? && |lm.types| == |rm.types|
      && forall i :: 0 <= i < |lm.types| ==>
           (lm.types[i].Template? && rm.types[i].Template?) || Equal(lm.types[i], rm.types[i])
    case (Tuple(le), Tuple(re)) => |le| == |re| && forall i :: 0 <= i < |le| ==> Equal(le[i], re[i])
    case (Func(lp, lr, _), Func(rp, rr, _)) =>
      |lp| == |rp| && (forall i :: 0 <= i < |lp| ==> Equal(lp[i], rp[i]))
      && (match (lr, rr)
          case (NoType, NoType) => true
          case (AType(lt), AType(rt)) => Equal(lt, rt)
          case _ => false)
    case (GenericFunc(lf), GenericFunc(rf)) => lf == rf
    case (Array(le, ln), Array(re, rn)) => Equal(le, re) && ln == rn
    case (Pointer(lp), Pointer(rp)) => Equal(lp, rp)
    case (Qualified(lc), Qualified(rc)) => Equal(lc, rc)
    case _ => false
  }

  // ---- Fuzzy match ---------------------------------------------------------------------

  /** Two kinds the matcher has no rule for are compared with `==`. */
  predicate Fuzzy(l: Type, r: Type)
    decreases l
  {
    if l.Unknown? || r.Unknown? then false
    else if l.Template? || r.Template? then true
    else match (l, r)
      case (Class(ls, _), Class(rs, _)) =>
        ls.name == rs.name
        && var lm, rm := MembersOf(l), MembersOf(r);
        && lm.Members? && rm.Members? && |lm.types| == |rm.types|
        && forall i :: 0 <= i < |lm.types| ==> Fuzzy(lm.types[i], rm.types[i])
      case (Tuple(le), Tuple(re)) => |le| == |re| && forall i :: 0 <= i < |le| ==> Fuzzy(le[i], re[i])
      case (Func(lp, lr, _), Func(rp, rr, _)) =>
        |lp| == |rp| && (forall i :: 0 <= i < |lp| ==> Fuzzy(lp[i], rp[i]))
        && (match (lr, rr)
            case (NoType, NoType) => true
            case (AType(lt), AType(rt)) => Fuzzy(lt, rt)
            case _ => false)
      case (Array(le, ln), Array(re, rn)) => Fuzzy(le, re) && ln == rn
      case (Pointer(lp), Pointer(rp)) => Fuzzy(lp, rp)
      case (Qualified(lc), Qualified(rc)) => Fuzzy(lc, rc)
      case _ => Equal(l, r)
  }

  // ---- Templates and instances of them -------------------------------------------------

  predicate IsTemplate(t: Type)
    decreases t
  {
    match t
    case Class(scope, params) =>
      if params == [] then exists i :: 0 <= i < |scope.instanceVars| && IsTemplate(scope.instanceVars[i])
      else exists i :: 0 <= i < |params| && IsTemplate(params[i])
    case Array(element, _) => IsTemplate(element)
    case Pointer(pointee) => IsTemplate(pointee)
    case Template(_) => true
    case _ => false
  }

  /**
   * The checker behind `is_instantiated_from`. Tuples and function parameters ask for some
   * matching pair and not for all of them.
   */
  predicate Instantiates(l: Type, r: Type)
    decreases l
  {
    if r.Template? then true
    else match (l, r)
      case (Class(ls, _), Class(rs, _)) =>
        ls.name == rs.name && !IsTemplate(l)
        && var lm, rm := MembersOf(l), MembersOf(r);
        && lm.Members? && rm.Members?
        && forall i :: 0 <= i < |lm.types| && i < |rm.types| ==> Instantiates(lm.types[i], rm.types[i])
      case (Tuple(le), Tuple(re)) => exists i :: 0 <= i < |le| && i < |re| && Instantiates(le[i], re[i])
      case (Func(lp, lr, _), Func(rp, rr, _)) =>
        || (match (lr, rr)
            case (NoType, NoType) => true
            case (AType(lt), AType(rt)) => Instantiates(lt, rt)
            case _ => false)
        || exists i :: 0 <= i < |lp| && i < |rp| && Instantiates(lp[i], rp[i])
      case (Array(le, _), Array(re, _)) => Instantiates(le, re)
      case (Pointer(lp), Pointer(rp)) => Instantiates(lp, rp)
      case (Qualified(lc), Qualified(rc)) => Instantiates(lc, rc)
      case _ => Equal(l, r)
  }

  /** Only class, array and pointer templates are instantiated. */
  predicate IsInstantiatedFrom(t: Type, from: Type) {
    match (t, from)
    case (Array(_, _), Array(_, _)) => IsTemplate(from) && Instantiates(t, from)
    case (Class(_, _), Class(_, _)) => IsTemplate(from) && Instantiates(t, from)
    case (Pointer(_), Pointer(_)) => IsTemplate(from) && Instantiates(t, from)
    case _ => false
  }

  // ---- The loops -----------------------------------------------------------------------

  method TypeEquals(l: Type, r: Type) returns (same: bool)
    ensures same == Equal(l, r)
    decreases l, 1
  {
    match (l, r)
    case (Unknown, Unknown) => same := true;
    case (Builtin(m), Builtin(n)) => same := m == n;
    case (Class(_, _), Class(_, _)) => same := ClassEquals(l, r);
    case (Tuple(le), Tuple(re)) => same := AllEqual(l, le, re);
    case (Func(lp, lr, _), Func(rp, rr, _)) =>
      same := AllEqual(l, lp, rp);
      if same {
        match (lr, rr)
        case (NoType, NoType) => same := true;
        case (AType(lt), AType(rt)) => same := TypeEquals(lt, rt);
        case _ => same := false;
      }
    case (GenericFunc(lf), GenericFunc(rf)) => same := lf == rf;
    case (Array(le, ln), Array(re, rn)) =>
      same := TypeEquals(le, re);
      same := same && ln == rn;
    case (Pointer(lp), Pointer(rp)) => same := TypeEquals(lp, rp);
    case (Qualified(lc), Qualified(rc)) => same := TypeEquals(lc, rc);
    case _ => same := false;
  }

  method AllEqual(ghost owner: Type, ls: seq<Type>, rs: seq<Type>) returns (same: bool)
    requires forall i :: 0 <= i < |ls| ==> ls[i] < owner
    ensures same == (|ls| == |rs| && forall i :: 0 <= i < |ls| ==> Equal(ls[i], rs[i]))
    decreases owner, 0
  {
    if |ls| != |rs| {
      return false;
    }
    for i := 0 to |ls|
      invariant forall k :: 0 <= k < i ==> Equal(ls[k], rs[k])
    {
      same := TypeEquals(ls[i], rs[i]);
      if !same {
        return false;
      }
    }
    return true;
  }

  predicate SameMember(l: Type, r: Type) {
    (l.Template? && r.Template?) || Equal(l, r)
  }

  lemma ClassesEqualByMembers(l: Type, r: Type)
    requires l.Class? && r.Class?
    ensures var lm, rm := MembersOf(l), MembersOf(r);
            Equal(l, r) <==>
              && l.scope.name == r.scope.name && lm.Members? && rm.Members? && |lm.types| == |rm.types|
              && forall i :: 0 <= i < |lm.types| ==> SameMember(lm.types[i], rm.types[i])
  {
    hide MembersOf;
  }

  method ClassEquals(l: Type, r: Type) returns (same: bool)
    requires l.Class? && r.Class?
    ensures same == Equal(l, r)
    decreases l, 0
  {
    hide Equal, MembersOf;
    ClassesEqualByMembers(l, r);
    if l.scope.name != r.scope.name {
      return false;
    }
    var lm := InstanceVarTypesOf(l);
    var rm := InstanceVarTypesOf(r);
    if lm.NoMembers? || rm.NoMembers? || |lm.types| != |rm.types| {
      return false;
    }
    for i := 0 to |lm.types|
      invariant forall k :: 0 <= k < i ==> SameMember(lm.types[k], rm.types[k])
    {
      if lm.types[i].Template? && rm.types[i].Template? {
        continue;
      }
      same := TypeEquals(lm.types[i], rm.types[i]);
      if !same {
        return false;
      }
    }
    return true;
  }

  method FuzzyMatch(l: Type, r: Type) returns (matched: bool)
    ensures matched == Fuzzy(l, r)
    decreases l, 1
  {
    if l.Unknown? || r.Unknown? {
      return false;
    }
    match (l, r)
    case (Template(_), _) => matched := true;
    case (_, Template(_)) => matched := true;
    case (Class(_, _), Class(_, _)) =>
      if l.scope.name != r.scope.name {
        return false;
      }
      var lm := InstanceVarTypesOf(l);
      var rm := InstanceVarTypesOf(r);
      if lm.NoMembers? || rm.NoMembers? {
        return false;
      }
      matched := FuzzyMatchAll(l, lm.types, rm.types);
    case (Tuple(le), Tuple(re)) => matched := FuzzyMatchAll(l, le, re);
    case (Func(lp, lr, _), Func(rp, rr, _)) =>
      matched := FuzzyMatchAll(l, lp, rp);
      if lr.AType? && rr.AType? && matched {
        matched := FuzzyMatch(lr.t, rr.t);
      } else if lr.AType? != rr.AType? {
        matched := false;
      }
    case (Array(le, ln), Array(re, rn)) =>
      matched := FuzzyMatch(le, re);
      matched := matched && ln == rn;
    case (Pointer(lp), Pointer(rp)) => matched := FuzzyMatch(lp, rp);
    case (Qualified(lc), Qualified(rc)) => matched := FuzzyMatch(lc, rc);
    case _ => matched := TypeEquals(l, r);
  }

  method FuzzyMatchAll(ghost owner: Type, ls: seq<Type>, rs: seq<Type>) returns (matched: bool)
    requires forall i :: 0 <= i < |ls| ==> ls[i] < owner
    ensures matched == (|ls| == |rs| && forall i :: 0 <= i < |ls| ==> Fuzzy(ls[i], rs[i]))
    decreases owner, 0
  {
    if |ls| != |rs| {
      return false;
    }
    for i := 0 to |ls|
      invariant forall k :: 0 <= k < i ==> Fuzzy(ls[k], rs[k])
    {
      matched := FuzzyMatch(ls[i], rs[i]);
      if !matched {
        return false;
      }
    }
    return true;
  }
}
