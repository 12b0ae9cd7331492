/** The ladder of binary operators: ten rules, each a greedy repetition over the next
    tighter one, folding to the left. */
module PrecedenceLadder {

  datatype Op =
    | Mul | Div | Mod | Add | Sub | Shl | Shr | Le | Ge | Lt | Gt | Eq | Ne
    | BitAnd | BitXor | BitOr | LogAnd | LogOr

  const LEVELS := 10

  /** The rule an operator belongs to, the tightest being 0. */
  function Level(op: Op): (k: nat)
    ensures k < LEVELS
  {
    match op
    case Mul => 0 case Div => 0 case Mod => 0
    case Add => 1 case Sub => 1
    case Shl => 2 case Shr => 2
    case Le => 3 case Ge => 3 case Lt => 3 case Gt => 3
    case Eq => 4 case Ne => 4
    case BitAnd => 5 case BitXor => 6 case BitOr => 7
    case LogAnd => 8 case LogOr => 9
  }

  function Symbol(op: Op): string {
    match op
    case Mul => "*" case Div => "/" case Mod => "%" case Add => "+" case Sub => "-" case Shl => "<<" case Shr => ">>"
    case Le => "<=" case Ge => ">=" case Lt => "<" case Gt => ">" case Eq => "==" case Ne => "!="
    case BitAnd => "&" case BitXor => "^" case BitOr => "|" case LogAnd => "&&" case LogOr => "||"
  }

  /** The operators of the rules from `mult_expr` to `logical_or_expr`. */
  const RULES: seq<seq<string>> :=
    [["*", "/", "%"], ["+", "-"], ["<<", ">>"], ["<=", ">=", "<", ">"], ["==", "!="],
     ["&"], ["^"], ["|"], ["&&"], ["||"]]

  /** An operator with the operand behind it, and whether a newline stands before it. */
  datatype Link = Link(newline: bool, op: Op, operand: nat)

  datatype Tree = Leaf(operand: nat) | Node(lhs: Tree, op: Op, rhs: Tree)

  /** A newline is permitted before every operator but `+` and `-`. */
  predicate Blocked(l: Link) { l.newline && Level(l.op) == 1 }

  predicate Takes(k: nat, l: Link) { Level(l.op) == k && !Blocked(l) }

  // ---------- the rules ----------

  /** Rule number `k`, counted from 1, over a first operand and what follows it; rule 0 is
      an operand alone.  Returns the tree and what is left. */
  function Parse(k: nat, first: nat, links: seq<Link>): (r: (Tree, seq<Link>))
    ensures |r.1| <= |links|
    decreases |links|, k, 0
  {
    if k == 0 then (Leaf(first), links)
    else
      var (t, rest) := Parse(k - 1, first, links);
      Repeat(k - 1, t, rest)
  }

  /** The repetition of a rule over operators of level `k`. */
  function Repeat(k: nat, val: Tree, links: seq<Link>): (r: (Tree, seq<Link>))
    ensures |r.1| <= |links|
    decreases |links|, k, 1
  {
    if links == [] || !Takes(k, links[0]) then (val, links)
    else
      var (t, rest) := Parse(k, links[0].operand, links[1..]);
      Repeat(k, Node(val, links[0].op, t), rest)
  }

  /** The rules as they run, `val` being assigned anew in each repetition. */
  method ParseRule(k: nat, first: nat, links: seq<Link>) returns (val: Tree, rest: seq<Link>)
    ensures (val, rest) == Parse(k, first, links)
    decreases |links|, k
  {
    if k == 0 { return Leaf(first), links; }
    val, rest := ParseRule(k - 1, first, links);
    while rest != [] && Takes(k - 1, rest[0])
      invariant |rest| <= |links| && Repeat(k - 1, val, rest) == Parse(k, first, links)
      decreases |rest|
    {
      var rhs, rest1 := ParseRule(k - 1, rest[0].operand, rest[1..]);
      val, rest := Node(val, rest[0].op, rhs), rest1;
    }
  }

  // ---------- what a tree says ----------

  function Head(t: Tree): nat { if t.Leaf? then t.operand else Head(t.lhs) }

  function Tail(t: Tree): seq<(Op, nat)> {
    if t.Leaf? then [] else Tail(t.lhs) + [(t.op, Head(t.rhs))] + Tail(t.rhs)
  }

  function Plain(links: seq<Link>): (r: seq<(Op, nat)>)
    ensures |r| == |links|
  {
    seq(|links|, i requires 0 <= i < |links| => (links[i].op, links[i].operand))
  }

  /** Every operator of the tree has a level below `k`. */
  predicate Below(t: Tree, k: nat) { t.Node? ==> Level(t.op) < k && Below(t.lhs, k) && Below(t.rhs, k) }

  /** Operators on the left bind at least as tightly, those on the right more tightly. */
  predicate Respects(t: Tree) {
    t.Node? ==> Below(t.lhs, Level(t.op) + 1) && Below(t.rhs, Level(t.op)) && Respects(t.lhs) && Respects(t.rhs)
  }

  /** How many links rule `k` can use: up to the first one that is blocked or too loose. */
  function Reach(k: nat, links: seq<Link>): (n: nat)
    ensures n <= |links|
    ensures forall i :: 0 <= i < n ==> !Blocked(links[i]) && Level(links[i].op) < k
    ensures n < |links| ==> Blocked(links[n]) || Level(links[n].op) >= k
  {
    if links == [] || Blocked(links[0]) || Level(links[0].op) >= k then 0 else 1 + Reach(k, links[1..])
  }

  lemma BelowWeaken(t: Tree, k: nat, l: nat)
    requires Below(t, k) && k <= l
    ensures Below(t, l)
  {
  }

  /** `t` says what `first` and the first `n` links say, in order. */
  ghost predicate Reads(t: Tree, first: nat, links: seq<Link>, n: nat) {
    n <= |links| && Head(t) == first && Tail(t) == Plain(links[..n])
  }

  lemma {:induction false} ParseMeaning(k: nat, first: nat, links: seq<Link>)
    ensures var (t, rest) := Parse(k, first, links);
            && rest == links[Reach(k, links)..]
            && Reads(t, first, links, Reach(k, links))
            && Respects(t) && Below(t, k)
    decreases |links|, k, 0
  {
    hide Reads, Plain, Level, Respects, Below, Reach, Repeat;
    if k == 0 {
      LeafMeaning(first, links);
    } else {
      var (t, rest) := Parse(k - 1, first, links);
      ParseMeaning(k - 1, first, links);
      BelowWeaken(t, k - 1, k);
      ReachCovers(k, links, Reach(k - 1, links));
      RepeatMeaning(k - 1, t, first, links, Reach(k - 1, links));
    }
  }

  lemma LeafMeaning(first: nat, links: seq<Link>)
    ensures Reach(0, links) == 0 && Reads(Leaf(first), first, links, 0)
    ensures Respects(Leaf(first)) && Below(Leaf(first), 0)
  {
    assert Plain(links[..0]) == [];
  }

  lemma JoinReads(l: Tree, r: Tree, first: nat, links: seq<Link>, n: nat, m: nat)
    requires n < |links| && Reads(l, first, links, n) && Reads(r, links[n].operand, links[n + 1..], m)
    ensures Reads(Node(l, links[n].op, r), first, links, n + 1 + m)
  {
    var tail := links[n + 1..];
    assert links[..n + 1 + m] == links[..n] + [links[n]] + tail[..m];
    assert Plain(links[..n + 1 + m]) == Plain(links[..n]) + [(links[n].op, links[n].operand)] + Plain(tail[..m]);
  }

  lemma {:induction false} RepeatMeaning(k: nat, val: Tree, first: nat, links: seq<Link>, n: nat)
    requires n <= |links| && n <= Reach(k + 1, links)
    requires n < |links| ==> Blocked(links[n]) || Level(links[n].op) >= k
    requires Reads(val, first, links, n) && Respects(val) && Below(val, k + 1)
    ensures var (t, rest) := Repeat(k, val, links[n..]);
            && rest == links[Reach(k + 1, links)..]
            && Reads(t, first, links, Reach(k + 1, links))
            && Respects(t) && Below(t, k + 1)
    decreases |links| - n, k, 1
  {
    hide Reads, Reach, Level, Plain, Parse;
    var rest := links[n..];
    if rest != [] && Takes(k, rest[0]) {
      var tail := links[n + 1..];
      assert rest[1..] == tail && rest[0] == links[n];
      var (r, rest1) := Parse(k, links[n].operand, tail);
      ParseMeaning(k, links[n].operand, tail);
      var m := Reach(k, tail);
      ReachBehind(k, links, n);
      assert rest1 == links[n + 1 + m..];
      BelowWeaken(r, k, k + 1);
      JoinReads(val, r, first, links, n, m);
      RepeatMeaning(k, Node(val, links[n].op, r), first, links, n + 1 + m);
    } else {
      ReachStops(k + 1, links, n);
    }
  }

  /** One more operator of level `k`, and what the tighter rules take behind it. */
  lemma ReachBehind(k: nat, links: seq<Link>, n: nat)
    requires n < |links| && n <= Reach(k + 1, links) && Takes(k, links[n])
    ensures var p := n + 1 + Reach(k, links[n + 1..]);
            p <= Reach(k + 1, links) && (p < |links| ==> Blocked(links[p]) || Level(links[p].op) >= k)
  {
    var tail := links[n + 1..];
    var m := Reach(k, tail);
    assert forall i :: n < i < n + 1 + m ==> links[i] == tail[i - n - 1];
    assert m < |tail| ==> tail[m] == links[n + 1 + m];
    ReachCovers(k + 1, links, n + 1 + m);
  }

  lemma ReachStops(k: nat, links: seq<Link>, n: nat)
    requires n <= Reach(k, links) && (n < |links| ==> Blocked(links[n]) || Level(links[n].op) >= k)
    ensures n == Reach(k, links)
  {
  }

  lemma ReachCovers(k: nat, links: seq<Link>, n: nat)
    requires n <= |links| && forall i :: 0 <= i < n ==> !Blocked(links[i]) && Level(links[i].op) < k
    ensures n <= Reach(k, links)
  {
  }

  /** The whole ladder consumes every link up to the first `+` or `-` behind a newline; its
      tree reads exactly those, and respects levels and left association. */
  lemma LadderMeaning(first: nat, links: seq<Link>)
    ensures var (t, rest) := Parse(LEVELS, first, links);
            var n := |links| - |rest|;
            && rest == links[n..] && (forall i :: 0 <= i < n ==> !Blocked(links[i]))
            && (rest != [] ==> Blocked(rest[0]))
            && Head(t) == first && Tail(t) == Plain(links[..n]) && Respects(t)
  {
    ParseMeaning(LEVELS, first, links);
  }

  // ---------- there is one such tree only ----------

  lemma {:induction false} BelowTail(t: Tree, k: nat)
    requires Below(t, k)
    ensures forall i :: 0 <= i < |Tail(t)| ==> Level(Tail(t)[i].0) < k
  {
    if t.Node? {
      BelowTail(t.lhs, k);
      BelowTail(t.rhs, k);
    }
  }

  /** The root is the last of the loosest operators. */
  lemma RootPosition(t: Tree)
    requires t.Node? && Respects(t)
    ensures var p := |Tail(t.lhs)|;
            && p < |Tail(t)| && Tail(t)[p] == (t.op, Head(t.rhs))
            && (forall i :: 0 <= i < p ==> Level(Tail(t)[i].0) <= Level(t.op))
            && (forall i :: p < i < |Tail(t)| ==> Level(Tail(t)[i].0) < Level(t.op))
            && Tail(t)[..p] == Tail(t.lhs) && Tail(t)[p + 1..] == Tail(t.rhs)
  {
    BelowTail(t.lhs, Level(t.op) + 1);
    BelowTail(t.rhs, Level(t.op));
    var l, r := Tail(t.lhs), Tail(t.rhs);
    assert Tail(t) == l + [(t.op, Head(t.rhs))] + r;
    hide Tail, Respects, Below, Level, Head;
    forall i | |Tail(t.lhs)| < i < |Tail(t)| ensures Level(Tail(t)[i].0) < Level(t.op) {
      assert Tail(t)[i] == Tail(t.rhs)[i - |Tail(t.lhs)| - 1];
    }
  }

  /** Two trees that respect the levels and read the same are the same. */
  lemma {:induction false} RespectingTreeIsUnique(s: Tree, t: Tree)
    requires Respects(s) && Respects(t) && Head(s) == Head(t) && Tail(s) == Tail(t)
    ensures s == t
  {
    if s.Node? && t.Node? {
      RootPosition(s);
      RootPosition(t);
      var p, q := |Tail(s.lhs)|, |Tail(t.lhs)|;
      assert p == q;
      RespectingTreeIsUnique(s.lhs, t.lhs);
      RespectingTreeIsUnique(s.rhs, t.rhs);
    }
  }

  /** Hence a tree is what the ladder makes of its reading, exactly when it respects levels
      and left association. */
  lemma LadderIsExact(t: Tree, links: seq<Link>)
    requires Tail(t) == Plain(links) && forall l <- links :: !Blocked(l)
    ensures Parse(LEVELS, Head(t), links) == (t, []) <==> Respects(t)
  {
    LadderMeaning(Head(t), links);
    var (p, rest) := Parse(LEVELS, Head(t), links);
    assert rest == [];
    assert links[..|links|] == links;
    if Respects(t) { RespectingTreeIsUnique(p, t); }
  }

  lemma LevelsFollowRules(op: Op)
    ensures |RULES| == LEVELS && Symbol(op) in RULES[Level(op)]
  {
  }

  /** Two operators, by the rules they are listed in: the first is applied first unless the
      second one's rule is tighter. */
  lemma TwoOperators(x: nat, a: Op, y: nat, b: Op, z: nat, i: nat, j: nat)
    requires i < |RULES| && j < |RULES| && Symbol(a) in RULES[i] && Symbol(b) in RULES[j]
    ensures Parse(LEVELS, x, [Link(false, a, y), Link(false, b, z)])
         == (if i <= j then Node(Node(Leaf(x), a, Leaf(y)), b, Leaf(z))
             else Node(Leaf(x), a, Node(Leaf(y), b, Leaf(z))), [])
  {
    RuleOf(a, i);
    RuleOf(b, j);
    var l, r := Node(Leaf(x), a, Leaf(y)), Node(Leaf(y), b, Leaf(z));
    var t := if i <= j then Node(l, b, Leaf(z)) else Node(Leaf(x), a, r);
    var links := [Link(false, a, y), Link(false, b, z)];
    assert Plain(links) == [(a, y), (b, z)];
    OneOperator(x, a, y, j + 1);
    OneOperator(y, b, z, i);
    LeafMeaning(x, []);
    LeafMeaning(z, []);
    assert Head(t) == x && Tail(t) == [(a, y), (b, z)];
    assert Below(Leaf(z), j) && Below(Leaf(x), i + 1);
    LadderIsExact(t, links);
  }

  lemma OneOperator(x: nat, a: Op, y: nat, k: nat)
    ensures var t := Node(Leaf(x), a, Leaf(y));
            Head(t) == x && Tail(t) == [(a, y)] && Respects(t) && (Below(t, k) <==> Level(a) < k)
  {
    assert Head(Leaf(x)) == x && Head(Leaf(y)) == y && Tail(Leaf(x)) == [] && Tail(Leaf(y)) == [];
    var t := Node(Leaf(x), a, Leaf(y));
    assert Below(Leaf(x), Level(a) + 1) && Below(Leaf(y), Level(a)) && Respects(Leaf(x)) && Respects(Leaf(y));
    assert Below(Leaf(x), k) && Below(Leaf(y), k);
    assert Tail(t) == Tail(Leaf(x)) + [(a, Head(Leaf(y)))] + Tail(Leaf(y));
  }

  /** Behind a newline only `+` and `-` are left to the next statement. */
  lemma NewlineStopsSigns(x: nat, op: Op, y: nat)
    ensures Parse(LEVELS, x, [Link(true, op, y)])
         == if Symbol(op) == "+" || Symbol(op) == "-" then (Leaf(x), [Link(true, op, y)])
            else (Node(Leaf(x), op, Leaf(y)), [])
  {
    hide Respects, Below;
    var links := [Link(true, op, y)];
    LadderMeaning(x, links);
    assert links[0..] == links && links[1..] == [] && Plain(links) == [(op, y)] && Plain(links[..0]) == [];
    OneOperator(x, op, y, 0);
    if Blocked(links[0]) {
      LeafMeaning(x, links);
      RespectingTreeIsUnique(Parse(LEVELS, x, links).0, Leaf(x));
    } else {
      LadderIsExact(Node(Leaf(x), op, Leaf(y)), links);
    }
  }

  lemma RuleOf(op: Op, i: nat)
    requires i < |RULES| && Symbol(op) in RULES[i]
    ensures Level(op) == i
  {
  }
}
