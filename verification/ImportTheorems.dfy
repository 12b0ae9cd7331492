/** Importing reaches exactly the files it should and keeps every definition once. */
module ImportTheorems {
  import opened Importer

  // ---------- the import graph ----------

  /** A way through the imports, starting with one of `texts`. */
  ghost predicate IsWay(s: Sources, texts: seq<string>, way: seq<Path>)
    decreases way
  {
    && way != []
    && (exists t <- texts :: t in s.find && s.find[t] == way[0])
    && (|way| > 1 ==> way[0] in s.programs && IsWay(s, s.programs[way[0]].imports, way[1..]))
  }

  ghost predicate Reachable(s: Sources, texts: seq<string>, p: Path) {
    exists way :: IsWay(s, texts, way) && way[|way| - 1] == p
  }

  lemma ReachableDirectly(s: Sources, texts: seq<string>, t: string)
    requires t in texts && t in s.find
    ensures Reachable(s, texts, s.find[t])
  {
    var way := [s.find[t]];
    assert IsWay(s, texts, way) && way[|way| - 1] == s.find[t];
  }

  lemma ReachableThrough(s: Sources, texts: seq<string>, t: string, p: Path)
    requires t in texts && t in s.find && s.find[t] in s.programs
    requires Reachable(s, s.programs[s.find[t]].imports, p)
    ensures Reachable(s, texts, p)
  {
    var way :| IsWay(s, s.programs[s.find[t]].imports, way) && way[|way| - 1] == p;
    var longer := [s.find[t]] + way;
    assert longer[1..] == way;
    assert IsWay(s, texts, longer) && longer[|longer| - 1] == p;
  }

  lemma ReachableMore(s: Sources, texts: seq<string>, more: seq<string>, p: Path)
    requires Reachable(s, texts, p) && forall t <- texts :: t in more
    ensures Reachable(s, more, p)
  {
    var way :| IsWay(s, texts, way) && way[|way| - 1] == p;
    assert IsWay(s, more, way);
  }

  // ---------- what a walk visits ----------

  ghost predicate Distinct(xs: seq<Path>) {
    forall i, j :: 0 <= i < j < |xs| ==> xs[i] != xs[j]
  }

  /** Every import of the program stored in `p` leads into `visited`. */
  ghost predicate Covered(s: Sources, texts: seq<string>, visited: set<Path>) {
    forall t <- texts :: t in s.find && s.find[t] in visited
  }

  /** What a successful walk has done: it imported files it had not visited, each once, all
      of them reachable, and left no import of these files unresolved or unvisited. */
  ghost predicate Explored(s: Sources, texts: seq<string>, visited: set<Path>, order: seq<Path>) {
    && Distinct(order) && Visited(order) !! visited
    && Covered(s, texts, visited + Visited(order))
    && forall p <- order ::
         p in s.programs && Reachable(s, texts, p) && Covered(s, s.programs[p].imports, visited + Visited(order))
  }

  /** A successful walk that starts with an import into an unvisited file, taken apart. */
  lemma FollowOnce(s: Sources, program: Program, texts: seq<string>, visited: set<Path>)
    requires texts != [] && Follow(s, program, texts, visited).Merged?
    ensures texts[0] in s.find
    ensures s.find[texts[0]] in visited ==>
              Follow(s, program, texts, visited) == Follow(s, program, texts[1..], visited)
    ensures s.find[texts[0]] !in visited ==>
              var p := s.find[texts[0]];
              && p in s.programs
              && var inner := Follow(s, s.programs[p], s.programs[p].imports, visited + {p});
              && inner.Merged?
              && var last := Follow(s, Merge(program, inner.program), texts[1..], visited + {p} + Visited(inner.order));
              && last.Merged?
              && Follow(s, program, texts, visited) == Merged(last.program, [p] + inner.order + last.order)
  {
  }

  lemma {:induction false} FollowExplores(s: Sources, program: Program, texts: seq<string>, visited: set<Path>)
    requires Follow(s, program, texts, visited).Merged?
    ensures Explored(s, texts, visited, Follow(s, program, texts, visited).order)
    decreases Unvisited(s, visited), |texts|
  {
    if texts != [] {
      FollowOnce(s, program, texts, visited);
      hide Follow, Explored, Visited, Merge;
      var p := s.find[texts[0]];
      if p in visited {
        FollowExplores(s, program, texts[1..], visited);
        ExploredMore(s, texts[1..], texts, visited, Follow(s, program, texts[1..], visited).order);
      } else {
        var sub := s.programs[p];
        var inner := Follow(s, sub, sub.imports, visited + {p});
        var now := visited + {p} + Visited(inner.order);
        VisitShrinks(s, visited, visited + {p}, p);
        VisitShrinks(s, visited, now, p);
        FollowExplores(s, sub, sub.imports, visited + {p});
        FollowExplores(s, Merge(program, inner.program), texts[1..], now);
        JoinExplored(s, texts, visited, inner.order, Follow(s, Merge(program, inner.program), texts[1..], now).order);
      }
    }
  }

  lemma ExploredMore(s: Sources, texts: seq<string>, more: seq<string>, visited: set<Path>, order: seq<Path>)
    requires Explored(s, texts, visited, order) && more != [] && more[1..] == texts
    requires more[0] in s.find && s.find[more[0]] in visited
    ensures Explored(s, more, visited, order)
  {
    assert forall t <- more :: t == more[0] || t in texts;
    forall p <- order ensures Reachable(s, more, p) { ReachableMore(s, texts, more, p); }
  }

  /** A new file, what it imports, and what the remaining imports bring. */
  lemma JoinExplored(s: Sources, texts: seq<string>, visited: set<Path>, inner: seq<Path>, last: seq<Path>)
    requires texts != [] && texts[0] in s.find && s.find[texts[0]] in s.programs && s.find[texts[0]] !in visited
    requires var p := s.find[texts[0]];
             && Explored(s, s.programs[p].imports, visited + {p}, inner)
             && Explored(s, texts[1..], visited + {p} + Visited(inner), last)
    ensures Explored(s, texts, visited, [s.find[texts[0]]] + inner + last)
  {
    var p := s.find[texts[0]];
    var order := [p] + inner + last;
    assert Visited(order) == {p} + Visited(inner) + Visited(last);
    forall i, j | 0 <= i < j < |order| ensures order[i] != order[j] {
      assert i == 0 ==> order[i] == p;
      assert 1 <= i <= |inner| ==> order[i] == inner[i - 1] && order[i] in Visited(inner);
      assert i > |inner| ==> order[i] == last[i - 1 - |inner|];
      assert 1 <= j <= |inner| ==> order[j] == inner[j - 1] && order[j] in Visited(inner);
      assert j > |inner| ==> order[j] == last[j - 1 - |inner|] && order[j] in Visited(last);
    }
    forall t <- texts ensures t in s.find && s.find[t] in visited + Visited(order) {
      assert t == texts[0] || t in texts[1..];
    }
    forall q <- order
      ensures q in s.programs && Reachable(s, texts, q) && Covered(s, s.programs[q].imports, visited + Visited(order))
    {
      if q == p {
        ReachableDirectly(s, texts, texts[0]);
      } else if q in inner {
        ReachableThrough(s, texts, texts[0], q);
      } else {
        ReachableMore(s, texts[1..], texts, q);
      }
    }
  }

  // ---------- closure ----------

  lemma {:induction false} WaysStayInside(s: Sources, program: Program, file: Path, visited: set<Path>,
                                          texts: seq<string>, way: seq<Path>)
    requires file in s.programs ==> s.programs[file] == program
    requires Covered(s, program.imports, visited) && Covered(s, texts, visited)
    requires forall p <- visited :: p != file ==> p in s.programs && Covered(s, s.programs[p].imports, visited)
    requires IsWay(s, texts, way)
    ensures way[|way| - 1] in visited
    decreases way
  {
    if |way| > 1 { WaysStayInside(s, program, file, visited, s.programs[way[0]].imports, way[1..]); }
  }

  /** On success, the files visited are the importing file and all that can be reached from
      it, over however many and however circular imports, each imported once. */
  lemma ImportIsClosure(s: Sources, program: Program, file: Path)
    requires file in s.programs ==> s.programs[file] == program
    requires Import(s, program, file).Merged?
    ensures var order := Import(s, program, file).order;
            && Distinct(order) && file !in order
            && forall p :: p in {file} + Visited(order) <==> p == file || Reachable(s, program.imports, p)
  {
    FollowExplores(s, program, program.imports, {file});
    var order := Import(s, program, file).order;
    var visited := {file} + Visited(order);
    assert forall p <- visited :: p == file || p in order;
    forall p | Reachable(s, program.imports, p) ensures p in visited {
      var way :| IsWay(s, program.imports, way) && way[|way| - 1] == p;
      WaysStayInside(s, program, file, visited, program.imports, way);
    }
  }

  // ---------- success ----------

  /** Every import found, and its file readable unless it is the importing file itself. */
  ghost predicate Resolvable(s: Sources, texts: seq<string>, file: Path) {
    forall t <- texts :: t in s.find && (s.find[t] == file || s.find[t] in s.programs)
  }

  ghost predicate AllResolvable(s: Sources, texts: seq<string>, file: Path) {
    && Resolvable(s, texts, file)
    && forall p :: Reachable(s, texts, p) && p in s.programs ==> Resolvable(s, s.programs[p].imports, file)
  }

  lemma {:induction false} FollowSucceeds(s: Sources, program: Program, texts: seq<string>, visited: set<Path>,
                                          file: Path)
    requires file in visited && AllResolvable(s, texts, file)
    ensures Follow(s, program, texts, visited).Merged?
    decreases Unvisited(s, visited), |texts|
  {
    FollowUnfolds(s, program, texts, visited, []);
    if texts != [] {
      var p := s.find[texts[0]];
      assert AllResolvable(s, texts[1..], file) by {
        forall q | Reachable(s, texts[1..], q) && q in s.programs ensures Resolvable(s, s.programs[q].imports, file) {
          ReachableMore(s, texts[1..], texts, q);
        }
      }
      if p in visited {
        FollowSucceeds(s, program, texts[1..], visited, file);
      } else {
        var sub := s.programs[p];
        assert AllResolvable(s, sub.imports, file) by {
          ReachableDirectly(s, texts, texts[0]);
          forall q | Reachable(s, sub.imports, q) && q in s.programs
            ensures Resolvable(s, s.programs[q].imports, file) {
            ReachableThrough(s, texts, texts[0], q);
          }
        }
        VisitShrinks(s, visited, visited + {p}, p);
        FollowSucceeds(s, sub, sub.imports, visited + {p}, file);
        var inner := Follow(s, sub, sub.imports, visited + {p});
        var now := visited + {p} + Visited(inner.order);
        VisitShrinks(s, visited, now, p);
        FollowSucceeds(s, Merge(program, inner.program), texts[1..], now, file);
      }
    }
  }

  /** Importing succeeds exactly when every import in every reachable file can be resolved. */
  lemma ImportSucceedsExactly(s: Sources, program: Program, file: Path)
    requires file in s.programs ==> s.programs[file] == program
    ensures Import(s, program, file).Merged? <==> AllResolvable(s, program.imports, file)
  {
    if Import(s, program, file).Merged? {
      ImportIsClosure(s, program, file);
      FollowExplores(s, program, program.imports, {file});
      var order := Import(s, program, file).order;
      assert forall p <- {file} + Visited(order) :: p == file || p in s.programs;
      forall p | Reachable(s, program.imports, p) && p in s.programs
        ensures Resolvable(s, s.programs[p].imports, file)
      {
        assert p == file || p in order;
      }
    }
    if AllResolvable(s, program.imports, file) {
      FollowSucceeds(s, program, program.imports, {file}, file);
    }
  }

  // ---------- conservation ----------

  function Constants(s: Sources, order: seq<Path>): seq<nat>
    requires forall p <- order :: p in s.programs
  {
    if order == [] then [] else s.programs[order[0]].constants + Constants(s, order[1..])
  }

  function Classes(s: Sources, order: seq<Path>): seq<nat>
    requires forall p <- order :: p in s.programs
  {
    if order == [] then [] else s.programs[order[0]].classes + Classes(s, order[1..])
  }

  function Functions(s: Sources, order: seq<Path>): seq<Function>
    requires forall p <- order :: p in s.programs
  {
    if order == [] then [] else s.programs[order[0]].functions + Functions(s, order[1..])
  }

  lemma {:induction false} ConstantsAppend(s: Sources, a: seq<Path>, b: seq<Path>)
    requires (forall p <- a :: p in s.programs) && (forall p <- b :: p in s.programs)
    ensures Constants(s, a + b) == Constants(s, a) + Constants(s, b)
    decreases a
  {
    if a == [] {
      assert a + b == b;
    } else {
      assert (a + b)[0] == a[0] && (a + b)[1..] == a[1..] + b;
      ConstantsAppend(s, a[1..], b);
    }
  }

  lemma {:induction false} ClassesAppend(s: Sources, a: seq<Path>, b: seq<Path>)
    requires (forall p <- a :: p in s.programs) && (forall p <- b :: p in s.programs)
    ensures Classes(s, a + b) == Classes(s, a) + Classes(s, b)
    decreases a
  {
    if a == [] {
      assert a + b == b;
    } else {
      assert (a + b)[0] == a[0] && (a + b)[1..] == a[1..] + b;
      ClassesAppend(s, a[1..], b);
    }
  }

  lemma {:induction false} FunctionsAppend(s: Sources, a: seq<Path>, b: seq<Path>)
    requires (forall p <- a :: p in s.programs) && (forall p <- b :: p in s.programs)
    ensures Functions(s, a + b) == Functions(s, a) + Functions(s, b)
    decreases a
  {
    if a == [] {
      assert a + b == b;
    } else {
      assert (a + b)[0] == a[0] && (a + b)[1..] == a[1..] + b;
      FunctionsAppend(s, a[1..], b);
    }
  }

  lemma DefinitionsAppend(s: Sources, a: seq<Path>, b: seq<Path>)
    requires forall p <- a + b :: p in s.programs
    ensures (forall p <- a :: p in s.programs) && (forall p <- b :: p in s.programs)
    ensures Constants(s, a + b) == Constants(s, a) + Constants(s, b)
    ensures Classes(s, a + b) == Classes(s, a) + Classes(s, b)
    ensures Functions(s, a + b) == Functions(s, a) + Functions(s, b)
  {
    assert forall p <- a :: p in a + b;
    assert forall p <- b :: p in a + b;
    ConstantsAppend(s, a, b);
    ClassesAppend(s, a, b);
    FunctionsAppend(s, a, b);
  }

  lemma {:induction false} WithoutMainAppend(a: seq<Function>, b: seq<Function>)
    ensures WithoutMain(a + b) == WithoutMain(a) + WithoutMain(b)
    decreases a
  {
    if a == [] {
      assert a + b == b;
    } else {
      assert (a + b)[1..] == a[1..] + b;
      WithoutMainAppend(a[1..], b);
    }
  }

  lemma {:induction false} WithoutMainTwice(a: seq<Function>)
    ensures WithoutMain(WithoutMain(a)) == WithoutMain(a)
    decreases a
  {
    if a != [] {
      WithoutMainTwice(a[1..]);
      if a[0].name != "main" {
        assert WithoutMain(a)[1..] == WithoutMain(a[1..]);
      } else {
        assert WithoutMain(a) == WithoutMain(a[1..]);
      }
    }
  }

  /** `r` holds the definitions of `program` and, behind them, those of the files of `order`,
      in that order, with the functions filtered. */
  ghost predicate Holds(s: Sources, program: Program, order: seq<Path>, r: Program) {
    && (forall p <- order :: p in s.programs)
    && r.constants == program.constants + Constants(s, order)
    && r.classes == program.classes + Classes(s, order)
    && r.functions == program.functions + WithoutMain(Functions(s, order))
    && r.imports == program.imports
  }

  lemma JoinHolds(s: Sources, program: Program, p: Path, inner: seq<Path>, last: seq<Path>,
                  imported: Program, r: Program)
    requires p in s.programs && Holds(s, s.programs[p], inner, imported)
    requires Holds(s, Merge(program, imported), last, r)
    ensures Holds(s, program, [p] + inner + last, r)
  {
    DefinitionsAppend(s, [p], inner);
    DefinitionsAppend(s, [p] + inner, last);
    OneFile(s, p);
    hide Constants, Classes, Functions, WithoutMain;
    BroughtIn(s.programs[p].functions, Functions(s, inner));
    WithoutMainAppend(Functions(s, [p] + inner), Functions(s, last));
    Regroup(program.constants, Constants(s, [p] + inner), Constants(s, last));
    Regroup(program.classes, Classes(s, [p] + inner), Classes(s, last));
    Regroup(program.functions, WithoutMain(Functions(s, [p] + inner)), WithoutMain(Functions(s, last)));
  }

  lemma OneFile(s: Sources, p: Path)
    requires p in s.programs
    ensures Constants(s, [p]) == s.programs[p].constants
    ensures Classes(s, [p]) == s.programs[p].classes
    ensures Functions(s, [p]) == s.programs[p].functions
  {
  }

  /** Filtering what a file brings in filters that once more. */
  lemma BroughtIn(own: seq<Function>, imported: seq<Function>)
    ensures WithoutMain(own + WithoutMain(imported)) == WithoutMain(own + imported)
  {
    WithoutMainAppend(own, WithoutMain(imported));
    WithoutMainAppend(own, imported);
    WithoutMainTwice(imported);
  }

  lemma Regroup<T>(a: seq<T>, b: seq<T>, c: seq<T>)
    ensures a + (b + c) == a + b + c
  {
  }

  lemma {:induction false} FollowHolds(s: Sources, program: Program, texts: seq<string>, visited: set<Path>)
    requires Follow(s, program, texts, visited).Merged?
    ensures var r := Follow(s, program, texts, visited); Holds(s, program, r.order, r.program)
    decreases Unvisited(s, visited), |texts|
  {
    if texts != [] {
      FollowOnce(s, program, texts, visited);
      hide Follow, Holds, Visited, Merge;
      var p := s.find[texts[0]];
      if p in visited {
        FollowHolds(s, program, texts[1..], visited);
      } else {
        var sub := s.programs[p];
        var inner := Follow(s, sub, sub.imports, visited + {p});
        var now := visited + {p} + Visited(inner.order);
        VisitShrinks(s, visited, visited + {p}, p);
        VisitShrinks(s, visited, now, p);
        FollowHolds(s, sub, sub.imports, visited + {p});
        FollowHolds(s, Merge(program, inner.program), texts[1..], now);
        var last := Follow(s, Merge(program, inner.program), texts[1..], now);
        JoinHolds(s, program, p, inner.order, last.order, inner.program, last.program);
      }
    }
  }

  // ---------- which functions are kept ----------

  /** How many of the first `i` functions are not named `main`. */
  ghost function Others(fs: seq<Function>, i: nat): nat
    requires i <= |fs|
  {
    |set k | 0 <= k < i && fs[k].name != "main"|
  }

  /** `kept` is `all` without the functions named `main`: each other one stands behind as many
      functions as before, those named `main` not counted. */
  ghost predicate AllButMain(all: seq<Function>, kept: seq<Function>) {
    && |kept| == Others(all, |all|)
    && forall i :: 0 <= i < |all| && all[i].name != "main" ==>
         Others(all, i) < |kept| && kept[Others(all, i)] == all[i]
  }

  lemma OneMoreOther(fs: seq<Function>, i: nat)
    requires i < |fs|
    ensures Others(fs, i + 1) == Others(fs, i) + if fs[i].name == "main" then 0 else 1
  {
    var before := set k | 0 <= k < i && fs[k].name != "main";
    var now := set k | 0 <= k < i + 1 && fs[k].name != "main";
    assert now == if fs[i].name == "main" then before else before + {i};
  }

  lemma {:induction false} FewerOthers(fs: seq<Function>, i: nat, j: nat)
    requires i <= j <= |fs|
    ensures Others(fs, i) <= Others(fs, j)
    decreases j - i
  {
    if i < j {
      OneMoreOther(fs, i);
      FewerOthers(fs, i + 1, j);
    }
  }

  lemma OthersOfPrefix(fs: seq<Function>, n: nat, i: nat)
    requires i <= n <= |fs|
    ensures Others(fs[..n], i) == Others(fs, i)
  {
    assert (set k | 0 <= k < i && fs[..n][k].name != "main") == (set k | 0 <= k < i && fs[k].name != "main");
  }

  /** What the filter leaves: everything not named `main`, in the old order. */
  lemma {:induction false} FilterKeepsOrder(fs: seq<Function>)
    ensures AllButMain(fs, WithoutMain(fs))
    decreases |fs|
  {
    if fs != [] {
      hide Others, WithoutMain;
      var n := |fs| - 1;
      var init, kept := fs[..n], WithoutMain(fs);
      FilterKeepsOrder(init);
      assert fs == init + [fs[n]];
      WithoutMainAppend(init, [fs[n]]);
      WithoutMainOfOne(fs[n]);
      OneMoreOther(fs, n);
      OthersOfPrefix(fs, n, n);
      forall i | 0 <= i < |fs| && fs[i].name != "main" ensures Others(fs, i) < |kept| && kept[Others(fs, i)] == fs[i] {
        OthersOfPrefix(fs, n, i);
        if i < n { assert init[i] == fs[i]; }
      }
    }
  }

  lemma WithoutMainOfOne(f: Function)
    ensures WithoutMain([f]) == if f.name == "main" then [] else [f]
  {
  }

  lemma {:induction false} FilterKeepsMultiplicity(fs: seq<Function>, f: Function)
    ensures multiset(WithoutMain(fs))[f] == if f.name == "main" then 0 else multiset(fs)[f]
    decreases fs
  {
    if fs != [] {
      assert fs == [fs[0]] + fs[1..];
      FilterKeepsMultiplicity(fs[1..], f);
    }
  }

  /** Conservation: since `order` names each imported file once, every definition of every
      imported file is in the merged program exactly once, behind those of `program` and in the
      order of the files; only functions named `main` are not taken over. */
  lemma ImportConserves(s: Sources, program: Program, texts: seq<string>, visited: set<Path>)
    requires Follow(s, program, texts, visited).Merged?
    ensures var r := Follow(s, program, texts, visited);
            var n := |program.functions|;
            && (forall p <- r.order :: p in s.programs)
            && r.program.constants == program.constants + Constants(s, r.order)
            && r.program.classes == program.classes + Classes(s, r.order)
            && r.program.imports == program.imports
            && n <= |r.program.functions| && r.program.functions[..n] == program.functions
            && AllButMain(Functions(s, r.order), r.program.functions[n..])
            && forall f: Function ::
                 multiset(r.program.functions)[f] == multiset(program.functions)[f]
                   + if f.name == "main" then 0 else multiset(Functions(s, r.order))[f]
  {
    var r := Follow(s, program, texts, visited);
    FollowHolds(s, program, texts, visited);
    hide Follow;
    var kept := WithoutMain(Functions(s, r.order));
    assert r.program.functions[|program.functions|..] == kept;
    FilterKeepsOrder(Functions(s, r.order));
    forall f: Function
      ensures multiset(kept)[f] == if f.name == "main" then 0 else multiset(Functions(s, r.order))[f]
    {
      FilterKeepsMultiplicity(Functions(s, r.order), f);
    }
  }
}
