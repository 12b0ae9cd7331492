/**
 * Importing, as the C++ front end does it.
 *
 * A walk over the import graph, which may be cyclic, that merges every file reached into the
 * importing program. Files that were visited are not followed again.
 */
module Importer {

  type Path = string

  datatype Function = Function(name: string, id: nat)

  datatype Program = Program(imports: seq<string>, constants: seq<nat>, classes: seq<nat>, functions: seq<Function>)

  /** Where each import leads, if anywhere, and the files that can be read and parsed. */
  datatype Sources = Sources(find: map<string, Path>, programs: map<Path, Program>)

  /** On success the merged program and the files that were imported, in order. */
  datatype Result = Merged(program: Program, order: seq<Path>) | Failed

  // ---------- what is computed ----------

  function WithoutMain(fs: seq<Function>): seq<Function> {
    if fs == [] then []
    else (if fs[0].name == "main" then [] else [fs[0]]) + WithoutMain(fs[1..])
  }

  function Merge(l: Program, r: Program): Program {
    l.(constants := l.constants + r.constants, classes := l.classes + r.classes,
       functions := l.functions + WithoutMain(r.functions))
  }

  function Visited(xs: seq<Path>): set<Path> { set x <- xs }

  function Unvisited(s: Sources, visited: set<Path>): nat { |s.programs.Keys - visited| }

  lemma VisitShrinks(s: Sources, visited: set<Path>, more: set<Path>, p: Path)
    requires p in s.programs && p !in visited && p in more && visited <= more
    ensures Unvisited(s, more) < Unvisited(s, visited)
  {
    var a, b := s.programs.Keys - more, s.programs.Keys - visited;
    assert a <= b - {p};
    SubsetSize(a, b - {p});
  }

  lemma {:induction false} SubsetSize<T>(a: set<T>, b: set<T>)
    requires a <= b
    ensures |a| <= |b|
  {
    assert b == a + (b - a);
  }

  /** Follow the imports `texts`, merging into `program` what was not visited before. */
  function Follow(s: Sources, program: Program, texts: seq<string>, visited: set<Path>): (r: Result)
    decreases Unvisited(s, visited), |texts|
  {
    if texts == [] then Merged(program, [])
    else if texts[0] !in s.find then Failed
    else
      var p := s.find[texts[0]];
      if p in visited then Follow(s, program, texts[1..], visited)
      else if p !in s.programs then Failed
      else
        VisitShrinks(s, visited, visited + {p}, p);
        var sub := s.programs[p];
        match Follow(s, sub, sub.imports, visited + {p})
        case Failed => Failed
        case Merged(imported, order) =>
          var now := visited + {p} + Visited(order);
          VisitShrinks(s, visited, now, p);
          match Follow(s, Merge(program, imported), texts[1..], now)
          case Failed => Failed
          case Merged(all, rest) => Merged(all, [p] + order + rest)
  }

  /** Import everything a program needs that is stored in `file`. */
  function Import(s: Sources, program: Program, file: Path): Result {
    Follow(s, program, program.imports, {file})
  }

  // ---------- the importer as it runs ----------

  class ImporterImpl {
    const sources: Sources
    var alreadyImported: set<Path>
    ghost var order: seq<Path>

    constructor (sources: Sources)
      ensures this.sources == sources && alreadyImported == {} && order == []
    {
      this.sources := sources;
      alreadyImported, order := {}, [];
    }

    /** Walks the imports of `program`; `ok` is false where the original throws. */
    method Import(program: Program, file: Path) returns (merged: Program, ok: bool)
      modifies this
      ensures var r := Follow(sources, program, program.imports, old(alreadyImported) + {file});
              && ok == r.Merged?
              && (ok ==> merged == r.program && order == old(order) + r.order
                         && alreadyImported == old(alreadyImported) + {file} + Visited(r.order))
      decreases Unvisited(sources, alreadyImported + {file})
    {
      alreadyImported := alreadyImported + {file};
      merged := program;
      ghost var v0, done := alreadyImported, [];
      for i := 0 to |program.imports|
        invariant v0 == old(alreadyImported) + {file}
        invariant alreadyImported == v0 + Visited(done) && order == old(order) + done
        invariant Continued(Follow(sources, merged, program.imports[i..], alreadyImported), done)
               == Follow(sources, program, program.imports, v0)
      {
        hide Follow, Continued, Visited, Merge, Unvisited;
        FollowUnfolds(sources, merged, program.imports[i..], alreadyImported, done);
        var text := program.imports[i];
        assert program.imports[i..][1..] == program.imports[i + 1..];
        if text !in sources.find { return merged, false; }
        var p := sources.find[text];
        if p in alreadyImported { continue; }
        if p !in sources.programs { return merged, false; }
        VisitShrinks(sources, v0, alreadyImported + {p}, p);
        ghost var before := alreadyImported;
        var imported, done1 := Import(sources.programs[p], p);
        if !done1 { return merged, false; }
        merged := Merge(merged, imported);
        ghost var inner := [p] + Follow(sources, sources.programs[p], sources.programs[p].imports, before + {p}).order;
        VisitedAppend(done, inner);
        VisitedAppend([p], inner[1..]);
        done := done + inner;
        order := old(order) + done;
      }
      FollowUnfolds(sources, merged, [], alreadyImported, done);
      ok := true;
    }
  }

  /** The result with what was imported before put in front. */
  ghost function Continued(r: Result, done: seq<Path>): Result {
    if r.Merged? then r.(order := done + r.order) else r
  }

  lemma VisitedAppend(a: seq<Path>, b: seq<Path>)
    ensures Visited(a + b) == Visited(a) + Visited(b) && Visited([]) == {}
    ensures forall p :: Visited([p]) == {p}
  {
  }

  /** One import of the walk. */
  lemma FollowUnfolds(s: Sources, program: Program, texts: seq<string>, visited: set<Path>, done: seq<Path>)
    ensures var r := Continued(Follow(s, program, texts, visited), done);
            if texts == [] then r == Merged(program, done)
            else if texts[0] !in s.find then r.Failed?
            else
              var p := s.find[texts[0]];
              if p in visited then r == Continued(Follow(s, program, texts[1..], visited), done)
              else if p !in s.programs then r.Failed?
              else
                var sub := Follow(s, s.programs[p], s.programs[p].imports, visited + {p});
                if sub.Failed? then r.Failed?
                else r == Continued(Follow(s, Merge(program, sub.program), texts[1..],
                                           visited + {p} + Visited(sub.order)), done + ([p] + sub.order))
  {
    if texts != [] && texts[0] in s.find {
      var p := s.find[texts[0]];
      if p !in visited && p in s.programs {
        var sub := Follow(s, s.programs[p], s.programs[p].imports, visited + {p});
        if sub.Merged? {
          var rest := Follow(s, Merge(program, sub.program), texts[1..], visited + {p} + Visited(sub.order));
          if rest.Merged? {
            assert done + ([p] + sub.order + rest.order) == done + ([p] + sub.order) + rest.order;
          }
        }
      }
    }
  }
}
