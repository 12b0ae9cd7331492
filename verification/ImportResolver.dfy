/** Import resolution with one library path: every program found is parsed once, and cached first. */
module ImportResolver {

  type Path = string

  datatype Import = Import(local: bool, parents: seq<string>, imported: seq<string>)

  datatype Location = Nowhere | InFile(path: Path)

  /** The files that can be read and parsed, and the one file an import in a file means. */
  datatype Files = Files(imports: map<Path, seq<Import>>, locate: (Path, Import) -> Location)

  /** A module names what it exposes and points at a program. */
  datatype Module = Module(nameSpace: string, names: seq<string>, exposeAll: bool, program: nat)

  datatype Program = Program(file: Path, exists_: bool, imports: seq<Import>, modules: seq<Module>)

  /** The cache and the programs it points at. */
  datatype State = State(parsed: map<Path, nat>, programs: seq<Program>)

  datatype Result = Resolved(st: State) | Failed

  /** `import foo.*` makes `foo` a namespace of all names. */
  function ModuleFor(i: Import, program: nat): Module {
    if i.imported != [] && i.imported[0] == "*" && i.parents != []
    then Module(i.parents[|i.parents| - 1], [], true, program)
    else Module("", i.imported, false, program)
  }

  function AddModule(st: State, id: nat, m: Module): State
    requires id < |st.programs|
  {
    st.(programs := st.programs[id := st.programs[id].(modules := st.programs[id].modules + [m])])
  }

  function Uncached(fs: Files, st: State): nat { |fs.imports.Keys - st.parsed.Keys| }

  lemma CachingShrinks(fs: Files, st: State, later: State, p: Path)
    requires p in fs.imports && p !in st.parsed && p in later.parsed && st.parsed.Keys <= later.parsed.Keys
    ensures Uncached(fs, later) < Uncached(fs, st)
  {
    var a, b := fs.imports.Keys - later.parsed.Keys, fs.imports.Keys - st.parsed.Keys;
    assert p in b && p !in a && a <= b;
    assert b == a + (b - a) && p in b - a;
  }

  function Parsed(fs: Files, st: State, p: Path): State
    requires p in fs.imports
  {
    State(st.parsed[p := |st.programs|], st.programs + [Program(p, true, fs.imports[p], [])])
  }

  /** The cache and the programs only grow, and the text of a program stays. */
  ghost predicate Extends(st: State, later: State) {
    && st.parsed.Keys <= later.parsed.Keys && |st.programs| <= |later.programs|
    && forall n :: 0 <= n < |st.programs| ==>
         later.programs[n].file == st.programs[n].file && later.programs[n].imports == st.programs[n].imports
  }

  lemma ExtendsAlong(a: State, b: State, c: State)
    ensures Extends(a, b) && Extends(b, c) ==> Extends(a, c)
  {
  }

  lemma StepsExtend(fs: Files, st: State, id: nat, m: Module, p: Path)
    requires id < |st.programs|
    ensures Extends(st, AddModule(st, id, m))
    ensures p in fs.imports ==> Extends(st, Parsed(fs, st, p)) && p in Parsed(fs, st, p).parsed
  {
  }

  /** Resolve the imports of program `id` from number `k` on. */
  function ResolveFrom(fs: Files, st: State, id: nat, k: nat): (r: Result)
    requires id < |st.programs| && k <= |st.programs[id].imports|
    ensures r.Resolved? ==> Extends(st, r.st)
    decreases Uncached(fs, st), |st.programs[id].imports| - k
  {
    var self := st.programs[id];
    if k == |self.imports| then Resolved(st)
    else
      var i := self.imports[k];
      match fs.locate(self.file, i)
      case Nowhere => Failed
      case InFile(p) =>
        if p == self.file then Failed
        else if p in st.parsed then
          var next := AddModule(st, id, ModuleFor(i, st.parsed[p]));
          var r := ResolveFrom(fs, next, id, k + 1);
          StepsExtend(fs, st, id, ModuleFor(i, st.parsed[p]), p);
          if r.Resolved? then ExtendsAlong(st, next, r.st); r else r
        else if p !in fs.imports then Failed
        else
          var st1 := Parsed(fs, st, p);
          StepsExtend(fs, st, id, ModuleFor(i, 0), p);
          CachingShrinks(fs, st, st1, p);
          match ResolveFrom(fs, st1, |st.programs|, 0)
          case Failed => Failed
          case Resolved(st2) =>
            ExtendsAlong(st, st1, st2);
            CachingShrinks(fs, st, st2, p);
            var next := AddModule(st2, id, ModuleFor(i, |st.programs|));
            StepsExtend(fs, st2, id, ModuleFor(i, |st.programs|), p);
            ExtendsAlong(st, st2, next);
            var r := ResolveFrom(fs, next, id, k + 1);
            if r.Resolved? then ExtendsAlong(st, next, r.st); r else r
  }

  /** One import of the resolution. */
  lemma ResolveUnfolds(fs: Files, st: State, id: nat, k: nat)
    requires id < |st.programs| && k <= |st.programs[id].imports|
    ensures var self, r := st.programs[id], ResolveFrom(fs, st, id, k);
            if k == |self.imports| then r == Resolved(st)
            else
              var at := fs.locate(self.file, self.imports[k]);
              if at.Nowhere? || at.path == self.file then r == Failed
              else if at.path in st.parsed then
                r == ResolveFrom(fs, AddModule(st, id, ModuleFor(self.imports[k], st.parsed[at.path])), id, k + 1)
              else if at.path !in fs.imports then r == Failed
              else
                var sub := ResolveFrom(fs, Parsed(fs, st, at.path), |st.programs|, 0);
                if sub.Failed? then r == Failed
                else
                  && id < |sub.st.programs| && sub.st.programs[id].file == self.file
                  && sub.st.programs[id].imports == self.imports && st.parsed.Keys <= sub.st.parsed.Keys
                  && r == ResolveFrom(fs, AddModule(sub.st, id, ModuleFor(self.imports[k], |st.programs|)), id, k + 1)
  {
    var self := st.programs[id];
    if k < |self.imports| {
      var at := fs.locate(self.file, self.imports[k]);
      if at.InFile? && at.path in fs.imports && at.path !in st.parsed {
        assert Parsed(fs, st, at.path).programs[id] == self;
      }
    }
  }

  /** The root is cached too, unless it is no file. */
  function Start(root: Program): State {
    State(if root.exists_ then map[root.file := 0] else map[], [root])
  }

  function ResolveImports(fs: Files, root: Program): Result {
    ResolveFrom(fs, Start(root), 0, 0)
  }

  // ---------- the resolver as it runs ----------

  class Resolver {
    const files: Files
    var parsedAST: map<Path, nat>
    var programs: seq<Program>

    function Now(): State
      reads `parsedAST, `programs
    {
      State(parsedAST, programs)
    }

    constructor (files: Files, root: Program)
      ensures this.files == files && Now() == State(map[], [root])
    {
      this.files := files;
      parsedAST, programs := map[], [root];
    }

    /** Cache program `id`, then resolve its imports one by one, appending the modules. */
    method Resolve(id: nat) returns (ok: bool)
      requires id < |programs|
      modifies this
      ensures var p := old(programs[id]);
              var start := if p.exists_ then old(Now()).(parsed := old(parsedAST)[p.file := id]) else old(Now());
              var r := ResolveFrom(files, start, id, 0);
              ok == r.Resolved? && (ok ==> Now() == r.st)
      decreases Uncached(files, if programs[id].exists_ then Now().(parsed := parsedAST[programs[id].file := id])
                                else Now())
    {
      hide ResolveFrom, Uncached, ModuleFor;
      var self := programs[id];
      if self.exists_ { parsedAST := parsedAST[self.file := id]; }
      ghost var start := Now();
      for k := 0 to |self.imports|
        invariant id < |programs| && programs[id].file == self.file && programs[id].imports == self.imports
        invariant start.parsed.Keys <= parsedAST.Keys
        invariant ResolveFrom(files, Now(), id, k) == ResolveFrom(files, start, id, 0)
      {
        ResolveUnfolds(files, Now(), id, k);
        var i := self.imports[k];
        var at := files.locate(self.file, i);
        if at.Nowhere? || at.path == self.file { return false; }
        var p := at.path;
        if p in parsedAST {
          programs := AddModule(Now(), id, ModuleFor(i, parsedAST[p])).programs;
          continue;
        }
        if p !in files.imports { return false; }
        var sub := |programs|;
        CachingShrinks(files, start, Parsed(files, Now(), p), p);
        programs := programs + [Program(p, true, files.imports[p], [])];
        var done := Resolve(sub);
        if !done { return false; }
        programs := AddModule(Now(), id, ModuleFor(i, sub)).programs;
      }
      ResolveUnfolds(files, Now(), id, |self.imports|);
      ok := true;
    }
  }

  // ---------- what resolution achieves ----------

  /** The cache and the programs agree, so no existing file is parsed twice. */
  ghost predicate Consistent(st: State) {
    && (forall p <- st.parsed :: st.parsed[p] < |st.programs|
          && st.programs[st.parsed[p]].file == p && st.programs[st.parsed[p]].exists_)
    && (forall n :: 0 <= n < |st.programs| && st.programs[n].exists_ ==>
          st.programs[n].file in st.parsed && st.parsed[st.programs[n].file] == n)
  }

  /** The module is what the import asks for: everything under the name of the file, if `*` is
      imported, and else the listed names without a namespace. */
  predicate Serves(m: Module, i: Import) {
    if |i.imported| > 0 && i.imported[0] == "*" && |i.parents| > 0 then
      m.exposeAll && |m.names| == 0 && m.nameSpace == i.parents[|i.parents| - 1]
    else !m.exposeAll && m.names == i.imported && m.nameSpace == ""
  }

  /** Import `j` of program `n` has its module, pointing at the cached program. */
  ghost predicate HasModule(fs: Files, st: State, n: nat, j: nat)
    requires n < |st.programs| && j < |st.programs[n].imports|
  {
    var p := st.programs[n];
    && j < |p.modules|
    && var at := fs.locate(p.file, p.imports[j]);
    && at.InFile? && at.path in st.parsed
    && p.modules[j].program == st.parsed[at.path] && Serves(p.modules[j], p.imports[j])
  }

  /** The first `k` imports have their modules, one for each and in order. */
  ghost predicate DoneUpTo(fs: Files, st: State, n: nat, k: nat)
    requires n < |st.programs|
  {
    && |st.programs[n].modules| == k <= |st.programs[n].imports|
    && forall j :: 0 <= j < k ==> HasModule(fs, st, n, j)
  }

  ghost predicate Complete(fs: Files, st: State, n: nat)
    requires n < |st.programs|
  {
    DoneUpTo(fs, st, n, |st.programs[n].imports|)
  }

  /** `later` keeps the cache and all programs of `st` but the modules of program `id`. */
  ghost predicate Keeps(st: State, later: State, id: nat) {
    && |st.programs| <= |later.programs|
    && (forall p <- st.parsed :: p in later.parsed && later.parsed[p] == st.parsed[p])
    && (forall n :: 0 <= n < |st.programs| && n != id ==> later.programs[n] == st.programs[n])
  }

  lemma DoneStays(fs: Files, st: State, later: State, id: nat, n: nat, k: nat)
    requires n < |st.programs| && n != id && Keeps(st, later, id) && DoneUpTo(fs, st, n, k)
    ensures DoneUpTo(fs, later, n, k)
  {
    forall j | 0 <= j < k ensures HasModule(fs, later, n, j) { assert HasModule(fs, st, n, j); }
  }

  lemma OneMore(fs: Files, st: State, id: nat, k: nat, target: nat)
    requires id < |st.programs| && DoneUpTo(fs, st, id, k) && k < |st.programs[id].imports|
    requires var self := st.programs[id];
             var at := fs.locate(self.file, self.imports[k]);
             at.InFile? && at.path in st.parsed && st.parsed[at.path] == target
    requires Consistent(st)
    ensures var later := AddModule(st, id, ModuleFor(st.programs[id].imports[k], target));
            DoneUpTo(fs, later, id, k + 1) && Consistent(later) && Keeps(st, later, id)
  {
    var later := AddModule(st, id, ModuleFor(st.programs[id].imports[k], target));
    forall j | 0 <= j < k + 1 ensures HasModule(fs, later, id, j) {
      if j < k { assert HasModule(fs, st, id, j); }
    }
  }

  ghost predicate Achieved(fs: Files, st: State, id: nat, r: State)
    requires id < |st.programs|
  {
    && Consistent(r) && Keeps(st, r, id)
    && r.programs[id].(modules := []) == st.programs[id].(modules := [])
    && Complete(fs, r, id)
    && forall n :: |st.programs| <= n < |r.programs| ==> Complete(fs, r, n)
  }

  lemma {:induction false} ResolveAchieves(fs: Files, st: State, id: nat, k: nat)
    requires id < |st.programs| && Consistent(st) && DoneUpTo(fs, st, id, k)
    requires ResolveFrom(fs, st, id, k).Resolved?
    ensures Achieved(fs, st, id, ResolveFrom(fs, st, id, k).st)
    decreases Uncached(fs, st), |st.programs[id].imports| - k
  {
    var self := st.programs[id];
    if k < |self.imports| {
      var i := self.imports[k];
      var p := fs.locate(self.file, i).path;
      if p in st.parsed {
        var next := AddModule(st, id, ModuleFor(i, st.parsed[p]));
        OneMore(fs, st, id, k, st.parsed[p]);
        ResolveAchieves(fs, next, id, k + 1);
      } else {
        ResolveNew(fs, st, id, k, p);
      }
    }
  }

  lemma ParsedIsConsistent(fs: Files, st: State, p: Path)
    requires Consistent(st) && p in fs.imports && p !in st.parsed
    ensures Consistent(Parsed(fs, st, p)) && DoneUpTo(fs, Parsed(fs, st, p), |st.programs|, 0)
  {
  }

  lemma AchievedIsConsistent(fs: Files, st: State, id: nat, r: State)
    requires id < |st.programs| && Achieved(fs, st, id, r)
    ensures Consistent(r)
  {
  }

  lemma {:induction false} ResolveNew(fs: Files, st: State, id: nat, k: nat, p: Path)
    requires id < |st.programs| && Consistent(st) && DoneUpTo(fs, st, id, k) && k < |st.programs[id].imports|
    requires fs.locate(st.programs[id].file, st.programs[id].imports[k]) == InFile(p) && p !in st.parsed
    requires ResolveFrom(fs, st, id, k).Resolved?
    ensures Achieved(fs, st, id, ResolveFrom(fs, st, id, k).st)
    decreases Uncached(fs, st), |st.programs[id].imports| - k, 0
  {
    var i, sub := st.programs[id].imports[k], |st.programs|;
    var st1 := Parsed(fs, st, p);
    CachingShrinks(fs, st, st1, p);
    var st2 := ResolveFrom(fs, st1, sub, 0).st;
    ParsedIsConsistent(fs, st, p);
    hide Consistent, Complete, Achieved;
    ResolveAchieves(fs, st1, sub, 0);
    CachingShrinks(fs, st, st2, p);
    AchievedIsConsistent(fs, st1, sub, st2);
    NewProgramKeeps(fs, st, st2, id, k, p);
    OneMore(fs, st2, id, k, sub);
    var st3 := AddModule(st2, id, ModuleFor(i, sub));
    ResolveAchieves(fs, st3, id, k + 1);
    JoinAchieved(fs, st, st2, st3, id, ResolveFrom(fs, st3, id, k + 1).st);
  }

  /** Resolving the new program leaves the waiting one as it is. */
  lemma NewProgramKeeps(fs: Files, st: State, st2: State, id: nat, k: nat, p: Path)
    requires id < |st.programs| && DoneUpTo(fs, st, id, k) && p in fs.imports && p !in st.parsed
    requires Achieved(fs, Parsed(fs, st, p), |st.programs|, st2)
    ensures Keeps(st, st2, |st.programs|) && st2.programs[id] == st.programs[id] && DoneUpTo(fs, st2, id, k)
    ensures p in st2.parsed && st2.parsed[p] == |st.programs|
    ensures forall n :: |st.programs| <= n < |st2.programs| ==> Complete(fs, st2, n)
  {
    var st1 := Parsed(fs, st, p);
    assert Keeps(st, st1, |st.programs|) && st1.programs[id] == st.programs[id];
    DoneStays(fs, st, st1, |st.programs|, id, k);
    DoneStays(fs, st1, st2, |st.programs|, id, k);
  }

  lemma JoinAchieved(fs: Files, st: State, st2: State, st3: State, id: nat, r: State)
    requires id < |st.programs| && Keeps(st, st2, |st.programs|) && st2.programs[id] == st.programs[id]
    requires forall n :: |st.programs| <= n < |st2.programs| ==> Complete(fs, st2, n)
    requires |st3.programs| == |st2.programs| && Keeps(st2, st3, id)
    requires st3.programs[id].(modules := []) == st.programs[id].(modules := [])
    requires Achieved(fs, st3, id, r)
    ensures Achieved(fs, st, id, r)
  {
    forall n | |st.programs| <= n < |r.programs| ensures Complete(fs, r, n) {
      if n < |st2.programs| {
        assert Complete(fs, st2, n);
        DoneStays(fs, st2, st3, id, n, |st2.programs[n].imports|);
        DoneStays(fs, st3, r, id, n, |st3.programs[n].imports|);
      }
    }
  }

  /** How resolution went on where a new program was parsed. */
  lemma NewUnfolds(fs: Files, st: State, id: nat, k: nat, p: Path)
    requires id < |st.programs| && k < |st.programs[id].imports|
    requires fs.locate(st.programs[id].file, st.programs[id].imports[k]) == InFile(p) && p !in st.parsed
    requires ResolveFrom(fs, st, id, k).Resolved?
    ensures p in fs.imports && p != st.programs[id].file
    ensures var r := ResolveFrom(fs, Parsed(fs, st, p), |st.programs|, 0);
            && r.Resolved? && id < |r.st.programs| && p in r.st.parsed
            && r.st.programs[id].file == st.programs[id].file && r.st.programs[id].imports == st.programs[id].imports
            && var st3 := AddModule(r.st, id, ModuleFor(st.programs[id].imports[k], |st.programs|));
            && ResolveFrom(fs, st, id, k) == ResolveFrom(fs, st3, id, k + 1)
            && Uncached(fs, Parsed(fs, st, p)) < Uncached(fs, st) && Uncached(fs, st3) < Uncached(fs, st)
  {
    var st1 := Parsed(fs, st, p);
    CachingShrinks(fs, st, st1, p);
    var st2 := ResolveFrom(fs, st1, |st.programs|, 0).st;
    assert st1.programs[id] == st.programs[id];
    CachingShrinks(fs, st, st2, p);
  }

  /** A chain of imports that starts in program text `imports` of `file`. */
  ghost predicate IsChain(fs: Files, file: Path, imports: seq<Import>, chain: seq<Path>)
    decreases chain
  {
    && chain != []
    && (exists i <- imports :: fs.locate(file, i) == InFile(chain[0]))
    && (|chain| > 1 ==> chain[0] in fs.imports && IsChain(fs, chain[0], fs.imports[chain[0]], chain[1..]))
  }

  lemma {:induction false} ChainIsCached(fs: Files, st: State, n: nat, chain: seq<Path>)
    requires Consistent(st) && n < |st.programs| && forall m :: 0 <= m < |st.programs| ==> Complete(fs, st, m)
    requires forall m :: 0 <= m < |st.programs| && st.programs[m].file in fs.imports ==>
               st.programs[m].imports == fs.imports[st.programs[m].file]
    requires IsChain(fs, st.programs[n].file, st.programs[n].imports, chain)
    ensures chain[|chain| - 1] in st.parsed
    decreases chain
  {
    var self := st.programs[n];
    var i :| i in self.imports && fs.locate(self.file, i) == InFile(chain[0]);
    var j :| 0 <= j < |self.imports| && self.imports[j] == i;
    assert Complete(fs, st, n) && HasModule(fs, st, n, j);
    if |chain| > 1 { ChainIsCached(fs, st, st.parsed[chain[0]], chain[1..]); }
  }

  lemma {:induction false} TextsStay(fs: Files, st: State, id: nat, k: nat, n: nat)
    requires id < |st.programs| && k <= |st.programs[id].imports| && ResolveFrom(fs, st, id, k).Resolved?
    requires |st.programs| <= n < |ResolveFrom(fs, st, id, k).st.programs|
    ensures var p := ResolveFrom(fs, st, id, k).st.programs[n];
            p.file in fs.imports && p.imports == fs.imports[p.file]
    decreases Uncached(fs, st), |st.programs[id].imports| - k
  {
    var self := st.programs[id];
    if k < |self.imports| {
      var i := self.imports[k];
      var p := fs.locate(self.file, i).path;
      if p in st.parsed {
        TextsStay(fs, AddModule(st, id, ModuleFor(i, st.parsed[p])), id, k + 1, n);
      } else {
        NewUnfolds(fs, st, id, k, p);
        hide ResolveFrom, Uncached;
        var st1 := Parsed(fs, st, p);
        var st2 := ResolveFrom(fs, st1, |st.programs|, 0).st;
        var st3 := AddModule(st2, id, ModuleFor(i, |st.programs|));
        if n >= |st3.programs| {
          TextsStay(fs, st3, id, k + 1, n);
        } else if n > |st.programs| {
          TextsStay(fs, st1, |st.programs|, 0, n);
        }
      }
    }
  }

  // ---------- what is cached, and when resolution succeeds ----------

  /** A chain of imports leads from program text `imports` of `file` to `p`. */
  ghost predicate Leads(fs: Files, file: Path, imports: seq<Import>, p: Path) {
    exists chain :: IsChain(fs, file, imports, chain) && chain[|chain| - 1] == p
  }

  lemma LeadsDirectly(fs: Files, file: Path, imports: seq<Import>, k: nat, p: Path)
    requires k < |imports| && fs.locate(file, imports[k]) == InFile(p)
    ensures Leads(fs, file, imports, p)
  {
    assert imports[k] in imports;
    assert IsChain(fs, file, imports, [p]);
    assert [p][|[p]| - 1] == p;
  }

  lemma LeadsThrough(fs: Files, file: Path, imports: seq<Import>, k: nat, p: Path, q: Path)
    requires k < |imports| && fs.locate(file, imports[k]) == InFile(p) && p in fs.imports
    requires Leads(fs, p, fs.imports[p], q)
    ensures Leads(fs, file, imports, q)
  {
    var chain :| IsChain(fs, p, fs.imports[p], chain) && chain[|chain| - 1] == q;
    var longer := [p] + chain;
    assert imports[k] in imports && longer[1..] == chain;
    assert IsChain(fs, file, imports, longer) && longer[|longer| - 1] == q;
  }

  /** Only files are cached that a chain of imports leads to. */
  lemma {:induction false} CachedIsImported(fs: Files, st: State, id: nat, k: nat, q: Path)
    requires id < |st.programs| && k <= |st.programs[id].imports| && ResolveFrom(fs, st, id, k).Resolved?
    requires q in ResolveFrom(fs, st, id, k).st.parsed && q !in st.parsed
    ensures Leads(fs, st.programs[id].file, st.programs[id].imports, q)
    decreases Uncached(fs, st), |st.programs[id].imports| - k, 1
  {
    hide Leads;
    var self := st.programs[id];
    if k < |self.imports| {
      var i := self.imports[k];
      var p := fs.locate(self.file, i).path;
      if p in st.parsed {
        CachedIsImported(fs, AddModule(st, id, ModuleFor(i, st.parsed[p])), id, k + 1, q);
      } else {
        CachedIsNew(fs, st, id, k, p, q);
      }
    }
  }

  lemma {:induction false} CachedIsNew(fs: Files, st: State, id: nat, k: nat, p: Path, q: Path)
    requires id < |st.programs| && k < |st.programs[id].imports| && ResolveFrom(fs, st, id, k).Resolved?
    requires fs.locate(st.programs[id].file, st.programs[id].imports[k]) == InFile(p) && p !in st.parsed
    requires q in ResolveFrom(fs, st, id, k).st.parsed && q !in st.parsed
    ensures Leads(fs, st.programs[id].file, st.programs[id].imports, q)
    decreases Uncached(fs, st), |st.programs[id].imports| - k, 0
  {
    NewUnfolds(fs, st, id, k, p);
    hide Leads, ResolveFrom, Uncached;
    var self := st.programs[id];
    var st1 := Parsed(fs, st, p);
    var st2 := ResolveFrom(fs, st1, |st.programs|, 0).st;
    if q == p {
      LeadsDirectly(fs, self.file, self.imports, k, p);
    } else if q in st2.parsed {
      CachedIsImported(fs, st1, |st.programs|, 0, q);
      LeadsThrough(fs, self.file, self.imports, k, p, q);
    } else {
      CachedIsImported(fs, AddModule(st2, id, ModuleFor(self.imports[k], |st.programs|)), id, k + 1, q);
    }
  }

  /** An import that can be resolved: it means one file, another one than the importing file,
      which can be read and parsed or is the root. */
  predicate Resolvable(fs: Files, root: Program, file: Path, i: Import) {
    var at := fs.locate(file, i);
    at.InFile? && at.path != file && (at.path in fs.imports || (root.exists_ && at.path == root.file))
  }

  ghost predicate AllResolvable(fs: Files, root: Program, file: Path, imports: seq<Import>) {
    && (forall i <- imports :: Resolvable(fs, root, file, i))
    && (forall p :: Leads(fs, file, imports, p) && p in fs.imports ==>
          forall i <- fs.imports[p] :: Resolvable(fs, root, p, i))
  }

  lemma ResolvableBelow(fs: Files, root: Program, file: Path, imports: seq<Import>, k: nat, p: Path)
    requires AllResolvable(fs, root, file, imports)
    requires k < |imports| && fs.locate(file, imports[k]) == InFile(p) && p in fs.imports
    ensures AllResolvable(fs, root, p, fs.imports[p])
  {
    hide Leads, Resolvable;
    LeadsDirectly(fs, file, imports, k, p);
    forall q | Leads(fs, p, fs.imports[p], q) && q in fs.imports
      ensures forall i <- fs.imports[q] :: Resolvable(fs, root, q, i)
    {
      LeadsThrough(fs, file, imports, k, p, q);
    }
  }

  /** Everything cached can be read and parsed or is the root, which is cached if it is a file. */
  ghost predicate CacheOk(fs: Files, root: Program, st: State) {
    && (root.exists_ ==> root.file in st.parsed)
    && forall p <- st.parsed :: p in fs.imports || (root.exists_ && p == root.file)
  }

  lemma {:induction false} ResolutionSucceeds(fs: Files, root: Program, st: State, id: nat, k: nat)
    requires id < |st.programs| && k <= |st.programs[id].imports| && (root.exists_ ==> root.file in st.parsed)
    requires AllResolvable(fs, root, st.programs[id].file, st.programs[id].imports)
    ensures ResolveFrom(fs, st, id, k).Resolved?
    decreases Uncached(fs, st), |st.programs[id].imports| - k, 1
  {
    var self := st.programs[id];
    if k < |self.imports| {
      var i := self.imports[k];
      assert i in self.imports && Resolvable(fs, root, self.file, i);
      var p := fs.locate(self.file, i).path;
      hide AllResolvable;
      if p in st.parsed {
        ResolutionSucceeds(fs, root, AddModule(st, id, ModuleFor(i, st.parsed[p])), id, k + 1);
      } else {
        NewSucceeds(fs, root, st, id, k, p);
      }
    }
  }

  lemma {:induction false} NewSucceeds(fs: Files, root: Program, st: State, id: nat, k: nat, p: Path)
    requires id < |st.programs| && k < |st.programs[id].imports| && (root.exists_ ==> root.file in st.parsed)
    requires AllResolvable(fs, root, st.programs[id].file, st.programs[id].imports)
    requires fs.locate(st.programs[id].file, st.programs[id].imports[k]) == InFile(p)
    requires p != st.programs[id].file && p !in st.parsed && p in fs.imports
    ensures ResolveFrom(fs, st, id, k).Resolved?
    decreases Uncached(fs, st), |st.programs[id].imports| - k, 0
  {
    ResolvableBelow(fs, root, st.programs[id].file, st.programs[id].imports, k, p);
    hide AllResolvable;
    var st1 := Parsed(fs, st, p);
    CachingShrinks(fs, st, st1, p);
    ResolutionSucceeds(fs, root, st1, |st.programs|, 0);
    var st2 := ResolveFrom(fs, st1, |st.programs|, 0).st;
    assert st1.programs[id] == st.programs[id];
    CachingShrinks(fs, st, st2, p);
    ResolutionSucceeds(fs, root, AddModule(st2, id, ModuleFor(st.programs[id].imports[k], |st.programs|)), id, k + 1);
  }

  /** The imports from number `k` on of program `n` can be resolved. */
  ghost predicate ResolvableFrom(fs: Files, root: Program, p: Program, k: nat) {
    forall j :: k <= j < |p.imports| ==> Resolvable(fs, root, p.file, p.imports[j])
  }

  lemma {:induction false} ResolvedWasResolvable(fs: Files, root: Program, st: State, id: nat, k: nat)
    requires id < |st.programs| && k <= |st.programs[id].imports| && CacheOk(fs, root, st)
    requires ResolveFrom(fs, st, id, k).Resolved?
    ensures var r := ResolveFrom(fs, st, id, k).st;
            && CacheOk(fs, root, r) && ResolvableFrom(fs, root, st.programs[id], k)
            && forall n :: |st.programs| <= n < |r.programs| ==> ResolvableFrom(fs, root, r.programs[n], 0)
    decreases Uncached(fs, st), |st.programs[id].imports| - k, 1
  {
    var self := st.programs[id];
    if k < |self.imports| {
      var i := self.imports[k];
      var p := fs.locate(self.file, i).path;
      if p in st.parsed {
        ResolvedWasResolvable(fs, root, AddModule(st, id, ModuleFor(i, st.parsed[p])), id, k + 1);
      } else {
        ResolvedNewWasResolvable(fs, root, st, id, k, p);
      }
    }
  }

  lemma {:induction false} ResolvedNewWasResolvable(fs: Files, root: Program, st: State, id: nat, k: nat, p: Path)
    requires id < |st.programs| && k < |st.programs[id].imports| && CacheOk(fs, root, st)
    requires fs.locate(st.programs[id].file, st.programs[id].imports[k]) == InFile(p) && p !in st.parsed
    requires ResolveFrom(fs, st, id, k).Resolved?
    ensures var r := ResolveFrom(fs, st, id, k).st;
            && CacheOk(fs, root, r) && ResolvableFrom(fs, root, st.programs[id], k)
            && forall n :: |st.programs| <= n < |r.programs| ==> ResolvableFrom(fs, root, r.programs[n], 0)
    decreases Uncached(fs, st), |st.programs[id].imports| - k, 0
  {
    NewUnfolds(fs, st, id, k, p);
    hide ResolveFrom, Uncached;
    var i, sub := st.programs[id].imports[k], |st.programs|;
    var st1 := Parsed(fs, st, p);
    ResolvedWasResolvable(fs, root, st1, sub, 0);
    var st2 := ResolveFrom(fs, st1, sub, 0).st;
    var st3 := AddModule(st2, id, ModuleFor(i, sub));
    ResolvedWasResolvable(fs, root, st3, id, k + 1);
    var r := ResolveFrom(fs, st3, id, k + 1).st;
    assert ResolvableFrom(fs, root, st1.programs[sub], 0);
    forall n | sub <= n < |r.programs| ensures ResolvableFrom(fs, root, r.programs[n], 0) {
      if n < |st2.programs| {
        assert n > sub ==> ResolvableFrom(fs, root, st2.programs[n], 0);
        assert st2.programs[sub].imports == st1.programs[sub].imports && st2.programs[sub].file == p;
        assert r.programs[n].imports == st2.programs[n].imports && r.programs[n].file == st2.programs[n].file;
      }
    }
  }

  lemma TextsAreKept(fs: Files, root: Program)
    requires root.file in fs.imports ==> fs.imports[root.file] == root.imports
    requires ResolveImports(fs, root).Resolved?
    ensures var st := ResolveImports(fs, root).st;
            forall m :: 0 <= m < |st.programs| && st.programs[m].file in fs.imports ==>
              st.programs[m].imports == fs.imports[st.programs[m].file]
  {
    var st := ResolveImports(fs, root).st;
    forall m | 0 <= m < |st.programs| && st.programs[m].file in fs.imports
      ensures st.programs[m].imports == fs.imports[st.programs[m].file]
    {
      if m > 0 { TextsStay(fs, Start(root), 0, 0, m); }
    }
  }

  /** Resolution succeeds exactly when every import of the root, and of every file that a chain
      of imports leads to, can be resolved. */
  lemma ResolutionSucceedsExactly(fs: Files, root: Program)
    requires root.modules == [] && (root.file in fs.imports ==> fs.imports[root.file] == root.imports)
    ensures ResolveImports(fs, root).Resolved? <==> AllResolvable(fs, root, root.file, root.imports)
  {
    if AllResolvable(fs, root, root.file, root.imports) {
      ResolutionSucceeds(fs, root, Start(root), 0, 0);
    }
    if ResolveImports(fs, root).Resolved? {
      ResolvedWasResolvable(fs, root, Start(root), 0, 0);
      ReachableWasResolvable(fs, root);
    }
  }

  lemma ReachableWasResolvable(fs: Files, root: Program)
    requires root.modules == [] && (root.file in fs.imports ==> fs.imports[root.file] == root.imports)
    requires ResolveImports(fs, root).Resolved?
    requires var st := ResolveImports(fs, root).st;
             && ResolvableFrom(fs, root, root, 0)
             && forall n :: 1 <= n < |st.programs| ==> ResolvableFrom(fs, root, st.programs[n], 0)
    ensures AllResolvable(fs, root, root.file, root.imports)
  {
    hide Resolvable;
    var st := ResolveImports(fs, root).st;
    forall p | Leads(fs, root.file, root.imports, p) && p in fs.imports
      ensures forall i <- fs.imports[p] :: Resolvable(fs, root, p, i)
    {
      var chain :| IsChain(fs, root.file, root.imports, chain) && chain[|chain| - 1] == p;
      ResolutionIsComplete(fs, root, p);
      TextsAreKept(fs, root);
      var n := st.parsed[p];
      assert st.programs[n].file == p && st.programs[n].imports == fs.imports[p];
      if n == 0 { assert root.file == p; }
      assert ResolvableFrom(fs, root, st.programs[n], 0);
    }
    assert forall j :: 0 <= j < |root.imports| ==> Resolvable(fs, root, root.file, root.imports[j]);
  }

  /** On success, even over circular imports: no existing file was parsed twice, the cached files
      are exactly the root and those that a chain of imports leads to, and every program has
      exactly one module for each of its imports, in order, pointing at the cached program. */
  lemma ResolutionIsComplete(fs: Files, root: Program, p: Path)
    requires root.modules == [] && (root.file in fs.imports ==> fs.imports[root.file] == root.imports)
    requires ResolveImports(fs, root).Resolved?
    ensures var st := ResolveImports(fs, root).st;
            && Consistent(st) && (forall n :: 0 <= n < |st.programs| ==> Complete(fs, st, n))
            && (p in st.parsed <==> (root.exists_ && p == root.file) || Leads(fs, root.file, root.imports, p))
  {
    ResolveAchieves(fs, Start(root), 0, 0);
    TextsAreKept(fs, root);
    var st := ResolveImports(fs, root).st;
    if Leads(fs, root.file, root.imports, p) {
      var chain :| IsChain(fs, root.file, root.imports, chain) && chain[|chain| - 1] == p;
      ChainIsCached(fs, st, 0, chain);
    }
    if p in st.parsed && p !in Start(root).parsed { CachedIsImported(fs, Start(root), 0, 0, p); }
  }
}
