/**
 The module index of the analyzer: which file imports which, what an import
 alias stands for, and the depth-first search for circular imports.
 */
module ImportIndex {
  import opened Options

  type Path = string

  datatype ImportInfo = ImportInfo(alias: string, resolvedPath: Path)

  type Graph = map<Path, seq<ImportInfo>>

  // --------------------------------------------------------------------------
  // What a circular import is
  // --------------------------------------------------------------------------

  /** The imports of a file; a file the graph does not know has none. */
  function ImportsOf(g: Graph, file: Path): seq<ImportInfo> {
    if file in g then g[file] else []
  }

  ghost predicate Edge(g: Graph, a: Path, b: Path) {
    exists i :: 0 <= i < |ImportsOf(g, a)| && ImportsOf(g, a)[i].resolvedPath == b
  }

  /** Consecutive files of `p` import one another. */
  ghost predicate IsPath(g: Graph, p: seq<Path>) {
    |p| >= 1 && forall i :: 0 <= i < |p| - 1 ==> Edge(g, p[i], p[i + 1])
  }

  ghost predicate Reachable(g: Graph, a: Path, b: Path) {
    exists p :: IsPath(g, p) && p[0] == a && p[|p| - 1] == b
  }

  ghost predicate IsCycle(g: Graph, c: seq<Path>) {
    |c| >= 2 && IsPath(g, c) && c[0] == c[|c| - 1]
  }

  ghost predicate CycleReachable(g: Graph, start: Path) {
    exists c :: IsCycle(g, c) && Reachable(g, start, c[0])
  }

  ghost predicate Distinct(s: seq<Path>) {
    forall i, j :: 0 <= i < j < |s| ==> s[i] != s[j]
  }

  /** Every file the search can meet: the importers and what they import. */
  ghost function Nodes(g: Graph): set<Path> {
    g.Keys + set f, i | f in g && 0 <= i < |g[f]| :: g[f][i].resolvedPath
  }

  lemma EdgeStaysInNodes(g: Graph, a: Path, i: nat)
    requires i < |ImportsOf(g, a)|
    ensures ImportsOf(g, a)[i].resolvedPath in Nodes(g)
  {
  }

  // --------------------------------------------------------------------------
  // Finishing order: why answering "no cycle" is right
  // --------------------------------------------------------------------------

  /** Every import of a finished file finished before it did. */
  ghost predicate FinishingOrder(g: Graph, order: seq<Path>) {
    forall i, b :: 0 <= i < |order| && Edge(g, order[i], b) ==> b in order[..i]
  }

  /** Following imports from a finished file leads to files that finished earlier. */
  lemma {:induction false} PathDescends(g: Graph, order: seq<Path>, p: seq<Path>, i: nat) returns (j: nat)
    requires FinishingOrder(g, order) && IsPath(g, p)
    requires i < |order| && p[0] == order[i]
    ensures j <= i && order[j] == p[|p| - 1]
    ensures |p| >= 2 ==> j < i
    decreases |p|
  {
    if |p| == 1 {
      return i;
    }
    assert Edge(g, p[0], p[1]);
    var k :| 0 <= k < i && order[k] == p[1];
    forall m | 0 <= m < |p[1..]| - 1 ensures Edge(g, p[1..][m], p[1..][m + 1]) {
      assert Edge(g, p[m + 1], p[m + 2]);
    }
    j := PathDescends(g, order, p[1..], k);
  }

  /** No circular import passes through a finished file. */
  lemma {:induction false} NoCycleThroughFinished(g: Graph, order: seq<Path>, c: seq<Path>, i: nat)
    requires FinishingOrder(g, order)
    requires i < |order| && c != [] && c[0] == order[i]
    ensures !IsCycle(g, c)
    decreases i
  {
    if IsCycle(g, c) {
      var j := PathDescends(g, order, c, i);
      NoCycleThroughFinished(g, order, c, j);
    }
  }

  /** A file that the search finished with cannot reach a circular import. */
  lemma FinishedReachesNoCycle(g: Graph, order: seq<Path>, start: Path)
    requires FinishingOrder(g, order) && start in order
    ensures !CycleReachable(g, start)
  {
    if CycleReachable(g, start) {
      var c :| IsCycle(g, c) && Reachable(g, start, c[0]);
      var p :| IsPath(g, p) && p[0] == start && p[|p| - 1] == c[0];
      var i :| 0 <= i < |order| && order[i] == start;
      var j := PathDescends(g, order, p, i);
      NoCycleThroughFinished(g, order, c, j);
    }
  }

  lemma FinishingOrderExtends(g: Graph, order: seq<Path>, f: Path)
    requires FinishingOrder(g, order)
    requires forall b :: Edge(g, f, b) ==> b in order
    ensures FinishingOrder(g, order + [f])
  {
    var next := order + [f];
    forall i, b | 0 <= i < |next| && Edge(g, next[i], b) ensures b in next[..i] {
      if i < |order| {
        assert next[..i] == order[..i];
      } else {
        assert next[..i] == order;
      }
    }
  }

  // --------------------------------------------------------------------------
  // The search
  // --------------------------------------------------------------------------

  /** Closing the stack at an earlier occurrence of `current` is a simple cycle. */
  lemma StackClosesCycle(g: Graph, stack: seq<Path>, current: Path, k: nat)
    requires IsPath(g, stack + [current]) && Distinct(stack)
    requires k < |stack| && stack[k] == current
    ensures IsCycle(g, stack[k..] + [current]) && Distinct((stack[k..] + [current])[1..])
    ensures Reachable(g, stack[0], current)
  {
    forall i, j | 1 <= i < j < |stack| - k + 1 ensures (stack[k..] + [current])[i] != (stack[k..] + [current])[j] {
      assert stack[k + i] != if j < |stack| - k then stack[k + j] else stack[k];
    }
    var whole := stack + [current];
    var c := stack[k..] + [current];
    forall m | 0 <= m < |c| - 1 ensures Edge(g, c[m], c[m + 1]) {
      assert c[m] == whole[k + m] && c[m + 1] == whole[k + m + 1];
    }
    var p := stack[..k + 1];
    forall m | 0 <= m < |p| - 1 ensures Edge(g, p[m], p[m + 1]) {
      assert p[m] == whole[m] && p[m + 1] == whole[m + 1];
    }
    assert IsPath(g, p) && p[0] == stack[0] && p[|p| - 1] == current;
  }

  lemma PathExtends(g: Graph, p: seq<Path>, i: nat)
    requires IsPath(g, p) && i < |ImportsOf(g, p[|p| - 1])|
    ensures IsPath(g, p + [ImportsOf(g, p[|p| - 1])[i].resolvedPath])
  {
    var b := ImportsOf(g, p[|p| - 1])[i].resolvedPath;
    var q := p + [b];
    assert Edge(g, p[|p| - 1], b);
    forall m | 0 <= m < |q| - 1 ensures Edge(g, q[m], q[m + 1]) {
      if m < |p| - 1 {
        assert Edge(g, p[m], p[m + 1]);
      }
    }
  }

  /** What was visited is on the chain or finished, no file is both, and no file is on the chain twice. */
  ghost predicate SearchState(g: Graph, visited: set<Path>, stack: seq<Path>, finished: seq<Path>) {
    && visited == (set f | f in stack) + (set f | f in finished)
    && (forall f :: f in stack ==> f !in finished)
    && Distinct(stack)
    && FinishingOrder(g, finished)
  }

  lemma EnterKeepsState(g: Graph, visited: set<Path>, stack: seq<Path>, finished: seq<Path>, current: Path)
    requires SearchState(g, visited, stack, finished) && current !in visited
    ensures SearchState(g, visited + {current}, stack + [current], finished)
  {
  }

  /** The files these imports lead to are all in `files`. */
  predicate TargetsIn(imports: seq<ImportInfo>, files: seq<Path>) {
    forall j :: 0 <= j < |imports| ==> imports[j].resolvedPath in files
  }

  lemma NextTargetIn(imports: seq<ImportInfo>, i: nat, before: seq<Path>, files: seq<Path>)
    requires i < |imports| && TargetsIn(imports[..i], before) && before <= files
    requires imports[i].resolvedPath in files
    ensures TargetsIn(imports[..i + 1], files)
  {
    forall j | 0 <= j < i + 1 ensures imports[j].resolvedPath in files {
      if j < i {
        assert imports[..i][j].resolvedPath in before;
      }
    }
  }

  lemma LeaveKeepsState(g: Graph, visited: set<Path>, stack: seq<Path>, finished: seq<Path>, current: Path)
    requires SearchState(g, visited, stack + [current], finished) && TargetsIn(ImportsOf(g, current), finished)
    ensures SearchState(g, visited, stack, finished + [current])
  {
    var whole := stack + [current];
    forall f | f in stack ensures f !in finished + [current] {
      var i :| 0 <= i < |stack| && stack[i] == f;
      assert whole[i] == f && whole[|stack|] == current;
      assert f in whole;
    }
    forall i, j | 0 <= i < j < |stack| ensures stack[i] != stack[j] {
      assert whole[i] == stack[i] && whole[j] == stack[j];
    }
    FinishingOrderExtends(g, finished, current);
  }

  /**
   The state one search threads through its recursion: the files seen so far and
   the chain of files being explored. The chain is popped only when a file ends
   without a cycle. `finished` records, for the proof, the order files ended in.
   */
  class CycleSearch {
    var visited: set<Path>
    var recStack: seq<Path>
    ghost var finished: seq<Path>

    constructor ()
      ensures visited == {} && recStack == [] && finished == []
    {
      visited, recStack, finished := {}, [], [];
    }

    ghost predicate Valid(g: Graph)
      reads this
    {
      SearchState(g, visited, recStack, finished)
    }

    method Position(f: Path) returns (k: nat)
      requires f in recStack
      ensures k < |recStack| && recStack[k] == f
    {
      k := 0;
      while recStack[k] != f
        invariant k < |recStack| && f in recStack[k..]
        decreases |recStack| - k
      {
        k := k + 1;
      }
    }

    method DfsCycle(g: Graph, current: Path, ghost nodes: set<Path>) returns (cycle: Option<seq<Path>>)
      requires Valid(g) && Nodes(g) <= nodes && current in nodes
      requires IsPath(g, recStack + [current])
      modifies this
      ensures cycle.None? ==> Valid(g) && recStack == old(recStack) && current in finished
      ensures cycle.None? ==> old(visited) <= visited && old(finished) <= finished
      ensures cycle.Some? ==> IsCycle(g, cycle.value) && Distinct(cycle.value[1..])
      ensures cycle.Some? ==> Reachable(g, old((recStack + [current])[0]), cycle.value[0])
      decreases nodes - visited
    {
      if current in recStack {
        var k := Position(current);
        StackClosesCycle(g, recStack, current, k);
        assert (recStack + [current])[0] == recStack[0];
        return Some(recStack[k..] + [current]);
      }
      if current in visited {
        return None;
      }
      EnterKeepsState(g, visited, recStack, finished, current);
      visited := visited + {current};
      recStack := recStack + [current];
      var imports := ImportsOf(g, current);
      var i := 0;
      while i < |imports|
        invariant 0 <= i <= |imports|
        invariant Valid(g) && recStack == old(recStack) + [current]
        invariant old(visited) + {current} <= visited && old(finished) <= finished
        invariant TargetsIn(imports[..i], finished)
      {
        EdgeStaysInNodes(g, current, i);
        PathExtends(g, recStack, i);
        assert (recStack + [imports[i].resolvedPath])[0] == (old(recStack) + [current])[0];
        ghost var before := finished;
        cycle := DfsCycle(g, imports[i].resolvedPath, nodes);
        if cycle.Some? {
          return;
        }
        NextTargetIn(imports, i, before, finished);
        i := i + 1;
      }
      assert imports[..|imports|] == imports;
      LeaveKeepsState(g, visited, old(recStack), finished, current);
      recStack := recStack[..|recStack| - 1];
      finished := finished + [current];
      return None;
    }
  }

  // --------------------------------------------------------------------------
  // The index
  // --------------------------------------------------------------------------

  /** What the last import of `alias` in a file's list resolves to. */
  function LastTarget(imports: seq<ImportInfo>, alias: string): Option<Path> {
    if imports == [] then None
    else if imports[|imports| - 1].alias == alias then Some(imports[|imports| - 1].resolvedPath)
    else LastTarget(imports[..|imports| - 1], alias)
  }

  lemma {:induction false} LastTargetIsImported(imports: seq<ImportInfo>, alias: string) returns (i: nat)
    requires LastTarget(imports, alias).Some?
    ensures i < |imports| && imports[i] == ImportInfo(alias, LastTarget(imports, alias).value)
    ensures forall j :: i < j < |imports| ==> imports[j].alias != alias
  {
    if imports[|imports| - 1].alias == alias {
      i := |imports| - 1;
    } else {
      i := LastTargetIsImported(imports[..|imports| - 1], alias);
    }
  }

  /** The alias table holds, for each file and alias, the last import of that alias. */
  ghost predicate InStep(g: Graph, aliases: map<(Path, string), Path>) {
    forall file: Path, alias: string ::
      LastTarget(ImportsOf(g, file), alias) == Resolved(aliases, file, alias)
  }

  function Resolved(aliases: map<(Path, string), Path>, file: Path, alias: string): Option<Path> {
    if (file, alias) in aliases then Some(aliases[(file, alias)]) else None
  }

  lemma LastTargetSnoc(imports: seq<ImportInfo>, imp: ImportInfo, alias: string)
    ensures LastTarget(imports + [imp], alias)
            == if imp.alias == alias then Some(imp.resolvedPath) else LastTarget(imports, alias)
  {
    assert (imports + [imp])[..|imports|] == imports;
  }

  lemma RegisterKeepsStep(g: Graph, aliases: map<(Path, string), Path>, from: Path, imp: ImportInfo)
    requires InStep(g, aliases)
    ensures InStep(g[from := ImportsOf(g, from) + [imp]], aliases[(from, imp.alias) := imp.resolvedPath])
  {
    var g', aliases' := g[from := ImportsOf(g, from) + [imp]], aliases[(from, imp.alias) := imp.resolvedPath];
    forall file: Path, alias: string ensures LastTarget(ImportsOf(g', file), alias) == Resolved(aliases', file, alias) {
      assert LastTarget(ImportsOf(g, file), alias) == Resolved(aliases, file, alias);
      LastTargetSnoc(ImportsOf(g, from), imp, alias);
    }
  }

  lemma ClearKeepsStep(g: Graph, aliases: map<(Path, string), Path>, from: Path)
    requires InStep(g, aliases)
    ensures InStep(g - {from}, map k | k in aliases && k.0 != from :: aliases[k])
  {
    var g', aliases' := g - {from}, map k | k in aliases && k.0 != from :: aliases[k];
    forall file: Path, alias: string ensures LastTarget(ImportsOf(g', file), alias) == Resolved(aliases', file, alias) {
      assert LastTarget(ImportsOf(g, file), alias) == Resolved(aliases, file, alias);
    }
  }

  /** Whatever an alias resolves to is an edge that the cycle search follows. */
  lemma AliasIsEdge(g: Graph, aliases: map<(Path, string), Path>, file: Path, alias: string)
    requires InStep(g, aliases) && (file, alias) in aliases
    ensures Edge(g, file, aliases[(file, alias)])
  {
    assert LastTarget(ImportsOf(g, file), alias) == Resolved(aliases, file, alias);
    var i := LastTargetIsImported(ImportsOf(g, file), alias);
  }

  class ModuleIndex<Exports> {
    var exports: map<Path, Exports>
    var importGraph: Graph
    var aliasMap: map<(Path, string), Path>

    constructor ()
      ensures InStep(importGraph, aliasMap)
      ensures exports == map[] && importGraph == map[] && aliasMap == map[]
    {
      exports, importGraph, aliasMap := map[], map[], map[];
    }

    /** What a file finds behind an alias: the exports of the module its last import of that alias leads to. */
    ghost function Behind(fromFile: Path, alias: string): Option<Exports>
      reads this
    {
      match LastTarget(ImportsOf(importGraph, fromFile), alias)
      case Some(target) => if target in exports then Some(exports[target]) else None
      case None => None
    }

    /** Every alias that leads to the module finds these exports now, and no other alias finds anything else. */
    method IndexModule(path: Path, e: Exports)
      modifies this`exports
      ensures exports == old(exports)[path := e]
      ensures forall file, alias ::
                Behind(file, alias) == if LastTarget(ImportsOf(importGraph, file), alias) == Some(path) then Some(e)
                                       else old(Behind(file, alias))
    {
      exports := exports[path := e];
    }

    method RegisterImport(fromFile: Path, imp: ImportInfo)
      requires InStep(importGraph, aliasMap)
      modifies this`importGraph, this`aliasMap
      ensures InStep(importGraph, aliasMap)
      ensures importGraph == old(importGraph)[fromFile := ImportsOf(old(importGraph), fromFile) + [imp]]
      ensures aliasMap == old(aliasMap)[(fromFile, imp.alias) := imp.resolvedPath]
    {
      RegisterKeepsStep(importGraph, aliasMap, fromFile, imp);
      importGraph := importGraph[fromFile := ImportsOf(importGraph, fromFile) + [imp]];
      aliasMap := aliasMap[(fromFile, imp.alias) := imp.resolvedPath];
    }

    method ClearImports(fromFile: Path)
      requires InStep(importGraph, aliasMap)
      modifies this`importGraph, this`aliasMap
      ensures InStep(importGraph, aliasMap)
      ensures importGraph == old(importGraph) - {fromFile}
      ensures forall file, alias :: (file, alias) in aliasMap <==> file != fromFile && (file, alias) in old(aliasMap)
    {
      ClearKeepsStep(importGraph, aliasMap, fromFile);
      importGraph := importGraph - {fromFile};
      aliasMap := map k | k in aliasMap && k.0 != fromFile :: aliasMap[k];
    }

    method RemoveModule(path: Path)
      requires InStep(importGraph, aliasMap)
      modifies this
      ensures InStep(importGraph, aliasMap)
      ensures exports == old(exports) - {path} && importGraph == old(importGraph) - {path}
      ensures forall alias :: (path, alias) !in aliasMap
      ensures forall file, alias :: file != path ==>
                ((file, alias) in aliasMap <==> (file, alias) in old(aliasMap))
      ensures forall file, alias ::
                Behind(file, alias) ==
                if file == path || LastTarget(ImportsOf(importGraph, file), alias) == Some(path) then None
                else old(Behind(file, alias))
    {
      exports := exports - {path};
      ClearImports(path);
    }

    method ResolveAlias(fromFile: Path, alias: string) returns (target: Option<Path>)
      requires InStep(importGraph, aliasMap)
      ensures target == LastTarget(ImportsOf(importGraph, fromFile), alias)
      ensures target.Some? ==> Edge(importGraph, fromFile, target.value)
    {
      assert LastTarget(ImportsOf(importGraph, fromFile), alias) == Resolved(aliasMap, fromFile, alias);
      if (fromFile, alias) in aliasMap {
        AliasIsEdge(importGraph, aliasMap, fromFile, alias);
        return Some(aliasMap[(fromFile, alias)]);
      }
      return None;
    }

    /** Looks an alias up through the alias table and the exports, as the imports say. */
    method ResolveExports(fromFile: Path, alias: string) returns (e: Option<Exports>)
      requires InStep(importGraph, aliasMap)
      ensures e == Behind(fromFile, alias)
    {
      var target := ResolveAlias(fromFile, alias);
      if target.Some? && target.value in exports {
        return Some(exports[target.value]);
      }
      return None;
    }

    /** `Some` exactly when a circular import is reachable, and then a simple one. */
    method CheckCircularDeps(start: Path) returns (cycle: Option<seq<Path>>)
      ensures cycle.Some? <==> CycleReachable(importGraph, start)
      ensures cycle.Some? ==> IsCycle(importGraph, cycle.value) && Distinct(cycle.value[1..])
      ensures cycle.Some? ==> Reachable(importGraph, start, cycle.value[0])
    {
      var search := new CycleSearch();
      assert search.recStack + [start] == [start];
      cycle := search.DfsCycle(importGraph, start, Nodes(importGraph) + {start});
      if cycle.None? {
        FinishedReachesNoCycle(importGraph, search.finished, start);
      }
    }
  }
}
