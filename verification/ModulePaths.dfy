/**
 Climbing out of a directory for `../` imports, on Unix paths.
 */
module ModulePaths {
  import opened Options

  /** A path as its components: the root and `.` only ever come first. */
  datatype Component = RootDir | CurDir | ParentDir | Normal(name: string)

  type PathBuf = seq<Component>

  predicate WellFormed(p: PathBuf) {
    forall i :: 0 < i < |p| ==> p[i].ParentDir? || p[i].Normal?
  }

  predicate IsAbsolute(p: PathBuf) {
    p != [] && p[0].RootDir?
  }

  // --------------------------------------------------------------------------
  // What a path denotes
  // --------------------------------------------------------------------------

  /**
   A directory: under the root, or `ups` levels above the current directory, and
   down the names from there.
   */
  datatype Place = Place(absolute: bool, ups: nat, names: seq<string>)

  /** The directory above; above the root there is only the root. */
  function Above(d: Place): Place {
    if d.names != [] then d.(names := d.names[..|d.names| - 1])
    else if d.absolute then d
    else d.(ups := d.ups + 1)
  }

  function Ancestor(d: Place, n: nat): Place {
    if n == 0 then d else Above(Ancestor(d, n - 1))
  }

  /** The directory a path leads to, taken component by component. */
  function Denotes(p: PathBuf): Place {
    if p == [] then Place(false, 0, [])
    else
      var d := Denotes(p[..|p| - 1]);
      match p[|p| - 1]
      case RootDir => Place(true, 0, [])
      case CurDir => d
      case ParentDir => Above(d)
      case Normal(name) => d.(names := d.names + [name])
  }

  lemma DenotesSnoc(p: PathBuf, c: Component)
    ensures Denotes(p + [c]) ==
            match c
            case RootDir => Place(true, 0, [])
            case CurDir => Denotes(p)
            case ParentDir => Above(Denotes(p))
            case Normal(name) => Denotes(p).(names := Denotes(p).names + [name])
  {
    assert (p + [c])[..|p|] == p;
  }

  /** The ancestor drops names while there are any; further up it is the root, or levels above the current directory. */
  lemma {:induction false} AncestorDropsNames(d: Place, n: nat)
    ensures var kept := if n <= |d.names| then |d.names| - n else 0;
            var over := if n <= |d.names| || d.absolute then 0 else n - |d.names|;
            Ancestor(d, n) == Place(d.absolute, d.ups + over, d.names[..kept])
  {
    if n > 0 {
      AncestorDropsNames(d, n - 1);
    }
  }

  /** Every component behind the root is a name. */
  predicate OnlyNames(p: PathBuf) {
    forall i :: 0 < i < |p| ==> p[i].Normal?
  }

  lemma {:induction false} AbsoluteNames(p: PathBuf)
    requires WellFormed(p) && IsAbsolute(p)
    ensures Denotes(p).absolute && |Denotes(p).names| < |p|
    ensures OnlyNames(p) ==> |Denotes(p).names| == |p| - 1
  {
    if |p| > 1 {
      AbsoluteNames(p[..|p| - 1]);
    }
  }

  lemma {:induction false} AncestorSum(d: Place, m: nat, n: nat)
    ensures Ancestor(d, m + n) == Ancestor(Ancestor(d, m), n)
  {
    if n > 0 {
      AncestorSum(d, m, n - 1);
    }
  }

  // --------------------------------------------------------------------------
  // Climbing
  // --------------------------------------------------------------------------

  /** The path climbs past the root: absolute, spelled with names only, and too few of them. */
  predicate PastRoot(base: PathBuf, levels: nat) {
    IsAbsolute(base) && OnlyNames(base) && |Denotes(base).names| < levels
  }

  /** One step of the climb. */
  function StepOut(p: PathBuf): PathBuf {
    if p != [] && p[|p| - 1].Normal? then p[..|p| - 1] else p + [ParentDir]
  }

  lemma StepOutClimbs(p: PathBuf)
    requires WellFormed(p) && (p != [] ==> !p[|p| - 1].RootDir?)
    ensures WellFormed(StepOut(p)) && Denotes(StepOut(p)) == Above(Denotes(p))
    ensures IsAbsolute(StepOut(p)) <==> IsAbsolute(p)
    ensures IsAbsolute(p) ==> (OnlyNames(StepOut(p)) <==> OnlyNames(p))
    ensures IsAbsolute(p) && OnlyNames(p) ==> |StepOut(p)| + 1 == |p|
  {
    if p != [] && p[|p| - 1].Normal? {
      PopsName(p);
    } else {
      DenotesSnoc(p, ParentDir);
      assert StepOut(p)[|p|].ParentDir?;
    }
  }

  /** `levels` steps of the climb; nothing when it meets the root. */
  function Climbed(baseDir: PathBuf, levels: nat): Option<PathBuf> {
    if levels == 0 then Some(if baseDir == [CurDir] then [] else baseDir)
    else
      match Climbed(baseDir, levels - 1)
      case None => None
      case Some(p) => if p != [] && p[|p| - 1].RootDir? then None else Some(StepOut(p))
  }

  /**
   The directory `levels` above, staying relative if `base` was. A name is stepped
   out of; anything else is climbed by appending `..`.
   */
  method Climb(baseDir: PathBuf, levels: nat) returns (r: Option<PathBuf>)
    requires WellFormed(baseDir)
    ensures r == Climbed(baseDir, levels)
    ensures r.None? <==> PastRoot(baseDir, levels)
    ensures r.Some? ==> Denotes(r.value) == Ancestor(Denotes(baseDir), levels)
  {
    var base := if baseDir == [CurDir] then [] else baseDir;
    var i := 0;
    while i < levels
      invariant 0 <= i <= levels && Climbed(baseDir, i) == Some(base)
    {
      if base != [] && base[|base| - 1].RootDir? {
        FailureLasts(baseDir, i + 1, levels);
        ClimbLeadsToAncestor(baseDir, levels);
        return None;
      }
      if base != [] && base[|base| - 1].Normal? {
        base := base[..|base| - 1];
      } else {
        base := base + [ParentDir];
      }
      i := i + 1;
    }
    ClimbLeadsToAncestor(baseDir, levels);
    return Some(base);
  }

  lemma {:induction false} FailureLasts(baseDir: PathBuf, m: nat, n: nat)
    requires m <= n && Climbed(baseDir, m).None?
    ensures Climbed(baseDir, n).None?
    decreases n
  {
    if m < n {
      FailureLasts(baseDir, m, n - 1);
    }
  }

  lemma StartDenotes(baseDir: PathBuf)
    requires WellFormed(baseDir)
    ensures Denotes(Climbed(baseDir, 0).value) == Denotes(baseDir)
  {
    if baseDir == [CurDir] {
      DenotesSnoc([], CurDir);
      assert [] + [CurDir] == [CurDir];
    }
  }

  /** The climb leads to the ancestor, and fails exactly when it would pass the root by names alone. */
  lemma {:induction false} ClimbLeadsToAncestor(baseDir: PathBuf, levels: nat)
    requires WellFormed(baseDir)
    ensures Climbed(baseDir, levels).None? <==> PastRoot(baseDir, levels)
    ensures Climbed(baseDir, levels).Some? ==> Climbs(baseDir, levels, Climbed(baseDir, levels).value)
  {
    if IsAbsolute(baseDir) {
      AbsoluteNames(baseDir);
    }
    if levels == 0 {
      StartDenotes(baseDir);
    } else {
      ClimbLeadsToAncestor(baseDir, levels - 1);
      var before := Climbed(baseDir, levels - 1);
      if before.Some? && (before.value != [] ==> !before.value[|before.value| - 1].RootDir?) {
        StepOutClimbs(before.value);
      }
    }
  }

  /** What a climb that did not fail has reached. */
  predicate Climbs(baseDir: PathBuf, levels: nat, p: PathBuf) {
    && WellFormed(p) && Denotes(p) == Ancestor(Denotes(baseDir), levels)
    && (IsAbsolute(p) <==> IsAbsolute(baseDir))
    && (IsAbsolute(p) ==> (OnlyNames(p) <==> OnlyNames(baseDir)))
    && (IsAbsolute(p) && OnlyNames(p) ==> |p| + levels == |baseDir|)
  }

  lemma PopsName(p: PathBuf)
    requires p != [] && p[|p| - 1].Normal? && WellFormed(p)
    ensures Denotes(p[..|p| - 1]) == Above(Denotes(p)) && WellFormed(p[..|p| - 1])
  {
    var d := Denotes(p[..|p| - 1]);
    assert Denotes(p).names[..|Denotes(p).names| - 1] == d.names;
  }

  /** Climbing in two stages leads where climbing at once does, or fails where it does. */
  lemma ClimbInStages(base: PathBuf, m: nat, n: nat)
    requires WellFormed(base)
    ensures Climbed(base, m).Some? ==> WellFormed(Climbed(base, m).value)
    ensures var once := Climbed(base, m + n);
            var staged := if Climbed(base, m).None? then None else Climbed(Climbed(base, m).value, n);
            && (once.None? <==> staged.None?)
            && (once.Some? ==> Denotes(once.value) == Denotes(staged.value))
  {
    ClimbLeadsToAncestor(base, m);
    ClimbLeadsToAncestor(base, m + n);
    AncestorSum(Denotes(base), m, n);
    if IsAbsolute(base) {
      AbsoluteNames(base);
      AncestorDropsNames(Denotes(base), m);
    }
    if Climbed(base, m).Some? {
      ClimbLeadsToAncestor(Climbed(base, m).value, n);
    }
  }

  // --------------------------------------------------------------------------
  // Resolving an import
  // --------------------------------------------------------------------------

  function Names(components: seq<string>): PathBuf {
    if components == [] then [] else Names(components[..|components| - 1]) + [Normal(components[|components| - 1])]
  }

  /** The file of a relative import: up `levels`, then down the components. */
  function Resolved(baseDir: PathBuf, levels: nat, components: seq<string>): Option<PathBuf> {
    match Climbed(baseDir, levels)
    case None => None
    case Some(p) => Some(p + Names(components))
  }

  method ResolveRelative(baseDir: PathBuf, levels: nat, components: seq<string>) returns (r: Option<PathBuf>)
    requires WellFormed(baseDir)
    ensures r == Resolved(baseDir, levels, components)
  {
    var up := Climb(baseDir, levels);
    if up.None? {
      return None;
    }
    var resolved := up.value;
    assert components[..0] == [] && resolved + [] == resolved;
    var i := 0;
    while i < |components|
      invariant 0 <= i <= |components|
      invariant resolved == up.value + Names(components[..i])
    {
      assert components[..i + 1][..i] == components[..i];
      resolved := resolved + [Normal(components[i])];
      i := i + 1;
    }
    assert components[..|components|] == components;
    return Some(resolved);
  }

  lemma Rejoin<T>(a: seq<T>, b: seq<T>, c: seq<T>)
    ensures a + (b + c) == (a + b) + c
  {
  }

  lemma {:induction false} DenotesNames(p: PathBuf, components: seq<string>)
    ensures Denotes(p + Names(components)) == Denotes(p).(names := Denotes(p).names + components)
    decreases |components|
  {
    if components == [] {
      assert p + [] == p && Denotes(p).names + [] == Denotes(p).names;
    } else {
      var front, last := components[..|components| - 1], components[|components| - 1];
      DenotesNames(p, front);
      DenotesSnoc(p + Names(front), Normal(last));
      Rejoin(p, Names(front), [Normal(last)]);
      Rejoin(Denotes(p).names, front, [last]);
      assert components == front + [last];
    }
  }

  /** An import leads to the named place below the ancestor, or climbs past the root. */
  lemma ResolvedLeadsBelowAncestor(baseDir: PathBuf, levels: nat, components: seq<string>)
    requires WellFormed(baseDir)
    ensures Resolved(baseDir, levels, components).None? <==> PastRoot(baseDir, levels)
    ensures Resolved(baseDir, levels, components).Some? ==>
              var up := Ancestor(Denotes(baseDir), levels);
              Denotes(Resolved(baseDir, levels, components).value) == up.(names := up.names + components)
  {
    ClimbLeadsToAncestor(baseDir, levels);
    if Climbed(baseDir, levels).Some? {
      DenotesNames(Climbed(baseDir, levels).value, components);
    }
  }

  /** However the importing file's directory is spelled, an import leads to one place. */
  lemma SpellingDoesNotMatter(a: PathBuf, b: PathBuf, levels: nat, components: seq<string>)
    requires WellFormed(a) && WellFormed(b) && Denotes(a) == Denotes(b)
    requires !IsAbsolute(a) && !IsAbsolute(b)
    ensures Resolved(a, levels, components).Some? && Resolved(b, levels, components).Some?
    ensures Denotes(Resolved(a, levels, components).value) == Denotes(Resolved(b, levels, components).value)
  {
    ResolvedLeadsBelowAncestor(a, levels, components);
    ResolvedLeadsBelowAncestor(b, levels, components);
  }

  /** For absolute bases spelling can matter: `/..` is the root and never fails, `/` fails at once. */
  lemma RootSpelledTwoWays(levels: nat)
    ensures Denotes([RootDir]) == Denotes([RootDir, ParentDir]) == Place(true, 0, [])
    ensures Climbed([RootDir, ParentDir], levels).Some?
    ensures levels > 0 ==> Climbed([RootDir], levels).None?
  {
    DenotesSnoc([], RootDir);
    DenotesSnoc([RootDir], ParentDir);
    assert [] + [RootDir] == [RootDir] && [RootDir] + [ParentDir] == [RootDir, ParentDir];
    assert [RootDir, ParentDir][1].ParentDir?;
    ClimbLeadsToAncestor([RootDir, ParentDir], levels);
    ClimbLeadsToAncestor([RootDir], levels);
  }
}
