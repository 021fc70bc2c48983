/** Path containment as it gates the sandbox mounts. */
module PathPolicy {
  import opened Prelude

  /** A cleaned absolute Windows path: its volume and the names below it. */
  datatype Path = Path(volume: string, names: seq<string>)

  /** Case folding; strings.EqualFold compares folded strings. */
  type Fold = string -> string

  predicate IsName(name: string) {
    name != "" && name != "." && name != ".." && '\\' !in name && '/' !in name
  }

  /** What Clean leaves of an absolute path: no empty, "." or ".." element. */
  predicate Clean(p: Path) {
    forall i :: 0 <= i < |p.names| ==> IsName(p.names[i])
  }

  predicate SameNames(fold: Fold, a: seq<string>, b: seq<string>) {
    |a| == |b| && forall i :: 0 <= i < |a| ==> fold(a[i]) == fold(b[i])
  }

  predicate SamePath(fold: Fold, a: Path, b: Path) {
    fold(a.volume) == fold(b.volume) && SameNames(fold, a.names, b.names)
  }

  /** How many leading names two lists share. */
  function Common(fold: Fold, a: seq<string>, b: seq<string>): (n: nat)
    ensures n <= |a| && n <= |b|
    ensures SameNames(fold, a[..n], b[..n])
    ensures n < |a| && n < |b| ==> fold(a[n]) != fold(b[n])
  {
    if a == [] || b == [] || fold(a[0]) != fold(b[0]) then 0 else
      var n := Common(fold, a[1..], b[1..]);
      assert forall i :: 0 < i <= n ==> a[i] == a[1..][i - 1] && b[i] == b[1..][i - 1];
      assert forall i :: 0 < i <= n ==> a[1..][..n][i - 1] == a[i] && b[1..][..n][i - 1] == b[i];
      n + 1
  }

  function Join(names: seq<string>): string {
    if names == [] then "."
    else if |names| == 1 then names[0]
    else names[0] + "\\" + Join(names[1..])
  }

  /** filepath.Rel on two cleaned absolute paths: up to the common ancestor, then down; an error across volumes. */
  function Rel(fold: Fold, base: Path, target: Path): Option<string> {
    if fold(base.volume) != fold(target.volume) then None
    else
      var n := Common(fold, base.names, target.names);
      Some(Join(seq(|base.names| - n, _ => "..") + target.names[n..]))
  }

  predicate GoesUp(relative: string) {
    relative == ".." || "..\\" <= relative
  }

  function ContainsPath(fold: Fold, root: Path, candidate: Path): bool {
    SamePath(fold, root, candidate)
    || match Rel(fold, root, candidate)
       case None => false
       case Some(relative) => !GoesUp(relative)
  }

  predicate PathsOverlap(fold: Fold, a: Path, b: Path) {
    ContainsPath(fold, a, b) || ContainsPath(fold, b, a)
  }

  // ---------------------------------------------------------------------------------------------

  /** Root's names are, up to case, the first names of the candidate. */
  predicate IsInside(fold: Fold, root: Path, candidate: Path) {
    && fold(root.volume) == fold(candidate.volume)
    && |root.names| <= |candidate.names|
    && forall i :: 0 <= i < |root.names| ==> fold(root.names[i]) == fold(candidate.names[i])
  }

  /** A joined path goes up exactly when its first element is ".."; a name like "..x" does not. */
  lemma JoinGoesUp(names: seq<string>)
    requires names != []
    requires names[0] == ".." || IsName(names[0])
    ensures GoesUp(Join(names)) <==> names[0] == ".."
  {
    var s, first := Join(names), names[0];
    if |names| > 1 {
      assert s == first + "\\" + Join(names[1..]);
      assert s[..|first|] == first && s[|first|] == '\\';
      if first == ".." {
        assert s[..3] == "..\\";
      }
    }
    assert |first| > 2 ==> first[2] in first;
    assert |first| == 1 ==> first == [first[0]];
    assert |first| == 2 ==> first == [first[0], first[1]];
  }

  lemma {:induction false} CommonOfInside(fold: Fold, a: seq<string>, b: seq<string>)
    requires |a| <= |b| && SameNames(fold, a, b[..|a|])
    ensures Common(fold, a, b) == |a|
  {
    if a != [] {
      assert b[0] == b[..|a|][0];
      forall i | 0 <= i < |a[1..]| ensures fold(a[1..][i]) == fold(b[1..][..|a[1..]|][i]) {
        assert b[..|a|][i + 1] == b[i + 1];
      }
      CommonOfInside(fold, a[1..], b[1..]);
    }
  }

  /** ContainsPath is the component-prefix order. */
  lemma ContainsIsPrefix(fold: Fold, root: Path, candidate: Path)
    requires Clean(root) && Clean(candidate)
    ensures ContainsPath(fold, root, candidate) <==> IsInside(fold, root, candidate)
  {
    if fold(root.volume) == fold(candidate.volume) {
      var n := Common(fold, root.names, candidate.names);
      if IsInside(fold, root, candidate) {
        CommonOfInside(fold, root.names, candidate.names);
      }
      var up := |root.names| - n;
      var parts := seq(up, _ => "..") + candidate.names[n..];
      assert Rel(fold, root, candidate) == Some(Join(parts));
      if up > 0 {
        assert parts[0] == "..";
        JoinGoesUp(parts);
        assert !SamePath(fold, root, candidate);
      } else {
        assert root.names[..n] == root.names;
        if candidate.names[n..] != [] {
          assert parts[0] == candidate.names[n] && IsName(candidate.names[n]);
          JoinGoesUp(parts);
        } else {
          assert parts == [];
        }
      }
    }
  }

  /** Two places above the same path lie one above the other; so paths that do not overlap share nothing. */
  lemma DisjointTrees(fold: Fold, a: Path, b: Path, p: Path)
    requires Clean(a) && Clean(b) && Clean(p)
    requires !PathsOverlap(fold, a, b)
    ensures !(ContainsPath(fold, a, p) && ContainsPath(fold, b, p))
  {
    ContainsIsPrefix(fold, a, b);
    ContainsIsPrefix(fold, b, a);
    ContainsIsPrefix(fold, a, p);
    ContainsIsPrefix(fold, b, p);
    if IsInside(fold, a, p) && IsInside(fold, b, p) {
      if |a.names| <= |b.names| {
        PrefixesNest(fold, a, b, p);
      } else {
        PrefixesNest(fold, b, a, p);
      }
    }
  }

  /** No path lies in both trees. */
  ghost predicate Disjoint(fold: Fold, a: Path, b: Path) {
    forall p: Path :: Clean(p) ==> !(IsInside(fold, a, p) && IsInside(fold, b, p))
  }

  /** Paths overlap exactly when some path lies in both of their trees. */
  lemma OverlapIsShared(fold: Fold, a: Path, b: Path)
    requires Clean(a) && Clean(b)
    ensures PathsOverlap(fold, a, b) <==> !Disjoint(fold, a, b)
  {
    ContainsIsPrefix(fold, a, b);
    ContainsIsPrefix(fold, b, a);
    assert a.names[..|a.names|] == a.names && b.names[..|b.names|] == b.names;
    assert IsInside(fold, a, a) && IsInside(fold, b, b);
    if !PathsOverlap(fold, a, b) {
      forall p: Path | Clean(p) ensures !(IsInside(fold, a, p) && IsInside(fold, b, p)) {
        ContainsIsPrefix(fold, a, p);
        ContainsIsPrefix(fold, b, p);
        DisjointTrees(fold, a, b, p);
      }
    }
  }

  lemma PrefixesNest(fold: Fold, a: Path, b: Path, p: Path)
    requires IsInside(fold, a, p) && IsInside(fold, b, p) && |a.names| <= |b.names|
    ensures IsInside(fold, a, b)
  {
    forall i | 0 <= i < |a.names| ensures fold(a.names[i]) == fold(b.names[i]) {
      assert p.names[..|a.names|][i] == p.names[i] == p.names[..|b.names|][i];
    }
  }

  // ---------------------------------------------------------------------------------------------
  // The path checks of a run configuration.

  /** A path as configured: only absolute ones are looked at further. */
  datatype Configured = NotAbsolute | Absolute(path: Path)

  /** `workspaceHost` and `codexHome` are what ValidateWorkspace makes of the configured host paths:
      the resolved path, or an error. `codexHome` is None when no Codex home is configured. */
  datatype RunPaths = RunPaths(
    workspaceHost: Result<Path, string>, workspaceContainer: Configured, workingDirectory: Configured,
    codexHome: Option<Result<Path, string>>, codexHomeContainer: Configured)

  predicate ContainerPathOk(c: Configured) {
    c.Absolute? && c.path.names != []
  }

  method ValidatePaths(fold: Fold, cfg: RunPaths) returns (accepted: bool)
    requires cfg.workspaceHost.Ok? ==> Clean(cfg.workspaceHost.value)
    requires cfg.codexHome.Some? && cfg.codexHome.value.Ok? ==> Clean(cfg.codexHome.value.value)
    requires cfg.workspaceContainer.Absolute? ==> Clean(cfg.workspaceContainer.path)
    requires cfg.workingDirectory.Absolute? ==> Clean(cfg.workingDirectory.path)
    requires cfg.codexHomeContainer.Absolute? ==> Clean(cfg.codexHomeContainer.path)
    ensures accepted <==>
            && cfg.workspaceHost.Ok?
            && cfg.workspaceContainer.Absolute? && cfg.workspaceContainer.path.names != []
            && cfg.workingDirectory.Absolute? && cfg.workingDirectory.path.names != []
            && IsInside(fold, cfg.workspaceContainer.path, cfg.workingDirectory.path)
            && (cfg.codexHome.Some? ==>
                  && cfg.codexHome.value.Ok?
                  && cfg.codexHomeContainer.Absolute? && cfg.codexHomeContainer.path.names != []
                  && Disjoint(fold, cfg.workspaceHost.value, cfg.codexHome.value.value)
                  && Disjoint(fold, cfg.workspaceContainer.path, cfg.codexHomeContainer.path))
  {
    if cfg.workspaceHost.Err? {
      return false;
    }
    if !ContainerPathOk(cfg.workspaceContainer) {
      return false;
    }
    if !ContainerPathOk(cfg.workingDirectory) {
      return false;
    }
    ContainsIsPrefix(fold, cfg.workspaceContainer.path, cfg.workingDirectory.path);
    if !ContainsPath(fold, cfg.workspaceContainer.path, cfg.workingDirectory.path) {
      return false;
    }
    if cfg.codexHome.Some? {
      if cfg.codexHome.value.Err? {
        return false;
      }
      if !ContainerPathOk(cfg.codexHomeContainer) {
        return false;
      }
      OverlapIsShared(fold, cfg.workspaceHost.value, cfg.codexHome.value.value);
      if PathsOverlap(fold, cfg.workspaceHost.value, cfg.codexHome.value.value) {
        return false;
      }
      OverlapIsShared(fold, cfg.workspaceContainer.path, cfg.codexHomeContainer.path);
      if PathsOverlap(fold, cfg.workspaceContainer.path, cfg.codexHomeContainer.path) {
        return false;
      }
    }
    return true;
  }
}
