/** Deleting one file inside a workspace, in a file system with symbolic links. */
module WorkspaceDelete {
  import opened Prelude
  import opened PathPolicy

  /** What a directory entry is. A link leads to an absolute path. */
  datatype Node = File | Dir | Other | Link(target: seq<string>)

  /** Entries by their real path: folded names from the top, the volume first. The top itself is a directory. */
  type FileSystem = map<seq<string>, Node>

  predicate IsDir(fs: FileSystem, at: seq<string>) {
    at == [] || (at in fs && fs[at].Dir?)
  }

  /** Where a walk ended, and how many more links it might have followed. */
  datatype Reached = Reached(at: seq<string>, budget: nat)

  /** The system's path resolution: names are walked one by one, links are followed while the budget lasts;
      the link a path ends in is followed only on demand. */
  function Resolve(fs: FileSystem, from: seq<string>, names: seq<string>, budget: nat,
      followLast: bool): Option<Reached>
    decreases budget, |names|
  {
    if names == [] then Some(Reached(from, budget))
    else
      var next := from + [names[0]];
      if !IsDir(fs, from) || next !in fs then None
      else if fs[next].Link? && (followLast || |names| > 1) then
        if budget == 0 then None else Resolve(fs, [], fs[next].target + names[1..], budget - 1, followLast)
      else Resolve(fs, next, names[1..], budget, followLast)
  }

  function Folded(fold: Fold, names: seq<string>): (folded: seq<string>)
    ensures |folded| == |names|
  {
    seq(|names|, i requires 0 <= i < |names| => fold(names[i]))
  }

  function Full(fold: Fold, p: Path): seq<string> {
    [fold(p.volume)] + Folded(fold, p.names)
  }

  /** Lstat: the entry a path names, its own final link not followed. `limit` is the system's link limit. */
  function Lstat(fs: FileSystem, names: seq<string>, limit: nat): Option<Reached> {
    Resolve(fs, [], names, limit, false)
  }

  /** The entry a path names can be inspected and is a link. */
  predicate IsLink(fs: FileSystem, limit: nat, names: seq<string>) {
    var info := Lstat(fs, names, limit);
    info.Some? && info.value.at in fs && fs[info.value.at].Link?
  }

  /** The first parents below the root, up to but not including number k, can be inspected and are no links. */
  predicate ParentsOk(fs: FileSystem, limit: nat, base: seq<string>, rel: seq<string>, k: nat)
    requires k <= |rel|
  {
    forall j :: 0 < j < k ==> ParentOk(fs, limit, base, rel[..j])
  }

  /** Root's names are, up to case, the first of the target's, which has more. */
  predicate StrictlyInside(fold: Fold, root: Path, target: Path) {
    && |root.names| < |target.names| && fold(root.volume) == fold(target.volume)
    && forall i :: 0 <= i < |root.names| ==> fold(root.names[i]) == fold(target.names[i])
  }

  datatype DeleteError = OutsideWorkspace | NotInspected | SymlinkedParent | NotRegular | NotRemoved

  /** rejectSymlinkParents: the parents between root and target, from the top; the first that cannot be inspected or is
      a link decides. */
  method RejectSymlinkParents(fs: FileSystem, limit: nat, base: seq<string>, rel: seq<string>)
    returns (error: Option<DeleteError>)
    requires rel != []
    ensures error.None? <==> ParentsOk(fs, limit, base, rel, |rel|)
    ensures error.Some? ==> error.value in {NotInspected, SymlinkedParent}
    ensures error == Some(SymlinkedParent) <==>
              exists k :: 0 < k < |rel| && ParentsOk(fs, limit, base, rel, k) && IsLink(fs, limit, base + rel[..k])
  {
    hide Lstat;
    var current := base;
    for i := 0 to |rel| - 1
      invariant current == base + rel[..i]
      invariant forall k :: 0 < k <= i ==> ParentOk(fs, limit, base, rel[..k])
    {
      current := current + [rel[i]];
      assert rel[..i + 1] == rel[..i] + [rel[i]];
      assert current == base + rel[..i + 1];
      var info := Lstat(fs, current, limit);
      if info.None? {
        return Some(NotInspected);
      }
      if info.value.at in fs && fs[info.value.at].Link? {
        return Some(SymlinkedParent);
      }
    }
    return None;
  }

  /** DeleteFile; `removable` is whether the system lets the final removal succeed. */
  method DeleteFile(fs: FileSystem, limit: nat, fold: Fold, root: Path, target: Path, removable: bool)
    returns (after: FileSystem, result: Result<(), DeleteError>)
    requires Clean(root) && Clean(target)
    ensures result.Err? ==> after == fs
    ensures result.Ok? <==> removable && Deletable(fs, limit, fold, root, target).Some?
    ensures result.Ok? ==> after == fs - {Deletable(fs, limit, fold, root, target).value}
    ensures result == Err(OutsideWorkspace) <==> !StrictlyInside(fold, root, target)
    ensures result == Err(SymlinkedParent) <==>
              StrictlyInside(fold, root, target)
              && var base, rel := Full(fold, root), Folded(fold, target.names[|root.names|..]);
              exists k :: 0 < k < |rel| && ParentsOk(fs, limit, base, rel, k) && IsLink(fs, limit, base + rel[..k])
    ensures result == Err(NotRegular) <==>
              StrictlyInside(fold, root, target)
              && var base, rel := Full(fold, root), Folded(fold, target.names[|root.names|..]);
              && ParentsOk(fs, limit, base, rel, |rel|)
              && var info := Lstat(fs, Full(fold, target), limit);
                 info.Some? && !(info.value.at in fs && fs[info.value.at].File?)
    ensures result == Err(NotRemoved) <==> !removable && Deletable(fs, limit, fold, root, target).Some?
  {
    hide Resolve;
    hide Lstat;
    hide Common;
    hide Join;
    ContainsIsPrefix(fold, root, target);
    if SamePath(fold, root, target) || !ContainsPath(fold, root, target) {
      return fs, Err(OutsideWorkspace);
    }
    assert StrictlyInside(fold, root, target);
    SplitTarget(fold, root, target);
    hide StrictlyInside;
    hide ParentOk;
    hide Folded;
    var base, rel := Full(fold, root), Folded(fold, target.names[|root.names|..]);
    var error := RejectSymlinkParents(fs, limit, base, rel);
    if error.Some? {
      ghost var k :| 0 < k < |rel| && !ParentOk(fs, limit, base, rel[..k]);
      NotDeletable(fs, limit, fold, root, target, k);
      return fs, Err(error.value);
    }
    if Deletable(fs, limit, fold, root, target).Some? {
      DeletableIsSeen(fs, limit, fold, root, target);
    }
    var info := Lstat(fs, Full(fold, target), limit);
    if info.None? {
      return fs, Err(NotInspected);
    }
    if info.value.at !in fs || !fs[info.value.at].File? {
      return fs, Err(NotRegular);
    }
    SeenIsDeletable(fs, limit, fold, root, target);
    if !removable {
      return fs, Err(NotRemoved);
    }
    after := fs - {info.value.at};
    result := Ok(());
  }

  predicate ParentOk(fs: FileSystem, limit: nat, base: seq<string>, rel: seq<string>) {
    var info := Lstat(fs, base + rel, limit);
    info.Some? && !(info.value.at in fs && fs[info.value.at].Link?)
  }

  /** The file a call may delete: the target lies strictly inside the root, the root resolves to a directory,
      the names between are directories below it - so no link is crossed - and the last one is a regular file. */
  function Deletable(fs: FileSystem, limit: nat, fold: Fold, root: Path, target: Path): Option<seq<string>>
  {
    if !IsInside(fold, root, target) || |root.names| == |target.names| then None
    else
      match Resolve(fs, [], Full(fold, root), limit, true)
      case None => None
      case Some(top) =>
        var rel := Folded(fold, target.names[|root.names|..]);
        if PlainPath(fs, top.at, rel) then Some(top.at + rel) else None
  }

  /** Every name but the last is a directory, the last one a regular file, all lexically below `top`. */
  predicate PlainPath(fs: FileSystem, top: seq<string>, rel: seq<string>) {
    && rel != []
    && (forall k :: 0 <= k < |rel| ==> IsDir(fs, top + rel[..k]))
    && top + rel in fs && fs[top + rel].File?
  }

  lemma SplitTarget(fold: Fold, root: Path, target: Path)
    requires IsInside(fold, root, target)
    ensures Full(fold, target) == Full(fold, root) + Folded(fold, target.names[|root.names|..])
  {
    var n := |root.names|;
    assert Folded(fold, target.names) == Folded(fold, root.names) + Folded(fold, target.names[n..]) by {
      forall i | 0 <= i < n ensures fold(target.names[i]) == fold(root.names[i]) {
        assert target.names[..n][i] == target.names[i];
      }
    }
  }

  // ---------------------------------------------------------------------------------------------

  /** Resolving a + b resolves a, links and all, and goes on from there. */
  lemma {:induction false} ResolveAppend(fs: FileSystem, from: seq<string>, a: seq<string>, b: seq<string>,
      budget: nat, followLast: bool)
    requires b != []
    ensures Resolve(fs, from, a + b, budget, followLast) ==
            match Resolve(fs, from, a, budget, true)
            case None => None
            case Some(r) => Resolve(fs, r.at, b, r.budget, followLast)
    decreases budget, |a|
  {
    if a == [] {
      assert a + b == b;
    } else {
      var next := from + [a[0]];
      assert (a + b)[0] == a[0] && (a + b)[1..] == a[1..] + b;
      if IsDir(fs, from) && next in fs {
        if fs[next].Link? {
          if budget > 0 {
            assert fs[next].target + (a[1..] + b) == (fs[next].target + a[1..]) + b;
            ResolveAppend(fs, [], fs[next].target + a[1..], b, budget - 1, followLast);
          }
        } else {
          ResolveAppend(fs, next, a[1..], b, budget, followLast);
        }
      }
    }
  }

  /** Names that are directories resolve to themselves; the last one may be anything if its link is not followed. */
  lemma {:induction false} PlainResolves(fs: FileSystem, from: seq<string>, names: seq<string>, budget: nat)
    requires forall k :: 0 <= k < |names| ==> IsDir(fs, from + names[..k])
    requires names != [] ==> from + names in fs
    ensures Resolve(fs, from, names, budget, false) == Some(Reached(from + names, budget))
    decreases |names|
  {
    if names == [] {
      assert from + names == from;
    } else {
      var next := from + [names[0]];
      assert from + names[..0] == from;
      assert next + names[1..] == from + names;
      assert |names| == 1 ==> names == [names[0]];
      if |names| > 1 {
        assert from + names[..1] == next;
        assert IsDir(fs, from + names[..1]);
        forall k | 0 <= k < |names[1..]| ensures IsDir(fs, next + names[1..][..k]) {
          assert next + names[1..][..k] == from + names[..k + 1];
        }
        PlainResolves(fs, next, names[1..], budget);
      } else {
        assert names[1..] == [];
      }
    }
  }

  /** If every parent can be inspected and is no link, and the target too, the parents are directories
      below the resolved root: the walk never left it. */
  lemma StaysInside(fs: FileSystem, limit: nat, base: seq<string>, rel: seq<string>)
    requires rel != []
    requires forall k :: 0 < k < |rel| ==> ParentOk(fs, limit, base, rel[..k])
    requires Lstat(fs, base + rel, limit).Some?
    ensures Resolve(fs, [], base, limit, true).Some?
    ensures var top := Resolve(fs, [], base, limit, true).value;
            && Lstat(fs, base + rel, limit).value.at == top.at + rel
            && forall k :: 0 <= k < |rel| ==> IsDir(fs, top.at + rel[..k])
  {
    ResolveAppend(fs, [], base, rel, limit, false);
    var top := Resolve(fs, [], base, limit, true).value;
    forall k | 0 < k < |rel|
      ensures Resolve(fs, top.at, rel[..k], top.budget, false).Some?
      ensures var at := Resolve(fs, top.at, rel[..k], top.budget, false).value.at; !(at in fs && fs[at].Link?)
    {
      assert ParentOk(fs, limit, base, rel[..k]);
      ResolveAppend(fs, [], base, rel[..k], limit, false);
    }
    assert rel[..|rel|] == rel;
    StaysPlain(fs, top.at, rel, top.budget, |rel|);
  }

  lemma {:induction false} StaysPlain(fs: FileSystem, top: seq<string>, rel: seq<string>, budget: nat, n: nat)
    requires 0 < n <= |rel|
    requires Resolve(fs, top, rel[..n], budget, false).Some?
    requires forall k :: 0 < k < n ==>
      Resolve(fs, top, rel[..k], budget, false).Some? &&
      var at := Resolve(fs, top, rel[..k], budget, false).value.at; !(at in fs && fs[at].Link?)
    ensures Resolve(fs, top, rel[..n], budget, false) == Some(Reached(top + rel[..n], budget))
    ensures top + rel[..n] in fs
    ensures forall k :: 0 <= k < n ==> IsDir(fs, top + rel[..k])
  {
    assert rel[..n] == rel[..n - 1] + [rel[n - 1]];
    ResolveAppend(fs, top, rel[..n - 1], [rel[n - 1]], budget, false);
    if n == 1 {
      assert rel[..0] == [] && top + [] == top;
    } else {
      StaysPlain(fs, top, rel, budget, n - 1);
      FollowIsIdle(fs, top, rel[..n - 1], budget);
    }
    var at := top + rel[..n - 1];
    assert at + [rel[n - 1]] == top + rel[..n];
    assert Resolve(fs, at, [rel[n - 1]], budget, false).Some?;
    assert [rel[n - 1]][1..] == [];
  }

  /** If the last name is no link, following it makes no difference. */
  lemma {:induction false} FollowIsIdle(fs: FileSystem, from: seq<string>, names: seq<string>, budget: nat)
    requires Resolve(fs, from, names, budget, false).Some?
    requires var at := Resolve(fs, from, names, budget, false).value.at; !(at in fs && fs[at].Link?)
    ensures Resolve(fs, from, names, budget, true) == Resolve(fs, from, names, budget, false)
    decreases budget, |names|
  {
    if names != [] {
      var next := from + [names[0]];
      assert |names| == 1 ==> names[1..] == [];
      if fs[next].Link? {
        if |names| > 1 {
          FollowIsIdle(fs, [], fs[next].target + names[1..], budget - 1);
        }
      } else {
        FollowIsIdle(fs, next, names[1..], budget);
      }
    }
  }

  lemma SeenIsDeletable(fs: FileSystem, limit: nat, fold: Fold, root: Path, target: Path)
    requires IsInside(fold, root, target) && |root.names| < |target.names|
    requires var base, rel := Full(fold, root), Folded(fold, target.names[|root.names|..]);
             forall k :: 0 < k < |rel| ==> ParentOk(fs, limit, base, rel[..k])
    requires var info := Lstat(fs, Full(fold, target), limit);
             info.Some? && info.value.at in fs && fs[info.value.at].File?
    ensures Deletable(fs, limit, fold, root, target) == Some(Lstat(fs, Full(fold, target), limit).value.at)
  {
    hide Resolve;
    SplitTarget(fold, root, target);
    StaysInside(fs, limit, Full(fold, root), Folded(fold, target.names[|root.names|..]));
  }

  lemma DeletableIsSeen(fs: FileSystem, limit: nat, fold: Fold, root: Path, target: Path)
    requires Deletable(fs, limit, fold, root, target).Some?
    ensures Lstat(fs, Full(fold, target), limit).Some?
    ensures Lstat(fs, Full(fold, target), limit).value.at == Deletable(fs, limit, fold, root, target).value
    ensures var file := Deletable(fs, limit, fold, root, target).value; file in fs && fs[file].File?
  {
    SplitTarget(fold, root, target);
    var base, rel := Full(fold, root), Folded(fold, target.names[|root.names|..]);
    var top := Resolve(fs, [], base, limit, true).value;
    ResolveAppend(fs, [], base, rel, limit, false);
    PlainResolves(fs, top.at, rel, top.budget);
  }

  lemma NotDeletable(fs: FileSystem, limit: nat, fold: Fold, root: Path, target: Path, k: nat)
    requires IsInside(fold, root, target) && 0 < k < |target.names| - |root.names|
    requires !ParentOk(fs, limit, Full(fold, root), Folded(fold, target.names[|root.names|..])[..k])
    ensures Deletable(fs, limit, fold, root, target).None?
  {
    var base, rel := Full(fold, root), Folded(fold, target.names[|root.names|..]);
    var top := Resolve(fs, [], base, limit, true);
    if top.Some? && PlainPath(fs, top.value.at, rel) {
      PlainPrefix(fs, top.value.at, rel, k);
      PlainResolves(fs, top.value.at, rel[..k], top.value.budget);
      ResolveAppend(fs, [], base, rel[..k], limit, false);
      assert false;
    }
  }

  lemma PlainPrefix(fs: FileSystem, top: seq<string>, rel: seq<string>, k: nat)
    requires PlainPath(fs, top, rel) && 0 < k < |rel|
    ensures forall j :: 0 <= j < k ==> IsDir(fs, top + rel[..k][..j])
    ensures top + rel[..k] in fs && fs[top + rel[..k]].Dir?
  {
    forall j | 0 <= j < k ensures IsDir(fs, top + rel[..k][..j]) {
      assert rel[..k][..j] == rel[..j];
    }
    assert IsDir(fs, top + rel[..k]);
  }
}
