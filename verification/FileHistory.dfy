/** What the file maps and the verdicts mean in terms of the whole event history. */
module FileHistory {
  import opened Prelude
  import opened FileCorrelation

  function Run(es: seq<FileInput>): Maps {
    if es == [] then NO_MAPS else Handle(Run(es[..|es| - 1]), es[|es| - 1]).0
  }

  /** Event n of the run is a violation. */
  predicate Violation(es: seq<FileInput>, n: nat)
    requires n < |es|
  {
    !Handle(Run(es[..n]), es[n]).1
  }

  // ---------------------------------------------------------------------------------------------
  // Pending creates.

  /** An accepted create or open of a protected non-directory under IRP r. */
  predicate Opens(e: FileInput, r: nat) {
    e.eventId == 12 && e.inJob && !OpensDirectory(e) && Protected(e, NameOf(e)) && IrpOf(e) == r != 0
  }

  predicate Completes(e: FileInput, r: nat) {
    e.eventId == 24 && IrpOf(e) == r
  }

  /** Event j is the latest accepted protected open under IRP r, and nothing completed r since. */
  ghost predicate PendingSince(es: seq<FileInput>, r: nat, j: nat) {
    && j < |es| && Opens(es[j], r)
    && forall m :: j < m < |es| ==> !Completes(es[m], r) && !Opens(es[m], r)
  }

  lemma PendingIsUnique(es: seq<FileInput>, r: nat, i: nat, j: nat)
    requires PendingSince(es, r, i) && PendingSince(es, r, j)
    ensures i == j
  {
  }

  ghost function MatchingOpen(es: seq<FileInput>, r: nat): Option<nat> {
    if j: nat :| PendingSince(es, r, j) then Some(j) else None
  }

  /** The pending map holds exactly the open requests the history leaves open. */
  lemma {:induction false} PendingIsHistory(es: seq<FileInput>, r: nat)
    ensures r in Run(es).pending <==> MatchingOpen(es, r).Some?
    ensures r in Run(es).pending ==>
              var j := MatchingOpen(es, r).value;
              && PendingSince(es, r, j)
              && Run(es).pending[r] == PendingCreate(NameOf(es[j]), ObjectOf(es[j]), es[j].processId)
  {
    if es == [] {
      assert forall j: nat :: !PendingSince(es, r, j);
    } else {
      var n := |es| - 1;
      var front, e := es[..n], es[n];
      PendingIsHistory(front, r);
      Pointers(e);
      Bits(e);
      Protection(e, NameOf(e));
      hide FileInput.Succeeded;
      hide FileInput.DirectoryOpen;
      hide FileInput.ProtectedOutside;
      hide OpensDirectory;
      hide Protected;
      if Opens(e, r) {
        OnlyPending(es, r, n);
      } else if Completes(e, r) {
        assert forall j: nat :: !PendingSince(es, r, j);
      } else {
        PendingUnaffected(Run(front), e, r);
        forall j: nat ensures PendingSince(es, r, j) <==> PendingSince(front, r, j) {
          assert forall m :: 0 <= m < n ==> front[m] == es[m];
        }
        if j: nat :| PendingSince(front, r, j) {
          OnlyPending(front, r, j);
          OnlyPending(es, r, j);
        }
      }
    }
  }

  lemma OnlyPending(es: seq<FileInput>, r: nat, j: nat)
    requires PendingSince(es, r, j)
    ensures MatchingOpen(es, r) == Some(j)
  {
    assert exists i: nat :: PendingSince(es, r, i);
    PendingIsUnique(es, r, j, MatchingOpen(es, r).value);
  }

  lemma PendingUnaffected(m: Maps, e: FileInput, r: nat)
    requires !Opens(e, r) && !Completes(e, r)
    ensures r in Handle(m, e).0.pending <==> r in m.pending
    ensures r in m.pending ==> Handle(m, e).0.pending[r] == m.pending[r]
  {
  }

  /** Alert exactness: a completion is a violation exactly when it carries a success status, an accepted
      protected open under its nonzero IRP is still uncompleted, and the latest such path is no directory. */
  lemma CompletionViolates(es: seq<FileInput>, n: nat)
    requires n < |es| && es[n].eventId == 24
    ensures Violation(es, n) <==>
              && Successful(es[n])
              && exists j: nat :: PendingSince(es[..n], IrpOf(es[n]), j) && !es[n].os.isDirectory(NameOf(es[j]))
  {
    var r := IrpOf(es[n]);
    PendingIsHistory(es[..n], r);
    if j: nat :| PendingSince(es[..n], r, j) {
      OnlyPending(es[..n], r, j);
      assert es[..n][j] == es[j];
    }
  }

  /** So each pending create leads to at most one violation. */
  lemma OneViolationPerCreate(es: seq<FileInput>, n1: nat, n2: nat, j: nat)
    requires n1 < n2 < |es| && es[n1].eventId == es[n2].eventId == 24
    requires Violation(es, n1) && PendingSince(es[..n1], IrpOf(es[n1]), j)
    ensures !PendingSince(es[..n2], IrpOf(es[n2]), j)
  {
    if PendingSince(es[..n2], IrpOf(es[n2]), j) {
      assert es[..n1][j] == es[..n2][j] == es[j];
      assert IrpOf(es[n1]) == IrpOf(es[n2]);
      assert Completes(es[..n2][n1], IrpOf(es[n2]));
    }
  }

  // ---------------------------------------------------------------------------------------------
  // The last write to an entry, as a position in the history.

  /** Event i wrote, and since then nothing wrote or cleared. */
  predicate Last(writes: seq<Option<string>>, clears: seq<bool>, i: nat)
    requires |writes| == |clears|
  {
    i < |writes| && writes[i].Some? && forall m :: i < m < |writes| ==> writes[m].None? && !clears[m]
  }

  /** Path p was written last. */
  ghost predicate LastIs(writes: seq<Option<string>>, clears: seq<bool>, p: string)
    requires |writes| == |clears|
  {
    exists i: nat :: Last(writes, clears, i) && writes[i] == Some(p)
  }

  lemma LastSnoc(writes: seq<Option<string>>, clears: seq<bool>, w: Option<string>, c: bool, p: string)
    requires |writes| == |clears|
    ensures LastIs(writes + [w], clears + [c], p) <==> if w.Some? then w == Some(p) else !c && LastIs(writes, clears, p)
  {
    var n := |writes|;
    var ws, cs := writes + [w], clears + [c];
    assert ws[n] == w && cs[n] == c;
    if w.Some? {
      assert Last(ws, cs, n);
      assert forall i: nat :: Last(ws, cs, i) ==> i == n;
    } else if c {
      assert forall i: nat :: !Last(ws, cs, i);
    } else {
      assert forall m :: 0 <= m < n ==> ws[m] == writes[m] && cs[m] == clears[m];
      forall i: nat ensures Last(ws, cs, i) <==> Last(writes, clears, i) {
        assert Last(ws, cs, i) ==> i < n;
      }
    }
  }

  // ---------------------------------------------------------------------------------------------
  // The FileObject map.

  /** The path event n gives to FileObject o, read off the history before it. */
  ghost function WrittenPath(es: seq<FileInput>, n: nat, o: nat): Option<string>
    requires n < |es|
  {
    var e := es[n];
    if o == 0 then None
    else if e.eventId == 24 then
      match MatchingOpen(es[..n], IrpOf(e))
      case None => None
      case Some(j) =>
        if j < n && Successful(e) && !e.os.isDirectory(NameOf(es[j])) && ObjectOf(es[j]) == o
        then Some(NameOf(es[j])) else None
    else DirectWrite(e, o)
  }

  /** What an event other than a completion writes: each of the three guards its write its own way. */
  function DirectWrite(e: FileInput, o: nat): Option<string> {
    if !e.inJob || ObjectOf(e) != o then None
    else if e.eventId == 12 && Named(e.fileName) then Some(NameOf(e))
    else if e.eventId == 30 && NameOf(e) != "" then Some(NameOf(e))
    else if e.eventId == 27 && Named(e.filePath) then Some(e.os.normalize(e.filePath.value))
    else None
  }

  predicate Closes(e: FileInput, o: nat) {
    e.eventId == 14 && e.inJob && ObjectOf(e) == o
  }

  ghost function Writes(es: seq<FileInput>, o: nat): (marks: seq<Option<string>>)
    ensures |marks| == |es|
  {
    seq(|es|, n requires 0 <= n < |es| => WrittenPath(es, n, o))
  }

  function CloseMarks(es: seq<FileInput>, o: nat): (marks: seq<bool>)
    ensures |marks| == |es|
  {
    seq(|es|, n requires 0 <= n < |es| => Closes(es[n], o))
  }

  lemma WriteIsLocal(es: seq<FileInput>, front: seq<FileInput>, n: nat, o: nat)
    requires n < |front| <= |es| && front == es[..|front|]
    ensures WrittenPath(es, n, o) == WrittenPath(front, n, o)
  {
    assert es[..n] == front[..n];
    if MatchingOpen(es[..n], IrpOf(es[n])).Some? {
      var j := MatchingOpen(es[..n], IrpOf(es[n])).value;
      if j < n {
        assert es[j] == front[j];
      }
    }
  }

  /** How one event changes the entry of FileObject o, given what it writes there. */
  predicate EntryAfter(before: map<nat, string>, after: map<nat, string>, o: nat, written: Option<string>,
      closed: bool) {
    match written
    case Some(p) => o in after && after[o] == p
    case None => if closed then o !in after
      else (o in after <==> o in before) && (o in before ==> after[o] == before[o])
  }

  lemma DirectStep(m: Maps, e: FileInput, o: nat)
    requires e.eventId != 24 && o != 0
    ensures EntryAfter(m.objects, Handle(m, e).0.objects, o, DirectWrite(e, o), Closes(e, o))
  {
    Pointers(e);
    hide FileInput.Succeeded;
    hide FileInput.DirectoryOpen;
    hide FileInput.ProtectedOutside;
  }

  lemma ZeroStep(m: Maps, e: FileInput)
    requires 0 !in m.objects && 0 !in m.keys && 0 !in m.pending
    ensures var t := Handle(m, e).0; 0 !in t.objects && 0 !in t.keys && 0 !in t.pending
  {
  }

  lemma CompletionStep(m: Maps, e: FileInput, o: nat)
    requires e.eventId == 24 && o != 0
    ensures EntryAfter(m.objects, Handle(m, e).0.objects, o,
              if IrpOf(e) in m.pending && Successful(e) && !e.os.isDirectory(m.pending[IrpOf(e)].path)
                 && m.pending[IrpOf(e)].fileObject == o
              then Some(m.pending[IrpOf(e)].path) else None, false)
  {
    Pointers(e);
    Bits(e);
  }

  lemma ObjectStep(es: seq<FileInput>, o: nat)
    requires es != [] && o != 0
    ensures var n := |es| - 1;
            EntryAfter(Run(es[..n]).objects, Run(es).objects, o, WrittenPath(es, n, o), Closes(es[n], o))
  {
    var n := |es| - 1;
    var e := es[n];
    assert Run(es) == Handle(Run(es[..n]), e).0;
    hide Handle;
    if e.eventId == 24 {
      CompletionStep(Run(es[..n]), e, o);
      hide Successful;
      hide EntryAfter;
      PendingIsHistory(es[..n], IrpOf(e));
      if MatchingOpen(es[..n], IrpOf(e)).Some? {
        var j := MatchingOpen(es[..n], IrpOf(e)).value;
        assert es[..n][j] == es[j];
      }
    } else {
      DirectStep(Run(es[..n]), e, o);
    }
  }

  lemma WritesSnoc(es: seq<FileInput>, o: nat)
    requires es != []
    ensures var n := |es| - 1;
            && Writes(es, o) == Writes(es[..n], o) + [WrittenPath(es, n, o)]
            && CloseMarks(es, o) == CloseMarks(es[..n], o) + [Closes(es[n], o)]
  {
    var n := |es| - 1;
    forall m | 0 <= m < n ensures WrittenPath(es, m, o) == WrittenPath(es[..n], m, o) {
      WriteIsLocal(es, es[..n], m, o);
    }
    hide WrittenPath;
  }

  lemma {:induction false} ZeroIsNoObject(es: seq<FileInput>)
    ensures 0 !in Run(es).objects && 0 !in Run(es).keys && 0 !in Run(es).pending
  {
    if es != [] {
      ZeroIsNoObject(es[..|es| - 1]);
      ZeroStep(Run(es[..|es| - 1]), es[|es| - 1]);
    }
  }

  /** A FileObject maps to path p exactly when the last event that wrote it since its last Close wrote p.
      FileObject 0 - a missing pointer - is never mapped. */
  lemma {:induction false} ObjectMapIsHistory(es: seq<FileInput>, o: nat, p: string)
    ensures o in Run(es).objects && Run(es).objects[o] == p <==> o != 0 && LastIs(Writes(es, o), CloseMarks(es, o), p)
  {
    if o == 0 {
      ZeroIsNoObject(es);
    } else if es == [] {
    } else {
      hide Handle;
      hide WrittenPath;
      hide LastIs;
      var n := |es| - 1;
      ObjectMapIsHistory(es[..n], o, p);
      ObjectStep(es, o);
      WritesSnoc(es, o);
      LastSnoc(Writes(es[..n], o), CloseMarks(es[..n], o), WrittenPath(es, n, o), Closes(es[n], o), p);
    }
  }

  // ---------------------------------------------------------------------------------------------
  // The FileKey map.

  function NamedPath(e: FileInput, k: nat): Option<string> {
    if e.eventId == 10 && KeyOf(e) == k != 0 && Named(e.fileName) then Some(NameOf(e)) else None
  }

  predicate Unnames(e: FileInput, k: nat) {
    e.eventId == 11 && KeyOf(e) == k != 0
  }

  function Names(es: seq<FileInput>, k: nat): (marks: seq<Option<string>>)
    ensures |marks| == |es|
  {
    seq(|es|, n requires 0 <= n < |es| => NamedPath(es[n], k))
  }

  function UnnameMarks(es: seq<FileInput>, k: nat): (marks: seq<bool>)
    ensures |marks| == |es|
  {
    seq(|es|, n requires 0 <= n < |es| => Unnames(es[n], k))
  }

  lemma KeyStep(m: Maps, e: FileInput, k: nat)
    ensures EntryAfter(m.keys, Handle(m, e).0.keys, k, NamedPath(e, k), Unnames(e, k))
  {
  }

  /** A FileKey maps to the path of the last NameCreate with a name since its last NameDelete. */
  lemma {:induction false} KeyMapIsHistory(es: seq<FileInput>, k: nat, p: string)
    ensures k in Run(es).keys && Run(es).keys[k] == p <==> LastIs(Names(es, k), UnnameMarks(es, k), p)
  {
    if es != [] {
      hide Handle;
      hide NamedPath;
      hide Unnames;
      hide LastIs;
      var n := |es| - 1;
      KeyMapIsHistory(es[..n], k, p);
      KeyStep(Run(es[..n]), es[n], k);
      assert Names(es, k) == Names(es[..n], k) + [NamedPath(es[n], k)];
      assert UnnameMarks(es, k) == UnnameMarks(es[..n], k) + [Unnames(es[n], k)];
      LastSnoc(Names(es[..n], k), UnnameMarks(es[..n], k), NamedPath(es[n], k), Unnames(es[n], k), p);
    }
  }

  /** An event without any pointer resolves to no path, in every reachable state. */
  lemma {:induction false} NoPointerNoPath(es: seq<FileInput>, e: FileInput)
    requires ObjectOf(e) == 0 && KeyOf(e) == 0
    ensures ResolveFilePath(Run(es), e) == ""
  {
    ZeroIsNoObject(es);
  }

  /** What the history makes of an event's pointers: the path last written to the FileObject, or, if that is none
      or the empty one, the path last named for the FileKey. */
  ghost predicate LeadsTo(es: seq<FileInput>, e: FileInput, p: string) {
    var o, k := ObjectOf(e), KeyOf(e);
    || (o != 0 && LastIs(Writes(es, o), CloseMarks(es, o), p))
    || ((forall q :: o != 0 && LastIs(Writes(es, o), CloseMarks(es, o), q) ==> q == "")
        && LastIs(Names(es, k), UnnameMarks(es, k), p))
  }

  /** ResolveFilePath answers that path, in terms of the history alone. */
  lemma ResolvedPath(es: seq<FileInput>, e: FileInput, p: string)
    requires p != ""
    ensures ResolveFilePath(Run(es), e) == p <==> LeadsTo(es, e, p)
  {
    hide LastIs;
    var m, o := Run(es), ObjectOf(e);
    KeyMapIsHistory(es, KeyOf(e), p);
    forall q ensures o in m.objects && m.objects[o] == q <==> o != 0 && LastIs(Writes(es, o), CloseMarks(es, o), q) {
      ObjectMapIsHistory(es, o, q);
    }
    if o in m.objects {
      ObjectMapIsHistory(es, o, m.objects[o]);
    }
    hide Run;
  }

  /** The path e's pointers lead to, or the empty path if the history knows none. */
  ghost predicate PointsTo(es: seq<FileInput>, e: FileInput, p: string) {
    if p != "" then LeadsTo(es, e, p) else forall q :: q != "" ==> !LeadsTo(es, e, q)
  }

  lemma ResolvedPoints(es: seq<FileInput>, e: FileInput, p: string)
    ensures ResolveFilePath(Run(es), e) == p <==> PointsTo(es, e, p)
  {
    hide LeadsTo;
    hide Run;
    hide ResolveFilePath;
    var resolved := ResolveFilePath(Run(es), e);
    forall q | q != "" ensures resolved == q <==> LeadsTo(es, e, q) {
      ResolvedPath(es, e, q);
    }
    if resolved != "" {
      assert LeadsTo(es, e, resolved);
    }
  }

  // ---------------------------------------------------------------------------------------------
  // Every verdict.

  /** The pointers of event e lead to a protected path outside the working directory. */
  ghost predicate LeadsToProtected(es: seq<FileInput>, e: FileInput) {
    exists p :: LeadsTo(es, e, p) && Protected(e, p)
  }

  lemma ResolvesProtected(es: seq<FileInput>, e: FileInput)
    ensures Protected(e, ResolveFilePath(Run(es), e)) <==> LeadsToProtected(es, e)
  {
    hide LeadsTo;
    var q := ResolveFilePath(Run(es), e);
    if q != "" {
      ResolvedPath(es, e, q);
    }
    if p :| LeadsTo(es, e, p) && Protected(e, p) {
      ResolvedPath(es, e, p);
    }
    hide ResolveFilePath;
    hide Run;
  }

  /** A rename is a violation exactly when the job's process renames what the history knows as a protected path. */
  lemma RenameViolates(es: seq<FileInput>, n: nat)
    requires n < |es| && (es[n].eventId == 19 || es[n].eventId == 29)
    ensures Violation(es, n) <==> es[n].inJob && LeadsToProtected(es[..n], es[n])
  {
    ResolvesProtected(es[..n], es[n]);
    hide Run;
    hide ResolveFilePath;
    hide LeadsToProtected;
  }

  /** A rename to a path is one exactly when the old path or the new one is protected. */
  lemma RenamePathViolates(es: seq<FileInput>, n: nat)
    requires n < |es| && es[n].eventId == 27
    ensures Violation(es, n) <==>
              && es[n].inJob
              && (LeadsToProtected(es[..n], es[n])
                || Protected(es[n], es[n].os.normalize(es[n].filePath.GetOr(""))))
  {
    ResolvesProtected(es[..n], es[n]);
    hide Run;
    hide ResolveFilePath;
    hide LeadsToProtected;
  }

  /** The history makes event n a violation: a completion by the open it completes, a rename by the path it starts
      from, a rename to a path by either end, a creation by its own path. Nothing else is one. */
  ghost predicate Offends(es: seq<FileInput>, n: nat)
    requires n < |es|
  {
    var e := es[n];
    match e.eventId
    case 24 => Successful(e) && exists j: nat ::
      PendingSince(es[..n], IrpOf(e), j) && !e.os.isDirectory(NameOf(es[j]))
    case 19 | 29 => e.inJob && LeadsToProtected(es[..n], e)
    case 27 => e.inJob && (LeadsToProtected(es[..n], e) || Protected(e, e.os.normalize(e.filePath.GetOr(""))))
    case 30 => e.inJob && !OpensDirectory(e) && !e.os.isDirectory(NameOf(e)) && Protected(e, NameOf(e))
    case _ => false
  }

  /** Each verdict, of every kind of event, is the history's. */
  lemma VerdictIsHistory(es: seq<FileInput>, n: nat)
    requires n < |es|
    ensures Violation(es, n) <==> Offends(es, n)
  {
    if es[n].eventId == 24 {
      CompletionViolates(es, n);
      hide Violation;
    } else if es[n].eventId == 19 || es[n].eventId == 29 {
      RenameViolates(es, n);
      hide Violation;
      hide LeadsToProtected;
    } else if es[n].eventId == 27 {
      RenamePathViolates(es, n);
      hide Violation;
      hide LeadsToProtected;
    } else {
      hide Run;
    }
  }
}
