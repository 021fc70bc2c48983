/** The loaded images of a lifetime are exactly what its events say. */
module ImageHistory {
  import opened Prelude
  import opened ProcessStore
  import opened ProcessHandlers
  import opened Lifetimes
  import opened FileCorrelation
  import opened Monitor

  /** The lifetime an image event is resolved to: the newest of its process id, or one bootstrapped there and then. */
  ghost function Target(es: seq<Input>, n: nat): Option<nat>
    requires n < |es| && es[n].Process?
  {
    Resolved(Run(es[..n]).store, es[n].event).1
  }

  function ImageOf(ev: ProcessEvent): LoadedImage {
    LoadedImage(ev.now, ev.imageName.GetOr(""), ev.imageBase.GetOr(0), ev.imageSize.GetOr(0), true, 0)
  }

  /** Event n offers an image at base b to lifetime k, which still runs. */
  ghost predicate Offers(es: seq<Input>, n: nat, k: nat, b: nat)
    requires n < |es|
  {
    && es[n].Process? && es[n].kind == ImageLoad && Target(es, n) == Some(k)
    && es[n].event.imageBase.GetOr(0) == b != 0
    && (k in Run(es[..n]).store.contexts ==> Run(es[..n]).store.contexts[k].running)
  }

  ghost function OfferedImage(es: seq<Input>, n: nat, k: nat, b: nat): (image: Option<LoadedImage>)
    requires n < |es|
    ensures image.Some? <==> Offers(es, n, k, b)
    ensures image.Some? ==>
              && es[n].Process? && image.value == ImageOf(es[n].event)
              && image.value.baseAddress == b && image.value.loaded
  {
    if Offers(es, n, k, b) then Some(ImageOf(es[n].event)) else None
  }

  /** Event n unloads base b of lifetime k, or ends k. */
  ghost predicate Clears(es: seq<Input>, n: nat, k: nat, b: nat)
    requires n < |es|
  {
    || (es[n].Process? && es[n].kind == ImageUnload && Target(es, n) == Some(k) && es[n].event.imageBase == Some(b))
    || EndedBy(es, k, n)
  }

  ghost function OfferMarks(es: seq<Input>, k: nat, b: nat): (marks: seq<bool>)
    ensures |marks| == |es|
  {
    seq(|es|, n requires 0 <= n < |es| => Offers(es, n, k, b))
  }

  ghost function ClearMarks(es: seq<Input>, k: nat, b: nat): (marks: seq<bool>)
    ensures |marks| == |es|
  {
    seq(|es|, n requires 0 <= n < |es| => Clears(es, n, k, b))
  }

  /** Position i is the first offer since the last clearing. */
  predicate Live(offers: seq<bool>, clears: seq<bool>, i: nat)
    requires |offers| == |clears|
  {
    && i < |offers| && offers[i]
    && (forall m :: i < m < |clears| ==> !clears[m])
    && (forall j :: 0 <= j < i && offers[j] ==> exists m :: j < m < i && clears[m])
  }

  /** Event i is the first offer since base b of k was last cleared. */
  ghost predicate LiveLoad(es: seq<Input>, k: nat, b: nat, i: nat) {
    Live(OfferMarks(es, k, b), ClearMarks(es, k, b), i)
  }

  predicate IsLoaded(images: seq<LoadedImage>, image: LoadedImage) {
    image.loaded && image in images
  }

  // ---------------------------------------------------------------------------------------------
  // One step.

  /** What one event does to the images loaded at base b. */
  ghost predicate ImagesStep(before: seq<LoadedImage>, after: seq<LoadedImage>, b: nat, offered: Option<LoadedImage>,
      cleared: bool) {
    forall image: LoadedImage :: image.baseAddress == b ==>
      (IsLoaded(after, image) <==>
        if cleared then false
        else IsLoaded(before, image) || (offered == Some(image) && image.loaded && !HasLoaded(before, b)))
  }

  lemma LoadStep(c: ProcessContext, image: LoadedImage, b: nat)
    requires c.running && image.loaded
    ensures ImagesStep(c.images, LoadImage(c, image).images, b,
                       if image.baseAddress == b then Some(image) else None, false)
  {
  }

  lemma UnloadStep(images: seq<LoadedImage>, base: nat, now: Time, b: nat)
    ensures ImagesStep(images, UnloadedImages(images, base, now), b, None, base == b)
  {
    var after := UnloadedImages(images, base, now);
    forall image: LoadedImage | image.baseAddress == b
      ensures IsLoaded(after, image) <==> base != b && IsLoaded(images, image)
    {
      if IsLoaded(images, image) && base != b {
        var i :| 0 <= i < |images| && images[i] == image;
        assert after[i] == image;
      }
    }
  }

  lemma CloseStep(images: seq<LoadedImage>, at: Time, b: nat)
    ensures ImagesStep(images, ClosedImages(images, at), b, None, true)
  {
    var after := ClosedImages(images, at);
    forall image: LoadedImage ensures !IsLoaded(after, image) {
      assert forall i :: 0 <= i < |after| ==> !after[i].loaded;
    }
  }

  lemma NoStep(images: seq<LoadedImage>, b: nat)
    ensures ImagesStep(images, images, b, None, false)
  {
  }

  function ImagesOf(contexts: Contexts, k: nat): seq<LoadedImage> {
    if k in contexts then contexts[k].images else []
  }

  lemma RegistrationLoadsNothing(s: Store, inJob: bool, c: ProcessContext, k: nat)
    requires Invariant(s) && s.nextKey + 1 < U64 && Blank(c)
    ensures ImagesOf(Registered(s, inJob, c).0.contexts, k) == ImagesOf(s.contexts, k)
  {
    DenseKey(s);
  }

  lemma ResolutionLoadsNothing(s: Store, ev: ProcessEvent, k: nat)
    requires Invariant(s) && s.nextKey + 1 < U64
    ensures ImagesOf(Resolved(s, ev).0.contexts, k) == ImagesOf(s.contexts, k)
    ensures k in Resolved(s, ev).0.contexts && k !in s.contexts ==> Resolved(s, ev).0.contexts[k].running
    ensures k in s.contexts ==>
              k in Resolved(s, ev).0.contexts && Resolved(s, ev).0.contexts[k].running == s.contexts[k].running
  {
    if ev.processId.Some? && ev.inJob && FindKey(s.contexts, ev.processId.value, 0).None? {
      var c := NEW_CONTEXT.(pid := ev.processId.value);
      EnrichedIsBlank(c, ev.live);
      RegistrationLoadsNothing(s, ev.inJob, Enriched(c, ev.live), k);
      DenseKey(s);
    }
  }

  lemma DetailImages(s: Store, kind: Kind, ev: ProcessEvent, k: nat, b: nat)
    requires Invariant(s) && s.nextKey + 1 < U64 && b != 0
    requires kind.ImageLoad? || kind.ImageUnload? || kind.ThreadStart? || kind.ThreadStop?
    ensures var target, offered := Resolved(s, ev).1, ev.imageBase.GetOr(0) == b;
            ImagesStep(
              ImagesOf(s.contexts, k), ImagesOf(AfterDetail(s, kind, ev).contexts, k), b,
              if kind.ImageLoad? && target == Some(k) && offered && (k in s.contexts ==> s.contexts[k].running)
              then Some(ImageOf(ev)) else None,
              kind.ImageUnload? && target == Some(k) && ev.imageBase == Some(b))
  {
    hide AfterDetail;
    hide Resolved;
    ResolveKeeps(s, ev);
    ResolutionLoadsNothing(s, ev, k);
    hide Invariant;
    hide StoreEvolves;
    var (s', key) := Resolved(s, ev);
    NoStep(ImagesOf(s.contexts, k), b);
    if key == Some(k) && ContextChange(kind, ev, s'.contexts[k]).Some? {
      var c := s'.contexts[k];
      CommittedImages(s, kind, ev, k);
      match kind {
        case ImageLoad =>
          hide ImagesStep;
          if c.running {
            LoadStep(c, ImageOf(ev), b);
          }
        case ImageUnload => UnloadStep(c.images, ev.imageBase.value, ev.now, b);
        case ThreadStart | ThreadStop =>
      }
    } else {
      OthersKeepImages(s, kind, ev, k);
    }
  }

  lemma CommittedImages(s: Store, kind: Kind, ev: ProcessEvent, k: nat)
    requires Invariant(s) && s.nextKey + 1 < U64
    requires Resolved(s, ev).1 == Some(k) && k in Resolved(s, ev).0.contexts
    requires ContextChange(kind, ev, Resolved(s, ev).0.contexts[k]).Some?
    ensures ImagesOf(AfterDetail(s, kind, ev).contexts, k)
        == ContextChange(kind, ev, Resolved(s, ev).0.contexts[k]).value.images
  {
    hide ContextChange;
    ResolveKeeps(s, ev);
    var c := Resolved(s, ev).0.contexts[k];
    ChangeIsSound(kind, ev, c);
    CommitKeeps(Resolved(s, ev).0, k, ContextChange(kind, ev, c).value);
  }

  lemma OthersKeepImages(s: Store, kind: Kind, ev: ProcessEvent, k: nat)
    requires Invariant(s) && s.nextKey + 1 < U64
    requires var (s', key) := Resolved(s, ev);
             !(key == Some(k) && k in s'.contexts && ContextChange(kind, ev, s'.contexts[k]).Some?)
    ensures ImagesOf(AfterDetail(s, kind, ev).contexts, k) == ImagesOf(Resolved(s, ev).0.contexts, k)
  {
    hide ContextChange;
    hide Resolved;
  }

  predicate IsDetail(kind: Kind) {
    kind.ImageLoad? || kind.ImageUnload? || kind.ThreadStart? || kind.ThreadStop?
  }

  predicate IsQuiet(i: Input) {
    i.File? || !(IsDetail(i.kind) || i.kind.Stop?)
  }

  /** Registrations, file events and ignored events load and unload nothing. */
  lemma QuietStep(s: State, i: Input, k: nat)
    requires Invariant(s.store) && s.store.nextKey + 1 < U64 && IsQuiet(i)
    ensures ImagesOf(Next(s, i).store.contexts, k) == ImagesOf(s.store.contexts, k)
  {
    hide Invariant;
    hide Registered;
    match i {
      case File(e) =>
        RecordStep(s.store, s.maps, e);
        hide AfterRecord;
      case Process(kind, ev) =>
        StartedIsBlank(ev);
        RegistrationLoadsNothing(s.store, ev.inJob, StartedContext(ev), k);
        RegistrationLoadsNothing(s.store, ev.inJob, BootstrapContext(ev), k);
        hide StartedContext;
        hide BootstrapContext;
    }
  }

  lemma QuietMarks(es: seq<Input>, n: nat, k: nat, b: nat)
    requires n < |es| && IsQuiet(es[n])
    ensures !Offers(es, n, k, b) && !Clears(es, n, k, b)
  {
    hide Run;
    hide Resolved;
  }

  /** One event of a run, seen by base b of lifetime k. */
  lemma EventImages(es: seq<Input>, k: nat, b: nat)
    requires Feasible(es) && es != [] && b != 0
    ensures var n := |es| - 1;
            ImagesStep(
              ImagesOf(Run(es[..n]).store.contexts, k), ImagesOf(Run(es).store.contexts, k), b,
              OfferedImage(es, n, k, b), Clears(es, n, k, b))
  {
    hide ImagesStep;
    hide Invariant;
    hide Resolved;
    hide AfterDetail;
    hide AfterStop;
    var n := |es| - 1;
    var s := Run(es[..n]);
    ReachableInvariant(es[..n]);
    if es[n].Process? && es[n].kind.Stop? {
      StopImages(es, k, b);
    } else if es[n].Process? && IsDetail(es[n].kind) {
      DetailImages(s.store, es[n].kind, es[n].event, k, b);
    } else {
      QuietMarks(es, n, k, b);
      QuietStep(s, es[n], k);
      NoStep(ImagesOf(s.store.contexts, k), b);
    }
  }

  lemma StopImages(es: seq<Input>, k: nat, b: nat)
    requires Feasible(es) && es != [] && b != 0
    requires var n := |es| - 1; es[n].Process? && es[n].kind == Stop && Invariant(Run(es[..n]).store)
    ensures var n := |es| - 1;
            ImagesStep(
              ImagesOf(Run(es[..n]).store.contexts, k), ImagesOf(Run(es).store.contexts, k), b, None, EndedBy(es, k, n))
  {
    var n := |es| - 1;
    var s, ev := Run(es[..n]).store, es[n].event;
    NoStep(ImagesOf(s.contexts, k), b);
    hide ImagesStep;
    if k in s.contexts {
      StopIsExact(s, ev, k);
      CloseStep(s.contexts[k].images, StopContext(s.contexts[k], ev.exitCode, ev.exitTime).exitTime, b);
    } else {
      StopAddsNothing(s, ev);
    }
  }

  lemma StopAddsNothing(s: Store, ev: ProcessEvent)
    ensures AfterStop(s, ev).contexts.Keys == s.contexts.Keys
  {
  }

  // ---------------------------------------------------------------------------------------------
  // Every run.

  lemma PastIsSame(es: seq<Input>, n: nat, k: nat, b: nat)
    requires n < |es| - 1
    ensures Offers(es, n, k, b) == Offers(es[..|es| - 1], n, k, b)
    ensures Clears(es, n, k, b) == Clears(es[..|es| - 1], n, k, b)
  {
    assert es[..|es| - 1][..n] == es[..n];
  }

  /** If some offer has not been cleared since, the earliest such offer is the live one. */
  lemma {:induction false} EarliestOffer(offers: seq<bool>, clears: seq<bool>, j: nat) returns (i: nat)
    requires |offers| == |clears| && j < |offers| && offers[j]
    requires forall m :: j < m < |clears| ==> !clears[m]
    requires forall m :: 0 <= m < |offers| ==> !(offers[m] && clears[m])
    ensures Live(offers, clears, i)
    decreases j
  {
    if h :| 0 <= h < j && offers[h] && forall m :: h < m < j ==> !clears[m] {
      i := EarliestOffer(offers, clears, h);
    } else {
      i := j;
    }
  }

  lemma LiveSnoc(offers: seq<bool>, clears: seq<bool>, o: bool, c: bool, i: nat)
    requires |offers| == |clears| && !(o && c)
    requires forall m :: 0 <= m < |offers| ==> !(offers[m] && clears[m])
    ensures Live(offers + [o], clears + [c], i) <==>
              !c && (Live(offers, clears, i) || (i == |offers| && o && forall j: nat :: !Live(offers, clears, j)))
  {
    var n := |offers|;
    var os, cs := offers + [o], clears + [c];
    assert forall m :: 0 <= m < n ==> os[m] == offers[m] && cs[m] == clears[m];
    assert os[n] == o && cs[n] == c;
    if i < n {
      if offers[i] && !c {
        forall j | 0 <= j < i && offers[j] && (exists m :: j < m < i && clears[m])
          ensures exists m :: j < m < i && cs[m] {
          var m :| j < m < i && clears[m];
          assert cs[m];
        }
        forall j | 0 <= j < i && offers[j] && (exists m :: j < m < i && cs[m])
          ensures exists m :: j < m < i && clears[m] {
          var m :| j < m < i && cs[m];
          assert clears[m];
        }
      }
    } else if i == n && o {
      NewestIsLive(offers, clears);
      forall j | 0 <= j < n && offers[j] && (exists m :: j < m < n && clears[m])
        ensures exists m :: j < m < n && cs[m] {
        var m :| j < m < n && clears[m];
        assert cs[m];
      }
      forall j | 0 <= j < n && offers[j] && (exists m :: j < m < n && cs[m])
        ensures exists m :: j < m < n && clears[m] {
        var m :| j < m < n && cs[m];
        assert clears[m];
      }
    }
  }

  /** Nothing is live exactly when every offer has been cleared since. */
  lemma NewestIsLive(offers: seq<bool>, clears: seq<bool>)
    requires |offers| == |clears|
    requires forall m :: 0 <= m < |offers| ==> !(offers[m] && clears[m])
    ensures (forall j: nat :: !Live(offers, clears, j)) <==>
            forall j :: 0 <= j < |offers| && offers[j] ==> exists m :: j < m < |offers| && clears[m]
  {
    if j :| 0 <= j < |offers| && offers[j] && forall m :: j < m < |offers| ==> !clears[m] {
      var i := EarliestOffer(offers, clears, j);
    }
  }

  lemma OfferIsNoClear(es: seq<Input>, n: nat, k: nat, b: nat)
    requires n < |es| && Offers(es, n, k, b)
    ensures !Clears(es, n, k, b)
  {
  }

  lemma MarksSnoc(es: seq<Input>, k: nat, b: nat)
    requires es != []
    ensures var n := |es| - 1;
            && OfferMarks(es, k, b) == OfferMarks(es[..n], k, b) + [Offers(es, n, k, b)]
            && ClearMarks(es, k, b) == ClearMarks(es[..n], k, b) + [Clears(es, n, k, b)]
            && forall m :: 0 <= m < n ==> !(OfferMarks(es[..n], k, b)[m] && ClearMarks(es[..n], k, b)[m])
  {
    var n := |es| - 1;
    forall m | 0 <= m < n
      ensures Offers(es, m, k, b) == Offers(es[..n], m, k, b) && Clears(es, m, k, b) == Clears(es[..n], m, k, b)
      ensures !(Offers(es, m, k, b) && Clears(es, m, k, b))
    {
      PastIsSame(es, m, k, b);
      if Offers(es, m, k, b) { OfferIsNoClear(es, m, k, b); }
    }
    hide Offers;
    hide Clears;
  }

  lemma LiveStep(es: seq<Input>, k: nat, b: nat, i: nat)
    requires es != []
    ensures var n := |es| - 1;
            LiveLoad(es, k, b, i) <==>
              && !Clears(es, n, k, b)
              && (LiveLoad(es[..n], k, b, i)
                || (i == n && Offers(es, n, k, b) && forall j: nat :: !LiveLoad(es[..n], k, b, j)))
  {
    var n := |es| - 1;
    MarksSnoc(es, k, b);
    if Offers(es, n, k, b) { OfferIsNoClear(es, n, k, b); }
    hide Live;
    hide Offers;
    hide Clears;
    hide OfferMarks;
    hide ClearMarks;
    LiveSnoc(OfferMarks(es[..n], k, b), ClearMarks(es[..n], k, b), Offers(es, n, k, b), Clears(es, n, k, b), i);
    assert forall j: nat :: LiveLoad(es[..n], k, b, j) <==>
      Live(OfferMarks(es[..n], k, b), ClearMarks(es[..n], k, b), j);
  }

  lemma AnyLiveStep(es: seq<Input>, k: nat, b: nat)
    requires es != []
    ensures var n := |es| - 1;
            (exists i: nat :: LiveLoad(es, k, b, i)) <==>
              && !Clears(es, n, k, b)
              && ((exists i: nat :: LiveLoad(es[..n], k, b, i)) || Offers(es, n, k, b))
  {
    hide LiveLoad;
    hide Offers;
    hide Clears;
    var n := |es| - 1;
    forall i: nat
      ensures LiveLoad(es, k, b, i) <==>
              && !Clears(es, n, k, b)
              && (LiveLoad(es[..n], k, b, i)
                || (i == n && Offers(es, n, k, b) && forall j: nat :: !LiveLoad(es[..n], k, b, j)))
    {
      LiveStep(es, k, b, i);
    }
    if i: nat :| LiveLoad(es[..n], k, b, i) {
      assert !Clears(es, n, k, b) ==> LiveLoad(es, k, b, i);
    } else {
      assert Offers(es, n, k, b) && !Clears(es, n, k, b) ==> LiveLoad(es, k, b, n);
    }
  }

  /** An image is loaded at base b of lifetime k exactly when it is the one of the first ImageLoad for b that
      was resolved to k, while k ran, since k's b was last unloaded: later loads of b are duplicates, and
      nothing outlives the end of k. */
  lemma {:induction false} LoadedImagesAreHistory(es: seq<Input>, k: nat, b: nat, image: LoadedImage)
    requires Feasible(es) && b != 0 && image.baseAddress == b && image.loaded
    ensures IsLoaded(ImagesOf(Run(es).store.contexts, k), image)
            <==> exists i: nat :: LiveLoad(es, k, b, i) && i < |es| && OfferedImage(es, i, k, b) == Some(image)
    decreases |es|
  {
    if es == [] {
      assert forall i: nat :: !LiveLoad(es, k, b, i);
    } else {
      LoadedImagesAreHistory(es[..|es| - 1], k, b, image);
      SomethingLoaded(es[..|es| - 1], k, b);
      EventImages(es, k, b);
      LoadedStep(es, k, b, image);
    }
  }

  lemma LoadedStep(es: seq<Input>, k: nat, b: nat, image: LoadedImage)
    requires es != [] && image.baseAddress == b && image.loaded
    requires var n := |es| - 1;
             var before, after := ImagesOf(Run(es[..n]).store.contexts, k), ImagesOf(Run(es).store.contexts, k);
             && ImagesStep(before, after, b, OfferedImage(es, n, k, b), Clears(es, n, k, b))
             && (HasLoaded(before, b) <==> exists i: nat :: LiveLoad(es[..n], k, b, i))
             && (IsLoaded(before, image) <==>
               exists i: nat :: LiveLoad(es[..n], k, b, i) && i < n && OfferedImage(es[..n], i, k, b) == Some(image))
    ensures IsLoaded(ImagesOf(Run(es).store.contexts, k), image)
            <==> exists i: nat :: LiveLoad(es, k, b, i) && i < |es| && OfferedImage(es, i, k, b) == Some(image)
  {
    hide Run;
    hide HasLoaded;
    hide IsLoaded;
    hide Offers;
    hide Clears;
    hide LiveLoad;
    var n := |es| - 1;
    assert (if Clears(es, n, k, b) then false
            else IsLoaded(ImagesOf(Run(es[..n]).store.contexts, k), image)
                 || (OfferedImage(es, n, k, b) == Some(image)
                   && !HasLoaded(ImagesOf(Run(es[..n]).store.contexts, k), b)))
           <==> IsLoaded(ImagesOf(Run(es).store.contexts, k), image);
    hide ImagesStep;
    hide OfferedImage;
    LiveImageStep(es, k, b, image);
  }

  lemma LiveImageStep(es: seq<Input>, k: nat, b: nat, image: LoadedImage)
    requires es != []
    ensures var n := |es| - 1;
            (exists i: nat :: LiveLoad(es, k, b, i) && i < |es| && OfferedImage(es, i, k, b) == Some(image)) <==>
              if Clears(es, n, k, b) then false
              else (exists i: nat ::
                      LiveLoad(es[..n], k, b, i) && i < n && OfferedImage(es[..n], i, k, b) == Some(image))
                   || (OfferedImage(es, n, k, b) == Some(image) && !exists i: nat :: LiveLoad(es[..n], k, b, i))
  {
    var n := |es| - 1;
    forall i: nat
      ensures LiveLoad(es, k, b, i) <==>
              && !Clears(es, n, k, b)
              && (LiveLoad(es[..n], k, b, i)
                || (i == n && Offers(es, n, k, b) && forall j: nat :: !LiveLoad(es[..n], k, b, j)))
      ensures LiveLoad(es[..n], k, b, i) ==> i < n && OfferedImage(es, i, k, b) == OfferedImage(es[..n], i, k, b)
    {
      LiveStep(es, k, b, i);
      if i < n { PastIsSame(es, i, k, b); }
    }
    hide LiveLoad;
    hide Offers;
    hide Clears;
    hide OfferedImage;
    if Clears(es, n, k, b) {
    } else if j: nat :| LiveLoad(es[..n], k, b, j) {
      assert forall i: nat :: LiveLoad(es, k, b, i) <==> LiveLoad(es[..n], k, b, i);
    } else {
      assert forall i: nat :: LiveLoad(es, k, b, i) <==> (i == n && Offers(es, n, k, b));
      if OfferedImage(es, n, k, b) == Some(image) {
        assert LiveLoad(es, k, b, n);
      }
    }
  }

  lemma NothingAtFirst(k: nat, b: nat)
    ensures !HasLoaded(ImagesOf(Run([]).store.contexts, k), b)
    ensures forall i: nat :: !LiveLoad([], k, b, i)
  {
  }

  /** Something is loaded at b exactly when there is a live load. */
  lemma {:induction false} SomethingLoaded(es: seq<Input>, k: nat, b: nat)
    requires Feasible(es) && b != 0
    ensures HasLoaded(ImagesOf(Run(es).store.contexts, k), b) <==> exists i: nat :: LiveLoad(es, k, b, i)
    decreases |es|
  {
    hide LiveLoad;
    hide Offers;
    hide Clears;
    hide HasLoaded;
    hide ImagesStep;
    if es == [] {
      NothingAtFirst(k, b);
    } else {
      var n := |es| - 1;
      var front := es[..n];
      SomethingLoaded(front, k, b);
      EventImages(es, k, b);
      AnyLiveStep(es, k, b);
      var offered := OfferedImage(es, n, k, b);
      HasLoadedStep(ImagesOf(Run(front).store.contexts, k), ImagesOf(Run(es).store.contexts, k), b, offered,
        Clears(es, n, k, b));
    }
  }

  lemma HasLoadedStep(before: seq<LoadedImage>, after: seq<LoadedImage>, b: nat, offered: Option<LoadedImage>,
      cleared: bool)
    requires ImagesStep(before, after, b, offered, cleared)
    requires offered.Some? ==> offered.value.loaded && offered.value.baseAddress == b
    ensures HasLoaded(after, b) <==> !cleared && (HasLoaded(before, b) || offered.Some?)
  {
    AnyLoaded(before, b);
    AnyLoaded(after, b);
    if offered.Some? && !cleared && !HasLoaded(before, b) {
      assert IsLoaded(after, offered.value);
    }
  }

  lemma AnyLoaded(images: seq<LoadedImage>, b: nat)
    ensures HasLoaded(images, b) <==> exists image: LoadedImage :: image.baseAddress == b && IsLoaded(images, image)
  {
    if HasLoaded(images, b) {
      var i :| 0 <= i < |images| && images[i].loaded && images[i].baseAddress == b;
      assert IsLoaded(images, images[i]);
    }
  }

  // ---------------------------------------------------------------------------------------------
  // The whole list of images.

  /** Event n makes lifetime k load an image: it offers one at a base where the history before it leaves none loaded. */
  ghost predicate Loads(es: seq<Input>, n: nat, k: nat)
    requires n < |es|
  {
    && es[n].Process? && es[n].event.imageBase.Some?
    && var b := es[n].event.imageBase.value;
    && Offers(es, n, k, b) && forall i: nat :: !LiveLoad(es[..n], k, b, i)
  }

  /** The positions of these events, in order. */
  ghost function LoadEvents(es: seq<Input>, k: nat): (ns: seq<nat>)
    ensures forall i :: 0 <= i < |ns| ==> ns[i] < |es|
    ensures forall i, j :: 0 <= i < j < |ns| ==> ns[i] < ns[j]
  {
    if es == [] then []
    else
      var n := |es| - 1;
      LoadEvents(es[..n], k) + if Loads(es, n, k) then [n] else []
  }

  /** The time at which an event unloads what it clears: its own for an unload, the exit time for a stop. */
  function ClearingTime(i: Input): Time {
    if i.File? then 0
    else if i.kind.ImageUnload? then i.event.now
    else if i.event.exitTime.Some? then FromFileTime(i.event.exitTime.value)
    else 0
  }

  function ClearingTimes(es: seq<Input>): (times: seq<Time>)
    ensures |times| == |es|
  {
    seq(|es|, n requires 0 <= n < |es| => ClearingTime(es[n]))
  }

  /** Position n is the first one behind m that clears. */
  predicate FirstClear(clears: seq<bool>, m: nat, n: nat) {
    m < n < |clears| && clears[n] && forall x :: m < x < n ==> !clears[x]
  }

  /** Loaded as long as nothing clears behind position m, and then unloaded at the time of the first clearing. */
  predicate TimesTell(loaded: bool, unloadTime: Time, clears: seq<bool>, times: seq<Time>, m: nat)
    requires |clears| == |times|
  {
    && (loaded <==> forall n :: m < n < |clears| ==> !clears[n])
    && (loaded ==> unloadTime == 0)
    && (forall n :: m < n < |clears| && FirstClear(clears, m, n) ==> unloadTime == times[n])
  }

  /** An image of k tells of the load event m and of the first event behind m that cleared its base, if there is one. */
  ghost predicate ImageTells(image: LoadedImage, es: seq<Input>, m: nat, k: nat) {
    && m < |es| && es[m].Process? && es[m].event.imageBase == Some(image.baseAddress)
    && image.timestamp == es[m].event.now
    && image.path == es[m].event.imageName.GetOr("")
    && image.size == es[m].event.imageSize.GetOr(0)
    && TimesTell(image.loaded, image.unloadTime, ClearMarks(es, k, image.baseAddress), ClearingTimes(es), m)
  }

  /** The bases an event clears. */
  datatype Clearing = NoBase | OneBase(base: nat) | EveryBase {
    predicate Covers(b: nat) {
      EveryBase? || (OneBase? && base == b)
    }
  }

  ghost function ClearingOf(es: seq<Input>, n: nat, k: nat): Clearing
    requires n < |es|
  {
    if EndedBy(es, k, n) then EveryBase
    else if es[n].Process? && es[n].kind.ImageUnload? && Target(es, n) == Some(k) && es[n].event.imageBase.Some?
    then OneBase(es[n].event.imageBase.value)
    else NoBase
  }

  lemma ClearingCovers(es: seq<Input>, n: nat, k: nat, b: nat)
    requires n < |es|
    ensures ClearingOf(es, n, k).Covers(b) <==> Clears(es, n, k, b)
  {
    hide Target;
  }

  /** What an event does to a list of images: one more at the end if it loads, and every loaded image whose base it
      clears is unloaded; no image moves. */
  predicate ListStep(before: seq<LoadedImage>, after: seq<LoadedImage>, image: Option<LoadedImage>, clearing: Clearing,
      at: Time)
  {
    && |after| == |before| + (if image.Some? then 1 else 0)
    && (forall i :: 0 <= i < |before| ==>
          UnloadedAt(before[i], after[i], before[i].loaded && clearing.Covers(before[i].baseAddress), at))
    && (image.Some? ==> after[|before|] == image.value)
  }

  lemma StopList(s: Store, ev: ProcessEvent, k: nat)
    requires Invariant(s)
    ensures var ends := k in s.contexts && ev.processId.Some? && ev.createTime.GetOr(0) != 0 && s.contexts[k].running
                        && SameLifetime(s.contexts[k], ev.processId.value, ev.createTime.value);
            ListStep(ImagesOf(s.contexts, k), ImagesOf(AfterStop(s, ev).contexts, k), None,
              if ends then EveryBase else NoBase, if ev.exitTime.Some? then FromFileTime(ev.exitTime.value) else 0)
  {
    StopAddsNothing(s, ev);
    if k in s.contexts {
      StopIsExact(s, ev, k);
      assert Sound(s.contexts[k]);
    }
    hide AfterStop;
    hide StopContext;
    hide FromFileTime;
    hide Invariant;
    hide UnloadedAt;
    hide OneLoadedPerBase;
    hide OneRunningPerTid;
    ListStays(ImagesOf(s.contexts, k));
  }

  /** An event that neither loads nor clears leaves a list alone. */
  lemma ListStays(images: seq<LoadedImage>)
    ensures forall at :: ListStep(images, images, None, NoBase, at)
  {
  }

  lemma ChangedList(kind: Kind, ev: ProcessEvent, c: ProcessContext, d: ProcessContext)
    requires IsDetail(kind) && Changes(kind, ev, c, d)
    ensures ListStep(c.images, d.images,
              if kind.ImageLoad? && ev.imageBase.GetOr(0) != 0 && c.running && !HasLoaded(c.images, ev.imageBase.value)
              then Some(ImageOf(ev)) else None,
              if kind.ImageUnload? && ev.imageBase.Some? then OneBase(ev.imageBase.value) else NoBase, ev.now)
  {
  }

  lemma DetailList(s: Store, kind: Kind, ev: ProcessEvent, k: nat)
    requires Invariant(s) && s.nextKey + 1 < U64 && IsDetail(kind)
    ensures var hit := Resolved(s, ev).1 == Some(k);
            var images := ImagesOf(s.contexts, k);
            ListStep(
              images, ImagesOf(AfterDetail(s, kind, ev).contexts, k),
              if hit && kind.ImageLoad? && ev.imageBase.GetOr(0) != 0
                 && (k in s.contexts ==> s.contexts[k].running) && !HasLoaded(images, ev.imageBase.value)
              then Some(ImageOf(ev)) else None,
              if hit && kind.ImageUnload? && ev.imageBase.Some? then OneBase(ev.imageBase.value) else NoBase, ev.now)
  {
    DetailIsExact(s, kind, ev);
    ResolutionLoadsNothing(s, ev, k);
    hide Resolved;
    hide AfterDetail;
    hide Invariant;
    hide HasLoaded;
    hide Changes;
    hide ListStep;
    ListStays(ImagesOf(s.contexts, k));
    var (resolved, key) := Resolved(s, ev);
    if key == Some(k) {
      ChangedList(kind, ev, resolved.contexts[k], AfterDetail(s, kind, ev).contexts[k]);
    }
  }

  /** The image event n loads into k, if it does. */
  ghost function LoadedBy(es: seq<Input>, n: nat, k: nat): Option<LoadedImage>
    requires n < |es|
  {
    if es[n].Process? && Loads(es, n, k) then Some(ImageOf(es[n].event)) else None
  }

  lemma LoadedIs(es: seq<Input>, n: nat, k: nat)
    requires Feasible(es) && n < |es| && es[n].Process?
    ensures var contexts, ev := Run(es[..n]).store.contexts, es[n].event;
            LoadedBy(es, n, k) ==
              if Target(es, n) == Some(k) && es[n].kind.ImageLoad? && ev.imageBase.GetOr(0) != 0
                 && (k in contexts ==> contexts[k].running) && !HasLoaded(ImagesOf(contexts, k), ev.imageBase.value)
              then Some(ImageOf(ev)) else None
  {
    var b := es[n].event.imageBase.GetOr(0);
    if b != 0 {
      SomethingLoaded(es[..n], k, b);
    }
    hide Run;
    hide Target;
    hide LiveLoad;
    hide HasLoaded;
    hide ImagesOf;
  }

  lemma QuietLoadsNothing(es: seq<Input>, n: nat, k: nat)
    requires n < |es| && IsQuiet(es[n])
    ensures LoadedBy(es, n, k) == None && ClearingOf(es, n, k) == NoBase
  {
    hide Run;
    hide Target;
  }

  lemma StopClears(es: seq<Input>, n: nat, k: nat)
    requires n < |es| && es[n].Process? && es[n].kind.Stop?
    ensures var contexts, ev := Run(es[..n]).store.contexts, es[n].event;
            ClearingOf(es, n, k) ==
              if k in contexts && ev.processId.Some? && ev.createTime.GetOr(0) != 0 && contexts[k].running
                 && SameLifetime(contexts[k], ev.processId.value, ev.createTime.value)
              then EveryBase else NoBase
  {
    hide Run;
    hide Target;
  }

  lemma DetailClears(es: seq<Input>, n: nat, k: nat)
    requires n < |es| && es[n].Process? && IsDetail(es[n].kind)
    ensures ClearingOf(es, n, k) ==
              if Target(es, n) == Some(k) && es[n].kind.ImageUnload? && es[n].event.imageBase.Some?
              then OneBase(es[n].event.imageBase.value) else NoBase
  {
    hide Run;
    hide Target;
  }

  lemma QuietList(es: seq<Input>, k: nat)
    requires Feasible(es) && es != [] && IsQuiet(es[|es| - 1])
    ensures var n := |es| - 1;
            ListStep(ImagesOf(Run(es[..n]).store.contexts, k), ImagesOf(Run(es).store.contexts, k),
              LoadedBy(es, n, k), ClearingOf(es, n, k), ClearingTime(es[n]))
  {
    var n := |es| - 1;
    var s := Run(es[..n]);
    ReachableInvariant(es[..n]);
    assert Run(es) == Next(s, es[n]);
    hide *;
    QuietStep(s, es[n], k);
    QuietLoadsNothing(es, n, k);
    ListStays(ImagesOf(s.store.contexts, k));
  }

  lemma StopsList(es: seq<Input>, k: nat)
    requires Feasible(es) && es != [] && es[|es| - 1].Process? && es[|es| - 1].kind.Stop?
    ensures var n := |es| - 1;
            ListStep(ImagesOf(Run(es[..n]).store.contexts, k), ImagesOf(Run(es).store.contexts, k),
              LoadedBy(es, n, k), ClearingOf(es, n, k), ClearingTime(es[n]))
  {
    var n := |es| - 1;
    var s, ev := Run(es[..n]).store, es[n].event;
    ReachableInvariant(es[..n]);
    assert Run(es).store == AfterStop(s, ev);
    assert ClearingTime(es[n]) == if ev.exitTime.Some? then FromFileTime(ev.exitTime.value) else 0;
    LoadedIs(es, n, k);
    assert LoadedBy(es, n, k) == None;
    hide *;
    StopClears(es, n, k);
    StopList(s, ev, k);
  }

  lemma DetailUnfolds(es: seq<Input>)
    requires Feasible(es) && es != [] && es[|es| - 1].Process? && IsDetail(es[|es| - 1].kind)
    ensures var n := |es| - 1;
            var s, ev := Run(es[..n]).store, es[n].event;
            && Invariant(s) && s.nextKey + 1 < U64
            && Run(es).store == AfterDetail(s, es[n].kind, ev)
            && Target(es, n) == Resolved(s, ev).1
            && (es[n].kind.ImageUnload? ==> ClearingTime(es[n]) == ev.now)
  {
    hide AfterDetail;
    hide Resolved;
    hide Invariant;
    ReachableInvariant(es[..|es| - 1]);
  }

  lemma DetailsList(es: seq<Input>, k: nat)
    requires Feasible(es) && es != [] && es[|es| - 1].Process? && IsDetail(es[|es| - 1].kind)
    ensures var n := |es| - 1;
            ListStep(ImagesOf(Run(es[..n]).store.contexts, k), ImagesOf(Run(es).store.contexts, k),
              LoadedBy(es, n, k), ClearingOf(es, n, k), ClearingTime(es[n]))
  {
    hide *;
    var n := |es| - 1;
    var s, ev := Run(es[..n]).store, es[n].event;
    DetailUnfolds(es);
    LoadedIs(es, n, k);
    DetailClears(es, n, k);
    DetailList(s, es[n].kind, ev, k);
    if !es[n].kind.ImageUnload? {
      TimeIsIdle(ImagesOf(s.contexts, k), ImagesOf(Run(es).store.contexts, k), LoadedBy(es, n, k), ev.now,
        ClearingTime(es[n]));
    }
  }

  /** The time does not matter where nothing is cleared. */
  lemma TimeIsIdle(before: seq<LoadedImage>, after: seq<LoadedImage>, image: Option<LoadedImage>, a: Time, b: Time)
    requires ListStep(before, after, image, NoBase, a)
    ensures ListStep(before, after, image, NoBase, b)
  {
  }

  lemma ListsStep(es: seq<Input>, k: nat)
    requires Feasible(es) && es != []
    ensures var n := |es| - 1;
            ListStep(ImagesOf(Run(es[..n]).store.contexts, k), ImagesOf(Run(es).store.contexts, k),
              LoadedBy(es, n, k), ClearingOf(es, n, k), ClearingTime(es[n]))
  {
    var n := |es| - 1;
    assert IsQuiet(es[n]) || (es[n].Process? && (es[n].kind.Stop? || IsDetail(es[n].kind)));
    hide *;
    if IsQuiet(es[n]) {
      QuietList(es, k);
    } else if es[n].kind.Stop? {
      StopsList(es, k);
    } else {
      DetailsList(es, k);
    }
  }

  lemma TimesSnoc(loaded: bool, time: Time, clears: seq<bool>, times: seq<Time>, c: bool, t: Time, m: nat)
    requires |clears| == |times| && m < |clears| && TimesTell(loaded, time, clears, times, m)
    ensures TimesTell(loaded && !c, if loaded && c then t else time, clears + [c], times + [t], m)
  {
    var cs, ts, n := clears + [c], times + [t], |clears|;
    assert cs[n] == c && ts[n] == t;
    assert forall x :: 0 <= x < n ==> cs[x] == clears[x] && ts[x] == times[x];
    if !loaded {
      var y :| m < y < n && clears[y];
      assert cs[y];
      forall x | m < x < |cs| && FirstClear(cs, m, x) ensures time == ts[x] {
        assert x <= y;
        assert FirstClear(clears, m, x);
      }
    } else {
      assert forall x :: m < x < n ==> !cs[x];
      assert forall x :: m < x < |cs| && FirstClear(cs, m, x) ==> x == n;
    }
  }

  lemma TellsOn(before: LoadedImage, after: LoadedImage, es: seq<Input>, m: nat, k: nat)
    requires es != [] && ImageTells(before, es[..|es| - 1], m, k)
    requires UnloadedAt(before, after, before.loaded && Clears(es, |es| - 1, k, before.baseAddress),
               ClearingTime(es[|es| - 1]))
    ensures ImageTells(after, es, m, k)
  {
    var n, b := |es| - 1, before.baseAddress;
    MarksSnoc(es, k, b);
    assert ClearingTimes(es) == ClearingTimes(es[..n]) + [ClearingTime(es[n])];
    hide TimesTell;
    hide Clears;
    hide ClearingTime;
    hide ClearMarks;
    TimesSnoc(before.loaded, before.unloadTime, ClearMarks(es[..n], k, b), ClearingTimes(es[..n]), Clears(es, n, k, b),
      ClearingTime(es[n]), m);
  }

  lemma TimesTellAtFirst(clears: seq<bool>, times: seq<Time>, m: nat)
    requires |clears| == |times| == m + 1
    ensures TimesTell(true, 0, clears, times, m)
  {
  }

  lemma TellsFirst(es: seq<Input>, k: nat)
    requires es != [] && es[|es| - 1].Process? && Loads(es, |es| - 1, k)
    ensures ImageTells(ImageOf(es[|es| - 1].event), es, |es| - 1, k)
  {
    hide Offers;
    hide LiveLoad;
    hide TimesTell;
    var m := |es| - 1;
    TimesTellAtFirst(ClearMarks(es, k, ImageOf(es[m].event).baseAddress), ClearingTimes(es), m);
  }

  /** The images of a lifetime are exactly those its history loads, in order: each carries what its load event says, it
      is loaded as long as nothing has cleared its base since, and after that it keeps the time of the first event that
      did. */
  lemma {:induction false} ImagesAreHistory(es: seq<Input>, k: nat)
    requires Feasible(es)
    ensures var images, ns := ImagesOf(Run(es).store.contexts, k), LoadEvents(es, k);
            |images| == |ns| && forall i :: 0 <= i < |images| ==> ImageTells(images[i], es, ns[i], k)
  {
    if es != [] {
      var n := |es| - 1;
      ImagesAreHistory(es[..n], k);
      ListsStep(es, k);
      hide Run;
      hide ImagesOf;
      hide ImageTells;
      hide ListStep;
      hide LoadEvents;
      ListTells(ImagesOf(Run(es[..n]).store.contexts, k), ImagesOf(Run(es).store.contexts, k), es, k);
    } else {
      hide ImageTells;
    }
  }

  lemma ListTells(before: seq<LoadedImage>, after: seq<LoadedImage>, es: seq<Input>, k: nat)
    requires es != []
    requires var n := |es| - 1;
             && ListStep(before, after, LoadedBy(es, n, k), ClearingOf(es, n, k), ClearingTime(es[n]))
             && |before| == |LoadEvents(es[..n], k)|
             && forall i :: 0 <= i < |before| ==> ImageTells(before[i], es[..n], LoadEvents(es[..n], k)[i], k)
    ensures |after| == |LoadEvents(es, k)|
    ensures forall i :: 0 <= i < |after| ==> ImageTells(after[i], es, LoadEvents(es, k)[i], k)
  {
    hide Run;
    hide ImageTells;
    hide UnloadedAt;
    hide Loads;
    hide ClearingOf;
    hide ClearingTime;
    var n := |es| - 1;
    var ns := LoadEvents(es[..n], k);
    forall i | 0 <= i < |before| ensures ImageTells(after[i], es, ns[i], k) {
      ClearingCovers(es, n, k, before[i].baseAddress);
      TellsOn(before[i], after[i], es, ns[i], k);
    }
    if Loads(es, n, k) {
      LoadsProcess(es, n, k);
      TellsFirst(es, k);
    }
  }

  lemma LoadsProcess(es: seq<Input>, n: nat, k: nat)
    requires n < |es| && Loads(es, n, k)
    ensures es[n].Process?
  {
  }
}
