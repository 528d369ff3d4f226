/**
 * The updater as the object whose fields its calls update in place. Every method is the code from a call,
 * or from an await, up to the next await, and takes the state where `UpdateSpec`, or for the page and its
 * dialogs `WebRelease`, says.
 */
module UpdateService {
  import opened Wrappers
  import opened UpdatePolicy
  import opened UpdateSpec
  import opened UpdateProofs
  import WebRelease

  /** What a caller can rely on: one download, and installers vouched for, run only when owed. */
  lemma Facts(s: State)
    requires Inv(s)
    ensures forall a, b :: a in s.disk.downloads && b in s.disk.downloads ==> a == b
    ensures s.disk.ready.Some? ==> s.disk.ready.value in s.disk.files && Vouched(s.disk.files[s.disk.ready.value], s.accepted)
    ensures forall p :: p in s.spawned ==> SpawnSafe(p, s.accepted)
    ensures s.portable ==> s.spawned == []
  {
    hide Vouched, SpawnSafe, WellFormed;
  }

  /** After a check the manifest is offered, its clock runs, and what is owed is being downloaded or at hand. */
  lemma TakenIn(s: State, o: Offer, now: int)
    requires Enabled(s, CheckAnswered(o, now))
    ensures var t := Step(s, CheckAnswered(o, now));
            && t.offer == Some(o) && o.manifest in t.accepted && t.clock.firstSeenAt.Some?
            && (!PlanNow(t, now).UpToDate? && !t.portable && t.disk.ready.None? ==> t.disk.busy)
  {
    hide WellFormed, DecideUpdate;
  }

  class Service {
    const currentVersion: string
    const portable: bool
    var offer: Option<Offer>
    var state: Clock
    var downloadedPath: Option<Path>
    var downloading: bool
    var installing: bool
    // The suspended calls and the files they work on.
    var waiting: nat
    var files: map<Path, string>
    var downloads: map<nat, Download>
    var nextDownload: nat
    ghost var accepted: set<Manifest>
    ghost var spawned: seq<Spawn>

    var webReleaseLoaded: Option<string>
    var webReleaseDismissed: Option<WebRelease.Dismissal>
    var webReleasePromptOpen: bool
    var webReleaseLoadSeq: nat
    var webReleaseLoadPending: bool
    var loads: set<nat>
    var checks: nat
    var dialogs: multiset<string>

    ghost function View(): State
      reads this
    {
      State(currentVersion, portable, offer, state, installing, waiting,
            Disk(downloadedPath, downloading, files, downloads, nextDownload), accepted, spawned)
    }

    ghost function WebView(): WebRelease.Web
      reads this
    {
      WebRelease.Web(webReleaseLoaded, webReleaseDismissed, webReleasePromptOpen, webReleaseLoadSeq,
                     webReleaseLoadPending, loads, checks, dialogs)
    }

    ghost predicate Valid()
      reads this
    {
      Inv(View()) && WebRelease.NewestPending(WebView())
    }

    constructor Start(currentVersion: string, portable: bool, saved: Clock, onDisk: map<Path, string>)
      ensures View() == Launched(currentVersion, portable, saved, onDisk)
      ensures WebView() == WebRelease.FRESH
      ensures Valid()
    {
      this.currentVersion, this.portable := currentVersion, portable;
      offer, state, downloadedPath, downloading, installing := None, saved, None, false, false;
      waiting, files, downloads, nextDownload, accepted, spawned := 0, onDisk, map[], 0, {}, [];
      webReleaseLoaded, webReleaseDismissed, webReleasePromptOpen := None, None, false;
      webReleaseLoadSeq, webReleaseLoadPending, loads, checks, dialogs := 0, false, {}, 0, multiset{};
    }

    function Plan(now: int): (p: Plan)
      reads this
    {
      DecideUpdate(currentVersion, if offer.Some? then Some(offer.value.manifest) else None, now, state)
    }

    ghost predicate OneDownload()
      reads this
    {
      forall a, b :: a in downloads && b in downloads ==> a == b
    }

    /** The installer at hand is, as a file, what some accepted manifest vouched for. */
    ghost predicate Verified()
      reads this
    {
      downloadedPath.Some? ==> downloadedPath.value in files && Vouched(files[downloadedPath.value], accepted)
    }

    ghost predicate RunsAreSafe()
      reads this
    {
      forall p :: p in spawned ==> SpawnSafe(p, accepted)
    }

    // ----- Manifest -----------------------------------------------------------------------------

    method ApplyManifest(o: Offer, now: int)
      modifies this`offer, this`state, this`downloadedPath, this`accepted
      ensures View() == UpdateSpec.ApplyManifest(old(View()), o, now)
      ensures WellFormed(o.manifest) && Inv(old(View())) ==> Inv(View())
      ensures state.firstSeenAt.Some? && (old(offer).Some? && old(offer).value.manifest.version != o.manifest.version ==> downloadedPath.None?)
    {
      hide Inv;
      ghost var before := View();
      if WellFormed(o.manifest) && Inv(before) { ApplyManifestSafe(before, o, now); }
      hide WellFormed;
      var changed := offer.None? || offer.value.manifest.version != o.manifest.version;
      offer, accepted := Some(o), accepted + {o.manifest};
      if changed {
        state, downloadedPath := Clock(Some(now), None, None), None;
      } else if state.firstSeenAt.None? || state.firstSeenAt.value == 0 {
        state := state.(firstSeenAt := Some(now));
      }
    }

    method CheckAnswered(o: Offer, now: int)
      requires Valid()
      requires Enabled(View(), Event.CheckAnswered(o, now))
      modifies this`offer, this`state, this`downloadedPath, this`accepted,
               this`downloading, this`downloads, this`nextDownload
      ensures View() == Step(old(View()), Event.CheckAnswered(o, now))
      ensures Valid()
      ensures offer == Some(o) && o.manifest in accepted && state.firstSeenAt.Some?
      ensures OneDownload() && Verified()
      ensures !Plan(now).UpToDate? && !portable && downloadedPath.None? ==> downloading
    {
      hide Inv, Step, DecideUpdate, Enabled, Vouched;
      ghost var before := View();
      StepKeepsInv(before, Event.CheckAnswered(o, now));
      TakenIn(before, o, now);
      TakeIn(o, now);
      Facts(View());
    }

    /** The code itself, without what it keeps. */
    method TakeIn(o: Offer, now: int)
      requires Enabled(View(), Event.CheckAnswered(o, now))
      modifies this`offer, this`state, this`downloadedPath, this`accepted,
               this`downloading, this`downloads, this`nextDownload
      ensures View() == Step(old(View()), Event.CheckAnswered(o, now))
    {
      ApplyManifest(o, now);
      MaybeDownload(now);
    }

    method Defer(now: int, hours: int)
      requires Valid()
      modifies this`state
      ensures View() == Step(old(View()), Deferring(now, hours))
      ensures Valid()
      ensures state.firstSeenAt == old(state.firstSeenAt)
    {
      hide Inv;
      StepKeepsInv(View(), Deferring(now, hours));
      Facts(Step(View(), Deferring(now, hours)));
      if offer.None? { return; }
      state := state.(deferredVersion := Some(offer.value.manifest.version),
                      deferredUntil := Some(now + hours * 3_600_000));
    }

    // ----- Download and verify ------------------------------------------------------------------

    method MaybeDownload(now: int)
      modifies this`downloading, this`downloads, this`nextDownload
      ensures View() == UpdateSpec.MaybeDownload(old(View()), now)
      ensures Inv(old(View())) ==> Inv(View())
      ensures offer.Some? && !Plan(now).UpToDate? && !portable ==> downloading || downloadedPath.Some?
    {
      hide Inv, DecideUpdate;
      ghost var before := View();
      if Inv(before) { MaybeDownloadSafe(before, now); }
      if offer.None? || downloading || downloadedPath.Some? { return; }
      if Plan(now).UpToDate? { return; }
      if portable { return; }
      downloading := true;
      downloads := downloads[nextDownload := Download(offer.value, HashingTarget)];
      nextDownload := nextDownload + 1;
    }

    method DownloadResumed(id: nat, r: DlResume)
      requires Valid()
      requires Enabled(View(), Downloading(id, r))
      modifies this`downloadedPath, this`downloading, this`files, this`downloads
      ensures View() == Step(old(View()), Downloading(id, r))
      ensures Valid()
      ensures OneDownload() && Verified()
    {
      hide Inv, Step, Enabled, Vouched;
      ghost var before := View();
      StepKeepsInv(before, Downloading(id, r));
      Resume(id, r);
      Facts(View());
    }

    /** The code itself, without what it keeps. */
    method Resume(id: nat, r: DlResume)
      requires Enabled(View(), Downloading(id, r))
      modifies this`downloadedPath, this`downloading, this`files, this`downloads
      ensures View() == Step(old(View()), Downloading(id, r))
    {
      hide Target, Partial;
      var o := downloads[id].offer;
      var target, partial := Target(o), Partial(o);
      var next: Option<DlPc> := None;
      match r {
        case TargetHashed =>
          if target in files && files[target] == o.manifest.sha256 {
            downloadedPath := Some(target);
          } else {
            next := Some(Fetching);
          }
        case FetchAnswered(ok, declared) =>
          if ok && declared <= MAX_INSTALLER_BYTES { next := Some(Writing); }
        case Written(digest) =>
          files := files[partial := digest];
          next := Some(HashingPart);
        case PartHashed =>
          next := Some(if files[partial] != o.manifest.sha256 then Removing else Renaming);
        case PartRemoved =>
          files := files - {partial};
        case PartRenamed =>
          files := (files - {partial})[target := files[partial]];
          downloadedPath := Some(target);
        case Threw(left) =>
          if left.Some? { files := files[partial := left.value]; }
      }
      if next.Some? {
        downloads := downloads[id := downloads[id].(pc := next.value)];
      } else {
        downloading, downloads := false, downloads - {id};
      }
    }

    // ----- Install ------------------------------------------------------------------------------

    method MaybeInstall(at: Moment, userRequested: bool, ok: bool)
      requires Valid()
      modifies this`downloading, this`downloads, this`nextDownload, this`waiting, this`installing, this`spawned
      ensures View() == Step(old(View()), TryInstall(at, userRequested, ok))
      ensures Valid()
      ensures RunsAreSafe() && (portable ==> spawned == [])
    {
      hide Inv;
      StepKeepsInv(View(), TryInstall(at, userRequested, ok));
      Facts(Step(View(), TryInstall(at, userRequested, ok)));
      if installing { return; }
      if downloadedPath.None? {
        MaybeDownload(at.now);
        waiting := waiting + 1;
        return;
      }
      Decide(at, userRequested, ok);
    }

    method InstallResumed(at: Moment, userRequested: bool, ok: bool)
      requires Valid()
      requires Enabled(View(), Event.InstallResumed(at, userRequested, ok))
      modifies this`waiting, this`installing, this`spawned
      ensures View() == Step(old(View()), Event.InstallResumed(at, userRequested, ok))
      ensures Valid()
      ensures RunsAreSafe() && (portable ==> spawned == [])
    {
      hide Inv;
      StepKeepsInv(View(), Event.InstallResumed(at, userRequested, ok));
      Facts(Step(View(), Event.InstallResumed(at, userRequested, ok)));
      waiting := waiting - 1;
      if downloadedPath.None? { return; }
      Decide(at, userRequested, ok);
    }

    /** The verdict of the install window, and the run of the installer when it says yes. */
    method Decide(at: Moment, userRequested: bool, ok: bool)
      requires downloadedPath.Some?
      modifies this`installing, this`spawned
      ensures View() == Install(old(View()), at, userRequested, ok)
    {
      var plan := Plan(at.now);
      if !InstallWindow(plan, true, portable, at, userRequested) { return; }
      installing := true;
      var started := SpawnInstaller(plan, if userRequested then Asked else Quiet(at), ok);
      if !started { installing := false; }
    }

    method InstallOnQuit(now: int, ok: bool)
      requires Valid()
      modifies this`spawned
      ensures View() == Step(old(View()), Quit(now, ok))
      ensures Valid()
      ensures RunsAreSafe() && (portable ==> spawned == [])
    {
      hide Inv;
      StepKeepsInv(View(), Quit(now, ok));
      Facts(Step(View(), Quit(now, ok)));
      if installing || downloadedPath.None? { return; }
      if !ShouldInstallOnQuit(Plan(now), true, portable) { return; }
      var _ := SpawnInstaller(Plan(now), OnQuit, ok);
    }

    method SpawnInstaller(plan: Plan, reason: Reason, ok: bool) returns (started: bool)
      requires downloadedPath.Some?
      modifies this`spawned
      ensures (View(), started) == UpdateSpec.SpawnInstaller(old(View()), downloadedPath.value, plan, reason, ok)
    {
      started := ok;
      if ok && downloadedPath.value in files { spawned := spawned + [Spawn(files[downloadedPath.value], plan, reason)]; }
    }

    // ----- Web releases -------------------------------------------------------------------------

    method NoteWebPageLoaded()
      requires Valid()
      modifies this`webReleaseLoadSeq, this`webReleaseLoaded, this`webReleaseLoadPending, this`loads
      ensures WebView() == WebRelease.Step(old(WebView()), WebRelease.PageLoaded)
      ensures Valid()
      ensures webReleaseLoadPending && webReleaseLoadSeq in loads && webReleaseLoaded.None?
    {
      hide Inv;
      WebRelease.StepKeepsNewestPending(WebView(), WebRelease.PageLoaded);
      webReleaseLoadSeq := webReleaseLoadSeq + 1;
      webReleaseLoaded, webReleaseLoadPending := None, true;
      loads := loads + {webReleaseLoadSeq};
    }

    method LoadAnswered(load: nat, release: Option<string>)
      requires Valid()
      requires load in loads
      modifies this`webReleaseLoaded, this`webReleaseLoadPending, this`loads
      ensures WebView() == WebRelease.Step(old(WebView()), WebRelease.LoadAnswered(load, release))
      ensures Valid()
      ensures webReleaseLoadPending <==> webReleaseLoadSeq in loads
      ensures webReleaseLoaded != old(webReleaseLoaded) ==> load == webReleaseLoadSeq && webReleaseLoaded == release
    {
      hide Inv;
      WebRelease.StepKeepsNewestPending(WebView(), WebRelease.LoadAnswered(load, release));
      loads := loads - {load};
      if load != webReleaseLoadSeq { return; }
      webReleaseLoadPending := false;
      if release.Some? { webReleaseLoaded := release; }
    }

    method CheckWebRelease(windowOpen: bool)
      requires Valid()
      modifies this`checks
      ensures WebView() == WebRelease.Step(old(WebView()), WebRelease.CheckStarted(windowOpen))
      ensures Valid()
      ensures checks != old(checks) ==> webReleaseLoadSeq !in loads && !webReleasePromptOpen
    {
      hide Inv;
      WebRelease.StepKeepsNewestPending(WebView(), WebRelease.CheckStarted(windowOpen));
      if webReleasePromptOpen || webReleaseLoadPending { return; }
      if !windowOpen { return; }
      checks := checks + 1;
    }

    method WebCheckAnswered(release: Option<string>, now: int, inMatch: bool)
      requires Valid()
      requires checks > 0
      modifies this`checks, this`webReleaseLoaded, this`webReleasePromptOpen, this`dialogs
      ensures WebView() == WebRelease.Step(old(WebView()), WebRelease.CheckAnswered(release, now, inMatch))
      ensures Valid()
      ensures webReleaseLoaded != old(webReleaseLoaded) ==> webReleaseLoadSeq !in loads && dialogs == old(dialogs)
      ensures dialogs != old(dialogs) ==> webReleaseLoaded.Some? && release != webReleaseLoaded && !inMatch
    {
      hide Inv, WebRelease.Step;
      WebRelease.StepKeepsNewestPending(WebView(), WebRelease.CheckAnswered(release, now, inMatch));
      WebRelease.AnswerOpensOrMoves(WebView(), release, now, inMatch);
      TakeRelease(release, now, inMatch);
    }

    /** The code itself, without what it keeps. */
    method TakeRelease(release: Option<string>, now: int, inMatch: bool)
      requires checks > 0
      modifies this`checks, this`webReleaseLoaded, this`webReleasePromptOpen, this`dialogs
      ensures WebView() == WebRelease.Step(old(WebView()), WebRelease.CheckAnswered(release, now, inMatch))
    {
      hide WebRelease.ShouldPrompt;
      checks := checks - 1;
      if release.None? { return; }
      if webReleaseLoaded.None? {
        if !webReleaseLoadPending { webReleaseLoaded := release; }
        return;
      }
      if !WebRelease.ShouldPrompt(webReleaseLoaded.value, release.value, webReleaseDismissed, now, inMatch) { return; }
      webReleasePromptOpen := true;
      dialogs := dialogs + multiset{release.value};
    }

    method DialogAnswered(id: string, accept: bool, now: int)
      requires Valid()
      requires id in dialogs
      modifies this`webReleaseLoaded, this`webReleaseDismissed, this`webReleasePromptOpen, this`dialogs
      ensures WebView() == WebRelease.Step(old(WebView()), WebRelease.DialogAnswered(id, accept, now))
      ensures Valid()
      ensures webReleaseLoaded == if accept then Some(id) else old(webReleaseLoaded)
      ensures !accept && webReleaseLoaded.Some? ==>
                forall at :: at < now + WEB_RELEASE_LATER_MS ==>
                  !WebRelease.ShouldPrompt(webReleaseLoaded.value, id, webReleaseDismissed, at, false)
    {
      hide Inv, WebRelease.Step, WebRelease.NewestPending;
      WebRelease.StepKeepsNewestPending(WebView(), WebRelease.DialogAnswered(id, accept, now));
      WebRelease.LaterHolds(WebView(), id, accept, now);
      Settle(id, accept, now);
    }

    /** The code itself, without what it keeps. */
    method Settle(id: string, accept: bool, now: int)
      requires id in dialogs
      modifies this`webReleaseLoaded, this`webReleaseDismissed, this`webReleasePromptOpen, this`dialogs
      ensures WebView() == WebRelease.Step(old(WebView()), WebRelease.DialogAnswered(id, accept, now))
    {
      dialogs := dialogs - multiset{id};
      if accept {
        webReleaseLoaded, webReleaseDismissed := Some(id), None;
      } else {
        webReleaseDismissed := Some(WebRelease.Dismissal(id, now + WEB_RELEASE_LATER_MS));
      }
      webReleasePromptOpen := false;
    }
  }
}
