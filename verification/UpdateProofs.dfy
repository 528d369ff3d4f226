/** What every run of the updater keeps. */
module UpdateProofs {
  import opened Wrappers
  import opened UpdatePolicy
  import opened Versions
  import opened UpdateSpec

  // ----- One download, and only verified installers -------------------------------------------

  ghost predicate Vouched(digest: string, accepted: set<Manifest>) {
    exists m :: m in accepted && m.sha256 == digest
  }

  /** At most one download is under way, `busy` says so, and what is ready, or about to be, is vouched for. */
  ghost predicate DiskSafe(d: Disk, accepted: set<Manifest>) {
    && (forall a, b :: a in d.downloads && b in d.downloads ==> a == b)
    && (d.busy <==> d.downloads != map[])
    && (forall id :: id in d.downloads ==> id < d.next && d.downloads[id].offer.manifest in accepted)
    && (forall id :: id in d.downloads && d.downloads[id].pc.Renaming? ==>
          var o := d.downloads[id].offer; Partial(o) in d.files && d.files[Partial(o)] == o.manifest.sha256)
    && (d.ready.Some? ==> !d.busy && d.ready.value in d.files && Vouched(d.files[d.ready.value], accepted))
  }

  /** Every installer run so far was vouched for, owed, and run at quitting, on request or in a quiet moment. */
  ghost predicate SpawnSafe(p: Spawn, accepted: set<Manifest>) {
    && Vouched(p.digest, accepted) && !p.plan.UpToDate?
    && (p.reason.Quiet? ==>
          && (p.plan.Overdue? || p.plan.Required?)
          && p.reason.at.online && !p.reason.at.live && !p.reason.at.focused
          && p.reason.at.idleMs >= IDLE_BEFORE_INSTALL_MS)
  }

  ghost predicate Inv(s: State) {
    && DiskSafe(s.disk, s.accepted)
    && (forall m :: m in s.accepted ==> WellFormed(m))
    && (s.offer.Some? ==> s.offer.value.manifest in s.accepted)
    && (forall p :: p in s.spawned ==> SpawnSafe(p, s.accepted))
    && (s.portable ==> s.disk.downloads == map[] && s.disk.ready.None? && s.spawned == [])
  }

  lemma DlStepSafe(d: Disk, id: nat, r: DlResume, accepted: set<Manifest>)
    requires DiskSafe(d, accepted) && DlReady(d, id, r)
    ensures DiskSafe(DlStep(d, id, r), accepted)
  {
    var t := DlStep(d, id, r);
    var o := d.downloads[id].offer;
    assert Vouched(o.manifest.sha256, accepted);
    assert forall k :: k in d.downloads ==> k == id;
    assert forall k :: k in t.downloads ==> k == id;
    assert t.busy <==> id in t.downloads;
    assert Partial(o) != Target(o);
  }

  lemma MaybeDownloadSafe(s: State, now: int)
    requires Inv(s)
    ensures Inv(MaybeDownload(s, now))
  {
    var t := MaybeDownload(s, now);
    if t != s {
      assert s.disk.downloads == map[];
      assert forall k :: k in t.disk.downloads ==> k == s.disk.next;
      assert s.disk.next in t.disk.downloads;
    }
  }

  lemma VouchedGrows(digest: string, accepted: set<Manifest>, m: Manifest)
    requires Vouched(digest, accepted)
    ensures Vouched(digest, accepted + {m})
  {
    var k :| k in accepted && k.sha256 == digest;
    assert k in accepted + {m};
  }

  lemma DiskSafeGrows(d: Disk, accepted: set<Manifest>, m: Manifest)
    requires DiskSafe(d, accepted)
    ensures DiskSafe(d, accepted + {m}) && DiskSafe(d.(ready := None), accepted + {m})
  {
    if d.ready.Some? { VouchedGrows(d.files[d.ready.value], accepted, m); }
  }

  lemma ApplyManifestSafe(s: State, o: Offer, now: int)
    requires Inv(s) && WellFormed(o.manifest)
    ensures Inv(ApplyManifest(s, o, now))
  {
    hide DiskSafe, WellFormed, Vouched;
    DiskSafeGrows(s.disk, s.accepted, o.manifest);
    forall p | p in s.spawned ensures SpawnSafe(p, s.accepted + {o.manifest}) {
      VouchedGrows(p.digest, s.accepted, o.manifest);
    }
  }

  lemma InstallSafe(s: State, at: Moment, userRequested: bool, ok: bool)
    requires Inv(s)
    ensures Inv(Install(s, at, userRequested, ok))
  {
  }

  lemma StepKeepsInv(s: State, e: Event)
    requires Inv(s) && Enabled(s, e)
    ensures Inv(Step(s, e))
  {
    hide DiskSafe, SpawnSafe, DlStep, ApplyManifest, MaybeDownload, Install, WellFormed;
    match e
    case CheckAnswered(offer, now) =>
      ApplyManifestSafe(s, offer, now);
      MaybeDownloadSafe(ApplyManifest(s, offer, now), now);
    case TryInstall(at, userRequested, ok) =>
      MaybeDownloadSafe(s, at.now);
      InstallSafe(s, at, userRequested, ok);
    case InstallResumed(at, userRequested, ok) => InstallSafe(s.(waiting := s.waiting - 1), at, userRequested, ok);
    case Downloading(id, r) => DownloadingSafe(s, id, r);
    case Quit(now, ok) => QuitSafe(s, now, ok);
    case Deferring(now, hours) =>
  }

  lemma DownloadingSafe(s: State, id: nat, r: DlResume)
    requires Inv(s) && DlReady(s.disk, id, r)
    ensures Inv(s.(disk := DlStep(s.disk, id, r)))
  {
    DlStepSafe(s.disk, id, r, s.accepted);
    hide DiskSafe, SpawnSafe;
  }

  lemma QuitSafe(s: State, now: int, ok: bool)
    requires Inv(s)
    ensures Inv(Step(s, Quit(now, ok)))
  {
  }

  lemma {:induction false} RunKeepsInv(s: State, es: seq<Event>)
    requires Inv(s)
    ensures Inv(Run(s, es))
    decreases |es|
  {
    if es != [] {
      if Enabled(s, es[0]) {
        StepKeepsInv(s, es[0]);
        RunKeepsInv(Step(s, es[0]), es[1..]);
      } else {
        RunKeepsInv(s, es[1..]);
      }
    }
  }

  /**
   * Over every run of a process at most one download is under way; every installer started was, as a
   * file, digest-equal to the sha256 of a manifest that had been accepted, while an update was owed; and a
   * portable build starts none.
   */
  lemma OnlyVerifiedInstallersRun(current: string, portable: bool, saved: Clock, files: map<Path, string>, es: seq<Event>)
    ensures var s := Run(Launched(current, portable, saved, files), es);
            && (forall a, b :: a in s.disk.downloads && b in s.disk.downloads ==> a == b)
            && (s.disk.busy <==> s.disk.downloads != map[])
            && (forall p :: p in s.spawned ==> SpawnSafe(p, s.accepted))
            && (forall m :: m in s.accepted ==> WellFormed(m))
            && (portable ==> s.spawned == [] && s.disk.files == files)
  {
    var s := Launched(current, portable, saved, files);
    RunKeepsInv(s, es);
    if portable { PortableTouchesNothing(s, es); }
    RunKeepsBuild(s, es);
  }

  lemma {:induction false} RunKeepsBuild(s: State, es: seq<Event>)
    ensures Run(s, es).portable == s.portable && Run(s, es).current == s.current
    decreases |es|
  {
    hide PlanNow, DlStep, InstallWindow, WellFormed;
    if es != [] { RunKeepsBuild(if Enabled(s, es[0]) then Step(s, es[0]) else s, es[1..]); }
  }

  lemma {:induction false} PortableTouchesNothing(s: State, es: seq<Event>)
    requires Inv(s) && s.portable
    ensures Run(s, es).disk.files == s.disk.files
    decreases |es|
  {
    hide PlanNow, InstallWindow, WellFormed, SpawnSafe;
    if es != [] {
      if Enabled(s, es[0]) {
        StepKeepsInv(s, es[0]);
        PortableTouchesNothing(Step(s, es[0]), es[1..]);
      } else {
        PortableTouchesNothing(s, es[1..]);
      }
    }
  }

  // ----- The installer at hand and the manifest offered -----------------------------------------

  /** What is ready, and what is being downloaded, is what is offered now. */
  ghost predicate Current(s: State) {
    && (forall id :: id in s.disk.downloads ==> s.offer == Some(s.disk.downloads[id].offer))
    && (s.disk.ready.Some? ==>
          && s.offer.Some? && s.disk.ready.value in s.disk.files
          && s.disk.files[s.disk.ready.value] == s.offer.value.manifest.sha256)
  }

  /**
   * What a check must meet: a manifest unlike the one offered comes while nothing is being downloaded, and
   * has another version, or the same digest, or comes while no installer is at hand.
   */
  predicate Orderly(s: State, e: Event) {
    Enabled(s, e) && e.CheckAnswered? && s.offer.Some? && e.offer != s.offer.value ==>
      && !s.disk.busy
      && (|| e.offer.manifest.version != s.offer.value.manifest.version
          || e.offer.manifest.sha256 == s.offer.value.manifest.sha256
          || s.disk.ready.None?)
  }

  function Next(s: State, e: Event): State {
    if Enabled(s, e) then Step(s, e) else s
  }

  ghost predicate OrderlyRun(s: State, es: seq<Event>)
    decreases |es|
  {
    es == [] || (Orderly(s, es[0]) && OrderlyRun(Next(s, es[0]), es[1..]))
  }

  lemma DlStepKeepsCurrent(s: State, id: nat, r: DlResume)
    requires Inv(s) && Current(s) && DlReady(s.disk, id, r)
    ensures Current(s.(disk := DlStep(s.disk, id, r)))
  {
    hide SpawnSafe, WellFormed;
    assert forall k :: k in s.disk.downloads ==> k == id;
  }

  /** A manifest that is taken in keeps things current exactly when it is orderly. */
  lemma ApplyCurrentIff(s: State, o: Offer, now: int)
    requires Inv(s) && Current(s)
    ensures var t := ApplyManifest(s, o, now);
            Current(t) <==>
              (s.offer.Some? && o != s.offer.value ==>
                 && !s.disk.busy
                 && (|| o.manifest.version != s.offer.value.manifest.version
                     || o.manifest.sha256 == s.offer.value.manifest.sha256
                     || s.disk.ready.None?))
  {
    hide SpawnSafe, WellFormed, Vouched, PlanNow;
    if s.disk.busy {
      var id :| id in s.disk.downloads;
      assert id in ApplyManifest(s, o, now).disk.downloads;
    }
  }

  lemma DownloadCurrentIff(s: State, now: int)
    requires DiskSafe(s.disk, s.accepted)
    ensures Current(MaybeDownload(s, now)) <==> Current(s)
  {
    hide WellFormed, Vouched, PlanNow;
    var t := MaybeDownload(s, now);
    if t != s {
      assert s.disk.downloads == map[];
      assert t.disk.ready == s.disk.ready && t.offer == s.offer && t.disk.files == s.disk.files;
      assert forall id :: id in t.disk.downloads ==> t.disk.downloads[id].offer == s.offer.value;
    }
  }

  lemma CheckCurrentIff(s: State, o: Offer, now: int)
    requires Inv(s) && Current(s) && Enabled(s, CheckAnswered(o, now))
    ensures Current(Step(s, CheckAnswered(o, now))) <==> Orderly(s, CheckAnswered(o, now))
  {
    hide Current, MaybeDownload;
    ApplyCurrentIff(s, o, now);
    ApplyManifestSafe(s, o, now);
    DownloadCurrentIff(ApplyManifest(s, o, now), now);
    hide SpawnSafe, DiskSafe, ApplyManifest;
  }

  /**
   * Each step leaves the installer at hand, and what is being downloaded, those of the manifest offered exactly
   * when it is orderly.
   */
  lemma CurrentIffOrderly(s: State, e: Event)
    requires Inv(s) && Current(s) && Enabled(s, e)
    ensures Current(Step(s, e)) <==> Orderly(s, e)
  {
    hide DlStep, PlanNow, InstallWindow, WellFormed, SpawnSafe, Vouched, MaybeDownload, ApplyManifest;
    match e
    case CheckAnswered(o, now) => CheckCurrentIff(s, o, now);
    case Downloading(id, r) => DlStepKeepsCurrent(s, id, r);
    case TryInstall(at, _, _) => DownloadCurrentIff(s, at.now);
    case _ =>
  }

  /** Over a run they are those of the manifest offered, at every moment, exactly when every step is orderly. */
  lemma {:induction false} InstallerIsTheOfferedOneIff(s: State, es: seq<Event>)
    requires Inv(s) && Current(s)
    ensures (forall k :: 0 <= k <= |es| ==> Current(Run(s, es[..k]))) <==> OrderlyRun(s, es)
    decreases |es|
  {
    hide Inv, Current, Step, Enabled, Orderly;
    if es == [] {
      assert es[..0] == [];
    } else {
      var t := Next(s, es[0]);
      if Enabled(s, es[0]) {
        CurrentIffOrderly(s, es[0]);
        StepKeepsInv(s, es[0]);
      } else {
        DisabledIsOrderly(s, es[0]);
      }
      forall k | 1 <= k <= |es| ensures Run(s, es[..k]) == Run(t, es[1..][..k - 1]) {
        assert es[..k][0] == es[0] && es[..k][1..] == es[1..][..k - 1];
      }
      assert Run(s, es[..0]) == s && Run(s, es[..1]) == t;
      if Current(t) {
        InstallerIsTheOfferedOneIff(t, es[1..]);
        assert forall k :: 0 <= k <= |es[1..]| ==> Run(t, es[1..][..k]) == Run(s, es[..k + 1]);
      }
    }
  }

  lemma DisabledIsOrderly(s: State, e: Event)
    requires !Enabled(s, e)
    ensures Orderly(s, e)
  {
  }

  /** And then what a step runs is that installer, while its update is owed. */
  lemma RunsTheOfferedOne(s: State, e: Event)
    requires Inv(s) && Current(s) && Enabled(s, e)
    ensures Step(s, e).spawned == s.spawned ||
            (s.offer.Some? && exists p :: Step(s, e).spawned == s.spawned + [p]
                                            && p.digest == s.offer.value.manifest.sha256 && !p.plan.UpToDate?)
  {
    hide DlStep, PlanNow, WellFormed, SpawnSafe, Vouched, DiskSafe;
    var t := Step(s, e);
    if t.spawned != s.spawned {
      var p := t.spawned[|s.spawned|];
      assert t.spawned == s.spawned + [p];
    }
  }

  /** A run out of order: the manifest moves on during a download, and the older installer is at hand after it. */
  lemma NewerManifestMidDownload(current: string, older: Offer, newer: Offer)
    requires WellFormed(older.manifest) && WellFormed(newer.manifest) && older.manifest.version != newer.manifest.version
    requires Compare(current, older.manifest.version) < 0
    ensures var es := [CheckAnswered(older, 1), Downloading(0, TargetHashed), Downloading(0, FetchAnswered(true, 0)),
                       CheckAnswered(newer, 2), Downloading(0, Written(older.manifest.sha256)),
                       Downloading(0, PartHashed), Downloading(0, PartRenamed)];
            var s := Run(Launched(current, false, NO_CLOCK, map[]), es);
            s.offer == Some(newer) && s.disk.ready == Some(Target(older))
  {
    hide WellFormed;
    var digest := older.manifest.sha256;
    var es := [CheckAnswered(older, 1), Downloading(0, TargetHashed), Downloading(0, FetchAnswered(true, 0)),
               CheckAnswered(newer, 2), Downloading(0, Written(digest)), Downloading(0, PartHashed), Downloading(0, PartRenamed)];
    var s0 := Launched(current, false, NO_CLOCK, map[]);
    var s1 := Step(s0, es[0]);
    assert s1.disk == Disk(None, true, map[], map[0 := Download(older, HashingTarget)], 1);
    var s2 := Step(s1, es[1]);
    var s3 := Step(s2, es[2]);
    assert s3.disk == Disk(None, true, map[], map[0 := Download(older, Writing)], 1);
    var s4 := Step(s3, es[3]);
    assert s4.disk == s3.disk && s4.offer == Some(newer);
    FinishDownload(s4, older);
    FourThenThree(s0, es, s1, s2, s3, s4);
  }

  /** Written, hashed and renamed, the partial file becomes the installer at hand. */
  lemma FinishDownload(s: State, o: Offer)
    requires s.disk == Disk(None, true, map[], map[0 := Download(o, Writing)], 1)
    ensures var es := [Downloading(0, Written(o.manifest.sha256)), Downloading(0, PartHashed), Downloading(0, PartRenamed)];
            Run(s, es).offer == s.offer && Run(s, es).disk.ready == Some(Target(o))
  {
    var es := [Downloading(0, Written(o.manifest.sha256)), Downloading(0, PartHashed), Downloading(0, PartRenamed)];
    var t := Step(s, es[0]);
    var u := Step(t, es[1]);
    assert u.disk.downloads == map[0 := Download(o, Renaming)] && Partial(o) in u.disk.files;
    var v := Step(u, es[2]);
    assert es[1..][0] == es[1] && es[1..][1..] == es[2..] && es[2..][0] == es[2] && es[2..][1..] == [];
    hide Step;
    assert Run(s, es) == Run(t, es[1..]) == Run(u, es[2..]) == Run(v, []);
  }

  lemma FourThenThree(s0: State, es: seq<Event>, s1: State, s2: State, s3: State, s4: State)
    requires |es| == 7
    requires Enabled(s0, es[0]) && Step(s0, es[0]) == s1 && Enabled(s1, es[1]) && Step(s1, es[1]) == s2
    requires Enabled(s2, es[2]) && Step(s2, es[2]) == s3 && Enabled(s3, es[3]) && Step(s3, es[3]) == s4
    ensures Run(s0, es) == Run(s4, [es[4], es[5], es[6]])
  {
    hide Step, Enabled;
    assert es[1..][1..] == es[2..] && es[2..][1..] == es[3..] && es[3..][1..] == es[4..] == [es[4], es[5], es[6]];
    assert Run(s0, es) == Run(s1, es[1..]) == Run(s2, es[2..]) == Run(s3, es[3..]) == Run(s4, es[4..]);
  }

  /** A download begins only for an owed update, with nothing ready or under way, and never in a portable build. */
  lemma DownloadsOnlyWhatIsOwed(s: State, e: Event)
    requires Enabled(s, e) && Step(s, e).disk.next != s.disk.next
    ensures var t := Step(s, e);
            && !s.portable && !s.disk.busy && t.offer.Some?
            && (s.disk.ready.None? || s.offer.None? || s.offer.value.manifest.version != t.offer.value.manifest.version)
            && exists now :: !PlanNow(t, now).UpToDate?
  {
    hide DlStep, DecideUpdate, InstallWindow, WellFormed;
    match e
    case CheckAnswered(offer, now) => assert !PlanNow(Step(s, e), now).UpToDate?;
    case TryInstall(at, userRequested, ok) => assert !PlanNow(Step(s, e), at.now).UpToDate?;
    case Downloading(id, r) => NextKept(s.disk, id, r);
    case _ =>
  }

  lemma NextKept(d: Disk, id: nat, r: DlResume)
    requires DlReady(d, id, r)
    ensures DlStep(d, id, r).next == d.next
  {
  }

  // ----- The two days -------------------------------------------------------------------------

  /** The events bring no other version than the one offered. */
  ghost predicate SameVersion(es: seq<Event>, version: string) {
    forall e :: e in es && e.CheckAnswered? ==> e.offer.manifest.version == version
  }

  /** While the offered version stays the same, no sequence of checks, downloads and deferrals moves the deadline. */
  lemma {:induction false} DeadlineStandsStill(s: State, es: seq<Event>, now: int)
    requires s.offer.Some? && Started(s.clock) && SameVersion(es, s.offer.value.manifest.version)
    ensures var t := Run(s, es);
            && t.offer.Some? && t.offer.value.manifest.version == s.offer.value.manifest.version
            && t.clock.firstSeenAt == s.clock.firstSeenAt
            && (!PlanNow(t, now).UpToDate? ==> PlanNow(t, now).deadlineAt == s.clock.firstSeenAt.value + UPDATE_DEADLINE_MS)
    decreases |es|
  {
    if es != [] {
      assert es[0] in es;
      var t := if Enabled(s, es[0]) then Step(s, es[0]) else s;
      ClockKept(s, es[0]);
      DeadlineStandsStill(t, es[1..], now);
    }
  }

  lemma ClockKept(s: State, e: Event)
    requires s.offer.Some? && Started(s.clock)
    requires e.CheckAnswered? ==> e.offer.manifest.version == s.offer.value.manifest.version
    ensures var t := if Enabled(s, e) then Step(s, e) else s;
            && t.offer.Some? && t.offer.value.manifest.version == s.offer.value.manifest.version
            && t.clock.firstSeenAt == s.clock.firstSeenAt
  {
    hide DlStep, PlanNow, InstallWindow;
  }

  /**
   * The saved clock does not survive a restart: the first manifest of a process starts the two days, and
   * drops a deferral, whatever an earlier process had seen.
   */
  lemma RestartStartsTheClockAgain(current: string, portable: bool, saved: Clock, files: map<Path, string>, o: Offer, now: int)
    requires WellFormed(o.manifest)
    ensures Step(Launched(current, portable, saved, files), CheckAnswered(o, now)).clock == Clock(Some(now), None, None)
  {
  }
}
