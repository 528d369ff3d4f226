/** When an update presses, when its installer is fetched and when it is run: exactly, and over every run. */
module UpdateLaws {
  import opened Wrappers
  import opened UpdatePolicy
  import opened Versions
  import opened UpdateSpec
  import opened UpdateProofs

  // ----- Pressing -----------------------------------------------------------------------------

  /** Until when the last deferral of a run holds. */
  function HeldUntil(es: seq<Event>): Option<int> {
    if es == [] then None
    else if HeldUntil(es[1..]).Some? then HeldUntil(es[1..])
    else if es[0].Deferring? then Some(es[0].now + es[0].hours * 3_600_000)
    else None
  }

  /** What an event with the same version leaves of the clock. */
  lemma ClockStep(s: State, e: Event)
    requires Inv(s) && s.offer.Some? && Started(s.clock) && Enabled(s, e)
    requires e.CheckAnswered? ==> e.offer.manifest.version == s.offer.value.manifest.version
    ensures var t, version := Step(s, e), s.offer.value.manifest.version;
            && t.offer.Some? && t.offer.value.manifest.version == version && t.current == s.current
            && t.clock == if e.Deferring? then Clock(s.clock.firstSeenAt, Some(version), Some(e.now + e.hours * 3_600_000))
                          else s.clock
  {
    hide DlStep, PlanNow, InstallWindow, WellFormed, DiskSafe, SpawnSafe;
  }

  lemma {:induction false} ClockOverARun(s: State, es: seq<Event>)
    requires Inv(s) && s.offer.Some? && Started(s.clock) && SameVersion(es, s.offer.value.manifest.version)
    ensures var t, version := Run(s, es), s.offer.value.manifest.version;
            && Inv(t) && t.offer.Some? && t.offer.value.manifest.version == version && t.current == s.current
            && t.clock == if HeldUntil(es).Some? then Clock(s.clock.firstSeenAt, Some(version), HeldUntil(es)) else s.clock
    decreases |es|
  {
    hide Inv, Step, Enabled;
    if es != [] {
      assert es[0] in es;
      if Enabled(s, es[0]) {
        ClockStep(s, es[0]);
        StepKeepsInv(s, es[0]);
      } else {
        OnlyDeferralsHold(s, es[0]);
      }
      ClockOverARun(Next(s, es[0]), es[1..]);
    }
  }

  lemma OnlyDeferralsHold(s: State, e: Event)
    ensures !Enabled(s, e) ==> !e.Deferring?
  {
  }

  /**
   * From the first manifest of a version on, while that version is offered: at every moment the update is
   * overdue or required exactly when the installed version is below the floor, or is older than the offer,
   * the two days since that manifest are over and the last deferral has run out.
   */
  lemma PressesIff(s: State, o: Offer, seen: int, es: seq<Event>, now: int)
    requires Inv(s) && Enabled(s, CheckAnswered(o, seen)) && seen > 0
    requires s.offer.Some? ==> s.offer.value.manifest.version != o.manifest.version
    requires SameVersion(es, o.manifest.version)
    ensures var t := Run(Step(s, CheckAnswered(o, seen)), es);
            && t.offer.Some? && t.offer.value.manifest.version == o.manifest.version
            && var p, floor := PlanNow(t, now), t.offer.value.manifest.minimumVersion;
               && (p.Overdue? || p.Required? <==>
                     || OlderThan(s.current, floor)
                     || (&& OlderThan(s.current, o.manifest.version) && now >= seen + 172_800_000
                         && !(HeldUntil(es).Some? && HeldUntil(es).value > now)))
               && (p.Required? <==> OlderThan(s.current, floor))
               && (p.UpToDate? <==> !OlderThan(s.current, o.manifest.version))
  {
    var first := Step(s, CheckAnswered(o, seen));
    StepKeepsInv(s, CheckAnswered(o, seen));
    FirstManifest(s, o, seen);
    hide Step, WellFormed, OlderThan, DecideUpdate, DiskSafe, SpawnSafe, HeldUntil, SameVersion;
    ClockOverARun(first, es);
    var t := Run(first, es);
    PlanIff(s.current, t.offer.value.manifest, now, t.clock);
    if OlderThan(s.current, t.offer.value.manifest.minimumVersion) { FloorIsBelow(s.current, t.offer.value.manifest); }
    HeldIsPutOff(t.clock, o.manifest.version, now);
  }

  lemma FirstManifest(s: State, o: Offer, seen: int)
    requires Enabled(s, CheckAnswered(o, seen))
    requires s.offer.Some? ==> s.offer.value.manifest.version != o.manifest.version
    ensures var t := Step(s, CheckAnswered(o, seen));
            t.offer == Some(o) && t.clock == Clock(Some(seen), None, None) && t.current == s.current
  {
    hide PlanNow, WellFormed;
  }

  lemma FloorIsBelow(current: string, m: Manifest)
    requires WellFormed(m) && OlderThan(current, m.minimumVersion)
    ensures OlderThan(current, m.version)
  {
    hide ParseVersion, Less;
    CompareOrder(m.minimumVersion, m.version);
    AtMostTransitive(ParseVersion(current).value, ParseVersion(m.minimumVersion).value, ParseVersion(m.version).value);
  }

  lemma HeldIsPutOff(c: Clock, version: string, now: int)
    ensures PutOff(c, version, now) <==> c.deferredVersion == Some(version) && c.deferredUntil.Some? && c.deferredUntil.value > now
  {
    if c.deferredUntil.Some? { assert c.deferredUntil == Some(c.deferredUntil.value); }
  }

  // ----- Running the installer ------------------------------------------------------------------

  /** The installed version is older than the one offered. */
  ghost predicate Owed(s: State) {
    s.offer.Some? && OlderThan(s.current, s.offer.value.manifest.version)
  }

  /** The update is owed, and either below the floor or two days old and not put off. */
  ghost predicate Pressing(s: State, now: int) {
    s.offer.Some? &&
    var m := s.offer.value.manifest;
    || OlderThan(s.current, m.minimumVersion)
    || (OlderThan(s.current, m.version) && TwoDaysOver(s.clock, now) && !PutOff(s.clock, m.version, now))
  }

  /** Online, with an update owed, and either the user asked or it presses and the moment is quiet. */
  ghost predicate GoodMoment(s: State, at: Moment, userRequested: bool) {
    && at.online && Owed(s)
    && (userRequested || (Pressing(s, at.now) && !at.live && !at.focused && at.idleMs >= 300_000))
  }

  /** The event tries to run the installer at hand. */
  ghost predicate Tries(s: State, e: Event) {
    s.disk.ready.Some? && !s.portable &&
    match e
    case TryInstall(at, userRequested, _) => !s.installing && GoodMoment(s, at, userRequested)
    case InstallResumed(at, userRequested, _) => GoodMoment(s, at, userRequested)
    case Quit(_, _) => !s.installing && Owed(s)
    case _ => false
  }

  /** The process can be started, for an event that tries it. */
  predicate CanStart(e: Event) {
    match e
    case TryInstall(_, _, ok) => ok
    case InstallResumed(_, _, ok) => ok
    case Quit(_, ok) => ok
    case _ => false
  }

  lemma PlanIsOwed(s: State, now: int)
    requires Inv(s)
    ensures !PlanNow(s, now).UpToDate? <==> Owed(s)
    ensures PlanNow(s, now).Overdue? || PlanNow(s, now).Required? <==> Pressing(s, now)
  {
    hide OlderThan, DecideUpdate, WellFormed, DiskSafe, SpawnSafe, PutOff, TwoDaysOver;
    if s.offer.Some? {
      PlanIff(s.current, s.offer.value.manifest, now, s.clock);
    } else {
      NothingOffered(s.current, now, s.clock);
    }
  }

  lemma NothingOffered(current: string, now: int, clock: Clock)
    ensures DecideUpdate(current, None, now, clock) == UpToDate
  {
  }

  lemma WindowIsGoodMoment(s: State, at: Moment, userRequested: bool)
    requires Inv(s) && s.disk.ready.Some?
    ensures InstallWindow(PlanNow(s, at.now), true, s.portable, at, userRequested) <==> !s.portable && GoodMoment(s, at, userRequested)
  {
    hide Inv, Owed, Pressing, DecideUpdate;
    PlanIsOwed(s, at.now);
  }

  lemma ReadyIsThere(s: State)
    requires Inv(s) && s.disk.ready.Some?
    ensures s.disk.ready.value in s.disk.files
  {
  }

  lemma InstallStartsIff(s: State, at: Moment, userRequested: bool, ok: bool)
    requires Inv(s)
    ensures var t := Install(s, at, userRequested, ok);
            var tries := s.disk.ready.Some? && !s.portable && GoodMoment(s, at, userRequested);
            && t.spawned == (if tries && ok then s.spawned + [Spawn(s.disk.files[s.disk.ready.value], PlanNow(s, at.now),
                                                                    if userRequested then Asked else Quiet(at))]
                             else s.spawned)
            && t.installing == (if tries then ok else s.installing) && t.waiting == s.waiting
  {
    hide Inv, GoodMoment, PlanNow, InstallWindow;
    if s.disk.ready.Some? {
      WindowIsGoodMoment(s, at, userRequested);
      ReadyIsThere(s);
    }
  }

  lemma QuitStartsIff(s: State, now: int, ok: bool)
    requires Inv(s)
    ensures var t := Step(s, Quit(now, ok));
            var tries := s.disk.ready.Some? && !s.portable && !s.installing && Owed(s);
            t.installing == s.installing && t.waiting == s.waiting
            && t.spawned == if tries && ok then s.spawned + [Spawn(s.disk.files[s.disk.ready.value], PlanNow(s, now), OnQuit)]
                            else s.spawned
  {
    hide Inv, Owed, PlanNow;
    PlanIsOwed(s, now);
    if s.disk.ready.Some? { ReadyIsThere(s); }
  }

  /**
   * An event starts an installer exactly when it tries and the process can be started, and then the file
   * at hand is what is run, one more than before. Trying at a moment other than quitting leaves
   * `installing` set exactly when that worked. An attempt with no installer at hand waits for the download.
   */
  lemma StartsIff(s: State, e: Event)
    requires Inv(s) && Enabled(s, e)
    ensures var t := Step(s, e);
            && (t.spawned != s.spawned <==> Tries(s, e) && CanStart(e))
            && (t.spawned != s.spawned ==>
                  && |t.spawned| == |s.spawned| + 1 && t.spawned[..|s.spawned|] == s.spawned
                  && t.spawned[|s.spawned|].digest == s.disk.files[s.disk.ready.value])
            && (t.installing <==> if Tries(s, e) && !e.Quit? then CanStart(e) else s.installing)
            && t.waiting == s.waiting + (if e.TryInstall? && !s.installing && s.disk.ready.None? then 1 else 0)
                            - (if e.InstallResumed? then 1 else 0)
  {
    hide Inv, GoodMoment, Owed, PlanNow, Install, WellFormed, DlStep;
    match e
    case TryInstall(at, userRequested, ok) => InstallStartsIff(s, at, userRequested, ok);
    case InstallResumed(at, userRequested, ok) =>
      SameMoment(s, at, userRequested);
      InstallStartsIff(s.(waiting := s.waiting - 1), at, userRequested, ok);
    case Quit(now, ok) => QuitStartsIff(s, now, ok);
    case _ =>
  }

  lemma SameMoment(s: State, at: Moment, userRequested: bool)
    requires Inv(s) && s.waiting > 0
    ensures var t := s.(waiting := s.waiting - 1); Inv(t) && (GoodMoment(t, at, userRequested) <==> GoodMoment(s, at, userRequested))
  {
  }

  lemma {:induction false} RunLast(s: State, es: seq<Event>, e: Event)
    ensures Run(s, es + [e]) == Next(Run(s, es), e)
    decreases |es|
  {
    hide Step, Enabled;
    if es == [] {
      assert [] + [e] == [e] && [e][1..] == [];
    } else {
      assert (es + [e])[1..] == es[1..] + [e];
      RunLast(Next(s, es[0]), es[1..], e);
    }
  }

  /** The i-th event of a run happens and runs the installer. */
  ghost predicate StartsAt(s: State, es: seq<Event>, i: nat)
    requires i < |es|
  {
    var before := Run(s, es[..i]);
    Enabled(before, es[i]) && Tries(before, es[i]) && CanStart(es[i])
  }

  /** Over a run an installer is started exactly when some event tries it and the process can be started. */
  lemma {:induction false} RunStartsIff(s: State, es: seq<Event>)
    requires Inv(s)
    ensures Run(s, es).spawned != s.spawned <==> exists i :: 0 <= i < |es| && StartsAt(s, es, i)
    ensures s.spawned <= Run(s, es).spawned
    decreases |es|
  {
    hide Inv, Step, Tries, Enabled;
    if es != [] {
      var n := |es| - 1;
      var most, last := es[..n], es[n];
      assert es == most + [last];
      RunLast(s, most, last);
      RunStartsIff(s, most);
      RunKeepsInv(s, most);
      forall i | 0 <= i < n ensures StartsAt(s, most, i) <==> StartsAt(s, es, i) {
        assert most[..i] == es[..i];
      }
      if Enabled(Run(s, most), last) { StartsIff(Run(s, most), last); }
      assert Run(s, es).spawned != Run(s, most).spawned <==> StartsAt(s, es, n);
    }
  }

  // ----- Fetching the installer -----------------------------------------------------------------

  /** The event looks for something to download. */
  predicate Looks(s: State, e: Event) {
    match e
    case CheckAnswered(o, _) => s.disk.ready.None? || s.offer.None? || s.offer.value.manifest.version != o.manifest.version
    case TryInstall(_, _, _) => !s.installing && s.disk.ready.None?
    case _ => false
  }

  /**
   * A download begins exactly when one is looked for, none is under way, the build is not portable and an update
   * is owed.
   */
  lemma DownloadBeginsIff(s: State, e: Event)
    requires Inv(s) && Enabled(s, e)
    ensures var t := Step(s, e);
            var begins := Looks(s, e) && !s.disk.busy && !s.portable && Owed(t);
            && (t.disk.next != s.disk.next <==> begins)
            && (begins ==> t.disk.busy && t.disk.downloads == map[s.disk.next := Download(t.offer.value, HashingTarget)])
  {
    hide Owed, PlanNow, Install, MaybeDownload, WellFormed, DlStep, Inv;
    match e
    case CheckAnswered(o, now) =>
      ApplyManifestSafe(s, o, now);
      MaybeBegins(ApplyManifest(s, o, now), now);
      if s.disk.ready.Some? { ReadyMeansIdle(s); }
    case TryInstall(at, u, ok) =>
      MaybeBegins(s, at.now);
      InstallKeepsDisk(s, at, u, ok);
      SameOwed(MaybeDownload(s, at.now), s.waiting + 1);
    case Downloading(id, r) => NextKept(s.disk, id, r);
    case InstallResumed(at, u, ok) => InstallKeepsDisk(s.(waiting := s.waiting - 1), at, u, ok);
    case _ =>
  }

  lemma ReadyMeansIdle(s: State)
    requires Inv(s) && s.disk.ready.Some?
    ensures !s.disk.busy
  {
  }

  lemma SameOwed(s: State, waiting: nat)
    ensures Owed(s.(waiting := waiting)) <==> Owed(s)
  {
  }

  lemma MaybeBegins(s: State, now: int)
    requires Inv(s)
    ensures var t := MaybeDownload(s, now);
            var begins := s.disk.ready.None? && !s.disk.busy && !s.portable && Owed(s);
            && (t.disk.next != s.disk.next <==> begins) && (Owed(t) <==> Owed(s))
            && (begins ==> t.disk.busy && t.disk.downloads == map[s.disk.next := Download(t.offer.value, HashingTarget)])
  {
    hide PlanNow, WellFormed, SpawnSafe, OlderThan;
    PlanIsOwed(s, now);
  }

  lemma InstallKeepsDisk(s: State, at: Moment, userRequested: bool, ok: bool)
    ensures Install(s, at, userRequested, ok).disk == s.disk
  {
  }

  /** One download resumed with answers in turn, one that it does not wait for passed over. */
  function Feed(d: Disk, id: nat, rs: seq<DlResume>): Disk
    decreases |rs|
  {
    if rs == [] then d else Feed(if DlReady(d, id, rs[0]) then DlStep(d, id, rs[0]) else d, id, rs[1..])
  }

  function ToEvents(id: nat, rs: seq<DlResume>): seq<Event> {
    seq(|rs|, i requires 0 <= i < |rs| => Downloading(id, rs[i]))
  }

  lemma {:induction false} RunFeeds(s: State, id: nat, rs: seq<DlResume>)
    ensures Run(s, ToEvents(id, rs)) == s.(disk := Feed(s.disk, id, rs))
    decreases |rs|
  {
    hide DlStep, DlReady;
    if rs != [] {
      var d := if DlReady(s.disk, id, rs[0]) then DlStep(s.disk, id, rs[0]) else s.disk;
      assert ToEvents(id, rs)[1..] == ToEvents(id, rs[1..]);
      RunFeeds(s.(disk := d), id, rs[1..]);
    }
  }

  lemma FeedFirst(d: Disk, id: nat, r: DlResume, rs: seq<DlResume>)
    ensures Feed(d, id, [r] + rs) == Feed(if DlReady(d, id, r) then DlStep(d, id, r) else d, id, rs)
  {
    assert ([r] + rs)[1..] == rs;
  }

  lemma {:induction false} FeedOver(d: Disk, id: nat, rs: seq<DlResume>)
    requires id !in d.downloads
    ensures Feed(d, id, rs) == d
    decreases |rs|
  {
    if rs != [] { FeedOver(d, id, rs[1..]); }
  }

  /** The answers a download waits for in turn, whichever way it goes. */
  function Answers(ok: bool, declared: int, digest: string): seq<DlResume> {
    [TargetHashed] + ([FetchAnswered(ok, declared)] + ([Written(digest)] + ([PartHashed] + ([PartRenamed] + ([PartRemoved] + [])))))
  }

  /** Its files once it is over: untouched when nothing was fetched, and never with a partial file left. */
  function FilesAfter(files: map<Path, string>, o: Offer, fetched: bool, digest: string): map<Path, string> {
    if !fetched then files
    else if digest == o.manifest.sha256 then (files - {Partial(o)})[Target(o) := digest]
    else files - {Partial(o)}
  }

  lemma FetchedComesTo(d: Disk, id: nat, digest: string)
    requires id in d.downloads && d.downloads[id].pc.Writing? && d.ready.None?
    ensures var o := d.downloads[id].offer;
            var t := Feed(d, id, [Written(digest)] + ([PartHashed] + ([PartRenamed] + ([PartRemoved] + []))));
            && id !in t.downloads && !t.busy
            && t.ready == (if digest == o.manifest.sha256 then Some(Target(o)) else None)
            && t.files == FilesAfter(d.files, o, true, digest)
  {
    hide Feed, Target, Partial;
    var o := d.downloads[id].offer;
    FeedFirst(d, id, Written(digest), [PartHashed] + ([PartRenamed] + ([PartRemoved] + [])));
    var d1 := DlStep(d, id, Written(digest));
    FeedFirst(d1, id, PartHashed, [PartRenamed] + ([PartRemoved] + []));
    var d2 := DlStep(d1, id, PartHashed);
    FeedFirst(d2, id, PartRenamed, [PartRemoved] + []);
    if digest == o.manifest.sha256 {
      var d3 := DlStep(d2, id, PartRenamed);
      FeedOver(d3, id, [PartRemoved] + []);
      assert d1.files - {Partial(o)} == d.files - {Partial(o)};
    } else {
      FeedFirst(d2, id, PartRemoved, []);
      FeedOver(DlStep(d2, id, PartRemoved), id, []);
      assert d1.files - {Partial(o)} == d.files - {Partial(o)};
    }
  }

  /**
   * What a download that does not break comes to: the installer is at hand exactly when the file is there
   * already with the wanted digest, or is answered, is not too large and arrives with that digest. It is
   * over in any case, and leaves no partial file behind it.
   */
  lemma DownloadComesTo(s: State, id: nat, ok: bool, declared: int, digest: string)
    requires Inv(s) && id in s.disk.downloads && s.disk.downloads[id].pc.HashingTarget?
    ensures var o, files := s.disk.downloads[id].offer, s.disk.files;
            var t := Run(s, ToEvents(id, Answers(ok, declared, digest)));
            var had := Target(o) in files && files[Target(o)] == o.manifest.sha256;
            var fetched := !had && ok && declared <= 419_430_400;
            && t.disk.downloads == map[] && !t.disk.busy
            && t.disk.ready == (if had || (fetched && digest == o.manifest.sha256) then Some(Target(o)) else None)
            && t.disk.files == FilesAfter(files, o, fetched, digest)
            && t.spawned == s.spawned && t.offer == s.offer && t.clock == s.clock
  {
    var d, o := s.disk, s.disk.downloads[id].offer;
    RunFeeds(s, id, Answers(ok, declared, digest));
    RunKeepsInv(s, ToEvents(id, Answers(ok, declared, digest)));
    OnlyDownload(s, id);
    hide Feed, Run, Target, Partial, Inv, FilesAfter;
    var rest := [Written(digest)] + ([PartHashed] + ([PartRenamed] + ([PartRemoved] + [])));
    FeedFirst(d, id, TargetHashed, [FetchAnswered(ok, declared)] + rest);
    var d1 := DlStep(d, id, TargetHashed);
    if Target(o) in d.files && d.files[Target(o)] == o.manifest.sha256 {
      FeedOver(d1, id, [FetchAnswered(ok, declared)] + rest);
    } else {
      FeedFirst(d1, id, FetchAnswered(ok, declared), rest);
      var d2 := DlStep(d1, id, FetchAnswered(ok, declared));
      if id !in d2.downloads { FeedOver(d2, id, rest); } else { FetchedComesTo(d2, id, digest); }
    }
    NoneLeft(Run(s, ToEvents(id, Answers(ok, declared, digest))));
  }

  lemma OnlyDownload(s: State, id: nat)
    requires Inv(s) && id in s.disk.downloads
    ensures s.disk.ready.None?
  {
  }

  lemma NoneLeft(s: State)
    requires Inv(s) && !s.disk.busy
    ensures s.disk.downloads == map[]
  {
  }

  /** A download that breaks is over, with no installer at hand for it; only its partial file may have changed. */
  lemma BrokenDownload(s: State, id: nat, left: Option<string>)
    requires Inv(s) && Enabled(s, Downloading(id, Threw(left)))
    ensures var t, o := Step(s, Downloading(id, Threw(left))).disk, s.disk.downloads[id].offer;
            && t.downloads == map[] && !t.busy && t.ready.None?
            && t.files == if left.Some? then s.disk.files[Partial(o) := left.value] else s.disk.files
  {
    hide Partial, Target, SpawnSafe, WellFormed, Vouched;
    assert forall k :: k in s.disk.downloads ==> k == id;
  }

  /** Nothing but its own answers moves a download under way or touches the files. */
  lemma OthersLeaveTheDownload(s: State, e: Event, id: nat)
    requires Inv(s) && Enabled(s, e) && id in s.disk.downloads
    requires !(e.Downloading? && e.id == id)
    ensures Step(s, e).disk == s.disk
  {
    hide DlStep, PlanNow, InstallWindow, SpawnSafe, WellFormed, Vouched, Target, Partial;
  }

  /**
   * Whatever is awaited can go on: a download with any answer to what it waits for, an attempt to install at any
   * moment.
   */
  lemma AwaitsCanGoOn(s: State, id: nat)
    requires Inv(s)
    ensures s.waiting > 0 ==> forall at, userRequested, ok :: Enabled(s, InstallResumed(at, userRequested, ok))
    ensures id in s.disk.downloads ==>
              && Enabled(s, Downloading(id, Threw(None)))
              && match s.disk.downloads[id].pc
                 case HashingTarget => Enabled(s, Downloading(id, TargetHashed))
                 case Fetching => forall ok, declared :: Enabled(s, Downloading(id, FetchAnswered(ok, declared)))
                 case Writing => forall digest :: Enabled(s, Downloading(id, Written(digest)))
                 case HashingPart => Partial(s.disk.downloads[id].offer) in s.disk.files ==> Enabled(s, Downloading(id, PartHashed))
                 case Removing => Enabled(s, Downloading(id, PartRemoved))
                 case Renaming => Enabled(s, Downloading(id, PartRenamed))
  {
  }

  /**
   * Two offers are kept in the same file exactly when they are of one version and their addresses end in the
   * same name, none standing for the usual one.
   */
  lemma SameTargetIff(a: Offer, b: Offer)
    ensures Target(a) == Target(b) <==>
              && a.manifest.version == b.manifest.version
              && (|| a.fileName == b.fileName
                  || (a.fileName == "" && b.fileName == "Vantage-setup.exe") || (b.fileName == "" && a.fileName == "Vantage-setup.exe"))
  {
  }

  /** A check leaves the clock of a version going, and starts it where it was not. */
  lemma ClockAfterCheck(s: State, o: Offer, now: int)
    requires Enabled(s, CheckAnswered(o, now))
    ensures var t := Step(s, CheckAnswered(o, now));
            var same := s.offer.Some? && s.offer.value.manifest.version == o.manifest.version;
            && t.offer == Some(o)
            && (!same ==> t.clock == Clock(Some(now), None, None))
            && (same ==> t.clock == s.clock.(firstSeenAt := if s.clock.firstSeenAt.None? || s.clock.firstSeenAt == Some(0)
                                                           then Some(now) else s.clock.firstSeenAt))
  {
    hide PlanNow, WellFormed;
  }
}
