/**
 * The desktop updater as a state machine. A step is the code between two awaits; `Run` interleaves
 * checks, downloads, installs, deferrals and quitting in any order. A file is modelled by its SHA-256
 * digest, and only the updater writes to its download directory.
 */
module UpdateSpec {
  import opened Wrappers
  import opened UpdatePolicy

  const MAX_INSTALLER_BYTES := 419_430_400

  /** A file of the download directory: the version's folder, and a name in it. */
  datatype Path = Path(version: string, name: string)

  /** `fileName` is the last part of the manifest's url, made safe for the file system. */
  datatype Offer = Offer(manifest: Manifest, fileName: string)

  function Target(o: Offer): Path {
    Path(o.manifest.version, if o.fileName == "" then "Vantage-setup.exe" else o.fileName)
  }

  function Partial(o: Offer): Path {
    Path(o.manifest.version, Target(o).name + ".part")
  }

  /** Where a download is suspended. */
  datatype DlPc = HashingTarget | Fetching | Writing | HashingPart | Removing | Renaming

  datatype Download = Download(offer: Offer, pc: DlPc)

  /** The download directory and the downloads under way. `ready` is the verified installer. */
  datatype Disk = Disk(ready: Option<Path>, busy: bool, files: map<Path, string>, downloads: map<nat, Download>, next: nat)

  /** A started installer: the digest of the file run, the plan at that moment, and why it was run. */
  datatype Spawn = Spawn(digest: string, plan: Plan, reason: Reason)
  datatype Reason = OnQuit | Asked | Quiet(at: Moment)

  datatype State = State(
    current: string, portable: bool, offer: Option<Offer>, clock: Clock, installing: bool, waiting: nat,
    disk: Disk, accepted: set<Manifest>, spawned: seq<Spawn>)

  function PlanNow(s: State, now: int): Plan {
    DecideUpdate(s.current, if s.offer.Some? then Some(s.offer.value.manifest) else None, now, s.clock)
  }

  // ----- Manifest and clock -------------------------------------------------------------------

  /** A manifest came in: another version starts the two days again and drops the installer. */
  function ApplyManifest(s: State, o: Offer, now: int): State {
    var changed := s.offer.None? || s.offer.value.manifest.version != o.manifest.version;
    var t := s.(offer := Some(o), accepted := s.accepted + {o.manifest});
    if changed then t.(clock := Clock(Some(now), None, None), disk := s.disk.(ready := None))
    else if s.clock.firstSeenAt.None? || s.clock.firstSeenAt.value == 0 then t.(clock := s.clock.(firstSeenAt := Some(now)))
    else t
  }

  function Defer(s: State, now: int, hours: int): State {
    if s.offer.None? then s
    else
      s.(clock := s.clock.(deferredVersion := Some(s.offer.value.manifest.version),
                           deferredUntil := Some(now + hours * 3_600_000)))
  }

  // ----- Download and verify ------------------------------------------------------------------

  /** Up to the first await of a download, when there is one to start. */
  function MaybeDownload(s: State, now: int): State {
    if s.offer.None? || s.disk.busy || s.disk.ready.Some? || PlanNow(s, now).UpToDate? || s.portable then s
    else
      s.(disk := s.disk.(busy := true, next := s.disk.next + 1,
                         downloads := s.disk.downloads[s.disk.next := Download(s.offer.value, HashingTarget)]))
  }

  datatype DlResume =
    | TargetHashed
    | FetchAnswered(ok: bool, declaredBytes: int)
    | Written(digest: string)
    | PartHashed
    | PartRemoved
    | PartRenamed
    | Threw(left: Option<string>)

  predicate DlReady(d: Disk, id: nat, r: DlResume) {
    id in d.downloads &&
    var dl := d.downloads[id];
    match r
    case TargetHashed => dl.pc.HashingTarget?
    case FetchAnswered(_, _) => dl.pc.Fetching?
    case Written(_) => dl.pc.Writing?
    case PartHashed => dl.pc.HashingPart? && Partial(dl.offer) in d.files
    case PartRemoved => dl.pc.Removing?
    case PartRenamed => dl.pc.Renaming? && Partial(dl.offer) in d.files
    case Threw(left) => left.Some? ==> dl.pc.Writing?
  }

  function EndDownload(d: Disk, id: nat, ready: Option<Path>): Disk {
    d.(busy := false, ready := if ready.Some? then ready else d.ready, downloads := d.downloads - {id})
  }

  function AtDl(d: Disk, id: nat, pc: DlPc): Disk
    requires id in d.downloads
  {
    d.(downloads := d.downloads[id := d.downloads[id].(pc := pc)])
  }

  function DlStep(d: Disk, id: nat, r: DlResume): Disk
    requires DlReady(d, id, r)
  {
    var offer := d.downloads[id].offer;
    var target, partial, wanted := Target(offer), Partial(offer), offer.manifest.sha256;
    match r
    case TargetHashed =>
      if target in d.files && d.files[target] == wanted then EndDownload(d, id, Some(target)) else AtDl(d, id, Fetching)
    case FetchAnswered(ok, declared) =>
      if !ok || declared > MAX_INSTALLER_BYTES then EndDownload(d, id, None) else AtDl(d, id, Writing)
    case Written(digest) => AtDl(d.(files := d.files[partial := digest]), id, HashingPart)
    case PartHashed => AtDl(d, id, if d.files[partial] == wanted then Renaming else Removing)
    case PartRemoved => EndDownload(d.(files := d.files - {partial}), id, None)
    case PartRenamed =>
      EndDownload(d.(files := (d.files - {partial})[target := d.files[partial]]), id, Some(target))
    case Threw(left) =>
      EndDownload(if left.Some? then d.(files := d.files[partial := left.value]) else d, id, None)
  }

  // ----- Install ------------------------------------------------------------------------------

  /**
   * spawn(): it may throw, and then nothing was started. A path that is gone starts nothing either, but
   * that is only told later, so the call returns as if it had.
   */
  function SpawnInstaller(s: State, path: Path, plan: Plan, reason: Reason, ok: bool): (State, bool) {
    (if ok && path in s.disk.files then s.(spawned := s.spawned + [Spawn(s.disk.files[path], plan, reason)]) else s, ok)
  }

  /** The rest of maybeInstall once an installer is at hand. */
  function Install(s: State, at: Moment, userRequested: bool, ok: bool): State {
    var plan := PlanNow(s, at.now);
    if s.disk.ready.None? || !InstallWindow(plan, true, s.portable, at, userRequested) then s
    else
      var (t, spawned) := SpawnInstaller(s, s.disk.ready.value, plan, if userRequested then Asked else Quiet(at), ok);
      t.(installing := spawned)
  }

  datatype Event =
    | CheckAnswered(offer: Offer, now: int)
    | TryInstall(at: Moment, userRequested: bool, ok: bool)
    | InstallResumed(at: Moment, userRequested: bool, ok: bool)
    | Downloading(id: nat, resume: DlResume)
    | Quit(now: int, ok: bool)
    | Deferring(now: int, hours: int)

  predicate Enabled(s: State, e: Event) {
    match e
    case CheckAnswered(offer, _) => WellFormed(offer.manifest)
    case InstallResumed(_, _, _) => s.waiting > 0
    case Downloading(id, r) => DlReady(s.disk, id, r)
    case _ => true
  }

  function Step(s: State, e: Event): State
    requires Enabled(s, e)
  {
    match e
    case CheckAnswered(offer, now) => MaybeDownload(ApplyManifest(s, offer, now), now)
    case TryInstall(at, userRequested, ok) =>
      if s.installing then s
      else if s.disk.ready.None? then MaybeDownload(s, at.now).(waiting := s.waiting + 1)
      else Install(s, at, userRequested, ok)
    case InstallResumed(at, userRequested, ok) => Install(s.(waiting := s.waiting - 1), at, userRequested, ok)
    case Downloading(id, r) => s.(disk := DlStep(s.disk, id, r))
    case Quit(now, ok) =>
      if s.installing || s.disk.ready.None? || !ShouldInstallOnQuit(PlanNow(s, now), true, s.portable) then s
      else SpawnInstaller(s, s.disk.ready.value, PlanNow(s, now), OnQuit, ok).0
    case Deferring(now, hours) => Defer(s, now, hours)
  }

  /** A fresh process: the clock as last saved, and whatever files an earlier one left. */
  function Launched(current: string, portable: bool, saved: Clock, files: map<Path, string>): State {
    State(current, portable, None, saved, false, 0, Disk(None, false, files, map[], 0), {}, [])
  }

  function Run(s: State, es: seq<Event>): State
    decreases |es|
  {
    if es == [] then s else Run(if Enabled(s, es[0]) then Step(s, es[0]) else s, es[1..])
  }
}
