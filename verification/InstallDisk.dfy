/** What the database-boundary installation keeps on disk, the checks it makes before it
    trusts that state, and the invariant that every run and every crash preserves
    (deploy/production_db_boundary_bootstrap.py). */
module InstallDisk {
  import EnvRewrite
  import opened Basics
  import opened StateLine

  const ROOT_UID := 0
  const ROOT_GID := 0
  const ENV_MODE := 416  // 0o640
  const APP_MODE := 493  // 0o755

  datatype Identities = Identities(deployUid: int, deployGid: int, serviceGid: int)

  /** The host the installer runs on. `accepts` is the option-file policy and `render` the
      env rewrite; `freshEnvMode` is the mode of a file just created with 0o640, before
      fchmod: 0o640 less the umask. */
  datatype Site = Site(
    ids: Identities,
    accepts: (OptionName, string) -> bool,
    render: string -> EnvRewrite.Result<string>,
    freshEnvMode: int)

  // Rendering what was rendered changes nothing.
  ghost predicate Pinning(site: Site) {
    forall text :: site.render(text).Ok? ==> site.render(site.render(text).value) == site.render(text)
  }

  // The rewrite the installer uses is one.
  lemma RenderPins(site: Site)
    requires forall text :: site.render(text) == EnvRewrite.Render(text)
    ensures Pinning(site)
  {
    forall text | site.render(text).Ok?
      ensures site.render(site.render(text).value) == site.render(text)
    {
      EnvRewrite.RenderIdempotent(text);
    }
  }

  datatype OptionName = TriggerAdmin | Migrator

  const FILES: seq<OptionName> := [TriggerAdmin, Migrator]

  // A regular file under root; two directory entries with one inode are hard links.
  datatype Node = Node(ino: nat, payload: string)

  datatype EnvFile = EnvFile(payload: string, uid: int, gid: int, mode: int)

  datatype AppDir = AppDir(uid: int, gid: int, mode: int)

  datatype StageEntry = Credential(name: OptionName) | Scratch(token: nat)

  datatype StageDir = StageDir(ino: nat, uid: int, gid: int, files: map<StageEntry, string>)

  // SHA-256 taken as injective.
  datatype Digest = Sha256(of: string)

  datatype Metadata = Metadata(
    ids: Identities, stageIno: nat, stageUid: int, stageGid: int,
    envUid: int, envGid: int, envMode: int, app: AppDir,
    originalSha: Digest, preparedSha: Digest, optionSha: map<OptionName, Digest>)

  /** One of the four transaction directories, perhaps half built or half purged. */
  datatype Container = Container(
    ino: nat,
    metadata: Option<Metadata>,
    envOriginal: Option<string>,
    envPrepared: Option<string>,
    options: map<OptionName, Node>,
    temporary: Option<Node>,
    state: Option<Line>,
    next: Option<Line>,
    claim: Option<StageDir>)

  datatype Disk = Disk(
    env: EnvFile,
    envTemp: Option<EnvFile>,
    app: AppDir,
    stage: Option<StageDir>,
    targets: map<OptionName, Node>,
    build: Option<Container>,
    tx: Option<Container>,
    committed: Option<Container>,
    rolledBack: Option<Container>,
    nextIno: nat)

  datatype Place = Building | Committed | RolledBack

  function Get(d: Disk, place: Place): Option<Container> {
    match place
    case Building => d.build
    case Committed => d.committed
    case RolledBack => d.rolledBack
  }

  function Put(d: Disk, place: Place, c: Option<Container>): Disk {
    match place
    case Building => d.(build := c)
    case Committed => d.(committed := c)
    case RolledBack => d.(rolledBack := c)
  }

  // Both option names are present.
  predicate Complete<V>(m: map<OptionName, V>) {
    forall n: OptionName :: n in m
  }

  lemma BothNames<V>(m: map<OptionName, V>)
    requires TriggerAdmin in m && Migrator in m
    ensures Complete(m)
  {
    forall n: OptionName ensures n in m {
      match n case TriggerAdmin => case Migrator =>
    }
  }

  // Both option files and nothing else.
  predicate OnlyCredentials(files: map<StageEntry, string>) {
    && (forall n: OptionName :: Credential(n) in files)
    && (forall e <- files :: e.Credential?)
  }

  function Bit(b: bool): nat { if b then 1 else 0 }

  function LinksIn(c: Option<Container>, ino: nat): nat {
    if c.None? then 0
    else
      Bit(c.value.temporary.Some? && c.value.temporary.value.ino == ino) + EntriesOf(c.value.options, ino)
  }

  function EntriesOf(m: map<OptionName, Node>, ino: nat): nat {
    Bit(TriggerAdmin in m && m[TriggerAdmin].ino == ino) + Bit(Migrator in m && m[Migrator].ino == ino)
  }

  // st_nlink: every directory entry that names the inode.
  function NLink(d: Disk, ino: nat): nat {
    EntriesOf(d.targets, ino) + LinksIn(d.build, ino) + LinksIn(d.tx, ino)
    + LinksIn(d.committed, ino) + LinksIn(d.rolledBack, ino)
  }

  /* ---------- the durable state file ---------- */

  // The state that the next load will act on: a readable pending line wins.
  function Effective(t: Container): Option<State> {
    if t.next.Some? && Read(t.next.value).Some? then Read(t.next.value)
    else if t.state.Some? then Read(t.state.value)
    else None
  }

  predicate StateIs(t: Container, s: State) {
    t.state.Some? && Read(t.state.value) == Some(s)
  }

  predicate Undecided(s: State) {
    s != Committing && s != RollingBack
  }

  /* ---------- the snapshot and the checks made on it ---------- */

  datatype Code =
    | Interrupted | Partial | Pending | NotInstalled | RollbackIncomplete
    | ShapeDiffers | StateDiffers | HashDiffers | IdentityDiffers | MetadataMissing
    | ClaimBoundary | StageMissing | Toctou | AppBoundary | TargetState | EnvState | EnvTempBlocked
    | EnvTempPresent | IsCommitting | IsRollingBack | ConflictingContainers | InstalledDrift
    | RollbackStage | RollbackTarget | PreflightFailed

  datatype TransactionSnapshot = TransactionSnapshot(
    meta: Metadata, options: map<OptionName, string>, envOriginal: string, envPrepared: string)

  datatype Loaded = Good(snapshot: TransactionSnapshot, state: State) | Bad(code: Code)

  /** `_load_transaction` once the pending state is resolved. */
  function LoadContainer(site: Site, t: Container): Loaded {
    if t.metadata.None? || t.envOriginal.None? || t.envPrepared.None? || t.state.None?
       || !Complete(t.options) || t.temporary.Some? || t.next.Some? then Bad(ShapeDiffers)
    else if t.metadata.value.ids != site.ids then Bad(IdentityDiffers)
    else if !Complete(t.metadata.value.optionSha) then Bad(MetadataMissing)
    else if exists n: OptionName :: !site.accepts(n, t.options[n].payload)
                                 || t.metadata.value.optionSha[n] != Sha256(t.options[n].payload) then Bad(HashDiffers)
    else if t.metadata.value.originalSha != Sha256(t.envOriginal.value)
            || t.metadata.value.preparedSha != Sha256(t.envPrepared.value)
            || site.render(t.envOriginal.value) != EnvRewrite.Ok(t.envPrepared.value) then Bad(HashDiffers)
    else if Read(t.state.value).None? then Bad(StateDiffers)
    else
      Good(TransactionSnapshot(t.metadata.value, map n | n in t.options :: t.options[n].payload,
                               t.envOriginal.value, t.envPrepared.value),
           Read(t.state.value).value)
  }

  /** Whatever directory is loaded, tampered with or not, what comes out is what was sealed: for this
      machine's identities, every file under its recorded hash, both option files accepted, the
      prepared text the rewrite of the original one, and nothing half written beside them. */
  lemma LoadedIsSealed(site: Site, t: Container)
    requires LoadContainer(site, t).Good?
    ensures var s := LoadContainer(site, t).snapshot;
      && t.metadata == Some(s.meta) && s.meta.ids == site.ids
      && t.envOriginal == Some(s.envOriginal) && s.meta.originalSha == Sha256(s.envOriginal)
      && t.envPrepared == Some(s.envPrepared) && s.meta.preparedSha == Sha256(s.envPrepared)
      && site.render(s.envOriginal) == EnvRewrite.Ok(s.envPrepared)
      && (forall n: OptionName ::
            && n in t.options && n in s.options && t.options[n].payload == s.options[n]
            && n in s.meta.optionSha && s.meta.optionSha[n] == Sha256(s.options[n]) && site.accepts(n, s.options[n]))
    ensures t.temporary.None? && t.next.None? && StateIs(t, LoadContainer(site, t).state)
  {
  }

  datatype Disposition = Both | OnlyPrepared | OnlyOriginal | Neither

  function EnvDisposition(ids: Identities, d: Disk, s: TransactionSnapshot): Disposition {
    var prepared := d.env == EnvFile(s.envPrepared, ROOT_UID, ids.serviceGid, ENV_MODE);
    var original := d.env == EnvFile(s.envOriginal, s.meta.envUid, s.meta.envGid, s.meta.envMode);
    if prepared && original then Both
    else if prepared then OnlyPrepared
    else if original then OnlyOriginal
    else Neither
  }

  predicate ClaimValid(ids: Identities, t: Container, s: TransactionSnapshot, allowDeployOwner: bool) {
    && t.claim.Some?
    && t.claim.value.ino == s.meta.stageIno
    && (var owner := (t.claim.value.uid, t.claim.value.gid);
        owner == (ROOT_UID, ROOT_GID) || (allowDeployOwner && owner == (ids.deployUid, ids.deployGid)))
  }

  predicate HoldsCredentials(site: Site, files: map<StageEntry, string>, s: TransactionSnapshot) {
    && OnlyCredentials(files)
    && forall n: OptionName :: n in s.options && files[Credential(n)] == s.options[n] && site.accepts(n, s.options[n])
  }

  // `_validate_installed` with the given link counts allowed on the targets.
  predicate InstalledValid(site: Site, d: Disk, links: set<nat>) {
    && d.stage.None?
    && d.app == RootApp()
    && (forall n: OptionName ::
          && n in d.targets && NLink(d, d.targets[n].ino) in links
          && site.accepts(n, d.targets[n].payload))
    && d.env.uid == ROOT_UID && d.env.gid == site.ids.serviceGid && d.env.mode == ENV_MODE
    && site.render(d.env.payload) == EnvRewrite.Ok(d.env.payload)
  }

  /* ---------- the machine before the installation ---------- */

  datatype Origin = Origin(env: EnvFile, app: AppDir, stage: StageDir)

  function RootApp(): AppDir { AppDir(ROOT_UID, ROOT_GID, APP_MODE) }

  function PreparedText(site: Site, g: Origin): string {
    var r := site.render(g.env.payload);
    if r.Ok? then r.value else ""
  }

  function InstalledEnv(site: Site, g: Origin): EnvFile {
    EnvFile(PreparedText(site, g), ROOT_UID, site.ids.serviceGid, ENV_MODE)
  }

  // Everything that a first prepare insists on before it touches anything.
  predicate Installable(site: Site, g: Origin) {
    && site.render(g.env.payload).Ok?
    && (g.env.uid == ROOT_UID || g.env.uid == site.ids.deployUid)
    && g.env.gid == site.ids.serviceGid && g.env.mode == ENV_MODE
    && ((g.app.uid, g.app.gid) == (site.ids.deployUid, site.ids.deployGid)
        || (g.app.uid, g.app.gid) == (ROOT_UID, ROOT_GID))
    && g.app.mode == APP_MODE
    && (g.stage.uid, g.stage.gid) == (site.ids.deployUid, site.ids.deployGid)
    && OnlyCredentials(g.stage.files)
    && forall n: OptionName :: site.accepts(n, g.stage.files[Credential(n)])
  }

  function MetadataOf(site: Site, g: Origin): Metadata
    requires Installable(site, g)
  {
    Metadata(site.ids, g.stage.ino, g.stage.uid, g.stage.gid, g.env.uid, g.env.gid, g.env.mode, g.app,
             Sha256(g.env.payload), Sha256(PreparedText(site, g)),
             map n: OptionName | Credential(n) in g.stage.files :: Sha256(g.stage.files[Credential(n)]))
  }

  function SnapshotOf(site: Site, g: Origin): TransactionSnapshot
    requires Installable(site, g)
  {
    TransactionSnapshot(MetadataOf(site, g),
                        map n: OptionName | Credential(n) in g.stage.files :: g.stage.files[Credential(n)],
                        g.env.payload, PreparedText(site, g))
  }

  /* ---------- the invariant ---------- */

  // Bytes, owner and mode of the env file, the same stage directory with the same
  // payloads at its old path, the old application directory, and no option target.
  predicate IsOriginal(d: Disk, g: Origin) {
    && d.tx.None? && d.committed.None?
    && d.env == g.env && d.envTemp.None? && d.app == g.app
    && d.stage == Some(g.stage) && d.targets == map[]
  }

  predicate Live(site: Site, d: Disk, g: Origin) {
    && Installable(site, g)
    && d.env == InstalledEnv(site, g) && d.envTemp.None? && d.app == RootApp()
    && d.stage.None?
    && (forall n: OptionName :: n in d.targets && d.targets[n].payload == g.stage.files[Credential(n)])
    && d.targets[TriggerAdmin].ino != d.targets[Migrator].ino
  }

  predicate IsInstalled(site: Site, d: Disk, g: Origin) {
    d.tx.None? && d.committed.None? && Live(site, d, g)
  }

  predicate HoldsSnapshot(site: Site, t: Container, g: Origin) {
    && Installable(site, g)
    && t.metadata == Some(MetadataOf(site, g))
    && t.envOriginal == Some(g.env.payload) && t.envPrepared == Some(PreparedText(site, g))
    && t.temporary.None?
    && (forall n: OptionName :: n in t.options && t.options[n].payload == g.stage.files[Credential(n)])
    && t.options[TriggerAdmin].ino != t.options[Migrator].ino
  }

  predicate InPlace(site: Site, d: Disk, g: Origin, t: Container) {
    && d.env == InstalledEnv(site, g) && d.envTemp.None? && d.app == RootApp()
    && d.stage.None?
    && t.claim == Some(g.stage.(uid := ROOT_UID, gid := ROOT_GID))
    && forall n: OptionName :: n in d.targets
  }

  predicate MayWrite(site: Site, d: Disk, g: Origin, t: Container, from: State, to: State) {
    match to
    case Snapshot => false
    case Claimed => Undecided(from)
    case Prepared => Undecided(from) && InPlace(site, d, g, t)
    case Committing => from != RollingBack && InPlace(site, d, g, t)
    case RollingBack => from != Committing
  }

  // The transaction's present state allows `to` to be written next.
  predicate MayWriteNow(site: Site, d: Disk, g: Origin, to: State) {
    && d.tx.Some? && d.tx.value.state.Some? && Read(d.tx.value.state.value).Some?
    && MayWrite(site, d, g, d.tx.value, Read(d.tx.value.state.value).value, to)
  }

  predicate PendingOk(site: Site, d: Disk, g: Origin, t: Container, from: State, line: Line) {
    IsPrefix(line, FullLine(line.state)) && MayWrite(site, d, g, t, from, line.state)
  }

  predicate StageOk(site: Site, d: Disk, g: Origin, t: Container, s: State) {
    || (t.claim.None? && d.stage == Some(g.stage))
    || (&& d.stage.None? && t.claim.Some? && t.claim.value.ino == g.stage.ino
        && (var owner := (t.claim.value.uid, t.claim.value.gid);
            owner == (ROOT_UID, ROOT_GID) || owner == (site.ids.deployUid, site.ids.deployGid))
        && (s != RollingBack ==> t.claim.value.files == g.stage.files))
  }

  predicate TempOk(site: Site, d: Disk, g: Origin, s: State) {
    d.envTemp.Some? ==>
      var e := d.envTemp.value;
      var owner := (e.uid, e.gid);
      && (e.mode == site.freshEnvMode || e.mode == ENV_MODE)
      && if s == RollingBack then
           || owner == (ROOT_UID, ROOT_GID)
           || owner == (g.env.uid, site.ids.serviceGid)
           || (owner == (ROOT_UID, site.ids.serviceGid) && d.env != InstalledEnv(site, g))
         else
           && d.env != InstalledEnv(site, g)
           && (owner == (ROOT_UID, ROOT_GID) || owner == (ROOT_UID, site.ids.serviceGid))
  }

  predicate InTransaction(site: Site, d: Disk, g: Origin, t: Container) {
    && HoldsSnapshot(site, t, g)
    && t.state.Some? && Read(t.state.value).Some?
    && (d.env == g.env || d.env == InstalledEnv(site, g))
    && (d.app == g.app || d.app == RootApp())
    && (forall n <- d.targets :: n in t.options && d.targets[n] == t.options[n])
    && var s := Read(t.state.value).value;
       && StageOk(site, d, g, t, s)
       && TempOk(site, d, g, s)
       && (s == Prepared || s == Committing ==> InPlace(site, d, g, t))
       && (t.next.Some? ==> PendingOk(site, d, g, t, s, t.next.value))
  }

  predicate InCommitted(site: Site, d: Disk, g: Origin, c: Container) {
    && Live(site, d, g)
    && c.temporary.None?
    && forall n <- c.options :: n in d.targets && c.options[n] == d.targets[n]
  }

  // Inode numbers handed out so far; the next one is new.
  predicate Bounded(d: Disk) {
    && (forall n <- d.targets :: d.targets[n].ino < d.nextIno)
    && (d.tx.Some? ==> d.tx.value.ino < d.nextIno && forall n <- d.tx.value.options :: d.tx.value.options[n].ino < d.nextIno)
    && (d.committed.Some? ==> d.committed.value.ino < d.nextIno)
  }

  /** Holds between any two durable operations of any sequence of runs that started on `g`. */
  predicate Inv(site: Site, d: Disk, g: Origin) {
    match (d.tx, d.committed)
    case (None, None) => Bounded(d) && (IsOriginal(d, g) || IsInstalled(site, d, g))
    case (Some(t), None) => Bounded(d) && InTransaction(site, d, g, t)
    case (None, Some(c)) => Bounded(d) && InCommitted(site, d, g, c)
    case (Some(_), Some(_)) => false
  }

  // No half-built or half-purged directory is left beside the transaction.
  predicate Quiet(d: Disk) {
    d.build.None? && d.rolledBack.None?
  }

  /* ---------- decisions ---------- */

  // The installation is, or will be, completed.
  predicate CommitDecided(d: Disk) {
    || d.committed.Some?
    || (d.tx.Some? && Effective(d.tx.value) == Some(Committing))
    || (d.tx.None? && d.targets != map[])
  }

  // Transaction `k` can only be undone.
  predicate RollbackDecided(d: Disk, k: nat) {
    d.tx.Some? && d.tx.value.ino == k && Effective(d.tx.value) == Some(RollingBack)
  }

  // Transaction `k` existed and is gone for good.
  predicate Ended(d: Disk, k: nat) {
    && k < d.nextIno
    && (d.tx.Some? ==> d.tx.value.ino != k)
    && (d.committed.Some? ==> d.committed.value.ino != k)
  }

  /** What every run may do to decisions already on disk, wherever it is cut off: a decided
      commit stays decided, a decided rollback stays decided until its transaction is gone,
      and a transaction that is gone never returns. */
  ghost predicate Allowed(before: Disk, after: Disk) {
    && before.nextIno <= after.nextIno
    && (CommitDecided(before) ==> CommitDecided(after))
    && (forall k: nat :: RollbackDecided(before, k) ==> RollbackDecided(after, k) || Ended(after, k))
    && (forall k: nat :: Ended(before, k) ==> Ended(after, k))
  }

  lemma AllowedTransitive(a: Disk, b: Disk, c: Disk)
    requires Allowed(a, b) && Allowed(b, c)
    ensures Allowed(a, c)
  {
  }

  // A run that keeps its transaction, or ends it as its state allows, breaks no decision.
  lemma TransactionMoves(site: Site, before: Disk, after: Disk, g: Origin)
    requires Inv(site, before, g) && Inv(site, after, g) && before.tx.Some? && before.nextIno <= after.nextIno
    requires after.tx.Some? ==>
      && after.tx.value.ino == before.tx.value.ino
      && (Effective(before.tx.value) == Some(Committing) ==> Effective(after.tx.value) == Some(Committing))
      && (Effective(before.tx.value) == Some(RollingBack) ==> Effective(after.tx.value) == Some(RollingBack))
    requires after.tx.None? ==> (CommitDecided(before) ==> CommitDecided(after))
    requires after.committed.Some? ==>
      after.committed.value.ino == before.tx.value.ino && Effective(before.tx.value) != Some(RollingBack)
    ensures Allowed(before, after)
  {
    var k := before.tx.value.ino;
    assert forall j: nat :: RollbackDecided(before, j) ==> j == k;
    assert Effective(before.tx.value) == Some(RollingBack) ==> RollbackDecided(after, k) || Ended(after, k);
  }

  // A leftover env temporary that the clean-up accepts.
  predicate TempUsable(d: Disk) {
    d.envTemp.Some? ==> d.envTemp.value.mode == ENV_MODE
  }

  lemma UmaskKeepsTempUsable(site: Site, d: Disk, g: Origin)
    requires Inv(site, d, g) && site.freshEnvMode == ENV_MODE
    ensures TempUsable(d)
  {
  }

  function WithNext(d: Disk, line: Line): Disk
    requires d.tx.Some?
  {
    d.(tx := Some(d.tx.value.(next := Some(line))))
  }

  function Promoted(d: Disk, line: Line): Disk
    requires d.tx.Some?
  {
    d.(tx := Some(d.tx.value.(state := Some(line), next := None)))
  }

  // Any prefix of the line of an allowed state may be pending.
  lemma PendingKeepsInv(site: Site, d: Disk, g: Origin, line: Line)
    requires Inv(site, d, g) && MayWriteNow(site, d, g, line.state)
    requires IsPrefix(line, FullLine(line.state))
    ensures Inv(site, WithNext(d, line), g) && MayWriteNow(site, WithNext(d, line), g, line.state)
  {
  }

  // An allowed state may take effect, with or without its newline.
  lemma PromoteKeepsInv(site: Site, d: Disk, g: Origin, line: Line)
    requires Inv(site, d, g) && MayWriteNow(site, d, g, line.state)
    requires Read(line).Some?
    ensures Inv(site, Promoted(d, line), g) && StateIs(Promoted(d, line).tx.value, line.state)
  {
  }

  // A transaction between two writes of its state file, in state `s`.
  predicate Settled(site: Site, d: Disk, g: Origin, s: State) {
    Inv(site, d, g) && d.tx.Some? && d.tx.value.next.None? && StateIs(d.tx.value, s)
  }

  lemma LinksOfOption(site: Site, d: Disk, g: Origin, name: OptionName)
    requires Inv(site, d, g) && d.tx.Some? && Quiet(d)
    ensures NLink(d, d.tx.value.options[name].ino) == 1 + Bit(name in d.targets)
  {
  }

  lemma LoadAccepts(site: Site, d: Disk, g: Origin)
    requires Inv(site, d, g) && d.tx.Some? && d.tx.value.next.None?
    ensures LoadContainer(site, d.tx.value) ==
      Good(SnapshotOf(site, g), Read(d.tx.value.state.value).value)
  {
    var t, s := d.tx.value, SnapshotOf(site, g);
    var got := map n | n in t.options :: t.options[n].payload;
    assert forall n: OptionName :: n in got && n in s.options && got[n] == s.options[n];
    assert got == s.options;
  }

  /** Installed and original are told apart by the option targets alone. */
  lemma OutcomesExclusive(site: Site, d: Disk, g: Origin)
    requires Inv(site, d, g) && d.tx.None? && d.committed.None?
    ensures IsInstalled(site, d, g) <==> CommitDecided(d)
    ensures IsOriginal(d, g) <==> !CommitDecided(d)
  {
    if IsInstalled(site, d, g) {
      assert TriggerAdmin in d.targets;
    }
  }

  // A decided installation passes its own validation, whatever the purge has deleted so far.
  lemma LiveIsValid(site: Site, d: Disk, g: Origin)
    requires Inv(site, d, g) && Pinning(site) && Quiet(d) && d.tx.None? && CommitDecided(d)
    ensures InstalledValid(site, d, {1, 2})
    ensures d.committed.None? ==> InstalledValid(site, d, {1})
  {
    forall n: OptionName
      ensures n in d.targets && NLink(d, d.targets[n].ino) in {1, 2} && site.accepts(n, d.targets[n].payload)
      ensures d.committed.None? ==> NLink(d, d.targets[n].ino) == 1
    {
      match n case TriggerAdmin => case Migrator =>
    }
  }

  lemma CommitRenameKeepsInv(site: Site, d: Disk, g: Origin)
    requires Settled(site, d, g, Committing)
    ensures Inv(site, d.(tx := None, committed := d.tx), g)
  {
  }

  lemma RollbackRenameKeepsInv(site: Site, d: Disk, g: Origin)
    requires Settled(site, d, g, RollingBack)
    requires d.env == g.env && d.envTemp.None? && d.app == g.app && d.targets == map[] && d.stage == Some(g.stage)
    ensures Inv(site, d.(tx := None, rolledBack := d.tx), g) && IsOriginal(d.(tx := None, rolledBack := d.tx), g)
  {
  }
}
