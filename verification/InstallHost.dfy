/** The installer as it runs: each durable operation on the disk is preceded by a point at
    which the process may be signalled or the machine may lose power
    (deploy/production_db_boundary_bootstrap.py). */
module InstallHost {
  import opened InstallDisk
  import opened Basics
  import opened StateLine
  import EnvRewrite

  // What happens just before the next durable operation.
  datatype Fate = Go | Signal | PowerLoss

  // `Raised` unwinds like an exception; after `Lost` nothing more of the process runs.
  datatype Status = Fine | Raised(code: Code) | Lost {
    predicate IsFailure() { !Fine? }
    function PropagateFailure(): Status { this }
  }

  datatype Action = Prepare | Commit | Rollback | Verify

  datatype Mode =
    | NothingDone | RanPrepared | AlreadyInstalled | RanCommitted | RecoveredCommit
    | AlreadyCommitted | RanRollback | NotStarted | Verified

  datatype BuildItem =
    | OriginalText(text: string) | PreparedCopy(text: string)
    | OptionItem(name: OptionName, text: string) | MetadataItem(meta: Metadata) | StateItem(state: State)

  predicate Undone(mode: Mode) {
    mode == RanRollback || mode == NotStarted
  }

  function Placed(c: Container, item: BuildItem, ino: nat): Container {
    match item
    case OriginalText(text) => c.(envOriginal := Some(text))
    case PreparedCopy(text) => c.(envPrepared := Some(text))
    case OptionItem(name, text) => c.(options := c.options[name := Node(ino, text)])
    case MetadataItem(meta) => c.(metadata := Some(meta))
    case StateItem(state) => c.(state := Some(FullLine(state)))
  }

  datatype PurgeEntry =
    | MetadataEntry | OriginalEntry | PreparedEntry | TemporaryEntry | StateEntry | NextEntry
    | OptionEntry(name: OptionName) | ClaimedEntry(entry: StageEntry) | ClaimEntry

  predicate Has(c: Container, e: PurgeEntry) {
    match e
    case MetadataEntry => c.metadata.Some?
    case OriginalEntry => c.envOriginal.Some?
    case PreparedEntry => c.envPrepared.Some?
    case TemporaryEntry => c.temporary.Some?
    case StateEntry => c.state.Some?
    case NextEntry => c.next.Some?
    case OptionEntry(name) => name in c.options
    case ClaimedEntry(entry) => c.claim.Some? && entry in c.claim.value.files
    case ClaimEntry => c.claim.Some? && c.claim.value.files == map[]
  }

  function Without(c: Container, e: PurgeEntry): Container
    requires Has(c, e)
  {
    match e
    case MetadataEntry => c.(metadata := None)
    case OriginalEntry => c.(envOriginal := None)
    case PreparedEntry => c.(envPrepared := None)
    case TemporaryEntry => c.(temporary := None)
    case StateEntry => c.(state := None)
    case NextEntry => c.(next := None)
    case OptionEntry(name) => c.(options := c.options - {name})
    case ClaimedEntry(entry) => c.(claim := Some(c.claim.value.(files := c.claim.value.files - {entry})))
    case ClaimEntry => c.(claim := None)
  }

  lemma DropKeepsInv(site: Site, before: Disk, g: Origin, place: Place, c: Container, e: PurgeEntry)
    requires Inv(site, Put(before, place, Some(c)), g) && Has(c, e)
    ensures Inv(site, Put(before, place, Some(Without(c, e))), g)
  {
    if place == Committed {
      var c' := Without(c, e);
      assert c'.ino == c.ino && (c'.temporary.Some? ==> c.temporary.Some?);
      assert forall n <- c'.options :: n in c.options && c'.options[n] == c.options[n];
    }
  }

  // Removing the committed directory is what turns a decided install into a finished one.
  lemma RemoveKeepsInv(site: Site, d: Disk, g: Origin, place: Place)
    requires Inv(site, d, g) && Get(d, place).Some?
    ensures Inv(site, Put(d, place, None), g)
  {
  }

  lemma PutGet(d: Disk, place: Place, c: Option<Container>)
    ensures Get(Put(d, place, c), place) == c
    ensures Get(d, place) == c ==> Put(d, place, c) == d
  {
  }

  lemma PutPut(d: Disk, place: Place, b: Option<Container>, c: Option<Container>)
    ensures Put(Put(d, place, b), place, c) == Put(d, place, c)
  {
  }

  lemma DropShrinks(c: Container, e: PurgeEntry)
    requires Has(c, e)
    ensures Size(Without(c, e)) < Size(c) && Without(c, e).ino == c.ino
  {
    match e {
      case OptionEntry(name) => match name { case TriggerAdmin => case Migrator => }
      case ClaimedEntry(entry) => ClaimShrinks(c.claim.value, entry);
      case _ =>
    }
  }

  lemma ClaimShrinks(dir: StageDir, entry: StageEntry)
    requires entry in dir.files
    ensures ClaimSize(Some(dir.(files := dir.files - {entry}))) < ClaimSize(Some(dir))
  {
    SmallerMap(dir.files, entry);
  }

  lemma SmallerMap<K, V>(m: map<K, V>, k: K)
    requires k in m
    ensures |m - {k}| < |m|
  {
    assert (m - {k}).Keys == m.Keys - {k};
    assert |(m - {k}).Keys| < |m.Keys|;
  }

  function PlacedAll(c: Container, items: seq<BuildItem>, ino: nat): Container {
    if items == [] then c
    else Placed(PlacedAll(c, items[..|items| - 1], ino), items[|items| - 1], ino + |items| - 1)
  }

  lemma NoTemporary(c: Container, items: seq<BuildItem>, ino: nat)
    requires c.temporary.None?
    ensures PlacedAll(c, items, ino).temporary.None?
  {
  }

  lemma NextPlaced(c: Container, items: seq<BuildItem>, i: nat, ino: nat)
    requires c.temporary.None? && i < |items|
    ensures PlacedAll(c, items[..i], ino).temporary.None?
    ensures PlacedAll(c, items[..i + 1], ino) == Placed(PlacedAll(c, items[..i], ino), items[i], ino + i)
  {
    assert items[..i + 1][..i] == items[..i];
    NoTemporary(c, items[..i], ino);
  }

  // The first i files of a new directory are there.
  predicate BuiltUpTo(before: Disk, d: Disk, first: Container, items: seq<BuildItem>, i: nat)
    requires i <= |items|
  {
    d == before.(build := Some(PlacedAll(first, items[..i], before.nextIno)), nextIno := before.nextIno + i)
  }

  function NewContainer(ino: nat): Container {
    Container(ino, None, None, None, map[], None, None, None, None)
  }

  function ItemsOf(s: TransactionSnapshot): seq<BuildItem>
    requires Complete(s.options)
  {
    [OriginalText(s.envOriginal), PreparedCopy(s.envPrepared), OptionItem(TriggerAdmin, s.options[TriggerAdmin]),
     OptionItem(Migrator, s.options[Migrator]), MetadataItem(s.meta), StateItem(Snapshot)]
  }

  // The directory that the rename turns into the transaction.
  function NewTransaction(s: TransactionSnapshot, ino: nat, firstIno: nat): Container
    requires Complete(s.options)
  {
    Container(ino, Some(s.meta), Some(s.envOriginal), Some(s.envPrepared),
              map[TriggerAdmin := Node(firstIno + 2, s.options[TriggerAdmin]),
                  Migrator := Node(firstIno + 3, s.options[Migrator])],
              None, Some(FullLine(Snapshot)), None, None)
  }

  lemma PlacedAllIs(s: TransactionSnapshot, ino: nat, firstIno: nat)
    requires Complete(s.options)
    ensures PlacedAll(NewContainer(ino), ItemsOf(s), firstIno) == NewTransaction(s, ino, firstIno)
  {
    var items := ItemsOf(s);
    assert items[..5][..4] == items[..4] && items[..4][..3] == items[..3]
           && items[..3][..2] == items[..2] && items[..2][..1] == items[..1] && items[..1][..0] == [];
    var c := NewContainer(ino);
    assert PlacedAll(c, items[..1], firstIno) == Placed(c, items[0], firstIno);
    assert PlacedAll(c, items[..2], firstIno) == Placed(PlacedAll(c, items[..1], firstIno), items[1], firstIno + 1);
    assert PlacedAll(c, items[..3], firstIno) == Placed(PlacedAll(c, items[..2], firstIno), items[2], firstIno + 2);
    assert PlacedAll(c, items[..4], firstIno) == Placed(PlacedAll(c, items[..3], firstIno), items[3], firstIno + 3);
    assert PlacedAll(c, items[..5], firstIno) == Placed(PlacedAll(c, items[..4], firstIno), items[4], firstIno + 4);
  }

  function Size(c: Container): nat {
    Bit(c.metadata.Some?) + Bit(c.envOriginal.Some?) + Bit(c.envPrepared.Some?)
    + Bit(TriggerAdmin in c.options) + Bit(Migrator in c.options)
    + Bit(c.temporary.Some?) + Bit(c.state.Some?) + Bit(c.next.Some?)
    + ClaimSize(c.claim)
  }

  function ClaimSize(claim: Option<StageDir>): nat {
    if claim.Some? then 1 + |claim.value.files| else 0
  }

  // Only the two state files of the transaction differ.
  predicate OnlyState(before: Disk, after: Disk) {
    && before.tx.Some? && after.tx.Some?
    && after == before.(tx := Some(before.tx.value.(state := after.tx.value.state, next := after.tx.value.next)))
  }

  function WithClaim(d: Disk, claim: Option<StageDir>): Disk
    requires d.tx.Some?
  {
    d.(tx := Some(d.tx.value.(claim := claim)))
  }

  predicate OnlyStateAndClaim(before: Disk, after: Disk) {
    && before.tx.Some? && after.tx.Some?
    && after == before.(stage := after.stage,
                        tx := Some(before.tx.value.(claim := after.tx.value.claim,
                                                    state := after.tx.value.state, next := after.tx.value.next)))
  }

  lemma BothOnlyStateAndClaim(a: Disk, b: Disk, c: Disk)
    requires OnlyStateAndClaim(a, b) && OnlyStateAndClaim(b, c)
    ensures OnlyStateAndClaim(a, c)
  {
  }

  lemma ClaimedIsInside(site: Site, d: Disk, g: Origin, s: State)
    requires Settled(site, d, g, s) && d.tx.value.claim.Some?
    ensures d.stage.None?
  {
  }

  predicate OwnedClaim(d: Disk, g: Origin) {
    d.tx.Some? && d.tx.value.claim == Some(g.stage.(uid := ROOT_UID, gid := ROOT_GID))
  }

  lemma BuildKeepsInv(site: Site, d: Disk, g: Origin, c: Container, ino: nat)
    requires Inv(site, d, g) && ino >= d.nextIno
    ensures Inv(site, d.(build := Some(c), nextIno := ino), g)
  {
  }

  lemma StartKeepsInv(site: Site, d: Disk, g: Origin, c: Container, firstIno: nat)
    requires Inv(site, d, g) && IsOriginal(d, g) && Installable(site, g)
    requires Complete(SnapshotOf(site, g).options)
    requires c == NewTransaction(SnapshotOf(site, g), c.ino, firstIno) && c.ino < d.nextIno && firstIno + 3 < d.nextIno
    ensures Settled(site, d.(build := None, tx := Some(c)), g, Snapshot)
  {
    forall n: OptionName
      ensures n in c.options && c.options[n].ino < d.nextIno && c.options[n].payload == g.stage.files[Credential(n)]
    {
      match n case TriggerAdmin => case Migrator =>
    }
  }

  lemma NoNames(m: map<OptionName, Node>)
    requires TriggerAdmin !in m && Migrator !in m
    ensures m == map[]
  {
    forall n: OptionName ensures n !in m {
      match n case TriggerAdmin => case Migrator =>
    }
  }

  lemma ScratchGoes(files: map<StageEntry, string>, name: OptionName, payload: string)
    requires Scratch(0) !in files
    ensures files[Scratch(0) := payload][Credential(name) := payload] - {Scratch(0)} == files[Credential(name) := payload]
  {
  }

  lemma BothCredentials(want: map<StageEntry, string>, got: map<StageEntry, string>)
    requires OnlyCredentials(want)
    requires got == map[][Credential(TriggerAdmin) := want[Credential(TriggerAdmin)]]
                       [Credential(Migrator) := want[Credential(Migrator)]]
    ensures got == want
  {
    forall e ensures e in got <==> e in want {
      if e.Credential? {
        match e.name { case TriggerAdmin => case Migrator => }
      }
    }
  }

  // A transaction that the next load sees as prepared.
  predicate ReadyToCommit(d: Disk) {
    d.tx.Some? && Effective(d.tx.value) == Some(Prepared)
  }

  // The same transaction: at most its two state files differ, and a load acts on the same state.
  predicate SameTransaction(before: Container, after: Container) {
    after == before.(state := after.state, next := after.next) && Effective(after) == Effective(before)
  }

  /** Nothing that a later run looks at has changed. */
  predicate Untouched(before: Disk, after: Disk) {
    && after == before.(tx := after.tx, build := after.build, rolledBack := after.rolledBack)
    && (after.tx.Some? <==> before.tx.Some?)
    && (after.tx.Some? ==> SameTransaction(before.tx.value, after.tx.value))
  }

  // Where a commit may go ahead: no rollback is decided, the prepared env is in place and the stage
  // directory is claimed.
  predicate CommitPossible(site: Site, d: Disk, g: Origin) {
    d.tx.Some? && Effective(d.tx.value) != Some(RollingBack) && d.env == InstalledEnv(site, g) && OwnedClaim(d, g)
  }

  // What a commit of an undecided transaction may touch: it repairs the application directory and
  // the targets, and either decides the commit or leaves the transaction as it was.
  predicate CommitKeeps(before: Disk, after: Disk) {
    && after == before.(app := after.app, targets := after.targets, tx := after.tx, committed := after.committed,
                        build := after.build, rolledBack := after.rolledBack)
    && (!CommitDecided(after) ==> after.tx.Some? && before.tx.Some? && SameTransaction(before.tx.value, after.tx.value))
  }

  /** What each action leaves alone, however it is cut off. Only a commit decides a commit, and only
      where one is possible. Without a decided commit a verify touches nothing, nor does a commit
      without a transaction or over a decided rollback, a rollback without a transaction, or a
      prepare of a machine that cannot be installed. */
  predicate Respects(site: Site, action: Action, before: Disk, after: Disk, g: Origin) {
    && (CommitDecided(after) ==> CommitDecided(before) || (action == Commit && CommitPossible(site, before, g)))
    && (!CommitDecided(before) ==>
          match action
          case Verify => Untouched(before, after)
          case Commit =>
            if before.tx.None? || Effective(before.tx.value) == Some(RollingBack) then Untouched(before, after)
            else CommitKeeps(before, after)
          case Rollback => before.tx.None? ==> Untouched(before, after)
          case Prepare => before.tx.None? && !Installable(site, g) ==> Untouched(before, after))
  }

  // A transaction that may still be prepared is the one that is.
  predicate Continues(before: Disk, after: Disk) {
    Continuable(before) ==> after.tx.Some? && after.tx.value.ino == before.tx.value.ino
  }

  predicate Continuable(d: Disk) {
    d.tx.Some? && Effective(d.tx.value) != Some(RollingBack)
  }

  // What the clean-up deletes is none of this.
  lemma RespectsAfterCleanUp(site: Site, action: Action, before: Disk, cleaned: Disk, after: Disk, g: Origin)
    requires cleaned == before.(build := cleaned.build, rolledBack := cleaned.rolledBack)
    requires Respects(site, action, cleaned, after, g)
    ensures Respects(site, action, before, after, g)
  {
  }

  lemma UntouchedRespects(site: Site, action: Action, before: Disk, after: Disk, g: Origin)
    requires Untouched(before, after)
    ensures Respects(site, action, before, after, g)
  {
  }

  // Deleting half-built and half-purged directories leaves every question about the rest as it was.
  lemma CleanUpDecidesNothing(before: Disk, after: Disk)
    requires after == before.(build := after.build, rolledBack := after.rolledBack)
    ensures Allowed(before, after) && (CommitDecided(before) <==> CommitDecided(after))
    ensures (ReadyToCommit(before) <==> ReadyToCommit(after)) && (TempUsable(before) <==> TempUsable(after))
  {
  }

  // The claimed directory may change owner, and its files once it is on its way back.
  lemma ClaimKeepsSettled(site: Site, d: Disk, g: Origin, s: State, dir: StageDir)
    requires Settled(site, d, g, s) && d.tx.value.claim.Some? && dir.ino == d.tx.value.claim.value.ino
    requires (dir.uid, dir.gid) == (ROOT_UID, ROOT_GID)
             || (s == RollingBack && (dir.uid, dir.gid) == (site.ids.deployUid, site.ids.deployGid))
             || (dir.uid, dir.gid) == (d.tx.value.claim.value.uid, d.tx.value.claim.value.gid)
    requires s == RollingBack || dir.files == d.tx.value.claim.value.files
    ensures Settled(site, WithClaim(d, Some(dir)), g, s)
  {
    if s == Prepared || s == Committing {
      assert dir == d.tx.value.claim.value;
    }
  }

  // A claim under root passes the checks and may be recorded as claimed.
  lemma RootClaimIsValid(site: Site, d: Disk, g: Origin, s: State)
    requires Settled(site, d, g, s) && Undecided(s) && d.tx.value.claim.Some?
    ensures ClaimValid(site.ids, d.tx.value, SnapshotOf(site, g), true)
    ensures HoldsCredentials(site, d.tx.value.claim.value.files, SnapshotOf(site, g))
    ensures d.tx.value.claim.value.(uid := ROOT_UID, gid := ROOT_GID) == g.stage.(uid := ROOT_UID, gid := ROOT_GID)
    ensures MayWriteNow(site, d, g, Claimed)
  {
  }

  lemma TakeStageKeepsSettled(site: Site, d: Disk, g: Origin, s: State)
    requires Settled(site, d, g, s) && Undecided(s) && d.tx.value.claim.None?
    ensures d.stage == Some(g.stage)
    ensures Settled(site, WithClaim(d.(stage := None), d.stage), g, s)
  {
  }

  lemma ReturnStageKeepsSettled(site: Site, d: Disk, g: Origin)
    requires Settled(site, d, g, RollingBack) && d.tx.value.claim == Some(g.stage) && d.stage.None?
    ensures Settled(site, WithClaim(d.(stage := d.tx.value.claim), None), g, RollingBack)
  {
  }

  lemma LinkTargetKeepsSettled(site: Site, d: Disk, g: Origin, s: State, name: OptionName)
    requires Settled(site, d, g, s) && s != RollingBack && name !in d.targets
    ensures Settled(site, d.(targets := d.targets[name := d.tx.value.options[name]]), g, s)
  {
  }

  class Host {
    const site: Site
    var disk: Disk
    var fate: seq<Fate>

    constructor (site: Site, disk: Disk)
      ensures this.site == site && this.disk == disk && fate == []
    {
      this.site := site;
      this.disk := disk;
      fate := [];
    }

    method Step() returns (r: Status)
      modifies this`fate
      ensures old(fate) == [] ==> r == Fine && fate == []
      ensures old(fate) != [] ==> fate == old(fate)[1..]
      ensures old(fate) != [] ==> r == match old(fate)[0] case Go => Fine case Signal => Raised(Interrupted) case PowerLoss => Lost
    {
      if fate == [] {
        return Fine;
      }
      var f := fate[0];
      fate := fate[1..];
      match f
      case Go => r := Fine;
      case Signal => r := Raised(Interrupted);
      case PowerLoss => r := Lost;
    }

    /* ---------- the state file ---------- */

    method WriteNext(line: Line, ghost g: Origin) returns (r: Status)
      requires Inv(site, disk, g) && MayWriteNow(site, disk, g, line.state)
      requires IsPrefix(line, FullLine(line.state))
      modifies this
      ensures Inv(site, disk, g)
      ensures r.Fine? ==> disk == WithNext(old(disk), line) && MayWriteNow(site, disk, g, line.state)
      ensures !r.Fine? ==> disk == old(disk)
      ensures old(fate) == [] ==> r.Fine? && fate == []
    {
      r := Fine;
      :- Step();
      PendingKeepsInv(site, disk, g, line);
      disk := WithNext(disk, line);
      r := Fine;
    }

    // Creates the pending state file and writes it a byte at a time.
    method WritePending(value: State, ghost g: Origin) returns (r: Status)
      requires Inv(site, disk, g) && MayWriteNow(site, disk, g, value) && disk.tx.value.next.None?
      modifies this
      ensures Inv(site, disk, g) && MayWriteNow(site, disk, g, value) && OnlyState(old(disk), disk)
      ensures disk.tx.value.state == old(disk.tx.value.state)
      ensures disk.tx.value.next.Some? ==> disk.tx.value.next.value.state == value
      ensures r.Fine? ==> disk.tx.value.next == Some(FullLine(value))
      ensures old(fate) == [] ==> r.Fine? && fate == []
    {
      r := Fine;
      :- WriteNext(Line(value, 0), g);
      var i := 0;
      while i < FullLine(value).written
        invariant 0 <= i <= FullLine(value).written
        invariant Inv(site, disk, g) && MayWriteNow(site, disk, g, value)
        invariant disk == WithNext(old(disk), Line(value, i))
        invariant old(fate) == [] ==> fate == []
      {
        i := i + 1;
        :- WriteNext(Line(value, i), g);
      }
      r := Fine;
    }

    /** `_write_state`: an exclusive pending file, then renamed over the state. */
    method WriteState(value: State, ghost g: Origin) returns (r: Status)
      requires Inv(site, disk, g) && MayWriteNow(site, disk, g, value)
      modifies this
      ensures Inv(site, disk, g) && OnlyState(old(disk), disk)
      ensures r.Fine? ==> StateIs(disk.tx.value, value) && disk.tx.value.next.None?
      ensures !r.Fine? ==> disk.tx.value.state == old(disk.tx.value.state)
      ensures Effective(disk.tx.value) == Effective(old(disk.tx.value)) || Effective(disk.tx.value) == Some(value)
      ensures old(fate) == [] && old(disk.tx.value.next.None?) ==> r.Fine? && fate == []
    {
      if disk.tx.value.next.None? {
        :- WritePending(value, g);
      } else if disk.tx.value.next.value != FullLine(value) {
        return Raised(StateDiffers);
      }
      :- Step();
      PromoteKeepsInv(site, disk, g, FullLine(value));
      disk := Promoted(disk, FullLine(value));
      r := Fine;
    }

    /** `_recover_pending_state`: a torn line is dropped, a readable one takes effect. */
    method RecoverPending(ghost g: Origin) returns (r: Status)
      requires Inv(site, disk, g) && disk.tx.Some?
      modifies this
      ensures Inv(site, disk, g) && OnlyState(old(disk), disk)
      ensures Effective(disk.tx.value) == Effective(old(disk.tx.value))
      ensures r.Fine? ==> disk.tx.value.next.None?
      ensures old(fate) == [] ==> r.Fine? && fate == []
    {
      var t := disk.tx.value;
      if t.next.None? {
        return Fine;
      }
      :- Step();
      if Read(t.next.value).None? {
        disk := disk.(tx := Some(t.(next := None)));
      } else {
        PromoteKeepsInv(site, disk, g, t.next.value);
        disk := Promoted(disk, t.next.value);
      }
      r := Fine;
    }

    /** `_load_transaction`. */
    method Load(ghost g: Origin) returns (r: Status, s: TransactionSnapshot, st: State)
      requires Inv(site, disk, g) && disk.tx.Some?
      modifies this
      ensures Inv(site, disk, g) && OnlyState(old(disk), disk)
      ensures Effective(disk.tx.value) == Effective(old(disk.tx.value))
      ensures Allowed(old(disk), disk)
      ensures r.Fine? ==> s == SnapshotOf(site, g) && StateIs(disk.tx.value, st) && disk.tx.value.next.None?
      ensures old(fate) == [] ==> r.Fine? && fate == []
    {
      s := TransactionSnapshot(Metadata(site.ids, 0, 0, 0, 0, 0, 0, RootApp(), Sha256(""), Sha256(""), map[]), map[], "", "");
      st := Snapshot;
      r := RecoverPending(g);
      TransactionMoves(site, old(disk), disk, g);
      if !r.Fine? {
        return;
      }
      LoadAccepts(site, disk, g);
      match LoadContainer(site, disk.tx.value)
      case Bad(code) => r := Raised(code);
      case Good(snapshot, state) => r, s, st := Fine, snapshot, state;
    }

    /* ---------- preparing ---------- */

    method SetClaimOwner(uid: int, gid: int, ghost g: Origin, ghost s: State) returns (r: Status)
      requires Settled(site, disk, g, s) && disk.tx.value.claim.Some?
      requires (uid, gid) == (ROOT_UID, ROOT_GID)
               || (s == RollingBack && (uid, gid) == (site.ids.deployUid, site.ids.deployGid))
      modifies this
      ensures Settled(site, disk, g, s)
      ensures r.Fine? ==> disk == WithClaim(old(disk), Some(old(disk.tx.value.claim.value).(uid := uid, gid := gid)))
      ensures !r.Fine? ==> disk == old(disk)
      ensures old(fate) == [] ==> r.Fine? && fate == []
    {
      r := Fine;
      :- Step();
      ClaimKeepsSettled(site, disk, g, s, disk.tx.value.claim.value.(uid := uid, gid := gid));
      disk := WithClaim(disk, Some(disk.tx.value.claim.value.(uid := uid, gid := gid)));
      r := Fine;
    }

    // What both branches of `_claim_stage` do once the directory is inside.
    method OwnClaim(snapshot: TransactionSnapshot, ghost g: Origin, ghost s: State) returns (r: Status)
      requires Settled(site, disk, g, s) && Undecided(s) && snapshot == SnapshotOf(site, g) && disk.tx.value.claim.Some?
      modifies this
      ensures Inv(site, disk, g) && OnlyStateAndClaim(old(disk), disk)
      ensures Effective(disk.tx.value) == Some(s) || Effective(disk.tx.value) == Some(Claimed)
      ensures r.Fine? ==> Settled(site, disk, g, Claimed) && OwnedClaim(disk, g) && disk.stage == old(disk.stage)
      ensures old(fate) == [] ==> r.Fine? && fate == []
    {
      RootClaimIsValid(site, disk, g, s);
      if !ClaimValid(site.ids, disk.tx.value, snapshot, true) {
        return Raised(ClaimBoundary);
      }
      :- SetClaimOwner(ROOT_UID, ROOT_GID, g, s);
      RootClaimIsValid(site, disk, g, s);
      if !HoldsCredentials(site, disk.tx.value.claim.value.files, snapshot) {
        return Raised(Toctou);
      }
      r := WriteState(Claimed, g);
    }

    // The first branch of `_claim_stage`: the directory is still outside.
    method TakeStage(snapshot: TransactionSnapshot, ghost g: Origin, ghost s: State) returns (r: Status)
      requires Settled(site, disk, g, s) && Undecided(s) && snapshot == SnapshotOf(site, g) && disk.tx.value.claim.None?
      modifies this
      ensures Settled(site, disk, g, s) && OnlyStateAndClaim(old(disk), disk)
      ensures r.Fine? ==> disk == WithClaim(old(disk).(stage := None), old(disk.stage)) && disk.tx.value.claim.Some?
      ensures !r.Fine? ==> disk == old(disk)
      ensures old(fate) == [] ==> r.Fine? && fate == []
    {
      TakeStageKeepsSettled(site, disk, g, s);
      if disk.stage.None? {
        return Raised(StageMissing);
      }
      var stage := disk.stage.value;
      if (stage.ino, stage.uid, stage.gid) != (snapshot.meta.stageIno, snapshot.meta.stageUid, snapshot.meta.stageGid) {
        return Raised(Toctou);
      }
      :- Step();
      disk := WithClaim(disk.(stage := None), Some(stage));
      r := Fine;
    }

    // The directory is inside afterwards.
    method EnsureTaken(snapshot: TransactionSnapshot, ghost g: Origin, ghost s: State) returns (r: Status)
      requires Settled(site, disk, g, s) && Undecided(s) && snapshot == SnapshotOf(site, g)
      modifies this
      ensures Settled(site, disk, g, s) && OnlyStateAndClaim(old(disk), disk)
      ensures r.Fine? ==> disk.tx.value.claim.Some? && disk.stage.None?
      ensures old(fate) == [] ==> r.Fine? && fate == []
    {
      r := Fine;
      if disk.tx.value.claim.None? {
        r := TakeStage(snapshot, g, s);
      } else {
        ClaimedIsInside(site, disk, g, s);
      }
    }

    /** `_claim_stage`: the stage directory moves into the transaction under root. */
    method ClaimStage(snapshot: TransactionSnapshot, ghost g: Origin, ghost s: State) returns (r: Status)
      requires Settled(site, disk, g, s) && Undecided(s) && snapshot == SnapshotOf(site, g)
      modifies this
      ensures Inv(site, disk, g) && OnlyStateAndClaim(old(disk), disk)
      ensures Effective(disk.tx.value) == Some(s) || Effective(disk.tx.value) == Some(Claimed)
      ensures r.Fine? ==> Settled(site, disk, g, Claimed) && OwnedClaim(disk, g) && disk.stage.None?
      ensures old(fate) == [] ==> r.Fine? && fate == []
    {
      r := EnsureTaken(snapshot, g, s);
      ghost var taken := disk;
      if r.Fine? {
        r := OwnClaim(snapshot, g, s);
      }
      BothOnlyStateAndClaim(old(disk), taken, disk);
    }

    /** `_ensure_app_prepared`. */
    method EnsureAppPrepared(snapshot: TransactionSnapshot, ghost g: Origin, ghost s: State) returns (r: Status)
      requires Settled(site, disk, g, s) && snapshot == SnapshotOf(site, g)
      modifies this
      ensures Settled(site, disk, g, s) && disk == old(disk).(app := disk.app)
      ensures r.Fine? ==> disk.app == RootApp()
      ensures old(fate) == [] ==> r.Fine? && fate == []
    {
      if disk.app == RootApp() {
        return Fine;
      }
      if disk.app != snapshot.meta.app {
        return Raised(AppBoundary);
      }
      :- Step();
      disk := disk.(app := disk.app.(uid := ROOT_UID, gid := ROOT_GID));
      :- Step();
      disk := disk.(app := disk.app.(mode := APP_MODE));
      r := Fine;
    }

    method EnsureTarget(name: OptionName, snapshot: TransactionSnapshot, ghost g: Origin, ghost s: State) returns (r: Status)
      requires Settled(site, disk, g, s) && snapshot == SnapshotOf(site, g) && Quiet(disk)
      requires s != RollingBack
      modifies this
      ensures Settled(site, disk, g, s) && disk == old(disk).(targets := disk.targets)
      ensures old(disk.targets.Keys) <= disk.targets.Keys
      ensures r.Fine? ==> name in disk.targets
      ensures old(fate) == [] ==> r.Fine? && fate == []
    {
      var source := disk.tx.value.options[name];
      LinksOfOption(site, disk, g, name);
      if NLink(disk, source.ino) !in {1, 2} {
        return Raised(TargetState);
      }
      if name !in disk.targets {
        if NLink(disk, source.ino) != 1 {
          return Raised(TargetState);
        }
        :- Step();
        LinkTargetKeepsSettled(site, disk, g, s, name);
        disk := disk.(targets := disk.targets[name := source]);
        LinksOfOption(site, disk, g, name);
      }
      var target := disk.targets[name];
      if NLink(disk, target.ino) != 2 || target.ino != source.ino
         || target.payload != snapshot.options[name] || !site.accepts(name, target.payload) {
        return Raised(TargetState);
      }
      r := Fine;
    }

    /** `_ensure_option_targets`: each target is a hard link of the snapshot's copy. */
    method EnsureOptionTargets(snapshot: TransactionSnapshot, ghost g: Origin, ghost s: State) returns (r: Status)
      requires Settled(site, disk, g, s) && snapshot == SnapshotOf(site, g) && Quiet(disk)
      requires s != RollingBack
      modifies this
      ensures Settled(site, disk, g, s) && disk == old(disk).(targets := disk.targets)
      ensures r.Fine? ==> Complete(disk.targets)
      ensures old(fate) == [] ==> r.Fine? && fate == []
    {
      r := Fine;
      :- EnsureTarget(TriggerAdmin, snapshot, g, s);
      :- EnsureTarget(Migrator, snapshot, g, s);
      BothNames(disk.targets);
      r := Fine;
    }

    // The two situations in which the env file is replaced, and by what.
    predicate MayReplaceEnv(file: EnvFile, g: Origin, s: State)
      reads this
    {
      && Settled(site, disk, g, s)
      && if s == RollingBack then disk.env == InstalledEnv(site, g) && file == g.env
         else Undecided(s) && disk.env != InstalledEnv(site, g) && file == InstalledEnv(site, g)
    }

    method SetEnvTemp(temp: EnvFile, file: EnvFile, ghost g: Origin, ghost s: State) returns (r: Status)
      requires MayReplaceEnv(file, g, s)
      requires (temp.uid, temp.gid) == (file.uid, file.gid) || (temp.uid, temp.gid) == (ROOT_UID, ROOT_GID)
      requires temp.mode == file.mode || temp.mode == site.freshEnvMode
      modifies this
      ensures MayReplaceEnv(file, g, s)
      ensures r.Fine? ==> disk == old(disk).(envTemp := Some(temp))
      ensures !r.Fine? ==> disk == old(disk)
      ensures old(fate) == [] ==> r.Fine? && fate == []
      ensures old(fate) != [] ==> fate == old(fate)[1..] && (r.Fine? <==> old(fate)[0] == Go) && (r.Lost? <==> old(fate)[0] == PowerLoss)
    {
      r := Fine;
      :- Step();
      disk := disk.(envTemp := Some(temp));
      r := Fine;
    }

    // Created, owned and given its mode.
    method OpenEnvTemp(file: EnvFile, ghost g: Origin, ghost s: State) returns (r: Status)
      requires MayReplaceEnv(file, g, s)
      modifies this
      ensures MayReplaceEnv(file, g, s) && disk == old(disk).(envTemp := disk.envTemp)
      ensures r.Fine? ==> disk.envTemp == Some(file.(payload := ""))
      ensures old(fate) == [] ==> r.Fine? && fate == []
      ensures old(fate) == [Go, PowerLoss] ==> r.Lost? && disk.envTemp == Some(EnvFile("", ROOT_UID, ROOT_GID, site.freshEnvMode))
    {
      r := Fine;
      :- SetEnvTemp(EnvFile("", ROOT_UID, ROOT_GID, site.freshEnvMode), file, g, s);
      :- SetEnvTemp(EnvFile("", file.uid, file.gid, site.freshEnvMode), file, g, s);
      :- SetEnvTemp(EnvFile("", file.uid, file.gid, file.mode), file, g, s);
      r := Fine;
    }

    // `_write_exclusive` of the env temporary: opened, then written.
    method WriteEnvTemp(file: EnvFile, ghost g: Origin, ghost s: State) returns (r: Status)
      requires MayReplaceEnv(file, g, s) && disk.envTemp.None?
      modifies this
      ensures MayReplaceEnv(file, g, s) && disk == old(disk).(envTemp := disk.envTemp)
      ensures r.Fine? ==> disk.envTemp == Some(file)
      ensures old(fate) == [] ==> r.Fine? && fate == []
      ensures old(fate) == [Go, PowerLoss] ==> r.Lost? && disk.envTemp == Some(EnvFile("", ROOT_UID, ROOT_GID, site.freshEnvMode))
    {
      r := Fine;
      :- OpenEnvTemp(file, g, s);
      var i := 0;
      while i < |file.payload|
        invariant 0 <= i <= |file.payload|
        invariant MayReplaceEnv(file, g, s)
        invariant disk == old(disk).(envTemp := Some(file.(payload := file.payload[..i])))
        invariant old(fate) == [] ==> fate == []
        invariant old(fate) != [Go, PowerLoss]
      {
        i := i + 1;
        :- SetEnvTemp(file.(payload := file.payload[..i]), file, g, s);
      }
      assert file.payload[..i] == file.payload;
      r := Fine;
    }

    /** `_replace_env`. A leftover temporary must carry the expected owner and mode. */
    method ReplaceEnv(file: EnvFile, ghost g: Origin, ghost s: State) returns (r: Status)
      requires MayReplaceEnv(file, g, s)
      modifies this
      ensures Settled(site, disk, g, s) && disk == old(disk).(env := disk.env, envTemp := disk.envTemp)
      ensures r.Fine? ==> disk.env == file && disk.envTemp.None?
      ensures !r.Fine? ==> disk.env == old(disk.env)
      ensures !TempUsable(old(disk)) ==> !r.Fine? && disk == old(disk)
      ensures old(fate) == [] ==> fate == [] && !r.Lost? && (r.Fine? <==> TempUsable(old(disk)))
      ensures old(fate) == [Go, PowerLoss] && old(disk.envTemp.None?) ==>
        r.Lost? && disk.envTemp == Some(EnvFile("", ROOT_UID, ROOT_GID, site.freshEnvMode))
    {
      if disk.envTemp.Some? {
        var t := disk.envTemp.value;
        if ((t.uid, t.gid) != (file.uid, file.gid) && (t.uid, t.gid) != (ROOT_UID, ROOT_GID)) || t.mode != file.mode {
          return Raised(EnvTempBlocked);
        }
        :- Step();
        disk := disk.(envTemp := None);
      }
      :- WriteEnvTemp(file, g, s);
      :- Step();
      disk := disk.(env := file, envTemp := None);
      r := Fine;
    }

    /** `_ensure_env_prepared`. */
    method EnsureEnvPrepared(snapshot: TransactionSnapshot, ghost g: Origin, ghost s: State) returns (r: Status)
      requires Settled(site, disk, g, s) && snapshot == SnapshotOf(site, g) && Undecided(s)
      modifies this
      ensures Settled(site, disk, g, s) && disk == old(disk).(env := disk.env, envTemp := disk.envTemp)
      ensures r.Fine? ==> disk.env == InstalledEnv(site, g) && disk.envTemp.None?
      ensures !TempUsable(old(disk)) ==> !r.Fine? && disk == old(disk)
      ensures old(fate) == [] ==> fate == [] && !r.Lost? && (r.Fine? <==> TempUsable(old(disk)))
    {
      if EnvDisposition(site.ids, disk, snapshot) == OnlyOriginal {
        :- ReplaceEnv(EnvFile(snapshot.envPrepared, ROOT_UID, site.ids.serviceGid, ENV_MODE), g, s);
      }
      if EnvDisposition(site.ids, disk, snapshot) !in {OnlyPrepared, Both} {
        return Raised(EnvState);
      }
      r := Fine;
    }

    /** `_validate_prepared`, which also completes the application directory and the links. */
    method ValidatePrepared(snapshot: TransactionSnapshot, ghost g: Origin, ghost s: State) returns (r: Status)
      requires Settled(site, disk, g, s) && snapshot == SnapshotOf(site, g) && Quiet(disk) && s != RollingBack
      modifies this
      ensures Settled(site, disk, g, s) && disk == old(disk).(app := disk.app, targets := disk.targets)
      ensures r.Fine? ==> InPlace(site, disk, g, disk.tx.value)
      ensures old(fate) == [] ==> fate == [] && !r.Lost?
      ensures old(fate) == [] && old(disk.env) == InstalledEnv(site, g) && OwnedClaim(old(disk), g) ==> r.Fine?
    {
      if !ClaimValid(site.ids, disk.tx.value, snapshot, false) {
        return Raised(ClaimBoundary);
      }
      :- EnsureAppPrepared(snapshot, g, s);
      :- EnsureOptionTargets(snapshot, g, s);
      if EnvDisposition(site.ids, disk, snapshot) !in {OnlyPrepared, Both} {
        return Raised(EnvState);
      }
      r := Fine;
    }

    /** `_resume_prepare`: from any undecided state to `prepared`. */
    method ResumePrepare(snapshot: TransactionSnapshot, state: State, ghost g: Origin) returns (r: Status)
      requires Settled(site, disk, g, state) && snapshot == SnapshotOf(site, g) && Quiet(disk)
      modifies this
      ensures Inv(site, disk, g) && Quiet(disk) && disk.nextIno == old(disk.nextIno)
      ensures disk.tx.Some? && disk.tx.value.ino == old(disk.tx.value.ino)
      ensures Undecided(state) ==> Effective(disk.tx.value).Some? && Undecided(Effective(disk.tx.value).value)
      ensures !Undecided(state) ==> !r.Fine? && disk == old(disk)
      ensures r.Fine? ==> Settled(site, disk, g, Prepared)
      ensures !TempUsable(old(disk)) ==> !r.Fine? && disk.envTemp == old(disk.envTemp)
      ensures old(fate) == [] ==> fate == [] && !r.Lost?
      ensures old(fate) == [] && Undecided(state) && TempUsable(old(disk)) ==> r.Fine?
    {
      if state == Committing {
        return Raised(IsCommitting);
      }
      if state == RollingBack {
        return Raised(IsRollingBack);
      }
      :- ClaimStage(snapshot, g, state);
      :- EnsureAppPrepared(snapshot, g, Claimed);
      :- EnsureOptionTargets(snapshot, g, Claimed);
      :- EnsureEnvPrepared(snapshot, g, Claimed);
      :- ValidatePrepared(snapshot, g, Claimed);
      r := WriteState(Prepared, g);
    }

    /* ---------- deleting a transaction directory ---------- */

    // Any remaining entry of the directory, as the listing happens to order them.
    method PickEntry(c: Container) returns (e: PurgeEntry)
      requires Size(c) > 0
      ensures Has(c, e)
    {
      if
      case c.metadata.Some? => e := MetadataEntry;
      case c.envOriginal.Some? => e := OriginalEntry;
      case c.envPrepared.Some? => e := PreparedEntry;
      case c.temporary.Some? => e := TemporaryEntry;
      case c.state.Some? => e := StateEntry;
      case c.next.Some? => e := NextEntry;
      case TriggerAdmin in c.options => e := OptionEntry(TriggerAdmin);
      case Migrator in c.options => e := OptionEntry(Migrator);
      case c.claim.Some? && c.claim.value.files != map[] =>
        var entry :| entry in c.claim.value.files;
        e := ClaimedEntry(entry);
      case c.claim.Some? && c.claim.value.files == map[] => e := ClaimEntry;
    }

    method DropEntry(place: Place, c: Container, ghost before: Disk, ghost g: Origin) returns (r: Status, c': Container)
      requires Inv(site, disk, g) && disk == Put(before, place, Some(c)) && Size(c) > 0
      modifies this
      ensures Inv(site, disk, g) && disk == Put(before, place, Some(c')) && c'.ino == c.ino
      ensures r.Fine? ==> Size(c') < Size(c)
      ensures old(fate) == [] ==> r.Fine? && fate == []
    {
      c' := c;
      :- Step();
      var e := PickEntry(c);
      DropShrinks(c, e);
      DropKeepsInv(site, before, g, place, c, e);
      PutPut(before, place, Some(c), Some(Without(c, e)));
      c' := Without(c, e);
      disk := Put(disk, place, Some(c'));
      r := Fine;
    }

    method PurgeEntries(place: Place, first: Container, ghost g: Origin) returns (r: Status, c: Container)
      requires Inv(site, disk, g) && disk == Put(disk, place, Some(first))
      modifies this
      ensures Inv(site, disk, g) && disk == Put(old(disk), place, Some(c)) && c.ino == first.ino
      ensures old(fate) == [] ==> r.Fine? && fate == []
    {
      r, c := Fine, first;
      while r.Fine? && Size(c) > 0
        invariant Inv(site, disk, g) && disk == Put(old(disk), place, Some(c)) && c.ino == first.ino
        invariant old(fate) == [] ==> r.Fine? && fate == []
        decreases r.Fine?, Size(c)
      {
        r, c := DropEntry(place, c, old(disk), g);
      }
    }

    /** `_purge_tree`: entries go one at a time, then the directory itself. */
    method Purge(place: Place, ghost g: Origin) returns (r: Status)
      requires Inv(site, disk, g)
      modifies this
      ensures Inv(site, disk, g) && disk == Put(old(disk), place, Get(disk, place))
      ensures Get(disk, place).Some? ==> old(Get(disk, place).Some?) && Get(disk, place).value.ino == old(Get(disk, place).value.ino)
      ensures r.Fine? ==> Get(disk, place).None?
      ensures old(fate) == [] ==> r.Fine? && fate == []
    {
      PutGet(disk, place, Get(disk, place));
      if Get(disk, place).None? {
        return Fine;
      }
      var c: Container;
      r, c := PurgeEntries(place, Get(disk, place).value, g);
      PutGet(old(disk), place, Some(c));
      if r.Fine? {
        r := Step();
      }
      if r.Fine? {
        RemoveKeepsInv(site, disk, g, place);
        PutPut(old(disk), place, Some(c), None);
        PutGet(old(disk), place, None);
        disk := Put(disk, place, None);
      }
    }

    /* ---------- committing ---------- */

    /** `_recover_committed`: past the decision only root's duplicates are removed. */
    method RecoverCommitted(ghost g: Origin) returns (r: Status)
      requires Inv(site, disk, g) && Pinning(site) && Quiet(disk) && disk.tx.None?
      modifies this
      ensures Inv(site, disk, g) && disk == old(disk).(committed := disk.committed)
      ensures disk.committed.Some? ==> old(disk.committed.Some?) && disk.committed.value.ino == old(disk.committed.value.ino)
      ensures r.Fine? ==> IsInstalled(site, disk, g) && InstalledValid(site, disk, {1})
      ensures old(fate) == [] ==> fate == [] && (r.Fine? <==> CommitDecided(old(disk)))
      ensures old(fate) == [] ==> !r.Lost?
    {
      if CommitDecided(disk) {
        LiveIsValid(site, disk, g);
      }
      if disk.committed.Some? {
        if !InstalledValid(site, disk, {1, 2}) {
          return Raised(InstalledDrift);
        }
        :- Purge(Committed, g);
        OutcomesExclusive(site, disk, g);
        if CommitDecided(disk) {
          LiveIsValid(site, disk, g);
        }
      }
      if !InstalledValid(site, disk, {1}) {
        return Raised(InstalledDrift);
      }
      OutcomesExclusive(site, disk, g);
      r := Fine;
    }

    // The rename that ends `_finish_commit`, and the recovery after it.
    method RetireCommit(ghost g: Origin) returns (r: Status)
      requires Settled(site, disk, g, Committing) && Pinning(site) && Quiet(disk)
      modifies this
      ensures Inv(site, disk, g) && Quiet(disk) && disk.nextIno == old(disk.nextIno) && disk.envTemp == old(disk.envTemp)
      ensures disk.tx.Some? ==> disk == old(disk)
      ensures disk.tx.None? ==> CommitDecided(disk)
      ensures disk.committed.Some? ==> disk.committed.value.ino == old(disk.tx.value.ino)
      ensures r.Fine? ==> IsInstalled(site, disk, g) && InstalledValid(site, disk, {1})
      ensures old(fate) == [] ==> r.Fine? && fate == []
      ensures disk == old(disk).(tx := disk.tx, committed := disk.committed)
    {
      if disk.committed.Some? {
        return Raised(ConflictingContainers);
      }
      :- Step();
      CommitRenameKeepsInv(site, disk, g);
      disk := disk.(tx := None, committed := disk.tx);
      r := RecoverCommitted(g);
      if disk.committed.None? {
        OutcomesExclusive(site, disk, g);
      }
    }

    /** `_finish_commit`. */
    method FinishCommit(snapshot: TransactionSnapshot, ghost g: Origin, ghost s: State) returns (r: Status)
      requires Settled(site, disk, g, s) && snapshot == SnapshotOf(site, g) && Pinning(site) && Quiet(disk) && s != RollingBack
      modifies this
      ensures Inv(site, disk, g) && Quiet(disk) && disk.nextIno == old(disk.nextIno) && disk.envTemp == old(disk.envTemp)
      ensures disk.tx.Some? ==> disk.tx.value.ino == old(disk.tx.value.ino)
                                && (Effective(disk.tx.value) == Some(s) || Effective(disk.tx.value) == Some(Committing))
      ensures disk.tx.None? ==> CommitDecided(disk)
      ensures disk.committed.Some? ==> disk.committed.value.ino == old(disk.tx.value.ino)
      ensures r.Fine? ==> IsInstalled(site, disk, g) && InstalledValid(site, disk, {1})
      ensures old(fate) == [] ==> fate == [] && !r.Lost?
      ensures old(fate) == [] && old(disk.env) == InstalledEnv(site, g) && OwnedClaim(old(disk), g) ==> r.Fine?
      ensures disk == old(disk).(app := disk.app, targets := disk.targets, tx := disk.tx, committed := disk.committed)
      ensures disk.tx.Some? ==> disk.tx.value == old(disk.tx.value).(state := disk.tx.value.state, next := disk.tx.value.next)
      ensures CommitDecided(disk) ==> s == Committing || CommitPossible(site, old(disk), g)
      ensures r.Fine? ==> s == Committing || CommitPossible(site, old(disk), g)
    {
      r := Fine;
      :- ValidatePrepared(snapshot, g, s);
      r := DecideCommit(g, s);
    }

    // The durable decision and what follows it.
    method DecideCommit(ghost g: Origin, ghost s: State) returns (r: Status)
      requires Settled(site, disk, g, s) && Pinning(site) && Quiet(disk) && s != RollingBack && InPlace(site, disk, g, disk.tx.value)
      modifies this
      ensures Inv(site, disk, g) && Quiet(disk) && disk == old(disk).(tx := disk.tx, committed := disk.committed)
      ensures disk.tx.Some? ==> disk.tx.value == old(disk.tx.value).(state := disk.tx.value.state, next := disk.tx.value.next)
                                && (Effective(disk.tx.value) == Some(s) || Effective(disk.tx.value) == Some(Committing))
      ensures disk.tx.None? ==> CommitDecided(disk)
      ensures disk.committed.Some? ==> disk.committed.value.ino == old(disk.tx.value.ino)
      ensures r.Fine? ==> IsInstalled(site, disk, g) && InstalledValid(site, disk, {1})
      ensures old(fate) == [] ==> r.Fine? && fate == []
    {
      r := Fine;
      :- WriteState(Committing, g);
      r := RetireCommit(g);
    }

    /* ---------- rolling back ---------- */

    method RemoveTarget(name: OptionName, snapshot: TransactionSnapshot, ghost g: Origin) returns (r: Status)
      requires Settled(site, disk, g, RollingBack) && snapshot == SnapshotOf(site, g) && Quiet(disk)
      modifies this
      ensures Settled(site, disk, g, RollingBack) && disk == old(disk).(targets := disk.targets)
      ensures disk.targets.Keys <= old(disk.targets.Keys)
      ensures r.Fine? ==> name !in disk.targets
      ensures old(fate) == [] ==> r.Fine? && fate == []
    {
      if name !in disk.targets {
        return Fine;
      }
      LinksOfOption(site, disk, g, name);
      var source, target := disk.tx.value.options[name], disk.targets[name];
      if NLink(disk, target.ino) != 2 || target.payload != snapshot.options[name] || source.ino != target.ino {
        return Raised(RollbackTarget);
      }
      :- Step();
      disk := disk.(targets := disk.targets - {name});
      r := Fine;
    }

    /** `_remove_transaction_targets`. */
    method RemoveTargets(snapshot: TransactionSnapshot, ghost g: Origin) returns (r: Status)
      requires Settled(site, disk, g, RollingBack) && snapshot == SnapshotOf(site, g) && Quiet(disk)
      modifies this
      ensures Settled(site, disk, g, RollingBack) && disk == old(disk).(targets := disk.targets)
      ensures r.Fine? ==> disk.targets == map[]
      ensures old(fate) == [] ==> r.Fine? && fate == []
    {
      r := Fine;
      :- RemoveTarget(TriggerAdmin, snapshot, g);
      :- RemoveTarget(Migrator, snapshot, g);
      NoNames(disk.targets);
      r := Fine;
    }

    /** The env part of `_finish_rollback`, with `_remove_env_temp`. */
    method RestoreEnv(snapshot: TransactionSnapshot, ghost g: Origin) returns (r: Status)
      requires Settled(site, disk, g, RollingBack) && snapshot == SnapshotOf(site, g)
      modifies this
      ensures Settled(site, disk, g, RollingBack) && disk == old(disk).(env := disk.env, envTemp := disk.envTemp)
      ensures r.Fine? ==> disk.env == g.env && disk.envTemp.None?
      ensures !TempUsable(old(disk)) ==> !r.Fine? && disk == old(disk)
      ensures old(fate) == [] ==> fate == [] && !r.Lost? && (r.Fine? <==> TempUsable(old(disk)))
    {
      if EnvDisposition(site.ids, disk, snapshot) in {OnlyPrepared, Both} {
        :- ReplaceEnv(EnvFile(snapshot.envOriginal, snapshot.meta.envUid, snapshot.meta.envGid, snapshot.meta.envMode), g, RollingBack);
      }
      if EnvDisposition(site.ids, disk, snapshot) !in {OnlyOriginal, Both} {
        return Raised(EnvState);
      }
      if disk.envTemp.Some? {
        var e := disk.envTemp.value;
        if (e.uid, e.gid, e.mode) != (ROOT_UID, site.ids.serviceGid, ENV_MODE)
           && (e.uid, e.gid, e.mode) != (snapshot.meta.envUid, snapshot.meta.envGid, snapshot.meta.envMode)
           && (e.uid, e.gid, e.mode) != (ROOT_UID, ROOT_GID, ENV_MODE)
           && (e.uid, e.gid, e.mode) != (ROOT_UID, ROOT_GID, snapshot.meta.envMode) {
          return Raised(EnvTempBlocked);
        }
        :- Step();
        disk := disk.(envTemp := None);
      }
      r := Fine;
    }

    method SetClaimFiles(files: map<StageEntry, string>, ghost g: Origin) returns (r: Status)
      requires Settled(site, disk, g, RollingBack) && disk.tx.value.claim.Some?
      modifies this
      ensures Settled(site, disk, g, RollingBack)
      ensures disk == if r.Fine? then WithClaim(old(disk), Some(old(disk.tx.value.claim.value).(files := files))) else old(disk)
      ensures old(fate) == [] ==> r.Fine? && fate == []
    {
      r := Fine;
      :- Step();
      ClaimKeepsSettled(site, disk, g, RollingBack, disk.tx.value.claim.value.(files := files));
      disk := WithClaim(disk, Some(disk.tx.value.claim.value.(files := files)));
      r := Fine;
    }

    method EmptyClaim(ghost g: Origin) returns (r: Status)
      requires Settled(site, disk, g, RollingBack) && disk.tx.value.claim.Some?
      modifies this
      ensures Settled(site, disk, g, RollingBack) && disk.tx.value.claim.Some?
      ensures disk == WithClaim(old(disk), Some(old(disk.tx.value.claim.value).(files := disk.tx.value.claim.value.files)))
      ensures r.Fine? ==> disk.tx.value.claim.value.files == map[]
      ensures old(fate) == [] ==> r.Fine? && fate == []
    {
      while disk.tx.value.claim.value.files != map[]
        invariant Settled(site, disk, g, RollingBack) && disk.tx.value.claim.Some?
        invariant disk == WithClaim(old(disk), Some(old(disk.tx.value.claim.value).(files := disk.tx.value.claim.value.files)))
        invariant old(fate) == [] ==> fate == []
        decreases |disk.tx.value.claim.value.files|
      {
        var files := disk.tx.value.claim.value.files;
        var entry :| entry in files;
        SmallerMap(files, entry);
        :- SetClaimFiles(files - {entry}, g);
      }
      r := Fine;
    }

    // `_atomic_write(..., replace=False)`: a scratch file, a link under its name, the scratch
    // gone. What its own clean-up deletes after an exception is not modelled: the directory
    // is emptied again before it is next filled.
    method WriteCredential(name: OptionName, payload: string, ghost g: Origin) returns (r: Status)
      requires Settled(site, disk, g, RollingBack) && disk.tx.value.claim.Some?
      requires Scratch(0) !in disk.tx.value.claim.value.files
      modifies this
      ensures Settled(site, disk, g, RollingBack) && disk.tx.value.claim.Some?
      ensures disk == WithClaim(old(disk), Some(old(disk.tx.value.claim.value).(files := disk.tx.value.claim.value.files)))
      ensures r.Fine? ==> disk.tx.value.claim.value.files == old(disk.tx.value.claim.value.files)[Credential(name) := payload]
      ensures old(fate) == [] ==> r.Fine? && fate == []
    {
      var files := disk.tx.value.claim.value.files;
      :- SetClaimFiles(files[Scratch(0) := payload], g);
      ScratchGoes(files, name, payload);
      r := LinkCredential(name, g);
    }

    method LinkCredential(name: OptionName, ghost g: Origin) returns (r: Status)
      requires Settled(site, disk, g, RollingBack) && disk.tx.value.claim.Some?
      requires Scratch(0) in disk.tx.value.claim.value.files
      modifies this
      ensures Settled(site, disk, g, RollingBack) && disk.tx.value.claim.Some?
      ensures disk == WithClaim(old(disk), Some(old(disk.tx.value.claim.value).(files := disk.tx.value.claim.value.files)))
      ensures r.Fine? ==>
        var files := old(disk.tx.value.claim.value.files);
        disk.tx.value.claim.value.files == files[Credential(name) := files[Scratch(0)]] - {Scratch(0)}
      ensures old(fate) == [] ==> r.Fine? && fate == []
    {
      r := Fine;
      var files := disk.tx.value.claim.value.files;
      var linked := files[Credential(name) := files[Scratch(0)]];
      :- SetClaimFiles(linked, g);
      :- SetClaimFiles(linked - {Scratch(0)}, g);
      r := Fine;
    }

    method FillClaim(snapshot: TransactionSnapshot, ghost g: Origin) returns (r: Status)
      requires Settled(site, disk, g, RollingBack) && snapshot == SnapshotOf(site, g) && disk.tx.value.claim.Some?
      modifies this
      ensures Settled(site, disk, g, RollingBack) && disk.tx.value.claim.Some?
      ensures disk == WithClaim(old(disk), Some(old(disk.tx.value.claim.value).(files := disk.tx.value.claim.value.files)))
      ensures r.Fine? ==> disk.tx.value.claim.value.files == g.stage.files
      ensures old(fate) == [] ==> r.Fine? && fate == []
    {
      r := Fine;
      :- EmptyClaim(g);
      :- WriteCredential(TriggerAdmin, snapshot.options[TriggerAdmin], g);
      :- WriteCredential(Migrator, snapshot.options[Migrator], g);
      BothCredentials(g.stage.files, disk.tx.value.claim.value.files);
      r := Fine;
    }

    // Whoever owns it, the directory inside the transaction is root's again.
    method TakeBack(snapshot: TransactionSnapshot, ghost g: Origin) returns (r: Status)
      requires Settled(site, disk, g, RollingBack) && snapshot == SnapshotOf(site, g) && disk.tx.value.claim.Some?
      modifies this
      ensures Settled(site, disk, g, RollingBack) && disk.tx.value.claim.Some?
      ensures disk == WithClaim(old(disk), disk.tx.value.claim)
      ensures r.Fine? ==> (disk.tx.value.claim.value.uid, disk.tx.value.claim.value.gid) == (ROOT_UID, ROOT_GID)
      ensures old(fate) == [] ==> r.Fine? && fate == []
    {
      if !ClaimValid(site.ids, disk.tx.value, snapshot, true) {
        return Raised(ClaimBoundary);
      }
      r := Fine;
      if (disk.tx.value.claim.value.uid, disk.tx.value.claim.value.gid) != (ROOT_UID, ROOT_GID) {
        r := SetClaimOwner(ROOT_UID, ROOT_GID, g, RollingBack);
      }
    }

    // Refills the claimed directory and hands it back to the deploy user.
    method RefillClaim(snapshot: TransactionSnapshot, ghost g: Origin) returns (r: Status)
      requires Settled(site, disk, g, RollingBack) && snapshot == SnapshotOf(site, g) && disk.tx.value.claim.Some?
      modifies this
      ensures Settled(site, disk, g, RollingBack) && disk.tx.value.claim.Some?
      ensures disk == WithClaim(old(disk), disk.tx.value.claim)
      ensures r.Fine? ==> disk.tx.value.claim == Some(g.stage)
      ensures old(fate) == [] ==> r.Fine? && fate == []
    {
      r := Fine;
      :- TakeBack(snapshot, g);
      :- FillClaim(snapshot, g);
      :- SetClaimOwner(site.ids.deployUid, site.ids.deployGid, g, RollingBack);
      r := Fine;
    }

    // The refilled directory goes back to its old path, which must be free.
    method ReturnStage(ghost g: Origin) returns (r: Status)
      requires Settled(site, disk, g, RollingBack) && disk.tx.value.claim == Some(g.stage)
      modifies this
      ensures Settled(site, disk, g, RollingBack)
      ensures disk == if r.Fine? then WithClaim(old(disk), None).(stage := Some(g.stage)) else old(disk)
      ensures old(fate) == [] ==> r.Fine? && fate == []
    {
      ReturnStageKeepsSettled(site, disk, g);
      if disk.stage.Some? {
        return Raised(RollbackStage);
      }
      :- Step();
      disk := WithClaim(disk.(stage := disk.tx.value.claim), None);
      r := Fine;
    }

    /** `_rebuild_claim`: the same directory, with the snapshot's payloads, at its old path. */
    method RebuildClaim(snapshot: TransactionSnapshot, ghost g: Origin) returns (r: Status)
      requires Settled(site, disk, g, RollingBack) && snapshot == SnapshotOf(site, g)
      modifies this
      ensures Settled(site, disk, g, RollingBack)
      ensures disk == WithClaim(old(disk), disk.tx.value.claim).(stage := disk.stage)
      ensures r.Fine? ==> disk.stage == Some(g.stage)
      ensures old(fate) == [] ==> r.Fine? && fate == []
    {
      if disk.tx.value.claim.Some? {
        :- RefillClaim(snapshot, g);
        :- ReturnStage(g);
      }
      r := CheckReturned(snapshot, g);
    }

    // The directory is back and holds what was snapshotted.
    method CheckReturned(snapshot: TransactionSnapshot, ghost g: Origin) returns (r: Status)
      requires Settled(site, disk, g, RollingBack) && snapshot == SnapshotOf(site, g) && disk.tx.value.claim.None?
      ensures r.Fine? && disk.stage == Some(g.stage)
    {
      if disk.stage.None?
         || (disk.stage.value.uid, disk.stage.value.gid) != (site.ids.deployUid, site.ids.deployGid)
         || disk.stage.value.ino != snapshot.meta.stageIno
         || !HoldsCredentials(site, disk.stage.value.files, snapshot) {
        return Raised(RollbackStage);
      }
      r := Fine;
    }

    // The application directory part of `_finish_rollback`.
    method RestoreApp(snapshot: TransactionSnapshot, ghost g: Origin) returns (r: Status)
      requires Settled(site, disk, g, RollingBack) && snapshot == SnapshotOf(site, g)
      modifies this
      ensures Settled(site, disk, g, RollingBack) && disk == old(disk).(app := disk.app)
      ensures r.Fine? ==> disk.app == g.app
      ensures old(fate) == [] ==> r.Fine? && fate == []
    {
      if disk.app != snapshot.meta.app {
        if disk.app != RootApp() {
          return Raised(AppBoundary);
        }
        :- Step();
        disk := disk.(app := disk.app.(uid := snapshot.meta.app.uid, gid := snapshot.meta.app.gid));
        :- Step();
        disk := disk.(app := disk.app.(mode := snapshot.meta.app.mode));
      }
      r := Fine;
    }

    // Everything `_finish_rollback` undoes, before it retires the transaction.
    method UndoAll(snapshot: TransactionSnapshot, ghost g: Origin) returns (r: Status)
      requires Settled(site, disk, g, RollingBack) && snapshot == SnapshotOf(site, g) && Quiet(disk)
      modifies this
      ensures Settled(site, disk, g, RollingBack) && Quiet(disk) && disk.nextIno == old(disk.nextIno)
      ensures disk.tx.value.ino == old(disk.tx.value.ino)
      ensures r.Fine? ==> disk.env == g.env && disk.envTemp.None? && disk.app == g.app && disk.targets == map[]
                          && disk.stage == Some(g.stage)
      ensures !TempUsable(old(disk)) ==> !r.Fine? && disk.envTemp == old(disk.envTemp)
      ensures old(fate) == [] ==> fate == [] && !r.Lost? && (r.Fine? <==> TempUsable(old(disk)))
    {
      r := Fine;
      :- RemoveTargets(snapshot, g);
      :- RestoreEnv(snapshot, g);
      :- RebuildClaim(snapshot, g);
      :- RestoreApp(snapshot, g);
      r := Fine;
    }

    // The rename that ends `_finish_rollback`, and the purge after it.
    method RetireRollback(ghost g: Origin) returns (r: Status)
      requires Settled(site, disk, g, RollingBack) && Quiet(disk)
      requires disk.env == g.env && disk.envTemp.None? && disk.app == g.app && disk.targets == map[] && disk.stage == Some(g.stage)
      modifies this
      ensures Inv(site, disk, g) && disk.committed.None? && disk.nextIno == old(disk.nextIno)
      ensures disk.tx.Some? ==> disk == old(disk)
      ensures disk.tx.None? ==> IsOriginal(disk, g)
      ensures r.Fine? ==> IsOriginal(disk, g) && Quiet(disk)
      ensures old(fate) == [] ==> r.Fine? && fate == []
    {
      if disk.rolledBack.Some? {
        return Raised(ConflictingContainers);
      }
      :- Step();
      RollbackRenameKeepsInv(site, disk, g);
      disk := disk.(tx := None, rolledBack := disk.tx);
      r := Purge(RolledBack, g);
    }

    /** `_finish_rollback`. */
    method FinishRollback(snapshot: TransactionSnapshot, ghost g: Origin, ghost s: State) returns (r: Status)
      requires Settled(site, disk, g, s) && snapshot == SnapshotOf(site, g) && Quiet(disk) && s != Committing
      modifies this
      ensures Inv(site, disk, g) && disk.committed.None? && disk.nextIno == old(disk.nextIno)
      ensures disk.tx.Some? ==> disk.tx.value.ino == old(disk.tx.value.ino)
                                && (Effective(disk.tx.value) == Some(s) || Effective(disk.tx.value) == Some(RollingBack))
      ensures disk.tx.None? ==> IsOriginal(disk, g)
      ensures r.Fine? ==> IsOriginal(disk, g) && Quiet(disk)
      ensures !TempUsable(old(disk)) ==> !r.Fine? && disk.envTemp == old(disk.envTemp)
      ensures old(fate) == [] ==> fate == [] && !r.Lost? && (r.Fine? <==> TempUsable(old(disk)))
    {
      r := Fine;
      :- WriteState(RollingBack, g);
      :- UndoAll(snapshot, g);
      r := RetireRollback(g);
    }

    /* ---------- starting a transaction ---------- */

    method SetBuild(c: Container, ino: nat, ghost g: Origin) returns (r: Status)
      requires Inv(site, disk, g) && ino >= disk.nextIno
      modifies this
      ensures Inv(site, disk, g)
      ensures disk == if r.Fine? then old(disk).(build := Some(c), nextIno := ino) else old(disk)
      ensures old(fate) == [] ==> r.Fine? && fate == []
    {
      r := Fine;
      :- Step();
      BuildKeepsInv(site, disk, g, c, ino);
      disk := disk.(build := Some(c), nextIno := ino);
      r := Fine;
    }

    // One file of the new transaction directory, written under a temporary name first.
    method BuildWrite(item: BuildItem, c: Container, ghost g: Origin) returns (r: Status)
      requires Inv(site, disk, g) && disk.build == Some(c) && c.temporary.None?
      modifies this
      ensures Inv(site, disk, g) && disk.build.Some? && disk == old(disk).(build := disk.build, nextIno := disk.nextIno)
      ensures disk.nextIno >= old(disk.nextIno)
      ensures r.Fine? ==> disk.build == Some(Placed(c, item, old(disk.nextIno))) && disk.nextIno == old(disk.nextIno) + 1
      ensures old(fate) == [] ==> r.Fine? && fate == []
    {
      var ino := disk.nextIno;
      var temporary := Some(Node(ino, ""));
      :- SetBuild(c.(temporary := temporary), ino + 1, g);
      :- SetBuild(Placed(c, item, ino).(temporary := temporary), ino + 1, g);
      :- SetBuild(Placed(c, item, ino), ino + 1, g);
      r := Fine;
    }

    // The six files of a new transaction, the state last.
    method BuildFiles(items: seq<BuildItem>, first: Container, ghost g: Origin) returns (r: Status)
      requires Inv(site, disk, g) && disk.build == Some(first) && first.temporary.None?
      modifies this
      ensures Inv(site, disk, g) && disk.build.Some? && disk == old(disk).(build := disk.build, nextIno := disk.nextIno)
      ensures disk.nextIno >= old(disk.nextIno)
      ensures r.Fine? ==> disk.build == Some(PlacedAll(first, items, old(disk.nextIno)))
                          && disk.nextIno == old(disk.nextIno) + |items|
      ensures old(fate) == [] ==> r.Fine? && fate == []
    {
      var i := 0;
      ghost var before := disk;
      assert items[..0] == [];
      while i < |items|
        invariant 0 <= i <= |items|
        invariant Inv(site, disk, g) && BuiltUpTo(before, disk, first, items, i)
        invariant old(fate) == [] ==> fate == []
      {
        :- BuildNext(before, items, i, first, g);
        i := i + 1;
      }
      assert items[..i] == items;
      r := Fine;
    }

    method BuildNext(ghost before: Disk, items: seq<BuildItem>, i: nat, ghost first: Container, ghost g: Origin) returns (r: Status)
      requires Inv(site, disk, g) && i < |items| && first.temporary.None? && BuiltUpTo(before, disk, first, items, i)
      modifies this
      ensures Inv(site, disk, g) && disk.build.Some? && disk == before.(build := disk.build, nextIno := disk.nextIno)
      ensures disk.nextIno >= before.nextIno
      ensures r.Fine? ==> BuiltUpTo(before, disk, first, items, i + 1)
      ensures old(fate) == [] ==> r.Fine? && fate == []
    {
      NextPlaced(first, items, i, before.nextIno);
      r := BuildWrite(items[i], disk.build.value, g);
    }

    /** `_create_transaction`, up to the rename that starts the transaction. */
    method BuildTransaction(ghost g: Origin) returns (r: Status)
      requires Inv(site, disk, g) && IsOriginal(disk, g) && Installable(site, g) && disk.build.None?
      modifies this
      ensures Inv(site, disk, g) && disk.nextIno >= old(disk.nextIno) && disk.rolledBack == old(disk.rolledBack)
      ensures disk.env == old(disk.env)
      ensures disk.tx.None? ==> IsOriginal(disk, g) && !r.Fine?
      ensures disk.tx.Some? ==> disk.build.None? && Settled(site, disk, g, Snapshot) && disk.tx.value.ino >= old(disk.nextIno)
                                && disk.envTemp.None?
      ensures old(fate) == [] ==> r.Fine? && fate == []
    {
      var snapshot := SnapshotOf(site, Origin(disk.env, disk.app, disk.stage.value));
      :- Step();
      var first := NewContainer(disk.nextIno);
      BuildKeepsInv(site, disk, g, first, disk.nextIno + 1);
      disk := disk.(build := Some(first), nextIno := disk.nextIno + 1);
      ghost var firstIno := disk.nextIno;
      r := BuildFiles(ItemsOf(snapshot), first, g);
      if r.Fine? {
        r := Step();
      }
      if r.Fine? {
        PlacedAllIs(snapshot, first.ino, firstIno);
        StartKeepsInv(site, disk, g, disk.build.value, firstIno);
        disk := disk.(build := None, tx := disk.build);
        r := Step();
      }
    }

    /** `_create_transaction`: an exception before the rename removes what was built. */
    method CreateTransaction(ghost g: Origin) returns (r: Status)
      requires Inv(site, disk, g) && IsOriginal(disk, g) && Installable(site, g) && Quiet(disk)
      modifies this
      ensures Inv(site, disk, g) && disk.nextIno >= old(disk.nextIno)
      ensures disk.env == old(disk.env)
      ensures disk.tx.None? ==> IsOriginal(disk, g) && !r.Fine?
      ensures disk.tx.Some? ==> Quiet(disk) && Settled(site, disk, g, Snapshot) && disk.tx.value.ino >= old(disk.nextIno)
                                && disk.envTemp.None?
      ensures old(fate) == [] ==> r.Fine? && fate == []
    {
      r := BuildTransaction(g);
      if r.Raised? && disk.build.Some? {
        var purged := Purge(Building, g);
        if !purged.Fine? {
          return purged;
        }
      }
    }

    /* ---------- one run of the installer ---------- */

    /** `_cleanup_interrupted_containers`. */
    method CleanUp(ghost g: Origin) returns (r: Status)
      requires Inv(site, disk, g)
      modifies this
      ensures Inv(site, disk, g) && disk == old(disk).(build := disk.build, rolledBack := disk.rolledBack)
      ensures r.Fine? ==> Quiet(disk)
      ensures old(fate) == [] ==> r.Fine? && fate == []
    {
      r := Fine;
      :- Purge(Building, g);
      :- Purge(RolledBack, g);
      r := Fine;
    }

    // Load, then finish a commit that was already decided.
    method FinishDecided(snapshot: TransactionSnapshot, ghost g: Origin) returns (r: Status, mode: Mode)
      requires Settled(site, disk, g, Committing) && snapshot == SnapshotOf(site, g) && Pinning(site) && Quiet(disk)
      modifies this
      ensures Inv(site, disk, g) && Allowed(old(disk), disk) && disk.envTemp == old(disk.envTemp)
      ensures r.Fine? ==> mode == RecoveredCommit && IsInstalled(site, disk, g) && InstalledValid(site, disk, {1})
      ensures old(fate) == [] ==> r.Fine? && fate == []
    {
      mode := RecoveredCommit;
      r := FinishCommit(snapshot, g, Committing);
      TransactionMoves(site, old(disk), disk, g);
    }

    // Without a transaction: both targets are there and the installation is valid.
    method CheckInstalled(ghost g: Origin) returns (r: Status)
      requires Inv(site, disk, g) && Pinning(site) && Quiet(disk) && disk.tx.None? && disk.committed.None?
      ensures r.Fine? <==> CommitDecided(disk)
      ensures r.Fine? ==> IsInstalled(site, disk, g) && InstalledValid(site, disk, {1})
      ensures !r.Lost?
    {
      OutcomesExclusive(site, disk, g);
      if TriggerAdmin !in disk.targets || Migrator !in disk.targets {
        return Raised(NotInstalled);
      }
      LiveIsValid(site, disk, g);
      r := if InstalledValid(site, disk, {1}) then Fine else Raised(InstalledDrift);
    }

    method RunVerify(ghost g: Origin) returns (r: Status, mode: Mode)
      requires Inv(site, disk, g) && Pinning(site) && Quiet(disk) && disk.committed.None?
      modifies this
      ensures Inv(site, disk, g) && Allowed(old(disk), disk) && disk.envTemp == old(disk.envTemp)
      ensures r.Fine? ==> mode in {RecoveredCommit, Verified} && Delivered(mode, g)
      ensures old(fate) == [] ==> fate == [] && !r.Lost? && CompletesAsPromised(Verify, old(disk), g, r, mode)
      ensures Respects(site, Verify, old(disk), disk, g)
    {
      mode := Verified;
      if disk.tx.Some? {
        r, mode := VerifyTransaction(g);
        return;
      }
      r := CheckInstalled(g);
    }

    // With a transaction on disk only a decided commit verifies, once it is finished.
    method VerifyTransaction(ghost g: Origin) returns (r: Status, mode: Mode)
      requires Inv(site, disk, g) && Pinning(site) && Quiet(disk) && disk.tx.Some?
      modifies this
      ensures Inv(site, disk, g) && Allowed(old(disk), disk) && disk.envTemp == old(disk.envTemp)
      ensures r.Fine? ==> mode == RecoveredCommit && Delivered(mode, g)
      ensures Respects(site, Verify, old(disk), disk, g)
      ensures old(fate) == [] ==> fate == [] && !r.Lost? && (r.Fine? <==> CommitDecided(old(disk)))
    {
      mode := Verified;
      var snapshot, st :- Load(g);
      if st == Committing {
        r, mode := FinishDecided(snapshot, g);
        return;
      }
      r := Raised(Pending);
    }

    // The transaction on disk is rolled back, unless a commit is decided: then it is finished.
    method RollBackTransaction(ghost g: Origin) returns (r: Status, mode: Mode)
      requires Inv(site, disk, g) && Pinning(site) && Quiet(disk) && disk.tx.Some?
      modifies this
      ensures Inv(site, disk, g) && Allowed(old(disk), disk)
      ensures r.Fine? ==> mode == if CommitDecided(old(disk)) then RecoveredCommit else RanRollback
      ensures r.Fine? ==> Delivered(mode, g)
      ensures !TempUsable(old(disk)) ==> disk.envTemp == old(disk.envTemp)
      ensures old(fate) == [] ==> fate == [] && !r.Lost? && (r.Fine? <==> TempUsable(old(disk)))
      ensures CommitDecided(disk) ==> CommitDecided(old(disk))
    {
      mode := RanRollback;
      var snapshot, st :- Load(g);
      ghost var loaded := disk;
      if st == Committing {
        r, mode := FinishDecided(snapshot, g);
        AllowedTransitive(old(disk), loaded, disk);
      } else {
        r := FinishRollback(snapshot, g, st);
        TransactionMoves(site, old(disk), disk, g);
      }
    }

    method RunRollback(ghost g: Origin) returns (r: Status, mode: Mode)
      requires Inv(site, disk, g) && Pinning(site) && Quiet(disk) && disk.committed.None?
      modifies this
      ensures Inv(site, disk, g) && Allowed(old(disk), disk)
      ensures r.Fine? ==> Delivered(mode, g) && mode in (if CommitDecided(old(disk)) then {RecoveredCommit, AlreadyCommitted} else {RanRollback, NotStarted})
      ensures !TempUsable(old(disk)) ==> disk.envTemp == old(disk.envTemp)
      ensures old(fate) == [] ==> fate == [] && !r.Lost? && CompletesAsPromised(Rollback, old(disk), g, r, mode)
      ensures Respects(site, Rollback, old(disk), disk, g)
    {
      mode := RanRollback;
      if disk.tx.Some? {
        r, mode := RollBackTransaction(g);
        return;
      }
      OutcomesExclusive(site, disk, g);
      if TriggerAdmin in disk.targets && Migrator in disk.targets {
        LiveIsValid(site, disk, g);
        r := if InstalledValid(site, disk, {1}) then Fine else Raised(InstalledDrift);
        mode := AlreadyCommitted;
      } else {
        r, mode := Fine, NotStarted;
      }
    }

    method RunCommit(ghost g: Origin) returns (r: Status, mode: Mode)
      requires Inv(site, disk, g) && Pinning(site) && Quiet(disk) && disk.committed.None?
      modifies this
      ensures Inv(site, disk, g) && Allowed(old(disk), disk) && disk.envTemp == old(disk.envTemp)
      ensures r.Fine? ==> mode in {RanCommitted, AlreadyCommitted} && Delivered(mode, g)
      ensures old(fate) == [] ==> fate == [] && !r.Lost? && CompletesAsPromised(Commit, old(disk), g, r, mode)
      ensures Respects(site, Commit, old(disk), disk, g)
    {
      mode := RanCommitted;
      if disk.tx.None? {
        r := CheckInstalled(g);
        return r, AlreadyCommitted;
      }
      r := CommitTransaction(g);
    }

    // The transaction on disk is committed, unless a rollback is decided.
    method CommitTransaction(ghost g: Origin) returns (r: Status)
      requires Inv(site, disk, g) && Pinning(site) && Quiet(disk) && disk.tx.Some?
      modifies this
      ensures Inv(site, disk, g) && Allowed(old(disk), disk) && disk.envTemp == old(disk.envTemp)
      ensures r.Fine? ==> IsInstalled(site, disk, g) && InstalledValid(site, disk, {1})
      ensures old(fate) == [] ==> fate == [] && !r.Lost? && (r.Fine? <==> CommitDecided(old(disk)) || CommitPossible(site, old(disk), g))
      ensures old(fate) == [] && ReadyToCommit(old(disk)) ==> r.Fine?
      ensures Respects(site, Commit, old(disk), disk, g)
    {
      var snapshot, st :- Load(g);
      if st == RollingBack {
        return Raised(IsRollingBack);
      }
      r := FinishCommit(snapshot, g, st);
      TransactionMoves(site, old(disk), disk, g);
    }

    // Loads the latest state and, unless it is committing, rolls back.
    method Undo(ghost g: Origin) returns (r: Status)
      requires Inv(site, disk, g) && disk.tx.Some? && Quiet(disk) && Effective(disk.tx.value) != Some(Committing)
      modifies this
      ensures Inv(site, disk, g) && Allowed(old(disk), disk)
      ensures disk.committed.None?
      ensures r.Fine? ==> IsOriginal(disk, g) && Quiet(disk)
      ensures !TempUsable(old(disk)) ==> !r.Fine? && disk.envTemp == old(disk.envTemp)
      ensures old(fate) == [] ==> fate == [] && !r.Lost? && (r.Fine? <==> TempUsable(old(disk)))
      ensures CommitDecided(disk) ==> CommitDecided(old(disk))
    {
      var snapshot, st :- Load(g);
      if st != Committing {
        r := FinishRollback(snapshot, g, st);
      }
      TransactionMoves(site, old(disk), disk, g);
    }

    // Resume, and on an exception roll back what the latest state allows.
    method ResumeOrUndo(snapshot: TransactionSnapshot, st: State, ghost g: Origin) returns (r: Status)
      requires Settled(site, disk, g, st) && snapshot == SnapshotOf(site, g) && Quiet(disk) && Undecided(st)
      modifies this
      ensures Inv(site, disk, g) && Allowed(old(disk), disk)
      ensures r.Fine? ==> Settled(site, disk, g, Prepared)
      ensures r.Fine? ==> Continues(old(disk), disk)
      ensures !TempUsable(old(disk)) ==> !r.Fine? && disk.envTemp == old(disk.envTemp)
      ensures old(fate) == [] ==> fate == [] && !r.Lost? && (r.Fine? <==> TempUsable(old(disk)))
      ensures CommitDecided(disk) ==> CommitDecided(old(disk))
    {
      r := ResumePrepare(snapshot, st, g);
      TransactionMoves(site, old(disk), disk, g);
      if r.Raised? {
        ghost var middle := disk;
        var undone := Undo(g);
        AllowedTransitive(old(disk), middle, disk);
        if !undone.Fine? {
          r := if undone.Lost? then Lost else Raised(RollbackIncomplete);
        }
      }
    }

    // The part of a prepare that finds a transaction on disk. `over` tells that it was undone
    // and a new one may start.
    method ContinuePrepare(ghost g: Origin) returns (r: Status, mode: Mode, over: bool)
      requires Inv(site, disk, g) && Pinning(site) && Quiet(disk) && disk.tx.Some?
      modifies this
      ensures Inv(site, disk, g) && Allowed(old(disk), disk)
      ensures over && r.Fine? ==> IsOriginal(disk, g) && Quiet(disk)
      ensures !over && r.Fine? ==> mode in {RanPrepared, RecoveredCommit} && Delivered(mode, g)
      ensures !over && r.Fine? && mode == RanPrepared ==> Continues(old(disk), disk)
      ensures over ==> !Continuable(old(disk))
      ensures !TempUsable(old(disk)) && !CommitDecided(old(disk)) ==> !r.Fine?
      ensures !TempUsable(old(disk)) ==> disk.envTemp == old(disk.envTemp)
      ensures old(fate) == [] ==> fate == [] && !r.Lost? && (CommitDecided(old(disk)) || TempUsable(old(disk)) ==> r.Fine?)
      ensures old(fate) == [] && r.Fine? ==> (CommitDecided(old(disk)) <==> !over && mode == RecoveredCommit)
      ensures CommitDecided(disk) ==> CommitDecided(old(disk))
    {
      mode, over := RanPrepared, false;
      var snapshot, st :- Load(g);
      ghost var loaded := disk;
      if st == Committing {
        r, mode := FinishDecided(snapshot, g);
      } else if st != RollingBack {
        r := ResumeOrUndo(snapshot, st, g);
      } else {
        over := true;
        r := FinishRollback(snapshot, g, st);
        TransactionMoves(site, loaded, disk, g);
      }
      AllowedTransitive(old(disk), loaded, disk);
    }

    method RunPrepare(ghost g: Origin) returns (r: Status, mode: Mode)
      requires Inv(site, disk, g) && Pinning(site) && Quiet(disk) && disk.committed.None?
      modifies this
      ensures Inv(site, disk, g) && Allowed(old(disk), disk)
      ensures r.Fine? ==> mode in {RanPrepared, RecoveredCommit, AlreadyInstalled} && Delivered(mode, g)
      ensures r.Fine? && mode == RanPrepared ==> Continues(old(disk), disk)
      ensures !TempUsable(old(disk)) ==> (!CommitDecided(old(disk)) ==> !r.Fine?) && disk.envTemp == old(disk.envTemp)
      ensures old(fate) == [] ==> fate == [] && !r.Lost? && CompletesAsPromised(Prepare, old(disk), g, r, mode)
      ensures Respects(site, Prepare, old(disk), disk, g)
    {
      if disk.tx.None? {
        r, mode := StartPrepare(g);
      } else {
        r, mode := ContinueOrStartOver(g);
      }
    }

    // A transaction that is being rolled back is finished with, and a new one started.
    method ContinueOrStartOver(ghost g: Origin) returns (r: Status, mode: Mode)
      requires Inv(site, disk, g) && Pinning(site) && Quiet(disk) && disk.tx.Some?
      modifies this
      ensures Inv(site, disk, g) && Allowed(old(disk), disk)
      ensures r.Fine? ==> mode in {RanPrepared, RecoveredCommit, AlreadyInstalled} && Delivered(mode, g)
      ensures r.Fine? && mode == RanPrepared ==> Continues(old(disk), disk)
      ensures !TempUsable(old(disk)) ==> (!CommitDecided(old(disk)) ==> !r.Fine?) && disk.envTemp == old(disk.envTemp)
      ensures old(fate) == [] ==> fate == [] && !r.Lost? && CompletesAsPromised(Prepare, old(disk), g, r, mode)
      ensures CommitDecided(disk) ==> CommitDecided(old(disk))
    {
      var over;
      r, mode, over := ContinuePrepare(g);
      if r.Fine? && over {
        ghost var middle := disk;
        r, mode := StartPrepare(g);
        AllowedTransitive(old(disk), middle, disk);
      }
    }

    // The part of a prepare that finds no transaction on disk.
    method StartPrepare(ghost g: Origin) returns (r: Status, mode: Mode)
      requires Inv(site, disk, g) && Pinning(site) && Quiet(disk) && disk.committed.None? && disk.tx.None?
      modifies this
      ensures Inv(site, disk, g) && Allowed(old(disk), disk)
      ensures r.Fine? ==> mode in {RanPrepared, AlreadyInstalled} && Delivered(mode, g)
      ensures r == Raised(PreflightFailed) && !CommitDecided(old(disk)) && old(fate) == [] ==> disk == old(disk)
      ensures old(fate) == [] ==> fate == [] && !r.Lost?
      ensures old(fate) == [] && CommitDecided(old(disk)) ==> r.Fine? && mode == AlreadyInstalled
      ensures old(fate) == [] && !CommitDecided(old(disk)) ==> mode == RanPrepared && (r.Fine? <==> Installable(site, g))
      ensures CommitDecided(disk) ==> CommitDecided(old(disk))
      ensures !CommitDecided(old(disk)) && !Installable(site, g) ==> disk == old(disk)
    {
      mode := RanPrepared;
      OutcomesExclusive(site, disk, g);
      if TriggerAdmin in disk.targets && Migrator in disk.targets {
        LiveIsValid(site, disk, g);
        return (if InstalledValid(site, disk, {1}) then Fine else Raised(InstalledDrift)), AlreadyInstalled;
      }
      if disk.targets != map[] {
        return Raised(Partial), RanPrepared;
      }
      if disk.envTemp.Some? || disk.stage.None? || !Installable(site, Origin(disk.env, disk.app, disk.stage.value)) {
        return Raised(PreflightFailed), RanPrepared;
      }
      :- CreateTransaction(g);
      ghost var created := disk;
      r := ResumeCreated(g);
      AllowedTransitive(old(disk), created, disk);
    }

    // The transaction just created is loaded and resumed.
    method ResumeCreated(ghost g: Origin) returns (r: Status)
      requires Settled(site, disk, g, Snapshot) && Pinning(site) && Quiet(disk)
      modifies this
      ensures Inv(site, disk, g) && Allowed(old(disk), disk)
      ensures r.Fine? ==> Settled(site, disk, g, Prepared)
      ensures old(fate) == [] ==> fate == [] && !r.Lost? && (r.Fine? <==> TempUsable(old(disk)))
      ensures CommitDecided(disk) ==> CommitDecided(old(disk))
    {
      var snapshot, st :- Load(g);
      ghost var loaded := disk;
      r := ResumeOrUndo(snapshot, st, g);
      AllowedTransitive(old(disk), loaded, disk);
    }

    // What a run that returns normally has established.
    predicate Delivered(mode: Mode, g: Origin)
      reads this
    {
      match mode
      case RanPrepared => Settled(site, disk, g, Prepared)
      case RanRollback => IsOriginal(disk, g)
      case NotStarted => IsOriginal(disk, g)
      case _ => IsInstalled(site, disk, g) && InstalledValid(site, disk, {1})
    }

    // Whatever the action, a committed directory on disk is purged first.
    method FinishInterruptedCommit(ghost g: Origin) returns (r: Status, mode: Mode)
      requires Inv(site, disk, g) && Pinning(site) && Quiet(disk) && disk.committed.Some?
      modifies this
      ensures Inv(site, disk, g) && Allowed(old(disk), disk) && disk.envTemp == old(disk.envTemp)
      ensures mode == RecoveredCommit
      ensures r.Fine? ==> Delivered(mode, g)
      ensures old(fate) == [] ==> fate == [] && r.Fine?
    {
      mode := RecoveredCommit;
      r := RecoverCommitted(g);
      if disk.committed.None? {
        OutcomesExclusive(site, disk, g);
      }
    }

    // The action itself, once the clean-up is over.
    method Dispatch(action: Action, ghost g: Origin) returns (r: Status, mode: Mode)
      requires Inv(site, disk, g) && Pinning(site) && Quiet(disk) && disk.committed.None?
      modifies this
      ensures Inv(site, disk, g) && Allowed(old(disk), disk)
      ensures r.Fine? ==> Delivered(mode, g)
      ensures r.Fine? && mode == RanPrepared ==> Continues(old(disk), disk)
      ensures !TempUsable(old(disk)) ==> disk.envTemp == old(disk.envTemp)
      ensures old(fate) == [] ==> fate == [] && !r.Lost? && CompletesAsPromised(action, old(disk), g, r, mode)
      ensures Respects(site, action, old(disk), disk, g)
    {
      match action
      case Prepare => r, mode := RunPrepare(g);
      case Commit => r, mode := RunCommit(g);
      case Rollback => r, mode := RunRollback(g);
      case Verify => r, mode := RunVerify(g);
    }

    /** When an uninterrupted run succeeds. */
    predicate CompletesAsPromised(action: Action, before: Disk, g: Origin, r: Status, mode: Mode) {
      match action
      case Prepare =>
        && (CommitDecided(before) ==> r.Fine? && mode != RanPrepared && !Undone(mode))
        && (!CommitDecided(before) ==>
              (r.Fine? <==> Installable(site, g) && TempUsable(before)) && (r.Fine? ==> mode == RanPrepared))
      case Commit =>
        && (r.Fine? <==> CommitDecided(before) || CommitPossible(site, before, g)) && (ReadyToCommit(before) ==> r.Fine?)
        && (r.Fine? ==> !Undone(mode) && mode != RanPrepared)
      case Rollback => (r.Fine? <==> TempUsable(before)) && (r.Fine? ==> mode != RanPrepared && (Undone(mode) <==> !CommitDecided(before)))
      case Verify => (r.Fine? <==> CommitDecided(before)) && (r.Fine? ==> !Undone(mode) && mode != RanPrepared)
    }

    // The run after the clean-up.
    method RunCleaned(action: Action, ghost g: Origin) returns (r: Status, mode: Mode)
      requires Inv(site, disk, g) && Pinning(site) && Quiet(disk)
      modifies this
      ensures Inv(site, disk, g) && Allowed(old(disk), disk)
      ensures r.Fine? ==> Delivered(mode, g)
      ensures r.Fine? && mode == RanPrepared ==> Continues(old(disk), disk)
      ensures !TempUsable(old(disk)) ==> disk.envTemp == old(disk.envTemp)
      ensures old(fate) == [] ==> fate == [] && !r.Lost? && CompletesAsPromised(action, old(disk), g, r, mode)
      ensures Respects(site, action, old(disk), disk, g)
    {
      if disk.tx.Some? && disk.committed.Some? {
        return Raised(ConflictingContainers), NothingDone;
      }
      if disk.committed.Some? {
        r, mode := FinishInterruptedCommit(g);
        return;
      }
      if (TriggerAdmin in disk.targets) != (Migrator in disk.targets) && disk.tx.None? {
        return Raised(Partial), NothingDone;
      }
      r, mode := Dispatch(action, g);
    }

    /** `run`, on whatever an earlier run left. */
    method Run(action: Action, ghost g: Origin) returns (r: Status, mode: Mode)
      requires Inv(site, disk, g) && Pinning(site)
      modifies this
      ensures Inv(site, disk, g) && Allowed(old(disk), disk)
      ensures r.Fine? ==> Delivered(mode, g)
      ensures r.Fine? && mode == RanPrepared ==> Continues(old(disk), disk)
      ensures !TempUsable(old(disk)) ==> disk.envTemp == old(disk.envTemp)
      ensures old(fate) == [] ==> fate == [] && !r.Lost? && CompletesAsPromised(action, old(disk), g, r, mode)
      ensures Respects(site, action, old(disk), disk, g)
    {
      mode := NothingDone;
      r := CleanUp(g);
      ghost var cleaned := disk;
      CleanUpDecidesNothing(old(disk), cleaned);
      if r.Fine? {
        r, mode := RunCleaned(action, g);
        AllowedTransitive(old(disk), cleaned, disk);
        RespectsAfterCleanUp(site, action, old(disk), cleaned, disk, g);
      } else {
        UntouchedRespects(site, action, old(disk), disk, g);
      }
    }

    /** Any runs whatever, each cut off wherever its fate says. */
    method RunAll(plan: seq<(Action, seq<Fate>)>, ghost g: Origin)
      requires Inv(site, disk, g) && Pinning(site)
      modifies this
      ensures Inv(site, disk, g) && Allowed(old(disk), disk)
      ensures !TempUsable(old(disk)) ==> disk.envTemp == old(disk.envTemp)
    {
      var i := 0;
      while i < |plan|
        invariant 0 <= i <= |plan|
        invariant Inv(site, disk, g) && Allowed(old(disk), disk)
        invariant !TempUsable(old(disk)) ==> disk.envTemp == old(disk.envTemp)
      {
        ghost var before := disk;
        fate := plan[i].1;
        var _, _ := Run(plan[i].0, g);
        AllowedTransitive(old(disk), before, disk);
        i := i + 1;
      }
    }

    /** Crash atomicity: from the untouched machine, through any runs and crashes, one
        uninterrupted rollback lands on exactly the original or exactly the installation,
        and which one was fixed by the decision already on disk. */
    method RecoverAfter(plan: seq<(Action, seq<Fate>)>, ghost g: Origin) returns (r: Status, ghost decided: bool)
      requires Inv(site, disk, g) && IsOriginal(disk, g) && Pinning(site)
      modifies this
      ensures r.Fine? && decided ==> IsInstalled(site, disk, g) && InstalledValid(site, disk, {1})
      ensures r.Fine? && !decided ==> IsOriginal(disk, g)
      ensures site.freshEnvMode == ENV_MODE ==> r.Fine?
    {
      RunAll(plan, g);
      if site.freshEnvMode == ENV_MODE {
        UmaskKeepsTempUsable(site, disk, g);
      }
      decided := CommitDecided(disk);
      fate := [];
      var mode;
      r, mode := Run(Rollback, g);
    }

    // A first prepare, stopped just before it replaces the env file.
    method PrepareUpToEnv(ghost g: Origin) returns (r: Status, file: EnvFile)
      requires Inv(site, disk, g) && IsOriginal(disk, g) && Quiet(disk) && Installable(site, g)
      modifies this
      ensures Inv(site, disk, g)
      ensures r.Fine? ==> Settled(site, disk, g, Claimed) && disk.env == g.env && disk.envTemp.None?
      ensures r.Fine? ==> file == InstalledEnv(site, g)
      ensures old(fate) == [] ==> r.Fine?
    {
      file := disk.env;
      :- CreateTransaction(g);
      var snapshot, st :- Load(g);
      :- ClaimStage(snapshot, g, st);
      :- EnsureAppPrepared(snapshot, g, Claimed);
      :- EnsureOptionTargets(snapshot, g, Claimed);
      r, file := Fine, EnvFile(snapshot.envPrepared, ROOT_UID, site.ids.serviceGid, ENV_MODE);
    }

    /** Where recovery fails: a prepare that loses power between creating the env temporary
        and giving it its mode. A later rollback, whatever runs come before it, completes
        exactly when the umask had left the mode of the new file alone. */
    method LosePowerInEnvWrite(plan: seq<(Action, seq<Fate>)>, ghost g: Origin) returns (r: Status)
      requires Inv(site, disk, g) && IsOriginal(disk, g) && Quiet(disk) && Pinning(site)
      requires Installable(site, g) && g.env != InstalledEnv(site, g)
      modifies this
      ensures Inv(site, disk, g)
      ensures r.Fine? <==> site.freshEnvMode == ENV_MODE
    {
      fate := [];
      var file :- PrepareUpToEnv(g);
      fate := [Go, PowerLoss];
      var lost := ReplaceEnv(file, g, Claimed);
      RunAll(plan, g);
      if site.freshEnvMode == ENV_MODE {
        UmaskKeepsTempUsable(site, disk, g);
      }
      fate := [];
      var mode;
      r, mode := Run(Rollback, g);
    }
  }
}
